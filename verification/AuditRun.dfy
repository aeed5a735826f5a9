/** The audit of one deserialize call (lib/go/serify/run.go): was the input mutated,
    does decoding again give the same result, which fields alias the buffer; and what
    the probe leaves of the data that is then reported. */
module AuditRun {
  import opened Common
  import opened LittleEndian
  import opened AuditValues
  import opened AuditHeap
  import opened ZeroCopy

  // ---- reading a whole result ----------------------------------------------

  function PartArrays(p: Part<Data>): set<array<byte>> {
    match p case Kid(_) => {} case Other(d) => Arrays(d)
  }

  function SlotArrays(s: Slot<Slice, Data>): set<array<byte>> { {s.key.arr} + PartArrays(s.part) }

  function ValArrays(v: Val): set<array<byte>> {
    match v
    case Leaf(d) => Arrays(d)
    case Node(Tagged(_, tag), _) => {tag.arr}
    case Node(Items(_, parts), _) => set p, a | p in parts && a in PartArrays(p) :: a
    case Node(Entries(_, slots), _) => set s, a | s in slots && a in SlotArrays(s) :: a
    case _ => {}
  }

  ghost function RankArrays(rank: map<FieldMap, nat>): set<array<byte>>
    reads rank.Keys
  {
    set g, k, a | g in rank && k in g.fields && a in ValArrays(g.fields[k]) :: a
  }

  const EMPTY_MESSAGE := DMessage(Inner(0), map[])

  /** What a field map reads as, its nested field maps included. */
  function WholeNow(g: FieldMap, ghost rank: map<FieldMap, nat>): (d: Deep)
    requires Layered(rank) && g in rank
    reads rank.Keys, RankArrays(rank)
    ensures d.DMessage? && d.entries.Keys == g.fields.Keys
    decreases rank[g], 4
  {
    DMessage(Object(g), map k | k in g.fields :: ValNow(g, k, rank))
  }

  function ValNow(g: FieldMap, k: string, ghost rank: map<FieldMap, nat>): Deep
    requires Layered(rank) && g in rank && k in g.fields
    reads rank.Keys, RankArrays(rank)
    decreases rank[g], 3
  {
    assert ValArrays(g.fields[k]) <= RankArrays(rank);
    match g.fields[k]
    case Leaf(d) => Now(d)
    case Node(Single, kids) => KidNow(g, k, 0, rank)
    case Node(Many(at), kids) => DList(at, true, seq(|kids|, i requires 0 <= i < |kids| && Layered(rank) &&
        g in rank && k in g.fields && g.fields[k].Node? reads rank.Keys, RankArrays(rank) => KidNow(g, k, i, rank)))
    case Node(Tagged(at, tag), kids) => DVariant(at, Here(tag), KidNow(g, k, 0, rank))
    case Node(Items(at, parts), kids) => DList(at, false, seq(|parts|, i requires 0 <= i < |parts| && Layered(rank) &&
        g in rank && k in g.fields && g.fields[k].Node? && PartArrays(parts[i]) <= RankArrays(rank) reads rank.Keys,
            RankArrays(rank) => PartNow(g, k, parts[i], rank)))
    case Node(Entries(at, slots), kids) => DDict(at, seq(|slots|, i requires 0 <= i < |slots| && Layered(rank) &&
        g in rank && k in g.fields && g.fields[k].Node? && SlotArrays(slots[i]) <= RankArrays(rank) reads rank.Keys,
            RankArrays(rank) => SlotNow(g, k, slots[i], rank)))
  }

  function KidNow(g: FieldMap, k: string, i: nat, ghost rank: map<FieldMap, nat>): Deep
    requires Layered(rank) && g in rank && k in g.fields && g.fields[k].Node?
    reads rank.Keys, RankArrays(rank)
    decreases rank[g], 0
  {
    if i < |g.fields[k].kids| then WholeNow(g.fields[k].kids[i], rank) else EMPTY_MESSAGE
  }

  function PartNow(g: FieldMap, k: string, p: Part<Data>, ghost rank: map<FieldMap, nat>): Deep
    requires Layered(rank) && g in rank && k in g.fields && g.fields[k].Node? && PartArrays(p) <= RankArrays(rank)
    reads rank.Keys, RankArrays(rank)
    decreases rank[g], 1
  {
    match p
    case Kid(i) => KidNow(g, k, i, rank)
    case Other(d) => Now(d)
  }

  function SlotNow(g: FieldMap, k: string, s: Slot<Slice, Data>, ghost rank: map<FieldMap, nat>): DEntry
    requires Layered(rank) && g in rank && k in g.fields && g.fields[k].Node? && SlotArrays(s) <= RankArrays(rank)
    reads rank.Keys, RankArrays(rank)
    decreases rank[g], 2
  {
    DEntry(Label(s.filed, Here(s.key)), PartNow(g, k, s.part, rank))
  }

  // ---- two readings compared -----------------------------------------------

  /** A field's own reading, its nested field maps left as they are. */
  datatype Flat = FLeaf(r: Deep) | FNode(shape: Shape<seq<byte>, Deep>, kids: seq<FieldMap>)
  type Flats = map<FieldMap, map<string, Flat>>

  ghost predicate LayeredIn(rank: map<FieldMap, nat>, fl: Flats) {
    && fl.Keys == rank.Keys
    && forall g, k, c | g in fl && k in fl[g] && fl[g][k].FNode? && c in fl[g][k].kids :: c in rank && rank[c] < rank[g]
  }

  /** A whole reading from the flat ones. */
  ghost function Whole(rank: map<FieldMap, nat>, fl: Flats, g: FieldMap): (d: Deep)
    requires LayeredIn(rank, fl) && g in rank
    decreases rank[g], 3
  {
    DMessage(Object(g), WholeFields(rank, fl, g))
  }

  ghost function WholeFields(rank: map<FieldMap, nat>, fl: Flats, g: FieldMap): (m: map<string, Deep>)
    requires LayeredIn(rank, fl) && g in rank
    ensures m.Keys == fl[g].Keys && forall k | k in m :: m[k] == WholeVal(rank, fl, g, k)
    decreases rank[g], 2
  {
    map k | k in fl[g] :: WholeVal(rank, fl, g, k)
  }

  ghost function WholeVal(rank: map<FieldMap, nat>, fl: Flats, g: FieldMap, k: string): Deep
    requires LayeredIn(rank, fl) && g in rank && k in fl[g]
    decreases rank[g], 1
  {
    match fl[g][k]
    case FLeaf(r) => r
    case FNode(shape, kids) => Built(shape, KidWholes(rank, fl, g, k))
  }

  ghost function KidWholes(rank: map<FieldMap, nat>, fl: Flats, g: FieldMap, k: string): (ds: seq<Deep>)
    requires LayeredIn(rank, fl) && g in rank && k in fl[g] && fl[g][k].FNode?
    ensures |ds| == |fl[g][k].kids| && forall i | 0 <= i < |ds| :: ds[i] == Whole(rank, fl, fl[g][k].kids[i])
    decreases rank[g], 0
  {
    seq(|fl[g][k].kids|, i requires 0 <= i < |fl[g][k].kids| => Whole(rank, fl, fl[g][k].kids[i]))
  }

  function Nth(kids: seq<Deep>, i: nat): Deep { if i < |kids| then kids[i] else EMPTY_MESSAGE }

  function PartBuilt(p: Part<Deep>, kids: seq<Deep>): Deep {
    match p case Kid(i) => Nth(kids, i) case Other(d) => d
  }

  /** A value put together from the readings of its field maps. */
  function Built(shape: Shape<seq<byte>, Deep>, kids: seq<Deep>): Deep {
    match shape
    case Single => Nth(kids, 0)
    case Many(at) => DList(at, true, kids)
    case Tagged(at, tag) => DVariant(at, tag, Nth(kids, 0))
    case Items(at, parts) => DList(at, false, seq(|parts|, i requires 0 <= i < |parts| => PartBuilt(parts[i], kids)))
    case Entries(at, slots) => DDict(at, seq(|slots|, i requires 0 <= i < |slots| => SlotBuilt(slots[i], kids)))
  }

  function SlotBuilt(s: Slot<seq<byte>, Deep>, kids: seq<Deep>): DEntry {
    DEntry(Label(s.filed, s.key), PartBuilt(s.part, kids))
  }

  predicate LikeParts(p: Part<Deep>, q: Part<Deep>) { p.Kid? || q.Kid? ==> p == q }

  /** The same outline: the nested field maps stand in the same places. */
  predicate LikeShape(a: Shape<seq<byte>, Deep>, b: Shape<seq<byte>, Deep>) {
    match (a, b)
    case (Single, Single) => true
    case (Many(_), Many(_)) => true
    case (Tagged(_, _), Tagged(_, _)) => true
    case (Items(_, p), Items(_, q)) => |p| == |q| && forall i | 0 <= i < |p| :: LikeParts(p[i], q[i])
    case (Entries(_, p), Entries(_, q)) => |p| == |q| && forall i | 0 <= i < |p| :: LikeParts(p[i].part, q[i].part)
    case _ => false
  }

  /** The field map at position `i` is an element. */
  predicate InParts<D>(parts: seq<Part<D>>, i: nat) { exists j | 0 <= j < |parts| :: parts[j].Kid? && parts[j].i == i }

  predicate InSlots<S, D>(slots: seq<Slot<S, D>>, i: nat) {
    exists j | 0 <= j < |slots| :: slots[j].part.Kid? && slots[j].part.i == i
  }

  /** Every nested field map is part of the value. */
  predicate Uses(shape: Shape<seq<byte>, Deep>, n: nat) {
    match shape
    case Single => n == 1
    case Many(_) => true
    case Tagged(_, _) => n == 1
    case Items(_, parts) => forall i | 0 <= i < n :: InParts(parts, i)
    case Entries(_, slots) => forall i | 0 <= i < n :: InSlots(slots, i)
  }

  /** Put together the same way, two values are equal exactly when their own bytes and
      all their field maps read the same. */
  lemma BuiltSame(a: Shape<seq<byte>, Deep>, b: Shape<seq<byte>, Deep>, xs: seq<Deep>, ys: seq<Deep>)
    requires LikeShape(a, b) && |xs| == |ys| && Uses(a, |xs|)
    ensures Built(a, xs) == Built(b, ys) <==> a == b && xs == ys
  {
    match a
    case Single =>
    case Many(_) =>
    case Tagged(_, _) =>
    case Items(_, p) => ItemsSame(a, b, xs, ys);
    case Entries(_, p) => EntriesSame(a, b, xs, ys);
  }

  lemma ItemsSame(x: Shape<seq<byte>, Deep>, y: Shape<seq<byte>, Deep>, xs: seq<Deep>, ys: seq<Deep>)
    requires x.Items? && LikeShape(x, y) && |xs| == |ys| && Uses(x, |xs|)
    ensures Built(x, xs) == Built(y, ys) <==> x == y && xs == ys
  {
    var p, q, a, b := x.parts, y.parts, Built(x, xs).items, Built(y, ys).items;
    if a == b {
      forall i | 0 <= i < |xs| ensures xs[i] == ys[i] {
        assert InParts(p, i);
        var j :| 0 <= j < |p| && p[j].Kid? && p[j].i == i;
        assert LikeParts(p[j], q[j]) && a[j] == b[j];
      }
      forall j | 0 <= j < |p| ensures p[j] == q[j] {
        assert LikeParts(p[j], q[j]) && a[j] == b[j];
      }
    }
  }

  lemma EntriesSame(x: Shape<seq<byte>, Deep>, y: Shape<seq<byte>, Deep>, xs: seq<Deep>, ys: seq<Deep>)
    requires x.Entries? && LikeShape(x, y) && |xs| == |ys| && Uses(x, |xs|)
    ensures Built(x, xs) == Built(y, ys) <==> x == y && xs == ys
  {
    var p, q, a, b := x.slots, y.slots, Built(x, xs).pairs, Built(y, ys).pairs;
    if a == b {
      forall i | 0 <= i < |xs| ensures xs[i] == ys[i] {
        assert InSlots(p, i);
        var j :| 0 <= j < |p| && p[j].part.Kid? && p[j].part.i == i;
        assert LikeParts(p[j].part, q[j].part) && a[j] == b[j];
      }
      forall j | 0 <= j < |p| ensures p[j] == q[j] {
        assert LikeParts(p[j].part, q[j].part) && a[j] == b[j];
      }
    }
  }

  /** The field maps from `g` on. */
  ghost function ReachIn(rank: map<FieldMap, nat>, fl: Flats, g: FieldMap): (s: set<FieldMap>)
    requires LayeredIn(rank, fl) && g in rank
    ensures g in s && s <= rank.Keys
    decreases rank[g]
  {
    {g} + set k, c, h | k in fl[g] && fl[g][k].FNode? && c in fl[g][k].kids && h in ReachIn(rank, fl, c) :: h
  }

  predicate Alike(a: Flat, b: Flat) {
    if a.FLeaf? then b.FLeaf?
    else b.FNode? && a.kids == b.kids && LikeShape(a.shape, b.shape) && Uses(a.shape, |a.kids|)
  }

  /** Two states of the same field maps. */
  ghost predicate AllAlike(a: Flats, b: Flats) {
    a.Keys == b.Keys && forall g | g in a :: a[g].Keys == b[g].Keys && forall k | k in a[g] :: Alike(a[g][k], b[g][k])
  }

  lemma KidsSame(rank: map<FieldMap, nat>, a: Flats, b: Flats, g: FieldMap, k: string)
    requires LayeredIn(rank, a) && LayeredIn(rank, b) && g in rank && k in a[g] && k in b[g]
    requires a[g][k].FNode? && b[g][k].FNode? && a[g][k].kids == b[g][k].kids
    ensures KidWholes(rank, a, g, k) == KidWholes(rank, b, g, k) <==>
            forall c | c in a[g][k].kids :: Whole(rank, a, c) == Whole(rank, b, c)
  {
    hide Whole;
    var xs, ys, kids := KidWholes(rank, a, g, k), KidWholes(rank, b, g, k), a[g][k].kids;
    if xs == ys {
      forall c | c in kids ensures Whole(rank, a, c) == Whole(rank, b, c) {
        var i :| 0 <= i < |kids| && kids[i] == c;
        assert xs[i] == ys[i];
      }
    }
    if forall c | c in kids :: Whole(rank, a, c) == Whole(rank, b, c) {
      forall i | 0 <= i < |xs| ensures xs[i] == ys[i] {
        assert kids[i] in kids;
      }
    }
  }

  lemma ValSame(rank: map<FieldMap, nat>, a: Flats, b: Flats, g: FieldMap, k: string)
    requires LayeredIn(rank, a) && LayeredIn(rank, b) && AllAlike(a, b) && g in rank && k in a[g]
    ensures WholeVal(rank, a, g, k) == WholeVal(rank, b, g, k) <==>
            a[g][k] == b[g][k] &&
            (a[g][k].FNode? ==> forall c | c in a[g][k].kids :: Whole(rank, a, c) == Whole(rank, b, c))
  {
    hide Whole, Built, LikeShape, Uses, KidWholes;
    assert Alike(a[g][k], b[g][k]);
    if a[g][k].FNode? {
      BuiltSame(a[g][k].shape, b[g][k].shape, KidWholes(rank, a, g, k), KidWholes(rank, b, g, k));
      KidsSame(rank, a, b, g, k);
    }
  }

  /** Everything below the field reads the same. */
  ghost predicate BelowSame(rank: map<FieldMap, nat>, a: Flats, b: Flats, g: FieldMap, k: string)
    requires LayeredIn(rank, a) && a.Keys == b.Keys && g in rank && k in a[g]
  {
    a[g][k].FNode? ==> forall c | c in a[g][k].kids :: ReachSame(rank, a, b, c)
  }

  ghost predicate ReachSame(rank: map<FieldMap, nat>, a: Flats, b: Flats, g: FieldMap)
    requires LayeredIn(rank, a) && a.Keys == b.Keys && g in rank
  {
    forall h | h in ReachIn(rank, a, g) :: a[h] == b[h]
  }

  lemma ReachParts(rank: map<FieldMap, nat>, a: Flats, b: Flats, g: FieldMap)
    requires LayeredIn(rank, a) && a.Keys == b.Keys && g in rank
    ensures ReachSame(rank, a, b, g) <==> a[g] == b[g] && forall k | k in a[g] :: BelowSame(rank, a, b, g, k)
  {
    if ReachSame(rank, a, b, g) {
      forall k, c, h | k in a[g] && a[g][k].FNode? && c in a[g][k].kids &&
          h in ReachIn(rank, a, c) ensures a[h] == b[h] {
        assert h in ReachIn(rank, a, g);
      }
    }
  }

  /** A whole result reads the same exactly when every field on the way does. */
  lemma {:induction false} WholeSame(rank: map<FieldMap, nat>, a: Flats, b: Flats, g: FieldMap)
    requires LayeredIn(rank, a) && LayeredIn(rank, b) && AllAlike(a, b) && g in rank
    ensures Whole(rank, a, g) == Whole(rank, b, g) <==> ReachSame(rank, a, b, g)
    decreases rank[g]
  {
    hide Alike, ReachSame, ReachIn, Whole, WholeVal;
    forall k | k in a[g]
      ensures WholeVal(rank, a, g, k) == WholeVal(rank, b, g, k) <==> a[g][k] == b[g][k] && BelowSame(rank, a, b, g, k)
    {
      ValSame(rank, a, b, g, k);
      if a[g][k].FNode? {
        forall c | c in a[g][k].kids ensures Whole(rank, a, c) == Whole(rank, b, c) <==> ReachSame(rank, a, b, c) {
          WholeSame(rank, a, b, c);
        }
      }
    }
    hide BelowSame;
    WholeByFields(rank, a, b, g);
    ReachParts(rank, a, b, g);
  }

  lemma WholeByFields(rank: map<FieldMap, nat>, a: Flats, b: Flats, g: FieldMap)
    requires LayeredIn(rank, a) && LayeredIn(rank, b) && g in rank && a[g].Keys == b[g].Keys
    ensures Whole(rank, a, g) == Whole(rank, b, g) <==>
            forall k | k in a[g] :: WholeVal(rank, a, g, k) == WholeVal(rank, b, g, k)
  {
    hide WholeVal;
    var x, y := WholeFields(rank, a, g), WholeFields(rank, b, g);
    assert Whole(rank, a, g) == Whole(rank, b, g) <==> x == y;
    if x == y {
      forall k | k in a[g] ensures WholeVal(rank, a, g, k) == WholeVal(rank, b, g, k) {
        assert x[k] == y[k];
      }
    }
  }

  // ---- the flat readings of the heap ---------------------------------------

  ghost function FlatPart(p: Part<Data>): Part<Deep>
    reads PartArrays(p)
  {
    match p case Kid(i) => Kid(i) case Other(d) => Other(Now(d))
  }

  ghost function FlatParts(parts: seq<Part<Data>>): (r: seq<Part<Deep>>)
    reads set p, a | p in parts && a in PartArrays(p) :: a
    ensures |r| == |parts| && forall i | 0 <= i < |parts| :: r[i] == FlatPart(parts[i])
  {
    if parts == [] then [] else [FlatPart(parts[0])] + FlatParts(parts[1..])
  }

  ghost function FlatSlot(s: Slot<Slice, Data>): Slot<seq<byte>, Deep>
    reads SlotArrays(s)
  {
    Slot(Here(s.key), s.filed, FlatPart(s.part))
  }

  ghost function FlatSlots(slots: seq<Slot<Slice, Data>>): (r: seq<Slot<seq<byte>, Deep>>)
    reads set s, a | s in slots && a in SlotArrays(s) :: a
    ensures |r| == |slots| && forall i | 0 <= i < |slots| :: r[i] == FlatSlot(slots[i])
  {
    if slots == [] then [] else [FlatSlot(slots[0])] + FlatSlots(slots[1..])
  }

  ghost function FlatNow(v: Val): Flat
    reads ValArrays(v)
  {
    match v
    case Leaf(d) => FLeaf(Now(d))
    case Node(Single, kids) => FNode(Single, kids)
    case Node(Many(at), kids) => FNode(Many(at), kids)
    case Node(Tagged(at, tag), kids) => FNode(Tagged(at, Here(tag)), kids)
    case Node(Items(at, parts), kids) => FNode(Items(at, FlatParts(parts)), kids)
    case Node(Entries(at, slots), kids) => FNode(Entries(at, FlatSlots(slots)), kids)
  }

  ghost function FlatsNow(rank: map<FieldMap, nat>): (fl: Flats)
    reads rank.Keys, RankArrays(rank)
    ensures fl.Keys == rank.Keys
    ensures forall g | g in fl ::
              fl[g].Keys == g.fields.Keys && forall k | k in fl[g] :: fl[g][k] == FlatNow(g.fields[k])
  {
    map g | g in rank :: FieldsNow(g, rank)
  }

  ghost function FieldsNow(g: FieldMap, rank: map<FieldMap, nat>): (m: map<string, Flat>)
    requires g in rank
    reads rank.Keys, RankArrays(rank)
    ensures m.Keys == g.fields.Keys && forall k | k in m :: m[k] == FlatNow(g.fields[k])
  {
    assert forall k | k in g.fields :: ValArrays(g.fields[k]) <= RankArrays(rank);
    map k | k in g.fields :: FlatNow(g.fields[k])
  }

  lemma FlatKids(v: Val)
    ensures v.Node? <==> FlatNow(v).FNode?
    ensures v.Node? ==> FlatNow(v).kids == v.kids
  {
  }

  lemma LayeredFlats(rank: map<FieldMap, nat>)
    requires Layered(rank)
    ensures LayeredIn(rank, FlatsNow(rank))
  {
    hide FlatNow;
    var fl: map<FieldMap, map<string, Flat>> := FlatsNow(rank);
    forall g: FieldMap, k: string, c: FieldMap | g in fl && k in fl[g] && fl[g][k].FNode? &&
        c in fl[g][k].kids ensures c in rank && rank[c] < rank[g] {
      FlatKids(g.fields[k]);
    }
  }

  /** The reading of a result is built from the flat ones. */
  lemma {:induction false} WholeIs(rank: map<FieldMap, nat>, g: FieldMap)
    requires Layered(rank) && g in rank
    ensures LayeredIn(rank, FlatsNow(rank)) && WholeNow(g, rank) == Whole(rank, FlatsNow(rank), g)
    decreases rank[g]
  {
    LayeredFlats(rank);
    var fl := FlatsNow(rank);
    hide FlatsNow, LayeredIn, WholeVal, ValNow;
    forall k | k in g.fields ensures ValNow(g, k, rank) == WholeVal(rank, fl, g, k) {
      FlatKids(g.fields[k]);
      if g.fields[k].Node? {
        forall c | c in g.fields[k].kids
          ensures c in rank && rank[c] < rank[g] && WholeNow(c, rank) == Whole(rank, fl, c)
        {
          WholeIs(rank, c);
        }
      }
      ValIs(rank, fl, g, k);
    }
    assert WholeFields(rank, fl, g) == WholeNow(g, rank).entries;
  }

  lemma ValIs(rank: map<FieldMap, nat>, fl: Flats, g: FieldMap, k: string)
    requires Layered(rank) && LayeredIn(rank, fl) && g in rank && k in g.fields && k in fl[g] &&
             fl[g][k] == FlatNow(g.fields[k])
    requires g.fields[k].Node? ==>
             forall c | c in g.fields[k].kids :: c in rank && WholeNow(c, rank) == Whole(rank, fl, c)
    ensures ValNow(g, k, rank) == WholeVal(rank, fl, g, k)
  {
    hide WholeNow, Whole, Now, Here;
    match g.fields[k]
    case Leaf(_) =>
    case Node(Single, kids) =>
    case Node(Many(_), kids) => assert ValNow(g, k, rank).items == KidWholes(rank, fl, g, k);
    case Node(Tagged(_, _), kids) =>
    case Node(Items(_, _), kids) => ItemsAre(rank, fl, g, k);
    case Node(Entries(_, _), kids) => EntriesAre(rank, fl, g, k);
  }

  lemma PartIs(rank: map<FieldMap, nat>, fl: Flats, g: FieldMap, k: string, p: Part<Data>)
    requires Layered(rank) && LayeredIn(rank, fl) && g in rank && k in g.fields && k in fl[g]
    requires g.fields[k].Node? && fl[g][k].FNode? && fl[g][k].kids == g.fields[k].kids &&
             PartArrays(p) <= RankArrays(rank)
    requires forall c | c in g.fields[k].kids :: c in rank && WholeNow(c, rank) == Whole(rank, fl, c)
    ensures PartNow(g, k, p, rank) == PartBuilt(FlatPart(p), KidWholes(rank, fl, g, k))
  {
    hide WholeNow, Whole, Now, RankArrays, Layered, LayeredIn;
    if p.Kid? && p.i < |g.fields[k].kids| {
      assert g.fields[k].kids[p.i] in g.fields[k].kids;
    }
  }

  lemma SlotIs(rank: map<FieldMap, nat>, fl: Flats, g: FieldMap, k: string, s: Slot<Slice, Data>)
    requires Layered(rank) && LayeredIn(rank, fl) && g in rank && k in g.fields && k in fl[g]
    requires g.fields[k].Node? && fl[g][k].FNode? && fl[g][k].kids == g.fields[k].kids &&
             SlotArrays(s) <= RankArrays(rank)
    requires forall c | c in g.fields[k].kids :: c in rank && WholeNow(c, rank) == Whole(rank, fl, c)
    ensures SlotNow(g, k, s, rank) == SlotBuilt(FlatSlot(s), KidWholes(rank, fl, g, k))
  {
    hide WholeNow, Whole, PartNow, PartBuilt, FlatPart, RankArrays, Layered, LayeredIn, Here;
    PartIs(rank, fl, g, k, s.part);
  }

  lemma ItemsAre(rank: map<FieldMap, nat>, fl: Flats, g: FieldMap, k: string)
    requires Layered(rank) && LayeredIn(rank, fl) && g in rank && k in g.fields && k in fl[g] &&
             fl[g][k] == FlatNow(g.fields[k])
    requires g.fields[k].Node? && g.fields[k].shape.Items?
    requires forall c | c in g.fields[k].kids :: c in rank && WholeNow(c, rank) == Whole(rank, fl, c)
    ensures ValNow(g, k, rank) == WholeVal(rank, fl, g, k)
  {
    hide WholeNow, Whole, PartNow, PartBuilt, FlatPart, Layered, LayeredIn;
    var parts, a, b := g.fields[k].shape.parts, ValNow(g, k, rank).items, WholeVal(rank, fl, g, k).items;
    assert ValArrays(g.fields[k]) <= RankArrays(rank);
    forall i | 0 <= i < |parts| ensures a[i] == b[i] {
      assert parts[i] in parts && PartArrays(parts[i]) <= ValArrays(g.fields[k]);
      PartIs(rank, fl, g, k, parts[i]);
    }
    assert a == b;
  }

  lemma EntriesAre(rank: map<FieldMap, nat>, fl: Flats, g: FieldMap, k: string)
    requires Layered(rank) && LayeredIn(rank, fl) && g in rank && k in g.fields && k in fl[g] &&
             fl[g][k] == FlatNow(g.fields[k])
    requires g.fields[k].Node? && g.fields[k].shape.Entries?
    requires forall c | c in g.fields[k].kids :: c in rank && WholeNow(c, rank) == Whole(rank, fl, c)
    ensures ValNow(g, k, rank) == WholeVal(rank, fl, g, k)
  {
    hide WholeNow, Whole, SlotNow, SlotBuilt, FlatSlot, Layered, LayeredIn;
    var slots, a, b := g.fields[k].shape.slots, ValNow(g, k, rank).pairs, WholeVal(rank, fl, g, k).pairs;
    assert ValArrays(g.fields[k]) <= RankArrays(rank);
    forall i | 0 <= i < |slots| ensures a[i] == b[i] {
      assert slots[i] in slots && SlotArrays(slots[i]) <= ValArrays(g.fields[k]);
      SlotIs(rank, fl, g, k, slots[i]);
    }
    assert a == b;
  }

  lemma ReachSteps(rank: map<FieldMap, nat>, g: FieldMap, h: FieldMap) returns (k: string, c: FieldMap)
    requires Layered(rank) && g in rank && h in Reach(rank, g) && h != g
    ensures k in g.fields && g.fields[k].Node? && c in g.fields[k].kids && c in rank && rank[c] < rank[g] &&
            h in Reach(rank, c)
  {
    k, c :| k in g.fields && g.fields[k].Node? && c in g.fields[k].kids && h in Reach(rank, c);
  }

  lemma KidReaches(rank: map<FieldMap, nat>, fl: Flats, g: FieldMap, h: FieldMap)
    requires LayeredIn(rank, fl) && g in rank && h in ReachIn(rank, fl, g) && h != g
    ensures exists k, c :: k in fl[g] && fl[g][k].FNode? && c in fl[g][k].kids && h in ReachIn(rank, fl, c)
  {
  }

  lemma ReachInSteps(rank: map<FieldMap, nat>, fl: Flats, g: FieldMap, h: FieldMap) returns (k: string, c: FieldMap)
    requires LayeredIn(rank, fl) && g in rank && h in ReachIn(rank, fl, g) && h != g
    ensures k in fl[g] && fl[g][k].FNode? && c in fl[g][k].kids && c in rank && rank[c] < rank[g] &&
            h in ReachIn(rank, fl, c)
  {
    hide ReachIn;
    KidReaches(rank, fl, g, h);
    k, c :| k in fl[g] && fl[g][k].FNode? && c in fl[g][k].kids && h in ReachIn(rank, fl, c);
  }

  lemma ReachGrows(rank: map<FieldMap, nat>, g: FieldMap, k: string, c: FieldMap)
    requires Layered(rank) && g in rank && k in g.fields && g.fields[k].Node? && c in g.fields[k].kids
    ensures c in rank && Reach(rank, c) <= Reach(rank, g)
  {
  }

  lemma ReachInGrows(rank: map<FieldMap, nat>, fl: Flats, g: FieldMap, k: string, c: FieldMap)
    requires LayeredIn(rank, fl) && g in rank && k in fl[g] && fl[g][k].FNode? && c in fl[g][k].kids
    ensures c in rank && ReachIn(rank, fl, c) <= ReachIn(rank, fl, g)
  {
  }

  lemma {:induction false} ReachAt(rank: map<FieldMap, nat>, g: FieldMap, h: FieldMap)
    requires Layered(rank) && g in rank
    ensures LayeredIn(rank, FlatsNow(rank)) && (h in Reach(rank, g) <==> h in ReachIn(rank, FlatsNow(rank), g))
    decreases rank[g]
  {
    LayeredFlats(rank);
    var fl := FlatsNow(rank);
    hide FlatsNow, LayeredIn, FlatNow, Reach, ReachIn, Layered;
    if h != g {
      if h in Reach(rank, g) {
        var k, c := ReachSteps(rank, g, h);
        FlatKids(g.fields[k]);
        ReachAt(rank, c, h);
        ReachInGrows(rank, fl, g, k, c);
      }
      if h in ReachIn(rank, fl, g) {
        var k, c := ReachInSteps(rank, fl, g, h);
        FlatKids(g.fields[k]);
        ReachAt(rank, c, h);
        ReachGrows(rank, g, k, c);
      }
    }
  }

  lemma ReachIs(rank: map<FieldMap, nat>, g: FieldMap)
    requires Layered(rank) && g in rank
    ensures LayeredIn(rank, FlatsNow(rank)) && Reach(rank, g) == ReachIn(rank, FlatsNow(rank), g)
  {
    hide Reach, ReachIn, FlatsNow;
    LayeredFlats(rank);
    forall h: FieldMap ensures h in Reach(rank, g) <==> h in ReachIn(rank, FlatsNow(rank), g) {
      ReachAt(rank, g, h);
    }
  }

  // ---- one field after the probe -------------------------------------------

  predicate PartReadable(mem: Mem, p: Part<Data>) { p.Other? ==> Readable(mem, p.d) }

  predicate ValReadable(mem: Mem, v: Val) {
    match v
    case Leaf(d) => Readable(mem, d)
    case Node(Tagged(_, tag), _) => InMem(mem, tag)
    case Node(Items(_, parts), _) => forall i | 0 <= i < |parts| :: PartReadable(mem, parts[i])
    case Node(Entries(_, slots), _) =>
      forall i | 0 <= i < |slots| :: InMem(mem, slots[i].key) && PartReadable(mem, slots[i].part)
    case _ => true
  }

  predicate PartFiled(mem: Mem, p: Part<Data>) { p.Other? ==> Filed(mem, p.d) }

  /** Every map in the field files its entries under what their keys read as. */
  predicate ValFiled(mem: Mem, v: Val) {
    match v
    case Leaf(d) => Filed(mem, d)
    case Node(Items(_, parts), _) => forall i | 0 <= i < |parts| :: PartFiled(mem, parts[i])
    case Node(Entries(_, slots), _) =>
      && (forall i | 0 <= i < |slots| :: slots[i].filed == Peek(mem, slots[i].key) && PartFiled(mem, slots[i].part))
      && forall i, j | 0 <= i < j < |slots| :: slots[i].filed != slots[j].filed
    case _ => true
  }

  function PartContent(mem: Mem, p: Part<Data>): Part<Deep> {
    match p case Kid(i) => Kid(i) case Other(d) => Other(Content(mem, d))
  }

  /** The flat reading the recorded contents give. */
  function FlatIn(mem: Mem, v: Val): Flat {
    match v
    case Leaf(d) => FLeaf(Content(mem, d))
    case Node(Single, kids) => FNode(Single, kids)
    case Node(Many(at), kids) => FNode(Many(at), kids)
    case Node(Tagged(at, tag), kids) => FNode(Tagged(at, Peek(mem, tag)), kids)
    case Node(Items(at, parts), kids) => FNode(Items(at, seq(|parts|, i requires 0 <= i < |parts| =>
        PartContent(mem, parts[i]))), kids)
    case Node(Entries(at, slots), kids) => FNode(Entries(at, seq(|slots|, i requires 0 <= i < |slots| =>
        SlotContent(mem, slots[i]))), kids)
  }

  function SlotContent(mem: Mem, s: Slot<Slice, Data>): Slot<seq<byte>, Deep> {
    Slot(Peek(mem, s.key), s.filed, PartContent(mem, s.part))
  }

  lemma PartRead(mem: Mem, p: Part<Data>)
    requires MemIs(mem) && PartReadable(mem, p)
    ensures FlatPart(p) == PartContent(mem, p)
  {
    if p.Other? { NowIs(mem, p.d); }
  }

  lemma FlatRead(mem: Mem, v: Val)
    requires MemIs(mem) && ValReadable(mem, v)
    ensures FlatNow(v) == FlatIn(mem, v)
  {
    hide MemIs, Readable, InMem, Content, Now, PartReadable, PartContent, FlatPart, Here, Peek;
    match v
    case Leaf(d) => NowIs(mem, d);
    case Node(Tagged(_, tag), _) => HereIs(mem, tag);
    case Node(Items(_, parts), _) =>
      forall i | 0 <= i < |parts| ensures FlatPart(parts[i]) == PartContent(mem, parts[i]) { PartRead(mem, parts[i]); }
      assert FlatNow(v).shape.parts == FlatIn(mem, v).shape.parts;
    case Node(Entries(_, slots), _) =>
      forall i | 0 <= i < |slots| ensures FlatSlot(slots[i]) == SlotContent(mem, slots[i]) {
        HereIs(mem, slots[i].key);
        PartRead(mem, slots[i].part);
      }
      assert FlatNow(v).shape.slots == FlatIn(mem, v).shape.slots;
    case _ =>
  }

  predicate PartLost(p: Part<Data>, b: Slice) { p.Other? && (Touches(p.d, b) || Leaks(p.d, b)) }

  /** The probe leaves the field reading flipped bytes. */
  predicate ValLost(v: Val, b: Slice) {
    match v
    case Leaf(d) => Lost(d, b)
    case Node(Tagged(_, tag), _) => Overlap(tag, b)
    case Node(Items(_, parts), _) => exists i | 0 <= i < |parts| :: PartLost(parts[i], b)
    case Node(Entries(_, slots), _) =>
      exists i | 0 <= i < |slots| :: Overlap(slots[i].key, b) || PartLost(slots[i].part, b)
    case _ => false
  }

  lemma PartFlip(mem: Mem, p: Part<Data>, b: Slice)
    requires InMem(mem, b) && PartReadable(mem, p)
    ensures PartContent(Flip(mem, b), p) == PartContent(mem, p) <==> !PartLost(p, b)
    ensures PartReadable(Flip(mem, b), p)
  {
    hide Flip, InMem, Readable, Content;
    if p.Other? {
      PlaceReads(mem, p.d, b);
      StillReadable(mem, p.d, b);
    }
  }

  /** A node is left in place; it reads the same exactly when it lost nothing. */
  lemma NodeFlip(mem: Mem, v: Val, b: Slice)
    requires InMem(mem, b) && ValReadable(mem, v) && v.Node?
    ensures FlatIn(Flip(mem, b), v) == FlatIn(mem, v) <==> !ValLost(v, b)
    ensures ValReadable(Flip(mem, b), v)
  {
    hide Flip, InMem, PartReadable, PartContent, PartLost, Overlap, Peek;
    match v
    case Node(Tagged(_, tag), _) =>
      SliceFlip(mem, tag, b);
      FlipKeeps(mem, b);
    case Node(Items(_, parts), _) =>
      var x, y := FlatIn(Flip(mem, b), v).shape.parts, FlatIn(mem, v).shape.parts;
      forall i | 0 <= i < |parts|
        ensures (x[i] == y[i] <==> !PartLost(parts[i], b)) && PartReadable(Flip(mem, b), parts[i])
      {
        PartFlip(mem, parts[i], b);
      }
      assert x == y <==> forall i | 0 <= i < |parts| :: x[i] == y[i];
    case Node(Entries(_, slots), _) =>
      var x, y := FlatIn(Flip(mem, b), v).shape.slots, FlatIn(mem, v).shape.slots;
      FlipKeeps(mem, b);
      forall i | 0 <= i < |slots|
        ensures x[i] == y[i] <==> !Overlap(slots[i].key, b) && !PartLost(slots[i].part, b)
        ensures PartReadable(Flip(mem, b), slots[i].part)
      {
        SliceFlip(mem, slots[i].key, b);
        PartFlip(mem, slots[i].part, b);
      }
      assert x == y <==> forall i | 0 <= i < |slots| :: x[i] == y[i];
    case _ =>
  }

  /** Every nested field map is part of the value. */
  predicate UsesKids(v: Val) {
    match v
    case Node(Single, kids) => |kids| == 1
    case Node(Tagged(_, _), kids) => |kids| == 1
    case Node(Items(_, parts), kids) => forall i | 0 <= i < |kids| :: InParts(parts, i)
    case Node(Entries(_, slots), kids) => forall i | 0 <= i < |kids| :: InSlots(slots, i)
    case _ => true
  }

  lemma AlikeIn(m: Mem, n: Mem, v: Val)
    requires UsesKids(v)
    ensures Alike(FlatIn(m, v), FlatIn(n, v))
  {
    hide Content, Peek;
    match v
    case Node(Items(_, parts), kids) =>
      var out := FlatIn(m, v).shape.parts;
      forall i | 0 <= i < |kids| ensures InParts(out, i) {
        assert InParts(parts, i);
        var j :| 0 <= j < |parts| && parts[j].Kid? && parts[j].i == i;
        assert out[j] == Kid(i);
      }
    case Node(Entries(_, slots), kids) =>
      var out := FlatIn(m, v).shape.slots;
      forall i | 0 <= i < |kids| ensures InSlots(out, i) {
        assert InSlots(slots, i);
        var j :| 0 <= j < |slots| && slots[j].part.Kid? && slots[j].part.i == i;
        assert out[j].part == Kid(i);
      }
    case _ =>
  }

  /** What the probe did to one field, told by the flat readings. */
  lemma FieldAfter(mem: Mem, buf: Slice, v: Val, w: Val, before: Flat)
    requires InMem(mem, buf) && MemIs(Flip(mem, buf)) && ValReadable(mem, v) && UsesKids(v) && before == FlatIn(mem, v)
    requires if v.Node? then w == v else w.Leaf?
    ensures Alike(before, FlatNow(w))
    ensures v.Node? || (Now(w.d) == Content(mem, v.d) <==> !Lost(v.d, buf)) ==>
            (before == FlatNow(w) <==> !ValLost(v, buf))
  {
    hide MemIs, InMem, Flip, Now, Content, Lost;
    if v.Node? {
      NodeFlip(mem, v, buf);
      FlatRead(Flip(mem, buf), v);
      AlikeIn(mem, Flip(mem, buf), v);
    }
  }

  // ---- compareFieldMaps ----------------------------------------------------

  predicate DiffersAt(find: Finder, before: map<string, Deep>, after: map<string, Deep>, k: string) {
    if k in before && k in after then !ValuesEqual(find, false, before[k], after[k]) else k in before || k in after
  }

  /** The names of the fields that differ, in whatever order the maps are walked. */
  method CompareFieldMaps(find: Finder, a: Deep, b: Deep) returns (diffs: seq<string>)
    requires a.DMessage? && b.DMessage?
    ensures forall k :: k in diffs <==> DiffersAt(find, a.entries, b.entries, k)
    ensures diffs == [] <==> ValuesEqual(find, false, a, b)
  {
    hide ValuesEqual;
    var before, after := a.entries, b.entries;
    diffs := [];
    var keys := before.Keys;
    while keys != {}
      invariant keys <= before.Keys
      invariant forall k :: k in diffs <==> k in before && k !in keys && DiffersAt(find, before, after, k)
      decreases |keys|
    {
      var k :| k in keys;
      if k !in after || !ValuesEqual(find, false, before[k], after[k]) { diffs := diffs + [k]; }
      keys := keys - {k};
    }
    keys := after.Keys;
    while keys != {}
      invariant keys <= after.Keys
      invariant forall k :: k in diffs <==>
                  (k in before || (k in after && k !in keys)) && DiffersAt(find, before, after, k)
      decreases |keys|
    {
      var k :| k in keys;
      if k !in before { diffs := diffs + [k]; }
      keys := keys - {k};
    }
    NoDifference(find, a, b, diffs);
  }

  lemma NoDifference(find: Finder, a: Deep, b: Deep, diffs: seq<string>)
    requires a.DMessage? && b.DMessage? && forall k :: k in diffs <==> DiffersAt(find, a.entries, b.entries, k)
    ensures diffs == [] <==> ValuesEqual(find, false, a, b)
  {
    var before, after := a.entries, b.entries;
    if diffs != [] {
      var k := diffs[0];
      assert k in diffs && DiffersAt(find, before, after, k);
    } else {
      forall k ensures k in before <==> k in after {
        assert k !in diffs && !DiffersAt(find, before, after, k);
      }
      forall k | k in before ensures ValuesEqual(find, false, before[k], after[k]) {
        assert k !in diffs && !DiffersAt(find, before, after, k);
      }
    }
  }

  // ---- deserializeAudit ----------------------------------------------------

  datatype Audit = Audit(inputMutated: bool, unstable: bool, zeroCopy: seq<string>)

  ghost predicate AllValReadable(rank: map<FieldMap, nat>, mem: Mem)
    reads rank.Keys
  {
    forall g, k | g in rank && k in g.fields ::
      ValReadable(mem, g.fields[k]) && ValFiled(mem, g.fields[k]) && UsesKids(g.fields[k])
  }

  /** Some field on the way to or in a nested field map reads flipped bytes. */
  ghost predicate Spoiled(reach: set<FieldMap>, fields0: map<FieldMap, map<string, Val>>, buf: Slice) {
    exists g, k | g in reach && g in fields0 && k in fields0[g] :: ValLost(fields0[g][k], buf)
  }

  /** What is known of the fields before the probe. */
  ghost predicate ReadAs(rank: map<FieldMap, nat>, mem: Mem, fields0: map<FieldMap, map<string, Val>>, fl0: Flats) {
    && fields0.Keys == rank.Keys && LayeredIn(rank, fl0)
    && (forall g | g in rank :: fl0[g].Keys == fields0[g].Keys)
    && forall g, k | g in rank && k in fields0[g] ::
         fl0[g][k] == FlatIn(mem, fields0[g][k]) && ValReadable(mem, fields0[g][k]) && UsesKids(fields0[g][k])
  }

  lemma ReadBefore(rank: map<FieldMap, nat>, mem: Mem, fields0: map<FieldMap, map<string, Val>>, fl0: Flats,
      root: FieldMap)
    requires Layered(rank) && root in rank && MemIs(mem) && AllValReadable(rank, mem)
    requires fields0 == FieldsOf(rank.Keys) && fl0 == FlatsNow(rank)
    ensures ReadAs(rank, mem, fields0, fl0)
    ensures WholeNow(root, rank) == Whole(rank, fl0, root) && Reach(rank, root) == ReachIn(rank, fl0, root)
  {
    hide WholeNow, Whole, Reach, ReachIn, MemIs, ValReadable, ValFiled, UsesKids, FlatNow, FlatIn, LayeredIn;
    WholeIs(rank, root);
    ReachIs(rank, root);
    forall g, k | g in rank && k in fields0[g] ensures fl0[g][k] == FlatIn(mem, fields0[g][k]) {
      FlatRead(mem, fields0[g][k]);
    }
  }

  lemma LeavesReadable(rank: map<FieldMap, nat>, mem: Mem)
    requires AllValReadable(rank, mem)
    ensures AllReadable(rank, mem)
  {
    hide Readable, Filed;
  }

  lemma FlippedIs(mem: Mem, buf: Slice)
    requires InMem(mem, buf) && buf.arr[..] == FlipRange(mem[buf.arr], buf.off, buf.len)
    requires forall a | a in mem && a != buf.arr :: a[..] == mem[a]
    ensures MemIs(Flip(mem, buf))
  {
  }

  /** What is known of the fields afterwards. */
  ghost predicate Probed(rank: map<FieldMap, nat>, mem: Mem, fields0: map<FieldMap, map<string, Val>>,
      reach: set<FieldMap>, buf: Slice)
    reads rank.Keys, RankArrays(rank)
  {
    && fields0.Keys == rank.Keys
    && (forall g | g in rank :: g.fields.Keys == fields0[g].Keys)
    && (forall g, k | g in rank && k in g.fields ::
        if fields0[g][k].Node? then g.fields[k] == fields0[g][k] else g.fields[k].Leaf?)
    && forall g, k | g in rank && g in reach && k in g.fields && fields0[g][k].Leaf? && g.fields[k].Leaf? ::
         assert ValArrays(g.fields[k]) <= RankArrays(rank);
         Now(g.fields[k].d) == Content(mem, fields0[g][k].d) <==> !Lost(fields0[g][k].d, buf)
  }

  lemma LayeredStill(rank: map<FieldMap, nat>, mem: Mem, fields0: map<FieldMap, map<string, Val>>, fl0: Flats,
      reach: set<FieldMap>, buf: Slice)
    requires ReadAs(rank, mem, fields0, fl0) && Probed(rank, mem, fields0, reach, buf)
    ensures Layered(rank)
  {
    hide Now, Content, Lost, ValReadable, UsesKids, RankArrays;
    forall g, k, c | g in rank && k in g.fields && g.fields[k].Node? && c in g.fields[k].kids
      ensures c in rank && rank[c] < rank[g]
    {
      assert g.fields[k] == fields0[g][k];
      assert fl0[g][k].FNode? && fl0[g][k].kids == g.fields[k].kids;
    }
  }

  /** The flat readings before and after, field by field. */
  ghost predicate Compared(fl0: Flats, fl1: Flats, reach: set<FieldMap>, fields0: map<FieldMap, map<string, Val>>,
      buf: Slice) {
    && fl0.Keys == fl1.Keys == fields0.Keys && reach <= fl0.Keys
    && (forall g | g in fl0 :: fl0[g].Keys == fl1[g].Keys == fields0[g].Keys)
    && forall g, k | g in reach && k in fields0[g] :: fl0[g][k] == fl1[g][k] <==> !ValLost(fields0[g][k], buf)
  }

  lemma FlatsAfter(rank: map<FieldMap, nat>, mem: Mem, fields0: map<FieldMap, map<string, Val>>, fl0: Flats,
                   reach: set<FieldMap>, buf: Slice)
    requires InMem(mem, buf) && MemIs(Flip(mem, buf)) && reach <= rank.Keys
    requires ReadAs(rank, mem, fields0, fl0) && Probed(rank, mem, fields0, reach, buf)
    ensures AllAlike(fl0, FlatsNow(rank)) && Compared(fl0, FlatsNow(rank), reach, fields0, buf)
  {
    hide InMem, MemIs, Flip, Now, Content, Lost, ValReadable, UsesKids, RankArrays, FlatNow, FlatIn, ValLost, Alike;
    var fl1 := FlatsNow(rank);
    forall g, k | g in rank && k in fields0[g]
      ensures Alike(fl0[g][k], fl1[g][k]) && (g in reach ==> (fl0[g][k] == fl1[g][k] <==> !ValLost(fields0[g][k], buf)))
    {
      FieldAfter(mem, buf, fields0[g][k], g.fields[k], fl0[g][k]);
    }
  }

  lemma SameUnlessSpoiled(rank: map<FieldMap, nat>, fl0: Flats, fl1: Flats, root: FieldMap,
      fields0: map<FieldMap, map<string, Val>>, buf: Slice)
    requires LayeredIn(rank, fl0) && root in rank && Compared(fl0, fl1, ReachIn(rank, fl0, root), fields0, buf)
    ensures ReachSame(rank, fl0, fl1, root) <==> !Spoiled(ReachIn(rank, fl0, root), fields0, buf)
  {
    hide ReachIn, ValLost;
    var reach := ReachIn(rank, fl0, root);
    assert forall g | g in reach :: g in fl0 && g in fl1 && g in fields0;
    if !Spoiled(reach, fields0, buf) {
      forall g | g in reach ensures fl0[g] == fl1[g] {
        forall k | k in fl0[g] ensures fl0[g][k] == fl1[g][k] {
          assert k in fields0[g] && !ValLost(fields0[g][k], buf);
        }
      }
    } else {
      var g, k :| g in reach && g in fields0 && k in fields0[g] && ValLost(fields0[g][k], buf);
      assert fl0[g][k] != fl1[g][k];
    }
  }

  lemma ReadAfter(rank: map<FieldMap, nat>, mem: Mem, fields0: map<FieldMap, map<string, Val>>, fl0: Flats,
                  reach: set<FieldMap>, root: FieldMap, buf: Slice)
    requires root in rank && InMem(mem, buf) && MemIs(Flip(mem, buf))
    requires ReadAs(rank, mem, fields0, fl0) && reach == ReachIn(rank, fl0, root) &&
             Probed(rank, mem, fields0, reach, buf)
    ensures Layered(rank)
    ensures WholeNow(root, rank) == Whole(rank, fl0, root) <==> !Spoiled(reach, fields0, buf)
  {
    LayeredStill(rank, mem, fields0, fl0, reach, buf);
    hide *;
    assert reach <= rank.Keys;
    assert LayeredIn(rank, fl0) by { LayeredBefore(rank, mem, fields0, fl0); }
    WholeIs(rank, root);
    FlatsAfter(rank, mem, fields0, fl0, reach, buf);
    WholeSame(rank, fl0, FlatsNow(rank), root);
    SameUnlessSpoiled(rank, fl0, FlatsNow(rank), root, fields0, buf);
  }

  lemma LayeredBefore(rank: map<FieldMap, nat>, mem: Mem, fields0: map<FieldMap, map<string, Val>>, fl0: Flats)
    requires ReadAs(rank, mem, fields0, fl0)
    ensures LayeredIn(rank, fl0)
  {
  }

  method BufferNow(buf: Slice, ghost mem: Mem) returns (d: seq<byte>)
    requires MemIs(mem) && InMem(mem, buf)
    ensures d == Here(buf)
  {
    d := buf.arr[buf.off..buf.off + buf.len];
  }

  /** deserializeAudit. `second` is what decoding a clone of the snapshot again gave, if
      it gave anything; mutation and stability are judged before the probe flips the
      buffer. Afterwards the result reads as before exactly when no field was spoiled. */
  method DeserializeAudit(find: Finder, root: FieldMap, second: Option<FieldMap>, buf: Slice, snapshot: seq<byte>,
                          ghost rank: map<FieldMap, nat>, ghost mem: Mem)
    returns (audit: Audit)
    requires Layered(rank) && root in rank && (second.Some? ==> second.value in rank)
    requires MemIs(mem) && AllValReadable(rank, mem) && AllWellSplit(rank) && InMem(mem, buf)
    modifies rank.Keys, buf.arr
    ensures audit.inputMutated <==> old(Here(buf)) != snapshot
    ensures audit.unstable <==>
            second.None? || !ValuesEqual(find, false, old(WholeNow(root, rank)), old(WholeNow(second.value, rank)))
    ensures forall k :: k in audit.zeroCopy <==>
              buf.len > 0 && NamedKey(find, mem, old(Reach(rank, root)), old(FieldsOf(rank.Keys)), k, buf)
    ensures Layered(rank)
    ensures WholeNow(root, rank) == old(WholeNow(root, rank)) <==> !Spoiled(old(Reach(rank, root)),
            old(FieldsOf(rank.Keys)), buf)
  {
    hide ValuesEqual, NamedKey, WholeNow, Reach, Spoiled, InMem, MemIs, ValReadable, UsesKids, Watched, Lost, Flip,
         FlipRange, Now, Content, FlatNow, FlatsNow, LayeredIn, AllValReadable, ValArrays;
    assert allocated(RankArrays(rank));
    var now := BufferNow(buf, mem);
    assert WholeNow(root, rank) == old(WholeNow(root, rank));
    var unstable := second.None?;
    if second.Some? {
      assert WholeNow(second.value, rank) == old(WholeNow(second.value, rank));
      var diffs := CompareFieldMaps(find, WholeNow(root, rank), WholeNow(second.value, rank));
      unstable := diffs != [];
    }
    assert WholeNow(root, rank) == old(WholeNow(root, rank)) && Reach(rank, root) == old(Reach(rank, root));
    var names := ProbeResult(find, root, buf, rank, mem, FlatsNow(rank));
    audit := Audit(now != snapshot, unstable, names);
  }

  /** The probe, and what is read after it. */
  method ProbeResult(find: Finder, root: FieldMap, buf: Slice, ghost rank: map<FieldMap, nat>, ghost mem: Mem,
      ghost fl0: Flats) returns (names: seq<string>)
    requires Layered(rank) && root in rank && MemIs(mem) && InMem(mem, buf)
    requires AllValReadable(rank, mem) && AllWellSplit(rank) && fl0 == FlatsNow(rank)
    modifies rank.Keys, buf.arr
    ensures forall k :: k in names <==>
              buf.len > 0 && NamedKey(find, mem, old(Reach(rank, root)), old(FieldsOf(rank.Keys)), k, buf)
    ensures Layered(rank)
    ensures WholeNow(root, rank) == old(WholeNow(root, rank)) <==> !Spoiled(old(Reach(rank, root)),
            old(FieldsOf(rank.Keys)), buf)
  {
    assert buf.arr in mem && forall a | a in mem :: mem[a] == old(a[..]);
    ghost var fields0, reach := FieldsOf(rank.Keys), Reach(rank, root);
    ReadBefore(rank, mem, fields0, fl0, root);
    LeavesReadable(rank, mem);
    hide ValuesEqual, NamedKey, WholeNow, Whole, Reach, ReachIn, Spoiled, InMem, MemIs, Flip, FlipRange, Now,
         Content, FlatsNow, LayeredIn, RankArrays, AllValReadable, AllReadable, AllWellSplit, ReadAs, Snapped,
         Lost, Layered;
    names := DetectZeroCopy(find, root, buf, rank, mem);
    FlippedIs(mem, buf);
    ProbedNow(rank, mem, fields0, reach, buf);
    ReadAfter(rank, mem, fields0, fl0, reach, root, buf);
  }

  lemma ProbedNow(rank: map<FieldMap, nat>, mem: Mem, fields0: map<FieldMap, map<string, Val>>, reach: set<FieldMap>,
      buf: Slice)
    requires fields0.Keys == rank.Keys && forall g | g in rank :: g.fields.Keys == fields0[g].Keys
    requires forall g, k | g in rank && k in g.fields && !(g in reach && Watched(fields0[g][k])) ::
             g.fields[k] == fields0[g][k]
    requires forall g, k | g in rank && g in reach && k in g.fields && fields0[g][k].Leaf? ::
               && g.fields[k].Leaf?
               && (Now(g.fields[k].d) == Content(mem, fields0[g][k].d) <==> !Lost(fields0[g][k].d, buf))
    ensures Probed(rank, mem, fields0, reach, buf)
  {
    hide Now, Content, Lost, Snapped, RankArrays;
  }

  // ---- what the verdicts mean ----------------------------------------------

  /** The entry of that name. */
  function Where(pairs: seq<DEntry>, name: seq<byte>): (i: Option<nat>)
    ensures i.Some? ==> i.value < |pairs| && pairs[i.value].head.name == name
    ensures i.None? ==> forall j | 0 <= j < |pairs| :: pairs[j].head.name != name
  {
    if pairs == [] then None
    else if pairs[|pairs| - 1].head.name == name then Some(|pairs| - 1)
    else Where(pairs[..|pairs| - 1], name)
  }

  /** The entry of `ys` that goes with entry `i` of `xs`. */
  function Match(xs: seq<DEntry>, ys: seq<DEntry>, i: nat): (d: Deep)
    requires i < |xs| && Where(ys, xs[i].head.name).Some?
  {
    ys[Where(ys, xs[i].head.name).value].value
  }

  predicate Matching(xs: seq<DEntry>, ys: seq<DEntry>) {
    && |xs| == |ys| && Orderly(xs) && Orderly(ys)
    && forall i | 0 <= i < |xs| :: Where(ys, xs[i].head.name).Some?
  }

  /** Two results that read the same. They may differ in where their float slices lie, in
      which lists, field maps, maps and variants they are made of, and in the order of map
      entries; nobody has written over their keys. */
  predicate SameReading(a: Deep, b: Deep)
    decreases a
  {
    match (a, b)
    case (DFloats(_, w, xs), DFloats(_, v, ys)) => w == v && xs == ys
    case (DList(_, m, xs), DList(_, n, ys)) =>
      m == n && |xs| == |ys| && forall i | 0 <= i < |xs| :: SameReading(xs[i], ys[i])
    case (DMessage(_, xs), DMessage(_, ys)) => xs.Keys == ys.Keys && forall k | k in xs :: SameReading(xs[k], ys[k])
    case (DDict(_, xs), DDict(_, ys)) =>
      Matching(xs, ys) && forall i | 0 <= i < |xs| :: SameReading(xs[i].value, Match(xs, ys, i))
    case (DVariant(_, t, x), DVariant(_, u, y)) => t == u && SameReading(x, y)
    case _ => a == b
  }

  /** A NaN, but not one inside an object that both have in common. */
  predicate NaNIn(a: Deep, b: Deep)
    requires SameReading(a, b)
    decreases a
  {
    match a
    case DFloat(w, x) => NaNBits(w, x)
    case DFloats(_, w, xs) => a != b && AnyNaN(w, xs)
    case DList(_, _, xs) => a != b && exists i | 0 <= i < |xs| :: NaNIn(xs[i], b.items[i])
    case DMessage(_, xs) => a != b && exists k | k in xs :: NaNIn(xs[k], b.entries[k])
    case DDict(_, xs) => a != b && exists i | 0 <= i < |xs| :: NaNIn(xs[i].value, Match(xs, b.pairs, i))
    case DVariant(_, _, x) => a != b && NaNIn(x, b.payload)
    case _ => false
  }

  /** Such a NaN where valuesEqual leaves the comparison to DeepEqual: inside a float
      slice, a []any or a variant. */
  predicate NaNHidden(a: Deep, b: Deep)
    requires SameReading(a, b)
    decreases a
  {
    match a
    case DFloats(_, _, _) => NaNIn(a, b)
    case DVariant(_, _, _) => NaNIn(a, b)
    case DList(_, messages, xs) =>
      if messages then exists i | 0 <= i < |xs| :: NaNHidden(xs[i], b.items[i]) else NaNIn(a, b)
    case DMessage(_, xs) => exists k | k in xs :: NaNHidden(xs[k], b.entries[k])
    case DDict(_, xs) => exists i | 0 <= i < |xs| :: NaNHidden(xs[i].value, Match(xs, b.pairs, i))
    case _ => false
  }

  /** In an orderly map a lookup gives the entry of that name. */
  lemma LookupIs(find: Finder, pairs: seq<DEntry>, name: seq<byte>)
    requires Lawful(find) && Orderly(pairs) && Where(pairs, name).Some?
    ensures Lookup(find, pairs, name) == Where(pairs, name)
  {
    hide Lawful, Lookup;
    OrderlyFinds(find, pairs, Where(pairs, name).value);
  }

  lemma WhereSelf(pairs: seq<DEntry>, i: nat)
    requires Orderly(pairs) && i < |pairs|
    ensures Where(pairs, pairs[i].head.name) == Some(i)
  {
    var j := Where(pairs, pairs[i].head.name).value;
    hide Where;
    assert pairs[j].head.name == pairs[i].head.name && pairs[j].head.filed == pairs[i].head.filed;
    assert pairs[j].head == pairs[i].head;
  }

  lemma FloatsTwice(wide: bool, xs: seq<byte>)
    ensures FloatsEqual(wide, xs, xs) <==> !AnyNaN(wide, xs)
  {
    hide NaNBits, ZeroBits;
  }

  lemma Lookups(find: Finder, xs: seq<DEntry>, ys: seq<DEntry>, i: nat)
    requires Lawful(find) && Matching(xs, ys) && i < |xs|
    ensures Lookup(find, xs, xs[i].head.name) == Some(i)
    ensures Lookup(find, ys, xs[i].head.name) == Where(ys, xs[i].head.name)
  {
    hide Lawful, Lookup, Orderly, Where;
    WhereSelf(xs, i);
    LookupIs(find, xs, xs[i].head.name);
    LookupIs(find, ys, xs[i].head.name);
  }

  /** What the comparisons do with two maps that read the same. */
  lemma DeepMatch(find: Finder, p: nat, q: nat, xs: seq<DEntry>, ys: seq<DEntry>)
    requires Lawful(find) && Matching(xs, ys)
    ensures DeepEqual(find, false, DDict(p, xs), DDict(q, ys)) <==>
            (p == q && xs == ys) || forall i | 0 <= i < |xs| :: DeepEqual(find, false, xs[i].value, Match(xs, ys, i))
  {
    forall i | 0 <= i < |xs|
      ensures Lookup(find, xs, xs[i].head.name) == Some(i)
      ensures Lookup(find, ys, xs[i].head.name) == Where(ys, xs[i].head.name)
    {
      Lookups(find, xs, ys, i);
    }
    hide Lawful, Lookup, Orderly, Where;
    assert TakenAsOne(false, DDict(p, xs));
  }

  lemma EqualMatch(find: Finder, p: nat, q: nat, xs: seq<DEntry>, ys: seq<DEntry>)
    requires Lawful(find) && Matching(xs, ys)
    ensures ValuesEqual(find, false, DDict(p, xs), DDict(q, ys)) <==>
            forall i | 0 <= i < |xs| :: ValuesEqual(find, false, xs[i].value, Match(xs, ys, i))
  {
    forall i | 0 <= i < |xs| ensures Lookup(find, ys, xs[i].head.name) == Where(ys, xs[i].head.name) {
      Lookups(find, xs, ys, i);
    }
    hide Lawful, Lookup, Orderly, Where, DeepEqual;
  }

  lemma {:induction false} DeepTwice(find: Finder, a: Deep, b: Deep)
    requires Lawful(find) && SameReading(a, b)
    ensures DeepEqual(find, false, a, b) <==> !NaNIn(a, b)
    decreases a
  {
    hide NaNBits, ZeroBits, Lawful, Orderly, FloatsEqual, AnyNaN, Lookup;
    match a
    case DFloats(_, w, xs) => FloatsTwice(w, xs);
    case DList(_, _, xs) =>
      forall i | 0 <= i < |xs| ensures DeepEqual(find, false, xs[i], b.items[i]) <==> !NaNIn(xs[i], b.items[i]) {
        DeepTwice(find, xs[i], b.items[i]);
      }
    case DMessage(_, xs) =>
      forall k | k in xs ensures DeepEqual(find, false, xs[k], b.entries[k]) <==> !NaNIn(xs[k], b.entries[k]) {
        DeepTwice(find, xs[k], b.entries[k]);
      }
    case DDict(_, xs) =>
      hide Where, Match;
      forall i | 0 <= i < |xs|
        ensures DeepEqual(find, false, xs[i].value, Match(xs, b.pairs, i)) <==>
                !NaNIn(xs[i].value, Match(xs, b.pairs, i))
      {
        DeepTwice(find, xs[i].value, Match(xs, b.pairs, i));
      }
      hide DeepEqual;
      DeepMatch(find, a.at, b.at, xs, b.pairs);
    case DVariant(_, _, x) => DeepTwice(find, x, b.payload);
    case _ =>
  }

  /** A deserializer that gives the same reading twice is called stable exactly when no
      NaN stands inside a float slice, a []any or a variant of it, other than inside an
      object that it handed out both times. */
  lemma {:induction false} SameTwiceIsStable(find: Finder, a: Deep, b: Deep)
    requires Lawful(find) && SameReading(a, b)
    ensures ValuesEqual(find, false, a, b) <==> !NaNHidden(a, b)
    decreases a
  {
    hide DeepEqual, NaNIn, Lawful, Orderly, Lookup;
    if a.DMessage? {
      forall k | k in a.entries
        ensures ValuesEqual(find, false, a.entries[k], b.entries[k]) <==> !NaNHidden(a.entries[k], b.entries[k])
      {
        SameTwiceIsStable(find, a.entries[k], b.entries[k]);
      }
    } else if a.DList? && a.messages {
      forall i | 0 <= i < |a.items|
        ensures ValuesEqual(find, false, a.items[i], b.items[i]) <==> !NaNHidden(a.items[i], b.items[i])
      {
        SameTwiceIsStable(find, a.items[i], b.items[i]);
      }
    } else if a.DDict? {
      hide Where, Match;
      forall i | 0 <= i < |a.pairs|
        ensures ValuesEqual(find, false, a.pairs[i].value, Match(a.pairs, b.pairs, i)) <==>
                !NaNHidden(a.pairs[i].value, Match(a.pairs, b.pairs, i))
      {
        SameTwiceIsStable(find, a.pairs[i].value, Match(a.pairs, b.pairs, i));
      }
      hide ValuesEqual;
      EqualMatch(find, a.at, b.at, a.pairs, b.pairs);
    } else {
      DeepTwice(find, a, b);
      PlainTwice(find, a, b);
    }
  }

  lemma PlainTwice(find: Finder, a: Deep, b: Deep)
    requires SameReading(a, b) && !a.DMessage? && !a.DDict? && !(a.DList? && a.messages)
    ensures ValuesEqual(find, false, a, b) <==> a.DFloat? || DeepEqual(find, false, a, b)
    ensures NaNHidden(a, b) <==> !a.DFloat? && NaNIn(a, b)
  {
    hide DeepEqual;
  }

  const NAN32: seq<byte> := [0, 0, 0xC0, 0x7F]

  /** A list<float32> that decodes to the same NaN twice is called unstable, unless the
      very same slice comes back. */
  lemma NaNListUnstable(find: Finder, p: Slice, q: Slice)
    requires Lawful(find)
    ensures var gains := (of: Ident, at: Slice) => DMessage(of, map["gains" := DFloats(at, false, NAN32)]);
            ValuesEqual(find, false, gains(Inner(0), p), gains(Inner(1), q)) <==> p == q
  {
    var a, b := DFloats(p, false, NAN32), DFloats(q, false, NAN32);
    var x, y := map["gains" := a], map["gains" := b];
    SameTwiceIsStable(find, a, b);
    assert AnyNaN(false, NAN32) by { NaN32(); }
    assert ValuesEqual(find, false, DMessage(Inner(0), x), DMessage(Inner(1), y)) <==>
      ValuesEqual(find, false, x["gains"], y["gains"]);
  }

  lemma NaN32()
    ensures AnyNaN(false, NAN32)
  {
    FourLE(0, 0, 0xC0, 0x7F);
    assert NAN32[4 * 0..4 * 0 + 4] == [0, 0, 0xC0, 0x7F];
    assert FloatAt(false, NAN32, 0) == 0x7FC0_0000;
    hide FloatAt;
    assert NaNBits(false, FloatAt(false, NAN32, 0));
  }

  lemma FourLE(a: byte, b: byte, c: byte, d: byte)
    ensures FromLE([a, b, c, d]) == a + 0x100 * b + 0x1_0000 * c + 0x100_0000 * d
  {
    assert [d][1..] == [] && [c, d][1..] == [d] && [b, c, d][1..] == [c, d] && [a, b, c, d][1..] == [b, c, d];
    assert FromLE([d]) == d;
    assert FromLE([c, d]) == c + 0x100 * d;
    assert FromLE([b, c, d]) == b + 0x100 * c + 0x1_0000 * d;
  }

  /** Judged after the probe, every innocent deserializer would seem to have mutated
      its input, unless the input was empty. */
  lemma ProbeMustComeLast(bs: seq<byte>)
    ensures FlipRange(bs, 0, |bs|) == bs <==> bs == []
  {
    if bs != [] {
      assert FlipRange(bs, 0, |bs|)[0] == 255 - bs[0];
    }
  }

  /** The field is of a kind the probe walks: it is saved whole, or holds no bytes that a
      clone would copy. */
  predicate WalkedField(v: Val) {
    match v
    case Leaf(d) => Snapped(d) || Owned(d) == {}
    case Node(Items(_, parts), _) => forall i | 0 <= i < |parts| :: PartOwned(parts[i]) == {}
    case Node(Entries(_, slots), _) => forall i | 0 <= i < |slots| :: PartOwned(slots[i].part) == {}
    case _ => true
  }

  function PartOwned(p: Part<Data>): set<array<byte>> {
    match p case Kid(_) => {} case Other(d) => Owned(d)
  }

  /** Something in the buffer that no clone copies: the tag of a variant around a struct,
      the key of a map, the memory of a typed slice. */
  predicate Unsaved(v: Val, b: Slice) {
    match v
    case Leaf(d) => Leaks(d, b)
    case Node(Tagged(_, tag), _) => Overlap(tag, b)
    case Node(Items(_, parts), _) => exists i | 0 <= i < |parts| :: PartLeaks(parts[i], b)
    case Node(Entries(_, slots), _) =>
      exists i | 0 <= i < |slots| :: Overlap(slots[i].key, b) || PartLeaks(slots[i].part, b)
    case _ => false
  }

  predicate PartLeaks(p: Part<Data>, b: Slice) { p.Other? && Leaks(p.d, b) }

  lemma {:induction false} TouchedArray(d: Data, b: Slice)
    requires Touches(d, b)
    ensures b.arr in Owned(d)
    decreases d
  {
    match d
    case List(_, _, items) =>
      var i :| 0 <= i < |items| && Touches(items[i], b);
      TouchedArray(items[i], b);
      assert items[i] in items;
    case Message(_, entries) =>
      var k :| k in entries && Touches(entries[k], b);
      TouchedArray(entries[k], b);
    case Dict(_, pairs) =>
      var i :| 0 <= i < |pairs| && Touches(pairs[i].value, b);
      TouchedArray(pairs[i].value, b);
      assert pairs[i] in pairs;
    case Variant(_, tag, payload) => if !Overlap(tag, b) { TouchedArray(payload, b); }
    case _ =>
  }

  lemma NothingToTouch(d: Data, b: Slice)
    requires Owned(d) == {}
    ensures !Touches(d, b)
  {
    hide Owned, Touches;
    if Touches(d, b) { TouchedArray(d, b); }
  }

  /** On the walked kinds the audit changes what a field reads as exactly when something
      that no clone copies lies in the buffer. */
  lemma WalkedIsKept(v: Val, b: Slice)
    requires WalkedField(v)
    ensures ValLost(v, b) <==> Unsaved(v, b)
  {
    hide Touches, Leaks, Snapped, Owned, Overlap;
    match v
    case Leaf(d) => if !Snapped(d) { NothingToTouch(d, b); }
    case Node(Items(_, parts), _) =>
      forall i | 0 <= i < |parts| ensures PartLost(parts[i], b) <==> PartLeaks(parts[i], b) {
        if parts[i].Other? { NothingToTouch(parts[i].d, b); }
      }
    case Node(Entries(_, slots), _) =>
      forall i | 0 <= i < |slots| ensures PartLost(slots[i].part, b) <==> PartLeaks(slots[i].part, b) {
        if slots[i].part.Other? { NothingToTouch(slots[i].part.d, b); }
      }
    case _ =>
  }

  /** The key of a map or the tag of a variant around a struct lies in the buffer. */
  predicate KeyOrTagIn(v: Val, b: Slice) {
    match v
    case Leaf(d) => KeyIn(d, b)
    case Node(Tagged(_, tag), _) => Overlap(tag, b)
    case Node(Items(_, parts), _) => exists i | 0 <= i < |parts| :: PartKeyIn(parts[i], b)
    case Node(Entries(_, slots), _) =>
      exists i | 0 <= i < |slots| :: Overlap(slots[i].key, b) || PartKeyIn(slots[i].part, b)
    case _ => false
  }

  predicate PartKeyIn(p: Part<Data>, b: Slice) { p.Other? && KeyIn(p.d, b) }

  predicate PartCloned(p: Part<Data>) { p.Other? ==> Cloned(p.d) }

  /** No typed slice and nothing else that cloneValue does not name. */
  predicate ClonedField(v: Val) {
    match v
    case Leaf(d) => Cloned(d)
    case Node(Items(_, parts), _) => forall i | 0 <= i < |parts| :: PartCloned(parts[i])
    case Node(Entries(_, slots), _) => forall i | 0 <= i < |slots| :: PartCloned(slots[i].part)
    case _ => true
  }

  /** In a field that cloneValue knows all kinds of, that is a map key or such a tag. */
  lemma KeysAndTags(v: Val, b: Slice)
    requires ClonedField(v)
    ensures Unsaved(v, b) <==> KeyOrTagIn(v, b)
  {
    hide Leaks, KeyIn, Cloned, Overlap;
    match v
    case Leaf(d) => ClonedKeeps(d, b);
    case Node(Items(_, parts), _) =>
      forall i | 0 <= i < |parts| ensures PartLeaks(parts[i], b) <==> PartKeyIn(parts[i], b) {
        if parts[i].Other? { ClonedKeeps(parts[i].d, b); }
      }
    case Node(Entries(_, slots), _) =>
      forall i | 0 <= i < |slots| ensures PartLeaks(slots[i].part, b) <==> PartKeyIn(slots[i].part, b) {
        if slots[i].part.Other? { ClonedKeeps(slots[i].part.d, b); }
      }
    case _ =>
  }

  /** So for walked kinds turning the audit on changes the data reported exactly when some
      map key or some tag of a struct variant lies in the buffer. */
  lemma WalkedSpoiledExactly(reach: set<FieldMap>, fields0: map<FieldMap, map<string, Val>>, buf: Slice)
    requires forall g, k | g in reach && g in fields0 && k in fields0[g] ::
               WalkedField(fields0[g][k]) && ClonedField(fields0[g][k])
    ensures Spoiled(reach, fields0, buf) <==>
            exists g, k | g in reach && g in fields0 && k in fields0[g] :: KeyOrTagIn(fields0[g][k], buf)
  {
    hide WalkedField, ClonedField, ValLost, KeyOrTagIn, Unsaved;
    forall g, k | g in reach && g in fields0 && k in fields0[g]
      ensures ValLost(fields0[g][k], buf) <==> KeyOrTagIn(fields0[g][k], buf)
    {
      WalkedIsKept(fields0[g][k], buf);
      KeysAndTags(fields0[g][k], buf);
    }
  }

  /** One key in the buffer is enough, whatever the values of the map are. */
  lemma MapKeySpoils(g: FieldMap, fields0: map<FieldMap, map<string, Val>>, k: string, d: Data, i: nat, buf: Slice)
    requires g in fields0 && k in fields0[g] && fields0[g][k] == Leaf(d)
    requires d.Dict? && i < |d.pairs| && Overlap(d.pairs[i].key, buf)
    ensures Spoiled({g}, fields0, buf)
  {
    assert Leaks(d, buf);
    assert ValLost(fields0[g][k], buf);
  }
}
