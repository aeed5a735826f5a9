/** Values that may share memory with an input buffer, and the audit's comparison of
    them (lib/go/serify/auditcheck.go): byte ranges are slices of real arrays, and the
    meaning of a value depends on what those arrays hold. */
module AuditValues {
  import opened Common
  import opened LittleEndian

  /** A []byte or a string: a window on a backing array. */
  datatype Slice = Slice(arr: array<byte>, off: nat, len: nat)

  /** An entry of a Go map: its key, the text the key had when the entry was stored,
      which decides where the map files it, and its value. */
  datatype Entry = Entry(key: Slice, filed: seq<byte>, value: Data)

  /** A stored value. `Scalar` is a boolean or a number held in place: nothing in it can
      alias. `Floats` is a []float32 or a []float64. `Shared` is every other value that
      cloneValue does not name, such as a [][]byte, a typed slice of integers or a
      *big.Int, with the memory it refers to; `form` stands for its type and whatever of
      it is no memory. A list is a []*FieldMap or a []any, a message a *FieldMap, and the
      entries of a map[string]any stand in some order. `at` tells one list, field map, map
      or variant from another; a clone keeps the number of its original. */
  datatype Data =
    | Scalar(n: int)
    | Float(wide: bool, bits: nat)
    | Floats(wide: bool, s: Slice)
    | Shared(form: int, ss: seq<Slice>)
    | Bytes(s: Slice)
    | Text(s: Slice)
    | Texts(ss: seq<Slice>)
    | List(at: nat, messages: bool, items: seq<Data>)
    | Message(at: nat, entries: map<string, Data>)
    | Dict(at: nat, pairs: seq<Entry>)
    | Variant(at: nat, tag: Slice, payload: Data)

  /** Which field map: one inside a value, or an object. */
  datatype Ident = Inner(n: nat) | Object(o: object)

  /** The text a map entry is filed under, and what its key reads as. */
  datatype Label = Label(filed: seq<byte>, name: seq<byte>)

  datatype DEntry = DEntry(head: Label, value: Deep)

  /** What a value reads as. */
  datatype Deep =
    | DScalar(n: int)
    | DFloat(wide: bool, bits: nat)
    | DFloats(place: Slice, wide: bool, bs: seq<byte>)
    | DShared(form: int, bss: seq<seq<byte>>)
    | DBytes(bs: seq<byte>)
    | DText(bs: seq<byte>)
    | DTexts(bss: seq<seq<byte>>)
    | DList(at: nat, messages: bool, items: seq<Deep>)
    | DMessage(of: Ident, entries: map<string, Deep>)
    | DDict(at: nat, pairs: seq<DEntry>)
    | DVariant(at: nat, tag: seq<byte>, payload: Deep)

  /** The contents of the arrays. */
  type Mem = map<array<byte>, seq<byte>>

  predicate InMem(mem: Mem, s: Slice) { s.arr in mem && s.off + s.len <= |mem[s.arr]| }

  function Peek(mem: Mem, s: Slice): seq<byte> {
    if InMem(mem, s) then mem[s.arr][s.off..s.off + s.len] else []
  }

  function PeekAll(mem: Mem, ss: seq<Slice>): (bss: seq<seq<byte>>)
    ensures |bss| == |ss| && forall i | 0 <= i < |ss| :: bss[i] == Peek(mem, ss[i])
  {
    seq(|ss|, i requires 0 <= i < |ss| => Peek(mem, ss[i]))
  }

  /** Every slice anywhere in the value is inside its array. */
  predicate Readable(mem: Mem, d: Data) {
    match d
    case Floats(_, s) => InMem(mem, s)
    case Shared(_, ss) => forall s | s in ss :: InMem(mem, s)
    case Bytes(s) => InMem(mem, s)
    case Text(s) => InMem(mem, s)
    case Texts(ss) => forall s | s in ss :: InMem(mem, s)
    case List(_, _, items) => forall i | i in items :: Readable(mem, i)
    case Message(_, entries) => forall k | k in entries :: Readable(mem, entries[k])
    case Dict(_, pairs) => forall i | 0 <= i < |pairs| :: InMem(mem, pairs[i].key) && Readable(mem, pairs[i].value)
    case Variant(_, tag, payload) => InMem(mem, tag) && Readable(mem, payload)
    case _ => true
  }

  /** Every map in the value files its entries under what their keys read as, no two
      alike: as long as nobody writes into the memory of a key. */
  predicate Filed(mem: Mem, d: Data) {
    match d
    case List(_, _, items) => forall i | i in items :: Filed(mem, i)
    case Message(_, entries) => forall k | k in entries :: Filed(mem, entries[k])
    case Dict(_, pairs) =>
      && (forall i | 0 <= i < |pairs| :: pairs[i].filed == Peek(mem, pairs[i].key) && Filed(mem, pairs[i].value))
      && forall i, j | 0 <= i < j < |pairs| :: pairs[i].filed != pairs[j].filed
    case Variant(_, _, payload) => Filed(mem, payload)
    case _ => true
  }

  /** What the value reads as when its copied parts live in `kept` and the parts a
      clone shares, the keys of maps among them, live in `mem`. */
  function View(kept: Mem, mem: Mem, d: Data): Deep
    decreases d, 1
  {
    match d
    case Scalar(n) => DScalar(n)
    case Float(w, b) => DFloat(w, b)
    case Floats(w, s) => DFloats(s, w, Peek(mem, s))
    case Shared(form, ss) => DShared(form, PeekAll(mem, ss))
    case Bytes(s) => DBytes(Peek(kept, s))
    case Text(s) => DText(Peek(kept, s))
    case Texts(ss) => DTexts(PeekAll(kept, ss))
    case List(at, messages, _) => DList(at, messages, ViewItems(kept, mem, d))
    case Message(at, _) => DMessage(Inner(at), ViewEntries(kept, mem, d))
    case Dict(at, _) => DDict(at, ViewPairs(kept, mem, d))
    case Variant(at, tag, payload) => DVariant(at, Peek(kept, tag), View(kept, mem, payload))
  }

  function ViewItems(kept: Mem, mem: Mem, d: Data): (r: seq<Deep>)
    requires d.List?
    ensures |r| == |d.items| && forall i | 0 <= i < |r| :: r[i] == View(kept, mem, d.items[i])
    decreases d, 0
  {
    seq(|d.items|, i requires 0 <= i < |d.items| => View(kept, mem, d.items[i]))
  }

  function ViewEntries(kept: Mem, mem: Mem, d: Data): (r: map<string, Deep>)
    requires d.Message?
    ensures r.Keys == d.entries.Keys && forall k | k in r :: r[k] == View(kept, mem, d.entries[k])
    decreases d, 0
  {
    map k | k in d.entries :: View(kept, mem, d.entries[k])
  }

  function LabelOf(mem: Mem, e: Entry): Label { Label(e.filed, Peek(mem, e.key)) }

  function ViewPairs(kept: Mem, mem: Mem, d: Data): (r: seq<DEntry>)
    requires d.Dict?
    ensures |r| == |d.pairs|
    ensures forall i | 0 <= i < |r| ::
              r[i].head == LabelOf(mem, d.pairs[i]) && r[i].value == View(kept, mem, d.pairs[i].value)
    decreases d, 0
  {
    seq(|d.pairs|, i requires 0 <= i < |d.pairs| =>
      DEntry(LabelOf(mem, d.pairs[i]), View(kept, mem, d.pairs[i].value)))
  }

  /** What the value reads as now. */
  function Content(mem: Mem, d: Data): Deep { View(mem, mem, d) }

  // ---- overlap -------------------------------------------------------------

  /** The two windows share a byte. */
  predicate Overlap(s: Slice, b: Slice) {
    s.arr == b.arr && s.len > 0 && b.len > 0 && s.off < b.off + b.len && b.off < s.off + s.len
  }

  predicate AnyOverlap(ss: seq<Slice>, b: Slice) { exists s | s in ss :: Overlap(s, b) }

  /** A part that cloneValue copies shares a byte with the buffer. */
  predicate Touches(d: Data, b: Slice)
    decreases d
  {
    match d
    case Bytes(s) => Overlap(s, b)
    case Text(s) => Overlap(s, b)
    case Texts(ss) => AnyOverlap(ss, b)
    case List(_, _, items) => exists i | 0 <= i < |items| :: Touches(items[i], b)
    case Message(_, entries) => exists k | k in entries :: Touches(entries[k], b)
    case Dict(_, pairs) => exists i | 0 <= i < |pairs| :: Touches(pairs[i].value, b)
    case Variant(_, tag, payload) => Overlap(tag, b) || Touches(payload, b)
    case _ => false
  }

  /** A part that cloneValue shares overlaps the buffer: memory of a value it does not
      name, or the key of a map. */
  predicate Leaks(d: Data, b: Slice)
    decreases d
  {
    match d
    case Floats(_, s) => Overlap(s, b)
    case Shared(_, ss) => AnyOverlap(ss, b)
    case List(_, _, items) => exists i | 0 <= i < |items| :: Leaks(items[i], b)
    case Message(_, entries) => exists k | k in entries :: Leaks(entries[k], b)
    case Dict(_, pairs) => exists i | 0 <= i < |pairs| :: Overlap(pairs[i].key, b) || Leaks(pairs[i].value, b)
    case Variant(_, _, payload) => Leaks(payload, b)
    case _ => false
  }

  /** The key of some map in the value overlaps the buffer. */
  predicate KeyIn(d: Data, b: Slice)
    decreases d
  {
    match d
    case List(_, _, items) => exists i | 0 <= i < |items| :: KeyIn(items[i], b)
    case Message(_, entries) => exists k | k in entries :: KeyIn(entries[k], b)
    case Dict(_, pairs) => exists i | 0 <= i < |pairs| :: Overlap(pairs[i].key, b) || KeyIn(pairs[i].value, b)
    case Variant(_, _, payload) => KeyIn(payload, b)
    case _ => false
  }

  // ---- comparison ----------------------------------------------------------

  /** NaN as a predicate on the bits of a float32 or a float64. */
  predicate NaNBits(wide: bool, bits: nat) {
    if wide then bits % 0x8000_0000_0000_0000 > 0x7FF0_0000_0000_0000
    else bits % 0x8000_0000 > 0x7F80_0000
  }

  predicate ZeroBits(wide: bool, bits: nat) {
    bits % (if wide then 0x8000_0000_0000_0000 else 0x8000_0000) == 0
  }

  /** == on two floats: a NaN differs from everything, the two zeros are the same. */
  predicate FloatEqual(wide: bool, x: nat, y: nat) {
    !NaNBits(wide, x) && !NaNBits(wide, y) && (x == y || (ZeroBits(wide, x) && ZeroBits(wide, y)))
  }

  function FloatAt(wide: bool, bs: seq<byte>, i: nat): nat
    requires i < |bs| / FloatSize(wide)
  {
    if wide then FromLE(bs[8 * i..8 * i + 8]) else FromLE(bs[4 * i..4 * i + 4])
  }

  function FloatSize(wide: bool): (k: nat)
    ensures k > 0
  {
    if wide then 8 else 4
  }

  /** Element by element. */
  predicate FloatsEqual(wide: bool, xs: seq<byte>, ys: seq<byte>) {
    |xs| == |ys| &&
    forall i | 0 <= i < |xs| / FloatSize(wide) :: FloatEqual(wide, FloatAt(wide, xs, i), FloatAt(wide, ys, i))
  }

  predicate AnyNaN(wide: bool, xs: seq<byte>) {
    exists i | 0 <= i < |xs| / FloatSize(wide) :: NaNBits(wide, FloatAt(wide, xs, i))
  }

  /** How a map finds an entry by a text: the place, if any. */
  type Finder = (seq<Label>, seq<byte>) -> Option<nat>

  /** What holds of every map: an entry found has the text looked for, and one whose key
      still reads as when it was stored is found. Whether an entry is found whose key was
      written over since depends on the hash function and on how full the map is. */
  ghost predicate Lawful(find: Finder) {
    forall ls: seq<Label>, t: seq<byte> ::
      match find(ls, t)
      case Some(i) => i < |ls| && ls[i].name == t
      case None => forall i | 0 <= i < |ls| :: ls[i] != Label(t, t)
  }

  function Labels(pairs: seq<DEntry>): (ls: seq<Label>)
    ensures |ls| == |pairs| && forall i | 0 <= i < |ls| :: ls[i] == pairs[i].head
  {
    seq(|pairs|, i requires 0 <= i < |pairs| => pairs[i].head)
  }

  function Lookup(find: Finder, pairs: seq<DEntry>, t: seq<byte>): (i: Option<nat>)
    ensures i.Some? ==> i.value < |pairs|
  {
    match find(Labels(pairs), t)
    case Some(i) => if i < |pairs| then Some(i) else None
    case None => None
  }

  /** A value that DeepEqual takes as equal to itself without looking inside. A clone
      shares float slices with its original, but no list, field map, map or variant. */
  predicate TakenAsOne(cloned: bool, a: Deep) {
    a.DFloats? || (!cloned && (a.DList? || a.DMessage? || a.DDict? || a.DVariant?))
  }

  /** reflect.DeepEqual of two values, or of a value and its clone: floats compare by
      value, so a NaN is not equal to itself; but one object is. Each entry of the first
      map is looked up in both. */
  predicate DeepEqual(find: Finder, cloned: bool, a: Deep, b: Deep)
    decreases a
  {
    (TakenAsOne(cloned, a) && a == b) ||
    match (a, b)
    case (DFloat(w, x), DFloat(v, y)) => w == v && FloatEqual(w, x, y)
    case (DFloats(_, w, xs), DFloats(_, v, ys)) => w == v && FloatsEqual(w, xs, ys)
    case (DList(_, m, xs), DList(_, n, ys)) =>
      m == n && |xs| == |ys| && forall i | 0 <= i < |xs| :: DeepEqual(find, cloned, xs[i], ys[i])
    case (DMessage(_, xs), DMessage(_, ys)) =>
      xs.Keys == ys.Keys && forall k | k in xs :: DeepEqual(find, cloned, xs[k], ys[k])
    case (DDict(_, xs), DDict(_, ys)) =>
      |xs| == |ys| && forall i | 0 <= i < |xs| ::
        var p, q := Lookup(find, xs, xs[i].head.name), Lookup(find, ys, xs[i].head.name);
        p.Some? && q.Some? && DeepEqual(find, cloned, xs[p.value].value, ys[q.value].value)
    case (DVariant(_, t, x), DVariant(_, u, y)) => t == u && DeepEqual(find, cloned, x, y)
    case _ => a == b
  }

  /** valuesEqual: floats by their bits, field maps and maps part by part, each entry of
      the first map looked up in the second, everything else by DeepEqual. */
  predicate ValuesEqual(find: Finder, cloned: bool, a: Deep, b: Deep)
    decreases a
  {
    match (a, b)
    case (DFloat(w, x), DFloat(v, y)) => if w == v then x == y else false
    case (DMessage(_, xs), DMessage(_, ys)) =>
      xs.Keys == ys.Keys && forall k | k in xs :: ValuesEqual(find, cloned, xs[k], ys[k])
    case (DList(_, m, xs), DList(_, n, ys)) =>
      if m && n then |xs| == |ys| && forall i | 0 <= i < |xs| :: ValuesEqual(find, cloned, xs[i], ys[i])
      else DeepEqual(find, cloned, a, b)
    case (DDict(_, xs), DDict(_, ys)) =>
      |xs| == |ys| && forall i | 0 <= i < |xs| ::
        var q := Lookup(find, ys, xs[i].head.name);
        q.Some? && ValuesEqual(find, cloned, xs[i].value, ys[q.value].value)
    case _ => DeepEqual(find, cloned, a, b)
  }

  /** A NaN that a value and its clone do not share: every one but those in a typed
      float slice. */
  predicate HasNaN(d: Data)
    decreases d
  {
    match d
    case Float(w, b) => NaNBits(w, b)
    case List(_, _, items) => exists i | 0 <= i < |items| :: HasNaN(items[i])
    case Message(_, entries) => exists k | k in entries :: HasNaN(entries[k])
    case Dict(_, pairs) => exists i | 0 <= i < |pairs| :: HasNaN(pairs[i].value)
    case Variant(_, _, payload) => HasNaN(payload)
    case _ => false
  }

  /** A NaN that valuesEqual hands to DeepEqual: under a list or a variant. */
  predicate HidesNaN(d: Data)
    decreases d
  {
    match d
    case Variant(_, _, _) => HasNaN(d)
    case List(_, messages, items) => if messages then exists i | 0 <= i < |items| :: HidesNaN(items[i]) else HasNaN(d)
    case Message(_, entries) => exists k | k in entries :: HidesNaN(entries[k])
    case Dict(_, pairs) => exists i | 0 <= i < |pairs| :: HidesNaN(pairs[i].value)
    case _ => false
  }

  /** Every entry of every map in the value is found under what its key reads as now. */
  predicate Finds(find: Finder, mem: Mem, d: Data)
    decreases d
  {
    match d
    case List(_, _, items) => forall i | 0 <= i < |items| :: Finds(find, mem, items[i])
    case Message(_, entries) => forall k | k in entries :: Finds(find, mem, entries[k])
    case Dict(_, pairs) =>
      && (forall i | 0 <= i < |pairs| :: Found(find, ViewPairs(mem, mem, d), i))
      && forall i | 0 <= i < |pairs| :: Finds(find, mem, pairs[i].value)
    case Variant(_, _, payload) => Finds(find, mem, payload)
    case _ => true
  }

  predicate Found(find: Finder, pairs: seq<DEntry>, i: nat) {
    i < |pairs| && Lookup(find, pairs, pairs[i].head.name) == Some(i)
  }

  // ---- the flip ------------------------------------------------------------

  /** Every byte of the window XORed with 0xFF. */
  function FlipRange(bs: seq<byte>, off: nat, len: nat): (r: seq<byte>)
    ensures |r| == |bs|
    ensures forall i | 0 <= i < |bs| :: r[i] == if off <= i < off + len then 255 - bs[i] else bs[i]
  {
    seq(|bs|, i requires 0 <= i < |bs| => if off <= i < off + len then (255 - bs[i]) as byte else bs[i])
  }

  function Flip(mem: Mem, b: Slice): Mem {
    if b.arr in mem then mem[b.arr := FlipRange(mem[b.arr], b.off, b.len)] else mem
  }

  /** Flipping twice restores the buffer. */
  lemma FlipInvolution(bs: seq<byte>, off: nat, len: nat)
    ensures FlipRange(FlipRange(bs, off, len), off, len) == bs
  {
  }

  /** A window reads differently after the flip exactly when it shares a byte with it. */
  lemma SliceFlip(mem: Mem, s: Slice, b: Slice)
    requires InMem(mem, s) && InMem(mem, b)
    ensures Peek(Flip(mem, b), s) == Peek(mem, s) <==> !Overlap(s, b)
  {
    var x, y := Peek(mem, s), Peek(Flip(mem, b), s);
    assert |x| == |y| == s.len;
    if Overlap(s, b) {
      var i := Max(s.off, b.off) - s.off;
      assert y[i] == 255 - x[i];
    } else {
      assert forall i | 0 <= i < s.len :: y[i] == x[i];
    }
  }

  lemma SlicesFlip(mem: Mem, ss: seq<Slice>, b: Slice)
    requires InMem(mem, b) && forall s | s in ss :: InMem(mem, s)
    ensures PeekAll(Flip(mem, b), ss) == PeekAll(mem, ss) <==> !AnyOverlap(ss, b)
  {
    var x, y := PeekAll(mem, ss), PeekAll(Flip(mem, b), ss);
    hide Peek, Flip, Overlap, PeekAll;
    forall i | 0 <= i < |ss| ensures x[i] == y[i] <==> !Overlap(ss[i], b) {
      assert ss[i] in ss;
      SliceFlip(mem, ss[i], b);
    }
    if AnyOverlap(ss, b) {
      var s :| s in ss && Overlap(s, b);
      var i :| 0 <= i < |ss| && ss[i] == s;
      assert x[i] != y[i];
    }
  }

  /** After the flip the value and a clone taken before compare equal under DeepEqual. */
  predicate DeepStill(find: Finder, mem: Mem, d: Data, b: Slice) {
    DeepEqual(find, true, Content(Flip(mem, b), d), View(mem, Flip(mem, b), d))
  }

  /** After the flip the value and a clone taken before compare equal under valuesEqual. */
  predicate Still(find: Finder, mem: Mem, d: Data, b: Slice) {
    ValuesEqual(find, true, Content(Flip(mem, b), d), View(mem, Flip(mem, b), d))
  }

  // ---- detection is exact --------------------------------------------------

  /** Without a key in the buffer every map finds its entries after the flip. */
  lemma {:induction false} KeysKept(find: Finder, mem: Mem, d: Data, b: Slice)
    requires Lawful(find) && InMem(mem, b) && Readable(mem, d) && Filed(mem, d) && !KeyIn(d, b)
    ensures Finds(find, Flip(mem, b), d)
    decreases d
  {
    hide Flip, InMem, Overlap, ViewPairs, Found, Lawful, Peek;
    match d
    case List(_, _, items) =>
      forall i | 0 <= i < |items| ensures Finds(find, Flip(mem, b), items[i]) {
        assert items[i] in items;
        KeysKept(find, mem, items[i], b);
      }
    case Message(_, entries) =>
      forall k | k in entries ensures Finds(find, Flip(mem, b), entries[k]) {
        KeysKept(find, mem, entries[k], b);
      }
    case Dict(_, pairs) =>
      forall i | 0 <= i < |pairs| ensures Finds(find, Flip(mem, b), pairs[i].value) {
        KeysKept(find, mem, pairs[i].value, b);
      }
      forall i | 0 <= i < |pairs| ensures Found(find, ViewPairs(Flip(mem, b), Flip(mem, b), d), i) {
        KeysFound(find, mem, d, b, i);
      }
    case Variant(_, _, payload) => KeysKept(find, mem, payload, b);
    case _ =>
  }

  /** No two entries are filed or read alike, and each reads as it is filed. */
  predicate Orderly(pairs: seq<DEntry>) {
    && (forall i | 0 <= i < |pairs| :: pairs[i].head.name == pairs[i].head.filed)
    && forall i, j | 0 <= i < j < |pairs| :: pairs[i].head != pairs[j].head
  }

  /** An orderly map finds exactly what it holds. */
  lemma OrderlyFinds(find: Finder, pairs: seq<DEntry>, i: nat)
    requires Lawful(find) && Orderly(pairs) && i < |pairs|
    ensures Found(find, pairs, i)
  {
    var t := pairs[i].head.name;
    var ls, r := Labels(pairs), find(Labels(pairs), t);
    assert ls[i] == Label(t, t);
    assert r.Some? && r.value < |ls| && ls[r.value].name == t;
  }

  lemma KeysFound(find: Finder, mem: Mem, d: Data, b: Slice, i: nat)
    requires Lawful(find) && InMem(mem, b) && d.Dict? && i < |d.pairs|
    requires forall j | 0 <= j < |d.pairs| :: InMem(mem, d.pairs[j].key) && !Overlap(d.pairs[j].key, b)
    requires forall j | 0 <= j < |d.pairs| :: d.pairs[j].filed == Peek(mem, d.pairs[j].key)
    requires forall j, k | 0 <= j < k < |d.pairs| :: d.pairs[j].filed != d.pairs[k].filed
    ensures Found(find, ViewPairs(Flip(mem, b), Flip(mem, b), d), i)
  {
    var x := ViewPairs(Flip(mem, b), Flip(mem, b), d);
    hide Flip, InMem, Overlap, ViewPairs, Found, Lawful, Peek;
    forall j | 0 <= j < |x| ensures x[j].head == Label(d.pairs[j].filed, d.pairs[j].filed) {
      SliceFlip(mem, d.pairs[j].key, b);
    }
    OrderlyFinds(find, x, i);
  }

  /** A clone and its original compare equal under DeepEqual after the flip exactly
      when nothing copied was overwritten and there is no NaN but in float slices; so
      long as the maps find their entries. */
  lemma {:induction false} DeepAfterFlip(find: Finder, mem: Mem, d: Data, b: Slice)
    requires InMem(mem, b) && Readable(mem, d) && Finds(find, Flip(mem, b), d)
    ensures DeepStill(find, mem, d, b) <==> !Touches(d, b) && !HasNaN(d)
    decreases d
  {
    hide Flip, Peek, PeekAll, NaNBits, ZeroBits, Overlap, AnyOverlap, InMem, ViewItems, ViewEntries, ViewPairs,
         FloatsEqual, Found;
    match d
    case List(_, _, items) =>
      forall i | 0 <= i < |items|
        ensures DeepStill(find, mem, items[i], b) <==> !Touches(items[i], b) && !HasNaN(items[i])
      {
        ReadableItem(mem, d, i);
        DeepAfterFlip(find, mem, items[i], b);
      }
      hide Readable, Finds;
      DeepItems(find, mem, d, b);
    case Message(_, entries) =>
      forall k | k in entries
        ensures DeepStill(find, mem, entries[k], b) <==> !Touches(entries[k], b) && !HasNaN(entries[k])
      {
        DeepAfterFlip(find, mem, entries[k], b);
      }
      hide Readable, Finds;
      DeepEntries(find, mem, d, b);
    case Dict(_, pairs) =>
      forall i | 0 <= i < |pairs|
        ensures DeepStill(find, mem, pairs[i].value, b) <==> !Touches(pairs[i].value, b) && !HasNaN(pairs[i].value)
      {
        DeepAfterFlip(find, mem, pairs[i].value, b);
      }
      DeepPairs(find, mem, d, b);
    case Variant(_, tag, payload) => SliceFlip(mem, tag, b); DeepAfterFlip(find, mem, payload, b);
    case _ => DeepLeaf(find, mem, d, b);
  }

  lemma DeepLeaf(find: Finder, mem: Mem, d: Data, b: Slice)
    requires InMem(mem, b) && Readable(mem, d)
    requires !d.List? && !d.Message? && !d.Dict? && !d.Variant?
    ensures DeepStill(find, mem, d, b) <==> !Touches(d, b) && !HasNaN(d)
  {
    hide Flip, Peek, PeekAll, NaNBits, ZeroBits, Overlap, AnyOverlap, InMem, FloatsEqual;
    match d
    case Bytes(s) => SliceFlip(mem, s, b);
    case Text(s) => SliceFlip(mem, s, b);
    case Texts(ss) => SlicesFlip(mem, ss, b);
    case _ =>
  }

  lemma DeepItems(find: Finder, mem: Mem, d: Data, b: Slice)
    requires d.List?
    requires forall i | 0 <= i < |d.items| ::
               DeepStill(find, mem, d.items[i], b) <==> !Touches(d.items[i], b) && !HasNaN(d.items[i])
    ensures DeepStill(find, mem, d, b) <==> !Touches(d, b) && !HasNaN(d)
  {
    hide Flip, ViewItems, ViewEntries, ViewPairs;
    var f := Flip(mem, b);
    var x, y := ViewItems(f, f, d), ViewItems(mem, f, d);
    var u, v := DList(d.at, d.messages, x), DList(d.at, d.messages, y);
    assert Content(f, d) == u && View(mem, f, d) == v;
    hide View;
    assert DeepEqual(find, true, u, v) <==> forall i | 0 <= i < |x| :: DeepEqual(find, true, x[i], y[i]);
    hide DeepEqual;
  }

  lemma DeepFields(find: Finder, of: Ident, x: map<string, Deep>, y: map<string, Deep>)
    requires x.Keys == y.Keys
    ensures DeepEqual(find, true, DMessage(of, x), DMessage(of, y)) <==>
            forall k | k in x :: DeepEqual(find, true, x[k], y[k])
  {
    assert !TakenAsOne(true, DMessage(of, x));
  }

  lemma DeepEntries(find: Finder, mem: Mem, d: Data, b: Slice)
    requires d.Message?
    requires forall k | k in d.entries ::
               DeepStill(find, mem, d.entries[k], b) <==> !Touches(d.entries[k], b) && !HasNaN(d.entries[k])
    ensures DeepStill(find, mem, d, b) <==> !Touches(d, b) && !HasNaN(d)
  {
    hide Flip, ViewItems, ViewEntries, ViewPairs;
    var f := Flip(mem, b);
    var x, y := ViewEntries(f, f, d), ViewEntries(mem, f, d);
    assert Content(f, d) == DMessage(Inner(d.at), x) && View(mem, f, d) == DMessage(Inner(d.at), y);
    hide View, DeepEqual;
    DeepFields(find, Inner(d.at), x, y);
  }

  /** Two maps with the same labels that find their entries compare entry by entry. */
  lemma DeepSlots(find: Finder, at: nat, x: seq<DEntry>, y: seq<DEntry>)
    requires |x| == |y| && forall i | 0 <= i < |x| :: x[i].head == y[i].head
    requires forall i | 0 <= i < |x| :: Found(find, x, i)
    ensures DeepEqual(find, true, DDict(at, x), DDict(at, y)) <==>
            forall i | 0 <= i < |x| :: DeepEqual(find, true, x[i].value, y[i].value)
  {
    SameLookup(find, x, y);
    forall i | 0 <= i < |x| ensures Lookup(find, x, x[i].head.name) == Lookup(find, y, x[i].head.name) == Some(i) {
      assert Found(find, x, i);
    }
    hide Lookup, Found;
    var u, v := DDict(at, x), DDict(at, y);
    assert !TakenAsOne(true, u);
  }

  lemma SameLookup(find: Finder, x: seq<DEntry>, y: seq<DEntry>)
    requires |x| == |y| && forall i | 0 <= i < |x| :: x[i].head == y[i].head
    ensures forall t :: Lookup(find, x, t) == Lookup(find, y, t)
  {
    assert Labels(x) == Labels(y);
  }

  lemma DeepPairs(find: Finder, mem: Mem, d: Data, b: Slice)
    requires d.Dict? && Finds(find, Flip(mem, b), d)
    requires forall i | 0 <= i < |d.pairs| ::
               DeepStill(find, mem, d.pairs[i].value, b) <==> !Touches(d.pairs[i].value, b) && !HasNaN(d.pairs[i].value)
    ensures DeepStill(find, mem, d, b) <==> !Touches(d, b) && !HasNaN(d)
  {
    hide Flip, ViewItems, ViewEntries, ViewPairs, Found;
    var f := Flip(mem, b);
    var x, y := ViewPairs(f, f, d), ViewPairs(mem, f, d);
    assert Content(f, d) == DDict(d.at, x) && View(mem, f, d) == DDict(d.at, y);
    hide View, DeepEqual;
    DeepSlots(find, d.at, x, y);
  }

  /** The same for valuesEqual: a field is reported exactly when a byte range that the
      snapshot copies was overwritten, or DeepEqual gets to see a NaN. */
  lemma {:induction false} EqualAfterFlip(find: Finder, mem: Mem, d: Data, b: Slice)
    requires InMem(mem, b) && Readable(mem, d) && Finds(find, Flip(mem, b), d)
    ensures Still(find, mem, d, b) <==> !Touches(d, b) && !HidesNaN(d)
    decreases d
  {
    hide Flip, InMem, ViewItems, ViewEntries, ViewPairs, DeepEqual, Readable, ValuesEqual, Touches, HidesNaN, Found;
    if d.List? && d.messages {
      forall i | 0 <= i < |d.items|
        ensures Still(find, mem, d.items[i], b) <==> !Touches(d.items[i], b) && !HidesNaN(d.items[i])
      {
        ReadableItem(mem, d, i);
        EqualAfterFlip(find, mem, d.items[i], b);
      }
      hide Finds;
      EqualItems(find, mem, d, b);
    } else if d.Message? {
      forall k | k in d.entries
        ensures Still(find, mem, d.entries[k], b) <==> !Touches(d.entries[k], b) && !HidesNaN(d.entries[k])
      {
        ReadableEntry(mem, d, k);
        EqualAfterFlip(find, mem, d.entries[k], b);
      }
      hide Finds;
      EqualEntries(find, mem, d, b);
    } else if d.Dict? {
      forall i | 0 <= i < |d.pairs|
        ensures Still(find, mem, d.pairs[i].value, b) <==> !Touches(d.pairs[i].value, b) && !HidesNaN(d.pairs[i].value)
      {
        ReadablePair(mem, d, i);
        EqualAfterFlip(find, mem, d.pairs[i].value, b);
      }
      EqualPairs(find, mem, d, b);
    } else {
      PlainAfterFlip(find, mem, d, b);
    }
  }

  lemma ReadableItem(mem: Mem, d: Data, i: nat)
    requires d.List? && Readable(mem, d) && i < |d.items|
    ensures Readable(mem, d.items[i])
  {
    assert d.items[i] in d.items;
  }

  lemma ReadableEntry(mem: Mem, d: Data, k: string)
    requires d.Message? && Readable(mem, d) && k in d.entries
    ensures Readable(mem, d.entries[k])
  {
  }

  lemma ReadablePair(mem: Mem, d: Data, i: nat)
    requires d.Dict? && Readable(mem, d) && i < |d.pairs|
    ensures InMem(mem, d.pairs[i].key) && Readable(mem, d.pairs[i].value)
  {
  }

  lemma PlainAfterFlip(find: Finder, mem: Mem, d: Data, b: Slice)
    requires InMem(mem, b) && Readable(mem, d) && Finds(find, Flip(mem, b), d)
    requires !d.Message? && !d.Dict? && !(d.List? && d.messages)
    ensures Still(find, mem, d, b) <==> !Touches(d, b) && !HidesNaN(d)
  {
    hide Flip, Peek, PeekAll, InMem, NaNBits, Finds, Readable;
    if !d.Float? {
      DeepAfterFlip(find, mem, d, b);
      hide DeepEqual;
    }
  }

  lemma EqualItems(find: Finder, mem: Mem, d: Data, b: Slice)
    requires d.List? && d.messages
    requires forall i | 0 <= i < |d.items| ::
               Still(find, mem, d.items[i], b) <==> !Touches(d.items[i], b) && !HidesNaN(d.items[i])
    ensures Still(find, mem, d, b) <==> !Touches(d, b) && !HidesNaN(d)
  {
    hide Flip, ViewItems, ViewEntries, ViewPairs, DeepEqual;
    var f := Flip(mem, b);
    var x, y := ViewItems(f, f, d), ViewItems(mem, f, d);
    var u, v := DList(d.at, true, x), DList(d.at, true, y);
    assert Content(f, d) == u && View(mem, f, d) == v;
    hide View;
    assert ValuesEqual(find, true, u, v) <==> forall i | 0 <= i < |x| :: ValuesEqual(find, true, x[i], y[i]);
    hide ValuesEqual;
  }

  lemma EqualFields(find: Finder, of: Ident, x: map<string, Deep>, y: map<string, Deep>)
    requires x.Keys == y.Keys
    ensures ValuesEqual(find, true, DMessage(of, x), DMessage(of, y)) <==>
            forall k | k in x :: ValuesEqual(find, true, x[k], y[k])
  {
    hide DeepEqual;
  }

  lemma EqualEntries(find: Finder, mem: Mem, d: Data, b: Slice)
    requires d.Message?
    requires forall k | k in d.entries ::
               Still(find, mem, d.entries[k], b) <==> !Touches(d.entries[k], b) && !HidesNaN(d.entries[k])
    ensures Still(find, mem, d, b) <==> !Touches(d, b) && !HidesNaN(d)
  {
    hide Flip, ViewItems, ViewEntries, ViewPairs, DeepEqual;
    var f := Flip(mem, b);
    var x, y := ViewEntries(f, f, d), ViewEntries(mem, f, d);
    assert Content(f, d) == DMessage(Inner(d.at), x) && View(mem, f, d) == DMessage(Inner(d.at), y);
    hide View, ValuesEqual;
    EqualFields(find, Inner(d.at), x, y);
  }

  lemma EqualSlots(find: Finder, at: nat, x: seq<DEntry>, y: seq<DEntry>)
    requires |x| == |y| && forall i | 0 <= i < |x| :: x[i].head == y[i].head
    requires forall i | 0 <= i < |x| :: Found(find, x, i)
    ensures ValuesEqual(find, true, DDict(at, x), DDict(at, y)) <==>
            forall i | 0 <= i < |x| :: ValuesEqual(find, true, x[i].value, y[i].value)
  {
    SameLookup(find, x, y);
    forall i | 0 <= i < |x| ensures Lookup(find, y, x[i].head.name) == Some(i) {
      assert Found(find, x, i);
    }
    hide Lookup, Found;
  }

  lemma EqualPairs(find: Finder, mem: Mem, d: Data, b: Slice)
    requires d.Dict? && Finds(find, Flip(mem, b), d)
    requires forall i | 0 <= i < |d.pairs| ::
               Still(find, mem, d.pairs[i].value, b) <==> !Touches(d.pairs[i].value, b) && !HidesNaN(d.pairs[i].value)
    ensures Still(find, mem, d, b) <==> !Touches(d, b) && !HidesNaN(d)
  {
    hide Flip, ViewItems, ViewEntries, ViewPairs, Found;
    var f := Flip(mem, b);
    var x, y := ViewPairs(f, f, d), ViewPairs(mem, f, d);
    assert Content(f, d) == DDict(d.at, x) && View(mem, f, d) == DDict(d.at, y);
    hide View, ValuesEqual;
    EqualSlots(find, d.at, x, y);
  }

  // ---- what is read afterwards ---------------------------------------------

  /** A clone reads after the flip as the original did before it exactly when nothing
      it shares was overwritten. */
  lemma {:induction false} CloneReads(mem: Mem, d: Data, b: Slice)
    requires InMem(mem, b) && Readable(mem, d)
    ensures View(mem, Flip(mem, b), d) == Content(mem, d) <==> !Leaks(d, b)
    decreases d
  {
    hide Flip, Peek, PeekAll, Overlap, AnyOverlap, InMem, ViewItems, ViewEntries, ViewPairs;
    match d
    case List(_, _, items) =>
      forall i | 0 <= i < |items|
        ensures View(mem, Flip(mem, b), items[i]) == Content(mem, items[i]) <==> !Leaks(items[i], b)
      {
        ReadableItem(mem, d, i);
        CloneReads(mem, items[i], b);
      }
      CloneItems(mem, d, b);
    case Message(_, entries) =>
      forall k | k in entries
        ensures View(mem, Flip(mem, b), entries[k]) == Content(mem, entries[k]) <==> !Leaks(entries[k], b)
      {
        CloneReads(mem, entries[k], b);
      }
      CloneEntries(mem, d, b);
    case Dict(_, pairs) =>
      forall i | 0 <= i < |pairs|
        ensures View(mem, Flip(mem, b), pairs[i].value) == Content(mem, pairs[i].value) <==> !Leaks(pairs[i].value, b)
        ensures Peek(Flip(mem, b), pairs[i].key) == Peek(mem, pairs[i].key) <==> !Overlap(pairs[i].key, b)
      {
        CloneReads(mem, pairs[i].value, b);
        SliceFlip(mem, pairs[i].key, b);
      }
      ClonePairs(mem, d, b);
    case Floats(_, s) => SliceFlip(mem, s, b);
    case Shared(_, ss) => SlicesFlip(mem, ss, b);
    case Variant(_, _, payload) => CloneReads(mem, payload, b);
    case _ =>
  }

  lemma CloneItems(mem: Mem, d: Data, b: Slice)
    requires d.List?
    requires forall i | 0 <= i < |d.items| ::
               View(mem, Flip(mem, b), d.items[i]) == Content(mem, d.items[i]) <==> !Leaks(d.items[i], b)
    ensures View(mem, Flip(mem, b), d) == Content(mem, d) <==> !Leaks(d, b)
  {
    hide Flip;
    var x, y := ViewItems(mem, Flip(mem, b), d), ViewItems(mem, mem, d);
    hide ViewItems, ViewEntries, ViewPairs;
    assert x == y <==> forall i | 0 <= i < |x| :: x[i] == y[i];
  }

  lemma CloneEntries(mem: Mem, d: Data, b: Slice)
    requires d.Message?
    requires forall k | k in d.entries ::
               View(mem, Flip(mem, b), d.entries[k]) == Content(mem, d.entries[k]) <==> !Leaks(d.entries[k], b)
    ensures View(mem, Flip(mem, b), d) == Content(mem, d) <==> !Leaks(d, b)
  {
    hide Flip;
    var x, y := ViewEntries(mem, Flip(mem, b), d), ViewEntries(mem, mem, d);
    hide ViewItems, ViewEntries, ViewPairs;
    assert x == y <==> forall k | k in x :: x[k] == y[k];
  }

  lemma ClonePairs(mem: Mem, d: Data, b: Slice)
    requires d.Dict?
    requires forall i | 0 <= i < |d.pairs| ::
               View(mem, Flip(mem, b), d.pairs[i].value) == Content(mem, d.pairs[i].value) <==>
                 !Leaks(d.pairs[i].value, b)
    requires forall i | 0 <= i < |d.pairs| ::
               Peek(Flip(mem, b), d.pairs[i].key) == Peek(mem, d.pairs[i].key) <==> !Overlap(d.pairs[i].key, b)
    ensures View(mem, Flip(mem, b), d) == Content(mem, d) <==> !Leaks(d, b)
  {
    hide Flip, Peek, Overlap;
    var x, y := ViewPairs(mem, Flip(mem, b), d), ViewPairs(mem, mem, d);
    hide ViewItems, ViewEntries, ViewPairs;
    assert x == y <==> forall i | 0 <= i < |x| :: x[i] == y[i];
  }

  /** A value left in place reads the same after the flip exactly when no byte range
      of it, copied or shared, was overwritten. */
  lemma {:induction false} PlaceReads(mem: Mem, d: Data, b: Slice)
    requires InMem(mem, b) && Readable(mem, d)
    ensures Content(Flip(mem, b), d) == Content(mem, d) <==> !Touches(d, b) && !Leaks(d, b)
    decreases d
  {
    hide Flip, Peek, PeekAll, Overlap, AnyOverlap, InMem, ViewItems, ViewEntries, ViewPairs;
    match d
    case List(_, _, items) =>
      forall i | 0 <= i < |items|
        ensures Content(Flip(mem, b), items[i]) == Content(mem, items[i]) <==>
                !Touches(items[i], b) && !Leaks(items[i], b)
      {
        ReadableItem(mem, d, i);
        PlaceReads(mem, items[i], b);
      }
      PlaceItems(mem, d, b);
    case Message(_, entries) =>
      forall k | k in entries
        ensures Content(Flip(mem, b), entries[k]) == Content(mem, entries[k]) <==>
                !Touches(entries[k], b) && !Leaks(entries[k], b)
      {
        PlaceReads(mem, entries[k], b);
      }
      PlaceEntries(mem, d, b);
    case Dict(_, pairs) =>
      forall i | 0 <= i < |pairs|
        ensures Content(Flip(mem, b), pairs[i].value) == Content(mem, pairs[i].value) <==>
                !Touches(pairs[i].value, b) && !Leaks(pairs[i].value, b)
        ensures Peek(Flip(mem, b), pairs[i].key) == Peek(mem, pairs[i].key) <==> !Overlap(pairs[i].key, b)
      {
        PlaceReads(mem, pairs[i].value, b);
        SliceFlip(mem, pairs[i].key, b);
      }
      PlacePairs(mem, d, b);
    case Floats(_, s) => SliceFlip(mem, s, b);
    case Shared(_, ss) => SlicesFlip(mem, ss, b);
    case Bytes(s) => SliceFlip(mem, s, b);
    case Text(s) => SliceFlip(mem, s, b);
    case Texts(ss) => SlicesFlip(mem, ss, b);
    case Variant(_, tag, payload) => SliceFlip(mem, tag, b); PlaceReads(mem, payload, b);
    case _ =>
  }

  lemma PlaceItems(mem: Mem, d: Data, b: Slice)
    requires d.List?
    requires forall i | 0 <= i < |d.items| ::
               Content(Flip(mem, b), d.items[i]) == Content(mem, d.items[i]) <==>
                 !Touches(d.items[i], b) && !Leaks(d.items[i], b)
    ensures Content(Flip(mem, b), d) == Content(mem, d) <==> !Touches(d, b) && !Leaks(d, b)
  {
    hide Flip;
    var x, y := ViewItems(Flip(mem, b), Flip(mem, b), d), ViewItems(mem, mem, d);
    hide ViewItems, ViewEntries, ViewPairs;
    assert x == y <==> forall i | 0 <= i < |x| :: x[i] == y[i];
  }

  lemma PlaceEntries(mem: Mem, d: Data, b: Slice)
    requires d.Message?
    requires forall k | k in d.entries ::
               Content(Flip(mem, b), d.entries[k]) == Content(mem, d.entries[k]) <==>
                 !Touches(d.entries[k], b) && !Leaks(d.entries[k], b)
    ensures Content(Flip(mem, b), d) == Content(mem, d) <==> !Touches(d, b) && !Leaks(d, b)
  {
    hide Flip;
    var x, y := ViewEntries(Flip(mem, b), Flip(mem, b), d), ViewEntries(mem, mem, d);
    hide ViewItems, ViewEntries, ViewPairs;
    assert x == y <==> forall k | k in x :: x[k] == y[k];
  }

  lemma PlacePairs(mem: Mem, d: Data, b: Slice)
    requires d.Dict?
    requires forall i | 0 <= i < |d.pairs| ::
               Content(Flip(mem, b), d.pairs[i].value) == Content(mem, d.pairs[i].value) <==>
                 !Touches(d.pairs[i].value, b) && !Leaks(d.pairs[i].value, b)
    requires forall i | 0 <= i < |d.pairs| ::
               Peek(Flip(mem, b), d.pairs[i].key) == Peek(mem, d.pairs[i].key) <==> !Overlap(d.pairs[i].key, b)
    ensures Content(Flip(mem, b), d) == Content(mem, d) <==> !Touches(d, b) && !Leaks(d, b)
  {
    hide Flip, Peek, Overlap;
    var x, y := ViewPairs(Flip(mem, b), Flip(mem, b), d), ViewPairs(mem, mem, d);
    hide ViewItems, ViewEntries, ViewPairs;
    assert x == y <==> forall i | 0 <= i < |x| :: x[i] == y[i];
  }
}
