/** The zero-copy probe on real memory (lib/go/serify/auditcheck.go): field maps are
    objects, buffers are arrays, and the probe flips the input buffer in place. */
module AuditHeap {
  import opened Common
  import opened AuditValues

  /** An element of a []any or a map[string]any: one of the field maps, or a value. */
  datatype Part<D> = Kid(i: nat) | Other(d: D)

  /** How a value is put together from field maps: it is one, it is a []*FieldMap, a
      variant around one, or a []any or a map[string]any with no string or bytes
      directly in it. */
  datatype Shape<S, D> =
    | Single
    | Many(at: nat)
    | Tagged(at: nat, tag: S)
    | Items(at: nat, parts: seq<Part<D>>)
    | Entries(at: nat, slots: seq<Slot<S, D>>)

  /** An entry of such a map. */
  datatype Slot<S, D> = Slot(key: S, filed: seq<byte>, part: Part<D>)

  /** A field's value, split by what the walk does with it: a `Node` it only descends
      through, anything else is a `Leaf`. */
  datatype Val = Leaf(d: Data) | Node(shape: Shape<Slice, Data>, kids: seq<FieldMap>)

  class FieldMap {
    var fields: map<string, Val>

    constructor (fields: map<string, Val>)
      ensures this.fields == fields
    {
      this.fields := fields;
    }
  }

  datatype Snap = Snap(fm: FieldMap, key: string, orig: Data)

  predicate TextOrBytes(d: Data) { d.Text? || d.Bytes? }

  /** collectFieldSnaps snapshots the field as a whole. */
  predicate Snapped(d: Data) {
    match d
    case Bytes(_) => true
    case Text(_) => true
    case Texts(_) => true
    case List(_, messages, items) => !messages && exists i | 0 <= i < |items| :: TextOrBytes(items[i])
    case Dict(_, pairs) => exists i | 0 <= i < |pairs| :: TextOrBytes(pairs[i].value)
    case Variant(_, _, payload) => TextOrBytes(payload)
    case _ => false
  }

  /** The field is split as the walk does: what it descends through is no leaf, and a
      list or map with a string or bytes directly in it is no node. */
  predicate WellSplit(v: Val) {
    match v
    case Leaf(d) => LeafKind(d)
    case Node(Items(_, parts), _) => forall i | 0 <= i < |parts| :: parts[i].Other? ==> Passed(parts[i].d)
    case Node(Entries(_, slots), _) => forall i | 0 <= i < |slots| :: slots[i].part.Other? ==> Passed(slots[i].part.d)
    case _ => true
  }

  predicate LeafKind(d: Data) {
    match d
    case Message(_, _) => false
    case List(_, messages, items) => !messages && (Snapped(d) || forall i | 0 <= i < |items| :: !items[i].Message?)
    case Dict(_, pairs) => Snapped(d) || forall i | 0 <= i < |pairs| :: !pairs[i].value.Message?
    case Variant(_, _, payload) => !payload.Message?
    case _ => true
  }

  /** An element that the walk passes by. */
  predicate Passed(d: Data) { !d.Message? && !TextOrBytes(d) }

  /** The field's reading after the probe depends on bytes it did not save. */
  predicate Lost(d: Data, b: Slice) {
    if Snapped(d) then Leaks(d, b) else Touches(d, b) || Leaks(d, b)
  }

  /** The probe names the field: a byte range that it copied was overwritten, or DeepEqual
      gets to see a NaN. Where a map no longer finds an entry, its key being overwritten,
      the lookups decide. */
  predicate Named(find: Finder, mem: Mem, d: Data, b: Slice) {
    Snapped(d) && if Finds(find, Flip(mem, b), d) then Touches(d, b) || HidesNaN(d) else !Still(find, mem, d, b)
  }

  // ---- reading the heap ----------------------------------------------------

  /** The arrays of the parts that cloneValue copies. */
  function Owned(d: Data): set<array<byte>>
    decreases d
  {
    match d
    case Bytes(s) => {s.arr}
    case Text(s) => {s.arr}
    case Texts(ss) => set s | s in ss :: s.arr
    case List(_, _, items) => set i, a | i in items && a in Owned(i) :: a
    case Message(_, entries) => set k, a | k in entries && a in Owned(entries[k]) :: a
    case Dict(_, pairs) => set e, a | e in pairs && a in Owned(e.value) :: a
    case Variant(_, tag, payload) => {tag.arr} + Owned(payload)
    case _ => {}
  }

  /** All arrays a value refers to. */
  function Arrays(d: Data): set<array<byte>>
    decreases d
  {
    match d
    case Floats(_, s) => {s.arr}
    case Shared(_, ss) => set s | s in ss :: s.arr
    case Bytes(s) => {s.arr}
    case Text(s) => {s.arr}
    case Texts(ss) => set s | s in ss :: s.arr
    case List(_, _, items) => set i, a | i in items && a in Arrays(i) :: a
    case Message(_, entries) => set k, a | k in entries && a in Arrays(entries[k]) :: a
    case Dict(_, pairs) => set i, a | 0 <= i < |pairs| && a in PairArrays(pairs[i]) :: a
    case Variant(_, tag, payload) => {tag.arr} + Arrays(payload)
    case _ => {}
  }

  function PairArrays(e: Entry): set<array<byte>> { {e.key.arr} + Arrays(e.value) }

  function Here(s: Slice): seq<byte>
    reads s.arr
  {
    if s.off + s.len <= s.arr.Length then s.arr[s.off..s.off + s.len] else []
  }

  function HereAll(ss: seq<Slice>): (bss: seq<seq<byte>>)
    reads set s | s in ss :: s.arr
    ensures |bss| == |ss| && forall i | 0 <= i < |ss| :: bss[i] == Here(ss[i])
  {
    if ss == [] then [] else [Here(ss[0])] + HereAll(ss[1..])
  }

  /** What a value reads as in the current heap. */
  function Now(d: Data): Deep
    reads Arrays(d)
    decreases d, 1
  {
    match d
    case Scalar(n) => DScalar(n)
    case Float(w, b) => DFloat(w, b)
    case Floats(w, s) => DFloats(s, w, Here(s))
    case Shared(form, ss) => DShared(form, HereAll(ss))
    case Bytes(s) => DBytes(Here(s))
    case Text(s) => DText(Here(s))
    case Texts(ss) => DTexts(HereAll(ss))
    case List(at, messages, _) => DList(at, messages, NowItems(d))
    case Message(at, _) => DMessage(Inner(at), NowEntries(d))
    case Dict(at, _) => DDict(at, NowPairs(d))
    case Variant(at, tag, payload) => DVariant(at, Here(tag), Now(payload))
  }

  function NowItems(d: Data): (r: seq<Deep>)
    requires d.List?
    reads Arrays(d)
    ensures |r| == |d.items| && forall i | 0 <= i < |r| :: r[i] == Now(d.items[i])
    decreases d, 0
  {
    seq(|d.items|, i requires 0 <= i < |d.items| reads Arrays(d) => Now(d.items[i]))
  }

  function NowPair(e: Entry): DEntry
    reads PairArrays(e)
    decreases e, 2
  {
    DEntry(Label(e.filed, Here(e.key)), Now(e.value))
  }

  function NowPairs(d: Data): (r: seq<DEntry>)
    requires d.Dict?
    reads Arrays(d)
    ensures |r| == |d.pairs| && forall i | 0 <= i < |r| :: r[i] == NowPair(d.pairs[i])
    decreases d, 0
  {
    seq(|d.pairs|, i requires 0 <= i < |d.pairs| reads Arrays(d) => NowPair(d.pairs[i]))
  }

  function NowEntries(d: Data): (r: map<string, Deep>)
    requires d.Message?
    reads Arrays(d)
    ensures r.Keys == d.entries.Keys && forall k | k in r :: r[k] == Now(d.entries[k])
    decreases d, 0
  {
    map k | k in d.entries :: Now(d.entries[k])
  }

  /** `mem` records what its arrays hold. */
  ghost predicate MemIs(mem: Mem)
    reads mem.Keys
  {
    forall a | a in mem :: mem[a] == a[..]
  }

  /** `w` is a clone of `d` as `d` read in `mem`: same shape, copied parts equal in
      content, everything else shared, the keys of maps too. */
  ghost predicate Copies(mem: Mem, d: Data, w: Data)
    reads Owned(w)
    decreases d
  {
    match d
    case Bytes(s) => w.Bytes? && Here(w.s) == Peek(mem, s)
    case Text(s) => w.Text? && Here(w.s) == Peek(mem, s)
    case Texts(ss) => w.Texts? && HereAll(w.ss) == PeekAll(mem, ss)
    case List(at, messages, items) =>
      w.List? && w.at == at && w.messages == messages && |w.items| == |items| &&
        forall i | 0 <= i < |items| :: Copies(mem, items[i], w.items[i])
    case Message(at, entries) =>
      w.Message? && w.at == at && w.entries.Keys == entries.Keys &&
        forall k | k in entries :: Copies(mem, entries[k], w.entries[k])
    case Dict(at, pairs) =>
      w.Dict? && w.at == at && |w.pairs| == |pairs| &&
        forall i | 0 <= i < |pairs| ::
          && w.pairs[i].key == pairs[i].key && w.pairs[i].filed == pairs[i].filed
          && Copies(mem, pairs[i].value, w.pairs[i].value)
    case Variant(at, tag, payload) =>
      w.Variant? && w.at == at && Here(w.tag) == Peek(mem, tag) && Copies(mem, payload, w.payload)
    case _ => w == d
  }

  lemma HereIs(mem: Mem, s: Slice)
    requires MemIs(mem) && InMem(mem, s)
    ensures Here(s) == Peek(mem, s)
  {
  }

  lemma HereAllIs(mem: Mem, ss: seq<Slice>)
    requires MemIs(mem) && forall s | s in ss :: InMem(mem, s)
    ensures HereAll(ss) == PeekAll(mem, ss)
  {
    hide MemIs, InMem, Here, Peek;
    forall i | 0 <= i < |ss| ensures Here(ss[i]) == Peek(mem, ss[i]) {
      assert ss[i] in ss;
      HereIs(mem, ss[i]);
    }
  }

  /** The heap reading is the one the recorded contents give. */
  lemma {:induction false} NowIs(mem: Mem, d: Data)
    requires MemIs(mem) && Readable(mem, d)
    ensures Now(d) == Content(mem, d)
    decreases d
  {
    hide MemIs, InMem, Here, Peek, HereAll, PeekAll, NowItems, NowEntries, NowPairs, ViewItems, ViewEntries,
         ViewPairs;
    match d
    case Floats(_, s) => HereIs(mem, s);
    case Shared(_, ss) => HereAllIs(mem, ss);
    case Bytes(s) => HereIs(mem, s);
    case Text(s) => HereIs(mem, s);
    case Texts(ss) => HereAllIs(mem, ss);
    case List(_, _, items) =>
      forall i | 0 <= i < |items| ensures NowItems(d)[i] == ViewItems(mem, mem, d)[i] {
        ReadableItem(mem, d, i);
        NowIs(mem, items[i]);
      }
    case Message(_, entries) =>
      forall k | k in entries ensures NowEntries(d)[k] == ViewEntries(mem, mem, d)[k] {
        NowIs(mem, entries[k]);
      }
    case Dict(_, pairs) =>
      forall i | 0 <= i < |pairs| ensures NowPairs(d)[i] == ViewPairs(mem, mem, d)[i] {
        ReadablePair(mem, d, i);
        HereIs(mem, pairs[i].key);
        NowIs(mem, pairs[i].value);
      }
    case Variant(_, tag, payload) => HereIs(mem, tag); NowIs(mem, payload);
    case _ =>
  }

  /** A clone reads as its copied parts did in `mem` and its shared parts do now. */
  lemma {:induction false} CopyNow(mem: Mem, now: Mem, d: Data, w: Data)
    requires MemIs(now) && Readable(now, d) && Copies(mem, d, w)
    ensures Now(w) == View(mem, now, d)
    decreases d
  {
    hide MemIs, InMem, Here, Peek, HereAll, PeekAll, NowItems, NowEntries, NowPairs, ViewItems, ViewEntries,
         ViewPairs;
    if d.List? {
      hide Readable, Now, View;
      forall i | 0 <= i < |d.items| ensures Now(w.items[i]) == View(mem, now, d.items[i]) {
        ReadableItem(now, d, i);
        CopyNow(mem, now, d.items[i], w.items[i]);
      }
      hide Copies;
      ItemsNow(mem, now, d, w);
    } else if d.Message? {
      hide Readable, Now, View;
      forall k | k in d.entries ensures Now(w.entries[k]) == View(mem, now, d.entries[k]) {
        ReadableEntry(now, d, k);
        CopyNow(mem, now, d.entries[k], w.entries[k]);
      }
      hide Copies;
      EntriesNow(mem, now, d, w);
    } else if d.Dict? {
      hide Readable, Now, View;
      forall i | 0 <= i < |d.pairs|
        ensures Now(w.pairs[i].value) == View(mem, now, d.pairs[i].value)
        ensures Here(w.pairs[i].key) == Peek(now, d.pairs[i].key)
      {
        ReadablePair(now, d, i);
        HereIs(now, d.pairs[i].key);
        CopyNow(mem, now, d.pairs[i].value, w.pairs[i].value);
      }
      hide Copies;
      PairsNow(mem, now, d, w);
    } else if d.Variant? {
      CopyNow(mem, now, d.payload, w.payload);
    } else if d.Shared? {
      HereAllIs(now, d.ss);
    } else if d.Floats? {
      HereIs(now, d.s);
    }
  }

  lemma ItemsNow(mem: Mem, now: Mem, d: Data, w: Data)
    requires d.List? && w.List? && w.at == d.at && w.messages == d.messages && |w.items| == |d.items|
    requires forall i | 0 <= i < |d.items| :: Now(w.items[i]) == View(mem, now, d.items[i])
    ensures Now(w) == View(mem, now, d)
  {
    assert NowItems(w) == ViewItems(mem, now, d) by {
      hide Now, View;
    }
    hide NowItems, ViewItems;
  }

  lemma EntriesNow(mem: Mem, now: Mem, d: Data, w: Data)
    requires d.Message? && w.Message? && w.at == d.at && w.entries.Keys == d.entries.Keys
    requires forall k | k in d.entries :: Now(w.entries[k]) == View(mem, now, d.entries[k])
    ensures Now(w) == View(mem, now, d)
  {
    assert NowEntries(w) == ViewEntries(mem, now, d) by {
      hide Now, View;
    }
    hide NowEntries, ViewEntries;
  }

  lemma PairsNow(mem: Mem, now: Mem, d: Data, w: Data)
    requires d.Dict? && w.Dict? && w.at == d.at && |w.pairs| == |d.pairs|
    requires forall i | 0 <= i < |d.pairs| ::
               && w.pairs[i].key == d.pairs[i].key && w.pairs[i].filed == d.pairs[i].filed
               && Here(w.pairs[i].key) == Peek(now, d.pairs[i].key)
               && Now(w.pairs[i].value) == View(mem, now, d.pairs[i].value)
    ensures Now(w) == View(mem, now, d)
  {
    assert NowPairs(w) == ViewPairs(mem, now, d) by {
      hide Now, View, Here, Peek;
    }
    hide NowPairs, ViewPairs;
  }

  // ---- cloning -------------------------------------------------------------

  method CloneBytes(s: Slice, ghost mem: Mem) returns (t: Slice)
    requires MemIs(mem) && InMem(mem, s)
    ensures fresh(t.arr) && Here(t) == Peek(mem, s)
  {
    var a := new byte[s.len](i requires 0 <= i < s.len &&
        s.off + s.len <= s.arr.Length reads s.arr => s.arr[s.off + i]);
    t := Slice(a, 0, s.len);
    assert Here(t) == Peek(mem, s);
  }

  method CloneTexts(ss: seq<Slice>, ghost mem: Mem) returns (ts: seq<Slice>)
    requires MemIs(mem) && forall s | s in ss :: InMem(mem, s)
    ensures (forall t | t in ts :: fresh(t.arr)) && HereAll(ts) == PeekAll(mem, ss)
  {
    hide InMem, Here, Peek, HereAll;
    ts := [];
    for i := 0 to |ss|
      invariant |ts| == i && forall t | t in ts :: fresh(t.arr)
      invariant forall j | 0 <= j < i :: Here(ts[j]) == Peek(mem, ss[j])
    {
      assert ss[i] in ss;
      var t := CloneBytes(ss[i], mem);
      ts := ts + [t];
    }
    assert HereAll(ts) == PeekAll(mem, ss);
  }

  /** cloneValue. */
  method CloneValue(d: Data, ghost mem: Mem) returns (w: Data)
    requires MemIs(mem) && Readable(mem, d) && Filed(mem, d)
    ensures Copies(mem, d, w) && fresh(Owned(w))
    decreases d
  {
    hide InMem, Here, Peek, HereAll, PeekAll, MemIs;
    match d
    case Bytes(s) =>
      var t := CloneBytes(s, mem);
      w := Bytes(t);
    case Text(s) =>
      var t := CloneBytes(s, mem);
      w := Text(t);
    case Texts(ss) =>
      var ts := CloneTexts(ss, mem);
      w := Texts(ts);
    case List(_, _, _) => w := CloneList(d, mem);
    case Message(_, _) => w := CloneMessage(d, mem);
    case Dict(_, _) => w := CloneDict(d, mem);
    case Variant(at, tag, payload) =>
      var t := CloneBytes(tag, mem);
      var o := CloneValue(payload, mem);
      w := Variant(at, t, o);
    case _ => w := d;
  }

  /** The first items are cloned, into arrays of `owned`. */
  ghost predicate CopiedItems(mem: Mem, items: seq<Data>, out: seq<Data>, owned: set<array<byte>>)
    reads owned
  {
    |out| <= |items| && forall j | 0 <= j < |out| :: Owned(out[j]) <= owned && Copies(mem, items[j], out[j])
  }

  lemma CopiedItem(mem: Mem, items: seq<Data>, out: seq<Data>, owned: set<array<byte>>, o: Data)
    requires CopiedItems(mem, items, out, owned) && |out| < |items| && Copies(mem, items[|out|], o)
    ensures CopiedItems(mem, items, out + [o], owned + Owned(o))
  {
    hide Copies, Owned;
  }

  lemma CopiedList(mem: Mem, d: Data, out: seq<Data>, owned: set<array<byte>>)
    requires d.List? && CopiedItems(mem, d.items, out, owned) && |out| == |d.items|
    ensures Copies(mem, d, List(d.at, d.messages, out)) && Owned(List(d.at, d.messages, out)) <= owned
  {
    var w := List(d.at, d.messages, out);
    forall a | a in Owned(w) ensures a in owned {
      var i :| i in out && a in Owned(i);
      var j :| 0 <= j < |out| && out[j] == i;
    }
  }

  method CloneList(d: Data, ghost mem: Mem) returns (w: Data)
    requires MemIs(mem) && Readable(mem, d) && Filed(mem, d) && d.List?
    ensures Copies(mem, d, w) && fresh(Owned(w))
    decreases d, 0
  {
    var out: seq<Data> := [];
    ghost var owned: set<array<byte>> := {};
    for i := 0 to |d.items|
      invariant |out| == i && fresh(owned) && CopiedItems(mem, d.items, out, owned)
    {
      ReadableItem(mem, d, i);
      FiledItem(mem, d, i);
      hide Readable, Filed, Copies, Owned, MemIs, CopiedItems;
      var o := CloneValue(d.items[i], mem);
      CopiedItem(mem, d.items, out, owned, o);
      owned := owned + Owned(o);
      out := out + [o];
    }
    CopiedList(mem, d, out, owned);
    w := List(d.at, d.messages, out);
  }

  ghost predicate CopiedEntries(mem: Mem, entries: map<string, Data>, out: map<string, Data>, owned: set<array<byte>>)
    reads owned
  {
    out.Keys <= entries.Keys && forall k | k in out :: Owned(out[k]) <= owned && Copies(mem, entries[k], out[k])
  }

  lemma NothingCopied(mem: Mem, entries: map<string, Data>)
    ensures CopiedEntries(mem, entries, map[], {})
  {
  }

  lemma CopiedEntry(mem: Mem, entries: map<string, Data>, out: map<string, Data>, owned: set<array<byte>>, k: string,
      o: Data)
    requires CopiedEntries(mem, entries, out, owned) && k in entries && k !in out && Copies(mem, entries[k], o)
    ensures CopiedEntries(mem, entries, out[k := o], owned + Owned(o))
  {
    hide Copies, Owned;
  }

  lemma CopiedMessage(mem: Mem, d: Data, out: map<string, Data>, owned: set<array<byte>>)
    requires d.Message? && CopiedEntries(mem, d.entries, out, owned) && out.Keys == d.entries.Keys
    ensures Copies(mem, d, Message(d.at, out)) && Owned(Message(d.at, out)) <= owned
  {
    var w := Message(d.at, out);
    assert w.entries == out;
  }

  /** snapshotFieldMap. */
  method CloneMessage(d: Data, ghost mem: Mem) returns (w: Data)
    requires MemIs(mem) && Readable(mem, d) && Filed(mem, d) && d.Message?
    ensures Copies(mem, d, w) && fresh(Owned(w))
    decreases d, 0
  {
    hide Readable, Filed, Copies, Owned, MemIs, CopiedEntries;
    var out: map<string, Data> := map[];
    ghost var owned: set<array<byte>> := {};
    NothingCopied(mem, d.entries);
    var keys := d.entries.Keys;
    while keys != {}
      invariant keys <= d.entries.Keys && out.Keys == d.entries.Keys - keys
      invariant fresh(owned) && CopiedEntries(mem, d.entries, out, owned)
      decreases |keys|
    {
      var k :| k in keys;
      ReadableEntry(mem, d, k);
      FiledEntry(mem, d, k);
      var o := CloneValue(d.entries[k], mem);
      CopiedEntry(mem, d.entries, out, owned, k, o);
      owned := owned + Owned(o);
      out := out[k := o];
      keys := keys - {k};
    }
    CopiedMessage(mem, d, out, owned);
    w := Message(d.at, out);
  }

  lemma FiledItem(mem: Mem, d: Data, i: nat)
    requires d.List? && Filed(mem, d) && i < |d.items|
    ensures Filed(mem, d.items[i])
  {
    assert d.items[i] in d.items;
  }

  lemma FiledEntry(mem: Mem, d: Data, k: string)
    requires d.Message? && Filed(mem, d) && k in d.entries
    ensures Filed(mem, d.entries[k])
  {
  }

  lemma FiledPair(mem: Mem, d: Data, i: nat)
    requires d.Dict? && Filed(mem, d) && i < |d.pairs|
    ensures d.pairs[i].filed == Peek(mem, d.pairs[i].key) && Filed(mem, d.pairs[i].value)
  {
  }

  /** The first entries are stored again, under the same keys. */
  ghost predicate CopiedPairs(mem: Mem, pairs: seq<Entry>, out: seq<Entry>, owned: set<array<byte>>)
    reads owned
  {
    |out| <= |pairs| && forall j | 0 <= j < |out| ::
      && out[j].key == pairs[j].key && out[j].filed == pairs[j].filed
      && Owned(out[j].value) <= owned && Copies(mem, pairs[j].value, out[j].value)
  }

  lemma CopiedPair(mem: Mem, pairs: seq<Entry>, out: seq<Entry>, owned: set<array<byte>>, e: Entry)
    requires CopiedPairs(mem, pairs, out, owned) && |out| < |pairs|
    requires e.key == pairs[|out|].key && e.filed == pairs[|out|].filed && Copies(mem, pairs[|out|].value, e.value)
    ensures CopiedPairs(mem, pairs, out + [e], owned + Owned(e.value))
  {
    hide Copies, Owned;
  }

  lemma CopiedDict(mem: Mem, d: Data, out: seq<Entry>, owned: set<array<byte>>)
    requires d.Dict? && CopiedPairs(mem, d.pairs, out, owned) && |out| == |d.pairs|
    ensures Copies(mem, d, Dict(d.at, out)) && Owned(Dict(d.at, out)) <= owned
  {
    var w := Dict(d.at, out);
    forall a | a in Owned(w) ensures a in owned {
      var e :| e in out && a in Owned(e.value);
      var j :| 0 <= j < |out| && out[j] == e;
    }
  }

  /** The map arm: every entry is stored under the key it had, a string that is not
      cloned, and filed under what that key reads as now. */
  method CloneDict(d: Data, ghost mem: Mem) returns (w: Data)
    requires MemIs(mem) && Readable(mem, d) && Filed(mem, d) && d.Dict?
    ensures Copies(mem, d, w) && fresh(Owned(w))
    decreases d, 0
  {
    var out: seq<Entry> := [];
    ghost var owned: set<array<byte>> := {};
    for i := 0 to |d.pairs|
      invariant |out| == i && fresh(owned) && CopiedPairs(mem, d.pairs, out, owned)
    {
      ReadablePair(mem, d, i);
      FiledPair(mem, d, i);
      hide Readable, Filed, Copies, Owned, MemIs, CopiedPairs, Here, Peek, InMem;
      HereIs(mem, d.pairs[i].key);
      var name := Here(d.pairs[i].key);
      var o := CloneValue(d.pairs[i].value, mem);
      var e := Entry(d.pairs[i].key, name, o);
      CopiedPair(mem, d.pairs, out, owned, e);
      owned := owned + Owned(o);
      out := out + [e];
    }
    CopiedDict(mem, d, out, owned);
    w := Dict(d.at, out);
  }
}
