/** detectZeroCopy: snapshot every field that could alias the buffer, flip the buffer
    in place, see which fields changed, put the snapshots back. */
module ZeroCopy {
  import opened Common
  import opened AuditValues
  import opened AuditHeap

  /** Field maps are nested, never in a cycle: a field map ranks above those in its
      fields. */
  ghost predicate Layered(rank: map<FieldMap, nat>)
    reads rank.Keys
  {
    forall g, k, c | g in rank && k in g.fields && g.fields[k].Node? && c in g.fields[k].kids ::
      c in rank && rank[c] < rank[g]
  }

  /** The field maps the walk from `fm` visits. */
  ghost function Reach(rank: map<FieldMap, nat>, fm: FieldMap): (s: set<FieldMap>)
    requires Layered(rank) && fm in rank
    reads rank.Keys
    ensures fm in s && s <= rank.Keys
    decreases rank[fm]
  {
    {fm} + set k, c, g | k in fm.fields && fm.fields[k].Node? && c in fm.fields[k].kids && g in Reach(rank, c) :: g
  }

  predicate Watched(v: Val) { v.Leaf? && Snapped(v.d) }

  ghost predicate AllReadable(rank: map<FieldMap, nat>, mem: Mem)
    reads rank.Keys
  {
    forall g, k | g in rank && k in g.fields && g.fields[k].Leaf? ::
      Readable(mem, g.fields[k].d) && Filed(mem, g.fields[k].d)
  }

  /** Every field is split as the walk does. */
  ghost predicate AllWellSplit(rank: map<FieldMap, nat>)
    reads rank.Keys
  {
    forall g, k | g in rank && k in g.fields :: WellSplit(g.fields[k])
  }

  /** Each snapshot is of a watched field and holds a clone of it, its copied parts in
      memory of their own. */
  ghost predicate Taken(mem: Mem, reach: set<FieldMap>, snaps: seq<Snap>, owned: set<array<byte>>)
    reads reach, owned
  {
    forall s | s in snaps ::
      && s.fm in reach && s.key in s.fm.fields && Watched(s.fm.fields[s.key])
      && Owned(s.orig) <= owned && Copies(mem, s.fm.fields[s.key].d, s.orig)
  }

  predicate SnapFor(snaps: seq<Snap>, g: FieldMap, k: string) {
    exists s | s in snaps :: s.fm == g && s.key == k
  }

  ghost predicate Complete(reach: set<FieldMap>, snaps: seq<Snap>)
    reads reach
  {
    forall g, k | g in reach && k in g.fields && Watched(g.fields[k]) :: SnapFor(snaps, g, k)
  }

  ghost predicate FieldDone(rank: map<FieldMap, nat>, fm: FieldMap, k: string, snaps: seq<Snap>)
    requires Layered(rank) && fm in rank && k in fm.fields
    reads rank.Keys
  {
    && (Watched(fm.fields[k]) ==> SnapFor(snaps, fm, k))
    && (fm.fields[k].Node? ==> forall c | c in fm.fields[k].kids :: Complete(Reach(rank, c), snaps))
  }

  lemma CompleteGrows(reach: set<FieldMap>, snaps: seq<Snap>, more: seq<Snap>)
    requires Complete(reach, snaps) && forall s | s in snaps :: s in more
    ensures Complete(reach, more)
  {
  }

  lemma FieldDoneGrows(rank: map<FieldMap, nat>, fm: FieldMap, k: string, snaps: seq<Snap>, more: seq<Snap>)
    requires Layered(rank) && fm in rank && k in fm.fields
    requires FieldDone(rank, fm, k, snaps) && forall s | s in snaps :: s in more
    ensures FieldDone(rank, fm, k, more)
  {
    hide Layered, Reach, Complete;
    if fm.fields[k].Node? {
      forall c | c in fm.fields[k].kids ensures Complete(Reach(rank, c), more) {
        assert c in rank by { KidRanked(rank, fm, k, c); }
        CompleteGrows(Reach(rank, c), snaps, more);
      }
    }
  }

  lemma KidRanked(rank: map<FieldMap, nat>, fm: FieldMap, k: string, c: FieldMap)
    requires Layered(rank) && fm in rank && k in fm.fields && fm.fields[k].Node? && c in fm.fields[k].kids
    ensures c in rank && rank[c] < rank[fm] && Reach(rank, c) <= Reach(rank, fm)
  {
  }

  lemma AllDone(rank: map<FieldMap, nat>, fm: FieldMap, snaps: seq<Snap>)
    requires Layered(rank) && fm in rank
    requires forall k | k in fm.fields :: FieldDone(rank, fm, k, snaps)
    ensures Complete(Reach(rank, fm), snaps)
  {
    hide Layered, SnapFor, Watched;
  }

  lemma TakenNone(mem: Mem, reach: set<FieldMap>)
    ensures Taken(mem, reach, [], {})
  {
  }

  lemma TakenSnoc(mem: Mem, reach: set<FieldMap>, snaps: seq<Snap>, owned: set<array<byte>>, s: Snap)
    requires Taken(mem, reach, snaps, owned)
    requires s.fm in reach && s.key in s.fm.fields && Watched(s.fm.fields[s.key]) &&
             Copies(mem, s.fm.fields[s.key].d, s.orig)
    ensures Taken(mem, reach, snaps + [s], owned + Owned(s.orig))
  {
    hide Copies, Owned, Watched;
  }

  /** collectFieldSnaps. */
  method CollectFieldSnaps(fm: FieldMap, snaps: seq<Snap>, ghost rank: map<FieldMap, nat>, ghost reach: set<FieldMap>,
                           ghost mem: Mem, ghost owned0: set<array<byte>>)
    returns (out: seq<Snap>, ghost owned: set<array<byte>>)
    requires Layered(rank) && fm in rank && Reach(rank, fm) <= reach <= rank.Keys
    requires MemIs(mem) && AllReadable(rank, mem) && Taken(mem, reach, snaps, owned0)
    ensures Taken(mem, reach, out, owned) && owned0 <= owned && fresh(owned - owned0)
    ensures forall s | s in snaps :: s in out
    ensures Complete(Reach(rank, fm), out)
    decreases rank[fm]
  {
    hide Layered, Reach, Complete, Taken, AllReadable, MemIs, FieldDone, Snapped, SnapFor, Watched;
    out, owned := snaps, owned0;
    var keys := fm.fields.Keys;
    while keys != {}
      invariant keys <= fm.fields.Keys
      invariant Taken(mem, reach, out, owned) && owned0 <= owned && fresh(owned - owned0)
      invariant forall s | s in snaps :: s in out
      invariant forall k | k in fm.fields && k !in keys :: FieldDone(rank, fm, k, out)
      decreases |keys|
    {
      var k :| k in keys;
      ghost var before := out;
      out, owned := CollectField(fm, k, out, rank, reach, mem, owned);
      keys := keys - {k};
      forall j | j in fm.fields && j !in keys ensures FieldDone(rank, fm, j, out) {
        if j != k {
          FieldDoneGrows(rank, fm, j, before, out);
        }
      }
    }
    AllDone(rank, fm, out);
  }

  method CollectField(fm: FieldMap, k: string, snaps: seq<Snap>, ghost rank: map<FieldMap, nat>,
      ghost reach: set<FieldMap>,
                      ghost mem: Mem, ghost owned0: set<array<byte>>)
    returns (out: seq<Snap>, ghost owned: set<array<byte>>)
    requires Layered(rank) && fm in rank && Reach(rank, fm) <= reach <= rank.Keys && k in fm.fields
    requires MemIs(mem) && AllReadable(rank, mem) && Taken(mem, reach, snaps, owned0)
    ensures Taken(mem, reach, out, owned) && owned0 <= owned && fresh(owned - owned0)
    ensures forall s | s in snaps :: s in out
    ensures FieldDone(rank, fm, k, out)
    decreases rank[fm], 0
  {
    hide Layered, Reach, Complete, Taken, MemIs, Snapped;
    out, owned := snaps, owned0;
    match fm.fields[k]
    case Leaf(d) =>
      if Snapped(d) {
        var orig := CloneValue(d, mem);
        out := snaps + [Snap(fm, k, orig)];
        TakenSnoc(mem, reach, snaps, owned, Snap(fm, k, orig));
        owned := owned + Owned(orig);
        assert Snap(fm, k, orig) in out;
      }
    case Node(_, kids) =>
      hide AllReadable, FieldDone;
      for i := 0 to |kids|
        invariant Taken(mem, reach, out, owned) && owned0 <= owned && fresh(owned - owned0)
        invariant forall s | s in snaps :: s in out
        invariant forall c | c in kids[..i] :: c in rank && Complete(Reach(rank, c), out)
      {
        KidRanked(rank, fm, k, kids[i]);
        ghost var before := out;
        out, owned := CollectFieldSnaps(kids[i], out, rank, reach, mem, owned);
        forall c | c in kids[..i + 1] ensures c in rank && Complete(Reach(rank, c), out) {
          assert kids[..i + 1] == kids[..i] + [kids[i]];
          if c in kids[..i] {
            CompleteGrows(Reach(rank, c), before, out);
          }
        }
      }
      assert kids[..|kids|] == kids;
      NodeDone(rank, fm, k, out);
  }

  lemma NodeDone(rank: map<FieldMap, nat>, fm: FieldMap, k: string, snaps: seq<Snap>)
    requires Layered(rank) && fm in rank && k in fm.fields && fm.fields[k].Node?
    requires forall c | c in fm.fields[k].kids :: c in rank && Complete(Reach(rank, c), snaps)
    ensures FieldDone(rank, fm, k, snaps)
  {
    hide Reach, Complete;
  }

  /** xorFlip. */
  method XorFlip(buf: Slice)
    requires buf.off + buf.len <= buf.arr.Length
    modifies buf.arr
    ensures buf.arr[..] == FlipRange(old(buf.arr[..]), buf.off, buf.len)
  {
    for i := 0 to buf.len
      invariant buf.arr[..] == FlipRange(old(buf.arr[..]), buf.off, i)
    {
      buf.arr[buf.off + i] := 255 - buf.arr[buf.off + i];
    }
  }

  lemma {:induction false} StillReadable(mem: Mem, d: Data, b: Slice)
    requires Readable(mem, d)
    ensures Readable(Flip(mem, b), d)
    decreases d
  {
    hide Flip;
    assert forall s | InMem(mem, s) :: InMem(Flip(mem, b), s) by { FlipKeeps(mem, b); }
    hide InMem;
    match d
    case List(_, _, items) =>
      forall i | i in items ensures Readable(Flip(mem, b), i) {
        StillReadable(mem, i, b);
      }
    case Message(_, entries) =>
      forall k | k in entries ensures Readable(Flip(mem, b), entries[k]) {
        StillReadable(mem, entries[k], b);
      }
    case Dict(_, pairs) =>
      forall i | 0 <= i < |pairs| ensures Readable(Flip(mem, b), pairs[i].value) {
        StillReadable(mem, pairs[i].value, b);
      }
    case Variant(_, _, payload) => StillReadable(mem, payload, b);
    case _ =>
  }

  lemma FlipKeeps(mem: Mem, b: Slice)
    ensures forall s | InMem(mem, s) :: InMem(Flip(mem, b), s)
  {
  }

  /** After the flip a field and its snapshot compare equal exactly when the field has
      no reason to be named. */
  lemma ProbeOne(find: Finder, mem: Mem, d: Data, orig: Data, buf: Slice)
    requires InMem(mem, buf) && Readable(mem, d) && Snapped(d)
    requires MemIs(Flip(mem, buf)) && Copies(mem, d, orig)
    ensures ValuesEqual(find, true, Now(d), Now(orig)) <==> !Named(find, mem, d, buf)
  {
    hide MemIs, Flip, Copies, Readable, InMem, ValuesEqual, Now, Snapped, Touches, HidesNaN, Finds, Content, View;
    StillReadable(mem, d, buf);
    NowIs(Flip(mem, buf), d);
    CopyNow(mem, Flip(mem, buf), d, orig);
    if Finds(find, Flip(mem, buf), d) { EqualAfterFlip(find, mem, d, buf); }
  }

  /** What a field reads as once its snapshot is back. */
  lemma RestoredReads(mem: Mem, d: Data, w: Data, buf: Slice)
    requires InMem(mem, buf) && Readable(mem, d)
    requires MemIs(Flip(mem, buf)) && if Snapped(d) then Copies(mem, d, w) else w == d
    ensures Now(w) == Content(mem, d) <==> !Lost(d, buf)
  {
    hide MemIs, Flip, Copies, Readable, InMem, Now, Snapped, Touches, Leaks, Content, View;
    StillReadable(mem, d, buf);
    if Snapped(d) {
      CopyNow(mem, Flip(mem, buf), d, w);
      CloneReads(mem, d, buf);
    } else {
      NowIs(Flip(mem, buf), d);
      PlaceReads(mem, d, buf);
    }
  }

  /** A snapshot has been put back in this field. */
  predicate PutBack(snaps: seq<Snap>, g: FieldMap, k: string, v: Val) {
    exists s | s in snaps :: s.fm == g && s.key == k && v == Leaf(s.orig)
  }

  /** The restoring loop: every snapshot back in its field, nothing else written. */
  method RestoreAll(snaps: seq<Snap>, ghost rank: map<FieldMap, nat>, ghost fields0: map<FieldMap, map<string, Val>>,
      ghost now: Mem)
    requires MemIs(now)
    ensures MemIs(now)
    requires fields0.Keys == rank.Keys && forall g | g in rank :: g.fields == fields0[g]
    requires forall s | s in snaps :: s.fm in rank && s.key in fields0[s.fm]
    modifies rank.Keys
    ensures forall g | g in rank :: g.fields.Keys == fields0[g].Keys
    ensures forall g, k | g in rank && k in g.fields ::
              if SnapFor(snaps, g, k) then PutBack(snaps, g, k, g.fields[k]) else g.fields[k] == fields0[g][k]
  {
    for i := 0 to |snaps|
      invariant forall g | g in rank :: g.fields.Keys == fields0[g].Keys
      invariant forall g, k | g in rank && k in g.fields ::
                  if SnapFor(snaps[..i], g, k) then PutBack(snaps[..i], g, k, g.fields[k])
                  else g.fields[k] == fields0[g][k]
    {
      var s := snaps[i];
      assert s in snaps;
      ghost var done, more := snaps[..i], snaps[..i + 1];
      assert more == done + [s];
      s.fm.fields := s.fm.fields[s.key := Leaf(s.orig)];
      forall g, k | g in rank && k in g.fields
        ensures if SnapFor(more, g, k) then PutBack(more, g, k, g.fields[k]) else g.fields[k] == fields0[g][k]
      {
        if g == s.fm && k == s.key {
          assert s in more;
        } else if SnapFor(done, g, k) {
          var t :| t in done && t.fm == g && t.key == k && g.fields[k] == Leaf(t.orig);
          assert t in more;
        }
      }
    }
    assert snaps[..|snaps|] == snaps;
  }

  /** With the fields as they were before the probe. */
  ghost predicate TakenFrom(mem: Mem, reach: set<FieldMap>, fields0: map<FieldMap, map<string, Val>>,
      snaps: seq<Snap>, owned: set<array<byte>>)
    reads owned
  {
    forall s | s in snaps ::
      && s.fm in reach && s.fm in fields0 && s.key in fields0[s.fm] && Watched(fields0[s.fm][s.key])
      && Owned(s.orig) <= owned && Copies(mem, fields0[s.fm][s.key].d, s.orig)
  }

  lemma TakenNow(mem: Mem, reach: set<FieldMap>, fields0: map<FieldMap, map<string, Val>>, snaps: seq<Snap>,
      owned: set<array<byte>>)
    requires Taken(mem, reach, snaps, owned) && reach <= fields0.Keys && forall g | g in reach :: g.fields == fields0[g]
    ensures TakenFrom(mem, reach, fields0, snaps, owned)
  {
    hide Copies, Owned, Watched;
  }

  lemma {:induction false} NothingOverlaps(d: Data, b: Slice)
    requires b.len == 0
    ensures !Touches(d, b) && !Leaks(d, b)
    decreases d
  {
    match d
    case List(_, _, items) =>
      forall i | 0 <= i < |items| ensures !Touches(items[i], b) && !Leaks(items[i], b) {
        NothingOverlaps(items[i], b);
      }
    case Message(_, entries) =>
      forall k | k in entries ensures !Touches(entries[k], b) && !Leaks(entries[k], b) {
        NothingOverlaps(entries[k], b);
      }
    case Dict(_, pairs) =>
      forall i | 0 <= i < |pairs| ensures !Touches(pairs[i].value, b) && !Leaks(pairs[i].value, b) {
        NothingOverlaps(pairs[i].value, b);
      }
    case Variant(_, _, payload) => NothingOverlaps(payload, b);
    case _ =>
  }

  lemma EmptyBuffer(rank: map<FieldMap, nat>, mem: Mem, b: Slice)
    requires b.len == 0 && MemIs(mem) && AllReadable(rank, mem)
    ensures forall g, k | g in rank && k in g.fields && g.fields[k].Leaf? ::
              Now(g.fields[k].d) == Content(mem, g.fields[k].d) && !Lost(g.fields[k].d, b)
  {
    hide MemIs, Now, Content, Snapped, Readable, Filed;
    forall g, k | g in rank && k in g.fields && g.fields[k].Leaf?
      ensures Now(g.fields[k].d) == Content(mem, g.fields[k].d) && !Lost(g.fields[k].d, b)
    {
      NowIs(mem, g.fields[k].d);
      NothingOverlaps(g.fields[k].d, b);
    }
  }

  /** The compare loop: the names it gathers. */
  method Compare(find: Finder, snaps: seq<Snap>, buf: Slice, ghost mem: Mem, ghost reach: set<FieldMap>,
                 ghost fields0: map<FieldMap, map<string, Val>>, ghost owned: set<array<byte>>, ghost now: Mem)
    returns (aliased: seq<string>)
    requires InMem(mem, buf) && now == Flip(mem, buf) && MemIs(now) && TakenFrom(mem, reach, fields0, snaps, owned)
    requires forall g | g in fields0 :: g.fields == fields0[g]
    requires forall g, k | g in fields0 && k in fields0[g] && fields0[g][k].Leaf? :: Readable(mem, fields0[g][k].d)
    ensures MemIs(now)
    ensures forall k :: k in aliased <==>
              exists s | s in snaps :: s.key == k && Named(find, mem, fields0[s.fm][s.key].d, buf)
  {
    hide Copies, Readable, Now, Snapped, Named, MemIs, InMem, Flip, Owned, ValuesEqual;
    aliased := [];
    for i := 0 to |snaps|
      invariant forall k :: k in aliased <==>
                exists s | s in snaps[..i] ::
                  s in snaps && s.key == k && Named(find, mem, fields0[s.fm][s.key].d, buf)
    {
      var s := snaps[i];
      assert snaps[..i + 1] == snaps[..i] + [s];
      assert s in snaps;
      var current := s.fm.fields[s.key].d;
      assert Watched(fields0[s.fm][s.key]) && current == fields0[s.fm][s.key].d;
      assert Copies(mem, current, s.orig);
      ProbeOne(find, mem, current, s.orig, buf);
      if !ValuesEqual(find, true, Now(current), Now(s.orig)) {
        aliased := aliased + [s.key];
      }
    }
    assert snaps[..|snaps|] == snaps;
  }

  /** Some visited field under this key is named. */
  ghost predicate NamedKey(find: Finder, mem: Mem, reach: set<FieldMap>, fields0: map<FieldMap, map<string, Val>>,
      k: string, buf: Slice) {
    exists g | g in reach && g in fields0 ::
      k in fields0[g] && fields0[g][k].Leaf? && Named(find, mem, fields0[g][k].d, buf)
  }

  lemma NamesExact(find: Finder, mem: Mem, reach: set<FieldMap>, fields0: map<FieldMap, map<string, Val>>,
      snaps: seq<Snap>, owned: set<array<byte>>, buf: Slice, k: string)
    requires TakenFrom(mem, reach, fields0, snaps, owned) && reach <= fields0.Keys
    requires forall g, j | g in reach && j in fields0[g] && Watched(fields0[g][j]) :: SnapFor(snaps, g, j)
    ensures (exists s | s in snaps :: s.key == k && Named(find, mem, fields0[s.fm][s.key].d, buf)) <==>
            NamedKey(find, mem, reach, fields0, k, buf)
  {
    hide Copies, Owned, Touches, HidesNaN, Snapped, Finds, Still;
    if NamedKey(find, mem, reach, fields0, k, buf) {
      var g :| g in reach && g in fields0 && k in fields0[g] && fields0[g][k].Leaf? &&
               Named(find, mem, fields0[g][k].d, buf);
      assert SnapFor(snaps, g, k);
    }
  }

  /** The probe proper. */
  method Probe(find: Finder, root: FieldMap, buf: Slice, ghost rank: map<FieldMap, nat>, ghost mem: Mem,
               ghost reach: set<FieldMap>, ghost fields0: map<FieldMap, map<string, Val>>)
    returns (aliased: seq<string>)
    requires Layered(rank) && root in rank && MemIs(mem) && AllReadable(rank, mem) && InMem(mem, buf)
    requires reach == Reach(rank, root) && fields0 == FieldsOf(rank.Keys)
    modifies rank.Keys, buf.arr
    ensures buf.arr[..] == FlipRange(old(buf.arr[..]), buf.off, buf.len)
    ensures forall k :: k in aliased <==> NamedKey(find, mem, reach, fields0, k, buf)
    ensures forall g | g in rank :: g.fields.Keys == fields0[g].Keys
    ensures forall g, k | g in rank && k in g.fields && !(g in reach && Watched(fields0[g][k])) ::
            g.fields[k] == fields0[g][k]
    ensures forall g, k | g in reach && k in g.fields && fields0[g][k].Leaf? ::
              && g.fields[k].Leaf?
              && (Now(g.fields[k].d) == Content(mem, fields0[g][k].d) <==> !Lost(fields0[g][k].d, buf))
  {
    hide Copies, Readable, Now, Reach, Layered, Taken, Snapped, NamedKey, Lost, MemIs, Flip, TakenFrom, Watched,
         Content, AllReadable, Complete;
    TakenNone(mem, reach);
    var snaps, owned := CollectFieldSnaps(root, [], rank, reach, mem, {});
    TakenNow(mem, reach, fields0, snaps, owned);
    FieldsReadable(rank, mem, fields0);
    CompleteNow(reach, snaps, fields0);
    ghost var now := Flip(mem, buf);
    FlipBuffer(buf, mem, now);
    aliased := Compare(find, snaps, buf, mem, reach, fields0, owned, now);
    forall k ensures k in aliased <==> NamedKey(find, mem, reach, fields0, k, buf) {
      NamesExact(find, mem, reach, fields0, snaps, owned, buf, k);
    }
    SnapsInRank(mem, reach, fields0, snaps, owned);
    RestoreAll(snaps, rank, fields0, now);
    forall g, k | g in reach && k in g.fields && fields0[g][k].Leaf?
      ensures g.fields[k].Leaf? && (Now(g.fields[k].d) == Content(mem, fields0[g][k].d) <==>
              !Lost(fields0[g][k].d, buf))
    {
      RestoredField(mem, reach, fields0, snaps, owned, buf, g, k, now);
    }
  }

  /** detectZeroCopy. With a non-empty buffer the names are exactly the keys of the
      visited fields that alias it (or show DeepEqual a NaN), as far as map lookups go by
      what the keys read as; the buffer stays flipped; afterwards a field reads as before
      exactly when it lost nothing, and nothing but watched fields is written. */
  method DetectZeroCopy(find: Finder, root: FieldMap, buf: Slice, ghost rank: map<FieldMap, nat>,
      ghost mem: Mem) returns (aliased: seq<string>)
    requires Layered(rank) && root in rank && MemIs(mem) && InMem(mem, buf)
    requires AllReadable(rank, mem) && AllWellSplit(rank)
    modifies rank.Keys, buf.arr
    ensures buf.arr[..] == FlipRange(old(buf.arr[..]), buf.off, buf.len)
    ensures forall k :: k in aliased <==>
              buf.len > 0 && NamedKey(find, mem, old(Reach(rank, root)), old(FieldsOf(rank.Keys)), k, buf)
    ensures forall g | g in rank :: g.fields.Keys == old(g.fields).Keys
    ensures forall g, k | g in rank && k in g.fields && !(g in old(Reach(rank, root)) && Watched(old(g.fields)[k])) ::
            g.fields[k] == old(g.fields)[k]
    ensures forall g, k | g in old(Reach(rank, root)) && k in g.fields && old(g.fields)[k].Leaf? ::
              && g.fields[k].Leaf?
              && (Now(g.fields[k].d) == Content(mem, old(g.fields)[k].d) <==> !Lost(old(g.fields)[k].d, buf))
  {
    if buf.len == 0 {
      EmptyBuffer(rank, mem, buf);
      return [];
    }
    aliased := Probe(find, root, buf, rank, mem, Reach(rank, root), FieldsOf(rank.Keys));
  }

  lemma FieldsReadable(rank: map<FieldMap, nat>, mem: Mem, fields0: map<FieldMap, map<string, Val>>)
    requires AllReadable(rank, mem) && fields0 == FieldsOf(rank.Keys)
    ensures forall g, k | g in fields0 && k in fields0[g] && fields0[g][k].Leaf? :: Readable(mem, fields0[g][k].d)
  {
    hide Readable, Filed;
  }

  lemma CompleteNow(reach: set<FieldMap>, snaps: seq<Snap>, fields0: map<FieldMap, map<string, Val>>)
    requires Complete(reach, snaps) && reach <= fields0.Keys && forall g | g in reach :: g.fields == fields0[g]
    ensures forall g, k | g in reach && k in fields0[g] && Watched(fields0[g][k]) :: SnapFor(snaps, g, k)
  {
    hide Watched, SnapFor;
  }

  lemma SnapsInRank(mem: Mem, reach: set<FieldMap>, fields0: map<FieldMap, map<string, Val>>, snaps: seq<Snap>,
      owned: set<array<byte>>)
    requires TakenFrom(mem, reach, fields0, snaps, owned)
    ensures forall s | s in snaps ::
            s.fm in reach && s.fm in fields0 && s.key in fields0[s.fm] && Watched(fields0[s.fm][s.key])
  {
    hide Copies, Owned, Watched;
  }

  lemma RestoredField(mem: Mem, reach: set<FieldMap>, fields0: map<FieldMap, map<string, Val>>, snaps: seq<Snap>,
      owned: set<array<byte>>, buf: Slice, g: FieldMap, k: string, now: Mem)
    requires InMem(mem, buf) && now == Flip(mem, buf) && MemIs(now) && TakenFrom(mem, reach, fields0, snaps, owned)
    requires g in reach && g in fields0 && k in fields0[g] && fields0[g][k].Leaf? && Readable(mem, fields0[g][k].d)
    requires Watched(fields0[g][k]) ==> SnapFor(snaps, g, k)
    requires k in g.fields &&
             if SnapFor(snaps, g, k) then PutBack(snaps, g, k, g.fields[k])
             else g.fields[k] == fields0[g][k]
    ensures g.fields[k].Leaf? && (Now(g.fields[k].d) == Content(mem, fields0[g][k].d) <==> !Lost(fields0[g][k].d, buf))
  {
    hide Copies, Owned, Readable, MemIs, Flip, Now, Lost, Snapped, InMem, Content;
    if SnapFor(snaps, g, k) {
      var s :| s in snaps && s.fm == g && s.key == k && g.fields[k] == Leaf(s.orig);
    }
    RestoredReads(mem, fields0[g][k].d, g.fields[k].d, buf);
  }

  method FlipBuffer(buf: Slice, ghost mem: Mem, ghost now: Mem)
    requires MemIs(mem) && InMem(mem, buf) && now == Flip(mem, buf)
    modifies buf.arr
    ensures buf.arr[..] == FlipRange(old(buf.arr[..]), buf.off, buf.len)
    ensures MemIs(now)
  {
    XorFlip(buf);
  }

  ghost function FieldsOf(gs: set<FieldMap>): (f: map<FieldMap, map<string, Val>>)
    reads gs
    ensures f.Keys == gs && forall g | g in gs :: f[g] == g.fields
  {
    map g | g in gs :: g.fields
  }

  // ---- the walked kinds, and what lies outside them ------------------------

  /** Some non-empty byte range of the value is inside the buffer. */
  predicate Aliases(d: Data, b: Slice) { Touches(d, b) || Leaks(d, b) }

  /** cloneValue names every part that can alias, but for the keys of maps: no typed
      slice, no [][]byte, nothing else that a clone shares. */
  predicate Cloned(d: Data)
    decreases d
  {
    match d
    case Floats(_, _) => false
    case Shared(_, _) => false
    case List(_, _, items) => forall i | 0 <= i < |items| :: Cloned(items[i])
    case Message(_, entries) => forall k | k in entries :: Cloned(entries[k])
    case Dict(_, pairs) => forall i | 0 <= i < |pairs| :: Cloned(pairs[i].value)
    case Variant(_, _, payload) => Cloned(payload)
    case _ => true
  }

  lemma {:induction false} ClonedKeeps(d: Data, b: Slice)
    requires Cloned(d)
    ensures Leaks(d, b) <==> KeyIn(d, b)
    decreases d
  {
    hide Overlap;
    match d
    case List(_, _, items) =>
      forall i | 0 <= i < |items| ensures Leaks(items[i], b) <==> KeyIn(items[i], b) { ClonedKeeps(items[i], b); }
    case Message(_, entries) =>
      forall k | k in entries ensures Leaks(entries[k], b) <==> KeyIn(entries[k], b) { ClonedKeeps(entries[k], b); }
    case Dict(_, pairs) =>
      forall i | 0 <= i < |pairs| ensures Leaks(pairs[i].value, b) <==> KeyIn(pairs[i].value, b) {
        ClonedKeeps(pairs[i].value, b);
      }
    case Variant(_, _, payload) => ClonedKeeps(payload, b);
    case _ =>
  }

  /** On the walked kinds the field reads as before afterwards exactly when no key of a
      map in it lies in the buffer; and then it is named exactly when it aliases the
      buffer. With such a key it is named for what else of it was overwritten, if the
      maps still find their entries. */
  lemma WalkedExactly(find: Finder, mem: Mem, d: Data, b: Slice)
    requires Lawful(find) && InMem(mem, b) && Readable(mem, d) && Filed(mem, d)
    requires Snapped(d) && Cloned(d) && !HidesNaN(d)
    ensures Lost(d, b) <==> KeyIn(d, b)
    ensures !KeyIn(d, b) ==> (Named(find, mem, d, b) <==> Aliases(d, b))
    ensures Finds(find, Flip(mem, b), d) ==> (Named(find, mem, d, b) <==> Touches(d, b))
  {
    hide Lawful, InMem, Readable, Filed, Snapped, Cloned, HidesNaN, KeyIn, Finds, Touches, Leaks, Still, Flip;
    ClonedKeeps(d, b);
    if !KeyIn(d, b) { KeysKept(find, mem, d, b); }
  }

  /** A map with a key in the buffer whose values hold no bytes: the walk passes it by, it
      is not named, and afterwards its key reads flipped. */
  lemma ScalarMapMissed(find: Finder, mem: Mem, e: Entry, n: int, at: nat, b: Slice)
    requires Overlap(e.key, b) && e.value == Scalar(n)
    ensures var d := Dict(at, [e]);
            Cloned(d) && Aliases(d, b) && !Snapped(d) && !Named(find, mem, d, b) && Lost(d, b)
  {
    var pairs := [e];
    assert pairs[0] == e;
    assert Leaks(Dict(at, pairs), b);
  }

  lemma TextMapSaved(e: Entry, s: Slice, at: nat, b: Slice)
    requires e.value == Text(s) && Overlap(e.key, b) && !Overlap(s, b)
    ensures var d := Dict(at, [e]);
            Cloned(d) && Snapped(d) && Leaks(d, b) && Lost(d, b) && !Touches(d, b) && !HidesNaN(d)
  {
    hide Overlap;
    var pairs := [e];
    assert pairs[0] == e && TextOrBytes(pairs[0].value);
    assert Leaks(Dict(at, pairs), b);
  }

  lemma OneEntryFinds(find: Finder, f: Mem, e: Entry, s: Slice, at: nat)
    requires Lawful(find) && e.value == Text(s)
    ensures Finds(find, f, Dict(at, [e])) <==> find([LabelOf(f, e)], Peek(f, e.key)).Some?
  {
    var pairs := [e];
    var x := ViewPairs(f, f, Dict(at, pairs));
    assert pairs[0] == e && Finds(find, f, pairs[0].value);
    hide ViewPairs, Peek;
    assert Labels(x) == [LabelOf(f, e)];
    assert Found(find, x, 0) <==> find([LabelOf(f, e)], Peek(f, e.key)).Some?;
  }

  lemma LostEntryDiffers(find: Finder, mem: Mem, e: Entry, at: nat, b: Slice)
    requires find([LabelOf(Flip(mem, b), e)], Peek(Flip(mem, b), e.key)).None?
    ensures !Still(find, mem, Dict(at, [e]), b)
  {
    var f, d := Flip(mem, b), Dict(at, [e]);
    var x, y := ViewPairs(f, f, d), ViewPairs(mem, f, d);
    assert Content(f, d) == DDict(at, x) && View(mem, f, d) == DDict(at, y);
    hide View, ViewPairs, Flip, Peek;
    assert Labels(y) == [LabelOf(f, e)];
    assert Lookup(find, y, x[0].head.name).None?;
  }

  /** With a string for its value, outside the buffer, the field is saved; but the clone
      has the same key, and reads flipped there too. It is named only if the map no longer
      finds the entry: where lookups go by the bytes of the keys, it is not. */
  lemma TextMapLost(find: Finder, mem: Mem, key: Slice, s: Slice, at: nat, b: Slice)
    requires Lawful(find) && Overlap(key, b) && !Overlap(s, b)
    ensures var d, name := Dict(at, [Entry(key, Peek(mem, key), Text(s))]), Peek(Flip(mem, b), key);
            && Cloned(d) && Aliases(d, b) && Snapped(d) && Lost(d, b)
            && (Named(find, mem, d, b) <==> find([Label(Peek(mem, key), name)], name).None?)
  {
    var e := Entry(key, Peek(mem, key), Text(s));
    TextMapSaved(e, s, at, b);
    OneEntryFinds(find, Flip(mem, b), e, s, at);
    hide Lawful, Finds, Still, Touches, HidesNaN, Snapped, Leaks, Lost, Flip, Peek, Overlap, Cloned;
    if find([LabelOf(Flip(mem, b), e)], Peek(Flip(mem, b), key)).None? { LostEntryDiffers(find, mem, e, at, b); }
  }

  /** The first entry whose key reads so, whatever it is filed under: what a scan of a
      small map finds. */
  function Scan(ls: seq<Label>, t: seq<byte>): (i: Option<nat>)
    ensures i.Some? ==> i.value < |ls| && ls[i.value].name == t
    ensures i.None? ==> forall j | 0 <= j < |ls| :: ls[j].name != t
  {
    if ls == [] then None
    else if ls[|ls| - 1].name == t then Some(|ls| - 1)
    else Scan(ls[..|ls| - 1], t)
  }

  /** An entry whose key reads so and that is filed under it: what a hash leads to. */
  function Hashed(ls: seq<Label>, t: seq<byte>): (i: Option<nat>)
    ensures i.Some? ==> i.value < |ls| && ls[i.value] == Label(t, t)
    ensures i.None? ==> forall j | 0 <= j < |ls| :: ls[j] != Label(t, t)
  {
    if ls == [] then None
    else if ls[|ls| - 1] == Label(t, t) then Some(|ls| - 1)
    else Hashed(ls[..|ls| - 1], t)
  }

  /** Both happen: the same field is named when the map goes by hashes and not when it is
      scanned. It is lost either way. */
  lemma TextMapEitherWay(mem: Mem, key: Slice, s: Slice, at: nat, b: Slice)
    requires InMem(mem, b) && InMem(mem, key) && InMem(mem, s) && Overlap(key, b) && !Overlap(s, b)
    ensures var d := Dict(at, [Entry(key, Peek(mem, key), Text(s))]);
            && Lawful(Scan) && !Named(Scan, mem, d, b)
            && Lawful(Hashed) && Named(Hashed, mem, d, b)
            && Lost(d, b)
  {
    var was, name := Peek(mem, key), Peek(Flip(mem, b), key);
    SliceFlip(mem, key, b);
    assert was != name;
    hide Flip, Peek, Overlap, InMem, Named, Lost;
    assert Lawful(Scan) && Lawful(Hashed);
    TextMapLost(Scan, mem, key, s, at, b);
    TextMapLost(Hashed, mem, key, s, at, b);
    var ls := [Label(was, name)];
    assert ls[0].name == name && ls[0] != Label(name, name);
  }

  /** A value that cloneValue does not name, such as a [][]byte or a typed slice cast from
      the buffer, is not named, and reads flipped. */
  lemma SharedMissed(find: Finder, mem: Mem, form: int, s: Slice, b: Slice)
    requires Overlap(s, b)
    ensures var d := Shared(form, [s]); Aliases(d, b) && !Named(find, mem, d, b) && Lost(d, b)
  {
    var ss := [s];
    assert ss[0] == s && s in ss;
    assert AnyOverlap(ss, b);
  }

  /** Two keys that are each other's complement change places: the map as a set of
      entries looks the same although each of its entries reads differently. */
  lemma KeysSwapped(mem: Mem, a: array<byte>, n: int, at: nat)
    requires a in mem && mem[a] == [1, 254]
    ensures var b, k, l := Slice(a, 0, 2), Slice(a, 0, 1), Slice(a, 1, 1);
            var d := Dict(at, [Entry(k, [1], Scalar(n)), Entry(l, [254], Scalar(n))]);
            var x, y := ViewPairs(mem, mem, d), ViewPairs(Flip(mem, b), Flip(mem, b), d);
            && Lost(d, b) && x[0].head.name != y[0].head.name && x[1].head.name != y[1].head.name
            && x[0].head.name == y[1].head.name && x[1].head.name == y[0].head.name
            && x[0].value == y[1].value && x[1].value == y[0].value
  {
    var b, k, l := Slice(a, 0, 2), Slice(a, 0, 1), Slice(a, 1, 1);
    var f := Flip(mem, b);
    assert Peek(mem, k) == [1] && Peek(mem, l) == [254] && Peek(f, k) == [254] && Peek(f, l) == [1];
    var pairs := [Entry(k, [1], Scalar(n)), Entry(l, [254], Scalar(n))];
    assert pairs[0].key == k && Overlap(k, b);
    assert Leaks(Dict(at, pairs), b);
  }

  /** A NaN beside a string is named although nothing aliases. */
  lemma NaNNamed(find: Finder, mem: Mem, s: Slice, at: nat, b: Slice)
    requires !Overlap(s, b)
    ensures var d := List(at, false, [Text(s), Float(false, 0x7FC0_0000)]);
            !Aliases(d, b) && Named(find, mem, d, b)
  {
    var items := [Text(s), Float(false, 0x7FC0_0000)];
    assert items[0] == Text(s) && items[1] == Float(false, 0x7FC0_0000);
    assert HasNaN(items[1]) && TextOrBytes(items[0]);
    var d, f := List(at, false, items), Flip(mem, b);
    assert Finds(find, f, items[0]) && Finds(find, f, items[1]);
    assert !Touches(items[0], b) && !Touches(items[1], b) && !Leaks(items[0], b) && !Leaks(items[1], b);
    hide Flip, Overlap;
    assert HasNaN(d) && Snapped(d) && Finds(find, f, d);
    assert !Touches(d, b) && !Leaks(d, b);
  }

  /** But a NaN in a float slice there is not: the snapshot shares that slice. */
  lemma SharedNaNUnnamed(find: Finder, mem: Mem, s: Slice, floats: Slice, at: nat, b: Slice)
    requires !Overlap(s, b)
    ensures !Named(find, mem, List(at, false, [Text(s), Floats(false, floats)]), b)
  {
    var items := [Text(s), Floats(false, floats)];
    assert items[0] == Text(s) && items[1] == Floats(false, floats);
    var d, f := List(at, false, items), Flip(mem, b);
    assert !Touches(items[0], b) && !Touches(items[1], b) && !HasNaN(items[0]) && !HasNaN(items[1]);
    assert Finds(find, f, items[0]) && Finds(find, f, items[1]);
    hide Flip, Overlap;
    assert Finds(find, f, d) && !Touches(d, b) && !HasNaN(d);
  }
}
