/** The audit example's frame decoder (examples/audit/go): one walk over the layout,
    with the fields either copied out of the input buffer or pointing into it. */
module AuditCodec {
  import opened Common
  import opened AuditValues
  import opened AuditHeap
  import opened ZeroCopy

  // ---- the layout ----------------------------------------------------------

  datatype Span = Span(pos: nat, len: nat)

  /** Where the parts of a frame stand in its encoding. */
  datatype Layout = Layout(streamId: int, title: Span, tags: seq<Span>, payload: Span)

  function U32At(d: seq<byte>, pos: nat): (n: nat)
    requires pos + 4 <= |d|
  {
    var b0: int, b1: int, b2: int, b3: int := d[pos], d[pos + 1], d[pos + 2], d[pos + 3];
    b0 + 0x100 * b1 + 0x1_0000 * b2 + 0x100_0000 * b3
  }

  /** readLen: a length and the body behind it, which must be there in full. */
  function ReadLen(d: seq<byte>, pos: nat): (s: Option<Span>)
    ensures s.Some? ==> s.value.pos == pos + 4 && s.value.pos + s.value.len <= |d|
  {
    if pos + 4 > |d| then None
    else if pos + 4 + U32At(d, pos) > |d| then None
    else Some(Span(pos + 4, U32At(d, pos)))
  }

  predicate Inside(d: seq<byte>, s: Span) { s.pos + s.len <= |d| }

  /** `count` length-prefixed strings in a row. */
  function ReadTags(d: seq<byte>, pos: nat, count: nat): (tags: Option<seq<Span>>)
    ensures tags.Some? ==> |tags.value| == count && forall t | t in tags.value :: Inside(d, t)
    decreases count
  {
    if count == 0 then Some([])
    else
      match ReadLen(d, pos)
      case None => None
      case Some(s) =>
        match ReadTags(d, s.pos + s.len, count - 1)
        case None => None
        case Some(rest) => Some([s] + rest)
  }

  /** Where reading stands after these strings. */
  function EndOf(tags: seq<Span>, pos: nat): nat {
    if tags == [] then pos else tags[|tags| - 1].pos + tags[|tags| - 1].len
  }

  function Parse(d: seq<byte>): (l: Option<Layout>)
    ensures l.Some? ==> Inside(d, l.value.title) && Inside(d, l.value.payload)
    ensures l.Some? ==> forall t | t in l.value.tags :: Inside(d, t)
  {
    if |d| < 4 then None
    else
      match ReadLen(d, 4)
      case None => None
      case Some(title) =>
        var pos := title.pos + title.len;
        if pos + 4 > |d| then None
        else
          match ReadTags(d, pos + 4, U32At(d, pos))
          case None => None
          case Some(tags) =>
            match ReadLen(d, EndOf(tags, pos + 4))
            case None => None
            case Some(payload) => Some(Layout(U32At(d, 0), title, tags, payload))
  }

  function Cut(d: seq<byte>, s: Span): seq<byte> { if Inside(d, s) then d[s.pos..s.pos + s.len] else [] }

  // ---- the decoder ---------------------------------------------------------

  datatype Frame = Frame(streamId: int, title: Slice, tags: seq<Slice>, payload: Slice)

  /** The slice for a span: inside the buffer, or private memory. */
  predicate Placed(s: Slice, buf: Slice, span: Span, alias: bool) {
    s.len == span.len && s.off + s.len <= s.arr.Length &&
    (alias && span.len > 0 ==> s == Slice(buf.arr, buf.off + span.pos, span.len))
  }

  method TakeSpan(buf: Slice, span: Span, alias: bool, ghost d: seq<byte>) returns (s: Slice)
    requires buf.off + buf.len <= buf.arr.Length && d == Here(buf) && Inside(d, span)
    ensures Placed(s, buf, span, alias) && Here(s) == Cut(d, span)
    ensures s.arr == buf.arr || fresh(s.arr)
    ensures !alias || span.len == 0 ==> fresh(s.arr)
  {
    if alias && span.len > 0 {
      s := Slice(buf.arr, buf.off + span.pos, span.len);
      assert Here(s) == Cut(d, span) by {
        forall i | 0 <= i < span.len ensures Here(s)[i] == Cut(d, span)[i] {
          assert d[span.pos + i] == buf.arr[buf.off + span.pos + i];
        }
      }
    } else {
      var a := new byte[span.len](i requires 0 <= i < span.len &&
          buf.off + span.pos + span.len <= buf.arr.Length reads buf.arr =>
        buf.arr[buf.off + span.pos + i]);
      s := Slice(a, 0, span.len);
      assert Here(s) == Cut(d, span) by {
        forall i | 0 <= i < span.len ensures Here(s)[i] == Cut(d, span)[i] {
          assert d[span.pos + i] == buf.arr[buf.off + span.pos + i];
        }
      }
    }
  }

  method Bytes4(buf: Slice) returns (d: seq<byte>)
    requires buf.off + buf.len <= buf.arr.Length
    ensures d == Here(buf)
  {
    d := buf.arr[buf.off..buf.off + buf.len];
  }

  lemma {:induction false} ReadTagsSnoc(d: seq<byte>, pos: nat, count: nat)
    requires count > 0
    ensures ReadTags(d, pos, count) ==
            match ReadTags(d, pos, count - 1)
            case None => None
            case Some(tags) => (match ReadLen(d, EndOf(tags, pos)) case None => None case Some(t) => Some(tags + [t]))
    decreases count
  {
    if count > 1 {
      match ReadLen(d, pos)
      case None =>
      case Some(s) =>
        ReadTagsSnoc(d, s.pos + s.len, count - 1);
        var init := ReadTags(d, s.pos + s.len, count - 2);
        if init.Some? {
          assert EndOf([s] + init.value, pos) == EndOf(init.value, s.pos + s.len);
          var t := ReadLen(d, EndOf(init.value, s.pos + s.len));
          if t.Some? {
            assert [s] + (init.value + [t.value]) == ([s] + init.value) + [t.value];
          }
        }
    } else {
      assert forall s: Span :: [s] + [] == [] + [s];
    }
  }

  /** A failed prefix of the tags fails the whole. */
  lemma {:induction false} ReadTagsShort(d: seq<byte>, pos: nat, few: nat, count: nat)
    requires few <= count && ReadTags(d, pos, few).None?
    ensures ReadTags(d, pos, count).None?
    decreases few
  {
    if few > 0 {
      match ReadLen(d, pos)
      case None =>
      case Some(s) => ReadTagsShort(d, s.pos + s.len, few - 1, count - 1);
    }
  }

  /** The slices hold the bytes of the spans, in memory of `arrs`. */
  ghost predicate TagsRead(buf: Slice, tags: seq<Slice>, spans: seq<Span>, d: seq<byte>, alias: bool,
      arrs: set<array<byte>>)
    reads arrs
  {
    |tags| == |spans| &&
    forall j | 0 <= j < |tags| :: tags[j].arr in arrs && Placed(tags[j], buf, spans[j], alias) &&
        Here(tags[j]) == Cut(d, spans[j])
  }

  lemma TagsReadSnoc(buf: Slice, tags: seq<Slice>, spans: seq<Span>, d: seq<byte>, alias: bool,
      arrs: set<array<byte>>, t: Slice, s: Span)
    requires TagsRead(buf, tags, spans, d, alias, arrs) && Placed(t, buf, s, alias) && Here(t) == Cut(d, s)
    ensures TagsRead(buf, tags + [t], spans + [s], d, alias, arrs + {t.arr})
  {
    hide Here, Placed, Cut;
  }

  /** The tags in a row. */
  method TakeTags(buf: Slice, start: nat, count: nat, alias: bool, data: seq<byte>)
    returns (ok: bool, tags: seq<Slice>, pos: nat, ghost spans: seq<Span>, ghost arrs: set<array<byte>>)
    requires buf.off + buf.len <= buf.arr.Length && data == Here(buf)
    ensures ok <==> ReadTags(data, start, count).Some?
    ensures ok ==> ReadTags(data, start, count) == Some(spans) && pos == EndOf(spans, start)
    ensures ok ==> TagsRead(buf, tags, spans, data, alias, arrs)
    ensures fresh(arrs - {buf.arr}) && (!alias ==> fresh(arrs))
  {
    hide Here, Placed, Cut, TagsRead, ReadTags, ReadLen;
    pos, ok := start, true;
    tags, spans, arrs := [], [], {};
    assert TagsRead(buf, tags, spans, data, alias, arrs) by { NoTags(buf, data, alias); }
    assert ReadTags(data, start, 0) == Some([]) by { NoTagsRead(data, start); }
    for i := 0 to count
      invariant ok && ReadTags(data, start, i) == Some(spans) && pos == EndOf(spans, start)
      invariant TagsRead(buf, tags, spans, data, alias, arrs)
      invariant fresh(arrs - {buf.arr}) && (!alias ==> fresh(arrs))
    {
      ReadTagsSnoc(data, start, i + 1);
      var span := ReadLen(data, pos);
      if span.None? {
        ReadTagsShort(data, start, i + 1, count);
        ok := false;
        return;
      }
      var tag := TakeSpan(buf, span.value, alias, data);
      TagsReadSnoc(buf, tags, spans, data, alias, arrs, tag, span.value);
      tags := tags + [tag];
      spans := spans + [span.value];
      arrs := arrs + {tag.arr};
      pos := span.value.pos + span.value.len;
    }
  }

  lemma NoTags(buf: Slice, d: seq<byte>, alias: bool)
    ensures TagsRead(buf, [], [], d, alias, {})
  {
  }

  lemma NoTagsRead(d: seq<byte>, pos: nat)
    ensures ReadTags(d, pos, 0) == Some([])
  {
  }

  /** The frame is the one the layout describes, in either mode. */
  ghost predicate ReadsAs(f: Frame, buf: Slice, d: seq<byte>, l: Layout, alias: bool, arrs: set<array<byte>>)
    reads arrs
  {
    && f.streamId == l.streamId
    && f.title.arr in arrs && Placed(f.title, buf, l.title, alias) && Here(f.title) == Cut(d, l.title)
    && f.payload.arr in arrs && Placed(f.payload, buf, l.payload, alias) && Here(f.payload) == Cut(d, l.payload)
    && TagsRead(buf, f.tags, l.tags, d, alias, arrs)
  }

  lemma TagsReadMore(buf: Slice, tags: seq<Slice>, spans: seq<Span>, d: seq<byte>, alias: bool,
      arrs: set<array<byte>>, more: set<array<byte>>)
    requires TagsRead(buf, tags, spans, d, alias, arrs) && arrs <= more
    ensures TagsRead(buf, tags, spans, d, alias, more)
  {
  }

  /** decode. Both modes fail on the same inputs and read back the same frame; they
      differ only in where the bytes live. */
  method Decode(buf: Slice, alias: bool) returns (f: Option<Frame>, ghost arrs: set<array<byte>>)
    requires buf.off + buf.len <= buf.arr.Length
    ensures f.Some? <==> Parse(Here(buf)).Some?
    ensures f.Some? ==> ReadsAs(f.value, buf, Here(buf), Parse(Here(buf)).value, alias, arrs)
    ensures fresh(arrs - {buf.arr}) && (!alias ==> fresh(arrs))
  {
    hide Here, Placed, Cut, TagsRead, ReadTags;
    arrs := {};
    var data := Bytes4(buf);
    if |data| < 4 { f := None; return; }
    var titleSpan := ReadLen(data, 4);
    if titleSpan.None? { f := None; return; }
    var title := TakeSpan(buf, titleSpan.value, alias, data);
    var pos := titleSpan.value.pos + titleSpan.value.len;
    if pos + 4 > |data| { f := None; return; }
    var ok, tags, next, spans, tagArrs := TakeTags(buf, pos + 4, U32At(data, pos), alias, data);
    if !ok { f := None; return; }
    var body := ReadLen(data, next);
    if body.None? { f := None; return; }
    var payload := TakeSpan(buf, body.value, alias, data);
    arrs := tagArrs + {title.arr, payload.arr};
    TagsReadMore(buf, tags, spans, data, alias, tagArrs, arrs);
    f := Some(Frame(U32At(data, 0), title, tags, payload));
  }

  // ---- the probe on the decoders -------------------------------------------

  const STREAM_ID := "stream_id"
  const TITLE := "title"
  const TAGS := "tags"
  const PAYLOAD := "payload"

  /** The field map the library extracts from a frame; it shares the frame's memory. */
  function Extracted(f: Frame): map<string, Val> {
    map[STREAM_ID := Leaf(Scalar(f.streamId)), TITLE := Leaf(Text(f.title)),
        TAGS := Leaf(Texts(f.tags)), PAYLOAD := Leaf(Bytes(f.payload))]
  }

  lemma KeysDiffer()
    ensures STREAM_ID != TITLE && STREAM_ID != TAGS && STREAM_ID != PAYLOAD
    ensures TITLE != TAGS && TITLE != PAYLOAD && TAGS != PAYLOAD
  {
    assert STREAM_ID[0] == 's' && TITLE[0] == 't' && TAGS[0] == 't' && PAYLOAD[0] == 'p' && TITLE[1] == 'i' &&
        TAGS[1] == 'a';
  }

  /** The fields with something in them that can alias. */
  predicate NonEmptyField(l: Layout, k: string) {
    || (k == TITLE && l.title.len > 0)
    || (k == TAGS && exists t | t in l.tags :: t.len > 0)
    || (k == PAYLOAD && l.payload.len > 0)
  }

  /** A slice placed by the decoder overlaps the buffer exactly in aliasing mode and
      when it is not empty. */
  lemma PlacedOverlaps(s: Slice, buf: Slice, span: Span, alias: bool)
    requires Placed(s, buf, span, alias) && span.pos + span.len <= buf.len
    requires !alias ==> s.arr != buf.arr
    ensures Overlap(s, buf) <==> alias && span.len > 0
  {
  }

  ghost function RecordOf(arrs: set<array<byte>>): (mem: Mem)
    reads arrs
    ensures MemIs(mem) && mem.Keys == arrs
  {
    map a | a in arrs :: a[..]
  }

  lemma TagsOverlap(buf: Slice, tags: seq<Slice>, spans: seq<Span>, d: seq<byte>, alias: bool, arrs: set<array<byte>>)
    requires TagsRead(buf, tags, spans, d, alias, arrs) && |d| == buf.len
    requires !alias ==> buf.arr !in arrs
    requires forall t | t in spans :: Inside(d, t)
    ensures AnyOverlap(tags, buf) <==> alias && exists t | t in spans :: t.len > 0
  {
    hide Overlap, Placed, Here, Cut;
    forall i | 0 <= i < |tags| ensures Overlap(tags[i], buf) <==> alias && spans[i].len > 0 {
      assert spans[i] in spans;
      PlacedOverlaps(tags[i], buf, spans[i], alias);
    }
    if AnyOverlap(tags, buf) {
      var t :| t in tags && Overlap(t, buf);
      var i :| 0 <= i < |tags| && tags[i] == t;
      assert spans[i] in spans;
    } else if alias {
      forall t | t in spans ensures t.len == 0 {
        var i :| 0 <= i < |spans| && spans[i] == t;
        assert tags[i] in tags;
      }
    }
  }

  lemma SimplyNamed(find: Finder, mem: Mem, s: Slice, ss: seq<Slice>, n: int, buf: Slice)
    ensures Named(find, mem, Text(s), buf) <==> Overlap(s, buf)
    ensures Named(find, mem, Bytes(s), buf) <==> Overlap(s, buf)
    ensures Named(find, mem, Texts(ss), buf) <==> AnyOverlap(ss, buf)
    ensures !Named(find, mem, Scalar(n), buf)
  {
    hide Overlap, AnyOverlap, Still, Flip;
  }

  lemma ExtractedAt(f: Frame)
    ensures var m := Extracted(f);
            && m.Keys == {STREAM_ID, TITLE, TAGS, PAYLOAD}
            && m[STREAM_ID] == Leaf(Scalar(f.streamId)) && m[TITLE] == Leaf(Text(f.title))
            && m[TAGS] == Leaf(Texts(f.tags)) && m[PAYLOAD] == Leaf(Bytes(f.payload))
  {
    KeysDiffer();
  }

  lemma FrameOverlaps(f: Frame, buf: Slice, d: seq<byte>, l: Layout, alias: bool, arrs: set<array<byte>>)
    requires ReadsAs(f, buf, d, l, alias, arrs) && |d| == buf.len && Parse(d) == Some(l)
    requires !alias ==> buf.arr !in arrs
    ensures Overlap(f.title, buf) <==> alias && l.title.len > 0
    ensures Overlap(f.payload, buf) <==> alias && l.payload.len > 0
    ensures AnyOverlap(f.tags, buf) <==> alias && exists t | t in l.tags :: t.len > 0
  {
    hide Overlap, AnyOverlap, Placed, Here, Cut, TagsRead;
    PlacedOverlaps(f.title, buf, l.title, alias);
    PlacedOverlaps(f.payload, buf, l.payload, alias);
    TagsOverlap(buf, f.tags, l.tags, d, alias, arrs);
  }

  /** What the probe finds in a decoded frame, field by field. */
  lemma FrameNamed(find: Finder, mem: Mem, f: Frame, buf: Slice, d: seq<byte>, l: Layout, alias: bool,
      arrs: set<array<byte>>, k: string)
    requires ReadsAs(f, buf, d, l, alias, arrs) && |d| == buf.len && Parse(d) == Some(l)
    requires !alias ==> buf.arr !in arrs
    ensures k in Extracted(f) && Named(find, mem, Extracted(f)[k].d, buf) <==> alias && NonEmptyField(l, k)
  {
    hide ReadsAs, Parse, Overlap, AnyOverlap, Extracted, Named;
    KeysDiffer();
    ExtractedAt(f);
    FrameOverlaps(f, buf, d, l, alias, arrs);
    SimplyNamed(find, mem, f.title, f.tags, f.streamId, buf);
    SimplyNamed(find, mem, f.payload, f.tags, f.streamId, buf);
    hide STREAM_ID, TITLE, TAGS, PAYLOAD;
  }

  lemma FrameReadable(f: Frame, buf: Slice, d: seq<byte>, l: Layout, alias: bool, arrs: set<array<byte>>, mem: Mem,
      k: string)
    requires ReadsAs(f, buf, d, l, alias, arrs) && MemIs(mem) && arrs <= mem.Keys && k in Extracted(f)
    ensures Readable(mem, Extracted(f)[k].d) && Filed(mem, Extracted(f)[k].d) && WellSplit(Extracted(f)[k])
  {
    KeysDiffer();
    hide Here, Cut;
    forall t | t in f.tags ensures InMem(mem, t) {
      var i :| 0 <= i < |f.tags| && f.tags[i] == t;
      assert Placed(f.tags[i], buf, l.tags[i], alias);
    }
  }

  lemma OneMap(root: FieldMap)
    requires forall k | k in root.fields :: root.fields[k].Leaf?
    ensures Layered(map[root := 0]) && Reach(map[root := 0], root) == {root}
  {
  }

  /** Decoding and probing: the aliasing decoder is reported for exactly the fields
      with content, the copying one for none; and they accept the same inputs. */
  method AuditDecoder(find: Finder, buf: Slice, alias: bool) returns (decoded: bool, names: seq<string>)
    requires buf.off + buf.len <= buf.arr.Length
    modifies buf.arr
    ensures decoded <==> Parse(old(Here(buf))).Some?
    ensures decoded ==> forall k :: k in names <==> alias && NonEmptyField(Parse(old(Here(buf))).value, k)
  {
    hide ReadsAs, Layered, Reach, MemIs, Readable, Filed, WellSplit, Named, Placed, Parse, Extracted, NonEmptyField;
    names := [];
    var f, arrs := Decode(buf, alias);
    ghost var d := Here(buf);
    decoded := f.Some?;
    if decoded {
      ghost var l := Parse(d).value;
      var root := new FieldMap(Extracted(f.value));
      ghost var mem := RecordOf(arrs + {buf.arr});
      forall k | k in root.fields
        ensures root.fields[k].Leaf? && Readable(mem, root.fields[k].d) && Filed(mem, root.fields[k].d) &&
                WellSplit(root.fields[k])
      {
        LeavesOnly(f.value, k);
        FrameReadable(f.value, buf, d, l, alias, arrs, mem, k);
      }
      OneMap(root);
      assert InMem(mem, buf) by { RecordHas(arrs + {buf.arr}, buf); }
      forall k
        ensures k in Extracted(f.value) && Named(find, mem, Extracted(f.value)[k].d, buf) <==>
                alias && NonEmptyField(l, k)
      {
        FrameNamed(find, mem, f.value, buf, d, l, alias, arrs, k);
      }
      NothingNamed(f.value, buf, d, l);
      ghost var fields0 := FieldsOf({root});
      names := DetectZeroCopy(find, root, buf, map[root := 0], mem);
    }
  }

  lemma LeavesOnly(f: Frame, k: string)
    requires k in Extracted(f)
    ensures Extracted(f)[k].Leaf?
  {
    KeysDiffer();
  }

  lemma RecordHas(arrs: set<array<byte>>, buf: Slice)
    requires buf.arr in arrs && buf.off + buf.len <= buf.arr.Length
    ensures InMem(RecordOf(arrs), buf)
  {
    hide RecordOf;
    assert MemIs(RecordOf(arrs));
  }

  /** A frame needs at least its length words, so its buffer is not empty. */
  lemma NothingNamed(f: Frame, buf: Slice, d: seq<byte>, l: Layout)
    requires Parse(d) == Some(l) && |d| == buf.len
    ensures buf.len > 0
  {
  }
}
