/** The runner's two comparisons (internal/cmp/cmp.go): serialized bytes as hex, and
    decoded data field by field. */
module Comparison {
  import opened Common
  import opened TypeLang
  import opened WireValues
  import opened RunnerCodec
  import opened WorkerCodec
  import opened WireRoundTrip

  // ---- bytes ---------------------------------------------------------------

  /** What HexDiff reports: nothing, text it cannot decode, or the first offset at
      which the bytes part, with the window shown around it. */
  datatype HexReport =
    | SameBytes
    | BadExpected
    | BadGot
    | Diverges(offset: nat, start: nat, end: nat)

  const CONTEXT_WINDOW := 16

  function Min(a: int, b: int): int { if a <= b then a else b }

  /** `i` is the first place where the two differ. */
  predicate FirstDivergence(a: seq<byte>, b: seq<byte>, i: nat) {
    && i <= |a| && i <= |b| && a[..i] == b[..i]
    && (i == |a| || i == |b| || a[i] != b[i])
    && a != b
  }

  method HexOffsetDiff(a: seq<byte>, b: seq<byte>) returns (r: HexReport)
    ensures r == SameBytes <==> a == b
    ensures r.SameBytes? || r.Diverges?
    ensures r.Diverges? ==>
              && FirstDivergence(a, b, r.offset)
              && r.start <= r.offset < r.end <= Max(|a|, |b|)
              && r.offset - r.start <= CONTEXT_WINDOW && r.end - r.offset <= CONTEXT_WINDOW + 1
              && (r.offset - r.start < CONTEXT_WINDOW ==> r.start == 0)
              && (r.end - r.offset < CONTEXT_WINDOW + 1 ==> r.end == Max(|a|, |b|))
  {
    var firstDiv := -1;
    var minLen := Min(|a|, |b|);
    var i := 0;
    while i < minLen
      invariant 0 <= i <= minLen && a[..i] == b[..i]
      invariant firstDiv == -1
    {
      if a[i] != b[i] {
        firstDiv := i;
        break;
      }
      i := i + 1;
    }
    if firstDiv < 0 && |a| != |b| {
      firstDiv := minLen;
    }
    if firstDiv < 0 {
      return SameBytes;
    }
    r := Diverges(firstDiv, Max(firstDiv - CONTEXT_WINDOW, 0), Min(firstDiv + 1 + CONTEXT_WINDOW, Max(|a|, |b|)));
  }

  /** The comparison is of bytes, not of text: it is empty exactly when both sides
      decode to the same bytes. */
  method HexDiff(expected: string, got: string) returns (r: HexReport)
    ensures r == SameBytes <==>
            HexDecode(expected).Some? && HexDecode(got).Some? && HexDecode(expected) == HexDecode(got)
    ensures r == BadExpected <==> HexDecode(expected).None?
    ensures r == BadGot <==> HexDecode(expected).Some? && HexDecode(got).None?
    ensures r.Diverges? ==> FirstDivergence(HexDecode(expected).value, HexDecode(got).value, r.offset)
  {
    var expBytes := HexDecode(expected);
    if expBytes.None? { return BadExpected; }
    var gotBytes := HexDecode(got);
    if gotBytes.None? { return BadGot; }
    if expected == got { return SameBytes; }
    r := HexOffsetDiff(expBytes.value, gotBytes.value);
  }

  // ---- data ----------------------------------------------------------------

  /** A missing field reads as null. */
  function FieldOf(m: map<string, J>, k: string): J {
    if k in m then m[k] else JNull
  }

  /** IEEE 754: all exponent bits set and a fraction that is not zero. */
  predicate IsNaN(bs: seq<byte>) {
    if |bs| == 4 then bs[3] % 128 == 127 && bs[2] >= 128 && !(bs[2] == 128 && bs[1] == 0 && bs[0] == 0)
    else if |bs| == 8 then
      bs[7] % 128 == 127 && bs[6] >= 240 && !(bs[6] == 240 && forall i | 0 <= i < 6 :: bs[i] == 0)
    else false
  }

  predicate IsNaNHex(v: J) {
    v.JStr? && HexDecode(v.s).Some? && IsNaN(HexDecode(v.s).value)
  }

  /** The two sides count as equal at field `k`. */
  predicate SameAt(expected: map<string, J>, got: map<string, J>, floats: set<string>, k: string) {
    || (k in floats && IsNaNHex(FieldOf(expected, k)) && IsNaNHex(FieldOf(got, k)))
    || FieldOf(expected, k) == FieldOf(got, k)
  }

  datatype Difference = Differs(field: string) | Unexpected(field: string)

  /** The fields that are compared: those of the order, or without one the expected. */
  function Compared(expected: map<string, J>, order: seq<string>): set<string> {
    if order == [] then expected.Keys else set k | k in order
  }

  predicate Agree(expected: map<string, J>, got: map<string, J>, order: seq<string>, floats: set<string>) {
    && (forall k | k in Compared(expected, order) :: SameAt(expected, got, floats, k))
    && forall k | k in got :: k in expected
  }

  /** The keys in some order; which one decides only how the report reads. */
  method KeysOf(m: map<string, J>) returns (keys: seq<string>)
    ensures forall k :: k in keys <==> k in m
  {
    keys := [];
    var rest := m.Keys;
    while rest != {}
      invariant rest <= m.Keys && forall k :: k in keys <==> k in m && k !in rest
      decreases |rest|
    {
      var k :| k in rest;
      rest := rest - {k};
      keys := keys + [k];
    }
  }

  /** DataDiff; the maps are walked in whatever order they give. */
  method DataDiff(expected: map<string, J>, got: map<string, J>, order: seq<string>, floats: set<string>)
    returns (diffs: seq<Difference>)
    ensures diffs == [] <==> Agree(expected, got, order, floats)
    ensures forall d | d in diffs ::
              match d
              case Differs(k) => k in Compared(expected, order) && !SameAt(expected, got, floats, k)
              case Unexpected(k) => k in got && k !in expected
    ensures forall k | k in Compared(expected, order) && !SameAt(expected, got, floats, k) :: Differs(k) in diffs
    ensures forall k | k in got && k !in expected :: Unexpected(k) in diffs
  {
    hide IsNaN, IsNaNHex;
    var fieldOrder := order;
    if order == [] { fieldOrder := KeysOf(expected); }
    assert forall k :: k in fieldOrder <==> k in Compared(expected, order);
    diffs := CompareFields(expected, got, fieldOrder, floats);
    var keys := got.Keys;
    while keys != {}
      invariant keys <= got.Keys
      invariant forall d | d in diffs ::
                  if d.Differs? then d.field in fieldOrder && !SameAt(expected, got, floats, d.field)
                  else d.field in got && d.field !in expected
      invariant forall k | k in fieldOrder && !SameAt(expected, got, floats, k) :: Differs(k) in diffs
      invariant forall k | k in got && k !in keys && k !in expected :: Unexpected(k) in diffs
      decreases |keys|
    {
      hide SameAt, Compared;
      var k :| k in keys;
      keys := keys - {k};
      if k !in expected {
        diffs := diffs + [Unexpected(k)];
      }
    }
    assert diffs != [] ==> diffs[0] in diffs;
  }

  /** The first loop: one difference for each field of the order that differs. */
  method CompareFields(expected: map<string, J>, got: map<string, J>, order: seq<string>, floats: set<string>)
    returns (diffs: seq<Difference>)
    ensures forall d | d in diffs :: d.Differs? && d.field in order && !SameAt(expected, got, floats, d.field)
    ensures forall k | k in order && !SameAt(expected, got, floats, k) :: Differs(k) in diffs
  {
    hide IsNaN, IsNaNHex;
    diffs := [];
    for i := 0 to |order|
      invariant forall d | d in diffs :: d.Differs? && d.field in order && !SameAt(expected, got, floats, d.field)
      invariant forall k | k in order[..i] && !SameAt(expected, got, floats, k) :: Differs(k) in diffs
    {
      var k := order[i];
      assert order[..i + 1] == order[..i] + [k];
      var ev, gv := FieldOf(expected, k), FieldOf(got, k);
      if k in floats && IsNaNHex(ev) && IsNaNHex(gv) {
        continue;
      }
      if ev != gv {
        diffs := diffs + [Differs(k)];
      }
    }
    assert order[..|order|] == order;
  }

  /** The fields the runner compares as floats. */
  function FloatFields(schema: seq<Field>): set<string> {
    set f | f in schema && f.typ in {Scalar(Float32), Scalar(Float64)} :: f.name
  }

  /** Equal data agree; on values with no NaN, no null and all fields compared, only
      equal data do. */
  lemma AgreeIsEqual(expected: map<string, J>, got: map<string, J>, order: seq<string>, floats: set<string>)
    ensures expected == got ==> Agree(expected, got, order, floats)
    ensures Agree(expected, got, order, floats) &&
            (forall k | k in expected ::
              k in Compared(expected, order) && !IsNaNHex(expected[k]) && expected[k] != JNull)
            ==> expected == got
  {
    hide IsNaNHex;
    if Agree(expected, got, order, floats) &&
        forall k | k in expected :: k in Compared(expected, order) && !IsNaNHex(expected[k]) && expected[k] != JNull {
      forall k | k in expected ensures k in got && got[k] == expected[k] {
        assert SameAt(expected, got, floats, k);
      }
    }
  }

  /** A float field survives whatever its bits are, so the NaN rule never hides a
      field the codec spoiled. */
  lemma FloatsSurvive(x: Foreign, f: Field, a: Auth)
    requires f.typ in {Scalar(Float32), Scalar(Float64)}
    ensures Supported(x, a, f.typ)
  {
  }

  /** The comparison of a case with what a decode-and-encode worker returns. */
  ghost predicate Green(x: Foreign, sent: map<string, J>, schema: seq<Field>) {
    var back := BackFields(x, JObj(sent), SchemaFields(schema));
    back.Some? && back.value.JObj? && Agree(sent, back.value.members, FieldNames(schema), FloatFields(schema))
  }

  lemma BackKeys(x: Foreign, sent: map<string, J>, sfs: seq<SchemaField>)
    requires Distinct(SchemaNames(sfs)) && BackFields(x, JObj(sent), sfs).Some?
    ensures var back := BackFields(x, JObj(sent), sfs).value;
            && back.JObj?
            && (forall k :: k in back.members <==> k in sent && k in SchemaNames(sfs))
            && forall sf | sf in sfs && sf.name in sent ::
                 sf.name in back.members && Some(back.members[sf.name]) == BackField(x, sf, sent[sf.name])
  {
    hide DecodeField, EncodeField, DecodeFields, EncodeFields, SchemaNames, Distinct;
    DecodedFields(x, sent, sfs);
    EncodedFields(x, DecodeFields(x, JObj(sent), sfs).value.fields, sfs);
  }

  /** What a green row means: the comparison reports nothing exactly when every value
      of the case is in the supported fragment. */
  lemma GreenExactly(x: Foreign, data: map<string, Auth>, schema: seq<Field>, sent: map<string, J>)
    requires Lawful(x) && DistinctFields(schema) && EncodeData(x, data, schema) == Some(sent)
    ensures Green(x, sent, schema) <==> forall f | f in schema && f.name in data :: Supported(x, data[f.name], f.typ)
  {
    hide Supported, BackFields, BackField, EncodeData, EncodeValue, IsNaNHex, DistinctIn;
    RoundTripExactly(x, data, schema, sent);
    EncodedData(x, data, schema, sent);
    var sfs, names := SchemaFields(schema), FieldNames(schema);
    SchemaFieldNames(schema);
    if Green(x, sent, schema) {
      BackKeys(x, sent, sfs);
      var back := BackFields(x, JObj(sent), sfs).value.members;
      forall f | f in schema && f.name in data ensures Supported(x, data[f.name], f.typ) {
        GreenField(x, data, schema, sent, f);
      }
    } else if forall f | f in schema && f.name in data :: Supported(x, data[f.name], f.typ) {
      AgreeIsEqual(sent, sent, names, FloatFields(schema));
    }
  }

  lemma GreenField(x: Foreign, data: map<string, Auth>, schema: seq<Field>, sent: map<string, J>, f: Field)
    requires Lawful(x) && DistinctFields(schema) && EncodeData(x, data, schema) == Some(sent)
    requires Green(x, sent, schema) && f in schema && f.name in data
    ensures Supported(x, data[f.name], f.typ)
  {
    hide Supported, BackFields, BackField, EncodeData, EncodeValue, IsNaNHex, DistinctIn, EncodeStruct;
    EncodedData(x, data, schema, sent);
    StructMember(x, data, schema, sent, f);
    SchemaFieldNames(schema);
    BackKeys(x, sent, SchemaFields(schema));
    var i :| 0 <= i < |schema| && schema[i] == f;
    var sf := SchemaOf(f.name, f.typ);
    assert SchemaFields(schema)[i] == sf;
    SchemaName(f.name, f.typ);
    assert FieldNames(schema)[i] == f.name;
    var back := BackFields(x, JObj(sent), SchemaFields(schema)).value.members;
    assert SameAt(sent, back, FloatFields(schema), f.name);
    FieldBack(x, f.name, f.typ, data[f.name], sent[f.name]);
    if f.name in FloatFields(schema) {
      var g :| g in schema && g.typ in {Scalar(Float32), Scalar(Float64)} && g.name == f.name;
      var j :| 0 <= j < |schema| && schema[j] == g;
      assert FieldNames(schema)[j] == g.name;
      assert i == j;
      FloatsSurvive(x, f, data[f.name]);
    }
  }

  lemma StructMember(x: Foreign, data: map<string, Auth>, schema: seq<Field>, sent: map<string, J>, f: Field)
    requires DistinctFields(schema) && EncodeStruct(x, data, schema) == Some(JObj(sent)) && f in schema &&
             f.name in data
    ensures f.name in sent && EncodeValue(x, data[f.name], f.typ) == Some(sent[f.name]) && DistinctIn(f.typ)
  {
    hide EncodeValue;
    var i :| 0 <= i < |schema| && schema[i] == f;
    assert FieldNames(schema)[i] == f.name;
    assert LastNamed(FieldNames(schema), f.name) == i;
  }
}
