/** The worker codec as the library runs it: field maps filled in place, slices and
    maps filled in loops, each method tied to the function it computes. */
module FieldMaps {
  import opened Common
  import opened TypeLang
  import opened WireValues
  import opened RunnerCodec
  import opened WorkerCodec

  /** After the first `n` schema entries, `fields` holds exactly what they decode. */
  ghost predicate DecodedUpTo(x: Foreign, raw: map<string, J>, schema: seq<SchemaField>, fields: map<string, V>, n: nat)
    requires n <= |schema|
  {
    var names := SchemaNames(schema)[..n];
    && (forall i | 0 <= i < n && schema[i].name in raw :: DecodeField(x, schema[i], raw[schema[i].name]).Some?)
    && (forall k :: k in fields <==> k in raw && k in names)
    && forall k | k in fields :: Some(fields[k]) == DecodeField(x, schema[LastNamed(names, k)], raw[k])
  }

  lemma DecodedNext(x: Foreign, raw: map<string, J>, schema: seq<SchemaField>, fields: map<string, V>, n: nat)
    requires n < |schema| && DecodedUpTo(x, raw, schema, fields, n)
    ensures schema[n].name !in raw ==> DecodedUpTo(x, raw, schema, fields, n + 1)
    ensures schema[n].name in raw && DecodeField(x, schema[n], raw[schema[n].name]).Some? ==>
              DecodedUpTo(x, raw, schema, fields[schema[n].name := DecodeField(x, schema[n],
                  raw[schema[n].name]).value], n + 1)
  {
    hide DecodeField, SchemaNames, LastNamed;
    NamesSnoc(SchemaNames(schema), n);
  }

  lemma DecodedAll(x: Foreign, raw: map<string, J>, schema: seq<SchemaField>, fields: map<string, V>)
    requires DecodedUpTo(x, raw, schema, fields, |schema|)
    ensures DecodeFields(x, JObj(raw), schema) == Some(VMessage(fields))
  {
    hide DecodeField, SchemaNames, LastNamed;
    assert SchemaNames(schema)[..|schema|] == SchemaNames(schema);
    assert fields == DecodeFields(x, JObj(raw), schema).value.fields;
  }

  // ---- decoding ------------------------------------------------------------

  method DecodeFieldMap(x: Foreign, raw: map<string, J>, schema: seq<SchemaField>) returns (fm: FieldStore<V>, ok: bool)
    ensures fresh(fm)
    ensures DecodeFields(x, JObj(raw), schema) == if ok then Some(VMessage(fm.fields)) else None
    decreases JObj(raw), 0
  {
    hide DecodeField, DecodeFields, DecodedUpTo;
    fm := new FieldStore<V>();
    assert DecodedUpTo(x, raw, schema, fm.fields, 0) by { DecodedNone(x, raw, schema); }
    var i := 0;
    while i < |schema|
      invariant 0 <= i <= |schema| && fresh(fm)
      invariant DecodedUpTo(x, raw, schema, fm.fields, i)
    {
      var sf := schema[i];
      DecodedNext(x, raw, schema, fm.fields, i);
      if sf.name in raw {
        ok := DecodeInto(x, fm, sf, raw[sf.name]);
        if !ok {
          DecodeFailed(x, raw, schema, i);
          return;
        }
      }
      i := i + 1;
    }
    DecodedAll(x, raw, schema, fm.fields);
    ok := true;
  }

  lemma DecodedNone(x: Foreign, raw: map<string, J>, schema: seq<SchemaField>)
    ensures DecodedUpTo(x, raw, schema, map[], 0)
  {
  }

  lemma DecodeFailed(x: Foreign, raw: map<string, J>, schema: seq<SchemaField>, i: nat)
    requires i < |schema| && schema[i].name in raw && DecodeField(x, schema[i], raw[schema[i].name]).None?
    ensures DecodeFields(x, JObj(raw), schema).None?
  {
    hide DecodeField;
  }

  /** decodeField: on success exactly the named field is written. */
  method DecodeInto(x: Foreign, fm: FieldStore<V>, sf: SchemaField, r: J) returns (ok: bool)
    modifies fm
    ensures ok <==> DecodeField(x, sf, r).Some?
    ensures ok ==> fm.fields == old(fm.fields)[sf.name := DecodeField(x, sf, r).value]
    decreases r, 5
  {
    hide ShapeOf, ElemOf, DecodeElem, DecodeItems, DecodeEntries, DecodeSum;
    match ShapeOf(sf.typ)
    case SList(e) => ok := DecodeList(x, fm, sf, e, r);
    case SOptional(e) =>
      if r == JNull {
        fm.fields := fm.fields[sf.name := VNil];
        return true;
      }
      ok := StoreElem(x, fm, sf, e, r);
    case SArray(e, n) =>
      ok := DecodeList(x, fm, sf, e, r);
      if ok {
        ok := n.Some? && fm.fields[sf.name].VSlice? && |fm.fields[sf.name].items| == n.value;
      }
    case SMap(e) => ok := DecodeMap(x, fm, sf, e, r);
    case SEnum =>
      var s := TextOf(r);
      if s.None? { return false; }
      fm.fields := fm.fields[sf.name := VStr(s.value)];
      ok := true;
    case SSum => ok := DecodeVariant(x, fm, sf, r);
    case SPlain => ok := StoreElem(x, fm, sf, sf.typ, r);
  }

  method StoreElem(x: Foreign, fm: FieldStore<V>, sf: SchemaField, typ: string, r: J) returns (ok: bool)
    modifies fm
    ensures ok <==> DecodeElem(x, typ, sf.fields, r).Some?
    ensures ok ==> fm.fields == old(fm.fields)[sf.name := DecodeElem(x, typ, sf.fields, r).value]
    decreases r, 2
  {
    var v := DecodeOne(x, typ, sf.fields, r);
    if v.None? { return false; }
    fm.fields := fm.fields[sf.name := v.value];
    ok := true;
  }

  /** decodeScalar. */
  method DecodeOne(x: Foreign, typ: string, fields: seq<SchemaField>, r: J) returns (v: Option<V>)
    ensures v == DecodeElem(x, typ, fields, r)
    decreases r, 1
  {
    hide ElemOf, DecodeKind;
    var e := ElemOf(typ);
    if e.None? { return None; }
    if e.value.EKind? { return DecodeKind(x, e.value.kind, r); }
    match r
    case JObj(members) =>
      var fm, ok := DecodeFieldMap(x, members, fields);
      v := if ok then Some(VMessage(fm.fields)) else None;
    case JNull => v := Some(VMessage(map[]));
    case _ => v := None;
  }

  /** decodeList and collectList. */
  method DecodeList(x: Foreign, fm: FieldStore<V>, sf: SchemaField, typ: string, r: J) returns (ok: bool)
    modifies fm
    ensures ok <==> DecodeItems(x, typ, sf.fields, r).Some?
    ensures ok ==> fm.fields == old(fm.fields)[sf.name := DecodeItems(x, typ, sf.fields, r).value]
    decreases r, 2
  {
    hide ElemOf, DecodeElem, SliceOf;
    var e := ElemOf(typ);
    if e.None? || (!r.JArr? && !r.JNull?) { return false; }
    var arr := if r.JArr? then r.items else [];
    var out: seq<V> := [];
    for i := 0 to |arr|
      invariant |out| == i && fm.fields == old(fm.fields)
      invariant forall j | 0 <= j < i :: Some(out[j]) == DecodeElem(x, typ, sf.fields, arr[j])
    {
      var v := DecodeOne(x, typ, sf.fields, arr[i]);
      if v.None? { return false; }
      out := out + [v.value];
    }
    fm.fields := fm.fields[sf.name := VSlice(SliceOf(e.value), out)];
    assert r.JArr? ==> DecodeItems(x, typ, sf.fields, r).value.items == out;
    ok := true;
  }

  /** decodeMap: the entries come in whatever order the map gives. */
  method DecodeMap(x: Foreign, fm: FieldStore<V>, sf: SchemaField, typ: string, r: J) returns (ok: bool)
    modifies fm
    ensures ok <==> DecodeEntries(x, typ, sf.fields, r).Some?
    ensures ok ==> fm.fields == old(fm.fields)[sf.name := DecodeEntries(x, typ, sf.fields, r).value]
    decreases r, 2
  {
    hide DecodeElem;
    if !r.JObj? && !r.JNull? { return false; }
    var obj := if r.JObj? then r.members else map[];
    var out: map<string, V> := map[];
    var keys := obj.Keys;
    while keys != {}
      invariant keys <= obj.Keys && out.Keys == obj.Keys - keys && fm.fields == old(fm.fields)
      invariant forall k | k in out :: Some(out[k]) == DecodeElem(x, typ, sf.fields, obj[k])
      decreases |keys|
    {
      var k :| k in keys;
      var v := DecodeOne(x, typ, sf.fields, obj[k]);
      if v.None? { return false; }
      out := out[k := v.value];
      keys := keys - {k};
    }
    fm.fields := fm.fields[sf.name := VDict(out)];
    assert DecodeEntries(x, typ, sf.fields, r).value.entries == out;
    ok := true;
  }

  /** decodeSum: the payload goes through a scratch field map. */
  method DecodeVariant(x: Foreign, fm: FieldStore<V>, sf: SchemaField, r: J) returns (ok: bool)
    modifies fm
    ensures ok <==> DecodeSum(x, sf.variants, r).Some?
    ensures ok ==> fm.fields == old(fm.fields)[sf.name := DecodeSum(x, sf.variants, r).value]
    decreases r, 2
  {
    hide DecodeField;
    if !r.JObj? || |r.members| != 1 { return false; }
    var tag := OnlyMember(r.members);
    var i := FindSchemaVariant(sf.variants, tag);
    if i < 0 { return false; }
    var payload := sf.variants[i].payload;
    if payload.None? {
      fm.fields := fm.fields[sf.name := VVariant(tag, VNil)];
      return true;
    }
    var tmp := new FieldStore<V>();
    ok := DecodeInto(x, tmp, payload.value, r.members[tag]);
    if ok {
      fm.fields := fm.fields[sf.name := VVariant(tag, tmp.fields[payload.value.name])];
    }
  }

  // ---- encoding ------------------------------------------------------------

  ghost predicate EncodedUpTo(x: Foreign, fields: map<string, V>, schema: seq<SchemaField>, out: map<string, J>, n: nat)
    requires n <= |schema|
  {
    var names := SchemaNames(schema)[..n];
    && (forall i | 0 <= i < n && schema[i].name in fields :: EncodeField(x, schema[i], fields[schema[i].name]).Some?)
    && (forall k :: k in out <==> k in fields && k in names)
    && forall k | k in out :: Some(out[k]) == EncodeField(x, schema[LastNamed(names, k)], fields[k])
  }

  lemma EncodedNext(x: Foreign, fields: map<string, V>, schema: seq<SchemaField>, out: map<string, J>, n: nat)
    requires n < |schema| && EncodedUpTo(x, fields, schema, out, n)
    ensures schema[n].name !in fields ==> EncodedUpTo(x, fields, schema, out, n + 1)
    ensures schema[n].name in fields && EncodeField(x, schema[n], fields[schema[n].name]).Some? ==>
              EncodedUpTo(x, fields, schema, out[schema[n].name := EncodeField(x, schema[n],
                  fields[schema[n].name]).value], n + 1)
  {
    hide EncodeField, SchemaNames, LastNamed;
    NamesSnoc(SchemaNames(schema), n);
    var name := schema[n].name;
    if name in fields && EncodeField(x, schema[n], fields[name]).Some? {
      var out2 := out[name := EncodeField(x, schema[n], fields[name]).value];
      forall k | k in out2
        ensures Some(out2[k]) == EncodeField(x, schema[LastNamed(SchemaNames(schema)[..n + 1], k)], fields[k])
      {
        assert k != name ==> k in out && out2[k] == out[k];
      }
    }
  }

  lemma EncodedAll(x: Foreign, fields: map<string, V>, schema: seq<SchemaField>, out: map<string, J>)
    requires EncodedUpTo(x, fields, schema, out, |schema|)
    ensures EncodeFields(x, VMessage(fields), schema) == Some(JObj(out))
  {
    hide EncodeField, SchemaNames, LastNamed;
    assert SchemaNames(schema)[..|schema|] == SchemaNames(schema);
    assert out == EncodeFields(x, VMessage(fields), schema).value.members;
  }

  lemma EncodedNone(x: Foreign, fields: map<string, V>, schema: seq<SchemaField>)
    ensures EncodedUpTo(x, fields, schema, map[], 0)
  {
  }

  lemma EncodeFailed(x: Foreign, fields: map<string, V>, schema: seq<SchemaField>, i: nat)
    requires i < |schema| && schema[i].name in fields && EncodeField(x, schema[i], fields[schema[i].name]).None?
    ensures EncodeFields(x, VMessage(fields), schema).None?
  {
    hide EncodeField;
  }

  method EncodeFieldMap(x: Foreign, fields: map<string, V>, schema: seq<SchemaField>) returns (j: Option<J>)
    ensures j == EncodeFields(x, VMessage(fields), schema)
    decreases VMessage(fields), 0
  {
    hide EncodeField, EncodeFields, EncodedUpTo;
    var out: map<string, J> := map[];
    EncodedNone(x, fields, schema);
    for i := 0 to |schema|
      invariant EncodedUpTo(x, fields, schema, out, i)
    {
      var sf := schema[i];
      EncodedNext(x, fields, schema, out, i);
      if sf.name in fields {
        var enc := EncodeOneField(x, sf, fields[sf.name]);
        if enc.None? {
          EncodeFailed(x, fields, schema, i);
          return None;
        }
        out := out[sf.name := enc.value];
      }
    }
    EncodedAll(x, fields, schema, out);
    j := Some(JObj(out));
  }

  method EncodeOneField(x: Foreign, sf: SchemaField, v: V) returns (j: Option<J>)
    ensures j == EncodeField(x, sf, v)
    decreases v, 5
  {
    hide ShapeOf, ElemOf, EncodeElem, EncodeSlice, EncodeEntries, EncodeSum;
    match ShapeOf(sf.typ)
    case SList(e) => j := EncodeList(x, sf, e, v);
    case SOptional(e) =>
      if v == VNil { return Some(JNull); }
      if ElemOf(e) == Some(EKind(String)) {
        return if v.VStr? then Some(JStr(v.s)) else None;
      }
      j := EncodeOne(x, e, sf.fields, v);
    case SEnum => j := if v.VStr? then Some(JStr(v.s)) else None;
    case SSum => j := EncodeVariant(x, sf, v);
    case SArray(e, _) => j := EncodeList(x, sf, e, v);
    case SMap(e) => j := EncodeMap(x, sf, e, v);
    case SPlain => j := EncodeOne(x, sf.typ, sf.fields, v);
  }

  /** encodeScalar. */
  method EncodeOne(x: Foreign, typ: string, fields: seq<SchemaField>, v: V) returns (j: Option<J>)
    ensures j == EncodeElem(x, typ, fields, v)
    decreases v, 1
  {
    hide ElemOf, EncodeKind;
    var e := ElemOf(typ);
    if e.None? { return None; }
    if e.value.EKind? { return EncodeKind(x, e.value.kind, v); }
    if !v.VMessage? { return None; }
    j := EncodeFieldMap(x, v.fields, fields);
  }

  /** encodeList and encodeEachList. */
  method EncodeList(x: Foreign, sf: SchemaField, typ: string, v: V) returns (j: Option<J>)
    ensures j == EncodeSlice(x, typ, sf.fields, v)
    decreases v, 2
  {
    hide ElemOf, EncodeElem, SliceOf;
    var e := ElemOf(typ);
    if e.None? || !v.VSlice? || v.elem != SliceOf(e.value) { return None; }
    var out: seq<J> := [];
    for i := 0 to |v.items|
      invariant |out| == i
      invariant forall k | 0 <= k < i :: Some(out[k]) == EncodeElem(x, typ, sf.fields, v.items[k])
    {
      var enc := EncodeOne(x, typ, sf.fields, v.items[i]);
      if enc.None? { return None; }
      out := out + [enc.value];
    }
    assert EncodeSlice(x, typ, sf.fields, v).value.items == out;
    j := Some(JArr(out));
  }

  method EncodeMap(x: Foreign, sf: SchemaField, typ: string, v: V) returns (j: Option<J>)
    ensures j == EncodeEntries(x, typ, sf.fields, v)
    decreases v, 2
  {
    hide EncodeElem;
    if !v.VDict? { return None; }
    var out: map<string, J> := map[];
    var keys := v.entries.Keys;
    while keys != {}
      invariant keys <= v.entries.Keys && out.Keys == v.entries.Keys - keys
      invariant forall k | k in out :: Some(out[k]) == EncodeElem(x, typ, sf.fields, v.entries[k])
      decreases |keys|
    {
      var k :| k in keys;
      var enc := EncodeOne(x, typ, sf.fields, v.entries[k]);
      if enc.None? { return None; }
      out := out[k := enc.value];
      keys := keys - {k};
    }
    assert EncodeEntries(x, typ, sf.fields, v).value.members == out;
    j := Some(JObj(out));
  }

  /** encodeSum. */
  method EncodeVariant(x: Foreign, sf: SchemaField, v: V) returns (j: Option<J>)
    ensures j == EncodeSum(x, sf.variants, v)
    decreases v, 2
  {
    hide EncodeField;
    if !v.VVariant? { return None; }
    var i := FindSchemaVariant(sf.variants, v.tag);
    if i < 0 { return None; }
    var payload := sf.variants[i].payload;
    if payload.None? { return Some(JObj(map[v.tag := JNull])); }
    var enc := EncodeOneField(x, payload.value, v.value);
    j := if enc.None? then None else Some(JObj(map[v.tag := enc.value]));
  }
}
