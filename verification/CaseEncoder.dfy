/** The runner's encoder as it runs: maps walked in whatever order they give, slices
    filled in loops, each method tied to the function it computes. */
module CaseEncoder {
  import opened Common
  import opened TypeLang
  import opened WireValues
  import opened RunnerCodec

  method EncodeCase(x: Foreign, data: map<string, Auth>, schema: seq<Field>) returns (out: Option<map<string, J>>)
    ensures out == EncodeData(x, data, schema)
  {
    hide EncodeValue, FieldNames, LastNamed, EncodeData;
    var names := FieldNames(schema);
    var keys := data.Keys;
    var m: map<string, J> := map[];
    while keys != {}
      invariant keys <= data.Keys && m.Keys == data.Keys - keys
      invariant forall k | k in m :: k in names && Some(m[k]) == EncodeValue(x, data[k],
               schema[LastNamed(names, k)].typ)
      decreases |keys|
    {
      var k :| k in keys;
      DataFails(x, data, schema, k);
      if k !in names { return None; }
      var enc := EncodeOne(x, data[k], schema[LastNamed(names, k)].typ);
      if enc.None? { return None; }
      m := m[k := enc.value];
      keys := keys - {k};
    }
    DataDone(x, data, schema, m);
    out := Some(m);
  }

  lemma DataFails(x: Foreign, data: map<string, Auth>, schema: seq<Field>, k: string)
    requires k in data
    ensures var names := FieldNames(schema);
            k !in names || EncodeValue(x, data[k], schema[LastNamed(names, k)].typ).None? ==>
                EncodeData(x, data, schema).None?
  {
    hide EncodeValue;
  }

  lemma DataDone(x: Foreign, data: map<string, Auth>, schema: seq<Field>, m: map<string, J>)
    requires m.Keys == data.Keys
    requires forall k | k in m :: k in FieldNames(schema) &&
               Some(m[k]) == EncodeValue(x, data[k], schema[LastNamed(FieldNames(schema), k)].typ)
    ensures EncodeData(x, data, schema) == Some(m)
  {
    hide EncodeValue, LastNamed;
    var e := EncodeData(x, data, schema);
    assert e.Some?;
    assert e.value == m;
  }

  /** encodeValue. */
  method EncodeOne(x: Foreign, a: Auth, t: FieldType) returns (j: Option<J>)
    ensures j == EncodeValue(x, a, t)
    decreases t, 0
  {
    hide EncodeItems, EncodeStruct, EncodeScalar;
    match t
    case Scalar(k) => j := EncodeScalar(x, k, a);
    case Struct(fs) =>
      if !a.AMap? { return None; }
      j := EncodeNested(x, a.entries, fs);
    case Optional(e) =>
      if a.ANull? { return Some(JNull); }
      j := EncodeOne(x, a, e);
    case List(e) =>
      if !a.AList? { return None; }
      j := EncodeList(x, a.items, e);
    case Array(e, n) =>
      if !a.AList? || |a.items| != n { return None; }
      j := EncodeList(x, a.items, e);
    case Map(_, e) =>
      if !a.AMap? { return None; }
      j := EncodeMap(x, a, t);
    case Enum(_) =>
      j := if a.AStr? then Some(JStr(a.s)) else None;
    case Sum(vs) =>
      if !a.AMap? || |a.entries| != 1 { return None; }
      var tag := OnlyKey(a.entries);
      var i := FindVariant(vs, tag);
      if i < 0 { return None; }
      if vs[i].typ.None? { return Some(JObj(map[tag := JNull])); }
      var p := EncodeOne(x, a.entries[tag], vs[i].typ.value);
      j := if p.None? then None else Some(JObj(map[tag := p.value]));
  }

  method EncodeList(x: Foreign, items: seq<Auth>, e: FieldType) returns (j: Option<J>)
    ensures j == EncodeItems(x, items, e)
    decreases e, 1
  {
    hide EncodeValue;
    var out: seq<J> := [];
    for i := 0 to |items|
      invariant |out| == i
      invariant forall k | 0 <= k < i :: Some(out[k]) == EncodeValue(x, items[k], e)
    {
      var enc := EncodeOne(x, items[i], e);
      if enc.None? { return None; }
      out := out + [enc.value];
    }
    assert EncodeItems(x, items, e).value.items == out;
    j := Some(JArr(out));
  }

  lemma MapValues(x: Foreign, a: Auth, t: FieldType)
    requires t.Map? && a.AMap?
    ensures EncodeValue(x, a, t) ==
            if forall k | k in a.entries :: EncodeValue(x, a.entries[k], t.elem).Some?
            then Some(JObj(map k | k in a.entries :: EncodeValue(x, a.entries[k], t.elem).value))
            else None
  {
    var e := t.elem;
    assert t == Map(t.key, e);
    hide EncodeItems, EncodeStruct, EncodeScalar;
    var j := EncodeValue(x, a, t);
    if j.Some? {
      assert j.value.members == map k | k in a.entries :: EncodeValue(x, a.entries[k], e).value;
    }
  }

  method EncodeMap(x: Foreign, a: Auth, t: FieldType) returns (j: Option<J>)
    requires t.Map? && a.AMap?
    ensures j == EncodeValue(x, a, t)
    decreases t.elem, 1
  {
    MapValues(x, a, t);
    hide EncodeValue;
    var out: map<string, J> := map[];
    var keys := a.entries.Keys;
    while keys != {}
      invariant keys <= a.entries.Keys && out.Keys == a.entries.Keys - keys
      invariant forall k | k in out :: Some(out[k]) == EncodeValue(x, a.entries[k], t.elem)
      decreases |keys|
    {
      var k :| k in keys;
      var enc := EncodeOne(x, a.entries[k], t.elem);
      if enc.None? { return None; }
      out := out[k := enc.value];
      keys := keys - {k};
    }
    assert EncodeValue(x, a, t).value.members == out;
    j := Some(JObj(out));
  }

  /** After the first `n` fields, `out` holds exactly what they encode. */
  ghost predicate EncodedUpTo(x: Foreign, entries: map<string, Auth>, fs: seq<Field>, out: map<string, J>, n: nat)
    requires n <= |fs|
  {
    var names := FieldNames(fs)[..n];
    && (forall i | 0 <= i < n && fs[i].name in entries :: EncodeValue(x, entries[fs[i].name], fs[i].typ).Some?)
    && (forall k :: k in out <==> k in entries && k in names)
    && forall k | k in out :: Some(out[k]) == EncodeValue(x, entries[k], fs[LastNamed(names, k)].typ)
  }

  lemma EncodedSkip(x: Foreign, entries: map<string, Auth>, fs: seq<Field>, out: map<string, J>, n: nat)
    requires n < |fs| && EncodedUpTo(x, entries, fs, out, n) && fs[n].name !in entries
    ensures EncodedUpTo(x, entries, fs, out, n + 1)
  {
    NamesSnoc(FieldNames(fs), n);
    hide EncodeValue, FieldNames, LastNamed;
    assert forall k | k in out :: k != fs[n].name;
  }

  lemma EncodedNext(x: Foreign, entries: map<string, Auth>, fs: seq<Field>, out: map<string, J>, n: nat, j: J)
    requires n < |fs| && EncodedUpTo(x, entries, fs, out, n)
    requires fs[n].name in entries && EncodeValue(x, entries[fs[n].name], fs[n].typ) == Some(j)
    ensures EncodedUpTo(x, entries, fs, out[fs[n].name := j], n + 1)
  {
    NamesSnoc(FieldNames(fs), n);
    hide EncodeValue, FieldNames, LastNamed;
    var name, out2 := fs[n].name, out[fs[n].name := j];
    forall k | k in out2
      ensures Some(out2[k]) == EncodeValue(x, entries[k], fs[LastNamed(FieldNames(fs)[..n + 1], k)].typ)
    {
      assert k != name ==> k in out && out2[k] == out[k];
    }
  }

  method EncodeNested(x: Foreign, entries: map<string, Auth>, fs: seq<Field>) returns (j: Option<J>)
    ensures j == EncodeStruct(x, entries, fs)
    decreases fs, 1
  {
    hide EncodeValue;
    var out: map<string, J> := map[];
    for i := 0 to |fs|
      invariant EncodedUpTo(x, entries, fs, out, i)
    {
      var f := fs[i];
      if f.name in entries {
        var enc := EncodeOne(x, entries[f.name], f.typ);
        if enc.None? { return None; }
        EncodedNext(x, entries, fs, out, i, enc.value);
        out := out[f.name := enc.value];
      } else {
        EncodedSkip(x, entries, fs, out, i);
      }
    }
    assert FieldNames(fs)[..|fs|] == FieldNames(fs);
    assert EncodeStruct(x, entries, fs).value.members == out;
    j := Some(JObj(out));
  }
}
