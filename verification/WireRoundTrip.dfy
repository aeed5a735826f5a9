/** Worker decode followed by worker encode, under the schema the runner sends,
    against what the runner sent: for every schema and every case value, the exact
    condition under which the two agree. */
module WireRoundTrip {
  import opened Common
  import opened Text
  import opened TypeLang
  import opened WireValues
  import opened RunnerCodec
  import opened WorkerCodec

  // ---- the supported fragment ----------------------------------------------

  /** The canonical decimal text of a number the kind holds. */
  ghost predicate Canonical(k: Kind, s: string) {
    exists n :: InRange(k, n) && s == IntText(n)
  }

  ghost predicate ScalarSupported(x: Foreign, a: Auth, k: Kind) {
    if SmallInt(k) then (a.AInt? && InRange(k, a.n)) || (a.AFloat? && WholeIn(k, a.x))
    else if TextInt(k) then Canonical(k, x.format(a))
    else if k == Bool then a.ABool?
    else if k == String then a.AStr?
    else k == Bytes && a.AStr? ==> LowerHex(a.s)
  }

  /** The worker's scalar switch handles the type: one container level, no more. */
  predicate Flat(t: FieldType) { t.Scalar? || t.Struct? }

  /** The worker finds the map's value type where the printer put it. */
  predicate KeyReads(key: FieldType, elem: FieldType) {
    KeyValue(Print(key) + "," + Print(elem)) == Some(KeyValueText(Print(key), Print(elem)))
  }

  ghost predicate Supported(x: Foreign, a: Auth, t: FieldType)
    decreases t
  {
    match t
    case Scalar(k) => ScalarSupported(x, a, k)
    case Struct(fs) => a.AMap? && forall f | f in fs && f.name in a.entries :: Supported(x, a.entries[f.name], f.typ)
    case Optional(e) => a.ANull? || (Flat(e) && Supported(x, a, e))
    case List(e) => a.AList? && Flat(e) && forall i | i in a.items :: Supported(x, i, e)
    case Array(e, n) =>
      && a.AList? && -0x8000_0000_0000_0000 <= n < 0x8000_0000_0000_0000
      && match e {
           case Scalar(_) => forall i | i in a.items :: Supported(x, i, e)
           case Struct(fs) => forall i | i in a.items :: i.AMap? && forall f | f in fs :: f.name !in i.entries
           case _ => false
         }
    case Map(key, e) =>
      a.AMap? && (a.entries == map[] ||
                  (Flat(e) && KeyReads(key, e) && forall k | k in a.entries :: Supported(x, a.entries[k], e)))
    case Enum(_) => a.AStr?
    case Sum(vs) =>
      && a.AMap? && |a.entries| == 1
      && var tag := OnlyKey(a.entries);
         var i := FindVariant(vs, tag);
         i >= 0 && (vs[i].typ.Some? ==> Supported(x, a.entries[tag], vs[i].typ.value))
  }

  // ---- what the worker reads out of printed types --------------------------

  lemma StartsWrapped(f: Former, inner: string)
    ensures Starts(Wrap(FormerName(f), inner), f) && Inside(Wrap(FormerName(f), inner), f) == inner
  {
    var s := Wrap(FormerName(f), inner);
    assert s == (FormerName(f) + "<") + (inner + ">");
    assert s[|FormerName(f)| + 1..] == inner + ">";
  }

  lemma StartsLength(typ: string, f: Former)
    requires Starts(typ, f)
    ensures '<' in typ && WordLength(typ) == |FormerName(f)| && typ[..|FormerName(f)|] == FormerName(f)
  {
    var w := FormerName(f);
    assert typ[|w|] == '<';
    assert typ == w + ("<" + typ[|w| + 1..]);
    WordLengthOfWrap(w, typ[|w| + 1..]);
  }

  /** A text starts with at most one constructor. */
  lemma StartsOnce(typ: string, f: Former, g: Former)
    requires Starts(typ, f) && Starts(typ, g)
    ensures f == g
  {
    StartsLength(typ, f);
    StartsLength(typ, g);
    FormerOfName(f);
    FormerOfName(g);
  }

  lemma WordIsPlain(w: string)
    requires IsWord(w)
    ensures ShapeOf(w) == SPlain
  {
    hide Starts, FormerName;
    assert !IsWordChar('<');
    forall f | Starts(w, f) ensures '<' in w {
      StartsLength(w, f);
    }
  }

  lemma ShapeOfWrapped(f: Former, inner: string)
    ensures ShapeOf(Wrap(FormerName(f), inner)) ==
            match f
            case FList => SList(inner)
            case FOptional => SOptional(inner)
            case FArray => ArrayShape(inner)
            case FMap => SMap(MapValue(inner))
            case FEnum => SEnum
            case FSum => SSum
  {
    hide Starts, Inside, ArrayShape, MapValue, FormerName, Wrap;
    StartsWrapped(f, inner);
    forall g | Starts(Wrap(FormerName(f), inner), g) ensures f == g {
      StartsOnce(Wrap(FormerName(f), inner), f, g);
    }
  }

  /** Printed types that are not a single word are wrapped in a constructor. */
  lemma PrintedWrapped(t: FieldType) returns (f: Former, inner: string)
    requires !Flat(t)
    ensures Print(t) == Wrap(FormerName(f), inner)
  {
    hide FormerName, Wrap;
    match t
    case Optional(e) => f, inner := FOptional, Print(e);
    case List(e) => f, inner := FList, Print(e);
    case Array(e, n) => f, inner := FArray, Print(e) + "," + IntText(n);
    case Map(k, e) => f, inner := FMap, Print(k) + "," + Print(e);
    case Enum(vs) => f, inner := FEnum, JoinCommas(vs);
    case Sum(vs) => f, inner := FSum, PrintVariants(vs);
  }

  lemma WrapEnds(f: Former, inner: string)
    ensures var s := Wrap(FormerName(f), inner);
            s != "" && Trimmed(s) && !IsWord(s) && s[|s| - 1] == '>'
  {
    var s := Wrap(FormerName(f), inner);
    hide FormerName;
    assert IsWordChar(s[0]) && s[|s| - 1] == '>' && !IsWordChar('>');
  }

  /** Printed types begin with a word and end with a word or '>'. */
  lemma PrintedEnds(t: FieldType)
    ensures Print(t) != "" && Trimmed(Print(t))
    ensures IsWord(Print(t)) <==> Flat(t)
    ensures !Flat(t) ==> Print(t)[|Print(t)| - 1] == '>'
  {
    hide IsWord, Trimmed, KindName;
    if t.Scalar? {
      WordNeat(KindName(t.kind), 0);
    } else if t.Struct? {
      ElemIsWord(STRUCT);
      WordNeat(STRUCT, 0);
    } else {
      var f, inner := PrintedWrapped(t);
      WrapEnds(f, inner);
    }
  }

  lemma ArrayShapePrinted(e: FieldType, n: int)
    ensures ArrayShape(Print(e) + "," + IntText(n)) ==
            SArray(Print(e), if -0x8000_0000_0000_0000 <= n < 0x8000_0000_0000_0000 then Some(n) else None)
  {
    hide Print, IntText, Trim;
    ArraySplit(Print(e), n);
    PrintedEnds(e);
    ParseSignedOfText(n);
  }

  /** What the worker reads out of each printed type. */
  lemma ShapeOfPrinted(t: FieldType)
    ensures ShapeOf(Print(t)) ==
            match t
            case List(e) => SList(Print(e))
            case Optional(e) => SOptional(Print(e))
            case Array(e, n) =>
              SArray(Print(e), if -0x8000_0000_0000_0000 <= n < 0x8000_0000_0000_0000 then Some(n) else None)
            case Map(k, e) => SMap(MapValue(Print(k) + "," + Print(e)))
            case Enum(_) => SEnum
            case Sum(_) => SSum
            case _ => SPlain
  {
    hide ShapeOf, ArrayShape, MapValue, Wrap, FormerName;
    match t
    case Scalar(k) => WordIsPlain(KindName(k));
    case Struct(_) => WordIsPlain(STRUCT);
    case Optional(e) => ShapeOfWrapped(FOptional, Print(e));
    case List(e) => ShapeOfWrapped(FList, Print(e));
    case Array(e, n) => ShapeOfWrapped(FArray, Print(e) + "," + IntText(n)); ArrayShapePrinted(e, n);
    case Map(k, e) => ShapeOfWrapped(FMap, Print(k) + "," + Print(e));
    case Enum(vs) => ShapeOfWrapped(FEnum, JoinCommas(vs));
    case Sum(vs) => ShapeOfWrapped(FSum, PrintVariants(vs));
  }

  lemma ElemOfPrinted(t: FieldType)
    ensures ElemOf(Print(t)) ==
            match t case Scalar(k) => Some(EKind(k)) case Struct(_) => Some(EStruct) case _ => None
  {
    match t {
      case Scalar(k) => KindOfName(k);
      case Struct(_) => StructIsNoKind();
      case _ =>
        PrintedEnds(t);
        ElemIsWord(Print(t));
    }
  }

  lemma ElemIsWord(s: string)
    ensures ElemOf(s).Some? ==> s != "" && IsWord(s)
  {
    assert IsWord(STRUCT);
  }

  lemma {:induction false} TrimLeftComma(s: string)
    ensures ',' in s ==> ',' in TrimLeft(s)
  {
    if s != "" && IsSpace(s[0]) {
      assert !IsSpace(',');
      hide IsSpace;
      assert s == [s[0]] + s[1..];
      TrimLeftComma(s[1..]);
    }
  }

  lemma {:induction false} TrimRightComma(s: string)
    ensures ',' in s ==> ',' in TrimRight(s)
  {
    if s != "" && IsSpace(s[|s| - 1]) {
      TrimRightComma(s[..|s| - 1]);
      assert !IsSpace(',');
      assert s == s[..|s| - 1] + [s[|s| - 1]];
    }
  }

  lemma TrimEnd(s: string)
    requires s != "" && !IsSpace(s[|s| - 1])
    ensures Trim(s) != "" && Trim(s)[|Trim(s)| - 1] == s[|s| - 1]
  {
    hide TrimLeft;
    TrimLeftKeepsEnd(s);
    assert TrimRight(TrimLeft(s)) == TrimLeft(s);
  }

  lemma {:induction false} TrimLeftKeepsEnd(s: string)
    requires s != "" && !IsSpace(s[|s| - 1])
    ensures TrimLeft(s) != "" && TrimLeft(s)[|TrimLeft(s)| - 1] == s[|s| - 1]
  {
    if IsSpace(s[0]) {
      TrimLeftKeepsEnd(s[1..]);
    }
  }

  lemma LastCommaOf(a: string, b: string)
    requires ',' !in b
    ensures var s := a + "," + b;
            LastComma(s) == |a| && a == s[..|a|] && b == s[|a| + 1..]
  {
    var s := a + "," + b;
    assert s[|a|] == ',';
    forall j | |a| < j < |s| ensures s[j] != ',' {
      assert s[j] == b[j - |a| - 1];
    }
  }

  /** The comma before a comma-free end is the last one. */
  lemma SameLastComma(a: string, b: string, c: string, d: string)
    requires a + "," + b == c + "," + d && ',' !in b && ',' !in d
    ensures a == c && b == d
  {
    LastCommaOf(a, b);
    LastCommaOf(c, d);
  }

  /** The value type of a printed map is usable exactly when it is flat and the split
      falls where the printer put the comma. */
  lemma MapValuePrinted(key: FieldType, e: FieldType)
    ensures ElemOf(MapValue(Print(key) + "," + Print(e))) ==
            if Flat(e) && KeyReads(key, e) then ElemOf(Print(e)) else None
  {
    hide Print, ElemOf, IsWord, Trim, TopLevelParts;
    var inner := Print(key) + "," + Print(e);
    var w := MapValue(inner);
    PrintedEnds(e);
    ElemIsWord(w);
    ElemOfPrinted(e);
    if ElemOf(w).Some? {
      MapValueWord(Print(key), Print(e));
    }
  }

  lemma MapValueParts(inner: string) returns (key: string, rest: string)
    requires MapValue(inner) != ""
    ensures inner == key + "," + rest && MapValue(inner) == Trim(rest)
    ensures KeyValue(inner) == Some(KeyValueText(key, Trim(rest)))
  {
    hide Trim, TopLevelParts;
    var parts := TopLevelParts(inner, 0);
    PartsRejoin(inner, 0);
    assert parts[1..] == [parts[1]];
    key, rest := parts[0], parts[1];
  }

  /** A text that trims to a word does not end in '>'. */
  lemma WordEnd(p: string)
    requires Trim(p) != "" && IsWord(Trim(p))
    ensures p != "" && p[|p| - 1] != '>'
  {
    hide Trim;
    assert !IsWordChar('>') && !IsSpace('>');
    if p != "" && p[|p| - 1] == '>' {
      TrimEnd(p);
    }
  }

  lemma MapValueWord(k: string, e: string)
    requires MapValue(k + "," + e) != "" && IsWord(MapValue(k + "," + e))
    requires e != "" && Trimmed(e) && (IsWord(e) || e[|e| - 1] == '>')
    ensures IsWord(e) && KeyValue(k + "," + e) == Some(KeyValueText(k, e))
  {
    hide Trim, MapValue, KeyValue;
    var inner := k + "," + e;
    var key, rest := MapValueParts(inner);
    TrimmedWord(rest);
    WordEnd(rest);
    assert inner[|inner| - 1] == e[|e| - 1] && inner[|inner| - 1] == rest[|rest| - 1];
    WordNoComma(e);
    SameLastComma(k, e, key, rest);
    TrimOfTrimmed(e);
  }

  lemma TrimOfTrimmed(s: string)
    requires Trimmed(s)
    ensures Trim(s) == s
  {
  }

  lemma WordNoComma(s: string)
    requires IsWord(s)
    ensures ',' !in s
  {
    assert !IsWordChar(',');
  }

  lemma TrimmedWord(p: string)
    requires Trim(p) != "" && IsWord(Trim(p))
    ensures p != "" && ',' !in p
  {
    TrimLeftComma(p);
    TrimRightComma(TrimLeft(p));
    assert !IsWordChar(',');
  }

  // ---- scalars -------------------------------------------------------------

  function BackKind(x: Foreign, k: Kind, r: J): Option<J> {
    match DecodeKind(x, k, r) case None => None case Some(v) => EncodeKind(x, k, v)
  }

  lemma TextBack(k: Kind, s: string)
    requires TextInt(k)
    ensures IntText64(k, s).Some? && IntText(IntText64(k, s).value) == s <==> Canonical(k, s)
  {
    hide ParseSigned, ParseUnsigned, IntText;
    if n :| InRange(k, n) && s == IntText(n) {
      ParseSignedOfText(n);
    }
  }

  lemma TextKindBack(x: Foreign, k: Kind, a: Auth)
    requires TextInt(k)
    ensures BackKind(x, k, JStr(x.format(a))) == Some(JStr(x.format(a))) <==> ScalarSupported(x, a, k)
  {
    hide Canonical, IntText64, IntText;
    TextBack(k, x.format(a));
  }

  lemma SmallKindBack(x: Foreign, k: Kind, a: Auth, j: J)
    requires Lawful(x) && SmallInt(k) && ToJson(a) == Some(j)
    ensures BackKind(x, k, j) == Some(j) <==> ScalarSupported(x, a, k)
  {
    hide ConvertTo;
    match j
    case JNum(r) =>
      ConvertedInRange(x, k, r);
    case _ =>
  }

  /** Scalars: exact for every kind and every authored value the runner accepts. */
  lemma KindBack(x: Foreign, k: Kind, a: Auth, j: J)
    requires Lawful(x) && EncodeScalar(x, k, a) == Some(j)
    ensures BackKind(x, k, j) == Some(j) <==> ScalarSupported(x, a, k)
  {
    hide HexEncode, HexDecode, IntText64, LowerHex, ConvertTo, Canonical, IntText;
    if SmallInt(k) {
      SmallKindBack(x, k, a, j);
    } else if TextInt(k) {
      TextKindBack(x, k, a);
    } else {
      match k
      case Bytes =>
        if a.AStr? {
          HexTextSurvives(a.s);
        } else {
          HexRoundTrip(ByteList(a.items).value);
        }
      case Float32 => HexRoundTrip(x.floatBytes(a, false).value);
      case Float64 => HexRoundTrip(x.floatBytes(a, true).value);
      case Bool =>
      case String =>
    }
  }

  // ---- one level of structure ----------------------------------------------

  function BackItems(x: Foreign, typ: string, fields: seq<SchemaField>, r: J): Option<J> {
    match DecodeItems(x, typ, fields, r) case None => None case Some(v) => EncodeSlice(x, typ, fields, v)
  }

  function BackEntries(x: Foreign, typ: string, fields: seq<SchemaField>, r: J): Option<J> {
    match DecodeEntries(x, typ, fields, r) case None => None case Some(v) => EncodeEntries(x, typ, fields, v)
  }

  /** A list survives exactly when every element does. */
  lemma ItemsBack(x: Foreign, typ: string, fields: seq<SchemaField>, items: seq<J>)
    requires ElemOf(typ).Some?
    ensures var v := DecodeItems(x, typ, fields, JArr(items));
            v.Some? ==> v.value.VSlice? && |v.value.items| == |items|
    ensures BackItems(x, typ, fields, JArr(items)) == Some(JArr(items)) <==>
            forall i | i in items :: BackElem(x, typ, fields, i) == Some(i)
  {
    hide DecodeElem, EncodeElem, ElemOf;
    var v := DecodeItems(x, typ, fields, JArr(items));
    var all := forall i | i in items :: BackElem(x, typ, fields, i) == Some(i);
    assert all <==> forall k | 0 <= k < |items| :: BackElem(x, typ, fields, items[k]) == Some(items[k]) by {
      if all {
        forall k | 0 <= k < |items| ensures BackElem(x, typ, fields, items[k]) == Some(items[k]) {
          assert items[k] in items;
        }
      }
    }
    if all {
      assert forall k | 0 <= k < |items| :: v.value.items[k] == DecodeElem(x, typ, fields, items[k]).value;
      assert EncodeSlice(x, typ, fields, v.value).value.items == items;
    }
  }

  /** A map survives exactly when every value does. */
  lemma EntriesBack(x: Foreign, typ: string, fields: seq<SchemaField>, members: map<string, J>)
    ensures BackEntries(x, typ, fields, JObj(members)) == Some(JObj(members)) <==>
            forall k | k in members :: BackElem(x, typ, fields, members[k]) == Some(members[k])
  {
    hide DecodeElem, EncodeElem;
    var v := DecodeEntries(x, typ, fields, JObj(members));
    if forall k | k in members :: BackElem(x, typ, fields, members[k]) == Some(members[k]) {
      assert v.value.entries.Keys == members.Keys;
      assert EncodeEntries(x, typ, fields, v.value).value.members == members;
    }
  }

  lemma LastOfDistinct(schema: seq<SchemaField>, f: SchemaField)
    requires Distinct(SchemaNames(schema)) && f in schema
    ensures f.name in SchemaNames(schema) && schema[LastNamed(SchemaNames(schema), f.name)] == f
  {
    var i :| 0 <= i < |schema| && schema[i] == f;
    assert SchemaNames(schema)[i] == f.name;
  }

  /** What DecodeFields stores under each declared name. */
  lemma DecodedFields(x: Foreign, members: map<string, J>, schema: seq<SchemaField>)
    requires Distinct(SchemaNames(schema))
    ensures var v := DecodeFields(x, JObj(members), schema);
            && (v.Some? <==> forall f | f in schema && f.name in members :: DecodeField(x, f, members[f.name]).Some?)
            && (v.Some? ==>
                  && v.value.VMessage?
                  && (forall k :: k in v.value.fields <==> k in members && k in SchemaNames(schema))
                  && forall f | f in schema && f.name in members ::
                       f.name in v.value.fields && Some(v.value.fields[f.name]) == DecodeField(x, f, members[f.name]))
  {
    hide DecodeField, SchemaNames, LastNamed, Distinct;
    forall f | f in schema
      ensures f.name in SchemaNames(schema) && schema[LastNamed(SchemaNames(schema), f.name)] == f
    {
      LastOfDistinct(schema, f);
    }
    var ok := forall f | f in schema && f.name in members :: DecodeField(x, f, members[f.name]).Some?;
    assert ok <==> forall i | 0 <= i < |schema| && schema[i].name in members ::
                     DecodeField(x, schema[i], members[schema[i].name]).Some? by {
      if ok {
        forall i | 0 <= i < |schema| && schema[i].name in members
          ensures DecodeField(x, schema[i], members[schema[i].name]).Some?
        {
          assert schema[i] in schema;
        }
      }
    }
  }

  lemma EncodedFields(x: Foreign, fields: map<string, V>, schema: seq<SchemaField>)
    requires Distinct(SchemaNames(schema))
    ensures var j := EncodeFields(x, VMessage(fields), schema);
            && (j.Some? <==> forall f | f in schema && f.name in fields :: EncodeField(x, f, fields[f.name]).Some?)
            && (j.Some? ==>
                  && j.value.JObj?
                  && (forall k :: k in j.value.members <==> k in fields && k in SchemaNames(schema))
                  && forall f | f in schema && f.name in fields ::
                       f.name in j.value.members && Some(j.value.members[f.name]) == EncodeField(x, f, fields[f.name]))
  {
    hide EncodeField, SchemaNames, LastNamed, Distinct;
    forall f | f in schema
      ensures f.name in SchemaNames(schema) && schema[LastNamed(SchemaNames(schema), f.name)] == f
    {
      LastOfDistinct(schema, f);
    }
    var ok := forall f | f in schema && f.name in fields :: EncodeField(x, f, fields[f.name]).Some?;
    assert ok <==> forall i | 0 <= i < |schema| && schema[i].name in fields ::
                     EncodeField(x, schema[i], fields[schema[i].name]).Some? by {
      if ok {
        forall i | 0 <= i < |schema| && schema[i].name in fields
          ensures EncodeField(x, schema[i], fields[schema[i].name]).Some?
        {
          assert schema[i] in schema;
        }
      }
    }
  }

  /** Every declared field that is present survives. */
  predicate AllBack(x: Foreign, members: map<string, J>, schema: seq<SchemaField>) {
    forall f | f in schema && f.name in members :: BackField(x, f, members[f.name]) == Some(members[f.name])
  }

  predicate AllDeclared(members: map<string, J>, schema: seq<SchemaField>) {
    forall k | k in members :: k in SchemaNames(schema)
  }

  lemma NamedField(schema: seq<SchemaField>, k: string) returns (f: SchemaField)
    requires k in SchemaNames(schema)
    ensures f in schema && f.name == k
  {
    var i :| 0 <= i < |schema| && SchemaNames(schema)[i] == k;
    f := schema[i];
  }

  /** A struct survives exactly when all its keys are declared and every declared
      field that is present does. */
  lemma FieldsBack(x: Foreign, members: map<string, J>, schema: seq<SchemaField>)
    requires Distinct(SchemaNames(schema))
    ensures BackFields(x, JObj(members), schema) == Some(JObj(members)) <==>
            AllDeclared(members, schema) && AllBack(x, members, schema)
  {
    hide DecodeField, EncodeField, SchemaNames, Distinct, DecodeFields, EncodeFields;
    DecodedFields(x, members, schema);
    var v := DecodeFields(x, JObj(members), schema);
    if v.Some? {
      EncodedFields(x, v.value.fields, schema);
    }
    if AllDeclared(members, schema) && AllBack(x, members, schema) {
      var out := EncodeFields(x, v.value, schema).value.members;
      forall k | k in members ensures k in out && out[k] == members[k] {
        var f := NamedField(schema, k);
      }
      assert out == members;
    }
  }

  // ---- the round trip ------------------------------------------------------

  lemma SchemaFieldNames(fs: seq<Field>)
    ensures SchemaNames(SchemaFields(fs)) == FieldNames(fs)
  {
  }

  /** An encoded struct has exactly the declared fields that are present, each encoded. */
  lemma StructParts(x: Foreign, entries: map<string, Auth>, fs: seq<Field>, m: map<string, J>)
    requires Distinct(FieldNames(fs)) && EncodeStruct(x, entries, fs) == Some(JObj(m))
    ensures forall f | f in fs :: f.name in m <==> f.name in entries
    ensures forall f | f in fs && f.name in m :: EncodeValue(x, entries[f.name], f.typ) == Some(m[f.name])
    ensures AllDeclared(m, SchemaFields(fs))
  {
    hide EncodeValue, SchemaFields, SchemaNames;
    SchemaFieldNames(fs);
    var names := FieldNames(fs);
    forall f | f in fs && f.name in entries ensures fs[LastNamed(names, f.name)] == f {
      var i :| 0 <= i < |fs| && fs[i] == f;
      assert names[i] == f.name;
    }
  }

  /** A struct's value, against the schema of the same fields. */
  lemma {:induction false} StructBack(x: Foreign, entries: map<string, Auth>, fs: seq<Field>, j: J)
    requires Lawful(x) && DistinctFields(fs) && EncodeStruct(x, entries, fs) == Some(j)
    ensures BackFields(x, j, SchemaFields(fs)) == Some(j) <==>
            forall f | f in fs && f.name in entries :: Supported(x, entries[f.name], f.typ)
    decreases fs, 1
  {
    hide BackFields, EncodeValue, Supported, BackField, SchemaFields, SchemaOf;
    var sfs, m := SchemaFields(fs), j.members;
    StructParts(x, entries, fs, m);
    SchemaFieldNames(fs);
    FieldsBack(x, m, sfs);
    AllBackFields(x, m, fs);
    hide EncodeStruct, AllBack, AllDeclared, SchemaNames, FieldNames, Distinct;
    forall f | f in fs && f.name in m
      ensures BackField(x, SchemaOf(f.name, f.typ), m[f.name]) == Some(m[f.name]) <==>
              Supported(x, entries[f.name], f.typ)
    {
      FieldBack(x, f.name, f.typ, entries[f.name], m[f.name]);
    }
  }

  lemma AllBackFields(x: Foreign, m: map<string, J>, fs: seq<Field>)
    ensures AllBack(x, m, SchemaFields(fs)) <==>
            forall f | f in fs && f.name in m :: BackField(x, SchemaOf(f.name, f.typ), m[f.name]) == Some(m[f.name])
  {
    hide BackField, SchemaOf;
    var sfs := SchemaFields(fs);
    forall f | f in fs ensures SchemaOf(f.name, f.typ) in sfs && SchemaOf(f.name, f.typ).name == f.name {
      var i :| 0 <= i < |fs| && fs[i] == f;
      assert sfs[i] == SchemaOf(f.name, f.typ);
      SchemaName(f.name, f.typ);
    }
    forall sf | sf in sfs ensures exists f :: f in fs && sf == SchemaOf(f.name, f.typ) && sf.name == f.name {
      var i :| 0 <= i < |sfs| && sfs[i] == sf;
      SchemaName(fs[i].name, fs[i].typ);
      assert fs[i] in fs;
    }
  }

  lemma SchemaName(name: string, t: FieldType)
    ensures SchemaOf(name, t).name == name && SchemaOf(name, t).typ == Print(t)
  {
  }

  /** An element of a container, decoded by the worker's scalar switch. */
  lemma {:induction false} ElemBack(x: Foreign, e: FieldType, a: Auth, j: J)
    requires Lawful(x) && DistinctIn(e) && EncodeValue(x, a, e) == Some(j)
    ensures BackElem(x, Print(e), ElemFields(e), j) == Some(j) <==> Flat(e) && Supported(x, a, e)
    decreases e, 2
  {
    hide Print, ElemOf, DecodeKind, EncodeKind, EncodeScalar, ScalarSupported, EncodeStruct, DecodeFields, EncodeFields;
    ElemOfPrinted(e);
    match e
    case Scalar(k) => KindBack(x, k, a, j);
    case Struct(fs) => StructBack(x, a.entries, fs, j);
    case _ =>
  }

  lemma ItemsEncoded(x: Foreign, items: seq<Auth>, e: FieldType, j: J)
    requires EncodeItems(x, items, e) == Some(j)
    ensures j.JArr? && |j.items| == |items|
    ensures forall i | 0 <= i < |items| :: EncodeValue(x, items[i], e) == Some(j.items[i])
  {
    hide EncodeValue;
  }

  /** The elements of a list or array, given what survival means for one of them. */
  lemma ListBack(x: Foreign, typ: string, fields: seq<SchemaField>, items: seq<Auth>, j: J, ok: Auth -> bool)
    requires j.JArr? && |j.items| == |items| && ElemOf(typ).Some?
    requires forall i | 0 <= i < |items| :: BackElem(x, typ, fields, j.items[i]) == Some(j.items[i]) <==> ok(items[i])
    ensures BackItems(x, typ, fields, j) == Some(j) <==> forall i | i in items :: ok(i)
  {
    hide ElemOf, BackElem, BackItems;
    ItemsBack(x, typ, fields, j.items);
    if forall i | i in items :: ok(i) {
      forall y | y in j.items ensures BackElem(x, typ, fields, y) == Some(y) {
        var i :| 0 <= i < |items| && j.items[i] == y;
        assert items[i] in items;
      }
    } else {
      var a :| a in items && !ok(a);
      var i :| 0 <= i < |items| && items[i] == a;
      assert j.items[i] in j.items;
    }
  }

  lemma PlainFieldBack(x: Foreign, name: string, t: FieldType, a: Auth, j: J)
    requires Lawful(x) && DistinctIn(t) && EncodeValue(x, a, t) == Some(j) && Flat(t)
    ensures BackField(x, SchemaOf(name, t), j) == Some(j) <==> Supported(x, a, t)
    decreases t, 4
  {
    hide Print, ShapeOf, DecodeElem, EncodeElem, EncodeValue, Supported;
    ShapeOfPrinted(t);
    assert SchemaOf(name, t).fields == ElemFields(t);
    ElemBack(x, t, a, j);
  }

  lemma {:induction false} OnlyNullIsNull(x: Foreign, a: Auth, t: FieldType)
    requires EncodeValue(x, a, t) == Some(JNull)
    ensures a.ANull?
    decreases t
  {
    if t.Optional? && !a.ANull? {
      OnlyNullIsNull(x, a, t.elem);
    }
  }

  lemma DecodedIsSet(x: Foreign, typ: string, fields: seq<SchemaField>, r: J)
    ensures DecodeElem(x, typ, fields, r) != Some(VNil)
  {
    hide ElemOf, HexDecode, IntText64, ConvertTo;
  }

  lemma OptionalBack(x: Foreign, name: string, e: FieldType, a: Auth, j: J)
    requires Lawful(x) && DistinctIn(e) && EncodeValue(x, a, Optional(e)) == Some(j)
    ensures BackField(x, SchemaOf(name, Optional(e)), j) == Some(j) <==> Supported(x, a, Optional(e))
    decreases e, 4
  {
    ShapeOfPrinted(Optional(e));
    var sf := SchemaOf(name, Optional(e));
    assert sf.fields == ElemFields(e) && sf.typ == Print(Optional(e));
    hide Print, ShapeOf, DecodeElem, SchemaOf, ElemFields;
    if !a.ANull? {
      assert EncodeValue(x, a, e) == Some(j);
      if j == JNull {
        OnlyNullIsNull(x, a, e);
      }
      ElemBack(x, e, a, j);
      DecodedIsSet(x, Print(e), sf.fields, j);
      hide EncodeValue, DistinctIn, ElemOf;
      assert BackField(x, sf, j) == BackElem(x, Print(e), sf.fields, j) by { OptionalSame(x, sf, Print(e), j); }
    }
  }

  /** A present optional travels exactly as its element does. */
  lemma OptionalSame(x: Foreign, sf: SchemaField, e: string, j: J)
    requires ShapeOf(sf.typ) == SOptional(e) && j != JNull
    ensures BackField(x, sf, j) == BackElem(x, e, sf.fields, j)
  {
    hide ShapeOf, ElemOf, HexDecode, IntText64, ConvertTo, DecodeFields, EncodeFields;
    DecodedIsSet(x, e, sf.fields, j);
  }

  lemma ListShape(x: Foreign, name: string, e: FieldType, j: J)
    ensures BackField(x, SchemaOf(name, List(e)), j) == BackItems(x, Print(e), ElemFields(e), j)
  {
    ShapeOfPrinted(List(e));
    assert SchemaOf(name, List(e)).fields == ElemFields(e);
    hide Print, ShapeOf, ElemFields, DecodeItems, EncodeSlice;
  }

  lemma ListFieldBack(x: Foreign, name: string, e: FieldType, a: Auth, j: J)
    requires Lawful(x) && DistinctIn(e) && EncodeValue(x, a, List(e)) == Some(j)
    ensures BackField(x, SchemaOf(name, List(e)), j) == Some(j) <==> Supported(x, a, List(e))
    decreases e, 4
  {
    ListShape(x, name, e, j);
    ElemOfPrinted(e);
    assert EncodeItems(x, a.items, e) == Some(j);
    ItemsEncoded(x, a.items, e, j);
    assert Supported(x, a, List(e)) <==> Flat(e) && forall i | i in a.items :: Supported(x, i, e);
    assert ElemOf(Print(e)).None? ==> BackItems(x, Print(e), ElemFields(e), j).None?;
    hide Print, BackField, BackItems, ElemFields, ElemOf, BackElem, Supported, EncodeValue, EncodeItems, DistinctIn,
         Lawful;
    if Flat(e) {
      forall i | 0 <= i < |a.items|
        ensures BackElem(x, Print(e), ElemFields(e), j.items[i]) == Some(j.items[i]) <==> Supported(x, a.items[i], e)
      {
        ElemBack(x, e, a.items[i], j.items[i]);
      }
      ListBack(x, Print(e), ElemFields(e), a.items, j, i => Supported(x, i, e));
    }
  }

  /** What an array element must be: a struct may have none of its fields. */
  ghost predicate InArray(x: Foreign, a: Auth, e: FieldType) {
    match e
    case Scalar(_) => Supported(x, a, e)
    case Struct(fs) => a.AMap? && forall f | f in fs :: f.name !in a.entries
    case _ => false
  }

  /** Inside an array a struct's nested schema is lost, so only empty ones survive. */
  lemma ArrayElemBack(x: Foreign, e: FieldType, a: Auth, j: J)
    requires Lawful(x) && DistinctIn(e) && EncodeValue(x, a, e) == Some(j) && Flat(e)
    ensures BackElem(x, Print(e), [], j) == Some(j) <==> InArray(x, a, e)
    decreases e, 3
  {
    hide Print, BackElem, EncodeScalar;
    match e
    case Scalar(_) =>
      hide Lawful, EncodeValue, DistinctIn;
      ElemBack(x, e, a, j);
    case Struct(fs) => StructInArray(x, fs, a, j);
  }

  lemma StructInArray(x: Foreign, fs: seq<Field>, a: Auth, j: J)
    requires a.AMap? && EncodeStruct(x, a.entries, fs) == Some(j)
    ensures BackElem(x, Print(Struct(fs)), [], j) == Some(j) <==> forall f | f in fs :: f.name !in a.entries
  {
    ElemOfPrinted(Struct(fs));
    hide Print, ElemOf, EncodeStruct;
    EncodedNothing(x, a.entries, fs, j);
    assert BackElem(x, Print(Struct(fs)), [], j) == BackFields(x, j, []) by { hide DecodeFields, EncodeFields; }
    hide BackElem;
    EmptySchemaBack(x, j.members);
  }

  lemma EmptySchemaBack(x: Foreign, members: map<string, J>)
    ensures BackFields(x, JObj(members), []) == Some(JObj(map[]))
  {
  }

  lemma EncodedNothing(x: Foreign, entries: map<string, Auth>, fs: seq<Field>, j: J)
    requires EncodeStruct(x, entries, fs) == Some(j)
    ensures j.JObj? && ((forall f | f in fs :: f.name !in entries) <==> j.members == map[])
  {
    hide EncodeValue;
    var names := FieldNames(fs);
    if f :| f in fs && f.name in entries {
      var i :| 0 <= i < |fs| && fs[i] == f;
      assert names[i] == f.name && f.name in j.members;
    }
  }

  predicate IsInt64(n: int) { -0x8000_0000_0000_0000 <= n < 0x8000_0000_0000_0000 }

  lemma ArrayShapeBack(x: Foreign, name: string, e: FieldType, n: int, j: J)
    requires j.JArr? && |j.items| == n
    ensures BackField(x, SchemaOf(name, Array(e, n)), j) ==
            if IsInt64(n) then BackItems(x, Print(e), [], j) else None
  {
    ShapeOfPrinted(Array(e, n));
    assert SchemaOf(name, Array(e, n)).fields == [];
    hide Print, ShapeOf, EncodeSlice, DecodeElem;
  }

  lemma ArrayFieldBack(x: Foreign, name: string, e: FieldType, n: int, a: Auth, j: J)
    requires Lawful(x) && DistinctIn(e) && EncodeValue(x, a, Array(e, n)) == Some(j)
    ensures BackField(x, SchemaOf(name, Array(e, n)), j) == Some(j) <==> Supported(x, a, Array(e, n))
    decreases e, 4
  {
    assert EncodeItems(x, a.items, e) == Some(j);
    ItemsEncoded(x, a.items, e, j);
    ArrayShapeBack(x, name, e, n, j);
    ElemOfPrinted(e);
    assert Supported(x, a, Array(e, n)) <==> IsInt64(n) && Flat(e) && forall i | i in a.items :: InArray(x, i, e);
    assert ElemOf(Print(e)).None? ==> BackItems(x, Print(e), [], j).None?;
    hide Print, BackField, BackItems, ElemOf, BackElem, Supported, EncodeValue, EncodeItems, DistinctIn, Lawful,
         InArray;
    if Flat(e) {
      forall i | 0 <= i < |a.items|
        ensures BackElem(x, Print(e), [], j.items[i]) == Some(j.items[i]) <==> InArray(x, a.items[i], e)
      {
        ArrayElemBack(x, e, a.items[i], j.items[i]);
      }
      ListBack(x, Print(e), [], a.items, j, i => InArray(x, i, e));
    }
  }

  lemma MapShape(x: Foreign, name: string, key: FieldType, e: FieldType, j: J)
    ensures BackField(x, SchemaOf(name, Map(key, e)), j) ==
            BackEntries(x, MapValue(Print(key) + "," + Print(e)), ElemFields(e), j)
  {
    ShapeOfPrinted(Map(key, e));
    assert SchemaOf(name, Map(key, e)).fields == ElemFields(e);
    hide Print, ShapeOf, ElemFields, DecodeEntries, EncodeEntries, MapValue;
  }

  lemma MapEncoded(x: Foreign, key: FieldType, e: FieldType, a: Auth, j: J)
    requires EncodeValue(x, a, Map(key, e)) == Some(j)
    ensures a.AMap? && j.JObj? && j.members.Keys == a.entries.Keys
    ensures forall k | k in a.entries :: EncodeValue(x, a.entries[k], e) == Some(j.members[k])
  {
  }

  lemma MapSupported(x: Foreign, key: FieldType, e: FieldType, a: Auth)
    requires a.AMap?
    ensures Supported(x, a, Map(key, e)) <==>
            forall k | k in a.entries :: Flat(e) && KeyReads(key, e) && Supported(x, a.entries[k], e)
  {
    hide KeyReads, ScalarSupported;
    if a.entries.Keys == {} {
      assert a.entries == map[];
    }
  }

  lemma NoElem(x: Foreign, typ: string, fields: seq<SchemaField>, r: J)
    requires ElemOf(typ).None?
    ensures BackElem(x, typ, fields, r).None?
  {
  }

  /** The value type as the worker reads it is the printed one, or unusable. */
  lemma MapElem(key: FieldType, e: FieldType)
    ensures var w := MapValue(Print(key) + "," + Print(e));
            if Flat(e) && KeyReads(key, e) then w == Print(e) else ElemOf(w).None?
  {
    hide Print, ElemOf;
    MapValuePrinted(key, e);
  }

  lemma MapFieldBack(x: Foreign, name: string, key: FieldType, e: FieldType, a: Auth, j: J)
    requires Lawful(x) && DistinctIn(e) && EncodeValue(x, a, Map(key, e)) == Some(j)
    ensures BackField(x, SchemaOf(name, Map(key, e)), j) == Some(j) <==> Supported(x, a, Map(key, e))
    decreases e, 4
  {
    hide Print, BackField, BackEntries, ElemFields, ElemOf, BackElem, Supported, EncodeValue, DistinctIn, Lawful,
         MapValue, KeyReads, SchemaOf;
    MapShape(x, name, key, e, j);
    MapElem(key, e);
    MapEncoded(x, key, e, a, j);
    MapSupported(x, key, e, a);
    var w, fields := MapValue(Print(key) + "," + Print(e)), ElemFields(e);
    EntriesBack(x, w, fields, j.members);
    forall k | k in a.entries
      ensures BackElem(x, w, fields, j.members[k]) == Some(j.members[k]) <==>
              Flat(e) && KeyReads(key, e) && Supported(x, a.entries[k], e)
    {
      if Flat(e) && KeyReads(key, e) {
        ElemBack(x, e, a.entries[k], j.members[k]);
      } else {
        NoElem(x, w, fields, j.members[k]);
      }
    }
  }

  lemma EnumFieldBack(x: Foreign, name: string, vs: seq<string>, a: Auth, j: J)
    requires EncodeValue(x, a, Enum(vs)) == Some(j)
    ensures BackField(x, SchemaOf(name, Enum(vs)), j) == Some(j) <==> Supported(x, a, Enum(vs))
  {
    ShapeOfPrinted(Enum(vs));
    hide ShapeOf, Print;
  }

  lemma {:induction false} SameVariant(vs: seq<Variant>, tag: string)
    ensures FindSchemaVariant(SchemaVariants(vs), tag) == FindVariant(vs, tag)
  {
    if vs != [] {
      SameVariant(vs[1..], tag);
    }
  }

  lemma SumFieldShape(x: Foreign, sf: SchemaField, j: J)
    requires ShapeOf(sf.typ) == SSum
    ensures BackField(x, sf, j) ==
            match DecodeSum(x, sf.variants, j) case None => None case Some(v) => EncodeSum(x, sf.variants, v)
  {
    hide ShapeOf, DecodeSum, EncodeSum;
  }

  lemma SumPayload(x: Foreign, svs: seq<SchemaVariant>, tag: string, p: J)
    requires FindSchemaVariant(svs, tag) >= 0
    ensures var sv := svs[FindSchemaVariant(svs, tag)];
            var j := JObj(map[tag := p]);
            (match DecodeSum(x, svs, j) case None => None case Some(v) => EncodeSum(x, svs, v)) ==
            if sv.payload.None? then Some(JObj(map[tag := JNull]))
            else match BackField(x, sv.payload.value, p) case None => None case Some(q) => Some(JObj(map[tag := q]))
  {
    hide DecodeField, EncodeField, FindSchemaVariant;
    OneMember(tag, p);
  }

  /** A sum travels as its payload does. */
  lemma SumShape(x: Foreign, name: string, vs: seq<Variant>, tag: string, p: J)
    requires FindVariant(vs, tag) >= 0
    ensures var v := vs[FindVariant(vs, tag)];
            var j := JObj(map[tag := p]);
            BackField(x, SchemaOf(name, Sum(vs)), j) == Some(j) <==>
            (if v.typ.None? then p == JNull else BackField(x, SchemaOf(v.name, v.typ.value), p) == Some(p))
  {
    ShapeOfPrinted(Sum(vs));
    SameVariant(vs, tag);
    var sf := SchemaOf(name, Sum(vs));
    assert sf.variants == SchemaVariants(vs);
    hide Print, ShapeOf, SchemaOf, SchemaVariants, FindVariant, FindSchemaVariant, BackField;
    SumFieldShape(x, sf, JObj(map[tag := p]));
    SumPayload(x, sf.variants, tag, p);
    assert map[tag := p][tag] == p && map[tag := JNull][tag] == JNull;
    var v := vs[FindVariant(vs, tag)];
    if v.typ.Some? {
      var q := BackField(x, SchemaOf(v.name, v.typ.value), p);
      if q.Some? {
        assert map[tag := q.value][tag] == q.value;
      }
    }
  }

  lemma SumFieldBack(x: Foreign, name: string, vs: seq<Variant>, a: Auth, j: J)
    requires Lawful(x) && DistinctIn(Sum(vs)) && EncodeValue(x, a, Sum(vs)) == Some(j)
    ensures BackField(x, SchemaOf(name, Sum(vs)), j) == Some(j) <==> Supported(x, a, Sum(vs))
    decreases Sum(vs), 4
  {
    var tag := OnlyKey(a.entries);
    var v := vs[FindVariant(vs, tag)];
    assert v in vs;
    if v.typ.None? {
      SumShape(x, name, vs, tag, JNull);
    } else {
      var p := EncodeValue(x, a.entries[tag], v.typ.value).value;
      SumShape(x, name, vs, tag, p);
      hide BackField, SchemaOf, Lawful, FindVariant;
      FieldBack(x, v.name, v.typ.value, a.entries[tag], p);
    }
  }

  lemma OneMember(tag: string, j: J)
    ensures |map[tag := j]| == 1 && OnlyMember(map[tag := j]) == tag
  {
    assert map[tag := j].Keys == {tag};
    assert OnlyMember(map[tag := j]) in {tag};
  }

  /** The whole statement for one field, by induction over its type. */
  lemma {:induction false} FieldBack(x: Foreign, name: string, t: FieldType, a: Auth, j: J)
    requires Lawful(x) && DistinctIn(t) && EncodeValue(x, a, t) == Some(j)
    ensures BackField(x, SchemaOf(name, t), j) == Some(j) <==> Supported(x, a, t)
    decreases t, 5
  {
    hide BackField, Supported, EncodeValue, Lawful;
    match t
    case Scalar(_) => PlainFieldBack(x, name, t, a, j);
    case Struct(_) => PlainFieldBack(x, name, t, a, j);
    case Optional(e) => OptionalBack(x, name, e, a, j);
    case List(e) => ListFieldBack(x, name, e, a, j);
    case Array(e, n) => ArrayFieldBack(x, name, e, n, a, j);
    case Map(key, e) => MapFieldBack(x, name, key, e, a, j);
    case Enum(vs) => EnumFieldBack(x, name, vs, a, j);
    case Sum(vs) => SumFieldBack(x, name, vs, a, j);
  }

  // ---- whole messages ------------------------------------------------------

  lemma EncodedData(x: Foreign, data: map<string, Auth>, schema: seq<Field>, sent: map<string, J>)
    requires EncodeData(x, data, schema) == Some(sent)
    ensures EncodeStruct(x, data, schema) == Some(JObj(sent)) || !Distinct(FieldNames(schema))
    ensures forall k | k in data :: k in FieldNames(schema)
  {
    hide EncodeValue;
    var names := FieldNames(schema);
    if Distinct(names) {
      forall i | 0 <= i < |schema| && schema[i].name in data
        ensures EncodeValue(x, data[schema[i].name], schema[i].typ).Some?
      {
        assert names[i] == schema[i].name;
        assert LastNamed(names, names[i]) == i;
      }
    }
  }

  /** The law of the codec. For every schema and every case the runner can encode, a
      worker that hands back what it decoded returns exactly what was sent if and only
      if every value of the case is in the supported fragment. */
  lemma RoundTripExactly(x: Foreign, data: map<string, Auth>, schema: seq<Field>, sent: map<string, J>)
    requires Lawful(x) && DistinctFields(schema) && EncodeData(x, data, schema) == Some(sent)
    ensures BackFields(x, JObj(sent), SchemaFields(schema)) == Some(JObj(sent)) <==>
            forall f | f in schema && f.name in data :: Supported(x, data[f.name], f.typ)
  {
    hide BackFields, EncodeStruct, EncodeData, Supported, SchemaFields;
    EncodedData(x, data, schema, sent);
    StructBack(x, data, schema, JObj(sent));
  }

  /** Integers are supported exactly when they are in range, for every integer kind. */
  lemma IntegersInRange(x: Foreign, k: Kind, n: int)
    requires Lawful(x) && (SmallInt(k) || TextInt(k))
    ensures Supported(x, AInt(n), Scalar(k)) <==> InRange(k, n)
  {
    hide InRange, IntText;
    assert x.format(AInt(n)) == IntText(n);
    if TextInt(k) {
      if m :| InRange(k, m) && IntText(n) == IntText(m) {
        ParseSignedOfText(n);
        ParseSignedOfText(m);
      }
    }
  }
}
