/** The runner's half of the wire codec (internal/proto/proto.go): case data to wire
    values, and the schema a worker is bound with. */
module RunnerCodec {
  import opened Common
  import opened Text
  import opened TypeLang
  import opened WireValues

  /** One field of the schema in a bind message; the type travels as text. */
  datatype SchemaField = SchemaField(name: string, typ: string, fields: seq<SchemaField>, variants: seq<SchemaVariant>)

  datatype SchemaVariant = SchemaVariant(name: string, payload: Option<SchemaField>)

  // ---- the schema ----------------------------------------------------------

  function SchemaFields(fs: seq<Field>): (sfs: seq<SchemaField>)
    ensures |sfs| == |fs|
    ensures forall i | 0 <= i < |fs| :: sfs[i] == SchemaOf(fs[i].name, fs[i].typ)
    decreases fs
  {
    if fs == [] then [] else [SchemaOf(fs[0].name, fs[0].typ)] + SchemaFields(fs[1..])
  }

  function SchemaVariants(vs: seq<Variant>): (svs: seq<SchemaVariant>)
    ensures |svs| == |vs|
    ensures forall i | 0 <= i < |vs| ::
              svs[i].name == vs[i].name
              && svs[i].payload == if vs[i].typ.None? then None else Some(SchemaOf(vs[i].name, vs[i].typ.value))
    decreases vs
  {
    if vs == [] then []
    else
      var payload := if vs[0].typ.None? then None else Some(SchemaOf(vs[0].name, vs[0].typ.value));
      [SchemaVariant(vs[0].name, payload)] + SchemaVariants(vs[1..])
  }

  /** The nested schema of an element that is a struct, and nothing otherwise. */
  function ElemFields(t: FieldType): seq<SchemaField>
    decreases t, 0
  {
    if t.Struct? then SchemaFields(t.fields) else []
  }

  /** schemaFieldOfType; an array has no arm, so its element's fields are lost. */
  function SchemaOf(name: string, t: FieldType): SchemaField
    decreases t, 1
  {
    match t
    case Struct(_) => SchemaField(name, Print(t), ElemFields(t), [])
    case List(e) => SchemaField(name, Print(t), ElemFields(e), [])
    case Optional(e) => SchemaField(name, Print(t), ElemFields(e), [])
    case Map(_, e) => SchemaField(name, Print(t), ElemFields(e), [])
    case Sum(vs) => SchemaField(name, Print(t), [], SchemaVariants(vs))
    case _ => SchemaField(name, Print(t), [], [])
  }

  // ---- names ---------------------------------------------------------------

  function FieldNames(fs: seq<Field>): (names: seq<string>)
    ensures |names| == |fs| && forall i | 0 <= i < |fs| :: names[i] == fs[i].name
  {
    seq(|fs|, i requires 0 <= i < |fs| => fs[i].name)
  }

  /** Where a name stands last in a list of names: a later entry wins. */
  function LastNamed(names: seq<string>, k: string): (i: nat)
    requires k in names
    ensures i < |names| && names[i] == k
    ensures forall j | i < j < |names| :: names[j] != k
  {
    if names[|names| - 1] == k then |names| - 1 else LastNamed(names[..|names| - 1], k)
  }

  /** One name more: it is the last of its name now, the others stay where they were. */
  lemma NamesSnoc(names: seq<string>, n: nat)
    requires n < |names|
    ensures names[..n + 1] == names[..n] + [names[n]]
    ensures forall k | k in names[..n] ::
              LastNamed(names[..n + 1], k) == if k == names[n] then n else LastNamed(names[..n], k)
    ensures LastNamed(names[..n + 1], names[n]) == n
  {
    assert names[..n + 1][..n] == names[..n];
  }

  ghost predicate Distinct(names: seq<string>) {
    forall i, j | 0 <= i < j < |names| :: names[i] != names[j]
  }

  /** Field names are distinct at every level of a schema. */
  ghost predicate DistinctFields(fs: seq<Field>)
    decreases fs
  {
    Distinct(FieldNames(fs)) && forall f | f in fs :: DistinctIn(f.typ)
  }

  ghost predicate DistinctIn(t: FieldType)
    decreases t
  {
    match t
    case Struct(fs) => DistinctFields(fs)
    case Optional(e) => DistinctIn(e)
    case List(e) => DistinctIn(e)
    case Array(e, _) => DistinctIn(e)
    case Map(_, e) => DistinctIn(e)
    case Sum(vs) => forall v | v in vs && v.typ.Some? :: DistinctIn(v.typ.value)
    case _ => true
  }

  /** The first variant with this tag. */
  function FindVariant(vs: seq<Variant>, tag: string): (i: int)
    ensures -1 <= i < |vs|
    ensures i >= 0 ==> vs[i].name == tag && forall j | 0 <= j < i :: vs[j].name != tag
    ensures i < 0 ==> forall j | 0 <= j < |vs| :: vs[j].name != tag
  {
    if vs == [] then -1
    else if vs[0].name == tag then 0
    else
      var i := FindVariant(vs[1..], tag);
      if i < 0 then -1 else i + 1
  }

  // ---- values --------------------------------------------------------------

  /** toInt: an integer, or a float that is one. */
  function ToInt(a: Auth): Option<int> {
    match a
    case AInt(n) => Some(n)
    case AFloat(r) => if r.Floor as real == r then Some(r.Floor) else None
    case _ => None
  }

  /** The bytes of an authored byte list. */
  function ByteList(items: seq<Auth>): (bs: Option<seq<byte>>)
    ensures bs.Some? ==> |bs.value| == |items|
  {
    if items == [] then Some([])
    else
      var n, rest := ToInt(items[0]), ByteList(items[1..]);
      if n.None? || !(0 <= n.value < 256) || rest.None? then None else Some([n.value] + rest.value)
  }

  function EncodeScalar(x: Foreign, k: Kind, a: Auth): Option<J> {
    match k
    case Float32 => (match x.floatBytes(a, false) case None => None case Some(bs) => Some(JStr(HexEncode(bs))))
    case Float64 => (match x.floatBytes(a, true) case None => None case Some(bs) => Some(JStr(HexEncode(bs))))
    case Bytes =>
      (match a
       case AStr(s) => Some(JStr(s))
       case AList(items) => (match ByteList(items) case None => None case Some(bs) => Some(JStr(HexEncode(bs))))
       case _ => None)
    case _ => if TextInt(k) then Some(JStr(x.format(a))) else ToJson(a)
  }

  /** encodeValue, and what the JSON round trip makes of its result. None is an
      error; which of several is reported depends on map order. */
  function EncodeValue(x: Foreign, a: Auth, t: FieldType): Option<J>
    decreases t, 0
  {
    match t
    case Scalar(k) => EncodeScalar(x, k, a)
    case Struct(fs) => if a.AMap? then EncodeStruct(x, a.entries, fs) else None
    case Optional(e) => if a.ANull? then Some(JNull) else EncodeValue(x, a, e)
    case List(e) => if a.AList? then EncodeItems(x, a.items, e) else None
    case Array(e, n) => if a.AList? && |a.items| == n then EncodeItems(x, a.items, e) else None
    case Map(_, e) =>
      if a.AMap? && forall k | k in a.entries :: EncodeValue(x, a.entries[k], e).Some?
      then Some(JObj(map k | k in a.entries :: EncodeValue(x, a.entries[k], e).value))
      else None
    case Enum(_) => if a.AStr? then Some(JStr(a.s)) else None
    case Sum(vs) =>
      if !a.AMap? || |a.entries| != 1 then None
      else
        var tag := OnlyKey(a.entries);
        var i := FindVariant(vs, tag);
        if i < 0 then None
        else if vs[i].typ.None? then Some(JObj(map[tag := JNull]))
        else
          match EncodeValue(x, a.entries[tag], vs[i].typ.value)
          case None => None
          case Some(j) => Some(JObj(map[tag := j]))
  }

  function EncodeItems(x: Foreign, items: seq<Auth>, e: FieldType): Option<J>
    decreases e, 1
  {
    if forall i | 0 <= i < |items| :: EncodeValue(x, items[i], e).Some?
    then Some(JArr(seq(|items|, i requires 0 <= i < |items| && EncodeValue(x, items[i], e).Some? =>
                         EncodeValue(x, items[i], e).value)))
    else None
  }

  /** The declared fields that are present; other keys are dropped. */
  function EncodeStruct(x: Foreign, entries: map<string, Auth>, fs: seq<Field>): Option<J>
    decreases fs, 1
  {
    if forall i | 0 <= i < |fs| && fs[i].name in entries :: EncodeValue(x, entries[fs[i].name], fs[i].typ).Some?
    then
      var names := FieldNames(fs);
      Some(JObj(map k | k in entries && k in names ::
                  EncodeValue(x, entries[k], fs[LastNamed(names, k)].typ).value))
    else None
  }

  lemma SingletonKey(m: map<string, Auth>)
    requires |m| == 1
    ensures exists k :: m.Keys == {k}
  {
    var k :| k in m;
    assert |m.Keys - {k}| == 0;
    assert m.Keys == {k};
  }

  /** The key of a map with one entry. */
  function OnlyKey(m: map<string, Auth>): (k: string)
    requires |m| == 1
    ensures m.Keys == {k}
  {
    SingletonKey(m);
    var k :| m.Keys == {k};
    k
  }

  /** EncodeData: every key must be a field of the schema. */
  function EncodeData(x: Foreign, data: map<string, Auth>, schema: seq<Field>): Option<map<string, J>> {
    var names := FieldNames(schema);
    if forall k | k in data :: k in names && EncodeValue(x, data[k], schema[LastNamed(names, k)].typ).Some?
    then Some(map k | k in data && k in names :: EncodeValue(x, data[k], schema[LastNamed(names, k)].typ).value)
    else None
  }
}
