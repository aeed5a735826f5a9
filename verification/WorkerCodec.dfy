/** The Go worker's half of the wire codec (lib/go/serify/protocol.go): what a field
    map stores for a wire value, and back. */
module WorkerCodec {
  import opened Common
  import opened Text
  import opened TypeLang
  import opened WireValues
  import opened RunnerCodec

  // ---- reading the type text -----------------------------------------------

  /** The constructor a type text starts with, and the pieces the codec cuts out. */
  datatype Shape =
    | SList(elem: string)
    | SOptional(elem: string)
    | SArray(elem: string, len: Option<int>)
    | SMap(value: string)
    | SEnum
    | SSum
    | SPlain

  predicate Starts(typ: string, f: Former) {
    var w := FormerName(f) + "<";
    |typ| > |w| && typ[..|w|] == w
  }

  /** The text between the first '<' and the last character. */
  function Inside(typ: string, f: Former): string
    requires Starts(typ, f)
  {
    typ[|FormerName(f)| + 1..|typ| - 1]
  }

  /** mapValueType. */
  function MapValue(inner: string): string {
    match KeyValue(inner) case None => "" case Some(kv) => kv.value
  }

  /** arrayElemType and arrayLen. */
  function ArrayShape(inner: string): Shape {
    var comma := LastComma(inner);
    if comma < 0 then SArray(Trim(inner), None)
    else SArray(Trim(inner[..comma]), Atoi(Trim(inner[comma + 1..])))
  }

  /** The prefix switch of decodeField and encodeField. */
  function ShapeOf(typ: string): Shape {
    if Starts(typ, FList) then SList(Inside(typ, FList))
    else if Starts(typ, FOptional) then SOptional(Inside(typ, FOptional))
    else if Starts(typ, FArray) then ArrayShape(Inside(typ, FArray))
    else if Starts(typ, FMap) then SMap(MapValue(Inside(typ, FMap)))
    else if Starts(typ, FEnum) then SEnum
    else if Starts(typ, FSum) then SSum
    else SPlain
  }

  /** The element types the scalar switch knows. */
  function ElemOf(typ: string): Option<Elem> {
    match KindOf(typ)
    case Some(k) => Some(EKind(k))
    case None => if typ == STRUCT then Some(EStruct) else None
  }

  /** Both 128-bit kinds are collected into the same Go slice type. */
  function SliceOf(e: Elem): Elem {
    if e == EKind(Int128) then EKind(Uint128) else e
  }

  function FindSchemaVariant(svs: seq<SchemaVariant>, tag: string): (i: int)
    ensures -1 <= i < |svs|
    ensures i >= 0 ==> svs[i].name == tag && forall j | 0 <= j < i :: svs[j].name != tag
    ensures i < 0 ==> forall j | 0 <= j < |svs| :: svs[j].name != tag
  {
    if svs == [] then -1
    else if svs[0].name == tag then 0
    else
      var i := FindSchemaVariant(svs[1..], tag);
      if i < 0 then -1 else i + 1
  }

  function SchemaNames(sfs: seq<SchemaField>): (names: seq<string>)
    ensures |names| == |sfs| && forall i | 0 <= i < |sfs| :: names[i] == sfs[i].name
  {
    seq(|sfs|, i requires 0 <= i < |sfs| => sfs[i].name)
  }

  // ---- decoding ------------------------------------------------------------

  /** A JSON string; null reads as the empty one. */
  function TextOf(r: J): Option<string> {
    match r case JStr(s) => Some(s) case JNull => Some("") case _ => None
  }

  function IntText64(k: Kind, s: string): Option<int> {
    var n := if k == Uint64 then ParseUnsigned(s) else ParseSigned(s);
    if n.Some? && InRange(k, n.value) then n else None
  }

  function FloatBits(wide: bool, s: string): Option<V> {
    match HexDecode(s)
    case None => None
    case Some(bs) => if |bs| == (if wide then 8 else 4) then Some(VFloat(wide, bs)) else None
  }

  /** The scalar arms of decodeScalar. JSON null decodes to the zero value. */
  function DecodeKind(x: Foreign, k: Kind, r: J): Option<V> {
    match k
    case Bool => (match r case JBool(b) => Some(VBool(b)) case JNull => Some(VBool(false)) case _ => None)
    case String => (match TextOf(r) case None => None case Some(s) => Some(VStr(s)))
    case Bytes =>
      (match TextOf(r)
       case None => None
       case Some(s) => (match HexDecode(s) case None => None case Some(bs) => Some(VBytes(bs))))
    case Float32 => (match TextOf(r) case None => None case Some(s) => FloatBits(false, s))
    case Float64 => (match TextOf(r) case None => None case Some(s) => FloatBits(true, s))
    case Uint64 => DecodeText(k, r)
    case Int64 => DecodeText(k, r)
    case Uint128 => DecodeText(k, r)
    case Int128 => DecodeText(k, r)
    case _ =>
      (match r
       case JNum(n) => Some(VInt(k, ConvertTo(x, k, n)))
       case JNull => Some(VInt(k, 0))
       case _ => None)
  }

  /** uintFromString, intFromString and bigFromString. */
  function DecodeText(k: Kind, r: J): Option<V> {
    match TextOf(r)
    case None => None
    case Some(s) =>
      match IntText64(k, s)
      case None => None
      case Some(n) => Some(if k == Uint64 || k == Int64 then VInt(k, n) else VBig(n))
  }

  /** decodeScalar: a scalar, or a nested struct. */
  function DecodeElem(x: Foreign, typ: string, fields: seq<SchemaField>, r: J): Option<V>
    decreases r, 1
  {
    match ElemOf(typ)
    case None => None
    case Some(EKind(k)) => DecodeKind(x, k, r)
    case Some(EStruct) => DecodeFields(x, r, fields)
  }

  /** DecodeFieldMap on a JSON value: every declared field that is present. */
  function DecodeFields(x: Foreign, r: J, schema: seq<SchemaField>): Option<V>
    decreases r, 0
  {
    match r
    case JNull => Some(VMessage(map[]))
    case JObj(members) =>
      var names := SchemaNames(schema);
      if forall i | 0 <= i < |schema| && schema[i].name in members ::
           DecodeField(x, schema[i], members[schema[i].name]).Some?
      then Some(VMessage(map k | k in members && k in names ::
                           DecodeField(x, schema[LastNamed(names, k)], members[k]).value))
      else None
    case _ => None
  }

  /** collectList over decodeScalar. */
  function DecodeItems(x: Foreign, typ: string, fields: seq<SchemaField>, r: J): Option<V>
    decreases r, 2
  {
    match ElemOf(typ)
    case None => None
    case Some(e) =>
      match r
      case JNull => Some(VSlice(SliceOf(e), []))
      case JArr(items) =>
        if forall i | 0 <= i < |items| :: DecodeElem(x, typ, fields, items[i]).Some?
        then Some(VSlice(SliceOf(e), seq(|items|, i requires 0 <= i < |items| &&
            DecodeElem(x, typ, fields, items[i]).Some? =>
                                           DecodeElem(x, typ, fields, items[i]).value)))
        else None
      case _ => None
  }

  /** decodeMap. */
  function DecodeEntries(x: Foreign, typ: string, fields: seq<SchemaField>, r: J): Option<V>
    decreases r, 2
  {
    match r
    case JNull => Some(VDict(map[]))
    case JObj(members) =>
      if forall k | k in members :: DecodeElem(x, typ, fields, members[k]).Some?
      then Some(VDict(map k | k in members :: DecodeElem(x, typ, fields, members[k]).value))
      else None
    case _ => None
  }

  /** decodeSum: exactly one declared tag; the payload goes through decodeField. */
  function DecodeSum(x: Foreign, svs: seq<SchemaVariant>, r: J): Option<V>
    decreases r, 2
  {
    if !r.JObj? || |r.members| != 1 then None
    else
      var tag := OnlyMember(r.members);
      var i := FindSchemaVariant(svs, tag);
      if i < 0 then None
      else if svs[i].payload.None? then Some(VVariant(tag, VNil))
      else
        match DecodeField(x, svs[i].payload.value, r.members[tag])
        case None => None
        case Some(v) => Some(VVariant(tag, v))
  }

  function DecodeField(x: Foreign, sf: SchemaField, r: J): Option<V>
    decreases r, 3
  {
    match ShapeOf(sf.typ)
    case SList(e) => DecodeItems(x, e, sf.fields, r)
    case SOptional(e) => if r == JNull then Some(VNil) else DecodeElem(x, e, sf.fields, r)
    case SArray(e, n) =>
      (match DecodeItems(x, e, sf.fields, r)
       case None => None
       case Some(v) => if n.Some? && v.VSlice? && |v.items| == n.value then Some(v) else None)
    case SMap(e) => DecodeEntries(x, e, sf.fields, r)
    case SEnum => (match TextOf(r) case None => None case Some(s) => Some(VStr(s)))
    case SSum => DecodeSum(x, sf.variants, r)
    case SPlain => DecodeElem(x, sf.typ, sf.fields, r)
  }

  lemma SingletonMember(m: map<string, J>)
    requires |m| == 1
    ensures exists k :: m.Keys == {k}
  {
    var k :| k in m;
    assert |m.Keys - {k}| == 0;
    assert m.Keys == {k};
  }

  function OnlyMember(m: map<string, J>): (k: string)
    requires |m| == 1
    ensures m.Keys == {k}
  {
    SingletonMember(m);
    var k :| m.Keys == {k};
    k
  }

  // ---- encoding ------------------------------------------------------------

  /** The JSON form of a stored value that is sent as it is. */
  function PlainJson(x: Foreign, v: V): Option<J> {
    match v
    case VNil => Some(JNull)
    case VBool(b) => Some(JBool(b))
    case VInt(_, n) => Some(JNum(n as real))
    case VStr(s) => Some(JStr(s))
    case _ => x.json(v)
  }

  /** The scalar arms of encodeScalar. */
  function EncodeKind(x: Foreign, k: Kind, v: V): Option<J> {
    match k
    case Uint64 => if v.VInt? && v.kind == Uint64 then Some(JStr(IntText(v.n))) else None
    case Int64 => if v.VInt? && v.kind == Int64 then Some(JStr(IntText(v.n))) else None
    case Uint128 => if v.VBig? then Some(JStr(IntText(v.n))) else None
    case Int128 => if v.VBig? then Some(JStr(IntText(v.n))) else None
    case Float32 => if v.VFloat? && !v.wide then Some(JStr(HexEncode(v.bits))) else None
    case Float64 => if v.VFloat? && v.wide then Some(JStr(HexEncode(v.bits))) else None
    case Bytes => if v.VBytes? then Some(JStr(HexEncode(v.bs))) else None
    case _ => PlainJson(x, v)
  }

  function EncodeElem(x: Foreign, typ: string, fields: seq<SchemaField>, v: V): Option<J>
    decreases v, 1
  {
    match ElemOf(typ)
    case None => None
    case Some(EKind(k)) => EncodeKind(x, k, v)
    case Some(EStruct) => EncodeFields(x, v, fields)
  }

  /** EncodeFieldMap. */
  function EncodeFields(x: Foreign, v: V, schema: seq<SchemaField>): Option<J>
    decreases v, 0
  {
    if !v.VMessage? then None
    else
      var names := SchemaNames(schema);
      if forall i | 0 <= i < |schema| && schema[i].name in v.fields ::
           EncodeField(x, schema[i], v.fields[schema[i].name]).Some?
      then Some(JObj(map k | k in v.fields && k in names ::
                       EncodeField(x, schema[LastNamed(names, k)], v.fields[k]).value))
      else None
  }

  /** encodeEachList over encodeScalar. */
  function EncodeSlice(x: Foreign, typ: string, fields: seq<SchemaField>, v: V): Option<J>
    decreases v, 2
  {
    match ElemOf(typ)
    case None => None
    case Some(e) =>
      if v.VSlice? && v.elem == SliceOf(e)
         && forall i | 0 <= i < |v.items| :: EncodeElem(x, typ, fields, v.items[i]).Some?
      then Some(JArr(seq(|v.items|, i requires 0 <= i < |v.items| && EncodeElem(x, typ, fields, v.items[i]).Some? =>
                           EncodeElem(x, typ, fields, v.items[i]).value)))
      else None
  }

  function EncodeEntries(x: Foreign, typ: string, fields: seq<SchemaField>, v: V): Option<J>
    decreases v, 2
  {
    if v.VDict? && forall k | k in v.entries :: EncodeElem(x, typ, fields, v.entries[k]).Some?
    then Some(JObj(map k | k in v.entries :: EncodeElem(x, typ, fields, v.entries[k]).value))
    else None
  }

  function EncodeSum(x: Foreign, svs: seq<SchemaVariant>, v: V): Option<J>
    decreases v, 2
  {
    if !v.VVariant? then None
    else
      var i := FindSchemaVariant(svs, v.tag);
      if i < 0 then None
      else if svs[i].payload.None? then Some(JObj(map[v.tag := JNull]))
      else
        match EncodeField(x, svs[i].payload.value, v.value)
        case None => None
        case Some(j) => Some(JObj(map[v.tag := j]))
  }

  function EncodeField(x: Foreign, sf: SchemaField, v: V): Option<J>
    decreases v, 3
  {
    match ShapeOf(sf.typ)
    case SList(e) => EncodeSlice(x, e, sf.fields, v)
    case SOptional(e) =>
      if v == VNil then Some(JNull)
      else if ElemOf(e) == Some(EKind(String)) then (if v.VStr? then Some(JStr(v.s)) else None)
      else EncodeElem(x, e, sf.fields, v)
    case SArray(e, _) => EncodeSlice(x, e, sf.fields, v)
    case SMap(e) => EncodeEntries(x, e, sf.fields, v)
    case SEnum => if v.VStr? then Some(JStr(v.s)) else None
    case SSum => EncodeSum(x, sf.variants, v)
    case SPlain => EncodeElem(x, sf.typ, sf.fields, v)
  }

  // ---- one value there and back --------------------------------------------

  /** Decoding a wire value and encoding what was stored. */
  function BackElem(x: Foreign, typ: string, fields: seq<SchemaField>, r: J): Option<J> {
    match DecodeElem(x, typ, fields, r) case None => None case Some(v) => EncodeElem(x, typ, fields, v)
  }

  function BackField(x: Foreign, sf: SchemaField, r: J): Option<J> {
    match DecodeField(x, sf, r) case None => None case Some(v) => EncodeField(x, sf, v)
  }

  function BackFields(x: Foreign, r: J, schema: seq<SchemaField>): Option<J> {
    match DecodeFields(x, r, schema) case None => None case Some(v) => EncodeFields(x, v, schema)
  }
}
