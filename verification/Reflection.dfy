/** Binding a Go struct to a field map (lib/go/serify/reflect.go), without converters:
    which stored values a field of a given type accepts, what filling a struct makes of
    them, and what extracting it stores again. */
module Reflection {
  import opened Common

  // ---- types and values ----------------------------------------------------

  /** The types with an arm of their own; `Big` is *big.Int. */
  datatype Base = U8 | U16 | U32 | U64 | I8 | I16 | I32 | I64 | F32 | F64 | Boolean | Str | Big

  datatype Payload = Whole(n: int) | Bits(bits: seq<byte>) | Truth(b: bool) | Chars(s: string) | NilBig

  /** Go types: `TMap` has string keys, `TAny` is the empty interface, `TMsg` is
      *FieldMap, and `TOther` stands for every type the binding does not know. */
  datatype T =
    | TBase(k: Base)
    | TAny
    | TMsg
    | TVariant
    | TSlice(e: T)
    | TArray(e: T, n: nat)
    | TMap(e: T)
    | TPtr(e: T)
    | TStruct(fields: seq<GField>)
    | TOther(name: string)

  /** A struct field under its tag or snake-case name; `embedded` means anonymous and
      without a tag. */
  datatype GField = GField(key: string, typ: T, embedded: bool)

  /** A Go value with its dynamic type; `Nil` is the untyped nil. A nil slice or map
      counts as an empty one. */
  datatype G =
    | Nil
    | Basic(k: Base, p: Payload)
    | Slice(e: T, items: seq<G>)
    | Array(e: T, items: seq<G>)
    | Map(e: T, entries: map<string, G>)
    | Ptr(e: T, to: Option<G>)
    | Struct(fields: seq<GField>, slots: seq<G>)
    | Msg(stored: map<string, G>)
    | Variant(tag: string, value: G)

  function TypeOf(g: G): Option<T> {
    match g
    case Nil => None
    case Basic(k, _) => Some(TBase(k))
    case Slice(e, _) => Some(TSlice(e))
    case Array(e, items) => Some(TArray(e, |items|))
    case Map(e, _) => Some(TMap(e))
    case Ptr(e, _) => Some(TPtr(e))
    case Struct(fields, _) => Some(TStruct(fields))
    case Msg(_) => Some(TMsg)
    case Variant(_, _) => Some(TVariant)
  }

  /** AssignableTo, for a value that is not the untyped nil. */
  predicate Assignable(g: G, t: T) { g != Nil && (t == TAny || TypeOf(g) == Some(t)) }

  /** ConvertibleTo and Convert between different types. */
  type Convert = (T, G) -> Option<G>

  ghost predicate Lawful(x: Convert) {
    forall t, g | x(t, g).Some? :: TypeOf(x(t, g).value) == Some(t)
  }

  function ZeroPayload(k: Base): Payload {
    match k
    case F32 => Bits([0, 0, 0, 0])
    case F64 => Bits([0, 0, 0, 0, 0, 0, 0, 0])
    case Boolean => Truth(false)
    case Str => Chars("")
    case Big => NilBig
    case _ => Whole(0)
  }

  function Zero(t: T): G
    decreases t, 1
  {
    match t
    case TBase(k) => Basic(k, ZeroPayload(k))
    case TSlice(e) => Slice(e, [])
    case TArray(e, n) => Array(e, seq(n, i => Zero(e)))
    case TMap(e) => Map(e, map[])
    case TPtr(e) => Ptr(e, None)
    case TStruct(fields) => Struct(fields, Zeros(fields))
    case _ => Nil
  }

  function Zeros(fs: seq<GField>): (slots: seq<G>)
    ensures |slots| == |fs| && forall i | 0 <= i < |fs| :: slots[i] == Zero(fs[i].typ)
    decreases fs, 0
  {
    if fs == [] then [] else [Zero(fs[0].typ)] + Zeros(fs[1..])
  }

  /** promotable: the fields of the embedded struct are flattened into this level. */
  predicate Promotable(f: GField) {
    f.embedded && (f.typ.TStruct? || (f.typ.TPtr? && f.typ.e.TStruct?))
  }

  function Promoted(f: GField): seq<GField>
    requires Promotable(f)
  {
    if f.typ.TStruct? then f.typ.fields else f.typ.e.fields
  }

  /** The types fill and extract have an arm for. */
  predicate Supported(t: T) { !t.TAny? && !t.TMsg? && !t.TVariant? && !t.TOther? }

  // ---- fill ----------------------------------------------------------------

  function Slots(g: G, fs: seq<GField>): (slots: seq<G>)
    ensures |slots| == |fs|
  {
    if g.Struct? && |g.slots| == |fs| then g.slots else Zeros(fs)
  }

  /** fill, from the first field on; the slots of missing keys stay. */
  function Fill(x: Convert, fs: seq<GField>, slots: seq<G>, fm: map<string, G>): (r: Option<seq<G>>)
    requires |slots| == |fs|
    ensures r.Some? ==> |r.value| == |fs|
    decreases fs, 0
  {
    if fs == [] then Some([])
    else
      match FillField(x, fs[0], slots[0], fm)
      case None => None
      case Some(v) =>
        match Fill(x, fs[1..], slots[1..], fm)
        case None => None
        case Some(vs) => Some([v] + vs)
  }

  function FillField(x: Convert, f: GField, slot: G, fm: map<string, G>): Option<G>
    decreases f, 2
  {
    if Promotable(f) then FillPromoted(x, f, slot, fm)
    else if f.key !in fm then Some(slot)
    else FillValue(x, f.typ, slot, fm[f.key])
  }

  /** An embedded struct reads the same field map; a nil embedded pointer is allocated. */
  function FillPromoted(x: Convert, f: GField, slot: G, fm: map<string, G>): Option<G>
    requires Promotable(f)
    decreases f, 1
  {
    var inner := if f.typ.TStruct? then slot else if slot.Ptr? && slot.to.Some? then slot.to.value else Zero(f.typ.e);
    match Fill(x, Promoted(f), Slots(inner, Promoted(f)), fm)
    case None => None
    case Some(vs) =>
      var s := Struct(Promoted(f), vs);
      Some(if f.typ.TStruct? then s else Ptr(f.typ.e, Some(s)))
  }

  /** A struct from a stored field map. */
  function FillStruct(x: Convert, t: T, slot: G, raw: G): Option<G>
    requires t.TStruct?
    decreases t, 1
  {
    if !raw.Msg? then None
    else
      match Fill(x, t.fields, Slots(slot, t.fields), raw.stored)
      case None => None
      case Some(vs) => Some(Struct(t.fields, vs))
  }

  /** setArrayElem. */
  function FillElem(x: Convert, e: T, slot: G, raw: G): Option<G>
    decreases e, 2
  {
    if e.TStruct? then (if raw.Msg? then FillStruct(x, e, slot, raw) else Some(slot))
    else if raw == Nil then Some(slot)
    else if Assignable(raw, e) then Some(raw)
    else x(e, raw)
  }

  /** The value of one map entry, or none where the entry is dropped; an error when a
      nested struct fails. */
  function FillEntry(x: Convert, e: T, raw: G): Result<Option<G>, ()>
    decreases e, 2
  {
    if e.TStruct? then
      if !raw.Msg? then Ok(None)
      else match FillStruct(x, e, Zero(e), raw) case None => Err(()) case Some(v) => Ok(Some(v))
    else if raw == Nil then Ok(None)
    else if Assignable(raw, e) then Ok(Some(raw))
    else Ok(x(e, raw))
  }

  function FillValue(x: Convert, t: T, slot: G, raw: G): Option<G>
    decreases t, 3
  {
    match t
    case TBase(_) => if TypeOf(raw) == Some(t) then Some(raw) else None
    case TStruct(_) => FillStruct(x, t, slot, raw)
    case TArray(e, n) => FillArray(x, e, n, slot, raw)
    case TSlice(e) =>
      if e.TStruct? then FillSlice(x, e, raw)
      else if TypeOf(raw) == Some(t) then Some(raw) else None
    case TMap(e) => FillMap(x, e, raw)
    case TPtr(e) => FillPtr(x, e, raw)
    case _ => None
  }

  /** The elements an array has before it is filled. */
  function Before(e: T, n: nat, slot: G): (items: seq<G>)
    ensures |items| == n
  {
    if slot.Array? && |slot.items| == n then slot.items else seq(n, i => Zero(e))
  }

  function FillArray(x: Convert, e: T, n: nat, slot: G, raw: G): Option<G>
    decreases e, 3
  {
    if !raw.Slice? || |raw.items| != n then None
    else
      var before := Before(e, n, slot);
      if forall i | 0 <= i < n :: FillElem(x, e, before[i], raw.items[i]).Some?
      then Some(Array(e, seq(n, i requires 0 <= i < n && FillElem(x, e, before[i], raw.items[i]).Some? =>
                               FillElem(x, e, before[i], raw.items[i]).value)))
      else None
  }

  /** A slice of structs from a []*FieldMap. */
  function FillSlice(x: Convert, e: T, raw: G): Option<G>
    requires e.TStruct?
    decreases e, 3
  {
    if !raw.Slice? || raw.e != TMsg then None
    else if forall i | 0 <= i < |raw.items| :: FillStruct(x, e, Zero(e), raw.items[i]).Some?
    then Some(Slice(e, seq(|raw.items|, i requires 0 <= i < |raw.items| &&
        FillStruct(x, e, Zero(e), raw.items[i]).Some? =>
                             FillStruct(x, e, Zero(e), raw.items[i]).value)))
    else None
  }

  /** A map from a map[string]any; entries that do not convert are dropped. */
  function FillMap(x: Convert, e: T, raw: G): Option<G>
    decreases e, 3
  {
    if !raw.Map? || raw.e != TAny then None
    else if forall k | k in raw.entries :: FillEntry(x, e, raw.entries[k]).Ok?
    then Some(Map(e, map k | k in raw.entries && FillEntry(x, e, raw.entries[k]).Ok? &&
        FillEntry(x, e, raw.entries[k]).value.Some? ::
                       FillEntry(x, e, raw.entries[k]).value.value))
    else None
  }

  /** An optional: nil, a nested struct, or the bare value. A *string also takes a
      stored *string. */
  function FillPtr(x: Convert, e: T, raw: G): Option<G>
    decreases e, 3
  {
    if raw == Nil then Some(Ptr(e, None))
    else if e.TStruct? && raw.Msg? then
      match FillStruct(x, e, Zero(e), raw) case None => None case Some(v) => Some(Ptr(e, Some(v)))
    else if e == TBase(Str) && TypeOf(raw) == Some(TPtr(e)) then Some(raw)
    else if Assignable(raw, e) then Some(Ptr(e, Some(raw)))
    else None
  }

  // ---- extract -------------------------------------------------------------

  /** extract: later fields write over earlier ones. */
  function Extract(fs: seq<GField>, slots: seq<G>): map<string, G>
    requires |slots| == |fs|
    decreases fs, 0
  {
    if fs == [] then map[]
    else ExtractField(fs[0], slots[0]) + Extract(fs[1..], slots[1..])
  }

  /** What one field stores. */
  function ExtractField(f: GField, slot: G): map<string, G>
    decreases f, 2
  {
    if Promotable(f) then
      if slot.Ptr? && slot.to.None? then map[]
      else Extract(Promoted(f), Slots(if slot.Ptr? then slot.to.value else slot, Promoted(f)))
    else
      match Out(f.typ, slot)
      case None => map[]
      case Some(g) => map[f.key := g]
  }

  function OutStruct(t: T, g: G): G
    requires t.TStruct?
    decreases t, 1
  {
    Msg(Extract(t.fields, Slots(g, t.fields)))
  }

  function Items(g: G): seq<G> { if g.Slice? || g.Array? then g.items else [] }

  /** extractElems. */
  function OutElems(e: T, items: seq<G>): (r: G)
    requires e.TStruct?
    ensures r.Slice? && r.e == TMsg && |r.items| == |items| &&
            forall i | 0 <= i < |items| :: r.items[i] == OutStruct(e, items[i])
    decreases e, 2
  {
    Slice(TMsg, seq(|items|, i requires 0 <= i < |items| => OutStruct(e, items[i])))
  }

  /** What a field of this type is stored as; nothing for a type without an arm. */
  function Out(t: T, g: G): Option<G>
    decreases t, 3
  {
    match t
    case TBase(_) => Some(g)
    case TStruct(_) => Some(OutStruct(t, g))
    case TArray(e, _) => Some(if e.TStruct? then OutElems(e, Items(g)) else Slice(e, Items(g)))
    case TSlice(e) => Some(if e.TStruct? then OutElems(e, Items(g)) else g)
    case TMap(e) => Some(OutMap(e, g))
    case TPtr(e) =>
      Some(if !g.Ptr? || g.to.None? then Nil
           else if e.TStruct? then OutStruct(e, g.to.value)
           else g.to.value)
    case _ => None
  }

  function OutMap(e: T, g: G): (r: G)
    ensures r.Map? && r.e == TAny
    decreases e, 2
  {
    if !g.Map? then Map(TAny, map[])
    else if e.TStruct? then Map(TAny, map k | k in g.entries :: OutStruct(e, g.entries[k]))
    else Map(TAny, g.entries)
  }

  // ---- what fits -----------------------------------------------------------

  /** The keys a struct occupies, embedded structs flattened. */
  function Keys(fs: seq<GField>): set<string>
    decreases fs, 0
  {
    if fs == [] then {} else FieldKeys(fs[0]) + Keys(fs[1..])
  }

  function FieldKeys(f: GField): set<string>
    decreases f, 1
  {
    if Promotable(f) then Keys(Promoted(f)) else if Supported(f.typ) then {f.key} else {}
  }

  /** Every field finds under its key a value of the stored form of its type. */
  predicate FitsFields(fs: seq<GField>, fm: map<string, G>)
    decreases fs, 0
  {
    fs != [] ==> FitsField(fs[0], fm) && FitsFields(fs[1..], fm)
  }

  predicate FitsField(f: GField, fm: map<string, G>)
    decreases f, 1
  {
    if Promotable(f) then FitsFields(Promoted(f), fm)
    else if Supported(f.typ) then f.key in fm && Fits(f.typ, fm[f.key])
    else f.key !in fm
  }

  /** Exactly the struct's keys, each with a fitting value. */
  predicate FitsModel(fs: seq<GField>, fm: map<string, G>)
    decreases fs, 1
  {
    fm.Keys == Keys(fs) && FitsFields(fs, fm)
  }

  predicate FitsStruct(t: T, raw: G)
    requires t.TStruct?
    decreases t, 0
  {
    raw.Msg? && FitsModel(t.fields, raw.stored)
  }

  /** The stored form of a type: scalars and slices under their own type, structs as
      field maps, arrays as slices of their length, maps as map[string]any. */
  predicate Fits(t: T, raw: G)
    decreases t, 1
  {
    match t
    case TBase(_) => TypeOf(raw) == Some(t)
    case TStruct(_) => FitsStruct(t, raw)
    case TArray(e, n) =>
      raw.Slice? && |raw.items| == n &&
      (if e.TStruct? then raw.e == TMsg && forall i | 0 <= i < n :: FitsStruct(e, raw.items[i])
       else raw.e == e && forall i | 0 <= i < n :: if raw.items[i] == Nil then Zero(e) ==
           Nil else Assignable(raw.items[i], e))
    case TSlice(e) =>
      if e.TStruct? then raw.Slice? && raw.e == TMsg && forall i | 0 <= i < |raw.items| :: FitsStruct(e, raw.items[i])
      else TypeOf(raw) == Some(t)
    case TMap(e) =>
      raw.Map? && raw.e == TAny && forall k | k in raw.entries :: if e.TStruct? then FitsStruct(e,
          raw.entries[k]) else Assignable(raw.entries[k], e)
    case TPtr(e) => raw == Nil || (if e.TStruct? then FitsStruct(e, raw) else Assignable(raw, e))
    case _ => false
  }
}
