/** From the wire into a Go struct and back: what the worker decodes under a schema is
    what the struct written for that schema takes. */
module ModelPath {
  import opened Common
  import opened TypeLang
  import opened WireValues
  import opened RunnerCodec
  import opened WorkerCodec
  import opened WireRoundTrip
  import R = Reflection
  import Binding = ReflectRoundTrip

  // ---- the struct for a schema ---------------------------------------------

  function KindType(k: Kind): R.T {
    match k
    case Uint8 => R.TBase(R.U8) case Uint16 => R.TBase(R.U16)
    case Uint32 => R.TBase(R.U32) case Uint64 => R.TBase(R.U64)
    case Int8 => R.TBase(R.I8) case Int16 => R.TBase(R.I16)
    case Int32 => R.TBase(R.I32) case Int64 => R.TBase(R.I64)
    case Uint128 => R.TBase(R.Big) case Int128 => R.TBase(R.Big)
    case Float32 => R.TBase(R.F32) case Float64 => R.TBase(R.F64)
    case Bool => R.TBase(R.Boolean) case String => R.TBase(R.Str)
    case Bytes => R.TSlice(R.TBase(R.U8))
  }

  /** A sum needs a converter, and an array of structs loses its nested schema. */
  predicate Modelled(t: FieldType)
    decreases t
  {
    match t
    case Scalar(_) => true
    case Struct(fs) => forall f | f in fs :: Modelled(f.typ)
    case Optional(e) => Flat(e) && Modelled(e)
    case List(e) => Flat(e) && Modelled(e)
    case Array(e, n) => e.Scalar? && 0 <= n
    case Map(key, e) => Flat(e) && KeyReads(key, e) && Modelled(e)
    case Enum(_) => true
    case Sum(_) => false
  }

  /** The type a worker declares a field with; an optional is a pointer. */
  function GoType(t: FieldType): R.T
    decreases t
  {
    match t
    case Scalar(k) => KindType(k)
    case Struct(fs) => R.TStruct(GoFields(fs))
    case Optional(e) => R.TPtr(GoType(e))
    case List(e) => R.TSlice(GoType(e))
    case Array(e, n) => R.TArray(GoType(e), if n < 0 then 0 else n)
    case Map(_, e) => R.TMap(GoType(e))
    case Enum(_) => R.TBase(R.Str)
    case Sum(_) => R.TOther("sum")
  }

  function GoFields(fs: seq<Field>): (gs: seq<R.GField>)
    ensures |gs| == |fs| && forall i | 0 <= i < |fs| :: gs[i] == R.GField(fs[i].name, GoType(fs[i].typ), false)
    decreases fs
  {
    if fs == [] then [] else [R.GField(fs[0].name, GoType(fs[0].typ), false)] + GoFields(fs[1..])
  }

  // ---- stored values as Go values ------------------------------------------

  function ElemType(e: Elem): R.T {
    match e case EKind(k) => KindType(k) case EStruct => R.TMsg
  }

  function IntBase(k: Kind): R.Base {
    match KindType(k) case TBase(b) => b case _ => R.Big
  }

  function Stored(v: V): R.G
    decreases v, 1
  {
    match v
    case VNil => R.Nil
    case VBool(b) => R.Basic(R.Boolean, R.Truth(b))
    case VInt(k, n) => R.Basic(IntBase(k), R.Whole(n))
    case VBig(n) => R.Basic(R.Big, R.Whole(n))
    case VFloat(wide, bits) => R.Basic(if wide then R.F64 else R.F32, R.Bits(bits))
    case VStr(s) => R.Basic(R.Str, R.Chars(s))
    case VBytes(bs) => R.Slice(R.TBase(R.U8), seq(|bs|, i requires 0 <= i < |bs| => R.Basic(R.U8, R.Whole(bs[i]))))
    case VMessage(_) => R.Msg(StoredFields(v))
    case VSlice(e, items) => R.Slice(ElemType(e), seq(|items|, i requires 0 <= i < |items| => Stored(items[i])))
    case VDict(entries) => R.Map(R.TAny, map k | k in entries :: Stored(entries[k]))
    case VVariant(tag, value) => R.Variant(tag, Stored(value))
  }

  function StoredFields(v: V): (fm: map<string, R.G>)
    requires v.VMessage?
    ensures fm.Keys == v.fields.Keys && forall k | k in fm :: fm[k] == Stored(v.fields[k])
    decreases v, 0
  {
    map k | k in v.fields :: Stored(v.fields[k])
  }

  /** Every struct in the wire value has all its fields. */
  predicate Complete(t: FieldType, r: J)
    decreases t
  {
    match t
    case Struct(fs) => r.JObj? && forall f | f in fs :: f.name in r.members && Complete(f.typ, r.members[f.name])
    case Optional(e) => r == JNull || Complete(e, r)
    case List(e) => r.JArr? ==> forall i | i in r.items :: Complete(e, i)
    case Map(_, e) => r.JObj? ==> forall k | k in r.members :: Complete(e, r.members[k])
    case _ => true
  }

  // ---- what is decoded fits ------------------------------------------------

  lemma KindFits(x: Foreign, k: Kind, r: J)
    requires DecodeKind(x, k, r).Some?
    ensures var g := Stored(DecodeKind(x, k, r).value);
            g != R.Nil && R.TypeOf(g) == Some(KindType(k)) && R.Fits(KindType(k), g)
  {
  }

  ghost predicate SameNames(ks: set<string>, names: seq<string>) { forall k :: k in ks <==> k in names }

  lemma OneMoreName(n: string, ks: set<string>, names: seq<string>)
    requires SameNames(ks, names)
    ensures SameNames({n} + ks, [n] + names)
  {
  }

  lemma ModelledTail(fs: seq<Field>)
    requires fs != [] && Modelled(Struct(fs))
    ensures Modelled(fs[0].typ) && Modelled(Struct(fs[1..]))
  {
    assert fs[0] in fs && forall f | f in fs[1..] :: f in fs;
  }

  lemma {:induction false} KeysOfFields(fs: seq<Field>)
    requires Modelled(Struct(fs))
    ensures SameNames(R.Keys(GoFields(fs)), FieldNames(fs))
    decreases fs
  {
    hide Modelled, GoType, SameNames, R.FieldKeys, R.Supported, R.Promotable;
    if fs == [] {
      assert SameNames({}, []) by { NoNames(); }
      assert FieldNames(fs) == [];
    } else {
      var gs := GoFields(fs);
      assert gs[1..] == GoFields(fs[1..]);
      ModelledTail(fs);
      SupportedType(fs[0].typ);
      OneKey(fs[0].name, GoType(fs[0].typ));
      KeysOfFields(fs[1..]);
      assert R.Keys(gs) == {fs[0].name} + R.Keys(gs[1..]);
      assert FieldNames(fs) == [fs[0].name] + FieldNames(fs[1..]);
      OneMoreName(fs[0].name, R.Keys(gs[1..]), FieldNames(fs[1..]));
    }
  }

  lemma NoNames()
    ensures SameNames({}, [])
  {
  }

  lemma OneKey(name: string, t: R.T)
    requires R.Supported(t)
    ensures R.FieldKeys(R.GField(name, t, false)) == {name}
  {
  }

  lemma SupportedType(t: FieldType)
    requires Modelled(t)
    ensures R.Supported(GoType(t))
  {
  }

  lemma FieldsFit(fs: seq<Field>, fm: map<string, R.G>)
    requires forall f | f in fs :: Modelled(f.typ) && f.name in fm && R.Fits(GoType(f.typ), fm[f.name])
    ensures R.FitsFields(GoFields(fs), fm)
    decreases fs
  {
    hide Modelled, GoType, R.Fits;
    if fs != [] {
      var gs := GoFields(fs);
      assert gs[1..] == GoFields(fs[1..]);
      assert fs[0] in fs && forall f | f in fs[1..] :: f in fs;
      SupportedType(fs[0].typ);
      FieldsFit(fs[1..], fm);
    }
  }

  /** A decoded struct. */
  lemma {:induction false} StructFits(x: Foreign, fs: seq<Field>, r: J)
    requires DistinctFields(fs) && Modelled(Struct(fs)) && Complete(Struct(fs), r)
    requires DecodeFields(x, r, SchemaFields(fs)).Some?
    ensures var v := DecodeFields(x, r, SchemaFields(fs)).value;
            v.VMessage? && R.FitsModel(GoFields(fs), StoredFields(v))
    decreases fs, 1
  {
    hide DecodeField, GoType, SchemaOf, DecodeFields, R.Fits, R.FitsFields, R.Keys, GoFields, SchemaFields, Print;
    var v := DecodeFields(x, r, SchemaFields(fs)).value;
    SchemaFieldNames(fs);
    DecodedFields(x, r.members, SchemaFields(fs));
    var fm := StoredFields(v);
    forall f | f in fs ensures Modelled(f.typ) && f.name in fm && R.Fits(GoType(f.typ), fm[f.name]) {
      var i :| 0 <= i < |fs| && fs[i] == f;
      var sf := SchemaFields(fs)[i];
      assert sf in SchemaFields(fs);
      SchemaName(f.name, f.typ);
      assert sf == SchemaOf(f.name, f.typ) && sf.name == f.name;
      FieldFits(x, f.name, f.typ, r.members[f.name]);
    }
    hide Complete, Stored, DistinctFields, Distinct, DistinctIn;
    FieldsFit(fs, fm);
    hide Modelled;
    KeysOfFields(fs);
    AllNamed(fs, fm, R.Keys(GoFields(fs)));
  }

  lemma AllNamed(fs: seq<Field>, fm: map<string, R.G>, ks: set<string>)
    requires SameNames(ks, FieldNames(fs)) && (forall f | f in fs :: f.name in fm) &&
             forall k | k in fm :: k in FieldNames(fs)
    ensures fm.Keys == ks
  {
    forall k | k in FieldNames(fs) ensures k in fm {
      var i :| 0 <= i < |fs| && FieldNames(fs)[i] == k;
      assert fs[i] in fs;
    }
  }

  /** A decoded container element. */
  lemma {:induction false} ElemFits(x: Foreign, e: FieldType, r: J)
    requires Flat(e) && DistinctIn(e) && Modelled(e) && Complete(e, r)
    requires DecodeElem(x, Print(e), ElemFields(e), r).Some?
    ensures var g := Stored(DecodeElem(x, Print(e), ElemFields(e), r).value);
            g != R.Nil && R.Fits(GoType(e), g) && (e.Struct? || R.TypeOf(g) == Some(GoType(e)))
    decreases e, 2
  {
    hide DecodeKind, DecodeFields, Print, ElemOf, SchemaFields, KindType, Stored, StoredFields, R.Fits, R.FitsModel,
         GoFields, DistinctFields, Complete;
    ElemOfPrinted(e);
    match e
    case Scalar(k) =>
      KindFits(x, k, r);
    case Struct(fs) =>
      StructFits(x, fs, r);
      var v := DecodeFields(x, r, SchemaFields(fs)).value;
      FitsAsStruct(fs, StoredFields(v));
      StoredMessage(v);
  }

  lemma StoredMessage(v: V)
    requires v.VMessage?
    ensures Stored(v) == R.Msg(StoredFields(v))
  {
  }

  lemma FitsAsStruct(fs: seq<Field>, fm: map<string, R.G>)
    requires R.FitsModel(GoFields(fs), fm)
    ensures R.FitsStruct(R.TStruct(GoFields(fs)), R.Msg(fm)) && R.Fits(R.TStruct(GoFields(fs)), R.Msg(fm))
  {
  }

  lemma {:induction false} FieldFits(x: Foreign, name: string, t: FieldType, r: J)
    requires DistinctIn(t) && Modelled(t) && Complete(t, r)
    requires DecodeField(x, SchemaOf(name, t), r).Some?
    ensures R.Fits(GoType(t), Stored(DecodeField(x, SchemaOf(name, t), r).value))
    decreases t, 4
  {
    FieldDecodes(x, name, t, r);
    hide DecodeField, SchemaOf, DecodeElem, DecodeItems, DecodeEntries, Print, ElemFields, R.Fits, DistinctFields,
         KeyReads, Stored, MapValue, TextOf;
    match t
    case Scalar(_) => ElemFits(x, t, r);
    case Struct(_) => ElemFits(x, t, r);
    case Optional(e) => OptionalFits(x, e, r);
    case List(e) => ListFits(x, e, r);
    case Array(e, n) => ArrayFits(x, e, n, r);
    case Map(key, e) => MapFits(x, key, e, r);
    case Enum(_) => EnumFits(r);
  }

  /** The arm of decodeField each type takes. */
  lemma FieldDecodes(x: Foreign, name: string, t: FieldType, r: J)
    requires Modelled(t)
    ensures var v := DecodeField(x, SchemaOf(name, t), r);
            && (Flat(t) ==> v == DecodeElem(x, Print(t), ElemFields(t), r))
            && (t.Optional? ==> v == if r == JNull then Some(VNil) else DecodeElem(x, Print(t.elem),
                ElemFields(t.elem), r))
            && (t.List? ==> v == DecodeItems(x, Print(t.elem), ElemFields(t.elem), r))
            && (t.Array? && v.Some? ==>
                  v == DecodeItems(x, Print(t.elem), ElemFields(t.elem), r) && v.value.VSlice? &&
                      |v.value.items| == t.len)
            && (t.Map? ==> v == DecodeEntries(x, MapValue(Print(t.key) + "," + Print(t.elem)), ElemFields(t.elem), r))
            && (t.Enum? && v.Some? ==> TextOf(r).Some? && v == Some(VStr(TextOf(r).value)))
  {
    hide DecodeElem, DecodeItems, DecodeEntries, Print, SchemaFields, MapValue, KeyReads, TextOf, ShapeOf;
    ShapeOfPrinted(t);
  }

  lemma EnumFits(r: J)
    requires TextOf(r).Some?
    ensures R.Fits(R.TBase(R.Str), Stored(VStr(TextOf(r).value)))
  {
  }

  lemma OptionalFits(x: Foreign, e: FieldType, r: J)
    requires Flat(e) && DistinctIn(e) && Modelled(e) && Complete(Optional(e), r)
    requires r == JNull || DecodeElem(x, Print(e), ElemFields(e), r).Some?
    ensures R.Fits(R.TPtr(GoType(e)),
            Stored(if r == JNull then VNil else DecodeElem(x, Print(e), ElemFields(e), r).value))
    decreases e, 3
  {
    hide DecodeElem, Print, ElemFields, R.FitsStruct;
    if r != JNull {
      ElemFits(x, e, r);
      StructOrNot(e);
    }
  }

  lemma StructOrNot(e: FieldType)
    requires Flat(e)
    ensures e.Struct? <==> GoType(e).TStruct?
  {
  }

  /** The elements of a decoded list, under the slice type the worker collects them in. */
  lemma ItemsFit(x: Foreign, e: FieldType, r: J) returns (g: R.G)
    requires Flat(e) && DistinctIn(e) && Modelled(e) && Complete(List(e), r)
    requires DecodeItems(x, Print(e), ElemFields(e), r).Some?
    ensures g == Stored(DecodeItems(x, Print(e), ElemFields(e), r).value)
    ensures g.Slice? && g.e == (if e.Struct? then R.TMsg else GoType(e))
    ensures DecodeItems(x, Print(e), ElemFields(e), r).value.VSlice? &&
            |g.items| == |DecodeItems(x, Print(e), ElemFields(e), r).value.items|
    ensures forall i | 0 <= i < |g.items| ::
              g.items[i] != R.Nil && R.Fits(GoType(e), g.items[i]) && (e.Struct? ||
                  R.TypeOf(g.items[i]) == Some(GoType(e)))
    decreases e, 3
  {
    hide DecodeElem, DecodeItems, Print, ElemFields, R.Fits, GoType, Modelled, DistinctIn, Stored, SliceOf, ElemType;
    ItemsAre(x, Print(e), ElemFields(e), r);
    CollectedType(e);
    var v := DecodeItems(x, Print(e), ElemFields(e), r).value;
    StoredSlice(v);
    g := Stored(v);
    forall i | 0 <= i < |g.items|
      ensures g.items[i] != R.Nil && R.Fits(GoType(e), g.items[i]) && (e.Struct? ||
              R.TypeOf(g.items[i]) == Some(GoType(e)))
    {
      assert r.JArr? && r.items[i] in r.items;
      assert Some(v.items[i]) == DecodeElem(x, Print(e), ElemFields(e), r.items[i]);
      ElemFits(x, e, r.items[i]);
    }
  }

  lemma ItemsAre(x: Foreign, typ: string, fields: seq<SchemaField>, r: J)
    requires DecodeItems(x, typ, fields, r).Some?
    ensures var v := DecodeItems(x, typ, fields, r).value;
            && v.VSlice? && ElemOf(typ).Some? && v.elem == SliceOf(ElemOf(typ).value)
            && (r.JArr? || v.items == [])
            && (r.JArr? ==>
                  |v.items| == |r.items| &&
                  forall i | 0 <= i < |v.items| :: Some(v.items[i]) == DecodeElem(x, typ, fields, r.items[i]))
  {
    hide DecodeElem, ElemOf;
  }

  lemma StoredSlice(v: V)
    requires v.VSlice?
    ensures var g := Stored(v);
            g.Slice? && g.e == ElemType(v.elem) && |g.items| == |v.items| &&
              forall i | 0 <= i < |v.items| :: g.items[i] == Stored(v.items[i])
  {
  }

  /** Both 128-bit kinds are *big.Int. */
  lemma CollectedType(e: FieldType)
    requires Flat(e)
    ensures ElemOf(Print(e)).Some?
    ensures ElemType(SliceOf(ElemOf(Print(e)).value)) == if e.Struct? then R.TMsg else GoType(e)
  {
    hide Print, ElemOf, KindType;
    ElemOfPrinted(e);
    BothBig();
    match e
    case Scalar(k) =>
    case Struct(_) =>
  }

  lemma BothBig()
    ensures KindType(Int128) == KindType(Uint128)
  {
  }

  lemma ListFits(x: Foreign, e: FieldType, r: J)
    requires Flat(e) && DistinctIn(e) && Modelled(e) && Complete(List(e), r)
    requires DecodeItems(x, Print(e), ElemFields(e), r).Some?
    ensures R.Fits(R.TSlice(GoType(e)), Stored(DecodeItems(x, Print(e), ElemFields(e), r).value))
    decreases e, 4
  {
    hide DecodeItems, Print, ElemFields, R.FitsStruct, Stored, Modelled, DistinctIn, Complete;
    var g := ItemsFit(x, e, r);
    StructOrNot(e);
  }

  lemma ArrayFits(x: Foreign, e: FieldType, n: int, r: J)
    requires e.Scalar? && 0 <= n
    requires DecodeItems(x, Print(e), ElemFields(e), r).Some? && DecodeItems(x, Print(e), ElemFields(e),
             r).value.VSlice?
    requires |DecodeItems(x, Print(e), ElemFields(e), r).value.items| == n
    ensures R.Fits(R.TArray(GoType(e), n), Stored(DecodeItems(x, Print(e), ElemFields(e), r).value))
    decreases e, 4
  {
    hide DecodeItems, Print, R.FitsStruct, Stored;
    AnyIsComplete(e, r);
    StructOrNot(e);
    var g := ItemsFit(x, e, r);
  }

  lemma AnyIsComplete(e: FieldType, r: J)
    requires e.Scalar?
    ensures Complete(List(e), r)
  {
  }

  lemma SameElem(x: Foreign, a: string, b: string, fields: seq<SchemaField>, r: J)
    requires ElemOf(a) == ElemOf(b)
    ensures DecodeElem(x, a, fields, r) == DecodeElem(x, b, fields, r)
  {
  }

  lemma MapFits(x: Foreign, key: FieldType, e: FieldType, r: J)
    requires Flat(e) && KeyReads(key, e) && DistinctIn(e) && Modelled(e) && Complete(Map(key, e), r)
    requires DecodeEntries(x, MapValue(Print(key) + "," + Print(e)), ElemFields(e), r).Some?
    ensures R.Fits(R.TMap(GoType(e)), Stored(DecodeEntries(x, MapValue(Print(key) + "," + Print(e)), ElemFields(e),
            r).value))
    decreases e, 3
  {
    hide DecodeElem, DecodeEntries, Print, R.FitsStruct, GoType, Modelled, DistinctIn, MapValue, ElemFields,
         KeyReads, Stored;
    MapValuePrinted(key, e);
    var typ := MapValue(Print(key) + "," + Print(e));
    EntriesAre(x, typ, ElemFields(e), r);
    var v := DecodeEntries(x, typ, ElemFields(e), r).value;
    StoredDict(v);
    var g := Stored(v);
    StructOrNot(e);
    forall k | k in g.entries
      ensures if e.Struct? then R.FitsStruct(GoType(e), g.entries[k]) else R.Assignable(g.entries[k], GoType(e))
    {
      assert Some(v.entries[k]) == DecodeElem(x, typ, ElemFields(e), r.members[k]);
      SameElem(x, typ, Print(e), ElemFields(e), r.members[k]);
      ElemFits(x, e, r.members[k]);
      if e.Struct? { StructFit(GoType(e), g.entries[k]); }
    }
  }

  lemma StructFit(t: R.T, g: R.G)
    requires t.TStruct? && R.Fits(t, g)
    ensures R.FitsStruct(t, g)
  {
    hide R.FitsStruct;
  }

  lemma EntriesAre(x: Foreign, typ: string, fields: seq<SchemaField>, r: J)
    requires DecodeEntries(x, typ, fields, r).Some?
    ensures var v := DecodeEntries(x, typ, fields, r).value;
            && v.VDict? && (r.JObj? || v.entries == map[])
            && (r.JObj? ==>
                  v.entries.Keys == r.members.Keys &&
                  forall k | k in v.entries :: Some(v.entries[k]) == DecodeElem(x, typ, fields, r.members[k]))
  {
    hide DecodeElem;
  }

  lemma StoredDict(v: V)
    requires v.VDict?
    ensures var g := Stored(v);
            g.Map? && g.e == R.TAny && g.entries.Keys == v.entries.Keys &&
              forall k | k in v.entries :: g.entries[k] == Stored(v.entries[k])
  {
  }

  /** Decoded under its schema, a complete value fills the struct and comes back out of
      it as the very field map that was decoded. */
  lemma ModelEchoes(x: Foreign, conv: R.Convert, fs: seq<Field>, r: J)
    requires DistinctFields(fs) && Modelled(Struct(fs)) && Complete(Struct(fs), r)
    requires DecodeFields(x, r, SchemaFields(fs)).Some?
    ensures var v := DecodeFields(x, r, SchemaFields(fs)).value;
            v.VMessage? &&
            var fm, gs := StoredFields(v), GoFields(fs);
            var m := R.Fill(conv, gs, R.Zeros(gs), fm);
            m.Some? && R.Extract(gs, m.value) == fm
  {
    hide DecodeFields, Stored, StoredFields, GoFields, R.Zeros, R.Fill, R.Extract, DistinctFields, Modelled,
         Complete, R.Keys, R.FitsFields;
    var v := DecodeFields(x, r, SchemaFields(fs)).value;
    StructFits(x, fs, r);
    var fm := StoredFields(v);
    Binding.FieldsBack(conv, GoFields(fs), fm);
    assert Binding.Only(fm, fm.Keys) == fm;
  }
}
