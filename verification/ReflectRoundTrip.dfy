/** Filling a zero struct from a field map and extracting it again. */
module ReflectRoundTrip {
  import opened Common
  import opened Reflection

  /** The entries under these keys. */
  function Only(fm: map<string, G>, ks: set<string>): map<string, G> { map k | k in fm && k in ks :: fm[k] }

  // ---- a fitting field map comes back --------------------------------------

  lemma OnlyBoth(fm: map<string, G>, a: set<string>, b: set<string>)
    ensures Only(fm, a) + Only(fm, b) == Only(fm, a + b)
  {
  }

  lemma ZerosTail(fs: seq<GField>)
    requires fs != []
    ensures Zeros(fs) == [Zero(fs[0].typ)] + Zeros(fs[1..]) && Zeros(fs)[1..] == Zeros(fs[1..])
  {
  }

  lemma {:induction false} FieldsBack(x: Convert, fs: seq<GField>, fm: map<string, G>)
    requires FitsFields(fs, fm)
    ensures Keys(fs) <= fm.Keys
    ensures var v := Fill(x, fs, Zeros(fs), fm);
            v.Some? && Extract(fs, v.value) == Only(fm, Keys(fs))
    decreases fs, 0
  {
    hide FillField, FitsField, ExtractField, FieldKeys, Zeros, Only;
    if fs == [] {
      assert Only(fm, {}) == map[] by { NoneLeft(fm); }
    } else {
      FieldBack(x, fs[0], fm);
      FieldsBack(x, fs[1..], fm);
      ZerosTail(fs);
      var v, vs := FillField(x, fs[0], Zero(fs[0].typ), fm).value, Fill(x, fs[1..], Zeros(fs[1..]), fm).value;
      assert ([v] + vs)[1..] == vs;
      OnlyBoth(fm, FieldKeys(fs[0]), Keys(fs[1..]));
    }
  }

  lemma NoneLeft(fm: map<string, G>)
    ensures Only(fm, {}) == map[]
  {
  }

  lemma {:induction false} FieldBack(x: Convert, f: GField, fm: map<string, G>)
    requires FitsField(f, fm)
    ensures FieldKeys(f) <= fm.Keys
    ensures var v := FillField(x, f, Zero(f.typ), fm);
            v.Some? && ExtractField(f, v.value) == Only(fm, FieldKeys(f))
    decreases f, 3
  {
    hide Fill, Extract, FillValue, Out, Fits, Keys, FitsFields, Zeros;
    if Promotable(f) {
      ZeroStruct(Promoted(f));
      assert if f.typ.TStruct? then f.typ == TStruct(Promoted(f)) else f.typ == TPtr(TStruct(Promoted(f)));
      FieldsBack(x, Promoted(f), fm);
    } else if Supported(f.typ) {
      ValueBack(x, f.typ, fm[f.key]);
      assert Only(fm, {f.key}) == map[f.key := fm[f.key]];
    } else {
      NotStored(f.typ, Zero(f.typ));
      NoneLeft(fm);
    }
  }

  lemma NotStored(t: T, g: G)
    requires !Supported(t)
    ensures Out(t, g).None?
  {
  }

  lemma ZeroStruct(fs: seq<GField>)
    ensures Zero(TStruct(fs)) == Struct(fs, Zeros(fs)) && Slots(Zero(TStruct(fs)), fs) == Zeros(fs)
  {
    hide Zeros;
  }

  lemma {:induction false} StructBack(x: Convert, t: T, raw: G)
    requires t.TStruct? && FitsStruct(t, raw)
    ensures var v := FillStruct(x, t, Zero(t), raw);
            v.Some? && OutStruct(t, v.value) == raw
    decreases t, 1
  {
    hide Fill, Extract, Keys, FitsFields, Zeros;
    FieldsBack(x, t.fields, raw.stored);
    assert Only(raw.stored, raw.stored.Keys) == raw.stored;
  }

  lemma {:induction false} ValueBack(x: Convert, t: T, raw: G)
    requires Fits(t, raw)
    ensures var v := FillValue(x, t, Zero(t), raw);
            v.Some? && Out(t, v.value) == Some(raw)
    decreases t, 3
  {
    hide FillStruct, OutStruct, FitsStruct;
    match t
    case TBase(_) =>
    case TStruct(_) => StructBack(x, t, raw);
    case TArray(e, n) => ArrayBack(x, e, n, raw);
    case TSlice(e) => if e.TStruct? { SliceBack(x, e, raw); }
    case TMap(e) => MapBack(x, e, raw);
    case TPtr(e) => if raw != Nil && e.TStruct? { StructBack(x, e, raw); FitsIsMsg(e, raw); }
  }

  lemma ArrayBack(x: Convert, e: T, n: nat, raw: G)
    requires Fits(TArray(e, n), raw)
    ensures var v := FillArray(x, e, n, Zero(TArray(e, n)), raw);
            v.Some? && Out(TArray(e, n), v.value) == Some(raw)
    decreases e, 3
  {
    hide FillStruct, OutStruct, FitsStruct;
    forall i | 0 <= i < n
      ensures var v := FillElem(x, e, Zero(e), raw.items[i]);
              v.Some? && (if e.TStruct? then OutStruct(e, v.value) else v.value) == raw.items[i]
    {
      if e.TStruct? {
        StructBack(x, e, raw.items[i]);
        assert raw.items[i].Msg? by { FitsIsMsg(e, raw.items[i]); }
      }
    }
    var v := FillArray(x, e, n, Zero(TArray(e, n)), raw);
    if e.TStruct? {
      assert OutElems(e, v.value.items).items == raw.items;
    } else {
      assert v.value.items == raw.items;
    }
  }

  lemma FitsIsMsg(t: T, raw: G)
    requires t.TStruct? && FitsStruct(t, raw)
    ensures raw.Msg?
  {
  }

  lemma SliceBack(x: Convert, e: T, raw: G)
    requires e.TStruct? && Fits(TSlice(e), raw)
    ensures var v := FillSlice(x, e, raw);
            v.Some? && Out(TSlice(e), v.value) == Some(raw)
    decreases e, 3
  {
    hide FillStruct, OutStruct, FitsStruct;
    forall i | 0 <= i < |raw.items|
      ensures var v := FillStruct(x, e, Zero(e), raw.items[i]);
              v.Some? && OutStruct(e, v.value) == raw.items[i]
    {
      StructBack(x, e, raw.items[i]);
    }
    var v := FillSlice(x, e, raw);
    assert OutElems(e, v.value.items).items == raw.items;
  }

  lemma MapBack(x: Convert, e: T, raw: G)
    requires Fits(TMap(e), raw)
    ensures var v := FillMap(x, e, raw);
            v.Some? && OutMap(e, v.value) == raw
    decreases e, 3
  {
    hide FillStruct, OutStruct, FitsStruct;
    forall k | k in raw.entries
      ensures var v := FillEntry(x, e, raw.entries[k]);
              v.Ok? && v.value.Some? && (if e.TStruct? then OutStruct(e, v.value.value) else v.value.value) ==
                  raw.entries[k]
    {
      if e.TStruct? {
        StructBack(x, e, raw.entries[k]);
        FitsIsMsg(e, raw.entries[k]);
      }
    }
    assert OutMap(e, FillMap(x, e, raw).value).entries == raw.entries;
  }

  // ---- only a fitting one does ---------------------------------------------

  /** No two fields share a key, at any level. */
  predicate Neat(fs: seq<GField>)
    decreases fs, 0
  {
    fs != [] ==> FieldKeys(fs[0]) !! Keys(fs[1..]) && NeatField(fs[0]) && Neat(fs[1..])
  }

  predicate NeatField(f: GField)
    decreases f, 1
  {
    if Promotable(f) then Neat(Promoted(f)) else NeatType(f.typ)
  }

  predicate NeatType(t: T)
    decreases t, 1
  {
    match t
    case TStruct(fs) => Neat(fs)
    case TSlice(e) => NeatType(e)
    case TArray(e, _) => NeatType(e)
    case TMap(e) => NeatType(e)
    case TPtr(e) => NeatType(e)
    case _ => true
  }

  /** A filled struct is extracted under exactly its own keys: embedded pointers were
      allocated. */
  lemma {:induction false} FilledKeys(x: Convert, fs: seq<GField>, slots: seq<G>, fm: map<string, G>)
    requires |slots| == |fs| && Fill(x, fs, slots, fm).Some?
    ensures Extract(fs, Fill(x, fs, slots, fm).value).Keys == Keys(fs)
    decreases fs, 0
  {
    hide FillField, ExtractField, FieldKeys;
    if fs != [] {
      var v, vs := FillField(x, fs[0], slots[0], fm).value, Fill(x, fs[1..], slots[1..], fm).value;
      assert ([v] + vs)[1..] == vs;
      FilledKey(x, fs[0], slots[0], fm);
      FilledKeys(x, fs[1..], slots[1..], fm);
    }
  }

  lemma {:induction false} FilledKey(x: Convert, f: GField, slot: G, fm: map<string, G>)
    requires FillField(x, f, slot, fm).Some?
    ensures ExtractField(f, FillField(x, f, slot, fm).value).Keys == FieldKeys(f)
    decreases f, 3
  {
    hide Fill, Extract, FillValue, OutStruct, OutMap, OutElems, Keys;
    if Promotable(f) {
      var inner := if f.typ.TStruct? then slot else if slot.Ptr? && slot.to.Some? then slot.to.value else Zero(f.typ.e);
      FilledKeys(x, Promoted(f), Slots(inner, Promoted(f)), fm);
    }
  }

  /** The field map holds under the struct's keys what is extracted. */
  predicate Agrees(fm: map<string, G>, out: map<string, G>) {
    forall k | k in out :: k in fm && fm[k] == out[k]
  }

  lemma AgreesParts(fm: map<string, G>, a: map<string, G>, b: map<string, G>)
    requires Agrees(fm, a + b) && a.Keys !! b.Keys
    ensures Agrees(fm, a) && Agrees(fm, b)
  {
    forall k | k in a ensures k in fm && fm[k] == a[k] {
      assert k in a + b && (a + b)[k] == a[k];
    }
    forall k | k in b ensures k in fm && fm[k] == b[k] {
      assert k in a + b && (a + b)[k] == b[k];
    }
  }

  lemma {:induction false} FieldsFit(x: Convert, fs: seq<GField>, fm: map<string, G>)
    requires Lawful(x) && Neat(fs) && Fill(x, fs, Zeros(fs), fm).Some?
    requires Agrees(fm, Extract(fs, Fill(x, fs, Zeros(fs), fm).value))
    ensures FitsFields(fs, fm)
    decreases fs, 0
  {
    hide FillField, ExtractField, FieldKeys, FitsField, Zeros, Lawful, Agrees, Keys, NeatField;
    if fs != [] {
      ZerosTail(fs);
      var v, vs := FillField(x, fs[0], Zero(fs[0].typ), fm).value, Fill(x, fs[1..], Zeros(fs[1..]), fm).value;
      assert ([v] + vs)[1..] == vs;
      FilledKey(x, fs[0], Zero(fs[0].typ), fm);
      FilledKeys(x, fs[1..], Zeros(fs[1..]), fm);
      AgreesParts(fm, ExtractField(fs[0], v), Extract(fs[1..], vs));
      FieldFits(x, fs[0], fm);
      FieldsFit(x, fs[1..], fm);
    }
  }

  lemma {:induction false} FieldFits(x: Convert, f: GField, fm: map<string, G>)
    requires Lawful(x) && NeatField(f) && FillField(x, f, Zero(f.typ), fm).Some?
    requires Agrees(fm, ExtractField(f, FillField(x, f, Zero(f.typ), fm).value))
    ensures FitsField(f, fm)
    decreases f, 3
  {
    hide Fill, Extract, FillValue, Out, Fits, Keys, FitsFields, Zeros, Lawful, Neat, NeatType;
    if Promotable(f) {
      FieldsFit(x, Promoted(f), fm);
    } else if Supported(f.typ) {
      FilledKey(x, f, Zero(f.typ), fm);
      assert f.key in fm;
      ValueFits(x, f.typ, fm[f.key]);
    } else if f.key in fm {
      assert FillValue(x, f.typ, Zero(f.typ), fm[f.key]).None? by { Refused(x, f.typ, Zero(f.typ), fm[f.key]); }
    }
  }

  lemma Refused(x: Convert, t: T, slot: G, raw: G)
    requires !Supported(t)
    ensures FillValue(x, t, slot, raw).None?
  {
  }

  lemma {:induction false} StructFits(x: Convert, t: T, raw: G)
    requires t.TStruct? && Lawful(x) && NeatType(t) && FillStruct(x, t, Zero(t), raw).Some?
    requires OutStruct(t, FillStruct(x, t, Zero(t), raw).value) == raw
    ensures FitsStruct(t, raw)
    decreases t, 1
  {
    hide Fill, Extract, Keys, FitsFields, Zeros, Lawful, Neat;
    FilledKeys(x, t.fields, Zeros(t.fields), raw.stored);
    FieldsFit(x, t.fields, raw.stored);
  }

  lemma {:induction false} ValueFits(x: Convert, t: T, raw: G)
    requires Lawful(x) && NeatType(t) && FillValue(x, t, Zero(t), raw).Some?
    requires Out(t, FillValue(x, t, Zero(t), raw).value) == Some(raw)
    ensures Fits(t, raw)
    decreases t, 3
  {
    hide FillStruct, OutStruct, FitsStruct, Lawful, Neat;
    match t
    case TBase(_) =>
    case TStruct(_) => StructFits(x, t, raw);
    case TArray(e, n) => ArrayFits(x, e, n, raw);
    case TSlice(e) => if e.TStruct? { SliceFits(x, e, raw); }
    case TMap(e) => MapFits(x, e, raw);
    case TPtr(e) => if raw != Nil && e.TStruct? { PtrFits(x, e, raw); } else { NotItself(raw); }
    case _ => assert false;
  }

  lemma NotItself(raw: G)
    ensures raw.Ptr? && raw.to.Some? ==> raw.to.value != raw
  {
    if raw.Ptr? && raw.to.Some? {
      assert raw.to.value < raw;
    }
  }

  lemma PtrFits(x: Convert, e: T, raw: G)
    requires e.TStruct? && Lawful(x) && NeatType(e) && raw != Nil && FillPtr(x, e, raw).Some?
    requires Out(TPtr(e), FillPtr(x, e, raw).value) == Some(raw)
    ensures FitsStruct(e, raw)
    decreases e, 3
  {
    hide FillStruct, FitsStruct, Lawful, NeatType, Extract;
    if raw.Msg? {
      StructFits(x, e, raw);
    } else {
      OutIsMsg(e, raw);
    }
  }

  lemma ArrayFits(x: Convert, e: T, n: nat, raw: G)
    requires Lawful(x) && NeatType(e) && FillArray(x, e, n, Zero(TArray(e, n)), raw).Some?
    requires Out(TArray(e, n), FillArray(x, e, n, Zero(TArray(e, n)), raw).value) == Some(raw)
    ensures Fits(TArray(e, n), raw)
    decreases e, 3
  {
    hide FillStruct, OutStruct, FitsStruct, NeatType;
    var v := FillArray(x, e, n, Zero(TArray(e, n)), raw).value;
    forall i | 0 <= i < n
      ensures if e.TStruct? then FitsStruct(e, raw.items[i])
              else if raw.items[i] == Nil then Zero(e) == Nil else Assignable(raw.items[i], e)
    {
      assert Some(v.items[i]) == FillElem(x, e, Zero(e), raw.items[i]);
      if e.TStruct? {
        assert OutElems(e, v.items).items[i] == raw.items[i] == OutStruct(e, v.items[i]);
        assert raw.items[i].Msg? by { OutIsMsg(e, v.items[i]); }
        StructFits(x, e, raw.items[i]);
      } else {
        assert v.items[i] == raw.items[i];
      }
    }
  }

  lemma OutIsMsg(t: T, g: G)
    requires t.TStruct?
    ensures OutStruct(t, g).Msg?
  {
  }

  lemma SliceFits(x: Convert, e: T, raw: G)
    requires e.TStruct? && Lawful(x) && NeatType(e) && FillSlice(x, e, raw).Some?
    requires Out(TSlice(e), FillSlice(x, e, raw).value) == Some(raw)
    ensures Fits(TSlice(e), raw)
    decreases e, 3
  {
    hide FillStruct, OutStruct, FitsStruct, Lawful, NeatType;
    var v := FillSlice(x, e, raw).value;
    forall i | 0 <= i < |raw.items| ensures FitsStruct(e, raw.items[i]) {
      assert Some(v.items[i]) == FillStruct(x, e, Zero(e), raw.items[i]);
      assert OutElems(e, v.items).items[i] == raw.items[i] == OutStruct(e, v.items[i]);
      StructFits(x, e, raw.items[i]);
    }
  }

  lemma MapFits(x: Convert, e: T, raw: G)
    requires Lawful(x) && NeatType(e) && FillMap(x, e, raw).Some? && OutMap(e, FillMap(x, e, raw).value) == raw
    ensures Fits(TMap(e), raw)
    decreases e, 3
  {
    hide FillStruct, OutStruct, FitsStruct, NeatType;
    var v := FillMap(x, e, raw).value;
    forall k | k in raw.entries
      ensures if e.TStruct? then FitsStruct(e, raw.entries[k]) else Assignable(raw.entries[k], e)
    {
      assert k in OutMap(e, v).entries;
      assert k in v.entries && FillEntry(x, e, raw.entries[k]) == Ok(Some(v.entries[k]));
      if e.TStruct? {
        assert raw.entries[k] == OutStruct(e, v.entries[k]);
        StructFits(x, e, raw.entries[k]);
      } else {
        assert raw.entries[k] == v.entries[k];
      }
    }
  }

  /** Filling a zero struct and extracting it gives the field map back exactly when the
      field map holds the struct's keys, no others, each in the stored form of its
      field's type: through nested structs, slices, arrays, maps, optionals and
      flattened embeds. */
  lemma RoundTripExactly(x: Convert, fs: seq<GField>, fm: map<string, G>)
    requires Lawful(x) && Neat(fs)
    ensures var v := Fill(x, fs, Zeros(fs), fm);
            v.Some? && Extract(fs, v.value) == fm <==> FitsModel(fs, fm)
  {
    hide Fill, Extract, Keys, FitsFields, Zeros, Lawful, Neat;
    var v := Fill(x, fs, Zeros(fs), fm);
    if FitsModel(fs, fm) {
      FieldsBack(x, fs, fm);
      assert Only(fm, fm.Keys) == fm;
    } else if v.Some? && Extract(fs, v.value) == fm {
      FilledKeys(x, fs, Zeros(fs), fm);
      FieldsFit(x, fs, fm);
    }
  }
}
