/** The reflection binding at work (lib/go/serify/reflect.go): filling sets a struct's
    slots one after another, extracting writes a field map's entries. */
module ModelBinding {
  import opened Common
  import opened Reflection
  import opened ReflectRoundTrip

  // ---- fill ----------------------------------------------------------------

  lemma {:induction false} FillAt(x: Convert, fs: seq<GField>, slots: seq<G>, fm: map<string, G>)
    requires |slots| == |fs|
    ensures Fill(x, fs, slots, fm).Some? <==> forall i | 0 <= i < |fs| :: FillField(x, fs[i], slots[i], fm).Some?
    ensures Fill(x, fs, slots, fm).Some? ==>
              forall i | 0 <= i < |fs| :: Some(Fill(x, fs, slots, fm).value[i]) == FillField(x, fs[i], slots[i], fm)
  {
    hide FillField;
    if fs != [] {
      FillAt(x, fs[1..], slots[1..], fm);
      var all := Fill(x, fs, slots, fm);
      assert all.Some? <==> FillField(x, fs[0], slots[0], fm).Some? && Fill(x, fs[1..], slots[1..], fm).Some?;
      if FillField(x, fs[0], slots[0], fm).Some? {
        forall i | 1 <= i < |fs|
          ensures FillField(x, fs[i], slots[i], fm) == FillField(x, fs[1..][i - 1], slots[1..][i - 1], fm)
        {
        }
        assert all.None? ==> exists i | 0 <= i < |fs[1..]| :: FillField(x, fs[1..][i], slots[1..][i], fm).None?;
        if all.None? {
          var i :| 0 <= i < |fs[1..]| && FillField(x, fs[1..][i], slots[1..][i], fm).None?;
          assert FillField(x, fs[i + 1], slots[i + 1], fm).None?;
        }
      }
    }
  }

  /** A struct variable. */
  class Model {
    const fields: seq<GField>
    var slots: seq<G>

    constructor (fields: seq<GField>, slots: seq<G>)
      ensures this.fields == fields && this.slots == slots
    {
      this.fields, this.slots := fields, slots;
    }

    /** fill stops at the first field that fails; the fields before it are set, the
        fields behind it untouched. */
    method Fill(x: Convert, fm: map<string, G>) returns (ok: bool)
      requires |slots| == |fields|
      modifies this
      ensures |slots| == |fields|
      ensures ok <==> Reflection.Fill(x, fields, old(slots), fm).Some?
      ensures ok ==> slots == Reflection.Fill(x, fields, old(slots), fm).value
      ensures !ok ==>
              exists n | 0 <= n < |fields| ::
                && FillField(x, fields[n], old(slots)[n], fm).None?
                && (forall i | 0 <= i < n :: Some(slots[i]) == FillField(x, fields[i], old(slots)[i], fm))
                && forall i | n < i < |fields| :: slots[i] == old(slots)[i]
      decreases fields, 0
    {
      hide *;
      ghost var before := slots;
      FillAt(x, fields, before, fm);
      for i := 0 to |fields|
        invariant |slots| == |fields| == |before|
        invariant forall j | 0 <= j < i :: Some(slots[j]) == FillField(x, fields[j], before[j], fm)
        invariant forall j | i <= j < |fields| :: slots[j] == before[j]
      {
        var done, slot := SetField(x, fields[i], slots[i], fm);
        slots := slots[i := slot];
        if !done { return false; }
      }
      ok := true;
    }
  }

  method SetField(x: Convert, f: GField, slot: G, fm: map<string, G>) returns (ok: bool, out: G)
    ensures ok <==> FillField(x, f, slot, fm).Some?
    ensures ok ==> Some(out) == FillField(x, f, slot, fm)
    decreases f, 2
  {
    hide Fill, FillValue;
    out := slot;
    if Promotable(f) {
      ok, out := SetPromoted(x, f, slot, fm);
    } else if f.key !in fm {
      ok := true;
    } else {
      ok, out := SetValue(x, f.typ, slot, fm[f.key]);
    }
  }

  method SetPromoted(x: Convert, f: GField, slot: G, fm: map<string, G>) returns (ok: bool, out: G)
    requires Promotable(f)
    ensures ok <==> FillPromoted(x, f, slot, fm).Some?
    ensures ok ==> Some(out) == FillPromoted(x, f, slot, fm)
    decreases f, 1
  {
    hide Fill;
    var inner := slot;
    if f.typ.TPtr? {
      inner := if slot.Ptr? && slot.to.Some? then slot.to.value else Zero(f.typ.e);
    }
    var m := new Model(Promoted(f), Slots(inner, Promoted(f)));
    ok := m.Fill(x, fm);
    out := Struct(m.fields, m.slots);
    if f.typ.TPtr? { out := Ptr(f.typ.e, Some(out)); }
  }

  method SetStruct(x: Convert, t: T, slot: G, raw: G) returns (ok: bool, out: G)
    requires t.TStruct?
    ensures ok <==> FillStruct(x, t, slot, raw).Some?
    ensures ok ==> Some(out) == FillStruct(x, t, slot, raw)
    decreases t, 1
  {
    hide Fill;
    out := slot;
    if !raw.Msg? { return false, out; }
    var m := new Model(t.fields, Slots(slot, t.fields));
    ok := m.Fill(x, raw.stored);
    out := Struct(m.fields, m.slots);
  }

  method SetValue(x: Convert, t: T, slot: G, raw: G) returns (ok: bool, out: G)
    ensures ok <==> FillValue(x, t, slot, raw).Some?
    ensures ok ==> Some(out) == FillValue(x, t, slot, raw)
    decreases t, 4
  {
    hide FillStruct, FillArray, FillSlice, FillMap;
    out := slot;
    match t
    case TStruct(_) => ok, out := SetStruct(x, t, slot, raw);
    case TArray(e, n) => ok, out := SetArray(x, e, n, slot, raw);
    case TSlice(e) =>
      if e.TStruct? { ok, out := SetSlice(x, e, raw); }
      else { ok, out := TypeOf(raw) == Some(t), raw; }
    case TMap(e) => ok, out := SetMap(x, e, raw);
    case TPtr(e) => ok, out := SetPtr(x, e, slot, raw);
    case TBase(_) => ok, out := TypeOf(raw) == Some(t), raw;
    case _ => ok := false;
  }

  method SetPtr(x: Convert, e: T, slot: G, raw: G) returns (ok: bool, out: G)
    ensures ok <==> FillPtr(x, e, raw).Some?
    ensures ok ==> Some(out) == FillPtr(x, e, raw)
    decreases e, 4
  {
    hide FillStruct;
    out := slot;
    if raw == Nil { return true, Ptr(e, None); }
    if e.TStruct? && raw.Msg? {
      ok, out := SetStruct(x, e, Zero(e), raw);
      out := Ptr(e, Some(out));
      return;
    }
    if e == TBase(Str) && TypeOf(raw) == Some(TPtr(e)) { return true, raw; }
    if Assignable(raw, e) { return true, Ptr(e, Some(raw)); }
    ok := false;
  }

  method SetElem(x: Convert, e: T, slot: G, raw: G) returns (ok: bool, out: G)
    ensures ok <==> FillElem(x, e, slot, raw).Some?
    ensures ok ==> Some(out) == FillElem(x, e, slot, raw)
    decreases e, 2
  {
    hide FillStruct;
    out := slot;
    if e.TStruct? {
      if !raw.Msg? { return true, slot; }
      ok, out := SetStruct(x, e, slot, raw);
    } else if raw == Nil {
      ok := true;
    } else if Assignable(raw, e) {
      ok, out := true, raw;
    } else {
      var c := x(e, raw);
      if c.None? { return false, slot; }
      ok, out := true, c.value;
    }
  }

  method SetArray(x: Convert, e: T, n: nat, slot: G, raw: G) returns (ok: bool, out: G)
    ensures ok <==> FillArray(x, e, n, slot, raw).Some?
    ensures ok ==> Some(out) == FillArray(x, e, n, slot, raw)
    decreases e, 3
  {
    hide FillElem;
    out := slot;
    if !raw.Slice? || |raw.items| != n { return false, out; }
    assert FillArray(x, e, n, slot, raw).Some? <==>
      forall i | 0 <= i < n :: FillElem(x, e, Before(e, n, slot)[i], raw.items[i]).Some?;
    hide FillArray;
    var before := Before(e, n, slot);
    var items := before;
    hide Before, Zero;
    for i := 0 to n
      invariant |items| == n
      invariant forall j | 0 <= j < i :: Some(items[j]) == FillElem(x, e, before[j], raw.items[j])
      invariant forall j | i <= j < n :: items[j] == before[j]
    {
      var done, v := SetElem(x, e, items[i], raw.items[i]);
      if !done { return false, slot; }
      items := items[i := v];
    }
    ok, out := true, Array(e, items);
    ArrayDone(x, e, n, slot, raw, items);
  }

  lemma ArrayDone(x: Convert, e: T, n: nat, slot: G, raw: G, items: seq<G>)
    requires raw.Slice? && |raw.items| == n == |items|
    requires forall j | 0 <= j < n :: Some(items[j]) == FillElem(x, e, Before(e, n, slot)[j], raw.items[j])
    ensures FillArray(x, e, n, slot, raw) == Some(Array(e, items))
  {
    hide FillElem, Before;
    assert FillArray(x, e, n, slot, raw).value.items == items;
  }

  /** Every element is a new zero struct. */
  method SetSlice(x: Convert, e: T, raw: G) returns (ok: bool, out: G)
    requires e.TStruct?
    ensures ok <==> FillSlice(x, e, raw).Some?
    ensures ok ==> Some(out) == FillSlice(x, e, raw)
    decreases e, 3
  {
    hide FillStruct;
    out := Nil;
    if !raw.Slice? || raw.e != TMsg { return false, out; }
    var items: seq<G> := [];
    for i := 0 to |raw.items|
      invariant |items| == i && forall j | 0 <= j < i :: Some(items[j]) == FillStruct(x, e, Zero(e), raw.items[j])
    {
      var done, v := SetStruct(x, e, Zero(e), raw.items[i]);
      if !done { return false, out; }
      items := items + [v];
    }
    ok, out := true, Slice(e, items);
    assert FillSlice(x, e, raw).value.items == items;
  }

  /** What one entry adds. */
  method ConvertEntry(x: Convert, e: T, raw: G) returns (r: Result<Option<G>, ()>)
    ensures r == FillEntry(x, e, raw)
    decreases e, 2
  {
    hide FillStruct;
    if e.TStruct? {
      if !raw.Msg? { return Ok(None); }
      var done, v := SetStruct(x, e, Zero(e), raw);
      return if done then Ok(Some(v)) else Err(());
    }
    if raw == Nil { return Ok(None); }
    r := Ok(if Assignable(raw, e) then Some(raw) else x(e, raw));
  }

  /** All entries but those under `keys` have been converted, none of them failing. */
  ghost predicate Converted(x: Convert, e: T, all: map<string, G>, keys: set<string>, entries: map<string, G>) {
    && keys <= all.Keys && entries.Keys <= all.Keys - keys
    && (forall k | k in all && k !in keys ::
      FillEntry(x, e, all[k]) == Ok(if k in entries then Some(entries[k]) else None))
  }

  lemma ConvertedOne(x: Convert, e: T, all: map<string, G>, keys: set<string>, entries: map<string, G>, k: string,
      v: Option<G>)
    requires Converted(x, e, all, keys, entries) && k in keys && FillEntry(x, e, all[k]) == Ok(v)
    ensures Converted(x, e, all, keys - {k}, if v.Some? then entries[k := v.value] else entries)
  {
    hide FillEntry;
    var more := if v.Some? then entries[k := v.value] else entries;
    forall j | j in all && j !in keys - {k}
      ensures FillEntry(x, e, all[j]) == Ok(if j in more then Some(more[j]) else None)
    {
      if j != k { assert j !in keys; }
    }
  }

  lemma ConvertedAll(x: Convert, e: T, raw: G, entries: map<string, G>)
    requires raw.Map? && raw.e == TAny && Converted(x, e, raw.entries, {}, entries)
    ensures FillMap(x, e, raw) == Some(Map(e, entries))
  {
    hide FillEntry;
    assert forall k | k in raw.entries :: FillEntry(x, e, raw.entries[k]).Ok?;
    assert FillMap(x, e, raw).value.entries == entries;
  }

  /** Map iteration order does not matter. */
  method SetMap(x: Convert, e: T, raw: G) returns (ok: bool, out: G)
    ensures ok <==> FillMap(x, e, raw).Some?
    ensures ok ==> Some(out) == FillMap(x, e, raw)
    decreases e, 3
  {
    hide FillEntry;
    out := Nil;
    if !raw.Map? || raw.e != TAny { return false, out; }
    var entries: map<string, G> := map[];
    var keys := raw.entries.Keys;
    while keys != {}
      invariant keys <= raw.entries.Keys && Converted(x, e, raw.entries, keys, entries)
      decreases |keys|
    {
      hide Converted;
      var k :| k in keys;
      var v := ConvertEntry(x, e, raw.entries[k]);
      if v.Err? { return false, out; }
      ConvertedOne(x, e, raw.entries, keys, entries, k, v.value);
      if v.value.Some? { entries := entries[k := v.value.value]; }
      keys := keys - {k};
    }
    ok, out := true, Map(e, entries);
    ConvertedAll(x, e, raw, entries);
  }

  // ---- extract -------------------------------------------------------------

  lemma {:induction false} ExtractSnoc(fs: seq<GField>, slots: seq<G>, n: nat)
    requires n < |fs| == |slots|
    ensures Reflection.Extract(fs[..n + 1], slots[..n + 1]) == Reflection.Extract(fs[..n],
            slots[..n]) + ExtractField(fs[n], slots[n])
    decreases n
  {
    hide ExtractField;
    var a, b := fs[..n + 1], slots[..n + 1];
    if n == 0 {
      assert a[1..] == [] && fs[..0] == [];
    } else {
      ExtractSnoc(fs[1..], slots[1..], n - 1);
      assert a[1..] == fs[1..][..n] && b[1..] == slots[1..][..n];
      assert fs[..n][1..] == fs[1..][..n - 1] && slots[..n][1..] == slots[1..][..n - 1];
    }
  }

  lemma MergeMore(a: map<string, G>, b: map<string, G>, c: map<string, G>)
    ensures (a + b) + c == a + (b + c)
  {
  }

  lemma NothingExtracted(fs: seq<GField>, slots: seq<G>)
    requires |slots| == |fs|
    ensures Reflection.Extract(fs[..0], slots[..0]) == map[]
  {
  }

  /** extract: field by field into the map, later fields over earlier ones. */
  method Extract(fs: seq<GField>, slots: seq<G>, fm: FieldStore<G>)
    requires |slots| == |fs|
    modifies fm
    ensures fm.fields == old(fm.fields) + Reflection.Extract(fs, slots)
    decreases fs, 0
  {
    hide ExtractField, Reflection.Extract;
    ghost var before := fm.fields;
    NothingExtracted(fs, slots);
    for i := 0 to |fs|
      invariant fm.fields == before + Reflection.Extract(fs[..i], slots[..i])
    {
      ExtractSnoc(fs, slots, i);
      ExtractOne(fs[i], slots[i], fm);
      MergeMore(before, Reflection.Extract(fs[..i], slots[..i]), ExtractField(fs[i], slots[i]));
    }
    assert fs[..|fs|] == fs && slots[..|fs|] == slots;
  }

  method ExtractOne(f: GField, slot: G, fm: FieldStore<G>)
    modifies fm
    ensures fm.fields == old(fm.fields) + ExtractField(f, slot)
    decreases f, 2
  {
    hide Reflection.Extract, Out;
    if Promotable(f) {
      if slot.Ptr? && slot.to.None? { return; }
      Extract(Promoted(f), Slots(if slot.Ptr? then slot.to.value else slot, Promoted(f)), fm);
    } else {
      var g := StoredForm(f.typ, slot);
      if g.Some? {
        fm.fields := fm.fields[f.key := g.value];
      }
    }
  }

  /** A nested struct goes into a field map of its own. */
  method StoredStruct(t: T, g: G) returns (r: G)
    requires t.TStruct?
    ensures r == OutStruct(t, g)
    decreases t, 1
  {
    hide Reflection.Extract;
    var nested := new FieldStore<G>();
    Extract(t.fields, Slots(g, t.fields), nested);
    assert map[] + Reflection.Extract(t.fields, Slots(g, t.fields)) == Reflection.Extract(t.fields, Slots(g, t.fields));
    r := Msg(nested.fields);
  }

  /** extractElems. */
  method StoredElems(e: T, items: seq<G>) returns (r: G)
    requires e.TStruct?
    ensures r == OutElems(e, items)
    decreases e, 2
  {
    hide OutStruct;
    var out: seq<G> := [];
    for i := 0 to |items|
      invariant |out| == i && forall j | 0 <= j < i :: out[j] == OutStruct(e, items[j])
    {
      var m := StoredStruct(e, items[i]);
      out := out + [m];
    }
    r := Slice(TMsg, out);
    assert OutElems(e, items).items == out;
  }

  method StoredMap(e: T, g: G) returns (r: G)
    ensures r == OutMap(e, g)
    decreases e, 2
  {
    hide OutStruct;
    if !g.Map? { return Map(TAny, map[]); }
    if !e.TStruct? { return Map(TAny, g.entries); }
    var out: map<string, G> := map[];
    var keys := g.entries.Keys;
    while keys != {}
      invariant keys <= g.entries.Keys && out.Keys == g.entries.Keys - keys
      invariant forall k | k in out :: out[k] == OutStruct(e, g.entries[k])
      decreases |keys|
    {
      var k :| k in keys;
      var m := StoredStruct(e, g.entries[k]);
      out := out[k := m];
      keys := keys - {k};
    }
    r := Map(TAny, out);
    assert OutMap(e, g).entries == out;
  }

  method StoredForm(t: T, g: G) returns (r: Option<G>)
    ensures r == Out(t, g)
    decreases t, 3
  {
    hide OutStruct, OutElems, OutMap;
    r := None;
    match t
    case TBase(_) => r := Some(g);
    case TStruct(_) =>
      var m := StoredStruct(t, g);
      r := Some(m);
    case TArray(e, _) =>
      if e.TStruct? {
        var m := StoredElems(e, Items(g));
        r := Some(m);
      } else {
        r := Some(Slice(e, Items(g)));
      }
    case TSlice(e) =>
      if e.TStruct? {
        var m := StoredElems(e, Items(g));
        r := Some(m);
      } else {
        r := Some(g);
      }
    case TMap(e) =>
      var m := StoredMap(e, g);
      r := Some(m);
    case TPtr(e) =>
      if !g.Ptr? || g.to.None? {
        r := Some(Nil);
      } else if e.TStruct? {
        var m := StoredStruct(e, g.to.value);
        r := Some(m);
      } else {
        r := g.to;
      }
    case _ =>
  }

  // ---- the round trip, as the binding runs it ------------------------------

  /** A zero struct filled from a field map and extracted into an empty one: when the
      field map fits, the result is the same field map; otherwise filling fails or the
      result differs. */
  method FillAndExtract(x: Convert, fs: seq<GField>, fm: map<string, G>) returns (ok: bool, out: map<string, G>)
    requires Neat(fs)
    ensures Lawful(x) ==> (ok && out == fm <==> FitsModel(fs, fm))
  {
    hide Reflection.Fill, Reflection.Extract, Neat, FitsModel, Zeros;
    var m := new Model(fs, Zeros(fs));
    ok := m.Fill(x, fm);
    out := map[];
    if ok {
      var store := new FieldStore<G>();
      Extract(fs, m.slots, store);
      out := store.fields;
      assert out == Reflection.Extract(fs, m.slots);
    }
    if Lawful(x) { RoundTripExactly(x, fs, fm); }
  }
}
