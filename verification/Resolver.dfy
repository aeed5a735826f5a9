/** schemaResolver itself: a memo, a set of names being entered, and the recursive
    methods that update both. */
module Resolver {
  import opened Common
  import opened Text
  import opened TypeLang
  import opened Inlining
  import opened Resolution

  /** The branches of typeOf in the order they are tried. */
  lemma ParseBranches(names: set<string>, text: string)
    ensures var s := Unalias(Trim(text));
            Parse(names, text) ==
            if KindOf(s).Some? then XScalar(KindOf(s).value)
            else if s == STRUCT then XStruct
            else if s in names then XNamed(s)
            else if MatchApplied(s).None? then XError(UnknownType(s))
            else ParseApplied(names, MatchApplied(s).value.outer, MatchApplied(s).value.inner)
  {
    hide ParseApplied, KindOf, Trim, Unalias, MatchApplied;
  }

  lemma AppliedBranches(names: set<string>, outer: string, inner: string)
    ensures ParseApplied(names, outer, inner) ==
            match FormerOf(outer)
            case None => XError(UnknownParameterized(outer))
            case Some(FEnum) =>
              if EnumValues(SplitCommas(inner)) == [] then XError(EmptyEnum) else XEnum(EnumValues(SplitCommas(inner)))
            case Some(FOptional) => XOptional(Parse(names, inner))
            case Some(FList) => XList(Parse(names, inner))
            case Some(FArray) => ArrayExpr(names, inner)
            case Some(FMap) => MapExpr(names, inner)
            case Some(FSum) => XError(SumAsExpression)
  {
    hide Parse, FormerOf, KeyValue, LastComma, EnumValues, SplitCommas, Atoi, Trim;
  }

  /** The memo only grows. */
  ghost predicate Extends(before: map<string, seq<Field>>, after: map<string, seq<Field>>) {
    forall n | n in before :: n in after && after[n] == before[n]
  }

  class SchemaResolver {
    const named: Registry
    var resolved: map<string, seq<Field>>
    var resolving: set<string>

    /** Every memo entry is what plain inlining yields from an empty stack. */
    ghost predicate Valid()
      reads this
    {
      && Loaded(named) && NoTransparentCycle(named)
      && Guarded(named, resolving)
      && forall n | n in resolved ::
           && n in named && !named[n].sum && !named[n].transparent
           && Yields(named, {}, XNamed(n), Ok(Struct(resolved[n])))
    }

    constructor (registry: Registry)
      requires Loaded(registry) && NoTransparentCycle(registry)
      ensures Valid() && named == registry && resolved == map[] && resolving == {}
    {
      named := registry;
      resolved := map[];
      resolving := {};
    }

    /** typeOf: exactly what plain inlining yields, whatever the memo already holds. */
    method TypeOf(expr: string) returns (r: Result<FieldType, TypeError>)
      requires Valid() && Leads(named, resolving, Parse(named.Keys, expr))
      modifies this
      ensures Valid() && resolving == old(resolving)
      ensures Extends(old(resolved), resolved)
      ensures Yields(named, resolving, Parse(named.Keys, expr), r)
      decreases |named.Keys - resolving|, 1, RankOf(named, Parse(named.Keys, expr)), |expr|, 3
    {
      hide Parse, ParseApplied, KindOf, Trim, Unalias, MatchApplied, Leads, Yields, NoTransparentCycle, Loaded, RankOf;
      ParseBranches(named.Keys, expr);
      YieldsLeaf(named, resolving, Parse(named.Keys, expr));
      var s := Unalias(Trim(expr));
      var kind := KindOf(s);
      if kind.Some? {
        return Ok(Scalar(kind.value));
      }
      if s == STRUCT {
        return Ok(Struct([]));
      }
      if s in named {
        r := Named(s);
        return;
      }
      var m := MatchApplied(s);
      if m.None? {
        return Err(UnknownType(s));
      }
      AppliedShorter(expr);
      r := Applied(m.value.outer, m.value.inner);
    }

    /** The three ways a registered name can stand for a type. */
    method Named(name: string) returns (r: Result<FieldType, TypeError>)
      requires Valid() && name in named && Leads(named, resolving, XNamed(name))
      modifies this
      ensures Valid() && resolving == old(resolving)
      ensures Extends(old(resolved), resolved)
      ensures Yields(named, resolving, XNamed(name), r)
      decreases |named.Keys - resolving|, 1, RankOf(named, XNamed(name)), 0, 2
    {
      hide Parse, Leads, Yields, NoTransparentCycle, RankOf;
      var nt := named[name];
      if nt.sum {
        if name in resolving {
          YieldsRecursive(named, resolving, name);
          return Err(RecursiveType(name));
        }
        EnterLeads(named, resolving, name);
        SmallerSet(named.Keys - (resolving + {name}), named.Keys - resolving);
        ghost var outside := resolving;
        resolving := resolving + {name};
        r := SumType(nt.fields);
        resolving := resolving - {name};
        assert resolving == outside;
        YieldsSumName(named, resolving, name, r);
      } else if nt.transparent {
        TransparentRank(named, name);
        TransparentLeads(named, resolving, name);
        r := TypeOf(nt.fields[0].typ);
        YieldsTransparent(named, resolving, name, r);
      } else {
        var f := NamedType(name);
        r := if f.Ok? then Ok(Struct(f.value)) else Err(f.error);
      }
    }

    /** namedType: the memo first, then the cycle check, then the fields. */
    method NamedType(name: string) returns (r: Result<seq<Field>, TypeError>)
      requires Valid() && name in named && !named[name].sum && !named[name].transparent
      requires Leads(named, resolving, XNamed(name))
      modifies this
      ensures Valid() && resolving == old(resolving)
      ensures Extends(old(resolved), resolved)
      ensures Yields(named, resolving, XNamed(name), if r.Ok? then Ok(Struct(r.value)) else Err(r.error))
      decreases |named.Keys - resolving|, 0
    {
      hide Parse, Leads, Yields, NoTransparentCycle;
      if name in resolved {
        LeadsReaches(named, resolving, name);
        MemoIsSound(named, resolving, name, Struct(resolved[name]));
        return Ok(resolved[name]);
      }
      if name in resolving {
        YieldsRecursive(named, resolving, name);
        return Err(RecursiveType(name));
      }
      EnterLeads(named, resolving, name);
      SmallerSet(named.Keys - (resolving + {name}), named.Keys - resolving);
      ghost var outside := resolving;
      resolving := resolving + {name};
      r := Fields(named[name].fields);
      resolving := resolving - {name};
      assert resolving == outside;
      YieldsRecord(named, resolving, name, r);
      if r.Ok? {
        StackForgotten(named, resolving, name, Struct(r.value));
        AgreesWithMemo(name, r.value);
        resolved := resolved[name := r.value];
      }
    }

    /** A name that got memoised meanwhile got the same fields. */
    lemma AgreesWithMemo(name: string, f: seq<Field>)
      requires Valid() && Yields(named, {}, XNamed(name), Ok(Struct(f)))
      ensures name in resolved ==> resolved[name] == f
    {
      hide Yields;
      if name in resolved {
        YieldsOnce(named, {}, XNamed(name), Ok(Struct(f)), Ok(Struct(resolved[name])));
      }
    }

    /** fields: every entry in order, stopping at the first error. */
    method Fields(raw: seq<RawField>) returns (r: Result<seq<Field>, TypeError>)
      requires Valid() && forall e | e in Entries(named.Keys, false, raw) :: Leads(named, resolving, e)
      modifies this
      ensures Valid() && resolving == old(resolving)
      ensures Extends(old(resolved), resolved)
      ensures YieldsFields(named, resolving, raw, r)
      decreases |named.Keys - resolving|, 2
    {
      hide *;
      SameMemo(resolved);
      var out: seq<Field> := [];
      YieldsNoFields(named, resolving);
      for i := 0 to |raw|
        invariant Valid() && resolving == old(resolving)
        invariant Extends(old(resolved), resolved)
        invariant YieldsFields(named, resolving, raw[..i], Ok(out))
      {
        EntryLeads(named, resolving, false, raw, i);
        ghost var before := resolved;
        var t := TypeOf(raw[i].typ);
        GrowsOn(old(resolved), before, resolved);
        assert raw[..i] + [raw[i]] == raw[..i + 1];
        YieldsFieldsSnoc(named, resolving, raw[..i], raw[i], out, t);
        if t.Err? {
          assert raw[..i + 1] + raw[i + 1..] == raw;
          YieldsFieldsFail(named, resolving, raw[..i + 1], raw[i + 1..], t.error);
          return Err(t.error);
        }
        out := out + [Field(raw[i].name, t.value)];
      }
      assert raw[..|raw|] == raw;
      return Ok(out);
    }

    /** sumType: one variant per entry; an entry without a type is a unit variant. */
    method SumType(raw: seq<RawField>) returns (r: Result<FieldType, TypeError>)
      requires Valid() && forall e | e in Entries(named.Keys, true, raw) :: Leads(named, resolving, e)
      modifies this
      ensures Valid() && resolving == old(resolving)
      ensures Extends(old(resolved), resolved)
      ensures YieldsSum(named, resolving, raw, r)
      decreases |named.Keys - resolving|, 2
    {
      hide Parse, Leads, Yields, YieldsVariants, Valid, Extends, Trim;
      SameMemo(resolved);
      YieldsNoFields(named, resolving);
      if raw == [] {
        return Err(EmptySum);
      }
      var variants: seq<Variant> := [];
      for i := 0 to |raw|
        invariant Valid() && resolving == old(resolving)
        invariant Extends(old(resolved), resolved)
        invariant YieldsVariants(named, resolving, raw[..i], Ok(variants))
      {
        var arm := Variant(raw[i].name, None);
        var typeExpr := Trim(raw[i].typ);
        assert raw[..i] + [raw[i]] == raw[..i + 1];
        if typeExpr != "" {
          EntryLeads(named, resolving, true, raw, i);
          ghost var before := resolved;
          var t := TypeOf(typeExpr);
          GrowsOn(old(resolved), before, resolved);
          YieldsVariantsSnoc(named, resolving, raw[..i], raw[i], variants, t);
          if t.Err? {
            assert raw[..i + 1] + raw[i + 1..] == raw;
            YieldsVariantsFail(named, resolving, raw[..i + 1], raw[i + 1..], t.error);
            YieldsSumOf(named, resolving, raw, Err(t.error));
            return Err(t.error);
          }
          arm := Variant(raw[i].name, Some(t.value));
        } else {
          YieldsVariantsSnoc(named, resolving, raw[..i], raw[i], variants, Ok(Struct([])));
        }
        variants := variants + [arm];
      }
      assert raw[..|raw|] == raw;
      YieldsSumOf(named, resolving, raw, Ok(variants));
      return Ok(Sum(variants));
    }

    /** The parameterized forms. */
    method Applied(outer: string, inner: string) returns (r: Result<FieldType, TypeError>)
      requires Valid() && Leads(named, resolving, ParseApplied(named.Keys, outer, inner))
      modifies this
      ensures Valid() && resolving == old(resolving)
      ensures Extends(old(resolved), resolved)
      ensures Yields(named, resolving, ParseApplied(named.Keys, outer, inner), r)
      decreases |named.Keys - resolving|, 1, RankOf(named, ParseApplied(named.Keys, outer, inner)), |inner| + 1, 2
    {
      hide Parse, ParseApplied, FormerOf, KeyValue, LastComma, EnumValues, SplitCommas, Atoi, Trim, Yields,
           NoTransparentCycle, Guarded, Valid, Extends;
      AppliedBranches(named.Keys, outer, inner);
      ghost var e := ParseApplied(named.Keys, outer, inner);
      YieldsLeaf(named, resolving, e);
      SameMemo(resolved);
      match FormerOf(outer)
      case None => r := Err(UnknownParameterized(outer));
      case Some(FEnum) =>
        var vals := EnumValues(SplitCommas(inner));
        r := if vals == [] then Err(EmptyEnum) else Ok(Enum(vals));
      case Some(FOptional) =>
        r := TypeOf(inner);
        YieldsInner(named, resolving, e.elem, None, r);
        r := if r.Ok? then Ok(Optional(r.value)) else r;
      case Some(FList) =>
        r := TypeOf(inner);
        YieldsInner(named, resolving, e.elem, None, r);
        r := if r.Ok? then Ok(List(r.value)) else r;
      case Some(FArray) => r := ArrayOf(inner);
      case Some(FMap) => r := MapOf(inner);
      case Some(FSum) => r := Err(SumAsExpression);
    }

    /** array<T,N>: cut at the last comma; the element is resolved before the size is read. */
    method ArrayOf(inner: string) returns (r: Result<FieldType, TypeError>)
      requires Valid() && Leads(named, resolving, ArrayExpr(named.Keys, inner))
      modifies this
      ensures Valid() && resolving == old(resolving)
      ensures Extends(old(resolved), resolved)
      ensures Yields(named, resolving, ArrayExpr(named.Keys, inner), r)
      decreases |named.Keys - resolving|, 1, RankOf(named, ArrayExpr(named.Keys, inner)), |inner| + 1, 1
    {
      hide Parse, LastComma, Atoi, Trim, Yields, NoTransparentCycle, Guarded, Valid, Extends;
      ghost var e := ArrayExpr(named.Keys, inner);
      YieldsLeaf(named, resolving, e);
      SameMemo(resolved);
      var comma := LastComma(inner);
      if comma < 0 {
        return Err(ArrayWithoutSize);
      }
      r := TypeOf(inner[..comma]);
      var n := Atoi(Trim(inner[comma + 1..]));
      YieldsInner(named, resolving, e.elem, n, r);
      r := if r.Err? then r else if n.None? then Err(ArrayBadSize) else Ok(Array(r.value, n.value));
    }

    /** map<K,V>: exactly two arguments at the top nesting level, key first. */
    method MapOf(inner: string) returns (r: Result<FieldType, TypeError>)
      requires Valid() && Leads(named, resolving, MapExpr(named.Keys, inner))
      modifies this
      ensures Valid() && resolving == old(resolving)
      ensures Extends(old(resolved), resolved)
      ensures Yields(named, resolving, MapExpr(named.Keys, inner), r)
      decreases |named.Keys - resolving|, 1, RankOf(named, MapExpr(named.Keys, inner)), |inner| + 1, 1
    {
      hide Parse, KeyValue, Yields, NoTransparentCycle, Guarded, Valid, Extends;
      ghost var e := MapExpr(named.Keys, inner);
      YieldsLeaf(named, resolving, e);
      SameMemo(resolved);
      var kv := KeyValue(inner);
      if kv.None? {
        return Err(MapArity);
      }
      var key := TypeOf(kv.value.key);
      YieldsInner(named, resolving, e.key, None, key);
      if key.Err? {
        return key;
      }
      ghost var between := resolved;
      r := TypeOf(kv.value.value);
      GrowsOn(old(resolved), between, resolved);
      YieldsMap(named, resolving, e.key, e.elem, key.value, r);
      r := if r.Ok? then Ok(Map(key.value, r.value)) else r;
    }
  }

  /** The array arm of a type expression. */
  function ArrayExpr(names: set<string>, inner: string): TypeExpr {
    if LastComma(inner) < 0 then XError(ArrayWithoutSize)
    else XArray(Parse(names, inner[..LastComma(inner)]), Atoi(Trim(inner[LastComma(inner) + 1..])))
  }

  /** The map arm of a type expression. */
  function MapExpr(names: set<string>, inner: string): TypeExpr {
    if KeyValue(inner).None? then XError(MapArity)
    else XMap(Parse(names, KeyValue(inner).value.key), Parse(names, KeyValue(inner).value.value))
  }

  lemma SameMemo(memo: map<string, seq<Field>>)
    ensures Extends(memo, memo)
  {
  }

  lemma GrowsOn(a: map<string, seq<Field>>, b: map<string, seq<Field>>, c: map<string, seq<Field>>)
    requires Extends(a, b) && Extends(b, c)
    ensures Extends(a, c)
  {
  }

  lemma LeadsReaches(reg: Registry, stack: set<string>, n: string)
    requires Leads(reg, stack, XNamed(n))
    ensures forall m | m in stack :: Reaches(reg, m, n)
  {
    assert n in Refs(XNamed(n));
  }

  lemma EnterLeads(reg: Registry, stack: set<string>, n: string)
    requires n in reg && Leads(reg, stack, XNamed(n))
    ensures forall e | e in Body(reg, n) :: Leads(reg, stack + {n}, e)
  {
    hide Leads, Parse;
    EntriesRegistered(reg.Keys, reg[n].sum, reg[n].fields);
    forall e | e in Body(reg, n) ensures Leads(reg, stack + {n}, e) {
      LeadsOn(reg, stack, n, e);
    }
  }

  lemma TransparentLeads(reg: Registry, stack: set<string>, n: string)
    requires Loaded(reg) && n in reg && reg[n].transparent && Leads(reg, stack, XNamed(n))
    ensures Leads(reg, stack, Parse(reg.Keys, reg[n].fields[0].typ))
  {
    hide Leads, Parse;
    TransparentBody(reg, n);
    var e := Body(reg, n)[0];
    assert e in Body(reg, n);
    RefsRegistered(reg.Keys, reg[n].fields[0].typ);
    LeadsOn(reg, stack, n, e);
  }

  lemma {:induction false} EntryLeads(reg: Registry, stack: set<string>, sum: bool, fs: seq<RawField>, i: nat)
    requires i < |fs| && forall e | e in Entries(reg.Keys, sum, fs) :: Leads(reg, stack, e)
    requires sum ==> Trim(fs[i].typ) != ""
    ensures Leads(reg, stack, Parse(reg.Keys, if sum then Trim(fs[i].typ) else fs[i].typ))
  {
    hide Leads, Parse, Trim;
    if i > 0 {
      EntryLeads(reg, stack, sum, fs[1..], i - 1);
    } else {
      var e := Parse(reg.Keys, if sum then Trim(fs[0].typ) else fs[0].typ);
      assert e in Entries(reg.Keys, sum, fs);
    }
  }
}
