/** The main results about inlining: when it succeeds, when it stops, and why a
    result found once may be reused. */
module Resolution {
  import opened Common
  import opened Text
  import opened TypeLang
  import opened Inlining

  // ---- success, exactly ----------------------------------------------------

  ghost function TouchSet(reg: Registry, e: TypeExpr): set<string> {
    set n | n in reg.Keys && Touches(reg, e, n)
  }

  /** What the body of an acyclic name touches is a proper part of what the name touches. */
  lemma BodySmaller(reg: Registry, n: string, b: TypeExpr)
    requires n in reg && b in Body(reg, n) && Refs(b) <= reg.Keys && !Reaches(reg, n, n)
    ensures TouchSet(reg, b) < TouchSet(reg, XNamed(n)) && |TouchSet(reg, b)| < |TouchSet(reg, XNamed(n))|
  {
    hide Body;
    forall c | c in TouchSet(reg, b) ensures c in TouchSet(reg, XNamed(n)) && c != n {
      BodyReached(reg, n, b, c);
    }
    assert n in TouchSet(reg, XNamed(n));
    SmallerSet(TouchSet(reg, b), TouchSet(reg, XNamed(n)));
  }

  lemma SmallerSet<T>(a: set<T>, b: set<T>)
    requires a < b
    ensures |a| < |b|
  {
    assert b == a + (b - a);
    assert b - a != {};
  }

  lemma BodyResolvable(reg: Registry, n: string, b: TypeExpr, stack: set<string>)
    requires Loaded(reg) && Resolvable(reg, XNamed(n)) && Avoids(reg, XNamed(n), stack)
    requires n in reg && b in Body(reg, n) && Refs(b) <= reg.Keys
    ensures Resolvable(reg, b) && Avoids(reg, b, stack + {n})
  {
    hide Body;
    assert Acyclic(reg, n) by { assert Touches(reg, XNamed(n), n); }
    forall c | Touches(reg, b, c) ensures Touches(reg, XNamed(n), c) && Reaches(reg, n, c) {
      BodyReached(reg, n, b, c);
    }
  }

  lemma {:induction false} ResolvableSucceeds(reg: Registry, bound: nat, stack: set<string>,
      e: TypeExpr) returns (t: FieldType)
    requires Loaded(reg) && Refs(e) <= reg.Keys
    requires Resolvable(reg, e) && Avoids(reg, e, stack) && |TouchSet(reg, e)| <= bound
    ensures Yields(reg, stack, e, Ok(t))
    decreases bound, 2, e
  {
    hide Parse, Run, Acyclic;
    match e
    case XScalar(k) => YieldsLeaf(reg, stack, e); t := Scalar(k);
    case XStruct => YieldsLeaf(reg, stack, e); t := Struct([]);
    case XEnum(values) => YieldsLeaf(reg, stack, e); t := Enum(values);
    case XOptional(x) =>
      TouchesInner(reg, e, x);
      t := ResolvableSucceeds(reg, bound, stack, x);
      YieldsInner(reg, stack, x, None, Ok(t));
      t := Optional(t);
    case XList(x) =>
      TouchesInner(reg, e, x);
      t := ResolvableSucceeds(reg, bound, stack, x);
      YieldsInner(reg, stack, x, None, Ok(t));
      t := List(t);
    case XArray(x, size) =>
      TouchesInner(reg, e, x);
      t := ResolvableSucceeds(reg, bound, stack, x);
      YieldsInner(reg, stack, x, size, Ok(t));
      t := Array(t, size.value);
    case XMap(k, x) =>
      TouchesInner(reg, e, k);
      TouchesInner(reg, e, x);
      var kt := ResolvableSucceeds(reg, bound, stack, k);
      t := ResolvableSucceeds(reg, bound, stack, x);
      YieldsMap(reg, stack, k, x, kt, Ok(t));
      t := Map(kt, t);
    case XNamed(n) => t := NamedSucceeds(reg, bound, stack, n);
  }

  lemma TouchesInner(reg: Registry, e: TypeExpr, x: TypeExpr)
    requires Refs(x) <= Refs(e)
    ensures forall n :: Touches(reg, x, n) ==> Touches(reg, e, n)
    ensures |TouchSet(reg, x)| <= |TouchSet(reg, e)|
  {
    assert TouchSet(reg, x) <= TouchSet(reg, e);
    if TouchSet(reg, x) != TouchSet(reg, e) {
      SmallerSet(TouchSet(reg, x), TouchSet(reg, e));
    }
  }

  lemma NamedFacts(reg: Registry, stack: set<string>, n: string)
    requires Loaded(reg) && n in reg && Resolvable(reg, XNamed(n)) && Avoids(reg, XNamed(n), stack)
    ensures n !in stack && (reg[n].sum ==> reg[n].fields != [])
    ensures forall b | b in Body(reg, n) :: Refs(b) <= reg.Keys && Resolvable(reg, b)
              && Avoids(reg, b, stack + {n}) && Avoids(reg, b, stack)
              && |TouchSet(reg, b)| < |TouchSet(reg, XNamed(n))|
  {
    hide Parse;
    assert Touches(reg, XNamed(n), n);
    assert Acyclic(reg, n);
    EntriesRegistered(reg.Keys, reg[n].sum, reg[n].fields);
    forall b | b in Body(reg, n)
      ensures Resolvable(reg, b) && Avoids(reg, b, stack + {n}) && |TouchSet(reg, b)| < |TouchSet(reg, XNamed(n))|
    {
      BodyResolvable(reg, n, b, stack);
      BodySmaller(reg, n, b);
    }
  }

  lemma {:induction false} NamedSucceeds(reg: Registry, bound: nat, stack: set<string>,
      n: string) returns (t: FieldType)
    requires Loaded(reg) && n in reg
    requires Resolvable(reg, XNamed(n)) && Avoids(reg, XNamed(n), stack) && |TouchSet(reg, XNamed(n))| <= bound
    ensures Yields(reg, stack, XNamed(n), Ok(t))
    decreases bound, 1
  {
    hide Parse, Resolvable, Avoids, TouchSet, Yields;
    NamedFacts(reg, stack, n);
    if reg[n].sum {
      var out := VariantsSucceed(reg, bound, stack + {n}, reg[n].fields);
      YieldsSumOf(reg, stack + {n}, reg[n].fields, Ok(out));
      YieldsSumName(reg, stack, n, Ok(Sum(out)));
      t := Sum(out);
    } else if reg[n].transparent {
      TransparentBody(reg, n);
      var b := Parse(reg.Keys, reg[n].fields[0].typ);
      assert b in Body(reg, n);
      t := ResolvableSucceeds(reg, bound - 1, stack, b);
      YieldsTransparent(reg, stack, n, Ok(t));
    } else {
      var out := FieldsSucceed(reg, bound, stack + {n}, reg[n].fields);
      YieldsRecord(reg, stack, n, Ok(out));
      t := Struct(out);
    }
  }

  lemma {:induction false} EntriesSnoc(names: set<string>, sum: bool, fs: seq<RawField>, f: RawField)
    ensures Entries(names, sum, fs + [f]) == Entries(names, sum, fs) + Entries(names, sum, [f])
  {
    hide Parse, Trim;
    if fs == [] {
      assert fs + [f] == [f];
    } else {
      assert (fs + [f])[1..] == fs[1..] + [f];
      EntriesSnoc(names, sum, fs[1..], f);
    }
  }

  lemma {:induction false} FieldsSucceed(reg: Registry, bound: nat, stack: set<string>,
      fs: seq<RawField>) returns (out: seq<Field>)
    requires Loaded(reg)
    requires forall b | b in Entries(reg.Keys, false, fs) ::
               Refs(b) <= reg.Keys && Resolvable(reg, b) && Avoids(reg, b, stack) && |TouchSet(reg, b)| < bound
    ensures YieldsFields(reg, stack, fs, Ok(out))
    decreases bound, 0, |fs|
  {
    hide Parse, Resolvable, Avoids, TouchSet, Yields, YieldsFields;
    if fs == [] {
      YieldsNoFields(reg, stack);
      out := [];
    } else {
      var init, last := fs[..|fs| - 1], fs[|fs| - 1];
      assert fs == init + [last];
      EntriesSnoc(reg.Keys, false, init, last);
      var e := Parse(reg.Keys, last.typ);
      assert Entries(reg.Keys, false, [last]) == [e] by { assert [last][1..] == []; }
      assert e in Entries(reg.Keys, false, fs);
      out := FieldsSucceed(reg, bound, stack, init);
      var t := ResolvableSucceeds(reg, bound - 1, stack, e);
      YieldsFieldsSnoc(reg, stack, init, last, out, Ok(t));
      out := out + [Field(last.name, t)];
    }
  }

  lemma {:induction false} VariantsSucceed(reg: Registry, bound: nat, stack: set<string>,
      fs: seq<RawField>) returns (out: seq<Variant>)
    requires Loaded(reg)
    requires forall b | b in Entries(reg.Keys, true, fs) ::
               Refs(b) <= reg.Keys && Resolvable(reg, b) && Avoids(reg, b, stack) && |TouchSet(reg, b)| < bound
    ensures YieldsVariants(reg, stack, fs, Ok(out))
    decreases bound, 0, |fs|
  {
    hide Parse, Resolvable, Avoids, TouchSet, Yields, YieldsVariants, Trim;
    if fs == [] {
      YieldsNoFields(reg, stack);
      out := [];
    } else {
      var init, last := fs[..|fs| - 1], fs[|fs| - 1];
      assert fs == init + [last];
      EntriesSnoc(reg.Keys, true, init, last);
      out := VariantsSucceed(reg, bound, stack, init);
      var t := Struct([]);
      if Trim(last.typ) != "" {
        var e := Parse(reg.Keys, Trim(last.typ));
        assert Entries(reg.Keys, true, [last]) == [e] by { assert [last][1..] == []; }
        assert e in Entries(reg.Keys, true, fs);
        t := ResolvableSucceeds(reg, bound - 1, stack, e);
      }
      YieldsVariantsSnoc(reg, stack, init, last, out, Ok(t));
      out := out + [Variant(last.name, if Trim(last.typ) == "" then None else Some(t))];
    }
  }

  /** On every registry, with or without cycles: inlining yields a type exactly
      when nothing reachable is unknown, unreadable or recursive, and nothing on
      the stack is met again. */
  lemma SucceedsExactly(reg: Registry, stack: set<string>, e: TypeExpr)
    requires Loaded(reg) && Refs(e) <= reg.Keys && Guarded(reg, stack)
    ensures (exists t :: Yields(reg, stack, e, Ok(t))) <==> Resolvable(reg, e) && Avoids(reg, e, stack)
  {
    hide Run, Resolvable, Avoids;
    if Resolvable(reg, e) && Avoids(reg, e, stack) {
      var t := ResolvableSucceeds(reg, |TouchSet(reg, e)|, stack, e);
    }
    if t :| Yields(reg, stack, e, Ok(t)) {
      var k: nat :| Run(reg, k, stack, e) == Some(Ok(t));
      SuccessIsResolvable(reg, k, stack, e);
    }
  }

  // ---- the stack does not shape the result ---------------------------------

  lemma {:induction false} SameType(reg: Registry, a: nat, b: nat, s: set<string>, u: set<string>, e: TypeExpr)
    requires Run(reg, a, s, e).Some? && Run(reg, a, s, e).value.Ok?
    requires Run(reg, b, u, e).Some? && Run(reg, b, u, e).value.Ok?
    ensures Run(reg, a, s, e) == Run(reg, b, u, e)
    decreases a
  {
    hide Parse;
    match e
    case XOptional(x) => SameType(reg, a - 1, b - 1, s, u, x);
    case XList(x) => SameType(reg, a - 1, b - 1, s, u, x);
    case XArray(x, _) => SameType(reg, a - 1, b - 1, s, u, x);
    case XMap(k, x) =>
      SameType(reg, a - 1, b - 1, s, u, k);
      SameType(reg, a - 1, b - 1, s, u, x);
    case XNamed(n) => SameNamed(reg, a - 1, b - 1, s, u, n);
    case _ =>
  }

  lemma {:induction false} SameNamed(reg: Registry, a: nat, b: nat, s: set<string>, u: set<string>, n: string)
    requires RunNamed(reg, a, s, n).Some? && RunNamed(reg, a, s, n).value.Ok?
    requires RunNamed(reg, b, u, n).Some? && RunNamed(reg, b, u, n).value.Ok?
    ensures RunNamed(reg, a, s, n) == RunNamed(reg, b, u, n)
    decreases a
  {
    hide Parse, Run, RunFields, RunVariants;
    if reg[n].sum {
      SameVariants(reg, a - 2, b - 2, s + {n}, u + {n}, reg[n].fields);
    } else if reg[n].transparent && |reg[n].fields| > 0 {
      SameType(reg, a - 1, b - 1, s, u, Parse(reg.Keys, reg[n].fields[0].typ));
    } else {
      SameFields(reg, a - 1, b - 1, s + {n}, u + {n}, reg[n].fields);
    }
  }

  lemma {:induction false} SameFields(reg: Registry, a: nat, b: nat, s: set<string>, u: set<string>, fs: seq<RawField>)
    requires RunFields(reg, a, s, fs).Some? && RunFields(reg, a, s, fs).value.Ok?
    requires RunFields(reg, b, u, fs).Some? && RunFields(reg, b, u, fs).value.Ok?
    ensures RunFields(reg, a, s, fs) == RunFields(reg, b, u, fs)
    decreases a
  {
    hide Parse, Run;
    if fs != [] {
      SameType(reg, a - 1, b - 1, s, u, Parse(reg.Keys, fs[0].typ));
      SameFields(reg, a - 1, b - 1, s, u, fs[1..]);
    }
  }

  lemma {:induction false} SameVariants(reg: Registry, a: nat, b: nat, s: set<string>, u: set<string>,
      fs: seq<RawField>)
    requires RunVariants(reg, a, s, fs).Some? && RunVariants(reg, a, s, fs).value.Ok?
    requires RunVariants(reg, b, u, fs).Some? && RunVariants(reg, b, u, fs).value.Ok?
    ensures RunVariants(reg, a, s, fs) == RunVariants(reg, b, u, fs)
    decreases a
  {
    hide Parse, Run, Trim;
    if fs != [] {
      if Trim(fs[0].typ) != "" {
        SameType(reg, a - 1, b - 1, s, u, Parse(reg.Keys, Trim(fs[0].typ)));
      }
      SameVariants(reg, a - 1, b - 1, s, u, fs[1..]);
    }
  }

  /** Why the memo is sound: a type inlined once, from an empty stack, is what any
      later stack yields too, as long as everything on that stack leads here. The
      memo never hides a recursion error. */
  lemma MemoIsSound(reg: Registry, stack: set<string>, n: string, t: FieldType)
    requires Loaded(reg) && n in reg && Guarded(reg, stack)
    requires Yields(reg, {}, XNamed(n), Ok(t))
    requires forall m | m in stack :: Reaches(reg, m, n)
    ensures Yields(reg, stack, XNamed(n), Ok(t))
  {
    hide Run;
    var k: nat :| Run(reg, k, {}, XNamed(n)) == Some(Ok(t));
    SuccessIsResolvable(reg, k, {}, XNamed(n));
    assert Touches(reg, XNamed(n), n);
    forall m | m in stack ensures !Touches(reg, XNamed(n), m) {
      if Touches(reg, XNamed(n), m) {
        if m != n {
          ReachesTransitive(reg, n, m, n);
        }
        assert false;
      }
    }
    var t' := ResolvableSucceeds(reg, |TouchSet(reg, XNamed(n))|, stack, XNamed(n));
    var k': nat :| Run(reg, k', stack, XNamed(n)) == Some(Ok(t'));
    SameType(reg, k, k', {}, stack, XNamed(n));
  }

  /** Conversely, a success under any stack is a success from an empty one. */
  lemma StackForgotten(reg: Registry, stack: set<string>, n: string, t: FieldType)
    requires Loaded(reg) && n in reg && Guarded(reg, stack)
    requires Yields(reg, stack, XNamed(n), Ok(t))
    ensures Yields(reg, {}, XNamed(n), Ok(t))
  {
    hide Run;
    var k: nat :| Run(reg, k, stack, XNamed(n)) == Some(Ok(t));
    SuccessIsResolvable(reg, k, stack, XNamed(n));
    var t' := ResolvableSucceeds(reg, |TouchSet(reg, XNamed(n))|, {}, XNamed(n));
    var k': nat :| Run(reg, k', {}, XNamed(n)) == Some(Ok(t'));
    SameType(reg, k, k', stack, {}, XNamed(n));
  }

  // ---- when inlining stops -------------------------------------------------

  /** The transparent types a transparent type leads to through transparent types only. */
  ghost function TransparentSet(reg: Registry, n: string): set<string> {
    set m | m in reg.Keys && TransparentlyReaches(reg, n, m)
  }

  ghost function RankOf(reg: Registry, e: TypeExpr): nat {
    match e
    case XNamed(n) => if n in reg && reg[n].transparent then 1 + |TransparentSet(reg, n)| else 0
    case XOptional(x) => RankOf(reg, x)
    case XList(x) => RankOf(reg, x)
    case XArray(x, _) => RankOf(reg, x)
    case XMap(k, x) => Max(RankOf(reg, k), RankOf(reg, x))
    case _ => 0
  }

  /** What `m` reaches through transparent types, so does a transparent `n` with an edge to it. */
  lemma TransparentExtends(reg: Registry, n: string, m: string, c: string)
    requires Edge(reg, n, m) && n in reg && reg[n].transparent && c in TransparentSet(reg, m)
    ensures c in TransparentSet(reg, n)
  {
    hide Edge;
    var p :| |p| >= 2 && p[0] == m && p[|p| - 1] == c && Path(reg, p) &&
             forall i | 0 <= i < |p| :: p[i] in reg && reg[p[i]].transparent;
    var q := [n] + p;
    forall i | 0 <= i < |q| - 1 ensures Edge(reg, q[i], q[i + 1]) {
      if i > 0 { assert q[i] == p[i - 1] && q[i + 1] == p[i]; assert Edge(reg, p[i - 1], p[i - 1 + 1]); }
    }
    assert q[0] == n && q[|q| - 1] == c && Path(reg, q);
    assert forall i | 0 <= i < |q| :: q[i] in reg && reg[q[i]].transparent;
  }

  lemma TransparentSetShrinks(reg: Registry, n: string, m: string)
    requires NoTransparentCycle(reg) && Edge(reg, n, m) && reg[n].transparent && reg[m].transparent
    ensures |TransparentSet(reg, m)| < |TransparentSet(reg, n)|
  {
    hide Edge;
    assert n in reg && m in reg by { EdgeEnds(reg, n, m); }
    forall c | c in TransparentSet(reg, m) ensures c in TransparentSet(reg, n) {
      TransparentExtends(reg, n, m, c);
    }
    var p := [n, m];
    assert Path(reg, p) && p[0] == n && p[|p| - 1] == m;
    assert forall i | 0 <= i < |p| :: p[i] in reg && reg[p[i]].transparent;
    assert m in TransparentSet(reg, n) && m !in TransparentSet(reg, m);
    SmallerSet(TransparentSet(reg, m), TransparentSet(reg, n));
  }

  lemma EdgeEnds(reg: Registry, n: string, m: string)
    requires Edge(reg, n, m)
    ensures n in reg && m in reg
  {
  }

  lemma {:induction false} BodyRank(reg: Registry, n: string, e: TypeExpr)
    requires NoTransparentCycle(reg) && n in reg && reg[n].transparent
    requires forall m | m in Refs(e) :: Edge(reg, n, m)
    ensures RankOf(reg, e) <= |TransparentSet(reg, n)|
  {
    hide Edge, NoTransparentCycle, TransparentSet;
    match e
    case XNamed(m) =>
      if m in reg && reg[m].transparent {
        TransparentSetShrinks(reg, n, m);
      }
    case XOptional(x) => BodyRank(reg, n, x);
    case XList(x) => BodyRank(reg, n, x);
    case XArray(x, _) => BodyRank(reg, n, x);
    case XMap(k, x) => BodyRank(reg, n, k); BodyRank(reg, n, x);
    case _ =>
  }

  /** Following a transparent type lowers the rank. */
  lemma TransparentRank(reg: Registry, n: string)
    requires Loaded(reg) && NoTransparentCycle(reg) && n in reg && reg[n].transparent
    ensures RankOf(reg, Parse(reg.Keys, reg[n].fields[0].typ)) < RankOf(reg, XNamed(n))
  {
    hide Parse, NoTransparentCycle, TransparentSet;
    var e := Parse(reg.Keys, reg[n].fields[0].typ);
    RefsRegistered(reg.Keys, reg[n].fields[0].typ);
    TransparentBody(reg, n);
    assert e in Body(reg, n);
    RefsIncluded(Body(reg, n), e);
    BodyRank(reg, n, e);
  }

  /** Without a transparent cycle inlining always ends, with a type or an error. */
  lemma {:induction false} Terminates(reg: Registry, stack: set<string>, e: TypeExpr) returns (r: Result<FieldType,
      TypeError>)
    requires Loaded(reg) && NoTransparentCycle(reg) && Refs(e) <= reg.Keys && stack <= reg.Keys
    ensures Yields(reg, stack, e, r)
    decreases |reg.Keys - stack|, 1, RankOf(reg, e), e
  {
    hide Parse, Yields, NoTransparentCycle, TransparentSet;
    YieldsLeaf(reg, stack, e);
    match e
    case XScalar(k) => r := Ok(Scalar(k));
    case XStruct => r := Ok(Struct([]));
    case XEnum(values) => r := Ok(Enum(values));
    case XError(error) => r := Err(error);
    case XOptional(x) =>
      r := Terminates(reg, stack, x);
      YieldsInner(reg, stack, x, None, r);
      r := if r.Ok? then Ok(Optional(r.value)) else r;
    case XList(x) =>
      r := Terminates(reg, stack, x);
      YieldsInner(reg, stack, x, None, r);
      r := if r.Ok? then Ok(List(r.value)) else r;
    case XArray(x, size) =>
      r := Terminates(reg, stack, x);
      YieldsInner(reg, stack, x, size, r);
      r := if r.Err? then r else if size.None? then Err(ArrayBadSize) else Ok(Array(r.value, size.value));
    case XMap(k, x) =>
      var kt := Terminates(reg, stack, k);
      if kt.Ok? {
        r := Terminates(reg, stack, x);
        YieldsMap(reg, stack, k, x, kt.value, r);
        r := if r.Ok? then Ok(Map(kt.value, r.value)) else r;
      } else {
        YieldsInner(reg, stack, k, None, kt);
        r := kt;
      }
    case XNamed(n) =>
      if reg[n].transparent {
        TransparentRank(reg, n);
        RefsRegistered(reg.Keys, reg[n].fields[0].typ);
        r := Terminates(reg, stack, Parse(reg.Keys, reg[n].fields[0].typ));
        YieldsTransparent(reg, stack, n, r);
      } else {
        r := NamedTerminates(reg, stack, n);
      }
  }

  lemma {:induction false} NamedTerminates(reg: Registry, stack: set<string>,
      n: string) returns (r: Result<FieldType, TypeError>)
    requires Loaded(reg) && NoTransparentCycle(reg) && n in reg && stack <= reg.Keys && !reg[n].transparent
    ensures Yields(reg, stack, XNamed(n), r)
    decreases |reg.Keys - stack|, 0
  {
    hide Parse, Yields, NoTransparentCycle;
    if n in stack {
      YieldsRecursive(reg, stack, n);
      r := Err(RecursiveType(n));
    } else {
      SmallerSet(reg.Keys - (stack + {n}), reg.Keys - stack);
      if reg[n].sum {
        if reg[n].fields == [] {
          YieldsNoFields(reg, stack + {n});
          r := Err(EmptySum);
        } else {
          var out := VariantsTerminate(reg, stack + {n}, reg[n].fields);
          YieldsSumOf(reg, stack + {n}, reg[n].fields, out);
          r := if out.Ok? then Ok(Sum(out.value)) else Err(out.error);
        }
        YieldsSumName(reg, stack, n, r);
      } else {
        var out := FieldsTerminate(reg, stack + {n}, reg[n].fields);
        YieldsRecord(reg, stack, n, out);
        r := if out.Ok? then Ok(Struct(out.value)) else Err(out.error);
      }
    }
  }

  lemma {:induction false} FieldsTerminate(reg: Registry, stack: set<string>,
      fs: seq<RawField>) returns (r: Result<seq<Field>, TypeError>)
    requires Loaded(reg) && NoTransparentCycle(reg) && stack <= reg.Keys
    ensures YieldsFields(reg, stack, fs, r)
    decreases |reg.Keys - stack|, 2, |fs|
  {
    hide Parse, Yields, YieldsFields, NoTransparentCycle;
    if fs == [] {
      YieldsNoFields(reg, stack);
      r := Ok([]);
    } else {
      var init, last := fs[..|fs| - 1], fs[|fs| - 1];
      assert fs == init + [last];
      r := FieldsTerminate(reg, stack, init);
      if r.Ok? {
        RefsRegistered(reg.Keys, last.typ);
        var t := Terminates(reg, stack, Parse(reg.Keys, last.typ));
        YieldsFieldsSnoc(reg, stack, init, last, r.value, t);
        r := if t.Ok? then Ok(r.value + [Field(last.name, t.value)]) else Err(t.error);
      } else {
        YieldsFieldsFail(reg, stack, init, [last], r.error);
      }
    }
  }

  lemma {:induction false} VariantsTerminate(reg: Registry, stack: set<string>,
      fs: seq<RawField>) returns (r: Result<seq<Variant>, TypeError>)
    requires Loaded(reg) && NoTransparentCycle(reg) && stack <= reg.Keys
    ensures YieldsVariants(reg, stack, fs, r)
    decreases |reg.Keys - stack|, 2, |fs|
  {
    hide Parse, Yields, YieldsVariants, NoTransparentCycle, Trim;
    if fs == [] {
      YieldsNoFields(reg, stack);
      r := Ok([]);
    } else {
      var init, last := fs[..|fs| - 1], fs[|fs| - 1];
      assert fs == init + [last];
      r := VariantsTerminate(reg, stack, init);
      if r.Ok? {
        var t: Result<FieldType, TypeError> := Ok(Struct([]));
        if Trim(last.typ) != "" {
          RefsRegistered(reg.Keys, Trim(last.typ));
          t := Terminates(reg, stack, Parse(reg.Keys, Trim(last.typ)));
        }
        YieldsVariantsSnoc(reg, stack, init, last, r.value, t);
        r := if t.Err? then Err(t.error)
             else Ok(r.value + [Variant(last.name, if Trim(last.typ) == "" then None else Some(t.value))]);
      } else {
        YieldsVariantsFail(reg, stack, init, [last], r.error);
      }
    }
  }

  // ---- the transparent arm has no guard ------------------------------------

  ghost predicate NoGuardedCycle(reg: Registry) {
    forall n | n in reg && !reg[n].transparent :: !Reaches(reg, n, n)
  }

  /** Everything on the stack leads to everything `e` looks up. */
  ghost predicate Leads(reg: Registry, stack: set<string>, e: TypeExpr) {
    forall m, n | m in stack && n in Refs(e) :: Reaches(reg, m, n)
  }

  /** With readable bodies and no recursion through a record or a sum, no error is left to report. */
  lemma {:induction false} NeverFails(reg: Registry, k: nat, stack: set<string>, e: TypeExpr)
    requires Loaded(reg) && NoGuardedCycle(reg) && (forall n | n in reg :: ReadableBody(reg, n))
    requires Readable(e) && Refs(e) <= reg.Keys && Guarded(reg, stack) && Leads(reg, stack, e)
    ensures Run(reg, k, stack, e).Some? ==> Run(reg, k, stack, e).value.Ok?
    decreases k
  {
    hide Parse, NoGuardedCycle, ReadableBody;
    if k > 0 {
      match e
      case XOptional(x) => NeverFails(reg, k - 1, stack, x);
      case XList(x) => NeverFails(reg, k - 1, stack, x);
      case XArray(x, _) => NeverFails(reg, k - 1, stack, x);
      case XMap(key, x) =>
        NeverFails(reg, k - 1, stack, key);
        NeverFails(reg, k - 1, stack, x);
      case XNamed(n) => NamedNeverFails(reg, k - 1, stack, n);
      case _ =>
    }
  }

  lemma LeadsOn(reg: Registry, stack: set<string>, n: string, b: TypeExpr)
    requires n in reg && Leads(reg, stack, XNamed(n)) && b in Body(reg, n) && Refs(b) <= reg.Keys
    ensures Leads(reg, stack + {n}, b) && Leads(reg, stack, b)
  {
    hide Body;
    RefsIncluded(Body(reg, n), b);
    forall c | c in Refs(b) ensures Reaches(reg, n, c) && forall m | m in stack :: Reaches(reg, m, c) {
      BodyReached(reg, n, b, c);
      assert n in Refs(XNamed(n));
      forall m | m in stack ensures Reaches(reg, m, c) {
        ReachesTransitive(reg, m, n, c);
      }
    }
  }

  lemma {:induction false} NamedNeverFails(reg: Registry, k: nat, stack: set<string>, n: string)
    requires Loaded(reg) && NoGuardedCycle(reg) && (forall c | c in reg :: ReadableBody(reg, c))
    requires n in reg && Guarded(reg, stack) && Leads(reg, stack, XNamed(n))
    ensures RunNamed(reg, k, stack, n).Some? ==> RunNamed(reg, k, stack, n).value.Ok?
    decreases k
  {
    hide Parse, Run, RunFields, RunVariants, Readable, Leads, NoGuardedCycle, Guarded, Entries;
    BodyFacts(reg, stack, n);
    if k > 0 {
      if reg[n].sum {
        if k >= 2 {
          GuardedMore(reg, stack, n);
          VariantsNeverFail(reg, k - 2, stack + {n}, reg[n].fields);
        }
      } else if reg[n].transparent {
        TransparentBody(reg, n);
        var b := Body(reg, n)[0];
        assert b in Body(reg, n);
        NeverFails(reg, k - 1, stack, b);
      } else if n !in stack {
        GuardedMore(reg, stack, n);
        FieldsNeverFail(reg, k - 1, stack + {n}, reg[n].fields);
      }
    }
  }

  lemma GuardedMore(reg: Registry, stack: set<string>, n: string)
    requires Guarded(reg, stack) && n in reg && !reg[n].transparent
    ensures Guarded(reg, stack + {n})
  {
  }

  lemma BodyFacts(reg: Registry, stack: set<string>, n: string)
    requires Loaded(reg) && NoGuardedCycle(reg) && n in reg && ReadableBody(reg, n)
    requires Guarded(reg, stack) && Leads(reg, stack, XNamed(n))
    ensures n !in stack && (reg[n].sum ==> reg[n].fields != [])
    ensures forall b | b in Body(reg, n) ::
              Readable(b) && Leads(reg, stack + {n}, b) && Leads(reg, stack, b) && Refs(b) <= reg.Keys
  {
    hide Parse, Readable, Leads, Entries;
    InStackReached(reg, stack, n);
    EntriesRegistered(reg.Keys, reg[n].sum, reg[n].fields);
    forall b | b in Body(reg, n)
      ensures Leads(reg, stack + {n}, b) && Leads(reg, stack, b)
    {
      LeadsOn(reg, stack, n, b);
    }
  }

  lemma InStackReached(reg: Registry, stack: set<string>, n: string)
    requires Leads(reg, stack, XNamed(n))
    ensures n in stack ==> Reaches(reg, n, n)
  {
    assert n in Refs(XNamed(n));
  }

  lemma {:induction false} FieldsNeverFail(reg: Registry, k: nat, stack: set<string>, fs: seq<RawField>)
    requires Loaded(reg) && NoGuardedCycle(reg) && (forall c | c in reg :: ReadableBody(reg, c)) && Guarded(reg, stack)
    requires forall b | b in Entries(reg.Keys, false, fs) :: Readable(b) && Leads(reg, stack, b) && Refs(b) <= reg.Keys
    ensures RunFields(reg, k, stack, fs).Some? ==> RunFields(reg, k, stack, fs).value.Ok?
    decreases k
  {
    hide Parse, Run, Readable, Leads, NoGuardedCycle, ReadableBody;
    if k > 0 && fs != [] {
      var b := Parse(reg.Keys, fs[0].typ);
      assert b in Entries(reg.Keys, false, fs);
      NeverFails(reg, k - 1, stack, b);
      FieldsNeverFail(reg, k - 1, stack, fs[1..]);
    }
  }

  lemma {:induction false} VariantsNeverFail(reg: Registry, k: nat, stack: set<string>, fs: seq<RawField>)
    requires Loaded(reg) && NoGuardedCycle(reg) && (forall c | c in reg :: ReadableBody(reg, c)) && Guarded(reg, stack)
    requires forall b | b in Entries(reg.Keys, true, fs) :: Readable(b) && Leads(reg, stack, b) && Refs(b) <= reg.Keys
    ensures RunVariants(reg, k, stack, fs).Some? ==> RunVariants(reg, k, stack, fs).value.Ok?
    decreases k
  {
    hide Parse, Run, Readable, Leads, NoGuardedCycle, ReadableBody, Trim;
    if k > 0 && fs != [] {
      if Trim(fs[0].typ) != "" {
        var b := Parse(reg.Keys, Trim(fs[0].typ));
        assert b in Entries(reg.Keys, true, fs);
        NeverFails(reg, k - 1, stack, b);
      }
      VariantsNeverFail(reg, k - 1, stack, fs[1..]);
    }
  }

  lemma TransparentIsReached(reg: Registry, n: string, m: string)
    requires TransparentlyReaches(reg, n, m)
    ensures Reaches(reg, n, m) && n in reg
  {
    hide Path;
    var p :| |p| >= 2 && p[0] == n && p[|p| - 1] == m && Path(reg, p) &&
             forall i | 0 <= i < |p| :: p[i] in reg && reg[p[i]].transparent;
  }

  /** The precondition is needed, and nothing less will do: where no other defect
      can stop it, every reference resolves in finitely many steps exactly when no
      type leads back to itself through transparent types alone. */
  lemma StopsExactly(reg: Registry)
    requires Loaded(reg) && NoGuardedCycle(reg) && forall n | n in reg :: ReadableBody(reg, n)
    ensures (forall n | n in reg :: exists r :: Yields(reg, {}, XNamed(n), r)) <==> NoTransparentCycle(reg)
  {
    hide Run, ReadableBody, TransparentlyReaches;
    if NoTransparentCycle(reg) {
      forall n | n in reg ensures exists r :: Yields(reg, {}, XNamed(n), r) {
        var r := Terminates(reg, {}, XNamed(n));
      }
    } else {
      var n :| TransparentlyReaches(reg, n, n);
      TransparentIsReached(reg, n, n);
      assert Touches(reg, XNamed(n), n);
      if r :| Yields(reg, {}, XNamed(n), r) {
        var k: nat :| Run(reg, k, {}, XNamed(n)) == Some(r);
        NeverFails(reg, k, {}, XNamed(n));
        SuccessIsResolvable(reg, k, {}, XNamed(n));
        assert false;
      }
    }
  }

  // ---- printed types -------------------------------------------------------

  lemma {:induction false} PrintableYields(reg: Registry, stack: set<string>, t: FieldType)
    requires Printable(t)
    ensures Yields(reg, stack, Expr(t), Ok(Erase(t)))
    decreases t
  {
    hide Yields;
    YieldsLeaf(reg, stack, Expr(t));
    match t
    case Optional(e) =>
      PrintableYields(reg, stack, e);
      YieldsInner(reg, stack, Expr(e), None, Ok(Erase(e)));
    case List(e) =>
      PrintableYields(reg, stack, e);
      YieldsInner(reg, stack, Expr(e), None, Ok(Erase(e)));
    case Array(e, n) =>
      PrintableYields(reg, stack, e);
      YieldsInner(reg, stack, Expr(e), Some(n), Ok(Erase(e)));
    case Map(k, e) =>
      PrintableYields(reg, stack, k);
      PrintableYields(reg, stack, e);
      YieldsMap(reg, stack, Expr(k), Expr(e), Erase(k), Ok(Erase(e)));
    case _ =>
  }

  /** Resolving a printed type gives the type back, up to the struct fields the
      printed form leaves out, under every registry and every stack. */
  lemma PrintedTypeResolves(reg: Registry, stack: set<string>, t: FieldType)
    requires Printable(t)
    requires forall n | n in reg :: '<' !in n
    ensures Yields(reg, stack, Parse(reg.Keys, Print(t)), Ok(Erase(t)))
  {
    hide Parse, Print, Expr, Yields;
    ParseUndoesPrint(reg.Keys, t);
    PrintableYields(reg, stack, t);
  }
}
