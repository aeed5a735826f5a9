/** Plain, unmemoised inlining of named types (what schemaResolver computes), and
    exactly when it produces a type. */
module Inlining {
  import opened Common
  import opened Text
  import opened TypeLang

  datatype RawField = RawField(name: string, typ: string)

  /** A named type as loaded: a record, a sum, or a transparent newtype. */
  datatype RawType = RawType(fields: seq<RawField>, transparent: bool, sum: bool)

  type Registry = map<string, RawType>

  /** What loading guarantees: a transparent type is a record of exactly one field. */
  predicate Loaded(reg: Registry) {
    forall n | n in reg && reg[n].transparent :: !reg[n].sum && |reg[n].fields| == 1
  }

  // ---- the reference graph -------------------------------------------------

  /** The names a type expression looks up. */
  function Refs(e: TypeExpr): set<string> {
    match e
    case XNamed(n) => {n}
    case XOptional(x) => Refs(x)
    case XList(x) => Refs(x)
    case XArray(x, _) => Refs(x)
    case XMap(k, x) => Refs(k) + Refs(x)
    case _ => {}
  }

  function RefsOfAll(es: seq<TypeExpr>): set<string> {
    if es == [] then {} else Refs(es[0]) + RefsOfAll(es[1..])
  }

  /** The expressions of the given entries; an entry of a sum without a type is a
      unit variant and contributes none. */
  function Entries(names: set<string>, sum: bool, fs: seq<RawField>): seq<TypeExpr> {
    if fs == [] then []
    else if sum && Trim(fs[0].typ) == "" then Entries(names, sum, fs[1..])
    else [Parse(names, if sum then Trim(fs[0].typ) else fs[0].typ)] + Entries(names, sum, fs[1..])
  }

  /** The expressions a reference to `n` makes the resolver read. */
  function Body(reg: Registry, n: string): seq<TypeExpr>
    requires n in reg
  {
    Entries(reg.Keys, reg[n].sum, reg[n].fields)
  }

  predicate Edge(reg: Registry, a: string, b: string) {
    a in reg && b in reg && b in RefsOfAll(Body(reg, a))
  }

  predicate Path(reg: Registry, p: seq<string>) {
    forall i | 0 <= i < |p| - 1 :: Edge(reg, p[i], p[i + 1])
  }

  ghost predicate Reaches(reg: Registry, a: string, b: string) {
    exists p :: |p| >= 2 && p[0] == a && p[|p| - 1] == b && Path(reg, p)
  }

  /** `e` looks up `n`, directly or through other names. */
  ghost predicate Touches(reg: Registry, e: TypeExpr, n: string) {
    n in Refs(e) || exists m | m in Refs(e) :: Reaches(reg, m, n)
  }

  ghost predicate TouchesAny(reg: Registry, es: seq<TypeExpr>, n: string) {
    exists e | e in es :: Touches(reg, e, n)
  }

  /** A path through transparent types only. */
  ghost predicate TransparentlyReaches(reg: Registry, a: string, b: string) {
    exists p :: |p| >= 2 && p[0] == a && p[|p| - 1] == b && Path(reg, p) &&
                forall i | 0 <= i < |p| :: p[i] in reg && reg[p[i]].transparent
  }

  ghost predicate NoTransparentCycle(reg: Registry) {
    forall n :: !TransparentlyReaches(reg, n, n)
  }

  lemma EdgeReaches(reg: Registry, a: string, b: string)
    requires Edge(reg, a, b)
    ensures Reaches(reg, a, b)
  {
    var p := [a, b];
    assert Path(reg, p) && p[0] == a && p[|p| - 1] == b;
  }

  lemma PathJoin(reg: Registry, p: seq<string>, q: seq<string>)
    requires |p| >= 2 && |q| >= 2 && p[|p| - 1] == q[0] && Path(reg, p) && Path(reg, q)
    ensures Path(reg, p + q[1..])
  {
    var r := p + q[1..];
    forall i | 0 <= i < |r| - 1 ensures Edge(reg, r[i], r[i + 1]) {
      if i < |p| - 1 {
        assert r[i] == p[i] && r[i + 1] == p[i + 1];
      } else {
        assert r[i] == q[i - |p| + 1] && r[i + 1] == q[i - |p| + 2];
      }
    }
  }

  lemma ReachesTransitive(reg: Registry, a: string, b: string, c: string)
    requires Reaches(reg, a, b) && Reaches(reg, b, c)
    ensures Reaches(reg, a, c)
  {
    hide Path;
    var p :| |p| >= 2 && p[0] == a && p[|p| - 1] == b && Path(reg, p);
    var q :| |q| >= 2 && q[0] == b && q[|q| - 1] == c && Path(reg, q);
    PathJoin(reg, p, q);
    var r := p + q[1..];
    assert r[0] == a && r[|r| - 1] == c;
  }

  /** A path starts with an edge, and goes on from there. */
  lemma ReachesFirst(reg: Registry, a: string, c: string)
    requires Reaches(reg, a, c)
    ensures a in reg && TouchesAny(reg, Body(reg, a), c)
  {
    hide Body, Refs;
    var p :| |p| >= 2 && p[0] == a && p[|p| - 1] == c && Path(reg, p);
    assert Edge(reg, p[0], p[1]);
    var e := RefIn(Body(reg, a), p[1]);
    if |p| > 2 {
      var q := p[1..];
      assert Path(reg, q) by {
        forall i | 0 <= i < |q| - 1 ensures Edge(reg, q[i], q[i + 1]) {
          assert Edge(reg, p[i + 1], p[i + 2]);
        }
      }
      assert Reaches(reg, p[1], c);
    }
    assert Touches(reg, e, c);
  }

  lemma {:induction false} RefIn(es: seq<TypeExpr>, n: string) returns (e: TypeExpr)
    requires n in RefsOfAll(es)
    ensures e in es && n in Refs(e)
  {
    if n in Refs(es[0]) {
      e := es[0];
    } else {
      e := RefIn(es[1..], n);
    }
  }

  lemma {:induction false} RefsIncluded(es: seq<TypeExpr>, e: TypeExpr)
    requires e in es
    ensures Refs(e) <= RefsOfAll(es)
  {
    if e != es[0] {
      assert e in es[1..];
      RefsIncluded(es[1..], e);
    }
  }

  /** What the body of `n` touches, `n` reaches. */
  lemma BodyReached(reg: Registry, n: string, e: TypeExpr, c: string)
    requires n in reg && e in Body(reg, n) && Refs(e) <= reg.Keys && Touches(reg, e, c)
    ensures Reaches(reg, n, c)
  {
    RefsIncluded(Body(reg, n), e);
    if c in Refs(e) {
      EdgeReaches(reg, n, c);
    } else {
      var m :| m in Refs(e) && Reaches(reg, m, c);
      EdgeReaches(reg, n, m);
      ReachesTransitive(reg, n, m, c);
    }
  }

  /** The parser only ever refers to registered names. */
  lemma {:induction false} RefsRegistered(names: set<string>, text: string)
    ensures Refs(Parse(names, text)) <= names
    decreases |text|, 0
  {
    hide ParseApplied, KindOf, Trim, Unalias, MatchApplied;
    var s := Unalias(Trim(text));
    if KindOf(s).None? && s != STRUCT && s !in names && MatchApplied(s).Some? {
      AppliedShorter(text);
      AppliedRefsRegistered(names, MatchApplied(s).value.outer, MatchApplied(s).value.inner);
    }
  }

  lemma AppliedShorter(text: string)
    requires MatchApplied(Unalias(Trim(text))).Some? && KindOf(Unalias(Trim(text))).None?
    ensures |MatchApplied(Unalias(Trim(text))).value.inner| < |text|
  {
    hide MatchApplied, KindOf, Trim;
    KindOfName(Float32);
    KindOfName(Float64);
    KindOfName(Bool);
  }

  lemma {:induction false} AppliedRefsRegistered(names: set<string>, outer: string, inner: string)
    ensures Refs(ParseApplied(names, outer, inner)) <= names
    decreases |inner|, 1
  {
    hide Parse, FormerOf, KeyValue, LastComma, EnumValues, SplitCommas, Atoi;
    match FormerOf(outer)
    case Some(FOptional) => RefsRegistered(names, inner);
    case Some(FList) => RefsRegistered(names, inner);
    case Some(FArray) => if LastComma(inner) >= 0 { RefsRegistered(names, inner[..LastComma(inner)]); }
    case Some(FMap) =>
      if KeyValue(inner).Some? {
        RefsRegistered(names, KeyValue(inner).value.key);
        RefsRegistered(names, KeyValue(inner).value.value);
      }
    case _ =>
  }

  lemma {:induction false} EntriesRegistered(names: set<string>, sum: bool, fs: seq<RawField>)
    ensures forall e | e in Entries(names, sum, fs) :: Refs(e) <= names
  {
    hide Parse, Trim, Refs;
    if fs != [] {
      RefsRegistered(names, if sum then Trim(fs[0].typ) else fs[0].typ);
      EntriesRegistered(names, sum, fs[1..]);
    }
  }

  // ---- plain inlining ------------------------------------------------------

  /** Plain inlining with at most `fuel` nested calls: None when the fuel runs out
      first. `stack` holds the records and sums being inlined; a transparent type
      is replaced by its field's type without being entered there. */
  function Run(reg: Registry, fuel: nat, stack: set<string>, e: TypeExpr): Option<Result<FieldType, TypeError>>
    decreases fuel
  {
    if fuel == 0 then None
    else
      match e
      case XScalar(k) => Some(Ok(Scalar(k)))
      case XStruct => Some(Ok(Struct([])))
      case XEnum(values) => Some(Ok(Enum(values)))
      case XError(error) => Some(Err(error))
      case XOptional(x) =>
        var r := Run(reg, fuel - 1, stack, x);
        if r.Some? && r.value.Ok? then Some(Ok(Optional(r.value.value))) else r
      case XList(x) =>
        var r := Run(reg, fuel - 1, stack, x);
        if r.Some? && r.value.Ok? then Some(Ok(List(r.value.value))) else r
      case XArray(x, size) =>
        var r := Run(reg, fuel - 1, stack, x);
        if r.Some? && r.value.Ok? then
          if size.None? then Some(Err(ArrayBadSize)) else Some(Ok(Array(r.value.value, size.value)))
        else r
      case XMap(k, x) =>
        var key := Run(reg, fuel - 1, stack, k);
        if key.Some? && key.value.Ok? then
          var r := Run(reg, fuel - 1, stack, x);
          if r.Some? && r.value.Ok? then Some(Ok(Map(key.value.value, r.value.value))) else r
        else key
      case XNamed(n) => RunNamed(reg, fuel - 1, stack, n)
  }

  function RunNamed(reg: Registry, fuel: nat, stack: set<string>, n: string): Option<Result<FieldType, TypeError>>
    decreases fuel
  {
    if fuel == 0 then None
    else if n !in reg then Some(Err(UnknownType(n)))
    else if reg[n].sum then
      if n in stack then Some(Err(RecursiveType(n))) else RunSum(reg, fuel - 1, stack + {n}, reg[n].fields)
    else if reg[n].transparent && |reg[n].fields| > 0 then
      Run(reg, fuel - 1, stack, Parse(reg.Keys, reg[n].fields[0].typ))
    else if n in stack then Some(Err(RecursiveType(n)))
    else
      var r := RunFields(reg, fuel - 1, stack + {n}, reg[n].fields);
      if r.None? then None
      else if r.value.Ok? then Some(Ok(Struct(r.value.value)))
      else Some(Err(r.value.error))
  }

  function RunSum(reg: Registry, fuel: nat, stack: set<string>, fs: seq<RawField>): Option<Result<FieldType, TypeError>>
    decreases fuel
  {
    if fuel == 0 then None
    else if fs == [] then Some(Err(EmptySum))
    else
      var r := RunVariants(reg, fuel - 1, stack, fs);
      if r.None? then None
      else if r.value.Ok? then Some(Ok(Sum(r.value.value)))
      else Some(Err(r.value.error))
  }

  /** Entries in order, stopping at the first that fails. */
  function RunFields(reg: Registry, fuel: nat, stack: set<string>, fs: seq<RawField>): Option<Result<seq<Field>,
      TypeError>>
    decreases fuel
  {
    if fuel == 0 then None
    else if fs == [] then Some(Ok([]))
    else
      var head := Run(reg, fuel - 1, stack, Parse(reg.Keys, fs[0].typ));
      if head.None? then None
      else if head.value.Err? then Some(Err(head.value.error))
      else
        var rest := RunFields(reg, fuel - 1, stack, fs[1..]);
        if rest.Some? && rest.value.Ok? then Some(Ok([Field(fs[0].name, head.value.value)] + rest.value.value))
        else rest
  }

  function RunVariants(reg: Registry, fuel: nat, stack: set<string>, fs: seq<RawField>): Option<Result<seq<Variant>,
      TypeError>>
    decreases fuel
  {
    if fuel == 0 then None
    else if fs == [] then Some(Ok([]))
    else
      var text := Trim(fs[0].typ);
      var head := if text == "" then Some(Ok(Scalar(Bool))) else Run(reg, fuel - 1, stack, Parse(reg.Keys, text));
      if head.None? then None
      else if head.value.Err? then Some(Err(head.value.error))
      else
        var arm := Variant(fs[0].name, if text == "" then None else Some(head.value.value));
        var rest := RunVariants(reg, fuel - 1, stack, fs[1..]);
        if rest.Some? && rest.value.Ok? then Some(Ok([arm] + rest.value.value)) else rest
  }

  /** Plain inlining of `e` ends with `r`. */
  ghost predicate Yields(reg: Registry, stack: set<string>, e: TypeExpr, r: Result<FieldType, TypeError>) {
    exists fuel :: Run(reg, fuel, stack, e) == Some(r)
  }

  ghost predicate YieldsFields(reg: Registry, stack: set<string>, fs: seq<RawField>, r: Result<seq<Field>, TypeError>) {
    exists fuel :: RunFields(reg, fuel, stack, fs) == Some(r)
  }

  ghost predicate YieldsVariants(reg: Registry, stack: set<string>, fs: seq<RawField>, r: Result<seq<Variant>,
      TypeError>) {
    exists fuel :: RunVariants(reg, fuel, stack, fs) == Some(r)
  }

  ghost predicate YieldsSum(reg: Registry, stack: set<string>, fs: seq<RawField>, r: Result<FieldType, TypeError>) {
    exists fuel :: RunSum(reg, fuel, stack, fs) == Some(r)
  }

  // More fuel never changes an answer.

  lemma {:induction false} RunMore(reg: Registry, k: nat, m: nat, stack: set<string>, e: TypeExpr)
    requires k <= m && Run(reg, k, stack, e).Some?
    ensures Run(reg, m, stack, e) == Run(reg, k, stack, e)
    decreases k
  {
    hide Parse;
    match e
    case XOptional(x) => RunMore(reg, k - 1, m - 1, stack, x);
    case XList(x) => RunMore(reg, k - 1, m - 1, stack, x);
    case XArray(x, _) => RunMore(reg, k - 1, m - 1, stack, x);
    case XMap(key, x) =>
      RunMore(reg, k - 1, m - 1, stack, key);
      if Run(reg, k - 1, stack, key).value.Ok? {
        RunMore(reg, k - 1, m - 1, stack, x);
      }
    case XNamed(n) => RunNamedMore(reg, k - 1, m - 1, stack, n);
    case _ =>
  }

  lemma {:induction false} RunNamedMore(reg: Registry, k: nat, m: nat, stack: set<string>, n: string)
    requires k <= m && RunNamed(reg, k, stack, n).Some?
    ensures RunNamed(reg, m, stack, n) == RunNamed(reg, k, stack, n)
    decreases k
  {
    hide Parse, Run;
    if n in reg {
      if reg[n].sum {
        if n !in stack { RunSumMore(reg, k - 1, m - 1, stack + {n}, reg[n].fields); }
      } else if reg[n].transparent && |reg[n].fields| > 0 {
        RunMore(reg, k - 1, m - 1, stack, Parse(reg.Keys, reg[n].fields[0].typ));
      } else if n !in stack {
        RunFieldsMore(reg, k - 1, m - 1, stack + {n}, reg[n].fields);
      }
    }
  }

  lemma {:induction false} RunSumMore(reg: Registry, k: nat, m: nat, stack: set<string>, fs: seq<RawField>)
    requires k <= m && RunSum(reg, k, stack, fs).Some?
    ensures RunSum(reg, m, stack, fs) == RunSum(reg, k, stack, fs)
    decreases k
  {
    hide RunVariants;
    if fs != [] {
      RunVariantsMore(reg, k - 1, m - 1, stack, fs);
    }
  }

  lemma {:induction false} RunFieldsMore(reg: Registry, k: nat, m: nat, stack: set<string>, fs: seq<RawField>)
    requires k <= m && RunFields(reg, k, stack, fs).Some?
    ensures RunFields(reg, m, stack, fs) == RunFields(reg, k, stack, fs)
    decreases k
  {
    hide Parse, Run;
    if fs != [] {
      RunMore(reg, k - 1, m - 1, stack, Parse(reg.Keys, fs[0].typ));
      if Run(reg, k - 1, stack, Parse(reg.Keys, fs[0].typ)).value.Ok? {
        RunFieldsMore(reg, k - 1, m - 1, stack, fs[1..]);
      }
    }
  }

  lemma {:induction false} RunVariantsMore(reg: Registry, k: nat, m: nat, stack: set<string>, fs: seq<RawField>)
    requires k <= m && RunVariants(reg, k, stack, fs).Some?
    ensures RunVariants(reg, m, stack, fs) == RunVariants(reg, k, stack, fs)
    decreases k
  {
    hide Parse, Run, Trim;
    if fs != [] {
      var text := Trim(fs[0].typ);
      if text != "" {
        RunMore(reg, k - 1, m - 1, stack, Parse(reg.Keys, text));
      }
      if text == "" || Run(reg, k - 1, stack, Parse(reg.Keys, text)).value.Ok? {
        RunVariantsMore(reg, k - 1, m - 1, stack, fs[1..]);
      }
    }
  }

  // ---- exactly when inlining succeeds --------------------------------------

  /** No error node and no unreadable array size: the text itself is fine. */
  predicate Readable(e: TypeExpr) {
    match e
    case XError(_) => false
    case XOptional(x) => Readable(x)
    case XList(x) => Readable(x)
    case XArray(x, size) => Readable(x) && size.Some?
    case XMap(k, x) => Readable(k) && Readable(x)
    case _ => true
  }

  predicate ReadableBody(reg: Registry, n: string) {
    && n in reg
    && (forall e | e in Body(reg, n) :: Readable(e))
    && (reg[n].sum ==> reg[n].fields != [])
  }

  ghost predicate Acyclic(reg: Registry, n: string) {
    ReadableBody(reg, n) && !Reaches(reg, n, n)
  }

  /** Nothing `e` leads to is unknown, unreadable or recursive. */
  ghost predicate Resolvable(reg: Registry, e: TypeExpr) {
    Readable(e) && forall n | Touches(reg, e, n) :: Acyclic(reg, n)
  }

  ghost predicate Avoids(reg: Registry, e: TypeExpr, stack: set<string>) {
    forall n | n in stack :: !Touches(reg, e, n)
  }

  /** Only records and sums are ever entered. */
  predicate Guarded(reg: Registry, stack: set<string>) {
    forall n | n in stack :: n in reg && !reg[n].transparent
  }

  lemma {:induction false} SuccessIsResolvable(reg: Registry, k: nat, stack: set<string>, e: TypeExpr)
    requires Loaded(reg) && Refs(e) <= reg.Keys && Guarded(reg, stack)
    requires Run(reg, k, stack, e).Some? && Run(reg, k, stack, e).value.Ok?
    ensures Resolvable(reg, e) && Avoids(reg, e, stack)
    decreases k
  {
    hide Parse, Acyclic;
    match e
    case XOptional(x) =>
      SuccessIsResolvable(reg, k - 1, stack, x);
      assert forall n :: Touches(reg, e, n) ==> Touches(reg, x, n);
    case XList(x) =>
      SuccessIsResolvable(reg, k - 1, stack, x);
      assert forall n :: Touches(reg, e, n) ==> Touches(reg, x, n);
    case XArray(x, _) =>
      SuccessIsResolvable(reg, k - 1, stack, x);
      assert forall n :: Touches(reg, e, n) ==> Touches(reg, x, n);
    case XMap(key, x) =>
      SuccessIsResolvable(reg, k - 1, stack, key);
      SuccessIsResolvable(reg, k - 1, stack, x);
      assert forall n :: Touches(reg, e, n) ==> Touches(reg, key, n) || Touches(reg, x, n);
    case XNamed(n) => NamedSuccess(reg, k - 1, stack, n);
    case _ =>
  }

  lemma {:induction false} NamedSuccess(reg: Registry, k: nat, stack: set<string>, n: string)
    requires Loaded(reg) && n in reg && Guarded(reg, stack)
    requires RunNamed(reg, k, stack, n).Some? && RunNamed(reg, k, stack, n).value.Ok?
    ensures Resolvable(reg, XNamed(n)) && Avoids(reg, XNamed(n), stack)
    decreases k
  {
    hide Parse, Run, RunFields, RunVariants, Entries;
    var inner := if reg[n].transparent then stack else stack + {n};
    EntriesRegistered(reg.Keys, reg[n].sum, reg[n].fields);
    if reg[n].sum {
      VariantsSuccess(reg, k - 2, inner, reg[n].fields);
    } else if reg[n].transparent {
      TransparentBody(reg, n);
      SuccessIsResolvable(reg, k - 1, stack, Body(reg, n)[0]);
    } else {
      FieldsSuccess(reg, k - 1, inner, reg[n].fields);
    }
    NamedFromBody(reg, n, inner);
  }

  lemma TransparentBody(reg: Registry, n: string)
    requires Loaded(reg) && n in reg && reg[n].transparent
    ensures Body(reg, n) == [Parse(reg.Keys, reg[n].fields[0].typ)]
  {
    hide Parse;
    assert Entries(reg.Keys, false, reg[n].fields[1..]) == [];
  }

  /** A name is fine when everything its body leads to is, and does not lead back to it. */
  lemma NamedFromBody(reg: Registry, n: string, inner: set<string>)
    requires Loaded(reg) && n in reg && (reg[n].sum ==> reg[n].fields != [])
    requires forall e | e in Body(reg, n) :: Resolvable(reg, e) && Avoids(reg, e, inner)
    requires !reg[n].transparent ==> n in inner
    requires reg[n].transparent ==> n !in inner
    ensures Resolvable(reg, XNamed(n)) && Avoids(reg, XNamed(n), inner - {n})
  {
    hide Body;
    if Reaches(reg, n, n) {
      ReachesFirst(reg, n, n);
      assert false;
    }
    forall c | Touches(reg, XNamed(n), c) && c != n
      ensures Acyclic(reg, c) && c !in inner
    {
      assert Reaches(reg, n, c);
      ReachesFirst(reg, n, c);
      var e :| e in Body(reg, n) && Touches(reg, e, c);
    }
  }

  lemma {:induction false} FieldsSuccess(reg: Registry, k: nat, stack: set<string>, fs: seq<RawField>)
    requires Loaded(reg) && Guarded(reg, stack)
    requires RunFields(reg, k, stack, fs).Some? && RunFields(reg, k, stack, fs).value.Ok?
    ensures var es := Entries(reg.Keys, false, fs);
            forall e | e in es :: Resolvable(reg, e) && Avoids(reg, e, stack)
    decreases k
  {
    hide Parse, Run, Resolvable, Avoids;
    if fs != [] {
      RefsRegistered(reg.Keys, fs[0].typ);
      SuccessIsResolvable(reg, k - 1, stack, Parse(reg.Keys, fs[0].typ));
      FieldsSuccess(reg, k - 1, stack, fs[1..]);
    }
  }

  lemma {:induction false} VariantsSuccess(reg: Registry, k: nat, stack: set<string>, fs: seq<RawField>)
    requires Loaded(reg) && Guarded(reg, stack)
    requires RunVariants(reg, k, stack, fs).Some? && RunVariants(reg, k, stack, fs).value.Ok?
    ensures var es := Entries(reg.Keys, true, fs);
            forall e | e in es :: Resolvable(reg, e) && Avoids(reg, e, stack)
    decreases k
  {
    hide Parse, Run, Resolvable, Avoids, Trim;
    if fs != [] {
      if Trim(fs[0].typ) != "" {
        RefsRegistered(reg.Keys, Trim(fs[0].typ));
        SuccessIsResolvable(reg, k - 1, stack, Parse(reg.Keys, Trim(fs[0].typ)));
      }
      VariantsSuccess(reg, k - 1, stack, fs[1..]);
    }
  }

  // ---- building runs -------------------------------------------------------

  lemma YieldsMap(reg: Registry, stack: set<string>, k: TypeExpr, x: TypeExpr, kt: FieldType, r: Result<FieldType,
      TypeError>)
    requires Yields(reg, stack, k, Ok(kt)) && Yields(reg, stack, x, r)
    ensures Yields(reg, stack, XMap(k, x), if r.Ok? then Ok(Map(kt, r.value)) else r)
  {
    hide RunNamed, Parse;
    var a: nat :| Run(reg, a, stack, k) == Some(Ok(kt));
    var b: nat :| Run(reg, b, stack, x) == Some(r);
    var m := Max(a, b);
    RunMore(reg, a, m, stack, k);
    RunMore(reg, b, m, stack, x);
    assert Run(reg, m + 1, stack, XMap(k, x)).Some?;
  }

  lemma YieldsInner(reg: Registry, stack: set<string>, x: TypeExpr, size: Option<int>, r: Result<FieldType, TypeError>)
    requires Yields(reg, stack, x, r)
    ensures Yields(reg, stack, XOptional(x), if r.Ok? then Ok(Optional(r.value)) else r)
    ensures Yields(reg, stack, XList(x), if r.Ok? then Ok(List(r.value)) else r)
    ensures Yields(reg, stack, XArray(x, size),
              if r.Err? then r else if size.None? then Err(ArrayBadSize) else Ok(Array(r.value, size.value)))
    ensures r.Err? ==> forall y :: Yields(reg, stack, XMap(x, y), r)
  {
    var a: nat :| Run(reg, a, stack, x) == Some(r);
    assert Run(reg, a + 1, stack, XOptional(x)).Some?;
    assert Run(reg, a + 1, stack, XList(x)).Some?;
    assert Run(reg, a + 1, stack, XArray(x, size)).Some?;
    forall y | r.Err? ensures Yields(reg, stack, XMap(x, y), r) {
      assert Run(reg, a + 1, stack, XMap(x, y)).Some?;
    }
  }

  lemma YieldsLeaf(reg: Registry, stack: set<string>, e: TypeExpr)
    ensures match e
            case XScalar(k) => Yields(reg, stack, e, Ok(Scalar(k)))
            case XStruct => Yields(reg, stack, e, Ok(Struct([])))
            case XEnum(values) => Yields(reg, stack, e, Ok(Enum(values)))
            case XError(error) => Yields(reg, stack, e, Err(error))
            case _ => true
  {
    assert e.XScalar? || e.XStruct? || e.XEnum? || e.XError? ==> Run(reg, 1, stack, e).Some?;
  }

  lemma YieldsTransparent(reg: Registry, stack: set<string>, n: string, r: Result<FieldType, TypeError>)
    requires Loaded(reg) && n in reg && reg[n].transparent
    requires Yields(reg, stack, Parse(reg.Keys, reg[n].fields[0].typ), r)
    ensures Yields(reg, stack, XNamed(n), r)
  {
    hide Parse;
    var e := Parse(reg.Keys, reg[n].fields[0].typ);
    var a: nat :| Run(reg, a, stack, e) == Some(r);
    assert RunNamed(reg, a + 1, stack, n) == Some(r) by { hide Run; }
    assert Run(reg, a + 2, stack, XNamed(n)) == Some(r);
  }

  lemma YieldsRecord(reg: Registry, stack: set<string>, n: string, r: Result<seq<Field>, TypeError>)
    requires n in reg && !reg[n].transparent && !reg[n].sum && n !in stack
    requires YieldsFields(reg, stack + {n}, reg[n].fields, r)
    ensures Yields(reg, stack, XNamed(n), if r.Ok? then Ok(Struct(r.value)) else Err(r.error))
  {
    hide Parse;
    var a: nat :| RunFields(reg, a, stack + {n}, reg[n].fields) == Some(r);
    var s := if r.Ok? then Ok(Struct(r.value)) else Err(r.error);
    assert RunNamed(reg, a + 1, stack, n) == Some(s) by { hide RunFields; }
    assert Run(reg, a + 2, stack, XNamed(n)) == Some(s);
  }

  lemma YieldsSumName(reg: Registry, stack: set<string>, n: string, r: Result<FieldType, TypeError>)
    requires n in reg && reg[n].sum && n !in stack
    requires YieldsSum(reg, stack + {n}, reg[n].fields, r)
    ensures Yields(reg, stack, XNamed(n), r)
  {
    hide Parse;
    var a: nat :| RunSum(reg, a, stack + {n}, reg[n].fields) == Some(r);
    assert RunNamed(reg, a + 1, stack, n) == Some(r) by { hide RunSum; }
    assert Run(reg, a + 2, stack, XNamed(n)) == Some(r);
  }

  lemma YieldsRecursive(reg: Registry, stack: set<string>, n: string)
    requires n in reg && !reg[n].transparent && n in stack
    ensures Yields(reg, stack, XNamed(n), Err(RecursiveType(n)))
  {
    assert RunNamed(reg, 1, stack, n) == Some(Err(RecursiveType(n)));
    assert Run(reg, 2, stack, XNamed(n)) == Some(Err(RecursiveType(n)));
  }

  lemma YieldsNoFields(reg: Registry, stack: set<string>)
    ensures YieldsFields(reg, stack, [], Ok([])) && YieldsVariants(reg, stack, [], Ok([]))
    ensures YieldsSum(reg, stack, [], Err(EmptySum))
  {
    assert RunFields(reg, 1, stack, []).Some? && RunVariants(reg, 1, stack, []).Some? &&
        RunSum(reg, 1, stack, []).Some?;
  }

  /** The entries read so far succeeded; one more entry and the answer grows by it. */
  lemma {:induction false} YieldsFieldsSnoc(reg: Registry, stack: set<string>, fs: seq<RawField>, f: RawField,
                                            out: seq<Field>, r: Result<FieldType, TypeError>)
    requires YieldsFields(reg, stack, fs, Ok(out)) && Yields(reg, stack, Parse(reg.Keys, f.typ), r)
    ensures YieldsFields(reg, stack, fs + [f], if r.Ok? then Ok(out + [Field(f.name, r.value)]) else Err(r.error))
    decreases |fs|
  {
    hide Parse, Run;
    var a: nat :| RunFields(reg, a, stack, fs) == Some(Ok(out));
    var b: nat :| Run(reg, b, stack, Parse(reg.Keys, f.typ)) == Some(r);
    if fs == [] {
      RunMore(reg, b, b + 1, stack, Parse(reg.Keys, f.typ));
      assert out == [] && [f][1..] == [] && fs + [f] == [f];
      assert RunFields(reg, b + 1, stack, [f][1..]) == Some(Ok([]));
      if r.Ok? {
        assert out + [Field(f.name, r.value)] == [Field(f.name, r.value)] + [];
      }
      assert RunFields(reg, b + 2, stack, fs + [f]).Some?;
    } else {
      var rest := RunFields(reg, a - 1, stack, fs[1..]).value.value;
      YieldsFieldsSnoc(reg, stack, fs[1..], f, rest, r);
      var s := if r.Ok? then Ok(rest + [Field(f.name, r.value)]) else Err(r.error);
      var c: nat :| RunFields(reg, c, stack, fs[1..] + [f]) == Some(s);
      var m := Max(a - 1, c);
      RunMore(reg, a - 1, m, stack, Parse(reg.Keys, fs[0].typ));
      RunFieldsMore(reg, c, m, stack, fs[1..] + [f]);
      assert (fs + [f])[1..] == fs[1..] + [f];
      if r.Ok? {
        var last := Field(f.name, r.value);
        assert [out[0]] + (rest + [last]) == out + [last];
      }
      assert RunFields(reg, m + 1, stack, fs + [f]).Some?;
    }
  }

  /** A failing entry settles the whole list, whatever follows it. */
  lemma {:induction false} YieldsFieldsFail(reg: Registry, stack: set<string>, fs: seq<RawField>,
      more: seq<RawField>, error: TypeError)
    requires YieldsFields(reg, stack, fs, Err(error))
    ensures YieldsFields(reg, stack, fs + more, Err(error))
    decreases |fs|
  {
    hide Parse, Run;
    var a: nat :| RunFields(reg, a, stack, fs) == Some(Err(error));
    assert fs != [];
    assert (fs + more)[1..] == fs[1..] + more;
    var head := Run(reg, a - 1, stack, Parse(reg.Keys, fs[0].typ));
    if head.value.Ok? {
      assert RunFields(reg, a - 1, stack, fs[1..]) == Some(Err(error));
      YieldsFieldsFail(reg, stack, fs[1..], more, error);
      var c: nat :| RunFields(reg, c, stack, fs[1..] + more) == Some(Err(error));
      var m := Max(a - 1, c);
      RunMore(reg, a - 1, m, stack, Parse(reg.Keys, fs[0].typ));
      RunFieldsMore(reg, c, m, stack, fs[1..] + more);
      assert RunFields(reg, m + 1, stack, fs + more).Some?;
    } else {
      assert RunFields(reg, a, stack, fs + more).Some?;
    }
  }

  lemma {:induction false} YieldsVariantsSnoc(reg: Registry, stack: set<string>, fs: seq<RawField>, f: RawField,
                                              out: seq<Variant>, r: Result<FieldType, TypeError>)
    requires YieldsVariants(reg, stack, fs, Ok(out))
    requires Trim(f.typ) != "" ==> Yields(reg, stack, Parse(reg.Keys, Trim(f.typ)), r)
    requires Trim(f.typ) == "" ==> r.Ok?
    ensures YieldsVariants(reg, stack, fs + [f],
              if r.Err? then Err(r.error)
              else Ok(out + [Variant(f.name, if Trim(f.typ) == "" then None else Some(r.value))]))
    decreases |fs|
  {
    hide Parse, Run, Trim;
    var a: nat :| RunVariants(reg, a, stack, fs) == Some(Ok(out));
    if fs == [] {
      var b: nat := 0;
      if Trim(f.typ) != "" {
        b :| Run(reg, b, stack, Parse(reg.Keys, Trim(f.typ))) == Some(r);
        RunMore(reg, b, b + 1, stack, Parse(reg.Keys, Trim(f.typ)));
      }
      assert [f][1..] == [] && fs + [f] == [f] && out == [];
      assert RunVariants(reg, b + 1, stack, [f][1..]) == Some(Ok([]));
      if r.Ok? {
        var last := Variant(f.name, if Trim(f.typ) == "" then None else Some(r.value));
        assert [last] + [] == out + [last];
      }
      assert RunVariants(reg, b + 2, stack, fs + [f]).Some?;
    } else {
      var rest := RunVariants(reg, a - 1, stack, fs[1..]).value.value;
      YieldsVariantsSnoc(reg, stack, fs[1..], f, rest, r);
      var s := if r.Err? then Err(r.error)
               else Ok(rest + [Variant(f.name, if Trim(f.typ) == "" then None else Some(r.value))]);
      var c: nat :| RunVariants(reg, c, stack, fs[1..] + [f]) == Some(s);
      var m := Max(a - 1, c);
      if Trim(fs[0].typ) != "" {
        RunMore(reg, a - 1, m, stack, Parse(reg.Keys, Trim(fs[0].typ)));
      }
      RunVariantsMore(reg, c, m, stack, fs[1..] + [f]);
      assert (fs + [f])[1..] == fs[1..] + [f];
      if r.Ok? {
        var last := Variant(f.name, if Trim(f.typ) == "" then None else Some(r.value));
        assert [out[0]] + (rest + [last]) == out + [last];
      }
      assert RunVariants(reg, m + 1, stack, fs + [f]).Some?;
    }
  }

  lemma {:induction false} YieldsVariantsFail(reg: Registry, stack: set<string>, fs: seq<RawField>,
      more: seq<RawField>, error: TypeError)
    requires YieldsVariants(reg, stack, fs, Err(error))
    ensures YieldsVariants(reg, stack, fs + more, Err(error))
    decreases |fs|
  {
    hide Parse, Run, Trim;
    var a: nat :| RunVariants(reg, a, stack, fs) == Some(Err(error));
    assert fs != [];
    assert (fs + more)[1..] == fs[1..] + more;
    var text := Trim(fs[0].typ);
    if text == "" || Run(reg, a - 1, stack, Parse(reg.Keys, text)).value.Ok? {
      assert RunVariants(reg, a - 1, stack, fs[1..]) == Some(Err(error));
      YieldsVariantsFail(reg, stack, fs[1..], more, error);
      var c: nat :| RunVariants(reg, c, stack, fs[1..] + more) == Some(Err(error));
      var m := Max(a - 1, c);
      if text != "" {
        RunMore(reg, a - 1, m, stack, Parse(reg.Keys, text));
      }
      RunVariantsMore(reg, c, m, stack, fs[1..] + more);
      assert RunVariants(reg, m + 1, stack, fs + more).Some?;
    } else {
      assert RunVariants(reg, a, stack, fs + more).Some?;
    }
  }

  lemma YieldsSumOf(reg: Registry, stack: set<string>, fs: seq<RawField>, r: Result<seq<Variant>, TypeError>)
    requires fs != [] && YieldsVariants(reg, stack, fs, r)
    ensures YieldsSum(reg, stack, fs, if r.Ok? then Ok(Sum(r.value)) else Err(r.error))
  {
    hide RunVariants;
    var a: nat :| RunVariants(reg, a, stack, fs) == Some(r);
    assert RunSum(reg, a + 1, stack, fs).Some?;
  }

  /** Plain inlining has at most one answer. */
  lemma YieldsOnce(reg: Registry, stack: set<string>, e: TypeExpr, r: Result<FieldType, TypeError>,
      s: Result<FieldType, TypeError>)
    requires Yields(reg, stack, e, r) && Yields(reg, stack, e, s)
    ensures r == s
  {
    hide Run;
    var a: nat :| Run(reg, a, stack, e) == Some(r);
    var b: nat :| Run(reg, b, stack, e) == Some(s);
    RunMore(reg, a, Max(a, b), stack, e);
    RunMore(reg, b, Max(a, b), stack, e);
  }
}
