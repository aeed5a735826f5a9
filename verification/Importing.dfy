/** Loading the type files that a type file imports (internal/conf/schema.go): a walk
    over the import graph with one shared set of visited files. */
module Importing {
  import opened Common
  import opened Text
  import opened Inlining

  type Path = string

  /** A type file as read; `parses` means it is YAML with known keys and one pair for
      each entry. Imports are resolved against the file's directory. */
  datatype File = File(parses: bool, fields: seq<RawField>, variants: seq<RawField>, transparent: bool,
      imports: seq<Path>)

  type Files = map<Path, File>

  /** checkSections. */
  predicate SectionsOk(f: File) {
    if f.variants != [] then f.fields == [] && !f.transparent
    else f.fields != [] && (f.transparent ==> |f.fields| == 1) && forall e | e in f.fields :: Trim(e.typ) != ""
  }

  /** The type the file declares. */
  function TypeIn(f: File): RawType {
    RawType(if f.variants != [] then f.variants else f.fields, f.transparent, f.variants != [])
  }

  predicate Good(files: Files, p: Path) { p in files && files[p].parses && SectionsOk(files[p]) }

  function Imports(files: Files, p: Path): seq<Path> { if p in files then files[p].imports else [] }

  // ---- the import graph ----------------------------------------------------

  /** A chain of imports that stays out of `avoid`. */
  ghost predicate Chain(files: Files, avoid: set<Path>, w: seq<Path>) {
    && w != [] && (forall i | 0 <= i < |w| :: w[i] !in avoid)
    && forall i | 0 <= i < |w| - 1 :: w[i + 1] in Imports(files, w[i])
  }

  ghost predicate ChainTo(files: Files, avoid: set<Path>, w: seq<Path>, p: Path, q: Path) {
    Chain(files, avoid, w) && w[0] == p && w[|w| - 1] == q
  }

  ghost predicate ImportChain(files: Files, avoid: set<Path>, p: Path, q: Path) {
    exists w :: ChainTo(files, avoid, w, p, q)
  }

  lemma ChainStarts(files: Files, avoid: set<Path>, p: Path)
    requires p !in avoid
    ensures ImportChain(files, avoid, p, p)
  {
    assert ChainTo(files, avoid, [p], p, p);
  }

  lemma ChainAvoids(files: Files, avoid: set<Path>, p: Path, q: Path)
    requires ImportChain(files, avoid, p, q)
    ensures p !in avoid && q !in avoid
  {
    var w :| ChainTo(files, avoid, w, p, q);
    assert w[0] !in avoid && w[|w| - 1] !in avoid;
  }

  lemma ChainGrows(files: Files, avoid: set<Path>, p: Path, q: Path, c: Path)
    requires ImportChain(files, avoid, p, q) && c in Imports(files, q) && c !in avoid
    ensures ImportChain(files, avoid, p, c)
  {
    var w :| ChainTo(files, avoid, w, p, q);
    var v := w + [c];
    forall i | 0 <= i < |v| - 1 ensures v[i + 1] in Imports(files, v[i]) {
      if i == |w| - 1 { assert v[i] == q && v[i + 1] == c; } else { assert v[i + 1] == w[i + 1] && v[i] == w[i]; }
    }
    assert ChainTo(files, avoid, v, p, c);
  }

  lemma ChainBefore(files: Files, avoid: set<Path>, more: set<Path>, p: Path, c: Path, q: Path)
    requires p !in avoid && c in Imports(files, p) && avoid <= more && ImportChain(files, more, c, q)
    ensures ImportChain(files, avoid, p, q)
  {
    var w :| ChainTo(files, more, w, c, q);
    var v := [p] + w;
    forall i | 0 <= i < |v| - 1 ensures v[i + 1] in Imports(files, v[i]) {
      if i == 0 { assert v[1] == w[0]; } else { assert v[i + 1] == w[i] && v[i] == w[i - 1]; }
    }
    assert ChainTo(files, avoid, v, p, q);
  }

  /** Every visited file outside `avoid` has all its imports visited. */
  ghost predicate Closed(files: Files, avoid: set<Path>, seen: set<Path>) {
    forall q, c | q in seen && q !in avoid && c in Imports(files, q) :: c in seen
  }

  lemma {:induction false} ClosedHolds(files: Files, avoid: set<Path>, seen: set<Path>, w: seq<Path>)
    requires Closed(files, avoid, seen) && Chain(files, avoid, w) && w[0] in seen
    ensures w[|w| - 1] in seen
    decreases |w|
  {
    if |w| > 1 {
      ClosedHolds(files, avoid, seen, w[..|w| - 1]);
      assert w[|w| - 2 + 1] in Imports(files, w[|w| - 2]);
    }
  }

  lemma ClosedChains(files: Files, avoid: set<Path>, seen: set<Path>, p: Path, q: Path)
    requires Closed(files, avoid, seen) && p in seen && ImportChain(files, avoid, p, q)
    ensures q in seen
  {
    var w :| ChainTo(files, avoid, w, p, q);
    ClosedHolds(files, avoid, seen, w);
  }

  // ---- what a walk gathers -------------------------------------------------

  /** The registry holds one entry for each name of the given files, each the type of
      a file of that name. */
  ghost predicate Gathered(files: Files, base: Path -> string, ps: set<Path>, reg: Registry) {
    && (forall p | p in ps :: Good(files, p) && base(p) in reg)
    && forall n | n in reg :: exists p | p in ps && p in files :: base(p) == n && reg[n] == TypeIn(files[p])
  }

  lemma GatheredBoth(files: Files, base: Path -> string, a: set<Path>, b: set<Path>, x: Registry, y: Registry)
    requires Gathered(files, base, a, x) && Gathered(files, base, b, y)
    ensures Gathered(files, base, a + b, x + y)
  {
    forall n | n in x + y
      ensures exists p | p in a + b && p in files :: base(p) == n && (x + y)[n] == TypeIn(files[p])
    {
      if n in y {
        var p :| p in b && p in files && base(p) == n && y[n] == TypeIn(files[p]);
        assert p in a + b;
      } else {
        var p :| p in a && p in files && base(p) == n && x[n] == TypeIn(files[p]);
        assert p in a + b;
      }
    }
  }

  /** Whatever was gathered is what the resolver expects of a registry. */
  lemma GatheredIsLoaded(files: Files, base: Path -> string, ps: set<Path>, reg: Registry)
    requires Gathered(files, base, ps, reg)
    ensures Loaded(reg)
  {
    forall n | n in reg && reg[n].transparent ensures !reg[n].sum && |reg[n].fields| == 1 {
      var p :| p in ps && p in files && base(p) == n && reg[n] == TypeIn(files[p]);
      assert Good(files, p);
    }
  }

  /** No type is lost exactly when files of the same name declare the same type: of
      two that differ, the one merged later silently replaces the other. */
  lemma NothingLost(files: Files, base: Path -> string, ps: set<Path>, reg: Registry)
    requires Gathered(files, base, ps, reg)
    ensures (forall p | p in ps :: p in files && base(p) in reg && reg[base(p)] == TypeIn(files[p])) <==>
            forall p, q | p in ps && q in ps && p in files && q in files &&
                base(p) == base(q) :: TypeIn(files[p]) == TypeIn(files[q])
  {
    hide TypeIn, SectionsOk;
    if forall p, q | p in ps && q in ps && p in files && q in files && base(p) == base(q) ::
         TypeIn(files[p]) == TypeIn(files[q])
    {
      forall p | p in ps ensures p in files && base(p) in reg && reg[base(p)] == TypeIn(files[p]) {
        assert Good(files, p);
        var q :| q in ps && q in files && base(q) == base(p) && reg[base(p)] == TypeIn(files[q]);
      }
    }
  }

  const ORDERS: Path := "orders/item.yaml"
  const STOCK: Path := "stock/item.yaml"
  const ORDER_ITEM := File(true, [RawField("sku", "string")], [], false, [])
  const STOCK_ITEM := File(true, [RawField("count", "uint32")], [], false, [])

  /** Two files of one base name that declare different types: both are good, and
      whatever registry is gathered from them, one of the two is not in it. */
  lemma OneNameTwoTypes(base: Path -> string, reg: Registry)
    requires base(ORDERS) == base(STOCK)
    ensures var files := map[ORDERS := ORDER_ITEM, STOCK := STOCK_ITEM];
            && Good(files, ORDERS) && Good(files, STOCK)
            && (Gathered(files, base, {ORDERS, STOCK}, reg) ==>
                  reg[base(ORDERS)] != TypeIn(ORDER_ITEM) || reg[base(STOCK)] != TypeIn(STOCK_ITEM))
  {
    assert ORDERS != STOCK by { assert ORDERS[0] != STOCK[0]; }
    ItemsDiffer();
    hide ORDERS, STOCK, ORDER_ITEM, STOCK_ITEM, SectionsOk, TypeIn;
    var files := map[ORDERS := ORDER_ITEM, STOCK := STOCK_ITEM];
    assert files[ORDERS] == ORDER_ITEM && files[STOCK] == STOCK_ITEM;
  }

  lemma ItemsDiffer()
    ensures ORDER_ITEM.parses && SectionsOk(ORDER_ITEM) && STOCK_ITEM.parses && SectionsOk(STOCK_ITEM)
    ensures TypeIn(ORDER_ITEM) != TypeIn(STOCK_ITEM)
  {
    OneFieldOk("sku", "string");
    OneFieldOk("count", "uint32");
    hide SectionsOk;
    assert |ORDER_ITEM.fields[0].name| != |STOCK_ITEM.fields[0].name|;
  }

  lemma OneFieldOk(name: string, typ: string)
    requires typ != "" && !IsSpace(typ[0]) && !IsSpace(typ[|typ| - 1])
    ensures SectionsOk(File(true, [RawField(name, typ)], [], false, []))
  {
    hide TrimLeft, TrimRight, IsSpace;
    assert Trimmed(typ);
  }

  /** A walk from `path` so far: it visited only what the imports lead to, has gathered
      it, and owes nothing but imports of `path` itself. */
  ghost predicate Walked(files: Files, base: Path -> string, before: set<Path>, path: Path, seen: set<Path>,
      out: Registry) {
    && (forall q | q in seen - before :: ImportChain(files, before, path, q))
    && Closed(files, before + {path}, seen)
    && Gathered(files, base, seen - before, out)
  }

  lemma WalkedFirst(files: Files, base: Path -> string, before: set<Path>, path: Path)
    requires Good(files, path) && path !in before
    ensures Walked(files, base, before, path, before + {path}, map[base(path) := TypeIn(files[path])])
  {
    ChainStarts(files, before, path);
    FirstGathered(files, base, path);
    assert (before + {path}) - before == {path};
  }

  lemma WalkedOn(files: Files, base: Path -> string, before: set<Path>, path: Path, prior: set<Path>,
      seen: set<Path>, imp: Path, out: Registry, sub: Registry)
    requires Walked(files, base, before, path, prior, out) && path !in before && before <= prior <= seen &&
             imp in Imports(files, path)
    requires (forall q :: q in seen - prior <==> ImportChain(files, prior, imp, q)) &&
             Gathered(files, base, seen - prior, sub)
    ensures Walked(files, base, before, path, seen, out + sub)
  {
    hide ImportChain, Gathered, Closed;
    forall q | q in seen - before ensures ImportChain(files, before, path, q) {
      if q !in prior {
        assert q in seen - prior;
        ChainBefore(files, before, prior, path, imp, q);
      } else {
        assert q in prior - before;
      }
    }
    ClosedMore(files, before + {path}, prior, seen, imp);
    GatheredBoth(files, base, prior - before, seen - prior, out, sub);
    assert (prior - before) + (seen - prior) == seen - before;
  }

  lemma WalkedAll(files: Files, base: Path -> string, before: set<Path>, path: Path, seen: set<Path>, out: Registry)
    requires Walked(files, base, before, path, seen, out) && path in seen && path !in before && path in files
    requires forall j | 0 <= j < |files[path].imports| :: files[path].imports[j] in seen
    ensures forall q :: q in seen - before <==> ImportChain(files, before, path, q)
    ensures forall q | ImportChain(files, before, path, q) :: Good(files, q)
  {
    hide ImportChain, Gathered, Closed, Good;
    ClosedAll(files, before, path, seen);
    forall q | ImportChain(files, before, path, q) ensures q in seen - before {
      ClosedChains(files, before, seen, path, q);
      ChainAvoids(files, before, path, q);
    }
    GatheredGood(files, base, seen - before, out);
  }

  datatype ImportError = Unreadable(path: Path) | Malformed(path: Path)

  class Importer {
    const files: Files
    const base: Path -> string
    var seen: set<Path>

    constructor (files: Files, base: Path -> string)
      ensures this.files == files && this.base == base && seen == {}
    {
      this.files, this.base, seen := files, base, {};
    }

    /** Succeeds exactly when every file reachable from here without passing through a
        visited one is good; it then has visited exactly those, and gathered them. */
    method LoadImportable(path: Path) returns (r: Result<Registry, ImportError>)
      modifies this
      ensures old(seen) <= seen && path in seen
      ensures r.Ok? <==> forall q | ImportChain(files, old(seen), path, q) :: Good(files, q)
      ensures r.Ok? ==> forall q :: q in seen - old(seen) <==> ImportChain(files, old(seen), path, q)
      ensures r.Ok? ==> Gathered(files, base, seen - old(seen), r.value)
      ensures r.Err? ==> ImportChain(files, old(seen), path, r.error.path) && !Good(files, r.error.path)
      decreases files.Keys - seen
    {
      hide *;
      ghost var before := seen;
      if path in seen {
        NoChain(files, before, path);
        NoneGathered(files, base);
        assert seen - before == {};
        return Ok(map[]);
      }
      seen := seen + {path};
      ChainStarts(files, before, path);
      GoodWhen(files, path);
      if path !in files { return Err(Unreadable(path)); }
      var f := files[path];
      if !f.parses || !SectionsOk(f) { return Err(Malformed(path)); }
      WalkedFirst(files, base, before, path);
      var out: Registry := map[base(path) := TypeIn(f)];
      for i := 0 to |f.imports|
        invariant before <= seen && path in seen
        invariant forall j | 0 <= j < i :: f.imports[j] in seen
        invariant Walked(files, base, before, path, seen, out)
      {
        var imp := f.imports[i];
        ImportsAt(files, path, i);
        ghost var prior := seen;
        var sub := LoadImportable(imp);
        if sub.Err? {
          ChainBefore(files, before, prior, path, imp, sub.error.path);
          return Err(sub.error);
        }
        WalkedOn(files, base, before, path, prior, seen, imp, out, sub.value);
        out := out + sub.value;
      }
      WalkedAll(files, base, before, path, seen, out);
      WalkedGathers(files, base, before, path, seen, out);
      r := Ok(out);
    }
  }

  lemma WalkedGathers(files: Files, base: Path -> string, before: set<Path>, path: Path, seen: set<Path>, out: Registry)
    requires Walked(files, base, before, path, seen, out)
    ensures Gathered(files, base, seen - before, out)
  {
  }

  lemma GoodWhen(files: Files, p: Path)
    ensures Good(files, p) <==> p in files && files[p].parses && SectionsOk(files[p])
  {
  }

  lemma ImportsAt(files: Files, p: Path, i: nat)
    requires p in files && i < |files[p].imports|
    ensures files[p].imports[i] in Imports(files, p)
  {
  }

  lemma NoChain(files: Files, avoid: set<Path>, p: Path)
    requires p in avoid
    ensures forall q :: !ImportChain(files, avoid, p, q)
  {
    forall q ensures !ImportChain(files, avoid, p, q) {
      if ImportChain(files, avoid, p, q) { ChainAvoids(files, avoid, p, q); }
    }
  }

  lemma FirstGathered(files: Files, base: Path -> string, p: Path)
    requires Good(files, p)
    ensures Gathered(files, base, {p}, map[base(p) := TypeIn(files[p])])
    ensures Closed(files, {p}, {p})
  {
  }

  lemma GatheredGood(files: Files, base: Path -> string, ps: set<Path>, reg: Registry)
    requires Gathered(files, base, ps, reg)
    ensures forall p | p in ps :: Good(files, p)
  {
  }

  /** A further walk closes what it visits. */
  lemma ClosedMore(files: Files, avoid: set<Path>, prior: set<Path>, seen: set<Path>, imp: Path)
    requires Closed(files, avoid, prior) && prior <= seen && forall q :: q in seen - prior <==>
             ImportChain(files, prior, imp, q)
    ensures Closed(files, avoid, seen)
  {
    hide ImportChain;
    forall q, c | q in seen && q !in avoid && c in Imports(files, q) ensures c in seen {
      if q !in prior && c !in prior {
        assert q in seen - prior;
        ChainGrows(files, prior, imp, q, c);
        assert c in seen - prior;
      }
    }
  }

  lemma ClosedAll(files: Files, before: set<Path>, path: Path, seen: set<Path>)
    requires Closed(files, before + {path}, seen) && path in files &&
             forall j | 0 <= j < |files[path].imports| :: files[path].imports[j] in seen
    ensures Closed(files, before, seen)
  {
  }

  /** The file is one of the imports or reached from one. */
  ghost predicate Reached(files: Files, imports: seq<Path>, q: Path) {
    exists p | p in imports :: ImportChain(files, {}, p, q)
  }

  /** What was seen before and what one more import gathered is reached from the imports. */
  lemma ReachedMore(files: Files, imports: seq<Path>, prior: set<Path>, seen: set<Path>, path: Path)
    requires path in imports && forall q | q in prior :: Reached(files, imports, q)
    requires forall q | q in seen - prior :: ImportChain(files, prior, path, q)
    ensures forall q | q in seen :: Reached(files, imports, q)
  {
    hide ImportChain;
    forall q | q in seen ensures Reached(files, imports, q) {
      if q !in prior { ChainLoosens(files, prior, path, q); }
    }
  }

  /** Nothing reached is left out of a visited set that holds the imports and is closed. */
  lemma ReachedSeen(files: Files, imports: seq<Path>, seen: set<Path>)
    requires Closed(files, {}, seen) && forall p | p in imports :: p in seen
    ensures forall q | Reached(files, imports, q) :: q in seen
  {
    hide ImportChain, Closed;
    forall q | Reached(files, imports, q) ensures q in seen {
      var p :| p in imports && ImportChain(files, {}, p, q);
      ClosedChains(files, {}, seen, p, q);
    }
  }

  lemma BadReached(files: Files, imports: seq<Path>, prior: set<Path>, p: Path, q: Path)
    requires p in imports && ImportChain(files, prior, p, q)
    ensures Reached(files, imports, q)
  {
    ChainLoosens(files, prior, p, q);
  }

  /** Loading from an empty visited set: the registry is that of all the files
      reachable from the imports, whatever cycles the import graph has. */
  method LoadImports(files: Files, base: Path -> string, imports: seq<Path>) returns (r: Result<Registry, ImportError>)
    ensures r.Ok? <==> forall q | Reached(files, imports, q) :: Good(files, q)
    ensures r.Ok? ==> Loaded(r.value)
    ensures r.Ok? ==> exists ps: set<Path> ::
              (forall q :: q in ps <==> Reached(files, imports, q)) && Gathered(files, base, ps, r.value)
  {
    hide ImportChain, Gathered, Good, Closed, Loaded, Reached;
    var im := new Importer(files, base);
    var out: Registry := map[];
    NoneGathered(files, base);
    for i := 0 to |imports|
      invariant im.files == files && im.base == base
      invariant Gathered(files, base, im.seen, out) && Closed(files, {}, im.seen)
      invariant forall j | 0 <= j < i :: imports[j] in im.seen
      invariant forall q | q in im.seen :: Reached(files, imports, q)
    {
      ghost var prior := im.seen;
      var sub := im.LoadImportable(imports[i]);
      assert imports[i] in imports;
      if sub.Err? {
        BadReached(files, imports, prior, imports[i], sub.error.path);
        return Err(sub.error);
      }
      ReachedMore(files, imports, prior, im.seen, imports[i]);
      ClosedMore(files, {}, prior, im.seen, imports[i]);
      GatheredBoth(files, base, prior, im.seen - prior, out, sub.value);
      assert prior + (im.seen - prior) == im.seen;
      out := out + sub.value;
    }
    ReachedSeen(files, imports, im.seen);
    GatheredGood(files, base, im.seen, out);
    GatheredIsLoaded(files, base, im.seen, out);
    r := Ok(out);
  }

  lemma NoneGathered(files: Files, base: Path -> string)
    ensures Gathered(files, base, {}, map[]) && Closed(files, {}, {})
  {
  }

  lemma ChainLoosens(files: Files, avoid: set<Path>, p: Path, q: Path)
    requires ImportChain(files, avoid, p, q)
    ensures ImportChain(files, {}, p, q)
  {
    var w :| ChainTo(files, avoid, w, p, q);
    assert ChainTo(files, {}, w, p, q);
  }
}
