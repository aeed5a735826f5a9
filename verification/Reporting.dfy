/** The shared report (internal/report/report.go) and the coverage check on it
    (internal/orch/coverage.go). */
module Reporting {
  import opened Common
  import opened TestIds

  datatype Status = Pass | Fail | XFail | XPass | Skip | Warn | Error

  datatype Op =
    | Serialize | Deserialize | Matrix
    | AuditMutation | AuditStability | AuditOutputZeroCopy
    | AuditZeroCopy | AuditInputMut | AuditDeserStability

  /** What identifies a row. */
  datatype Key = Key(testID: string, lang: string, op: Op)

  datatype Row = Row(key: Key, status: Status, detail: string)

  /** The parts of a report that rows go into. */
  datatype Rep = Rep(results: map<Key, Row>, failures: seq<Row>, warnings: seq<Row>)

  const EMPTY := Rep(map[], [], [])

  predicate Failing(s: Status) { s.Fail? || s.Error? }

  predicate Warning(s: Status) { s.Warn? || s.XPass? }

  predicate HasKey(rs: seq<Row>, k: Key) { exists r | r in rs :: r.key == k }

  /** No two rows with one key. */
  predicate KeysDiffer(rs: seq<Row>) { forall i, j | 0 <= i < j < |rs| :: rs[i].key != rs[j].key }

  function AppendOnce(rs: seq<Row>, res: Row): seq<Row> {
    if HasKey(rs, res.key) then rs else rs + [res]
  }

  /** What one Add does. */
  function AddTo(r: Rep, res: Row): Rep {
    Rep(r.results[res.key := res],
        if Failing(res.status) then AppendOnce(r.failures, res) else r.failures,
        if Warning(res.status) then AppendOnce(r.warnings, res) else r.warnings)
  }

  function AddAll(r: Rep, rows: seq<Row>): Rep {
    if rows == [] then r else AddTo(AddAll(r, rows[..|rows| - 1]), rows[|rows| - 1])
  }

  predicate Success(r: Rep) { r.failures == [] }

  class Report {
    var results: map<Key, Row>
    var failures: seq<Row>
    var warnings: seq<Row>

    function State(): Rep
      reads this
    {
      Rep(results, failures, warnings)
    }

    constructor ()
      ensures State() == EMPTY
    {
      results, failures, warnings := map[], [], [];
    }

    method Add(res: Row)
      modifies this
      ensures State() == AddTo(old(State()), res)
    {
      results := results[res.key := res];
      match res.status
      case Pass => case XFail => case Skip =>
      case Fail =>
        if !HasKey(failures, res.key) { failures := failures + [res]; }
      case Error =>
        if !HasKey(failures, res.key) { failures := failures + [res]; }
      case Warn =>
        if !HasKey(warnings, res.key) { warnings := warnings + [res]; }
      case XPass =>
        if !HasKey(warnings, res.key) { warnings := warnings + [res]; }
    }

    method AddEach(rows: seq<Row>)
      modifies this
      ensures State() == AddAll(old(State()), rows)
    {
      for i := 0 to |rows|
        invariant State() == AddAll(old(State()), rows[..i])
      {
        Add(rows[i]);
        assert rows[..i + 1][..i] == rows[..i];
      }
      assert rows[..|rows|] == rows;
    }

    /** The first loop of CheckExpectedSkips: the rows that are not covered, and the
        declared entries that some skip used. */
    method FindUndeclared(expected: map<string, Declared>)
      returns (rows: seq<Row>, used: set<Entry>)
      ensures KeysDiffer(rows)
      ensures forall r | r in rows :: r.status == Fail && r.key in results && Undeclared(expected, results[r.key])
      ensures forall k | k in results && Undeclared(expected, results[k]) :: HasKey(rows, k)
      ensures forall e :: e in used <==> exists k | k in results :: UsedBy(expected, results[k]) == Some(e)
    {
      rows, used := [], {};
      var keys := results.Keys;
      while keys != {}
        invariant keys <= results.Keys
        invariant forall r | r in rows :: r.status == Fail && r.key in results && Undeclared(expected, results[r.key])
        invariant KeysDiffer(rows) && forall r | r in rows :: r.key !in keys
        invariant forall k | k in results && k !in keys && Undeclared(expected, results[k]) :: HasKey(rows, k)
        invariant forall e :: e in used <==> exists k | k in results &&
                 k !in keys :: UsedBy(expected, results[k]) == Some(e)
        decreases |keys|
      {
        hide UsedBy, Undeclared;
        var k :| k in keys;
        keys := keys - {k};
        var e := UsedBy(expected, results[k]);
        if e.Some? {
          used := used + {e.value};
        }
        if Undeclared(expected, results[k]) {
          var row := Row(k, Fail, UNDECLARED);
          assert row in rows + [row];
          ghost var before := rows;
          rows := rows + [row];
          assert forall j | HasKey(before, j) :: HasKey(rows, j);
        }
      }
    }

    /** The last loop: one warning for each declared entry nothing used. */
    method StaleRows(entries: set<Entry>, used: set<Entry>) returns (rows: seq<Row>)
      ensures KeysDiffer(rows)
      ensures forall r :: r in rows <==> exists e | e in entries && e !in used :: r == StaleRow(e)
    {
      rows := [];
      var rest := entries;
      while rest != {}
        invariant rest <= entries && KeysDiffer(rows)
        invariant forall r :: r in rows <==> exists e | e in entries && e !in rest && e !in used :: r == StaleRow(e)
        decreases |rest|
      {
        var e :| e in rest;
        rest := rest - {e};
        if e !in used {
          forall r | r in rows ensures r.key != StaleRow(e).key {
            var x :| x in entries && x !in rest + {e} && x !in used && r == StaleRow(x);
          }
          rows := rows + [StaleRow(e)];
        }
      }
    }

    /** CheckExpectedSkips: undeclared skips become failures, entries nothing used
        become warnings, and nothing else is added. */
    method CheckExpectedSkips(expected: map<string, Declared>)
      modifies this
      ensures exists rows: seq<Row>, stale: seq<Row> ::
                && State() == AddAll(old(State()), rows + stale)
                && (forall k :: HasKey(rows, k) <==> k in old(results) && Undeclared(expected, old(results)[k]))
                && KeysDiffer(rows) && (forall r | r in rows :: r.status == Fail)
                && KeysDiffer(stale)
                && (forall r :: r in stale <==>
                      exists e | e in Entries(expected) :: r == StaleRow(e) &&
                          !EntryUsed(expected, old(results), e))
      ensures Success(State()) <==>
              Success(old(State())) && forall k | k in old(results) :: !Undeclared(expected, old(results)[k])
    {
      hide Undeclared, UsedBy, Entries;
      ghost var was := State();
      var rows, used := FindUndeclared(expected);
      var stale := StaleRows(Entries(expected), used);
      assert forall e :: EntryUsed(expected, results, e) <==> e in used;
      AddEach(rows);
      AddEach(stale);
      AddAllConcat(was, rows, stale);
      SuccessAfter(was, rows + stale);
      assert forall k :: HasKey(rows, k) <==> k in was.results && Undeclared(expected, was.results[k]);
      if k :| k in was.results && Undeclared(expected, was.results[k]) {
        var r :| r in rows && r.key == k;
        assert r in rows + stale;
      }
    }
  }

  // ---- what a history of rows adds up to -----------------------------------

  lemma {:induction false} AddAllConcat(r: Rep, a: seq<Row>, b: seq<Row>)
    ensures AddAll(AddAll(r, a), b) == AddAll(r, a + b)
  {
    if b == [] {
      assert a + b == a;
    } else {
      AddAllConcat(r, a, b[..|b| - 1]);
      assert (a + b)[..|a + b| - 1] == a + b[..|b| - 1];
    }
  }

  /** In general success records history: it holds exactly when it held before and no
      row added since was FAIL or ERROR, whatever was overwritten. */
  lemma {:induction false} SuccessAfter(r: Rep, rows: seq<Row>)
    ensures Success(AddAll(r, rows)) <==> Success(r) && forall x | x in rows :: !Failing(x.status)
  {
    if rows != [] {
      SuccessAfter(r, rows[..|rows| - 1]);
      assert rows == rows[..|rows| - 1] + [rows[|rows| - 1]];
    }
  }

  /** The row a key ends up with is the last one added for it. */
  lemma {:induction false} LastRowWins(r: Rep, rows: seq<Row>, i: nat)
    requires i < |rows| && forall j | i < j < |rows| :: rows[j].key != rows[i].key
    ensures rows[i].key in AddAll(r, rows).results && AddAll(r, rows).results[rows[i].key] == rows[i]
  {
    if i < |rows| - 1 {
      LastRowWins(r, rows[..|rows| - 1], i);
    }
  }

  /** Every row of a report came from the history. */
  lemma {:induction false} RowsComeFrom(rows: seq<Row>)
    ensures forall k | k in AddAll(EMPTY, rows).results ::
              AddAll(EMPTY, rows).results[k] in rows && AddAll(EMPTY, rows).results[k].key == k
  {
    if rows != [] {
      var init := rows[..|rows| - 1];
      RowsComeFrom(init);
      assert forall x | x in init :: x in rows;
      assert rows[|rows| - 1] in rows;
    }
  }

  /** Only SKIP rows are ever overwritten by a row with the same key. */
  predicate OnlySkipsOverwritten(rows: seq<Row>) {
    forall i, j | 0 <= i < j < |rows| && rows[i].key == rows[j].key :: rows[i].status == Skip
  }

  predicate NoFailingRow(r: Rep) { forall k | k in r.results :: !Failing(r.results[k].status) }

  /** Then the exit code and the rows agree. */
  lemma SuccessMatchesRows(rows: seq<Row>)
    requires OnlySkipsOverwritten(rows)
    ensures Success(AddAll(EMPTY, rows)) <==> NoFailingRow(AddAll(EMPTY, rows))
  {
    hide AddAll;
    SuccessAfter(EMPTY, rows);
    RowsComeFrom(rows);
    if x :| x in rows && Failing(x.status) {
      var i :| 0 <= i < |rows| && rows[i] == x;
      LastRowWins(EMPTY, rows, i);
    }
  }

  /** Exactly when: a failing row was overwritten by a passing one, and none is left. */
  lemma SuccessMatchesRowsExactly(rows: seq<Row>)
    ensures (Success(AddAll(EMPTY, rows)) <==> NoFailingRow(AddAll(EMPTY, rows))) <==>
            ((exists i | 0 <= i < |rows| ::
                Failing(rows[i].status) && forall j | i < j < |rows| :: rows[j].key != rows[i].key)
             || forall x | x in rows :: !Failing(x.status))
  {
    hide AddAll;
    SuccessAfter(EMPTY, rows);
    RowsComeFrom(rows);
    if i :| 0 <= i < |rows| && Failing(rows[i].status) && forall j | i < j < |rows| :: rows[j].key != rows[i].key {
      LastRowWins(EMPTY, rows, i);
    } else if !NoFailingRow(AddAll(EMPTY, rows)) {
      var k :| k in AddAll(EMPTY, rows).results && Failing(AddAll(EMPTY, rows).results[k].status);
      var i := LastOf(rows, k);
      LastRowWins(EMPTY, rows, i);
    }
  }

  lemma {:induction false} LastOf(rows: seq<Row>, k: Key) returns (i: nat)
    requires exists x | x in rows :: x.key == k
    ensures i < |rows| && rows[i].key == k && forall j | i < j < |rows| :: rows[j].key != k
  {
    if rows[|rows| - 1].key == k {
      i := |rows| - 1;
    } else {
      var x :| x in rows && x.key == k;
      assert rows == rows[..|rows| - 1] + [rows[|rows| - 1]];
      i := LastOf(rows[..|rows| - 1], k);
    }
  }

  /** A failure that a later pass overwrites still fails the run. */
  lemma OverwrittenFailureStays(k: Key)
    ensures var rows := [Row(k, Fail, ""), Row(k, Pass, "")];
            !Success(AddAll(EMPTY, rows)) && NoFailingRow(AddAll(EMPTY, rows))
  {
    var rows := [Row(k, Fail, ""), Row(k, Pass, "")];
    assert rows[..1] == [rows[0]] && [rows[0]][..0] == [];
    assert rows[0] in rows;
    SuccessAfter(EMPTY, rows);
    LastRowWins(EMPTY, rows, 1);
    RowsComeFrom(rows);
    assert forall x | x in rows :: x.key == k;
  }

  // ---- declared coverage ---------------------------------------------------

  /** An expected-skips file: whole types, and types under the name of an operation; a
      name that is no operation's is accepted too. */
  datatype Declared = Declared(types: seq<string>, operations: map<string, seq<string>>)

  const REF_SERIALIZE_FAILED := "reference serialize failed"
  const REF_UNSUPPORTED := "reference worker does not support this type/format"

  predicate CascadeSkip(detail: string) { detail == REF_SERIALIZE_FAILED || detail == REF_UNSUPPORTED }

  /** A skip that its language does not declare; a language without a file declares none. */
  predicate Undeclared(expected: map<string, Declared>, r: Row) {
    && r.status == Skip && !CascadeSkip(r.detail)
    && (r.key.lang in expected ==> !Covers(expected[r.key.lang], TypeOf(r.key.testID), OpName(r.key.op)))
  }

  /** ExpectedSkips.Covers. */
  predicate Covers(d: Declared, typ: string, op: string) {
    typ in d.types || (op in d.operations && typ in d.operations[op])
  }

  /** One line of a declaration: a type, or an operation and a type. */
  datatype Entry = Entry(lang: string, key: string)

  function Entries(expected: map<string, Declared>): set<Entry> {
    (set lang, t | lang in expected && t in expected[lang].types :: Entry(lang, t)) +
    (set lang, op, t | lang in expected && op in expected[lang].operations && t in expected[lang].operations[op] ::
        Entry(lang, Joined(SLASH, op, t)))
  }

  /** The entry that covers a skip, a whole type before an operation. */
  function UsedBy(expected: map<string, Declared>, r: Row): Option<Entry> {
    if r.status != Skip || CascadeSkip(r.detail) || r.key.lang !in expected then None
    else
      var es, t, op := expected[r.key.lang], TypeOf(r.key.testID), OpName(r.key.op);
      if t in es.types then Some(Entry(r.key.lang, t))
      else if op in es.operations && t in es.operations[op] then Some(Entry(r.key.lang, Joined(SLASH, op, t)))
      else None
  }

  ghost predicate EntryUsed(expected: map<string, Declared>, results: map<Key, Row>,
      e: Entry) {
    exists k | k in results :: UsedBy(expected, results[k]) == Some(e)
  }

  const UNDECLARED := "undeclared skip"
  const STALE := "stale expected-skip"

  function OpName(op: Op): string {
    match op
    case Serialize => "serialize" case Deserialize => "deserialize" case Matrix => "matrix"
    case AuditMutation => "audit-mutation" case AuditStability => "audit-stability"
    case AuditOutputZeroCopy => "audit-output-zero-copy" case AuditZeroCopy => "audit-zero-copy"
    case AuditInputMut => "audit-input-mutation" case AuditDeserStability => "audit-deser-stability"
  }

  function StaleRow(e: Entry): Row { Row(Key(e.key, e.lang, Serialize), Warn, STALE) }

  /** Every skip is a cascade, covered by exactly the entry it uses, or undeclared. */
  lemma SkipsAreSorted(expected: map<string, Declared>, r: Row)
    ensures r.status == Skip && !CascadeSkip(r.detail) ==>
            (Undeclared(expected, r) <==> UsedBy(expected, r).None?)
    ensures UsedBy(expected, r).Some? ==> UsedBy(expected, r).value in Entries(expected)
  {
    hide CascadeSkip;
  }

  // ---- the closing table ---------------------------------------------------

  datatype Tally = Tally(pass: nat, fail: nat, xfail: nat, xpass: nat, skip: nat, warn: nat)

  ghost function With(results: map<Key, Row>, keys: set<Key>, s: set<Status>): set<Key>
    requires keys <= results.Keys
  {
    set k | k in keys && results[k].status in s
  }

  ghost function Counted(results: map<Key, Row>, keys: set<Key>): Tally
    requires keys <= results.Keys
  {
    Tally(|With(results, keys, {Pass})|, |With(results, keys, {Fail, Error})|, |With(results, keys, {XFail})|,
          |With(results, keys, {XPass})|, |With(results, keys, {Skip})|, |With(results, keys, {Warn})|)
  }

  lemma CountOne(results: map<Key, Row>, keys: set<Key>, k: Key, s: set<Status>)
    requires keys <= results.Keys && k in results && k !in keys
    ensures |With(results, keys + {k}, s)| == |With(results, keys, s)| + if results[k].status in s then 1 else 0
  {
    if results[k].status in s {
      assert With(results, keys + {k}, s) == With(results, keys, s) + {k};
    } else {
      assert With(results, keys + {k}, s) == With(results, keys, s);
    }
  }

  function Bump(t: Tally, s: Status): Tally {
    match s
    case Pass => t.(pass := t.pass + 1)
    case Fail => t.(fail := t.fail + 1)
    case Error => t.(fail := t.fail + 1)
    case XFail => t.(xfail := t.xfail + 1)
    case XPass => t.(xpass := t.xpass + 1)
    case Skip => t.(skip := t.skip + 1)
    case Warn => t.(warn := t.warn + 1)
  }

  lemma CountedBump(results: map<Key, Row>, keys: set<Key>, k: Key)
    requires keys <= results.Keys && k in results && k !in keys
    ensures Counted(results, keys + {k}) == Bump(Counted(results, keys), results[k].status)
  {
    hide With;
    CountOne(results, keys, k, {Pass});
    CountOne(results, keys, k, {Fail, Error});
    CountOne(results, keys, k, {XFail});
    CountOne(results, keys, k, {XPass});
    CountOne(results, keys, k, {Skip});
    CountOne(results, keys, k, {Warn});
  }

  function Total(t: Tally): nat { t.pass + t.fail + t.xfail + t.xpass + t.skip + t.warn }

  /** The counters of printTable, over the rows in any order: a FAIL count above zero
      is a failing row, and no row goes uncounted. */
  method Count(results: map<Key, Row>) returns (t: Tally)
    ensures t == Counted(results, results.Keys) && Total(t) == |results|
    ensures t.fail > 0 <==> exists k | k in results :: Failing(results[k].status)
  {
    hide With, Counted, Bump, Total, Failing;
    t := Tally(0, 0, 0, 0, 0, 0);
    var keys := results.Keys;
    ghost var done: set<Key> := {};
    CountedNone(results);
    while keys != {}
      invariant done + keys == results.Keys && done !! keys
      invariant t == Counted(results, done) && Total(t) == |done|
      decreases |keys|
    {
      var k :| k in keys;
      CountedBump(results, done, k);
      BumpTotal(t, results[k].status);
      keys := keys - {k};
      t := Bump(t, results[k].status);
      done := done + {k};
    }
    assert done == results.Keys && |results| == |results.Keys|;
    CountedFails(results);
  }

  lemma BumpTotal(t: Tally, s: Status)
    ensures Total(Bump(t, s)) == Total(t) + 1
  {
  }

  lemma CountedNone(results: map<Key, Row>)
    ensures Counted(results, {}) == Tally(0, 0, 0, 0, 0, 0) && Total(Tally(0, 0, 0, 0, 0, 0)) == 0
  {
  }

  lemma CountedFails(results: map<Key, Row>)
    ensures Counted(results, results.Keys).fail > 0 <==> exists k | k in results :: Failing(results[k].status)
  {
    var bad := With(results, results.Keys, {Fail, Error});
    if k :| k in results && Failing(results[k].status) {
      assert k in bad;
    }
  }

  /** unimplementedTypes: the types every row of which is SKIP. */
  method UnimplementedTypes(results: map<Key, Row>) returns (out: set<string>)
    ensures forall t :: t in out <==>
              (exists k | k in results :: TypeOf(k.testID) == t)
              && forall k | k in results && TypeOf(k.testID) == t :: results[k].status == Skip
  {
    var seen: set<string> := {};
    var live: set<string> := {};
    var keys := results.Keys;
    while keys != {}
      invariant keys <= results.Keys
      invariant forall t :: t in seen <==> exists k | k in results && k !in keys :: TypeOf(k.testID) == t
      invariant forall t :: t in live <==>
                exists k | k in results && k !in keys :: TypeOf(k.testID) == t && results[k].status != Skip
      decreases |keys|
    {
      var k :| k in keys;
      keys := keys - {k};
      var typ := TypeOf(k.testID);
      seen := seen + {typ};
      if results[k].status != Skip {
        live := live + {typ};
      }
    }
    out := seen - live;
  }
}
