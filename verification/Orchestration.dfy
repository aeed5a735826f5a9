/** The orchestrator (internal/orch/orch.go): one goroutine per language, a shared hex
    map and a shared report, under every interleaving. */
module Orchestration {
  import opened Common
  import opened Reporting
  import opened TestIds

  // ---- one case ------------------------------------------------------------

  datatype RespStatus = RespOK | RespSkipped | RespError | RespOther(name: string)

  datatype Findings = Findings(
    mutations: seq<string>, stable: Option<bool>, outputZeroCopy: seq<string>,
    zeroCopy: seq<string>, inputMutated: bool, deserStable: Option<bool>)

  /** What a Send comes back with; `data` is the decoded payload. */
  datatype Answer =
    | Broken(err: string)
    | Silent
    | Reply(status: RespStatus, hex: string, data: string, reason: string, error: string, audit: Option<Findings>)

  /** A case of one run: its languages (the reference among them), what its known
      failures are, the workers' answers, and the comparisons. A deserialize request is
      answered by its id, the worker and the bytes. */
  datatype Case = Case(
    id: string,
    langs: seq<string>,
    refLang: string,
    known: map<string, string>,
    audit: bool,
    semantic: bool,
    matrix: bool,
    serialize: string -> Answer,
    deserialize: (string, string, string) -> Answer,
    hexDiff: (string, string) -> string,
    dataDiff: string -> string)

  /** A full matrix labels its rows with pairs of languages; the labels must differ. */
  ghost predicate ValidCase(c: Case) {
    && c.refLang in c.langs && (forall i, j | 0 <= i < j < |c.langs| :: c.langs[i] != c.langs[j])
    && (c.matrix ==> LabelsDiffer(c.langs))
  }

  /** No arrow in one name could as well belong to another. */
  ghost predicate LabelsDiffer(langs: seq<string>) {
    forall a, b, a2, b2 | a in langs && b in langs && a2 in langs && b2 in langs :: !Shifted(ARROW, a, b, a2, b2)
  }

  datatype Outcome = Outcome(status: Status, detail: string)

  function KnownReason(c: Case, lang: string): Option<string> {
    if lang in c.known then Some(c.known[lang]) else None
  }

  /** resolveResult. */
  function Resolve(c: Case, lang: string, a: Answer): Outcome {
    match a
    case Broken(e) => Outcome(Error, e)
    case Silent => Outcome(Error, "no response")
    case Reply(RespOK, _, _, _, _, _) =>
      (match KnownReason(c, lang)
       case Some(r) => Outcome(XPass, "expected to fail (" + r + ") but passed")
       case None => Outcome(Pass, ""))
    case Reply(RespSkipped, _, _, reason, _, _) => Outcome(Skip, reason)
    case Reply(RespError, _, _, _, e, _) =>
      (match KnownReason(c, lang) case Some(r) => Outcome(XFail, r) case None => Outcome(Fail, e))
    case Reply(RespOther(name), _, _, _, _, _) => Outcome(Error, "unexpected status " + name)
  }

  /** verdict. */
  function Verdict(diff: string, known: Option<string>): Outcome {
    if diff != "" then (match known case Some(r) => Outcome(XFail, r) case None => Outcome(Fail, diff))
    else (match known case Some(r) => Outcome(XPass,
        "expected to fail (" + r + ") but passed") case None => Outcome(Pass, ""))
  }

  predicate OK(a: Answer) { a.Reply? && a.status.RespOK? }

  /** One atomic step of a goroutine: a write to the hex map or a row, each under its mutex. */
  datatype Act = SetHex(lang: string, hex: string) | Add(row: Row)

  function RowFor(c: Case, lang: string, op: Op, o: Outcome): Act {
    Add(Row(Key(c.id, lang, op), o.status, o.detail))
  }

  function Warned(c: Case, lang: string, op: Op, when: bool, detail: string): seq<Act> {
    if when then [RowFor(c, lang, op, Outcome(Warn, detail))] else []
  }

  function AuditOf(c: Case, a: Answer): Option<Findings> {
    if c.audit && a.Reply? then a.audit else None
  }

  function SerializeWarnings(c: Case, lang: string, a: Answer): seq<Act> {
    match AuditOf(c, a)
    case None => []
    case Some(f) =>
      Warned(c, lang, AuditMutation, f.mutations != [], "mutated fields")
      + Warned(c, lang, AuditStability, f.stable == Some(false), "serializer produced different output on repeat call")
      + Warned(c, lang, AuditOutputZeroCopy, f.outputZeroCopy != [], "output aliases model fields")
  }

  function DeserializeWarnings(c: Case, lang: string, a: Answer): seq<Act> {
    match AuditOf(c, a)
    case None => []
    case Some(f) =>
      Warned(c, lang, AuditZeroCopy, f.zeroCopy != [], "zero-copy fields")
      + Warned(c, lang, AuditInputMut, f.inputMutated, "deserializer modified input buffer")
      + Warned(c, lang, AuditDeserStability, f.deserStable == Some(false),
          "deserializer produced different result on repeat call")
  }

  /** The goroutine of round 1. */
  function SerThread(c: Case, lang: string): seq<Act> {
    var a := c.serialize(lang);
    (if OK(a) then [SetHex(lang, a.hex)] else [])
    + SerializeWarnings(c, lang, a)
    + (if OK(a) && lang != c.refLang then [] else [RowFor(c, lang, Serialize, Resolve(c, lang, a))])
  }

  /** The comparison of one candidate, given the hex map round 1 left. */
  function CompareOne(c: Case, hex: map<string, string>, lang: string): seq<Act> {
    if lang == c.refLang || lang !in hex then []
    else if c.refLang !in hex then [RowFor(c, lang, Serialize, Outcome(Pass, ""))]
    else
      var diff :=
        if c.semantic then SemanticDiff(c, lang, hex[lang])
        else c.hexDiff(hex[c.refLang], hex[lang]);
      [RowFor(c, lang, Serialize, Verdict(diff, KnownReason(c, lang)))]
  }

  /** semanticSerializeDiff: what the reference reads back. */
  function SemanticDiff(c: Case, lang: string, hex: string): string {
    match c.deserialize(c.id + "/semantic-" + lang, c.refLang, hex)
    case Broken(e) => "reference could not deserialize: " + e
    case Silent => "reference could not deserialize"
    case Reply(RespOK, _, data, _, _, _) => c.dataDiff(data)
    case Reply(_, _, _, _, e, _) => "reference could not deserialize: " + e
  }

  /** The goroutine of round 2. */
  function DeserThread(c: Case, refHex: string, lang: string): seq<Act> {
    var a := c.deserialize(c.id, lang, refHex);
    var o := if OK(a) then Verdict(c.dataDiff(a.data), KnownReason(c, lang)) else Resolve(c, lang, a);
    [RowFor(c, lang, Deserialize, o)] + DeserializeWarnings(c, lang, a)
  }

  /** One language's part of the last phase: round 2, or the skip when the reference
      has no bytes. */
  function LastThread(c: Case, hex: map<string, string>, lang: string): seq<Act> {
    if c.refLang in hex then DeserThread(c, hex[c.refLang], lang)
    else [RowFor(c, lang, Deserialize, Outcome(Skip, REF_SERIALIZE_FAILED))]
  }

  const NO_SOURCE := "source serialize failed"

  /** One pair of the full matrix: what one language wrote, read by another. No output
      and an empty one are the same here, and a known failure is settled before
      anything is compared. */
  function MatrixThread(c: Case, hex: map<string, string>, src: string, dst: string): seq<Act> {
    var bytes := if src in hex then hex[src] else "";
    var name := Joined(ARROW, src, dst);
    if bytes == "" then [RowFor(c, name, Matrix, Outcome(Skip, NO_SOURCE))]
    else
      var a := c.deserialize(c.id + "/matrix-" + name, dst, bytes);
      var o := Resolve(c, dst, a);
      var judged := if o.status.Pass? && c.dataDiff(a.data) != "" then Outcome(Fail, c.dataDiff(a.data)) else o;
      [RowFor(c, name, Matrix, judged)]
  }

  function MatrixOf(c: Case, hex: map<string, string>): ((string, string)) -> seq<Act> {
    (p: (string, string)) => MatrixThread(c, hex, p.0, p.1)
  }

  /** Every language with every language. */
  function Pairs(langs: seq<string>): seq<(string, string)> { PairsOf(langs, langs) }

  function PairsOf(srcs: seq<string>, langs: seq<string>): seq<(string, string)> {
    if srcs == [] then []
    else seq(|langs|, i requires 0 <= i < |langs| => (srcs[0], langs[i])) + PairsOf(srcs[1..], langs)
  }

  /** The threads of the full matrix; there are none without the reference's bytes. */
  function MatrixThreads(c: Case, hex: map<string, string>): seq<seq<Act>> {
    if c.matrix && c.refLang in hex then Threads(Pairs(c.langs), MatrixOf(c, hex))
    else []
  }

  // ---- executing -----------------------------------------------------------

  /** The hex map after these steps. */
  function HexAfter(acts: seq<Act>): map<string, string> {
    if acts == [] then map[]
    else
      var last := acts[|acts| - 1];
      var hex := HexAfter(acts[..|acts| - 1]);
      if last.SetHex? then hex[last.lang := last.hex] else hex
  }

  /** The rows these steps add, in order. */
  function RowsOf(acts: seq<Act>): seq<Row> {
    if acts == [] then []
    else RowsOf(acts[..|acts| - 1]) + (if acts[|acts| - 1].Add? then [acts[|acts| - 1].row] else [])
  }

  /** `acts` is a schedule of the threads: at each step one of them advances. */
  ghost predicate Interleaves(threads: seq<seq<Act>>, acts: seq<Act>)
    decreases |acts|
  {
    if acts == [] then forall t | t in threads :: t == []
    else exists i | 0 <= i < |threads| ::
           threads[i] != [] && threads[i][0] == acts[0] && Interleaves(threads[i := threads[i][1..]], acts[1..])
  }

  /** One thread for each language, or each pair of languages. */
  function Threads<T>(langs: seq<T>, f: T -> seq<Act>): (ts: seq<seq<Act>>)
    ensures |ts| == |langs| && forall i | 0 <= i < |langs| :: ts[i] == f(langs[i])
  {
    seq(|langs|, i requires 0 <= i < |langs| => f(langs[i]))
  }

  /** The threads one after the other. */
  function Flat(threads: seq<seq<Act>>): seq<Act> {
    if threads == [] then [] else threads[0] + Flat(threads[1..])
  }

  /** `acts` is what some run of the case does: a schedule of round 1, the comparisons
      in language order on the hex map it leaves, a schedule of the last phase, and one
      of the full matrix if there is to be one. */
  ghost predicate CaseRun(c: Case, acts: seq<Act>) {
    exists s1, s2, s3 :: RunOf(c, s1, s2, s3, acts)
  }

  ghost predicate RunOf(c: Case, s1: seq<Act>, s2: seq<Act>, s3: seq<Act>, acts: seq<Act>) {
    && Interleaves(Threads(c.langs, l => SerThread(c, l)), s1)
    && Interleaves(Threads(c.langs, l => LastThread(c, HexAfter(s1), l)), s2)
    && Interleaves(MatrixThreads(c, HexAfter(s1)), s3)
    && acts == s1 + Flat(Threads(c.langs, l => CompareOne(c, HexAfter(s1), l))) + s2 + s3
  }

  // ---- schedules keep the actions ------------------------------------------

  function Bag(threads: seq<seq<Act>>): multiset<Act> {
    if threads == [] then multiset{} else multiset(threads[0]) + Bag(threads[1..])
  }

  lemma {:induction false} BagUpdate(threads: seq<seq<Act>>, i: nat, t: seq<Act>)
    requires i < |threads|
    ensures Bag(threads[i := t]) + multiset(threads[i]) == Bag(threads) + multiset(t)
  {
    var more := threads[i := t];
    if i > 0 {
      BagUpdate(threads[1..], i - 1, t);
      assert more[1..] == threads[1..][i - 1 := t];
      var head, old1, new1 := multiset(threads[0]), Bag(threads[1..]), Bag(more[1..]);
      assert threads[1..][i - 1] == threads[i];
      assert Bag(more) == head + new1 && Bag(threads) == head + old1;
      assert (head + new1) + multiset(threads[i]) == head + (new1 + multiset(threads[i]));
      assert (head + old1) + multiset(t) == head + (old1 + multiset(t));
    } else {
      assert more[1..] == threads[1..];
      var rest := Bag(threads[1..]);
      assert (multiset(t) + rest) + multiset(threads[0]) == (multiset(threads[0]) + rest) + multiset(t);
    }
  }

  lemma {:induction false} BagEmpty(threads: seq<seq<Act>>)
    requires forall i | 0 <= i < |threads| :: threads[i] == []
    ensures Bag(threads) == multiset{}
  {
    if threads != [] {
      BagEmpty(threads[1..]);
    }
  }

  /** One step of a schedule takes its action out of the bag. */
  lemma BagStep(threads: seq<seq<Act>>, i: nat)
    requires i < |threads| && threads[i] != []
    ensures Bag(threads) == Bag(threads[i := threads[i][1..]]) + multiset{threads[i][0]}
  {
    BagUpdate(threads, i, threads[i][1..]);
    assert threads[i] == [threads[i][0]] + threads[i][1..];
    var one, rest := multiset{threads[i][0]}, multiset(threads[i][1..]);
    assert multiset(threads[i]) == one + rest;
    var after, before := Bag(threads[i := threads[i][1..]]), Bag(threads);
    Cancel(after, one, rest, before);
  }

  lemma Cancel(a: multiset<Act>, one: multiset<Act>, rest: multiset<Act>, b: multiset<Act>)
    requires a + (one + rest) == b + rest
    ensures b == a + one
  {
    forall x ensures b[x] == (a + one)[x] {
      assert (a + (one + rest))[x] == a[x] + one[x] + rest[x];
      assert (b + rest)[x] == b[x] + rest[x];
    }
  }

  /** Every schedule executes exactly the actions of the threads. */
  lemma {:induction false} ScheduleBag(threads: seq<seq<Act>>, acts: seq<Act>)
    requires Interleaves(threads, acts)
    ensures multiset(acts) == Bag(threads)
    decreases |acts|
  {
    hide Bag;
    if acts == [] {
      forall i | 0 <= i < |threads| ensures threads[i] == [] {
        assert threads[i] in threads;
      }
      BagEmpty(threads);
    } else {
      var i :| 0 <= i < |threads| && threads[i] != [] && threads[i][0] == acts[0]
               && Interleaves(threads[i := threads[i][1..]], acts[1..]);
      hide Interleaves;
      ScheduleBag(threads[i := threads[i][1..]], acts[1..]);
      BagStep(threads, i);
      assert acts == [acts[0]] + acts[1..];
    }
  }

  lemma {:induction false} FlatBag(threads: seq<seq<Act>>)
    ensures multiset(Flat(threads)) == Bag(threads)
  {
    if threads != [] {
      FlatBag(threads[1..]);
    }
  }

  lemma {:induction false} BagZip(langs: seq<string>, f: string -> seq<Act>, g: string -> seq<Act>)
    ensures Bag(Threads(langs, f)) + Bag(Threads(langs, g)) == Bag(Threads(langs, l => f(l) + g(l)))
  {
    if langs != [] {
      BagZip(langs[1..], f, g);
      assert Threads(langs, f)[1..] == Threads(langs[1..], f);
      assert Threads(langs, g)[1..] == Threads(langs[1..], g);
      assert Threads(langs, l => f(l) + g(l))[1..] == Threads(langs[1..], l => f(l) + g(l));
    }
  }

  lemma ThreadsEqual(langs: seq<string>, f: string -> seq<Act>, g: string -> seq<Act>)
    requires forall l | l in langs :: f(l) == g(l)
    ensures Threads(langs, f) == Threads(langs, g)
  {
    forall i | 0 <= i < |langs| ensures f(langs[i]) == g(langs[i]) {
      assert langs[i] in langs;
    }
  }

  lemma {:induction false} InBag<T>(langs: seq<T>, f: T -> seq<Act>, a: Act)
    ensures a in Bag(Threads(langs, f)) <==> exists l | l in langs :: a in f(l)
  {
    if langs != [] {
      assert Threads(langs, f)[1..] == Threads(langs[1..], f);
      InBag(langs[1..], f, a);
      if l :| l in langs && a in f(l) {
        assert l == langs[0] || l in langs[1..];
      }
      if a in f(langs[0]) {
        assert langs[0] in langs;
      }
    }
  }

  // ---- no two actions of a case touch the same place -----------------------

  function LangOf(a: Act): string { match a case SetHex(l, _) => l case Add(row) => row.key.lang }

  /** The order in which one language's actions can come. */
  function Slot(a: Act): nat {
    match a
    case SetHex(_, _) => 0
    case Add(row) =>
      match row.key.op
      case AuditMutation => 1 case AuditStability => 2 case AuditOutputZeroCopy => 3
      case Serialize => 4 case Deserialize => 5
      case AuditZeroCopy => 6 case AuditInputMut => 7 case AuditDeserStability => 8
      case Matrix => 9
  }

  /** Actions of one language on one case, no two in the same slot, all in slots of
      `lo` to `hi`. */
  ghost predicate Rising(id: string, lang: string, acts: seq<Act>, lo: nat, hi: nat) {
    && (forall i | 0 <= i < |acts| :: LangOf(acts[i]) == lang && lo <= Slot(acts[i]) <= hi && (acts[i].Add? ==>
        acts[i].row.key.testID == id))
    && forall i, j | 0 <= i < j < |acts| :: Slot(acts[i]) < Slot(acts[j])
  }

  lemma RisingAppend(id: string, lang: string, a: seq<Act>, b: seq<Act>, lo: nat, mid: nat, hi: nat)
    requires Rising(id, lang, a, lo, mid) && Rising(id, lang, b, mid + 1, hi) && lo <= mid <= hi
    ensures Rising(id, lang, a + b, lo, hi)
  {
    forall i, j | 0 <= i < j < |a + b| ensures Slot((a + b)[i]) < Slot((a + b)[j]) {
      assert (a + b)[i] == if i < |a| then a[i] else b[i - |a|];
      assert (a + b)[j] == if j < |a| then a[j] else b[j - |a|];
    }
  }

  lemma NothingRises(id: string, lang: string, lo: nat, hi: nat)
    ensures Rising(id, lang, [], lo, hi)
  {
  }

  lemma OneRises(c: Case, lang: string, op: Op, o: Outcome)
    ensures var a := RowFor(c, lang, op, o); Rising(c.id, lang, [a], Slot(a), Slot(a))
  {
  }

  lemma WarnedRises(c: Case, lang: string, op: Op, when: bool, detail: string)
    ensures var n := Slot(RowFor(c, lang, op, Outcome(Warn, detail))); Rising(c.id, lang,
            Warned(c, lang, op, when, detail), n, n)
  {
    OneRises(c, lang, op, Outcome(Warn, detail));
  }

  lemma SerializeWarningsRise(c: Case, lang: string, a: Answer)
    ensures Rising(c.id, lang, SerializeWarnings(c, lang, a), 1, 3)
  {
    hide Rising, Warned;
    match AuditOf(c, a)
    case None => NothingRises(c.id, lang, 1, 3);
    case Some(f) =>
      var w1 := Warned(c, lang, AuditMutation, f.mutations != [], "mutated fields");
      var w2 := Warned(c, lang, AuditStability, f.stable == Some(false),
          "serializer produced different output on repeat call");
      var w3 := Warned(c, lang, AuditOutputZeroCopy, f.outputZeroCopy != [], "output aliases model fields");
      WarnedRises(c, lang, AuditMutation, f.mutations != [], "mutated fields");
      WarnedRises(c, lang, AuditStability, f.stable == Some(false),
          "serializer produced different output on repeat call");
      WarnedRises(c, lang, AuditOutputZeroCopy, f.outputZeroCopy != [], "output aliases model fields");
      RisingAppend(c.id, lang, w1, w2, 1, 1, 2);
      RisingAppend(c.id, lang, w1 + w2, w3, 1, 2, 3);
  }

  lemma DeserializeWarningsRise(c: Case, lang: string, a: Answer)
    ensures Rising(c.id, lang, DeserializeWarnings(c, lang, a), 6, 8)
  {
    hide Rising, Warned;
    match AuditOf(c, a)
    case None => NothingRises(c.id, lang, 6, 8);
    case Some(f) =>
      var w1 := Warned(c, lang, AuditZeroCopy, f.zeroCopy != [], "zero-copy fields");
      var w2 := Warned(c, lang, AuditInputMut, f.inputMutated, "deserializer modified input buffer");
      var w3 := Warned(c, lang, AuditDeserStability, f.deserStable == Some(false),
          "deserializer produced different result on repeat call");
      WarnedRises(c, lang, AuditZeroCopy, f.zeroCopy != [], "zero-copy fields");
      WarnedRises(c, lang, AuditInputMut, f.inputMutated, "deserializer modified input buffer");
      WarnedRises(c, lang, AuditDeserStability, f.deserStable == Some(false),
          "deserializer produced different result on repeat call");
      RisingAppend(c.id, lang, w1, w2, 6, 6, 7);
      RisingAppend(c.id, lang, w1 + w2, w3, 6, 7, 8);
  }

  /** The hex map every run of round 1 leaves. */
  function Hexes(c: Case): map<string, string> {
    map l | l in c.langs && OK(c.serialize(l)) :: c.serialize(l).hex
  }

  /** Everything one language does in a run. */
  function PerLang(c: Case, lang: string): seq<Act> {
    SerThread(c, lang) + CompareOne(c, Hexes(c), lang) + LastThread(c, Hexes(c), lang)
  }

  /** The serialize row a language ends up with. */
  function SerializeOutcome(c: Case, lang: string): Outcome {
    var a := c.serialize(lang);
    if !OK(a) || lang == c.refLang then Resolve(c, lang, a)
    else if !OK(c.serialize(c.refLang)) then Outcome(Pass, "")
    else if c.semantic then Verdict(SemanticDiff(c, lang, a.hex), KnownReason(c, lang))
    else Verdict(c.hexDiff(c.serialize(c.refLang).hex, a.hex), KnownReason(c, lang))
  }

  function DeserializeOutcome(c: Case, lang: string): Outcome {
    var r := c.serialize(c.refLang);
    if !OK(r) then Outcome(Skip, REF_SERIALIZE_FAILED)
    else
      var a := c.deserialize(c.id, lang, r.hex);
      if OK(a) then Verdict(c.dataDiff(a.data), KnownReason(c, lang)) else Resolve(c, lang, a)
  }

  lemma SerializeShape(c: Case, lang: string)
    requires ValidCase(c) && lang in c.langs
    ensures SerThread(c, lang) + CompareOne(c, Hexes(c), lang) ==
            (if OK(c.serialize(lang)) then [SetHex(lang, c.serialize(lang).hex)] else [])
            + SerializeWarnings(c, lang, c.serialize(lang))
            + [RowFor(c, lang, Serialize, SerializeOutcome(c, lang))]
  {
    hide Resolve, Verdict, SemanticDiff, SerializeWarnings, RowFor;
  }

  lemma DeserializeShape(c: Case, lang: string)
    requires ValidCase(c) && lang in c.langs
    ensures LastThread(c, Hexes(c), lang) ==
            [RowFor(c, lang, Deserialize, DeserializeOutcome(c, lang))]
            + (if OK(c.serialize(c.refLang))
               then DeserializeWarnings(c, lang, c.deserialize(c.id, lang, c.serialize(c.refLang).hex))
               else [])
  {
    hide Resolve, Verdict, DeserializeWarnings, RowFor;
  }

  /** One language's actions are: its hex if it serialized, audit warnings, exactly one
      serialize row, exactly one deserialize row, audit warnings. */
  lemma PerLangShape(c: Case, lang: string)
    requires ValidCase(c) && lang in c.langs
    ensures PerLang(c, lang) ==
            (if OK(c.serialize(lang)) then [SetHex(lang, c.serialize(lang).hex)] else [])
            + SerializeWarnings(c, lang, c.serialize(lang))
            + [RowFor(c, lang, Serialize, SerializeOutcome(c, lang))]
            + [RowFor(c, lang, Deserialize, DeserializeOutcome(c, lang))]
            + (if OK(c.serialize(c.refLang))
               then DeserializeWarnings(c, lang, c.deserialize(c.id, lang, c.serialize(c.refLang).hex))
               else [])
  {
    hide Resolve, Verdict, SemanticDiff, SerializeWarnings, DeserializeWarnings, RowFor;
    SerializeShape(c, lang);
    DeserializeShape(c, lang);
    hide SerThread, CompareOne, LastThread, Hexes, SerializeOutcome, DeserializeOutcome, ValidCase;
  }

  lemma HexOfRises(c: Case, lang: string)
    ensures Rising(c.id, lang, if OK(c.serialize(lang)) then [SetHex(lang, c.serialize(lang).hex)] else [], 0, 0)
  {
    hide Rising;
    HexRises(c, lang, if OK(c.serialize(lang)) then [SetHex(lang, c.serialize(lang).hex)] else []);
  }

  lemma LastWarningsRise(c: Case, lang: string)
    ensures Rising(c.id, lang,
            if OK(c.serialize(c.refLang))
            then DeserializeWarnings(c, lang, c.deserialize(c.id, lang, c.serialize(c.refLang).hex))
            else [], 6, 8)
  {
    hide Rising, DeserializeWarnings;
    if OK(c.serialize(c.refLang)) {
      DeserializeWarningsRise(c, lang, c.deserialize(c.id, lang, c.serialize(c.refLang).hex));
    } else {
      NothingRises(c.id, lang, 6, 8);
    }
  }

  lemma FiveRise(id: string, lang: string, hex: seq<Act>, w: seq<Act>, s: seq<Act>, d: seq<Act>, v: seq<Act>)
    requires Rising(id, lang, hex, 0, 0) && Rising(id, lang, w, 1, 3) && Rising(id, lang, s, 4, 4)
    requires Rising(id, lang, d, 5, 5) && Rising(id, lang, v, 6, 8)
    ensures Rising(id, lang, hex + w + s + d + v, 0, 8)
  {
    hide *;
    RisingAppend(id, lang, hex, w, 0, 0, 3);
    RisingAppend(id, lang, hex + w, s, 0, 3, 4);
    RisingAppend(id, lang, hex + w + s, d, 0, 4, 5);
    RisingAppend(id, lang, hex + w + s + d, v, 0, 5, 8);
  }

  lemma PerLangRises(c: Case, lang: string)
    requires ValidCase(c) && lang in c.langs
    ensures Rising(c.id, lang, PerLang(c, lang), 0, 8)
  {
    PerLangShape(c, lang);
    HexOfRises(c, lang);
    SerializeWarningsRise(c, lang, c.serialize(lang));
    OneRises(c, lang, Serialize, SerializeOutcome(c, lang));
    OneRises(c, lang, Deserialize, DeserializeOutcome(c, lang));
    RowSlots(c, lang, SerializeOutcome(c, lang), DeserializeOutcome(c, lang));
    LastWarningsRise(c, lang);
    hide *;
    FiveRise(c.id, lang,
        if OK(c.serialize(lang)) then [SetHex(lang, c.serialize(lang).hex)] else [],
        SerializeWarnings(c, lang, c.serialize(lang)),
        [RowFor(c, lang, Serialize, SerializeOutcome(c, lang))],
        [RowFor(c, lang, Deserialize, DeserializeOutcome(c, lang))],
        if OK(c.serialize(c.refLang))
        then DeserializeWarnings(c, lang, c.deserialize(c.id, lang, c.serialize(c.refLang).hex))
        else []);
  }

  lemma HexRises(c: Case, lang: string, hex: seq<Act>)
    requires hex == [] || exists h :: hex == [SetHex(lang, h)]
    ensures Rising(c.id, lang, hex, 0, 0)
  {
  }

  lemma RowSlots(c: Case, lang: string, o: Outcome, p: Outcome)
    ensures Slot(RowFor(c, lang, Serialize, o)) == 4 && Slot(RowFor(c, lang, Deserialize, p)) == 5
  {
  }

  // ---- what every run of a case does ---------------------------------------

  lemma {:induction false} HexAfterOf(acts: seq<Act>, hexes: map<string, string>)
    requires forall a | a in acts && a.SetHex? :: a.lang in hexes && hexes[a.lang] == a.hex
    ensures forall l :: l in HexAfter(acts) <==> l in hexes && SetHex(l, hexes[l]) in acts
    ensures forall l | l in HexAfter(acts) :: HexAfter(acts)[l] == hexes[l]
  {
    if acts != [] {
      var init, last := acts[..|acts| - 1], acts[|acts| - 1];
      assert acts == init + [last];
      HexAfterOf(init, hexes);
    }
  }

  lemma SerThreadHex(c: Case, lang: string, a: Act)
    ensures a in SerThread(c, lang) && a.SetHex? <==> OK(c.serialize(lang)) && a == SetHex(lang, c.serialize(lang).hex)
  {
    hide Resolve;
    var w := SerializeWarnings(c, lang, c.serialize(lang));
    SerializeWarningsAdd(c, lang, c.serialize(lang));
  }

  lemma SerializeWarningsAdd(c: Case, lang: string, a: Answer)
    ensures forall x | x in SerializeWarnings(c, lang, a) :: x.Add?
  {
  }

  /** Whatever the schedule, round 1 leaves the same hex map. */
  lemma RoundOneHex(c: Case, s1: seq<Act>)
    requires Interleaves(Threads(c.langs, l => SerThread(c, l)), s1)
    ensures HexAfter(s1) == Hexes(c)
  {
    hide SerThread, Interleaves, Bag, Threads;
    var f := l => SerThread(c, l);
    ScheduleBag(Threads(c.langs, f), s1);
    forall a: Act ensures a in s1 && a.SetHex? <==> a.SetHex? && a.lang in Hexes(c) && Hexes(c)[a.lang] == a.hex {
      InBag(c.langs, f, a);
      assert a in s1 <==> a in multiset(s1);
      if a in s1 && a.SetHex? {
        var l :| l in c.langs && a in f(l);
        SerThreadHex(c, l, a);
      }
      if a.SetHex? && a.lang in Hexes(c) && Hexes(c)[a.lang] == a.hex {
        SerThreadHex(c, a.lang, a);
        assert a in f(a.lang);
      }
    }
    HexAfterOf(s1, Hexes(c));
  }

  /** Everything a run of the case does. */
  function CaseBag(c: Case): multiset<Act> {
    Bag(Threads(c.langs, l => PerLang(c, l))) + Bag(MatrixThreads(c, Hexes(c)))
  }

  /** Every run of a case executes the same actions, in whatever order. */
  lemma CaseRunBag(c: Case, acts: seq<Act>)
    requires CaseRun(c, acts)
    ensures multiset(acts) == CaseBag(c)
  {
    hide Interleaves, Bag, Threads, SerThread, LastThread, CompareOne, HexAfter, Flat, MatrixThreads;
    var s1, s2, s3 :| RunOf(c, s1, s2, s3, acts);
    RoundOneHex(c, s1);
    var hex := Hexes(c);
    var f, g, h := l => SerThread(c, l), l => CompareOne(c, hex, l), l => LastThread(c, hex, l);
    ThreadsEqual(c.langs, l => CompareOne(c, HexAfter(s1), l), g);
    ThreadsEqual(c.langs, l => LastThread(c, HexAfter(s1), l), h);
    ScheduleBag(Threads(c.langs, f), s1);
    ScheduleBag(Threads(c.langs, h), s2);
    ScheduleBag(MatrixThreads(c, hex), s3);
    FlatBag(Threads(c.langs, g));
    BagZip(c.langs, f, g);
    var fg := l => f(l) + g(l);
    BagZip(c.langs, fg, h);
    ThreadsEqual(c.langs, l => fg(l) + h(l), l => PerLang(c, l));
    var middle := Flat(Threads(c.langs, g));
    assert multiset(s1 + middle + s2 + s3) == multiset(s1) + multiset(middle) + multiset(s2) + multiset(s3);
  }

  // ---- one row each --------------------------------------------------------

  /** No two of these actions add a row with the same key. */
  ghost predicate OnceEach(acts: seq<Act>) {
    forall i, j | 0 <= i < j < |acts| && acts[i].Add? && acts[j].Add? :: acts[i].row.key != acts[j].row.key
  }

  /** Every action once, and no two rows with one key. */
  ghost predicate OnceBag(b: multiset<Act>) {
    (forall a | a in b :: b[a] == 1) &&
    forall a, e | a in b && e in b && a.Add? && e.Add? && a.row.key == e.row.key :: a == e
  }

  lemma {:induction false} CountTwice(acts: seq<Act>, i: nat, j: nat)
    requires i < j < |acts| && acts[i] == acts[j]
    ensures multiset(acts)[acts[i]] >= 2
  {
    assert acts == acts[..j] + acts[j..];
    assert acts[..j][i] == acts[i] && acts[j..][0] == acts[j];
    assert acts[i] in multiset(acts[..j]) && acts[j] in multiset(acts[j..]);
  }

  lemma OnceInOrder(acts: seq<Act>, b: multiset<Act>)
    requires multiset(acts) == b && OnceBag(b)
    ensures OnceEach(acts)
  {
    forall i, j | 0 <= i < j < |acts| && acts[i].Add? && acts[j].Add? ensures acts[i].row.key != acts[j].row.key {
      assert acts[i] in multiset(acts) && acts[j] in multiset(acts);
      if acts[i].row.key == acts[j].row.key {
        CountTwice(acts, i, j);
      }
    }
  }

  lemma {:induction false} RisingOnce(id: string, lang: string, acts: seq<Act>, lo: nat, hi: nat)
    requires Rising(id, lang, acts, lo, hi)
    ensures OnceBag(multiset(acts))
  {
    forall a | a in multiset(acts) ensures multiset(acts)[a] == 1 {
      DistinctCount(acts, a);
    }
    forall a, e | a in multiset(acts) && e in multiset(acts) && a.Add? && e.Add? &&
        a.row.key == e.row.key ensures a == e {
      var i :| 0 <= i < |acts| && acts[i] == a;
      var j :| 0 <= j < |acts| && acts[j] == e;
    }
  }

  lemma {:induction false} DistinctCount(acts: seq<Act>, a: Act)
    requires a in acts && forall i, j | 0 <= i < j < |acts| :: acts[i] != acts[j]
    ensures multiset(acts)[a] == 1
  {
    var i :| 0 <= i < |acts| && acts[i] == a;
    var l, r := acts[..i], acts[i + 1..];
    assert acts == l + [a] + r;
    assert a !in l && a !in r;
    assert multiset(acts) == multiset(l) + multiset{a} + multiset(r);
  }

  lemma OnceSum(b: multiset<Act>, d: multiset<Act>)
    requires OnceBag(b) && OnceBag(d)
    requires forall a, e | a in b && e in d :: a != e && (a.Add? && e.Add? ==> a.row.key != e.row.key)
    ensures OnceBag(b + d)
  {
  }

  lemma LangsApart(b: multiset<Act>, d: multiset<Act>)
    requires OnceBag(b) && OnceBag(d) && forall a, e | a in b && e in d :: LangOf(a) != LangOf(e)
    ensures OnceBag(b + d)
  {
    OnceSum(b, d);
  }

  lemma FirstThread<T>(xs: seq<T>, f: T -> seq<Act>)
    requires xs != []
    ensures Bag(Threads(xs, f)) == multiset(f(xs[0])) + Bag(Threads(xs[1..], f))
  {
    assert Threads(xs, f)[1..] == Threads(xs[1..], f);
  }

  /** Threads of different languages never meet. */
  lemma {:induction false} ThreadsOnce(id: string, langs: seq<string>, f: string -> seq<Act>)
    requires forall i, j | 0 <= i < j < |langs| :: langs[i] != langs[j]
    requires forall l | l in langs :: Rising(id, l, f(l), 0, 8)
    ensures OnceBag(Bag(Threads(langs, f)))
  {
    hide OnceBag, Rising, Bag, Threads;
    if langs == [] {
      NoThreads(f);
    } else {
      var rest := langs[1..];
      assert forall l | l in rest :: l in langs;
      assert langs[0] in langs;
      ThreadsOnce(id, rest, f);
      RisingOnce(id, langs[0], f(langs[0]), 0, 8);
      ThreadsApart(id, langs, f);
      LangsApart(multiset(f(langs[0])), Bag(Threads(rest, f)));
      FirstThread(langs, f);
    }
  }

  lemma NoThreads<T>(f: T -> seq<Act>)
    ensures OnceBag(Bag(Threads([], f)))
  {
  }

  lemma ThreadsApart(id: string, langs: seq<string>, f: string -> seq<Act>)
    requires langs != [] && forall i, j | 0 <= i < j < |langs| :: langs[i] != langs[j]
    requires forall l | l in langs :: Rising(id, l, f(l), 0, 8)
    ensures forall a, e | a in multiset(f(langs[0])) && e in Bag(Threads(langs[1..], f)) :: LangOf(a) != LangOf(e)
  {
    hide Bag, Threads;
    var rest := langs[1..];
    forall a, e | a in multiset(f(langs[0])) && e in Bag(Threads(rest, f)) ensures LangOf(a) != LangOf(e) {
      InBag(rest, f, e);
      var l :| l in rest && e in f(l);
      var i :| 0 <= i < |rest| && rest[i] == l;
      assert langs[i + 1] == l;
      assert langs[0] in langs && l in langs;
      assert a in f(langs[0]) && e in f(l);
    }
  }

  lemma {:induction false} PairsAll(srcs: seq<string>, langs: seq<string>)
    ensures forall p :: p in PairsOf(srcs, langs) <==> p.0 in srcs && p.1 in langs
  {
    if srcs != [] {
      PairsAll(srcs[1..], langs);
      var row := seq(|langs|, i requires 0 <= i < |langs| => (srcs[0], langs[i]));
      forall p ensures p in row <==> p.0 == srcs[0] && p.1 in langs {
        if p.0 == srcs[0] && p.1 in langs {
          var i :| 0 <= i < |langs| && langs[i] == p.1;
          assert row[i] == p;
        }
      }
    }
  }

  lemma {:induction false} PairsDiffer(srcs: seq<string>, langs: seq<string>)
    requires forall i, j | 0 <= i < j < |srcs| :: srcs[i] != srcs[j]
    requires forall i, j | 0 <= i < j < |langs| :: langs[i] != langs[j]
    ensures forall i, j | 0 <= i < j < |PairsOf(srcs, langs)| :: PairsOf(srcs, langs)[i] != PairsOf(srcs, langs)[j]
  {
    if srcs != [] {
      PairsDiffer(srcs[1..], langs);
      PairsAll(srcs[1..], langs);
      var all, rest := PairsOf(srcs, langs), PairsOf(srcs[1..], langs);
      forall i, j | 0 <= i < j < |all| ensures all[i] != all[j] {
        if i < |langs| <= j {
          assert all[j] in rest && all[i].0 == srcs[0];
        } else if |langs| <= i {
          assert all[i] == rest[i - |langs|] && all[j] == rest[j - |langs|];
        }
      }
    }
  }

  /** The one action of a matrix thread. */
  lemma MatrixOne(c: Case, hex: map<string, string>, p: (string, string))
    ensures |MatrixThread(c, hex, p.0, p.1)| == 1
    ensures var a := MatrixThread(c, hex, p.0, p.1)[0];
            a.Add? && a.row.key == Key(c.id, Joined(ARROW, p.0, p.1), Matrix)
  {
    hide Resolve;
  }

  lemma LabelsApart(langs: seq<string>, p: (string, string), q: (string, string))
    requires LabelsDiffer(langs) && p.0 in langs && p.1 in langs && q.0 in langs && q.1 in langs && p != q
    ensures Joined(ARROW, p.0, p.1) != Joined(ARROW, q.0, q.1)
  {
    JoinedMeet(ARROW, p.0, p.1, q.0, q.1);
    hide Joined, Shifted;
  }

  lemma MatrixApart(c: Case, hex: map<string, string>, pairs: seq<(string, string)>, e: Act)
    requires LabelsDiffer(c.langs) && pairs != [] && forall p | p in pairs :: p.0 in c.langs && p.1 in c.langs
    requires forall i, j | 0 <= i < j < |pairs| :: pairs[i] != pairs[j]
    requires e in Bag(Threads(pairs[1..], MatrixOf(c, hex)))
    ensures e.Add? && e.row.key != MatrixThread(c, hex, pairs[0].0, pairs[0].1)[0].row.key
  {
    hide MatrixThread, Joined, LabelsDiffer, Bag, Threads;
    var rest, f := pairs[1..], MatrixOf(c, hex);
    InBag(rest, f, e);
    var p :| p in rest && e in f(p);
    assert p in pairs && pairs[0] in pairs;
    MatrixOne(c, hex, p);
    MatrixOne(c, hex, pairs[0]);
    LabelsApart(c.langs, p, pairs[0]);
  }

  lemma OneAction(a: Act)
    ensures OnceBag(multiset([a]))
  {
  }

  /** Matrix rows never meet. */
  lemma {:induction false} MatrixOnce(c: Case, hex: map<string, string>, pairs: seq<(string, string)>)
    requires LabelsDiffer(c.langs) && forall p | p in pairs :: p.0 in c.langs && p.1 in c.langs
    requires forall i, j | 0 <= i < j < |pairs| :: pairs[i] != pairs[j]
    ensures OnceBag(Bag(Threads(pairs, MatrixOf(c, hex))))
  {
    hide MatrixThread, LabelsDiffer, Bag, Threads, OnceBag;
    var f := MatrixOf(c, hex);
    if pairs == [] {
      NoThreads(f);
    } else {
      var rest := pairs[1..];
      assert forall p | p in rest :: p in pairs;
      MatrixOnce(c, hex, rest);
      MatrixOne(c, hex, pairs[0]);
      var first := f(pairs[0]);
      assert first == [first[0]];
      OneAction(first[0]);
      forall e | e in Bag(Threads(rest, f)) ensures e.Add? && e.row.key != first[0].row.key {
        MatrixApart(c, hex, pairs, e);
      }
      OnceSum(multiset(first), Bag(Threads(rest, f)));
      FirstThread(pairs, f);
    }
  }

  lemma MatrixActs(c: Case, hex: map<string, string>, pairs: seq<(string, string)>, a: Act)
    requires a in Bag(Threads(pairs, MatrixOf(c, hex)))
    ensures a.Add? && a.row.key.op == Matrix && a.row.key.testID == c.id
  {
    hide MatrixThread, Threads, Bag;
    InBag(pairs, MatrixOf(c, hex), a);
    var p :| p in pairs && a in MatrixOf(c, hex)(p);
    MatrixOne(c, hex, p);
  }

  lemma MatrixBag(c: Case)
    requires ValidCase(c)
    ensures OnceBag(Bag(MatrixThreads(c, Hexes(c))))
    ensures forall a | a in Bag(MatrixThreads(c, Hexes(c))) ::
            a.Add? && a.row.key.op == Matrix && a.row.key.testID == c.id
  {
    hide MatrixThread, MatrixOf, Threads, Hexes, OnceBag, LabelsDiffer, Bag, PairsOf;
    NothingOnce();
    if c.matrix && c.refLang in Hexes(c) {
      var pairs := Pairs(c.langs);
      PairsAll(c.langs, c.langs);
      PairsDiffer(c.langs, c.langs);
      MatrixOnce(c, Hexes(c), pairs);
      forall a | a in Bag(MatrixThreads(c, Hexes(c)))
        ensures a.Add? && a.row.key.op == Matrix && a.row.key.testID == c.id
      {
        MatrixActs(c, Hexes(c), pairs, a);
      }
    }
  }

  lemma NothingOnce()
    ensures Bag([]) == multiset{} && OnceBag(Bag([]))
  {
  }

  /** In every schedule, a case adds each row once. */
  lemma CaseOnceEach(c: Case, acts: seq<Act>)
    requires ValidCase(c) && CaseRun(c, acts)
    ensures OnceBag(multiset(acts)) && OnceEach(acts)
  {
    hide Bag, CaseRun, OnceBag, OnceEach, Threads, PerLang, Rising, MatrixThreads;
    CaseRunBag(c, acts);
    var f := l => PerLang(c, l);
    forall l | l in c.langs ensures Rising(c.id, l, f(l), 0, 8) {
      PerLangRises(c, l);
    }
    ThreadsOnce(c.id, c.langs, f);
    MatrixBag(c);
    forall a | a in Bag(Threads(c.langs, f)) ensures a.Add? ==> a.row.key.op != Matrix {
      InBag(c.langs, f, a);
      var l :| l in c.langs && a in f(l);
      NoMatrix(c, l, a);
    }
    OnceSum(Bag(Threads(c.langs, f)), Bag(MatrixThreads(c, Hexes(c))));
    OnceInOrder(acts, multiset(acts));
  }

  lemma NoMatrix(c: Case, lang: string, a: Act)
    requires ValidCase(c) && lang in c.langs && a in PerLang(c, lang)
    ensures LangOf(a) == lang && (a.Add? ==> a.row.key.testID == c.id && a.row.key.op != Matrix)
  {
    hide PerLang;
    PerLangRises(c, lang);
    var i :| 0 <= i < |PerLang(c, lang)| && PerLang(c, lang)[i] == a;
  }

  /** What a run does is one language's part, or a row of the matrix. */
  lemma CaseActs(c: Case, acts: seq<Act>, a: Act)
    requires CaseRun(c, acts)
    ensures a in acts <==> (exists l | l in c.langs :: a in PerLang(c, l)) || a in Bag(MatrixThreads(c, Hexes(c)))
  {
    hide Bag, CaseRun, Threads, PerLang, MatrixThreads;
    CaseRunBag(c, acts);
    InBag(c.langs, l => PerLang(c, l), a);
    assert a in acts <==> a in multiset(acts);
  }

  lemma PerLangRows(c: Case, lang: string)
    requires ValidCase(c) && lang in c.langs
    ensures RowFor(c, lang, Serialize, SerializeOutcome(c, lang)) in PerLang(c, lang)
    ensures RowFor(c, lang, Deserialize, DeserializeOutcome(c, lang)) in PerLang(c, lang)
  {
    PerLangShape(c, lang);
    hide PerLang, SerializeWarnings, DeserializeWarnings, SerializeOutcome, DeserializeOutcome, RowFor;
  }

  /** Every pair of languages has its row in every schedule of a full matrix, unless the
      reference has no bytes. */
  lemma MatrixRows(c: Case, acts: seq<Act>, src: string, dst: string)
    requires CaseRun(c, acts) && c.matrix && OK(c.serialize(c.refLang)) && c.refLang in c.langs
    requires src in c.langs && dst in c.langs
    ensures MatrixThread(c, Hexes(c), src, dst)[0] in acts
  {
    hide CaseRun, MatrixThread, Bag, Threads;
    var hex, f := Hexes(c), MatrixOf(c, Hexes(c));
    PairsAll(c.langs, c.langs);
    MatrixOne(c, hex, (src, dst));
    var a := MatrixThread(c, hex, src, dst)[0];
    assert a in f((src, dst)) && (src, dst) in Pairs(c.langs);
    InBag(Pairs(c.langs), f, a);
    CaseActs(c, acts, a);
  }

  /** The verdict rows of a case, in every schedule: each language has its serialize
      row and its deserialize row, each added by exactly one action of the run. */
  lemma CaseVerdicts(c: Case, acts: seq<Act>, lang: string)
    requires ValidCase(c) && CaseRun(c, acts) && lang in c.langs
    ensures RowFor(c, lang, Serialize, SerializeOutcome(c, lang)) in acts
    ensures RowFor(c, lang, Deserialize, DeserializeOutcome(c, lang)) in acts
    ensures forall i, j | 0 <= i < |acts| && 0 <= j < |acts| && acts[i].Add? && acts[j].Add? &&
            acts[i].row.key == acts[j].row.key :: i == j
  {
    hide CaseRun, PerLang, RowFor, SerializeOutcome, DeserializeOutcome;
    CaseActs(c, acts, RowFor(c, lang, Serialize, SerializeOutcome(c, lang)));
    CaseActs(c, acts, RowFor(c, lang, Deserialize, DeserializeOutcome(c, lang)));
    PerLangRows(c, lang);
    CaseOnceEach(c, acts);
  }
}
