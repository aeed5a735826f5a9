/** The runner side of the protocol (internal/worker/worker.go) as a transition
    system: any number of concurrent calls to Send and Bind, one mutex, one reader
    goroutine per written request, a worker process behind two FIFO pipes, and
    timeouts and cancellations that may fire at any moment. */
module Protocol {
  import opened Common
  import opened WorkerLoop

  /** What a call ends with. */
  datatype Outcome =
    | Got(response: Response)
    | Refused                      // the worker was already dead
    | Rejected                     // a bind without a type or a format
    | WriteFailed
    | ReadFailed                   // end of stream, or a line that does not parse
    | TimedOut
    | Cancelled
    | Mismatched                   // wrong op or wrong id

  datatype Phase = Ready | Holding | Waiting | Done(outcome: Outcome)

  /** A line of worker output: a response, or text that is not one. */
  datatype Output = Reply(response: Response) | Broken

  /** What a reader goroutine leaves in its call's channel. */
  datatype Read = Got1(line: Output) | End

  /** The calls of a run, by number, and the worker: `answer` maps the requests it
      has read so far to its response to the last of them. */
  datatype Config = Config(requests: map<nat, Request>, answer: seq<Request> -> Response)

  datatype State = State(
    phases: map<nat, Phase>,
    lock: Option<nat>,
    dead: bool,
    stopped: bool,
    toWorker: seq<Request>,
    fromWorker: seq<Output>,
    readers: set<nat>,
    mailbox: map<nat, Read>,
    running: bool,
    seen: seq<Request>,
    written: seq<nat>,
    taken: nat)

  datatype Step =
    | Acquire(c: nat)
    | FindDead(c: nat)
    | RejectBind(c: nat)
    | Write(c: nat)
    | FailWrite(c: nat)
    | Take(c: nat)
    | TakeEnd(c: nat)
    | Receive(c: nat)
    | Abandon(c: nat, cancelled: bool)
    | Stop
    | Serve
    | Crash(midLine: bool)
    | Misbehave(consumed: nat, lines: seq<Output>)

  /** Only binds, serializes and deserializes are ever sent by a call. */
  predicate ValidConfig(cfg: Config) {
    forall c | c in cfg.requests ::
      cfg.requests[c].Bind? || cfg.requests[c].Serialize? || cfg.requests[c].Deserialize?
  }

  /** A bind the runner refuses to send. */
  predicate Unsendable(q: Request) {
    q.Bind? && (q.typ == "" || q.format == "")
  }

  /** The response carries the op asked for, and the id when the request has one. */
  predicate Matches(q: Request, r: Response) {
    r.op == OpOf(q) && (IdOf(q) != "" ==> r.id == IdOf(q))
  }

  function Start(cfg: Config): State {
    State(map c | c in cfg.requests :: Ready, None, false, false, [], [], {}, map[], true, [], [], 0)
  }

  predicate At(s: State, c: nat, p: Phase) { c in s.phases && s.phases[c] == p }

  predicate Enabled(cfg: Config, s: State, step: Step) {
    match step
    case Acquire(c) => At(s, c, Ready) && s.lock.None?
    case FindDead(c) => At(s, c, Holding) && s.dead
    case RejectBind(c) => At(s, c, Holding) && !s.dead && c in cfg.requests && Unsendable(cfg.requests[c])
    case Write(c) => At(s, c, Holding) && !s.dead && c in cfg.requests && !Unsendable(cfg.requests[c])
    case FailWrite(c) => At(s, c, Holding) && !s.dead && c in cfg.requests && !Unsendable(cfg.requests[c])
    case Take(c) => c in s.readers && s.fromWorker != []
    case TakeEnd(c) => c in s.readers && s.fromWorker == [] && !s.running
    case Receive(c) => At(s, c, Waiting) && c in s.mailbox && c in cfg.requests
    case Abandon(c, _) => At(s, c, Waiting)
    case Stop => s.lock.None?
    case Serve => s.running && s.toWorker != []
    case Crash(midLine) => s.running && (midLine ==> s.toWorker != [])
    case Misbehave(consumed, _) => s.running && consumed <= |s.toWorker|
  }

  /** The call ends and its deferred unlock runs. */
  function Finish(s: State, c: nat, o: Outcome): State {
    s.(phases := s.phases[c := Done(o)], lock := None)
  }

  /** markFatal: the worker is killed and marked dead before the lock is released. */
  function FinishFatal(s: State, c: nat, o: Outcome): State {
    Finish(s, c, o).(dead := true)
  }

  function Received(cfg: Config, s: State, c: nat): State
    requires c in s.mailbox && c in cfg.requests
  {
    match s.mailbox[c]
    case Got1(Reply(r)) =>
      if Matches(cfg.requests[c], r) then Finish(s, c, Got(r)) else FinishFatal(s, c, Mismatched)
    case _ => Finish(s, c, ReadFailed)
  }

  function Apply(cfg: Config, s: State, step: Step): State
    requires Enabled(cfg, s, step)
  {
    match step
    case Acquire(c) => s.(phases := s.phases[c := Holding], lock := Some(c))
    case FindDead(c) => Finish(s, c, Refused)
    case RejectBind(c) => Finish(s, c, Rejected)
    case Write(c) =>
      s.(phases := s.phases[c := Waiting], toWorker := s.toWorker + [cfg.requests[c]],
         written := s.written + [c], readers := s.readers + {c})
    case FailWrite(c) => Finish(s, c, WriteFailed)
    case Take(c) =>
      s.(readers := s.readers - {c}, mailbox := s.mailbox[c := Got1(s.fromWorker[0])],
         fromWorker := s.fromWorker[1..], taken := s.taken + 1)
    case TakeEnd(c) => s.(readers := s.readers - {c}, mailbox := s.mailbox[c := End])
    case Receive(c) => Received(cfg, s, c)
    case Abandon(c, cancelled) => FinishFatal(s, c, if cancelled then Cancelled else TimedOut)
    case Stop => if s.dead then s else s.(dead := true, stopped := true, toWorker := s.toWorker + [Exit])
    case Serve =>
      var q := s.toWorker[0];
      if q.Exit? then s.(running := false)
      else s.(toWorker := s.toWorker[1..], seen := s.seen + [q],
              fromWorker := s.fromWorker + [Reply(cfg.answer(s.seen + [q]))])
    case Crash(midLine) =>
      s.(running := false, fromWorker := s.fromWorker + if midLine then [Broken] else [])
    case Misbehave(consumed, lines) =>
      s.(toWorker := s.toWorker[consumed..], fromWorker := s.fromWorker + lines)
  }

  // ---- runs ----------------------------------------------------------------

  /** Every step of the schedule is enabled when its turn comes. */
  ghost predicate IsRun(cfg: Config, steps: seq<Step>)
    decreases |steps|, 0
  {
    steps == [] ||
    (IsRun(cfg, steps[..|steps| - 1]) && Enabled(cfg, Final(cfg, steps[..|steps| - 1]), steps[|steps| - 1]))
  }

  ghost function Final(cfg: Config, steps: seq<Step>): State
    requires IsRun(cfg, steps)
    decreases |steps|, 1
  {
    if steps == [] then Start(cfg)
    else Apply(cfg, Final(cfg, steps[..|steps| - 1]), steps[|steps| - 1])
  }

  /** A worker that answers each request once and in order, until it dies. */
  predicate Faithful(steps: seq<Step>) {
    forall step | step in steps :: !step.Misbehave?
  }

  // ---- safety with any worker ----------------------------------------------

  predicate Fatal(o: Outcome) { o.TimedOut? || o.Cancelled? || o.Mismatched? }

  /** A call in this phase has written its request. */
  predicate Wrote(p: Phase) {
    p.Waiting? || (p.Done? && !p.outcome.Refused? && !p.outcome.Rejected? && !p.outcome.WriteFailed?)
  }

  /** The lock is held by exactly the call that is inside. */
  ghost predicate LockInv(s: State) {
    && (forall c | c in s.phases :: s.phases[c].Holding? || s.phases[c].Waiting? <==> s.lock == Some(c))
    && (s.lock.Some? ==> s.lock.value in s.phases)
  }

  /** At most one goroutine reads the stream, and while the worker is alive it is
      the one started by the lock holder. */
  ghost predicate ReaderInv(s: State) {
    && (forall c, d | c in s.readers && d in s.readers :: c == d)
    && (forall c | c in s.readers :: c in s.phases && c !in s.mailbox && Wrote(s.phases[c]))
    && (forall c | c in s.mailbox :: c in s.phases && Wrote(s.phases[c]))
    && (!s.dead ==> forall c | c in s.readers :: s.phases[c].Waiting?)
    && (forall c | c in s.phases && s.phases[c].Waiting? :: !s.dead && (c in s.readers || c in s.mailbox))
  }

  ghost predicate OutcomeInv(cfg: Config, s: State) {
    && s.phases.Keys == cfg.requests.Keys
    && (forall c | c in s.phases && s.phases[c].Done? && Fatal(s.phases[c].outcome) :: s.dead)
    && (forall c | c in s.phases && s.phases[c].Done? && s.phases[c].outcome.Got? ::
          Matches(cfg.requests[c], s.phases[c].outcome.response))
  }

  /** Each request that was written was written once. */
  ghost predicate WrittenInv(s: State) {
    && (forall i, j | 0 <= i < j < |s.written| :: s.written[i] != s.written[j])
    && (forall c :: c in s.written <==> c in s.phases && Wrote(s.phases[c]))
    && (forall c | c in s.phases && s.phases[c].Waiting? :: |s.written| > 0 && s.written[|s.written| - 1] == c)
  }

  ghost predicate Inv(cfg: Config, s: State) {
    LockInv(s) && ReaderInv(s) && OutcomeInv(cfg, s) && WrittenInv(s)
  }

  lemma StartInv(cfg: Config)
    ensures Inv(cfg, Start(cfg))
  {
  }

  /** A call that has not written yet ends without a response. */
  lemma FinishEarly(cfg: Config, s: State, c: nat, o: Outcome)
    requires Inv(cfg, s) && At(s, c, Holding) && (o.Refused? || o.Rejected? || o.WriteFailed?)
    ensures Inv(cfg, Finish(s, c, o))
  {
    assert s.lock == Some(c);
  }

  /** The lock holder is the only call that can still be waiting. */
  lemma OnlyHolder(cfg: Config, s: State, c: nat)
    requires Inv(cfg, s) && At(s, c, Waiting)
    ensures s.lock == Some(c) && !s.dead
    ensures forall d | d in s.phases && d != c :: !s.phases[d].Waiting? && !s.phases[d].Holding?
    ensures forall d | d in s.readers :: d == c
  {
    hide WrittenInv, OutcomeInv;
    assert s.lock == Some(c);
  }

  lemma FinishWaiting(cfg: Config, s: State, c: nat, o: Outcome)
    requires Inv(cfg, s) && At(s, c, Waiting) && c in s.mailbox
    requires o.ReadFailed? || (o.Got? && Matches(cfg.requests[c], o.response))
    ensures Inv(cfg, Finish(s, c, o))
  {
    OnlyHolder(cfg, s, c);
    var t := Finish(s, c, o);
    assert forall d | d in s.phases && d != c :: t.phases[d] == s.phases[d];
    assert Wrote(s.phases[c]) && Wrote(t.phases[c]);
    assert s.readers == {};
    assert WrittenInv(t);
  }

  lemma FinishFatally(cfg: Config, s: State, c: nat, o: Outcome)
    requires Inv(cfg, s) && At(s, c, Waiting) && Fatal(o)
    ensures Inv(cfg, FinishFatal(s, c, o))
  {
    OnlyHolder(cfg, s, c);
    var t := FinishFatal(s, c, o);
    assert forall d | d in s.phases && d != c :: t.phases[d] == s.phases[d];
    assert Wrote(s.phases[c]) && Wrote(t.phases[c]);
    assert WrittenInv(t);
    assert ReaderInv(t);
  }

  lemma AcquireInv(cfg: Config, s: State, c: nat)
    requires Inv(cfg, s) && Enabled(cfg, s, Acquire(c))
    ensures Inv(cfg, Apply(cfg, s, Acquire(c)))
  {
    var t := Apply(cfg, s, Acquire(c));
    assert forall d | d in s.phases && d != c :: t.phases[d] == s.phases[d];
    assert !Wrote(s.phases[c]) && !Wrote(t.phases[c]);
  }

  lemma WriteInv(cfg: Config, s: State, c: nat)
    requires Inv(cfg, s) && Enabled(cfg, s, Write(c))
    ensures Inv(cfg, Apply(cfg, s, Write(c)))
  {
    var t := Apply(cfg, s, Write(c));
    assert s.lock == Some(c);
    assert forall d | d in s.phases && d != c :: t.phases[d] == s.phases[d] && !s.phases[d].Waiting?;
    assert !Wrote(s.phases[c]) && Wrote(t.phases[c]);
    forall d ensures d !in s.readers {
    }
    WriteWritten(cfg, s, c);
  }

  lemma WriteWritten(cfg: Config, s: State, c: nat)
    requires Inv(cfg, s) && Enabled(cfg, s, Write(c))
    ensures WrittenInv(Apply(cfg, s, Write(c)))
  {
    hide ReaderInv, OutcomeInv;
    var t := Apply(cfg, s, Write(c));
    assert s.lock == Some(c) && c !in s.written;
    forall d ensures d in t.written <==> d in t.phases && Wrote(t.phases[d]) {
      if d != c {
        assert d in t.written <==> d in s.written;
      }
    }
  }

  lemma TakeInv(cfg: Config, s: State, c: nat, step: Step)
    requires Inv(cfg, s) && Enabled(cfg, s, step) && (step == Take(c) || step == TakeEnd(c))
    ensures Inv(cfg, Apply(cfg, s, step))
  {
    hide WrittenInv, OutcomeInv, LockInv;
    var t := Apply(cfg, s, step);
    assert t.readers == {};
    assert WrittenInv(t) && OutcomeInv(cfg, t) && LockInv(t) by { PhasesOnly(cfg, s, t); }
  }

  /** Three of the invariants only look at the phases, the lock, the dead flag and
      what was written. */
  lemma PhasesOnly(cfg: Config, s: State, t: State)
    requires LockInv(s) && OutcomeInv(cfg, s) && WrittenInv(s)
    requires t.phases == s.phases && t.lock == s.lock && t.written == s.written && (s.dead ==> t.dead)
    ensures LockInv(t) && OutcomeInv(cfg, t) && WrittenInv(t)
  {
  }

  lemma QuietInv(cfg: Config, s: State, step: Step)
    requires Inv(cfg, s) && Enabled(cfg, s, step)
    requires step.Serve? || step.Crash? || step.Misbehave? || step.Stop?
    ensures Inv(cfg, Apply(cfg, s, step))
  {
    hide WrittenInv, OutcomeInv;
    var t := Apply(cfg, s, step);
    PhasesOnly(cfg, s, t);
    assert s.lock.None? ==> forall c | c in s.phases :: !s.phases[c].Waiting?;
  }

  lemma {:induction false} Invariant(cfg: Config, steps: seq<Step>)
    requires IsRun(cfg, steps)
    ensures Inv(cfg, Final(cfg, steps))
  {
    hide Inv, Apply, Enabled;
    if steps == [] {
      StartInv(cfg);
    } else {
      var init, last := steps[..|steps| - 1], steps[|steps| - 1];
      Invariant(cfg, init);
      StepInv(cfg, Final(cfg, init), last);
    }
  }

  lemma StepInv(cfg: Config, s: State, step: Step)
    requires Inv(cfg, s) && Enabled(cfg, s, step)
    ensures Inv(cfg, Apply(cfg, s, step))
  {
    hide Inv, Matches;
    match step
    case Acquire(c) => AcquireInv(cfg, s, c);
    case FindDead(c) => FinishEarly(cfg, s, c, Refused);
    case RejectBind(c) => FinishEarly(cfg, s, c, Rejected);
    case Write(c) => WriteInv(cfg, s, c);
    case FailWrite(c) => FinishEarly(cfg, s, c, WriteFailed);
    case Take(c) => TakeInv(cfg, s, c, step);
    case TakeEnd(c) => TakeInv(cfg, s, c, step);
    case Receive(c) =>
      match s.mailbox[c] {
        case Got1(Reply(r)) =>
          if Matches(cfg.requests[c], r) { FinishWaiting(cfg, s, c, Got(r)); } else { FinishFatally(cfg, s, c,
              Mismatched); }
        case _ => FinishWaiting(cfg, s, c, ReadFailed);
      }
    case Abandon(c, cancelled) => FinishFatally(cfg, s, c, if cancelled then Cancelled else TimedOut);
    case Stop => QuietInv(cfg, s, step);
    case Serve => QuietInv(cfg, s, step);
    case Crash(_) => QuietInv(cfg, s, step);
    case Misbehave(_, _) => QuietInv(cfg, s, step);
  }

  // ---- what holds whatever the worker does ---------------------------------

  /** In every run no two reader goroutines are ever on the stream together. */
  lemma OneReader(cfg: Config, steps: seq<Step>)
    requires IsRun(cfg, steps)
    ensures forall c, d | c in Final(cfg, steps).readers && d in Final(cfg, steps).readers :: c == d
  {
    Invariant(cfg, steps);
  }

  /** In every run a response that reaches a caller carries the caller's op and id. */
  lemma GotMatches(cfg: Config, steps: seq<Step>, c: nat, r: Response)
    requires IsRun(cfg, steps) && At(Final(cfg, steps), c, Done(Got(r)))
    ensures c in cfg.requests && Matches(cfg.requests[c], r)
  {
    Invariant(cfg, steps);
  }

  lemma DeadStep(cfg: Config, s: State, step: Step)
    requires Inv(cfg, s) && Enabled(cfg, s, step) && s.dead
    ensures Apply(cfg, s, step).dead
    ensures forall c, o :: At(s, c, Done(o)) ==> At(Apply(cfg, s, step), c, Done(o))
    ensures forall c, r :: At(Apply(cfg, s, step), c, Done(Got(r))) ==> At(s, c, Done(Got(r)))
  {
    hide LockInv, OutcomeInv, WrittenInv, Matches;
    assert forall c | c in s.phases :: !s.phases[c].Waiting?;
  }

  lemma {:induction false} DeadRun(cfg: Config, steps: seq<Step>, n: nat)
    requires IsRun(cfg, steps) && n <= |steps|
    ensures IsRun(cfg, steps[..n])
    ensures Final(cfg, steps[..n]).dead ==>
            Final(cfg, steps).dead &&
            forall c, r :: At(Final(cfg, steps), c, Done(Got(r))) ==> At(Final(cfg, steps[..n]), c, Done(Got(r)))
    decreases |steps|
  {
    hide Apply, Enabled, Inv, At;
    if n == |steps| {
      assert steps[..n] == steps;
    } else {
      var init := steps[..|steps| - 1];
      assert init[..n] == steps[..n];
      DeadRun(cfg, init, n);
      if Final(cfg, steps[..n]).dead {
        Invariant(cfg, init);
        DeadStep(cfg, Final(cfg, init), steps[|steps| - 1]);
      }
    }
  }

  /** Once any call has timed out, was cancelled or saw a mismatch, no call that was
      not already finished ever receives a response, in every continuation and
      whatever the worker sends. */
  lemma SilenceAfterFatal(cfg: Config, steps: seq<Step>, n: nat, c: nat, o: Outcome)
    requires IsRun(cfg, steps) && n <= |steps|
    ensures IsRun(cfg, steps[..n])
    ensures At(Final(cfg, steps[..n]), c, Done(o)) && Fatal(o) ==>
            forall d, r :: At(Final(cfg, steps), d, Done(Got(r))) ==> At(Final(cfg, steps[..n]), d, Done(Got(r)))
  {
    hide Apply, Enabled, Inv;
    DeadRun(cfg, steps, n);
    if At(Final(cfg, steps[..n]), c, Done(o)) && Fatal(o) {
      Invariant(cfg, steps[..n]);
      FatalIsDead(cfg, Final(cfg, steps[..n]), c, o);
    }
  }

  lemma FatalIsDead(cfg: Config, s: State, c: nat, o: Outcome)
    requires Inv(cfg, s) && At(s, c, Done(o)) && Fatal(o)
    ensures s.dead
  {
  }

  // ---- safety with a faithful worker ---------------------------------------

  /** The requests written so far, in order. */
  function Asked(cfg: Config, written: seq<nat>): (qs: seq<Request>)
    requires forall c | c in written :: c in cfg.requests
    ensures |qs| == |written| && forall i | 0 <= i < |qs| :: qs[i] == cfg.requests[written[i]]
  {
    seq(|written|, i requires 0 <= i < |written| => cfg.requests[written[i]])
  }

  /** The worker's responses to the requests it has read. */
  function Replies(cfg: Config, qs: seq<Request>): (rs: seq<Output>)
    ensures |rs| == |qs| && forall i | 0 <= i < |qs| :: rs[i] == Reply(cfg.answer(qs[..i + 1]))
  {
    seq(|qs|, i requires 0 <= i < |qs| => Reply(cfg.answer(qs[..i + 1])))
  }

  /** Nothing can be read any more. */
  predicate Exhausted(s: State) { !s.running && s.fromWorker == [] }

  /** What the pipes hold is a window on the requests asked and the replies given. */
  ghost predicate PipeInv(cfg: Config, s: State) {
    && (forall c | c in s.written :: c in cfg.requests)
    && s.seen + s.toWorker == Asked(cfg, s.written) + (if s.stopped then [Exit] else [])
    && (s.stopped ==> s.dead)
    && |s.seen| <= |s.written|
    && (!Exhausted(s) ==>
          s.taken <= |s.seen| &&
          (s.fromWorker == Replies(cfg, s.seen)[s.taken..]
           || (!s.running && s.fromWorker == Replies(cfg, s.seen)[s.taken..] + [Broken])))
  }

  /** While the worker is alive every line but the one being waited for has been read. */
  ghost predicate SyncInv(cfg: Config, s: State)
    requires PipeInv(cfg, s)
  {
    && (!s.dead && !Exhausted(s) ==>
          s.taken == |s.written| - (if s.lock.Some? && s.lock.value in s.readers then 1 else 0))
    && (forall c, r | c in s.phases && s.phases[c].Waiting? && c in s.mailbox && s.mailbox[c] == Got1(Reply(r)) ::
          |s.written| > 0 && r == cfg.answer(Asked(cfg, s.written)))
  }

  /** `r` is the worker's answer to the request of call `c`, given after exactly the
      requests written before it. */
  ghost predicate OwnAnswer(cfg: Config, written: seq<nat>, c: nat, r: Response)
    requires forall d | d in written :: d in cfg.requests
  {
    exists i | 0 <= i < |written| :: written[i] == c && r == cfg.answer(Asked(cfg, written[..i + 1]))
  }

  ghost predicate AnswerInv(cfg: Config, s: State)
    requires forall d | d in s.written :: d in cfg.requests
  {
    forall c, r | At(s, c, Done(Got(r))) :: OwnAnswer(cfg, s.written, c, r)
  }

  ghost predicate FaithfulInv(cfg: Config, s: State) {
    ValidConfig(cfg) && PipeInv(cfg, s) && SyncInv(cfg, s) && AnswerInv(cfg, s)
  }

  /** Nothing the invariant mentions has changed but phases that hold no response. */
  lemma SamePipes(cfg: Config, s: State, t: State)
    requires FaithfulInv(cfg, s)
    requires t == s.(phases := t.phases, lock := t.lock, dead := t.dead)
    requires s.dead ==> t.dead
    requires t.lock == s.lock || t.dead || Exhausted(s) || (s.lock.Some? ==> s.lock.value !in s.readers)
    requires t.lock.Some? && t.lock != s.lock && !t.dead && !Exhausted(s) ==> t.lock.value !in t.readers
    requires forall c | c in t.phases && t.phases[c].Waiting? :: At(s, c, Waiting)
    requires forall c, r | At(t, c, Done(Got(r))) :: OwnAnswer(cfg, s.written, c, r)
    ensures FaithfulInv(cfg, t)
  {
    hide Replies, Asked;
  }

  lemma EarlyFaithful(cfg: Config, s: State, c: nat, o: Outcome)
    requires Inv(cfg, s) && FaithfulInv(cfg, s) && At(s, c, Holding) && !o.Got?
    ensures FaithfulInv(cfg, Finish(s, c, o))
  {
    hide PipeInv, SyncInv, OwnAnswer, WrittenInv, OutcomeInv;
    assert s.lock == Some(c);
    assert c !in s.readers;
    SamePipes(cfg, s, Finish(s, c, o));
  }

  lemma AcquireFaithful(cfg: Config, s: State, c: nat)
    requires Inv(cfg, s) && FaithfulInv(cfg, s) && Enabled(cfg, s, Acquire(c))
    ensures FaithfulInv(cfg, Apply(cfg, s, Acquire(c)))
  {
    hide PipeInv, SyncInv, OwnAnswer, WrittenInv, OutcomeInv;
    assert c !in s.readers;
    SamePipes(cfg, s, Apply(cfg, s, Acquire(c)));
  }

  lemma AbandonFaithful(cfg: Config, s: State, c: nat, o: Outcome)
    requires Inv(cfg, s) && FaithfulInv(cfg, s) && At(s, c, Waiting) && !o.Got?
    ensures FaithfulInv(cfg, FinishFatal(s, c, o))
  {
    hide PipeInv, SyncInv, OwnAnswer, WrittenInv, OutcomeInv;
    SamePipes(cfg, s, FinishFatal(s, c, o));
  }

  /** The response a call reads is the answer to the request it wrote. */
  lemma ReadOwn(cfg: Config, s: State, c: nat, r: Response)
    requires Inv(cfg, s) && FaithfulInv(cfg, s) && At(s, c, Waiting)
    requires c in s.mailbox && s.mailbox[c] == Got1(Reply(r))
    ensures (forall d | d in s.written :: d in cfg.requests) && OwnAnswer(cfg, s.written, c, r)
  {
    hide Matches, OutcomeInv, Replies, LockInv, ReaderInv, Asked;
    assert s.written[..|s.written| - 1 + 1] == s.written;
  }

  lemma ReceiveFaithful(cfg: Config, s: State, c: nat)
    requires Inv(cfg, s) && FaithfulInv(cfg, s) && Enabled(cfg, s, Receive(c))
    ensures FaithfulInv(cfg, Apply(cfg, s, Receive(c)))
  {
    hide Matches, SyncInv, OutcomeInv, OwnAnswer, Asked, WrittenInv, Replies;
    var t := Apply(cfg, s, Receive(c));
    OnlyHolder(cfg, s, c);
    if s.mailbox[c].Got1? && s.mailbox[c].line.Reply? {
      ReadOwn(cfg, s, c, s.mailbox[c].line.response);
    }
    SamePipes(cfg, s, t);
  }

  lemma AskedSnoc(cfg: Config, written: seq<nat>, c: nat)
    requires (forall d | d in written :: d in cfg.requests) && c in cfg.requests
    ensures Asked(cfg, written + [c]) == Asked(cfg, written) + [cfg.requests[c]]
  {
  }

  lemma OwnAnswerGrows(cfg: Config, written: seq<nat>, c: nat)
    requires (forall d | d in written :: d in cfg.requests) && c in cfg.requests
    ensures forall d, r | OwnAnswer(cfg, written, d, r) :: OwnAnswer(cfg, written + [c], d, r)
  {
    hide Asked;
    var more := written + [c];
    forall d, r | OwnAnswer(cfg, written, d, r) ensures OwnAnswer(cfg, more, d, r) {
      var i :| 0 <= i < |written| && written[i] == d && r == cfg.answer(Asked(cfg, written[..i + 1]));
      assert more[..i + 1] == written[..i + 1];
      assert more[i] == d;
    }
  }

  lemma WriteFaithful(cfg: Config, s: State, c: nat)
    requires Inv(cfg, s) && FaithfulInv(cfg, s) && Enabled(cfg, s, Write(c))
    ensures FaithfulInv(cfg, Apply(cfg, s, Write(c)))
  {
    var t := Apply(cfg, s, Write(c));
    assert s.lock == Some(c) && c !in s.readers && c !in s.mailbox;
    AskedSnoc(cfg, s.written, c);
    assert s.seen + (s.toWorker + [cfg.requests[c]]) == (s.seen + s.toWorker) + [cfg.requests[c]];
    assert PipeInv(cfg, t) by { hide Inv, AnswerInv, SyncInv, Asked, Replies; }
    assert SyncInv(cfg, t) by { hide WrittenInv, OutcomeInv, AnswerInv, Asked, Replies; }
    OwnAnswerGrows(cfg, s.written, c);
    assert AnswerInv(cfg, t) by { hide Inv, OwnAnswer, SyncInv, PipeInv; }
  }

  lemma RepliesSnoc(cfg: Config, qs: seq<Request>, q: Request)
    ensures Replies(cfg, qs + [q]) == Replies(cfg, qs) + [Reply(cfg.answer(qs + [q]))]
  {
    var rs := Replies(cfg, qs + [q]);
    assert (qs + [q])[..|qs| + 1] == qs + [q];
    forall i | 0 <= i < |qs| ensures rs[i] == Replies(cfg, qs)[i] {
      assert (qs + [q])[..i + 1] == qs[..i + 1];
    }
  }

  /** The request read next is the one written next, or the exit. */
  lemma NextRequest(cfg: Config, s: State)
    requires PipeInv(cfg, s) && s.toWorker != []
    ensures |s.seen| < |s.written| || s.toWorker == [Exit]
    ensures |s.seen| < |s.written| ==> s.toWorker[0] == cfg.requests[s.written[|s.seen|]]
  {
    hide Replies;
    assert (s.seen + s.toWorker)[|s.seen|] == s.toWorker[0];
  }

  lemma ServePipe(cfg: Config, s: State)
    requires ValidConfig(cfg) && PipeInv(cfg, s) && Enabled(cfg, s, Serve)
    ensures PipeInv(cfg, Apply(cfg, s, Serve))
  {
    var t := Apply(cfg, s, Serve);
    var q := s.toWorker[0];
    NextRequest(cfg, s);
    RepliesSnoc(cfg, s.seen, q);
    assert s.seen + s.toWorker == (s.seen + [q]) + s.toWorker[1..];
    var rs := Replies(cfg, s.seen);
    hide Asked, Replies;
    if |s.seen| < |s.written| {
      assert s.written[|s.seen|] in s.written;
      var line := Reply(cfg.answer(s.seen + [q]));
      assert (rs + [line])[s.taken..] == rs[s.taken..] + [line];
    }
  }

  lemma ServeFaithful(cfg: Config, s: State)
    requires Inv(cfg, s) && FaithfulInv(cfg, s) && Enabled(cfg, s, Serve)
    ensures FaithfulInv(cfg, Apply(cfg, s, Serve))
  {
    hide Asked, Replies, OwnAnswer, WrittenInv, OutcomeInv, LockInv, ReaderInv;
    ServePipe(cfg, s);
  }

  lemma CrashFaithful(cfg: Config, s: State, midLine: bool)
    requires Inv(cfg, s) && FaithfulInv(cfg, s) && Enabled(cfg, s, Crash(midLine))
    ensures FaithfulInv(cfg, Apply(cfg, s, Crash(midLine)))
  {
    hide Asked, Replies, OwnAnswer;
    var t := Apply(cfg, s, Crash(midLine));
    assert s.fromWorker + [] == s.fromWorker;
    assert PipeInv(cfg, t);
    assert SyncInv(cfg, t);
    assert AnswerInv(cfg, t);
  }

  lemma StopFaithful(cfg: Config, s: State)
    requires Inv(cfg, s) && FaithfulInv(cfg, s) && Enabled(cfg, s, Stop)
    ensures FaithfulInv(cfg, Apply(cfg, s, Stop))
  {
    hide Asked, Replies, OwnAnswer;
    var t := Apply(cfg, s, Stop);
    assert s.seen + (s.toWorker + [Exit]) == (s.seen + s.toWorker) + [Exit];
    assert Asked(cfg, s.written) + [] == Asked(cfg, s.written);
    assert PipeInv(cfg, t);
    assert SyncInv(cfg, t);
    assert AnswerInv(cfg, t);
  }

  /** The line a live reader takes is the reply to the last request written. */
  lemma TakenLine(cfg: Config, s: State, c: nat)
    requires Inv(cfg, s) && FaithfulInv(cfg, s) && Enabled(cfg, s, Take(c)) && !s.dead
    ensures |s.written| > 0
    ensures s.fromWorker[0] == Broken ==> s.fromWorker == [Broken] && !s.running
    ensures forall r | s.fromWorker[0] == Reply(r) :: r == cfg.answer(Asked(cfg, s.written))
  {
    assert s.phases[c].Waiting?;
    OnlyHolder(cfg, s, c);
    assert s.taken == |s.written| - 1;
    var rs := Replies(cfg, s.seen);
    if s.taken < |s.seen| {
      assert s.fromWorker[0] == rs[s.taken];
      assert |s.seen| == |s.written|;
      assert s.seen == Asked(cfg, s.written) by {
        assert s.seen == (s.seen + s.toWorker)[..|s.seen|];
        assert Asked(cfg, s.written) + [] == Asked(cfg, s.written);
      }
      assert s.seen[..s.taken + 1] == s.seen;
    } else {
      assert rs[s.taken..] == [];
      assert [] + [Broken] == [Broken];
    }
  }

  lemma TakeFaithful(cfg: Config, s: State, c: nat)
    requires Inv(cfg, s) && FaithfulInv(cfg, s) && Enabled(cfg, s, Take(c))
    ensures FaithfulInv(cfg, Apply(cfg, s, Take(c)))
  {
    var t := Apply(cfg, s, Take(c));
    if !s.dead {
      TakenLine(cfg, s, c);
      assert s.phases[c].Waiting?;
      OnlyHolder(cfg, s, c);
    }
    TakePipe(cfg, s, c);
    hide Asked, Replies, OwnAnswer, WrittenInv, OutcomeInv;
    assert SyncInv(cfg, t);
    assert AnswerInv(cfg, t);
  }

  lemma TakePipe(cfg: Config, s: State, c: nat)
    requires FaithfulInv(cfg, s) && Enabled(cfg, s, Take(c))
    ensures PipeInv(cfg, Apply(cfg, s, Take(c)))
  {
    hide Asked, SyncInv, AnswerInv;
    var t := Apply(cfg, s, Take(c));
    var rs := Replies(cfg, s.seen);
    hide Replies;
    if s.taken < |s.seen| {
      assert rs[s.taken..][1..] == rs[s.taken + 1..];
      assert (rs[s.taken..] + [Broken])[1..] == rs[s.taken + 1..] + [Broken];
    } else {
      assert rs[s.taken..] == [];
      assert ([] + [Broken])[1..] == [];
    }
  }

  lemma TakeEndFaithful(cfg: Config, s: State, c: nat)
    requires Inv(cfg, s) && FaithfulInv(cfg, s) && Enabled(cfg, s, TakeEnd(c))
    ensures FaithfulInv(cfg, Apply(cfg, s, TakeEnd(c)))
  {
    hide Asked, Replies, OwnAnswer, WrittenInv, OutcomeInv;
    var t := Apply(cfg, s, TakeEnd(c));
    assert PipeInv(cfg, t);
    assert SyncInv(cfg, t);
    assert AnswerInv(cfg, t);
  }

  lemma StepFaithful(cfg: Config, s: State, step: Step)
    requires Inv(cfg, s) && FaithfulInv(cfg, s) && Enabled(cfg, s, step) && !step.Misbehave?
    ensures FaithfulInv(cfg, Apply(cfg, s, step))
  {
    hide Inv, FaithfulInv, Matches;
    match step
    case Acquire(c) => AcquireFaithful(cfg, s, c);
    case FindDead(c) => EarlyFaithful(cfg, s, c, Refused);
    case RejectBind(c) => EarlyFaithful(cfg, s, c, Rejected);
    case Write(c) => WriteFaithful(cfg, s, c);
    case FailWrite(c) => EarlyFaithful(cfg, s, c, WriteFailed);
    case Take(c) => TakeFaithful(cfg, s, c);
    case TakeEnd(c) => TakeEndFaithful(cfg, s, c);
    case Receive(c) => ReceiveFaithful(cfg, s, c);
    case Abandon(c, cancelled) => AbandonFaithful(cfg, s, c, if cancelled then Cancelled else TimedOut);
    case Stop => StopFaithful(cfg, s);
    case Serve => ServeFaithful(cfg, s);
    case Crash(midLine) => CrashFaithful(cfg, s, midLine);
  }

  lemma {:induction false} FaithfulInvariant(cfg: Config, steps: seq<Step>)
    requires ValidConfig(cfg) && IsRun(cfg, steps) && Faithful(steps)
    ensures FaithfulInv(cfg, Final(cfg, steps))
  {
    hide Inv, Apply, Enabled;
    if steps == [] {
      assert Asked(cfg, []) == [] && Replies(cfg, []) == [];
    } else {
      var init, last := steps[..|steps| - 1], steps[|steps| - 1];
      assert last in steps;
      FaithfulInvariant(cfg, init);
      Invariant(cfg, init);
      hide FaithfulInv;
      StepFaithful(cfg, Final(cfg, init), last);
    }
  }

  /** In every interleaving of calls, slow answers, crashes, timeouts and
      cancellations, a response that reaches a caller is the worker's answer to that
      caller's own request. */
  lemma EveryAnswerIsOwn(cfg: Config, steps: seq<Step>, c: nat, r: Response)
    requires ValidConfig(cfg) && IsRun(cfg, steps) && Faithful(steps)
    requires At(Final(cfg, steps), c, Done(Got(r)))
    ensures (forall d | d in Final(cfg, steps).written :: d in cfg.requests)
            && OwnAnswer(cfg, Final(cfg, steps).written, c, r)
  {
    FaithfulInvariant(cfg, steps);
  }

  // ---- no false alarm ------------------------------------------------------

  /** Every answer of the worker carries the op and the id it was asked for. */
  ghost predicate Correlates(cfg: Config) {
    forall qs: seq<Request> | qs != [] && !qs[|qs| - 1].Exit? :: Matches(qs[|qs| - 1], cfg.answer(qs))
  }

  lemma OwnMatches(cfg: Config, s: State, c: nat, r: Response)
    requires Inv(cfg, s) && FaithfulInv(cfg, s) && Correlates(cfg) && At(s, c, Waiting)
    requires c in s.mailbox && s.mailbox[c] == Got1(Reply(r))
    ensures c in cfg.requests && Matches(cfg.requests[c], r)
  {
    hide Matches, LockInv, ReaderInv, AnswerInv, Replies;
    var qs := Asked(cfg, s.written);
    assert s.written[|s.written| - 1] == c;
    assert qs[|qs| - 1] == cfg.requests[c];
  }

  /** From a worker that answers once, in order and to the point, no call in any run
      ever ends in a mismatch: the fatal check never fires on a healthy stream. */
  lemma {:induction false} NoFalseMismatch(cfg: Config, steps: seq<Step>, c: nat)
    requires ValidConfig(cfg) && IsRun(cfg, steps) && Faithful(steps) && Correlates(cfg)
    ensures !At(Final(cfg, steps), c, Done(Mismatched))
  {
    hide Inv, FaithfulInv, Matches, Correlates;
    if steps != [] {
      var init, last := steps[..|steps| - 1], steps[|steps| - 1];
      assert last in steps;
      NoFalseMismatch(cfg, init, c);
      Invariant(cfg, init);
      FaithfulInvariant(cfg, init);
      var s := Final(cfg, init);
      if last.Receive? && s.mailbox[last.c].Got1? && s.mailbox[last.c].line.Reply? {
        OwnMatches(cfg, s, last.c, s.mailbox[last.c].line.response);
      }
    }
  }

  // ---- the runner composed with the worker loop ----------------------------

  /** The message loop as a worker: it answers from the binding its history left. */
  function LoopAnswer(suite: Suite, qs: seq<Request>): Response {
    if qs == [] || qs[|qs| - 1].Exit? then Response("", OpExit, StatusAbsent, "")
    else Answer(suite, AfterAll(suite, UNBOUND, qs[..|qs| - 1]), qs[|qs| - 1])
  }

  function Composed(requests: map<nat, Request>, suite: Suite): Config {
    Config(requests, qs => LoopAnswer(suite, qs))
  }

  /** Its answers to the requests of a run are those of the loop's method. */
  lemma {:induction false} LoopAnswersAgree(requests: map<nat, Request>, suite: Suite, qs: seq<Request>)
    requires forall q | q in qs :: !q.Exit?
    ensures forall i | 0 <= i < |qs| ::
              Replies(Composed(requests, suite), qs)[i] == Reply(Answers(suite, UNBOUND, qs)[i])
  {
    forall i | 0 <= i < |qs|
      ensures Replies(Composed(requests, suite), qs)[i] == Reply(Answers(suite, UNBOUND, qs)[i])
    {
      AnswerAt(suite, UNBOUND, qs, i);
      assert qs[..i + 1][..i] == qs[..i];
    }
  }

  lemma LoopCorrelates(requests: map<nat, Request>, suite: Suite)
    ensures Correlates(Composed(requests, suite))
  {
    hide After, AfterAll;
  }

  ghost predicate Sendable(cfg: Config, s: State) {
    forall c | c in s.written :: c in cfg.requests && !Unsendable(cfg.requests[c])
  }

  lemma SendableStep(cfg: Config, s: State, step: Step)
    requires Enabled(cfg, s, step) && Sendable(cfg, s)
    ensures Sendable(cfg, Apply(cfg, s, step))
  {
    hide Unsendable, Matches;
    var t := Apply(cfg, s, step);
    assert t.written == if step.Write? then s.written + [step.c] else s.written;
  }

  lemma {:induction false} WrittenSendable(cfg: Config, steps: seq<Step>)
    requires IsRun(cfg, steps)
    ensures Sendable(cfg, Final(cfg, steps))
  {
    hide Apply, Enabled;
    if steps != [] {
      var init := steps[..|steps| - 1];
      WrittenSendable(cfg, init);
      hide Sendable;
      SendableStep(cfg, Final(cfg, init), steps[|steps| - 1]);
    }
  }

  /** `r` came from running the function that bind `b` registers, under the schema and
      the audit flag of that same bind. */
  predicate RanUnder(suite: Suite, b: Request, q: Request, r: Response) {
    && BindOk(suite, b)
    && Needed(suite.types[b.typ][b.format], q).Some?
    && r == (match suite.run(Needed(suite.types[b.typ][b.format], q).value, b.schema, b.audit, Payload(q))
             case Ok(text) => Response(IdOf(q), OpOf(q), StatusOK, text)
             case Err(text) => Response(IdOf(q), OpOf(q), StatusError, text))
  }

  /** Request `j` is the last bind before position `i`. */
  predicate LatestBind(qs: seq<Request>, j: nat, i: nat) {
    j < i <= |qs| && qs[j].Bind? && forall k | j < k < i :: !qs[k].Bind?
  }

  lemma SuccessRanUnder(suite: Suite, qs: seq<Request>, i: nat)
    requires i < |qs| && (qs[i].Serialize? || qs[i].Deserialize?)
    requires forall q | q in qs && q.Bind? :: q.typ != "" && q.format != ""
    requires LoopAnswer(suite, qs[..i + 1]).status.StatusOK?
    ensures exists j: nat :: LatestBind(qs, j, i) && RanUnder(suite, qs[j], qs[i], LoopAnswer(suite, qs[..i + 1]))
  {
    var past := qs[..i];
    assert qs[..i + 1][..i] == past;
    RunnerHistoriesCoherent(suite, past);
    var j := LastBind(suite, past, true);
    hide After, AfterAll, LastBind;
    assert LatestBind(qs, j, i) && RanUnder(suite, qs[j], qs[i], LoopAnswer(suite, qs[..i + 1]));
  }

  lemma RanCarries(suite: Suite, b: Request, q: Request, r: Response)
    requires RanUnder(suite, b, q, r)
    ensures r.op == OpOf(q) && r.id == IdOf(q)
  {
  }

  /** Position `i` of the written requests is call `c`, and `r` ran under the latest
      bind before it. */
  ghost predicate Trusted(cfg: Config, suite: Suite, written: seq<nat>, i: nat, c: nat, r: Response)
    requires forall d | d in written :: d in cfg.requests
  {
    && i < |written| && written[i] == c
    && exists j: nat :: LatestBind(Asked(cfg, written), j, i) && RanUnder(suite, Asked(cfg, written)[j],
        cfg.requests[c], r)
  }

  lemma OwnSuccessTrusted(requests: map<nat, Request>, suite: Suite, written: seq<nat>, c: nat,
      r: Response) returns (i: nat)
    requires forall d | d in written :: d in requests && !Unsendable(requests[d])
    requires OwnAnswer(Composed(requests, suite), written, c, r)
    requires c in requests && (requests[c].Serialize? || requests[c].Deserialize?) && r.status.StatusOK?
    ensures Trusted(Composed(requests, suite), suite, written, i, c, r)
  {
    hide RanUnder, LatestBind, LoopAnswer, Replies;
    var cfg := Composed(requests, suite);
    var qs := Asked(cfg, written);
    i :| 0 <= i < |written| && written[i] == c && r == cfg.answer(Asked(cfg, written[..i + 1]));
    assert Asked(cfg, written[..i + 1]) == qs[..i + 1];
    forall q | q in qs && q.Bind? ensures q.typ != "" && q.format != "" {
      var k :| 0 <= k < |qs| && qs[k] == q;
      assert written[k] in written;
    }
    SuccessRanUnder(suite, qs, i);
  }

  /** The guarantee end to end. In every run of the runner over the message loop, when
      a caller receives a successful serialize or deserialize response, that response
      has its own op and id, and the work ran the function, schema and audit flag of
      the latest bind written before its request, which itself succeeded. */
  lemma SuccessIsTrustworthy(requests: map<nat, Request>, suite: Suite, steps: seq<Step>, c: nat, r: Response)
    requires ValidConfig(Composed(requests, suite)) && IsRun(Composed(requests, suite), steps) && Faithful(steps)
    requires At(Final(Composed(requests, suite), steps), c, Done(Got(r))) && r.status.StatusOK?
    requires c in requests && !requests[c].Bind?
    ensures r.op == OpOf(requests[c]) && r.id == IdOf(requests[c])
    ensures var written := Final(Composed(requests, suite), steps).written;
            (forall d | d in written :: d in requests) &&
            exists i: nat :: Trusted(Composed(requests, suite), suite, written, i, c, r)
  {
    hide Inv, FaithfulInv, Enabled, Apply, Final, IsRun, OwnAnswer, At, Faithful, RanUnder, Unsendable;
    var cfg := Composed(requests, suite);
    EveryAnswerIsOwn(cfg, steps, c, r);
    WrittenSendable(cfg, steps);
    var written := Final(cfg, steps).written;
    var i := OwnSuccessTrusted(requests, suite, written, c, r);
    var j: nat :| LatestBind(Asked(cfg, written), j, i) && RanUnder(suite, Asked(cfg, written)[j], requests[c], r);
    RanCarries(suite, Asked(cfg, written)[j], requests[c], r);
  }
}
