/** The worker side of the protocol (lib/go/serify/run.go): one message loop that
    keeps the schema and the functions of the current binding. */
module WorkerLoop {
  import opened Common

  datatype Op = OpPing | OpBind | OpSerialize | OpDeserialize | OpExit | OpOther(name: string)

  /** `BadBind` is a bind whose op can be read and whose body cannot. */
  datatype Request =
    | Ping
    | Bind(schema: Schema, typ: string, format: string, audit: bool)
    | BadBind
    | Serialize(id: string, data: string)
    | Deserialize(id: string, hex: string)
    | Exit
    | Other(name: string, id: string)

  /** One line of input: a message, or something the loop skips. */
  datatype Line = Blank | Garbled | Message(request: Request)

  datatype Status = StatusOK | StatusError | StatusSkipped | StatusAbsent

  datatype Response = Response(id: string, op: Op, status: Status, body: string)

  /** A schema as sent; only its identity matters to the loop. */
  type Schema = string

  /** A registered function, by identity. */
  type Fn = nat

  datatype Format = Format(serializer: Option<Fn>, deserializer: Option<Fn>)

  /** The registered types, and what running a function on a payload under a schema
      gives: the text of the result, or of the error. */
  datatype Suite = Suite(
    types: map<string, map<string, Format>>,
    run: (Fn, Schema, bool, string) -> Result<string, string>)

  datatype Bound = Bound(schema: Schema, serializer: Option<Fn>, deserializer: Option<Fn>, audit: bool)

  const UNBOUND := Bound("", None, None, false)

  function OpOf(q: Request): Op {
    match q
    case Ping => OpPing
    case Bind(_, _, _, _) => OpBind
    case BadBind => OpBind
    case Serialize(_, _) => OpSerialize
    case Deserialize(_, _) => OpDeserialize
    case Exit => OpExit
    case Other(name, _) => OpOther(name)
  }

  function IdOf(q: Request): string {
    match q
    case Serialize(id, _) => id
    case Deserialize(id, _) => id
    case Other(_, id) => id
    case _ => ""
  }

  // ---- the meaning of one message ------------------------------------------

  /** The type and format are registered. */
  predicate Registered(suite: Suite, typ: string, format: string) {
    typ in suite.types && format in suite.types[typ]
  }

  /** A bind the loop answers with neither ERROR nor SKIPPED. */
  predicate BindOk(suite: Suite, q: Request) {
    q.Bind? && !BindError(suite, q) && Registered(suite, q.typ, q.format)
  }

  /** A bind the loop answers with ERROR rather than binding or skipping. */
  predicate BindError(suite: Suite, q: Request) {
    q.Bind? && (q.typ == "" || (q.typ in suite.types && q.format == ""))
  }

  function After(suite: Suite, b: Bound, q: Request): Bound {
    match q
    case Bind(schema, typ, format, audit) =>
      if BindError(suite, q) then b.(schema := schema)
      else if !Registered(suite, typ, format) then b.(schema := schema, serializer := None, deserializer := None)
      else
        var f := suite.types[typ][format];
        Bound(schema, f.serializer, f.deserializer, audit)
    case _ => b
  }

  function Perform(suite: Suite, b: Bound, q: Request, own: Option<Fn>, other: Option<Fn>, payload: string): Response {
    match own
    case None =>
      if other.Some? then Response(IdOf(q), OpOf(q), StatusSkipped, "direction not registered")
      else Response(IdOf(q), OpOf(q), StatusError, "call bind first")
    case Some(f) =>
      match suite.run(f, b.schema, b.audit, payload)
      case Ok(text) => Response(IdOf(q), OpOf(q), StatusOK, text)
      case Err(text) => Response(IdOf(q), OpOf(q), StatusError, text)
  }

  /** The answer to a request other than exit. */
  function Answer(suite: Suite, b: Bound, q: Request): (r: Response)
    requires !q.Exit?
  {
    match q
    case Ping => Response("", OpPing, StatusOK, "protocol_version")
    case Bind(_, typ, format, _) =>
      if BindError(suite, q) then Response("", OpBind, StatusError, "bind requires a type and a format")
      else if Registered(suite, typ, format) then Response("", OpBind, StatusAbsent, "")
      else Response("", OpBind, StatusSkipped, "")
    case BadBind => Response("", OpBind, StatusError, "malformed bind")
    case Serialize(_, data) => Perform(suite, b, q, b.serializer, b.deserializer, data)
    case Deserialize(_, hex) => Perform(suite, b, q, b.deserializer, b.serializer, hex)
    case Other(_, _) => Response(IdOf(q), OpOf(q), StatusError, "unknown op")
  }

  // ---- the meaning of a whole input ----------------------------------------

  /** The requests the loop gets to see: well-formed messages up to the first exit. */
  function Requests(lines: seq<Line>): seq<Request> {
    if lines == [] then []
    else
      match lines[0]
      case Message(Exit) => []
      case Message(q) => [q] + Requests(lines[1..])
      case _ => Requests(lines[1..])
  }

  function AfterAll(suite: Suite, b: Bound, qs: seq<Request>): Bound {
    if qs == [] then b else After(suite, AfterAll(suite, b, qs[..|qs| - 1]), qs[|qs| - 1])
  }

  function Answers(suite: Suite, b: Bound, qs: seq<Request>): (rs: seq<Response>)
    requires forall q | q in qs :: !q.Exit?
    ensures |rs| == |qs|
  {
    if qs == [] then []
    else
      var init := qs[..|qs| - 1];
      Answers(suite, b, init) + [Answer(suite, AfterAll(suite, b, init), qs[|qs| - 1])]
  }

  lemma {:induction false} RequestsNoExit(lines: seq<Line>)
    ensures forall q | q in Requests(lines) :: !q.Exit?
  {
    if lines != [] {
      RequestsNoExit(lines[1..]);
    }
  }

  lemma {:induction false} RequestsSnoc(lines: seq<Line>, line: Line)
    requires Message(Exit) !in lines
    ensures Requests(lines + [line]) ==
            Requests(lines) + (if line.Message? && !line.request.Exit? then [line.request] else [])
  {
    if lines == [] {
      assert lines + [line] == [line] && [line][1..] == [];
    } else {
      assert (lines + [line])[1..] == lines[1..] + [line];
      RequestsSnoc(lines[1..], line);
    }
  }

  lemma {:induction false} RequestsStop(lines: seq<Line>, more: seq<Line>)
    requires Message(Exit) !in lines
    ensures Requests(lines + [Message(Exit)] + more) == Requests(lines)
  {
    var all := lines + [Message(Exit)] + more;
    if lines != [] {
      assert all[1..] == lines[1..] + [Message(Exit)] + more;
      RequestsStop(lines[1..], more);
    }
  }

  // ---- the loop ------------------------------------------------------------

  /** The loop's variables. */
  class Loop {
    const suite: Suite
    var schema: Schema
    var currentSerialize: Option<Fn>
    var currentDeserialize: Option<Fn>
    var auditEnabled: bool

    function Binding(): Bound
      reads this
    {
      Bound(schema, currentSerialize, currentDeserialize, auditEnabled)
    }

    constructor (suite: Suite)
      ensures this.suite == suite && Binding() == UNBOUND
    {
      this.suite := suite;
      schema := "";
      currentSerialize, currentDeserialize := None, None;
      auditEnabled := false;
    }

    method HandleBind(q: Request) returns (r: Response)
      requires q.Bind?
      modifies this
      ensures Binding() == After(suite, old(Binding()), q)
      ensures r == Answer(suite, old(Binding()), q)
    {
      schema := q.schema;
      if q.typ == "" {
        return Response("", OpBind, StatusError, "bind requires a type and a format");
      }
      if q.typ !in suite.types {
        r := EmitSkip();
        return;
      }
      if q.format == "" {
        return Response("", OpBind, StatusError, "bind requires a type and a format");
      }
      if q.format !in suite.types[q.typ] {
        r := EmitSkip();
        return;
      }
      var bf := suite.types[q.typ][q.format];
      currentSerialize := bf.serializer;
      currentDeserialize := bf.deserializer;
      auditEnabled := q.audit;
      return Response("", OpBind, StatusAbsent, "");
    }

    /** Clears the functions first, so nothing later runs against the previous type. */
    method EmitSkip() returns (r: Response)
      modifies this
      ensures schema == old(schema) && auditEnabled == old(auditEnabled)
      ensures currentSerialize == None && currentDeserialize == None
      ensures r == Response("", OpBind, StatusSkipped, "")
    {
      currentSerialize, currentDeserialize := None, None;
      return Response("", OpBind, StatusSkipped, "");
    }

    method Handle(q: Request) returns (r: Response)
      requires !q.Exit?
      modifies this
      ensures Binding() == After(suite, old(Binding()), q)
      ensures r == Answer(suite, old(Binding()), q)
    {
      match q
      case Ping => r := Response("", OpPing, StatusOK, "protocol_version");
      case Bind(_, _, _, _) => r := HandleBind(q);
      case BadBind => r := Response("", OpBind, StatusError, "malformed bind");
      case Serialize(id, data) =>
        r := Work(q, currentSerialize, currentDeserialize, data);
      case Deserialize(id, hex) =>
        r := Work(q, currentDeserialize, currentSerialize, hex);
      case Other(name, id) => r := Response(id, OpOther(name), StatusError, "unknown op");
    }

    method Work(q: Request, own: Option<Fn>, other: Option<Fn>, payload: string) returns (r: Response)
      ensures r == Perform(suite, Binding(), q, own, other, payload)
    {
      if own.None? {
        if other.Some? {
          return Response(IdOf(q), OpOf(q), StatusSkipped, "direction not registered");
        }
        return Response(IdOf(q), OpOf(q), StatusError, "call bind first");
      }
      var out := suite.run(own.value, schema, auditEnabled, payload);
      return Response(IdOf(q), OpOf(q), if out.Ok? then StatusOK else StatusError,
                      if out.Ok? then out.value else out.error);
    }

    /** The loop over the input: blank and malformed lines are skipped, every other
        message before the first exit is answered once, in order. */
    method Run(lines: seq<Line>) returns (out: seq<Response>)
      modifies this
      ensures Binding() == AfterAll(suite, old(Binding()), Requests(lines))
      ensures (forall q | q in Requests(lines) :: !q.Exit?)
              && out == Answers(suite, old(Binding()), Requests(lines))
    {
      out := [];
      ghost var b := Binding();
      RequestsNoExit(lines);
      for i := 0 to |lines|
        invariant Message(Exit) !in lines[..i]
        invariant forall q | q in Requests(lines[..i]) :: !q.Exit?
        invariant Binding() == AfterAll(suite, b, Requests(lines[..i]))
        invariant out == Answers(suite, b, Requests(lines[..i]))
      {
        var line := lines[i];
        ghost var seen := Requests(lines[..i]);
        assert lines[..i + 1] == lines[..i] + [line];
        RequestsSnoc(lines[..i], line);
        if line.Message? {
          if line.request.Exit? {
            assert lines == lines[..i] + [Message(Exit)] + lines[i + 1..];
            RequestsStop(lines[..i], lines[i + 1..]);
            return;
          }
          var r := Handle(line.request);
          assert (seen + [line.request])[..|seen|] == seen;
          out := out + [r];
        } else {
          assert seen + [] == seen;
        }
      }
      assert lines[..|lines|] == lines;
    }
  }

  // ---- what every run keeps ------------------------------------------------

  /** Exactly one answer per request, carrying the request's own op and id. */
  lemma {:induction false} OwnAnswers(suite: Suite, b: Bound, qs: seq<Request>)
    requires forall q | q in qs :: !q.Exit?
    ensures |Answers(suite, b, qs)| == |qs|
    ensures forall i | 0 <= i < |qs| ::
              Answers(suite, b, qs)[i].op == OpOf(qs[i]) && Answers(suite, b, qs)[i].id == IdOf(qs[i])
  {
    if qs != [] {
      OwnAnswers(suite, b, qs[..|qs| - 1]);
    }
  }

  /** The answer to request `i` depends on the requests before it and on nothing later. */
  lemma {:induction false} AnswerAt(suite: Suite, b: Bound, qs: seq<Request>, i: nat)
    requires i < |qs| && forall q | q in qs :: !q.Exit?
    ensures Answers(suite, b, qs)[i] == Answer(suite, AfterAll(suite, b, qs[..i]), qs[i])
  {
    if i < |qs| - 1 {
      AnswerAt(suite, b, qs[..|qs| - 1], i);
      assert qs[..|qs| - 1][..i] == qs[..i];
    }
  }

  /** Index of the last bind that satisfies the given test, -1 when there is none. */
  function LastBind(suite: Suite, qs: seq<Request>, includeErrors: bool): (i: int)
    ensures -1 <= i < |qs|
    ensures i >= 0 ==> qs[i].Bind? && (includeErrors || !BindError(suite, qs[i]))
    ensures forall j | i < j < |qs| && qs[j].Bind? :: !includeErrors && BindError(suite, qs[j])
  {
    if qs == [] then -1
    else
      var q := qs[|qs| - 1];
      if q.Bind? && (includeErrors || !BindError(suite, q)) then |qs| - 1
      else LastBind(suite, qs[..|qs| - 1], includeErrors)
  }

  /** For every input: the schema is the one of the last bind that could be read, while
      the functions are those of the last bind that was not answered with ERROR. */
  lemma {:induction false} BindingFromHistory(suite: Suite, qs: seq<Request>)
    ensures var b := AfterAll(suite, UNBOUND, qs);
            var last := LastBind(suite, qs, true);
            var eff := LastBind(suite, qs, false);
            && (last >= 0 ==> b.schema == qs[last].schema)
            && (if eff >= 0 && Registered(suite, qs[eff].typ, qs[eff].format)
                then var f := suite.types[qs[eff].typ][qs[eff].format];
                     b.serializer == f.serializer && b.deserializer == f.deserializer && b.audit == qs[eff].audit
                else b.serializer == None && b.deserializer == None)
  {
    if qs != [] {
      BindingFromHistory(suite, qs[..|qs| - 1]);
    }
  }

  /** The function a format has for the request's direction. */
  function Needed(f: Format, q: Request): Option<Fn> {
    if q.Serialize? then f.serializer else f.deserializer
  }

  function OtherOne(f: Format, q: Request): Option<Fn> {
    if q.Serialize? then f.deserializer else f.serializer
  }

  function Payload(q: Request): string {
    if q.Serialize? then q.data else if q.Deserialize? then q.hex else ""
  }

  /** The format of the last effective bind of a history. */
  function Effective(suite: Suite, qs: seq<Request>): Format {
    var eff := LastBind(suite, qs, false);
    if eff >= 0 && Registered(suite, qs[eff].typ, qs[eff].format) then suite.types[qs[eff].typ][qs[eff].format]
    else Format(None, None)
  }

  /** What a serialize or deserialize request is answered, told from the requests before
      it alone: SKIPPED when the last effective bind registered the other direction
      only, otherwise OK exactly when that bind registered this direction and its
      function, run under the schema of the last readable bind, has a result. */
  lemma WorkFromHistory(suite: Suite, qs: seq<Request>, i: nat)
    requires i < |qs| && (forall q | q in qs :: !q.Exit?) && (qs[i].Serialize? || qs[i].Deserialize?)
    ensures var r, q, f := Answers(suite, UNBOUND, qs)[i], qs[i], Effective(suite, qs[..i]);
            && r.id == q.id && r.status != StatusAbsent
            && (r.status == StatusSkipped <==> Needed(f, q).None? && OtherOne(f, q).Some?)
    ensures var r, q, f := Answers(suite, UNBOUND, qs)[i], qs[i], Effective(suite, qs[..i]);
            var last, eff := LastBind(suite, qs[..i], true), LastBind(suite, qs[..i], false);
            && (Needed(f, q).None? ==> r.status != StatusOK)
            && (Needed(f, q).Some? ==>
                  var out := suite.run(Needed(f, q).value, qs[last].schema, qs[eff].audit, Payload(q));
                  && (r.status == StatusOK <==> out.Ok?)
                  && r.body == (match out case Ok(text) => text case Err(text) => text))
  {
    AnswerAt(suite, UNBOUND, qs, i);
    BindingFromHistory(suite, qs[..i]);
    hide Answers, AfterAll, LastBind;
  }

  /** Everything that can run belongs to the latest bind, and that bind succeeded. */
  ghost predicate Coherent(suite: Suite, qs: seq<Request>) {
    var b := AfterAll(suite, UNBOUND, qs);
    var last := LastBind(suite, qs, true);
    b.serializer.Some? || b.deserializer.Some? ==>
      && last >= 0
      && BindOk(suite, qs[last])
      && b == Bound(qs[last].schema, suite.types[qs[last].typ][qs[last].format].serializer,
                    suite.types[qs[last].typ][qs[last].format].deserializer, qs[last].audit)
  }

  /** The loop on its own does not keep that: a bind answered with ERROR replaces the
      schema and leaves the previous functions callable. It is coherent exactly when
      the latest bind was not such an error, or there is nothing left to call. */
  lemma CoherentExactly(suite: Suite, qs: seq<Request>)
    ensures Coherent(suite, qs) <==>
            var last := LastBind(suite, qs, true);
            var eff := LastBind(suite, qs, false);
            last < 0 || !BindError(suite, qs[last]) || eff < 0
            || !Registered(suite, qs[eff].typ, qs[eff].format)
            || suite.types[qs[eff].typ][qs[eff].format] == Format(None, None)
  {
    BindingFromHistory(suite, qs);
    var last := LastBind(suite, qs, true);
    var eff := LastBind(suite, qs, false);
    if last >= 0 && !BindError(suite, qs[last]) {
      assert eff == last;
    }
  }

  /** The runner never sends such a bind, so from it every history is coherent. */
  lemma RunnerHistoriesCoherent(suite: Suite, qs: seq<Request>)
    requires forall q | q in qs && q.Bind? :: q.typ != "" && q.format != ""
    ensures Coherent(suite, qs)
  {
    BindingFromHistory(suite, qs);
    var last := LastBind(suite, qs, true);
    if last >= 0 {
      assert qs[last] in qs;
      assert LastBind(suite, qs, false) == last;
    }
  }

  /** A concrete history of the loop alone that breaks it. */
  lemma ErrorBindMixesSchemas(run: (Fn, Schema, bool, string) -> Result<string, string>)
    ensures var suite := Suite(map["t" := map["f" := Format(Some(1), Some(2))]], run);
            var qs := [Bind("old", "t", "f", false), Bind("new", "t", "", false)];
            AfterAll(suite, UNBOUND, qs) == Bound("new", Some(1), Some(2), false) && !Coherent(suite, qs)
  {
    var suite := Suite(map["t" := map["f" := Format(Some(1), Some(2))]], run);
    var q0, q1 := Bind("old", "t", "f", false), Bind("new", "t", "", false);
    assert [q0, q1][..1] == [q0] && [q0][..0] == [];
    assert "t" in suite.types && "f" in suite.types["t"] && "" !in suite.types["t"];
    assert After(suite, UNBOUND, q0) == Bound("old", Some(1), Some(2), false);
    assert BindError(suite, q1);
    assert AfterAll(suite, UNBOUND, [q0]) == Bound("old", Some(1), Some(2), false);
    assert AfterAll(suite, UNBOUND, [q0, q1]) == Bound("new", Some(1), Some(2), false);
    assert LastBind(suite, [q0, q1], true) == 1;
  }
}
