/** `LLMService`: bounded retries of transient failures and bounded repairs of rejected output
    around a provider that may answer anything. */
module LlmService {
  import opened Common
  import opened Names
  import opened Candidates

  const MAX_TOTAL_ATTEMPTS := 3
  const MAX_REPAIRS := 2

  datatype FailureKind = Configuration | Transient | Output

  /** The three structured answers the adjudicator asks for, and any other JSON object. */
  datatype Payload =
    | Choice(candidate: CandidateId, confidence: real)
    | Proposal(text: string, confidence: real)
    | Verification(candidate: CandidateId, confidence: real, codes: seq<Code>)
    | Unrecognized

  datatype Content = NotJson | NotObject | Object(payload: Payload)

  /** One provider call: an error, with or without the rejected result attached, or a message. */
  datatype Reply = Failure(kind: FailureKind, code: Code, rejected: bool) | Message(content: Content)

  /** What the provider does at each call. */
  type Script = nat -> Reply

  datatype Schema = ChoiceSchema | ProposalSchema | VerificationSchema(offered: set<CandidateId>)

  predicate Conforms(payload: Payload, schema: Schema) {
    match schema
    case ChoiceSchema => payload.Choice? && 0.0 <= payload.confidence <= 1.0
    case ProposalSchema => payload.Proposal? && 0.0 <= payload.confidence <= 1.0
    case VerificationSchema(offered) =>
      payload.Verification? && payload.candidate in offered && 0.0 <= payload.confidence <= 1.0 && |payload.codes| <= 4
  }

  datatype Checked = Conforming(payload: Payload) | Violation(code: Code)

  /** `_validate_result`. */
  function Check(content: Content, schema: Schema): (r: Checked)
    ensures r.Conforming? <==> content.Object? && Conforms(content.payload, schema)
  {
    match content
    case NotJson => Violation(LLM_INVALID_JSON)
    case NotObject => Violation(LLM_RESPONSE_NOT_OBJECT)
    case Object(payload) => if Conforms(payload, schema) then Conforming(payload) else Violation(LLM_SCHEMA_VIOLATION)
  }

  /** What a service call reports; `calls` counts the provider calls it made. */
  datatype Served =
    | Answer(payload: Payload, retries: nat, repairs: nat, repairCodes: seq<Code>, calls: nat)
    | Raised(kind: FailureKind, code: Code, retries: nat, repairs: nat, calls: nat)

  // ---------- reference: the first settling reply decides ----------

  /** A reply after which the service calls again. */
  predicate Retried(reply: Reply) {
    reply.Failure? && reply.kind == Transient
  }

  predicate Repaired(reply: Reply, schema: Schema) {
    match reply
    case Failure(kind, _, rejected) => kind == Output && rejected
    case Message(content) => Check(content, schema).Violation?
  }

  function RepairCode(reply: Reply, schema: Schema): Code
    requires Repaired(reply, schema)
  {
    if reply.Failure? then reply.code else Check(reply.content, schema).code
  }

  predicate Settles(reply: Reply, schema: Schema) {
    !Retried(reply) && !Repaired(reply, schema)
  }

  predicate SettlesAt(script: Script, at: nat, schema: Schema, j: nat) {
    Settles(script(at + j), schema)
  }

  /** None of the first `k` calls settles the request. */
  predicate Unsettled(script: Script, at: nat, schema: Schema, k: nat) {
    k == 0 || (Unsettled(script, at, schema, k - 1) && !SettlesAt(script, at, schema, k - 1))
  }

  /** Index, relative to `at`, of the deciding call: the first that settles, or the third. */
  function Deciding(script: Script, at: nat, schema: Schema): (k: nat)
    ensures k < MAX_TOTAL_ATTEMPTS
    ensures Unsettled(script, at, schema, k)
    ensures k < MAX_TOTAL_ATTEMPTS - 1 ==> SettlesAt(script, at, schema, k)
  {
    if SettlesAt(script, at, schema, 0) then 0 else if SettlesAt(script, at, schema, 1) then 1 else 2
  }

  /** Number of transient failures among the first `k` calls. */
  function Retries(script: Script, at: nat, k: nat): (n: nat)
    ensures n <= k
  {
    if k == 0 then 0 else Retries(script, at, k - 1) + if Retried(script(at + k - 1)) then 1 else 0
  }

  /** The codes reported back for the rejected outputs among the first `k` calls. */
  function RepairCodes(script: Script, at: nat, schema: Schema, k: nat): (codes: seq<Code>)
    ensures Unsettled(script, at, schema, k) ==> |codes| == k - Retries(script, at, k)
  {
    if k == 0 then []
    else
      var before := RepairCodes(script, at, schema, k - 1);
      var reply := script(at + k - 1);
      if Repaired(reply, schema) then before + [RepairCode(reply, schema)] else before
  }

  /** The outcome is read off the deciding reply; every earlier call was a retry or a repair. */
  function Serve(script: Script, at: nat, schema: Schema): (r: Served)
    ensures Lawful(r, schema)
  {
    var k := Deciding(script, at, schema);
    var retries := Retries(script, at, k);
    var codes := RepairCodes(script, at, schema, k);
    match script(at + k)
    case Failure(kind, code, _) => Raised(kind, code, retries, k - retries, k + 1)
    case Message(content) =>
      match Check(content, schema)
      case Conforming(payload) => Answer(payload, retries, k - retries, codes, k + 1)
      case Violation(code) => Raised(Output, code, retries, k - retries, k + 1)
  }

  /** What every service call guarantees: the answer conforms to the schema, and the provider
      was called once, plus once per retry and per repair, three times at most. */
  predicate Lawful(served: Served, schema: Schema) {
    && served.calls == 1 + served.retries + served.repairs <= MAX_TOTAL_ATTEMPTS
    && (served.Answer? ==> Conforms(served.payload, schema) && |served.repairCodes| == served.repairs)
  }

  /** A service, as its users see it: what a call made after a number of provider calls gives. */
  type Service = serve: (nat, Schema) -> Served | forall at, schema :: Lawful(serve(at, schema), schema)
    ghost witness ((at: nat, schema: Schema) => Raised(Configuration, LLM_PROVIDER_UNAVAILABLE, 0, 0, 1))

  /** The service over a provider with a given script. */
  function ServiceOf(script: Script): Service {
    (at: nat, schema: Schema) => Serve(script, at, schema)
  }

  /** Under which correction call `j` is sent: the code of the last rejected output before it,
      on top of the original messages, never stacked on an earlier correction. */
  function Correction(script: Script, at: nat, schema: Schema, j: nat): Option<Code> {
    if j == 0 then None
    else if Repaired(script(at + j - 1), schema) then Some(RepairCode(script(at + j - 1), schema))
    else Correction(script, at, schema, j - 1)
  }

  function Corrections(script: Script, at: nat, schema: Schema, n: nat): (r: seq<Option<Code>>)
    ensures |r| == n
  {
    if n == 0 then [] else Corrections(script, at, schema, n - 1) + [Correction(script, at, schema, n - 1)]
  }

  // ---------- what is served ----------

  /** The object the schema asks for: a confidence from 0 to 1, and in a verification an offered candidate and at most four codes. */
  predicate Fits(reply: Reply, schema: Schema) {
    && reply.Message? && reply.content.Object?
    && match schema
       case ChoiceSchema => reply.content.payload.Choice? && IsUnit(reply.content.payload.confidence)
       case ProposalSchema => reply.content.payload.Proposal? && IsUnit(reply.content.payload.confidence)
       case VerificationSchema(offered) =>
         && reply.content.payload.Verification? && IsUnit(reply.content.payload.confidence)
         && reply.content.payload.candidate in offered && |reply.content.payload.codes| < 5
  }

  predicate IsUnit(x: real) {
    !(x < 0.0) && !(x > 1.0)
  }

  predicate Transiently(reply: Reply) {
    reply.Failure? && reply.kind == Transient
  }

  /** A transient failure, an output the provider rejected, or a message that does not fit. */
  predicate TriedAgain(reply: Reply, schema: Schema) {
    Transiently(reply) || (reply.Failure? && reply.kind == Output && reply.rejected) || (reply.Message? && !Fits(reply, schema))
  }

  predicate TransientAt(script: Script, at: nat, j: nat) {
    Transiently(script(at + j))
  }

  predicate AgainAt(script: Script, at: nat, schema: Schema, j: nat) {
    TriedAgain(script(at + j), schema)
  }

  /** What is reported back for a reply that is not transient. */
  function ReportedCode(reply: Reply): Code {
    match reply
    case Failure(_, code, _) => code
    case Message(NotJson) => LLM_INVALID_JSON
    case Message(NotObject) => LLM_RESPONSE_NOT_OBJECT
    case Message(Object(_)) => LLM_SCHEMA_VIOLATION
  }

  /** The replies up to the last one made: all but the last are tried again, and the last one is not, or is the third. It is the
      answer when it fits and the error otherwise; the retries are the transient ones before it, the repairs the others. */
  lemma ServedIff(script: Script, at: nat, schema: Schema)
    ensures var served := Serve(script, at, schema);
            && 1 <= served.calls <= 3
            && var k := served.calls - 1;
               && (forall j :: 0 <= j < k ==> AgainAt(script, at, schema, j))
               && (k == 2 || !AgainAt(script, at, schema, k))
               && (served.Answer? <==> Fits(script(at + k), schema))
               && (served.Answer? ==> served.payload == script(at + k).content.payload)
               && (served.Raised? ==> served.code == ReportedCode(script(at + k))
                                      && served.kind == if script(at + k).Failure? then script(at + k).kind else Output)
               && served.retries == |set j | 0 <= j < k && TransientAt(script, at, j)|
               && served.repairs == k - served.retries
               && (served.Answer? ==> |served.repairCodes| == served.repairs)
               && (served.Answer? ==> forall code :: code in served.repairCodes <==>
                     exists j: nat :: j < k && SentBack(script, at, schema, j) && ReportedCode(script(at + j)) == code)
  {
    var k := Deciding(script, at, schema);
    assert forall j :: 0 <= j < 3 ==> (AgainAt(script, at, schema, j) <==> !SettlesAt(script, at, schema, j));
    assert Unsettled(script, at, schema, k);
    if k > 0 { assert Unsettled(script, at, schema, k - 1); }
    TransientCount(script, at, k);
    forall code ensures code in RepairCodes(script, at, schema, k) <==>
        exists j: nat :: j < k && SentBack(script, at, schema, j) && ReportedCode(script(at + j)) == code
    {
      CodesSentBack(script, at, schema, k, code);
    }
  }

  lemma {:induction false} CodesSentBack(script: Script, at: nat, schema: Schema, k: nat, code: Code)
    ensures code in RepairCodes(script, at, schema, k) <==>
              exists j: nat :: j < k && SentBack(script, at, schema, j) && ReportedCode(script(at + j)) == code
  {
    if k > 0 {
      CodesSentBack(script, at, schema, k - 1, code);
      assert SentBack(script, at, schema, k - 1) <==> Repaired(script(at + k - 1), schema);
      assert at + (k - 1) == at + k - 1;
    }
  }

  lemma {:induction false} TransientCount(script: Script, at: nat, k: nat)
    ensures Retries(script, at, k) == |set j | 0 <= j < k && TransientAt(script, at, j)|
  {
    var all := set j | 0 <= j < k && TransientAt(script, at, j);
    if k == 0 {
      assert all == {};
    } else {
      assert TransientAt(script, at, k - 1) <==> Retried(script(at + k - 1));
      TransientCount(script, at, k - 1);
      hide TransientAt, Retried;
      var before := set j | 0 <= j < k - 1 && TransientAt(script, at, j);
      assert all == if TransientAt(script, at, k - 1) then before + {k - 1} else before;
    }
  }

  /** A reply that is reported back: not transient, but tried again. */
  predicate SentBack(script: Script, at: nat, schema: Schema, i: nat) {
    AgainAt(script, at, schema, i) && !TransientAt(script, at, i)
  }

  /** A call is sent under the report of the last reply sent back before it, or as asked. */
  lemma {:induction false} CorrectionIff(script: Script, at: nat, schema: Schema, j: nat)
    ensures match Correction(script, at, schema, j)
            case None => forall i: nat :: i < j ==> !SentBack(script, at, schema, i)
            case Some(code) => exists i: nat :: i < j && SentBack(script, at, schema, i) && code == ReportedCode(script(at + i))
                                                && forall m: nat :: i < m < j ==> !SentBack(script, at, schema, m)
  {
    if j > 0 {
      CorrectionIff(script, at, schema, j - 1);
      assert SentBack(script, at, schema, j - 1) <==> Repaired(script(at + j - 1), schema);
      if SentBack(script, at, schema, j - 1) {
        assert Correction(script, at, schema, j) == Some(ReportedCode(script(at + (j - 1))));
      } else if Correction(script, at, schema, j - 1).Some? {
        var i: nat :| i < j - 1 && SentBack(script, at, schema, i) && Correction(script, at, schema, j - 1).value == ReportedCode(script(at + i))
                      && forall m: nat :: i < m < j - 1 ==> !SentBack(script, at, schema, m);
        assert forall m: nat :: i < m < j ==> !SentBack(script, at, schema, m);
      }
    }
  }

  // ---------- the provider and the service loop ----------

  /** The provider: answers from its script and remembers under which correction it was called. */
  class Provider {
    const script: Script
    var calls: nat
    var corrections: seq<Option<Code>>

    constructor (script: Script)
      ensures this.script == script && calls == 0 && corrections == []
    {
      this.script := script;
      calls := 0;
      corrections := [];
    }

    method Call(correction: Option<Code>) returns (reply: Reply)
      modifies this
      ensures reply == script(old(calls))
      ensures calls == old(calls) + 1 && corrections == old(corrections) + [correction]
    {
      reply := script(calls);
      calls := calls + 1;
      corrections := corrections + [correction];
    }
  }

  /** The loop state of `_generate_structured` before call number `attempt`. */
  datatype Progress = Progress(attempt: nat, retries: nat, repairs: nat, codes: seq<Code>, correction: Option<Code>)

  ghost predicate Underway(script: Script, at: nat, schema: Schema, p: Progress) {
    && p.attempt < MAX_TOTAL_ATTEMPTS
    && Unsettled(script, at, schema, p.attempt)
    && p.retries == Retries(script, at, p.attempt) && p.repairs == p.attempt - p.retries
    && p.codes == RepairCodes(script, at, schema, p.attempt)
    && p.correction == Correction(script, at, schema, p.attempt)
  }

  datatype Turn = Again(p: Progress) | Done(served: Served)

  /** One turn of the loop: what the service does with a reply. */
  function TakeTurn(p: Progress, reply: Reply, schema: Schema): Turn {
    var last := p.attempt == MAX_TOTAL_ATTEMPTS - 1;
    match reply
    case Failure(kind, code, rejected) =>
      if kind == Transient && !last then
        Again(p.(attempt := p.attempt + 1, retries := p.retries + 1))
      else if kind != Output || !rejected || p.repairs >= MAX_REPAIRS || last then
        Done(Raised(kind, code, p.retries, p.repairs, p.attempt + 1))
      else
        Again(Progress(p.attempt + 1, p.retries, p.repairs + 1, p.codes + [code], Some(code)))
    case Message(content) =>
      match Check(content, schema)
      case Conforming(payload) => Done(Answer(payload, p.retries, p.repairs, p.codes, p.attempt + 1))
      case Violation(code) =>
        if p.repairs >= MAX_REPAIRS || last then
          Done(Raised(Output, code, p.retries, p.repairs, p.attempt + 1))
        else
          Again(Progress(p.attempt + 1, p.retries, p.repairs + 1, p.codes + [code], Some(code)))
  }

  lemma NotStarted(script: Script, at: nat, schema: Schema)
    ensures Underway(script, at, schema, Progress(0, 0, 0, [], None))
  {
  }

  lemma AgainKeeps(script: Script, at: nat, schema: Schema, p: Progress)
    requires Underway(script, at, schema, p)
    requires TakeTurn(p, script(at + p.attempt), schema).Again?
    ensures var next := TakeTurn(p, script(at + p.attempt), schema).p;
            && Underway(script, at, schema, next) && next.attempt == p.attempt + 1 < MAX_TOTAL_ATTEMPTS
            && p.correction == Correction(script, at, schema, p.attempt)
  {
  }

  lemma UnsettledDecides(script: Script, at: nat, schema: Schema, k: nat)
    requires k < MAX_TOTAL_ATTEMPTS && Unsettled(script, at, schema, k)
    requires SettlesAt(script, at, schema, k) || k == MAX_TOTAL_ATTEMPTS - 1
    ensures Deciding(script, at, schema) == k
  {
    if k > 0 { assert Unsettled(script, at, schema, k - 1); }
  }

  /** The loop stops with what the deciding reply says. */
  lemma DoneDecides(script: Script, at: nat, schema: Schema, p: Progress)
    requires Underway(script, at, schema, p)
    requires TakeTurn(p, script(at + p.attempt), schema).Done?
    ensures var served := TakeTurn(p, script(at + p.attempt), schema).served;
            && served == Serve(script, at, schema) && served.calls == p.attempt + 1
            && p.correction == Correction(script, at, schema, p.attempt)
  {
    UnsettledDecides(script, at, schema, p.attempt);
  }

  /** `_generate_structured`, for text and multimodal requests alike. */
  method GenerateStructured(provider: Provider, schema: Schema) returns (served: Served)
    modifies provider
    ensures served == ServiceOf(provider.script)(old(provider.calls), schema)
    ensures provider.calls == old(provider.calls) + served.calls
    ensures provider.corrections ==
            old(provider.corrections) + Corrections(provider.script, old(provider.calls), schema, served.calls)
  {
    hide Serve, Underway, TakeTurn;
    ghost var at := provider.calls;
    var p := Progress(0, 0, 0, [], None);
    NotStarted(provider.script, at, schema);
    while true
      invariant Underway(provider.script, at, schema, p)
      invariant provider.calls == at + p.attempt
      invariant provider.corrections == old(provider.corrections) + Corrections(provider.script, at, schema, p.attempt)
      decreases MAX_TOTAL_ATTEMPTS - p.attempt
    {
      var reply := provider.Call(p.correction);
      match TakeTurn(p, reply, schema)
      case Again(next) =>
        AgainKeeps(provider.script, at, schema, p);
        p := next;
      case Done(outcome) =>
        DoneDecides(provider.script, at, schema, p);
        return outcome;
    }
  }

  /** The outcome of a plain text request. */
  datatype TextServed = TextAnswer(retries: nat, calls: nat) | TextRaised(code: Code, retries: nat, calls: nat)

  /** The number of calls a plain text request makes: up to the first reply that is no transient
      failure, three at most. */
  function TextCalls(script: Script, at: nat): (n: nat)
    ensures 1 <= n <= MAX_TOTAL_ATTEMPTS
  {
    if !Retried(script(at)) then 1 else if !Retried(script(at + 1)) then 2 else MAX_TOTAL_ATTEMPTS
  }

  /** The last of these replies decides. A message comes with the number of retries; an error is the
      provider's own, whose retry count is still zero. */
  function ServeText(script: Script, at: nat): TextServed {
    var n := TextCalls(script, at);
    match script(at + n - 1)
    case Message(_) => TextAnswer(n - 1, n)
    case Failure(_, code, _) => TextRaised(code, 0, n)
  }

  /** `generate_text` over `_retry`. */
  method GenerateText(provider: Provider) returns (served: TextServed)
    modifies provider
    ensures served == ServeText(provider.script, old(provider.calls))
    ensures provider.calls == old(provider.calls) + served.calls
  {
    var script, at := provider.script, provider.calls;
    var attempt := 0;
    while true
      invariant 0 <= attempt < TextCalls(script, at)
      invariant provider.calls == at + attempt && provider.script == script
      decreases MAX_TOTAL_ATTEMPTS - attempt
    {
      var reply := provider.Call(None);
      if reply.Message? {
        return TextAnswer(attempt, attempt + 1);
      }
      if reply.kind != Transient || attempt == MAX_TOTAL_ATTEMPTS - 1 {
        return TextRaised(reply.code, 0, attempt + 1);
      }
      attempt := attempt + 1;
    }
  }

  /** The retries a text request reports are those it made, except when it raises after a retry: its
      count is right exactly when it answers or its first call already failed for good. */
  lemma TextRetriesIff(script: Script, at: nat)
    ensures var served := ServeText(script, at);
            served.calls == 1 + served.retries <==> served.TextAnswer? || !Retried(script(at))
  {
  }

  /** One transient failure and then a final one. */
  function FailsAfterRetry(): Script {
    (call: nat) => if call == 0 then Failure(Transient, LLM_PROVIDER_UNAVAILABLE, false) else Failure(Configuration, LLM_PROVIDER_UNAVAILABLE, false)
  }

  /** Two calls are made, and the error that is raised reports no retry. */
  lemma RetryGoesUncounted()
    ensures ServeText(FailsAfterRetry(), 0) == TextRaised(LLM_PROVIDER_UNAVAILABLE, 0, 2)
  {
    assert FailsAfterRetry()(0) == Failure(Transient, LLM_PROVIDER_UNAVAILABLE, false);
    assert FailsAfterRetry()(1) == Failure(Configuration, LLM_PROVIDER_UNAVAILABLE, false);
  }
}
