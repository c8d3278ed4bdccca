/**
 libs/toollab/runner.py `run` with its trace assembler, libs/toollab/serializer.py, and the
 history rebuilding of apps/api/static/js/toollab.js `toollabPushTurnToHistory`.

 The LLM and the tools are arbitrary: `llm(i)` is what the i-th invocation of a run yields
 (None: it raised) and `exec(i, j, call)` what executing the j-th call of that reply yields.
 JSON texts are modelled as the values they parse to.
 */
module Runner {
  import opened Wrappers
  import opened JsonSchema
  import Registry

  type ExecResult = Registry.ExecResult

  // Message content is a text, or a list of content blocks.
  datatype Content = Text(s: string) | Blocks(n: nat)

  datatype Call = Call(id: Option<string>, name: string, args: map<string, Json>)

  datatype Reply = Reply(content: Content, calls: seq<Call>, inputTokens: Option<int>, outputTokens: Option<int>)

  datatype Msg =
    | System(text: string)
    | Human(text: string)
    | Ai(content: Content, calls: seq<Call>)
    | ToolMsg(body: Json, callId: string, name: string)

  type Llm = nat -> Option<Reply>
  type Exec = (nat, nat, Call) -> ExecResult

  function IdOf(call: Call): string {
    call.id.GetOr("")
  }

  // Every tool message content is an object at the top level.
  function ToToolContent(r: ExecResult): (body: Json)
    ensures body.Obj? && body.fields.Keys == (if r.Ok? then {"ok", "result"} else {"ok", "error_kind", "error"})
  {
    match r
    case Ok(result) => Obj(map["ok" := Bool(true), "result" := result])
    case Error(kind, message) => Obj(map["ok" := Bool(false), "error_kind" := Str(kind), "error" := Str(message)])
  }

  // ------------------------------------------------------------------ the trace

  datatype Step =
    | AiStep(step: nat, content: Option<string>, calls: Option<seq<Call>>)
    | ToolStep(step: nat, callId: Option<string>, name: string, args: map<string, Json>,
               ok: bool, result: Json, error: Option<string>)

  datatype Trace = Trace(steps: seq<Step>, counter: nat, input: Option<int>, output: Option<int>, last: Option<string>)

  const NO_TRACE := Trace([], 0, None, None, None)

  function AddTokens(total: Option<int>, reported: Option<int>): Option<int> {
    if reported.None? then total else Some(total.GetOr(0) + reported.value)
  }

  function TextOf(c: Content): Option<string> {
    if c.Text? then Some(c.s) else None
  }

  // The final response a reply makes: an empty list of blocks counts as an empty text.
  function FinalOf(c: Content): Option<string> {
    if c == Blocks(0) then Some("") else TextOf(c)
  }

  function AiStepOf(n: nat, r: Reply): Step {
    AiStep(n, TextOf(r.content), if r.calls == [] then None else Some(r.calls))
  }

  function ToolStepOf(n: nat, call: Call, r: ExecResult): Step {
    ToolStep(n, call.id, call.name, call.args, r.Ok?, if r.Ok? then r.result else Null,
             if r.Ok? then None else Some(r.message))
  }

  function RecordAi(t: Trace, r: Reply): Trace {
    Trace(t.steps + [AiStepOf(t.counter + 1, r)], t.counter + 1, AddTokens(t.input, r.inputTokens),
          AddTokens(t.output, r.outputTokens), if r.content.Text? then Some(r.content.s) else t.last)
  }

  function RecordTool(t: Trace, call: Call, r: ExecResult): Trace {
    t.(steps := t.steps + [ToolStepOf(t.counter + 1, call, r)], counter := t.counter + 1)
  }

  class TraceAssembler {
    var steps: seq<Step>
    var counter: nat
    var input: Option<int>
    var output: Option<int>
    var last: Option<string>

    constructor ()
      ensures Value() == NO_TRACE
    {
      steps, counter, input, output, last := [], 0, None, None, None;
    }

    function Value(): Trace
      reads this
    {
      Trace(steps, counter, input, output, last)
    }

    method RecordAiMessage(r: Reply)
      modifies this
      ensures Value() == RecordAi(old(Value()), r)
    {
      if r.content.Text? { last := Some(r.content.s); }
      counter := counter + 1;
      steps := steps + [AiStepOf(counter, r)];
      if r.inputTokens.Some? { input := Some(input.GetOr(0) + r.inputTokens.value); }
      if r.outputTokens.Some? { output := Some(output.GetOr(0) + r.outputTokens.value); }
    }

    method RecordToolResult(call: Call, r: ExecResult)
      modifies this
      ensures Value() == RecordTool(old(Value()), call, r)
    {
      counter := counter + 1;
      steps := steps + [ToolStepOf(counter, call, r)];
    }
  }

  // ------------------------------------------------------------------ history

  // A history message as the front end keeps it and the next request carries it.
  datatype Hist =
    | UserH(content: string)
    | AssistantH(content: string, calls: Option<seq<Call>>)
    | ToolH(body: Json, callId: string, name: string)

  function WithId(call: Call): Call {
    call.(id := Some(IdOf(call)))
  }

  function WithIds(calls: seq<Call>): seq<Call> {
    seq(|calls|, i requires 0 <= i < |calls| => WithId(calls[i]))
  }

  // What becomes of a number that the page reads from a response and writes into a request: its
  // numbers are doubles, so integers beyond 2^53 may come back changed, and those beyond the largest
  // double come back as null.
  type Page = real -> Json

  function Reread(v: Json, page: Page): Json {
    match v
    case Num(n) => page(n)
    case Arr(elems) => Arr(seq(|elems|, i requires 0 <= i < |elems| => Reread(elems[i], page)))
    case Obj(fields) => Obj(map k | k in fields :: Reread(fields[k], page))
    case _ => v
  }

  function RereadCall(call: Call, page: Page): Call {
    call.(id := Some(IdOf(call)), args := map k | k in call.args :: Reread(call.args[k], page))
  }

  function RereadCalls(calls: seq<Call>, page: Page): seq<Call> {
    seq(|calls|, i requires 0 <= i < |calls| => RereadCall(calls[i], page))
  }

  function HistOf(s: Step, page: Page): Hist {
    match s
    case AiStep(_, content, calls) =>
      var tcs := RereadCalls(calls.GetOr([]), page);
      AssistantH(content.GetOr(""), if tcs == [] then None else Some(tcs))
    case ToolStep(_, callId, name, _, ok, result, error) =>
      ToolH(Obj(if ok then map["ok" := Bool(true), "result" := Reread(result, page)]
                else map["ok" := Bool(false), "error" := Str(error.GetOr(""))]),
            callId.GetOr(""), name)
  }

  function PushSteps(history: seq<Hist>, steps: seq<Step>, page: Page): seq<Hist>
    decreases steps
  {
    if steps == [] then history else PushSteps(history + [HistOf(steps[0], page)], steps[1..], page)
  }

  function PushTurn(history: seq<Hist>, prompt: string, steps: seq<Step>, page: Page): seq<Hist> {
    PushSteps(history + [UserH(prompt)], steps, page)
  }

  function SeedOf(h: Hist): Msg {
    match h
    case UserH(content) => Human(content)
    case AssistantH(content, calls) => Ai(Text(content), WithIds(calls.GetOr([])))
    case ToolH(body, callId, name) => ToolMsg(body, callId, name)
  }

  function SeedBody(history: seq<Hist>): seq<Msg> {
    if history == [] then [] else [SeedOf(history[0])] + SeedBody(history[1..])
  }

  function Seed(system: string, history: seq<Hist>, prompt: string): seq<Msg> {
    [System(system)] + SeedBody(history) + [Human(prompt)]
  }

  class FrontEnd {
    const page: Page
    var history: seq<Hist>

    constructor (page: Page)
      ensures this.page == page && history == []
    {
      this.page := page;
      history := [];
    }

    method PushTurnToHistory(prompt: string, steps: seq<Step>)
      modifies this
      ensures history == PushTurn(old(history), prompt, steps, page)
    {
      history := history + [UserH(prompt)];
      for n := 0 to |steps|
        invariant PushSteps(history, steps[n..], page) == PushTurn(old(history), prompt, steps, page)
      {
        assert steps[n..][1..] == steps[n + 1..];
        history := history + [HistOf(steps[n], page)];
      }
    }
  }

  // ------------------------------------------------------------------ the loop

  // `sent` lists the message list of each LLM invocation.
  datatype RunState = RunState(messages: seq<Msg>, trace: Trace, iterations: nat, truncated: bool,
                               final: Option<string>, sent: seq<seq<Msg>>)

  function RunCalls(st: RunState, calls: seq<Call>, i: nat, j: nat, exec: Exec): RunState
    decreases calls
  {
    if calls == [] then st
    else
      var r := exec(i, j, calls[0]);
      var next := st.(trace := RecordTool(st.trace, calls[0], r),
                      messages := st.messages + [ToolMsg(ToToolContent(r), IdOf(calls[0]), calls[0].name)]);
      RunCalls(next, calls[1..], i, j + 1, exec)
  }

  lemma {:induction false} RunCallsKeepsCount(st: RunState, calls: seq<Call>, i: nat, j: nat, exec: Exec)
    ensures RunCalls(st, calls, i, j, exec).iterations == st.iterations
    decreases calls
  {
    if calls != [] {
      var r := exec(i, j, calls[0]);
      var next := st.(trace := RecordTool(st.trace, calls[0], r),
                      messages := st.messages + [ToolMsg(ToToolContent(r), IdOf(calls[0]), calls[0].name)]);
      RunCallsKeepsCount(next, calls[1..], i, j + 1, exec);
    }
  }

  function Asked(st: RunState): RunState {
    st.(iterations := st.iterations + 1, sent := st.sent + [st.messages])
  }

  function Answered(st: RunState, r: Reply): RunState {
    Asked(st).(trace := RecordAi(st.trace, r), messages := st.messages + [Ai(r.content, r.calls)])
  }

  function Called(st: RunState, r: Reply, exec: Exec): (next: RunState)
    ensures next.iterations == st.iterations + 1
  {
    RunCallsKeepsCount(Answered(st, r), r.calls, st.iterations, 0, exec);
    RunCalls(Answered(st, r), r.calls, st.iterations, 0, exec)
  }

  function Loop(st: RunState, maxIter: int, llm: Llm, exec: Exec): RunState
    decreases maxIter - st.iterations
  {
    if st.iterations >= maxIter then st.(truncated := true)
    else match llm(st.iterations)
         case None => Asked(st)
         case Some(r) =>
           if r.calls == [] then Answered(st, r).(final := FinalOf(r.content))
           else Loop(Called(st, r, exec), maxIter, llm, exec)
  }

  function Finish(st: RunState): RunState {
    if st.truncated && st.final.None? then st.(final := st.trace.last) else st
  }

  function Start(messages: seq<Msg>): RunState {
    RunState(messages, NO_TRACE, 0, false, None, [])
  }

  // The bound on LLM invocations: the request's own, if any and not zero, under the hard cap.
  function MaxIterations(requested: Option<int>, usual: int, hard: int): int {
    var n := if requested.Some? && requested.value != 0 then requested.value else usual;
    if n <= hard then n else hard
  }

  function Execute(system: string, history: seq<Hist>, prompt: string, maxIter: int, llm: Llm, exec: Exec): RunState {
    Finish(Loop(Start(Seed(system, history, prompt)), maxIter, llm, exec))
  }

  // The run as the source writes it, in three parts: the seed, the calls of one reply, the loop.
  method SeedConversation(system: string, history: seq<Hist>, prompt: string) returns (messages: seq<Msg>)
    ensures messages == Seed(system, history, prompt)
  {
    messages := [System(system)];
    for n := 0 to |history|
      invariant messages + SeedBody(history[n..]) == [System(system)] + SeedBody(history)
    {
      assert history[n..][1..] == history[n + 1..];
      messages := messages + [SeedOf(history[n])];
    }
    assert history[|history|..] == [];
    messages := messages + [Human(prompt)];
  }

  method RunToolCalls(trace: TraceAssembler, before: seq<Msg>, calls: seq<Call>, i: nat, exec: Exec, ghost st: RunState)
    returns (messages: seq<Msg>)
    requires st.messages == before && st.trace == trace.Value()
    modifies trace
    ensures RunCalls(st, calls, i, 0, exec) == st.(messages := messages, trace := trace.Value())
  {
    messages := before;
    for j := 0 to |calls|
      invariant RunCalls(st, calls, i, 0, exec)
             == RunCalls(st.(messages := messages, trace := trace.Value()), calls[j..], i, j, exec)
    {
      assert calls[j..][1..] == calls[j + 1..];
      var r := exec(i, j, calls[j]);
      trace.RecordToolResult(calls[j], r);
      messages := messages + [ToolMsg(ToToolContent(r), IdOf(calls[j]), calls[j].name)];
    }
  }

  method RunPrompt(system: string, history: seq<Hist>, prompt: string, maxIter: int, llm: Llm, exec: Exec)
    returns (result: RunState)
    ensures result == Execute(system, history, prompt, maxIter, llm, exec)
  {
    var trace := new TraceAssembler();
    var messages := SeedConversation(system, history, prompt);
    ghost var start := Start(messages);
    var iterations: nat, truncated, final: Option<string>, sent := 0, false, None, [];
    while true
      invariant !truncated && final == None
      invariant Loop(start, maxIter, llm, exec)
             == Loop(RunState(messages, trace.Value(), iterations, false, None, sent), maxIter, llm, exec)
      decreases maxIter - iterations
    {
      if iterations >= maxIter {
        truncated := true;
        break;
      }
      iterations := iterations + 1;
      sent := sent + [messages];
      var ai := llm(iterations - 1);
      if ai.None? { break; }
      trace.RecordAiMessage(ai.value);
      messages := messages + [Ai(ai.value.content, ai.value.calls)];
      if ai.value.calls == [] {
        final := FinalOf(ai.value.content);
        break;
      }
      messages := RunToolCalls(trace, messages, ai.value.calls, iterations - 1, exec,
                               RunState(messages, trace.Value(), iterations, false, None, sent));
    }
    assert Loop(start, maxIter, llm, exec) == RunState(messages, trace.Value(), iterations, truncated, final, sent);
    if truncated && final.None? { final := trace.last; }
    return RunState(messages, trace.Value(), iterations, truncated, final, sent);
  }
}
