/**
 What a run of the agent loop does for every behaviour of the LLM and the tools: its bound and
 accounting, the shape of every conversation it sends, and the fidelity of replayed history.
 */
module RunnerTheorems {
  import opened Wrappers
  import opened JsonSchema
  import Registry
  import opened Runner

  // ------------------------------------------------------------------ a run, described without its loop

  // The replies a run consumes from invocation i on: up to the first that has no tool calls, the
  // first failure, or the bound.
  function Replies(i: nat, maxIter: int, llm: Llm): seq<Reply>
    decreases maxIter - i
  {
    if i >= maxIter then []
    else match llm(i)
         case None => []
         case Some(r) => if r.calls == [] then [r] else [r] + Replies(i + 1, maxIter, llm)
  }

  function Answers(calls: seq<Call>, i: nat, j: nat, exec: Exec): seq<Msg>
    decreases calls
  {
    if calls == [] then []
    else
      var body := ToToolContent(exec(i, j, calls[0]));
      [ToolMsg(body, IdOf(calls[0]), calls[0].name)] + Answers(calls[1..], i, j + 1, exec)
  }

  function AnswerSteps(calls: seq<Call>, i: nat, j: nat, exec: Exec, n: nat): seq<Step>
    decreases calls
  {
    if calls == [] then []
    else [ToolStepOf(n + 1, calls[0], exec(i, j, calls[0]))] + AnswerSteps(calls[1..], i, j + 1, exec, n + 1)
  }

  // Each reply followed by the answers to its calls.
  function Transcript(rs: seq<Reply>, i: nat, exec: Exec): seq<Msg>
    decreases rs
  {
    if rs == [] then []
    else [Ai(rs[0].content, rs[0].calls)] + Answers(rs[0].calls, i, 0, exec) + Transcript(rs[1..], i + 1, exec)
  }

  function TranscriptSteps(rs: seq<Reply>, i: nat, exec: Exec, n: nat): seq<Step>
    decreases rs
  {
    if rs == [] then []
    else [AiStepOf(n + 1, rs[0])] + AnswerSteps(rs[0].calls, i, 0, exec, n + 1)
         + TranscriptSteps(rs[1..], i + 1, exec, n + 1 + |rs[0].calls|)
  }

  function StepCount(rs: seq<Reply>): nat {
    if rs == [] then 0 else 1 + |rs[0].calls| + StepCount(rs[1..])
  }

  // The sum of the reported counts, None when none was reported.
  function TokenSum(counts: seq<Option<int>>): Option<int> {
    if counts == [] then None
    else if counts[0].None? then TokenSum(counts[1..])
    else Some(counts[0].value + TokenSum(counts[1..]).GetOr(0))
  }

  function Inputs(rs: seq<Reply>): seq<Option<int>> {
    seq(|rs|, i requires 0 <= i < |rs| => rs[i].inputTokens)
  }

  function Outputs(rs: seq<Reply>): seq<Option<int>> {
    seq(|rs|, i requires 0 <= i < |rs| => rs[i].outputTokens)
  }

  function LastText(rs: seq<Reply>): Option<string> {
    if rs == [] then None
    else if rs[|rs| - 1].content.Text? then Some(rs[|rs| - 1].content.s)
    else LastText(rs[..|rs| - 1])
  }

  lemma {:induction false} RunCallsSpec(st: RunState, calls: seq<Call>, i: nat, j: nat, exec: Exec)
    ensures RunCalls(st, calls, i, j, exec) ==
            st.(messages := st.messages + Answers(calls, i, j, exec),
                trace := st.trace.(steps := st.trace.steps + AnswerSteps(calls, i, j, exec, st.trace.counter),
                                   counter := st.trace.counter + |calls|))
    decreases calls
  {
    if calls != [] {
      var r := exec(i, j, calls[0]);
      var answer := ToolMsg(ToToolContent(r), IdOf(calls[0]), calls[0].name);
      var step := ToolStepOf(st.trace.counter + 1, calls[0], r);
      var next := st.(trace := RecordTool(st.trace, calls[0], r), messages := st.messages + [answer]);
      RunCallsSpec(next, calls[1..], i, j + 1, exec);
      Reassociate(st.messages, [answer], Answers(calls[1..], i, j + 1, exec));
      Reassociate(st.trace.steps, [step], AnswerSteps(calls[1..], i, j + 1, exec, st.trace.counter + 1));
    }
  }

  lemma CalledSpec(st: RunState, r: Reply, exec: Exec)
    ensures var a := Called(st, r, exec); var i := st.iterations;
            && a.messages == st.messages + ([Ai(r.content, r.calls)] + Answers(r.calls, i, 0, exec))
            && a.trace.steps == st.trace.steps
                 + ([AiStepOf(st.trace.counter + 1, r)] + AnswerSteps(r.calls, i, 0, exec, st.trace.counter + 1))
            && a.trace.counter == st.trace.counter + 1 + |r.calls|
            && a.trace.input == AddTokens(st.trace.input, r.inputTokens)
            && a.trace.output == AddTokens(st.trace.output, r.outputTokens)
            && a.trace.last == (if r.content.Text? then Some(r.content.s) else st.trace.last)
            && a.truncated == st.truncated && a.final == st.final
            && a.sent == st.sent + [st.messages]
  {
    RunCallsSpec(Answered(st, r), r.calls, st.iterations, 0, exec);
  }

  // One turn of the loop, as a case distinction on how it goes on.
  lemma LoopCases(st: RunState, maxIter: int, llm: Llm, exec: Exec)
    ensures var i := st.iterations; var end := Loop(st, maxIter, llm, exec); var rs := Replies(i, maxIter, llm);
            if i >= maxIter then end == st.(truncated := true) && rs == []
            else if llm(i).None? then end == Asked(st) && rs == []
            else var r := llm(i).value;
                 if r.calls == [] then end == Answered(st, r).(final := FinalOf(r.content)) && rs == [r]
                 else end == Loop(Called(st, r, exec), maxIter, llm, exec) && rs == [r] + Replies(i + 1, maxIter, llm)
  {
  }

  // Prepending one reply to a conversation, and to a trace, that continues it.
  lemma PrependTurn(before: seq<Msg>, r: Reply, rest: seq<Reply>, i: nat, exec: Exec)
    ensures (before + ([Ai(r.content, r.calls)] + Answers(r.calls, i, 0, exec))) + Transcript(rest, i + 1, exec)
         == before + Transcript([r] + rest, i, exec)
  {
    assert ([r] + rest)[1..] == rest;
    Reassociate(before, [Ai(r.content, r.calls)] + Answers(r.calls, i, 0, exec), Transcript(rest, i + 1, exec));
  }

  lemma PrependSteps(before: seq<Step>, r: Reply, rest: seq<Reply>, i: nat, exec: Exec, n: nat)
    ensures (before + ([AiStepOf(n + 1, r)] + AnswerSteps(r.calls, i, 0, exec, n + 1)))
              + TranscriptSteps(rest, i + 1, exec, n + 1 + |r.calls|)
         == before + TranscriptSteps([r] + rest, i, exec, n)
  {
    assert ([r] + rest)[1..] == rest;
    Reassociate(before, [AiStepOf(n + 1, r)] + AnswerSteps(r.calls, i, 0, exec, n + 1),
                TranscriptSteps(rest, i + 1, exec, n + 1 + |r.calls|));
  }

  // The conversation and the trace have grown by the replies, each with its answers.
  ghost predicate Grows(st: RunState, rs: seq<Reply>, end: RunState, exec: Exec) {
    && end.messages == st.messages + Transcript(rs, st.iterations, exec)
    && end.trace.steps == st.trace.steps + TranscriptSteps(rs, st.iterations, exec, st.trace.counter)
  }

  lemma {:induction false} PrependGrows(st: RunState, r: Reply, rest: seq<Reply>, next: RunState, end: RunState,
                                        exec: Exec)
    requires next.iterations == st.iterations + 1 && next.trace.counter == st.trace.counter + 1 + |r.calls|
    requires next.messages == st.messages + ([Ai(r.content, r.calls)] + Answers(r.calls, st.iterations, 0, exec))
    requires next.trace.steps == st.trace.steps
               + ([AiStepOf(st.trace.counter + 1, r)]
                  + AnswerSteps(r.calls, st.iterations, 0, exec, st.trace.counter + 1))
    requires Grows(next, rest, end, exec)
    ensures Grows(st, [r] + rest, end, exec)
  {
    PrependTurn(st.messages, r, rest, st.iterations, exec);
    PrependSteps(st.trace.steps, r, rest, st.iterations, exec, st.trace.counter);
  }

  lemma {:induction false} LastGrows(st: RunState, r: Reply, exec: Exec)
    requires r.calls == []
    ensures Grows(st, [r], Answered(st, r).(final := FinalOf(r.content)), exec)
  {
    assert [r][1..] == [];
  }

  lemma {:induction false} LoopTranscript(st: RunState, maxIter: int, llm: Llm, exec: Exec)
    ensures Grows(st, Replies(st.iterations, maxIter, llm), Loop(st, maxIter, llm, exec), exec)
    decreases maxIter - st.iterations
  {
    var i := st.iterations;
    LoopCases(st, maxIter, llm, exec);
    if i < maxIter && llm(i).Some? {
      var r := llm(i).value;
      if r.calls == [] {
        LastGrows(st, r, exec);
      } else {
        var next := Called(st, r, exec);
        LoopTranscript(next, maxIter, llm, exec);
        CalledSpec(st, r, exec);
        PrependGrows(st, r, Replies(i + 1, maxIter, llm), next, Loop(next, maxIter, llm, exec), exec);
      }
    }
  }

  // How a run ends, in terms of the replies it consumes.
  ghost predicate EndsAs(st: RunState, rs: seq<Reply>, maxIter: int, end: RunState) {
    && end.iterations == st.iterations + |rs| + (if st.iterations + |rs| < maxIter && AllCall(rs) then 1 else 0)
    && end.iterations - st.iterations == |end.sent| - |st.sent|
    && (end.truncated <==> st.iterations + |rs| >= maxIter && AllCall(rs))
    && end.final == (if rs != [] && rs[|rs| - 1].calls == [] then FinalOf(rs[|rs| - 1].content) else None)
    && end.trace.last == (if LastText(rs).Some? then LastText(rs) else st.trace.last)
  }

  lemma {:induction false} PrependEnd(st: RunState, r: Reply, rest: seq<Reply>, maxIter: int, next: RunState,
                                      end: RunState)
    requires next.iterations == st.iterations + 1 && |next.sent| == |st.sent| + 1
    requires next.trace.last == if r.content.Text? then Some(r.content.s) else st.trace.last
    requires r.calls != [] && EndsAs(next, rest, maxIter, end)
    ensures EndsAs(st, [r] + rest, maxIter, end)
  {
    LastTextTail(r, rest);
    AllCallTail(r, rest);
  }

  lemma {:induction false} LastEnds(st: RunState, r: Reply, maxIter: int)
    requires r.calls == [] && st.iterations < maxIter && !st.truncated
    ensures EndsAs(st, [r], maxIter, Answered(st, r).(final := FinalOf(r.content)))
  {
    LastTextTail(r, []);
    assert [r] + [] == [r] && [r][0].calls == [];
  }

  lemma {:induction false} NoReplyEnds(st: RunState, maxIter: int)
    requires !st.truncated && st.final == None && (st.iterations <= maxIter || st.iterations == 0)
    ensures st.iterations >= maxIter ==> EndsAs(st, [], maxIter, st.(truncated := true))
    ensures st.iterations < maxIter ==> EndsAs(st, [], maxIter, Asked(st))
  {
  }

  lemma {:induction false} LoopOutcome(st: RunState, maxIter: int, llm: Llm, exec: Exec)
    requires !st.truncated && st.final == None && (st.iterations <= maxIter || st.iterations == 0)
    ensures EndsAs(st, Replies(st.iterations, maxIter, llm), maxIter, Loop(st, maxIter, llm, exec))
    decreases maxIter - st.iterations
  {
    var i := st.iterations;
    LoopCases(st, maxIter, llm, exec);
    if i >= maxIter || llm(i).None? {
      NoReplyEnds(st, maxIter);
    } else {
      var r := llm(i).value;
      if r.calls == [] {
        LastEnds(st, r, maxIter);
      } else {
        var next := Called(st, r, exec);
        CalledSpec(st, r, exec);
        LoopOutcome(next, maxIter, llm, exec);
        PrependEnd(st, r, Replies(i + 1, maxIter, llm), maxIter, next, Loop(next, maxIter, llm, exec));
      }
    }
  }

  predicate AllCall(rs: seq<Reply>) {
    forall k :: 0 <= k < |rs| ==> rs[k].calls != []
  }

  lemma AllCallTail(r: Reply, rest: seq<Reply>)
    ensures AllCall([r] + rest) <==> r.calls != [] && AllCall(rest)
  {
    assert forall k :: 0 <= k < |rest| ==> ([r] + rest)[k + 1] == rest[k];
    if AllCall([r] + rest) { assert ([r] + rest)[0] == r; }
  }

  lemma {:induction false} LastTextTail(r: Reply, rest: seq<Reply>)
    ensures LastText([r] + rest) == if LastText(rest).Some? then LastText(rest) else TextOf(r.content)
  {
    var rs := [r] + rest;
    if rest == [] {
      assert rs[..0] == [];
    } else {
      assert rs[..|rs| - 1] == [r] + rest[..|rest| - 1];
      LastTextTail(r, rest[..|rest| - 1]);
    }
  }

  // ------------------------------------------------------------------ accounting

  lemma {:induction false} AnswerStepsNumbered(calls: seq<Call>, i: nat, j: nat, exec: Exec, n: nat)
    ensures var steps := AnswerSteps(calls, i, j, exec, n);
            |steps| == |calls| && forall k :: 0 <= k < |steps| ==> steps[k].step == n + 1 + k
    decreases calls
  {
    if calls != [] { AnswerStepsNumbered(calls[1..], i, j + 1, exec, n + 1); }
  }

  lemma {:induction false} StepsNumbered(rs: seq<Reply>, i: nat, exec: Exec, n: nat)
    ensures var steps := TranscriptSteps(rs, i, exec, n);
            |steps| == StepCount(rs) && forall k :: 0 <= k < |steps| ==> steps[k].step == n + 1 + k
    decreases rs
  {
    if rs != [] {
      AnswerStepsNumbered(rs[0].calls, i, 0, exec, n + 1);
      StepsNumbered(rs[1..], i + 1, exec, n + 1 + |rs[0].calls|);
    }
  }

  ghost predicate Totals(st: RunState, rs: seq<Reply>, end: RunState) {
    && end.trace.input == AddTokens(st.trace.input, TokenSum(Inputs(rs)))
    && end.trace.output == AddTokens(st.trace.output, TokenSum(Outputs(rs)))
  }

  lemma {:induction false} PrependTotals(st: RunState, r: Reply, rest: seq<Reply>, end: RunState, exec: Exec)
    requires Totals(Called(st, r, exec), rest, end)
    ensures Totals(st, [r] + rest, end)
  {
    CalledSpec(st, r, exec);
    assert Inputs([r] + rest)[1..] == Inputs(rest) && Outputs([r] + rest)[1..] == Outputs(rest);
  }

  lemma LastTotals(st: RunState, r: Reply)
    ensures Totals(st, [r], Answered(st, r).(final := FinalOf(r.content)))
  {
    assert Inputs([r]) == [r.inputTokens] && Outputs([r]) == [r.outputTokens];
    assert [r.inputTokens][1..] == [] && [r.outputTokens][1..] == [];
  }

  lemma {:induction false} LoopTotals(st: RunState, maxIter: int, llm: Llm, exec: Exec)
    ensures Totals(st, Replies(st.iterations, maxIter, llm), Loop(st, maxIter, llm, exec))
    decreases maxIter - st.iterations
  {
    var i := st.iterations;
    LoopCases(st, maxIter, llm, exec);
    if i < maxIter && llm(i).Some? {
      var r := llm(i).value;
      if r.calls == [] {
        LastTotals(st, r);
      } else {
        var next := Called(st, r, exec);
        LoopTotals(next, maxIter, llm, exec);
        PrependTotals(st, r, Replies(i + 1, maxIter, llm), Loop(next, maxIter, llm, exec), exec);
      }
    }
  }

  // The bound and the books of a run, for any LLM and any tools.
  lemma RunAccounting(system: string, history: seq<Hist>, prompt: string, maxIter: int, llm: Llm, exec: Exec)
    ensures var end := Execute(system, history, prompt, maxIter, llm, exec);
            var rs := Replies(0, maxIter, llm);
            && |end.sent| == end.iterations == |rs| + (if |rs| < maxIter && AllCall(rs) then 1 else 0)
            && (end.truncated <==> |rs| >= maxIter && AllCall(rs))
            && |end.trace.steps| == StepCount(rs)
            && (forall k :: 0 <= k < |end.trace.steps| ==> end.trace.steps[k].step == k + 1)
            && end.trace.input == TokenSum(Inputs(rs)) && end.trace.output == TokenSum(Outputs(rs))
            && end.final == (if rs != [] && rs[|rs| - 1].calls == [] then
                               match rs[|rs| - 1].content
                               case Text(s) => Some(s)
                               case Blocks(n) => if n == 0 then Some("") else None
                             else if end.truncated then LastText(rs) else None)
  {
    var messages := Seed(system, history, prompt);
    FinishKeeps(Loop(Start(messages), maxIter, llm, exec));
    RunEnds(messages, maxIter, llm, exec);
    LoopTotals(Start(messages), maxIter, llm, exec);
    RunSteps(messages, maxIter, llm, exec);
  }

  lemma RunEnds(messages: seq<Msg>, maxIter: int, llm: Llm, exec: Exec)
    ensures var end := Finish(Loop(Start(messages), maxIter, llm, exec));
            var rs := Replies(0, maxIter, llm);
            && |end.sent| == end.iterations == |rs| + (if |rs| < maxIter && AllCall(rs) then 1 else 0)
            && (end.truncated <==> |rs| >= maxIter && AllCall(rs))
            && end.final == (if rs != [] && rs[|rs| - 1].calls == [] then FinalOf(rs[|rs| - 1].content)
                             else if end.truncated then LastText(rs) else None)
  {
    var rs := Replies(0, maxIter, llm);
    LoopOutcome(Start(messages), maxIter, llm, exec);
    assert AllCall(rs) && rs != [] ==> rs[|rs| - 1].calls != [];
  }

  lemma FinishKeeps(st: RunState)
    ensures Finish(st) == st.(final := if st.truncated && st.final.None? then st.trace.last else st.final)
  {
  }

  lemma RunSteps(messages: seq<Msg>, maxIter: int, llm: Llm, exec: Exec)
    ensures var steps := Loop(Start(messages), maxIter, llm, exec).trace.steps;
            |steps| == StepCount(Replies(0, maxIter, llm)) && forall k :: 0 <= k < |steps| ==> steps[k].step == k + 1
  {
    LoopTranscript(Start(messages), maxIter, llm, exec);
    StepsNumbered(Replies(0, maxIter, llm), 0, exec, 0);
  }

  // The bound is the request's own, unless it has none or zero, but never more than the hard cap; an
  // LLM that always calls tools is invoked as often as that, and no LLM more often.
  lemma {:induction false} HardCap(requested: Option<int>, usual: int, hard: nat, system: string, history: seq<Hist>,
                                   prompt: string, llm: Llm, exec: Exec)
    ensures var end := Execute(system, history, prompt, MaxIterations(requested, usual, hard), llm, exec);
            var own := if requested.GetOr(0) != 0 then requested.value else usual;
            var bound := if own < 0 then 0 else if own < hard then own else hard;
            && |end.sent| <= bound
            && ((forall i :: llm(i).Some? && llm(i).value.calls != []) ==> end.truncated && |end.sent| == bound)
  {
    var maxIter := MaxIterations(requested, usual, hard);
    RunAccounting(system, history, prompt, maxIter, llm, exec);
    RepliesBounded(0, maxIter, llm);
  }

  lemma {:induction false} RepliesBounded(i: nat, maxIter: int, llm: Llm)
    ensures var rs := Replies(i, maxIter, llm);
            && |rs| <= (if i >= maxIter then 0 else maxIter - i)
            && ((forall k :: llm(k).Some? && llm(k).value.calls != []) ==>
                  AllCall(rs) && |rs| == if i >= maxIter then 0 else maxIter - i)
    decreases maxIter - i
  {
    if i < maxIter && llm(i).Some? && llm(i).value.calls != [] {
      RepliesBounded(i + 1, maxIter, llm);
      AllCallTail(llm(i).value, Replies(i + 1, maxIter, llm));
    }
  }

  // ------------------------------------------------------------------ what is recorded and sent

  // What a reader of a tool message makes of it.
  function ReadContent(body: Json): Option<ExecResult> {
    if !body.Obj? || "ok" !in body.fields then None
    else if body.fields["ok"] == Bool(true) && "result" in body.fields then Some(Registry.Ok(body.fields["result"]))
    else if "error_kind" in body.fields && "error" in body.fields then
      var kind, error := body.fields["error_kind"], body.fields["error"];
      if kind.Str? && error.Str? then Some(Registry.Error(kind.s, error.s)) else None
    else None
  }

  // The message that answers a call, and the step that records it, tell its result.
  ghost predicate Tells(m: Msg, s: Step, call: Call, r: ExecResult) {
    && m.ToolMsg? && m.callId == call.id.GetOr("") && m.name == call.name && ReadContent(m.body) == Some(r)
    && s.ToolStep? && s.callId == call.id && s.name == call.name && s.args == call.args
    && (match r
        case Ok(result) => s.ok && s.result == result && s.error == None
        case Error(_, message) => !s.ok && s.result == Null && s.error == Some(message))
  }

  ghost predicate Speaks(m: Msg, s: Step, r: Reply) {
    && m == Ai(r.content, r.calls)
    && s.AiStep? && s.content == (match r.content case Text(text) => Some(text) case Blocks(_) => None)
    && s.calls == if r.calls == [] then None else Some(r.calls)
  }

  lemma OneTells(call: Call, r: ExecResult, n: nat)
    ensures Tells(ToolMsg(ToToolContent(r), IdOf(call), call.name), ToolStepOf(n, call, r), call, r)
  {
  }

  lemma {:induction false} AnswersTell(calls: seq<Call>, i: nat, j: nat, exec: Exec, n: nat, k: nat)
    requires k < |calls|
    ensures var ms, steps := Answers(calls, i, j, exec), AnswerSteps(calls, i, j, exec, n);
            |ms| == |steps| == |calls| && Tells(ms[k], steps[k], calls[k], exec(i, j + k, calls[k]))
    decreases calls
  {
    AnswersFit(calls, i, j, exec);
    AnswerStepsNumbered(calls, i, j, exec, n);
    if k == 0 {
      OneTells(calls[0], exec(i, j, calls[0]), n + 1);
    } else {
      AnswersTell(calls[1..], i, j + 1, exec, n + 1, k - 1);
    }
  }

  // A reply opens the conversation and the trace, and the answers to its calls follow it in both.
  ghost predicate TurnTold(ms: seq<Msg>, steps: seq<Step>, r: Reply, i: nat, exec: Exec) {
    && |r.calls| < |ms| == |steps|
    && Speaks(ms[0], steps[0], r)
    && forall j :: 0 <= j < |r.calls| ==> Tells(ms[1 + j], steps[1 + j], r.calls[j], exec(i, j, r.calls[j]))
  }

  // They are made of such turns, one for each reply, and of nothing else.
  ghost predicate Told(rs: seq<Reply>, ms: seq<Msg>, steps: seq<Step>, i: nat, exec: Exec)
    decreases rs
  {
    if rs == [] then ms == [] && steps == []
    else
      var n := 1 + |rs[0].calls|;
      TurnTold(ms, steps, rs[0], i, exec) && Told(rs[1..], ms[n..], steps[n..], i + 1, exec)
  }

  lemma {:induction false} FirstTold(r: Reply, i: nat, exec: Exec, n: nat, ms: seq<Msg>, steps: seq<Step>)
    requires |ms| == |steps|
    ensures var turn, own := [Ai(r.content, r.calls)] + Answers(r.calls, i, 0, exec),
                             [AiStepOf(n + 1, r)] + AnswerSteps(r.calls, i, 0, exec, n + 1);
            && TurnTold(turn + ms, own + steps, r, i, exec)
            && |turn| == |own| == 1 + |r.calls|
  {
    var answers, records := Answers(r.calls, i, 0, exec), AnswerSteps(r.calls, i, 0, exec, n + 1);
    var turn, own := [Ai(r.content, r.calls)] + answers, [AiStepOf(n + 1, r)] + records;
    AnswersFit(r.calls, i, 0, exec);
    AnswerStepsNumbered(r.calls, i, 0, exec, n + 1);
    forall j | 0 <= j < |r.calls|
      ensures Tells((turn + ms)[1 + j], (own + steps)[1 + j], r.calls[j], exec(i, j, r.calls[j]))
    {
      AnswersTell(r.calls, i, 0, exec, n + 1, j);
      assert (turn + ms)[1 + j] == answers[j] && (own + steps)[1 + j] == records[j];
    }
  }

  lemma {:induction false} PrependTold(rs: seq<Reply>, turn: seq<Msg>, own: seq<Step>, ms: seq<Msg>, steps: seq<Step>,
                                       i: nat, exec: Exec)
    requires rs != [] && |turn| == |own| == 1 + |rs[0].calls|
    requires TurnTold(turn + ms, own + steps, rs[0], i, exec) && Told(rs[1..], ms, steps, i + 1, exec)
    ensures Told(rs, turn + ms, own + steps, i, exec)
  {
    DropPrefix(turn, ms);
    DropPrefix(own, steps);
  }

  lemma {:induction false} TurnThenTold(rs: seq<Reply>, i: nat, exec: Exec, n: nat, ms: seq<Msg>, steps: seq<Step>)
    requires rs != [] && |ms| == |steps| && Told(rs[1..], ms, steps, i + 1, exec)
    ensures var r := rs[0];
            var turn, own := [Ai(r.content, r.calls)] + Answers(r.calls, i, 0, exec),
                             [AiStepOf(n + 1, r)] + AnswerSteps(r.calls, i, 0, exec, n + 1);
            |turn| == |own| && Told(rs, turn + ms, own + steps, i, exec)
  {
    var r := rs[0];
    FirstTold(r, i, exec, n, ms, steps);
    PrependTold(rs, [Ai(r.content, r.calls)] + Answers(r.calls, i, 0, exec),
                [AiStepOf(n + 1, r)] + AnswerSteps(r.calls, i, 0, exec, n + 1), ms, steps, i, exec);
  }

  lemma {:induction false} TranscriptTold(rs: seq<Reply>, i: nat, exec: Exec, n: nat)
    returns (ms: seq<Msg>, steps: seq<Step>)
    ensures ms == Transcript(rs, i, exec) && steps == TranscriptSteps(rs, i, exec, n) && |ms| == |steps|
    ensures Told(rs, ms, steps, i, exec)
    decreases rs
  {
    ms, steps := [], [];
    if rs != [] {
      var r := rs[0];
      ms, steps := TranscriptTold(rs[1..], i + 1, exec, n + 1 + |r.calls|);
      TurnThenTold(rs, i, exec, n, ms, steps);
      ms := [Ai(r.content, r.calls)] + Answers(r.calls, i, 0, exec) + ms;
      steps := [AiStepOf(n + 1, r)] + AnswerSteps(r.calls, i, 0, exec, n + 1) + steps;
    }
  }

  lemma RunSays(system: string, history: seq<Hist>, prompt: string, maxIter: int, llm: Llm, exec: Exec)
    ensures var end, rs := Execute(system, history, prompt, maxIter, llm, exec), Replies(0, maxIter, llm);
            && end.messages == Seed(system, history, prompt) + Transcript(rs, 0, exec)
            && end.trace.steps == TranscriptSteps(rs, 0, exec, 0)
  {
    LoopTranscript(Start(Seed(system, history, prompt)), maxIter, llm, exec);
  }

  // What a run says after its seed, and what it records: for each reply it consumes the reply itself,
  // and for each of its calls the answer and the step that tell its result.
  lemma RunTells(system: string, history: seq<Hist>, prompt: string, maxIter: int, llm: Llm, exec: Exec)
    ensures var end, seed := Execute(system, history, prompt, maxIter, llm, exec), Seed(system, history, prompt);
            && seed <= end.messages
            && Told(Replies(0, maxIter, llm), end.messages[|seed|..], end.trace.steps, 0, exec)
  {
    var rs := Replies(0, maxIter, llm);
    RunSays(system, history, prompt, maxIter, llm, exec);
    DropPrefix(Seed(system, history, prompt), Transcript(rs, 0, exec));
    var _, _ := TranscriptTold(rs, 0, exec, 0);
  }

  lemma DropPrefix<T>(a: seq<T>, b: seq<T>)
    ensures a <= a + b && (a + b)[|a|..] == b
  {
  }

  // The later invocations are sent the messages so far, the first replies and their answers.
  ghost predicate Sends(st: RunState, rs: seq<Reply>, end: RunState, exec: Exec) {
    && st.sent <= end.sent && |end.sent| - |st.sent| <= |rs| + 1
    && forall m :: 0 <= m < |end.sent| - |st.sent| ==>
         end.sent[|st.sent| + m] == st.messages + Transcript(rs[..m], st.iterations, exec)
  }

  lemma {:induction false} FirstSends(st: RunState, rs: seq<Reply>, end: RunState, exec: Exec)
    requires end.sent == st.sent || end.sent == st.sent + [st.messages]
    ensures Sends(st, rs, end, exec)
  {
    assert rs[..0] == [] && st.messages + Transcript([], st.iterations, exec) == st.messages;
  }

  lemma {:induction false} PrependSends(st: RunState, r: Reply, rest: seq<Reply>, next: RunState, end: RunState,
                                        exec: Exec)
    requires next.iterations == st.iterations + 1 && next.sent == st.sent + [st.messages]
    requires next.messages == st.messages + ([Ai(r.content, r.calls)] + Answers(r.calls, st.iterations, 0, exec))
    requires Sends(next, rest, end, exec)
    ensures Sends(st, [r] + rest, end, exec)
  {
    var rs := [r] + rest;
    forall m | 0 <= m < |end.sent| - |st.sent|
      ensures end.sent[|st.sent| + m] == st.messages + Transcript(rs[..m], st.iterations, exec)
    {
      if m == 0 {
        assert st.messages + Transcript([], st.iterations, exec) == st.messages;
        assert end.sent[|st.sent|] == next.sent[|st.sent|];
      } else {
        assert end.sent[|next.sent| + (m - 1)] == next.messages + Transcript(rest[..m - 1], next.iterations, exec);
        PrependTurn(st.messages, r, rest[..m - 1], st.iterations, exec);
        assert rs[..m] == [r] + rest[..m - 1];
      }
    }
  }

  lemma {:induction false} LoopSends(st: RunState, maxIter: int, llm: Llm, exec: Exec)
    ensures Sends(st, Replies(st.iterations, maxIter, llm), Loop(st, maxIter, llm, exec), exec)
    decreases maxIter - st.iterations
  {
    var i, end := st.iterations, Loop(st, maxIter, llm, exec);
    LoopCases(st, maxIter, llm, exec);
    if i < maxIter && llm(i).Some? && llm(i).value.calls != [] {
      var r := llm(i).value;
      var next := Called(st, r, exec);
      CalledSpec(st, r, exec);
      LoopSends(next, maxIter, llm, exec);
      PrependSends(st, r, Replies(i + 1, maxIter, llm), next, end, exec);
    } else {
      FirstSends(st, Replies(i, maxIter, llm), end, exec);
    }
  }

  // Every invocation of a run is sent the seed, the replies so far and the answers to their calls.
  lemma RunSends(system: string, history: seq<Hist>, prompt: string, maxIter: int, llm: Llm, exec: Exec, m: nat)
    ensures var end, rs := Execute(system, history, prompt, maxIter, llm, exec), Replies(0, maxIter, llm);
            m < |end.sent| ==>
              m <= |rs| && end.sent[m] == Seed(system, history, prompt) + Transcript(rs[..m], 0, exec)
  {
    LoopSends(Start(Seed(system, history, prompt)), maxIter, llm, exec);
  }

  // ------------------------------------------------------------------ the conversation protocol

  predicate AnsweredBy(calls: seq<Call>, ms: seq<Msg>) {
    && |calls| <= |ms|
    && forall j :: 0 <= j < |calls| ==>
         ms[j].ToolMsg? && ms[j].callId == calls[j].id.GetOr("") && ms[j].name == calls[j].name && ms[j].body.Obj?
  }

  // A conversation opens well when its first message is no stray answer and has its own answers.
  predicate Opens(ms: seq<Msg>)
    requires ms != []
  {
    if ms[0].Ai? then AnsweredBy(ms[0].calls, ms[1..]) else !ms[0].ToolMsg?
  }

  // What is left after the first message and its answers.
  function Rest(ms: seq<Msg>): seq<Msg>
    requires ms != [] && Opens(ms)
  {
    if ms[0].Ai? then ms[1 + |ms[0].calls|..] else ms[1..]
  }

  // Each assistant message is followed at once by the answers to its calls, in order, and there
  // are no other tool messages.
  predicate Protocol(ms: seq<Msg>)
    decreases |ms|
  {
    ms == [] || (Opens(ms) && Protocol(Rest(ms)))
  }

  lemma {:induction false} OpensConcat(a: seq<Msg>, b: seq<Msg>)
    requires a != [] && Opens(a)
    ensures Opens(a + b) && Rest(a + b) == Rest(a) + b
  {
    assert (a + b)[0] == a[0] && (a + b)[1..] == a[1..] + b;
    if a[0].Ai? { AnsweredPrefix(a[0].calls, a[1..], b); }
  }

  lemma {:induction false} ProtocolConcat(a: seq<Msg>, b: seq<Msg>)
    requires Protocol(a) && Protocol(b)
    ensures Protocol(a + b)
    decreases |a|
  {
    if a == [] {
      assert a + b == b;
    } else {
      OpensConcat(a, b);
      ProtocolConcat(Rest(a), b);
    }
  }

  lemma {:induction false} AnsweredPrefix(calls: seq<Call>, a: seq<Msg>, b: seq<Msg>)
    requires AnsweredBy(calls, a)
    ensures AnsweredBy(calls, a + b)
  {
  }

  lemma {:induction false} AnswersAreTools(ms: seq<Msg>, m: nat)
    requires ms != [] && Opens(ms) && 1 <= m < |ms| - |Rest(ms)|
    ensures ms[m].ToolMsg?
  {
    assert ms[1..][m - 1] == ms[m];
  }

  // An assistant message at p is followed at once by exactly the answers to its calls.
  predicate AnsweredAt(ms: seq<Msg>, p: nat)
    requires p < |ms|
  {
    ms[p].Ai? ==>
      var next := p + 1 + |ms[p].calls|;
      AnsweredBy(ms[p].calls, ms[p + 1..]) && (next < |ms| ==> !ms[next].ToolMsg?)
  }

  lemma {:induction false} AnsweredShift(ms: seq<Msg>, k: nat, p: nat)
    requires k <= p < |ms| && AnsweredAt(ms[k..], p - k)
    ensures AnsweredAt(ms, p)
  {
    assert ms[k..][p - k] == ms[p] && ms[k..][p - k + 1..] == ms[p + 1..];
    var next := p + 1 + if ms[p].Ai? then |ms[p].calls| else 0;
    if next < |ms| { assert ms[k..][next - k] == ms[next]; }
  }

  // The first message and its k - 1 answers, and the conversation that follows them.
  lemma {:induction false} FirstTurn(ms: seq<Msg>) returns (k: nat)
    requires Protocol(ms) && ms != []
    ensures 0 < k <= |ms| && Protocol(ms[k..]) && AnsweredAt(ms, 0)
    ensures forall m :: 1 <= m < k ==> AnsweredAt(ms, m)
  {
    var rest := Rest(ms);
    k := |ms| - |rest|;
    assert rest == ms[k..];
    if ms[0].Ai? && rest != [] { assert rest[0] == ms[1 + |ms[0].calls|]; }
    forall m | 1 <= m < k ensures AnsweredAt(ms, m) { AnswersAreTools(ms, m); }
  }

  // What the protocol says at any position of the conversation.
  lemma {:induction false} ProtocolAt(ms: seq<Msg>, p: nat)
    requires Protocol(ms) && p < |ms|
    ensures AnsweredAt(ms, p)
    decreases |ms|
  {
    var k := FirstTurn(ms);
    if k <= p {
      ProtocolAt(ms[k..], p - k);
      AnsweredShift(ms, k, p);
    }
  }

  lemma {:induction false} AnswersFit(calls: seq<Call>, i: nat, j: nat, exec: Exec)
    ensures |Answers(calls, i, j, exec)| == |calls| && AnsweredBy(calls, Answers(calls, i, j, exec))
    decreases calls
  {
    if calls != [] { AnswersFit(calls[1..], i, j + 1, exec); }
  }

  lemma TurnProtocol(r: Reply, i: nat, exec: Exec)
    ensures Protocol([Ai(r.content, r.calls)] + Answers(r.calls, i, 0, exec))
  {
    var answers := Answers(r.calls, i, 0, exec);
    var ms := [Ai(r.content, r.calls)] + answers;
    AnswersFit(r.calls, i, 0, exec);
    assert ms[1..] == answers && ms[1 + |r.calls|..] == [];
  }

  lemma {:induction false} TranscriptProtocol(rs: seq<Reply>, i: nat, exec: Exec)
    ensures Protocol(Transcript(rs, i, exec))
    decreases rs
  {
    if rs != [] {
      TurnProtocol(rs[0], i, exec);
      TranscriptProtocol(rs[1..], i + 1, exec);
      var first := [Ai(rs[0].content, rs[0].calls)] + Answers(rs[0].calls, i, 0, exec);
      ProtocolConcat(first, Transcript(rs[1..], i + 1, exec));
    }
  }

  ghost predicate AllProtocol(conversations: seq<seq<Msg>>) {
    forall ms :: ms in conversations ==> Protocol(ms)
  }

  lemma {:induction false} LoopProtocol(st: RunState, maxIter: int, llm: Llm, exec: Exec)
    requires Protocol(st.messages) && AllProtocol(st.sent)
    ensures AllProtocol(Loop(st, maxIter, llm, exec).sent)
    decreases maxIter - st.iterations
  {
    var i := st.iterations;
    LoopCases(st, maxIter, llm, exec);
    if i < maxIter && llm(i).Some? && llm(i).value.calls != [] {
      var r := llm(i).value;
      CalledSpec(st, r, exec);
      TurnProtocol(r, i, exec);
      ProtocolConcat(st.messages, [Ai(r.content, r.calls)] + Answers(r.calls, i, 0, exec));
      LoopProtocol(Called(st, r, exec), maxIter, llm, exec);
    }
  }

  // ------------------------------------------------------------------ replay

  // What replaying may change in a message: block content and absent call ids become empty texts,
  // the body of a failed call loses its error kind, and numbers are as the page has them.
  function NormalBody(body: Json, page: Page): Json {
    Reread(if FailedBody(body) then Obj(body.fields - {"error_kind"}) else body, page)
  }

  predicate FailedBody(body: Json) {
    body.Obj? && "ok" in body.fields && body.fields["ok"] == Bool(false)
  }

  function NormalMsg(m: Msg, page: Page): Msg {
    match m
    case Ai(content, calls) => Ai(Text(TextOf(content).GetOr("")), RereadCalls(calls, page))
    case ToolMsg(body, callId, name) => ToolMsg(NormalBody(body, page), callId, name)
    case _ => m
  }

  function NormalAll(ms: seq<Msg>, page: Page): seq<Msg> {
    seq(|ms|, i requires 0 <= i < |ms| => NormalMsg(ms[i], page))
  }

  lemma NormalConcat(a: seq<Msg>, b: seq<Msg>, page: Page)
    ensures NormalAll(a + b, page) == NormalAll(a, page) + NormalAll(b, page)
  {
  }

  // The messages the next run makes of recorded steps.
  function Replay(steps: seq<Step>, page: Page): seq<Msg> {
    seq(|steps|, i requires 0 <= i < |steps| => SeedOf(HistOf(steps[i], page)))
  }

  lemma ReplayAi(n: nat, r: Reply, page: Page)
    ensures SeedOf(HistOf(AiStepOf(n, r), page)) == NormalMsg(Ai(r.content, r.calls), page)
  {
    var tcs := RereadCalls(r.calls, page);
    assert WithIds(tcs) == tcs && |tcs| == |r.calls|;
    if r.calls == [] { assert RereadCalls([], page) == [] && WithIds([]) == []; }
  }

  lemma ReplayTool(n: nat, call: Call, r: ExecResult, page: Page)
    ensures SeedOf(HistOf(ToolStepOf(n, call, r), page))
            == NormalMsg(ToolMsg(ToToolContent(r), IdOf(call), call.name), page)
  {
    var body := ToToolContent(r);
    if r.Error? {
      assert body.fields["ok"] == Bool(false);
      assert body.fields - {"error_kind"} == map["ok" := Bool(false), "error" := Str(r.message)];
      RereadPair("ok", Bool(false), "error", Str(r.message), page);
    } else {
      assert body.fields["ok"] == Bool(true);
      RereadPair("ok", Bool(true), "result", r.result, page);
    }
  }

  lemma {:induction false} RereadPair(k: string, v: Json, l: string, u: Json, page: Page)
    requires k != l
    ensures Reread(Obj(map[k := v, l := u]), page) == Obj(map[k := Reread(v, page), l := Reread(u, page)])
  {
    assert Reread(Obj(map[k := v, l := u]), page).fields.Keys == {k, l};
  }

  lemma {:induction false} ReplayAnswers(calls: seq<Call>, i: nat, j: nat, exec: Exec, n: nat, page: Page)
    ensures Replay(AnswerSteps(calls, i, j, exec, n), page) == NormalAll(Answers(calls, i, j, exec), page)
    decreases calls
  {
    if calls != [] {
      var r := exec(i, j, calls[0]);
      ReplayTool(n + 1, calls[0], r, page);
      ReplayAnswers(calls[1..], i, j + 1, exec, n + 1, page);
      ReplayConcat([ToolStepOf(n + 1, calls[0], r)], AnswerSteps(calls[1..], i, j + 1, exec, n + 1), page);
      NormalConcat([ToolMsg(ToToolContent(r), IdOf(calls[0]), calls[0].name)], Answers(calls[1..], i, j + 1, exec),
                   page);
    }
  }

  lemma ReplayConcat(a: seq<Step>, b: seq<Step>, page: Page)
    ensures Replay(a + b, page) == Replay(a, page) + Replay(b, page)
  {
  }

  lemma {:induction false} ReplayTranscript(rs: seq<Reply>, i: nat, exec: Exec, n: nat, page: Page)
    ensures Replay(TranscriptSteps(rs, i, exec, n), page) == NormalAll(Transcript(rs, i, exec), page)
    decreases rs
  {
    if rs != [] {
      var r, m := rs[0], n + 1 + |rs[0].calls|;
      var first := [AiStepOf(n + 1, r)] + AnswerSteps(r.calls, i, 0, exec, n + 1);
      var turn := [Ai(r.content, r.calls)] + Answers(r.calls, i, 0, exec);
      ReplayTurn(r, i, exec, n, page);
      ReplayTranscript(rs[1..], i + 1, exec, m, page);
      ReplayConcat(first, TranscriptSteps(rs[1..], i + 1, exec, m), page);
      NormalConcat(turn, Transcript(rs[1..], i + 1, exec), page);
    }
  }

  lemma ReplayTurn(r: Reply, i: nat, exec: Exec, n: nat, page: Page)
    ensures Replay([AiStepOf(n + 1, r)] + AnswerSteps(r.calls, i, 0, exec, n + 1), page)
         == NormalAll([Ai(r.content, r.calls)] + Answers(r.calls, i, 0, exec), page)
  {
    ReplayAi(n + 1, r, page);
    ReplayAnswers(r.calls, i, 0, exec, n + 1, page);
    ReplayConcat([AiStepOf(n + 1, r)], AnswerSteps(r.calls, i, 0, exec, n + 1), page);
    NormalConcat([Ai(r.content, r.calls)], Answers(r.calls, i, 0, exec), page);
  }

  lemma {:induction false} SeedConcat(a: seq<Hist>, h: Hist)
    ensures SeedBody(a + [h]) == SeedBody(a) + [SeedOf(h)]
  {
    if a == [] {
      assert a + [h] == [h] && [h][1..] == [];
    } else {
      assert (a + [h])[1..] == a[1..] + [h];
      SeedConcat(a[1..], h);
    }
  }

  lemma {:induction false} SeedPushSteps(history: seq<Hist>, steps: seq<Step>, page: Page)
    ensures SeedBody(PushSteps(history, steps, page)) == SeedBody(history) + Replay(steps, page)
    decreases steps
  {
    if steps != [] {
      SeedConcat(history, HistOf(steps[0], page));
      SeedPushSteps(history + [HistOf(steps[0], page)], steps[1..], page);
      assert Replay(steps, page) == [SeedOf(HistOf(steps[0], page))] + Replay(steps[1..], page);
    }
  }

  // One turn of the page: what the user sends, and whether the response arrived.
  datatype Turn = Turn(system: string, prompt: string, maxIter: int, llm: Llm, exec: Exec, delivered: bool)

  function Outcome(history: seq<Hist>, t: Turn): RunState {
    Execute(t.system, history, t.prompt, t.maxIter, t.llm, t.exec)
  }

  function Converse(history: seq<Hist>, turns: seq<Turn>, page: Page): seq<Hist>
    decreases turns
  {
    if turns == [] then history
    else Converse(if turns[0].delivered
                  then PushTurn(history, turns[0].prompt, Outcome(history, turns[0]).trace.steps, page)
                  else history, turns[1..], page)
  }

  // Everything any LLM invocation of any turn is sent.
  function SentIn(history: seq<Hist>, turns: seq<Turn>, page: Page): seq<seq<Msg>>
    decreases turns
  {
    if turns == [] then []
    else Outcome(history, turns[0]).sent + SentIn(Converse(history, turns[..1], page), turns[1..], page)
  }

  // What a turn adds to the conversation: the prompt, and the replies with their answers.
  function Said(t: Turn): seq<Msg> {
    [Human(t.prompt)] + Transcript(Replies(0, t.maxIter, t.llm), 0, t.exec)
  }

  function SaidFirst(turns: seq<Turn>): seq<Msg>
    requires turns != []
  {
    if turns[0].delivered then Said(turns[0]) else []
  }

  function SaidIn(turns: seq<Turn>): seq<Msg> {
    if turns == [] then [] else SaidFirst(turns) + SaidIn(turns[1..])
  }

  // A run speaks its seed, then what its turn says.
  lemma TurnSpeaks(history: seq<Hist>, t: Turn)
    ensures Outcome(history, t).messages == [System(t.system)] + SeedBody(history) + Said(t)
    ensures Outcome(history, t).trace.steps == TranscriptSteps(Replies(0, t.maxIter, t.llm), 0, t.exec, 0)
  {
    var start := Start(Seed(t.system, history, t.prompt));
    var rs := Replies(0, t.maxIter, t.llm);
    LoopTranscript(start, t.maxIter, t.llm, t.exec);
    Reassociate([System(t.system)] + SeedBody(history), [Human(t.prompt)], Transcript(rs, 0, t.exec));
  }

  // Feeding a turn's trace back through the history gives the next run the same non-system
  // messages, normalised.
  lemma TurnReplays(history: seq<Hist>, t: Turn, page: Page)
    ensures SeedBody(PushTurn(history, t.prompt, Outcome(history, t).trace.steps, page))
            == SeedBody(history) + NormalAll(Said(t), page)
  {
    var rs := Replies(0, t.maxIter, t.llm);
    var steps := TranscriptSteps(rs, 0, t.exec, 0);
    TurnSpeaks(history, t);
    SeedConcat(history, UserH(t.prompt));
    SeedPushSteps(history + [UserH(t.prompt)], steps, page);
    ReplayTranscript(rs, 0, t.exec, 0, page);
    NormalConcat([Human(t.prompt)], Transcript(rs, 0, t.exec), page);
    assert NormalAll([Human(t.prompt)], page) == [Human(t.prompt)];
    Reassociate(SeedBody(history), [Human(t.prompt)], Replay(steps, page));
  }

  lemma {:induction false} ConverseHead(history: seq<Hist>, turns: seq<Turn>, page: Page)
    requires turns != []
    ensures Converse(history, turns, page) == Converse(Converse(history, turns[..1], page), turns[1..], page)
    ensures SeedBody(Converse(history, turns[..1], page))
         == SeedBody(history) + if turns[0].delivered then NormalAll(Said(turns[0]), page) else []
  {
    var one := turns[..1];
    assert one[1..] == [] && one[0] == turns[0];
    TurnReplays(history, turns[0], page);
  }

  // Replay fidelity over any number of turns: the next run is seeded with exactly what was said in
  // the delivered turns, normalised.
  lemma {:induction false} ReplayFidelity(history: seq<Hist>, turns: seq<Turn>, page: Page)
    ensures SeedBody(Converse(history, turns, page)) == SeedBody(history) + NormalAll(SaidIn(turns), page)
    decreases turns
  {
    if turns == [] {
      assert NormalAll(SaidIn(turns), page) == [];
    } else {
      ConverseHead(history, turns, page);
      ReplayFidelity(Converse(history, turns[..1], page), turns[1..], page);
      FidelityStep(SeedBody(history), turns, page);
    }
  }

  lemma {:induction false} FidelityStep(before: seq<Msg>, turns: seq<Turn>, page: Page)
    requires turns != []
    ensures (before + if turns[0].delivered then NormalAll(Said(turns[0]), page) else [])
            + NormalAll(SaidIn(turns[1..]), page)
         == before + NormalAll(SaidIn(turns), page)
  {
    NormalConcat(SaidFirst(turns), SaidIn(turns[1..]), page);
    Reassociate(before, NormalAll(SaidFirst(turns), page), NormalAll(SaidIn(turns[1..]), page));
    assert NormalAll([], page) == [];
  }

  // The page keeps every number of the value.
  predicate Steady(v: Json, page: Page) {
    match v
    case Num(n) => page(n) == v
    case Arr(elems) => forall i :: 0 <= i < |elems| ==> Steady(elems[i], page)
    case Obj(fields) => forall k :: k in fields ==> Steady(fields[k], page)
    case _ => true
  }

  lemma {:induction false} RereadSteady(v: Json, page: Page)
    ensures Reread(v, page) == v <==> Steady(v, page)
  {
    match v
    case Arr(elems) =>
      forall i | 0 <= i < |elems| ensures Reread(v, page).elems[i] == elems[i] <==> Steady(elems[i], page) {
        RereadSteady(elems[i], page);
      }
    case Obj(fields) =>
      assert Reread(v, page).fields.Keys == fields.Keys;
      forall k | k in fields ensures Reread(v, page).fields[k] == fields[k] <==> Steady(fields[k], page) {
        RereadSteady(fields[k], page);
      }
    case _ =>
  }

  predicate SteadyCall(call: Call, page: Page) {
    call.id.Some? && forall k :: k in call.args ==> Steady(call.args[k], page)
  }

  lemma RereadSteadyCall(call: Call, page: Page)
    ensures RereadCall(call, page) == call <==> SteadyCall(call, page)
  {
    var args := RereadCall(call, page).args;
    assert args.Keys == call.args.Keys;
    forall k | k in args ensures args[k] == call.args[k] <==> Steady(call.args[k], page) {
      RereadSteady(call.args[k], page);
    }
  }

  // A message survives replay unchanged exactly when its content is text, its calls have ids, it
  // reports no failure that names an error kind, and the page keeps all its numbers.
  predicate Pristine(m: Msg, page: Page) {
    match m
    case Ai(content, calls) => content.Text? && forall i :: 0 <= i < |calls| ==> SteadyCall(calls[i], page)
    case ToolMsg(body, _, _) => !(FailedBody(body) && "error_kind" in body.fields) && Steady(body, page)
    case _ => true
  }

  lemma PristineIff(m: Msg, page: Page)
    ensures NormalMsg(m, page) == m <==> Pristine(m, page)
  {
    match m
    case Ai(content, calls) =>
      forall i | 0 <= i < |calls| ensures RereadCalls(calls, page)[i] == calls[i] <==> SteadyCall(calls[i], page) {
        RereadSteadyCall(calls[i], page);
      }
    case ToolMsg(body, _, _) => PristineBodyIff(body, page);
    case _ =>
  }

  lemma PristineBodyIff(body: Json, page: Page)
    ensures NormalBody(body, page) == body <==> !(FailedBody(body) && "error_kind" in body.fields) && Steady(body, page)
  {
    RereadSteady(body, page);
    if FailedBody(body) && "error_kind" in body.fields {
      assert "error_kind" !in NormalBody(body, page).fields;
    } else if FailedBody(body) {
      assert body.fields - {"error_kind"} == body.fields;
    }
  }

  lemma ReplayExactIff(turns: seq<Turn>, page: Page)
    ensures SeedBody(Converse([], turns, page)) == SaidIn(turns) <==>
            forall i :: 0 <= i < |SaidIn(turns)| ==> Pristine(SaidIn(turns)[i], page)
  {
    ReplayFidelity([], turns, page);
    var said := SaidIn(turns);
    assert [] + NormalAll(said, page) == NormalAll(said, page);
    forall i | 0 <= i < |said| ensures NormalAll(said, page)[i] == said[i] <==> Pristine(said[i], page) {
      PristineIff(said[i], page);
    }
  }

  lemma {:induction false} NormalProtocol(ms: seq<Msg>, page: Page)
    requires Protocol(ms)
    ensures Protocol(NormalAll(ms, page))
    decreases |ms|
  {
    if ms != [] {
      NormalOpens(ms, page);
      NormalProtocol(Rest(ms), page);
    }
  }

  lemma {:induction false} NormalOpens(ms: seq<Msg>, page: Page)
    requires ms != [] && Opens(ms)
    ensures Opens(NormalAll(ms, page)) && Rest(NormalAll(ms, page)) == NormalAll(Rest(ms), page)
  {
    assert NormalAll(ms, page)[1..] == NormalAll(ms[1..], page);
    if ms[0].Ai? {
      NormalAnswered(ms[0].calls, ms[1..], page);
      assert NormalAll(ms, page)[1 + |ms[0].calls|..] == NormalAll(ms[1 + |ms[0].calls|..], page);
    }
  }

  lemma {:induction false} NormalAnswered(calls: seq<Call>, ms: seq<Msg>, page: Page)
    requires AnsweredBy(calls, ms)
    ensures AnsweredBy(RereadCalls(calls, page), NormalAll(ms, page))
  {
    forall j | 0 <= j < |calls|
      ensures NormalAll(ms, page)[j].ToolMsg? && NormalAll(ms, page)[j].callId == IdOf(RereadCalls(calls, page)[j])
              && NormalAll(ms, page)[j].name == RereadCalls(calls, page)[j].name && NormalAll(ms, page)[j].body.Obj?
    {
      assert ms[j].callId == IdOf(calls[j]);
    }
  }

  lemma SaidProtocol(t: Turn, page: Page)
    ensures Protocol(Said(t)) && Protocol(NormalAll(Said(t), page))
  {
    TranscriptProtocol(Replies(0, t.maxIter, t.llm), 0, t.exec);
    assert Said(t)[1..] == Transcript(Replies(0, t.maxIter, t.llm), 0, t.exec);
    NormalProtocol(Said(t), page);
  }

  // At every LLM invocation of every turn, whatever the LLM and the tools do and however turns end,
  // the conversation sent follows the protocol.
  lemma {:induction false} ConversationProtocol(history: seq<Hist>, turns: seq<Turn>, page: Page)
    requires Protocol(SeedBody(history))
    ensures AllProtocol(SentIn(history, turns, page))
    decreases turns
  {
    if turns != [] {
      var t := turns[0];
      SeedProtocol(t.system, history, t.prompt);
      LoopProtocol(Start(Seed(t.system, history, t.prompt)), t.maxIter, t.llm, t.exec);
      ConverseHead(history, turns, page);
      SaidProtocol(t, page);
      if t.delivered { ProtocolConcat(SeedBody(history), NormalAll(Said(t), page)); } else {
        assert SeedBody(history) + [] == SeedBody(history);
      }
      ConversationProtocol(Converse(history, turns[..1], page), turns[1..], page);
    }
  }

  lemma {:induction false} SeedProtocol(system: string, history: seq<Hist>, prompt: string)
    requires Protocol(SeedBody(history))
    ensures Protocol(Seed(system, history, prompt))
  {
    var first, last: seq<Msg> := [System(system)], [Human(prompt)];
    assert first[1..] == [] && last[1..] == [];
    ProtocolConcat(first, SeedBody(history));
    ProtocolConcat(first + SeedBody(history), last);
  }
}
