/**
 libs/core/memory.py and its callers in apps/api/api.py: the per-thread chat log, trimmed to a
 window when it is fetched and appended to, one (user, assistant) pair at a time, when a request
 finishes.
 */
module ChatMemory {
  import opened Wrappers

  datatype Msg = User(text: string) | Assistant(text: string)

  // Python's `ms[-n:]`.
  function LastPart(ms: seq<Msg>, n: int): seq<Msg> {
    if n > 0 then (if n <= |ms| then ms[|ms| - n..] else ms)
    else if -n <= |ms| then ms[-n..]
    else []
  }

  function Trim(ms: seq<Msg>, window: int): seq<Msg> {
    if |ms| > window then LastPart(ms, window) else ms
  }

  function Pair(user: string, assistant: string): seq<Msg> {
    [User(user), Assistant(assistant)]
  }

  // ------------------------------------------------------------------ the manager

  class History {
    var messages: seq<Msg>

    constructor ()
      ensures messages == []
    {
      messages := [];
    }

    // The two additions of a request; nothing else runs between them.
    method AddPair(user: string, assistant: string)
      modifies this
      ensures messages == old(messages) + Pair(user, assistant)
    {
      messages := messages + [User(user)];
      messages := messages + [Assistant(assistant)];
    }
  }

  class MemoryManager {
    const window: int
    var histories: map<string, History>

    constructor (window: int)
      ensures this.window == window && histories == map[] && Valid()
    {
      this.window := window;
      histories := map[];
    }

    // No two threads share a history.
    ghost predicate Valid()
      reads this
    {
      forall a, b :: a in histories && b in histories && a != b ==> histories[a] != histories[b]
    }

    function Log(thread: string): seq<Msg>
      reads this, if thread in histories then {histories[thread]} else {}
    {
      if thread in histories then histories[thread].messages else []
    }

    method GetThreadHistory(thread: string) returns (h: History)
      requires Valid()
      modifies this, if thread in histories then {histories[thread]} else {}
      ensures Valid() && histories == old(histories)[thread := h]
      ensures thread in old(histories) ==> h == old(histories[thread])
      ensures thread !in old(histories) ==> fresh(h)
      ensures h.messages == Trim(old(Log(thread)), window)
    {
      if thread !in histories {
        var created := new History();
        histories := histories[thread := created];
      }
      h := histories[thread];
      if |h.messages| > window { h.messages := LastPart(h.messages, window); }
    }

    method ClearThread(thread: string)
      requires Valid()
      modifies this
      ensures Valid() && histories == old(histories) - {thread}
    {
      if thread in histories { histories := histories - {thread}; }
      assert thread !in histories ==> histories - {thread} == histories;
    }
  }

  datatype Sent = SystemPrompt(text: string) | Logged(m: Msg)

  function Prompt(system: string, log: seq<Msg>, message: string): seq<Sent> {
    [SystemPrompt(system)] + seq(|log|, i requires 0 <= i < |log| => Logged(log[i])) + [Logged(User(message))]
  }

  // One synchronous chat request; `llm` is what the LLM makes of the prompt, None an exception,
  // after which nothing is logged.
  method ChatSync(memory: MemoryManager, thread: string, system: string, message: string,
                  llm: seq<Sent> -> Option<string>)
    returns (sent: seq<Sent>, reply: Option<string>)
    requires memory.Valid()
    modifies memory, if thread in memory.histories then {memory.histories[thread]} else {}
    ensures memory.Valid() && thread in memory.histories
    ensures sent == Prompt(system, Trim(old(memory.Log(thread)), memory.window), message) && reply == llm(sent)
    ensures memory.Log(thread) == Trim(old(memory.Log(thread)), memory.window)
                                  + (if reply.Some? then Pair(message, reply.value) else [])
    ensures memory.window >= 1 ==> |sent| <= memory.window + 2
  {
    var history := memory.GetThreadHistory(thread);
    sent := Prompt(system, history.messages, message);
    reply := llm(sent);
    if reply.Some? { history.AddPair(message, reply.value); }
  }

  // The chunks of a streamed answer up to the first failure (None), joined.
  function Joined(chunks: seq<Option<string>>): string {
    if chunks == [] || chunks[0].None? then "" else chunks[0].value + Joined(chunks[1..])
  }

  // The end of a streaming request: whatever arrived before a failure is logged as the answer.
  method FinishStream(history: History, message: string, chunks: seq<Option<string>>) returns (full: string)
    modifies history
    ensures full == Joined(chunks) && history.messages == old(history.messages) + Pair(message, full)
  {
    full := "";
    for n := 0 to |chunks|
      invariant full + Joined(chunks[n..]) == Joined(chunks) && history.messages == old(history.messages)
    {
      assert chunks[n..][1..] == chunks[n + 1..];
      if chunks[n].None? { break; }
      full := full + chunks[n].value;
    }
    history.AddPair(message, full);
  }
}
