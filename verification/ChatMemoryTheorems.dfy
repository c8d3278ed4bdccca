/**
 The chat log under interleaved requests.  The event loop is single-threaded, so a run is a
 sequence of events: a request fetches (and trims) the log, and later finishes by appending its
 pair to the log object it fetched, which other requests may have trimmed or replaced meanwhile.
 */
module ChatMemoryTheorems {
  import opened ChatMemory

  datatype Event =
    | Fetch(request: nat, thread: string)
    | Finish(request: nat, user: string, assistant: string)
    | Abandon(request: nat)                  // failed or disconnected before it could append
    | Clear(thread: string)

  datatype Exchange = Exchange(user: string, assistant: string)

  // `logs` are the log objects, `said` everything ever appended to each, `threads` which object a
  // thread currently uses, and `open` the object an unfinished request holds.
  datatype State = State(logs: seq<seq<Msg>>, said: seq<seq<Exchange>>, threads: map<string, nat>, open: map<nat, nat>)

  const INITIAL := State([], [], map[], map[])

  predicate WellFormed(st: State) {
    && |st.logs| == |st.said|
    && (forall t :: t in st.threads ==> st.threads[t] < |st.logs|)
    && (forall r :: r in st.open ==> st.open[r] < |st.logs|)
  }

  function Step(st: State, e: Event, window: int): (next: State)
    requires WellFormed(st)
    ensures WellFormed(next)
  {
    match e
    case Fetch(r, t) =>
      if t in st.threads then
        var o := st.threads[t];
        st.(logs := st.logs[o := Trim(st.logs[o], window)], open := st.open[r := o])
      else
        var o := |st.logs|;
        State(st.logs + [Trim([], window)], st.said + [[]], st.threads[t := o], st.open[r := o])
    case Finish(r, user, assistant) =>
      if r !in st.open then st
      else
        var o := st.open[r];
        st.(logs := st.logs[o := st.logs[o] + Pair(user, assistant)],
            said := st.said[o := st.said[o] + [Exchange(user, assistant)]], open := st.open - {r})
    case Abandon(r) => st.(open := st.open - {r})
    case Clear(t) => st.(threads := st.threads - {t})
  }

  function Run(st: State, events: seq<Event>, window: int): (end: State)
    requires WellFormed(st)
    ensures WellFormed(end)
    decreases events
  {
    if events == [] then st else Run(Step(st, events[0], window), events[1..], window)
  }

  function Flatten(xs: seq<Exchange>): seq<Msg> {
    if xs == [] then [] else Pair(xs[0].user, xs[0].assistant) + Flatten(xs[1..])
  }

  // Alternating, starting with the user, and no pair cut in two.
  predicate Aligned(ms: seq<Msg>) {
    |ms| % 2 == 0 && forall i :: 0 <= i < |ms| ==> (ms[i].User? <==> i % 2 == 0)
  }

  predicate SuffixOf(ms: seq<Msg>, all: seq<Msg>) {
    |ms| <= |all| && ms == all[|all| - |ms|..]
  }

  lemma {:induction false} FlattenAligned(xs: seq<Exchange>)
    ensures Aligned(Flatten(xs)) && |Flatten(xs)| == 2 * |xs|
  {
    if xs != [] {
      FlattenAligned(xs[1..]);
      AlignedPrepend(xs[0], Flatten(xs[1..]));
    }
  }

  lemma {:induction false} AlignedPrepend(x: Exchange, rest: seq<Msg>)
    requires Aligned(rest)
    ensures Aligned(Pair(x.user, x.assistant) + rest)
  {
    var ms := Pair(x.user, x.assistant) + rest;
    forall i | 0 <= i < |ms| ensures ms[i].User? <==> i % 2 == 0 {
      if i >= 2 { assert ms[i] == rest[i - 2]; }
    }
  }

  lemma {:induction false} FlattenAppend(xs: seq<Exchange>, x: Exchange)
    ensures Flatten(xs + [x]) == Flatten(xs) + Pair(x.user, x.assistant)
  {
    if xs == [] {
      assert xs + [x] == [x] && [x][1..] == [];
    } else {
      assert (xs + [x])[1..] == xs[1..] + [x];
      FlattenAppend(xs[1..], x);
    }
  }

  // The log is the tail end of what was said to it, cut between pairs.
  predicate CutOf(ms: seq<Msg>, xs: seq<Exchange>) {
    |ms| % 2 == 0 && SuffixOf(ms, Flatten(xs))
  }

  ghost predicate Windowed(st: State)
    requires WellFormed(st)
  {
    forall o :: 0 <= o < |st.logs| ==> CutOf(st.logs[o], st.said[o])
  }

  lemma TrimIsSuffix(ms: seq<Msg>, window: int)
    ensures SuffixOf(Trim(ms, window), ms)
    ensures |Trim(ms, window)| ==
            if |ms| <= window || window == 0 then |ms|
            else if window > 0 then window
            else if -window <= |ms| then |ms| + window
            else 0
  {
  }

  lemma {:induction false} CutTrimmed(ms: seq<Msg>, xs: seq<Exchange>, window: int)
    requires CutOf(ms, xs) && window % 2 == 0
    ensures CutOf(Trim(ms, window), xs)
  {
    TrimIsSuffix(ms, window);
    var t, all := Trim(ms, window), Flatten(xs);
    assert ms[|ms| - |t|..] == all[|all| - |ms|..][|ms| - |t|..] == all[|all| - |t|..];
  }

  lemma {:induction false} CutExtended(ms: seq<Msg>, xs: seq<Exchange>, x: Exchange)
    requires CutOf(ms, xs)
    ensures CutOf(ms + Pair(x.user, x.assistant), xs + [x])
  {
    FlattenAppend(xs, x);
    var pair, all := Pair(x.user, x.assistant), Flatten(xs);
    assert (all + pair)[|all| - |ms|..] == all[|all| - |ms|..] + pair;
  }

  lemma {:induction false} StepWindowed(st: State, e: Event, window: int)
    requires WellFormed(st) && Windowed(st) && window % 2 == 0
    ensures Windowed(Step(st, e, window))
  {
    if e.Fetch? {
      if e.thread in st.threads {
        var o := st.threads[e.thread];
        CutTrimmed(st.logs[o], st.said[o], window);
      } else {
        assert CutOf(Trim([], window), []);
      }
    } else if e.Finish? && e.request in st.open {
      var o := st.open[e.request];
      CutExtended(st.logs[o], st.said[o], Exchange(e.user, e.assistant));
    }
  }

  lemma {:induction false} RunWindowed(st: State, events: seq<Event>, window: int)
    requires WellFormed(st) && Windowed(st) && window % 2 == 0
    ensures Windowed(Run(st, events, window))
    decreases events
  {
    if events != [] {
      StepWindowed(st, events[0], window);
      RunWindowed(Step(st, events[0], window), events[1..], window);
    }
  }

  lemma {:induction false} EvenOffset(cut: int, i: int)
    requires cut % 2 == 0
    ensures (cut + i) % 2 == i % 2
  {
  }

  lemma {:induction false} DropPairs(all: seq<Msg>, cut: nat)
    requires Aligned(all) && cut <= |all| && cut % 2 == 0
    ensures Aligned(all[cut..])
  {
    EvenOffset(cut, |all| - cut);
    forall i | 0 <= i < |all[cut..]| ensures all[cut..][i].User? <==> i % 2 == 0 {
      assert all[cut..][i] == all[cut + i];
      EvenOffset(cut, i);
    }
  }

  lemma {:induction false} WindowedIsAligned(ms: seq<Msg>, xs: seq<Exchange>)
    requires CutOf(ms, xs)
    ensures Aligned(ms)
  {
    FlattenAligned(xs);
    DropPairs(Flatten(xs), |Flatten(xs)| - |ms|);
  }

  ghost predicate AlwaysAligned(window: int) {
    forall events, o :: 0 <= o < |Run(INITIAL, events, window).logs| ==> Aligned(Run(INITIAL, events, window).logs[o])
  }

  // Over every interleaving of requests, with an even window: a log is a suffix of the exchanged
  // pairs, alternates and starts with the user.
  lemma {:induction false} LogsStayAligned(events: seq<Event>, window: int, o: nat)
    requires window % 2 == 0 && o < |Run(INITIAL, events, window).logs|
    ensures var end := Run(INITIAL, events, window);
            Aligned(end.logs[o]) && SuffixOf(end.logs[o], Flatten(end.said[o]))
  {
    RunWindowed(INITIAL, events, window);
    var end := Run(INITIAL, events, window);
    WindowedIsAligned(end.logs[o], end.said[o]);
  }

  // Right after a fetch the thread's log is within a positive window.
  lemma {:induction false} FetchedLogFits(st: State, r: nat, t: string, window: int)
    requires WellFormed(st) && window >= 1
    ensures var next := Step(st, Fetch(r, t), window);
            t in next.threads && next.open[r] == next.threads[t] && |next.logs[next.threads[t]]| <= window
  {
  }

  // With an even window every prompt is the system's text, then the log as it was just fetched, then
  // the question, and the speakers take turns, the user first and last.
  lemma {:induction false} PromptAlternates(events: seq<Event>, r: nat, t: string, window: int, system: string,
                                            message: string)
    requires window % 2 == 0
    ensures var st := Step(Run(INITIAL, events, window), Fetch(r, t), window);
            && r in st.open
            && var log := st.logs[st.open[r]];
               var sent := Prompt(system, log, message);
               && |sent| == |log| + 2 && |sent| % 2 == 0
               && sent[0] == SystemPrompt(system) && sent[|log| + 1] == Logged(User(message))
               && (forall i :: 0 <= i < |log| ==> sent[1 + i] == Logged(log[i]))
               && (forall i :: 1 <= i < |sent| ==> sent[i].Logged? && (sent[i].m.User? <==> i % 2 == 1))
               && SuffixOf(log, Flatten(st.said[st.open[r]]))
  {
    RunAppend(INITIAL, events, Fetch(r, t), window);
    var st := Step(Run(INITIAL, events, window), Fetch(r, t), window);
    LogsStayAligned(events + [Fetch(r, t)], window, st.open[r]);
    PromptOrder(system, st.logs[st.open[r]], message);
  }

  lemma {:induction false} PromptOrder(system: string, log: seq<Msg>, message: string)
    requires Aligned(log)
    ensures var sent := Prompt(system, log, message);
            && |sent| == |log| + 2
            && sent[0] == SystemPrompt(system) && sent[|log| + 1] == Logged(User(message))
            && (forall i :: 0 <= i < |log| ==> sent[1 + i] == Logged(log[i]))
            && (forall i :: 1 <= i < |sent| ==> sent[i].Logged? && (sent[i].m.User? <==> i % 2 == 1))
  {
    var sent := Prompt(system, log, message);
    forall i | 1 <= i < |sent| ensures sent[i].Logged? && (sent[i].m.User? <==> i % 2 == 1) {
      if i <= |log| { assert sent[i] == Logged(log[i - 1]); }
    }
  }

  // ------------------------------------------------------------------ odd windows

  // m requests of one thread fetch, then all of them finish.
  function Fetches(m: nat): seq<Event> {
    if m == 0 then [] else Fetches(m - 1) + [Fetch(m - 1, "t")]
  }

  function Finishes(m: nat): seq<Event> {
    if m == 0 then [] else Finishes(m - 1) + [Finish(m - 1, "q", "a")]
  }

  lemma {:induction false} RunAppend(st: State, events: seq<Event>, e: Event, window: int)
    requires WellFormed(st)
    ensures Run(st, events + [e], window) == Step(Run(st, events, window), e, window)
    decreases events
  {
    if events == [] {
      assert events + [e] == [e] && [e][1..] == [];
    } else {
      assert (events + [e])[1..] == events[1..] + [e];
      RunAppend(Step(st, events[0], window), events[1..], e, window);
    }
  }

  lemma {:induction false} RunConcat(st: State, a: seq<Event>, b: seq<Event>, window: int)
    requires WellFormed(st)
    ensures Run(st, a + b, window) == Run(Run(st, a, window), b, window)
    decreases a
  {
    if a == [] {
      assert a + b == b;
    } else {
      assert (a + b)[1..] == a[1..] + b;
      RunConcat(Step(st, a[0], window), a[1..], b, window);
    }
  }

  lemma {:induction false} FetchesOpen(m: nat, window: int)
    requires m > 0
    ensures var st := Run(INITIAL, Fetches(m), window);
            && st.logs == [[]] && st.threads == map["t" := 0]
            && (forall r :: 0 <= r < m ==> r in st.open && st.open[r] == 0)
  {
    RunAppend(INITIAL, Fetches(m - 1), Fetch(m - 1, "t"), window);
    if m > 1 { FetchesOpen(m - 1, window); } else { assert Fetches(0) == []; }
    assert Trim([], window) == [];
  }

  lemma {:induction false} FinishesAppend(st: State, k: nat, m: nat, window: int)
    requires WellFormed(st) && st.logs == [[]] && st.threads == map["t" := 0] && k <= m
    requires forall r :: 0 <= r < m ==> r in st.open && st.open[r] == 0
    ensures var end := Run(st, Finishes(k), window);
            && |end.logs| == 1 && |end.logs[0]| == 2 * k && end.threads == map["t" := 0]
            && (forall r :: k <= r < m ==> r in end.open && end.open[r] == 0)
  {
    if k > 0 {
      FinishesAppend(st, k - 1, m, window);
      RunAppend(st, Finishes(k - 1), Finish(k - 1, "q", "a"), window);
      FinishAppends(Run(st, Finishes(k - 1), window), k - 1, window);
    }
  }

  lemma {:induction false} FinishAppends(st: State, r: nat, window: int)
    requires WellFormed(st) && |st.logs| == 1 && r in st.open && st.open[r] == 0
    ensures var next := Step(st, Finish(r, "q", "a"), window);
            && |next.logs| == 1 && |next.logs[0]| == |st.logs[0]| + 2 && next.threads == st.threads
            && (forall other :: other in st.open && other != r ==>
                  other in next.open && next.open[other] == st.open[other])
  {
  }

  function Crowd(m: nat): seq<Event> {
    Fetches(m) + Finishes(m) + [Fetch(0, "t")]
  }

  lemma {:induction false} CrowdLength(m: nat, window: int)
    requires m > 0
    ensures var end := Run(INITIAL, Crowd(m), window);
            |end.logs| == 1 && exists ms: seq<Msg> :: |ms| == 2 * m && end.logs[0] == Trim(ms, window)
  {
    FetchesOpen(m, window);
    FinishesAppend(Run(INITIAL, Fetches(m), window), m, m, window);
    RunConcat(INITIAL, Fetches(m), Finishes(m), window);
    RunAppend(INITIAL, Fetches(m) + Finishes(m), Fetch(0, "t"), window);
  }

  lemma {:induction false} OddTrim(ms: seq<Msg>, window: int)
    requires window % 2 == 1 && |ms| % 2 == 0 && |ms| > window && |ms| >= -window
    ensures |Trim(ms, window)| % 2 == 1
  {
    TrimIsSuffix(ms, window);
  }

  // With an odd window some interleaving leaves a log that starts with half a pair.
  lemma {:induction false} OddWindowMisaligns(window: int)
    requires window % 2 == 1
    ensures !AlwaysAligned(window)
  {
    var m: nat := if window > 0 then window else -window;
    CrowdLength(m, window);
    var end := Run(INITIAL, Crowd(m), window);
    var ms :| |ms| == 2 * m && end.logs[0] == Trim(ms, window);
    OddTrim(ms, window);
    assert !Aligned(end.logs[0]);
  }

  // The alternation survives every interleaving if and only if the window is even.
  lemma AlignedIffEvenWindow(window: int)
    ensures AlwaysAligned(window) <==> window % 2 == 0
  {
    if window % 2 == 0 {
      forall events, o | 0 <= o < |Run(INITIAL, events, window).logs|
        ensures Aligned(Run(INITIAL, events, window).logs[o])
      {
        LogsStayAligned(events, window, o);
      }
    } else {
      OddWindowMisaligns(window);
    }
  }

  // ------------------------------------------------------------------ the objects

  // The manager's threads and the log objects created so far, in order, are those of the state.
  ghost predicate Represents(m: MemoryManager, objects: seq<History>, st: State)
    reads m, objects
  {
    && |objects| == |st.logs|
    && (forall i, j :: 0 <= i < j < |objects| ==> objects[i] != objects[j])
    && (forall i :: 0 <= i < |objects| ==> objects[i].messages == st.logs[i])
    && m.histories.Keys == st.threads.Keys
    && (forall t :: t in st.threads ==> st.threads[t] < |objects| && m.histories[t] == objects[st.threads[t]])
  }

  // What a request does to the objects when it fetches its history is the `Fetch` event,
  method FetchIsStep(m: MemoryManager, thread: string, ghost r: nat, ghost objects: seq<History>, ghost st: State)
    returns (h: History, ghost after: seq<History>)
    requires m.Valid() && WellFormed(st) && Represents(m, objects, st)
    modifies m, if thread in m.histories then {m.histories[thread]} else {}
    ensures var next := Step(st, Fetch(r, thread), m.window);
            m.Valid() && Represents(m, after, next) && next.open[r] < |after| && after[next.open[r]] == h
  {
    h := m.GetThreadHistory(thread);
    after := if thread in st.threads then objects else objects + [h];
  }

  // when it appends its pair to the history it holds, the `Finish` event,
  method FinishIsStep(m: MemoryManager, h: History, user: string, assistant: string, ghost r: nat,
                      ghost objects: seq<History>, ghost st: State)
    requires m.Valid() && WellFormed(st) && Represents(m, objects, st)
    requires r in st.open && objects[st.open[r]] == h
    modifies h
    ensures m.Valid() && Represents(m, objects, Step(st, Finish(r, user, assistant), m.window))
  {
    h.AddPair(user, assistant);
  }

  // and when a thread is cleared, the `Clear` event.
  method ClearIsStep(m: MemoryManager, thread: string, ghost objects: seq<History>, ghost st: State)
    requires m.Valid() && WellFormed(st) && Represents(m, objects, st)
    modifies m
    ensures m.Valid() && Represents(m, objects, Step(st, Clear(thread), m.window))
  {
    m.ClearThread(thread);
  }
}
