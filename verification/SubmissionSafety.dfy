/** What holds of every run: each attempt keeps the protocol, and what it delivers is the message. */
module SubmissionSafety {
  import opened Text
  import opened Submission
  import opened SubmissionRuns

  // ----- a fresh object with fixed options -----

  /** Options and capabilities; BURL is only ever on when the server can do URLAUTH. */
  datatype Config = Config(
    save: bool, imapSubmit: bool, useBurl: bool, catenate: bool, genUrlAuth: bool, msaImap: bool)

  function Fresh(c: Config): System {
    System(Machine(Fields(c.save, c.imapSubmit, c.useBurl && c.genUrlAuth, c.catenate, c.genUrlAuth, c.msaImap,
                          false, 0, 0, false, ""),
                   Init, "", []), [])
  }

  lemma FreshKeeps(c: Config)
    ensures Protocol(Fresh(c))
  {
  }

  /** In every reachable state there is at most one outstanding task, the one that the state stands for,
      and the current attempt has the shape that the state stands for. */
  lemma {:induction false} RunKeeps(s: System, inputs: seq<Input>)
    requires Protocol(s) && Possible(s, inputs)
    ensures Protocol(Run(s, inputs)) && |Run(s, inputs).pending| <= 1
    decreases |inputs|
  {
    if inputs != [] {
      StepKeeps(s, inputs[0]);
      RunKeeps(Step(s, inputs[0]), inputs[1..]);
    }
  }

  /** An attempt reaches SENT only through SUBMITTING, with one delivery, and never fails afterwards. */
  lemma SentIsFinal(state: State, a: Attempt, k: nat)
    requires Fits(state, a) && k < |a.states| && a.states[k] in {UpdatingFlags, Sent}
    ensures exists j :: 0 <= j < k && a.states[j] == Submitting
    ensures |a.deliveries| == 1 && a.failures == 0 && state in {UpdatingFlags, Sent}
  {
    var j := if a.states[k] == UpdatingFlags then k - 1 else if a.states[k - 1] == Submitting then k - 1 else k - 2;
    assert a.states[k] == Sent ==> Edge(a.states[k - 1], a.states[k]);
    assert Edge(a.states[j], a.states[j + 1]);
    assert a.states[j] == Submitting;
    var last := |a.states| - 1;
    assert last > 0 ==> Edge(a.states[last - 1], a.states[last]);
    assert k < last ==> Edge(a.states[k], a.states[k + 1]);
    assert k < last - 1 ==> Edge(a.states[k + 1], a.states[k + 2]);
  }

  // ----- all attempts of a run -----

  function Extend(h: seq<Attempt>, e: Event): seq<Attempt> {
    if e.Called? || h == [] then h + [Note(NOTHING, e)]
    else h[..|h| - 1] + [Note(h[|h| - 1], e)]
  }

  /** The attempts a history consists of, one for each call of send(). */
  function Attempts(h: seq<Attempt>, events: seq<Event>): seq<Attempt>
    decreases |events|
  {
    if events == [] then h else Attempts(Extend(h, events[0]), events[1..])
  }

  function History(m: Machine): seq<Attempt> { Attempts([], m.trace) }

  lemma {:induction false} AttemptsConcat(h: seq<Attempt>, x: seq<Event>, y: seq<Event>)
    ensures Attempts(h, x + y) == Attempts(Attempts(h, x), y)
    decreases |x|
  {
    if x == [] {
      assert x + y == y;
    } else {
      assert (x + y)[1..] == x[1..] + y;
      AttemptsConcat(Extend(h, x[0]), x[1..], y);
    }
  }

  predicate NoCall(events: seq<Event>) {
    forall k :: 0 <= k < |events| ==> !events[k].Called?
  }

  lemma {:induction false} SameAttempt(h: seq<Attempt>, a: Attempt, events: seq<Event>)
    requires NoCall(events)
    ensures Attempts(h + [a], events) == h + [NoteAll(a, events)]
    decreases |events|
  {
    if events != [] {
      assert Extend(h + [a], events[0]) == h + [Note(a, events[0])];
      SameAttempt(h, Note(a, events[0]), events[1..]);
    }
  }

  /** The events of an input start an attempt exactly if the input is a call. */
  lemma CallsStartAttempts(m: Machine, i: Input)
    ensures Events(m, i) != []
    ensures i.Call? ==> Events(m, i)[0] == Called(i.draft) && NoCall(Events(m, i)[1..])
    ensures !i.Call? ==> NoCall(Events(m, i))
  {
    hide Choose, CannotBuild, Local;
  }

  lemma StepHistory(s: System, i: Input)
    requires i.Call? || History(s.m) != []
    requires History(s.m) != [] ==> History(s.m)[|History(s.m)| - 1] == Current(s.m)
    ensures
      var h := History(s.m);
      History(Step(s, i).m) == (if i.Call? then h else h[..|h| - 1]) + [Current(Step(s, i).m)]
  {
    var h, a, events := History(s.m), Current(s.m), Events(s.m, i);
    StepAdds(s, i);
    HistoryGrows(s.m, i);
    AttemptsConcat([], s.m.trace, events);
    CallsStartAttempts(s.m, i);
    hide Events, Step, Handle, Current;
    if i.Call? {
      var first := Note(NOTHING, events[0]);
      SameAttempt(h, first, events[1..]);
      NoteMore(a, events[0], events[1..]);
      assert [events[0]] + events[1..] == events;
    } else {
      assert h == h[..|h| - 1] + [a];
      SameAttempt(h[..|h| - 1], a, events);
    }
  }

  /** Every attempt of a run but the last has ended, in success or in failure; the last one is where the
      object is. */
  predicate Orderly(s: System) {
    var h := History(s.m);
    && Protocol(s)
    && (h == [] <==> s.m.state == Init)
    && (h != [] ==> h[|h| - 1] == Current(s.m))
    && forall k :: 0 <= k < |h| - 1 ==> Fits(Sent, h[k]) || Fits(Failed, h[k])
  }

  lemma StepOrderly(s: System, i: Input)
    requires Orderly(s) && Enabled(s, i)
    ensures Orderly(Step(s, i))
  {
    hide *;
    var next := Step(s, i);
    OrderlyParts(s);
    StepKeeps(s, i);
    if i.Call? { Callable(s, i); } else { Answerable(s, i); }
    StepHistory(s, i);
    Leaves(s, i);
    StillOrderly(s, next, i.Call?);
  }

  lemma OrderlyParts(s: System)
    requires Orderly(s)
    ensures
      var h := History(s.m);
      Protocol(s) && (h == [] <==> s.m.state == Init) && (h != [] ==> h[|h| - 1] == Current(s.m))
  {
    hide History, Current, Protocol, Fits;
  }

  lemma Callable(s: System, i: Input)
    requires Protocol(s) && Enabled(s, i) && i.Call?
    ensures s.m.state == Init || Fits(Sent, Current(s.m)) || Fits(Failed, Current(s.m))
  {
    hide Fits, Current;
  }

  /** No input leads back to the initial state. */
  lemma Leaves(s: System, i: Input)
    requires i.Call? || s.m.state != Init
    ensures Step(s, i).m.state != Init
  {
    hide Send, GotError, InvokeMsa, AskForUrl;
    SlotStates(s.m);
    if i.Call? { CallState(s.m, i.draft); }
    if i.AppendDone? { AppendLeaves(s.m); }
    if i.UrlArrived? { UrlState(s.m, i.url); }
  }

  lemma AppendLeaves(m: Machine)
    ensures AppendSucceeded(m).state in {Submitting, PreparingUrlAuth}
  {
    hide InvokeMsa, AskForUrl;
    SlotStates(m.(f := m.f.(uidReceived := true)));
    SlotStates(m.(f := m.f.(useBurl := false)));
  }

  lemma StillOrderly(s: System, next: System, call: bool)
    requires Orderly(s) && Protocol(next) && next.m.state != Init
    requires call || History(s.m) != []
    requires call ==> s.m.state == Init || Fits(Sent, Current(s.m)) || Fits(Failed, Current(s.m))
    requires History(next.m)
          == (if call then History(s.m) else History(s.m)[..|History(s.m)| - 1]) + [Current(next.m)]
    ensures Orderly(next)
  {
    hide History, Current, Fits, Protocol;
  }

  lemma Answerable(s: System, i: Input)
    requires Protocol(s) && Enabled(s, i) && !i.Call?
    ensures s.m.state != Init
  {
    hide Fits, Current;
  }

  /** After any run from a fresh object: each completed attempt delivered at most once and ended with
      exactly one of success and failure. */
  lemma {:induction false} EveryAttempt(s: System, inputs: seq<Input>)
    requires Orderly(s) && Possible(s, inputs)
    ensures Orderly(Run(s, inputs))
    decreases |inputs|
  {
    if inputs != [] {
      StepOrderly(s, inputs[0]);
      EveryAttempt(Step(s, inputs[0]), inputs[1..]);
    }
  }

  lemma EndedOnce(a: Attempt)
    requires Fits(Sent, a) || Fits(Failed, a)
    ensures |a.deliveries| <= 1 && a.successes + a.failures == 1
    ensures a.successes == 1 <==> Sent in a.states
    ensures a.successes == 1 ==> |a.deliveries| == 1
  {
    if Sent in a.states {
      var k :| 0 <= k < |a.states| && a.states[k] == Sent;
      SentIsFinal(if Fits(Sent, a) then Sent else Failed, a, k);
    }
  }
}
