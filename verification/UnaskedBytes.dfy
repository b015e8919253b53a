/** When the bytes of a message are not asked for: what the composer says about them makes no difference. */
module UnaskedBytes {
  import opened Text
  import opened Submission
  import opened SubmissionRuns
  import opened SubmissionSafety
  import opened SubmissionDelivery

  /** A draft without what it says of the serialised bytes: whether all data is there, whether it can be serialised, and
      the bytes themselves. */
  function Erased(d: Draft): Draft { d.(ready := true, rawOk := true, bytes := "") }

  function EraseInput(i: Input): Input {
    if i.Call? then Call(Erased(i.draft)) else i
  }

  function EraseEvent(e: Event): Event {
    if e.Called? then Called(Erased(e.draft)) else e
  }

  /** What happened, whatever was said of the bytes. */
  function Seen(events: seq<Event>): (seen: seq<Event>)
    ensures |seen| == |events|
  {
    seq(|events|, k requires 0 <= k < |events| => EraseEvent(events[k]))
  }

  /** The same calls and answers, but for what is said of the bytes. */
  predicate Alike(x: seq<Input>, y: seq<Input>) {
    |x| == |y| && forall k :: 0 <= k < |x| ==> EraseInput(x[k]) == EraseInput(y[k])
  }

  // ----- a run without what is said of the bytes -----

  function EraseAll(inputs: seq<Input>): seq<Input> {
    seq(|inputs|, k requires 0 <= k < |inputs| => EraseInput(inputs[k]))
  }

  function EraseSystem(s: System): System { s.(m := s.m.(trace := Seen(s.m.trace))) }

  predicate Unasked(m: Machine) {
    m.f.catenate && (m.f.imapSubmit || (m.f.useBurl && m.f.genUrlAuth))
  }

  lemma SeenConcat(a: seq<Event>, b: seq<Event>)
    ensures Seen(a + b) == Seen(a) + Seen(b)
  {
    hide EraseEvent;
  }

  lemma {:induction false} SameTasks(events: seq<Event>)
    ensures TasksIn(Seen(events)) == TasksIn(events)
  {
    if events != [] {
      SameTasks(events[1..]);
      assert Seen(events)[1..] == Seen(events[1..]);
    }
  }

  lemma {:induction false} SameAnswers(pending: seq<Task>, i: Input)
    ensures Without(pending, EraseInput(i)) == Without(pending, i)
  {
    if pending != [] { SameAnswers(pending[1..], i); }
  }

  /** The fields behind an input do not depend on the history, and the bytes do not matter. */
  lemma SameFields(m: Machine, i: Input)
    requires Unasked(m)
    ensures
      var next, erased := Handle(m, i), Handle(m.(trace := Seen(m.trace)), EraseInput(i));
      next.f == erased.f && next.state == erased.state && next.raw == erased.raw
  {
    if i.Call? {
      SameCall(m, i.draft);
    } else {
      SameAnswer(m, i);
    }
  }

  lemma SameCall(m: Machine, d: Draft)
    requires Unasked(m)
    ensures
      var next, erased := Send(m, d), Send(m.(trace := Seen(m.trace)), Erased(d));
      next.f == erased.f && next.state == erased.state && next.raw == erased.raw
  {
  }

  lemma SameAnswer(m: Machine, i: Input)
    requires !i.Call?
    ensures
      var next, erased := Handle(m, i), Handle(m.(trace := Seen(m.trace)), i);
      next.f == erased.f && next.state == erased.state && next.raw == erased.raw
  {
    hide Choose;
  }

  lemma SameEvents(m: Machine, i: Input)
    requires Unasked(m)
    ensures Events(m.(trace := Seen(m.trace)), EraseInput(i)) == Seen(Events(m, i))
  {
    if i.Call? {
      SameCallEvents(m, i.draft);
    } else {
      SameAnswerEvents(m, i);
    }
  }

  lemma SameCallEvents(m: Machine, d: Draft)
    requires Unasked(m)
    ensures CallEvents(m.(trace := Seen(m.trace)), Erased(d)) == Seen(CallEvents(m, d))
  {
  }

  lemma SameAnswerEvents(m: Machine, i: Input)
    requires !i.Call?
    ensures Events(m.(trace := Seen(m.trace)), i) == Events(m, i) == Seen(Events(m, i))
  {
    var seen := m.(trace := Seen(m.trace));
    SameChoices(m, Seen(m.trace));
    hide Choose, Seen;
    assert Events(seen, i) == Events(m, i);
    NothingErased(m, i);
  }

  lemma SameChoices(m: Machine, trace: seq<Event>)
    ensures forall f: Fields :: Choose(m.(trace := trace, f := f)) == Choose(m.(f := f))
  {
  }

  lemma NothingErased(m: Machine, i: Input)
    requires !i.Call?
    ensures Seen(Events(m, i)) == Events(m, i)
  {
    hide Choose;
  }

  lemma StepErased(s: System, i: Input)
    requires Unasked(s.m)
    ensures Step(EraseSystem(s), EraseInput(i)) == EraseSystem(Step(s, i))
  {
    hide *;
    var e := EraseSystem(s);
    ErasedIs(s);
    StepAdds(s, i);
    StepAdds(e, EraseInput(i));
    HistoryGrows(s.m, i);
    HistoryGrows(e.m, EraseInput(i));
    SameFields(s.m, i);
    SameEvents(s.m, i);
    SeenConcat(s.m.trace, Events(s.m, i));
    SameTasks(Events(s.m, i));
    SameAnswers(s.pending, i);
    ErasedIs(Step(s, i));
    SameMachine(Handle(e.m, EraseInput(i)), Handle(s.m, i));
  }

  lemma ErasedIs(s: System)
    ensures EraseSystem(s) == System(s.m.(trace := Seen(s.m.trace)), s.pending)
  {
  }

  lemma SameMachine(a: Machine, b: Machine)
    requires a.f == b.f && a.state == b.state && a.raw == b.raw && a.trace == Seen(b.trace)
    ensures a == b.(trace := Seen(b.trace))
  {
  }

  // ----- with a server that reports, bytes stay unasked for -----

  /** A pair that was reported is the one that is stored. */
  predicate Linked(s: System) {
    && Protocol(s)
    && (s.m.state == Saving && Current(s.m).report.Some? ==>
          Current(s.m).report == Some((s.m.f.validity, s.m.f.uid)))
  }

  lemma StepLinked(s: System, i: Input)
    requires Linked(s) && Enabled(s, i)
    ensures Linked(Step(s, i))
  {
    hide *;
    ProtocolIs(s);
    StepKeeps(s, i);
    StepAdds(s, i);
    match i {
      case Call(d) => CallLinks(s, d);
      case AppendUid(validity, uid) => ReportLinks(s.m, Current(s.m), validity, uid);
      case AppendDone => AppendLeaves(s.m);
      case UrlArrived(url) => UrlState(s.m, url);
      case _ => EndFields(s.m, Current(s.m), i);
    }
    HandlingIs(s.m, i);
    LinkedIs(Step(s, i));
  }

  lemma ProtocolIs(s: System)
    requires Linked(s)
    ensures Protocol(s)
  {
  }

  lemma LinkedIs(s: System)
    requires Protocol(s)
    requires s.m.state == Saving && Current(s.m).report.Some? ==>
               Current(s.m).report == Some((s.m.f.validity, s.m.f.uid))
    ensures Linked(s)
  {
    hide Protocol, Current;
  }

  lemma HandlingIs(m: Machine, i: Input)
    ensures i.AppendDone? ==> Handle(m, i) == AppendSucceeded(m)
    ensures i.UrlArrived? ==> Handle(m, i) == GenUrlAuthReceived(m, i.url)
  {
    hide AppendSucceeded, GenUrlAuthReceived;
  }

  lemma CallLinks(s: System, d: Draft)
    ensures
      var a := NoteAll(Current(s.m), Events(s.m, Call(d)));
      Handle(s.m, Call(d)).state == Saving ==> a.report == None
  {
    hide *;
    CallFields(s.m, d);
    CallIs(s.m, d);
    if d.modelAlive && !CannotBuild(s.m, d) && s.m.f.save { CallSaves(s.m, Current(s.m), d); }
  }

  lemma ReportLinks(m: Machine, a: Attempt, validity: nat, uid: nat)
    ensures
      var i := AppendUid(validity, uid);
      NoteAll(a, Events(m, i)).report == Some((validity, uid))
      && Handle(m, i).f.validity == validity && Handle(m, i).f.uid == uid
  {
    NoteMore(a, Reported(validity, uid), []);
    assert [Reported(validity, uid)] + [] == [Reported(validity, uid)];
  }

  lemma StaysUnasked(s: System, i: Input)
    requires Linked(s) && Enabled(s, i) && ReportsUid(s, i) && Unasked(s.m)
    ensures Unasked(Step(s, i).m)
  {
    hide Current, Step, NoteAll, Send, GotError, InvokeMsa, AskForUrl, Fits;
    StepAdds(s, i);
    match i {
      case Call(d) => CallFields(s.m, d);
      case AppendDone =>
        AppendWaiting(s);
        ReportedFields(s.m);
      case UrlArrived(url) => UrlFields(s.m, url);
      case AppendUid(_, _) =>
      case _ => EndFields(s.m, Current(s.m), i);
    }
  }

  lemma AppendWaiting(s: System)
    requires Protocol(s) && Enabled(s, AppendDone)
    ensures s.m.state == Saving
  {
    hide Current, Fits;
    InSaving(s, AppendDone);
  }

  lemma {:induction false} RunErased(s: System, inputs: seq<Input>)
    requires Linked(s) && Unasked(s.m) && Possible(s, inputs) && Reporting(s, inputs)
    ensures Run(EraseSystem(s), EraseAll(inputs)) == EraseSystem(Run(s, inputs))
    decreases |inputs|
  {
    hide Step, Enabled, ReportsUid, Linked, Unasked, EraseSystem, EraseInput;
    if inputs != [] {
      StepLinked(s, inputs[0]);
      StaysUnasked(s, inputs[0]);
      StepErased(s, inputs[0]);
      RunErased(Step(s, inputs[0]), inputs[1..]);
      assert EraseAll(inputs)[1..] == EraseAll(inputs[1..]);
    }
  }

  // ----- the result -----

  lemma FreshLinked(c: Config)
    ensures Linked(Fresh(c))
    ensures Unasked(Fresh(c).m) <==> c.catenate && (c.imapSubmit || (c.useBurl && c.genUrlAuth))
  {
  }

  lemma AlikeRuns(c: Config, x: seq<Input>, y: seq<Input>)
    requires c.catenate && (c.imapSubmit || (c.useBurl && c.genUrlAuth)) && Alike(x, y)
    requires Possible(Fresh(c), x) && Reporting(Fresh(c), x) && Possible(Fresh(c), y) && Reporting(Fresh(c), y)
    ensures Seen(Run(Fresh(c), x).m.trace) == Seen(Run(Fresh(c), y).m.trace)
  {
    hide *;
    FreshLinked(c);
    RunErased(Fresh(c), x);
    RunErased(Fresh(c), y);
    SameErased(x, y);
    ErasedIs(Run(Fresh(c), x));
    ErasedIs(Run(Fresh(c), y));
  }

  lemma SameErased(x: seq<Input>, y: seq<Input>)
    requires Alike(x, y)
    ensures EraseAll(x) == EraseAll(y)
  {
    hide EraseInput;
  }

  const UNREADY := DRAFT.(ready := false)

  /** Where the bytes are asked for, a draft whose data is not there yet fails at once, and another does not. */
  lemma UnreadyFails(c: Config) returns (x: seq<Input>, y: seq<Input>)
    requires !(c.catenate && (c.imapSubmit || (c.useBurl && c.genUrlAuth)))
    ensures x == [Call(DRAFT)] && y == [Call(UNREADY)] && Alike(x, y)
    ensures Possible(Fresh(c), x) && Reporting(Fresh(c), x) && Possible(Fresh(c), y) && Reporting(Fresh(c), y)
    ensures Seen(Run(Fresh(c), x).m.trace) != Seen(Run(Fresh(c), y).m.trace)
  {
    hide *;
    var s := Fresh(c);
    NothingPending(c);
    x, y := [Call(DRAFT)] + [], [Call(UNREADY)] + [];
    RunCons(s, Call(DRAFT), []);
    RunCons(s, Call(UNREADY), []);
    NoInputs(Step(s, Call(DRAFT)));
    NoInputs(Step(s, Call(UNREADY)));
    CallEnabled(s, DRAFT);
    CallEnabled(s, UNREADY);
    StepAdds(s, Call(DRAFT));
    StepAdds(s, Call(UNREADY));
    HistoryGrows(s.m, Call(DRAFT));
    HistoryGrows(s.m, Call(UNREADY));
    CallsDiffer(c);
    StepMachines(s);
    CallsAreAlike();
    SameInputs();
  }

  lemma NothingPending(c: Config)
    ensures Fresh(c).pending == [] && Fresh(c).m.trace == []
  {
  }

  lemma StepMachines(s: System)
    ensures forall i :: Step(s, i).m == Handle(s.m, i)
  {
    hide Handle;
  }

  lemma CallsAreAlike()
    ensures Alike([Call(DRAFT)], [Call(UNREADY)])
  {
  }

  lemma SameInputs()
    ensures [Call(DRAFT)] + [] == [Call(DRAFT)] && [Call(UNREADY)] + [] == [Call(UNREADY)]
  {
  }

  lemma CallsDiffer(c: Config)
    requires !(c.catenate && (c.imapSubmit || (c.useBurl && c.genUrlAuth)))
    ensures
      var m := Fresh(c).m;
      && m.trace == []
      && Seen([] + Events(m, Call(DRAFT))) != Seen([] + Events(m, Call(UNREADY)))
  {
    var m := Fresh(c).m;
    var ready, unready := [] + Events(m, Call(DRAFT)), [] + Events(m, Call(UNREADY));
    assert |ready| >= 4 && |unready| >= 4 && unready[3] == Entered(Failed) && ready[3] != Entered(Failed);
    assert Seen(ready)[3] == EraseEvent(ready[3]) && Seen(unready)[3] == EraseEvent(unready[3]);
  }

  /** With a server that reports the UID of each APPEND: what is said of the bytes makes no difference to the states,
      tasks and signals of any two runs exactly if the server can assemble the message and it is sent from there. */
  lemma BytesUnasked(c: Config)
    ensures
      c.catenate && (c.imapSubmit || (c.useBurl && c.genUrlAuth))
      <==> forall x, y :: Alike(x, y) && Possible(Fresh(c), x) && Reporting(Fresh(c), x)
                          && Possible(Fresh(c), y) && Reporting(Fresh(c), y) ==>
                            Seen(Run(Fresh(c), x).m.trace) == Seen(Run(Fresh(c), y).m.trace)
  {
    hide Fresh, Run, Possible, Reporting, Seen, Alike;
    if c.catenate && (c.imapSubmit || (c.useBurl && c.genUrlAuth)) {
      forall x, y | Alike(x, y) && Possible(Fresh(c), x) && Reporting(Fresh(c), x)
                    && Possible(Fresh(c), y) && Reporting(Fresh(c), y)
        ensures Seen(Run(Fresh(c), x).m.trace) == Seen(Run(Fresh(c), y).m.trace)
      {
        AlikeRuns(c, x, y);
      }
    } else {
      var x, y := UnreadyFails(c);
    }
  }
}
