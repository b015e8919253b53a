/** All runs of a submission against an environment that answers each task once. */
module SubmissionRuns {
  import opened Text
  import opened Submission

  /** What the outside world does to the object. */
  datatype Input =
    | Call(draft: Draft)
    | AppendUid(validity: nat, uid: nat)
    | AppendDone
    | AppendFailed
    | UrlArrived(url: string)
    | UrlFailed
    | MsaDone(replying: bool)
    | MsaFailed
    | FlagsDone
    | FlagsFailed

  datatype System = System(m: Machine, pending: seq<Task>)

  function Handle(m: Machine, i: Input): Machine {
    match i
    case Call(d) => Send(m, d)
    case AppendUid(validity, uid) => AppendUidKnown(m, validity, uid)
    case AppendDone => AppendSucceeded(m)
    case AppendFailed => GotError(m)
    case UrlArrived(url) => GenUrlAuthReceived(m, url)
    case UrlFailed => GotError(m)
    case MsaDone(replying) => MsaSent(m, replying)
    case MsaFailed => GotError(m)
    case FlagsDone => FlagsUpdated(m)
    case FlagsFailed => FlagsUpdated(m)
  }

  /** The task an input is an answer of. */
  predicate Answers(i: Input, t: Task) {
    match i
    case Call(_) => false
    case AppendUid(_, _) => t.AppendCatenate? || t.AppendRaw?
    case AppendDone => t.AppendCatenate? || t.AppendRaw?
    case AppendFailed => t.AppendCatenate? || t.AppendRaw?
    case UrlArrived(_) => t.GenUrlAuth?
    case UrlFailed => t.GenUrlAuth?
    case MsaDone(_) => t.Deliver?
    case MsaFailed => t.Deliver?
    case FlagsDone => t.UpdateFlags?
    case FlagsFailed => t.UpdateFlags?
  }

  /** send() is called only when nothing is under way, and only outstanding tasks answer. */
  predicate Enabled(s: System, i: Input) {
    if i.Call? then s.pending == [] else exists t :: t in s.pending && Answers(i, t)
  }

  /** A reported UID is the one answer that does not end its task. */
  function Without(pending: seq<Task>, i: Input): seq<Task> {
    if pending == [] then []
    else if Answers(i, pending[0]) && !i.AppendUid? then pending[1..]
    else [pending[0]] + Without(pending[1..], i)
  }

  function TasksIn(events: seq<Event>): seq<Task> {
    if events == [] then []
    else (if events[0].Started? then [events[0].task] else []) + TasksIn(events[1..])
  }

  function Step(s: System, i: Input): System {
    var next := Handle(s.m, i);
    var news := if |s.m.trace| <= |next.trace| then next.trace[|s.m.trace|..] else [];
    System(next, Without(s.pending, i) + TasksIn(news))
  }

  predicate Possible(s: System, inputs: seq<Input>)
    decreases |inputs|
  {
    inputs == [] || (Enabled(s, inputs[0]) && Possible(Step(s, inputs[0]), inputs[1..]))
  }

  function Run(s: System, inputs: seq<Input>): System
    decreases |inputs|
  {
    if inputs == [] then s else Run(Step(s, inputs[0]), inputs[1..])
  }

  // ----- the current attempt -----

  /** What has happened since the last call of send(). */
  datatype Attempt = Attempt(
    draft: Option<Draft>, appended: Option<Task>, report: Option<(nat, nat)>, asked: Option<(nat, nat)>,
    given: Option<string>, deliveries: seq<Payload>, successes: nat, failures: nat, states: seq<State>)

  const NOTHING := Attempt(None, None, None, None, None, [], 0, 0, [])

  function Note(a: Attempt, e: Event): Attempt {
    match e
    case Called(d) => NOTHING.(draft := Some(d))
    case Entered(s) => a.(states := a.states + [s])
    case Started(task) =>
      if task.Deliver? then a.(deliveries := a.deliveries + [task.payload])
      else if task.GenUrlAuth? then a.(asked := Some((task.validity, task.uid)))
      else if task.AppendCatenate? || task.AppendRaw? then a.(appended := Some(task))
      else a
    case Reported(validity, uid) => a.(report := Some((validity, uid)))
    case UrlGiven(url) => a.(given := Some(url))
    case SignalledSuccess => a.(successes := a.successes + 1)
    case SignalledFailure => a.(failures := a.failures + 1)
  }

  function NoteAll(a: Attempt, events: seq<Event>): Attempt
    decreases |events|
  {
    if events == [] then a else NoteAll(Note(a, events[0]), events[1..])
  }

  function Current(m: Machine): Attempt { NoteAll(NOTHING, m.trace) }

  lemma {:induction false} NoteAllConcat(a: Attempt, x: seq<Event>, y: seq<Event>)
    ensures NoteAll(a, x + y) == NoteAll(NoteAll(a, x), y)
    decreases |x|
  {
    if x == [] {
      assert x + y == y;
    } else {
      assert (x + y)[1..] == x[1..] + y;
      NoteAllConcat(Note(a, x[0]), x[1..], y);
    }
  }

  // ----- what each input adds to the history -----

  function FailureEvents(): seq<Event> { [Entered(Failed), SignalledFailure] }

  function DeliveryEvents(p: Payload): seq<Event> { [Entered(Submitting), Started(Deliver(p))] }

  predicate CannotBuild(m: Machine, d: Draft) {
    (Local(m) && !(d.ready && d.rawOk)) || (m.f.catenate && !d.catenateOk)
  }

  function CallEvents(m: Machine, d: Draft): seq<Event> {
    var raw := if Local(m) then d.bytes else "";
    if !d.modelAlive then [Called(d)] + FailureEvents()
    else if CannotBuild(m, d) then [Called(d), Entered(Init), Entered(BuildingMessage)] + FailureEvents()
    else if m.f.save then
      [Called(d), Entered(Init), Entered(BuildingMessage)]
      + [Entered(Saving), Started(if m.f.catenate then AppendCatenate else AppendRaw(raw))]
    else [Called(d), Entered(Init), Entered(BuildingMessage)] + DeliveryEvents(Choose(m.(raw := raw)))
  }

  function AppendedEvents(m: Machine): seq<Event> {
    if m.f.uid == 0 || m.f.validity == 0 then DeliveryEvents(Choose(m.(f := m.f.(useBurl := false))))
    else if m.f.useBurl then [Entered(PreparingUrlAuth), Started(GenUrlAuth(m.f.validity, m.f.uid))]
    else DeliveryEvents(Choose(m.(f := m.f.(uidReceived := true))))
  }

  function Events(m: Machine, i: Input): seq<Event> {
    match i
    case Call(d) => CallEvents(m, d)
    case AppendUid(validity, uid) => [Reported(validity, uid)]
    case AppendDone => AppendedEvents(m)
    case UrlArrived(url) =>
      if url == "" then [UrlGiven(url)] + FailureEvents()
      else [UrlGiven(url)] + DeliveryEvents(Choose(m.(f := m.f.(url := url, urlReceived := true))))
    case MsaDone(replying) =>
      if replying then [Started(UpdateFlags), Entered(UpdatingFlags)] else [Entered(Sent), SignalledSuccess]
    case FlagsDone => [Entered(Sent), SignalledSuccess]
    case FlagsFailed => [Entered(Sent), SignalledSuccess]
    case _ => FailureEvents()
  }

  lemma SlotsGrow(m: Machine)
    ensures GotError(m).trace == m.trace + FailureEvents()
    ensures InvokeMsa(m).trace == m.trace + DeliveryEvents(Choose(m))
    ensures AskToAppend(m).trace
         == m.trace + [Entered(Saving), Started(if m.f.catenate then AppendCatenate else AppendRaw(m.raw))]
    ensures AskForUrl(m).trace == m.trace + [Entered(PreparingUrlAuth), Started(GenUrlAuth(m.f.validity, m.f.uid))]
  {
  }

  lemma CallGrows(m: Machine, d: Draft)
    ensures Send(m, d).trace == m.trace + CallEvents(m, d)
  {
    var called := Emit(m, Called(d));
    var building := Enter(Enter(called, Init), BuildingMessage);
    var built := building.(raw := if Local(m) then d.bytes else "");
    SlotsGrow(called);
    SlotsGrow(building);
    SlotsGrow(built);
    assert built.trace == m.trace + [Called(d), Entered(Init), Entered(BuildingMessage)];
    assert Choose(built) == Choose(m.(raw := built.raw));
    hide GotError, InvokeMsa, AskToAppend, Choose;
  }

  lemma HistoryGrows(m: Machine, i: Input)
    ensures Handle(m, i).trace == m.trace + Events(m, i)
  {
    hide Send, CallEvents, GotError, InvokeMsa, AskForUrl, FailureEvents, DeliveryEvents, GenUrlAuthReceived, Choose;
    match i {
      case Call(d) => CallGrows(m, d);
      case AppendDone => AppendGrows(m);
      case UrlArrived(url) => UrlGrows(m, url);
      case _ => SlotsGrow(m);
    }
  }

  lemma AppendGrows(m: Machine)
    ensures AppendSucceeded(m).trace == m.trace + AppendedEvents(m)
  {
    hide InvokeMsa, AskForUrl, DeliveryEvents, Choose;
    SlotsGrow(m.(f := m.f.(uidReceived := true)));
    SlotsGrow(m.(f := m.f.(useBurl := false)));
  }

  lemma UrlGrows(m: Machine, url: string)
    ensures GenUrlAuthReceived(m, url).trace == m.trace + Events(m, UrlArrived(url))
  {
    hide GotError, InvokeMsa, FailureEvents, DeliveryEvents;
    var given := Emit(m.(f := m.f.(url := url)), UrlGiven(url));
    var known := given.(f := given.f.(urlReceived := true));
    SlotsGrow(given);
    SlotsGrow(known);
    assert Choose(known) == Choose(m.(f := m.f.(url := url, urlReceived := true)));
  }

  lemma StepAdds(s: System, i: Input)
    ensures Step(s, i) == System(Handle(s.m, i), Without(s.pending, i) + TasksIn(Events(s.m, i)))
    ensures Current(Step(s, i).m) == NoteAll(Current(s.m), Events(s.m, i))
  {
    HistoryGrows(s.m, i);
    hide Events, Handle;
    assert (s.m.trace + Events(s.m, i))[|s.m.trace|..] == Events(s.m, i);
    NoteAllConcat(NOTHING, s.m.trace, Events(s.m, i));
  }

  // ----- the protocol -----

  predicate Edge(s: State, t: State) {
    match s
    case Init => t == BuildingMessage
    case BuildingMessage => t in {Saving, Submitting, Failed}
    case Saving => t in {PreparingUrlAuth, Submitting, Failed}
    case PreparingUrlAuth => t in {Submitting, Failed}
    case Submitting => t in {UpdatingFlags, Sent, Failed}
    case UpdatingFlags => t == Sent
    case Sent => false
    case Failed => false
  }

  /** The states of one attempt follow the edges; an attempt without a connection fails at once. */
  predicate Legal(states: seq<State>) {
    && (states != [] ==> states[0] in {Init, Failed})
    && forall k :: 0 <= k < |states| - 1 ==> Edge(states[k], states[k + 1])
  }

  /** The one outstanding task that belongs to a state. */
  predicate Matches(m: Machine, pending: seq<Task>) {
    match m.state
    case Saving => |pending| == 1 && (pending[0].AppendCatenate? || pending[0].AppendRaw?)
    case PreparingUrlAuth => pending == [GenUrlAuth(m.f.validity, m.f.uid)]
    case Submitting => |pending| == 1 && pending[0].Deliver?
    case UpdatingFlags => pending == [UpdateFlags]
    case BuildingMessage => false
    case _ => pending == []
  }

  /** The current attempt fits the state the object is in. */
  predicate Fits(state: State, a: Attempt) {
    && Legal(a.states)
    && (if a.states == [] then state == Init else a.states[|a.states| - 1] == state)
    && a.successes == (if state == Sent then 1 else 0)
    && a.failures == (if state == Failed then 1 else 0)
    && |a.deliveries| == (if Submitting in a.states then 1 else 0)
    && (state in {Submitting, UpdatingFlags, Sent} ==> Submitting in a.states)
    && (state in {Saving, PreparingUrlAuth} ==> Submitting !in a.states)
  }

  predicate Protocol(s: System) {
    Matches(s.m, s.pending) && Fits(s.m.state, Current(s.m))
  }

  lemma NoteMore(a: Attempt, e: Event, events: seq<Event>)
    ensures NoteAll(a, [e] + events) == NoteAll(Note(a, e), events)
  {
    assert ([e] + events)[1..] == events;
  }

  lemma NoteTwo(a: Attempt, e: Event, f: Event)
    ensures NoteAll(a, [e, f]) == Note(Note(a, e), f)
    ensures TasksIn([e, f]) == (if e.Started? then [e.task] else []) + (if f.Started? then [f.task] else [])
  {
    assert [e, f][1..] == [f] && [f][1..] == [];
    assert NoteAll(Note(a, e), [f]) == Note(Note(a, e), f);
    assert TasksIn([f]) == if f.Started? then [f.task] else [];
  }

  lemma EnterOne(states: seq<State>, t: State)
    requires Legal(states) && (if states == [] then t in {Init, Failed} else Edge(states[|states| - 1], t))
    ensures Legal(states + [t]) && (states + [t])[|states|] == t
    ensures Submitting in states + [t] <==> Submitting in states || t == Submitting
  {
  }

  lemma FailureFits(s: State, a: Attempt)
    requires Legal(a.states) && a.successes == 0 && a.failures == 0
    requires |a.deliveries| == (if Submitting in a.states then 1 else 0)
    requires a.states == [] || Edge(a.states[|a.states| - 1], Failed)
    ensures Fits(Failed, NoteAll(a, FailureEvents())) && TasksIn(FailureEvents()) == []
  {
    NoteTwo(a, Entered(Failed), SignalledFailure);
    EnterOne(a.states, Failed);
  }

  lemma DeliveryFits(a: Attempt, p: Payload)
    requires Legal(a.states) && a.successes == 0 && a.failures == 0 && a.deliveries == []
    requires a.states != [] && Edge(a.states[|a.states| - 1], Submitting) && Submitting !in a.states
    ensures Fits(Submitting, NoteAll(a, DeliveryEvents(p))) && TasksIn(DeliveryEvents(p)) == [Deliver(p)]
    ensures NoteAll(a, DeliveryEvents(p)).deliveries == [p]
  {
    NoteTwo(a, Entered(Submitting), Started(Deliver(p)));
    EnterOne(a.states, Submitting);
  }

  lemma {:induction false} TasksConcat(x: seq<Event>, y: seq<Event>)
    ensures TasksIn(x + y) == TasksIn(x) + TasksIn(y)
    decreases |x|
  {
    if x == [] {
      assert x + y == y;
    } else {
      assert (x + y)[1..] == x[1..] + y;
      TasksConcat(x[1..], y);
      var first := if x[0].Started? then [x[0].task] else [];
      assert TasksIn(x + y) == first + TasksIn(x[1..] + y) && TasksIn(x) == first + TasksIn(x[1..]);
      hide TasksIn;
    }
  }

  function Begun(d: Draft): Attempt { NOTHING.(draft := Some(d), states := [Init, BuildingMessage]) }

  lemma OpeningNotes(a: Attempt, d: Draft)
    ensures NoteAll(a, [Called(d)]) == NOTHING.(draft := Some(d)) && TasksIn([Called(d)]) == []
    ensures NoteAll(a, [Called(d), Entered(Init), Entered(BuildingMessage)]) == Begun(d)
    ensures TasksIn([Called(d), Entered(Init), Entered(BuildingMessage)]) == []
  {
    NoteMore(a, Called(d), []);
    assert [Called(d)] + [] == [Called(d)];
    NoteMore(a, Called(d), [Entered(Init), Entered(BuildingMessage)]);
    assert [Called(d)] + [Entered(Init), Entered(BuildingMessage)]
        == [Called(d), Entered(Init), Entered(BuildingMessage)];
    NoteTwo(NOTHING.(draft := Some(d)), Entered(Init), Entered(BuildingMessage));
    TasksConcat([Called(d)], [Entered(Init), Entered(BuildingMessage)]);
    assert [Called(d)][1..] == [];
  }

  lemma SavingFits(a: Attempt, t: Task)
    requires Legal(a.states) && a.successes == 0 && a.failures == 0 && a.deliveries == []
    requires a.states != [] && Edge(a.states[|a.states| - 1], Saving) && Submitting !in a.states
    requires t.AppendCatenate? || t.AppendRaw?
    ensures Fits(Saving, NoteAll(a, [Entered(Saving), Started(t)]))
    ensures TasksIn([Entered(Saving), Started(t)]) == [t]
  {
    NoteTwo(a, Entered(Saving), Started(t));
    EnterOne(a.states, Saving);
  }

  lemma UrlAuthFits(a: Attempt, validity: nat, uid: nat)
    requires Fits(Saving, a)
    ensures Fits(PreparingUrlAuth, NoteAll(a, [Entered(PreparingUrlAuth), Started(GenUrlAuth(validity, uid))]))
    ensures TasksIn([Entered(PreparingUrlAuth), Started(GenUrlAuth(validity, uid))]) == [GenUrlAuth(validity, uid)]
  {
    NoteTwo(a, Entered(PreparingUrlAuth), Started(GenUrlAuth(validity, uid)));
    EnterOne(a.states, PreparingUrlAuth);
  }

  lemma SentFits(s: State, a: Attempt)
    requires Fits(s, a) && s in {Submitting, UpdatingFlags}
    ensures Fits(Sent, NoteAll(a, [Entered(Sent), SignalledSuccess]))
    ensures TasksIn([Entered(Sent), SignalledSuccess]) == []
  {
    NoteTwo(a, Entered(Sent), SignalledSuccess);
    EnterOne(a.states, Sent);
  }

  lemma UpdatingFits(a: Attempt)
    requires Fits(Submitting, a)
    ensures Fits(UpdatingFlags, NoteAll(a, [Started(UpdateFlags), Entered(UpdatingFlags)]))
    ensures TasksIn([Started(UpdateFlags), Entered(UpdatingFlags)]) == [UpdateFlags]
  {
    NoteTwo(a, Started(UpdateFlags), Entered(UpdatingFlags));
    EnterOne(a.states, UpdatingFlags);
  }

  /** The step follows the protocol if what it adds fits the new state. */
  lemma Conclude(s: System, i: Input)
    requires Matches(Handle(s.m, i), Without(s.pending, i) + TasksIn(Events(s.m, i)))
    requires Fits(Handle(s.m, i).state, NoteAll(Current(s.m), Events(s.m, i)))
    ensures Protocol(Step(s, i))
  {
    hide Handle, Events, TasksIn, NoteAll, Current, Step, Without, Matches, Fits;
    StepAdds(s, i);
  }

  /** The answer of the one outstanding task leaves none. */
  lemma Answered(s: System, i: Input)
    requires Protocol(s) && Enabled(s, i) && !i.Call? && !i.AppendUid?
    ensures Without(s.pending, i) == [] && |s.pending| == 1 && Answers(i, s.pending[0])
  {
    hide Fits, Current;
  }

  lemma CallKeeps(s: System, d: Draft)
    requires Protocol(s) && s.pending == []
    ensures Protocol(Step(s, Call(d)))
  {
    var a := Current(s.m);
    var start := [Called(d), Entered(Init), Entered(BuildingMessage)];
    OpeningNotes(a, d);
    CallState(s.m, d);
    hide Send, Choose, Current, Local, Fits, TasksIn, NoteAll, Begun;
    if !d.modelAlive {
      NoteAllConcat(a, [Called(d)], FailureEvents());
      TasksConcat([Called(d)], FailureEvents());
      FailureFits(Init, NOTHING.(draft := Some(d)));
    } else if CannotBuild(s.m, d) {
      NoteAllConcat(a, start, FailureEvents());
      TasksConcat(start, FailureEvents());
      BegunFails(d);
    } else {
      hide CannotBuild;
      CallStarts(s, d, start);
    }
    hide FailureEvents, DeliveryEvents;
    Conclude(s, Call(d));
  }

  lemma BegunFails(d: Draft)
    ensures Fits(Failed, NoteAll(Begun(d), FailureEvents())) && TasksIn(FailureEvents()) == []
  {
    FailureFits(BuildingMessage, Begun(d));
  }

  lemma CallStarts(s: System, d: Draft, start: seq<Event>)
    requires start == [Called(d), Entered(Init), Entered(BuildingMessage)]
    requires NoteAll(Current(s.m), start) == Begun(d) && TasksIn(start) == []
    ensures
      var raw := if Local(s.m) then d.bytes else "";
      var task := if s.m.f.catenate then AppendCatenate else AppendRaw(raw);
      var payload := Choose(s.m.(raw := raw));
      var events := start + if s.m.f.save then [Entered(Saving), Started(task)] else DeliveryEvents(payload);
      && Fits(if s.m.f.save then Saving else Submitting, NoteAll(Current(s.m), events))
      && TasksIn(events) == [if s.m.f.save then task else Deliver(payload)]
  {
    var a := Current(s.m);
    var raw := if Local(s.m) then d.bytes else "";
    var task := if s.m.f.catenate then AppendCatenate else AppendRaw(raw);
    var payload := Choose(s.m.(raw := raw));
    SavingFits(Begun(d), task);
    DeliveryFits(Begun(d), payload);
    hide Choose, Current, Fits, TasksIn, NoteAll, DeliveryEvents;
    NoteAllConcat(a, start, [Entered(Saving), Started(task)]);
    NoteAllConcat(a, start, DeliveryEvents(payload));
    TasksConcat(start, [Entered(Saving), Started(task)]);
    TasksConcat(start, DeliveryEvents(payload));
    assert [] + [task] == [task];
  }

  lemma SlotStates(m: Machine)
    ensures GotError(m).state == Failed && InvokeMsa(m).state == Submitting
    ensures AskToAppend(m).state == Saving
    ensures AskForUrl(m).state == PreparingUrlAuth && AskForUrl(m).f == m.f
  {
  }

  lemma CallState(m: Machine, d: Draft)
    ensures Send(m, d).state
         == if !d.modelAlive || CannotBuild(m, d) then Failed else if m.f.save then Saving else Submitting
  {
    var called := Emit(m, Called(d));
    var building := Enter(Enter(called, Init), BuildingMessage);
    var built := building.(raw := if Local(building) then d.bytes else "");
    assert Local(building) == Local(m);
    SlotStates(called);
    SlotStates(building);
    SlotStates(built);
    hide GotError, InvokeMsa, AskToAppend, Local;
  }

  /** Every input that the environment may give keeps the protocol. */
  lemma StepKeeps(s: System, i: Input)
    requires Protocol(s) && Enabled(s, i)
    ensures Protocol(Step(s, i))
  {
    hide Step, Fits, Current, NoteAll, TasksIn, Choose;
    match i
    case Call(d) => CallKeeps(s, d);
    case AppendUid(_, _) => ReportKeeps(s, i);
    case AppendDone => AppendKeeps(s);
    case UrlArrived(url) => UrlKeeps(s, url);
    case MsaDone(replying) => SentKeeps(s, i);
    case FlagsDone => SentKeeps(s, i);
    case FlagsFailed => SentKeeps(s, i);
    case _ => FailureKeeps(s, i);
  }

  lemma FailureKeeps(s: System, i: Input)
    requires Protocol(s) && Enabled(s, i) && (i.AppendFailed? || i.UrlFailed? || i.MsaFailed?)
    ensures Protocol(Step(s, i))
  {
    Answered(s, i);
    FailureFits(s.m.state, Current(s.m));
    hide Current, NoteAll, TasksIn;
    Conclude(s, i);
  }

  lemma SentKeeps(s: System, i: Input)
    requires Protocol(s) && Enabled(s, i) && (i.MsaDone? || i.FlagsDone? || i.FlagsFailed?)
    ensures Protocol(Step(s, i))
  {
    Answered(s, i);
    hide Fits, Current, NoteAll, TasksIn;
    if i.MsaDone? && i.replying { UpdatingFits(Current(s.m)); } else { SentFits(s.m.state, Current(s.m)); }
    Conclude(s, i);
  }

  lemma ReportKeeps(s: System, i: Input)
    requires Protocol(s) && Enabled(s, i) && i.AppendUid?
    ensures Protocol(Step(s, i))
  {
    NoteMore(Current(s.m), Reported(i.validity, i.uid), []);
    assert [Reported(i.validity, i.uid)] + [] == [Reported(i.validity, i.uid)];
    assert Without(s.pending, i) == s.pending;
    hide Current;
    Conclude(s, i);
  }

  lemma SavedFits(a: Attempt, p: Payload)
    requires Fits(Saving, a)
    ensures Fits(Submitting, NoteAll(a, DeliveryEvents(p))) && TasksIn(DeliveryEvents(p)) == [Deliver(p)]
  {
    DeliveryFits(a, p);
  }

  lemma AppendKeeps(s: System)
    requires Protocol(s) && Enabled(s, AppendDone)
    ensures Protocol(Step(s, AppendDone))
  {
    Answered(s, AppendDone);
    hide AppendSucceeded, NoteAll, TasksIn, Choose, Current, Fits, DeliveryEvents;
    assert s.m.state == Saving;
    if s.m.f.uid != 0 && s.m.f.validity != 0 && s.m.f.useBurl {
      UrlAuthFits(Current(s.m), s.m.f.validity, s.m.f.uid);
    } else if s.m.f.uid != 0 && s.m.f.validity != 0 {
      SavedFits(Current(s.m), Choose(s.m.(f := s.m.f.(uidReceived := true))));
    } else {
      SavedFits(Current(s.m), Choose(s.m.(f := s.m.f.(useBurl := false))));
    }
    Conclude(s, AppendDone);
  }

  lemma UrlKeeps(s: System, url: string)
    requires Protocol(s) && Enabled(s, UrlArrived(url))
    ensures Protocol(Step(s, UrlArrived(url)))
  {
    hide NoteAll, Choose, Current, Fits, TasksIn, DeliveryEvents, FailureEvents, GotError, InvokeMsa;
    Answered(s, UrlArrived(url));
    var payload := Choose(s.m.(f := s.m.f.(url := url, urlReceived := true)));
    UrlFits(Current(s.m), url, payload);
    UrlState(s.m, url);
    Conclude(s, UrlArrived(url));
  }

  lemma UrlFits(a: Attempt, url: string, payload: Payload)
    requires Fits(PreparingUrlAuth, a)
    ensures
      var more := if url == "" then FailureEvents() else DeliveryEvents(payload);
      && Fits(if url == "" then Failed else Submitting, NoteAll(a, [UrlGiven(url)] + more))
      && TasksIn([UrlGiven(url)] + more) == if url == "" then [] else [Deliver(payload)]
  {
    var more := if url == "" then FailureEvents() else DeliveryEvents(payload);
    assert [UrlGiven(url)][1..] == [] && TasksIn([UrlGiven(url)]) == [];
    NoteMore(a, UrlGiven(url), more);
    TasksConcat([UrlGiven(url)], more);
    if url == "" {
      FailureFits(PreparingUrlAuth, Note(a, UrlGiven(url)));
    } else {
      DeliveryFits(Note(a, UrlGiven(url)), payload);
    }
  }

  lemma UrlState(m: Machine, url: string)
    ensures GenUrlAuthReceived(m, url).state == if url == "" then Failed else Submitting
  {
    hide GotError, InvokeMsa;
    var given := Emit(m.(f := m.f.(url := url)), UrlGiven(url));
    SlotStates(given);
    SlotStates(given.(f := given.f.(urlReceived := true)));
  }
}
