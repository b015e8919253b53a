/** What the delivery agent is given: the message itself, in one of three forms. */
module SubmissionDelivery {
  import opened Text
  import opened Submission
  import opened SubmissionRuns
  import opened SubmissionSafety

  /** What the attempt has appended is its message: the serialised bytes, or the list of pieces, from which the server
      assembles them. */
  predicate IsSaved(a: Attempt) {
    && a.draft.Some? && a.appended.Some?
    && (a.appended.value.AppendRaw? ==> a.appended.value.data == a.draft.value.bytes)
  }

  /** The payload stands for the message of its attempt: the serialised bytes, or a URL that was asked for and given for
      the UID pair reported for what this attempt has saved, or that nonzero pair. */
  predicate IsMessage(a: Attempt, p: Payload) {
    match p
    case ByMail(data) => a.draft.Some? && data == a.draft.value.bytes
    case ByImap(validity, uid) => IsSaved(a) && a.report == Some((validity, uid)) && validity != 0 && uid != 0
    case ByBurl(url) =>
      && IsSaved(a) && url != "" && a.given == Some(url)
      && a.report.Some? && a.report.value.0 != 0 && a.report.value.1 != 0 && a.asked == a.report
  }

  predicate DeliversMessages(h: seq<Attempt>) {
    forall k :: 0 <= k < |h| ==> forall p :: p in h[k].deliveries ==> IsMessage(h[k], p)
  }

  /** A server with UIDPLUS: an APPEND reports a nonzero pair before it ends. */
  predicate ReportsUid(s: System, i: Input) {
    i.AppendDone? ==>
      var report := Current(s.m).report;
      report.Some? && report.value.0 != 0 && report.value.1 != 0
  }

  predicate Reporting(s: System, inputs: seq<Input>)
    decreases |inputs|
  {
    inputs == [] || (ReportsUid(s, inputs[0]) && Reporting(Step(s, inputs[0]), inputs[1..]))
  }

  predicate BuildsLocally(c: Config) {
    Local(Fresh(c).m)
  }

  /** Either the message is built locally, or it is saved first and there is a way to send it from there. */
  predicate SafeConfig(c: Config) {
    BuildsLocally(c) || (c.save && (c.imapSubmit ==> c.msaImap || (c.useBurl && c.genUrlAuth)))
  }

  // ----- the invariant -----

  predicate Configured(c: Config, m: Machine) {
    && m.f.save == c.save && m.f.imapSubmit == c.imapSubmit && m.f.useBurl == (c.useBurl && c.genUrlAuth)
    && m.f.catenate == c.catenate && m.f.genUrlAuth == c.genUrlAuth && m.f.msaImap == c.msaImap
  }

  /** The message of the attempt is at hand in the state the object is in. */
  predicate Prepared(m: Machine, a: Attempt) {
    && (!m.f.save ==> !m.f.uidReceived && !m.f.urlReceived)
    && (m.state in {Saving, PreparingUrlAuth} ==>
          && m.f.save && !m.f.urlReceived && IsSaved(a)
          && (Local(m) ==> m.raw == a.draft.value.bytes)
          && (a.report.Some? ==> a.report == Some((m.f.validity, m.f.uid))))
    && (m.state == PreparingUrlAuth ==>
          && m.f.uidReceived && m.f.useBurl
          && a.report.Some? && m.f.validity != 0 && m.f.uid != 0 && a.asked == a.report)
    && forall p :: p in a.deliveries ==> IsMessage(a, p)
  }

  predicate Invariant(c: Config, s: System) {
    && Configured(c, s.m) && Prepared(s.m, Current(s.m))
    && Orderly(s) && DeliversMessages(History(s.m))
  }

  /** Handing over is right if the fields are. */
  predicate ReadyToDeliver(c: Config, m: Machine, a: Attempt) {
    && Configured(c, m) && SafeConfig(c) && a.draft.Some?
    && (Local(m) ==> m.raw == a.draft.value.bytes)
    && (m.f.uidReceived ==> IsSaved(a))
    && (m.f.uidReceived ==> a.report == Some((m.f.validity, m.f.uid)) && m.f.validity != 0 && m.f.uid != 0)
    && (m.f.urlReceived ==> m.f.uidReceived && m.f.url != "" && a.given == Some(m.f.url) && a.asked == a.report)
    && (m.f.save ==> m.f.uidReceived && (m.f.useBurl ==> m.f.urlReceived))
    && (!m.f.save ==> !m.f.uidReceived && !m.f.urlReceived)
  }

  lemma ChoiceIsMessage(c: Config, m: Machine, a: Attempt)
    requires ReadyToDeliver(c, m, a)
    ensures IsMessage(a, Choose(m))
  {
  }

  lemma SlotFields(m: Machine)
    ensures GotError(m).f == InvokeMsa(m).f == FlagsUpdated(m).f == m.f
    ensures GotError(m).state == Failed && InvokeMsa(m).state == Submitting && FlagsUpdated(m).state == Sent
    ensures AskToAppend(m).f == m.f.(uidReceived := false, urlReceived := false)
    ensures AskToAppend(m).state == Saving && AskToAppend(m).raw == m.raw
  {
    hide Choose;
  }

  /** What the call itself does to the fields. */
  lemma CallFields(m: Machine, d: Draft)
    ensures
      var next := Send(m, d);
      if !d.modelAlive || CannotBuild(m, d) then next.f == m.f && next.state == Failed
      else if m.f.save then
        next.f == m.f.(uidReceived := false, urlReceived := false) && next.state == Saving
        && next.raw == (if Local(m) then d.bytes else "")
      else next.f == m.f && next.state == Submitting
  {
    var called := Emit(m, Called(d));
    var building := Enter(Enter(called, Init), BuildingMessage);
    SlotFields(called);
    SlotFields(building);
    SlotFields(building.(raw := if Local(m) then d.bytes else ""));
    hide GotError, InvokeMsa, AskToAppend;
  }

  lemma CallDelivers(c: Config, s: System, d: Draft)
    requires Invariant(c, s) && SafeConfig(c) && s.pending == []
    ensures Configured(c, Step(s, Call(d)).m) && Prepared(Step(s, Call(d)).m, Current(Step(s, Call(d)).m))
  {
    hide *;
    var m, a := s.m, Current(s.m);
    var next := Handle(m, Call(d));
    StepAdds(s, Call(d));
    CallFields(m, d);
    CallIs(m, d);
    InvariantFields(c, s);
    if !d.modelAlive || CannotBuild(m, d) {
      CallFails(m, a, d);
      NothingUnderWay(c, m, next, NoteAll(a, CallEvents(m, d)));
    } else if m.f.save {
      CallSaves(m, a, d);
      NowSaving(c, m, next, NoteAll(a, CallEvents(m, d)), d);
    } else {
      CallSends(c, m, a, d);
      NothingUnderWay(c, m, next, NoteAll(a, CallEvents(m, d)));
    }
  }

  lemma CallIs(m: Machine, d: Draft)
    ensures Handle(m, Call(d)) == Send(m, d) && Events(m, Call(d)) == CallEvents(m, d)
  {
    hide Send, CallEvents;
  }

  lemma InvariantFields(c: Config, s: System)
    requires Invariant(c, s)
    ensures Configured(c, s.m) && (s.m.f.save || (!s.m.f.uidReceived && !s.m.f.urlReceived))
  {
    hide Current, History, Orderly, DeliversMessages;
  }

  lemma CallFails(m: Machine, a: Attempt, d: Draft)
    requires !d.modelAlive || CannotBuild(m, d)
    ensures NoteAll(a, CallEvents(m, d)).deliveries == []
  {
    hide NoteAll, CannotBuild, FailureEvents;
    var start := [Called(d), Entered(Init), Entered(BuildingMessage)];
    OpeningNotes(a, d);
    NoteAllConcat(a, start, FailureEvents());
    NoteAllConcat(a, [Called(d)], FailureEvents());
    FailureNotes(NOTHING.(draft := Some(d)));
    FailureNotes(Begun(d));
  }

  lemma CallSaves(m: Machine, a: Attempt, d: Draft)
    requires d.modelAlive && !CannotBuild(m, d) && m.f.save
    ensures
      var b := NoteAll(a, CallEvents(m, d));
      b.draft == Some(d) && b.report == None && b.deliveries == [] && IsSaved(b)
    ensures
      var tasks := TasksIn(CallEvents(m, d));
      |tasks| == 1 && (tasks[0].AppendCatenate? || tasks[0].AppendRaw?)
  {
    RawIsLocal(m);
    hide NoteAll, CannotBuild, Local, TasksIn;
    var start := [Called(d), Entered(Init), Entered(BuildingMessage)];
    var task := if m.f.catenate then AppendCatenate else AppendRaw(if Local(m) then d.bytes else "");
    OpeningNotes(a, d);
    NoteAllConcat(a, start, [Entered(Saving), Started(task)]);
    TasksConcat(start, [Entered(Saving), Started(task)]);
    NoteTwo(Begun(d), Entered(Saving), Started(task));
  }

  /** An APPEND of raw bytes is one of a message that was built locally. */
  lemma RawIsLocal(m: Machine)
    ensures !m.f.catenate ==> Local(m)
  {
  }

  lemma CallSends(c: Config, m: Machine, a: Attempt, d: Draft)
    requires d.modelAlive && !CannotBuild(m, d) && !m.f.save && Configured(c, m) && SafeConfig(c)
    requires !m.f.uidReceived && !m.f.urlReceived
    ensures
      var b := NoteAll(a, CallEvents(m, d));
      forall p :: p in b.deliveries ==> IsMessage(b, p)
  {
    hide NoteAll, CannotBuild, IsMessage, DeliveryEvents, Choose;
    var start := [Called(d), Entered(Init), Entered(BuildingMessage)];
    var built := m.(raw := if Local(m) then d.bytes else "");
    OpeningNotes(a, d);
    NoteAllConcat(a, start, DeliveryEvents(Choose(built)));
    ChoiceIsMessage(c, built, Begun(d));
    DeliveryNotes(Begun(d), Choose(built));
  }

  lemma NowSaving(c: Config, m: Machine, next: Machine, a: Attempt, d: Draft)
    requires Configured(c, m) && m.f.save && next.state == Saving && a.deliveries == []
    requires next.f == m.f.(uidReceived := false, urlReceived := false)
    requires next.raw == (if Local(m) then d.bytes else "") && a.draft == Some(d) && a.report == None
    requires IsSaved(a)
    ensures Configured(c, next) && Prepared(next, a)
  {
  }

  lemma AppendDelivers(c: Config, s: System)
    requires Invariant(c, s) && SafeConfig(c) && Enabled(s, AppendDone) && ReportsUid(s, AppendDone)
    ensures Configured(c, Step(s, AppendDone).m) && Prepared(Step(s, AppendDone).m, Current(Step(s, AppendDone).m))
  {
    hide Current, NoteAll, Orderly, DeliversMessages, History, Step, Handle, Events, TasksIn, Choose, DeliveryEvents,
         SafeConfig, IsMessage, Enabled;
    var m, a := s.m, Current(s.m);
    var next := Handle(m, AppendDone);
    StepAdds(s, AppendDone);
    AppendWaits(s);
    ReportedFields(m);
    if m.f.useBurl {
      NowAsking(c, m, next, a);
    } else {
      ReportedIsMessage(c, m, a);
      DeliveryNotes(a, Choose(m.(f := m.f.(uidReceived := true))));
      NothingUnderWay(c, m, next, NoteAll(a, Events(m, AppendDone)));
    }
  }

  lemma ReportedFields(m: Machine)
    requires m.f.uid != 0 && m.f.validity != 0
    ensures
      var next, known := Handle(m, AppendDone), m.(f := m.f.(uidReceived := true));
      && next.f == known.f && next.raw == m.raw && next.state == (if m.f.useBurl then PreparingUrlAuth else Submitting)
      && Events(m, AppendDone)
         == if m.f.useBurl then [Entered(PreparingUrlAuth), Started(GenUrlAuth(m.f.validity, m.f.uid))]
            else DeliveryEvents(Choose(known))
  {
    hide Choose, DeliveryEvents;
  }

  lemma NowAsking(c: Config, m: Machine, next: Machine, a: Attempt)
    requires Configured(c, m) && Prepared(m, a) && m.state == Saving && m.f.useBurl && a.deliveries == []
    requires a.report == Some((m.f.validity, m.f.uid)) && m.f.validity != 0 && m.f.uid != 0
    requires next.f == m.f.(uidReceived := true) && next.state == PreparingUrlAuth && next.raw == m.raw
    ensures
      var events := [Entered(PreparingUrlAuth), Started(GenUrlAuth(m.f.validity, m.f.uid))];
      Configured(c, next) && Prepared(next, NoteAll(a, events))
  {
    NoteTwo(a, Entered(PreparingUrlAuth), Started(GenUrlAuth(m.f.validity, m.f.uid)));
    hide NoteAll, IsMessage;
  }

  lemma ReportedIsMessage(c: Config, m: Machine, a: Attempt)
    requires Configured(c, m) && Prepared(m, a) && SafeConfig(c) && m.state == Saving && !m.f.useBurl
    requires a.report == Some((m.f.validity, m.f.uid)) && m.f.validity != 0 && m.f.uid != 0
    ensures IsMessage(a, Choose(m.(f := m.f.(uidReceived := true))))
  {
    ChoiceIsMessage(c, m.(f := m.f.(uidReceived := true)), a);
  }

  lemma AppendWaits(s: System)
    requires Orderly(s) && Enabled(s, AppendDone)
    ensures s.m.state == Saving && Current(s.m).deliveries == []
  {
    hide Current, History;
    InSaving(s, AppendDone);
  }

  lemma InSaving(s: System, i: Input)
    requires Protocol(s) && Enabled(s, i) && (i.AppendDone? || i.AppendUid? || i.AppendFailed?)
    ensures s.m.state == Saving && Current(s.m).deliveries == []
  {
  }

  /** A delivery adds one payload to the attempt and changes nothing else that matters. */
  lemma DeliveryNotes(a: Attempt, p: Payload)
    requires a.deliveries == []
    ensures
      var b := NoteAll(a, DeliveryEvents(p));
      && b.deliveries == [p] && b.draft == a.draft && b.appended == a.appended
      && b.report == a.report && b.asked == a.asked && b.given == a.given
      && (IsMessage(a, p) ==> forall q :: q in b.deliveries ==> IsMessage(b, q))
  {
    NoteTwo(a, Entered(Submitting), Started(Deliver(p)));
  }

  lemma UrlDelivers(c: Config, s: System, url: string)
    requires Invariant(c, s) && SafeConfig(c) && Enabled(s, UrlArrived(url))
    ensures
      var next := Step(s, UrlArrived(url));
      Configured(c, next.m) && Prepared(next.m, Current(next.m))
  {
    hide *;
    var m, a, i := s.m, Current(s.m), UrlArrived(url);
    var next, b := Handle(m, i), Note(a, UrlGiven(url));
    StepAdds(s, i);
    UrlWaits(c, s, i);
    UrlFields(m, url);
    UrlGivenNote(a, url);
    if url == "" {
      NoteMore(a, UrlGiven(url), FailureEvents());
      FailureNotes(b);
    } else {
      var known := m.(f := m.f.(url := url, urlReceived := true));
      NoteMore(a, UrlGiven(url), DeliveryEvents(Choose(known)));
      UrlIsReady(c, m, a, url);
      DeliveryNotes(b, Choose(known));
    }
    NothingUnderWay(c, m, next, NoteAll(a, Events(m, i)));
  }

  lemma UrlWaits(c: Config, s: System, i: Input)
    requires Invariant(c, s) && Enabled(s, i) && (i.UrlArrived? || i.UrlFailed?)
    ensures Configured(c, s.m) && Prepared(s.m, Current(s.m)) && s.m.f.save
    ensures s.m.state == PreparingUrlAuth && Current(s.m).deliveries == []
  {
    hide Current, History, DeliversMessages, IsMessage, Fits;
    OrderlyWaits(s, i);
  }

  lemma OrderlyWaits(s: System, i: Input)
    requires Orderly(s) && Enabled(s, i) && (i.UrlArrived? || i.UrlFailed?)
    ensures s.m.state == PreparingUrlAuth && Current(s.m).deliveries == []
  {
    hide Current, History;
    InPreparing(s, i);
  }

  lemma UrlFields(m: Machine, url: string)
    ensures
      var next, given := Handle(m, UrlArrived(url)), m.f.(url := url);
      var known := given.(urlReceived := true);
      && next.f == (if url == "" then given else known)
      && next.state == (if url == "" then Failed else Submitting)
      && Events(m, UrlArrived(url))
         == [UrlGiven(url)] + if url == "" then FailureEvents() else DeliveryEvents(Choose(m.(f := known)))
  {
    hide GotError, InvokeMsa, Choose, FailureEvents, DeliveryEvents;
    var given := Emit(m.(f := m.f.(url := url)), UrlGiven(url));
    SlotFields(given);
    SlotFields(given.(f := given.f.(urlReceived := true)));
  }

  lemma UrlGivenNote(a: Attempt, url: string)
    ensures Note(a, UrlGiven(url)) == a.(given := Some(url))
  {
  }

  lemma FailureNotes(a: Attempt)
    ensures NoteAll(a, FailureEvents()).deliveries == a.deliveries
  {
    NoteTwo(a, Entered(Failed), SignalledFailure);
  }

  /** Where no APPEND and no request for a URL is under way, only the deliveries count. */
  lemma NothingUnderWay(c: Config, m: Machine, next: Machine, a: Attempt)
    requires Configured(c, m) && next.state !in {Saving, PreparingUrlAuth}
    requires next.f == m.f.(url := next.f.url, uidReceived := next.f.uidReceived, urlReceived := next.f.urlReceived)
    requires next.f.save || (!next.f.uidReceived && !next.f.urlReceived)
    requires forall p :: p in a.deliveries ==> IsMessage(a, p)
    ensures Configured(c, next) && Prepared(next, a)
  {
    hide IsMessage;
  }

  lemma UrlIsReady(c: Config, m: Machine, a: Attempt, url: string)
    requires Configured(c, m) && Prepared(m, a) && SafeConfig(c) && m.state == PreparingUrlAuth && url != ""
    ensures IsMessage(Note(a, UrlGiven(url)), Choose(m.(f := m.f.(url := url, urlReceived := true))))
  {
    var known, b := m.(f := m.f.(url := url, urlReceived := true)), Note(a, UrlGiven(url));
    assert ReadyToDeliver(c, known, b);
    ChoiceIsMessage(c, known, b);
  }

  lemma InPreparing(s: System, i: Input)
    requires Protocol(s) && Enabled(s, i) && (i.UrlArrived? || i.UrlFailed?)
    ensures s.m.state == PreparingUrlAuth && Current(s.m).deliveries == []
  {
  }

  lemma ReportDelivers(c: Config, s: System, i: Input)
    requires Invariant(c, s) && Enabled(s, i) && i.AppendUid?
    ensures
      var next := Step(s, i);
      Configured(c, next.m) && Prepared(next.m, Current(next.m))
  {
    StepAdds(s, i);
    InSaving(s, i);
    NoteMore(Current(s.m), Reported(i.validity, i.uid), []);
    assert [Reported(i.validity, i.uid)] + [] == [Reported(i.validity, i.uid)];
    hide Current, Orderly, DeliversMessages, History;
  }

  /** The other inputs end something and deliver nothing. */
  lemma EndDelivers(c: Config, s: System, i: Input)
    requires Invariant(c, s) && Enabled(s, i)
    requires !i.Call? && !i.AppendDone? && !i.AppendUid? && !i.UrlArrived?
    ensures
      var next := Step(s, i);
      Configured(c, next.m) && Prepared(next.m, Current(next.m))
  {
    hide Current, Orderly, DeliversMessages, History, NoteAll, TasksIn, Step;
    StepAdds(s, i);
    EndFields(s.m, Current(s.m), i);
    assert Configured(c, Handle(s.m, i));
  }

  lemma EndFields(m: Machine, a: Attempt, i: Input)
    requires !i.Call? && !i.AppendDone? && !i.AppendUid? && !i.UrlArrived?
    ensures
      var next, b := Handle(m, i), NoteAll(a, Events(m, i));
      && next.f == m.f && next.state in {Failed, Sent, UpdatingFlags}
      && b.draft == a.draft && b.appended == a.appended
      && b.report == a.report && b.asked == a.asked && b.given == a.given
      && b.deliveries == a.deliveries
  {
    SlotFields(m);
    SentFields(m);
    NoteTwo(a, Entered(Failed), SignalledFailure);
    NoteTwo(a, Entered(Sent), SignalledSuccess);
    NoteTwo(a, Started(UpdateFlags), Entered(UpdatingFlags));
    hide GotError, FlagsUpdated, MsaSent, NoteAll, TasksIn;
  }

  lemma SentFields(m: Machine)
    ensures MsaSent(m, true).f == m.f && MsaSent(m, true).state == UpdatingFlags
    ensures MsaSent(m, false).f == m.f && MsaSent(m, false).state == Sent
  {
  }

  lemma StepDelivers(c: Config, s: System, i: Input)
    requires Invariant(c, s) && SafeConfig(c) && Enabled(s, i) && ReportsUid(s, i)
    ensures Invariant(c, Step(s, i))
  {
    hide Current, History, Step, Handle, Configured, Enabled, ReportsUid, SafeConfig;
    match i {
      case Call(d) => CallIdle(s, d); CallDelivers(c, s, d);
      case AppendDone => AppendDelivers(c, s);
      case AppendUid(_, _) => ReportDelivers(c, s, i);
      case UrlArrived(url) => UrlDelivers(c, s, url);
      case _ => EndDelivers(c, s, i);
    }
    StepOrderly(s, i);
    HistoryDelivers(c, s, i);
  }

  lemma CallIdle(s: System, d: Draft)
    requires Enabled(s, Call(d))
    ensures s.pending == []
  {
  }

  lemma HistoryDelivers(c: Config, s: System, i: Input)
    requires Invariant(c, s) && Enabled(s, i)
    requires Prepared(Step(s, i).m, Current(Step(s, i).m))
    ensures DeliversMessages(History(Step(s, i).m))
  {
    if !i.Call? { Answerable(s, i); }
    StepHistory(s, i);
    var h, next := History(s.m), Current(Step(s, i).m);
    assert forall p :: p in next.deliveries ==> IsMessage(next, p);
    hide Current, History, Step, Protocol, IsMessage;
  }

  lemma {:induction false} RunDelivers(c: Config, s: System, inputs: seq<Input>)
    requires Invariant(c, s) && SafeConfig(c) && Possible(s, inputs) && Reporting(s, inputs)
    ensures DeliversMessages(History(Run(s, inputs).m))
    decreases |inputs|
  {
    if inputs != [] {
      StepDelivers(c, s, inputs[0]);
      RunDelivers(c, Step(s, inputs[0]), inputs[1..]);
    }
  }

  // ----- which configurations are safe -----

  lemma FreshInvariant(c: Config)
    ensures Invariant(c, Fresh(c))
  {
    FreshKeeps(c);
  }

  lemma RunCons(s: System, i: Input, rest: seq<Input>)
    ensures Run(s, [i] + rest) == Run(Step(s, i), rest)
    ensures Possible(s, [i] + rest) <==> Enabled(s, i) && Possible(Step(s, i), rest)
    ensures Reporting(s, [i] + rest) <==> ReportsUid(s, i) && Reporting(Step(s, i), rest)
  {
    hide Step, Enabled, ReportsUid;
    assert ([i] + rest)[1..] == rest;
  }

  /** One wrong payload in the current attempt spoils the run. */
  lemma Misdelivered(s: System, i: Input, p: Payload)
    requires Orderly(s) && Enabled(s, i)
    requires p in Current(Step(s, i).m).deliveries && !IsMessage(Current(Step(s, i).m), p)
    ensures !DeliversMessages(History(Step(s, i).m))
  {
    if !i.Call? { Answerable(s, i); }
    StepHistory(s, i);
    hide Step, Current, History, Enabled, IsMessage;
    var h := History(Step(s, i).m);
    assert h[|h| - 1] == Current(Step(s, i).m);
  }

  const DRAFT := Draft(true, true, true, true, "x")

  /** Without the sent folder there is nothing to send from: an empty message is delivered. */
  lemma EmptyWithoutSaving(c: Config) returns (inputs: seq<Input>)
    requires !BuildsLocally(c) && !c.save
    ensures inputs == [Call(DRAFT)]
    ensures Possible(Fresh(c), inputs) && Reporting(Fresh(c), inputs)
    ensures !DeliversMessages(History(Run(Fresh(c), inputs).m))
  {
    hide *;
    var s := Fresh(c);
    FreshDelivers(c);
    EmptyDelivery(s, DRAFT);
    CallEnabled(s, DRAFT);
    Misdelivered(s, Call(DRAFT), ByMail(""));
    RunCons(s, Call(DRAFT), []);
    NoInputs(Step(s, Call(DRAFT)));
    inputs := [Call(DRAFT)] + [];
  }

  lemma FreshDelivers(c: Config)
    requires !BuildsLocally(c) && !c.save
    ensures
      var s := Fresh(c);
      && Orderly(s) && s.pending == [] && DRAFT.bytes != ""
      && CallEvents(s.m, DRAFT)
         == [Called(DRAFT), Entered(Init), Entered(BuildingMessage)] + DeliveryEvents(ByMail(""))
  {
    FreshInvariant(c);
    hide Orderly, DeliveryEvents;
  }

  /** A call that hands over the empty text spoils the attempt. */
  lemma EmptyDelivery(s: System, d: Draft)
    requires d.bytes != ""
    requires CallEvents(s.m, d)
          == [Called(d), Entered(Init), Entered(BuildingMessage)] + DeliveryEvents(ByMail(""))
    ensures
      var a := Current(Step(s, Call(d)).m);
      ByMail("") in a.deliveries && !IsMessage(a, ByMail(""))
  {
    var start := [Called(d), Entered(Init), Entered(BuildingMessage)];
    hide Step, Current, NoteAll, CallEvents, DeliveryEvents, Handle, TasksIn, Without;
    StepAdds(s, Call(d));
    OpeningNotes(Current(s.m), d);
    NoteAllConcat(Current(s.m), start, DeliveryEvents(ByMail("")));
    DeliveryNotes(Begun(d), ByMail(""));
  }

  /** The state in which an APPEND is under way. */
  predicate Appending(s: System, d: Draft) {
    && s.m.state == Saving && |s.pending| == 1 && (s.pending[0].AppendCatenate? || s.pending[0].AppendRaw?)
    && Current(s.m).draft == Some(d) && Current(s.m).report == None && Current(s.m).deliveries == []
    && !s.m.f.uidReceived && !s.m.f.urlReceived
  }

  lemma CallAppends(s: System, d: Draft)
    requires Orderly(s) && s.pending == [] && s.m.f.save && d.modelAlive && !CannotBuild(s.m, d)
    ensures
      var next := Step(s, Call(d));
      && Orderly(next) && Appending(next, d)
      && next.m.f == s.m.f.(uidReceived := false, urlReceived := false)
      && next.m.raw == (if Local(s.m) then d.bytes else "")
  {
    hide NoteAll, Current, History, Step, Orderly, TasksIn, CannotBuild, Local, Handle, Events, CallEvents, Send,
         Enabled;
    CallEnabled(s, d);
    StepOrderly(s, Call(d));
    StepAdds(s, Call(d));
    CallFields(s.m, d);
    CallIs(s.m, d);
    CallSaves(s.m, Current(s.m), d);
  }

  lemma ReportArrives(s: System, d: Draft, validity: nat, uid: nat)
    requires Orderly(s) && Appending(s, d)
    ensures
      var i := AppendUid(validity, uid);
      var next := Step(s, i);
      && Enabled(s, i) && Orderly(next)
      && next.m.f == s.m.f.(validity := validity, uid := uid) && next.m.raw == s.m.raw && next.m.state == Saving
      && next.pending == s.pending
      && Current(next.m) == Current(s.m).(report := Some((validity, uid)))
  {
    var i := AppendUid(validity, uid);
    assert s.pending[0] in s.pending;
    StepOrderly(s, i);
    StepAdds(s, i);
    NoteMore(Current(s.m), Reported(validity, uid), []);
    assert [Reported(validity, uid)] + [] == [Reported(validity, uid)];
    hide Current, Orderly, History, Step;
  }

  /** When an APPEND ends and the chosen payload is not the message, the run is spoilt. */
  lemma AppendMisdelivers(s: System, p: Payload)
    requires Orderly(s) && s.m.state == Saving && |s.pending| == 1
    requires s.pending[0].AppendCatenate? || s.pending[0].AppendRaw?
    requires AppendedEvents(s.m) == DeliveryEvents(p)
    requires Current(s.m).deliveries == [] && !IsMessage(Current(s.m), p)
    ensures Enabled(s, AppendDone) && !DeliversMessages(History(Step(s, AppendDone).m))
  {
    assert s.pending[0] in s.pending;
    StepAdds(s, AppendDone);
    assert Events(s.m, AppendDone) == DeliveryEvents(p);
    DeliveryNotes(Current(s.m), p);
    hide NoteAll, Current, History, Events, Handle, TasksIn, Without, Orderly, Step;
    Misdelivered(s, AppendDone, p);
  }

  /** With neither an agent that can send from IMAP nor BURL, the saved message is out of reach. */
  lemma EmptyWithoutAgent(c: Config) returns (inputs: seq<Input>)
    requires !BuildsLocally(c) && c.save && c.imapSubmit && !c.msaImap && !(c.useBurl && c.genUrlAuth)
    ensures inputs == [Call(DRAFT), AppendUid(1, 1), AppendDone]
    ensures Possible(Fresh(c), inputs) && Reporting(Fresh(c), inputs)
    ensures !DeliversMessages(History(Run(Fresh(c), inputs).m))
  {
    hide Fresh, Step, Current, History, Enabled, Orderly, AppendedEvents, DeliveryEvents, Local, CannotBuild, Invariant,
         BuildsLocally, Run, Possible, Reporting;
    var s0 := Fresh(c);
    FreshAppends(c);
    CallEnabled(s0, DRAFT);
    var s1 := Step(s0, Call(DRAFT));
    CallAppends(s0, DRAFT);
    var s2 := Step(s1, AppendUid(1, 1));
    ReportArrives(s1, DRAFT, 1, 1);
    EmptyAppend(s2.m);
    AppendMisdelivers(s2, ByMail(""));
    RunCons(s0, Call(DRAFT), [AppendUid(1, 1)] + ([AppendDone] + []));
    RunCons(s1, AppendUid(1, 1), [AppendDone] + []);
    RunCons(s2, AppendDone, []);
    NoInputs(Step(s2, AppendDone));
    inputs := [Call(DRAFT)] + ([AppendUid(1, 1)] + ([AppendDone] + []));
  }

  lemma NoInputs(s: System)
    ensures Run(s, []) == s && Possible(s, []) && Reporting(s, [])
  {
  }

  lemma FreshAppends(c: Config)
    requires !BuildsLocally(c) && c.save
    ensures
      var s := Fresh(c);
      Orderly(s) && s.pending == [] && !CannotBuild(s.m, DRAFT) && !Local(s.m) && Configured(c, s.m)
  {
    FreshInvariant(c);
    hide Orderly;
  }

  lemma EmptyAppend(m: Machine)
    requires m.f.uid != 0 && m.f.validity != 0 && !m.f.useBurl && !(m.f.imapSubmit && m.f.msaImap) && m.raw == ""
    ensures AppendedEvents(m) == DeliveryEvents(ByMail(""))
  {
  }

  lemma CallEnabled(s: System, d: Draft)
    requires s.pending == []
    ensures Enabled(s, Call(d)) && ReportsUid(s, Call(d))
  {
  }

  /** With servers that report the UID of what they append, the agent is given the message in every run
      exactly if the configuration is a safe one. */
  lemma SafeConfigurations(c: Config)
    ensures SafeConfig(c) <==>
              forall inputs :: Possible(Fresh(c), inputs) && Reporting(Fresh(c), inputs) ==>
                                 DeliversMessages(History(Run(Fresh(c), inputs).m))
  {
    hide Possible, Reporting, Run, DeliversMessages, History;
    if SafeConfig(c) {
      FreshInvariant(c);
      forall inputs | Possible(Fresh(c), inputs) && Reporting(Fresh(c), inputs)
        ensures DeliversMessages(History(Run(Fresh(c), inputs).m))
      {
        RunDelivers(c, Fresh(c), inputs);
      }
    } else if c.save {
      NotLocal(c);
      var inputs := EmptyWithoutAgent(c);
    } else {
      var inputs := EmptyWithoutSaving(c);
    }
  }

  lemma NotLocal(c: Config)
    requires !SafeConfig(c) && c.save
    ensures !BuildsLocally(c) && c.imapSubmit && !c.msaImap && !(c.useBurl && c.genUrlAuth)
  {
  }
}
