/** The course an attempt takes: what is built, saved, asked for and handed over, by the options and capabilities. */
module SubmissionCourse {
  import opened Text
  import opened Submission
  import opened SubmissionRuns
  import opened SubmissionSafety
  import opened SubmissionDelivery

  /** There is a connection, CATENATE gets its list of pieces, and the bytes are there unless the server can put the
      message together and it is sent from there. */
  predicate Buildable(c: Config, d: Draft) {
    && d.modelAlive
    && (c.catenate ==> d.catenateOk)
    && ((c.catenate && (c.imapSubmit || (c.useBurl && c.genUrlAuth))) || (d.ready && d.rawOk))
  }

  predicate AsksForUrl(c: Config) { c.save && c.useBurl && c.genUrlAuth }

  predicate SendsFromImap(c: Config) { c.save && c.imapSubmit && c.msaImap }

  /** What an attempt does. */
  predicate Follows(c: Config, a: Attempt) {
    && a.draft.Some?
    && (a.appended.Some? <==> Buildable(c, a.draft.value) && c.save)
    && (a.appended.Some? ==> (a.appended.value.AppendCatenate? <==> c.catenate))
    && (a.deliveries != [] ==> Buildable(c, a.draft.value) && (a.asked.Some? <==> AsksForUrl(c)))
    && (Buildable(c, a.draft.value) && !c.save ==> a.deliveries != [])
    && (a.asked.Some? ==> AsksForUrl(c))
    && forall p :: p in a.deliveries ==>
         && (p.ByImap? <==> SendsFromImap(c))
         && (p.ByBurl? <==> AsksForUrl(c) && !SendsFromImap(c))
  }

  // ----- the invariant -----

  predicate Charted(c: Config, m: Machine, a: Attempt) {
    && Configured(c, m)
    && (m.state != Init ==> Follows(c, a))
    && (!c.save ==> !m.f.uidReceived && !m.f.urlReceived)
    && (m.state in {Saving, PreparingUrlAuth} ==>
          c.save && a.appended.Some? && a.deliveries == [] && !m.f.urlReceived)
    && (m.state == Saving ==> a.asked.None? && (a.report.Some? ==> a.report == Some((m.f.validity, m.f.uid))))
    && (m.state == PreparingUrlAuth ==> a.asked.Some? && m.f.uidReceived && m.f.useBurl)
  }

  lemma BuildableIs(c: Config, m: Machine, d: Draft)
    requires Configured(c, m)
    ensures d.modelAlive && !CannotBuild(m, d) <==> Buildable(c, d)
  {
  }

  /** The notes of a call that fails, one that saves and one that delivers at once. */
  lemma CallNotes(m: Machine, a: Attempt, d: Draft)
    ensures
      var b := NoteAll(a, CallEvents(m, d));
      var task := if m.f.catenate then AppendCatenate else AppendRaw(if Local(m) then d.bytes else "");
      && b.draft == Some(d) && b.asked == None && b.report == None
      && if !d.modelAlive || CannotBuild(m, d) then b.appended == None && b.deliveries == []
         else if m.f.save then b.appended == Some(task) && b.deliveries == []
         else b.appended == None && b.deliveries == [Choose(m.(raw := if Local(m) then d.bytes else ""))]
  {
    hide NoteAll, CannotBuild, Local, TasksIn, FailureEvents, DeliveryEvents, Choose;
    var start := [Called(d), Entered(Init), Entered(BuildingMessage)];
    OpeningNotes(a, d);
    if !d.modelAlive {
      NoteAllConcat(a, [Called(d)], FailureEvents());
      OnlyFails(NOTHING.(draft := Some(d)));
    } else if CannotBuild(m, d) {
      NoteAllConcat(a, start, FailureEvents());
      OnlyFails(Begun(d));
    } else if m.f.save {
      var task := if m.f.catenate then AppendCatenate else AppendRaw(if Local(m) then d.bytes else "");
      NoteAllConcat(a, start, [Entered(Saving), Started(task)]);
      NoteTwo(Begun(d), Entered(Saving), Started(task));
    } else {
      var built := m.(raw := if Local(m) then d.bytes else "");
      NoteAllConcat(a, start, DeliveryEvents(Choose(built)));
      DeliveryNotes(Begun(d), Choose(built));
    }
  }

  lemma OnlyFails(a: Attempt)
    ensures
      var b := NoteAll(a, FailureEvents());
      && b.draft == a.draft && b.appended == a.appended && b.report == a.report && b.asked == a.asked
      && b.deliveries == a.deliveries
  {
    NoteTwo(a, Entered(Failed), SignalledFailure);
  }

  lemma CallFollows(c: Config, s: System, d: Draft)
    requires Charted(c, s.m, Current(s.m))
    ensures Charted(c, Step(s, Call(d)).m, Current(Step(s, Call(d)).m))
  {
    hide *;
    var m, a := s.m, Current(s.m);
    StepAdds(s, Call(d));
    CallIs(m, d);
    CallFields(m, d);
    CallNotes(m, a, d);
    CallCharted(c, m, a, Handle(m, Call(d)), NoteAll(a, CallEvents(m, d)), d);
  }

  lemma CallCharted(c: Config, m: Machine, a: Attempt, next: Machine, b: Attempt, d: Draft)
    requires Charted(c, m, a)
    requires
      var task := if m.f.catenate then AppendCatenate else AppendRaw(if Local(m) then d.bytes else "");
      && b.draft == Some(d) && b.asked == None && b.report == None
      && if !d.modelAlive || CannotBuild(m, d) then
           b.appended == None && b.deliveries == [] && next.f == m.f && next.state == Failed
         else if m.f.save then
           && b.appended == Some(task) && b.deliveries == [] && next.state == Saving
           && next.f == m.f.(uidReceived := false, urlReceived := false)
         else
           && b.appended == None && b.deliveries == [Choose(m.(raw := if Local(m) then d.bytes else ""))]
           && next.f == m.f && next.state == Submitting
    ensures Charted(c, next, b)
  {
    BuildableIs(c, m, d);
    hide CannotBuild, Local, Buildable;
  }

  lemma AppendFollows(c: Config, s: System)
    requires Charted(c, s.m, Current(s.m)) && Orderly(s) && Enabled(s, AppendDone) && ReportsUid(s, AppendDone)
    ensures Charted(c, Step(s, AppendDone).m, Current(Step(s, AppendDone).m))
  {
    hide *;
    var m, a := s.m, Current(s.m);
    var next := Handle(m, AppendDone);
    StepAdds(s, AppendDone);
    AppendWaits(s);
    PairIsKnown(c, s);
    ReportedFields(m);
    var known := m.(f := m.f.(uidReceived := true));
    if m.f.useBurl {
      NoteTwo(a, Entered(PreparingUrlAuth), Started(GenUrlAuth(m.f.validity, m.f.uid)));
      AskingNotes(a, m.f.validity, m.f.uid);
    } else {
      DeliveryNotes(a, Choose(known));
    }
    AppendCharted(c, m, a, next, NoteAll(a, Events(m, AppendDone)));
  }

  lemma AskingNotes(a: Attempt, validity: nat, uid: nat)
    ensures Note(Note(a, Entered(PreparingUrlAuth)), Started(GenUrlAuth(validity, uid)))
         == a.(states := a.states + [PreparingUrlAuth], asked := Some((validity, uid)))
  {
  }

  lemma PairIsKnown(c: Config, s: System)
    requires Charted(c, s.m, Current(s.m)) && s.m.state == Saving && ReportsUid(s, AppendDone)
    ensures s.m.f.validity != 0 && s.m.f.uid != 0
  {
    hide Current;
  }

  lemma AppendCharted(c: Config, m: Machine, a: Attempt, next: Machine, b: Attempt)
    requires Charted(c, m, a) && m.state == Saving
    requires next.f == m.f.(uidReceived := true) && next.state == (if m.f.useBurl then PreparingUrlAuth else Submitting)
    requires b.draft == a.draft && b.appended == a.appended && b.report == a.report
    requires if m.f.useBurl then b.asked.Some? && b.deliveries == a.deliveries
             else b.asked == a.asked && b.deliveries == [Choose(m.(f := m.f.(uidReceived := true)))]
    ensures Charted(c, next, b)
  {
    hide Buildable;
  }

  lemma UrlFollows(c: Config, s: System, url: string)
    requires Charted(c, s.m, Current(s.m)) && Orderly(s) && Enabled(s, UrlArrived(url))
    ensures Charted(c, Step(s, UrlArrived(url)).m, Current(Step(s, UrlArrived(url)).m))
  {
    hide *;
    var m, a, i := s.m, Current(s.m), UrlArrived(url);
    var b := Note(a, UrlGiven(url));
    StepAdds(s, i);
    OrderlyWaits(s, i);
    UrlFields(m, url);
    UrlGivenNote(a, url);
    var known := m.(f := m.f.(url := url, urlReceived := true));
    if url == "" {
      NoteMore(a, UrlGiven(url), FailureEvents());
      OnlyFails(b);
    } else {
      NoteMore(a, UrlGiven(url), DeliveryEvents(Choose(known)));
      DeliveryNotes(b, Choose(known));
    }
    UrlCharted(c, m, a, Handle(m, i), NoteAll(a, Events(m, i)), url);
  }

  lemma UrlCharted(c: Config, m: Machine, a: Attempt, next: Machine, b: Attempt, url: string)
    requires Charted(c, m, a) && m.state == PreparingUrlAuth
    requires b.draft == a.draft && b.appended == a.appended && b.report == a.report && b.asked == a.asked
    requires if url == "" then next.f == m.f.(url := url) && next.state == Failed && b.deliveries == a.deliveries
             else
               var known := m.(f := m.f.(url := url, urlReceived := true));
               next.f == known.f && next.state == Submitting && b.deliveries == [Choose(known)]
    ensures Charted(c, next, b)
  {
    hide Buildable;
  }

  lemma ReportFollows(c: Config, s: System, i: Input)
    requires Charted(c, s.m, Current(s.m)) && Orderly(s) && Enabled(s, i) && i.AppendUid?
    ensures Charted(c, Step(s, i).m, Current(Step(s, i).m))
  {
    hide *;
    StepAdds(s, i);
    ReportNotes(s.m, Current(s.m), i.validity, i.uid);
    ReportWaits(s, i);
    ReportCharted(c, s.m, Current(s.m), i.validity, i.uid);
  }

  lemma ReportNotes(m: Machine, a: Attempt, validity: nat, uid: nat)
    ensures NoteAll(a, Events(m, AppendUid(validity, uid))) == a.(report := Some((validity, uid)))
    ensures Handle(m, AppendUid(validity, uid)).f == m.f.(validity := validity, uid := uid)
    ensures Handle(m, AppendUid(validity, uid)).state == m.state
  {
    NoteMore(a, Reported(validity, uid), []);
    assert [Reported(validity, uid)] + [] == [Reported(validity, uid)];
  }

  lemma ReportWaits(s: System, i: Input)
    requires Orderly(s) && Enabled(s, i) && i.AppendUid?
    ensures s.m.state == Saving
  {
    hide Current, History;
    InSaving(s, i);
  }

  lemma ReportCharted(c: Config, m: Machine, a: Attempt, validity: nat, uid: nat)
    requires Charted(c, m, a) && m.state == Saving
    ensures forall next: Machine :: next.f == m.f.(validity := validity, uid := uid) && next.state == m.state ==>
                                      Charted(c, next, a.(report := Some((validity, uid))))
  {
    hide Buildable;
  }

  lemma EndFollows(c: Config, s: System, i: Input)
    requires Charted(c, s.m, Current(s.m)) && Orderly(s) && Enabled(s, i)
    requires !i.Call? && !i.AppendDone? && !i.AppendUid? && !i.UrlArrived?
    ensures Charted(c, Step(s, i).m, Current(Step(s, i).m))
  {
    hide *;
    StepAdds(s, i);
    EndFields(s.m, Current(s.m), i);
    UnderWay(s, i);
    EndCharted(c, s.m, Current(s.m), Handle(s.m, i), NoteAll(Current(s.m), Events(s.m, i)));
  }

  lemma UnderWay(s: System, i: Input)
    requires Orderly(s) && Enabled(s, i) && !i.Call?
    ensures s.m.state != Init
  {
    hide Current, History;
    Answerable(s, i);
  }

  lemma EndCharted(c: Config, m: Machine, a: Attempt, next: Machine, b: Attempt)
    requires Charted(c, m, a) && m.state != Init && next.f == m.f && next.state in {Failed, Sent, UpdatingFlags}
    requires b.draft == a.draft && b.appended == a.appended && b.asked == a.asked && b.deliveries == a.deliveries
    ensures Charted(c, next, b)
  {
    hide Buildable;
  }

  lemma StepFollows(c: Config, s: System, i: Input)
    requires Charted(c, s.m, Current(s.m)) && Orderly(s) && Enabled(s, i) && ReportsUid(s, i)
    ensures Charted(c, Step(s, i).m, Current(Step(s, i).m)) && Orderly(Step(s, i))
  {
    hide *;
    StepOrderly(s, i);
    match i {
      case Call(d) => CallFollows(c, s, d);
      case AppendDone => AppendFollows(c, s);
      case AppendUid(_, _) => ReportFollows(c, s, i);
      case UrlArrived(url) => UrlFollows(c, s, url);
      case _ => EndFollows(c, s, i);
    }
  }

  // ----- all runs -----

  predicate AllFollow(c: Config, h: seq<Attempt>) { forall k :: 0 <= k < |h| ==> Follows(c, h[k]) }

  lemma {:induction false} RunFollows(c: Config, s: System, inputs: seq<Input>)
    requires Charted(c, s.m, Current(s.m)) && Orderly(s) && AllFollow(c, History(s.m))
    requires Possible(s, inputs) && Reporting(s, inputs)
    ensures AllFollow(c, History(Run(s, inputs).m))
    decreases |inputs|
  {
    hide Charted, Orderly, AllFollow, History, Current, Step, Enabled, ReportsUid;
    if inputs != [] {
      StepFollows(c, s, inputs[0]);
      HistoryFollows(c, s, inputs[0]);
      RunFollows(c, Step(s, inputs[0]), inputs[1..]);
    }
  }

  lemma HistoryFollows(c: Config, s: System, i: Input)
    requires Orderly(s) && Enabled(s, i) && AllFollow(c, History(s.m))
    requires Charted(c, Step(s, i).m, Current(Step(s, i).m))
    ensures AllFollow(c, History(Step(s, i).m))
  {
    hide *;
    OrderlyParts(s);
    if !i.Call? { UnderWay(s, i); }
    Leaves(s, i);
    StepHistory(s, i);
    LastFollows(c, Step(s, i).m, Current(Step(s, i).m));
    AddedFollows(c, History(s.m), Current(Step(s, i).m), i.Call?);
  }

  lemma LastFollows(c: Config, m: Machine, a: Attempt)
    requires Charted(c, m, a) && m.state != Init
    ensures Follows(c, a)
  {
    hide Follows;
  }

  lemma AddedFollows(c: Config, h: seq<Attempt>, a: Attempt, call: bool)
    requires AllFollow(c, h) && Follows(c, a) && (call || h != [])
    ensures AllFollow(c, (if call then h else h[..|h| - 1]) + [a])
  {
    hide Follows;
  }

  /** In every run against a server that reports UIDs, every attempt takes the course that the options and capabilities
      ask for: it is given up while it is built exactly if something that is needed is missing; it is saved exactly if
      saving is chosen, by CATENATE exactly if the server has it; a URL is asked for exactly if BURL is chosen, the
      server can do URLAUTH and the message is saved; and the agent is given the UID pair where the message is saved and
      sent by IMAP submission by an agent that can do it, the URL where there is one otherwise, and the bytes in all
      other cases. */
  lemma EveryCourse(c: Config, inputs: seq<Input>)
    requires Possible(Fresh(c), inputs) && Reporting(Fresh(c), inputs)
    ensures forall k :: 0 <= k < |History(Run(Fresh(c), inputs).m)| ==> Follows(c, History(Run(Fresh(c), inputs).m)[k])
  {
    hide *;
    FreshCharted(c);
    RunFollows(c, Fresh(c), inputs);
    AllFollowIs(c, History(Run(Fresh(c), inputs).m));
  }

  lemma FreshCharted(c: Config)
    ensures
      var s := Fresh(c);
      Charted(c, s.m, Current(s.m)) && Orderly(s) && AllFollow(c, History(s.m))
  {
    FreshKeeps(c);
  }

  lemma AllFollowIs(c: Config, h: seq<Attempt>)
    ensures AllFollow(c, h) <==> forall k :: 0 <= k < |h| ==> Follows(c, h[k])
  {
    hide Follows;
  }

  /** The composer's window sets both kinds of options before it sends: this is where every run starts. */
  method Configure(c: Config) returns (submission: Submission)
    ensures fresh(submission) && submission.View() == Fresh(c).m
  {
    submission := new Submission(c.catenate, c.genUrlAuth, c.msaImap);
    submission.SetImapOptions(c.save, c.imapSubmit);
    submission.SetSmtpOptions(c.useBurl);
  }
}
