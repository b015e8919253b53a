/** A server that does not report the UID of what it appends: the pair of an earlier attempt is still stored. */
module StaleUid {
  import opened Text
  import opened Submission
  import opened SubmissionRuns
  import opened SubmissionSafety
  import opened SubmissionDelivery

  /** The message is built locally, and where it is saved first, nothing is sent from there. */
  predicate SendsBytes(c: Config) {
    && BuildsLocally(c)
    && (c.save ==> !(c.imapSubmit && c.msaImap) && !(c.useBurl && c.genUrlAuth))
  }

  // ----- these configurations need no report -----

  lemma AppendMails(c: Config, s: System)
    requires Invariant(c, s) && SendsBytes(c) && Enabled(s, AppendDone)
    ensures Configured(c, Step(s, AppendDone).m) && Prepared(Step(s, AppendDone).m, Current(Step(s, AppendDone).m))
  {
    hide Current, NoteAll, Orderly, DeliversMessages, History, Enabled, Step, Handle, Events, DeliveryEvents, TasksIn;
    StepAdds(s, AppendDone);
    MailsAfterAppend(c, s);
    BytesChosen(c, s.m);
    DeliveryNotes(Current(s.m), ByMail(s.m.raw));
  }

  lemma MailsAfterAppend(c: Config, s: System)
    requires Invariant(c, s) && SendsBytes(c) && Enabled(s, AppendDone)
    ensures s.m.f.save && s.m.state == Saving && Current(s.m).deliveries == []
  {
    hide Current, History, DeliversMessages;
    AppendWaits(s);
  }

  lemma BytesChosen(c: Config, m: Machine)
    requires Configured(c, m) && SendsBytes(c) && m.f.save && !m.f.urlReceived
    ensures Events(m, AppendDone) == DeliveryEvents(ByMail(m.raw))
    ensures Configured(c, Handle(m, AppendDone)) && Handle(m, AppendDone).state == Submitting
  {
    hide BuildsLocally, DeliveryEvents;
    AppendedFields(m);
    EventsAre(m);
  }

  lemma AppendedFields(m: Machine)
    requires !m.f.useBurl
    ensures
      var next := Handle(m, AppendDone);
      && next.f == m.f.(uidReceived := next.f.uidReceived) && next.state == Submitting
  {
    hide Choose;
  }

  lemma StepMails(c: Config, s: System, i: Input)
    requires Invariant(c, s) && SendsBytes(c) && Enabled(s, i)
    ensures Invariant(c, Step(s, i))
  {
    hide *;
    if i == AppendDone {
      InvariantOrderly(c, s);
      AppendMails(c, s);
      StepOrderly(s, i);
      HistoryDelivers(c, s, i);
      InvariantAgain(c, Step(s, i));
    } else {
      SafeBytes(c, s, i);
      StepDelivers(c, s, i);
    }
  }

  lemma InvariantOrderly(c: Config, s: System)
    requires Invariant(c, s)
    ensures Orderly(s)
  {
  }

  lemma InvariantAgain(c: Config, s: System)
    requires Configured(c, s.m) && Prepared(s.m, Current(s.m)) && Orderly(s) && DeliversMessages(History(s.m))
    ensures Invariant(c, s)
  {
    hide Configured, Prepared, Current, History, Orderly, DeliversMessages;
  }

  lemma SafeBytes(c: Config, s: System, i: Input)
    requires SendsBytes(c)
    ensures SafeConfig(c) && (i != AppendDone ==> ReportsUid(s, i))
  {
    hide Current;
  }

  lemma {:induction false} RunMails(c: Config, s: System, inputs: seq<Input>)
    requires Invariant(c, s) && SendsBytes(c) && Possible(s, inputs)
    ensures DeliversMessages(History(Run(s, inputs).m))
    decreases |inputs|
  {
    hide Step, Enabled, Configured, Prepared, Current, Orderly, DeliversMessages, History, SendsBytes;
    if inputs != [] {
      StepMails(c, s, inputs[0]);
      RunMails(c, Step(s, inputs[0]), inputs[1..]);
    }
  }

  // ----- what an unreported APPEND leads to -----

  /** An APPEND that ends in a delivery spoils the run exactly if the payload is not the message. */
  lemma AppendDelivery(s: System, p: Payload)
    requires Orderly(s) && Enabled(s, AppendDone) && AppendedEvents(s.m) == DeliveryEvents(p)
    ensures
      var next := Step(s, AppendDone);
      DeliversMessages(History(next.m)) <==> DeliversMessages(History(s.m)) && IsMessage(Current(s.m), p)
  {
    hide *;
    AppendWaits(s);
    HistoryEnds(s);
    StepAdds(s, AppendDone);
    StepHistory(s, AppendDone);
    EventsAre(s.m);
    DeliveryNotes(Current(s.m), p);
    LastDelivers(History(s.m), Current(s.m), Current(Step(s, AppendDone).m), p);
  }

  lemma HistoryEnds(s: System)
    requires Orderly(s) && s.m.state == Saving
    ensures History(s.m) != [] && History(s.m)[|History(s.m)| - 1] == Current(s.m)
  {
    hide History, Current;
  }

  lemma EventsAre(m: Machine)
    ensures Events(m, AppendDone) == AppendedEvents(m)
  {
    hide AppendedEvents;
  }

  lemma LastDelivers(h: seq<Attempt>, a: Attempt, b: Attempt, p: Payload)
    requires h != [] && h[|h| - 1] == a && a.deliveries == [] && b.deliveries == [p]
    requires b.draft == a.draft && b.appended == a.appended
    requires b.report == a.report && b.asked == a.asked && b.given == a.given
    ensures DeliversMessages(h[..|h| - 1] + [b]) <==> DeliversMessages(h) && IsMessage(a, p)
  {
    var next := h[..|h| - 1] + [b];
    assert IsMessage(a, p) <==> IsMessage(b, p);
    hide IsMessage;
    assert next[|h| - 1] == b && p in b.deliveries;
    if DeliversMessages(next) {
      forall k | 0 <= k < |h| ensures forall q :: q in h[k].deliveries ==> IsMessage(h[k], q) {
        assert k < |h| - 1 ==> next[k] == h[k];
      }
    }
  }

  /** Without a report, what is handed over when the APPEND ends is the message exactly if the bytes are at hand and
      no pair of an earlier attempt is taken for it. */
  lemma StalePair(s: System, d: Draft)
    requires Orderly(s) && Appending(s, d)
    ensures Enabled(s, AppendDone)
    ensures
      var f, next := s.m.f, Step(s, AppendDone);
      var stale := f.validity != 0 && f.uid != 0;
      if stale && f.useBurl then next.m.state == PreparingUrlAuth && next.pending == [GenUrlAuth(f.validity, f.uid)]
      else DeliversMessages(History(next.m))
           <==> DeliversMessages(History(s.m)) && !(stale && f.imapSubmit && f.msaImap) && s.m.raw == d.bytes
  {
    hide Orderly, Current, History, Step, DeliversMessages, TasksIn, NoteAll, Handle, Events, DeliveryEvents, Enabled,
         Choose;
    AppendsOnce(s);
    var stale := s.m.f.validity != 0 && s.m.f.uid != 0;
    UnreportedEvents(s.m);
    if stale && s.m.f.useBurl {
      ReportedFields(s.m);
      StepAdds(s, AppendDone);
      NoteTwo(Current(s.m), Entered(PreparingUrlAuth), Started(GenUrlAuth(s.m.f.validity, s.m.f.uid)));
    } else if stale && s.m.f.imapSubmit && s.m.f.msaImap {
      AppendDelivery(s, ByImap(s.m.f.validity, s.m.f.uid));
    } else {
      AppendDelivery(s, ByMail(s.m.raw));
    }
  }

  lemma AppendsOnce(s: System)
    requires |s.pending| == 1 && (s.pending[0].AppendCatenate? || s.pending[0].AppendRaw?)
    ensures Enabled(s, AppendDone) && Without(s.pending, AppendDone) == []
  {
    assert s.pending[0] in s.pending;
  }

  lemma UnreportedEvents(m: Machine)
    requires !m.f.uidReceived && !m.f.urlReceived
    ensures
      var stale := m.f.validity != 0 && m.f.uid != 0;
      var p := if stale && m.f.imapSubmit && m.f.msaImap then ByImap(m.f.validity, m.f.uid) else ByMail(m.raw);
      !(stale && m.f.useBurl) ==> AppendedEvents(m) == DeliveryEvents(p)
  {
    hide DeliveryEvents;
  }

  /** Where the URL of a pair was asked for that this attempt has not reported, the delivery goes wrong. */
  lemma StaleUrl(s: System, url: string)
    requires Orderly(s) && s.m.state == PreparingUrlAuth && s.m.f.useBurl && Current(s.m).report == None && url != ""
    ensures Enabled(s, UrlArrived(url)) && !DeliversMessages(History(Step(s, UrlArrived(url)).m))
  {
    hide Orderly, Current, History, Step, DeliversMessages, TasksIn, NoteAll, Handle, Enabled, Protocol;
    UrlPending(s, url);
    var b := Note(Current(s.m), UrlGiven(url));
    var p := Choose(s.m.(f := s.m.f.(url := url, urlReceived := true)));
    StepAdds(s, UrlArrived(url));
    NoteMore(Current(s.m), UrlGiven(url), DeliveryEvents(p));
    DeliveryNotes(b, p);
    Misdelivered(s, UrlArrived(url), p);
  }

  lemma UrlPending(s: System, url: string)
    requires Orderly(s) && s.m.state == PreparingUrlAuth
    ensures s.pending == [GenUrlAuth(s.m.f.validity, s.m.f.uid)]
    ensures Enabled(s, UrlArrived(url)) && Enabled(s, UrlFailed) && Current(s.m).deliveries == []
  {
    hide History, Current;
    assert s.pending[0] in s.pending;
    InPreparing(s, UrlFailed);
  }

  // ----- the other configurations go wrong -----

  ghost predicate Spoilt(s: System, inputs: seq<Input>) {
    Possible(s, inputs) && !DeliversMessages(History(Run(s, inputs).m))
  }

  lemma SpoiltBefore(s: System, i: Input, rest: seq<Input>)
    requires Enabled(s, i) && Spoilt(Step(s, i), rest)
    ensures Spoilt(s, [i] + rest)
  {
    hide Enabled, Step, DeliversMessages, History, Run, Possible, Reporting;
    RunCons(s, i, rest);
  }

  lemma SpoiltAtLast(s: System, i: Input)
    requires Enabled(s, i) && !DeliversMessages(History(Step(s, i).m))
    ensures Spoilt(s, [i])
  {
    hide Enabled, Step, DeliversMessages, History, Run, Possible, Reporting;
    NoInputs(Step(s, i));
    SpoiltBefore(s, i, []);
    assert [i] + [] == [i];
  }

  predicate Idle(s: System) {
    Orderly(s) && s.pending == [] && s.m.f.save
  }

  lemma TaskFails(s: System, i: Input)
    requires Orderly(s)
    requires (s.m.state == Submitting && i == MsaFailed) || (s.m.state == PreparingUrlAuth && i == UrlFailed)
    ensures Enabled(s, i) && Orderly(Step(s, i)) && Step(s, i).pending == [] && Step(s, i).m.f == s.m.f
  {
    hide Orderly, History, Current, NoteAll, TasksIn, Step, Handle, Enabled, Events;
    TaskWaits(s, i);
    StepOrderly(s, i);
    StepAdds(s, i);
    FailureFields(s.m, i);
  }

  lemma TaskWaits(s: System, i: Input)
    requires Orderly(s)
    requires (s.m.state == Submitting && i == MsaFailed) || (s.m.state == PreparingUrlAuth && i == UrlFailed)
    ensures Enabled(s, i) && Without(s.pending, i) == []
  {
    hide History, Current, Fits;
    assert s.pending[0] in s.pending;
  }

  lemma FailureFields(m: Machine, i: Input)
    requires i.MsaFailed? || i.UrlFailed?
    ensures Handle(m, i).f == m.f && Events(m, i) == FailureEvents() && TasksIn(FailureEvents()) == []
  {
    SlotFields(m);
    NoteTwo(NOTHING, Entered(Failed), SignalledFailure);
    hide GotError, TasksIn;
  }

  lemma AppendEnds(s: System, d: Draft)
    requires Orderly(s) && s.m.state == Saving && |s.pending| == 1
    requires s.pending[0].AppendCatenate? || s.pending[0].AppendRaw?
    requires s.m.f.validity != 0 && s.m.f.uid != 0
    ensures
      var next := Step(s, AppendDone);
      && Enabled(s, AppendDone) && Orderly(next) && next.m.f == s.m.f.(uidReceived := true)
      && next.m.state == if s.m.f.useBurl then PreparingUrlAuth else Submitting
  {
    hide Orderly, History, Current, NoteAll, TasksIn, Choose;
    assert s.pending[0] in s.pending;
    StepOrderly(s, AppendDone);
    StepAdds(s, AppendDone);
  }

  /** A first attempt whose APPEND is reported and whose delivery, or the request for a URL, fails. */
  function FirstAttempt(f: Fields): seq<Input> {
    [Call(DRAFT), AppendUid(1, 7), AppendDone, if f.useBurl then UrlFailed else MsaFailed]
  }

  lemma FirstAttemptStores(s: System) returns (next: System)
    requires Idle(s) && s.pending == []
    ensures Idle(next) && next.m.f == s.m.f.(uidReceived := true, urlReceived := false, validity := 1, uid := 7)
    ensures forall rest :: Spoilt(next, rest) ==> Spoilt(s, FirstAttempt(s.m.f) + rest)
  {
    hide Orderly, History, Current, Step, Enabled, Spoilt, CannotBuild, Local;
    DraftBuilds(s.m);
    CallEnabled(s, DRAFT);
    CallAppends(s, DRAFT);
    var s1 := Step(s, Call(DRAFT));
    ReportArrives(s1, DRAFT, 1, 7);
    var s2 := Step(s1, AppendUid(1, 7));
    AppendEnds(s2, DRAFT);
    var s3 := Step(s2, AppendDone);
    var last := if s.m.f.useBurl then UrlFailed else MsaFailed;
    TaskFails(s3, last);
    next := Step(s3, last);
    forall rest | Spoilt(next, rest) ensures Spoilt(s, FirstAttempt(s.m.f) + rest) {
      SpoiltBefore(s3, last, rest);
      SpoiltBefore(s2, AppendDone, [last] + rest);
      SpoiltBefore(s1, AppendUid(1, 7), [AppendDone] + ([last] + rest));
      SpoiltBefore(s, Call(DRAFT), [AppendUid(1, 7)] + ([AppendDone] + ([last] + rest)));
      assert [Call(DRAFT)] + ([AppendUid(1, 7)] + ([AppendDone] + ([last] + rest))) == FirstAttempt(s.m.f) + rest;
    }
  }

  lemma DraftBuilds(m: Machine)
    ensures !CannotBuild(m, DRAFT) && DRAFT.bytes != "" && DRAFT.modelAlive
  {
  }

  /** The second attempt is sent from the mailbox, but with the pair of the first one. */
  lemma StalePairIsSent(c: Config) returns (inputs: seq<Input>)
    requires c.save && c.imapSubmit && c.msaImap && !(c.useBurl && c.genUrlAuth)
    ensures inputs == [Call(DRAFT), AppendUid(1, 7), AppendDone, MsaFailed, Call(DRAFT), AppendDone]
    ensures Spoilt(Fresh(c), inputs)
  {
    hide Orderly, History, Current, Step, Enabled, Spoilt, CannotBuild, Local;
    FreshIdle(c);
    DraftBuilds(Fresh(c).m);
    var s := FirstAttemptStores(Fresh(c));
    DraftBuilds(s.m);
    CallEnabled(s, DRAFT);
    CallAppends(s, DRAFT);
    StalePair(Step(s, Call(DRAFT)), DRAFT);
    SpoiltAtLast(Step(s, Call(DRAFT)), AppendDone);
    SpoiltBefore(s, Call(DRAFT), [AppendDone]);
    inputs := FirstAttempt(Fresh(c).m.f) + ([Call(DRAFT)] + [AppendDone]);
  }

  lemma FreshIdle(c: Config)
    ensures c.save ==> Idle(Fresh(c))
    ensures Configured(c, Fresh(c).m) && Fresh(c).m.f.uid == 0 && (BuildsLocally(c) <==> Local(Fresh(c).m))
  {
    hide Orderly;
    FreshInvariant(c);
  }

  /** The second attempt is sent by a URL that was asked for with the pair of the first one. */
  lemma StaleUrlIsSent(c: Config) returns (inputs: seq<Input>)
    requires c.save && c.useBurl && c.genUrlAuth
    ensures inputs
         == [Call(DRAFT), AppendUid(1, 7), AppendDone, UrlFailed, Call(DRAFT), AppendDone, UrlArrived("u")]
    ensures Spoilt(Fresh(c), inputs)
  {
    hide Orderly, History, Current, Step, Enabled, Spoilt, CannotBuild, Local;
    FreshIdle(c);
    var s := FirstAttemptStores(Fresh(c));
    DraftBuilds(s.m);
    CallEnabled(s, DRAFT);
    CallAppends(s, DRAFT);
    var s1 := Step(s, Call(DRAFT));
    StalePair(s1, DRAFT);
    AsksInAttempt(s1, DRAFT);
    var s2 := Step(s1, AppendDone);
    StaleUrl(s2, "u");
    SpoiltAtLast(s2, UrlArrived("u"));
    SpoiltBefore(s1, AppendDone, [UrlArrived("u")]);
    SpoiltBefore(s, Call(DRAFT), [AppendDone] + [UrlArrived("u")]);
    inputs := FirstAttempt(Fresh(c).m.f) + ([Call(DRAFT)] + ([AppendDone] + [UrlArrived("u")]));
  }

  lemma AsksInAttempt(s: System, d: Draft)
    requires Orderly(s) && Appending(s, d) && s.m.f.validity != 0 && s.m.f.uid != 0 && s.m.f.useBurl
    ensures
      var next := Step(s, AppendDone);
      Orderly(next) && next.m.f.useBurl && Current(next.m).report == None
  {
    hide Orderly, History, Current, NoteAll, TasksIn;
    AppendEnds(s, d);
    StepAdds(s, AppendDone);
    NoteTwo(Current(s.m), Entered(PreparingUrlAuth), Started(GenUrlAuth(s.m.f.validity, s.m.f.uid)));
  }

  /** A message that is not built locally and was saved unseen is handed over empty. */
  lemma EmptyWithoutReport(c: Config) returns (inputs: seq<Input>)
    requires !BuildsLocally(c) && c.save
    ensures inputs == [Call(DRAFT), AppendDone] && Spoilt(Fresh(c), inputs)
  {
    hide Orderly, History, Current, Step, Enabled, Spoilt, CannotBuild, Local, BuildsLocally;
    FreshIdle(c);
    var s := Fresh(c);
    DraftBuilds(s.m);
    CallEnabled(s, DRAFT);
    CallAppends(s, DRAFT);
    StalePair(Step(s, Call(DRAFT)), DRAFT);
    SpoiltAtLast(Step(s, Call(DRAFT)), AppendDone);
    SpoiltBefore(s, Call(DRAFT), [AppendDone]);
    inputs := [Call(DRAFT)] + [AppendDone];
  }

  lemma EmptyAtOnce(c: Config) returns (inputs: seq<Input>)
    requires !BuildsLocally(c) && !c.save
    ensures Spoilt(Fresh(c), inputs)
  {
    hide Fresh, Possible, Run, History, DeliversMessages, BuildsLocally, Reporting;
    inputs := EmptyWithoutSaving(c);
  }

  /** Whatever the server reports, the agent is given the message in every run exactly if it is always given the
      bytes that were built locally. */
  lemma AnyServer(c: Config)
    ensures SendsBytes(c) <==>
              forall inputs :: Possible(Fresh(c), inputs) ==> DeliversMessages(History(Run(Fresh(c), inputs).m))
  {
    hide Possible, Run, DeliversMessages, History, Fresh, BuildsLocally;
    if SendsBytes(c) {
      FreshInvariant(c);
      forall inputs | Possible(Fresh(c), inputs) ensures DeliversMessages(History(Run(Fresh(c), inputs).m)) {
        RunMails(c, Fresh(c), inputs);
      }
    } else {
      var inputs := SpoiltRun(c);
    }
  }

  lemma SpoiltRun(c: Config) returns (inputs: seq<Input>)
    requires !SendsBytes(c)
    ensures Possible(Fresh(c), inputs) && !DeliversMessages(History(Run(Fresh(c), inputs).m))
  {
    hide Possible, Run, DeliversMessages, History, Fresh, BuildsLocally;
    if !BuildsLocally(c) {
      if c.save { inputs := EmptyWithoutReport(c); } else { inputs := EmptyAtOnce(c); }
    } else if c.useBurl && c.genUrlAuth {
      inputs := StaleUrlIsSent(c);
    } else {
      inputs := StalePairIsSent(c);
    }
  }
}
