/** Sending one message: build it, save it to the sent folder, ask for a URL, hand it to the delivery
    agent, mark the message it replies to. */
module Submission {
  import opened Text

  datatype State =
    | Init | BuildingMessage | Saving | PreparingUrlAuth | Submitting | UpdatingFlags | Sent | Failed

  /** What the composer and the IMAP connection have to offer when send() is called. */
  datatype Draft = Draft(modelAlive: bool, ready: bool, rawOk: bool, catenateOk: bool, bytes: string)

  datatype Payload = ByImap(validity: nat, uid: nat) | ByBurl(url: string) | ByMail(data: string)

  datatype Task = AppendCatenate | AppendRaw(data: string) | GenUrlAuth(validity: nat, uid: nat)
                | Deliver(payload: Payload) | UpdateFlags

  /** What an observer of the object sees, in order. */
  datatype Event =
    | Called(draft: Draft)
    | Entered(state: State)
    | Started(task: Task)
    | Reported(validity: nat, uid: nat)
    | UrlGiven(url: string)
    | SignalledSuccess
    | SignalledFailure

  /** The options, the capabilities of server and agent, and what the server has answered. */
  datatype Fields = Fields(
    save: bool, imapSubmit: bool, useBurl: bool, catenate: bool, genUrlAuth: bool, msaImap: bool,
    uidReceived: bool, validity: nat, uid: nat, urlReceived: bool, url: string)

  /** The object: these fields, its state, the serialised message, and what has happened. */
  datatype Machine = Machine(f: Fields, state: State, raw: string, trace: seq<Event>)

  // ----- the slots -----

  predicate Local(m: Machine) {
    if !m.f.imapSubmit then !(m.f.useBurl && m.f.catenate && m.f.genUrlAuth) else !m.f.catenate
  }

  function Emit(m: Machine, e: Event): Machine { m.(trace := m.trace + [e]) }

  function Enter(m: Machine, s: State): Machine { Emit(m.(state := s), Entered(s)) }

  function GotError(m: Machine): Machine { Emit(Enter(m, Failed), SignalledFailure) }

  function Choose(m: Machine): Payload {
    if m.f.imapSubmit && m.f.msaImap && m.f.uidReceived then ByImap(m.f.validity, m.f.uid)
    else if m.f.urlReceived && m.f.useBurl then ByBurl(m.f.url)
    else ByMail(m.raw)
  }

  function InvokeMsa(m: Machine): Machine {
    var submitting := Enter(m, Submitting);
    Emit(submitting, Started(Deliver(Choose(submitting))))
  }

  function AskForUrl(m: Machine): Machine {
    Emit(Enter(m, PreparingUrlAuth), Started(GenUrlAuth(m.f.validity, m.f.uid)))
  }

  function MessageDataAvailable(m: Machine, d: Draft): Machine {
    var built := m.(raw := if Local(m) then d.bytes else "");
    if Local(m) && !d.rawOk then GotError(built)
    else if m.f.catenate && !d.catenateOk then GotError(built)
    else if m.f.save then AskToAppend(built)
    else InvokeMsa(built)
  }

  function AskToAppend(m: Machine): Machine {
    var saving := Enter(m.(f := m.f.(uidReceived := false, urlReceived := false)), Saving);
    Emit(saving, Started(if m.f.catenate then AppendCatenate else AppendRaw(m.raw)))
  }

  function Send(m: Machine, d: Draft): Machine {
    var called := Emit(m, Called(d));
    if !d.modelAlive then GotError(called)
    else
      var building := Enter(Enter(called, Init), BuildingMessage);
      if Local(m) && !d.ready then GotError(building) else MessageDataAvailable(building, d)
  }

  function AppendUidKnown(m: Machine, validity: nat, uid: nat): Machine {
    Emit(m.(f := m.f.(validity := validity, uid := uid)), Reported(validity, uid))
  }

  function AppendSucceeded(m: Machine): Machine {
    if m.f.uid != 0 && m.f.validity != 0 then
      var known := m.(f := m.f.(uidReceived := true));
      if m.f.useBurl then AskForUrl(known) else InvokeMsa(known)
    else InvokeMsa(m.(f := m.f.(useBurl := false)))
  }

  function GenUrlAuthReceived(m: Machine, url: string): Machine {
    var given := Emit(m.(f := m.f.(url := url)), UrlGiven(url));
    if url != "" then InvokeMsa(given.(f := given.f.(urlReceived := true))) else GotError(given)
  }

  function MsaSent(m: Machine, replying: bool): Machine {
    if replying then Enter(Emit(m, Started(UpdateFlags)), UpdatingFlags)
    else Emit(Enter(m, Sent), SignalledSuccess)
  }

  function FlagsUpdated(m: Machine): Machine { Emit(Enter(m, Sent), SignalledSuccess) }

  // ----- the object -----

  /** The object itself. Every slot changes its fields exactly as the function of the same name says. */
  class Submission {
    const catenate: bool
    const genUrlAuth: bool
    const msaImap: bool
    var appendUidReceived: bool
    var appendUidValidity: nat
    var appendUid: nat
    var genUrlAuthReceived: bool
    var urlauth: string
    var saveToSentFolder: bool
    var useBurl: bool
    var useImapSubmit: bool
    var state: State
    var rawMessageData: string
    ghost var trace: seq<Event>

    ghost function View(): Machine
      reads this
    {
      Machine(Fields(saveToSentFolder, useImapSubmit, useBurl, catenate, genUrlAuth, msaImap,
                     appendUidReceived, appendUidValidity, appendUid, genUrlAuthReceived, urlauth),
              state, rawMessageData, trace)
    }

    constructor (catenate: bool, genUrlAuth: bool, msaImap: bool)
      ensures View() == Machine(Fields(false, false, false, catenate, genUrlAuth, msaImap, false, 0, 0, false, ""),
                                Init, "", [])
    {
      this.catenate, this.genUrlAuth, this.msaImap := catenate, genUrlAuth, msaImap;
      appendUidReceived, appendUidValidity, appendUid, genUrlAuthReceived := false, 0, 0, false;
      urlauth, saveToSentFolder, useBurl, useImapSubmit := "", false, false, false;
      state, rawMessageData, trace := Init, "", [];
    }

    method SetImapOptions(saveToSentFolder: bool, useImapSubmit: bool)
      modifies this
      ensures View() == old(View()).(f := old(View().f).(save := saveToSentFolder, imapSubmit := useImapSubmit))
    {
      this.saveToSentFolder, this.useImapSubmit := saveToSentFolder, useImapSubmit;
    }

    /** BURL needs the URLAUTH extension. */
    method SetSmtpOptions(useBurl: bool)
      modifies this
      ensures View() == old(View()).(f := old(View().f).(useBurl := useBurl && genUrlAuth))
    {
      this.useBurl := useBurl;
      if this.useBurl && !genUrlAuth {
        this.useBurl := false;
      }
    }

    method ChangeConnectionState(s: State)
      modifies this
      ensures View() == Enter(old(View()), s)
    {
      state := s;
      trace := trace + [Entered(s)];
    }

    method ShouldBuildMessageLocally() returns (local: bool)
      ensures local == old(Local(View()))
    {
      if !useImapSubmit {
        local := !(useBurl && catenate && genUrlAuth);
      } else {
        local := !catenate;
      }
    }

    method SlotGotError()
      modifies this
      ensures View() == GotError(old(View()))
    {
      ChangeConnectionState(Failed);
      trace := trace + [SignalledFailure];
    }

    method SlotSend(d: Draft)
      modifies this
      ensures View() == Send(old(View()), d)
    {
      trace := trace + [Called(d)];
      if !d.modelAlive {
        SlotGotError();
        return;
      }
      ChangeConnectionState(Init);
      ChangeConnectionState(BuildingMessage);
      var local := ShouldBuildMessageLocally();
      if local && !d.ready {
        SlotGotError();
      } else {
        SlotMessageDataAvailable(d);
      }
    }

    method SlotMessageDataAvailable(d: Draft)
      modifies this
      ensures View() == MessageDataAvailable(old(View()), d)
    {
      hide AskToAppend, InvokeMsa, GotError;
      rawMessageData := "";
      var local := ShouldBuildMessageLocally();
      if local {
        rawMessageData := d.bytes;
        if !d.rawOk {
          SlotGotError();
          return;
        }
      }
      if catenate && !d.catenateOk {
        SlotGotError();
        return;
      }
      if saveToSentFolder {
        StartAppend();
      } else {
        SlotInvokeMsaNow();
      }
    }

    method StartAppend()
      modifies this
      ensures View() == AskToAppend(old(View()))
    {
      appendUidReceived := false;
      genUrlAuthReceived := false;
      ChangeConnectionState(Saving);
      trace := trace + [Started(if catenate then AppendCatenate else AppendRaw(rawMessageData))];
    }

    method SlotAskForUrl()
      requires appendUidReceived && useBurl
      modifies this
      ensures View() == AskForUrl(old(View()))
    {
      ChangeConnectionState(PreparingUrlAuth);
      trace := trace + [Started(GenUrlAuth(appendUidValidity, appendUid))];
    }

    method SlotInvokeMsaNow()
      modifies this
      ensures View() == InvokeMsa(old(View()))
    {
      ChangeConnectionState(Submitting);
      var payload;
      if useImapSubmit && msaImap && appendUidReceived {
        payload := ByImap(appendUidValidity, appendUid);
      } else if genUrlAuthReceived && useBurl {
        payload := ByBurl(urlauth);
      } else {
        payload := ByMail(rawMessageData);
      }
      trace := trace + [Started(Deliver(payload))];
    }

    method SlotAppendUidKnown(uidValidity: nat, uid: nat)
      modifies this
      ensures View() == AppendUidKnown(old(View()), uidValidity, uid)
    {
      appendUidValidity := uidValidity;
      appendUid := uid;
      trace := trace + [Reported(uidValidity, uid)];
    }

    method SlotAppendSucceeded()
      modifies this
      ensures View() == AppendSucceeded(old(View()))
    {
      if appendUid != 0 && appendUidValidity != 0 {
        appendUidReceived := true;
        if useBurl {
          SlotAskForUrl();
        } else {
          SlotInvokeMsaNow();
        }
      } else {
        useBurl := false;
        SlotInvokeMsaNow();
      }
    }

    method SlotGenUrlAuthReceived(url: string)
      modifies this
      ensures View() == GenUrlAuthReceived(old(View()), url)
    {
      urlauth := url;
      trace := trace + [UrlGiven(url)];
      if urlauth != "" {
        genUrlAuthReceived := true;
        SlotInvokeMsaNow();
      } else {
        SlotGotError();
      }
    }

    method SlotSent(replying: bool)
      modifies this
      ensures View() == MsaSent(old(View()), replying)
    {
      if replying {
        trace := trace + [Started(UpdateFlags)];
        ChangeConnectionState(UpdatingFlags);
      } else {
        ChangeConnectionState(Sent);
        trace := trace + [SignalledSuccess];
      }
    }

    /** Whether the flag update succeeded or failed. */
    method SlotUpdatingFlagsEnded()
      modifies this
      ensures View() == FlagsUpdated(old(View()))
    {
      ChangeConnectionState(Sent);
      trace := trace + [SignalledSuccess];
    }
  }
}
