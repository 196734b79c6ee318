/** The editor page script (src/public/js/editor-integration.js): the lock
    display and the read-only state it drives, the force-save button, the
    debounced preview and autosave, and the lock polling.

    Timers are tokens: scheduling a timer stores a fresh token in the closure
    variable, `clearTimeout` is the replacement of that token, and a timer
    event carrying any other token is a cancelled timer and does nothing. */
module EditorClient {
  import opened Common

  /** The `lockInfo` object of a lock or save answer. */
  datatype LockInfo = LockInfo(user: Option<string>, client: Option<string>)

  /** What the `lockStatus` element shows. */
  datatype Banner = Unset | OwnedByYou | LockedBy(user: Option<string>) | NotLocked

  /** The requests the page sends with `fetch`. */
  datatype Request =
    | PreviewRequest(content: string)
    | SaveRequest(fileId: string, content: string, forceSave: bool)
    | LockRequest(fileId: string)

  /** The closure variables and the parts of the document the handlers read
      and write. `fileId`, `clientId` and `username` are the data attributes
      (None when absent); `hasLockStatus` and `forceSaveAtLoad` say whether the
      `lockStatus` and `forceSaveBtn` elements were in the page at load;
      `forceSaveCreated` counts the force-save buttons the script appended. */
  datatype Page = Page(
    fileId: Option<string>,
    clientId: Option<string>,
    username: Option<string>,
    hasLockStatus: bool,
    forceSaveAtLoad: bool,
    polling: bool,
    content: string,
    isTyping: bool,
    previewTimer: Option<nat>,
    saveTimer: Option<nat>,
    nextTimer: nat,
    readonly: bool,
    saveDisabled: bool,
    forceSaveCreated: nat,
    banner: Banner,
    preview: string)

  /** What can happen on the page after load. */
  datatype Event =
    | Input(content: string)
    | PreviewTimerFires(timer: nat)
    | PreviewAnswered(success: bool, html: string)
    | AutosaveTimerFires(timer: nat)
    | SaveClicked
    | ForceSaveClicked
    | SaveAnswered(success: bool, lockInfo: Option<LockInfo>)
    | PollTick
    | PollAnswered(success: bool, lockInfo: Option<LockInfo>)

  /** The state after the DOMContentLoaded handler: the initial preview is
      scheduled (line 176) and the 30-second poll is installed only when the
      page names a file (lines 190-192). */
  function Load(fileId: Option<string>, clientId: Option<string>, username: Option<string>,
                hasLockStatus: bool, forceSaveAtLoad: bool, content: string): (p: Page)
    ensures p.polling <==> Present(fileId)
    ensures p.forceSaveCreated == 0 && !p.isTyping && !p.readonly && !p.saveDisabled
  {
    Page(fileId, clientId, username, hasLockStatus, forceSaveAtLoad, Present(fileId),
         content, false, Some(0), None, 1, false, false, 0, Unset, "")
  }

  /** Lines 95-96: the caller owns the lock when both the user and the client match. */
  predicate IsOwner(p: Page, l: LockInfo)
  {
    l.user == p.username && l.client == p.clientId
  }

  /** A force-save button exists, from the template or appended by the script. */
  predicate HasForceSave(p: Page)
  {
    p.forceSaveAtLoad || p.forceSaveCreated > 0
  }

  /** `updateLockStatus(lockInfo)`, lines 91-133. */
  function UpdateLockStatus(p: Page, lockInfo: Option<LockInfo>): (r: Page)
    ensures !p.hasLockStatus ==> r == p
    ensures p.hasLockStatus && lockInfo.Some? && !IsOwner(p, lockInfo.value) ==>
              && r.readonly && r.saveDisabled && HasForceSave(r)
              && r.banner == LockedBy(lockInfo.value.user)
    ensures p.hasLockStatus && lockInfo.Some? && IsOwner(p, lockInfo.value) ==>
              !r.readonly && !r.saveDisabled && r.banner == OwnedByYou
    ensures p.hasLockStatus && lockInfo.None? ==> !r.readonly && !r.saveDisabled && r.banner == NotLocked
    ensures r.forceSaveCreated == if p.hasLockStatus && r.readonly && !HasForceSave(p) then 1 else p.forceSaveCreated
    ensures r == p.(readonly := r.readonly, saveDisabled := r.saveDisabled, banner := r.banner, forceSaveCreated := r.forceSaveCreated)
  {
    if !p.hasLockStatus then p
    else match lockInfo
      case Some(l) =>
        if !IsOwner(p, l) then
          var created := if !HasForceSave(p) then 1 else p.forceSaveCreated;
          p.(banner := LockedBy(l.user), readonly := true, saveDisabled := true, forceSaveCreated := created)
        else
          p.(banner := OwnedByYou, readonly := false, saveDisabled := false)
      case None =>
        p.(banner := NotLocked, readonly := false, saveDisabled := false)
  }

  /** `saveFile(force)`, lines 50-61: nothing without a file id; otherwise
      `isTyping` is reset and the content is posted with the flag. */
  function SaveFile(p: Page, force: bool): (r: (Page, seq<Request>))
    ensures !Present(p.fileId) ==> r == (p, [])
    ensures Present(p.fileId) ==> r == (p.(isTyping := false), [SaveRequest(p.fileId.value, p.content, force)])
  {
    if !Present(p.fileId) then (p, [])
    else (p.(isTyping := false), [SaveRequest(p.fileId.value, p.content, force)])
  }

  /** `checkLockStatus()`, lines 136-149: a lock request unless there is no file id. */
  function CheckLockStatus(p: Page): (r: seq<Request>)
    ensures !Present(p.fileId) <==> r == []
    ensures Present(p.fileId) ==> r == [LockRequest(p.fileId.value)]
  {
    if !Present(p.fileId) then [] else [LockRequest(p.fileId.value)]
  }

  /** The page's reaction to one event: its new state and the requests sent.
      A readonly textarea fires no input event and a disabled button no click. */
  function Step(p: Page, e: Event): (Page, seq<Request>)
  {
    match e
    case Input(c) =>
      if p.readonly then (p, [])
      else
        (p.(content := c, isTyping := true,
            previewTimer := Some(p.nextTimer), saveTimer := Some(p.nextTimer + 1), nextTimer := p.nextTimer + 2), [])
    case PreviewTimerFires(t) =>
      if p.previewTimer != Some(t) then (p, [])
      else (p.(previewTimer := None), [PreviewRequest(p.content)])
    case PreviewAnswered(success, html) =>
      if success then (p.(preview := html), []) else (p, [])
    case AutosaveTimerFires(t) =>
      if p.saveTimer != Some(t) then (p, [])
      else if !p.isTyping then (p.(saveTimer := None), [])
      else SaveFile(p.(saveTimer := None), false)
    case SaveClicked =>
      if p.saveDisabled then (p, []) else SaveFile(p, false)
    case ForceSaveClicked =>
      if HasForceSave(p) then SaveFile(p, true) else (p, [])
    case SaveAnswered(success, lockInfo) =>
      if !success && lockInfo.Some? then (UpdateLockStatus(p, lockInfo), []) else (p, [])
    case PollTick =>
      if p.polling then (p, CheckLockStatus(p)) else (p, [])
    case PollAnswered(success, lockInfo) =>
      if success then (UpdateLockStatus(p, lockInfo), []) else (p, [])
  }

  /** The page after a sequence of events, and every request sent on the way. */
  function Run(p: Page, events: seq<Event>): (Page, seq<Request>)
    decreases |events|
  {
    if events == [] then (p, [])
    else
      var (p1, sent1) := Step(p, events[0]);
      var (p2, sent2) := Run(p1, events[1..]);
      (p2, sent1 + sent2)
  }

  // ---------------------------------------------------------------------
  // Properties
  // ---------------------------------------------------------------------

  /** Repeated updates with the same lock information change nothing more:
      in particular a second non-owner update appends no second button. */
  lemma UpdateLockStatusIdempotent(p: Page, lockInfo: Option<LockInfo>)
    ensures UpdateLockStatus(UpdateLockStatus(p, lockInfo), lockInfo) == UpdateLockStatus(p, lockInfo)
  {
  }

  /** At most one force-save button is ever on the page. */
  ghost predicate OneForceSaveButton(p: Page)
  {
    p.forceSaveCreated <= 1 && (p.forceSaveAtLoad ==> p.forceSaveCreated == 0)
  }

  lemma StepKeepsOneForceSaveButton(p: Page, e: Event)
    requires OneForceSaveButton(p)
    ensures OneForceSaveButton(Step(p, e).0)
  {
    match e {
      case SaveAnswered(success, lockInfo) =>
      case PollAnswered(success, lockInfo) =>
      case _ =>
    }
  }

  lemma {:induction false} RunKeepsOneForceSaveButton(p: Page, events: seq<Event>)
    requires OneForceSaveButton(p)
    ensures OneForceSaveButton(Run(p, events).0)
    decreases |events|
  {
    if events != [] {
      StepKeepsOneForceSaveButton(p, events[0]);
      RunKeepsOneForceSaveButton(Step(p, events[0]).0, events[1..]);
    }
  }

  /** One event on a page without a file id sends at most a preview request. */
  lemma StepWithoutFileId(p: Page, e: Event)
    requires !Present(p.fileId) && !p.polling
    ensures var (q, sent) := Step(p, e);
            && q.fileId == p.fileId && !q.polling
            && forall i :: 0 <= i < |sent| ==> sent[i].PreviewRequest?
  {
    match e {
      case SaveAnswered(success, lockInfo) =>
      case PollAnswered(success, lockInfo) =>
      case _ =>
    }
  }

  /** With no file id, no save and no lock request is ever sent, and no poll is installed. */
  lemma {:induction false} NoFileIdNoSaveOrPoll(p: Page, events: seq<Event>)
    requires !Present(p.fileId) && !p.polling
    ensures var (q, sent) := Run(p, events);
            && q.fileId == p.fileId && !q.polling
            && forall i :: 0 <= i < |sent| ==> sent[i].PreviewRequest?
    decreases |events|
  {
    if events != [] {
      var (p1, sent1) := Step(p, events[0]);
      StepWithoutFileId(p, events[0]);
      NoFileIdNoSaveOrPoll(p1, events[1..]);
      var (p2, sent2) := Run(p1, events[1..]);
      forall i | 0 <= i < |sent1 + sent2| ensures (sent1 + sent2)[i].PreviewRequest? {
        if i >= |sent1| { assert (sent1 + sent2)[i] == sent2[i - |sent1|]; }
      }
    }
  }

  /** An input sets `isTyping` and cancels every pending timer: after it, a
      timer event with any token but the two it scheduled does nothing. */
  lemma InputCancelsEarlierTimers(p: Page, c: string, t: nat)
    requires !p.readonly
    ensures var q := Step(p, Input(c)).0;
            && q.isTyping && q.content == c
            && (t != p.nextTimer ==> Step(q, PreviewTimerFires(t)) == (q, []))
            && (t != p.nextTimer + 1 ==> Step(q, AutosaveTimerFires(t)) == (q, []))
  {
  }

  /** Only the last input of a burst saves: two inputs, then the first
      input's autosave timer fires and nothing is sent; the second one's
      sends the latest content. */
  lemma LastInputOfBurstSaves(p: Page, c1: string, c2: string)
    requires !p.readonly && Present(p.fileId)
    ensures var p1 := Step(p, Input(c1)).0;
            var p2 := Step(p1, Input(c2)).0;
            && Step(p2, AutosaveTimerFires(p.nextTimer + 1)).1 == []
            && Step(p2, AutosaveTimerFires(p1.nextTimer + 1)).1 == [SaveRequest(p.fileId.value, c2, false)]
  {
  }

  /** The pending autosave saves only while `isTyping` holds, and every
      event that sends a save leaves `isTyping` false. */
  lemma SaveResetsTyping(p: Page, e: Event)
    ensures e.AutosaveTimerFires? && !p.isTyping ==> Step(p, e).1 == []
    ensures (exists i :: 0 <= i < |Step(p, e).1| && Step(p, e).1[i].SaveRequest?) ==> !Step(p, e).0.isTyping
  {
  }

  /** `forceSave: true` is sent only by a click on the force-save button. */
  lemma ForceOnlyFromForceButton(p: Page, e: Event)
    requires !e.ForceSaveClicked?
    ensures forall i :: 0 <= i < |Step(p, e).1| && Step(p, e).1[i].SaveRequest? ==> !Step(p, e).1[i].forceSave
  {
  }

  /** The lock display changes only on a successful poll answer or on a failed
      save answer that carries `lockInfo`. */
  lemma LockDisplaySources(p: Page, e: Event)
    requires !(e.PollAnswered? && e.success) && !(e.SaveAnswered? && !e.success && e.lockInfo.Some?)
    ensures var q := Step(p, e).0;
            q.banner == p.banner && q.readonly == p.readonly && q.saveDisabled == p.saveDisabled
            && q.forceSaveCreated == p.forceSaveCreated
  {
    match e {
      case SaveAnswered(success, lockInfo) =>
      case PollAnswered(success, lockInfo) =>
      case _ =>
    }
  }

  /** A page opened by another user's session: the poll reports the lock of
      "user1", the editor turns read-only, the save button sends nothing, and
      the force-save button posts the content with `forceSave: true`. */
  lemma ForeignLockScenario(fileId: string, clientId: string, content: string)
    requires fileId != ""
    ensures var p0 := Load(Some(fileId), Some(clientId), Some("user2"), true, false, content);
            var (p1, sent1) := Run(p0, [PollTick, PollAnswered(true, Some(LockInfo(Some("user1"), Some("client-a"))))]);
            && sent1 == [LockRequest(fileId)]
            && p1.readonly && p1.saveDisabled && p1.banner == LockedBy(Some("user1"))
            && Step(p1, SaveClicked).1 == []
            && Step(p1, ForceSaveClicked).1 == [SaveRequest(fileId, content, true)]
  {
    var p0 := Load(Some(fileId), Some(clientId), Some("user2"), true, false, content);
    var l := LockInfo(Some("user1"), Some("client-a"));
    assert !IsOwner(p0, l) by { assert "user1" != "user2"; }
    var evs := [PollTick, PollAnswered(true, Some(l))];
    assert evs[1..] == [PollAnswered(true, Some(l))];
    assert evs[1..][1..] == [];
  }

  // ---------------------------------------------------------------------
  // The page as an object
  // ---------------------------------------------------------------------

  /** The page script's state, updated in place by its event handlers. */
  class EditorSession {
    const fileId: Option<string>
    const clientId: Option<string>
    const username: Option<string>
    const hasLockStatus: bool
    const forceSaveAtLoad: bool
    var polling: bool
    var content: string
    var isTyping: bool
    var previewTimer: Option<nat>
    var saveTimer: Option<nat>
    var nextTimer: nat
    var readonly: bool
    var saveDisabled: bool
    var forceSaveCreated: nat
    var banner: Banner
    var preview: string

    /** The state as a value. */
    function State(): Page
      reads this
    {
      Page(fileId, clientId, username, hasLockStatus, forceSaveAtLoad, polling, content, isTyping,
           previewTimer, saveTimer, nextTimer, readonly, saveDisabled, forceSaveCreated, banner, preview)
    }

    /** The DOMContentLoaded handler. */
    constructor (fileId: Option<string>, clientId: Option<string>, username: Option<string>,
                 hasLockStatus: bool, forceSaveAtLoad: bool, content: string)
      ensures State() == Load(fileId, clientId, username, hasLockStatus, forceSaveAtLoad, content)
    {
      this.fileId, this.clientId, this.username := fileId, clientId, username;
      this.hasLockStatus, this.forceSaveAtLoad := hasLockStatus, forceSaveAtLoad;
      this.content := content;
      isTyping := false;
      readonly, saveDisabled, forceSaveCreated, banner, preview := false, false, 0, Unset, "";
      saveTimer := None;
      previewTimer, nextTimer := Some(0), 1;
      polling := Present(fileId);
    }

    /** `updateLockStatus`, lines 91-133. */
    method ApplyLockStatus(lockInfo: Option<LockInfo>)
      modifies this
      ensures State() == UpdateLockStatus(old(State()), lockInfo)
    {
      if !hasLockStatus {
        return;
      }
      if lockInfo.Some? {
        var isOwner := lockInfo.value.user == username && lockInfo.value.client == clientId;
        if !isOwner {
          banner := LockedBy(lockInfo.value.user);
          readonly := true;
          saveDisabled := true;
          if !forceSaveAtLoad && forceSaveCreated == 0 {
            forceSaveCreated := forceSaveCreated + 1;
          }
        } else {
          banner := OwnedByYou;
          readonly := false;
          saveDisabled := false;
        }
      } else {
        banner := NotLocked;
        readonly := false;
        saveDisabled := false;
      }
    }

    /** `saveFile`, lines 50-61. */
    method Save(force: bool) returns (sent: seq<Request>)
      modifies this
      ensures (State(), sent) == SaveFile(old(State()), force)
    {
      if !Present(fileId) {
        return [];
      }
      isTyping := false;
      sent := [SaveRequest(fileId.value, content, force)];
    }

    /** The `input` listener, lines 154-164. */
    method OnInput(c: string) returns (sent: seq<Request>)
      modifies this
      ensures (State(), sent) == Step(old(State()), Input(c))
    {
      sent := [];
      if readonly {
        return;
      }
      content := c;
      isTyping := true;
      previewTimer := Some(nextTimer);
      saveTimer := Some(nextTimer + 1);
      nextTimer := nextTimer + 2;
    }

    /** The preview timer of `updatePreview`, lines 26-31. */
    method OnPreviewTimer(t: nat) returns (sent: seq<Request>)
      modifies this
      ensures (State(), sent) == Step(old(State()), PreviewTimerFires(t))
    {
      sent := [];
      if previewTimer == Some(t) {
        previewTimer := None;
        sent := [PreviewRequest(content)];
      }
    }

    /** The preview answer, lines 33-36. */
    method OnPreviewAnswer(success: bool, html: string)
      modifies this
      ensures State() == Step(old(State()), PreviewAnswered(success, html)).0
    {
      if success {
        preview := html;
      }
    }

    /** The autosave timer, lines 160-163. */
    method OnAutosaveTimer(t: nat) returns (sent: seq<Request>)
      modifies this
      ensures (State(), sent) == Step(old(State()), AutosaveTimerFires(t))
    {
      sent := [];
      if saveTimer != Some(t) {
        return;
      }
      saveTimer := None;
      if !isTyping {
        return;
      }
      sent := Save(false);
    }

    /** The save button, line 181. */
    method OnSaveClick() returns (sent: seq<Request>)
      modifies this
      ensures (State(), sent) == Step(old(State()), SaveClicked)
    {
      sent := [];
      if !saveDisabled {
        sent := Save(false);
      }
    }

    /** The force-save button, lines 117 and 186. */
    method OnForceSaveClick() returns (sent: seq<Request>)
      modifies this
      ensures (State(), sent) == Step(old(State()), ForceSaveClicked)
    {
      sent := [];
      if forceSaveAtLoad || forceSaveCreated > 0 {
        sent := Save(true);
      }
    }

    /** The save answer, lines 63-82. */
    method OnSaveAnswer(success: bool, lockInfo: Option<LockInfo>)
      modifies this
      ensures State() == Step(old(State()), SaveAnswered(success, lockInfo)).0
    {
      if !success && lockInfo.Some? {
        ApplyLockStatus(lockInfo);
      }
    }

    /** The 30-second interval, lines 136-140. */
    method OnPollTick() returns (sent: seq<Request>)
      ensures sent == Step(State(), PollTick).1
    {
      sent := [];
      if polling && Present(fileId) {
        sent := [LockRequest(fileId.value)];
      }
    }

    /** The lock answer, lines 141-145. */
    method OnPollAnswer(success: bool, lockInfo: Option<LockInfo>)
      modifies this
      ensures State() == Step(old(State()), PollAnswered(success, lockInfo)).0
    {
      if success {
        ApplyLockStatus(lockInfo);
      }
    }
  }
}
