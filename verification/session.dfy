/**
 * The interactive session state: `App` in src/app.rs. It owns a `ConfigManager`,
 * the list selection, the input mode, the typed name and the status line, and
 * re-reads the whole store after every delete or save.
 */
module Session {
  import opened Wrappers
  import opened Store

  /** `InputMode`. `UpdateConfirm` belongs to a later revision than the `App`
      shown; the interactive loop dispatches on it. */
  datatype InputMode = Normal | Saving | UpdateConfirm

  /** The help text a new session shows, and that cancelling restores. */
  const DefaultStatus: string :=
    "Use j/k to navigate, Enter to apply config, 's' to save current, 'd' to delete, 'q' to quit"

  /** How long a notification stays before the status line reverts, in milliseconds. */
  const NotificationTimeout: int := 5000

  function AppliedStatus(name: string): string { "\U{2713} Applied config: " + name }
  function DeletedStatus(name: string): string { "\U{2713} Deleted config: " + name }
  function SavedStatus(name: string): string { "\U{2713} Saved current config as: " + name }

  /** The selection invariant: nothing is selected exactly when the list is
      empty, and a selected index is in bounds. */
  predicate SelectionInRange(sel: Option<nat>, len: nat) {
    (sel.None? <==> len == 0) && (sel.Some? ==> sel.value < len)
  }

  // ---------------------------------------------------------------------------
  // Navigation

  /** `next`: the index after the selected one, wrapping from the last back to
      the first; with nothing selected, the first. On an empty list it changes
      nothing (`NextIndexAsWritten` is what the source does there). */
  function NextIndex(sel: Option<nat>, len: nat): (r: Option<nat>)
    ensures len > 0 ==> r.Some? && r.value < len
    ensures len == 0 ==> r == sel
    ensures sel.None? && len > 0 ==> r == Some(0)
  {
    if len == 0 then sel
    else match sel
      case None => Some(0)
      case Some(i) => if i >= len - 1 then Some(0) else Some(i + 1)
  }

  /** `previous`: the index before the selected one, wrapping from the first to
      the last; with nothing selected, the first (not the last). On an empty list
      it changes nothing (`PreviousIndexAsWritten` is what the source does there). */
  function PreviousIndex(sel: Option<nat>, len: nat): (r: Option<nat>)
    ensures SelectionInRange(sel, len) ==> SelectionInRange(r, len)
    ensures len == 0 ==> r == sel
    ensures sel.None? && len > 0 ==> r == Some(0)
  {
    if len == 0 then sel
    else match sel
      case None => Some(0)
      case Some(i) => if i == 0 then Some(len - 1) else Some(i - 1)
  }

  /** Both moves keep the selection invariant. */
  lemma NavigationKeepsSelectionInRange(sel: Option<nat>, len: nat)
    requires SelectionInRange(sel, len)
    ensures SelectionInRange(NextIndex(sel, len), len)
    ensures SelectionInRange(PreviousIndex(sel, len), len)
  {
  }

  /** `previous` undoes `next` and `next` undoes `previous` on an in-range index. */
  lemma NextPreviousInverse(i: nat, len: nat)
    requires i < len
    ensures PreviousIndex(NextIndex(Some(i), len), len) == Some(i)
    ensures NextIndex(PreviousIndex(Some(i), len), len) == Some(i)
  {
  }

  /** `k` presses of `next`. */
  ghost function NextTimes(sel: Option<nat>, len: nat, k: nat): Option<nat> {
    if k == 0 then sel else NextIndex(NextTimes(sel, len, k - 1), len)
  }

  /** `k` presses of `previous`. */
  ghost function PreviousTimes(sel: Option<nat>, len: nat, k: nat): Option<nat> {
    if k == 0 then sel else PreviousIndex(PreviousTimes(sel, len, k - 1), len)
  }

  /** Up to a full round, `k` presses of `next` move the selection `k` places
      forward, modulo the length. */
  lemma {:induction false} NextTimesAdvances(i: nat, len: nat, k: nat)
    requires i < len && k <= len
    ensures NextTimes(Some(i), len, k) == Some(if i + k < len then i + k else i + k - len)
  {
    if k > 0 {
      NextTimesAdvances(i, len, k - 1);
    }
  }

  /** Up to a full round, `k` presses of `previous` move the selection `k` places
      back, modulo the length. */
  lemma {:induction false} PreviousTimesRetreats(i: nat, len: nat, k: nat)
    requires i < len && k <= len
    ensures PreviousTimes(Some(i), len, k) == Some(if k <= i then i - k else i + len - k)
  {
    if k > 0 {
      PreviousTimesRetreats(i, len, k - 1);
    }
  }

  /** Wrap-around: `len` presses of either key come back to where they started. */
  lemma NavigationWrapsAround(i: nat, len: nat)
    requires i < len
    ensures NextTimes(Some(i), len, len) == Some(i)
    ensures PreviousTimes(Some(i), len, len) == Some(i)
  {
    NextTimesAdvances(i, len, len);
    PreviousTimesRetreats(i, len, len);
  }

  /** The outcome of `next` or `previous` as written: the new index, or the panic
      that evaluating `configs.len() - 1` on an empty list raises (unsigned
      subtraction is checked in a debug build). */
  datatype Navigation = Selects(index: nat) | Underflow

  /** `next` as written in src/app.rs. */
  function NextIndexAsWritten(sel: Option<nat>, len: nat): (r: Navigation)
    ensures len > 0 ==> r == Selects(NextIndex(sel, len).value)
  {
    match sel
    case None => Selects(0)
    case Some(i) =>
      if len == 0 then Underflow
      else if i >= len - 1 then Selects(0) else Selects(i + 1)
  }

  /** `previous` as written in src/app.rs. */
  function PreviousIndexAsWritten(sel: Option<nat>, len: nat): (r: Navigation)
    ensures len > 0 ==> r == Selects(PreviousIndex(sel, len).value)
  {
    match sel
    case None => Selects(0)
    case Some(i) =>
      if i == 0 then (if len == 0 then Underflow else Selects(len - 1))
      else Selects(i - 1)
  }

  /** On an empty list, the source's `next` and `previous` select index 0, which
      is out of range, and pressing either key again underflows. */
  lemma EmptyListNavigationAsWritten()
    ensures SelectionInRange(None, 0)
    ensures NextIndexAsWritten(None, 0) == Selects(0) && !SelectionInRange(Some(0), 0)
    ensures NextIndexAsWritten(Some(0), 0) == Underflow
    ensures PreviousIndexAsWritten(None, 0) == Selects(0)
    ensures PreviousIndexAsWritten(Some(0), 0) == Underflow
  {
  }

  // ---------------------------------------------------------------------------
  // Reconciliation after a reload

  /** The selection after a delete and a full reload: none on an empty list, the
      old index clamped to the new last index otherwise. */
  function ReconcileAfterDelete(selected: nat, len: nat): (r: Option<nat>)
    ensures SelectionInRange(r, len)
    ensures r.Some? ==> r.value == if selected < len then selected else len - 1
  {
    if len == 0 then None
    else if selected >= len then Some(len - 1)
    else Some(selected)
  }

  // ---------------------------------------------------------------------------
  // Notification expiry

  /** A notification stamped at `setAt` has expired by `now`. */
  predicate Expired(setAt: Option<int>, now: int) {
    setAt.Some? && now - setAt.value >= NotificationTimeout
  }

  /** Once expired, a notification stays expired: a check at any later tick sees it. */
  lemma ExpiryIsMonotone(setAt: Option<int>, now: int, later: int)
    requires Expired(setAt, now) && now <= later
    ensures Expired(setAt, later)
  {
  }

  /** The timeline of test_timeout.rs: kept at three seconds, gone at six, never
      before five, and gone exactly at five. */
  lemma NotificationTimeline(t: int)
    ensures !Expired(Some(t), t + 3000)
    ensures Expired(Some(t), t + 6000)
    ensures Expired(Some(t), t + 5000)
    ensures forall now :: now < t + 5000 ==> !Expired(Some(t), now)
    ensures forall now :: !Expired(None, now)
  {
  }

  // ---------------------------------------------------------------------------
  // The session as a value

  /** Everything a key press can observe or change of a session: the input
      mode, the typed name, the status line and its stamp, the pending update
      target, the store handle with its cached listing, the selection, and the
      disk under the store. */
  datatype SessionView = SessionView(
    mode: InputMode, buffer: string, status: string, statusTime: Option<int>,
    pendingUpdate: Option<string>, manager: ConfigManager, selected: Option<nat>, disk: Disk)

  /** The name the selection points at, if it points into the cached listing. */
  function SelectedName(v: SessionView): (r: Option<string>)
    ensures r.Some? <==> v.selected.Some? && v.selected.value < |v.manager.configs|
    ensures r.Some? ==> r.value in v.manager.configs
  {
    if v.selected.Some? && v.selected.value < |v.manager.configs|
    then Some(v.manager.configs[v.selected.value])
    else None
  }

  /** `update_status_message` on a session value: the expiry check at `now`.
      Only the status line and its stamp can change, and what it leaves has not
      expired as of `now`. */
  function Checked(v: SessionView, defaultStatus: string, now: int): (r: SessionView)
    ensures !Expired(r.statusTime, now)
    ensures r == v.(status := r.status, statusTime := r.statusTime)
    ensures Expired(v.statusTime, now) <==> r.statusTime == None && v.statusTime.Some?
    ensures !Expired(v.statusTime, now) ==> r == v
    ensures Expired(v.statusTime, now) ==> r.status == defaultStatus
  {
    if Expired(v.statusTime, now) then v.(status := defaultStatus, statusTime := None) else v
  }

  // ---------------------------------------------------------------------------
  // The session

  class App {
    const fs: FileSystem
    var manager: ConfigManager
    /** `list_state.selected()`. */
    var selected: Option<nat>
    var status: string
    var mode: InputMode
    /** The name typed at the save prompt. */
    var buffer: string
    // Members of the later revision that the loop and the timeout test use.
    const defaultStatus: string
    var statusTime: Option<int>
    var pendingUpdate: Option<string>

    ghost predicate Valid()
      reads this, fs
    {
      manager.fs == fs && fs.Valid() && SelectionInRange(selected, |manager.configs|)
    }

    /** The session as a value. */
    function View(): SessionView
      reads this, fs
    {
      SessionView(mode, buffer, status, statusTime, pendingUpdate, manager, selected, fs.State())
    }

    constructor (fs: FileSystem, manager: ConfigManager)
      ensures this.fs == fs && this.manager == manager && selected == None
      ensures status == DefaultStatus && defaultStatus == DefaultStatus && statusTime == None
      ensures mode == Normal && buffer == [] && pendingUpdate == None
    {
      this.fs := fs;
      this.manager := manager;
      selected := None;
      status := DefaultStatus;
      mode := Normal;
      buffer := [];
      defaultStatus := DefaultStatus;
      statusTime := None;
      pendingUpdate := None;
    }

    /** `App::new`: opens the store and selects the first snapshot when there is one. */
    static method New(fs: FileSystem) returns (r: Result<App>)
      requires fs.Valid()
      modifies fs
      ensures !fs.homeKnown ==> r == Err(HomeDirUnavailable) && unchanged(fs)
      ensures fs.homeKnown ==>
        && r.Ok? && fresh(r.value) && r.value.fs == fs && r.value.Valid()
        && fresh(r.value.manager) && IsListing(r.value.manager.configs, fs.State())
        && fs.State() == old(fs.State()).(dirExists := true)
        && r.value.selected == (if |r.value.manager.configs| == 0 then None else Some(0))
        && r.value.mode == Normal && r.value.buffer == []
        && r.value.status == DefaultStatus && r.value.defaultStatus == DefaultStatus
        && r.value.statusTime == None && r.value.pendingUpdate == None
    {
      var open := ConfigManager.Open(fs);
      if open.Err? {
        return Err(open.error);
      }
      var app := new App(fs, open.value);
      if |app.manager.configs| > 0 {
        app.selected := Some(0);
      }
      r := Ok(app);
    }

    /** `next`. */
    method Next()
      requires Valid()
      modifies this`selected
      ensures Valid()
      ensures selected == NextIndex(old(selected), |manager.configs|)
    {
      var len := |manager.configs|;
      if len > 0 {
        var i := match selected
          case Some(i) => if i >= len - 1 then 0 else i + 1
          case None => 0;
        selected := Some(i);
      }
    }

    /** `previous`. */
    method Previous()
      requires Valid()
      modifies this`selected
      ensures Valid()
      ensures selected == PreviousIndex(old(selected), |manager.configs|)
    {
      var len := |manager.configs|;
      if len > 0 {
        var i := match selected
          case Some(i) => if i == 0 then len - 1 else i - 1
          case None => 0;
        selected := Some(i);
      }
    }

    /** `apply_config`: applies the selected snapshot; with nothing (or nothing
        in range) selected it does nothing and succeeds. */
    method ApplyConfig() returns (r: Outcome)
      requires Valid()
      modifies this`status, fs
      ensures Valid()
      ensures selected.None? || selected.value >= |manager.configs| ==>
        r == Pass && unchanged(fs) && status == old(status)
      ensures selected.Some? && selected.value < |manager.configs| ==>
        var name := manager.configs[selected.value];
        && Effect(r, fs.State()) == Applied(old(fs.State()), name)
        && status == (if r.Pass? then AppliedStatus(name) else old(status))
    {
      r := Pass;
      if selected.Some? && selected.value < |manager.configs| {
        var name := manager.configs[selected.value];
        r := manager.ApplyConfig(name);
        if r.Fail? {
          return;
        }
        status := AppliedStatus(name);
      }
    }

    /** `delete_config`: deletes the selected snapshot, re-reads the store and
        clamps the selection; a store error returns before anything else changes. */
    method DeleteConfig() returns (r: Outcome)
      requires Valid()
      modifies this`manager, this`selected, this`status, fs
      ensures Valid()
      ensures old(selected).None? || old(selected).value >= |old(manager.configs)| ==>
        r == Pass && unchanged(this) && unchanged(fs)
      ensures old(selected).Some? && old(selected).value < |old(manager.configs)| ==>
        var name := old(manager.configs)[old(selected).value];
        var e := Deleted(old(fs.State()), name);
        && fs.State() == e.disk
        && (e.outcome.Fail? ==> r == e.outcome && unchanged(this))
        && (e.outcome.Pass? ==> status == DeletedStatus(name))
        && (e.outcome.Pass? && !fs.homeKnown ==>
              r == Fail(HomeDirUnavailable) && manager == old(manager) && selected == old(selected))
        && (e.outcome.Pass? && fs.homeKnown ==>
              && r == Pass && fresh(manager) && IsListing(manager.configs, fs.State())
              && name !in manager.configs
              && selected == ReconcileAfterDelete(old(selected).value, |manager.configs|))
    {
      r := Pass;
      if selected.Some? && selected.value < |manager.configs| {
        var index := selected.value;
        var name := manager.configs[index];
        r := manager.DeleteConfig(name);
        if r.Fail? {
          return;
        }
        status := DeletedStatus(name);
        var reopened := ConfigManager.Open(fs);
        if reopened.Err? {
          return Fail(reopened.error);
        }
        manager := reopened.value;
        if |manager.configs| == 0 {
          selected := None;
        } else if index >= |manager.configs| {
          selected := Some(|manager.configs| - 1);
        }
      }
    }

    /** `save_current_config`: saves the live file under `name`, re-reads the
        store and selects the first snapshot; a store error returns before
        anything else changes. */
    method SaveCurrentConfig(name: string) returns (r: Outcome)
      requires Valid()
      modifies this`manager, this`selected, this`status, fs
      ensures Valid()
      ensures var e := Saved(old(fs.State()), name);
        && fs.State() == e.disk
        && (e.outcome.Fail? ==> r == e.outcome && unchanged(this))
        && (e.outcome.Pass? ==> status == SavedStatus(name))
        && (e.outcome.Pass? && !fs.homeKnown ==>
              r == Fail(HomeDirUnavailable) && manager == old(manager) && selected == old(selected))
        && (e.outcome.Pass? && fs.homeKnown ==>
              && r == Pass && fresh(manager) && IsListing(manager.configs, fs.State())
              && name in manager.configs && selected == Some(0))
    {
      r := manager.SaveCurrentConfig(name);
      if r.Fail? {
        return;
      }
      status := SavedStatus(name);
      var reopened := ConfigManager.Open(fs);
      if reopened.Err? {
        return Fail(reopened.error);
      }
      manager := reopened.value;
      assert IsListed(fs.State(), name);
      if |manager.configs| > 0 {
        selected := Some(0);
      }
    }

    /** `set_status_message`: shows a notification and stamps it with the time. */
    method SetStatusMessage(message: string, now: int)
      modifies this`status, this`statusTime
      ensures status == message && statusTime == Some(now)
    {
      status := message;
      statusTime := Some(now);
    }

    /** `update_status_message`: reverts an expired notification to the default
        text and clears its stamp; anything else is left alone. */
    method UpdateStatusMessage(now: int)
      modifies this`status, this`statusTime
      ensures Expired(old(statusTime), now) ==> status == defaultStatus && statusTime == None
      ensures !Expired(old(statusTime), now) ==> status == old(status) && statusTime == old(statusTime)
      ensures View() == Checked(old(View()), defaultStatus, now)
    {
      if statusTime.Some? && now - statusTime.value >= NotificationTimeout {
        status := defaultStatus;
        statusTime := None;
      }
    }

    /** `start_update_mode`. Its body is not part of this model: it may change the
        mode, the pending target and the status, and nothing else. */
    method StartUpdateMode()
      requires Valid()
      modifies this`mode, this`pendingUpdate, this`status, this`statusTime
      ensures Valid()
    {
      mode := *;
      pendingUpdate := *;
      status := *;
      statusTime := *;
    }

    /** `confirm_update`. Its body is not part of this model: it may fail, and it
        may change the mode, the pending target, the status and the snapshot
        directory's entries, and nothing else. */
    method ConfirmUpdate() returns (r: Outcome)
      requires Valid()
      modifies this`mode, this`pendingUpdate, this`status, this`statusTime, fs`dir
      ensures Valid()
    {
      mode := *;
      pendingUpdate := *;
      status := *;
      statusTime := *;
      var entries: map<FileName, Node> := *;
      if fs.dirExists {
        fs.dir := entries;
      }
      r := *;
    }

    /** `cancel_update`. Its body is not part of this model: it may change the
        mode, the pending target and the status, and nothing else. */
    method CancelUpdate()
      requires Valid()
      modifies this`mode, this`pendingUpdate, this`status, this`statusTime
      ensures Valid()
    {
      mode := *;
      pendingUpdate := *;
      status := *;
      statusTime := *;
    }
  }
}
