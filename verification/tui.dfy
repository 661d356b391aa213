/**
 * The key-dispatch loop `run_app` of src/tui.rs without the drawing and the
 * blocking read: each iteration first expires an old notification, then
 * dispatches one input event on the current input mode.
 */
module Tui {
  import opened Wrappers
  import opened Store
  import opened Session
  import Names

  /** The key codes the loop tells apart; every other key is `OtherKey`. */
  datatype KeyCode = Char(c: char) | Enter | Esc | Backspace | Up | Down | OtherKey

  /** An input event: a key press, or anything else (mouse, resize, focus, paste). */
  datatype Event = Key(code: KeyCode) | OtherEvent

  const SavePrompt: string := "enter config name (without .conf): "
  const ErrorPrefix: string := "- error: "
  const EmptyNameError: string := "- error: name cannot be empty"

  /** The status line a store error turns into. */
  function ErrorStatus(e: Error): (s: string)
    ensures |ErrorPrefix| <= |s| && s[..|ErrorPrefix|] == ErrorPrefix
    ensures s[|ErrorPrefix|..] == Message(e)
  {
    ErrorPrefix + Message(e)
  }

  /** `char::is_whitespace`: the Unicode White_Space property. */
  predicate IsWhitespace(c: char) {
    ('\t' <= c <= '\r') || c == ' ' || c == '\U{0085}' || c == '\U{00A0}' || c == '\U{1680}'
    || ('\U{2000}' <= c <= '\U{200A}') || c == '\U{2028}' || c == '\U{2029}'
    || c == '\U{202F}' || c == '\U{205F}' || c == '\U{3000}'
  }

  /** `s.trim().is_empty()`: nothing but whitespace. */
  predicate IsBlank(s: string) {
    forall i :: 0 <= i < |s| ==> IsWhitespace(s[i])
  }

  /** The arm of `run_app`'s match that a key selects. */
  datatype Command =
    | Quit | SelectNext | SelectPrevious | ApplySelected | DeleteSelected | BeginSave | BeginUpdate
    | PushChar(c: char) | PopChar | SubmitName | CancelSave
    | ConfirmUpdate | CancelUpdate
    | Ignore

  /** The key bindings of each input mode. */
  function Dispatch(mode: InputMode, key: KeyCode): (cmd: Command)
    ensures cmd == Quit <==> mode == Normal && key == Char('q')
    ensures cmd == SelectNext <==> mode == Normal && (key == Char('j') || key == Down)
    ensures cmd == SelectPrevious <==> mode == Normal && (key == Char('k') || key == Up)
    ensures cmd == BeginSave <==> mode == Normal && key == Char('s')
    ensures mode == Saving ==> (cmd.PushChar? <==> key.Char?)
    ensures cmd.PushChar? ==> mode == Saving && key == Char(cmd.c)
    ensures cmd == ApplySelected <==> mode == Normal && key == Enter
    ensures cmd == DeleteSelected <==> mode == Normal && key == Char('d')
    ensures cmd == BeginUpdate <==> mode == Normal && key == Char('u')
    ensures cmd == SubmitName <==> mode == Saving && key == Enter
    ensures cmd == CancelSave <==> mode == Saving && key == Esc
    ensures cmd == PopChar <==> mode == Saving && key == Backspace
    ensures mode == UpdateConfirm ==>
      && (cmd == ConfirmUpdate <==> key == Char('y') || key == Char('Y'))
      && (cmd == CancelUpdate <==> key == Char('n') || key == Char('N') || key == Esc)
      && (cmd == Ignore <==> !(cmd in {ConfirmUpdate, CancelUpdate}))
    ensures cmd in {ConfirmUpdate, CancelUpdate} ==> mode == UpdateConfirm
  {
    match mode
    case Normal =>
      if key == Char('q') then Quit
      else if key == Char('j') || key == Down then SelectNext
      else if key == Char('k') || key == Up then SelectPrevious
      else if key == Enter then ApplySelected
      else if key == Char('d') then DeleteSelected
      else if key == Char('s') then BeginSave
      else if key == Char('u') then BeginUpdate
      else Ignore
    case Saving =>
      (match key
       case Enter => SubmitName
       case Esc => CancelSave
       case Char(c) => PushChar(c)
       case Backspace => PopChar
       case _ => Ignore)
    case UpdateConfirm =>
      if key == Char('y') || key == Char('Y') then ConfirmUpdate
      else if key == Char('n') || key == Char('N') || key == Esc then CancelUpdate
      else Ignore
  }

  // ---------------------------------------------------------------------------
  // What one key does in each mode, as a relation between the session before
  // (`b`) and after (`a`) the key.

  /** A key in `Normal`: navigation, apply, delete, the save prompt, the update
      prompt, and quit. Apart from `u`, only a store error stamps the status and
      only `u` may change the pending update target. */
  ghost predicate NormalKeyEffect(app: App, b: SessionView, a: SessionView, key: KeyCode, now: int,
                                  quit: bool, outcome: Outcome)
  {
    var cmd := Dispatch(Normal, key);
    var name := SelectedName(b);
    && (quit <==> key == Char('q'))
    && (outcome.Fail? ==> a.status == ErrorStatus(outcome.error) && a.statusTime == Some(now))
    && (cmd != BeginUpdate ==> a.pendingUpdate == b.pendingUpdate)
    && (cmd != BeginUpdate && outcome.Pass? ==> a.statusTime == b.statusTime)
    && (cmd in {Quit, Ignore} ==> a == b)
    && (cmd !in {BeginSave, BeginUpdate} ==> a.mode == b.mode && a.buffer == b.buffer)
    && (cmd !in {ApplySelected, DeleteSelected} ==> outcome == Pass)
    && (cmd == SelectNext ==> a == b.(selected := NextIndex(b.selected, |b.manager.configs|)))
    && (cmd == SelectPrevious ==> a == b.(selected := PreviousIndex(b.selected, |b.manager.configs|)))
    // Enter and `d` with nothing selected do nothing at all.
    && (cmd in {ApplySelected, DeleteSelected} && name.None? ==> outcome == Pass && a == b)
    && (cmd == ApplySelected && name.Some? ==>
          && Effect(outcome, a.disk) == Applied(b.disk, name.value)
          && a == b.(disk := a.disk, status := a.status, statusTime := a.statusTime)
          && (outcome.Pass? ==> a.status == AppliedStatus(name.value)))
    && (cmd == DeleteSelected && name.Some? ==>
          var e := Deleted(b.disk, name.value);
          && a.disk == e.disk
          && outcome == (if e.outcome.Fail? then e.outcome
                         else if app.fs.homeKnown then Pass else Fail(HomeDirUnavailable))
          && (outcome.Fail? ==> a.selected == b.selected && a.manager == b.manager)
          && (outcome.Pass? ==>
                && a.status == DeletedStatus(name.value) && IsListing(a.manager.configs, a.disk)
                && name.value !in a.manager.configs
                && a.selected == ReconcileAfterDelete(b.selected.value, |a.manager.configs|)))
    && (cmd == BeginSave ==> a == b.(mode := Saving, buffer := [], status := SavePrompt))
    && (cmd == BeginUpdate ==>
          a.buffer == b.buffer && a.selected == b.selected && a.manager == b.manager && a.disk == b.disk)
  }

  /** A key at the save prompt: every character is typed, Backspace erases,
      Enter saves, Esc cancels; the prompt is left on Enter and Esc only. Only
      the empty-name error and a store error stamp the status. */
  ghost predicate SavingKeyEffect(app: App, b: SessionView, a: SessionView, key: KeyCode, now: int,
                                  outcome: Outcome)
  {
    && (outcome.Fail? ==> a.status == ErrorStatus(outcome.error) && a.statusTime == Some(now))
    && a.pendingUpdate == b.pendingUpdate
    && (key != Enter ==> outcome == Pass)
    && (key.Char? ==> a == b.(buffer := b.buffer + [key.c]))
    && (key == Backspace ==>
          a == b.(buffer := if b.buffer == [] then [] else b.buffer[..|b.buffer| - 1]))
    && (key == Esc ==> a == b.(mode := Normal, buffer := [], status := app.defaultStatus))
    && (Dispatch(Saving, key) == Ignore ==> a == b)
    && (key == Enter ==> a.mode == Normal && a.buffer == [])
    && (key == Enter && IsBlank(b.buffer) ==>
          outcome == Pass
          && a == b.(mode := Normal, buffer := [], status := EmptyNameError, statusTime := Some(now)))
    && (key == Enter && !IsBlank(b.buffer) ==>
          var name := Names.EnsureConfExtension(b.buffer);
          var e := Saved(b.disk, name);
          && a.disk == e.disk
          && outcome == (if e.outcome.Fail? then e.outcome
                         else if app.fs.homeKnown then Pass else Fail(HomeDirUnavailable))
          && (outcome.Fail? ==> a.selected == b.selected && a.manager == b.manager)
          && (outcome.Pass? ==>
                && a.status == SavedStatus(name) && a.statusTime == b.statusTime
                && IsListing(a.manager.configs, a.disk)
                && name in a.manager.configs && a.selected == Some(0)))
  }

  /** A key at the update confirmation: y/Y confirms, n/N/Esc cancels, anything
      else is ignored; the name buffer, the listing and the selection are kept. */
  ghost predicate UpdateConfirmKeyEffect(app: App, b: SessionView, a: SessionView, key: KeyCode, now: int,
                                         outcome: Outcome)
  {
    && (outcome.Fail? ==> a.status == ErrorStatus(outcome.error) && a.statusTime == Some(now))
    && a.buffer == b.buffer && a.selected == b.selected && a.manager == b.manager
    && (Dispatch(UpdateConfirm, key) != ConfirmUpdate ==> outcome == Pass && a.disk == b.disk)
    && (Dispatch(UpdateConfirm, key) == Ignore ==> a == b)
  }

  /** A key in whatever mode the session is in; only `Normal` can quit. */
  ghost predicate KeyEffect(app: App, b: SessionView, a: SessionView, key: KeyCode, now: int,
                            quit: bool, outcome: Outcome)
  {
    match b.mode
    case Normal => NormalKeyEffect(app, b, a, key, now, quit, outcome)
    case Saving => !quit && SavingKeyEffect(app, b, a, key, now, outcome)
    case UpdateConfirm => !quit && UpdateConfirmKeyEffect(app, b, a, key, now, outcome)
  }

  /** An input event: a key has its key effect, anything else changes nothing. */
  ghost predicate EventEffect(app: App, b: SessionView, a: SessionView, event: Event, now: int,
                              quit: bool, outcome: Outcome)
  {
    match event
    case Key(code) => KeyEffect(app, b, a, code, now, quit, outcome)
    case OtherEvent => a == b && !quit && outcome == Pass
  }

  /** The loop ends on an event exactly when it is `q` pressed in `Normal`. */
  lemma QuitsExactlyOnQ(app: App, b: SessionView, a: SessionView, event: Event, now: int,
                        quit: bool, outcome: Outcome)
    requires EventEffect(app, b, a, event, now, quit, outcome)
    ensures quit <==> b.mode == Normal && event == Key(Char('q'))
  {
  }

  /** Handles one key press: the `match app.input_mode` of `run_app`. `quit` says
      the loop returns; `outcome` is the result of the store call the key made,
      `Pass` when it made none. */
  method HandleKey(app: App, key: KeyCode, now: int) returns (quit: bool, outcome: Outcome)
    requires app.Valid()
    modifies app, app.fs
    ensures app.Valid()
    ensures quit <==> Dispatch(old(app.mode), key) == Quit
    ensures quit ==> unchanged(app) && unchanged(app.fs)
    // A store error never ends the loop: it becomes a stamped error status.
    ensures outcome.Fail? ==> app.status == ErrorStatus(outcome.error) && app.statusTime == Some(now)
    ensures KeyEffect(app, old(app.View()), app.View(), key, now, quit, outcome)
  {
    quit, outcome := false, Pass;
    match app.mode
    case Normal =>
      quit, outcome := HandleNormalKey(app, key, now);
    case Saving =>
      outcome := HandleSavingKey(app, key, now);
    case UpdateConfirm =>
      outcome := HandleUpdateConfirmKey(app, key, now);
  }

  /** The `Normal` arm of `run_app`. */
  method HandleNormalKey(app: App, key: KeyCode, now: int) returns (quit: bool, outcome: Outcome)
    requires app.Valid() && app.mode == Normal
    modifies app, app.fs
    ensures app.Valid()
    ensures quit ==> unchanged(app) && unchanged(app.fs)
    ensures NormalKeyEffect(app, old(app.View()), app.View(), key, now, quit, outcome)
  {
    quit, outcome := false, Pass;
    match Dispatch(Normal, key)
    case Quit =>
      quit := true;
    case SelectNext =>
      app.Next();
    case SelectPrevious =>
      app.Previous();
    case ApplySelected =>
      outcome := app.ApplyConfig();
      if outcome.Fail? {
        app.SetStatusMessage(ErrorStatus(outcome.error), now);
      }
    case DeleteSelected =>
      outcome := app.DeleteConfig();
      if outcome.Fail? {
        app.SetStatusMessage(ErrorStatus(outcome.error), now);
      }
    case BeginSave =>
      app.mode := Saving;
      app.buffer := [];
      app.status := SavePrompt;
    case BeginUpdate =>
      app.StartUpdateMode();
    case _ =>
  }

  /** The `Saving` arm of `run_app`. */
  method HandleSavingKey(app: App, key: KeyCode, now: int) returns (outcome: Outcome)
    requires app.Valid() && app.mode == Saving
    modifies app, app.fs
    ensures app.Valid()
    ensures SavingKeyEffect(app, old(app.View()), app.View(), key, now, outcome)
  {
    outcome := Pass;
    match Dispatch(Saving, key)
    case SubmitName =>
      if IsBlank(app.buffer) {
        app.SetStatusMessage(EmptyNameError, now);
        app.mode := Normal;
        app.buffer := [];
      } else {
        var name := Names.EnsureConfExtension(app.buffer);
        outcome := app.SaveCurrentConfig(name);
        if outcome.Fail? {
          app.SetStatusMessage(ErrorStatus(outcome.error), now);
        }
        app.mode := Normal;
        app.buffer := [];
      }
    case CancelSave =>
      app.mode := Normal;
      app.buffer := [];
      app.status := app.defaultStatus;
    case PushChar(c) =>
      app.buffer := app.buffer + [c];
    case PopChar =>
      if app.buffer != [] {
        app.buffer := app.buffer[..|app.buffer| - 1];
      }
    case _ =>
  }

  /** The `UpdateConfirm` arm of `run_app`. */
  method HandleUpdateConfirmKey(app: App, key: KeyCode, now: int) returns (outcome: Outcome)
    requires app.Valid() && app.mode == UpdateConfirm
    modifies app, app.fs
    ensures app.Valid()
    ensures UpdateConfirmKeyEffect(app, old(app.View()), app.View(), key, now, outcome)
  {
    outcome := Pass;
    match Dispatch(UpdateConfirm, key)
    case ConfirmUpdate =>
      outcome := app.ConfirmUpdate();
      if outcome.Fail? {
        app.SetStatusMessage(ErrorStatus(outcome.error), now);
      }
    case CancelUpdate =>
      app.CancelUpdate();
    case _ =>
  }

  // ---------------------------------------------------------------------------
  // The loop

  /** When the top of iteration `k` runs: `start` before the first event, and
      for every later one the moment event `k - 1` was handled. The expiry check
      runs there, before the loop blocks waiting for event `k`. */
  function CheckTime(start: int, clock: seq<int>, k: nat): int
    requires k <= |clock|
  {
    if k == 0 then start else clock[k - 1]
  }

  /** One iteration of `run_app`: the expiry check at `tick`, then the event,
      handled at `now`, on the session the check left. */
  method Iteration(app: App, tick: int, event: Event, now: int) returns (quit: bool, outcome: Outcome)
    requires app.Valid()
    modifies app, app.fs
    ensures app.Valid()
    ensures EventEffect(app, Checked(old(app.View()), app.defaultStatus, tick), app.View(), event, now, quit, outcome)
  {
    app.UpdateStatusMessage(tick);
    quit, outcome := false, Pass;
    if event.Key? {
      quit, outcome := HandleKey(app, event.code, now);
    }
  }

  /** Iterations `0 .. |outcomes| - 1` of a run, the last one ending it when `quit`. */
  ghost predicate Iterations(app: App, events: seq<Event>, start: int, clock: seq<int>,
                             trace: seq<SessionView>, outcomes: seq<Outcome>, quit: bool)
    requires |clock| == |events| && |outcomes| <= |events| && |trace| == |outcomes| + 1
  {
    forall k :: 0 <= k < |outcomes| ==>
      EventEffect(app, Checked(trace[k], app.defaultStatus, CheckTime(start, clock, k)), trace[k + 1],
                  events[k], clock[k], quit && k == |outcomes| - 1, outcomes[k])
  }

  /** A run that has not ended, followed by one more iteration. */
  lemma TraceExtends(app: App, events: seq<Event>, start: int, clock: seq<int>,
                     trace: seq<SessionView>, outcomes: seq<Outcome>, v: SessionView, o: Outcome, quit: bool)
    requires |clock| == |events| && |outcomes| < |events| && |trace| == |outcomes| + 1
    requires Iterations(app, events, start, clock, trace, outcomes, false)
    requires EventEffect(app, Checked(trace[|outcomes|], app.defaultStatus, CheckTime(start, clock, |outcomes|)), v,
                         events[|outcomes|], clock[|outcomes|], quit, o)
    ensures Iterations(app, events, start, clock, trace + [v], outcomes + [o], quit)
  {
  }

  /** `run_app` over a finite sequence of input events; `start` is when the loop
      is entered and `clock[k]` the time at which event `k` arrives and is
      handled. Each iteration checks the notification expiry, then waits for
      and handles one event. It returns `quit` when `q` is pressed in `Normal`;
      otherwise it handles every event and comes round once more, checks, and
      waits for input that does not come. `trace[k]` is the session before the
      check that precedes event `k`, and `trace[handled]` the session after the
      last event handled; `outcomes[k]` is what event `k`'s store call returned. */
  method RunApp(app: App, events: seq<Event>, start: int, clock: seq<int>)
    returns (quit: bool, handled: nat, ghost trace: seq<SessionView>, ghost outcomes: seq<Outcome>)
    requires app.Valid() && |clock| == |events|
    modifies app, app.fs
    ensures app.Valid()
    ensures handled <= |events| && |trace| == handled + 1 && |outcomes| == handled
    ensures !quit ==> handled == |events|
    ensures quit ==> handled > 0
    ensures trace[0] == old(app.View())
    // Each iteration: the check at the top of the loop, then the event.
    ensures Iterations(app, events, start, clock, trace, outcomes, quit)
    // After the last event the loop comes round once more and checks.
    ensures app.View()
      == if quit then trace[handled] else Checked(trace[handled], app.defaultStatus, CheckTime(start, clock, handled))
    // The loop ends exactly at the first `q` pressed in `Normal`.
    ensures forall k :: 0 <= k < handled ==>
      (trace[k].mode == Normal && events[k] == Key(Char('q')) <==> quit && k == handled - 1)
  {
    quit, handled, trace, outcomes := false, 0, [app.View()], [];
    var tick := start;
    while handled < |events|
      invariant app.Valid()
      invariant handled <= |events| && |trace| == handled + 1 && |outcomes| == handled
      invariant trace[0] == old(app.View()) && trace[handled] == app.View()
      invariant tick == CheckTime(start, clock, handled)
      invariant Iterations(app, events, start, clock, trace, outcomes, false)
      invariant forall k :: 0 <= k < handled ==> !(trace[k].mode == Normal && events[k] == Key(Char('q')))
    {
      var now := clock[handled];
      ghost var before := app.View();
      var outcome;
      quit, outcome := Iteration(app, tick, events[handled], now);
      QuitsExactlyOnQ(app, Checked(before, app.defaultStatus, tick), app.View(), events[handled], now, quit, outcome);
      TraceExtends(app, events, start, clock, trace, outcomes, app.View(), outcome, quit);
      trace, outcomes := trace + [app.View()], outcomes + [outcome];
      handled := handled + 1;
      if quit {
        return;
      }
      tick := now;
    }
    app.UpdateStatusMessage(tick);
  }
}
