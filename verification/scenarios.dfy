/**
 * Whole-session scenarios: saving into an empty directory, deleting the first
 * of three snapshots, the notification timeline test_timeout.rs checks, and a
 * notification that expires while the loop waits for input, each driven
 * through the session and key handlers on a fresh file system.
 */
module Scenarios {
  import opened Wrappers
  import opened StringOrder
  import opened Store
  import opened StoreLaws
  import opened Session
  import opened Tui
  import Names

  /** Empty snapshot directory; `s`, type `work`, Enter: the store holds exactly
      `work.conf`, and it is selected. */
  method SaveIntoEmptyDirectory(live: Bytes) returns (configs: seq<string>, selected: Option<nat>)
    ensures configs == ["work.conf"] && selected == Some(0)
  {
    var fs := new FileSystem(true, Disk(true, map[], Some(live)));
    var started := App.New(fs);
    var app := started.value;
    var initial := fs.State();
    var quit, outcome := HandleNormalKey(app, Char('s'), 0);
    assert app.mode == Saving && app.buffer == [] && fs.State() == initial;
    TypeWork(app);
    SubmitWork(app, live);
    configs, selected := app.manager.configs, app.selected;
  }

  /** `w`, `o`, `r`, `k` typed at an empty save prompt. */
  method TypeWork(app: App)
    requires app.Valid() && app.mode == Saving && app.buffer == []
    modifies app, app.fs
    ensures app.Valid() && app.mode == Saving && app.buffer == "work"
    ensures app.fs.State() == old(app.fs.State())
  {
    var outcome := HandleSavingKey(app, Char('w'), 1);
    assert app.mode == Saving && app.buffer == "w";
    outcome := HandleSavingKey(app, Char('o'), 2);
    assert app.mode == Saving && app.buffer == "wo";
    outcome := HandleSavingKey(app, Char('r'), 3);
    assert app.mode == Saving && app.buffer == "wor";
    outcome := HandleSavingKey(app, Char('k'), 4);
  }

  /** Enter at the save prompt holding `work`, with no snapshots on disk. */
  method SubmitWork(app: App, live: Bytes)
    requires app.Valid() && app.mode == Saving && app.buffer == "work"
    requires app.fs.homeKnown && app.fs.State() == Disk(true, map[], Some(live))
    modifies app, app.fs
    ensures app.manager.configs == ["work.conf"] && app.selected == Some(0)
  {
    assert !IsWhitespace(app.buffer[0]);
    assert Names.EnsureConfExtension("work") == "work.conf";
    var d := Disk(true, map[Utf8("work.conf") := File(live)], Some(live));
    assert Saved(app.fs.State(), "work.conf") == Effect(Pass, d);
    assert IsListing(["work.conf"], d);
    var outcome := HandleSavingKey(app, Enter, 5);
    assert app.fs.State() == d && outcome == Pass;
    ListingIsUnique(app.manager.configs, ["work.conf"], d);
  }

  /** `a.conf`, `b.conf`, `c.conf` with the first selected; `d`: the store lists
      `b.conf`, `c.conf`, and the selection stays at index 0, now `b.conf`. */
  method DeleteFirstOfThree(a: Bytes, b: Bytes, c: Bytes) returns (configs: seq<string>, selected: Option<nat>)
    ensures configs == ["b.conf", "c.conf"] && selected == Some(0)
  {
    var three := map[Utf8("a.conf") := File(a), Utf8("b.conf") := File(b), Utf8("c.conf") := File(c)];
    var fs := new FileSystem(true, Disk(true, three, None));
    var started := App.New(fs);
    var app := started.value;
    assert IsListing(["a.conf", "b.conf", "c.conf"], fs.State());
    ListingIsUnique(app.manager.configs, ["a.conf", "b.conf", "c.conf"], fs.State());
    assert app.selected == Some(0);
    DeleteFirst(app, a, b, c);
    configs, selected := app.manager.configs, app.selected;
  }

  /** `d` in `Normal` with `a.conf` of `a.conf`, `b.conf`, `c.conf` selected. */
  method DeleteFirst(app: App, a: Bytes, b: Bytes, c: Bytes)
    requires app.Valid() && app.mode == Normal && app.fs.homeKnown
    requires app.manager.configs == ["a.conf", "b.conf", "c.conf"] && app.selected == Some(0)
    requires app.fs.State()
      == Disk(true, map[Utf8("a.conf") := File(a), Utf8("b.conf") := File(b), Utf8("c.conf") := File(c)], None)
    modifies app, app.fs
    ensures app.manager.configs == ["b.conf", "c.conf"] && app.selected == Some(0)
  {
    var two := Disk(true, map[Utf8("b.conf") := File(b), Utf8("c.conf") := File(c)], None);
    assert Deleted(app.fs.State(), "a.conf") == Effect(Pass, two);
    assert IsListing(["b.conf", "c.conf"], two);
    var quit, outcome := HandleNormalKey(app, Char('d'), 0);
    assert app.fs.State() == two && outcome == Pass;
    ListingIsUnique(app.manager.configs, ["b.conf", "c.conf"], two);
  }

  /** test_timeout.rs, steps 2-4: a notification set at `t` is still shown at
      `t` + 3 s, and by `t` + 6 s the default text is back and the stamp cleared. */
  method NotificationTimeoutScenario(t: int) returns (atThree: string, atSix: string, stampAtSix: Option<int>)
    ensures atThree == "Test notification message"
    ensures atSix == DefaultStatus && stampAtSix == None
  {
    var fs := new FileSystem(true, Disk(true, map[], None));
    var started := App.New(fs);
    var app := started.value;
    app.SetStatusMessage("Test notification message", t);
    app.UpdateStatusMessage(t + 3000);
    atThree := app.status;
    app.UpdateStatusMessage(t + 6000);
    atSix, stampAtSix := app.status, app.statusTime;
  }

  /** test_timeout.rs, step 5: polling every 100 ms for up to 7 s, the default
      text comes back after no less than 5.0 s and well before 5.5 s. */
  method NotificationBoundaryScenario(t: int) returns (elapsed: int)
    ensures 5000 <= elapsed < 5500
  {
    var fs := new FileSystem(true, Disk(true, map[], None));
    var started := App.New(fs);
    var app := started.value;
    app.SetStatusMessage("Another test message", t);
    elapsed := 0;
    assert |"Another test message"| != |DefaultStatus|;
    while elapsed < 7000
      invariant 0 <= elapsed <= 5000 && elapsed % 100 == 0
      invariant app.status == "Another test message" && app.statusTime == Some(t)
      invariant app.defaultStatus == DefaultStatus
    {
      app.UpdateStatusMessage(t + elapsed);
      if app.status == app.defaultStatus {
        return;
      }
      elapsed := elapsed + 100;
    }
    assert false;
  }

  /** The expiry check runs at the top of the loop, before the wait for the next
      key, and only `set_status_message` stamps the status. With `a.conf`
      selected, the events `s` at 0, Enter at 1 (an empty name, stamped at 1),
      Enter at 7000 (applies `a.conf`; the stamp stays at 1) and another event
      at 7001 are run through `RunApp`: the apply's
      status is shown, and the check after it removes it together with the
      stale stamp. */
  method NotificationExpiresWhileWaiting(a: Bytes) returns (ghost applied: string, last: string, stamp: Option<int>)
    ensures applied == AppliedStatus("a.conf")
    ensures last == DefaultStatus && stamp == None
  {
    var fs := new FileSystem(true, Disk(true, map[Utf8("a.conf") := File(a)], None));
    var started := App.New(fs);
    var app := started.value;
    assert IsListing(["a.conf"], fs.State());
    ListingIsUnique(app.manager.configs, ["a.conf"], fs.State());
    var events := [Key(Char('s')), Key(Enter), Key(Enter), OtherEvent];
    var clock := [0, 1, 7000, 7001];
    var quit, handled, trace, outcomes := RunApp(app, events, 0, clock);
    ExpiryTrace(app, a, events, clock, quit, handled, trace, outcomes);
    applied := trace[3].status;
    last, stamp := app.status, app.statusTime;
  }

  /** The trace `RunApp` leaves for the events of `NotificationExpiresWhileWaiting`,
      iteration by iteration. */
  lemma ExpiryTrace(app: App, a: Bytes, events: seq<Event>, clock: seq<int>,
                    quit: bool, handled: nat, trace: seq<SessionView>, outcomes: seq<Outcome>)
    requires events == [Key(Char('s')), Key(Enter), Key(Enter), OtherEvent] && clock == [0, 1, 7000, 7001]
    requires handled <= |events| && |trace| == handled + 1 && |outcomes| == handled
    requires !quit ==> handled == |events|
    requires quit ==> handled > 0
    requires forall k :: 0 <= k < handled ==>
      (trace[k].mode == Normal && events[k] == Key(Char('q')) <==> quit && k == handled - 1)
    requires Iterations(app, events, 0, clock, trace, outcomes, quit)
    requires app.defaultStatus == DefaultStatus
    requires var v := trace[0];
      && v.mode == Normal && v.status == DefaultStatus && v.statusTime == None
      && v.manager.configs == ["a.conf"] && v.selected == Some(0)
      && v.disk.dir == map[Utf8("a.conf") := File(a)]
    ensures !quit && handled == 4
    ensures trace[3].status == AppliedStatus("a.conf") && trace[3].statusTime == Some(1)
    ensures trace[4] == trace[3].(status := DefaultStatus, statusTime := None)
  {
    if handled > 0 {
      assert events[handled - 1] != Key(Char('q'));
    }
    assert !quit;
    var v0 := trace[0];
    assert EventEffect(app, Checked(v0, DefaultStatus, 0), trace[1], events[0], 0, false, outcomes[0]);
    assert trace[1] == v0.(mode := Saving, buffer := [], status := SavePrompt);
    assert EventEffect(app, Checked(trace[1], DefaultStatus, 0), trace[2], events[1], 1, false, outcomes[1]);
    assert IsBlank([]);
    assert trace[2] == v0.(mode := Normal, buffer := [], status := EmptyNameError, statusTime := Some(1));
    assert EventEffect(app, Checked(trace[2], DefaultStatus, 1), trace[3], events[2], 7000, false, outcomes[2]);
    assert SelectedName(trace[2]) == Some("a.conf");
    assert Applied(trace[2].disk, "a.conf").outcome == Pass;
    assert EventEffect(app, Checked(trace[3], DefaultStatus, 7000), trace[4], events[3], 7001, false, outcomes[3]);
  }
}
