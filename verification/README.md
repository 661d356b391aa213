# tmucks: a verified model of the snapshot manager core

tmucks keeps named snapshots of the tmux configuration file `~/.tmux.conf` in
the directory `~/.config/tmucks/`. It applies, saves and deletes them from an
interactive terminal list. This project models four parts of it in Dafny:

- the snapshot store `ConfigManager` (src/config.rs): the listing, apply, delete and save;
- the session state `App` (src/app.rs): the selection, its wrap-around
  navigation, and the full re-read and re-selection after a delete or a save;
- the key-dispatch loop `run_app` (src/tui.rs:49-127): modes, the name buffer,
  empty-name rejection, `.conf` normalisation, error statuses and the
  notification expiry at the top of every iteration;
- the name rule `ensure_conf_extension` (src/cli.rs:25-31).

The file system is abstracted to a `Disk` value. It records:

- whether the snapshot directory exists;
- its entries, a map from entry name to a regular file with opaque bytes or a sub-directory;
- the live config file, absent or its bytes.

The mutable `FileSystem` class holds the same fields. Each store method is
proved equal to a pure specification function (`Applied`, `Deleted`, `Saved`)
of the old disk. The laws of the store are lemmas over those functions.
`ConfigManager` keeps its listing in a `const`: the operations take `&self` in
the source and cannot refresh the cache. Time is an integer millisecond clock
passed in by the caller. The input is a finite sequence of events.

Modules, one per file: `Wrappers` (Option), `Names` (cli.rs), `StringOrder`
(the ordering of Rust `String` and the sort), `Store` and `StoreLaws`
(config.rs), `Session` (app.rs), `Tui` (tui.rs), `Scenarios` (whole-session
walk-throughs, including the timeline of test_timeout.rs).

## Model

| member | source | states |
|---|---|---|
| Names.EnsureConfExtension | src/cli.rs:25-31 | The result always ends with `.conf`. The input is a prefix of it. It equals the input exactly when the input already ends with `.conf`; otherwise it is 5 characters longer. |
| Names.EnsureConfExtensionIdempotent | src/cli.rs:25-31 | Applying the rule twice equals applying it once. |
| Names.EnsureConfExtensionRecoverable | src/cli.rs:29 | When the suffix was appended, dropping the last 5 characters gives back the input. |
| Names.EmptyNameBecomesSuffix | src/cli.rs:25-31 | There is no emptiness check: the empty name becomes `.conf`. |
| StringOrder.LexLeReflexive | src/config.rs:54 | The ordering used by the sort (Rust's `String` order: lexicographic by character) is reflexive. |
| StringOrder.LexLeTotal | src/config.rs:54 | Any two names are comparable. |
| StringOrder.LexLeAntisymmetric | src/config.rs:54 | Two names ordered both ways are equal. |
| StringOrder.LexLeTransitive | src/config.rs:54 | The ordering is transitive. |
| StringOrder.SortedCons | src/config.rs:54 | A name followed by an ascending sequence whose first element it does not exceed is ascending. |
| StringOrder.Insert | src/config.rs:54 | Inserting into an ascending sequence gives an ascending sequence with the same elements plus the new one; without repetitions if the input had none and the name was new. |
| StringOrder.InsertFrontSorted | src/config.rs:54 | Inserting a name not above the head puts it in front and keeps the order. |
| StringOrder.InsertBehindSorted | src/config.rs:54 | Inserting a name above the head keeps the head in front and the order. |
| StringOrder.Sort | src/config.rs:54 | The result is ascending, is a permutation of the input (same multiset), and has no repetitions when the input had none. |
| StringOrder.SortedListingUnique | src/config.rs:40-54 | Two ascending, repetition-free sequences with the same members are equal. |
| Store.FileSystem.constructor | src/config.rs:6-10 | The file system starts in the given state. |
| Store.ConfigManager.constructor | src/config.rs:29-33 | The manager holds the given file system and listing. |
| Store.ConfigManager.Open | src/config.rs:13-34 | No home directory: fails with "Could not find home directory" and changes nothing. Otherwise the snapshot directory exists afterwards, nothing else on disk changes, and the fresh manager's listing is the listing of the disk. |
| Store.ConfigManager.ReadConfigs | src/config.rs:36-56 | In whatever order the entries are enumerated, the result is ascending and repetition-free. It holds exactly the regular files with UTF-8 names directly in the directory, and nothing when the directory is missing. |
| Store.ConfigManager.ApplyConfig | src/config.rs:58-74 | Outcome and new disk are `Applied` of the old disk: not-found when the name is absent, an I/O error on a directory, otherwise the live file becomes the snapshot's bytes. |
| Store.ConfigManager.DeleteConfig | src/config.rs:76-85 | Outcome and new disk are `Deleted` of the old disk: not-found when absent, an I/O error on a directory, otherwise that one entry is removed. |
| Store.ConfigManager.SaveCurrentConfig | src/config.rs:87-96 | Outcome and new disk are `Saved` of the old disk: "No tmux config file found" without a live file, an I/O error when the destination cannot be written, otherwise the entry holds the live bytes, overwriting any existing snapshot. |
| StoreLaws.ListingIsUnique | src/config.rs:36-56 | Any two listings of one disk are the same sequence: enumeration order does not show. |
| StoreLaws.ApplyLaws | src/config.rs:58-74 | "Not found" exactly when the name is absent. Success exactly on a listed snapshot. On success the live file equals the snapshot. The directory is never changed, and a failure writes nothing. |
| StoreLaws.DeleteLaws | src/config.rs:76-85 | "Not found" exactly when absent. Success exactly on a listed snapshot. On success only that entry goes; every other entry and the live file are unchanged. A failure writes nothing. |
| StoreLaws.SaveLaws | src/config.rs:87-96 | Without a live file: "No tmux config file found" and no write. An existing snapshot is overwritten, not refused. On success only that entry changes, to the live bytes. A failure writes nothing. |
| StoreLaws.DeleteShrinksListing | src/config.rs:76-85 | After a successful delete the listed names are the old ones minus the deleted name. |
| StoreLaws.SaveGrowsListing | src/config.rs:87-96 | After a successful save the listed names are the old ones plus the saved name. |
| StoreLaws.SaveThenApply | src/config.rs:58-96 | Applying a snapshot just saved succeeds and changes nothing. |
| StoreLaws.ApplyThenSave | src/config.rs:58-96 | Applying `a` and then saving as `b` makes `b` a copy of `a`. |
| StoreLaws.SaveThenDelete | src/config.rs:76-96 | Deleting a snapshot just saved under a new name restores the old disk. |
| StoreLaws.SaveIdempotent | src/config.rs:87-96 | Saving twice under one name equals saving once. |
| Session.NextIndex | src/app.rs:33-45 | On a non-empty list the result is an in-range index, and nothing selected moves to the first entry. On an empty list the selection is unchanged (corrected; see Findings). |
| Session.PreviousIndex | src/app.rs:47-59 | Keeps an in-range selection in range. Nothing selected maps to the first index, not the last. An empty list leaves the selection unchanged (corrected; see Findings). |
| Session.NavigationKeepsSelectionInRange | src/app.rs:33-59 | Both moves keep "nothing selected exactly on an empty list, else an in-range index". |
| Session.NextPreviousInverse | src/app.rs:33-59 | `previous` undoes `next` and `next` undoes `previous`, wrap-around included. |
| Session.NextTimesAdvances | src/app.rs:36-40 | Up to a full round, k presses of `next` move k places forward modulo the length. |
| Session.PreviousTimesRetreats | src/app.rs:50-54 | Up to a full round, k presses of `previous` move k places back modulo the length. |
| Session.NavigationWrapsAround | src/app.rs:36-40 | Pressing either key `len` times returns to the start. |
| Session.NextIndexAsWritten | src/app.rs:33-45 | The source's `next`. On a non-empty list it agrees with `NextIndex`. |
| Session.PreviousIndexAsWritten | src/app.rs:47-59 | The source's `previous`. On a non-empty list it agrees with `PreviousIndex`. |
| Session.EmptyListNavigationAsWritten | src/app.rs:36-56 | On an empty list the source selects index 0, which is out of range; a second press underflows `len() - 1`. |
| Session.ReconcileAfterDelete | src/app.rs:77-83 | After the reload: nothing selected on an empty list, otherwise the old index clamped to the new last index; always in range. |
| Session.ExpiryIsMonotone | src/tui.rs:50 | An expired notification stays expired at every later check. |
| Session.NotificationTimeline | test_timeout.rs:30-66 | A notification stamped at t is kept at t+3 s, expired at t+6 s, expired exactly at t+5 s and never before. Without a stamp it never expires. |
| Session.App.constructor | src/app.rs:24-30 | A new session: default status, `Normal` mode, empty buffer, no stamp. |
| Session.App.New | src/app.rs:18-31 | Fails exactly as opening the store fails. Otherwise the listing is the disk's listing, the first entry is selected when there is one and nothing otherwise, the mode is `Normal` and the buffer is empty. |
| Session.App.Next | src/app.rs:33-45 | The selection becomes `NextIndex` of the old one; the invariant is kept. |
| Session.App.Previous | src/app.rs:47-59 | The selection becomes `PreviousIndex` of the old one; the invariant is kept. |
| Session.App.ApplyConfig | src/app.rs:61-69 | With nothing or nothing in range selected: succeeds, touches nothing. Otherwise the store call's effect is `Applied` on the selected name. The status changes only on success. The list and the selection never change. |
| Session.App.DeleteConfig | src/app.rs:71-87 | With nothing in range selected: succeeds, touches nothing. A store error returns before the status, list or selection changes. On success the disk is `Deleted`, the list is fully re-read, the deleted name is gone, and the selection is `ReconcileAfterDelete`. |
| Session.App.SaveCurrentConfig | src/app.rs:89-99 | A store error returns before the status, list or selection changes. On success the disk is `Saved`, the list is fully re-read and holds the name, and the first entry is selected. |
| Session.App.SetStatusMessage | test_timeout.rs:24-28 | The status becomes the message, stamped with the current time. |
| Session.App.UpdateStatusMessage | test_timeout.rs:30-47 | An expired notification (5000 ms or more old) reverts to the default text and loses its stamp; otherwise nothing changes. The session's view after it is `Checked` of the view before. |
| Session.Checked | test_timeout.rs:30-47 | The expiry check on a session view. Afterwards no notification has expired. Only the status and its stamp can change. The stamp is cleared exactly when the notification had expired, and then the text is the default; otherwise the view is unchanged. |
| Session.SelectedName | src/app.rs:62-63 | The selected name exists exactly when the selection is an index inside the listing, and it is then one of the listed names. |
| Session.App.StartUpdateMode | src/tui.rs:76-78 | Changes only the mode, the pending target and the status; keeps the session invariant. |
| Session.App.ConfirmUpdate | src/tui.rs:114-118 | May fail. Changes only the mode, the pending target, the status and the snapshot entries; keeps the session invariant. |
| Session.App.CancelUpdate | src/tui.rs:119-121 | Changes only the mode, the pending target and the status; keeps the session invariant. |
| Tui.ErrorStatus | src/tui.rs:62-69 | An error's status line starts with `- error: ` and continues with the error's message. |
| Tui.Dispatch | src/tui.rs:55-123 | The whole binding table, as if-and-only-ifs. `Normal`: `q` quits, j/Down and k/Up navigate, Enter applies, `d` deletes, `s` starts a save, `u` starts an update; nothing else is bound. `Saving`: every character key is typed, Enter submits, Esc cancels, Backspace erases. `UpdateConfirm`: y/Y confirms, n/N/Esc cancels, every other key is ignored. |
| Tui.HandleKey | src/tui.rs:54-124 | One step of the loop. It ends the loop exactly on a `Quit` key, touching nothing. A store error never ends the loop; it becomes a `- error: ` status stamped with the current time. It gives `KeyEffect` between the session views before and after: the full effect of the key for the mode it was pressed in (`NormalKeyEffect`, `SavingKeyEffect` or `UpdateConfirmKeyEffect`); only `Normal` can quit. The session invariant is kept. |
| Tui.HandleNormalKey | src/tui.rs:55-80 | `NormalKeyEffect`. Navigation follows `NextIndex`/`PreviousIndex` and changes nothing else. Enter and `d` with nothing selected change nothing. Enter on the selected name has the effect `Applied`; on success the status is the applied message. `d` has the effect `Deleted`, re-reads, and re-selects by `ReconcileAfterDelete`; a failure keeps the list and the selection. `s` enters `Saving` with an empty buffer and the prompt. Unbound keys and `q` change nothing. Apart from `u`, whose body is not modelled, only a store error stamps the status, and only `u` may change the pending update target. |
| Tui.HandleSavingKey | src/tui.rs:81-112 | `SavingKeyEffect`. Characters append and Backspace drops the last one (a no-op when empty); both stay in `Saving` and keep the status and its stamp. Esc restores the default status and keeps the stamp. Enter on a blank buffer sets the empty-name error, stamped, and saves nothing. Otherwise Enter saves once under the untrimmed buffer made to end in `.conf`; on success the listing is re-read and holds the name, the first entry is selected, and the stamp is kept. Enter always returns to `Normal` with an empty buffer. The pending update target never changes. |
| Tui.HandleUpdateConfirmKey | src/tui.rs:113-123 | `UpdateConfirmKeyEffect`. y/Y confirms, n/N/Esc cancels, other keys change nothing. The buffer, list and selection are kept. A confirm error becomes a stamped error status. |
| Tui.Iteration | src/tui.rs:49-125 | One pass of the loop body. The session after it is the event's `EventEffect`, at the event's arrival time, applied to `Checked` of the session before at the given tick: the expiry check runs first, and the key is dispatched on the mode and state the check left. An event that is not a key changes nothing after the check. The session invariant is kept. |
| Tui.QuitsExactlyOnQ | src/tui.rs:53-56 | Under any event effect, the loop ends exactly when the event is `q` pressed in `Normal`. |
| Tui.RunApp | src/tui.rs:49-127 | Over an event sequence with arrival times, it returns the trace of session views: `trace[0]` is the session on entry, and `trace[k + 1]` is event `k`'s `EventEffect`, at its arrival time, on `Checked` of `trace[k]` at the top-of-loop time. That time is loop entry for the first event and the previous event's arrival time after it. The loop ends exactly at the first `q` pressed in `Normal` (the session is then the last trace entry); otherwise it handles every event, comes round once more, and the session is `Checked` of the last entry. So a notification that expires during the wait is still shown while the next event is handled. The session invariant holds throughout. |
| Scenarios.SaveIntoEmptyDirectory | src/tui.rs:71-98 | From an empty directory: `s`, `work`, Enter gives the listing exactly `work.conf`, selected. |
| Scenarios.DeleteFirstOfThree | src/app.rs:71-87 | With `a.conf`, `b.conf`, `c.conf` and the first selected, `d` leaves `b.conf`, `c.conf` with index 0 selected. |
| Scenarios.NotificationTimeoutScenario | test_timeout.rs:24-47 | A notification is still shown after 3 s; after 6 s the default text is back and the stamp cleared. |
| Scenarios.NotificationBoundaryScenario | test_timeout.rs:50-69 | Polling every 100 ms, the default text returns after at least 5.0 s and before 5.5 s. |
| Scenarios.NotificationExpiresWhileWaiting | src/tui.rs:49-98 | With `a.conf` selected: `s` at 0, Enter at 1 (empty name, stamped at 1), Enter at 7000 (apply) and one more event. Driven through `RunApp`: the apply shows its status but keeps the stamp from 1, and the next check removes both, leaving the default text. |

The save prompt's inline suffix rule (src/tui.rs:88-92) is the same conditional
as `ensure_conf_extension`. `Tui.HandleSavingKey` therefore calls
`Names.EnsureConfExtension`.

## Left out

- Rendering (`ui` and the `render_*` helpers, src/tui.rs:129-497), terminal setup and teardown, and the blocking event read. Input is a finite event sequence; drawing is a library's presentation only.
- The tmux reload subprocess after apply (src/config.rs:69-71). Its result is discarded and never affects the outcome.
- src/main.rs and the clap argument parsing in src/cli.rs:3-23: command dispatch and printing only.
- `update_config` (the command-line update of a snapshot from the live file) has no member of its own. Its body is not in the shown source. Its only trace in the model is that `Session.App.ConfirmUpdate` may rewrite the snapshot directory's entries.
- `start_update_mode`, `confirm_update` and `cancel_update`: their bodies are not in the shown source. They are modelled as operations that may change only what their callers show them changing; nothing more is claimed about them.
- Session.App.StartUpdateMode: states only its frame and the session invariant, because its body is not in the shown source.
- Session.App.ConfirmUpdate: states only its frame and the session invariant, because its body is not in the shown source.
- Session.App.CancelUpdate: states only its frame and the session invariant, because its body is not in the shown source.
- Session.App.SetStatusMessage and Session.App.UpdateStatusMessage: their bodies are not in the shown source. They are modelled as the narrowest behaviour test_timeout.rs requires: stamp on set; revert and clear once 5000 ms or more have passed.
- OS-level failures beyond the state the model holds (permissions, disk full, races with other processes, a missing home directory during create_dir_all). Io errors display as a fixed "I/O error", not the OS's own wording.
- Path semantics of names. A name is one directory entry. Names with `/`, `..` or the empty name are not resolved as paths, and symbolic links are not modelled.
- The sort is modelled as a pure insertion sort on a sequence, not as `Vec::sort` in place; only its result (ascending, same elements) is claimed.
- Key modifiers and key-event kinds (press, release, repeat) are not distinguished. Every non-key event is ignored, as the loop does.
- Integer width: indices and times are unbounded integers. Release-build wrap-around of `len() - 1` is not modelled; the debug-build panic is (see Findings).

The model follows the code in these points:

- Saving under an existing name overwrites it. There is no "already exists" error.
- Esc at the save prompt restores the default text but leaves the notification stamp as it was.
- `s` sets the prompt status directly, without a stamp.

In one point the session deliberately departs from the code. On an empty list,
`next` and `previous` select index 0 in the code, which is out of range (see
Findings). `Session.App.Next`, `Session.App.Previous` and `Tui.HandleNormalKey`
use the corrected `NextIndex` and `PreviousIndex`, which leave the selection
`None` there. `Session.NextIndexAsWritten` and `Session.PreviousIndexAsWritten`
model the code as written.

## Findings

| source | as written | input that shows it | evidently intended | confidence | as-written member | corrected member |
|---|---|---|---|---|---|---|
| src/app.rs:33-45 | `next` with nothing selected selects `Some(0)` even on an empty list; from `Some(0)` it evaluates `configs.len() - 1` on 0. | Empty snapshot directory; press `j` twice: the first press selects an index out of range, the second underflows (a panic in a debug build). | On an empty list `next` changes nothing, and the selection stays `None`. | high; not executed | Session.EmptyListNavigationAsWritten | Session.NavigationKeepsSelectionInRange |
| src/app.rs:47-59 | `previous` with nothing selected selects `Some(0)` even on an empty list; from `Some(0)` it evaluates `configs.len() - 1` on 0. | Empty snapshot directory; press `k` twice. | On an empty list `previous` changes nothing, and the selection stays `None`. | high; not executed | Session.PreviousIndexAsWritten | Session.PreviousIndex |
