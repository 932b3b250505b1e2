# awatcher watchers, modelled in Dafny

This project models the two watchers of awatcher, an activity-reporting agent.
Both feed an ActivityWatch-style report client.

- **Window watcher** (`Toplevel`, in `toplevel.dfy`). It follows the compositor's
  wlr-foreign-toplevel-management-unstable-v1 protocol. It keeps a registry of the
  open windows, mapping each handle id to its app id and title, plus the id of the
  window last seen activated. On every poll it reports the focused window.
- **Idle watcher** (`Idle`, in `idle.dfy`). It polls the seconds since the last
  user input. It decides whether the user is idle against a timeout and sends one
  or two `ping(was_idle, timestamp, duration)` heartbeats per poll.
  - A transition sends two pings 1 ms apart.
  - The idle flag is carried from poll to poll and survives failed polls.

`wrappers.dfy` holds the `Option` and `Result` types both watchers use.

The registry is a value (`Toplevel.Registry`) with one reducer function per
handler. `Registry.ApplyManager` and `Registry.ApplyHandle` state, event by event,
exactly what changes and what does not. `ApplyAll` folds an event sequence.

The watcher's mutable state is the class `Toplevel.ToplevelState`. Its fields
`windows` and `currentWindowId` are updated in place by the two event-handler
methods. Each handler is proved to leave the object in the state the reducer
gives. The reporting step `send_active_window` takes `&self`, so it is
`Registry.SendActiveWindow`, a function of the registry that cannot change it.

The idle watcher's single poll is split into two functions:
- `Idle.Transition`: the decision — the new flag and the planned pings.
- `Idle.Deliver`: the chain of `ping(...)?` calls, in which the call with a given
  index fails and ends the poll.

`Idle.Run` composes the two. `Idle.Watch` is the watch loop run over a finite
list of polls. It is proved equal to the fold `Idle.WatchFrom`.

Units: timestamps and durations are integer milliseconds; the idle sample and the
timeout are whole seconds.

The model follows the code as written, including where its messages or the protocol suggest otherwise:
- The manager's `finished` event is only logged (`src/wl_foreign_toplevel.rs:69-71`).
  It does not stop the watcher or surface an error, so `ApplyManager(Finished)`
  changes nothing.
- A focused id that no longer names a window is an error of the reporting step
  (`src/wl_foreign_toplevel.rs:132-134`). It is not reported as an "unknown" window.
- Closing an unknown id is dropped by the outer lookup
  (`src/wl_foreign_toplevel.rs:120-122`). The inner "already removed" warning
  (`src/wl_foreign_toplevel.rs:114-116`) can never fire, because the id was just
  found in the map. The model simply removes the key.
- `state.contains(&(Activated as u8))` searches the raw bytes of the protocol's
  state array. It does not decode 32-bit enum entries. The model does the same:
  `IsActivated` asks whether the byte 2 (`activated`) occurs in a `seq<u8>`.

## Model

| member | source | states |
|---|---|---|
| `Toplevel.Registry.ApplyManager` | src/wl_foreign_toplevel.rs:58-72 | A `toplevel` announcement maps the new handle id to app id and title "unknown", replacing any earlier entry; every other entry and the focused id are unchanged; `finished` changes nothing |
| `Toplevel.Registry.ApplyHandle` | src/wl_foreign_toplevel.rs:92-122 | An event for an id not in the registry changes nothing. `title` sets only that window's title, keeping its app id, all other windows and the focus; `app_id` likewise. A `state` event with the activated byte sets the focus to that id whatever it was, and one without it changes nothing. `closed` removes exactly that id and leaves the focus, which may now dangle. `done` and the ignored events change nothing |
| `Toplevel.Registry.SendActiveWindow` | src/wl_foreign_toplevel.rs:127-139 | No focused id: error `NoActiveWindow` and no report call. Focused id not in the registry: error `WindowNotFound` with that id and no report call. Otherwise exactly one report call with that window's app id and title, and the result is an error exactly when that call fails |
| `Toplevel.ToplevelState.constructor` | src/wl_foreign_toplevel.rs:37-46 | A new watcher state has no windows and no focused id |
| `Toplevel.ToplevelState.OnManagerEvent` | src/wl_foreign_toplevel.rs:49-73 | The manager's handler updates the object's fields in place to the registry that `ApplyManager` gives |
| `Toplevel.ToplevelState.OnHandleEvent` | src/wl_foreign_toplevel.rs:83-123 | The handle's handler updates the object's fields in place to the registry that `ApplyHandle` gives |
| `Toplevel.ToplevelState.DispatchAll` | src/wl_foreign_toplevel.rs:164 | Dispatching a queue of events one by one to the two handlers leaves the object in the state of the in-order fold `ApplyAll` |
| `Toplevel.UnknownHandleIgnored` | src/wl_foreign_toplevel.rs:92-94 | Any sequence of events of a handle the registry does not know leaves the whole registry unchanged; in particular activating an unknown id does not move the focus |
| `Toplevel.FocusStaysWithoutActivation` | src/wl_foreign_toplevel.rs:104-117 | While no `state` event carries the activated byte, the focused id stays what it was, through title, app id, close and announcement events |
| `Toplevel.FocusComesFromActivation` | src/wl_foreign_toplevel.rs:104-110 | After any event sequence the focused id is either the earlier one or the id of a handle that sent an activation in the sequence |
| `Toplevel.WindowsComeFromAnnouncements` | src/wl_foreign_toplevel.rs:59-68 | Every window in the registry after an event sequence was there before or was announced by a `toplevel` event of the sequence |
| `Toplevel.ClosedFocusDangles` | src/wl_foreign_toplevel.rs:104-139 | Activating a known window and then closing it leaves the focused id pointing at a removed window; until another activation (or a re-announcement of that id), reporting fails with `WindowNotFound` and makes no report call |
| `Idle.Transition` | src/x11_screensaver_idle.rs:18-48 | The new flag is `seconds_since_input >= timeout`. There are two pings exactly when the flag changes, and one otherwise. Every ping's `was_idle` is the flag before the poll. The first timestamp is `last_input = now - s` seconds and the second is `last_input + 1 ms`, so all timestamps lie in `[last_input, last_input + 1 ms]` and the second is strictly later. Only the last ping of a poll that ends idle carries the duration `s` seconds; every other duration is zero |
| `Idle.Deliver` | src/x11_screensaver_idle.rs:26-44 | The pings are sent in order and the first failing call ends the poll. It succeeds exactly when no call index up to the last one fails. On success every ping is sent. On failure the calls made are the pings up to and including the failing one, and no later ping is sent |
| `Idle.Run` | src/x11_screensaver_idle.rs:12-49 | A failed read of the idle counter is an error with no report call. A successful poll returns `seconds_since_input >= timeout` after sending exactly the pings of `Transition`. A failed report call returns an error after sending the planned pings only up to the failing one |
| `Idle.Watch` | src/x11_screensaver_idle.rs:62-75 | The loop starts active. It threads the flag from poll to poll, keeps it unchanged across a failed poll, and collects every report call; the result equals the fold `WatchFrom` from `false` |
| `Idle.ReliableFlagFollowsLastSample` | src/x11_screensaver_idle.rs:22-48 | When every poll reads its sample and every report succeeds, the flag after a non-empty run of polls is decided by the last sample alone |
| `Idle.FailedPollsKeepFlag` | src/x11_screensaver_idle.rs:64-71 | Polls that each end in an error, whichever call fails (an unreadable sample, the first ping, or the second ping of a transition), never change the flag: the loop's `Err` arm keeps `is_idle` |
| `Idle.FailingAtOnceCallBound` | src/x11_screensaver_idle.rs:18-44 | Polls that fail before any successful report (sample unreadable or first ping failing) keep the flag and make at most one report call each |
| `Idle.FailedTransitionRepeats` | src/x11_screensaver_idle.rs:24-36 | When the second ping of a transition fails, the flag stays as it was; the next successful poll that still sees a transition sends both pings again, so the calls of the two polls are the two transitions' pings in order, four in all, the third repeating the zero-length boundary ping `(was_idle, last_input, 0)`, and the flag then changes |
| `Idle.SteadyPollsOnePingEach` | src/x11_screensaver_idle.rs:37-46 | Successful polls whose samples fall on the same side of the timeout as the flag keep the flag and send exactly one ping each, whose `was_idle` is the current flag |
| `Idle.TimeoutExample` | src/x11_screensaver_idle.rs:24-48 | With a 300 s timeout, starting active, samples 299 s, 300 s, 5 s give the pings `(false, t1-299 s, 0)`, then `(false, t2-300 s, 0)`, `(false, t2-300 s+1 ms, 300 s)`, then `(true, t3-5 s, 0)`, `(true, t3-5 s+1 ms, 0)`, and the flag ends active |

## Left out

- Wayland connection setup, binding to the toplevel manager global, event-queue `roundtrip` and its errors, the `event_created_child!` and `subscribe_state!` macros: protocol I/O and generated bindings. A handle is represented only by its id string; `DispatchAll` stands for the in-order dispatch a roundtrip performs.
- The window watcher's loop (`src/wl_foreign_toplevel.rs:154-174`): its steps are I/O. The first roundtrip's `.unwrap()` panic, the logging of errors and the sleep are not modelled. Its modelled part is `DispatchAll` and, when dispatch succeeds, `Registry.SendActiveWindow`.
- The unused fields `_last_input_time`, `_is_idle`, `_is_changed` and the shared report client handle of `ToplevelState`.
- `X11Connection` and `seconds_since_last_input`, including the trial read in `IdleWatcher::new`: an X11 screensaver-extension call. Each poll's sample is an input, `None` when the read fails.
- `Utc::now()` and `thread::sleep`: the clock is an input (`nowMs`) of each poll, and poll intervals are not modelled. The watch loops are infinite in the program; `Watch` runs a finite list of polls.
- The report client's transport and serialisation: a report call is recorded with its arguments and succeeds or fails according to an input (`reportOk`, `failAt`).
- Logging macros (`debug!`, `trace!`, `warn!`, `error!`).
- Integer widths: the sample is a `u32` and the timeout's `as_secs()` a `u64` in the program. They are compared after a lossless widening, and chrono's date arithmetic cannot overflow for these magnitudes, so they are unbounded integers here.
