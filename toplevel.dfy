/** The window-focus watcher: a registry of the toplevel windows announced by
    the compositor through wlr-foreign-toplevel-management-unstable-v1, kept
    up to date by the manager's and the handles' events, and the reporting
    step that sends the focused window's identity. */
module Toplevel {
  import opened Wrappers

  /** One byte of the `state` array a handle sends. */
  newtype u8 = x: int | 0 <= x < 256

  /** The `activated` entry of the protocol's `state` enum. */
  const Activated: u8 := 2

  /** Placeholder for an app id or title that has not arrived yet. */
  const Unknown: string := "unknown"

  /** What the watcher remembers of one open window. */
  datatype WindowData = WindowData(appId: string, title: string)

  /** Events of the toplevel manager object. */
  datatype ManagerEvent =
    | Toplevel(handleId: string)  // a new window handle was created
    | Finished                    // the compositor will send no more events

  /** Events of one toplevel handle; the handle's id travels beside them. */
  datatype HandleEvent =
    | Title(title: string)
    | AppId(appId: string)
    | OutputEnter(output: string)
    | OutputLeave(output: string)
    | State(state: seq<u8>)
    | Done
    | Closed
    | Parent(parent: Option<string>)

  /** Any event the event queue can deliver to the watcher. */
  datatype Event =
    | Manager(manager: ManagerEvent)
    | Handle(id: string, handle: HandleEvent)

  /** Why one reporting step did not report successfully. */
  datatype SendError =
    | NoActiveWindow            // no window has been seen activated
    | WindowNotFound(id: string) // the focused id is no longer in the registry
    | ReportFailed              // the report client returned an error

  /** The report call `send_active_window(app_id, title)` made, if any, and
      the reporting step's result. */
  datatype SendOutcome = SendOutcome(call: Option<WindowData>, result: Result<(), SendError>)

  /** True when the raw `state` bytes of a handle include `activated`. */
  predicate IsActivated(state: seq<u8>) {
    Activated in state
  }

  /** `m` and `m'` agree on every key other than `id`. */
  ghost predicate SameExcept(m: map<string, WindowData>, m': map<string, WindowData>, id: string) {
    forall k :: k != id ==> (k in m <==> k in m') && (k in m ==> m[k] == m'[k])
  }

  /** The watcher's state as a value: the open windows by handle id and the
      id of the window last seen activated. */
  datatype Registry = Registry(windows: map<string, WindowData>, currentWindowId: Option<string>)
  {
    /** The effect of a manager event. A new handle gets placeholder app id
        and title, replacing any entry under that id; `Finished` is only
        logged by the watcher. */
    function ApplyManager(e: ManagerEvent): (r: Registry)
      ensures e.Toplevel? ==>
        && e.handleId in r.windows
        && r.windows[e.handleId] == WindowData(Unknown, Unknown)
        && SameExcept(windows, r.windows, e.handleId)
        && r.currentWindowId == currentWindowId
      ensures e.Finished? ==> r == this
    {
      match e
      case Toplevel(h) => this.(windows := windows[h := WindowData(Unknown, Unknown)])
      case Finished => this
    }

    /** The effect of an event of the handle `id`. Events for an id that is
        not in the registry are dropped. */
    function ApplyHandle(id: string, e: HandleEvent): (r: Registry)
      ensures id !in windows ==> r == this
      ensures id in windows && e.Title? ==>
        && id in r.windows
        && r.windows[id].title == e.title
        && r.windows[id].appId == windows[id].appId
        && SameExcept(windows, r.windows, id)
        && r.currentWindowId == currentWindowId
      ensures id in windows && e.AppId? ==>
        && id in r.windows
        && r.windows[id].appId == e.appId
        && r.windows[id].title == windows[id].title
        && SameExcept(windows, r.windows, id)
        && r.currentWindowId == currentWindowId
      ensures id in windows && e.State? ==>
        && r.windows == windows
        && r.currentWindowId == (if IsActivated(e.state) then Some(id) else currentWindowId)
      ensures id in windows && e.Closed? ==>
        && id !in r.windows
        && SameExcept(windows, r.windows, id)
        && r.currentWindowId == currentWindowId
      ensures (e.Done? || e.OutputEnter? || e.OutputLeave? || e.Parent?) ==> r == this
    {
      if id !in windows then this
      else
        var w := windows[id];
        match e
        case Title(t) => this.(windows := windows[id := w.(title := t)])
        case AppId(a) => this.(windows := windows[id := w.(appId := a)])
        case State(st) => if IsActivated(st) then this.(currentWindowId := Some(id)) else this
        case Done => this
        case Closed => this.(windows := windows - {id})
        case _ => this
    }

    /** The effect of one event of either kind. */
    function Apply(ev: Event): Registry {
      match ev
      case Manager(e) => ApplyManager(e)
      case Handle(id, e) => ApplyHandle(id, e)
    }

    /** The reporting step: look up the focused window and report its app id
        and title. `reportOk` is the report client's answer. The registry is
        only read. */
    function SendActiveWindow(reportOk: bool): (o: SendOutcome)
      ensures currentWindowId.None? ==> o == SendOutcome(None, Err(NoActiveWindow))
      ensures currentWindowId.Some? && currentWindowId.value !in windows ==>
        o == SendOutcome(None, Err(WindowNotFound(currentWindowId.value)))
      ensures currentWindowId.Some? && currentWindowId.value in windows ==>
        && o.call == Some(windows[currentWindowId.value])
        && (o.result.Ok? <==> reportOk)
        && (!reportOk ==> o.result == Err(ReportFailed))
    {
      match currentWindowId
      case None => SendOutcome(None, Err(NoActiveWindow))
      case Some(id) =>
        if id !in windows then SendOutcome(None, Err(WindowNotFound(id)))
        else
          var w := windows[id];
          SendOutcome(Some(w), if reportOk then Ok(()) else Err(ReportFailed))
    }
  }

  /** The registry of a watcher that has seen no event yet. */
  const Empty := Registry(map[], None)

  /** The registry after the events `evs`, dispatched in order. */
  function ApplyAll(r: Registry, evs: seq<Event>): Registry
    decreases |evs|
  {
    if evs == [] then r else ApplyAll(r.Apply(evs[0]), evs[1..])
  }

  /** Dispatching `a` and then `b` is dispatching `a + b`. */
  lemma {:induction false} ApplyAllAppend(r: Registry, a: seq<Event>, b: seq<Event>)
    ensures ApplyAll(r, a + b) == ApplyAll(ApplyAll(r, a), b)
    decreases |a|
  {
    if a == [] {
      assert a + b == b;
    } else {
      assert (a + b)[0] == a[0];
      assert (a + b)[1..] == a[1..] + b;
      ApplyAllAppend(r.Apply(a[0]), a[1..], b);
    }
  }

  /** True when `ev` is an event of the handle `id`. */
  predicate IsHandleEventOf(ev: Event, id: string) {
    ev.Handle? && ev.id == id
  }

  /** True when `ev` is a `state` event that includes `activated`. */
  predicate IsActivation(ev: Event) {
    ev.Handle? && ev.handle.State? && IsActivated(ev.handle.state)
  }

  /** True when `ev` announces the handle `id`. */
  predicate Announces(ev: Event, id: string) {
    ev == Manager(Toplevel(id))
  }

  /** However many events of a handle the registry has never heard of arrive,
      nothing changes: in particular activating an unknown id does not move
      the focus. */
  lemma {:induction false} UnknownHandleIgnored(r: Registry, id: string, evs: seq<Event>)
    requires id !in r.windows
    requires forall i :: 0 <= i < |evs| ==> IsHandleEventOf(evs[i], id)
    ensures ApplyAll(r, evs) == r
    decreases |evs|
  {
    if evs != [] {
      assert IsHandleEventOf(evs[0], id);
      assert r.Apply(evs[0]) == r;
      UnknownHandleIgnored(r, id, evs[1..]);
    }
  }

  /** The focus only moves on an activation: while no `state` event with
      `activated` arrives, the focused id stays what it was, even when its
      window is closed. */
  lemma {:induction false} FocusStaysWithoutActivation(r: Registry, evs: seq<Event>)
    requires forall i :: 0 <= i < |evs| ==> !IsActivation(evs[i])
    ensures ApplyAll(r, evs).currentWindowId == r.currentWindowId
    decreases |evs|
  {
    if evs != [] {
      assert !IsActivation(evs[0]);
      FocusStaysWithoutActivation(r.Apply(evs[0]), evs[1..]);
    }
  }

  /** The focused id after a batch of events is the one before it or the id
      of a handle that sent an activation in the batch. */
  lemma {:induction false} FocusComesFromActivation(r: Registry, evs: seq<Event>)
    ensures var f := ApplyAll(r, evs).currentWindowId;
      f == r.currentWindowId ||
      (f.Some? && exists i :: 0 <= i < |evs| && IsActivation(evs[i]) && evs[i].id == f.value)
    decreases |evs|
  {
    if evs != [] {
      var r1 := r.Apply(evs[0]);
      FocusComesFromActivation(r1, evs[1..]);
      var f := ApplyAll(r, evs).currentWindowId;
      if f != r.currentWindowId {
        if f == r1.currentWindowId {
          assert IsActivation(evs[0]) && evs[0].id == f.value;
        } else {
          var i :| 0 <= i < |evs[1..]| && IsActivation(evs[1..][i]) && evs[1..][i].id == f.value;
          assert evs[i + 1] == evs[1..][i];
        }
      }
    }
  }

  /** Every window in the registry after a batch of events was there before
      it or was announced by a `toplevel` event of the batch. */
  lemma {:induction false} WindowsComeFromAnnouncements(r: Registry, evs: seq<Event>, id: string)
    requires id in ApplyAll(r, evs).windows
    ensures id in r.windows || exists i :: 0 <= i < |evs| && Announces(evs[i], id)
    decreases |evs|
  {
    if evs != [] {
      var r1 := r.Apply(evs[0]);
      WindowsComeFromAnnouncements(r1, evs[1..], id);
      if id !in r.windows {
        if id in r1.windows {
          assert Announces(evs[0], id);
        } else {
          var i :| 0 <= i < |evs[1..]| && Announces(evs[1..][i], id);
          assert evs[i + 1] == evs[1..][i];
        }
      }
    }
  }

  /** The race the reporting step tolerates: the focused window is closed,
      the focus pointer keeps its id, and reporting fails with
      `WindowNotFound` without calling the report client until another
      window is activated. */
  lemma {:induction false} ClosedFocusDangles(r: Registry, id: string, st: seq<u8>, later: seq<Event>, reportOk: bool)
    requires id in r.windows && IsActivated(st)
    requires forall i :: 0 <= i < |later| ==> !IsActivation(later[i]) && !Announces(later[i], id)
    ensures var r' := ApplyAll(r, [Handle(id, State(st)), Handle(id, Closed)] + later);
      && r'.currentWindowId == Some(id)
      && id !in r'.windows
      && r'.SendActiveWindow(reportOk) == SendOutcome(None, Err(WindowNotFound(id)))
  {
    var batch := [Handle(id, State(st)), Handle(id, Closed)];
    var activated := r.ApplyHandle(id, State(st));
    var closed := activated.ApplyHandle(id, Closed);
    assert ApplyAll(r, batch) == closed by {
      assert batch[1..] == [Handle(id, Closed)];
      assert [Handle(id, Closed)][1..] == [];
      assert ApplyAll(activated, [Handle(id, Closed)]) == ApplyAll(closed, []);
    }
    ApplyAllAppend(r, batch, later);
    FocusStaysWithoutActivation(closed, later);
    if id in ApplyAll(closed, later).windows {
      WindowsComeFromAnnouncements(closed, later, id);
      assert false;
    }
  }

  /** The watcher's state object, mutated in place by the event handlers. */
  class ToplevelState {
    var windows: map<string, WindowData>
    var currentWindowId: Option<string>

    /** The state as a registry value. */
    function Snapshot(): Registry
      reads this
    {
      Registry(windows, currentWindowId)
    }

    /** A fresh watcher state: no windows, no focus. */
    constructor ()
      ensures Snapshot() == Empty
    {
      windows := map[];
      currentWindowId := None;
    }

    /** The manager's event handler. */
    method OnManagerEvent(e: ManagerEvent)
      modifies this
      ensures Snapshot() == old(Snapshot()).ApplyManager(e)
    {
      match e
      case Toplevel(h) =>
        windows := windows[h := WindowData(Unknown, Unknown)];
      case Finished =>
    }

    /** The handle's event handler, for events of the handle `id`. */
    method OnHandleEvent(id: string, e: HandleEvent)
      modifies this
      ensures Snapshot() == old(Snapshot()).ApplyHandle(id, e)
    {
      if id in windows {
        var window := windows[id];
        match e
        case Title(t) =>
          windows := windows[id := window.(title := t)];
        case AppId(a) =>
          windows := windows[id := window.(appId := a)];
        case State(st) =>
          if IsActivated(st) {
            currentWindowId := Some(id);
          }
        case Done =>
        case Closed =>
          windows := windows - {id};
        case _ =>
      }
    }

    /** Dispatches the queued events to the two handlers, in order. */
    method DispatchAll(evs: seq<Event>)
      modifies this
      ensures Snapshot() == ApplyAll(old(Snapshot()), evs)
    {
      var i := 0;
      while i < |evs|
        invariant 0 <= i <= |evs|
        invariant ApplyAll(old(Snapshot()), evs) == ApplyAll(Snapshot(), evs[i..])
      {
        assert evs[i..][1..] == evs[i + 1..];
        match evs[i] {
          case Manager(e) => OnManagerEvent(e);
          case Handle(id, e) => OnHandleEvent(id, e);
        }
        i := i + 1;
      }
    }
  }
}
