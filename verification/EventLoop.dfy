/** The agent's event loop: debounce of container events, forced rescan when the event stream
    breaks, and the two back-offs. Times are in milliseconds. */
module EventLoop {
  import opened Text

  const DEBOUNCE: nat := 400
  const BACKOFF_BASE: nat := 500
  const BACKOFF_MAX: nat := 30_000
  const RECONNECT_BASE: nat := 1_000
  const RECONNECT_MAX: nat := 30_000

  /** `rescanning` is the stretch between the end of one event stream and the next one. */
  datatype Loop = Loop(backoff: nat, reconnect: nat, debounce: Option<nat>, sawEvent: bool, rescanning: bool)

  /** `ok` tells whether the reconcile or heartbeat succeeded. */
  datatype Event =
    | Delivered(relevant: bool, at: nat)
    | StreamEnded
    | DebounceFired(at: nat, ok: bool)
    | PeriodicFired(ok: bool)
    | HeartbeatFired(ok: bool)
    | Rescanned(ok: bool)

  function Min(a: nat, b: nat): (r: nat)
  {
    if a < b then a else b
  }

  /** Back to the base on success, doubled up to the maximum on failure. */
  function AfterAttempt(backoff: nat, ok: bool): (r: nat)
  {
    if ok then BACKOFF_BASE else Min(backoff * 2, BACKOFF_MAX)
  }

  /** Which branch the loop can take next. */
  predicate Enabled(s: Loop, ev: Event)
  {
    if s.rescanning then ev.Rescanned?
    else !ev.Rescanned? && (ev.DebounceFired? ==> s.debounce.Some? && s.debounce.value <= ev.at)
  }

  function Step(s: Loop, ev: Event): (r: Loop)
    requires Enabled(s, ev)
  {
    match ev
    case Delivered(relevant, at) =>
      s.(sawEvent := true, debounce := if relevant then Some(at + DEBOUNCE) else s.debounce)
    case StreamEnded => s.(rescanning := true)
    case DebounceFired(_, ok) => s.(debounce := None, backoff := AfterAttempt(s.backoff, ok))
    case PeriodicFired(ok) => s.(backoff := AfterAttempt(s.backoff, ok))
    case HeartbeatFired(ok) => s.(backoff := AfterAttempt(s.backoff, ok))
    case Rescanned(ok) =>
      var delay := if s.sawEvent then RECONNECT_BASE else s.reconnect;
      Loop(AfterAttempt(s.backoff, ok), Min(delay * 2, RECONNECT_MAX), None, false, false)
  }

  /** The loop's variables, changed branch by branch. */
  class AgentLoop {
    var backoff: nat
    var reconnect: nat
    var debounce: Option<nat>
    var sawEvent: bool
    var rescanning: bool

    ghost function View(): (s: Loop)
      reads this
    {
      Loop(backoff, reconnect, debounce, sawEvent, rescanning)
    }

    /** The state after the initial scan, which succeeded or not. */
    constructor (ok: bool)
      ensures View() == Initial(ok)
    {
      backoff, reconnect := AfterAttempt(BACKOFF_BASE, ok), RECONNECT_BASE;
      debounce, sawEvent, rescanning := None, false, false;
    }

    method BumpControllerBackoff()
      modifies this`backoff
      ensures backoff == AfterAttempt(old(backoff), false)
    {
      backoff := Min(backoff * 2, BACKOFF_MAX);
    }

    method ReconcileWithBackoff(ok: bool)
      modifies this`backoff
      ensures backoff == AfterAttempt(old(backoff), ok)
    {
      if ok {
        backoff := BACKOFF_BASE;
      } else {
        BumpControllerBackoff();
      }
    }

    /** One turn of the select, or the rescan after the inner loop. */
    method Turn(ev: Event)
      requires Enabled(View(), ev)
      modifies this
      ensures View() == Step(old(View()), ev)
    {
      match ev {
        case Delivered(relevant, at) =>
          sawEvent := true;
          if relevant {
            debounce := Some(at + DEBOUNCE);
          }
        case StreamEnded =>
          rescanning := true;
        case DebounceFired(_, ok) =>
          debounce := None;
          ReconcileWithBackoff(ok);
        case PeriodicFired(ok) =>
          ReconcileWithBackoff(ok);
        case HeartbeatFired(ok) =>
          if !ok {
            BumpControllerBackoff();
          } else {
            backoff := BACKOFF_BASE;
          }
        case Rescanned(ok) =>
          if sawEvent {
            reconnect := RECONNECT_BASE;
          }
          ReconcileWithBackoff(ok);
          reconnect := Min(reconnect * 2, RECONNECT_MAX);
          debounce, sawEvent, rescanning := None, false, false;
      }
    }
  }

  // ---- Runs ----

  function Initial(ok: bool): (s: Loop)
  {
    Loop(AfterAttempt(BACKOFF_BASE, ok), RECONNECT_BASE, None, false, false)
  }

  /** The states of the loop after the initial scan and each event. */
  predicate IsRun(ok: bool, evs: seq<Event>, states: seq<Loop>)
  {
    && |states| == |evs| + 1
    && states[0] == Initial(ok)
    && forall i :: 0 <= i < |evs| ==> Enabled(states[i], evs[i]) && states[i + 1] == Step(states[i], evs[i])
  }

  predicate IsReconcile(ev: Event)
  {
    ev.DebounceFired? || ev.PeriodicFired? || ev.Rescanned?
  }

  // What the history alone says.

  /** When the last relevant event came, if no reconcile has followed it. */
  function Owed(evs: seq<Event>): (r: Option<nat>)
  {
    if evs == [] then None
    else
      var ev := evs[|evs| - 1];
      if IsReconcile(ev) then None
      else if ev.Delivered? && ev.relevant then Some(ev.at)
      else Owed(evs[..|evs| - 1])
  }

  function Failed(ev: Event): (r: bool)
  {
    match ev
    case DebounceFired(_, ok) => !ok
    case PeriodicFired(ok) => !ok
    case HeartbeatFired(ok) => !ok
    case Rescanned(ok) => !ok
    case _ => false
  }

  function Succeeded(ev: Event): (r: bool)
  {
    !ev.Delivered? && !ev.StreamEnded? && !Failed(ev)
  }

  /** Attempts that failed since the last one that succeeded, the initial scan counted in. */
  function Failures(ok: bool, evs: seq<Event>): (k: nat)
  {
    if evs == [] then (if ok then 0 else 1)
    else
      var ev := evs[|evs| - 1];
      if Succeeded(ev) then 0
      else Failures(ok, evs[..|evs| - 1]) + (if Failed(ev) then 1 else 0)
  }

  /** Some event, relevant or not, has come on the present stream. */
  predicate Saw(evs: seq<Event>)
  {
    evs != [] && !evs[|evs| - 1].Rescanned? && (evs[|evs| - 1].Delivered? || Saw(evs[..|evs| - 1]))
  }

  /** Streams broken in a row, counted from the last one that had brought an event. */
  function Breaks(evs: seq<Event>): (k: nat)
  {
    if evs == [] then 0
    else
      var init := evs[..|evs| - 1];
      if !evs[|evs| - 1].Rescanned? then Breaks(init) else if Saw(init) then 1 else Breaks(init) + 1
  }

  function Pow2(k: nat): (p: nat)
    ensures p > 0
  {
    if k == 0 then 1 else 2 * Pow2(k - 1)
  }

  /** When the last relevant event came since the last debounced reconcile or rescan. */
  function Awaited(evs: seq<Event>): (r: Option<nat>)
  {
    if evs == [] then None
    else
      var ev := evs[|evs| - 1];
      if ev.DebounceFired? || ev.Rescanned? then None
      else if ev.Delivered? && ev.relevant then Some(ev.at)
      else Awaited(evs[..|evs| - 1])
  }

  /** What holds in a state, given the history that led to it. */
  predicate LoopInv(ok: bool, evs: seq<Event>, s: Loop)
  {
    && (Owed(evs).Some? ==> s.rescanning || s.debounce == Some(Owed(evs).value + 400))
    && s.debounce == (if Awaited(evs).Some? then Some(Awaited(evs).value + 400) else None)
    && s.backoff == Min(500 * Pow2(Failures(ok, evs)), 30_000)
    && s.reconnect == Min(1_000 * Pow2(Breaks(evs)), 30_000)
    && s.sawEvent == Saw(evs)
  }

  lemma BackoffDoubles(base: nat, cap: nat, k: nat)
    ensures Min(Min(base * Pow2(k), cap) * 2, cap) == Min(base * Pow2(k + 1), cap)
  {
    assert base * Pow2(k + 1) == 2 * (base * Pow2(k));
  }

  lemma {:induction false} LoopInvStep(ok: bool, evs: seq<Event>, s: Loop, ev: Event)
    requires LoopInv(ok, evs, s) && Enabled(s, ev)
    ensures LoopInv(ok, evs + [ev], Step(s, ev))
  {
    assert (evs + [ev])[..|evs|] == evs;
    BackoffDoubles(BACKOFF_BASE, BACKOFF_MAX, Failures(ok, evs));
    BackoffDoubles(RECONNECT_BASE, RECONNECT_MAX, Breaks(evs));
    assert Pow2(0) == 1 && Pow2(1) == 2;
    assert Failed(ev) || Succeeded(ev) || ev.Delivered? || ev.StreamEnded?;
  }

  /** In every run: after a relevant event that no reconcile has followed, a debounce is pending
      for 400 ms after it or the forced rescan is the only step left; after k failures since the
      last success the back-off is min(500 * 2^k, 30000); after j broken streams in a row the
      reconnect delay is min(1000 * 2^j, 30000). */
  lemma {:induction false} LoopKeepsObligations(ok: bool, evs: seq<Event>, states: seq<Loop>)
    requires IsRun(ok, evs, states)
    ensures LoopInv(ok, evs, states[|evs|])
    ensures states[|evs|].rescanning ==> forall ev :: Enabled(states[|evs|], ev) ==> ev.Rescanned?
  {
    if evs == [] {
      assert Pow2(0) == 1 && Pow2(1) == 2;
    } else {
      var n := |evs| - 1;
      assert IsRun(ok, evs[..n], states[..n + 1]);
      LoopKeepsObligations(ok, evs[..n], states[..n + 1]);
      LoopInvStep(ok, evs[..n], states[n], evs[n]);
      assert evs == evs[..n] + [evs[n]];
    }
  }

  /** A debounced reconcile answers a relevant event that came since the last debounced reconcile or
      rescan, and runs no sooner than 400 ms after the last such event. */
  lemma DebounceWaits(ok: bool, evs: seq<Event>, states: seq<Loop>, k: nat)
    requires IsRun(ok, evs, states) && k < |evs| && evs[k].DebounceFired?
    ensures Awaited(evs[..k]).Some? && Awaited(evs[..k]).value + 400 <= evs[k].at
  {
    assert IsRun(ok, evs[..k], states[..k + 1]);
    LoopKeepsObligations(ok, evs[..k], states[..k + 1]);
    assert Enabled(states[k], evs[k]);
  }
}
