/** The webhook receiver's concurrency (internal/webhook/webhook.go): the Server's
    8-slot semaphore and the goroutines it admits, each of which runs one call of
    TriggerManager.Trigger. An interleaving is a sequence of events; each event is one
    atomic section of the Go code (a critical section, a select, or a channel step). */
module Webhook {
  import opened Text
  import ProjectPath

  const CAPACITY: nat := 8

  type CallId = nat

  /** Where a goroutine stands:
      Admitted  holds a slot, has not yet entered Trigger's first critical section;
      Waiting   registered, inside the debounce select;
      Fetching  inside m.trigger;
      Leaving   Trigger's body has returned, its deferred cleanup has not run;
      Left      Trigger has returned, the slot is still held;
      Released  the slot has been given back. */
  datatype Phase = Admitted | Waiting | Fetching | Leaving | Left | Released

  /** One accepted event. `cancelled` is set by the manager, `parentEnded` when the
      parent context ends before the debounce elapsed; the two times are history. */
  datatype Call = Call(
    path: string,
    phase: Phase,
    cancelled: bool,
    parentEnded: bool,
    registeredAt: Option<nat>,
    fetchedAt: Option<nat>)
  {
    /** Between the two critical sections of Trigger. */
    predicate Inside() { phase.Waiting? || phase.Fetching? || phase.Leaving? }
  }

  /** `slots`, `pending` and `calls` are the program's state; the rest is history:
      the step counter, the last registration of each path, and two tallies by path:
      cleanups that deleted another call's entry, and cleanups of calls that were
      neither cancelled nor named by `pending` any more. */
  datatype State = State(
    slots: nat,
    pending: map<string, CallId>,
    calls: seq<Call>,
    clock: nat,
    latest: map<string, CallId>,
    foreignErasures: multiset<string>,
    orphanExits: multiset<string>)

  const INITIAL: State := State(0, map[], [], 0, map[], multiset{}, multiset{})

  datatype Event =
    | Admit(path: string)
    | Register(c: CallId)
    | ParentEnds(c: CallId)
    | Abort(c: CallId)
    | TimerFires(c: CallId)
    | FetchReturns(c: CallId)
    | Cleanup(c: CallId)
    | Release(c: CallId)

  /** A select with two ready branches picks either, so TimerFires does not ask
      whether the call has been cancelled. */
  predicate Enabled(s: State, e: Event) {
    match e
    case Admit(path) => s.slots < CAPACITY && ProjectPath.Validate(path).Accepted?
    case Register(c) => c < |s.calls| && s.calls[c].phase.Admitted?
    case ParentEnds(c) =>
      c < |s.calls| && (s.calls[c].phase.Admitted? || s.calls[c].phase.Waiting?) && !s.calls[c].parentEnded
    case Abort(c) =>
      c < |s.calls| && s.calls[c].phase.Waiting? && (s.calls[c].cancelled || s.calls[c].parentEnded)
    case TimerFires(c) => c < |s.calls| && s.calls[c].phase.Waiting?
    case FetchReturns(c) => c < |s.calls| && s.calls[c].phase.Fetching?
    case Cleanup(c) => c < |s.calls| && s.calls[c].phase.Leaving?
    case Release(c) => c < |s.calls| && s.calls[c].phase.Left? && s.slots > 0
  }

  /** The effect of the cancel function stored under `path`, if there is one. */
  function CancelPending(pending: map<string, CallId>, calls: seq<Call>, path: string): (after: seq<Call>)
    ensures |after| == |calls|
  {
    if path in pending && pending[path] < |calls| then
      calls[pending[path] := calls[pending[path]].(cancelled := true)]
    else calls
  }

  function Next(s: State, e: Event): State
    requires Enabled(s, e)
  {
    var t := s.(clock := s.clock + 1);
    match e
    case Admit(path) =>
      t.(slots := s.slots + 1, calls := s.calls + [Call(path, Admitted, false, false, None, None)])
    case Register(c) =>
      var path := s.calls[c].path;
      var calls := CancelPending(s.pending, s.calls, path);
      t.(calls := calls[c := calls[c].(phase := Waiting, registeredAt := Some(s.clock))],
         pending := s.pending[path := c],
         latest := s.latest[path := c])
    case ParentEnds(c) => t.(calls := s.calls[c := s.calls[c].(parentEnded := true)])
    case Abort(c) => t.(calls := s.calls[c := s.calls[c].(phase := Leaving)])
    case TimerFires(c) =>
      t.(calls := s.calls[c := s.calls[c].(phase := Fetching, fetchedAt := Some(s.clock))])
    case FetchReturns(c) => t.(calls := s.calls[c := s.calls[c].(phase := Leaving)])
    case Cleanup(c) =>
      var call := s.calls[c];
      var owned := call.path in s.pending && s.pending[call.path] == c;
      t.(calls := s.calls[c := call.(phase := Left)],
         pending := s.pending - {call.path},
         foreignErasures := s.foreignErasures
           + (if call.path in s.pending && !owned then multiset{call.path} else multiset{}),
         orphanExits := s.orphanExits
           + (if !call.cancelled && !owned then multiset{call.path} else multiset{}))
    case Release(c) =>
      t.(slots := s.slots - 1, calls := s.calls[c := s.calls[c].(phase := Released)])
  }

  /** The state after a schedule, None when some event was not enabled. */
  function Exec(s: State, es: seq<Event>): Option<State>
  {
    if es == [] then Some(s)
    else
      match Exec(s, es[..|es| - 1])
      case None => None
      case Some(t) => if Enabled(t, es[|es| - 1]) then Some(Next(t, es[|es| - 1])) else None
  }

  // ----- what the theorems speak of -----

  /** Calls of `path` between their two critical sections that the manager has not cancelled. */
  function Uncancelled(s: State, path: string): set<CallId> {
    set c: CallId | c < |s.calls| && s.calls[c].Inside() && !s.calls[c].cancelled && s.calls[c].path == path
  }

  /** Goroutines holding a slot. */
  function InFlight(s: State): set<CallId> {
    set c: CallId | c < |s.calls| && !s.calls[c].phase.Released?
  }

  predicate AllReturned(s: State) {
    forall c | 0 <= c < |s.calls| :: s.calls[c].phase.Released?
  }

  // ----- invariants -----

  /** Each pending entry names an uncancelled call of its path inside Trigger. */
  ghost predicate EntriesOwned(s: State) {
    forall p | p in s.pending ::
      && s.pending[p] < |s.calls| && s.calls[s.pending[p]].path == p
      && s.calls[s.pending[p]].Inside() && !s.calls[s.pending[p]].cancelled
  }

  ghost predicate SlotsCounted(s: State) {
    s.slots == |InFlight(s)| <= CAPACITY
  }

  function Entry(s: State, path: string): nat {
    if path in s.pending then 1 else 0
  }

  /** The balance of uncancelled calls: entry plus erasures, less orphans gone. */
  ghost predicate Balanced(s: State, path: string) {
    |Uncancelled(s, path)| + s.orphanExits[path] == Entry(s, path) + s.foreignErasures[path]
  }

  /** History is consistent: who registered and when, who fetched and when, and why a
      call that came out of the debounce without fetching did so. */
  ghost predicate CallHistory(s: State, c: CallId)
    requires c < |s.calls|
  {
    var call := s.calls[c];
    && ProjectPath.Validate(call.path).Accepted?
    && (call.phase.Admitted? <==> call.registeredAt.None?)
    && (call.cancelled ==> call.registeredAt.Some?)
    && (call.registeredAt.Some? ==> call.registeredAt.value < s.clock)
    && (call.phase.Admitted? || call.phase.Waiting? ==> call.fetchedAt.None?)
    && (call.phase.Fetching? ==> call.fetchedAt.Some?)
    && (call.fetchedAt.Some? ==> call.registeredAt.Some? && call.registeredAt.value < call.fetchedAt.value < s.clock)
    && (call.phase.Leaving? || call.phase.Left? || call.phase.Released? ==>
          call.fetchedAt.Some? || call.cancelled || call.parentEnded)
  }

  ghost predicate LatestOf(s: State, c: CallId)
    requires c < |s.calls|
  {
    var call := s.calls[c];
    call.registeredAt.Some? ==>
      && call.path in s.latest && s.latest[call.path] < |s.calls|
      && var last := s.calls[s.latest[call.path]];
         && last.path == call.path && !last.cancelled
         && last.registeredAt.Some? && call.registeredAt.value <= last.registeredAt.value
  }

  ghost predicate History(s: State) {
    forall c: CallId | c < |s.calls| :: CallHistory(s, c) && LatestOf(s, c)
  }

  ghost predicate Inv(s: State) {
    && EntriesOwned(s)
    && SlotsCounted(s)
    && History(s)
    && (forall p :: Balanced(s, p))
  }

  // ----- one step -----

  /** Register as the calls see it: the path's owner is cancelled, `c` is registered. */
  lemma RegisterCalls(s: State, c: CallId, d: CallId)
    requires EntriesOwned(s) && History(s) && Enabled(s, Register(c)) && d < |s.calls|
    ensures Next(s, Register(c)).calls[d] ==
            var call := s.calls[d];
            if d == c then call.(phase := Waiting, registeredAt := Some(s.clock))
            else if call.path == s.calls[c].path && call.path in s.pending && s.pending[call.path] == d then
              call.(cancelled := true)
            else call
    ensures !s.calls[c].cancelled
    ensures s.calls[c].path in s.pending ==> s.pending[s.calls[c].path] != c
  {
    assert CallHistory(s, c);
  }

  lemma EntriesOwnedStep(s: State, e: Event)
    requires EntriesOwned(s) && History(s) && Enabled(s, e)
    ensures EntriesOwned(Next(s, e))
  {
    var t := Next(s, e);
    forall p | p in t.pending
      ensures && t.pending[p] < |t.calls| && t.calls[t.pending[p]].path == p
              && t.calls[t.pending[p]].Inside() && !t.calls[t.pending[p]].cancelled
    {
      if e.Register? {
        RegisterCalls(s, e.c, t.pending[p]);
      }
    }
  }

  /** Only admission and release change who holds a slot. */
  lemma InFlightStep(s: State, e: Event, d: CallId)
    requires Enabled(s, e)
    ensures d in InFlight(Next(s, e)) <==>
            (d in InFlight(s) || (e.Admit? && d == |s.calls|)) && e != Release(d)
  {}

  lemma SlotsCountedStep(s: State, e: Event)
    requires SlotsCounted(s) && Enabled(s, e)
    ensures SlotsCounted(Next(s, e))
  {
    var before, after := InFlight(s), InFlight(Next(s, e));
    forall d: CallId
      ensures d in after <==> (d in before || (e.Admit? && d == |s.calls|)) && e != Release(d)
    {
      InFlightStep(s, e, d);
    }
    if e.Admit? {
      assert after == before + {|s.calls|};
    } else if e.Release? {
      assert after == before - {e.c};
    } else {
      assert after == before;
    }
  }

  /** How one event changes the uncancelled calls of a path. */
  lemma UncancelledStep(s: State, e: Event, p: string)
    requires EntriesOwned(s) && History(s) && Enabled(s, e)
    ensures
      Uncancelled(Next(s, e), p) ==
      match e
      case Register(c) =>
        if s.calls[c].path != p then Uncancelled(s, p)
        else if p in s.pending then Uncancelled(s, p) - {s.pending[p]} + {c}
        else Uncancelled(s, p) + {c}
      case Cleanup(c) => Uncancelled(s, p) - {c}
      case _ => Uncancelled(s, p)
  {
    if e.Register? {
      forall d: CallId | d < |s.calls|
        ensures d in Uncancelled(Next(s, e), p) <==>
                if s.calls[e.c].path != p then d in Uncancelled(s, p)
                else d == e.c || (d in Uncancelled(s, p) && (p in s.pending ==> d != s.pending[p]))
      {
        RegisterCalls(s, e.c, d);
      }
    }
  }

  lemma BalancedRegister(s: State, c: CallId, p: string)
    requires EntriesOwned(s) && History(s) && Balanced(s, p) && Enabled(s, Register(c))
    ensures Balanced(Next(s, Register(c)), p)
  {
    UncancelledStep(s, Register(c), p);
    var before := Uncancelled(s, p);
    if s.calls[c].path == p {
      assert c !in before;
      if p in s.pending {
        RegisterCalls(s, c, c);
        assert s.pending[p] in before;
        assert |before - {s.pending[p]}| == |before| - 1;
      }
    }
  }

  lemma BalancedCleanup(s: State, c: CallId, p: string)
    requires EntriesOwned(s) && History(s) && Balanced(s, p) && Enabled(s, Cleanup(c))
    ensures Balanced(Next(s, Cleanup(c)), p)
  {
    UncancelledStep(s, Cleanup(c), p);
    var before := Uncancelled(s, p);
    if s.calls[c].path != p || s.calls[c].cancelled {
      assert before - {c} == before;
    } else {
      assert c in before;
      assert |before - {c}| == |before| - 1;
    }
    assert p in s.pending ==> s.pending[p] in before;
  }

  lemma BalancedStep(s: State, e: Event, p: string)
    requires EntriesOwned(s) && History(s) && Balanced(s, p) && Enabled(s, e)
    ensures Balanced(Next(s, e), p)
  {
    match e
    case Register(c) => BalancedRegister(s, c, p);
    case Cleanup(c) => BalancedCleanup(s, c, p);
    case _ => UncancelledStep(s, e, p);
  }

  /** Every event but Register leaves each call's path, times and cancellation alone,
      except that a call that starts fetching gets its fetch time. */
  lemma OthersKeepCalls(s: State, e: Event, d: CallId)
    requires Enabled(s, e) && !e.Register? && d < |s.calls|
    ensures var call, after := s.calls[d], Next(s, e).calls[d];
            && after.path == call.path && after.cancelled == call.cancelled && after.registeredAt == call.registeredAt
            && (call.parentEnded ==> after.parentEnded)
            && (if e == TimerFires(d) then after.fetchedAt == Some(s.clock) else after.fetchedAt == call.fetchedAt)
  {}

  lemma LatestOfRegister(s: State, c: CallId, d: CallId)
    requires EntriesOwned(s) && History(s) && Enabled(s, Register(c)) && d < |s.calls|
    ensures LatestOf(Next(s, Register(c)), d)
  {
    var last := if s.calls[d].path in s.latest && s.latest[s.calls[d].path] < |s.calls| then s.latest[s.calls[d].path] else d;
    assert CallHistory(s, d) && LatestOf(s, d);
    RegisterCalls(s, c, c);
    RegisterCalls(s, c, d);
    RegisterCalls(s, c, last);
  }

  lemma LatestOfOthers(s: State, e: Event, d: CallId)
    requires History(s) && Enabled(s, e) && !e.Register? && d < |s.calls|
    ensures LatestOf(Next(s, e), d)
  {
    assert LatestOf(s, d);
    OthersKeepCalls(s, e, d);
    if s.calls[d].registeredAt.Some? {
      OthersKeepCalls(s, e, s.latest[s.calls[d].path]);
    }
  }

  lemma CallHistoryRegister(s: State, c: CallId, d: CallId)
    requires EntriesOwned(s) && History(s) && Enabled(s, Register(c)) && d < |s.calls|
    ensures CallHistory(Next(s, Register(c)), d)
  {
    assert CallHistory(s, d);
    RegisterCalls(s, c, d);
  }

  lemma CallHistoryTimer(s: State, c: CallId, d: CallId)
    requires History(s) && Enabled(s, TimerFires(c)) && d < |s.calls|
    ensures CallHistory(Next(s, TimerFires(c)), d)
  {
    assert CallHistory(s, d);
  }

  /** The events that only move a call on. */
  lemma CallHistoryMoves(s: State, e: Event, d: CallId)
    requires History(s) && Enabled(s, e) && d < |s.calls|
    requires e.Abort? || e.FetchReturns? || e.Cleanup? || e.Release?
    ensures CallHistory(Next(s, e), d)
  {
    assert CallHistory(s, d);
    OthersKeepCalls(s, e, d);
    if d != e.c {
      assert Next(s, e).calls[d] == s.calls[d];
    }
  }

  lemma CallHistoryOthers(s: State, e: Event, d: CallId)
    requires History(s) && Enabled(s, e) && !e.Register? && d < |s.calls|
    ensures CallHistory(Next(s, e), d)
  {
    match e
    case Admit(_) => assert CallHistory(s, d);
    case ParentEnds(_) => assert CallHistory(s, d);
    case TimerFires(c) => CallHistoryTimer(s, c, d);
    case _ => CallHistoryMoves(s, e, d);
  }

  lemma HistoryStep(s: State, e: Event)
    requires EntriesOwned(s) && History(s) && Enabled(s, e)
    ensures History(Next(s, e))
  {
    forall c: CallId | c < |Next(s, e).calls|
      ensures CallHistory(Next(s, e), c) && LatestOf(Next(s, e), c)
    {
      if c < |s.calls| {
        if e.Register? {
          CallHistoryRegister(s, e.c, c);
          LatestOfRegister(s, e.c, c);
        } else {
          CallHistoryOthers(s, e, c);
          LatestOfOthers(s, e, c);
        }
      }
    }
  }

  lemma InvStep(s: State, e: Event)
    requires Inv(s) && Enabled(s, e)
    ensures Inv(Next(s, e))
  {
    EntriesOwnedStep(s, e);
    SlotsCountedStep(s, e);
    HistoryStep(s, e);
    forall p
      ensures Balanced(Next(s, e), p)
    {
      BalancedStep(s, e, p);
    }
  }

  lemma {:induction false} InvReachable(es: seq<Event>, s: State)
    requires Exec(INITIAL, es) == Some(s)
    ensures Inv(s)
  {
    if es == [] {
      assert InFlight(s) == {};
      assert forall p :: Uncancelled(s, p) == {};
    } else {
      var t := Exec(INITIAL, es[..|es| - 1]).value;
      InvReachable(es[..|es| - 1], t);
      InvStep(t, es[|es| - 1]);
    }
  }

  // ----- debouncing -----

  /** The per-project balance holds exactly in every reachable state, so the number of
      uncancelled calls is at most the entry plus the erasures of foreign entries; as
      long as no cleanup has erased a foreign entry of the path, debouncing is exact. */
  lemma DebounceBalance(es: seq<Event>, s: State, path: string)
    requires Exec(INITIAL, es) == Some(s)
    ensures |Uncancelled(s, path)| + s.orphanExits[path] == Entry(s, path) + s.foreignErasures[path]
    ensures s.foreignErasures[path] == 0 ==>
              Uncancelled(s, path) == if path in s.pending then {s.pending[path]} else {}
  {
    InvReachable(es, s);
    assert Balanced(s, path);
    if s.foreignErasures[path] == 0 && path in s.pending {
      var own := {s.pending[path]};
      assert own <= Uncancelled(s, path);
      assert |Uncancelled(s, path) - own| == |Uncancelled(s, path)| - 1;
    }
  }

  /** The map lookup of the first critical section misses although an uncancelled call
      of the same path is still inside Trigger. */
  predicate Blind(s: State, path: string) {
    path !in s.pending && Uncancelled(s, path) != {}
  }

  predicate RegistersBlindly(s: State, e: Event, path: string) {
    e.Register? && e.c < |s.calls| && s.calls[e.c].path == path && Blind(s, path)
  }

  predicate AtMostOne(s: State, path: string) {
    |Uncancelled(s, path)| <= 1
  }

  lemma AtMostOneStep(s: State, e: Event, path: string)
    requires Inv(s) && Enabled(s, e) && AtMostOne(s, path)
    ensures AtMostOne(Next(s, e), path) <==> !RegistersBlindly(s, e, path)
  {
    UncancelledStep(s, e, path);
    var before := Uncancelled(s, path);
    if e.Register? && s.calls[e.c].path == path {
      assert e.c !in before;
      if path in s.pending {
        var own := {s.pending[path]};
        assert own <= before;
        assert |before - own| == |before| - 1;
      }
    }
  }

  lemma {:induction false} ExecPrefix(s: State, es: seq<Event>, k: nat)
    requires Exec(s, es).Some? && k <= |es|
    ensures Exec(s, es[..k]).Some?
    ensures k < |es| ==> var t := Exec(s, es[..k]).value;
                         Enabled(t, es[k]) && Exec(s, es[..k + 1]) == Some(Next(t, es[k]))
    decreases |es|
  {
    if k < |es| {
      var init := es[..|es| - 1];
      assert init[..k] == es[..k];
      assert es[..k + 1][..k] == es[..k];
      if k < |init| {
        ExecPrefix(s, init, k);
        assert init[..k + 1] == es[..k + 1];
      } else {
        assert es[..k + 1] == es;
      }
    } else {
      assert es[..k] == es;
    }
  }

  /** The state a run is in after its first k events. */
  function At(es: seq<Event>, k: nat): (s: State)
    requires Exec(INITIAL, es).Some? && k <= |es|
    ensures Exec(INITIAL, es[..k]) == Some(s)
  {
    ExecPrefix(INITIAL, es, k);
    Exec(INITIAL, es[..k]).value
  }

  lemma AtMostOneAt(es: seq<Event>, path: string, k: nat)
    requires Exec(INITIAL, es).Some? && k < |es|
    requires AtMostOne(At(es, k), path)
    ensures AtMostOne(At(es, k + 1), path) <==> !RegistersBlindly(At(es, k), es[k], path)
  {
    ExecPrefix(INITIAL, es, k);
    InvReachable(es[..k], At(es, k));
    AtMostOneStep(At(es, k), es[k], path);
  }

  lemma {:induction false} AtMostOneUpTo(es: seq<Event>, path: string, k: nat)
    requires Exec(INITIAL, es).Some? && k <= |es|
    requires forall i | 0 <= i < |es| :: !RegistersBlindly(At(es, i), es[i], path)
    ensures AtMostOne(At(es, k), path)
  {
    if k == 0 {
      assert Uncancelled(INITIAL, path) == {};
    } else {
      AtMostOneUpTo(es, path, k - 1);
      AtMostOneAt(es, path, k - 1);
    }
  }

  ghost predicate AtMostOneThroughout(es: seq<Event>, path: string)
    requires Exec(INITIAL, es).Some?
  {
    forall k | 0 <= k <= |es| :: AtMostOne(At(es, k), path)
  }

  ghost predicate NoBlindRegistration(es: seq<Event>, path: string)
    requires Exec(INITIAL, es).Some?
  {
    forall k | 0 <= k < |es| :: !RegistersBlindly(At(es, k), es[k], path)
  }

  /** Exactly when "at most one uncancelled call of a path" holds throughout a run: when
      no call of the path registers blindly. */
  lemma AtMostOneIff(es: seq<Event>, path: string)
    requires Exec(INITIAL, es).Some?
    ensures AtMostOneThroughout(es, path) <==> NoBlindRegistration(es, path)
  {
    if AtMostOneThroughout(es, path) {
      forall k | 0 <= k < |es|
        ensures !RegistersBlindly(At(es, k), es[k], path)
      {
        assert AtMostOne(At(es, k + 1), path);
        AtMostOneAt(es, path, k);
      }
    }
    if NoBlindRegistration(es, path) {
      forall k | 0 <= k <= |es|
        ensures AtMostOne(At(es, k), path)
      {
        AtMostOneUpTo(es, path, k);
      }
    }
  }

  lemma Snoc(s: State, es: seq<Event>, t: State, e: Event)
    requires Exec(s, es) == Some(t) && Enabled(t, e)
    ensures Exec(s, es + [e]) == Some(Next(t, e))
  {
    assert (es + [e])[..|es|] == es;
  }

  /** Two calls of one path, after the second has registered: the first is cancelled. */
  lemma TwoRegistered(path: string, more: nat) returns (es: seq<Event>, s: State)
    requires ProjectPath.Validate(path).Accepted? && more <= 1
    ensures Exec(INITIAL, es) == Some(s) && s.slots == 2 + more && s.pending == map[path := 1]
    ensures s.foreignErasures == multiset{}
    ensures |s.calls| == 2 + more && forall c: nat | c < 2 + more :: s.calls[c].path == path
    ensures s.calls[0].phase.Waiting? && s.calls[0].cancelled && s.calls[1].phase.Waiting? && !s.calls[1].cancelled
    ensures more == 1 ==> s.calls[2].phase.Admitted? && !s.calls[2].cancelled
  {
    es, s := AllAdmitted(path, more);
    es, s := Extend(es, s, Register(0));
    assert s.pending == map[path := 0] && s.calls[0].phase.Waiting? && s.calls[1].phase.Admitted?;
    es, s := Extend(es, s, Register(1));
    assert s.pending == map[path := 1];
  }

  lemma AllAdmitted(path: string, more: nat) returns (es: seq<Event>, s: State)
    requires ProjectPath.Validate(path).Accepted? && more <= 1
    ensures Exec(INITIAL, es) == Some(s) && s.slots == 2 + more && s.pending == map[]
    ensures s.foreignErasures == multiset{}
    ensures |s.calls| == 2 + more
    ensures forall c: nat | c < 2 + more :: s.calls[c] == Call(path, Admitted, false, false, None, None)
  {
    es, s := Extend([], INITIAL, Admit(path));
    es, s := Extend(es, s, Admit(path));
    if more == 1 {
      es, s := Extend(es, s, Admit(path));
    }
  }

  /** Three overlapping calls of one path: the second cancels the first, the first's
      cleanup erases the second's entry, the third registers blindly, and the second
      and third fetch the same repository at once. */
  lemma ThreeCallRun(path: string) returns (es: seq<Event>, s: State)
    requires ProjectPath.Validate(path).Accepted?
    ensures Exec(INITIAL, es) == Some(s)
    ensures |s.calls| == 3 && s.calls[1].phase.Fetching? && s.calls[2].phase.Fetching?
    ensures {1, 2} <= Uncancelled(s, path) && s.foreignErasures[path] == 1
  {
    es, s := TwoRegistered(path, 1);
    es, s := Extend(es, s, Abort(0));
    es, s := Extend(es, s, Cleanup(0));
    assert s.pending == map[] && s.foreignErasures[path] == 1;
    es, s := Extend(es, s, Register(2));
    es, s := Extend(es, s, TimerFires(1));
    es, s := Extend(es, s, TimerFires(2));
  }

  lemma Extend(es: seq<Event>, s: State, e: Event) returns (es': seq<Event>, s': State)
    requires Exec(INITIAL, es) == Some(s) && Enabled(s, e)
    ensures Exec(INITIAL, es') == Some(s') && s' == Next(s, e)
  {
    Snoc(INITIAL, es, s, e);
    es', s' := es + [e], Next(s, e);
  }

  // ----- concurrent fetches -----

  /** Calls of `path` inside m.trigger. */
  function Fetches(s: State, path: string): set<CallId> {
    set c: CallId | c < |s.calls| && s.calls[c].phase.Fetching? && s.calls[c].path == path
  }

  predicate OneFetch(s: State, path: string) {
    |Fetches(s, path)| <= 1
  }

  /** A call comes out of the debounce while another of its path is still fetching. */
  predicate Overlaps(s: State, e: Event, path: string) {
    e.TimerFires? && e.c < |s.calls| && s.calls[e.c].path == path && Fetches(s, path) != {}
  }

  lemma FetchesStep(s: State, e: Event, path: string, d: CallId)
    requires Enabled(s, e)
    ensures d in Fetches(Next(s, e), path) <==>
            (d in Fetches(s, path) || (e == TimerFires(d) && s.calls[d].path == path)) && e != FetchReturns(d)
  {
    if e.Register? && d < |s.calls| {
      assert CancelPending(s.pending, s.calls, s.calls[e.c].path)[d].phase == s.calls[d].phase;
    }
  }

  lemma OneFetchStep(s: State, e: Event, path: string)
    requires Enabled(s, e) && OneFetch(s, path)
    ensures OneFetch(Next(s, e), path) <==> !Overlaps(s, e, path)
  {
    var before, after := Fetches(s, path), Fetches(Next(s, e), path);
    forall d: CallId
      ensures d in after <==>
              (d in before || (e == TimerFires(d) && s.calls[d].path == path)) && e != FetchReturns(d)
    {
      FetchesStep(s, e, path, d);
    }
    if e.TimerFires? && s.calls[e.c].path == path {
      assert e.c !in before && after == before + {e.c};
    } else {
      assert after <= before;
      assert |before| == |after| + |before - after|;
    }
  }

  ghost predicate OneFetchThroughout(es: seq<Event>, path: string)
    requires Exec(INITIAL, es).Some?
  {
    forall k | 0 <= k <= |es| :: OneFetch(At(es, k), path)
  }

  ghost predicate NoOverlap(es: seq<Event>, path: string)
    requires Exec(INITIAL, es).Some?
  {
    forall k | 0 <= k < |es| :: !Overlaps(At(es, k), es[k], path)
  }

  lemma {:induction false} OneFetchUpTo(es: seq<Event>, path: string, k: nat)
    requires Exec(INITIAL, es).Some? && k <= |es| && NoOverlap(es, path)
    ensures OneFetch(At(es, k), path)
  {
    if k == 0 {
      assert Fetches(INITIAL, path) == {};
    } else {
      OneFetchUpTo(es, path, k - 1);
      ExecPrefix(INITIAL, es, k - 1);
      OneFetchStep(At(es, k - 1), es[k - 1], path);
    }
  }

  /** Exactly when no two calls of a path ever fetch at once: when no timer fires for one
      while another is still fetching. A cancellation sent to it does not count. */
  lemma OneFetchIff(es: seq<Event>, path: string)
    requires Exec(INITIAL, es).Some?
    ensures OneFetchThroughout(es, path) <==> NoOverlap(es, path)
  {
    if OneFetchThroughout(es, path) {
      forall k | 0 <= k < |es|
        ensures !Overlaps(At(es, k), es[k], path)
      {
        assert OneFetch(At(es, k), path) && OneFetch(At(es, k + 1), path);
        ExecPrefix(INITIAL, es, k);
        OneFetchStep(At(es, k), es[k], path);
      }
    }
    if NoOverlap(es, path) {
      forall k | 0 <= k <= |es|
        ensures OneFetch(At(es, k), path)
      {
        OneFetchUpTo(es, path, k);
      }
    }
  }

  /** Why two calls of a path fetch at once: one of them was cancelled too late or went on
      all the same, or some call of the path registered blindly. */
  lemma TwoFetchesCause(es: seq<Event>, s: State, path: string, c: CallId, d: CallId)
    requires Exec(INITIAL, es) == Some(s) && c != d && {c, d} <= Fetches(s, path)
    ensures s.calls[c].cancelled || s.calls[d].cancelled || !NoBlindRegistration(es, path)
  {
    if !s.calls[c].cancelled && !s.calls[d].cancelled {
      var rest := Uncancelled(s, path) - {c, d};
      assert {c, d} <= Uncancelled(s, path) && Uncancelled(s, path) == rest + {c, d};
      assert |Uncancelled(s, path)| == |rest| + 2;
      AtMostOneIff(es, path);
      assert es[..|es|] == es && At(es, |es|) == s;
    }
  }

  /** As long as no cleanup has erased a foreign entry of the path, all calls fetching it
      have been cancelled, except the one that owns the entry. */
  lemma FetchesCancelled(es: seq<Event>, s: State, path: string, c: CallId)
    requires Exec(INITIAL, es) == Some(s) && s.foreignErasures[path] == 0 && c in Fetches(s, path)
    ensures s.calls[c].cancelled || (path in s.pending && s.pending[path] == c)
  {
    DebounceBalance(es, s, path);
    assert !s.calls[c].cancelled ==> c in Uncancelled(s, path);
  }

  lemma BlindNeedsErasure(s: State, path: string)
    requires Inv(s) && Blind(s, path)
    ensures s.foreignErasures[path] > 0
  {
    assert Balanced(s, path);
  }

  lemma {:induction false} ErasuresGrow(es: seq<Event>, path: string, k: nat)
    requires Exec(INITIAL, es).Some? && k <= |es|
    ensures At(es, k).foreignErasures[path] <= At(es, |es|).foreignErasures[path]
    decreases |es| - k
  {
    if k < |es| {
      ExecPrefix(INITIAL, es, k);
      ErasuresGrow(es, path, k + 1);
    }
  }

  /** Without foreign erasures no call registers blindly. */
  lemma NoErasureNoBlind(es: seq<Event>, s: State, path: string)
    requires Exec(INITIAL, es) == Some(s) && s.foreignErasures[path] == 0
    ensures NoBlindRegistration(es, path)
  {
    forall k | 0 <= k < |es|
      ensures !RegistersBlindly(At(es, k), es[k], path)
    {
      ErasuresGrow(es, path, k);
      assert es[..|es|] == es && At(es, |es|) == s;
      InvReachable(es[..k], At(es, k));
      if Blind(At(es, k), path) {
        BlindNeedsErasure(At(es, k), path);
      }
    }
  }

  /** Two calls suffice for two fetches at once: the second cancels the first while that is
      already fetching, and does not wait for it. Debouncing has worked throughout. */
  lemma TwoCallRun(path: string) returns (es: seq<Event>, s: State)
    requires ProjectPath.Validate(path).Accepted?
    ensures Exec(INITIAL, es) == Some(s)
    ensures |s.calls| == 2 && Fetches(s, path) == {0, 1} && s.calls[0].cancelled
    ensures NoBlindRegistration(es, path) && AtMostOneThroughout(es, path)
  {
    es, s := AllAdmitted(path, 0);
    es, s := Extend(es, s, Register(0));
    es, s := Extend(es, s, TimerFires(0));
    assert s.pending == map[path := 0] && s.calls[0].phase.Fetching? && s.calls[1].phase.Admitted?;
    es, s := Extend(es, s, Register(1));
    assert s.calls[0].cancelled && s.calls[0].phase.Fetching? && s.calls[1].phase.Waiting?;
    es, s := Extend(es, s, TimerFires(1));
    NoErasureNoBlind(es, s, path);
    AtMostOneIff(es, path);
  }

  // ----- no event is lost -----

  /** The call registered last for a path is never cancelled by the manager. Once it has
      come out of the debounce, its fetch has started, unless its own parent context
      ended first; and it registered no earlier than any other call of the path. */
  lemma CoalescingKeepsLast(es: seq<Event>, s: State, c: CallId)
    requires Exec(INITIAL, es) == Some(s)
    requires c < |s.calls| && s.calls[c].registeredAt.Some?
    ensures var path := s.calls[c].path;
            && path in s.latest && s.latest[path] < |s.calls|
            && var last := s.calls[s.latest[path]];
               && last.path == path && !last.cancelled
               && last.registeredAt.Some? && s.calls[c].registeredAt.value <= last.registeredAt.value
               && (last.Inside() || last.fetchedAt.Some? || last.parentEnded)
  {
    InvReachable(es, s);
    assert CallHistory(s, c) && LatestOf(s, c);
    assert CallHistory(s, s.latest[s.calls[c].path]);
  }

  /** The projects of the accepted events, in order. */
  function AdmittedPaths(es: seq<Event>): seq<string> {
    if es == [] then []
    else
      AdmittedPaths(es[..|es| - 1]) +
      match es[|es| - 1] { case Admit(path) => [path] case _ => [] }
  }

  lemma PathsKept(s: State, e: Event, c: CallId)
    requires EntriesOwned(s) && History(s) && Enabled(s, e) && c < |s.calls|
    ensures Next(s, e).calls[c].path == s.calls[c].path
  {
    if e.Register? {
      RegisterCalls(s, e.c, c);
    } else {
      OthersKeepCalls(s, e, c);
    }
  }

  /** The c-th call is the c-th accepted event's, and for that event's project. */
  lemma {:induction false} CallsAreAdmitted(es: seq<Event>, s: State)
    requires Exec(INITIAL, es) == Some(s)
    ensures |s.calls| == |AdmittedPaths(es)| && s.clock == |es|
    ensures forall c: CallId | c < |s.calls| :: s.calls[c].path == AdmittedPaths(es)[c]
  {
    if es != [] {
      var init, e := es[..|es| - 1], es[|es| - 1];
      var t := Exec(INITIAL, init).value;
      CallsAreAdmitted(init, t);
      InvReachable(init, t);
      forall c: CallId | c < |t.calls|
        ensures s.calls[c].path == AdmittedPaths(es)[c]
      {
        PathsKept(t, e, c);
      }
    }
  }

  /** `when` is the one place at which `e` stands in `es`, if it stands there at all. */
  ghost predicate OnlyAt(es: seq<Event>, e: Event, when: Option<nat>) {
    && (when.Some? ==> when.value < |es|)
    && (forall r: nat | r < |es| :: es[r] == e <==> when == Some(r))
  }

  lemma OnlyAtSnoc(es: seq<Event>, e: Event, when: Option<nat>, x: Event)
    requires OnlyAt(es, e, when) && (x == e ==> when.None?)
    ensures OnlyAt(es + [x], e, if x == e then Some(|es|) else when)
  {}

  function RegisteredAt(s: State, c: CallId): Option<nat> {
    if c < |s.calls| then s.calls[c].registeredAt else None
  }

  function FetchedAt(s: State, c: CallId): Option<nat> {
    if c < |s.calls| then s.calls[c].fetchedAt else None
  }

  predicate ParentEnded(s: State, c: CallId) { c < |s.calls| && s.calls[c].parentEnded }

  /** The two times and the mark in a call are the places of its events in the schedule. */
  ghost predicate Recorded(es: seq<Event>, s: State, c: CallId) {
    && OnlyAt(es, Register(c), RegisteredAt(s, c))
    && OnlyAt(es, TimerFires(c), FetchedAt(s, c))
    && (ParentEnds(c) in es <==> ParentEnded(s, c))
  }

  /** What one event does to the records of a call. */
  lemma RecordsStep(s: State, e: Event, c: CallId)
    requires Inv(s) && Enabled(s, e)
    ensures RegisteredAt(Next(s, e), c) == if e == Register(c) then Some(s.clock) else RegisteredAt(s, c)
    ensures FetchedAt(Next(s, e), c) == if e == TimerFires(c) then Some(s.clock) else FetchedAt(s, c)
    ensures ParentEnded(Next(s, e), c) <==> ParentEnded(s, c) || e == ParentEnds(c)
    ensures e == Register(c) ==> RegisteredAt(s, c).None?
    ensures e == TimerFires(c) ==> FetchedAt(s, c).None?
  {
    if c < |s.calls| {
      assert CallHistory(s, c);
      if e.Register? {
        RegisterCalls(s, e.c, c);
      } else {
        OthersKeepCalls(s, e, c);
      }
    }
  }

  lemma {:induction false} RecordedReachable(es: seq<Event>, s: State, c: CallId)
    requires Exec(INITIAL, es) == Some(s)
    ensures Recorded(es, s, c)
  {
    if es != [] {
      var init, e := es[..|es| - 1], es[|es| - 1];
      var t := Exec(INITIAL, init).value;
      RecordedReachable(init, t, c);
      InvReachable(init, t);
      CallsAreAdmitted(init, t);
      RecordsStep(t, e, c);
      OnlyAtSnoc(init, Register(c), RegisteredAt(t, c), e);
      OnlyAtSnoc(init, TimerFires(c), FetchedAt(t, c), e);
      assert es == init + [e];
    }
  }

  lemma {:induction false} AdmittedGrow(es: seq<Event>, i: nat)
    requires i <= |es|
    ensures AdmittedPaths(es[..i]) <= AdmittedPaths(es)
    decreases |es|
  {
    if i < |es| {
      var init := es[..|es| - 1];
      assert init[..i] == es[..i];
      AdmittedGrow(init, i);
    } else {
      assert es[..i] == es;
    }
  }

  lemma AdmittedBetween(es: seq<Event>, i: nat, k: nat)
    requires i <= k <= |es|
    ensures AdmittedPaths(es[..i]) <= AdmittedPaths(es[..k])
  {
    AdmittedGrow(es[..k], i);
    assert es[..k][..i] == es[..i];
  }

  /** The call an accepted event becomes, and that it registers only afterwards. */
  lemma AdmittedAt(es: seq<Event>, i: nat)
    requires Exec(INITIAL, es).Some? && i < |es| && es[i].Admit?
    ensures var c := |AdmittedPaths(es[..i])|;
            && c < |AdmittedPaths(es)| && AdmittedPaths(es)[c] == es[i].path
            && forall r | 0 <= r < |es| && es[r] == Register(c) :: i < r
  {
    var c := |AdmittedPaths(es[..i])|;
    AdmittedGrow(es, i + 1);
    assert es[..i + 1][..i] == es[..i];
    assert AdmittedPaths(es[..i + 1]) == AdmittedPaths(es[..i]) + [es[i].path];
    assert AdmittedPaths(es)[c] == AdmittedPaths(es[..i + 1])[c];
    forall r | 0 <= r < |es| && es[r] == Register(c)
      ensures i < r
    {
      ExecPrefix(INITIAL, es, r);
      CallsAreAdmitted(es[..r], Exec(INITIAL, es[..r]).value);
      AdmittedBetween(es, r, if r < i then i else r);
    }
  }

  /** The places i < r < j at which an event of `path` was accepted, its call registered,
      and a fetch of `path` began that the manager never cancelled. */
  ghost predicate Served(es: seq<Event>, s: State, i: nat, r: nat, j: nat, d: CallId, path: string) {
    && i < r < j < |es|
    && es[r] == Register(|AdmittedPaths(es[..i])|) && es[j] == TimerFires(d)
    && d < |AdmittedPaths(es)| && AdmittedPaths(es)[d] == path
    && d < |s.calls| && !s.calls[d].cancelled
  }

  /** When every call has returned, each accepted event of a project, none of whose calls
      had its parent context end during its debounce, has registered and is followed by a
      fetch of that project that began later and that the manager never cancelled. */
  lemma NoEventLost(es: seq<Event>, s: State, i: nat)
    requires Exec(INITIAL, es) == Some(s) && AllReturned(s)
    requires i < |es| && es[i].Admit?
    requires forall d: CallId | d < |AdmittedPaths(es)| && AdmittedPaths(es)[d] == es[i].path :: ParentEnds(d) !in es
    ensures exists r, j, d :: Served(es, s, i, r, j, d, es[i].path)
  {
    var c := |AdmittedPaths(es[..i])|;
    AdmittedAt(es, i);
    CallsAreAdmitted(es, s);
    InvReachable(es, s);
    RecordedReachable(es, s, c);
    assert CallHistory(s, c);
    CoalescingKeepsLast(es, s, c);
    var d := s.latest[s.calls[c].path];
    assert CallHistory(s, d);
    RecordedReachable(es, s, d);
    assert Served(es, s, i, s.calls[c].registeredAt.value, s.calls[d].fetchedAt.value, d, es[i].path);
  }

  /** What the condition is for: a parent context that ends before or during the debounce
      makes the call return without any fetch. */
  lemma ParentEndsRun(path: string, early: bool) returns (es: seq<Event>, s: State)
    requires ProjectPath.Validate(path).Accepted?
    ensures Exec(INITIAL, es) == Some(s) && AllReturned(s) && AdmittedPaths(es) == [path]
    ensures forall c :: TimerFires(c) !in es
  {
    es, s := ParentEndsWaiting(path, early);
    es, s := Extend(es, s, Abort(0));
    es, s := Extend(es, s, Cleanup(0));
    es, s := Extend(es, s, Release(0));
    CallsAreAdmitted(es, s);
    forall c
      ensures TimerFires(c) !in es
    {
      RecordedReachable(es, s, c);
    }
  }

  lemma ParentEndsWaiting(path: string, early: bool) returns (es: seq<Event>, s: State)
    requires ProjectPath.Validate(path).Accepted?
    ensures Exec(INITIAL, es) == Some(s) && s.slots == 1 && |s.calls| == 1
    ensures var call := s.calls[0];
            call.path == path && call.phase.Waiting? && call.parentEnded && call.fetchedAt.None?
  {
    es, s := Extend([], INITIAL, Admit(path));
    if early {
      es, s := Extend(es, s, ParentEnds(0));
      es, s := Extend(es, s, Register(0));
    } else {
      es, s := Extend(es, s, Register(0));
      es, s := Extend(es, s, ParentEnds(0));
    }
  }

  // ----- server and manager composed -----

  /** Occupied slots are the goroutines in flight, at most 8; every pending entry belongs
      to a call inside Trigger, so there are no more entries than slots; every call's
      path passed validation; and nothing stays behind when all calls have returned. */
  lemma SlotsAndEntries(es: seq<Event>, s: State)
    requires Exec(INITIAL, es) == Some(s)
    ensures s.slots == |InFlight(s)| <= 8
    ensures forall p | p in s.pending :: s.pending[p] < |s.calls| && s.calls[s.pending[p]].Inside()
    ensures |s.pending| <= s.slots
    ensures forall c | 0 <= c < |s.calls| :: ProjectPath.Validate(s.calls[c].path).Accepted?
    ensures AllReturned(s) ==> s.slots == 0 && s.pending == map[]
  {
    InvReachable(es, s);
    forall c: CallId | c < |s.calls|
      ensures ProjectPath.Validate(s.calls[c].path).Accepted?
    {
      assert CallHistory(s, c);
    }
    EntriesFit(s, s.pending.Keys, InFlight(s));
    assert |s.pending| == |s.pending.Keys|;
    if AllReturned(s) {
      assert InFlight(s) == {};
      assert forall p | p in s.pending :: false;
    }
  }

  /** Entries of different paths name different calls. */
  lemma {:induction false} EntriesFit(s: State, paths: set<string>, ids: set<CallId>)
    requires EntriesOwned(s) && paths <= s.pending.Keys
    requires forall p | p in paths :: s.pending[p] in ids
    ensures |paths| <= |ids|
    decreases |paths|
  {
    if paths != {} {
      var p :| p in paths;
      forall q | q in paths - {p}
        ensures s.pending[q] in ids - {s.pending[p]}
      {
        assert s.calls[s.pending[q]].path == q;
      }
      EntriesFit(s, paths - {p}, ids - {s.pending[p]});
    }
  }

  /** Every fetch the receiver can start stays below the repositories directory, and
      calls of different paths fetch into different directories. */
  lemma FetchesContained(es: seq<Event>, s: State, base: string, c: CallId, d: CallId)
    requires Exec(INITIAL, es) == Some(s)
    requires c < |s.calls| && d < |s.calls|
    ensures ProjectPath.Resolve(base).segments < ProjectPath.RepoLocation(base, s.calls[c].path).segments
    ensures s.calls[c].path != s.calls[d].path ==>
              ProjectPath.RepoLocation(base, s.calls[c].path) != ProjectPath.RepoLocation(base, s.calls[d].path)
  {
    SlotsAndEntries(es, s);
    var p, q := s.calls[c].path, s.calls[d].path;
    ProjectPath.Containment(base, p);
    var b, own := ProjectPath.Resolve(base).segments, ProjectPath.RepoSegments(p);
    assert b <= b + own && own != [];
    if p != q && ProjectPath.RepoLocation(base, p) == ProjectPath.RepoLocation(base, q) {
      ProjectPath.DistinctLocations(base, p, q);
    }
  }

  // ----- termination -----

  /** How many more events a call can take part in. */
  function Rank(call: Call): nat {
    match call.phase
    case Admitted => if call.parentEnded then 5 else 6
    case Waiting => if call.parentEnded then 4 else 5
    case Fetching => 3
    case Leaving => 2
    case Left => 1
    case Released => 0
  }

  function Work(calls: seq<Call>): nat {
    if calls == [] then 0 else Work(calls[..|calls| - 1]) + Rank(calls[|calls| - 1])
  }

  lemma {:induction false} WorkUpdate(calls: seq<Call>, c: nat, call: Call)
    requires c < |calls|
    ensures Work(calls[c := call]) == Work(calls) - Rank(calls[c]) + Rank(call)
  {
    var n := |calls| - 1;
    if c < n {
      WorkUpdate(calls[..n], c, call);
      assert calls[c := call][..n] == calls[..n][c := call];
    } else {
      assert calls[c := call][..n] == calls[..n];
    }
  }

  lemma WorkRegister(s: State, c: CallId)
    requires EntriesOwned(s) && History(s) && Enabled(s, Register(c))
    ensures Work(Next(s, Register(c)).calls) == Work(s.calls) - 1
  {
    var path := s.calls[c].path;
    var calls, after := CancelPending(s.pending, s.calls, path), Next(s, Register(c)).calls;
    if path in s.pending {
      WorkUpdate(s.calls, s.pending[path], calls[s.pending[path]]);
    }
    RegisterCalls(s, c, c);
    assert calls[c] == s.calls[c] && after == calls[c := after[c]];
    WorkUpdate(calls, c, after[c]);
  }

  lemma WorkStep(s: State, e: Event)
    requires Inv(s) && Enabled(s, e)
    ensures !e.Admit? ==> Work(Next(s, e).calls) < Work(s.calls) && |Next(s, e).calls| == |s.calls|
    ensures e.Admit? ==> Work(Next(s, e).calls) == Work(s.calls) + 6 && |Next(s, e).calls| == |s.calls| + 1
  {
    match e
    case Admit(path) =>
      assert Next(s, e).calls[..|s.calls|] == s.calls;
    case Register(c) =>
      WorkRegister(s, c);
    case _ =>
      WorkUpdate(s.calls, e.c, Next(s, e).calls[e.c]);
  }

  /** A run of n admissions has at most 7 n events: the receiver never runs on by itself. */
  lemma {:induction false} RunsAreBounded(es: seq<Event>, s: State)
    requires Exec(INITIAL, es) == Some(s)
    ensures |es| + Work(s.calls) <= 7 * |s.calls|
  {
    if es != [] {
      var init := es[..|es| - 1];
      var t := Exec(INITIAL, init).value;
      RunsAreBounded(init, t);
      InvReachable(init, t);
      WorkStep(t, es[|es| - 1]);
    }
  }

  lemma {:induction false} ExecCons(s: State, e: Event, es: seq<Event>)
    requires Enabled(s, e)
    ensures Exec(s, [e] + es) == Exec(Next(s, e), es)
  {
    if es == [] {
      Snoc(s, [], s, e);
      assert [e] + es == [] + [e];
    } else {
      var init, last := es[..|es| - 1], es[|es| - 1];
      ExecCons(s, e, init);
      ExecStep(s, [e] + init, last);
      ExecStep(Next(s, e), init, last);
      assert [e] + es == [e] + init + [last] && es == init + [last];
    }
  }

  lemma ExecStep(s: State, es: seq<Event>, e: Event)
    ensures Exec(s, es + [e]) ==
            match Exec(s, es)
            case None => None
            case Some(t) => if Enabled(t, e) then Some(Next(t, e)) else None
  {
    assert (es + [e])[..|es|] == es;
  }

  /** No deadlock: from every reachable state the calls in flight can all return. */
  lemma {:induction false} Drains(s: State) returns (es: seq<Event>, t: State)
    requires Inv(s)
    ensures Exec(s, es) == Some(t) && AllReturned(t) && forall e | e in es :: !e.Admit?
    decreases Work(s.calls)
  {
    if AllReturned(s) {
      return [], s;
    }
    var c: CallId :| c < |s.calls| && !s.calls[c].phase.Released?;
    var e := match s.calls[c].phase
      case Admitted => Register(c)
      case Waiting => TimerFires(c)
      case Fetching => FetchReturns(c)
      case Leaving => Cleanup(c)
      case _ => Release(c);
    assert c in InFlight(s);
    InvStep(s, e);
    WorkStep(s, e);
    var rest;
    rest, t := Drains(Next(s, e));
    ExecCons(s, e, rest);
    es := [e] + rest;
  }
}
