/** The bounded-parallel sweep of internal/reconciler/gitfetch/reconciler.go: a launching
    loop, at most `parallel` workers, two counters, and a context that may be cancelled
    at any moment. A schedule is a sequence of events. */
module GitFetch {
  import opened Text

  /** What one sweep works on; `rows` are the repository paths, "" where none is known. */
  datatype Plan = Plan(rows: seq<string>, parallel: nat, dryRun: bool)

  /** The worker limit: at least one, at most one per project. */
  function Clamp(maxParallel: int, n: nat): nat {
    var parallel := if maxParallel < 1 then 1 else maxParallel;
    if parallel > n then n else parallel
  }

  predicate ValidPlan(plan: Plan) { plan.rows != [] && 1 <= plan.parallel <= |plan.rows| }

  /** fetchOne: no path, no fetch; under dry-run no fetch either, but a success. */
  predicate FetchOne(plan: Plan, row: string, gitSucceeds: bool) {
    row != "" && (plan.dryRun || gitSucceeds)
  }

  /** AtHead    about to ask for the next project and test the context;
      Launching has a project, waits in g.Go for a free worker;
      Joining   in g.Wait;
      Returned  past it. */
  datatype Loop = AtHead | Launching | Joining | Returned

  /** `outcomes` is history: for each finished project whether its fetch succeeded. */
  datatype State = State(
    loop: Loop,
    launched: nat,
    active: set<nat>,
    repaired: nat,
    failed: nat,
    cancelled: bool,
    outcomes: map<nat, bool>)

  const INITIAL: State := State(AtHead, 0, {}, 0, 0, false, map[])

  datatype Event = Head | Spawn | Finish(project: nat, gitSucceeds: bool) | Cancel | Join

  predicate Enabled(plan: Plan, s: State, e: Event) {
    match e
    case Head => s.loop.AtHead?
    case Spawn => s.loop.Launching? && |s.active| < plan.parallel
    case Finish(i, _) => i in s.active && i < |plan.rows|
    case Cancel => !s.cancelled
    case Join => s.loop.Joining? && s.active == {}
  }

  function Next(plan: Plan, s: State, e: Event): State
    requires Enabled(plan, s, e)
  {
    match e
    case Head =>
      if s.launched >= |plan.rows| || s.cancelled then s.(loop := Joining) else s.(loop := Launching)
    case Spawn => s.(loop := AtHead, launched := s.launched + 1, active := s.active + {s.launched})
    case Finish(i, gitSucceeds) =>
      var ok := FetchOne(plan, plan.rows[i], gitSucceeds);
      s.(active := s.active - {i},
         repaired := s.repaired + (if ok then 1 else 0),
         failed := s.failed + (if ok then 0 else 1),
         outcomes := s.outcomes[i := ok])
    case Cancel => s.(cancelled := true)
    case Join => s.(loop := Returned)
  }

  function Exec(plan: Plan, es: seq<Event>): Option<State> {
    if es == [] then Some(INITIAL)
    else
      match Exec(plan, es[..|es| - 1])
      case None => None
      case Some(s) =>
        if Enabled(plan, s, es[|es| - 1]) then Some(Next(plan, s, es[|es| - 1])) else None
  }

  function Having(outcomes: map<nat, bool>, ok: bool): set<nat> { set i | i in outcomes && outcomes[i] == ok }

  function Succeeded(s: State): set<nat> { Having(s.outcomes, true) }
  function NotSucceeded(s: State): set<nat> { Having(s.outcomes, false) }

  /** The counters count the outcomes; launched projects are a prefix, each either active
      or finished; and the loop stops early only on cancellation. */
  ghost predicate Inv(plan: Plan, s: State) {
    && s.launched <= |plan.rows|
    && |s.active| <= plan.parallel
    && (forall i :: i in s.active || i in s.outcomes <==> 0 <= i < s.launched)
    && s.active !! s.outcomes.Keys
    && s.repaired == |Succeeded(s)| && s.failed == |NotSucceeded(s)|
    && s.repaired + s.failed + |s.active| == s.launched
    && (s.loop.Launching? ==> s.launched < |plan.rows|)
    && (s.loop.Joining? || s.loop.Returned? ==> s.launched == |plan.rows| || s.cancelled)
    && (s.loop.Returned? ==> s.active == {})
    && (forall i | i in s.outcomes && i < |plan.rows| && plan.rows[i] == "" :: !s.outcomes[i])
    && (plan.dryRun ==> forall i | i in s.outcomes && i < |plan.rows| && plan.rows[i] != "" :: s.outcomes[i])
  }

  lemma InvSpawn(plan: Plan, s: State)
    requires Inv(plan, s) && Enabled(plan, s, Spawn)
    ensures Inv(plan, Next(plan, s, Spawn))
  {
    var t := Next(plan, s, Spawn);
    assert s.launched !in s.active && s.launched !in s.outcomes;
    assert Succeeded(t) == Succeeded(s) && NotSucceeded(t) == NotSucceeded(s);
  }

  lemma FinishCounts(plan: Plan, s: State, i: nat, gitSucceeds: bool)
    requires Inv(plan, s) && Enabled(plan, s, Finish(i, gitSucceeds))
    ensures var t := Next(plan, s, Finish(i, gitSucceeds));
            && t.repaired == |Succeeded(t)| && t.failed == |NotSucceeded(t)|
            && |t.active| == |s.active| - 1
  {
    assert i !in s.outcomes;
    HavingUpdate(s.outcomes, i, FetchOne(plan, plan.rows[i], gitSucceeds));
  }

  lemma HavingUpdate(outcomes: map<nat, bool>, i: nat, ok: bool)
    requires i !in outcomes
    ensures |Having(outcomes[i := ok], ok)| == |Having(outcomes, ok)| + 1
    ensures Having(outcomes[i := ok], !ok) == Having(outcomes, !ok)
  {
    assert Having(outcomes[i := ok], ok) == Having(outcomes, ok) + {i};
  }

  lemma InvStep(plan: Plan, s: State, e: Event)
    requires Inv(plan, s) && Enabled(plan, s, e)
    ensures Inv(plan, Next(plan, s, e))
  {
    match e
    case Spawn => InvSpawn(plan, s);
    case Finish(i, gitSucceeds) => FinishCounts(plan, s, i, gitSucceeds);
    case _ =>
      var t := Next(plan, s, e);
      assert Succeeded(t) == Succeeded(s) && NotSucceeded(t) == NotSucceeded(s);
  }

  lemma {:induction false} InvReachable(plan: Plan, es: seq<Event>, s: State)
    requires Exec(plan, es) == Some(s)
    ensures Inv(plan, s)
  {
    if es == [] {
      assert Succeeded(s) == {} && NotSucceeded(s) == {};
    } else {
      var t := Exec(plan, es[..|es| - 1]).value;
      InvReachable(plan, es[..|es| - 1], t);
      InvStep(plan, t, es[|es| - 1]);
    }
  }

  /** In every schedule, at every step: the worker limit holds, the launched projects are
      a prefix of which every member is being fetched or has been fetched once, and
      repaired + failed + active = launched, each counter counting its own outcomes. */
  lemma EveryStepBalances(maxParallel: int, rows: seq<string>, dryRun: bool, es: seq<Event>, s: State)
    requires rows != [] && Exec(Plan(rows, Clamp(maxParallel, |rows|), dryRun), es) == Some(s)
    ensures |s.active| <= |rows| && (maxParallel < 1 ==> |s.active| <= 1)
    ensures maxParallel >= 1 ==> |s.active| <= maxParallel
    ensures s.launched <= |rows| && s.repaired + s.failed + |s.active| == s.launched
    ensures forall i :: i in s.active || i in s.outcomes <==> 0 <= i < s.launched
    ensures s.active !! s.outcomes.Keys
    ensures s.repaired == |Succeeded(s)| && s.failed == |NotSucceeded(s)|
  {
    InvReachable(Plan(rows, Clamp(maxParallel, |rows|), dryRun), es, s);
  }

  /** Reconcile's verdict. */
  datatype Result = Result(ok: bool, repaired: nat, remaining: nat)

  function Verdict(s: State): Result { Result(s.failed == 0, s.repaired, s.failed) }

  function Skipped(plan: Plan, s: State): int { |plan.rows| - s.launched }

  function Spawns(es: seq<Event>): nat {
    if es == [] then 0 else Spawns(es[..|es| - 1]) + (if es[|es| - 1].Spawn? then 1 else 0)
  }

  /** The k-th event of the schedule is a loop head that finds the context cancelled while
      there is still a project to launch. */
  predicate CutShort(plan: Plan, es: seq<Event>, k: nat) {
    k < |es| && es[k].Head? && Cancel in es[..k] && Spawns(es[..k]) < |plan.rows|
  }

  lemma {:induction false} LaunchedIsSpawns(plan: Plan, es: seq<Event>, s: State)
    requires Exec(plan, es) == Some(s)
    ensures s.launched == Spawns(es)
  {
    if es != [] {
      LaunchedIsSpawns(plan, es[..|es| - 1], Exec(plan, es[..|es| - 1]).value);
    }
  }

  ghost predicate WasCutShort(plan: Plan, es: seq<Event>) { exists k: nat :: CutShort(plan, es, k) }

  lemma CutShortSnoc(plan: Plan, es: seq<Event>, e: Event)
    ensures WasCutShort(plan, es + [e])
       <==> WasCutShort(plan, es) || (e.Head? && Cancel in es && Spawns(es) < |plan.rows|)
  {
    assert (es + [e])[..|es|] == es;
    assert CutShort(plan, es + [e], |es|) <==> e.Head? && Cancel in es && Spawns(es) < |plan.rows|;
    forall k: nat | k < |es|
      ensures CutShort(plan, es + [e], k) <==> CutShort(plan, es, k)
    {
      assert (es + [e])[..k] == es[..k];
    }
  }

  predicate EndedEarly(plan: Plan, s: State) {
    (s.loop.Joining? || s.loop.Returned?) && s.launched < |plan.rows|
  }

  lemma EndsEarly(plan: Plan, s: State, e: Event)
    requires Inv(plan, s) && Enabled(plan, s, e)
    ensures EndedEarly(plan, Next(plan, s, e))
       <==> EndedEarly(plan, s) || (e.Head? && s.cancelled && s.launched < |plan.rows|)
  {}

  /** The loop has ended with projects left exactly when some loop head cut it short. */
  lemma {:induction false} CutShortIff(plan: Plan, es: seq<Event>, s: State)
    requires Exec(plan, es) == Some(s)
    ensures EndedEarly(plan, s) <==> WasCutShort(plan, es)
  {
    if es != [] {
      var init, e := es[..|es| - 1], es[|es| - 1];
      var t := Exec(plan, init).value;
      CutShortIff(plan, init, t);
      InvReachable(plan, init, t);
      EndsEarly(plan, t, e);
      CancelledOnlyByCancel(plan, init, t);
      LaunchedIsSpawns(plan, init, t);
      CutShortSnoc(plan, init, e);
      assert es == init + [e];
    }
  }

  /** The final account: every project is repaired, failed or skipped; some are skipped
      exactly when a loop head found the context cancelled before the last launch; and an
      OK verdict means that every project was fetched exactly when none did. */
  lemma FinalAccount(plan: Plan, es: seq<Event>, s: State)
    requires ValidPlan(plan) && Exec(plan, es) == Some(s) && s.loop.Returned?
    ensures s.repaired + s.failed + Skipped(plan, s) == |plan.rows|
    ensures Skipped(plan, s) >= 0 && (Skipped(plan, s) > 0 <==> WasCutShort(plan, es))
    ensures Verdict(s).ok <==> forall i | 0 <= i < s.launched :: i in s.outcomes && s.outcomes[i]
    ensures Verdict(s).ok ==>
              ((forall i | 0 <= i < |plan.rows| :: i in s.outcomes && s.outcomes[i])
               <==> !WasCutShort(plan, es))
    ensures plan.dryRun && !WasCutShort(plan, es) ==>
              (Verdict(s).ok <==> forall i | 0 <= i < |plan.rows| :: plan.rows[i] != "")
  {
    InvReachable(plan, es, s);
    CutShortIff(plan, es, s);
    VerdictMeans(plan, s);
    if s.launched < |plan.rows| {
      assert s.launched !in s.outcomes;
    }
  }

  lemma VerdictMeans(plan: Plan, s: State)
    requires Inv(plan, s) && s.loop.Returned?
    ensures Verdict(s).ok <==> forall i | 0 <= i < s.launched :: i in s.outcomes && s.outcomes[i]
  {
    if NotSucceeded(s) == {} {
      forall i | 0 <= i < s.launched
        ensures i in s.outcomes && s.outcomes[i]
      {
        assert i in s.active || i in s.outcomes;
        assert i !in NotSucceeded(s);
      }
    } else {
      var i :| i in NotSucceeded(s);
      assert i in s.outcomes && !s.outcomes[i];
    }
  }

  lemma {:induction false} CancelledOnlyByCancel(plan: Plan, es: seq<Event>, s: State)
    requires Exec(plan, es) == Some(s)
    ensures s.cancelled <==> Cancel in es
  {
    if es != [] {
      CancelledOnlyByCancel(plan, es[..|es| - 1], Exec(plan, es[..|es| - 1]).value);
      assert forall e :: e in es <==> e in es[..|es| - 1] || e == es[|es| - 1];
    }
  }

  /** Every finished project's outcome is what git answered for it, where it was asked. */
  ghost predicate OutcomesAnswer(plan: Plan, es: seq<Event>, s: State) {
    && (forall i: nat, g :: Finish(i, g) in es ==>
          i < |plan.rows| && i in s.outcomes && (s.outcomes[i] <==> plan.rows[i] != "" && (plan.dryRun || g)))
    && (forall i: nat :: i in s.outcomes ==> Finish(i, true) in es || Finish(i, false) in es)
  }

  lemma OutcomesStep(plan: Plan, es: seq<Event>, s: State, e: Event)
    requires Inv(plan, s) && Enabled(plan, s, e) && OutcomesAnswer(plan, es, s)
    ensures OutcomesAnswer(plan, es + [e], Next(plan, s, e))
  {
    var t, after := Next(plan, s, e), es + [e];
    forall i: nat, g | Finish(i, g) in after
      ensures i < |plan.rows| && i in t.outcomes && (t.outcomes[i] <==> plan.rows[i] != "" && (plan.dryRun || g))
    {
      if e.Finish? && e.project == i {
        assert i !in s.outcomes;
        assert Finish(i, g) !in es;
      }
    }
    forall i: nat | i in t.outcomes
      ensures Finish(i, true) in after || Finish(i, false) in after
    {
      if e.Finish? && e.project == i {
        assert e in after && e == Finish(i, e.gitSucceeds);
      }
    }
  }

  lemma {:induction false} OutcomesAreAnswers(plan: Plan, es: seq<Event>, s: State)
    requires Exec(plan, es) == Some(s)
    ensures OutcomesAnswer(plan, es, s)
  {
    if es != [] {
      var init, e := es[..|es| - 1], es[|es| - 1];
      var t := Exec(plan, init).value;
      OutcomesAreAnswers(plan, init, t);
      InvReachable(plan, init, t);
      OutcomesStep(plan, init, t, e);
      assert es == init + [e];
    }
  }

  /** The project was launched, its row has a path, and the fetch counts as a success. */
  predicate Fetched(plan: Plan, es: seq<Event>, i: nat)
    requires i < |plan.rows|
  {
    plan.rows[i] != "" && (Finish(i, true) in es || (plan.dryRun && Finish(i, false) in es))
  }

  function FetchedProjects(plan: Plan, es: seq<Event>): set<nat> {
    set i: nat | i < |plan.rows| && Fetched(plan, es, i)
  }

  /** The verdict in terms of the schedule: repaired counts the projects that were fetched,
      remaining the launched ones that were not, and OK means there are none; which, when
      git is asked, means that every launched row has a path and git never said no. */
  lemma VerdictIsAnswers(plan: Plan, es: seq<Event>, s: State)
    requires Exec(plan, es) == Some(s) && s.loop.Returned?
    ensures Verdict(s).repaired == |FetchedProjects(plan, es)|
    ensures Verdict(s).repaired + Verdict(s).remaining == Spawns(es)
    ensures Verdict(s).ok <==> Verdict(s).remaining == 0
    ensures !plan.dryRun ==>
              (Verdict(s).ok <==> && (forall i: nat | i < Spawns(es) :: i < |plan.rows| && plan.rows[i] != "")
                                  && (forall i: nat, g :: Finish(i, g) in es ==> g))
  {
    InvReachable(plan, es, s);
    LaunchedIsSpawns(plan, es, s);
    OutcomesAreAnswers(plan, es, s);
    SucceededAreFetched(plan, es, s);
    VerdictMeans(plan, s);
    if !plan.dryRun {
      NoFailureIff(plan, es, s);
    }
  }

  lemma SucceededAreFetched(plan: Plan, es: seq<Event>, s: State)
    requires Inv(plan, s) && OutcomesAnswer(plan, es, s)
    ensures Succeeded(s) == FetchedProjects(plan, es)
  {
    forall i: nat
      ensures i in Succeeded(s) <==> i in FetchedProjects(plan, es)
    {
      if i in s.outcomes {
        assert Finish(i, true) in es || Finish(i, false) in es;
      }
    }
  }

  lemma NoFailureIff(plan: Plan, es: seq<Event>, s: State)
    requires Inv(plan, s) && s.loop.Returned? && OutcomesAnswer(plan, es, s) && !plan.dryRun
    ensures (forall i: nat | i < s.launched :: i in s.outcomes && s.outcomes[i])
       <==> (forall i: nat | i < s.launched :: i < |plan.rows| && plan.rows[i] != "") && (forall i: nat, g :: Finish(i, g) in es ==> g)
  {
    if forall i: nat | i < s.launched :: i in s.outcomes && s.outcomes[i] {
      forall i: nat | i < s.launched
        ensures i < |plan.rows| && plan.rows[i] != ""
      {
        assert Finish(i, true) in es || Finish(i, false) in es;
      }
      forall i: nat, g | Finish(i, g) in es
        ensures g
      {
        assert i in s.outcomes;
      }
    }
    if (forall i: nat | i < s.launched :: i < |plan.rows| && plan.rows[i] != "") && (forall i: nat, g :: Finish(i, g) in es ==> g) {
      forall i: nat | i < s.launched
        ensures i in s.outcomes && s.outcomes[i]
      {
        assert i in s.active || i in s.outcomes;
        assert Finish(i, true) in es || Finish(i, false) in es;
      }
    }
  }

  /** A sweep cancelled before its first project reports OK although it fetched nothing. */
  lemma CancelledSweepReportsOK(plan: Plan)
    requires ValidPlan(plan)
    ensures var s := Exec(plan, [Cancel, Head, Join]);
            s.Some? && s.value.loop.Returned? && Verdict(s.value) == Result(true, 0, 0)
            && Skipped(plan, s.value) == |plan.rows|
  {
    assert [Cancel, Head, Join][..2] == [Cancel, Head];
    assert [Cancel, Head][..1] == [Cancel];
    assert [Cancel][..0] == [];
    assert Exec(plan, [Cancel]) == Some(INITIAL.(cancelled := true));
    assert Exec(plan, [Cancel, Head]) == Some(INITIAL.(cancelled := true, loop := Joining));
  }

  /** What is left of a sweep, in events. */
  function Work(plan: Plan, s: State): int {
    3 * (|plan.rows| - s.launched) + |s.active| + (if s.cancelled then 0 else 1) +
    match s.loop { case AtHead => 2 case Launching => 1 case Joining => 1 case Returned => 0 }
  }

  lemma WorkStep(plan: Plan, s: State, e: Event)
    requires Inv(plan, s) && Enabled(plan, s, e)
    ensures Work(plan, Next(plan, s, e)) == Work(plan, s) - 1
  {
    if e.Spawn? {
      assert s.launched !in s.active;
    }
  }

  /** Every event uses up exactly one unit of work, so every schedule of n projects ends
      after at most 3 n + 3 events. */
  lemma {:induction false} SweepsAreBounded(plan: Plan, es: seq<Event>, s: State)
    requires Exec(plan, es) == Some(s)
    ensures |es| + Work(plan, s) == 3 * |plan.rows| + 3 && Work(plan, s) >= 0
  {
    InvReachable(plan, es, s);
    if es != [] {
      var t := Exec(plan, es[..|es| - 1]).value;
      SweepsAreBounded(plan, es[..|es| - 1], t);
      InvReachable(plan, es[..|es| - 1], t);
      WorkStep(plan, t, es[|es| - 1]);
    }
  }

  /** The limit is reached: as many workers as it allows can be at work at once. */
  lemma {:induction false} LimitReached(plan: Plan, k: nat) returns (es: seq<Event>, s: State)
    requires ValidPlan(plan) && k <= plan.parallel
    ensures Exec(plan, es) == Some(s) && |s.active| == s.launched == k && s.loop.AtHead? && !s.cancelled
  {
    if k == 0 {
      return [], INITIAL;
    }
    es, s := LimitReached(plan, k - 1);
    InvReachable(plan, es, s);
    Snoc(plan, es, s, Head);
    es, s := es + [Head], Next(plan, s, Head);
    InvReachable(plan, es, s);
    Snoc(plan, es, s, Spawn);
    es, s := es + [Spawn], Next(plan, s, Spawn);
    InvReachable(plan, es, s);
  }

  lemma Snoc(plan: Plan, es: seq<Event>, s: State, e: Event)
    requires Exec(plan, es) == Some(s) && Enabled(plan, s, e)
    ensures Exec(plan, es + [e]) == Some(Next(plan, s, e))
  {
    assert (es + [e])[..|es|] == es;
  }

  /** No deadlock: until it has returned a sweep can go on without being cancelled. */
  lemma AlwaysProgress(plan: Plan, es: seq<Event>, s: State)
    requires ValidPlan(plan) && Exec(plan, es) == Some(s) && !s.loop.Returned?
    ensures exists e :: Enabled(plan, s, e) && !e.Cancel?
  {
    InvReachable(plan, es, s);
    if s.active != {} {
      var i :| i in s.active;
      assert Enabled(plan, s, Finish(i, true));
    } else if s.loop.AtHead? {
      assert Enabled(plan, s, Head);
    } else if s.loop.Launching? {
      assert Enabled(plan, s, Spawn);
    } else {
      assert Enabled(plan, s, Join);
    }
  }

  // ----- the sweep object -----

  /** The variables of Reconcile and its workers; each method is one atomic section. */
  class Sweep {
    const plan: Plan
    var loop: Loop
    var launched: nat
    var active: set<nat>
    var repaired: nat
    var failed: nat
    var cancelled: bool
    ghost var outcomes: map<nat, bool>

    ghost function View(): State
      reads this
    {
      State(loop, launched, active, repaired, failed, cancelled, outcomes)
    }

    ghost predicate Valid()
      reads this
    {
      ValidPlan(plan) && Inv(plan, View())
    }

    constructor (rows: seq<string>, maxParallel: int, dryRun: bool)
      requires rows != []
      ensures Valid() && plan == Plan(rows, Clamp(maxParallel, |rows|), dryRun) && View() == INITIAL
    {
      plan := Plan(rows, Clamp(maxParallel, |rows|), dryRun);
      loop, launched, active, repaired, failed, cancelled, outcomes := AtHead, 0, {}, 0, 0, false, map[];
      new;
      InvReachable(plan, [], INITIAL);
    }

    /** The loop header and the context test. */
    method LoopHead()
      requires Valid() && loop.AtHead?
      modifies this
      ensures Valid() && View() == Next(plan, old(View()), Head)
    {
      InvStep(plan, View(), Head);
      if launched >= |plan.rows| {
        loop := Joining;
        return;
      }
      if cancelled {
        loop := Joining;
        return;
      }
      loop := Launching;
    }

    /** g.Go hands the project to a worker. */
    method Go()
      requires Valid() && Enabled(plan, View(), Spawn)
      modifies this
      ensures Valid() && View() == Next(plan, old(View()), Spawn)
    {
      InvStep(plan, View(), Spawn);
      active := active + {launched};
      launched := launched + 1;
      loop := AtHead;
    }

    /** A worker's fetch ends and bumps one of the counters. */
    method WorkerDone(i: nat, gitSucceeds: bool)
      requires Valid() && Enabled(plan, View(), Finish(i, gitSucceeds))
      modifies this
      ensures Valid() && View() == Next(plan, old(View()), Finish(i, gitSucceeds))
      ensures var success := plan.rows[i] != "" && (plan.dryRun || gitSucceeds);
              && repaired == old(repaired) + (if success then 1 else 0)
              && failed == old(failed) + (if success then 0 else 1)
    {
      InvStep(plan, View(), Finish(i, gitSucceeds));
      var ok := FetchOne(plan, plan.rows[i], gitSucceeds);
      if ok {
        repaired := repaired + 1;
      } else {
        failed := failed + 1;
      }
      active := active - {i};
      outcomes := outcomes[i := ok];
    }

    method ContextCancelled()
      requires Valid() && !cancelled
      modifies this
      ensures Valid() && View() == Next(plan, old(View()), Cancel)
    {
      InvStep(plan, View(), Cancel);
      cancelled := true;
    }

    /** g.Wait returns and the counters are read. */
    method Wait() returns (result: Result)
      requires Valid() && Enabled(plan, View(), Join)
      modifies this
      ensures Valid() && View() == Next(plan, old(View()), Join) && result == Verdict(View())
    {
      InvStep(plan, View(), Join);
      loop := Returned;
      if failed > 0 {
        return Result(false, repaired, failed);
      }
      return Result(true, repaired, 0);
    }
  }

  /** The head of Reconcile: a failed listing and an empty one need no sweep. */
  method Start(listing: Option<seq<string>>, maxParallel: int, dryRun: bool) returns (early: Option<Result>, sweep: Sweep?)
    ensures listing.None? ==> early == Some(Result(false, 0, 1)) && sweep == null
    ensures listing == Some([]) ==> early == Some(Result(true, 0, 0)) && sweep == null
    ensures listing.Some? && listing.value != [] ==>
              early.None? && sweep != null && fresh(sweep) && sweep.Valid() && sweep.View() == INITIAL
              && sweep.plan.rows == listing.value && sweep.plan.dryRun == dryRun
              && sweep.plan.parallel == (if maxParallel < 1 then 1
                                         else if maxParallel > |listing.value| then |listing.value|
                                         else maxParallel)
  {
    if listing.None? {
      return Some(Result(false, 0, 1)), null;
    }
    if listing.value == [] {
      return Some(Result(true, 0, 0)), null;
    }
    early := None;
    sweep := new Sweep(listing.value, maxParallel, dryRun);
  }
}
