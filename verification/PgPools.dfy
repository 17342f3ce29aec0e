/** The PostgreSQL reconciler's pools and verdict
    (internal/reconciler/postgres/reconciler.go). */
module PgPools {
  import opened Text

  class Pool {
    var closes: nat

    constructor ()
      ensures closes == 0
    {
      closes := 0;
    }

    method Close()
      modifies this
      ensures closes == old(closes) + 1
    {
      closes := closes + 1;
    }
  }

  predicate Distinct(pools: seq<Pool>) {
    forall i, j | 0 <= i < j < |pools| :: pools[i] != pools[j]
  }

  /** The pool factory: `connects(i)` says whether its i-th connection comes about.
      `handedOut` is every pool it ever handed out. */
  class Factory {
    const connects: nat -> bool
    var asked: nat
    ghost var handedOut: seq<Pool>

    ghost predicate Valid()
      reads this
    {
      Distinct(handedOut) && |handedOut| <= asked
    }

    constructor (connects: nat -> bool)
      ensures Valid() && asked == 0 && handedOut == [] && this.connects == connects
    {
      this.connects, asked, handedOut := connects, 0, [];
    }

    method Connect() returns (pool: Pool?)
      requires Valid()
      modifies this
      ensures Valid() && asked == old(asked) + 1
      ensures pool == null <==> !connects(old(asked))
      ensures pool == null ==> handedOut == old(handedOut)
      ensures pool != null ==> fresh(pool) && pool.closes == 0 && handedOut == old(handedOut) + [pool]
    {
      var i := asked;
      asked := asked + 1;
      if !connects(i) {
        return null;
      }
      var p := new Pool();
      handedOut := handedOut + [p];
      pool := p;
    }
  }

  /** Closes each of some distinct pools once. */
  method CloseAll(pools: seq<Pool>)
    requires Distinct(pools)
    modifies pools
    ensures forall i | 0 <= i < |pools| :: pools[i].closes == old(pools[i].closes) + 1
  {
    for i := 0 to |pools|
      invariant forall j | 0 <= j < i :: pools[j].closes == old(pools[j].closes) + 1
      invariant forall j | i <= j < |pools| :: pools[j].closes == old(pools[j].closes)
    {
      pools[i].Close();
    }
  }

  /** Closes the primary's pool and then the secondaries', each once. */
  method CloseEach(primary: Pool, secondaries: seq<Pool>)
    requires Distinct([primary] + secondaries)
    modifies [primary] + secondaries
    ensures forall p | p in [primary] + secondaries :: p.closes == old(p.closes) + 1
  {
    ghost var all := [primary] + secondaries;
    assert all[0] == primary && forall i | 0 <= i < |secondaries| :: secondaries[i] == all[i + 1];
    primary.Close();
    CloseAll(secondaries);
    assert forall i | 0 <= i < |all| :: all[i].closes == old(all[i].closes) + 1;
  }

  class Reconciler {
    const primary: Pool
    var secondaries: seq<Pool>

    ghost predicate Valid()
      reads this
    {
      Distinct([primary] + secondaries)
    }

    constructor (primary: Pool)
      ensures Valid() && this.primary == primary && secondaries == []
    {
      this.primary := primary;
      secondaries := [];
    }

    /** Releases every pool, each exactly once. */
    method Close()
      requires Valid()
      modifies [primary] + secondaries
      ensures forall p | p in [primary] + secondaries :: p.closes == old(p.closes) + 1
    {
      CloseEach(primary, secondaries);
    }
  }

  /** Connects to the primary and to n secondaries, or to none: if any connection fails,
      every pool opened before it has been closed exactly once; if none does, all are open
      and owned by the reconciler, in order. */
  method NewWithFactory(factory: Factory, n: nat) returns (r: Reconciler?)
    requires factory.Valid() && factory.asked == 0 && factory.handedOut == []
    modifies factory
    ensures factory.Valid() && fresh(factory.handedOut)
    ensures r != null <==> forall i | 0 <= i <= n :: factory.connects(i)
    ensures r == null ==> |factory.handedOut| <= n && !factory.connects(|factory.handedOut|)
                          && forall i | 0 <= i < |factory.handedOut| :: factory.connects(i)
    ensures r == null ==> forall p | p in factory.handedOut :: p.closes == 1
    ensures r != null ==> fresh(r) && r.Valid() && factory.handedOut == [r.primary] + r.secondaries
                          && |r.secondaries| == n && forall p | p in factory.handedOut :: p.closes == 0
  {
    var primary := factory.Connect();
    if primary == null {
      return null;
    }
    r := new Reconciler(primary);
    for i := 0 to n
      invariant factory.Valid() && factory.asked == i + 1 && fresh(factory.handedOut)
      invariant r != null && fresh(r) && r.Valid() && r.primary == primary && |r.secondaries| == i
      invariant factory.handedOut == [r.primary] + r.secondaries
      invariant forall p | p in factory.handedOut :: p.closes == 0
      invariant forall j | 0 <= j <= i :: factory.connects(j)
    {
      var pool := factory.Connect();
      if pool == null {
        CloseEach(primary, r.secondaries);
        return null;
      }
      r.secondaries := r.secondaries + [pool];
      assert factory.handedOut == [r.primary] + r.secondaries;
    }
  }

  // ----- the verdict -----

  /** One secondary as the two queries see it. `inRecovery` and `lag` are None when their
      query fails; the lag is in nanoseconds and may be negative. */
  datatype Observation = Observation(inRecovery: Option<bool>, lag: Option<int>)

  /** checkSecondary: None stands for an error. */
  function CheckSecondary(o: Observation): Option<int> {
    if o.inRecovery != Some(true) then None else o.lag
  }

  /** A secondary is healthy, with a lag, exactly if it is in recovery and its lag is known. */
  lemma CheckSecondaryIs(o: Observation)
    ensures forall lag :: CheckSecondary(o) == Some(lag) <==> o == Observation(Some(true), Some(lag))
  {}

  predicate Broken(o: Observation) { CheckSecondary(o).None? }

  datatype Result = Result(ok: bool, lag: int, remaining: nat)

  /** The secondaries in error among the first n. */
  function BrokenAmong(obs: seq<Observation>, n: nat): set<nat>
    requires n <= |obs|
  {
    set i: nat | i < n && Broken(obs[i])
  }

  /** Reconcile: remaining counts the secondaries in error, OK means there is none, and
      the lag is the largest over the healthy ones, or zero if none is positive. */
  method Reconcile(obs: seq<Observation>) returns (result: Result)
    ensures result.remaining == |set i: nat | i < |obs| && !(obs[i].inRecovery == Some(true) && obs[i].lag.Some?)|
    ensures result.ok <==> forall i | 0 <= i < |obs| :: obs[i].inRecovery == Some(true) && obs[i].lag.Some?
    ensures result.ok <==> result.remaining == 0
    ensures result.lag >= 0
    ensures forall i | 0 <= i < |obs| && obs[i].inRecovery == Some(true) && obs[i].lag.Some? ::
              obs[i].lag.value <= result.lag
    ensures result.lag == 0 || exists i :: 0 <= i < |obs| && obs[i] == Observation(Some(true), Some(result.lag))
  {
    result := Result(false, 0, 0);
    var ok := true;
    assert BrokenAmong(obs, 0) == {};
    for i := 0 to |obs|
      invariant result.remaining == |BrokenAmong(obs, i)|
      invariant ok <==> forall j | 0 <= j < i :: !Broken(obs[j])
      invariant ok <==> result.remaining == 0
      invariant result.lag >= 0
      invariant forall j | 0 <= j < i && !Broken(obs[j]) :: CheckSecondary(obs[j]).value <= result.lag
      invariant result.lag == 0 || exists j :: 0 <= j < i && CheckSecondary(obs[j]) == Some(result.lag)
    {
      var lag := CheckSecondary(obs[i]);
      assert BrokenAmong(obs, i + 1) == BrokenAmong(obs, i) + (if Broken(obs[i]) then {i} else {});
      if lag.None? {
        ok := false;
        result := result.(remaining := result.remaining + 1);
        continue;
      }
      if lag.value > 0 {
        result := result.(lag := if result.lag > lag.value then result.lag else lag.value);
        assert result.lag == lag.value ==> CheckSecondary(obs[i]) == Some(result.lag);
      }
    }
    forall j | 0 <= j < |obs|
      ensures Broken(obs[j]) <==> !(obs[j].inRecovery == Some(true) && obs[j].lag.Some?)
    {
      CheckSecondaryIs(obs[j]);
    }
    assert BrokenAmong(obs, |obs|) == set i: nat | i < |obs| && !(obs[i].inRecovery == Some(true) && obs[i].lag.Some?);
    result := result.(ok := ok);
  }
}
