/** The failover controller (internal/failover/failover.go): the health automaton, the
    promotion and role-swap scripts it drives, and what any sequence of them keeps. */
module Failover {
  import opened Text
  import opened Remote

  datatype SiteConfig = SiteConfig(name: string, sshHost: string, pgHost: string)

  /** The optional `failover` section; `extraURLs` counts its health-check URLs. */
  datatype Section = Section(extraURLs: nat, quorum: int, autoFailover: bool)

  datatype Settings = Settings(
    urls: nat,
    quorum: int,
    autoFailover: bool,
    dryRun: bool,
    failoverEnabled: bool,
    secondaries: seq<SiteConfig>)

  /** New: the primary's own URL comes first, the section's URLs after it. */
  function NewSettings(section: Option<Section>, dryRun: bool, failoverEnabled: bool, secondaries: seq<SiteConfig>): Settings {
    match section
    case Some(f) => Settings(1 + f.extraURLs, f.quorum, f.autoFailover, dryRun, failoverEnabled, secondaries)
    case None => Settings(1, 1, false, dryRun, failoverEnabled, secondaries)
  }

  const PROMOTE_MIDDLE: seq<Command> := [PromotePostgres] + READ_WRITE

  const PROMOTE_SCRIPT: seq<Command> := [StopGitLab] + PROMOTE_MIDDLE + [StartGitLab, CompareKeys]

  function AdoptMiddle(source: string): seq<Command> { [BaseBackup(source)] + READ_ONLY }

  function AdoptScript(source: string): seq<Command> { [StopGitLab] + AdoptMiddle(source) + [StartGitLab] }

  function FindSecondary(secondaries: seq<SiteConfig>, name: string): Option<SiteConfig> {
    if secondaries == [] then None
    else if secondaries[0].name == name then Some(secondaries[0])
    else FindSecondary(secondaries[1..], name)
  }

  /** The first secondary of that name, if there is one. */
  lemma {:induction false} FindSecondaryIs(secondaries: seq<SiteConfig>, name: string)
    ensures match FindSecondary(secondaries, name)
            case None => forall i | 0 <= i < |secondaries| :: secondaries[i].name != name
            case Some(site) => exists i :: 0 <= i < |secondaries| && secondaries[i] == site && site.name == name
                                 && forall j | 0 <= j < i :: secondaries[j].name != name
  {
    if secondaries != [] && secondaries[0].name != name {
      FindSecondaryIs(secondaries[1..], name);
      if FindSecondary(secondaries, name).Some? {
        var i :| 0 <= i < |secondaries[1..]| && secondaries[1..][i] == FindSecondary(secondaries, name).value
                 && forall j | 0 <= j < i :: secondaries[1..][j].name != name;
        assert secondaries[i + 1] == secondaries[1..][i];
        assert forall j | 1 <= j < i + 1 :: secondaries[j] == secondaries[1..][j - 1];
      }
    }
  }

  /** A script on one host under the guards both scripts share. */
  function Scripted(cfg: Settings, host: string, cmds: seq<Command>, w: World, oracle: nat -> Outcome, n: nat): (t: Trace)
    ensures |t.worlds| == |t.log| + 1 && t.worlds[0] == w
  {
    if cfg.dryRun then Nothing(true, w)
    else if !cfg.failoverEnabled || host == "" then Nothing(false, w)
    else Exec(On(host, cmds), w, oracle, n)
  }

  /** What Promote does when the health automaton says `down`. */
  function Promotion(cfg: Settings, down: bool, name: string, w: World, oracle: nat -> Outcome, n: nat): (t: Trace)
    ensures |t.worlds| == |t.log| + 1 && t.worlds[0] == w
  {
    match FindSecondary(cfg.secondaries, name)
    case None => Nothing(false, w)
    case Some(site) =>
      if !cfg.dryRun && cfg.failoverEnabled && !down then Nothing(false, w)
      else Scripted(cfg, site.sshHost, PROMOTE_SCRIPT, w, oracle, n)
  }

  /** What AdoptAsSecondary does: it copies from the first secondary's database, whichever
      secondary was promoted. */
  function Adoption(cfg: Settings, host: string, w: World, oracle: nat -> Outcome, n: nat): Trace
    requires cfg.secondaries != []
  {
    Scripted(cfg, host, AdoptScript(cfg.secondaries[0].pgHost), w, oracle, n)
  }

  /** Everything the controller changes, here and remotely; `attempts` counts the
      promotions the health check started by itself. */
  datatype Control = Control(consecutiveFails: nat, primaryDown: bool, attempts: nat, history: History)

  datatype Operation = Check(polls: seq<bool>) | Promote(name: string) | Adopt(host: string)

  function Fails(polls: seq<bool>): nat {
    if polls == [] then 0 else Fails(polls[..|polls| - 1]) + (if polls[|polls| - 1] then 0 else 1)
  }

  /** The URLs that did not answer. */
  function Unanswered(polls: seq<bool>): set<nat> { set i: nat | i < |polls| && !polls[i] }

  lemma UnansweredSnoc(polls: seq<bool>, p: bool)
    ensures Unanswered(polls + [p]) == Unanswered(polls) + (if p then {} else {|polls|})
    ensures |Unanswered(polls + [p])| == |Unanswered(polls)| + (if p then 0 else 1)
  {
    assert |polls| !in Unanswered(polls);
  }

  lemma {:induction false} FailsCounts(polls: seq<bool>)
    ensures Fails(polls) == |Unanswered(polls)|
  {
    if polls == [] {
      assert Unanswered(polls) == {};
    } else {
      var init, last := polls[..|polls| - 1], polls[|polls| - 1];
      FailsCounts(init);
      UnansweredSnoc(init, last);
      assert polls == init + [last];
    }
  }

  predicate Quorum(cfg: Settings, polls: seq<bool>) { Fails(polls) >= cfg.quorum }

  /** The configuration demands a secondary; a check polls every URL. */
  predicate WellFormed(cfg: Settings, op: Operation) {
    cfg.secondaries != [] && (op.Check? ==> |op.polls| == cfg.urls)
  }

  function Perform(cfg: Settings, c: Control, op: Operation, oracle: nat -> Outcome): Control
    requires WellFormed(cfg, op) && Proper(c.history)
  {
    var w, n := Now(c.history), |c.history.log|;
    match op
    case Check(polls) =>
      if !Quorum(cfg, polls) then c.(consecutiveFails := 0, primaryDown := false)
      else
        var down := c.primaryDown || c.consecutiveFails + 1 >= 3;
        var d := c.(consecutiveFails := c.consecutiveFails + 1, primaryDown := down);
        if c.consecutiveFails + 1 >= 3 && cfg.autoFailover then
          d.(attempts := c.attempts + 1,
             history := Add(c.history, Promotion(cfg, true, cfg.secondaries[0].name, w, oracle, n)))
        else d
    case Promote(name) => c.(history := Add(c.history, Promotion(cfg, c.primaryDown, name, w, oracle, n)))
    case Adopt(host) => c.(history := Add(c.history, Adoption(cfg, host, w, oracle, n)))
  }

  function Fresh(w: World): Control { Control(0, false, 0, History([], [w])) }

  predicate AllWellFormed(cfg: Settings, ops: seq<Operation>) {
    forall op | op in ops :: WellFormed(cfg, op)
  }

  /** A fresh controller after a sequence of operations. */
  function RunOps(cfg: Settings, w: World, ops: seq<Operation>, oracle: nat -> Outcome): (c: Control)
    requires AllWellFormed(cfg, ops)
    ensures Proper(c.history) && c.history.worlds[0] == w
  {
    if ops == [] then Fresh(w)
    else
      var c := RunOps(cfg, w, ops[..|ops| - 1], oracle);
      var op := ops[|ops| - 1];
      PerformProper(cfg, c, op, oracle);
      Perform(cfg, c, op, oracle)
  }

  lemma PerformProper(cfg: Settings, c: Control, op: Operation, oracle: nat -> Outcome)
    requires WellFormed(cfg, op) && Proper(c.history)
    ensures Proper(Perform(cfg, c, op, oracle).history)
    ensures c.history.worlds <= Perform(cfg, c, op, oracle).history.worlds
  {
    var w, n := Now(c.history), |c.history.log|;
    match op
    case Check(polls) => AddNow(c.history, Promotion(cfg, true, cfg.secondaries[0].name, w, oracle, n));
    case Promote(name) => AddNow(c.history, Promotion(cfg, c.primaryDown, name, w, oracle, n));
    case Adopt(host) => AddNow(c.history, Adoption(cfg, host, w, oracle, n));
  }

  // ----- what the scripts keep -----

  predicate Pure(s: Site, asStandby: bool) {
    if asStandby then ReadOnlyStandby(s) else WritablePrimary(s)
  }

  /** Running only in the intended role. */
  predicate Guarded(s: Site, asStandby: bool) { s.running ==> Pure(s, asStandby) }

  lemma MiddlesPurify(source: string, s: Site)
    ensures Pure(Effects(PROMOTE_MIDDLE, s), false)
    ensures Pure(Effects(AdoptMiddle(source), s), true)
    ensures StartGitLab !in PROMOTE_MIDDLE && StartGitLab !in AdoptMiddle(source)
  {
    EffectsFour(PromotePostgres, RegistryWritable, SidekiqResume, RestoreStorages, s);
    EffectsFour(BaseBackup(source), RegistryReadOnly, SidekiqPause, ClearStorages, s);
    assert PROMOTE_MIDDLE == [PromotePostgres, RegistryWritable, SidekiqResume, RestoreStorages];
    assert AdoptMiddle(source) == [BaseBackup(source), RegistryReadOnly, SidekiqPause, ClearStorages];
  }

  lemma EffectsFour(a: Command, b: Command, c: Command, d: Command, s: Site)
    ensures Effects([a, b, c, d], s) == Effect(d, Effect(c, Effect(b, Effect(a, s))))
  {
    assert [a, b, c, d][1..] == [b, c, d];
    assert [b, c, d][1..] == [c, d];
    assert [c, d][1..] == [d];
    assert Effects([d], Effect(c, Effect(b, Effect(a, s)))) == Effect(d, Effect(c, Effect(b, Effect(a, s))));
    assert Effects([c, d], Effect(b, Effect(a, s))) == Effects([d], Effect(c, Effect(b, Effect(a, s))));
  }

  /** From the i-th world on, GitLab runs on `host` only in the intended role. */
  ghost predicate Within(t: Trace, from: nat, host: string, asStandby: bool) {
    forall i | from <= i < |t.worlds| :: host in t.worlds[i] && Guarded(t.worlds[i][host], asStandby)
  }

  predicate RunsAs(w: World, host: string, asStandby: bool) {
    host in w && w[host].running && Pure(w[host], asStandby)
  }

  /** Starting and comparing keys cannot spoil a pure site. */
  lemma {:induction false} StaysPure(host: string, cmds: seq<Command>, w: World, asStandby: bool, oracle: nat -> Outcome, n: nat)
    requires forall c | c in cmds :: c.StartGitLab? || c.CompareKeys?
    requires host in w && Pure(w[host], asStandby)
    ensures var t := Exec(On(host, cmds), w, oracle, n);
            && |t.worlds| == |t.log| + 1
            && Within(t, 0, host, asStandby)
            && (t.ok && (w[host].running || StartGitLab in cmds) ==> RunsAs(Last(t), host, asStandby))
  {
    if cmds != [] {
      assert cmds[0] in cmds;
      assert forall c | c in cmds[1..] :: c in cmds;
      assert On(host, cmds)[0] == Issued(host, cmds[0]) && On(host, cmds)[1..] == On(host, cmds[1..]);
      var i, o := Issued(host, cmds[0]), oracle(n);
      PureStep(w, host, cmds[0], asStandby, o);
      if o.ok {
        StaysPure(host, cmds[1..], After(w, i, o), asStandby, oracle, n + 1);
        WithinCons(i, w, Exec(On(host, cmds[1..]), After(w, i, o), oracle, n + 1), host, asStandby);
      }
    }
  }

  lemma PureStep(w: World, host: string, cmd: Command, asStandby: bool, o: Outcome)
    requires host in w && Pure(w[host], asStandby) && (cmd.StartGitLab? || cmd.CompareKeys?)
    ensures var w' := After(w, Issued(host, cmd), o);
            && host in w' && Pure(w'[host], asStandby)
            && (o.ok && (w[host].running || cmd.StartGitLab?) ==> w'[host].running)
    ensures Within(Step(Issued(host, cmd), w, o), 0, host, asStandby)
  {}

  lemma WithinCons(i: Issued, w: World, rest: Trace, host: string, asStandby: bool)
    requires host in w && Guarded(w[host], asStandby) && Within(rest, 0, host, asStandby) && rest.worlds != []
    ensures Within(Cons(i, w, rest), 0, host, asStandby) && Last(Cons(i, w, rest)) == Last(rest)
  {
    var t := Cons(i, w, rest);
    forall k | 0 <= k < |t.worlds|
      ensures host in t.worlds[k] && Guarded(t.worlds[k][host], asStandby)
    {
      assert k > 0 ==> t.worlds[k] == rest.worlds[k - 1];
    }
  }

  /** A stop that has succeeded, then commands that do not start. */
  lemma StoppedMiddle(host: string, middle: seq<Command>, w: World, oracle: nat -> Outcome, n: nat)
    requires StartGitLab !in middle && host in w && oracle(n).ok
    ensures var stop := Issued(host, StopGitLab);
            var u := Exec(On(host, middle), After(w, stop, oracle(n)), oracle, n + 1);
            && (forall i | 0 <= i < |u.worlds| :: Stopped(u.worlds[i], host))
            && Exec(On(host, [StopGitLab] + middle), w, oracle, n) == Then(Step(stop, w, oracle(n)), u)
            && (u.ok ==> |u.log| == |middle| && Last(u)[host] == Effects(middle, w[host].(running := false)))
  {
    var stop := Issued(host, StopGitLab);
    var w1 := After(w, stop, oracle(n));
    OnConcat(host, [StopGitLab], middle);
    assert On(host, [StopGitLab]) == [stop];
    ExecOne(stop, w, oracle, n);
    ExecConcat([stop], On(host, middle), w, oracle, n);
    StaysStopped(host, middle, w1, oracle, n + 1);
    ExecOnHost(host, middle, w1, oracle, n + 1);
    ExecLog(On(host, middle), w1, oracle, n + 1);
  }

  /** After a successful stop the site stays stopped through any middle. */
  lemma StopThenMiddle(host: string, middle: seq<Command>, w: World, oracle: nat -> Outcome, n: nat)
    requires StartGitLab !in middle && host in w
    ensures var t := Exec(On(host, [StopGitLab] + middle), w, oracle, n);
            && |t.worlds| == |t.log| + 1
            && (oracle(n).ok ==> forall i | 1 <= i < |t.worlds| :: Stopped(t.worlds[i], host))
            && (!oracle(n).ok ==> !t.ok && t == Step(Issued(host, StopGitLab), w, oracle(n)))
            && (t.ok ==> |t.log| == 1 + |middle|
                         && Last(t)[host] == Effects(middle, w[host].(running := false)))
  {
    var t := Exec(On(host, [StopGitLab] + middle), w, oracle, n);
    if oracle(n).ok {
      StoppedMiddle(host, middle, w, oracle, n);
      var u := Exec(On(host, middle), After(w, Issued(host, StopGitLab), oracle(n)), oracle, n + 1);
      assert forall i | 1 <= i < |t.worlds| :: t.worlds[i] == u.worlds[i - 1];
    }
  }

  lemma WithinThen(t: Trace, u: Trace, host: string, asStandby: bool)
    requires |t.worlds| >= 1 && |u.worlds| >= 1
    requires Within(t, 1, host, asStandby) && Within(u, 0, host, asStandby)
    ensures Within(Then(t, u), 1, host, asStandby)
  {
    var v := Then(t, u);
    forall i | 1 <= i < |v.worlds|
      ensures host in v.worlds[i] && Guarded(v.worlds[i][host], asStandby)
    {
      if i >= |t.worlds| {
        assert v.worlds[i] == u.worlds[i - |t.worlds| + 1];
      }
    }
  }

  lemma ContinuedPure(t: Trace, u: Trace, host: string, asStandby: bool)
    requires |t.worlds| >= 1 && |u.worlds| >= 1 && u.worlds[0] == Last(t)
    requires Within(t, 1, host, asStandby)
    requires t.ok ==> Within(u, 0, host, asStandby) && (u.ok ==> RunsAs(Last(u), host, asStandby))
    ensures Within(Continued(t, u), 1, host, asStandby)
    ensures Continued(t, u).ok ==> RunsAs(Last(Continued(t, u)), host, asStandby)
  {
    if t.ok {
      WithinThen(t, u, host, asStandby);
    }
  }

  /** A script that leaves a pure site, continued by starting and comparing keys. */
  lemma ContinuePure(first: seq<Issued>, host: string, ending: seq<Command>, w: World, asStandby: bool,
                     oracle: nat -> Outcome, n: nat)
    requires StartGitLab in ending && forall c | c in ending :: c.StartGitLab? || c.CompareKeys?
    requires Within(Exec(first, w, oracle, n), 1, host, asStandby)
    requires var t := Exec(first, w, oracle, n);
             t.ok ==> host in Last(t) && Pure(Last(t)[host], asStandby)
    ensures var t := Exec(first + On(host, ending), w, oracle, n);
            && |t.worlds| == |t.log| + 1
            && Within(t, 1, host, asStandby)
            && (t.ok ==> RunsAs(Last(t), host, asStandby))
  {
    ExecConcat(first, On(host, ending), w, oracle, n);
    var t := Exec(first, w, oracle, n);
    if t.ok {
      StaysPure(host, ending, Last(t), asStandby, oracle, n + |first|);
    }
    ContinuedPure(t, Exec(On(host, ending), Last(t), oracle, n + |first|), host, asStandby);
  }

  /** A stop, a purifying middle, a start: if the stop fails that is all that happened;
      once it has succeeded GitLab never runs outside the intended role; and a finished
      script leaves it running in the intended role. */
  lemma StopPurifyStart(host: string, middle: seq<Command>, ending: seq<Command>, asStandby: bool, w: World,
                        oracle: nat -> Outcome, n: nat)
    requires host in w && StartGitLab !in middle
    requires Pure(Effects(middle, w[host].(running := false)), asStandby)
    requires StartGitLab in ending && forall c | c in ending :: c.StartGitLab? || c.CompareKeys?
    ensures var t := Exec(On(host, [StopGitLab] + middle + ending), w, oracle, n);
            && |t.worlds| == |t.log| + 1
            && (!oracle(n).ok ==> t == Step(Issued(host, StopGitLab), w, oracle(n)))
            && (oracle(n).ok ==> Within(t, 1, host, asStandby))
            && (t.ok ==> RunsAs(Last(t), host, asStandby))
  {
    var first := On(host, [StopGitLab] + middle);
    OnConcat(host, [StopGitLab] + middle, ending);
    StopThenMiddle(host, middle, w, oracle, n);
    if oracle(n).ok {
      ContinuePure(first, host, ending, w, asStandby, oracle, n);
    } else {
      ExecConcat(first, On(host, ending), w, oracle, n);
    }
  }

  /** The promotion log: for every oracle it is a prefix of one fixed script, and success
      is reported exactly when every step answered yes. */
  lemma PromotionLog(cfg: Settings, down: bool, name: string, w: World, oracle: nat -> Outcome, n: nat)
    requires FindSecondary(cfg.secondaries, name).Some?
    ensures var host := FindSecondary(cfg.secondaries, name).value.sshHost;
            var t := Promotion(cfg, down, name, w, oracle, n);
            && t.log <= On(host, [StopGitLab, PromotePostgres, RegistryWritable, SidekiqResume, RestoreStorages,
                                  StartGitLab, CompareKeys])
            && (t.ok <==> cfg.dryRun || (cfg.failoverEnabled && down && host != ""
                                         && forall i | n <= i < n + 7 :: oracle(i).ok))
            && (t.log == [] <==> cfg.dryRun || !cfg.failoverEnabled || !down || host == "")
  {
    var host := FindSecondary(cfg.secondaries, name).value.sshHost;
    assert PROMOTE_SCRIPT == [StopGitLab, PromotePostgres, RegistryWritable, SidekiqResume, RestoreStorages,
                              StartGitLab, CompareKeys];
    ExecLog(On(host, PROMOTE_SCRIPT), w, oracle, n);
  }

  /** The same for the role swap, which has no health guard. */
  lemma AdoptionLog(cfg: Settings, host: string, w: World, oracle: nat -> Outcome, n: nat)
    requires cfg.secondaries != []
    ensures var t := Adoption(cfg, host, w, oracle, n);
            && t.log <= On(host, [StopGitLab, BaseBackup(cfg.secondaries[0].pgHost), RegistryReadOnly, SidekiqPause,
                                  ClearStorages, StartGitLab])
            && (t.ok <==> cfg.dryRun || (cfg.failoverEnabled && host != ""
                                         && forall i | n <= i < n + 6 :: oracle(i).ok))
            && (t.log == [] <==> cfg.dryRun || !cfg.failoverEnabled || host == "")
  {
    var source := cfg.secondaries[0].pgHost;
    assert AdoptScript(source) ==
           [StopGitLab, BaseBackup(source), RegistryReadOnly, SidekiqPause, ClearStorages, StartGitLab];
    ExecLog(On(host, AdoptScript(source)), w, oracle, n);
  }

  predicate AllUnmixed(w: World) {
    forall h | h in w :: Unmixed(w[h])
  }

  ghost predicate UnmixedThroughout(t: Trace) {
    forall i | 0 <= i < |t.worlds| :: AllUnmixed(t.worlds[i])
  }

  lemma PromoteShape(host: string, w: World, oracle: nat -> Outcome, n: nat)
    requires host in w
    ensures var t := Exec(On(host, PROMOTE_SCRIPT), w, oracle, n);
            && |t.worlds| == |t.log| + 1
            && (!oracle(n).ok ==> t == Step(Issued(host, StopGitLab), w, oracle(n)))
            && (oracle(n).ok ==> Within(t, 1, host, false))
            && (t.ok ==> host in Last(t) && RunningWritable(Last(t)[host]))
  {
    MiddlesPurify("", w[host].(running := false));
    StopPurifyStart(host, PROMOTE_MIDDLE, [StartGitLab, CompareKeys], false, w, oracle, n);
  }

  lemma AdoptShape(host: string, source: string, w: World, oracle: nat -> Outcome, n: nat)
    requires host in w
    ensures var t := Exec(On(host, AdoptScript(source)), w, oracle, n);
            && |t.worlds| == |t.log| + 1
            && (!oracle(n).ok ==> t == Step(Issued(host, StopGitLab), w, oracle(n)))
            && (oracle(n).ok ==> Within(t, 1, host, true))
            && (t.ok ==> host in Last(t) && Last(t)[host].running && ReadOnlyStandby(Last(t)[host]))
  {
    MiddlesPurify(source, w[host].(running := false));
    StopPurifyStart(host, AdoptMiddle(source), [StartGitLab], true, w, oracle, n);
  }

  const SWITCH: seq<Command> := [StopGitLab] + PROMOTE_MIDDLE + [StartGitLab]

  /** The key comparison comes after the start, and reads the primary that was declared
      down: when it alone fails, Promote reports an error although the site already runs
      as a writable primary. */
  lemma FailureAfterTheSwitch(host: string, w: World, oracle: nat -> Outcome, n: nat)
    requires host in w && forall i | n <= i < n + 6 :: oracle(i).ok
    ensures var t := Exec(On(host, PROMOTE_SCRIPT), w, oracle, n);
            (t.ok <==> oracle(n + 6).ok) && RunsAs(Last(t), host, false)
  {
    assert PROMOTE_SCRIPT == SWITCH + [CompareKeys];
    MiddlesPurify("", w[host].(running := false));
    StopPurifyStart(host, PROMOTE_MIDDLE, [StartGitLab], false, w, oracle, n);
    ExecLog(On(host, SWITCH), w, oracle, n);
    OnConcat(host, SWITCH, [CompareKeys]);
    assert On(host, [CompareKeys]) == [Issued(host, CompareKeys)];
    ExecSnoc(On(host, SWITCH), Issued(host, CompareKeys), w, oracle, n);
  }

  const BEFORE_START: seq<Command> := [StopGitLab] + PROMOTE_MIDDLE

  /** A promotion that fails after its stop and before its start leaves the site stopped. */
  lemma FailsStopped(host: string, w: World, oracle: nat -> Outcome, n: nat)
    requires host in w && oracle(n).ok && exists i :: n <= i < n + 5 && !oracle(i).ok
    ensures var t := Exec(On(host, PROMOTE_SCRIPT), w, oracle, n);
            !t.ok && Stopped(Last(t), host)
  {
    var rest := [StartGitLab, CompareKeys];
    assert PROMOTE_SCRIPT == BEFORE_START + rest;
    OnConcat(host, BEFORE_START, rest);
    ExecConcat(On(host, BEFORE_START), On(host, rest), w, oracle, n);
    ExecLog(On(host, BEFORE_START), w, oracle, n);
    MiddlesPurify("", w[host]);
    StopThenMiddle(host, PROMOTE_MIDDLE, w, oracle, n);
  }

  /** A promotion whose start fails leaves the site pure, and running if the start has
      taken effect all the same. */
  lemma StartFails(host: string, w: World, oracle: nat -> Outcome, n: nat)
    requires host in w && !oracle(n + 5).ok && forall i | n <= i < n + 5 :: oracle(i).ok
    ensures var t := Exec(On(host, PROMOTE_SCRIPT), w, oracle, n);
            !t.ok && (RunsAs(Last(t), host, false) <==> oracle(n + 5).applied)
  {
    var rest := [StartGitLab, CompareKeys];
    assert PROMOTE_SCRIPT == BEFORE_START + rest;
    OnConcat(host, BEFORE_START, rest);
    ExecConcat(On(host, BEFORE_START), On(host, rest), w, oracle, n);
    ExecLog(On(host, BEFORE_START), w, oracle, n);
    MiddlesPurify("", w[host].(running := false));
    StopThenMiddle(host, PROMOTE_MIDDLE, w, oracle, n);
    var t := Exec(On(host, BEFORE_START), w, oracle, n);
    assert Exec(On(host, rest), Last(t), oracle, n + 5)
           == Step(Issued(host, StartGitLab), Last(t), oracle(n + 5));
    StartStep(host, Last(t), oracle(n + 5));
  }

  lemma StartStep(host: string, w: World, o: Outcome)
    requires Stopped(w, host) && Pure(w[host], false) && !o.ok
    ensures RunsAs(Last(Step(Issued(host, StartGitLab), w, o)), host, false) <==> o.applied
  {}

  /** The script reports a failure although it leaves a running writable primary: the stop
      failed without effect on a site promoted before; the start failed and took effect; or
      only the key comparison failed. */
  ghost predicate FailsOnPrimary(s: Site, oracle: nat -> Outcome, n: nat) {
    || (!oracle(n).ok && !oracle(n).applied && RunningWritable(s))
    || ((forall i | n <= i < n + 5 :: oracle(i).ok) && !oracle(n + 5).ok && oracle(n + 5).applied)
    || ((forall i | n <= i < n + 6 :: oracle(i).ok) && !oracle(n + 6).ok)
  }

  /** When the report of the script agrees with what it has made of the site: always,
      except in those three cases. It never reports success wrongly. */
  lemma ReportIff(host: string, w: World, oracle: nat -> Outcome, n: nat)
    requires host in w
    ensures var t := Exec(On(host, PROMOTE_SCRIPT), w, oracle, n);
            && (t.ok ==> RunsAs(Last(t), host, false))
            && ((t.ok <==> RunsAs(Last(t), host, false)) <==> !FailsOnPrimary(w[host], oracle, n))
  {
    if !oracle(n).ok {
      PromoteShape(host, w, oracle, n);
    } else if exists i :: n <= i < n + 5 && !oracle(i).ok {
      FailsStopped(host, w, oracle, n);
    } else if !oracle(n + 5).ok {
      StartFails(host, w, oracle, n);
    } else {
      FailureAfterTheSwitch(host, w, oracle, n);
    }
  }

  /** The same for the whole of Promote. A rehearsal reports success whatever the site is,
      so it agrees exactly if the site runs as a writable primary anyway; a refusal agrees
      exactly if it does not; and otherwise the script decides. */
  lemma PromotionReportIff(cfg: Settings, down: bool, name: string, host: string, w: World,
                           oracle: nat -> Outcome, n: nat)
    requires FindSecondary(cfg.secondaries, name).Some? && host == FindSecondary(cfg.secondaries, name).value.sshHost
    requires host in w
    ensures var t := Promotion(cfg, down, name, w, oracle, n);
            (t.ok <==> RunsAs(Last(t), host, false)) <==>
            if cfg.dryRun then RunningWritable(w[host])
            else if !cfg.failoverEnabled || !down || host == "" then !RunningWritable(w[host])
            else !FailsOnPrimary(w[host], oracle, n)
  {
    ReportIff(host, w, oracle, n);
  }

  /** How a promoted site comes to be refused: the check that completes three failures in a
      row promotes it, the next one finds the old primary answering again and clears the
      flag, and from then on Promote fails on a running writable primary. */
  lemma PromotedThenRefused(cfg: Settings, c: Control, failing: seq<bool>, answering: seq<bool>, oracle: nat -> Outcome)
    requires cfg.secondaries != [] && cfg.autoFailover && cfg.failoverEnabled && !cfg.dryRun
    requires Proper(c.history) && c.consecutiveFails >= 2 && forall i :: oracle(i).ok
    requires |failing| == |answering| == cfg.urls && Quorum(cfg, failing) && !Quorum(cfg, answering)
    requires cfg.secondaries[0].sshHost != "" && cfg.secondaries[0].sshHost in Now(c.history)
    ensures var d := Perform(cfg, c, Check(failing), oracle);
            && Proper(d.history) && RunsAs(Now(d.history), cfg.secondaries[0].sshHost, false)
            && var e := Perform(cfg, d, Check(answering), oracle);
               && e.history == d.history
               && !Promotion(cfg, e.primaryDown, cfg.secondaries[0].name, Now(e.history), oracle, |e.history.log|).ok
  {
    var host, w, n := cfg.secondaries[0].sshHost, Now(c.history), |c.history.log|;
    FindFirst(cfg.secondaries);
    PromoteShape(host, w, oracle, n);
    ExecLog(On(host, PROMOTE_SCRIPT), w, oracle, n);
    AddNow(c.history, Promotion(cfg, true, cfg.secondaries[0].name, w, oracle, n));
  }

  /** Promote's comment numbers the start before the end of read-only mode. In that order
      a run without a single failure would put a mixed site into service. */
  lemma DocumentedOrderMixes(host: string, w: World, oracle: nat -> Outcome, n: nat)
    requires host in w && ReadOnlyStandby(w[host]) && forall i | n <= i < n + 3 :: oracle(i).ok
    ensures var t := Exec(On(host, [StopGitLab, PromotePostgres, StartGitLab] + READ_WRITE), w, oracle, n);
            exists i :: 0 <= i < |t.worlds| && host in t.worlds[i] && !Unmixed(t.worlds[i][host])
  {
    var first := [StopGitLab, PromotePostgres, StartGitLab];
    var t := Exec(On(host, first), w, oracle, n);
    OnConcat(host, first, READ_WRITE);
    ExecConcat(On(host, first), On(host, READ_WRITE), w, oracle, n);
    ExecLog(On(host, first), w, oracle, n);
    ExecOnHost(host, first, w, oracle, n);
    EffectsThree(StopGitLab, PromotePostgres, StartGitLab, w[host]);
    var whole := Exec(On(host, first + READ_WRITE), w, oracle, n);
    assert whole.worlds[3] == Last(t);
  }

  lemma EffectsThree(a: Command, b: Command, c: Command, s: Site)
    ensures Effects([a, b, c], s) == Effect(c, Effect(b, Effect(a, s)))
  {
    assert [a, b, c][1..] == [b, c];
    assert [b, c][1..] == [c];
    assert Effects([c], Effect(b, Effect(a, s))) == Effect(c, Effect(b, Effect(a, s)));
  }

  /** Every attempt at either script, however it ends, passes only through worlds in which
      GitLab runs as a read-only standby or as a writable primary. */
  lemma ScriptsKeepUnmixed(cfg: Settings, host: string, cmds: seq<Command>, source: string, w: World, oracle: nat -> Outcome, n: nat)
    requires cmds == PROMOTE_SCRIPT || cmds == AdoptScript(source)
    requires AllUnmixed(w)
    ensures UnmixedThroughout(Scripted(cfg, host, cmds, w, oracle, n))
  {
    if !cfg.dryRun && cfg.failoverEnabled && host != "" {
      var t := Exec(On(host, cmds), w, oracle, n);
      ExecOnHost(host, cmds, w, oracle, n);
      assert forall i | 0 <= i < |t.worlds| :: t.worlds[i].Keys == w.Keys;
      if host in w {
        PromoteShape(host, w, oracle, n);
        AdoptShape(host, source, w, oracle, n);
      }
      forall i | 0 <= i < |t.worlds|
        ensures AllUnmixed(t.worlds[i])
      {
        forall h | h in t.worlds[i]
          ensures Unmixed(t.worlds[i][h])
        {
          assert t.worlds[i].Keys == w.Keys;
          if h == host && i > 0 {
            assert Unmixed(w[h]);
            if oracle(n).ok {
              assert Within(t, 1, host, cmds == AdoptScript(source));
              assert Guarded(t.worlds[i][h], cmds == AdoptScript(source));
            } else {
              assert t.worlds == [w, After(w, Issued(host, StopGitLab), oracle(n))];
            }
          } else if h != host {
            assert t.worlds[i][h] == w[h];
          }
        }
      }
    }
  }

  /** Safety over all runs: whatever checks, promotions and adoptions are performed, in
      whatever order, whichever steps fail and whatever failed commands leave behind,
      sites that start unmixed are never seen running in a mixed state. */
  lemma {:induction false} NeverMixed(cfg: Settings, w: World, ops: seq<Operation>, oracle: nat -> Outcome)
    requires AllWellFormed(cfg, ops) && AllUnmixed(w)
    ensures forall i | 0 <= i < |RunOps(cfg, w, ops, oracle).history.worlds| ::
              AllUnmixed(RunOps(cfg, w, ops, oracle).history.worlds[i])
  {
    if ops != [] {
      var op := ops[|ops| - 1];
      var c := RunOps(cfg, w, ops[..|ops| - 1], oracle);
      NeverMixed(cfg, w, ops[..|ops| - 1], oracle);
      PerformUnmixed(cfg, c, op, oracle);
    }
  }

  lemma PromotionKeepsUnmixed(cfg: Settings, down: bool, name: string, w: World, oracle: nat -> Outcome, n: nat)
    requires AllUnmixed(w)
    ensures UnmixedThroughout(Promotion(cfg, down, name, w, oracle, n))
  {
    match FindSecondary(cfg.secondaries, name)
    case None =>
    case Some(site) => ScriptsKeepUnmixed(cfg, site.sshHost, PROMOTE_SCRIPT, "", w, oracle, n);
  }

  lemma PerformUnmixed(cfg: Settings, c: Control, op: Operation, oracle: nat -> Outcome)
    requires WellFormed(cfg, op) && Proper(c.history)
    requires forall i | 0 <= i < |c.history.worlds| :: AllUnmixed(c.history.worlds[i])
    ensures forall i | 0 <= i < |Perform(cfg, c, op, oracle).history.worlds| ::
              AllUnmixed(Perform(cfg, c, op, oracle).history.worlds[i])
  {
    var w, n := Now(c.history), |c.history.log|;
    assert AllUnmixed(w);
    var t :=
      match op
      case Check(polls) => Promotion(cfg, true, cfg.secondaries[0].name, w, oracle, n)
      case Promote(name) => Promotion(cfg, c.primaryDown, name, w, oracle, n)
      case Adopt(host) => Adoption(cfg, host, w, oracle, n);
    match op {
      case Check(polls) => PromotionKeepsUnmixed(cfg, true, cfg.secondaries[0].name, w, oracle, n);
      case Promote(name) => PromotionKeepsUnmixed(cfg, c.primaryDown, name, w, oracle, n);
      case Adopt(host) => ScriptsKeepUnmixed(cfg, host, AdoptScript(cfg.secondaries[0].pgHost), cfg.secondaries[0].pgHost, w, oracle, n);
    }
    var after := Add(c.history, t).worlds;
    forall i | 0 <= i < |after|
      ensures AllUnmixed(after[i])
    {
      if i >= |c.history.worlds| {
        assert after[i] == t.worlds[i - |c.history.worlds| + 1];
      }
    }
  }

  // ----- role swap -----

  /** Once the stop of an adoption has succeeded, the old primary never runs except as a
      read-only standby. */
  lemma AdoptionGuard(cfg: Settings, host: string, w: World, oracle: nat -> Outcome, n: nat)
    requires cfg.secondaries != [] && host in w && oracle(n).ok
    ensures var t := Adoption(cfg, host, w, oracle, n);
            forall i | 1 <= i < |t.worlds| ::
              host in t.worlds[i] && (t.worlds[i][host].running ==> ReadOnlyStandby(t.worlds[i][host]))
  {
    if !cfg.dryRun && cfg.failoverEnabled && host != "" {
      AdoptShape(host, cfg.secondaries[0].pgHost, w, oracle, n);
      var t := Exec(On(host, AdoptScript(cfg.secondaries[0].pgHost)), w, oracle, n);
      forall i | 1 <= i < |t.worlds|
        ensures host in t.worlds[i] && (t.worlds[i][host].running ==> ReadOnlyStandby(t.worlds[i][host]))
      {
        assert Guarded(t.worlds[i][host], true);
      }
    }
  }

  lemma FindFirst(secondaries: seq<SiteConfig>)
    requires secondaries != []
    ensures FindSecondary(secondaries, secondaries[0].name) == Some(secondaries[0])
  {}

  /** What a finished role swap makes of any site. */
  lemma AdoptEffects(source: string, s: Site)
    ensures Effects(AdoptScript(source), s) == Site(true, true, Some(source), true, true)
  {
    var middle, last := [BaseBackup(source), RegistryReadOnly, SidekiqPause, ClearStorages], [StartGitLab];
    assert AdoptScript(source) == [StopGitLab] + (middle + last);
    EffectsConcat([StopGitLab], middle + last, s);
    EffectsConcat(middle, last, Effects([StopGitLab], s));
    EffectsFour(BaseBackup(source), RegistryReadOnly, SidekiqPause, ClearStorages, Effects([StopGitLab], s));
    EffectsOne(StartGitLab, Effects(middle, Effects([StopGitLab], s)));
  }

  /** And a finished promotion. */
  lemma PromoteEffects(s: Site)
    ensures Effects(PROMOTE_SCRIPT, s) == Site(true, false, None, false, false)
  {
    var middle, last := [PromotePostgres, RegistryWritable, SidekiqResume, RestoreStorages], [StartGitLab, CompareKeys];
    assert PROMOTE_SCRIPT == [StopGitLab] + (middle + last);
    EffectsConcat([StopGitLab], middle + last, s);
    EffectsConcat(middle, last, Effects([StopGitLab], s));
    var t := Effects(middle, Effects([StopGitLab], s));
    EffectsFour(PromotePostgres, RegistryWritable, SidekiqResume, RestoreStorages, Effects([StopGitLab], s));
    EffectsConcat([StartGitLab], [CompareKeys], t);
    assert last == [StartGitLab] + [CompareKeys];
    EffectsOne(StartGitLab, t);
    EffectsOne(CompareKeys, Effects([StartGitLab], t));
  }

  lemma EffectsOne(cmd: Command, s: Site)
    ensures Effects([cmd], s) == Effect(cmd, s)
  {
    assert [cmd][1..] == [];
  }

  /** A successful promotion of a secondary followed by a successful adoption leaves exactly
      one of the two hosts a running writable primary, provided they are two: the promoted
      one. The adopted one runs as a read-only standby, but of the first secondary: it
      follows the promoted site exactly when that one's database is the first's. */
  lemma RoleSwap(cfg: Settings, down: bool, name: string, oldPrimary: string, w: World,
                 oracle: nat -> Outcome, n: nat, m: nat)
    requires FindSecondary(cfg.secondaries, name).Some? && !cfg.dryRun
    requires oldPrimary in w && FindSecondary(cfg.secondaries, name).value.sshHost in w
    requires Promotion(cfg, down, name, w, oracle, n).ok
    requires Adoption(cfg, oldPrimary, Last(Promotion(cfg, down, name, w, oracle, n)), oracle, m).ok
    ensures var promoted := FindSecondary(cfg.secondaries, name).value;
            var newPrimary := promoted.sshHost;
            var w1 := Last(Promotion(cfg, down, name, w, oracle, n));
            var w2 := Last(Adoption(cfg, oldPrimary, w1, oracle, m));
            && oldPrimary in w2 && newPrimary in w2
            && w2[oldPrimary] == Site(true, true, Some(cfg.secondaries[0].pgHost), true, true)
            && (oldPrimary != newPrimary ==> w2[newPrimary] == Site(true, false, None, false, false))
            && w2[oldPrimary].running && ReadOnlyStandby(w2[oldPrimary])
            && (RunningWritable(w2[newPrimary]) != RunningWritable(w2[oldPrimary]) <==> oldPrimary != newPrimary)
            && (w2[oldPrimary].follows == Some(promoted.pgHost) <==> promoted.pgHost == cfg.secondaries[0].pgHost)
            && (forall h | h in w && h != oldPrimary && h != newPrimary :: h in w2 && w2[h] == w[h])
  {
    var newPrimary, source := FindSecondary(cfg.secondaries, name).value.sshHost, cfg.secondaries[0].pgHost;
    var t := Exec(On(newPrimary, PROMOTE_SCRIPT), w, oracle, n);
    PromoteShape(newPrimary, w, oracle, n);
    ExecOnHost(newPrimary, PROMOTE_SCRIPT, w, oracle, n);
    assert Last(t).Keys == w.Keys;
    AdoptShape(oldPrimary, source, Last(t), oracle, m);
    ExecOnHost(oldPrimary, AdoptScript(source), Last(t), oracle, m);
    AdoptEffects(source, Last(t)[oldPrimary]);
    PromoteEffects(w[newPrimary]);
    var u := Exec(On(oldPrimary, AdoptScript(source)), Last(t), oracle, m);
    assert Last(u).Keys == w.Keys;
  }

  // ----- the health automaton -----

  /** Of each check performed, whether it reached quorum. */
  function Verdicts(cfg: Settings, ops: seq<Operation>): seq<bool> {
    if ops == [] then []
    else
      Verdicts(cfg, ops[..|ops| - 1]) +
      match ops[|ops| - 1] { case Check(polls) => [Quorum(cfg, polls)] case _ => [] }
  }

  /** The checks that complete three quorums in a row. */
  function ThirdInRow(q: seq<bool>): set<nat> {
    set i: nat | i < |q| && EndsThree(q, i)
  }

  predicate EndsThree(q: seq<bool>, i: nat)
    requires i < |q|
  {
    i >= 2 && q[i - 2] && q[i - 1] && q[i]
  }

  predicate Reflects(cfg: Settings, c: Control, q: seq<bool>) {
    && c.consecutiveFails <= |q|
    && (forall i | |q| - c.consecutiveFails <= i < |q| :: q[i])
    && (c.consecutiveFails < |q| ==> !q[|q| - c.consecutiveFails - 1])
    && (c.primaryDown <==> c.consecutiveFails >= 3)
    && c.attempts == if cfg.autoFailover then |ThirdInRow(q)| else 0
  }

  lemma ReflectsCheck(cfg: Settings, c: Control, d: Control, q: seq<bool>, v: bool)
    requires Reflects(cfg, c, q)
    requires d.consecutiveFails == if v then c.consecutiveFails + 1 else 0
    requires d.primaryDown == (v && d.consecutiveFails >= 3)
    requires d.attempts == c.attempts + if d.primaryDown && cfg.autoFailover then 1 else 0
    ensures Reflects(cfg, d, q + [v])
  {
    ThirdInRowSnoc(q, v);
  }

  lemma ReflectsStep(cfg: Settings, c: Control, q: seq<bool>, op: Operation, oracle: nat -> Outcome)
    requires WellFormed(cfg, op) && Proper(c.history) && Reflects(cfg, c, q)
    ensures Reflects(cfg, Perform(cfg, c, op, oracle), if op.Check? then q + [Quorum(cfg, op.polls)] else q)
  {
    if op.Check? {
      ReflectsCheck(cfg, c, Perform(cfg, c, op, oracle), q, Quorum(cfg, op.polls));
    }
  }

  /** The controller after any operations, in terms of the verdicts alone: the counter is
      the length of the longest run of quorums at the end, down means at least three, and
      promotions were attempted exactly at the checks completing three in a row. */
  lemma {:induction false} HistoryRefinement(cfg: Settings, w: World, ops: seq<Operation>, oracle: nat -> Outcome)
    requires AllWellFormed(cfg, ops)
    ensures Reflects(cfg, RunOps(cfg, w, ops, oracle), Verdicts(cfg, ops))
  {
    if ops == [] {
      assert ThirdInRow([]) == {};
    } else {
      var init := ops[..|ops| - 1];
      HistoryRefinement(cfg, w, init, oracle);
      ReflectsStep(cfg, RunOps(cfg, w, init, oracle), Verdicts(cfg, init), ops[|ops| - 1], oracle);
      if !ops[|ops| - 1].Check? {
        assert Verdicts(cfg, ops) == Verdicts(cfg, init);
      }
    }
  }

  lemma ThirdInRowSnoc(q: seq<bool>, v: bool)
    ensures ThirdInRow(q + [v]) ==
            ThirdInRow(q) + (if v && |q| >= 2 && q[|q| - 1] && q[|q| - 2] then {|q|} else {})
    ensures |ThirdInRow(q + [v])| ==
            |ThirdInRow(q)| + (if v && |q| >= 2 && q[|q| - 1] && q[|q| - 2] then 1 else 0)
  {
    assert |q| !in ThirdInRow(q);
  }

  lemma {:induction false} ThirdInRowStraight(q: seq<bool>)
    requires forall i | 0 <= i < |q| :: q[i]
    ensures |ThirdInRow(q)| == if |q| >= 2 then |q| - 2 else 0
  {
    if q == [] {
      assert ThirdInRow(q) == {};
    } else {
      var init := q[..|q| - 1];
      ThirdInRowStraight(init);
      ThirdInRowSnoc(init, q[|q| - 1]);
      assert q == init + [q[|q| - 1]];
    }
  }

  /** Promotion is not latched: n straight quorums mean n - 2 attempts. */
  lemma StraightFailures(cfg: Settings, w: World, ops: seq<Operation>, oracle: nat -> Outcome)
    requires AllWellFormed(cfg, ops) && cfg.autoFailover
    requires forall i | 0 <= i < |Verdicts(cfg, ops)| :: Verdicts(cfg, ops)[i]
    ensures var n := |Verdicts(cfg, ops)|;
            RunOps(cfg, w, ops, oracle).attempts == if n >= 2 then n - 2 else 0
  {
    HistoryRefinement(cfg, w, ops, oracle);
    ThirdInRowStraight(Verdicts(cfg, ops));
  }

  lemma {:induction false} FailsBound(polls: seq<bool>)
    ensures Fails(polls) <= |polls|
    ensures (forall i | 0 <= i < |polls| :: !polls[i]) ==> Fails(polls) == |polls|
  {
    if polls != [] {
      FailsBound(polls[..|polls| - 1]);
    }
  }

  /** k checks in a row with the same answers, a quorum of them failures. */
  lemma {:induction false} SameChecks(cfg: Settings, polls: seq<bool>, k: nat) returns (ops: seq<Operation>)
    requires cfg.secondaries != [] && |polls| == cfg.urls && Quorum(cfg, polls)
    ensures AllWellFormed(cfg, ops) && forall op | op in ops :: op == Check(polls)
    ensures |Verdicts(cfg, ops)| == k && forall i | 0 <= i < k :: Verdicts(cfg, ops)[i]
  {
    if k == 0 {
      return [];
    }
    var init := SameChecks(cfg, polls, k - 1);
    VerdictsSnoc(cfg, init, polls);
    ops := init + [Check(polls)];
  }

  lemma ThreeChecks(cfg: Settings, polls: seq<bool>, w: World, oracle: nat -> Outcome) returns (ops: seq<Operation>)
    requires cfg.secondaries != [] && |polls| == cfg.urls && Quorum(cfg, polls)
    ensures AllWellFormed(cfg, ops) && forall op | op in ops :: op == Check(polls)
    ensures RunOps(cfg, w, ops, oracle).primaryDown
  {
    ops := SameChecks(cfg, polls, 3);
    HistoryRefinement(cfg, w, ops, oracle);
  }

  lemma VerdictsSnoc(cfg: Settings, ops: seq<Operation>, polls: seq<bool>)
    ensures Verdicts(cfg, ops + [Check(polls)]) == Verdicts(cfg, ops) + [Quorum(cfg, polls)]
  {
    var all := ops + [Check(polls)];
    assert all[..|all| - 1] == ops;
  }

  lemma QuorumTooHigh(cfg: Settings, w: World, ops: seq<Operation>, oracle: nat -> Outcome)
    requires AllWellFormed(cfg, ops) && cfg.quorum > cfg.urls
    ensures !RunOps(cfg, w, ops, oracle).primaryDown
  {
    HistoryRefinement(cfg, w, ops, oracle);
    NoQuorum(cfg, ops);
    var q := Verdicts(cfg, ops);
    assert q == [] || !q[|q| - 1];
  }

  /** Some run of checks can declare the primary down exactly when the quorum does not
      exceed the number of URLs polled. */
  lemma CanDeclareDownIff(cfg: Settings, w: World, oracle: nat -> Outcome)
    requires cfg.secondaries != []
    ensures (exists ops :: AllWellFormed(cfg, ops) && RunOps(cfg, w, ops, oracle).primaryDown)
       <==> cfg.quorum <= cfg.urls
  {
    if cfg.quorum <= cfg.urls {
      var polls := seq(cfg.urls, _ => false);
      FailsBound(polls);
      var ops := ThreeChecks(cfg, polls, w, oracle);
    } else {
      forall ops | AllWellFormed(cfg, ops)
        ensures !RunOps(cfg, w, ops, oracle).primaryDown
      {
        QuorumTooHigh(cfg, w, ops, oracle);
      }
    }
  }

  predicate AllAnswer(ops: seq<Operation>) {
    forall op | op in ops :: op.Check? ==> forall i | 0 <= i < |op.polls| :: op.polls[i]
  }

  lemma {:induction false} AnswersNeverFail(polls: seq<bool>)
    requires forall i | 0 <= i < |polls| :: polls[i]
    ensures Fails(polls) == 0
  {
    if polls != [] {
      AnswersNeverFail(polls[..|polls| - 1]);
    }
  }

  lemma {:induction false} AnswersNoQuorum(cfg: Settings, ops: seq<Operation>)
    requires AllWellFormed(cfg, ops) && AllAnswer(ops) && cfg.quorum >= 1
    ensures forall i | 0 <= i < |Verdicts(cfg, ops)| :: !Verdicts(cfg, ops)[i]
  {
    if ops != [] {
      AnswersNoQuorum(cfg, ops[..|ops| - 1]);
      assert ops[|ops| - 1] in ops;
      if ops[|ops| - 1].Check? {
        AnswersNeverFail(ops[|ops| - 1].polls);
      }
    }
  }

  /** A primary that answers every poll is never declared down exactly when the quorum is
      positive; a negative one, which the configuration accepts, is always reached. */
  lemma HealthyStaysUpIff(cfg: Settings, w: World, oracle: nat -> Outcome)
    requires cfg.secondaries != []
    ensures (forall ops | AllWellFormed(cfg, ops) && AllAnswer(ops) :: !RunOps(cfg, w, ops, oracle).primaryDown)
       <==> cfg.quorum >= 1
  {
    if cfg.quorum >= 1 {
      forall ops | AllWellFormed(cfg, ops) && AllAnswer(ops)
        ensures !RunOps(cfg, w, ops, oracle).primaryDown
      {
        AnswersNoQuorum(cfg, ops);
        HistoryRefinement(cfg, w, ops, oracle);
        var q := Verdicts(cfg, ops);
        assert q == [] || !q[|q| - 1];
      }
    } else {
      var polls := seq(cfg.urls, _ => true);
      AnswersNeverFail(polls);
      var ops := ThreeChecks(cfg, polls, w, oracle);
      assert AllWellFormed(cfg, ops) && AllAnswer(ops) && RunOps(cfg, w, ops, oracle).primaryDown;
    }
  }

  /** What the failover section decides: without it one failing poll of the primary is a
      quorum; with it the primary's URL and the section's vote together. */
  lemma DownByConfiguration(section: Option<Section>, dryRun: bool, enabled: bool, secondaries: seq<SiteConfig>,
                            w: World, oracle: nat -> Outcome)
    requires secondaries != []
    ensures var cfg := NewSettings(section, dryRun, enabled, secondaries);
            && ((exists ops :: AllWellFormed(cfg, ops) && RunOps(cfg, w, ops, oracle).primaryDown)
                <==> (section.Some? ==> section.value.quorum <= section.value.extraURLs + 1))
            && (section.None? ==> forall ops | AllWellFormed(cfg, ops) :: RunOps(cfg, w, ops, oracle).attempts == 0)
  {
    var cfg := NewSettings(section, dryRun, enabled, secondaries);
    CanDeclareDownIff(cfg, w, oracle);
    forall ops | section.None? && AllWellFormed(cfg, ops)
      ensures RunOps(cfg, w, ops, oracle).attempts == 0
    {
      HistoryRefinement(cfg, w, ops, oracle);
    }
  }

  lemma {:induction false} NoQuorum(cfg: Settings, ops: seq<Operation>)
    requires AllWellFormed(cfg, ops) && cfg.quorum > cfg.urls
    ensures forall i | 0 <= i < |Verdicts(cfg, ops)| :: !Verdicts(cfg, ops)[i]
  {
    if ops != [] {
      NoQuorum(cfg, ops[..|ops| - 1]);
      if ops[|ops| - 1].Check? {
        assert ops[|ops| - 1] in ops;
        FailsBound(ops[|ops| - 1].polls);
      }
    }
  }

  lemma DownNeedsThree(cfg: Settings, w: World, ops: seq<Operation>, oracle: nat -> Outcome)
    requires AllWellFormed(cfg, ops) && ThirdInRow(Verdicts(cfg, ops)) == {}
    ensures !RunOps(cfg, w, ops, oracle).primaryDown
  {
    HistoryRefinement(cfg, w, ops, oracle);
    var q := Verdicts(cfg, ops);
    assert RunOps(cfg, w, ops, oracle).primaryDown ==> |q| - 1 in ThirdInRow(q);
  }

  /** Neither a check that leaves the primary up nor a promotion asked while it is up
      sends anything. */
  lemma QuietStep(cfg: Settings, c: Control, op: Operation, oracle: nat -> Outcome)
    requires WellFormed(cfg, op) && Proper(c.history) && !op.Adopt?
    requires !c.primaryDown && !Perform(cfg, c, op, oracle).primaryDown
    ensures Perform(cfg, c, op, oracle).history.log == c.history.log
  {}

  /** A controller whose checks never completed three quorums in a row refuses every
      promotion: no command is issued at all, however often it is asked. In particular a
      controller made just for one promotion can only ever rehearse it. */
  lemma {:induction false} NeverDeclaredNeverActs(cfg: Settings, w: World, ops: seq<Operation>, oracle: nat -> Outcome)
    requires AllWellFormed(cfg, ops) && forall op | op in ops :: !op.Adopt?
    requires ThirdInRow(Verdicts(cfg, ops)) == {}
    ensures RunOps(cfg, w, ops, oracle).history.log == []
    ensures forall name, n :: !cfg.dryRun ==>
              !Promotion(cfg, RunOps(cfg, w, ops, oracle).primaryDown, name, w, oracle, n).ok
  {
    DownNeedsThree(cfg, w, ops, oracle);
    if ops != [] {
      var init, op := ops[..|ops| - 1], ops[|ops| - 1];
      ThirdInRowGrows(cfg, ops);
      assert op in ops;
      NeverDeclaredNeverActs(cfg, w, init, oracle);
      DownNeedsThree(cfg, w, init, oracle);
      QuietStep(cfg, RunOps(cfg, w, init, oracle), op, oracle);
    }
  }

  lemma ThirdInRowGrows(cfg: Settings, ops: seq<Operation>)
    requires ops != []
    ensures ThirdInRow(Verdicts(cfg, ops[..|ops| - 1])) <= ThirdInRow(Verdicts(cfg, ops))
  {
    assert Verdicts(cfg, ops[..|ops| - 1]) <= Verdicts(cfg, ops);
  }

  /** Under dry-run, and with failover disabled, nothing is ever sent to any host. */
  lemma {:induction false} GatedRunsAreSilent(cfg: Settings, w: World, ops: seq<Operation>, oracle: nat -> Outcome)
    requires AllWellFormed(cfg, ops) && (cfg.dryRun || !cfg.failoverEnabled)
    ensures RunOps(cfg, w, ops, oracle).history.log == []
  {
    if ops != [] {
      GatedRunsAreSilent(cfg, w, ops[..|ops| - 1], oracle);
      assert ops[|ops| - 1] in ops;
      GatedStep(cfg, RunOps(cfg, w, ops[..|ops| - 1], oracle), ops[|ops| - 1], oracle);
    }
  }

  lemma GatedStep(cfg: Settings, c: Control, op: Operation, oracle: nat -> Outcome)
    requires WellFormed(cfg, op) && Proper(c.history) && (cfg.dryRun || !cfg.failoverEnabled)
    ensures Perform(cfg, c, op, oracle).history.log == c.history.log
  {}

  function Copies(script: seq<Issued>, k: nat): seq<Issued> {
    if k == 0 then [] else Copies(script, k - 1) + script
  }

  /** What "not latched" costs: while the old primary stays unreachable, automatic failover
      repeats the whole script, its stop included, on the site it has already promoted. */
  lemma {:induction false} PromotionsRepeat(cfg: Settings, w: World, ops: seq<Operation>, oracle: nat -> Outcome)
    requires AllWellFormed(cfg, ops) && forall op | op in ops :: op.Check?
    requires cfg.failoverEnabled && !cfg.dryRun
    requires cfg.secondaries != [] && cfg.secondaries[0].sshHost != "" && forall i :: oracle(i).ok
    ensures var c := RunOps(cfg, w, ops, oracle);
            c.history.log == Copies(On(cfg.secondaries[0].sshHost, PROMOTE_SCRIPT), c.attempts)
  {
    if ops != [] {
      assert ops[|ops| - 1] in ops;
      PromotionsRepeat(cfg, w, ops[..|ops| - 1], oracle);
      RepeatStep(cfg, RunOps(cfg, w, ops[..|ops| - 1], oracle), ops[|ops| - 1], oracle);
    }
  }

  lemma RepeatStep(cfg: Settings, c: Control, op: Operation, oracle: nat -> Outcome)
    requires WellFormed(cfg, op) && Proper(c.history) && op.Check?
    requires cfg.failoverEnabled && !cfg.dryRun
    requires cfg.secondaries[0].sshHost != "" && forall i :: oracle(i).ok
    ensures var d := Perform(cfg, c, op, oracle);
            if d.attempts == c.attempts then d.history.log == c.history.log
            else d.attempts == c.attempts + 1
                 && d.history.log == c.history.log + On(cfg.secondaries[0].sshHost, PROMOTE_SCRIPT)
  {
    FindFirst(cfg.secondaries);
    ExecLog(On(cfg.secondaries[0].sshHost, PROMOTE_SCRIPT), Now(c.history), oracle, |c.history.log|);
  }

  /** Of each check performed, whether at least `quorum` URLs did not answer. */
  function Outages(quorum: int, ops: seq<Operation>): seq<bool> {
    if ops == [] then []
    else
      Outages(quorum, ops[..|ops| - 1]) +
      match ops[|ops| - 1] { case Check(polls) => [|Unanswered(polls)| >= quorum] case _ => [] }
  }

  lemma {:induction false} VerdictsAreOutages(cfg: Settings, ops: seq<Operation>)
    ensures Verdicts(cfg, ops) == Outages(cfg.quorum, ops)
  {
    if ops != [] {
      VerdictsAreOutages(cfg, ops[..|ops| - 1]);
      if ops[|ops| - 1].Check? {
        FailsCounts(ops[|ops| - 1].polls);
      }
    }
  }

  /** What New makes of the configuration, in every run: which URLs are polled, when an
      outage is declared, which checks start a promotion, that both gates close every script, and that with both open the
      first secondary gets one script for each attempt. */
  lemma ConfiguredRuns(section: Option<Section>, dryRun: bool, enabled: bool, secondaries: seq<SiteConfig>,
                       w: World, ops: seq<Operation>, oracle: nat -> Outcome)
    requires secondaries != [] && AllWellFormed(NewSettings(section, dryRun, enabled, secondaries), ops)
    ensures forall op | op in ops && op.Check? ::
              |op.polls| == 1 + (if section.Some? then section.value.extraURLs else 0)
    ensures var c := RunOps(NewSettings(section, dryRun, enabled, secondaries), w, ops, oracle);
            && c.attempts == (if section.Some? && section.value.autoFailover
                              then |ThirdInRow(Outages(section.value.quorum, ops))| else 0)
            && (c.primaryDown <==> LastThree(Outages(if section.Some? then section.value.quorum else 1, ops)))
            && (dryRun || !enabled ==> c.history.log == [])
            && (!dryRun && enabled && secondaries[0].sshHost != "" && AllChecks(ops) && AlwaysOk(oracle) ==>
                  c.history.log ==
                  Copies(On(secondaries[0].sshHost, [StopGitLab, PromotePostgres, RegistryWritable, SidekiqResume,
                                                     RestoreStorages, StartGitLab, CompareKeys]), c.attempts))
  {
    var cfg := NewSettings(section, dryRun, enabled, secondaries);
    OutagesDecide(cfg, w, ops, oracle);
    if dryRun || !enabled {
      GatedRunsAreSilent(cfg, w, ops, oracle);
    } else if secondaries[0].sshHost != "" && AllChecks(ops) && AlwaysOk(oracle) {
      PromotionsRepeat(cfg, w, ops, oracle);
      assert PROMOTE_SCRIPT == [StopGitLab, PromotePostgres, RegistryWritable, SidekiqResume, RestoreStorages,
                                StartGitLab, CompareKeys];
    }
  }

  lemma OutagesDecide(cfg: Settings, w: World, ops: seq<Operation>, oracle: nat -> Outcome)
    requires AllWellFormed(cfg, ops)
    ensures var c, q := RunOps(cfg, w, ops, oracle), Outages(cfg.quorum, ops);
            && (c.primaryDown <==> LastThree(q))
            && c.attempts == if cfg.autoFailover then |ThirdInRow(q)| else 0
  {
    HistoryRefinement(cfg, w, ops, oracle);
    VerdictsAreOutages(cfg, ops);
  }

  predicate LastThree(q: seq<bool>) { |q| >= 3 && EndsThree(q, |q| - 1) }

  predicate AllChecks(ops: seq<Operation>) { forall op | op in ops :: op.Check? }

  ghost predicate AlwaysOk(oracle: nat -> Outcome) { forall i :: oracle(i).ok }

  // ----- the controller object -----

  /** One step of a script: a local test, one command, or a readonly command loop. */
  datatype PromotionStep =
    | VerifyPrimaryDown
    | Send(cmd: Command)
    | DisableReadOnly
    | EnableReadOnly

  function Commands(step: PromotionStep): seq<Command> {
    match step
    case VerifyPrimaryDown => []
    case Send(cmd) => [cmd]
    case DisableReadOnly => READ_WRITE
    case EnableReadOnly => READ_ONLY
  }

  /** The commands of a step list, nested loops included, in the order they are sent. */
  function Flatten(steps: seq<PromotionStep>): seq<Command> {
    if steps == [] then [] else Commands(steps[0]) + Flatten(steps[1..])
  }

  const PROMOTION_STEPS: seq<PromotionStep> :=
    [VerifyPrimaryDown, Send(StopGitLab), Send(PromotePostgres), DisableReadOnly, Send(StartGitLab), Send(CompareKeys)]

  function AdoptionSteps(source: string): seq<PromotionStep> {
    [Send(StopGitLab), Send(BaseBackup(source)), EnableReadOnly, Send(StartGitLab)]
  }

  lemma FlattenCons(step: PromotionStep, rest: seq<PromotionStep>)
    ensures Flatten([step] + rest) == Commands(step) + Flatten(rest)
  {
    assert ([step] + rest)[1..] == rest;
  }

  lemma FlattenScripts(source: string)
    ensures Flatten(PROMOTION_STEPS) == PROMOTE_SCRIPT
    ensures Flatten(AdoptionSteps(source)) == AdoptScript(source)
  {
    var p := [StartGitLab, CompareKeys];
    FlattenCons(Send(CompareKeys), []);
    FlattenCons(Send(StartGitLab), [Send(CompareKeys)]);
    FlattenCons(DisableReadOnly, [Send(StartGitLab), Send(CompareKeys)]);
    FlattenCons(Send(PromotePostgres), [DisableReadOnly, Send(StartGitLab), Send(CompareKeys)]);
    FlattenCons(Send(StopGitLab), [Send(PromotePostgres), DisableReadOnly, Send(StartGitLab), Send(CompareKeys)]);
    FlattenCons(VerifyPrimaryDown,
                [Send(StopGitLab), Send(PromotePostgres), DisableReadOnly, Send(StartGitLab), Send(CompareKeys)]);
    FlattenCons(Send(StartGitLab), []);
    FlattenCons(EnableReadOnly, [Send(StartGitLab)]);
    FlattenCons(Send(BaseBackup(source)), [EnableReadOnly, Send(StartGitLab)]);
    FlattenCons(Send(StopGitLab), [Send(BaseBackup(source)), EnableReadOnly, Send(StartGitLab)]);
  }

  class Controller {
    const cfg: Settings
    const hosts: Hosts
    var consecutiveFails: nat
    var primaryDown: bool
    ghost var attempts: nat

    ghost predicate Valid()
      reads this, hosts
    {
      cfg.secondaries != [] && hosts.Valid()
    }

    ghost function View(): Control
      reads this, hosts
    {
      Control(consecutiveFails, primaryDown, attempts, hosts.history)
    }

    constructor (cfg: Settings, hosts: Hosts)
      requires cfg.secondaries != [] && hosts.Valid()
      ensures Valid() && this.cfg == cfg && this.hosts == hosts
      ensures View() == Control(0, false, 0, hosts.history)
    {
      this.cfg, this.hosts := cfg, hosts;
      consecutiveFails, primaryDown, attempts := 0, false, 0;
    }

    /** One step against `host`. */
    method RunStep(step: PromotionStep, host: string) returns (ok: bool)
      requires Valid()
      modifies hosts
      ensures Valid()
      ensures step.VerifyPrimaryDown? ==> ok == primaryDown && hosts.history == old(hosts.history)
      ensures !step.VerifyPrimaryDown? && host == "" ==> !ok && hosts.history == old(hosts.history)
      ensures !step.VerifyPrimaryDown? && host != "" ==>
        var t := Exec(On(host, Commands(step)), old(hosts.sites), hosts.oracle, old(hosts.issued));
        ok == t.ok && hosts.history == Add(old(hosts.history), t)
    {
      match step
      case VerifyPrimaryDown => ok := primaryDown;
      case Send(cmd) =>
        ExecOne(Issued(host, cmd), hosts.sites, hosts.oracle, hosts.issued);
        assert On(host, [cmd]) == [Issued(host, cmd)];
        ok := hosts.Ssh(host, cmd);
      case DisableReadOnly => ok := hosts.SshAll(host, READ_WRITE);
      case EnableReadOnly => ok := hosts.SshAll(host, READ_ONLY);
    }

    /** The step loop of Promote and of AdoptAsSecondary: under dry-run no step runs,
        otherwise the steps run in order and the first failure ends the script. */
    method RunSteps(steps: seq<PromotionStep>, host: string) returns (ok: bool)
      requires Valid() && Flatten(steps) != []
      requires forall i | 0 < i < |steps| :: !steps[i].VerifyPrimaryDown?
      modifies hosts
      ensures Valid()
      ensures cfg.dryRun ==> ok && hosts.history == old(hosts.history)
      ensures !cfg.dryRun && (host == "" || (steps[0].VerifyPrimaryDown? && !primaryDown)) ==>
                !ok && hosts.history == old(hosts.history)
      ensures !cfg.dryRun && host != "" && (steps[0].VerifyPrimaryDown? ==> primaryDown) ==>
        var t := Exec(On(host, Flatten(steps)), Now(old(hosts.history)), hosts.oracle, old(hosts.issued));
        ok == t.ok && hosts.history == Add(old(hosts.history), t)
    {
      ghost var goal := Exec(On(host, Flatten(steps)), Now(hosts.history), hosts.oracle, hosts.issued);
      ghost var end := Add(hosts.history, goal);
      assert steps[0..] == steps;
      for k := 0 to |steps|
        invariant Valid()
        invariant cfg.dryRun || host == "" || k == 0 ==> hosts.history == old(hosts.history)
        invariant !cfg.dryRun && k > 0 && steps[0].VerifyPrimaryDown? ==> primaryDown
        invariant !cfg.dryRun && host == "" ==> Flatten(steps[k..]) == Flatten(steps)
        invariant !cfg.dryRun && host != "" ==>
          Leads(hosts.history, host, Flatten(steps[k..]), hosts.oracle, goal.ok, end)
      {
        if cfg.dryRun {
          continue;
        }
        assert steps[k..][1..] == steps[k + 1..];
        if host != "" {
          assert steps[k].VerifyPrimaryDown? ==> Flatten(steps[k..]) == Flatten(steps[k + 1..]);
          BlockThenRest(hosts.history, host, Commands(steps[k]), Flatten(steps[k + 1..]), hosts.oracle, goal.ok, end);
        }
        ok := RunStep(steps[k], host);
        if !ok {
          return;
        }
      }
      assert steps[|steps|..] == [];
      AddNow(hosts.history, Nothing(true, hosts.sites));
      return true;
    }

    method Promote(name: string) returns (ok: bool)
      requires Valid()
      modifies hosts
      ensures Valid()
      ensures var t := Promotion(cfg, primaryDown, name, old(hosts.sites), hosts.oracle, old(hosts.issued));
              ok == t.ok && hosts.history == Add(old(hosts.history), t)
      ensures View() == Perform(cfg, old(View()), Operation.Promote(name), hosts.oracle)
    {
      AddNow(hosts.history, Nothing(false, hosts.sites));
      var found := FindSecondary(cfg.secondaries, name);
      if found.None? {
        return false;
      }
      if !cfg.dryRun && !cfg.failoverEnabled {
        return false;
      }
      FlattenScripts("");
      ok := RunSteps(PROMOTION_STEPS, found.value.sshHost);
    }

    method AdoptAsSecondary(host: string) returns (ok: bool)
      requires Valid()
      modifies hosts
      ensures Valid()
      ensures var t := Adoption(cfg, host, old(hosts.sites), hosts.oracle, old(hosts.issued));
              ok == t.ok && hosts.history == Add(old(hosts.history), t)
      ensures View() == Perform(cfg, old(View()), Operation.Adopt(host), hosts.oracle)
    {
      AddNow(hosts.history, Nothing(false, hosts.sites));
      if !cfg.dryRun && !cfg.failoverEnabled {
        return false;
      }
      var source := cfg.secondaries[0].pgHost;
      FlattenScripts(source);
      ok := RunSteps(AdoptionSteps(source), host);
    }

    /** One tick: polls every URL and reacts. */
    method Check(polls: seq<bool>)
      requires Valid() && |polls| == cfg.urls
      modifies this, hosts
      ensures Valid() && View() == Perform(cfg, old(View()), Operation.Check(polls), hosts.oracle)
      ensures consecutiveFails == if |Unanswered(polls)| >= cfg.quorum then old(consecutiveFails) + 1 else 0
      ensures primaryDown <==>
                |Unanswered(polls)| >= cfg.quorum && (old(primaryDown) || old(consecutiveFails) >= 2)
    {
      FailsCounts(polls);
      var fails := 0;
      for i := 0 to |polls|
        invariant fails == Fails(polls[..i])
        invariant Valid() && View() == old(View())
      {
        assert polls[..i + 1][..i] == polls[..i];
        if !polls[i] {
          fails := fails + 1;
        }
      }
      assert polls[..|polls|] == polls;
      if fails >= cfg.quorum {
        consecutiveFails := consecutiveFails + 1;
        var down := consecutiveFails;
        if down >= 3 {
          primaryDown := true;
          if cfg.autoFailover {
            attempts := attempts + 1;
            var _ := Promote(cfg.secondaries[0].name);
          }
        }
      } else {
        consecutiveFails := 0;
        primaryDown := false;
      }
    }

    /** The ticker loop, for the ticks that come before the context ends. */
    method Run(ticks: seq<seq<bool>>)
      requires Valid() && forall polls | polls in ticks :: |polls| == cfg.urls
      requires View() == Fresh(hosts.sites)
      modifies this, hosts
      ensures Valid()
      ensures AllWellFormed(cfg, Checks(ticks))
      ensures View() == RunOps(cfg, old(hosts.sites), Checks(ticks), hosts.oracle)
    {
      ghost var w := hosts.sites;
      for i := 0 to |ticks|
        invariant Valid() && AllWellFormed(cfg, Checks(ticks[..i]))
        invariant View() == RunOps(cfg, w, Checks(ticks[..i]), hosts.oracle)
      {
        assert ticks[i] in ticks;
        assert Checks(ticks[..i + 1])[..i] == Checks(ticks[..i]);
        Check(ticks[i]);
      }
      assert ticks[..|ticks|] == ticks;
    }
  }

  function Checks(ticks: seq<seq<bool>>): (ops: seq<Operation>)
    ensures |ops| == |ticks| && forall i | 0 <= i < |ops| :: ops[i] == Check(ticks[i])
  {
    seq(|ticks|, i requires 0 <= i < |ticks| => Check(ticks[i]))
  }

  /** Recording `t` after `g` ends, well or not, in `end`. */
  predicate Ends(g: History, t: Trace, ok: bool, end: History)
    requires |t.worlds| >= 1
  {
    t.ok == ok && Add(g, t) == end
  }

  /** Running the commands from `g` on ends, well or not, in `end`. */
  ghost predicate Leads(g: History, host: string, cmds: seq<Command>, oracle: nat -> Outcome, ok: bool, end: History)
    requires Proper(g)
  {
    Ends(g, Exec(On(host, cmds), Now(g), oracle, |g.log|), ok, end)
  }

  /** What remains to be done once a block of commands has run. */
  lemma BlockThenRest(g: History, host: string, block: seq<Command>, rest: seq<Command>, oracle: nat -> Outcome,
                      ok: bool, end: History)
    requires Proper(g) && Leads(g, host, block + rest, oracle, ok, end)
    ensures var u := Exec(On(host, block), Now(g), oracle, |g.log|);
            && Proper(Add(g, u))
            && (u.ok ==> Leads(Add(g, u), host, rest, oracle, ok, end))
            && (!u.ok ==> !ok && Add(g, u) == end)
  {
    var n := |g.log|;
    var u := Exec(On(host, block), Now(g), oracle, n);
    var t := Exec(On(host, rest), Last(u), oracle, n + |block|);
    OnConcat(host, block, rest);
    ExecConcat(On(host, block), On(host, rest), Now(g), oracle, n);
    EndsAfter(g, u, t, ok, end);
    ExecLog(On(host, block), Now(g), oracle, n);
    assert u.ok ==> |Add(g, u).log| == n + |block|;
  }

  lemma EndsAfter(g: History, u: Trace, t: Trace, ok: bool, end: History)
    requires Proper(g) && |u.worlds| == |u.log| + 1 && u.worlds[0] == Now(g) && |t.worlds| >= 1
    requires Ends(g, Continued(u, t), ok, end)
    ensures Proper(Add(g, u)) && Now(Add(g, u)) == Last(u)
    ensures if u.ok then Ends(Add(g, u), t, ok, end) else !ok && Add(g, u) == end
  {
    AddNow(g, u);
    AddThen(g, u, t);
  }
}
