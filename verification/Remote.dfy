/** Remote commands as the failover scripts see them: what a GitLab site is, what a
    command does to it, and what a script that stops at its first failure can leave
    behind (internal/failover/failover.go, internal/readonly/readonly.go). */
module Remote {
  import opened Text

  /** `follows` is the database host a standby replicates from, as far as is known. */
  datatype Site = Site(
    running: bool,
    standby: bool,
    follows: Option<string>,
    registryReadOnly: bool,
    sidekiqPaused: bool)

  predicate ReadOnlyStandby(s: Site) { s.standby && s.registryReadOnly && s.sidekiqPaused }

  predicate WritablePrimary(s: Site) { !s.standby && !s.registryReadOnly && !s.sidekiqPaused }

  /** GitLab runs here only as a read-only standby or as a writable primary. */
  predicate Unmixed(s: Site) { s.running ==> ReadOnlyStandby(s) || WritablePrimary(s) }

  /** Unmixed: while it runs, the three marks of a standby go together. */
  lemma UnmixedIff(s: Site)
    ensures Unmixed(s) <==> (s.running ==> s.standby == s.registryReadOnly == s.sidekiqPaused)
  {}

  predicate RunningWritable(s: Site) { s.running && WritablePrimary(s) }

  /** RestoreStorages and ClearStorages end in `|| true`: their success proves nothing,
      and no field of Site depends on them. CompareKeys only reads. */
  datatype Command =
    | StopGitLab | StartGitLab
    | PromotePostgres | BaseBackup(source: string)
    | RegistryWritable | RegistryReadOnly
    | SidekiqResume | SidekiqPause
    | RestoreStorages | ClearStorages
    | CompareKeys

  function Effect(cmd: Command, s: Site): Site {
    match cmd
    case StopGitLab => s.(running := false)
    case StartGitLab => s.(running := true)
    case PromotePostgres => s.(standby := false, follows := None)
    case BaseBackup(source) => s.(standby := true, follows := Some(source))
    case RegistryWritable => s.(registryReadOnly := false)
    case RegistryReadOnly => s.(registryReadOnly := true)
    case SidekiqResume => s.(sidekiqPaused := false)
    case SidekiqPause => s.(sidekiqPaused := true)
    case _ => s
  }

  /** Each part of a site answers to its own commands alone, and to those whatever the rest. */
  lemma EffectsApart(cmd: Command, s: Site)
    ensures Effect(cmd, s).running == if cmd.StartGitLab? then true else if cmd.StopGitLab? then false else s.running
    ensures Effect(cmd, s).standby == if cmd.BaseBackup? then true else if cmd.PromotePostgres? then false else s.standby
    ensures Effect(cmd, s).registryReadOnly ==
            if cmd.RegistryReadOnly? then true else if cmd.RegistryWritable? then false else s.registryReadOnly
    ensures Effect(cmd, s).sidekiqPaused ==
            if cmd.SidekiqPause? then true else if cmd.SidekiqResume? then false else s.sidekiqPaused
    ensures Effect(cmd, s).follows ==
            match cmd { case BaseBackup(source) => Some(source) case PromotePostgres => None case _ => s.follows }
  {}

  /** A command that succeeds has taken effect; one that fails has if `applied`. */
  datatype Outcome = Outcome(ok: bool, applied: bool)

  /** The sites by ssh host. */
  type World = map<string, Site>

  datatype Issued = Issued(host: string, cmd: Command)

  function After(w: World, i: Issued, o: Outcome): (w': World)
    ensures w'.Keys == w.Keys
  {
    if i.host in w && (o.ok || o.applied) then w[i.host := Effect(i.cmd, w[i.host])] else w
  }

  /** What a script did: whether it finished, the commands it issued, and the world
      before the first and after each of them. */
  datatype Trace = Trace(ok: bool, log: seq<Issued>, worlds: seq<World>)

  function Last(t: Trace): World
    requires t.worlds != []
  {
    t.worlds[|t.worlds| - 1]
  }

  /** Nothing issued. */
  function Nothing(ok: bool, w: World): Trace { Trace(ok, [], [w]) }

  /** One command issued. */
  function Step(i: Issued, w: World, o: Outcome): Trace { Trace(o.ok, [i], [w, After(w, i, o)]) }

  /** One successful command issued in `w`, then the rest. */
  function Cons(i: Issued, w: World, rest: Trace): Trace {
    Trace(rest.ok, [i] + rest.log, [w] + rest.worlds)
  }

  /** A script run against an oracle, of which it consumes one answer per command from
      the n-th on; it stops at the first failure. */
  function Exec(script: seq<Issued>, w: World, oracle: nat -> Outcome, n: nat): (t: Trace)
    ensures |t.worlds| == |t.log| + 1 && t.worlds[0] == w
  {
    if script == [] then Nothing(true, w)
    else
      var o := oracle(n);
      if !o.ok then Step(script[0], w, o)
      else Cons(script[0], w, Exec(script[1..], After(w, script[0], o), oracle, n + 1))
  }

  /** `u` run right after `t` finished. */
  function Then(t: Trace, u: Trace): Trace
    requires |u.worlds| >= 1
  {
    Trace(u.ok, t.log + u.log, t.worlds + u.worlds[1..])
  }

  /** Everything that ever happened: the commands issued so far and the worlds passed. */
  datatype History = History(log: seq<Issued>, worlds: seq<World>)

  predicate Proper(h: History) { |h.worlds| == |h.log| + 1 }

  function Now(h: History): World
    requires Proper(h)
  {
    h.worlds[|h.log|]
  }

  function Add(h: History, t: Trace): History
    requires |t.worlds| >= 1
  {
    History(h.log + t.log, h.worlds + t.worlds[1..])
  }

  lemma AddThen(h: History, t: Trace, u: Trace)
    requires |t.worlds| >= 1 && |u.worlds| >= 1
    ensures Add(Add(h, t), u) == Add(h, Then(t, u))
  {
    assert (h.log + t.log) + u.log == h.log + (t.log + u.log);
    assert h.worlds + t.worlds[1..] + u.worlds[1..] == h.worlds + (t.worlds + u.worlds[1..])[1..];
  }

  lemma AddNow(h: History, t: Trace)
    requires Proper(h) && |t.worlds| == |t.log| + 1 && t.worlds[0] == Now(h)
    ensures Proper(Add(h, t)) && Now(Add(h, t)) == Last(t)
    ensures t.log == [] ==> Add(h, t) == h
  {
    if t.log == [] {
      assert h.log + t.log == h.log;
      assert h.worlds + t.worlds[1..] == h.worlds;
    }
  }

  lemma ExecOne(i: Issued, w: World, oracle: nat -> Outcome, n: nat)
    ensures Exec([i], w, oracle, n) == Step(i, w, oracle(n))
  {
    var w' := After(w, i, oracle(n));
    assert [i][1..] == [];
    assert Cons(i, w, Nothing(true, w')) == Trace(true, [i], [w, w']);
  }

  lemma ConsThen(i: Issued, w: World, t: Trace, u: Trace)
    requires |t.worlds| >= 1 && |u.worlds| >= 1
    ensures Cons(i, w, Then(t, u)) == Then(Cons(i, w, t), u)
    ensures Last(Cons(i, w, t)) == Last(t)
  {
    assert [i] + (t.log + u.log) == [i] + t.log + u.log;
    assert [w] + (t.worlds + u.worlds[1..]) == [w] + t.worlds + u.worlds[1..];
  }

  lemma NothingThen(u: Trace)
    requires |u.worlds| >= 1
    ensures Then(Nothing(true, u.worlds[0]), u) == u
  {
    assert [] + u.log == u.log;
    assert [u.worlds[0]] + u.worlds[1..] == u.worlds;
  }

  /** `u` run after `t` if `t` finished. */
  function Continued(t: Trace, u: Trace): Trace
    requires |u.worlds| >= 1
  {
    if t.ok then Then(t, u) else t
  }

  lemma {:induction false} ExecConcat(a: seq<Issued>, b: seq<Issued>, w: World, oracle: nat -> Outcome, n: nat)
    ensures var t := Exec(a, w, oracle, n);
            Exec(a + b, w, oracle, n) == Continued(t, Exec(b, Last(t), oracle, n + |a|))
  {
    if a == [] {
      assert a + b == b;
      NothingThen(Exec(b, w, oracle, n));
    } else {
      ConcatTail(a, b);
      if oracle(n).ok {
        var w' := After(w, a[0], oracle(n));
        ExecConcat(a[1..], b, w', oracle, n + 1);
        var t := Exec(a[1..], w', oracle, n + 1);
        ConsThen(a[0], w, t, Exec(b, Last(t), oracle, n + |a|));
      }
    }
  }

  lemma ExecSnoc(script: seq<Issued>, i: Issued, w: World, oracle: nat -> Outcome, n: nat)
    requires Exec(script, w, oracle, n).ok
    ensures var t := Exec(script, w, oracle, n);
            Exec(script + [i], w, oracle, n) == Then(t, Step(i, Last(t), oracle(n + |script|)))
  {
    ExecConcat(script, [i], w, oracle, n);
    ExecOne(i, Last(Exec(script, w, oracle, n)), oracle, n + |script|);
  }

  lemma ConcatTail<T>(a: seq<T>, b: seq<T>)
    requires a != []
    ensures (a + b)[1..] == a[1..] + b && (a + b)[0] == a[0] && a + b != []
  {}

  /** The log is a prefix of the script, complete exactly when every answer was yes. */
  lemma {:induction false} ExecLog(script: seq<Issued>, w: World, oracle: nat -> Outcome, n: nat)
    ensures var t := Exec(script, w, oracle, n);
            && t.log <= script
            && (t.ok <==> forall i | n <= i < n + |script| :: oracle(i).ok)
            && (t.ok ==> t.log == script)
            && (!t.ok ==> t.log != [] && !oracle(n + |t.log| - 1).ok
                          && forall i | n <= i < n + |t.log| - 1 :: oracle(i).ok)
  {
    if script != [] && oracle(n).ok {
      ExecLog(script[1..], After(w, script[0], oracle(n)), oracle, n + 1);
      assert script == [script[0]] + script[1..];
    }
  }

  /** A script cut into a finished part, the block run next, and what follows. */
  lemma ExecBlock(done: seq<Issued>, block: seq<Issued>, rest: seq<Issued>, w: World, oracle: nat -> Outcome, n: nat)
    requires Exec(done, w, oracle, n).ok
    ensures var t := Exec(done, w, oracle, n);
            var u := Exec(block, Last(t), oracle, n + |done|);
            && t.log == done
            && (u.ok ==> Exec(done + block, w, oracle, n) == Then(t, u))
            && (!u.ok ==> Exec(done + block + rest, w, oracle, n) == Then(t, u))
  {
    ExecLog(done, w, oracle, n);
    ExecConcat(done, block, w, oracle, n);
    ExecConcat(done + block, rest, w, oracle, n);
  }

  /** ExecBlock as the history records it. */
  lemma BlockNext(h: History, done: seq<Issued>, block: seq<Issued>, rest: seq<Issued>, oracle: nat -> Outcome, n: nat)
    requires Proper(h) && Exec(done, Now(h), oracle, n).ok
    ensures var t := Exec(done, Now(h), oracle, n);
            var g := Add(h, t);
            && Proper(g) && Now(g) == Last(t) && t.log == done
            && var u := Exec(block, Now(g), oracle, n + |done|);
               && (u.ok ==> Exec(done + block, Now(h), oracle, n).ok
                            && Add(g, u) == Add(h, Exec(done + block, Now(h), oracle, n)))
               && (!u.ok ==> !Exec(done + block + rest, Now(h), oracle, n).ok
                             && Add(g, u) == Add(h, Exec(done + block + rest, Now(h), oracle, n)))
  {
    ExecBlock(done, block, rest, Now(h), oracle, n);
    var t := Exec(done, Now(h), oracle, n);
    AddNow(h, t);
    AddThen(h, t, Exec(block, Last(t), oracle, n + |done|));
  }

  /** From `h`, the first k commands of the script have succeeded and led to `g`. */
  ghost predicate At(h: History, g: History, script: seq<Issued>, k: nat, oracle: nat -> Outcome)
    requires Proper(h) && k <= |script|
  {
    var t := Exec(script[..k], Now(h), oracle, |h.log|);
    t.ok && g == Add(h, t) && Proper(g) && |g.log| == |h.log| + k
  }

  /** One more round of a command loop. */
  lemma RoundNext(h: History, g: History, script: seq<Issued>, k: nat, oracle: nat -> Outcome)
    requires Proper(h) && k < |script| && At(h, g, script, k, oracle)
    ensures var u := Step(script[k], Now(g), oracle(|g.log|));
            var v := Exec(script, Now(h), oracle, |h.log|);
            && (u.ok ==> At(h, Add(g, u), script, k + 1, oracle))
            && (!u.ok ==> !v.ok && Add(g, u) == Add(h, v))
  {
    SplitAt(script, k);
    OneMore(h, g, script[..k], script[k], script[k + 1..], oracle);
  }

  lemma SplitAt<T>(s: seq<T>, k: nat)
    requires k < |s|
    ensures s[..k + 1] == s[..k] + [s[k]]
    ensures s == s[..k] + [s[k]] + s[k + 1..]
  {}

  lemma OneMore(h: History, g: History, done: seq<Issued>, i: Issued, rest: seq<Issued>, oracle: nat -> Outcome)
    requires Proper(h)
    requires var t := Exec(done, Now(h), oracle, |h.log|);
             t.ok && g == Add(h, t) && Proper(g) && |g.log| == |h.log| + |done|
    ensures var u := Step(i, Now(g), oracle(|g.log|));
            var t, v := Exec(done + [i], Now(h), oracle, |h.log|), Exec(done + [i] + rest, Now(h), oracle, |h.log|);
            && (u.ok ==> t.ok && Add(g, u) == Add(h, t) && Proper(Add(g, u)) && |Add(g, u).log| == |g.log| + 1)
            && (!u.ok ==> !v.ok && Add(g, u) == Add(h, v))
  {
    BlockNext(h, done, [i], rest, oracle, |h.log|);
    ExecOne(i, Now(g), oracle, |g.log|);
  }

  lemma RoundsBegin(h: History, script: seq<Issued>, oracle: nat -> Outcome)
    requires Proper(h)
    ensures At(h, h, script, 0, oracle)
  {
    AddNow(h, Nothing(true, Now(h)));
  }

  lemma RoundsEnd(h: History, g: History, script: seq<Issued>, oracle: nat -> Outcome)
    requires Proper(h) && At(h, g, script, |script|, oracle)
    ensures var t := Exec(script, Now(h), oracle, |h.log|);
            t.ok && g == Add(h, t)
  {
    assert script[..|script|] == script;
  }

  /** The commands `cmds` issued on one host. */
  function On(host: string, cmds: seq<Command>): (script: seq<Issued>)
    ensures |script| == |cmds|
    ensures forall i | 0 <= i < |cmds| :: script[i] == Issued(host, cmds[i])
  {
    seq(|cmds|, i requires 0 <= i < |cmds| => Issued(host, cmds[i]))
  }

  lemma OnConcat(host: string, a: seq<Command>, b: seq<Command>)
    ensures On(host, a + b) == On(host, a) + On(host, b)
  {}

  /** The combined effect of commands that all succeed. */
  function Effects(cmds: seq<Command>, s: Site): Site {
    if cmds == [] then s else Effects(cmds[1..], Effect(cmds[0], s))
  }

  lemma {:induction false} EffectsConcat(a: seq<Command>, b: seq<Command>, s: Site)
    ensures Effects(a + b, s) == Effects(b, Effects(a, s))
  {
    if a == [] {
      assert a + b == b;
    } else {
      assert (a + b)[1..] == a[1..] + b;
      EffectsConcat(a[1..], b, Effect(a[0], s));
    }
  }

  /** A script on one host leaves every other host alone and adds or removes none; if
      it finishes, its host has taken all its effects. */
  lemma {:induction false} ExecOnHost(host: string, cmds: seq<Command>, w: World, oracle: nat -> Outcome, n: nat)
    ensures var t := Exec(On(host, cmds), w, oracle, n);
            && |t.worlds| == |t.log| + 1
            && (forall i | 0 <= i < |t.worlds| :: t.worlds[i].Keys == w.Keys)
            && (forall i, h | 0 <= i < |t.worlds| && h in w && h != host :: t.worlds[i][h] == w[h])
            && (t.ok && host in w ==> Last(t)[host] == Effects(cmds, w[host]))
  {
    if cmds != [] {
      assert On(host, cmds)[1..] == On(host, cmds[1..]);
      ExecOnHost(host, cmds[1..], After(w, Issued(host, cmds[0]), oracle(n)), oracle, n + 1);
    }
  }

  predicate Stopped(w: World, host: string) { host in w && !w[host].running }

  /** As long as nothing starts GitLab, a stopped site stays stopped. */
  lemma {:induction false} StaysStopped(host: string, cmds: seq<Command>, w: World, oracle: nat -> Outcome, n: nat)
    requires StartGitLab !in cmds
    requires Stopped(w, host)
    ensures var t := Exec(On(host, cmds), w, oracle, n);
            && |t.worlds| == |t.log| + 1
            && forall i | 0 <= i < |t.worlds| :: Stopped(t.worlds[i], host)
  {
    if cmds != [] {
      assert cmds[0] in cmds;
      assert forall c | c in cmds[1..] :: c in cmds;
      assert On(host, cmds)[1..] == On(host, cmds[1..]);
      StaysStopped(host, cmds[1..], After(w, Issued(host, cmds[0]), oracle(n)), oracle, n + 1);
    }
  }

  const READ_ONLY: seq<Command> := [RegistryReadOnly, SidekiqPause, ClearStorages]
  const READ_WRITE: seq<Command> := [RegistryWritable, SidekiqResume, RestoreStorages]

  /** The hosts reachable over ssh. */
  class Hosts {
    const oracle: nat -> Outcome
    var sites: World
    var issued: nat
    ghost var history: History

    ghost predicate Valid()
      reads this
    {
      Proper(history) && |history.log| == issued && Now(history) == sites
    }

    constructor (oracle: nat -> Outcome, sites: World)
      ensures Valid() && this.oracle == oracle && history == History([], [sites])
    {
      this.oracle, this.sites, issued, history := oracle, sites, 0, History([], [sites]);
    }

    /** sshSecondary and runSSH: an empty host is refused before anything is sent. */
    method Ssh(host: string, cmd: Command) returns (ok: bool)
      requires Valid()
      modifies this
      ensures Valid()
      ensures host == "" ==> !ok && history == old(history)
      ensures host != "" ==>
        var t := Step(Issued(host, cmd), old(sites), oracle(old(issued)));
        ok == t.ok && history == Add(old(history), t)
    {
      if host == "" {
        return false;
      }
      var i := Issued(host, cmd);
      var o := oracle(issued);
      ghost var t := Step(i, sites, o);
      AddNow(history, t);
      history := Add(history, t);
      sites := After(sites, i, o);
      issued := issued + 1;
      return o.ok;
    }

    /** The command loops of EnableWithConfig and DisableWithConfig. */
    method SshAll(host: string, cmds: seq<Command>) returns (ok: bool)
      requires Valid() && cmds != []
      modifies this
      ensures Valid()
      ensures host == "" ==> !ok && history == old(history)
      ensures host != "" ==>
        var t := Exec(On(host, cmds), old(sites), oracle, old(issued));
        ok == t.ok && history == Add(old(history), t)
    {
      if host == "" {
        ok := Ssh(host, cmds[0]);
        return;
      }
      ghost var h, script := history, On(host, cmds);
      RoundsBegin(h, script, oracle);
      for k := 0 to |cmds|
        invariant Valid() && At(h, history, script, k, oracle)
      {
        RoundNext(h, history, script, k, oracle);
        ok := Ssh(host, cmds[k]);
        if !ok {
          return;
        }
      }
      RoundsEnd(h, history, script, oracle);
      return true;
    }
  }
}
