# gitlab-geo-sync: a verified model of its decision cores

gitlab-geo-sync keeps a warm GitLab secondary in step with a primary: webhooks and
periodic sweeps fetch repositories, reconcilers compare databases and registries, and a
controller watches the primary's health and can promote a secondary. Most of the program
drives ssh, git and PostgreSQL; what is modelled here is what it decides by itself. Every
answer from the outside (an ssh command, a poll, a git fetch, a query, an environment
variable, the scheduler's choice) is a parameter over which the theorems quantify.

| file | what it models |
|---|---|
| `Webhook.dfy` | every interleaving of webhook goroutines: the 8-slot semaphore and the debounce protocol of `Trigger` |
| `Receiver.dfy` | the same as an object updated in place, each method one atomic section |
| `Remote.dfy` | sites, remote commands with partial effect, scripts that stop at the first failure |
| `Failover.dfy` | the health automaton, promotion, role swap, and the controller object |
| `Dsn.dfy` | the connection-string printer against libpq's keyword/value grammar (section 34.1.1.1 of the PostgreSQL 16 documentation) |
| `EnvExpand.dfy`, `ConfigTree.dfy` | `${VAR}` expansion, and its walk over a configuration in place |
| `GitFetch.dfy`, `ProjectPath.dfy` | the bounded-parallel sweep; the path grammar and where an accepted path leads |
| `AutoConf.dfy`, `ConnInfo.dfy` | the `postgresql.auto.conf` editor, and what the server reads from the line it edits |
| `Retry.dfy`, `PgPools.dfy`, `Registry.dfy` | backoff on int64, pool acquisition with roll-back, set comparison |
| `Text.dfy` | splitting, joining and searching strings |

Protocols are state machines: `Enabled`, `Next` and `Exec` give the runs, an invariant is
carried over every run, and a class whose methods are proved to be the like-named events
shows the program's own updates. Scripts are a function of an oracle: a command that
succeeds has taken effect, a command that fails may or may not have. The third command of
both read-only lists ends in `|| true`, so no field of a site depends on it.

## What the proofs found

Where the code and its comments differ, the model follows the code.

- Debouncing. The comment on `TriggerManager` says it keeps fetches of one repository from
  running concurrently. It does not: two calls suffice, because cancelling a call that is
  already fetching does not wait for it (`Webhook.TwoCallRun`). A run is free of concurrent
  fetches of a project exactly when no timer fires while another call of it is fetching
  (`Webhook.OneFetchIff`).
- `Trigger`'s cleanup deletes the entry of its project whoever owns it
  (internal/webhook/webhook.go:211-215). With three overlapping calls even two calls that
  were never cancelled fetch at once (`Webhook.ThreeCallRun`). That takes a call that
  registers while the entry of another live call has been erased
  (`Webhook.TwoFetchesCause`, `Webhook.AtMostOneIff`); as long as nothing has been erased
  all fetching calls but one are cancelled (`Webhook.FetchesCancelled`). What always holds
  is a balance (`Webhook.DebounceBalance`). No event is lost either way, as long as no
  parent context of a call of the project ends during its debounce
  (`Webhook.NoEventLost`, `Webhook.ParentEndsRun`).
- Promotion refuses without a declared outage, and only a controller that has itself seen
  three quorums in a row declares one (`Failover.NeverDeclaredNeverActs`), so the
  one-shot controller of `geoctl failover` (cmd/geoctl/main.go) can only rehearse; the
  `--force` named in the error does not exist in the command.
- Promotion is not latched: each further failing tick repeats the whole script, its stop
  included, on the site already promoted (`Failover.PromotionsRepeat`).
- The report of `Promote` and the state of the site agree exactly as follows
  (`Failover.PromotionReportIff`). A rehearsal reports success whatever the site is. A
  refusal (failover disabled, no outage declared, no ssh host) reports an error even if the
  site has been promoted; it takes one check that finds the old primary answering to get
  there (`Failover.PromotedThenRefused`). The script itself never reports success wrongly,
  and an error although the site runs as a writable primary in exactly three cases
  (`Failover.ReportIff`): its last step, comparing keys with the primary that was declared
  down, alone fails; the start fails and takes effect all the same; or the stop fails
  without effect on a site promoted before.
- A negative quorum is accepted, and a primary that answers every poll is then declared
  down (`Failover.HealthyStaysUpIff`).
- `Promote`'s comment lists the restart before the end of read-only mode; the code does it
  the other way round, and has to (`Failover.DocumentedOrderMixes`).
- A role swap leaves exactly one writable primary if and only if the two hosts differ;
  nothing checks that they do. The old primary becomes a standby of the first secondary,
  so it follows the promoted one if and only if that has the first's database host
  (`Failover.RoleSwap`).
- The quoting rule of the connection string looks for blanks, quotes and backslashes only.
  A value with a tab or line break and none of those is read back differently
  (`Dsn.RoundTripIff`), although no two configurations are ever printed alike
  (`Dsn.DSNDetermines`). Its comment says the empty value is returned as it is; the code
  prints `''`.
- The environment walk panics when it assigns a string that lies in a map entry with no
  pointer or slice on the way, as in the `dns_config` field (`ConfigTree.PanicsIff`).
- The `postgresql.auto.conf` editor "appends/updates", but never updates
  (`AutoConf.NeverUpdated`). Whether the server then reads the requested name is decided,
  for every file and every name, by `AutoConf.NameSetIff`:
  - an appended line gives it if and only if it needs no quoting;
  - a line in which "application_name=" occurs at all, be it in
    `fallback_application_name` (`AutoConf.FallbackSuppresses`), gives what it gave before,
    and so does a line whose quotes are not open before its last quote;
  - of the others, one whose last value has ended there gives it if and only if it needs no
    quoting, whatever name it gave before (`AutoConf.ReceptiveNamesIff`);
  - one whose last value has not ended swallows the insertion (`AutoConf.OpenNamesIff`). A
    name that needs no quoting is then read if and only if the line gave it already, before
    an open value that is not quoted and not a name itself (`AutoConf.PlainSurvivesIff`).

  A value without quotes is rejected by the server afterwards (`AutoConf.EditedConnInfo`)
  and has an unbalanced quote (`AutoConf.InjectBalancedIff`). What follows the last quote
  is dropped.
- A sweep reports OK with projects skipped if and only if no fetch failed and some loop head
  found the context cancelled before the last launch (`GitFetch.FinalAccount`,
  `GitFetch.CancelledSweepReportsOK`).
- The webhook's fetch always uses the legacy path: it is the directory the sweep uses if and
  only if the project is in legacy storage under that path, for routes that pass validation
  (`ProjectPath.SameDirectoryIff`). An accepted path may lead inside another project's
  repository directory (`ProjectPath.NestedExists`).
- `Retry` with no attempts returns success without a call; the first delay is not capped
  (`Retry.CapIff`), and under a cap above half of int64 a call with enough attempts makes a
  delay wrap to a negative one (`Retry.AttemptsClosedIff`, `Retry.BackoffClosedIff`).
- A registry that answers 401 on its catalog counts as in sync; 401 on a repository's tags
  counts as drift (`Registry.Reconcile`).

## Model

| member | source | states |
|---|---|---|
| `Webhook.DebounceBalance` | internal/webhook/webhook.go:202-225 | in every reachable state the uncancelled calls of a project inside Trigger plus the orphans that have left equal its entry plus the foreign erasures, so their number is at most entry plus erasures; without erasures the entry names exactly the one live call |
| `Webhook.AtMostOneIff` | internal/webhook/webhook.go:202-225 | over a whole run "at most one uncancelled call of the project" holds if and only if no call of it registers while the entry of a live uncancelled call is missing |
| `Webhook.AtMostOneStep` | internal/webhook/webhook.go:202-225 | the same for one event: the bound survives it exactly when it is not such a registration |
| `Webhook.UncancelledStep` | internal/webhook/webhook.go:202-225 | what each event adds to and removes from the set of uncancelled calls of a project |
| `Webhook.ThreeCallRun` | internal/webhook/webhook.go:211-225 | for every valid path a run of three overlapping calls in which two calls that were never cancelled fetch the same repository at once |
| `Webhook.NoErasureNoBlind` | internal/webhook/webhook.go:211-215 | a run without foreign erasures of a project has no blind registration of it |
| `Webhook.OneFetchIff` | internal/webhook/webhook.go:183-225 | over a whole run no two calls of a project ever fetch at once if and only if no timer fires for one while another is fetching |
| `Webhook.TwoCallRun` | internal/webhook/webhook.go:183-225 | for every valid path a run of two calls that fetch the same repository at once, the first one cancelled, although debouncing has worked throughout |
| `Webhook.TwoFetchesCause` | internal/webhook/webhook.go:202-225 | two calls of a project fetch at once only if one of them was cancelled or some call of it registered blindly |
| `Webhook.FetchesCancelled` | internal/webhook/webhook.go:202-225 | without foreign erasures every call fetching a project is cancelled except the one its entry names |
| `Webhook.CoalescingKeepsLast` | internal/webhook/webhook.go:202-225 | the call registered last for a project is never cancelled by the manager, registered no earlier than any other, and once out of the debounce has fetched unless its own parent ended |
| `Webhook.NoEventLost` | internal/webhook/webhook.go:126-225 | over the schedule: when all calls have returned, every accepted event of a project, unless a call of that project has a parent end during its debounce, is followed by its own registration and then by the start of a fetch of that very project by a call the manager never cancelled |
| `Webhook.RecordedReachable` | internal/webhook/webhook.go:202-225 | each call registers and starts fetching at most once, and its recorded times are the places of these events in the schedule |
| `Webhook.CallsAreAdmitted` | internal/webhook/webhook.go:112-147 | in every run there is one call for each accepted event, in order, and it is for the project that event names |
| `Webhook.ParentEndsRun` | internal/webhook/webhook.go:140-220 | the runs that condition excludes: a parent that ends before or during the debounce leaves an accepted event without any fetch |
| `Webhook.SlotsAndEntries` | internal/webhook/webhook.go:126-225 | in every reachable state occupied slots are the goroutines in flight and at most 8, every entry belongs to a call inside Trigger, entries do not exceed slots, every call's path is valid, and both are empty when all calls have returned |
| `Webhook.FetchesContained` | internal/webhook/webhook.go:118-160 | every fetch the receiver can start stays strictly below the repositories directory, and different projects are fetched into different directories |
| `Webhook.InvStep` | internal/webhook/webhook.go:126-225 | every atomic section keeps the joint invariant of server and manager |
| `Webhook.InvReachable` | internal/webhook/webhook.go:126-225 | the joint invariant holds after every schedule |
| `Webhook.RunsAreBounded` | internal/webhook/webhook.go:138-225 | a run of n admissions has at most 7 n events: the receiver does nothing of its own accord |
| `Webhook.Drains` | internal/webhook/webhook.go:138-225 | no deadlock: from every reachable state the calls in flight can all return |
| `Receiver.Receiver.constructor` | internal/webhook/webhook.go:43-60 | a new receiver is the initial state of the protocol |
| `Receiver.Receiver.HandleWebhook` | internal/webhook/webhook.go:91-163 | every status code with its exact condition; a call, for the project the request names, is admitted exactly when the request is admissible and one of 8 slots is free, otherwise the state is unchanged |
| `Receiver.Receiver.Register` | internal/webhook/webhook.go:203-209 | the first critical section is the Register event: the entry's owner is cancelled, the entry replaced |
| `Receiver.Receiver.ParentEnds` | internal/webhook/webhook.go:142-147 | the end of a parent context is the ParentEnds event |
| `Receiver.Receiver.Debounce` | internal/webhook/webhook.go:218-222 | the select is the TimerFires or the Abort event |
| `Receiver.Receiver.FetchReturns` | internal/webhook/webhook.go:224 | the return of the fetch is the FetchReturns event |
| `Receiver.Receiver.Cleanup` | internal/webhook/webhook.go:211-215 | the deferred section is the Cleanup event: the entry goes whoever owns it |
| `Receiver.Receiver.Release` | internal/webhook/webhook.go:139 | the deferred receive is the Release event |
| `Receiver.NewServer` | internal/webhook/webhook.go:43-60 | a server exists exactly for a non-empty secret, so no request without a token is ever admissible |
| `Remote.ExecLog` | internal/failover/failover.go:172-182 | for every oracle the commands issued are a prefix of the script, all of it exactly when every answer is yes, and otherwise end with the first refusal |
| `Remote.ExecConcat` | internal/failover/failover.go:172-182 | running two scripts in a row is running the first and, if it finishes, the second from where it ended |
| `Remote.ExecOnHost` | internal/failover/failover.go:252-261 | a script leaves every other host alone in every world it passes, and if it finishes its host has taken all its effects in order |
| `Remote.UnmixedIff` | internal/readonly/readonly.go:20-60 | unmixed means that, while GitLab runs, the marks of a standby go together |
| `Remote.EffectsApart` | internal/readonly/readonly.go:20-60 | each part of a site answers to its own commands alone |
| `Remote.StaysStopped` | internal/failover/failover.go:153-163 | however its commands end, a script that does not start GitLab never shows a stopped site running |
| `Remote.Hosts.Ssh` | internal/failover/failover.go:252-261 | one command: refused without a host, otherwise issued and recorded |
| `Remote.Hosts.SshAll` | internal/readonly/readonly.go:28-75 | the read-only loops do exactly what the script function says and stop at the first failure |
| `Failover.NeverMixed` | internal/failover/failover.go:92-238 | over every run of checks, promotions and adoptions, whichever steps fail with whatever partial effect, every world passed shows GitLab running only as read-only standby or as writable primary, if the first one does |
| `Failover.ScriptsKeepUnmixed` | internal/failover/failover.go:138-238 | the same for one attempt at either script |
| `Failover.PromotionLog` | internal/failover/failover.go:138-194 | for every oracle the promotion log, nested loops included, is a prefix of one fixed sequence of seven commands; success exactly when dry-run or all guards hold and all seven succeed; empty exactly when a guard stops it |
| `Failover.AdoptionLog` | internal/failover/failover.go:198-238 | the same for the role swap: six commands, no health guard |
| `Failover.FindSecondaryIs` | internal/failover/failover.go:263-270 | the name selects the first secondary that bears it, or none does |
| `Failover.PromoteShape` | internal/failover/failover.go:151-182 | if the stop fails nothing else happened; once it succeeded the site runs only as writable primary; a finished promotion leaves it so running |
| `Failover.AdoptShape` | internal/failover/failover.go:206-234 | the same for the role swap and the read-only standby |
| `Failover.StopPurifyStart` | internal/failover/failover.go:151-234 | the argument both scripts share, for any middle that purifies and does not start |
| `Failover.FailureAfterTheSwitch` | internal/failover/failover.go:164-182 | if the first six commands succeed the site runs as writable primary whatever the key comparison says, and the report is its answer alone |
| `Failover.ReportIff` | internal/failover/failover.go:151-193 | the script alone: success is never reported wrongly, and failure although the site runs as writable primary in exactly three cases: a stop that failed without effect on such a site, a start that failed and took effect, a failed key comparison alone |
| `Failover.PromotionReportIff` | internal/failover/failover.go:138-194 | the whole of Promote: report and running writable primary agree under dry-run if and only if the site is one anyway, when refused if and only if it is not, and otherwise except in the three cases of the script |
| `Failover.PromotedThenRefused` | internal/failover/failover.go:79-147 | from any state in which the next failing check promotes: one answering check later Promote is refused on the running writable primary, with every command having succeeded |
| `Failover.DocumentedOrderMixes` | internal/failover/failover.go:129-137 | in the order of the comment a run without any failure passes a world in which GitLab runs mixed |
| `Failover.AdoptionGuard` | internal/failover/failover.go:198-238 | once the stop of a role swap has succeeded the old primary never runs except as read-only standby |
| `Failover.RoleSwap` | internal/failover/failover.go:138-238 | after a successful promotion of any secondary and a successful adoption: the complete final state of both hosts; exactly one of the two is a running writable primary if and only if they are two hosts; the old primary follows the promoted one if and only if that has the first secondary's database host; all other hosts are untouched |
| `Failover.AdoptEffects` | internal/failover/failover.go:206-223 | what a finished role swap makes of any site |
| `Failover.PromoteEffects` | internal/failover/failover.go:151-170 | what a finished promotion makes of any site |
| `Failover.HistoryRefinement` | internal/failover/failover.go:79-110 | after any operations the counter is the length of the longest suffix of checks reaching quorum, down means at least three, and automatic attempts are the checks that completed three in a row |
| `Failover.FailsCounts` | internal/failover/failover.go:79-85 | the failure count is the number of URLs that did not answer |
| `Failover.StraightFailures` | internal/failover/failover.go:92-98 | n straight quorums mean max(0, n - 2) attempts |
| `Failover.CanDeclareDownIff` | internal/failover/failover.go:38-110 | some run declares the primary down if and only if the quorum does not exceed the number of URLs |
| `Failover.DownByConfiguration` | internal/failover/failover.go:37-58 | in terms of the configuration: without a failover section an outage can always be declared but never acted on unasked; with one exactly if its quorum is within its URLs plus the primary's |
| `Failover.ConfiguredRuns` | internal/failover/failover.go:37-110 | what New makes of the configuration, in every run: the URLs polled, an outage declared exactly after three checks in a row with at least the configured number unanswered, attempts exactly at such checks if automatic failover is configured and none otherwise, silence if either gate is closed, and with both open and every answer yes one whole script to the first secondary per attempt |
| `Failover.HealthyStaysUpIff` | internal/failover/failover.go:79-110 | a primary that answers every poll is never declared down if and only if the quorum is at least 1 |
| `Failover.NeverDeclaredNeverActs` | internal/failover/failover.go:138-250 | a controller whose checks never completed three quorums in a row issues no command and reports no promotion, however often it is asked |
| `Failover.GatedRunsAreSilent` | internal/failover/failover.go:144-201 | under dry-run or with failover disabled no command is ever issued, in any run |
| `Failover.PromotionsRepeat` | internal/failover/failover.go:92-98 | with every command succeeding the log is the whole promotion script once per attempt |
| `Failover.FlattenScripts` | internal/failover/failover.go:151-223 | the step lists with the read-only loops nested in them are the scripts the theorems speak of |
| `Failover.Controller.RunStep` | internal/failover/failover.go:178-250 | one step: the local test, one command, or a read-only loop |
| `Failover.Controller.RunSteps` | internal/failover/failover.go:172-234 | the step loop does exactly what its flattened script does and stops at the first failure |
| `Failover.Controller.Promote` | internal/failover/failover.go:138-194 | outcome, whole history and state equal the specification's promotion |
| `Failover.Controller.AdoptAsSecondary` | internal/failover/failover.go:198-238 | outcome, whole history and state equal the specification's adoption |
| `Failover.Controller.Check` | internal/failover/failover.go:79-110 | one tick changes counter, flag and history as the specification's check does; it counts exactly when at least the quorum of URLs did not answer |
| `Failover.Controller.Run` | internal/failover/failover.go:61-76 | a run of ticks is the specification's run, to which all theorems apply |
| `Dsn.RoundTripIff` | internal/config/config.go:490-530 | the printed pairs are read back by the libpq grammar as exactly those pairs, in order, if and only if every value is quoted or free of other white space |
| `Dsn.ReadPrintable` | internal/config/config.go:522-530 | a protected value is read back exactly, whatever pair follows |
| `Dsn.ReadUnprintable` | internal/config/config.go:522-530 | any other value is never read back as itself |
| `Dsn.DSN` | internal/config/config.go:463-465 | the control string parses to the configured pairs if and only if every printed field is protected, and libpq then reads host, port number, user, password and database as configured |
| `Dsn.ReplicationDSN` | internal/config/config.go:468-470 | the same for the replication string, with the replication user and password, the replication database and the application name |
| `Dsn.KeywordValues` | internal/config/config.go:473-511 | the value each required keyword is given, the last one winning; the port as a decimal number |
| `Dsn.ItoaIsDecimal` | internal/config/config.go:475 | the port is printed as the decimal digits of its number, behind a sign if it is negative |
| `Dsn.KeysInOrder` | internal/config/config.go:473-489 | the keywords in the order in which they are written |
| `Dsn.CertificateValues` | internal/config/config.go:481-489 | each certificate keyword is given its file exactly when one is configured |
| `Dsn.BuildDSN` | internal/config/config.go:472-504 | the builder writes the printed pairs and then the extra word |
| `Dsn.Render` | internal/config/config.go:490-498 | the builder loop prints the pairs one after the other, blank-separated |
| `Dsn.DSNDetermines` | internal/config/config.go:463-511 | equal control strings mean equal connections, field by field, for all configurations |
| `Dsn.ReplicationDSNDetermines` | internal/config/config.go:468-511 | the same for the replication string |
| `Dsn.PrintInjective` | internal/config/config.go:490-530 | distinct lists of pairs are printed differently, whatever the values |
| `Dsn.PairsDetermine` | internal/config/config.go:473-489 | the ordered pairs alone determine every field, although three of them are optional |
| `Dsn.ItoaInjective` | internal/config/config.go:475 | distinct ports print differently |
| `Dsn.ConfigPairsPrintable` | internal/config/config.go:473-511 | which fields must be protected for all pairs to be |
| `EnvExpand.PrintTokenize` | internal/config/config.go:247 | splitting a string into characters and leftmost placeholders and printing it back is the identity |
| `EnvExpand.TokenizeConcat` | internal/config/config.go:247 | text up to a dollar sign is tokenised independently of what follows |
| `EnvExpand.PlaceholderIsToken` | internal/config/config.go:247 | a placeholder is one token wherever it stands and changes no other |
| `EnvExpand.NameChars` | internal/config/config.go:247 | the characters of a name, one by one |
| `EnvExpand.ExpandFailsIff` | internal/config/config.go:318-332 | expansion fails if and only if some placeholder is unset or empty, and the error names exactly those |
| `EnvExpand.ExpandPlaceholder` | internal/config/config.go:319-332 | each placeholder is replaced once by its value taken literally, never scanned again, and the text around it expands as it would alone; the names reported are those of the parts, in order |
| `EnvExpand.FastPath` | internal/config/config.go:315-317 | the fast path agrees with the full scan |
| `EnvExpand.ReplaceAll` | internal/config/config.go:318-327 | the scan computes the token-wise substitution and the missing names in order |
| `EnvExpand.ExpandEnvString` | internal/config/config.go:314-333 | the method computes the specified expansion, fast path included |
| `ConfigTree.SweepStopsAtFirst` | internal/config/config.go:280-312 | there is a first leaf that cannot be rewritten, or none; every leaf before it holds its expansion, every other cell is unchanged, and that leaf decides how the walk ends |
| `ConfigTree.SweepConcat` | internal/config/config.go:292-309 | walking two stretches of leaves is walking the first and, if it completes, the second |
| `ConfigTree.PanicsIff` | internal/config/config.go:280-312 | when every string expands the walk over a value panics exactly when some map entry holds a string reached through fields and maps only |
| `ConfigTree.LockedIff` | internal/config/config.go:287-309 | exactly which shapes have a string that may not be assigned, from a settable and from an unsettable place |
| `ConfigTree.LeavesCount` | internal/config/config.go:280-312 | the walk visits every string of a configuration once |
| `ConfigTree.ResolveEnv` | internal/config/config.go:280-312 | the recursive walk in place equals the leaf-by-leaf walk |
| `ConfigTree.ResolveAll` | internal/config/config.go:292-309 | so do its loops over elements, fields and entries |
| `ConfigTree.ResolveEnvInStruct` | internal/config/config.go:276-333 | for every configuration: success exactly when every string expands and none lies bare in a map, then every string is its expansion; otherwise the walk ends at the first string that does not expand (an error naming what is missing) or may not be assigned (a panic), and exactly the strings before it have been rewritten |
| `GitFetch.EveryStepBalances` | internal/reconciler/gitfetch/reconciler.go:97-126 | in every schedule at every step: workers within min(max(1, maxParallel), n), launched projects a prefix each fetched once, repaired + failed + active = launched |
| `GitFetch.FinalAccount` | internal/reconciler/gitfetch/reconciler.go:109-149 | at the end repaired + failed + skipped = n; some are skipped if and only if the schedule has a loop head that finds the context cancelled before the last launch; OK exactly when no launched fetch failed, and an OK sweep fetched everything if and only if there is no such loop head |
| `GitFetch.OutcomesAreAnswers` | internal/reconciler/gitfetch/reconciler.go:232-265 | in every run each finished project counts as a success exactly if it has a path and, unless under dry-run, git succeeded |
| `GitFetch.VerdictIsAnswers` | internal/reconciler/gitfetch/reconciler.go:118-149 | the verdict in terms of the schedule: repaired is the number of projects with a path that git fetched, remaining the other launched ones, and OK means that there are none, that is, every launched row has a path and git never said no |
| `GitFetch.CutShortIff` | internal/reconciler/gitfetch/reconciler.go:109-126 | at every step: the loop has ended with projects left if and only if such a loop head occurred |
| `GitFetch.CancelledSweepReportsOK` | internal/reconciler/gitfetch/reconciler.go:110-149 | the run in which everything is skipped and the verdict is OK |
| `GitFetch.SweepsAreBounded` | internal/reconciler/gitfetch/reconciler.go:109-126 | every schedule of n projects ends after at most 3 n + 3 events |
| `GitFetch.AlwaysProgress` | internal/reconciler/gitfetch/reconciler.go:109-126 | until it has returned a sweep can go on without being cancelled |
| `GitFetch.LimitReached` | internal/reconciler/gitfetch/reconciler.go:107-124 | as many workers as the limit allows can be at work at once |
| `GitFetch.Start` | internal/reconciler/gitfetch/reconciler.go:84-103 | a sweep is started for a non-empty list, with exactly the clamped limit and the dry-run flag; otherwise the verdict is given at once |
| `GitFetch.Sweep.constructor` | internal/reconciler/gitfetch/reconciler.go:105-107 | a new sweep is the initial state |
| `GitFetch.Sweep.LoopHead` | internal/reconciler/gitfetch/reconciler.go:110-116 | the loop head is the Head event |
| `GitFetch.Sweep.Go` | internal/reconciler/gitfetch/reconciler.go:117 | launching a worker is the Spawn event |
| `GitFetch.Sweep.WorkerDone` | internal/reconciler/gitfetch/reconciler.go:118-123 | a worker's end is the Finish event: repaired grows exactly if there is a path and dry-run or git's yes, failed otherwise |
| `GitFetch.Sweep.ContextCancelled` | internal/reconciler/gitfetch/reconciler.go:113-114 | cancellation is the Cancel event |
| `GitFetch.Sweep.Wait` | internal/reconciler/gitfetch/reconciler.go:126-149 | joining gives the specified verdict |
| `ProjectPath.ValidateIff` | internal/projectpath/projectpath.go:16-51 | Validate accepts exactly the strings over the grammar's characters, listed one by one, whose segments are not empty, "." or ".."; its other tests reject nothing more |
| `ProjectPath.ComplaintIs` | internal/projectpath/projectpath.go:25-51 | which complaint a rejected path gets: the first that applies, and about the first bad segment |
| `ProjectPath.Containment` | internal/reconciler/gitfetch/reconciler.go:237-282 | an accepted path resolves to the base's own segments followed by the path's, and no prefix of the walk ever pops |
| `ProjectPath.PopUndoes` | internal/reconciler/gitfetch/reconciler.go:237 | a segment followed by ".." is as if neither had been written |
| `ProjectPath.CleanIdempotent` | internal/reconciler/gitfetch/reconciler.go:237 | the resolution used gives a normal path and leaves normal paths as they are |
| `ProjectPath.DistinctLocations` | internal/reconciler/gitfetch/reconciler.go:237-282 | distinct accepted paths have distinct repository directories |
| `ProjectPath.NestedIff` | internal/reconciler/gitfetch/reconciler.go:237 | one repository directory lies strictly inside another exactly when the inner path starts with the outer's directory name and a slash |
| `ProjectPath.NestedExists` | internal/projectpath/projectpath.go:25-51 | every accepted project has accepted paths that lead inside its repository |
| `ProjectPath.HashedStorageMissed` | internal/reconciler/gitfetch/reconciler.go:210-282 | the three segments of a hashed-storage directory, and that no accepted path ever leads there, for any digest |
| `ProjectPath.SameDirectoryIff` | internal/reconciler/gitfetch/reconciler.go:210-282 | the webhook fetches into the directory the sweep uses for a project whose route passes validation if and only if the project is in legacy storage under that path |
| `AutoConf.EditIdempotent` | internal/pgsetup/pgsetup.go:96-135 | once edited, a file is changed by no later edit, under any application name |
| `AutoConf.OneLineChanges` | internal/pgsetup/pgsetup.go:105-122 | for any application name: the output ends in a line break and all lines keep content and order except the first primary_conninfo line, or one is appended; one line stays one line unless the name breaks it |
| `AutoConf.AppendsLine` | internal/pgsetup/pgsetup.go:116-118 | a file without such a line gets exactly the one the program writes out |
| `AutoConf.LinesAfter` | internal/pgsetup/pgsetup.go:105-122 | the exact lines of the output for any application name, even one with line breaks |
| `AutoConf.NameSetIff` | internal/pgsetup/pgsetup.go:107-118 | for every file and every name, exactly when the server reads the requested name from the edited line: appended lines, lines that contain "application_name=" in whatever sense, lines whose quotes are not open before the last quote, receptive lines, and lines whose last value is open |
| `AutoConf.ReceptiveNamesIff` | internal/pgsetup/pgsetup.go:129-135 | a receptive line, whatever name it gave, comes to give exactly the names that need no quoting |
| `AutoConf.OpenNamesIff` | internal/pgsetup/pgsetup.go:129-135 | a line whose last value is open comes to give a name exactly when the name survives the swallowing |
| `AutoConf.PlainSurvivesIff` | internal/pgsetup/pgsetup.go:129-135 | a name that needs no quoting survives on a line whose last value is open exactly if the line gave it before that value, which is not quoted and not a name itself |
| `ConnInfo.GivenIff` | internal/pgsetup/pgsetup.go:134 | behind a text that does not give the keyword: exactly when the text is closed and the value needs no quoting |
| `ConnInfo.ExtendOpenReads` | internal/pgsetup/pgsetup.go:134 | the pairs read from any text that is not closed with a setting behind it |
| `ConnInfo.ClosedGivenIff` | internal/pgsetup/pgsetup.go:134 | behind a closed text, whatever it gave, a setting is read back exactly when it needs no quoting |
| `ConnInfo.OpenGivenIff` | internal/pgsetup/pgsetup.go:134 | behind a text that is not closed a value is read back exactly when it survives |
| `ConnInfo.SurvivesPlain` | internal/pgsetup/pgsetup.go:134 | survival in terms of the settled pairs and the open value, for values that need no quoting |
| `ConnInfo.ExtendClosed` | internal/pgsetup/pgsetup.go:134 | behind any other the setting is read by itself, after all that was read before |
| `ConnInfo.ExtendOpen` | internal/pgsetup/pgsetup.go:134 | behind a connection string whose last value has not ended, no application name as long as the written one is ever read |
| `AutoConf.EditedConnInfo` | internal/pgsetup/pgsetup.go:129-135 | the connection string the server reads from the edited line, for every line and every name; a value without quotes stays rejected |
| `AutoConf.InjectNamesIff` | internal/pgsetup/pgsetup.go:129-135 | an edited line that gave no name gives the requested one if and only if it is receptive and the name needs no quoting |
| `AutoConf.InjectAddsPair` | internal/pgsetup/pgsetup.go:129-135 | on a receptive line, whatever name it had, the server reads the old pairs and then the new one |
| `AutoConf.NewLineNamesIff` | internal/pgsetup/pgsetup.go:117 | the appended line gives the name if and only if it has no white space, quote or backslash |
| `AutoConf.EditedEffectiveIff` | internal/pgsetup/pgsetup.go:107-118 | the edited line is the one the server goes by exactly when no other primary_conninfo line follows |
| `AutoConf.NeverUpdated` | internal/pgsetup/pgsetup.go:109 | a name once given stays, whatever name is requested later, even one it begins with |
| `AutoConf.FallbackSuppresses` | internal/pgsetup/pgsetup.go:109 | a fallback name keeps the edit from setting any: the line stays and gives no name |
| `AutoConf.EditedLineNamed` | internal/pgsetup/pgsetup.go:107-118 | the edited or appended line starts with a line that names an application |
| `AutoConf.InjectKeeps` | internal/pgsetup/pgsetup.go:129-135 | the edited line keeps everything before its last quote and carries the name |
| `AutoConf.InjectBalancedIff` | internal/pgsetup/pgsetup.go:129-135 | for every line and name: the quotes of a line that has any stay balanced as those of the name are, and a line without any gains one |
| `AutoConf.AppendConnInfoAppname` | internal/pgsetup/pgsetup.go:96-124 | the line loop writes the specified edit; nothing is written for an empty name or an unreadable file |
| `Retry.Retry` | internal/reconciler/retry.go:14-41 | at most maxAttempts calls, each but the last failed and fully waited out, stops at the first success, returns the last error, and waits follow the backoff |
| `Retry.BackoffClosedIff` | internal/reconciler/retry.go:32-35 | the waits equal min(initial * 2^k, max) for all k if and only if initial is zero or max is at most half of int64 |
| `Retry.AttemptsClosedIff` | internal/reconciler/retry.go:17-35 | the waits of one call equal the closed form if and only if max is at most half of int64 or initial * 2^(attempts - 3) is, or there are at most two attempts |
| `Retry.CapIff` | internal/reconciler/retry.go:16-35 | no wait exceeds the maximum if and only if the initial one does not |
| `Retry.DelayCloses` | internal/reconciler/retry.go:32-35 | the closed form of the k-th wait on wrapping int64 |
| `Retry.TotalCloses` | internal/reconciler/retry.go:27-35 | total waiting is the sum of the closed form |
| `PgPools.NewWithFactory` | internal/reconciler/postgres/reconciler.go:72-90 | for every failure point all pools opened are closed exactly once and none otherwise; on success all are open and owned in order |
| `PgPools.Reconciler.Close` | internal/reconciler/postgres/reconciler.go:93-100 | one Close closes each pool exactly once |
| `PgPools.CloseEach` | internal/reconciler/postgres/reconciler.go:81-84 | the roll-back closes each pool exactly once |
| `PgPools.Reconcile` | internal/reconciler/postgres/reconciler.go:105-152 | Remaining counts the secondaries that are not in recovery or whose lag is unknown, OK exactly when none, Lag is the largest lag of the others floored at zero |
| `PgPools.CheckSecondaryIs` | internal/reconciler/postgres/reconciler.go:130-152 | a secondary is healthy, with a lag, exactly if it is in recovery and its lag is known |
| `Registry.ToSet` | internal/reconciler/registry/reconciler.go:193-199 | the map holds exactly the listed names |
| `Registry.SetDiff` | internal/reconciler/registry/reconciler.go:201-209 | the keys the other lacks, each once |
| `Registry.EqualSet` | internal/reconciler/registry/reconciler.go:211-221 | same size and one inclusion decide set equality exactly |
| `Registry.Reconcile` | internal/reconciler/registry/reconciler.go:60-127 | OK exactly when catalogs and all tags agree as sets, Remaining the symmetric difference or the number of differing repositories, and the early exits |
| `Registry.Drift` | internal/reconciler/registry/reconciler.go:89-104 | the loop counts exactly the repositories whose tags differ or cannot be read |

## Left out

- Real I/O: HTTP, ssh, rsync, git, pg_basebackup, S3, SQL and files are oracles or parameters; shell command strings are the named commands of `Remote`.
- Real time: tickers, timeouts and the debounce timer are events that may happen whenever they can; the retry delays are recorded integers.
- Logging, metrics, result detail texts, the post-failover runbook, the commands of cmd/geoctl/main.go, doctor, SLA, version and the init wizard.
- Whether a command can succeed in a given state (promoting a stopped server, say) is the oracle's answer; a remote command acts at once or not at all.
- Failover.PromotionLog: the key comparison is one read-only command on the secondary, because its ssh calls to both sites, with a second try without sudo, and its regular expressions (internal/dbkey/dbkey.go) change no site and are not modelled.
- Fencing of the old primary: the code does none, so nothing is claimed about it before the stop of the role swap succeeds.
- Concurrent promotions on one controller, and the int64 width of its failure counter.
- A parent context that ends after the debounce: it can only make the fetch fail, and fetch results are not part of the receiver's state.
- The JSON decoding of the webhook body: it is unreadable, without a project, or names one.
- YAML decoding and validation of the configuration; the walk takes each string leaf as a cell of its own, so two pointers to one string are not modelled.
- The order in which a map's keys are visited; the walk takes them in a fixed order, which matters only if it stops among them.
- `ExpandEnv` on raw bytes (internal/config/config.go:253-269), deprecated in favour of the walk.
- libpq's check that a keyword is known, and pgx's own parser: the grammar of section 34.1.1.1 stands for both.
- Characters are those of Dafny strings; nothing depends on how they are encoded.
- SHA-1 is any 40 hexadecimal characters.
- Connection URIs: libpq also accepts `postgresql://host/db`, quoted or not, which `AutoConf.ConnInfoOf` and `Dsn.Parse` do not read.
- Other spellings of the assignment in `postgresql.auto.conf` than the one the edit looks for, octal escapes in quoted settings, and what a name with line breaks makes of the file's other lines for the server.
- The file system: paths are compared segment by segment, symbolic links are not modelled.
- Pagination and decoding of registry listings; the S3 and API count validators, sampling for fsck, and `isApproxEqual`.
- The rounding of lag seconds to nanoseconds: a lag is an integer.
