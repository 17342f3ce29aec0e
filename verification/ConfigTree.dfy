/** resolveEnv: the reflective walk over the configuration that expands every string in
    place (internal/config/config.go). The shape of the configuration is a value; its
    strings live in an array of cells, one per string leaf, in walk order. */
module ConfigTree {
  import opened EnvExpand

  /** What reflection distinguishes; `Scalar` is every kind the walk ignores. */
  datatype Shape =
    | Leaf
    | Scalar
    | NilPointer
    | Pointer(elem: Shape)
    | Slice(elems: seq<Shape>)
    | Struct(fields: seq<Shape>)
    | MapOf(entries: seq<Shape>)

  /** For each string leaf below `v`, in walk order, whether the program may assign to
      it: anything behind a pointer or in a slice may be assigned, a struct field if the
      struct may, a value taken out of a map may not. */
  function Leaves(v: Shape, settable: bool): seq<bool>
    decreases v, 1
  {
    match v
    case Leaf => [settable]
    case Scalar => []
    case NilPointer => []
    case Pointer(e) => Leaves(e, true)
    case Slice(es) => LeavesAll(es, true)
    case Struct(fs) => LeavesAll(fs, settable)
    case MapOf(es) => LeavesAll(es, false)
  }

  function LeavesAll(vs: seq<Shape>, settable: bool): seq<bool>
    decreases vs, 0
  {
    if vs == [] then [] else LeavesAll(vs[..|vs| - 1], settable) + Leaves(vs[|vs| - 1], settable)
  }

  /** Unset: some placeholder of a leaf has no value. Panicked: a leaf that may not be
      assigned was reached. */
  datatype Halt = Completed | Unset(names: seq<string>) | Panicked

  /** All cells and how the walk ended. */
  datatype Walk = Walk(cells: seq<string>, halt: Halt)

  /** The string expander under an environment. */
  function Expander(env: Env): string -> Expansion {
    s => Expand(env, s)
  }

  /** The leaves from cell `at` on, one after the other, up to the first that cannot be
      rewritten; every leaf that can is. */
  function Sweep(expand: string -> Expansion, cells: seq<string>, at: nat, leaves: seq<bool>): (w: Walk)
    requires at + |leaves| <= |cells|
    ensures |w.cells| == |cells|
    decreases |leaves|
  {
    if leaves == [] then Walk(cells, Completed)
    else match expand(cells[at])
      case NotSet(names) => Walk(cells, Unset(names))
      case Expanded(text) =>
        if !leaves[0] then Walk(cells, Panicked)
        else Sweep(expand, cells[at := text], at + 1, leaves[1..])
  }

  predicate Rewritable(expand: string -> Expansion, text: string, settable: bool) {
    expand(text).Expanded? && settable
  }

  /** The walk, leaf by leaf: there is a first leaf k that cannot be rewritten, or none.
      Every leaf before it holds its expansion, every other cell is as it was, and leaf k
      decides how the walk ends. */
  lemma {:induction false} SweepStopsAtFirst(expand: string -> Expansion, cells: seq<string>, at: nat, leaves: seq<bool>)
    returns (k: nat)
    requires at + |leaves| <= |cells|
    ensures k <= |leaves|
    ensures forall i | 0 <= i < k :: Rewritable(expand, cells[at + i], leaves[i])
    ensures k < |leaves| ==> !Rewritable(expand, cells[at + k], leaves[k])
    ensures forall i | at <= i < at + k :: Expanded(Sweep(expand, cells, at, leaves).cells[i]) == expand(cells[i])
    ensures forall i | 0 <= i < |cells| && !(at <= i < at + k) :: Sweep(expand, cells, at, leaves).cells[i] == cells[i]
    ensures Sweep(expand, cells, at, leaves).halt ==
            if k == |leaves| then Completed
            else match expand(cells[at + k]) { case NotSet(names) => Unset(names) case _ => Panicked }
    decreases |leaves|
  {
    k := 0;
    if leaves != [] && Rewritable(expand, cells[at], leaves[0]) {
      var next := cells[at := expand(cells[at]).text];
      k := SweepStopsAtFirst(expand, next, at + 1, leaves[1..]);
      assert forall i | 0 <= i < k :: next[at + 1 + i] == cells[at + (i + 1)] && leaves[1..][i] == leaves[i + 1];
      k := k + 1;
      forall i | 0 <= i < k
        ensures Rewritable(expand, cells[at + i], leaves[i])
      {
        if i > 0 {
          assert Rewritable(expand, next[at + 1 + (i - 1)], leaves[1..][i - 1]);
        }
      }
    }
  }

  /** Sweeping two stretches of leaves is sweeping the first, then the second. */
  lemma {:induction false} SweepConcat(expand: string -> Expansion, cells: seq<string>, at: nat, a: seq<bool>, b: seq<bool>)
    requires at + |a| + |b| <= |cells|
    ensures Sweep(expand, cells, at, a + b) ==
            var w := Sweep(expand, cells, at, a);
            if w.halt.Completed? then Sweep(expand, w.cells, at + |a|, b) else w
    decreases |a|
  {
    if a == [] {
      assert a + b == b;
    } else {
      assert (a + b)[1..] == a[1..] + b;
      if Rewritable(expand, cells[at], a[0]) {
        SweepConcat(expand, cells[at := expand(cells[at]).text], at + 1, a[1..], b);
      }
    }
  }

  /** A string lies in `v` itself or in its fields and map entries, however deep, with no
      pointer and no slice on the way. */
  predicate Bare(v: Shape)
    decreases v
  {
    match v
    case Leaf => true
    case Struct(fs) => exists f | f in fs :: Bare(f)
    case MapOf(es) => exists e | e in es :: Bare(e)
    case _ => false
  }

  /** Some map below `v` has an entry in which a string lies bare. */
  predicate StringInMap(v: Shape)
    decreases v
  {
    match v
    case Pointer(e) => StringInMap(e)
    case Slice(es) => exists e | e in es :: StringInMap(e)
    case Struct(fs) => exists f | f in fs :: StringInMap(f)
    case MapOf(es) => exists e | e in es :: Bare(e) || StringInMap(e)
    case _ => false
  }

  /** Which shapes have a leaf that may not be assigned. */
  lemma {:induction false} LockedIff(v: Shape, settable: bool)
    ensures false in Leaves(v, settable) <==> StringInMap(v) || (!settable && Bare(v))
    decreases v, 1
  {
    match v
    case Pointer(e) => LockedIff(e, true);
    case Slice(es) => AllLockedIff(es, true);
    case Struct(fs) => AllLockedIff(fs, settable);
    case MapOf(es) => AllLockedIff(es, false);
    case _ =>
  }

  lemma {:induction false} AllLockedIff(vs: seq<Shape>, settable: bool)
    ensures false in LeavesAll(vs, settable)
       <==> exists v | v in vs :: StringInMap(v) || (!settable && Bare(v))
    decreases vs, 0
  {
    if vs != [] {
      var init, last := vs[..|vs| - 1], vs[|vs| - 1];
      AllLockedIff(init, settable);
      LockedIff(last, settable);
      assert forall v :: v in vs <==> v in init || v == last;
    }
  }

  /** The strings below a value. */
  function Strings(v: Shape): nat
    decreases v, 1
  {
    match v
    case Leaf => 1
    case Scalar => 0
    case NilPointer => 0
    case Pointer(e) => Strings(e)
    case Slice(es) => AllStrings(es)
    case Struct(fs) => AllStrings(fs)
    case MapOf(es) => AllStrings(es)
  }

  function AllStrings(vs: seq<Shape>): nat
    decreases vs, 0
  {
    if vs == [] then 0 else AllStrings(vs[..|vs| - 1]) + Strings(vs[|vs| - 1])
  }

  /** The walk visits every string once, whether it may be assigned or not. */
  lemma {:induction false} LeavesCount(v: Shape, settable: bool)
    ensures |Leaves(v, settable)| == Strings(v)
    decreases v, 1
  {
    match v
    case Pointer(e) => LeavesCount(e, true);
    case Slice(es) => AllLeavesCount(es, true);
    case Struct(fs) => AllLeavesCount(fs, settable);
    case MapOf(es) => AllLeavesCount(es, false);
    case _ =>
  }

  lemma {:induction false} AllLeavesCount(vs: seq<Shape>, settable: bool)
    ensures |LeavesAll(vs, settable)| == AllStrings(vs)
    decreases vs, 0
  {
    if vs != [] {
      AllLeavesCount(vs[..|vs| - 1], settable);
      LeavesCount(vs[|vs| - 1], settable);
    }
  }

  lemma {:induction false} LeavesPrefix(vs: seq<Shape>, k: nat, settable: bool)
    requires k <= |vs|
    ensures LeavesAll(vs[..k], settable) <= LeavesAll(vs, settable)
    decreases |vs|
  {
    if k < |vs| {
      assert vs[..|vs| - 1][..k] == vs[..k];
      LeavesPrefix(vs[..|vs| - 1], k, settable);
    } else {
      assert vs[..k] == vs;
    }
  }

  /** resolveEnv on a value whose string leaves are the cells from `at` on. */
  method ResolveEnv(env: Env, v: Shape, settable: bool, cells: array<string>, at: nat) returns (halt: Halt)
    requires at + |Leaves(v, settable)| <= cells.Length
    modifies cells
    ensures Swept(env, old(cells[..]), cells[..], at, Leaves(v, settable), halt)
    decreases v, 1
  {
    match v
    case Leaf =>
      var r := ExpandEnvString(env, cells[at]);
      match r {
        case NotSet(names) => halt := Unset(names);
        case Expanded(text) =>
          if settable {
            cells[at] := text;
            halt := Completed;
          } else {
            halt := Panicked;
          }
      }
      OneLeaf(Expander(env), old(cells[..]), at, settable);
    case Scalar => halt := Completed;
    case NilPointer => halt := Completed;
    case Pointer(e) => halt := ResolveEnv(env, e, true, cells, at);
    case Slice(es) => halt := ResolveAll(env, es, true, cells, at);
    case Struct(fs) => halt := ResolveAll(env, fs, settable, cells, at);
    case MapOf(es) => halt := ResolveAll(env, es, false, cells, at);
  }

  lemma OneLeaf(expand: string -> Expansion, cells: seq<string>, at: nat, settable: bool)
    requires at < |cells|
    ensures Sweep(expand, cells, at, [settable]) ==
            match expand(cells[at])
            case NotSet(names) => Walk(cells, Unset(names))
            case Expanded(text) => if settable then Walk(cells[at := text], Completed) else Walk(cells, Panicked)
  {
    assert [settable][1..] == [];
  }

  /** A walk over `leaves` from cell `at` on turns `before` into `after`. */
  ghost predicate Swept(env: Env, before: seq<string>, after: seq<string>, at: nat, leaves: seq<bool>, halt: Halt) {
    at + |leaves| <= |before| && Walk(after, halt) == Sweep(Expander(env), before, at, leaves)
  }

  /** The k-th round of a loop over values. */
  lemma RoundDone(env: Env, before: seq<string>, mid: seq<string>, after: seq<string>, halt: Halt,
                  at: nat, vs: seq<Shape>, k: nat, settable: bool)
    requires k < |vs| && at + |LeavesAll(vs, settable)| <= |before|
    requires Swept(env, before, mid, at, LeavesAll(vs[..k], settable), Completed)
    requires Swept(env, mid, after, at + |LeavesAll(vs[..k], settable)|, Leaves(vs[k], settable), halt)
    ensures halt.Completed? ==> Swept(env, before, after, at, LeavesAll(vs[..k + 1], settable), Completed)
    ensures !halt.Completed? ==> Swept(env, before, after, at, LeavesAll(vs, settable), halt)
  {
    LeavesNext(vs, k, settable);
    var done, flags, leaves := LeavesAll(vs[..k], settable), Leaves(vs[k], settable), LeavesAll(vs, settable);
    var rest := leaves[|done + flags|..];
    SweepConcat(Expander(env), before, at, done, flags);
    assert leaves == (done + flags) + rest;
    SweepConcat(Expander(env), before, at, done + flags, rest);
  }

  lemma LeavesNext(vs: seq<Shape>, k: nat, settable: bool)
    requires k < |vs|
    ensures LeavesAll(vs[..k + 1], settable) == LeavesAll(vs[..k], settable) + Leaves(vs[k], settable)
    ensures LeavesAll(vs[..k + 1], settable) <= LeavesAll(vs, settable)
  {
    LeavesPrefix(vs, k + 1, settable);
    assert vs[..k + 1][..k] == vs[..k];
  }

  /** The loops over slice elements, struct fields and map keys. */
  method ResolveAll(env: Env, vs: seq<Shape>, settable: bool, cells: array<string>, at: nat) returns (halt: Halt)
    requires at + |LeavesAll(vs, settable)| <= cells.Length
    modifies cells
    ensures Swept(env, old(cells[..]), cells[..], at, LeavesAll(vs, settable), halt)
    decreases vs, 0
  {
    var next := at;
    ghost var all := cells[..];
    for k := 0 to |vs|
      invariant next == at + |LeavesAll(vs[..k], settable)|
      invariant Swept(env, all, cells[..], at, LeavesAll(vs[..k], settable), Completed)
    {
      LeavesNext(vs, k, settable);
      ghost var mid := cells[..];
      halt := ResolveEnv(env, vs[k], settable, cells, next);
      RoundDone(env, all, mid, cells[..], halt, at, vs, k, settable);
      if !halt.Completed? {
        return;
      }
      next := next + |Leaves(vs[k], settable)|;
    }
    assert vs[..|vs|] == vs;
    return Completed;
  }

  /** When every string expands, the walk over a value panics exactly when a string lies
      bare in some map entry. */
  lemma PanicsIff(expand: string -> Expansion, cells: seq<string>, at: nat, v: Shape)
    requires at + |Leaves(v, true)| <= |cells|
    requires forall j | at <= j < at + |Leaves(v, true)| :: expand(cells[j]).Expanded?
    ensures Sweep(expand, cells, at, Leaves(v, true)).halt.Panicked? <==> StringInMap(v)
  {
    var leaves := Leaves(v, true);
    LockedIff(v, true);
    var k := SweepStopsAtFirst(expand, cells, at, leaves);
    assert forall i | 0 <= i < k :: Rewritable(expand, cells[at + i], leaves[i]);
    assert k < |leaves| ==> expand(cells[at + k]).Expanded? && !leaves[k];
  }

  /** The walk ended at the k-th string: exactly those before it have been rewritten, and
      it either does not expand or may not be assigned. */
  ghost predicate EndedAt(expand: string -> Expansion, before: seq<string>, after: seq<string>, k: nat,
                          leaves: seq<bool>, halt: Halt)
    requires |before| == |after| == |leaves|
  {
    && k < |before|
    && (forall i | 0 <= i < k :: expand(before[i]) == Expanded(after[i]) && leaves[i])
    && (forall i | k <= i < |before| :: after[i] == before[i])
    && match halt
       case Completed => false
       case Unset(names) => expand(before[k]) == NotSet(names)
       case Panicked => expand(before[k]).Expanded? && !leaves[k]
  }

  /** resolveEnvInStruct: it succeeds exactly when every string expands and none lies bare
      in a map, and then every string has been replaced by its expansion; otherwise it
      ends at the first string that does not expand or may not be assigned, and exactly
      the strings before that one have been replaced. */
  method ResolveEnvInStruct(env: Env, config: Shape, cells: array<string>) returns (halt: Halt)
    requires config.Struct? && |Leaves(config, true)| == cells.Length
    modifies cells
    ensures halt.Completed? <==>
              && (forall i | 0 <= i < cells.Length :: Expander(env)(old(cells[..])[i]).Expanded?)
              && !StringInMap(config)
    ensures halt.Panicked? ==> StringInMap(config)
    ensures halt.Completed? ==> forall i | 0 <= i < cells.Length :: cells[i] == Expander(env)(old(cells[..])[i]).text
    ensures !halt.Completed? ==>
              exists k: nat :: EndedAt(Expander(env), old(cells[..]), cells[..], k, Leaves(config, true), halt)
  {
    ghost var texts := cells[..];
    halt := ResolveEnv(env, config, true, cells, 0);
    LockedIff(config, true);
    SweepEnds(Expander(env), texts, Leaves(config, true));
    assert forall i | 0 <= i < cells.Length :: cells[i] == cells[..][i];
  }

  /** A sweep over all cells: complete, or ended at a first leaf. */
  lemma SweepEnds(expand: string -> Expansion, before: seq<string>, leaves: seq<bool>)
    requires |before| == |leaves|
    ensures var w := Sweep(expand, before, 0, leaves);
            && (w.halt.Completed? <==> (forall i | 0 <= i < |before| :: expand(before[i]).Expanded?) && false !in leaves)
            && (w.halt.Completed? ==> forall i | 0 <= i < |before| :: w.cells[i] == expand(before[i]).text)
            && (w.halt.Panicked? ==> false in leaves)
            && (!w.halt.Completed? ==> exists k: nat :: EndedAt(expand, before, w.cells, k, leaves, w.halt))
  {
    var k := SweepStopsAtFirst(expand, before, 0, leaves);
    assert forall i | 0 <= i < k :: Rewritable(expand, before[0 + i], leaves[i]);
    if k < |leaves| {
      assert !Rewritable(expand, before[0 + k], leaves[k]);
      assert EndedAt(expand, before, Sweep(expand, before, 0, leaves).cells, k, leaves, Sweep(expand, before, 0, leaves).halt);
    }
  }
}
