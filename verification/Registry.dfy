/** The container-registry comparison (internal/reconciler/registry/reconciler.go): sets
    as maps to true, compared by size and one inclusion. */
module Registry {

  /** Go reads a missing key as false. */
  predicate Has(m: map<string, bool>, k: string) { k in m && m[k] }

  function Members(names: seq<string>): set<string> { set k | k in names }

  ghost predicate IsSet(m: map<string, bool>, keys: set<string>) {
    m.Keys == keys && forall k | k in m :: m[k]
  }

  method ToSet(names: seq<string>) returns (m: map<string, bool>)
    ensures IsSet(m, Members(names))
  {
    m := map[];
    for i := 0 to |names|
      invariant IsSet(m, Members(names[..i]))
    {
      assert Members(names[..i + 1]) == Members(names[..i]) + {names[i]};
      m := m[names[i] := true];
    }
    assert names[..|names|] == names;
  }

  /** The keys among `keys` that `b` lacks. */
  function Lacking(keys: set<string>, b: map<string, bool>): set<string> {
    set k | k in keys && !Has(b, k)
  }

  lemma LackingAdd(keys: set<string>, k: string, b: map<string, bool>)
    requires k !in keys
    ensures |Lacking(keys + {k}, b)| == |Lacking(keys, b)| + (if Has(b, k) then 0 else 1)
  {
    assert Lacking(keys + {k}, b) == Lacking(keys, b) + (if Has(b, k) then {} else {k});
  }

  /** The keys of `a` that `b` lacks, each once, in some order. */
  method SetDiff(a: map<string, bool>, b: map<string, bool>) returns (diff: seq<string>)
    ensures forall k :: k in diff <==> k in Lacking(a.Keys, b)
    ensures |diff| == |Lacking(a.Keys, b)|
  {
    diff := [];
    var left := a.Keys;
    ghost var seen: set<string> := {};
    while left != {}
      invariant left + seen == a.Keys && left !! seen
      invariant forall k :: k in diff <==> k in Lacking(seen, b)
      invariant |diff| == |Lacking(seen, b)|
      decreases |left|
    {
      var k :| k in left;
      LackingAdd(seen, k, b);
      if !Has(b, k) {
        diff := diff + [k];
      }
      left := left - {k};
      seen := seen + {k};
    }
    assert seen == a.Keys;
  }

  lemma SubsetOfSameSize(a: set<string>, b: set<string>)
    requires a <= b && |a| == |b|
    ensures a == b
  {
    assert b == a + (b - a);
    assert |b| == |a| + |b - a|;
  }

  /** Two sets of the same size, one inside the other, are equal: the test is exact. */
  method EqualSet(a: map<string, bool>, b: map<string, bool>) returns (eq: bool)
    requires IsSet(a, a.Keys) && IsSet(b, b.Keys)
    ensures eq <==> a.Keys == b.Keys
  {
    assert |a| == |a.Keys| && |b| == |b.Keys|;
    if |a| != |b| {
      return false;
    }
    var left := a.Keys;
    while left != {}
      invariant left <= a.Keys
      invariant forall k | k in a.Keys - left :: k in b
      decreases |left|
    {
      var k :| k in left;
      if !Has(b, k) {
        return false;
      }
      left := left - {k};
    }
    SubsetOfSameSize(a.Keys, b.Keys);
    return true;
  }

  /** What one registry call brings back. */
  datatype Listing = Names(names: seq<string>) | AuthRequired | Failed

  datatype Result = Result(ok: bool, remaining: nat)

  /** The tags of a repository could be read on both sides and are the same set. */
  predicate SameTags(primary: Listing, secondary: Listing) {
    primary.Names? && secondary.Names? && Members(primary.names) == Members(secondary.names)
  }

  /** The repositories whose tags differ, or cannot be read on some side. */
  function Differing(repos: set<string>, pTags: string -> Listing, sTags: string -> Listing): set<string> {
    set repo | repo in repos && !SameTags(pTags(repo), sTags(repo))
  }

  lemma DifferingAdd(repos: set<string>, repo: string, pTags: string -> Listing, sTags: string -> Listing)
    requires repo !in repos
    ensures |Differing(repos + {repo}, pTags, sTags)|
            == |Differing(repos, pTags, sTags)| + (if SameTags(pTags(repo), sTags(repo)) then 0 else 1)
  {
    assert Differing(repos + {repo}, pTags, sTags)
           == Differing(repos, pTags, sTags) + (if SameTags(pTags(repo), sTags(repo)) then {} else {repo});
  }

  /** Reconcile. A registry that asks for authentication on its catalog counts as in sync.
      Otherwise OK means: both catalogs could be read and hold the same repositories, and
      each repository has the same tags on both sides; and what remains is the symmetric
      difference of the catalogs or else the number of repositories whose tags differ. */
  method Reconcile(primary: Listing, secondary: Listing, pTags: string -> Listing, sTags: string -> Listing)
    returns (result: Result)
    ensures primary.AuthRequired? || (primary.Names? && secondary.AuthRequired?) ==> result == Result(true, 0)
    ensures primary.Failed? || (primary.Names? && secondary.Failed?) ==> result == Result(false, 1)
    ensures primary.Names? && secondary.Names? ==>
      var p, s := Members(primary.names), Members(secondary.names);
      && (result.ok <==> p == s && forall repo | repo in p :: SameTags(pTags(repo), sTags(repo)))
      && (result.ok <==> result.remaining == 0)
      && result.remaining ==
         if p != s then |p - s| + |s - p|
         else |Differing(p, pTags, sTags)|
  {
    match primary
    case AuthRequired => return Result(true, 0);
    case Failed => return Result(false, 1);
    case Names(_) =>
    match secondary {
      case AuthRequired => return Result(true, 0);
      case Failed => return Result(false, 1);
      case Names(_) =>
    }
    var pSet := ToSet(primary.names);
    var sSet := ToSet(secondary.names);
    var missing := SetDiff(pSet, sSet);
    var extra := SetDiff(sSet, pSet);
    ghost var p, s := Members(primary.names), Members(secondary.names);
    assert Lacking(pSet.Keys, sSet) == p - s && Lacking(sSet.Keys, pSet) == s - p;
    if missing != [] || extra != [] {
      assert p != s;
      return Result(false, |missing| + |extra|);
    }
    assert p - s == {} && s - p == {};
    assert p == s;
    var drift := Drift(pSet.Keys, pTags, sTags);
    ghost var differing := Differing(p, pTags, sTags);
    if drift > 0 {
      assert exists repo :: repo in differing;
      return Result(false, drift);
    }
    assert differing == {};
    assert forall repo | repo in p :: repo !in differing;
    return Result(true, 0);
  }

  /** The loop that counts repositories whose tags differ or cannot be read. */
  method Drift(repos: set<string>, pTags: string -> Listing, sTags: string -> Listing) returns (drift: nat)
    ensures drift == |Differing(repos, pTags, sTags)|
  {
    drift := 0;
    var left := repos;
    ghost var seen: set<string> := {};
    while left != {}
      invariant left + seen == repos && left !! seen
      invariant drift == |Differing(seen, pTags, sTags)|
      decreases |left|
    {
      var repo :| repo in left;
      DifferingAdd(seen, repo, pTags, sTags);
      var p, s := pTags(repo), sTags(repo);
      if !p.Names? || !s.Names? {
        drift := drift + 1;
      } else {
        var a := ToSet(p.names);
        var b := ToSet(s.names);
        var eq := EqualSet(a, b);
        if !eq {
          drift := drift + 1;
        }
      }
      left := left - {repo};
      seen := seen + {repo};
    }
    assert seen == repos;
  }
}
