/** The project-path grammar and the lexical resolution of the repository paths
    built from it (internal/projectpath/projectpath.go and the path layer of
    internal/reconciler/gitfetch/reconciler.go). */
module ProjectPath {
  import opened Text

  datatype Verdict =
    | Accepted
    | EmptyPath
    | LeadingSlash
    | HasBackslash
    | HasNul
    | EmptySegment
    | Traversal(segment: string)
    | BadCharacter

  predicate AlphaNumeric(c: char) {
    'a' <= c <= 'z' || 'A' <= c <= 'Z' || '0' <= c <= '9'
  }

  predicate PathChar(c: char) {
    AlphaNumeric(c) || c == '_' || c == '.' || c == '-' || c == '/'
  }

  /** The regular expression: one alphanumeric, then path characters to the end. */
  predicate MatchesGrammar(path: string) {
    path != "" && AlphaNumeric(path[0]) && forall c | c in path :: PathChar(c)
  }

  const LOWER: string := "abcdefghijklmnopqrstuvwxyz"
  const UPPER: string := "ABCDEFGHIJKLMNOPQRSTUVWXYZ"
  const DIGITS: string := "0123456789"

  /** The characters of a path, one by one. */
  lemma PathChars(c: char)
    ensures AlphaNumeric(c) <==> c in LOWER + UPPER + DIGITS
    ensures PathChar(c) <==> c in LOWER + UPPER + DIGITS + "_.-/"
  {
    Letters(c);
  }

  lemma Letters(c: char)
    ensures c in LOWER <==> 'a' <= c <= 'z'
    ensures c in UPPER <==> 'A' <= c <= 'Z'
    ensures c in DIGITS <==> '0' <= c <= '9'
  {}

  predicate OrdinarySegment(segment: string) {
    segment != "" && segment != "." && segment != ".."
  }

  /** The segment loop of Validate: the complaint about the first bad segment. */
  function SegmentComplaint(segments: seq<string>): Option<Verdict>
  {
    if segments == [] then None
    else if segments[0] == "" then Some(EmptySegment)
    else if segments[0] == "." || segments[0] == ".." then Some(Traversal(segments[0]))
    else SegmentComplaint(segments[1..])
  }

  function Validate(path: string): Verdict {
    if path == "" then EmptyPath
    else if path[0] == '/' then LeadingSlash
    else if '\\' in path then HasBackslash
    else if '\0' in path then HasNul
    else match SegmentComplaint(Split(path, '/'))
      case Some(complaint) => complaint
      case None => if MatchesGrammar(path) then Accepted else BadCharacter
  }

  lemma {:induction false} NoComplaintIff(segments: seq<string>)
    ensures SegmentComplaint(segments).None? <==> forall seg | seg in segments :: OrdinarySegment(seg)
    ensures SegmentComplaint(segments).Some? ==> !SegmentComplaint(segments).value.Accepted?
  {
    if segments != [] {
      NoComplaintIff(segments[1..]);
      assert segments[0] in segments;
      assert forall seg :: seg in segments <==> seg == segments[0] || seg in segments[1..];
    }
  }

  /** Validate accepts exactly the grammar minus empty, "." and ".." segments:
      its leading-slash, backslash and NUL tests reject nothing more. */
  lemma AcceptedIff(path: string)
    ensures Validate(path).Accepted? <==>
            MatchesGrammar(path) && forall seg | seg in Split(path, '/') :: OrdinarySegment(seg)
  {
    NoComplaintIff(Split(path, '/'));
    if MatchesGrammar(path) {
      assert !PathChar('\\') && !PathChar('\0');
    }
  }

  lemma GrammarIs(path: string)
    ensures MatchesGrammar(path) <==>
            path != "" && path[0] in LOWER + UPPER + DIGITS && forall c | c in path :: c in LOWER + UPPER + DIGITS + "_.-/"
  {
    if path != "" {
      PathChars(path[0]);
    }
    forall c | c in path
      ensures PathChar(c) <==> c in LOWER + UPPER + DIGITS + "_.-/"
    {
      PathChars(c);
    }
  }

  /** The same, character by character and segment by segment. */
  lemma ValidateIff(path: string)
    ensures Validate(path).Accepted? <==>
            && path != "" && path[0] in LOWER + UPPER + DIGITS
            && (forall c | c in path :: c in LOWER + UPPER + DIGITS + "_.-/")
            && forall seg | seg in Split(path, '/') :: seg != "" && seg != "." && seg != ".."
  {
    AcceptedIff(path);
    GrammarIs(path);
    assert forall seg | seg in Split(path, '/') :: OrdinarySegment(seg) <==> seg != "" && seg != "." && seg != "..";
  }

  /** The segment complaint is about the first bad segment. */
  lemma {:induction false} FirstComplaint(segments: seq<string>) returns (k: nat)
    ensures k <= |segments| && forall i | 0 <= i < k :: OrdinarySegment(segments[i])
    ensures k == |segments| ==> SegmentComplaint(segments) == None
    ensures k < |segments| ==>
              && !OrdinarySegment(segments[k])
              && SegmentComplaint(segments) ==
                 Some(if segments[k] == "" then EmptySegment else Traversal(segments[k]))
  {
    k := 0;
    if segments != [] && OrdinarySegment(segments[0]) {
      k := FirstComplaint(segments[1..]);
      assert forall i | 0 <= i < k :: segments[1..][i] == segments[i + 1];
      k := k + 1;
      assert forall i | 0 < i < k :: segments[i] == segments[1..][i - 1];
    }
  }

  /** Which complaint a rejected path gets: the first that applies, in this order. */
  lemma ComplaintIs(path: string) returns (k: nat)
    ensures var segments := Split(path, '/');
            && k <= |segments| && (forall i | 0 <= i < k :: OrdinarySegment(segments[i]))
            && Validate(path) ==
               if path == "" then EmptyPath
               else if "/" <= path then LeadingSlash
               else if '\\' in path then HasBackslash
               else if '\0' in path then HasNul
               else if k < |segments| then if segments[k] == "" then EmptySegment else Traversal(segments[k])
               else if exists c :: c in path && !PathChar(c) then BadCharacter
               else if !AlphaNumeric(path[0]) then BadCharacter
               else Accepted
  {
    k := FirstComplaint(Split(path, '/'));
    assert path != "" ==> (path[0] == '/' <==> "/" <= path);
  }

  // ----- lexical resolution -----

  /** A cleaned path: absolute or not, and its segments. */
  datatype Location = Location(rooted: bool, segments: seq<string>)

  /** filepath.Clean, segment by segment: "" and "." are dropped, ".." pops. */
  function Clean(rooted: bool, segments: seq<string>, sofar: seq<string>): seq<string>
    decreases |segments|
  {
    if segments == [] then sofar
    else if segments[0] == "" || segments[0] == "." then Clean(rooted, segments[1..], sofar)
    else if segments[0] != ".." then Clean(rooted, segments[1..], sofar + [segments[0]])
    else if sofar != [] && sofar[|sofar| - 1] != ".." then
      Clean(rooted, segments[1..], sofar[..|sofar| - 1])
    else if rooted then Clean(rooted, segments[1..], sofar)
    else Clean(rooted, segments[1..], sofar + [".."])
  }

  function Resolve(path: string): Location {
    var rooted := path != "" && path[0] == '/';
    Location(rooted, Clean(rooted, Split(path, '/'), []))
  }

  /** filepath.Join of two elements: an empty first element is ignored. */
  function JoinPath(base: string, rel: string): Location {
    if base == "" then Resolve(rel)
    else Resolve(base + "/" + rel)
  }

  /** Where fetchOne looks for the repository of an accepted project path. */
  function RepoLocation(base: string, path: string): Location {
    JoinPath(base, path + ".git")
  }

  /** The segments of `path.git`. */
  function RepoSegments(path: string): (segments: seq<string>)
    ensures segments == ExtendLast(Split(path, '/'), ".git")
  {
    SplitSuffix(path, '/', ".git");
    Split(path + ".git", '/')
  }

  lemma {:induction false} CleanConcat(rooted: bool, a: seq<string>, b: seq<string>, sofar: seq<string>)
    ensures Clean(rooted, a + b, sofar) == Clean(rooted, b, Clean(rooted, a, sofar))
    decreases |a|
  {
    if a == [] {
      assert a + b == b;
    } else {
      assert (a + b)[1..] == a[1..] + b;
      var next :=
        if a[0] == "" || a[0] == "." then sofar
        else if a[0] != ".." then sofar + [a[0]]
        else if sofar != [] && sofar[|sofar| - 1] != ".." then sofar[..|sofar| - 1]
        else if rooted then sofar
        else sofar + [".."];
      CleanConcat(rooted, a[1..], b, next);
    }
  }

  /** No empty or "." segment, and ".." only at the front of a path that has no root. */
  predicate Normal(rooted: bool, segments: seq<string>) {
    forall i | 0 <= i < |segments| :: NormalAt(rooted, segments, i)
  }

  predicate NormalAt(rooted: bool, segments: seq<string>, i: nat)
    requires i < |segments|
  {
    && segments[i] != "" && segments[i] != "."
    && (segments[i] == ".." ==> !rooted && (i == 0 || segments[i - 1] == ".."))
  }

  lemma NormalInit(rooted: bool, segments: seq<string>, k: nat)
    requires Normal(rooted, segments) && k <= |segments|
    ensures Normal(rooted, segments[..k])
  {
    forall i | 0 <= i < k
      ensures NormalAt(rooted, segments[..k], i)
    {
      assert NormalAt(rooted, segments, i);
    }
  }

  lemma NormalSnoc(rooted: bool, segments: seq<string>, seg: string)
    requires Normal(rooted, segments) && seg != "" && seg != "."
    requires seg == ".." ==> !rooted && (segments == [] || segments[|segments| - 1] == "..")
    ensures Normal(rooted, segments + [seg])
  {
    var after := segments + [seg];
    forall i | 0 <= i < |after|
      ensures NormalAt(rooted, after, i)
    {
      assert i < |segments| ==> NormalAt(rooted, segments, i);
    }
  }

  lemma {:induction false} CleanNormal(rooted: bool, segments: seq<string>, sofar: seq<string>)
    requires Normal(rooted, sofar)
    ensures Normal(rooted, Clean(rooted, segments, sofar))
  {
    if segments != [] {
      var rest, seg := segments[1..], segments[0];
      if seg == "" || seg == "." {
        CleanNormal(rooted, rest, sofar);
      } else if seg != ".." {
        NormalSnoc(rooted, sofar, seg);
        CleanNormal(rooted, rest, sofar + [seg]);
      } else if sofar != [] && sofar[|sofar| - 1] != ".." {
        NormalInit(rooted, sofar, |sofar| - 1);
        CleanNormal(rooted, rest, sofar[..|sofar| - 1]);
      } else if rooted {
        CleanNormal(rooted, rest, sofar);
      } else {
        NormalSnoc(rooted, sofar, "..");
        CleanNormal(rooted, rest, sofar + [".."]);
      }
    }
  }

  /** A normal path is left as it is. */
  lemma {:induction false} CleanKeepsNormal(rooted: bool, segments: seq<string>, k: nat)
    requires Normal(rooted, segments) && k <= |segments|
    ensures Clean(rooted, segments[k..], segments[..k]) == segments
    decreases |segments| - k
  {
    if k < |segments| {
      assert NormalAt(rooted, segments, k);
      assert segments[k..][1..] == segments[k + 1..] && segments[..k] + [segments[k]] == segments[..k + 1];
      CleanKeepsNormal(rooted, segments, k + 1);
    } else {
      assert segments[..k] == segments;
    }
  }

  /** Cleaning gives a normal path, and cleaning it again changes nothing. */
  lemma CleanIdempotent(rooted: bool, segments: seq<string>)
    ensures var clean := Clean(rooted, segments, []);
            Normal(rooted, clean) && Clean(rooted, clean, []) == clean
  {
    CleanNormal(rooted, segments, []);
    var clean := Clean(rooted, segments, []);
    CleanKeepsNormal(rooted, clean, 0);
    assert clean[0..] == clean && clean[..0] == [];
  }

  /** A segment followed by ".." is as if neither had been written. */
  lemma PopUndoes(rooted: bool, a: seq<string>, seg: string, b: seq<string>)
    requires OrdinarySegment(seg)
    ensures Clean(rooted, a + [seg, ".."] + b, []) == Clean(rooted, a + b, [])
  {
    CleanConcat(rooted, a + [seg, ".."], b, []);
    CleanConcat(rooted, a, [seg, ".."], []);
    CleanConcat(rooted, a, b, []);
    var sofar := Clean(rooted, a, []);
    assert [seg, ".."][1..] == [".."] && [".."][1..] == [];
    assert (sofar + [seg])[..|sofar|] == sofar;
    assert Clean(rooted, [".."], sofar + [seg]) == Clean(rooted, [], sofar);
  }

  lemma {:induction false} CleanOrdinary(rooted: bool, segments: seq<string>, sofar: seq<string>)
    requires forall seg | seg in segments :: OrdinarySegment(seg)
    ensures Clean(rooted, segments, sofar) == sofar + segments
    decreases |segments|
  {
    if segments != [] {
      assert OrdinarySegment(segments[0]);
      CleanOrdinary(rooted, segments[1..], sofar + [segments[0]]);
      assert sofar + [segments[0]] + segments[1..] == sofar + segments;
    }
  }

  lemma RepoSegmentsOrdinary(path: string)
    requires Validate(path).Accepted?
    ensures forall seg | seg in RepoSegments(path) :: OrdinarySegment(seg)
  {
    AcceptedIff(path);
    var p := Split(path, '/');
    forall seg | seg in RepoSegments(path)
      ensures OrdinarySegment(seg)
    {
      if seg != p[|p| - 1] + ".git" {
        assert seg in p[..|p| - 1];
        assert seg in p;
      } else {
        assert |seg| >= 4;
      }
    }
  }

  /** Containment: an accepted path resolves to the base's own segments followed by
      the path's, and the walk over the path's segments never leaves the base: after
      any number k of them it stands at the base plus exactly those k segments. */
  lemma Containment(base: string, path: string)
    requires Validate(path).Accepted?
    ensures RepoLocation(base, path) ==
            Location(Resolve(base).rooted, Resolve(base).segments + RepoSegments(path))
    ensures forall k | 0 <= k <= |RepoSegments(path)| ::
              Clean(Resolve(base).rooted, Split(base, '/') + RepoSegments(path)[..k], [])
              == Resolve(base).segments + RepoSegments(path)[..k]
  {
    var rooted, segs := Resolve(base).rooted, RepoSegments(path);
    RepoSegmentsOrdinary(path);
    forall k | 0 <= k <= |segs|
      ensures Clean(rooted, Split(base, '/') + segs[..k], []) == Resolve(base).segments + segs[..k]
    {
      CleanConcat(rooted, Split(base, '/'), segs[..k], []);
      CleanOrdinary(rooted, segs[..k], Resolve(base).segments);
    }
    assert segs[..|segs|] == segs;
    var rel := path + ".git";
    if base == "" {
      AcceptedIff(path);
      CleanOrdinary(false, segs, []);
      assert rel[0] == path[0];
    } else {
      SplitConcat(base, '/', rel);
      assert base + "/" + rel == base + ['/'] + rel;
    }
  }

  /** Distinct accepted paths never share a repository directory. */
  lemma DistinctLocations(base: string, p: string, q: string)
    requires Validate(p).Accepted? && Validate(q).Accepted?
    requires RepoLocation(base, p) == RepoLocation(base, q)
    ensures p == q
  {
    Containment(base, p);
    Containment(base, q);
    var b := Resolve(base).segments;
    assert RepoSegments(p) == (b + RepoSegments(p))[|b|..] == (b + RepoSegments(q))[|b|..] == RepoSegments(q);
    JoinSplit(p + ".git", '/');
    JoinSplit(q + ".git", '/');
    assert p == (p + ".git")[..|p|];
    assert q == (q + ".git")[..|q|];
  }

  /** One repository directory lies strictly inside another's exactly when the inner
      project's path begins with the outer's followed by ".git/". Validate does not
      exclude this: see NestedExists. */
  lemma NestedIff(base: string, outer: string, inner: string)
    requires Validate(outer).Accepted? && Validate(inner).Accepted?
    ensures RepoLocation(base, outer).segments < RepoLocation(base, inner).segments
       <==> outer + ".git/" <= inner
  {
    Containment(base, outer);
    Containment(base, inner);
    var b, so, si := Resolve(base).segments, RepoSegments(outer), RepoSegments(inner);
    PrefixCancel(b, so, si);
    var pi := Split(inner, '/');
    assert si[..|si| - 1] == pi[..|pi| - 1];
    if so < si {
      assert so == si[..|so|] == pi[..|so|];
    }
    if so < pi {
      assert so == pi[..|so|] == si[..|so|];
    }
    SplitPrefixIff(outer + ".git", '/', inner);
    assert outer + ".git" + ['/'] == outer + ".git/";
  }

  /** Every accepted project has such inner paths: any accepted path appended to its
      directory name is accepted too and resolves inside its repository. */
  lemma NestedExists(base: string, outer: string, inner: string)
    requires Validate(outer).Accepted? && Validate(inner).Accepted?
    ensures Validate(outer + ".git/" + inner).Accepted?
    ensures RepoLocation(base, outer).segments < RepoLocation(base, outer + ".git/" + inner).segments
  {
    var dir := outer + ".git";
    var path := outer + ".git/" + inner;
    assert path == dir + ['/'] + inner;
    SplitConcat(dir, '/', inner);
    AcceptedIff(outer);
    AcceptedIff(inner);
    RepoSegmentsOrdinary(outer);
    AcceptedIff(path);
    assert path[0] == outer[0];
    NestedIff(base, outer, path);
  }

  // ----- on-disk layout of the sweep -----

  /** repoDiskPath; `digest` is the SHA-1 hex digest of the project id. */
  function RepoDiskPath(hashed: bool, routePath: string, digest: string): string
    requires |digest| == 40
  {
    if hashed then "@hashed/" + digest[..2] + "/" + digest + ".git"
    else if routePath == "" then ""
    else routePath + ".git"
  }

  lemma ThreeSegments(base: string, a: string, b: string, c: string)
    requires '/' !in a && '/' !in b && '/' !in c
    requires OrdinarySegment(a) && OrdinarySegment(b) && OrdinarySegment(c)
    ensures JoinPath(base, a + ['/'] + (b + ['/'] + c)).segments == Resolve(base).segments + [a, b, c]
  {
    var rel := a + ['/'] + (b + ['/'] + c);
    SplitConcat(a, '/', b + ['/'] + c);
    SplitConcat(b, '/', c);
    SplitSingle(a, '/');
    SplitSingle(b, '/');
    SplitSingle(c, '/');
    assert Split(rel, '/') == [a, b, c];
    var rooted := Resolve(base).rooted;
    CleanOrdinary(rooted, [a, b, c], Resolve(base).segments);
    if base == "" {
      assert rel[0] == a[0];
    } else {
      SplitConcat(base, '/', rel);
      assert base + "/" + rel == base + ['/'] + rel;
      CleanConcat(rooted, Split(base, '/'), [a, b, c], []);
    }
  }

  /** FetchProject always uses the legacy path: for a project in hashed storage the
      webhook's fetch never touches the directory the sweep fetches into. */
  lemma HashedStorageMissed(base: string, path: string, routePath: string, digest: string)
    requires Validate(path).Accepted?
    requires |digest| == 40 && forall c | c in digest :: '0' <= c <= '9' || 'a' <= c <= 'f'
    ensures path + ".git" != RepoDiskPath(true, routePath, digest)
    ensures JoinPath(base, RepoDiskPath(true, routePath, digest)).segments ==
            Resolve(base).segments + ["@hashed", digest[..2], digest + ".git"]
    ensures RepoLocation(base, path) != JoinPath(base, RepoDiskPath(true, routePath, digest))
  {
    AcceptedIff(path);
    assert RepoDiskPath(true, routePath, digest)[0] == '@' != path[0];
    Containment(base, path);
    var own, top, head, file := RepoSegments(path), "@hashed", digest[..2], digest + ".git";
    assert forall c | c in head :: c in digest;
    assert head[0] == digest[0] && digest[0] in digest;
    ThreeSegments(base, top, head, file);
    assert RepoDiskPath(true, routePath, digest) == top + ['/'] + (head + ['/'] + file);
    PrefixCancel(Resolve(base).segments, own, [top, head, file]);
    FirstSegment(path);
  }

  /** The webhook fetches into the directory the sweep uses for a project exactly when the
      project is in legacy storage under that very path. */
  lemma SameDirectoryIff(base: string, path: string, hashed: bool, routePath: string, digest: string)
    requires Validate(path).Accepted? && Validate(routePath).Accepted?
    requires |digest| == 40 && forall c | c in digest :: '0' <= c <= '9' || 'a' <= c <= 'f'
    ensures RepoLocation(base, path) == JoinPath(base, RepoDiskPath(hashed, routePath, digest))
       <==> !hashed && routePath == path
  {
    if hashed {
      HashedStorageMissed(base, path, routePath, digest);
    } else if RepoLocation(base, path) == RepoLocation(base, routePath) {
      DistinctLocations(base, path, routePath);
    }
  }

  lemma FirstSegment(path: string)
    requires Validate(path).Accepted?
    ensures RepoSegments(path)[0] != "" && RepoSegments(path)[0][0] == path[0]
  {
    RepoSegmentsOrdinary(path);
    JoinSplit(path + ".git", '/');
    assert RepoSegments(path)[0] in RepoSegments(path);
  }
}
