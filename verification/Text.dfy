/** Byte-string operations the Go code takes from its `strings` package. */
module Text {

  datatype Option<+T> = None | Some(value: T)

  /** True iff `sub` occurs somewhere in `s` (strings.Contains). */
  predicate Contains(s: string, sub: string)
  {
    sub <= s || (s != "" && Contains(s[1..], sub))
  }

  /** strings.Split for a one-character separator. */
  function Split(s: string, sep: char): (parts: seq<string>)
    ensures |parts| >= 1
    ensures forall part | part in parts :: sep !in part
  {
    if s == "" then [""]
    else if s[0] == sep then [""] + Split(s[1..], sep)
    else
      var rest := Split(s[1..], sep);
      [[s[0]] + rest[0]] + rest[1..]
  }

  /** strings.Join for a one-character separator. */
  function Join(parts: seq<string>, sep: char): string
  {
    if parts == [] then ""
    else if |parts| == 1 then parts[0]
    else parts[0] + [sep] + Join(parts[1..], sep)
  }

  // ----- occurrence -----

  lemma {:induction false} ContainsMiddle(a: string, sub: string, b: string)
    ensures Contains(a + sub + b, sub)
  {
    var s := a + sub + b;
    if a == "" {
      assert s[..|sub|] == sub;
    } else {
      ContainsMiddle(a[1..], sub, b);
      assert s[1..] == a[1..] + sub + b;
    }
  }

  // ----- splitting and joining -----

  lemma {:induction false} JoinSplit(s: string, sep: char)
    ensures Join(Split(s, sep), sep) == s
  {
    if s != "" {
      JoinSplit(s[1..], sep);
      var rest := Split(s[1..], sep);
      assert s == [s[0]] + s[1..];
      if s[0] == sep {
        assert Split(s, sep)[1..] == rest;
      } else if |rest| > 1 {
        assert Split(s, sep)[1..] == rest[1..];
        assert [s[0]] + (rest[0] + [sep] + Join(rest[1..], sep)) == [s[0]] + rest[0] + [sep] + Join(rest[1..], sep);
      }
    }
  }

  lemma {:induction false} SplitSingle(s: string, sep: char)
    requires sep !in s
    ensures Split(s, sep) == [s]
  {
    if s != "" {
      SplitSingle(s[1..], sep);
      assert s == [s[0]] + s[1..];
    }
  }

  /** Splitting distributes over a separator. */
  lemma {:induction false} SplitConcat(a: string, sep: char, b: string)
    ensures Split(a + [sep] + b, sep) == Split(a, sep) + Split(b, sep)
  {
    var s := a + [sep] + b;
    if a == "" {
      assert s[1..] == b;
    } else {
      SplitConcat(a[1..], sep, b);
      assert s[1..] == a[1..] + [sep] + b && s[0] == a[0];
      SplitConcatStep(a[0], Split(a[1..], sep), Split(b, sep));
    }
  }

  lemma SplitConcatStep(c: char, rest: seq<string>, more: seq<string>)
    requires rest != []
    ensures [""] + (rest + more) == [""] + rest + more
    ensures [[c] + (rest + more)[0]] + (rest + more)[1..] == [[c] + rest[0]] + rest[1..] + more
  {}

  /** `parts` with `t` glued to its last part. */
  function ExtendLast(parts: seq<string>, t: string): (extended: seq<string>)
    requires parts != []
    ensures extended == parts[..|parts| - 1] + [parts[|parts| - 1] + t]
  {
    if |parts| == 1 then [parts[0] + t] else [parts[0]] + ExtendLast(parts[1..], t)
  }

  /** Text without a separator glued to the end only lengthens the last part. */
  lemma {:induction false} SplitSuffix(a: string, sep: char, t: string)
    requires sep !in t
    ensures Split(a + t, sep) == ExtendLast(Split(a, sep), t)
  {
    if a == "" {
      assert a + t == t;
      SplitSingle(t, sep);
    } else {
      SplitSuffix(a[1..], sep, t);
      assert (a + t)[1..] == a[1..] + t;
      SplitSuffixStep(a[0], Split(a[1..], sep), t);
    }
  }

  lemma SplitSuffixStep(c: char, rest: seq<string>, t: string)
    requires rest != []
    ensures var grown := ExtendLast(rest, t);
            && [""] + grown == ExtendLast([""] + rest, t)
            && [[c] + grown[0]] + grown[1..] == ExtendLast([[c] + rest[0]] + rest[1..], t)
  {
    assert ([""] + rest)[1..] == rest;
    assert [c] + (rest[0] + t) == ([c] + rest[0]) + t;
    assert ([[c] + rest[0]] + rest[1..])[1..] == rest[1..];
  }

  lemma {:induction false} JoinConcat(a: seq<string>, sep: char, b: seq<string>)
    requires a != [] && b != []
    ensures Join(a + b, sep) == Join(a, sep) + [sep] + Join(b, sep)
  {
    if |a| == 1 {
      assert (a + b)[1..] == b;
    } else {
      JoinConcat(a[1..], sep, b);
      assert (a + b)[1..] == a[1..] + b;
    }
  }

  lemma {:induction false} SplitJoin(parts: seq<string>, sep: char)
    requires parts != []
    requires forall part | part in parts :: sep !in part
    ensures Split(Join(parts, sep), sep) == parts
  {
    if |parts| == 1 {
      SplitSingle(parts[0], sep);
    } else {
      SplitConcat(parts[0], sep, Join(parts[1..], sep));
      SplitSingle(parts[0], sep);
      SplitJoin(parts[1..], sep);
      assert parts == [parts[0]] + parts[1..];
    }
  }

  /** The parts of `r` are a proper prefix of the parts of `s` exactly when `s`
      continues `r` with a separator. */
  lemma SplitPrefixIff(r: string, sep: char, s: string)
    ensures Split(r, sep) < Split(s, sep) <==> r + [sep] <= s
  {
    var pr, ps := Split(r, sep), Split(s, sep);
    if pr < ps {
      var rest := ps[|pr|..];
      assert ps == pr + rest;
      JoinSplit(r, sep);
      JoinSplit(s, sep);
      JoinConcat(pr, sep, rest);
    }
    if r + [sep] <= s {
      var rest := s[|r| + 1..];
      assert s == r + [sep] + rest;
      SplitConcat(r, sep, rest);
    }
  }

  lemma PrefixCancel<T>(a: seq<T>, x: seq<T>, y: seq<T>)
    ensures a + x < a + y <==> x < y
    ensures a + x == a + y <==> x == y
  {
    if a + x <= a + y {
      assert forall i | 0 <= i < |x| :: x[i] == (a + x)[|a| + i] == (a + y)[|a| + i] == y[i];
    }
  }
}
