/** `${VAR}` expansion of one string (internal/config/config.go). */
module EnvExpand {
  import opened Text

  type Env = map<string, string>

  datatype Token = Chr(c: char) | Ref(name: string)

  predicate NameStart(c: char) { 'A' <= c <= 'Z' || c == '_' }
  predicate NameChar(c: char) { NameStart(c) || '0' <= c <= '9' }

  predicate Name(n: string) {
    n != "" && NameStart(n[0]) && forall c | c in n :: NameChar(c)
  }

  const LETTERS: string := "ABCDEFGHIJKLMNOPQRSTUVWXYZ"

  /** The characters of a name, one by one; the first is no digit. */
  lemma NameChars(c: char)
    ensures NameStart(c) <==> c in LETTERS + "_"
    ensures NameChar(c) <==> c in LETTERS + "_" + "0123456789"
  {}

  /** The longest run of name characters at the front. */
  function NameRun(s: string): (n: string)
    ensures n <= s && forall c | c in n :: NameChar(c)
  {
    if s != "" && NameChar(s[0]) then [s[0]] + NameRun(s[1..]) else ""
  }

  function Placeholder(name: string): string { "${" + name + "}" }

  /** The name, if a placeholder stands at the front of `s`. */
  function MatchFront(s: string): Option<string> {
    if |s| < 2 || s[0] != '$' || s[1] != '{' then None
    else
      var name := NameRun(s[2..]);
      if Name(name) && |name| + 2 < |s| && s[|name| + 2] == '}' then Some(name) else None
  }

  function Spell(t: Token): string {
    match t
    case Chr(c) => [c]
    case Ref(name) => Placeholder(name)
  }

  lemma MatchFrontIs(s: string)
    requires MatchFront(s).Some?
    ensures Name(MatchFront(s).value) && Placeholder(MatchFront(s).value) == s[..|MatchFront(s).value| + 3]
  {
    var n := MatchFront(s).value;
    assert s[2..][..|n|] == n;
    assert s[..|n| + 3] == "${" + n + "}";
  }

  /** The token at the front of a string and the number of characters it takes. */
  function First(s: string): (r: (Token, nat))
    requires s != ""
    ensures 1 <= r.1 <= |s|
  {
    match MatchFront(s)
    case Some(name) => (Ref(name), |name| + 3)
    case None => (Chr(s[0]), 1)
  }

  lemma FirstSpells(s: string)
    requires s != ""
    ensures Spell(First(s).0) == s[..First(s).1] && (First(s).0.Ref? ==> Name(First(s).0.name))
  {
    if MatchFront(s).Some? {
      MatchFrontIs(s);
    }
  }

  /** The leftmost, non-overlapping placeholders of a string, one pass. */
  function Tokenize(s: string): seq<Token>
    decreases |s|
  {
    if s == "" then [] else [First(s).0] + Tokenize(s[First(s).1..])
  }

  function Print(ts: seq<Token>): string {
    if ts == [] then "" else Spell(ts[0]) + Print(ts[1..])
  }

  /** Set to something other than the empty string. */
  predicate Defined(env: Env, name: string) { name in env && env[name] != "" }

  /** What a token contributes: an undefined reference stays as it is. */
  function Meaning(env: Env, t: Token): string {
    match t
    case Chr(c) => [c]
    case Ref(name) => if Defined(env, name) then env[name] else Placeholder(name)
  }

  function Substitute(env: Env, ts: seq<Token>): string {
    if ts == [] then "" else Meaning(env, ts[0]) + Substitute(env, ts[1..])
  }

  /** The names reported missing, in order, repetitions included. */
  function Missing(env: Env, ts: seq<Token>): seq<string> {
    if ts == [] then []
    else (if ts[0].Ref? && !Defined(env, ts[0].name) then [ts[0].name] else []) + Missing(env, ts[1..])
  }

  datatype Expansion = Expanded(text: string) | NotSet(names: seq<string>)

  function Expand(env: Env, s: string): Expansion {
    var ts := Tokenize(s);
    if Missing(env, ts) == [] then Expanded(Substitute(env, ts)) else NotSet(Missing(env, ts))
  }

  // ----- the tokeniser -----

  /** Splitting into tokens and spelling them out again is the identity. */
  lemma {:induction false} PrintTokenize(s: string)
    ensures Print(Tokenize(s)) == s
    decreases |s|
  {
    if s != "" {
      var (t, k) := First(s);
      FirstSpells(s);
      PrintTokenize(s[k..]);
      PrintFront(t, Tokenize(s[k..]), s, k);
    }
  }

  lemma PrintFront(t: Token, ts: seq<Token>, s: string, k: nat)
    requires k <= |s| && Spell(t) == s[..k] && Print(ts) == s[k..]
    ensures Print([t] + ts) == s
  {
    PrintCons(t, ts);
  }

  lemma PrintCons(t: Token, rest: seq<Token>)
    ensures Print([t] + rest) == Spell(t) + Print(rest)
  {
    assert ([t] + rest)[1..] == rest;
  }

  lemma {:induction false} NameRunStops(s: string, t: string)
    requires t == "" || !NameChar(t[0])
    ensures NameRun(s + t) == NameRun(s)
  {
    if s == "" {
      assert s + t == t;
    } else if NameChar(s[0]) {
      NameRunStops(s[1..], t);
      assert (s + t)[1..] == s[1..] + t;
    }
  }

  lemma {:induction false} NameRunAll(n: string)
    requires forall c | c in n :: NameChar(c)
    ensures NameRun(n) == n
  {
    if n != "" {
      assert n[0] in n && forall c | c in n[1..] :: c in n;
      NameRunAll(n[1..]);
      assert n == [n[0]] + n[1..];
    }
  }

  /** A "$" ahead never completes a placeholder begun before it. */
  lemma FirstStops(s: string, t: string)
    requires s != "" && (t == "" || t[0] == '$')
    ensures First(s + t) == First(s)
  {
    if |s| >= 2 {
      NameRunStops(s[2..], t);
      assert (s + t)[2..] == s[2..] + t;
    }
  }

  /** Text up to a "$" is tokenised by itself. */
  lemma {:induction false} TokenizeConcat(s: string, t: string)
    requires t == "" || t[0] == '$'
    ensures Tokenize(s + t) == Tokenize(s) + Tokenize(t)
    decreases |s|
  {
    if s == "" {
      assert s + t == t;
    } else {
      FirstStops(s, t);
      var (front, k) := First(s);
      TokenizeConcat(s[k..], t);
      assert (s + t)[k..] == s[k..] + t;
      ConsConcat(front, Tokenize(s[k..]), Tokenize(t));
    }
  }

  lemma ConsConcat<T>(x: T, a: seq<T>, b: seq<T>)
    ensures [x] + (a + b) == [x] + a + b
    ensures ([x] + a)[1..] == a
  {}

  /** A placeholder is one token wherever it stands: whatever surrounds it neither hides
      it nor is changed by it. */
  lemma PlaceholderIsToken(a: string, name: string, b: string)
    requires Name(name)
    ensures Tokenize(a + Placeholder(name) + b) == Tokenize(a) + [Ref(name)] + Tokenize(b)
  {
    FirstPlaceholder(name, b);
    var t := Placeholder(name) + b;
    TokenizeConcat(a, t);
    TokenizeFront(t, name, b);
    Assoc(a, Placeholder(name), b);
    Assoc(Tokenize(a), [Ref(name)], Tokenize(b));
  }

  lemma TokenizeFront(t: string, name: string, b: string)
    requires t != "" && First(t) == (Ref(name), |name| + 3) && t[|name| + 3..] == b
    ensures Tokenize(t) == [Ref(name)] + Tokenize(b)
  {}

  lemma FirstPlaceholder(name: string, b: string)
    requires Name(name)
    ensures var t := Placeholder(name) + b;
            t != "" && t[0] == '$' && First(t) == (Ref(name), |name| + 3) && t[|name| + 3..] == b
  {
    var t := Placeholder(name) + b;
    var inner := "}" + b;
    assert t[2..] == name + inner;
    NameRunStops(name, inner);
    NameRunAll(name);
  }

  // ----- the expander -----

  lemma {:induction false} SubstituteConcat(env: Env, a: seq<Token>, b: seq<Token>)
    ensures Substitute(env, a + b) == Substitute(env, a) + Substitute(env, b)
  {
    if a == [] {
      assert a + b == b;
    } else {
      assert (a + b)[1..] == a[1..] + b && (a + b)[0] == a[0];
      SubstituteConcat(env, a[1..], b);
      Assoc(Meaning(env, a[0]), Substitute(env, a[1..]), Substitute(env, b));
    }
  }

  lemma {:induction false} MissingConcat(env: Env, a: seq<Token>, b: seq<Token>)
    ensures Missing(env, a + b) == Missing(env, a) + Missing(env, b)
  {
    if a == [] {
      assert a + b == b;
    } else {
      assert (a + b)[1..] == a[1..] + b && (a + b)[0] == a[0];
      MissingConcat(env, a[1..], b);
    }
  }

  lemma Assoc<T>(a: seq<T>, b: seq<T>, c: seq<T>)
    ensures a + (b + c) == a + b + c
  {}

  lemma {:induction false} MissingIff(env: Env, ts: seq<Token>)
    ensures forall n :: n in Missing(env, ts) <==> Ref(n) in ts && !Defined(env, n)
  {
    if ts != [] {
      MissingIff(env, ts[1..]);
      assert forall t :: t in ts <==> t == ts[0] || t in ts[1..];
    }
  }

  /** Expansion fails exactly when some placeholder of the string is unset or empty, and
      the error names exactly those. */
  lemma {:induction false} ExpandFailsIff(env: Env, s: string)
    ensures Expand(env, s).NotSet? <==> exists n :: Ref(n) in Tokenize(s) && (n !in env || env[n] == "")
    ensures Expand(env, s).NotSet? ==>
              forall n :: n in Expand(env, s).names <==> Ref(n) in Tokenize(s) && (n !in env || env[n] == "")
  {
    var ts := Tokenize(s);
    MissingIff(env, ts);
    if Missing(env, ts) != [] {
      var n := Missing(env, ts)[0];
      assert n in Missing(env, ts);
      assert Ref(n) in ts && !Defined(env, n);
    }
  }

  /** The names an expansion reports, in order. */
  function Unset(r: Expansion): seq<string> { match r case Expanded(_) => [] case NotSet(names) => names }

  /** Single pass: a placeholder is replaced by its value, taken literally. The value is
      not scanned again whatever it contains, and the text on either side expands as it
      would alone. */
  lemma ExpandPlaceholder(env: Env, a: string, name: string, b: string)
    requires Name(name)
    ensures Defined(env, name) && Expand(env, a).Expanded? && Expand(env, b).Expanded? ==>
              Expand(env, a + Placeholder(name) + b)
              == Expanded(Expand(env, a).text + env[name] + Expand(env, b).text)
    ensures !(Defined(env, name) && Expand(env, a).Expanded? && Expand(env, b).Expanded?) ==>
              Expand(env, a + Placeholder(name) + b).NotSet?
    ensures Unset(Expand(env, a + Placeholder(name) + b)) ==
            Unset(Expand(env, a)) + (if name in env && env[name] != "" then [] else [name]) + Unset(Expand(env, b))
  {
    PlaceholderIsToken(a, name, b);
    SubstituteAround(env, Tokenize(a), Ref(name), Tokenize(b));
  }

  lemma SubstituteAround(env: Env, a: seq<Token>, t: Token, b: seq<Token>)
    ensures Substitute(env, a + [t] + b) == Substitute(env, a) + Meaning(env, t) + Substitute(env, b)
    ensures Missing(env, a + [t] + b) == Missing(env, a) + Missing(env, [t]) + Missing(env, b)
    ensures Missing(env, [t]) == if t.Ref? && !Defined(env, t.name) then [t.name] else []
  {
    SubstituteConcat(env, a + [t], b);
    SubstituteConcat(env, a, [t]);
    MissingConcat(env, a + [t], b);
    MissingConcat(env, a, [t]);
    assert [t][1..] == [];
    assert Meaning(env, t) + "" == Meaning(env, t);
  }

  /** The fast path agrees with the full scan: without "${" a string expands to itself. */
  lemma {:induction false} FastPath(env: Env, s: string)
    requires !Contains(s, "${")
    ensures Expand(env, s) == Expanded(s)
  {
    if s != "" {
      FastPath(env, s[1..]);
      assert |s| >= 2 && s[0] == '$' && s[1] == '{' ==> "${" <= s;
      assert MatchFront(s).None?;
      assert Tokenize(s)[1..] == Tokenize(s[1..]);
      assert s == [s[0]] + s[1..];
    }
  }

  /** The scan of expandEnvString: builds the result and collects the missing names. */
  method ReplaceAll(env: Env, s: string) returns (out: string, missing: seq<string>)
    ensures out == Substitute(env, Tokenize(s)) && missing == Missing(env, Tokenize(s))
  {
    ghost var text, names := Substitute(env, Tokenize(s)), Missing(env, Tokenize(s));
    var rest := s;
    out, missing := "", [];
    while rest != ""
      invariant Scanned(env, rest, out, missing, text, names)
      decreases |rest|
    {
      TakeFirst(env, rest, out, missing, text, names);
      var (t, k) := First(rest);
      match t {
        case Chr(c) =>
          out := out + [c];
        case Ref(name) =>
          if Defined(env, name) {
            out := out + env[name];
          } else {
            missing := missing + [name];
            out := out + Placeholder(name);
          }
      }
      rest := rest[k..];
    }
    assert out + "" == out && missing + [] == missing;
  }

  /** expandEnvString. */
  method ExpandEnvString(env: Env, s: string) returns (r: Expansion)
    ensures r == Expand(env, s)
  {
    if !Contains(s, "${") {
      FastPath(env, s);
      return Expanded(s);
    }
    var out, missing := ReplaceAll(env, s);
    if missing != [] {
      return NotSet(missing);
    }
    return Expanded(out);
  }

  /** What the scan has found so far, completed by what is left of the string. */
  ghost predicate Scanned(env: Env, rest: string, out: string, missing: seq<string>, text: string, names: seq<string>) {
    out + Substitute(env, Tokenize(rest)) == text && missing + Missing(env, Tokenize(rest)) == names
  }

  /** One round of the scan. */
  lemma TakeFirst(env: Env, s: string, out: string, missing: seq<string>, text: string, names: seq<string>)
    requires s != "" && Scanned(env, s, out, missing, text, names)
    ensures var (t, k) := First(s);
            var gap := t.Ref? && !Defined(env, t.name);
            && (gap ==> Scanned(env, s[k..], out + Meaning(env, t), missing + [t.name], text, names))
            && (!gap ==> Scanned(env, s[k..], out + Meaning(env, t), missing, text, names))
  {
    var (t, k) := First(s);
    var rest := Tokenize(s[k..]);
    assert Tokenize(s) == [t] + rest;
    SubstituteAround(env, [], t, rest);
    assert [] + [t] + rest == [t] + rest;
    Associate(out, Meaning(env, t), Substitute(env, rest));
    Associate(missing, Missing(env, [t]), Missing(env, rest));
  }

  lemma Associate<T>(a: seq<T>, b: seq<T>, c: seq<T>)
    ensures a + ([] + b + c) == a + b + c
    ensures b == [] ==> a + b == a
  {}
}
