/** Reading a connection string that one more setting has been written behind: when the
    reader of Dsn finds the setting, and with which value. */
module ConnInfo {
  import opened Text
  import opened Dsn

  /** The setting `k=u` behind a blank. */
  function Setting(k: string, u: string): string { [' '] + (k + (['='] + u)) }

  /** The value a reading gives a keyword. */
  function Given(reading: Option<seq<Pair>>, k: string): Option<string> {
    match reading case None => None case Some(pairs) => Lookup(pairs, k)
  }

  /** A value that needs no quoting anywhere. */
  predicate Plain(v: string) {
    forall c | c in v :: !Space(c) && c != '\'' && c != '\\'
  }

  /** A bare value that ends in a backslash with nothing left to escape. */
  predicate Dangling(v: string) {
    v != "" && !Space(v[0]) &&
    if v[0] == '\\' then |v| == 1 || Dangling(v[2..]) else Dangling(v[1..])
  }

  /** How the reading of a text starts: it is empty, it is in error, or there is a keyword
      with `text` behind its equals sign. */
  datatype Front = Empty | Broken | At(key: string, text: string)

  function FrontOf(s: string): (f: Front)
    ensures f.At? ==> |f.text| < |s| && f.key != ""
  {
    if SkipSpace(s) == "" then Empty else FrontAt(SkipSpace(s))
  }

  function FrontAt(s: string): (f: Front)
    ensures f.At? ==> |f.text| < |s| && f.key != ""
    ensures !f.Empty?
  {
    var (key, s2) := ReadKey(s);
    var s3 := SkipSpace(s2);
    if key == "" || s3 == "" || s3[0] != '=' then Broken else At(key, SkipSpace(s3[1..]))
  }

  /** Nothing written behind `s` can run into its last value: every keyword of `s` has a
      value of its own, and the last one has ended. */
  predicate Closed(s: string)
    decreases |s|
  {
    match FrontOf(s)
    case Empty => true
    case Broken => false
    case At(_, v) =>
      v != "" && (v[0] == '\'' || !Dangling(v)) &&
      match ReadValue(v) case None => false case Some((_, rest)) => Closed(rest)
  }

  /** No keyword of `s`, as far as it can be read, is `k`. */
  predicate Silent(s: string, k: string)
    decreases |s|
  {
    match FrontOf(s)
    case Empty => true
    case Broken => true
    case At(key, v) =>
      key != k && match ReadValue(v) case None => true case Some((_, rest)) => Silent(rest, k)
  }

  lemma ParseFront(s: string)
    ensures Parse(s) ==
            match FrontOf(s)
            case Empty => Some([])
            case Broken => None
            case At(key, v) =>
              match ReadValue(v)
              case None => None
              case Some((val, rest)) =>
                match Parse(rest)
                case None => None
                case Some(pairs) => Some([Pair(key, val)] + pairs)
  {}

  // ----- lengths: what is read is never longer than what was written -----

  lemma {:induction false} BareLength(s: string)
    ensures |ReadBare(s).0| + |ReadBare(s).1| <= |s|
  {
    if s != "" && !Space(s[0]) {
      if s[0] != '\\' {
        BareLength(s[1..]);
      } else if |s| > 1 {
        BareLength(s[2..]);
      }
    }
  }

  lemma {:induction false} QuotedLength(s: string)
    ensures ReadQuoted(s).Some? ==> |ReadQuoted(s).value.0| + |ReadQuoted(s).value.1| < |s|
  {
    if s != "" && s[0] != '\'' {
      if s[0] != '\\' {
        QuotedLength(s[1..]);
      } else if |s| > 1 {
        QuotedLength(s[2..]);
      }
    }
  }

  lemma ValueLength(s: string)
    ensures ReadValue(s).Some? ==> |ReadValue(s).value.0| + |ReadValue(s).value.1| <= |s|
  {
    BareLength(s);
    if s != "" {
      QuotedLength(s[1..]);
    }
  }

  lemma {:induction false} PairsShorter(s: string)
    ensures Parse(s).Some? ==> forall q | q in Parse(s).value :: |q.val| < |s|
    decreases |s|
  {
    ParseFront(s);
    var f := FrontOf(s);
    if f.At? && Parse(s).Some? {
      ValueLength(f.text);
      PairsShorter(ReadValue(f.text).value.1);
    }
  }

  // ----- the readers on a text with more text behind it -----

  lemma {:induction false} SkipSpaceConcat(s: string, x: string)
    ensures SkipSpace(s + x) == if SkipSpace(s) == "" then SkipSpace(x) else SkipSpace(s) + x
  {
    if s == "" {
      assert s + x == x;
    } else {
      assert (s + x)[1..] == s[1..] + x;
      SkipSpaceConcat(s[1..], x);
    }
  }

  lemma {:induction false} ReadKeyConcat(s: string, x: string)
    requires x != "" && Space(x[0])
    ensures ReadKey(s + x) == (ReadKey(s).0, ReadKey(s).1 + x)
  {
    if s == "" {
      assert s + x == x && "" + x == x;
    } else {
      assert (s + x)[1..] == s[1..] + x;
      ReadKeyConcat(s[1..], x);
    }
  }

  lemma {:induction false} ReadBareConcat(v: string, x: string)
    requires x != "" && Space(x[0]) && !Dangling(v)
    ensures ReadBare(v + x) == (ReadBare(v).0, ReadBare(v).1 + x)
  {
    if v == "" {
      assert v + x == x && "" + x == x;
    } else if !Space(v[0]) {
      if v[0] == '\\' {
        assert (v + x)[2..] == v[2..] + x;
        ReadBareConcat(v[2..], x);
      } else {
        assert (v + x)[1..] == v[1..] + x;
        ReadBareConcat(v[1..], x);
      }
    }
  }

  lemma {:induction false} ReadQuotedConcat(s: string, x: string)
    requires ReadQuoted(s).Some?
    ensures ReadQuoted(s + x) == Some((ReadQuoted(s).value.0, ReadQuoted(s).value.1 + x))
  {
    if s[0] == '\\' {
      assert (s + x)[2..] == s[2..] + x;
      ReadQuotedConcat(s[2..], x);
    } else {
      assert (s + x)[1..] == s[1..] + x;
      if s[0] != '\'' {
        ReadQuotedConcat(s[1..], x);
      }
    }
  }

  lemma {:induction false} BareThrough(k: string, u: string)
    requires Plain(k)
    ensures |ReadBare(k + u).1| <= |u|
  {
    if k == "" {
      assert k + u == u;
    } else {
      assert k[0] in k && forall c | c in k[1..] :: c in k;
      assert (k + u)[1..] == k[1..] + u;
      BareThrough(k[1..], u);
    }
  }

  lemma {:induction false} QuotedThrough(k: string, u: string)
    requires forall c | c in k :: c != '\'' && c != '\\'
    ensures ReadQuoted(k + u).Some? ==> |ReadQuoted(k + u).value.1| <= |u|
  {
    if k == "" {
      assert k + u == u;
    } else {
      assert k[0] in k && forall c | c in k[1..] :: c in k;
      assert (k + u)[1..] == k[1..] + u;
      QuotedThrough(k[1..], u);
    }
  }

  lemma SettingSplits(k: string, u: string)
    requires Keyword(k)
    ensures Setting(k, u) == ([' '] + (k + ['='])) + u && Setting(k, u)[1..] == (k + ['=']) + u
    ensures Plain(k + ['=']) && forall c | c in [' '] + (k + ['=']) :: c != '\'' && c != '\\'
    ensures SkipSpace(Setting(k, u)) == k + (['='] + u)
  {
    var x := Setting(k, u);
    assert x[1..] == k + (['='] + u);
    assert k[0] in k && x[1..][0] == k[0];
    forall c | c in k + ['=']
      ensures !Space(c) && c != '\'' && c != '\\'
    {
      assert c in k || c == '=';
    }
    assert SkipSpace(x[1..]) == x[1..];
  }

  /** A dangling bare value swallows the setting. */
  lemma {:induction false} DanglingSwallows(v: string, k: string, u: string)
    requires Dangling(v) && Keyword(k)
    ensures |ReadBare(v + Setting(k, u)).1| <= |u|
  {
    var x := Setting(k, u);
    if |v| == 1 {
      SettingSplits(k, u);
      assert (v + x)[2..] == x[1..];
      BareThrough(k + ['='], u);
    } else if v[0] == '\\' {
      assert (v + x)[2..] == v[2..] + x;
      DanglingSwallows(v[2..], k, u);
    } else {
      assert (v + x)[1..] == v[1..] + x;
      DanglingSwallows(v[1..], k, u);
    }
  }

  /** So does a quoted value that has not ended. */
  lemma {:induction false} UnendedSwallows(s: string, k: string, u: string)
    requires ReadQuoted(s).None? && Keyword(k)
    ensures var r := ReadQuoted(s + Setting(k, u));
            r.Some? ==> |r.value.1| <= |u|
  {
    var x := Setting(k, u);
    SettingSplits(k, u);
    if s == "" {
      assert s + x == ([' '] + (k + ['='])) + u;
      QuotedThrough([' '] + (k + ['=']), u);
    } else if s[0] != '\\' {
      assert (s + x)[1..] == s[1..] + x;
      UnendedSwallows(s[1..], k, u);
    } else if |s| == 1 {
      assert (s + x)[2..] == (k + ['=']) + u;
      QuotedThrough(k + ['='], u);
    } else {
      assert (s + x)[2..] == s[2..] + x;
      UnendedSwallows(s[2..], k, u);
    }
  }

  // ----- the reading of the whole -----

  lemma FrontConcat(s: string, k: string, u: string)
    requires Keyword(k)
    ensures FrontOf(s + Setting(k, u)) ==
            match FrontOf(s)
            case Empty => At(k, SkipSpace(u))
            case Broken => Broken
            case At(key, v) => At(key, if v == "" then k + (['='] + u) else v + Setting(k, u))
  {
    var x := Setting(k, u);
    SettingSplits(k, u);
    SkipSpaceConcat(s, x);
    FrontOwn(k, u);
    assert k[0] in k && SkipSpace(x)[0] == k[0];
    if SkipSpace(s) != "" {
      FrontAtConcat(SkipSpace(s), x);
    }
  }

  lemma FrontOwn(k: string, u: string)
    requires Keyword(k)
    ensures FrontAt(k + (['='] + u)) == At(k, SkipSpace(u))
  {
    var s3 := ['='] + u;
    ReadKeyUpTo(k, s3);
    assert SkipSpace(s3) == s3 && s3[1..] == u;
  }

  lemma FrontAtConcat(s: string, x: string)
    requires x != "" && Space(x[0]) && SkipSpace(x) != "" && SkipSpace(x)[0] != '='
    ensures FrontAt(s + x) ==
            if FrontAt(s).Broken? then Broken
            else At(FrontAt(s).key, if FrontAt(s).text == "" then SkipSpace(x) else FrontAt(s).text + x)
  {
    ReadKeyConcat(s, x);
    var s2 := ReadKey(s).1;
    SkipSpaceConcat(s2, x);
    var s3 := SkipSpace(s2);
    if s3 != "" {
      assert (s3 + x)[1..] == s3[1..] + x;
      SkipSpaceConcat(s3[1..], x);
    }
  }

  /** The setting by itself. */
  lemma OwnSetting(k: string, u: string)
    requires Keyword(k)
    ensures Parse(Setting(k, u)) ==
            match ReadValue(SkipSpace(u))
            case None => None
            case Some((val, rest)) =>
              match Parse(rest) case None => None case Some(pairs) => Some([Pair(k, val)] + pairs)
  {
    assert "" + Setting(k, u) == Setting(k, u);
    FrontConcat("", k, u);
    ParseFront(Setting(k, u));
  }

  lemma ReadQuotedValueConcat(v: string, x: string)
    requires v != "" && v[0] == '\'' && ReadQuoted(v[1..]).Some?
    ensures ReadValue(v + x) == Some((ReadQuoted(v[1..]).value.0, ReadQuoted(v[1..]).value.1 + x))
  {
    ReadQuotedConcat(v[1..], x);
    assert (v + x)[1..] == v[1..] + x;
  }

  lemma ReadValueConcat(v: string, x: string)
    requires x != "" && Space(x[0]) && v != "" && (v[0] == '\'' || !Dangling(v)) && ReadValue(v).Some?
    ensures ReadValue(v + x) == Some((ReadValue(v).value.0, ReadValue(v).value.1 + x))
  {
    if v[0] == '\'' {
      ReadQuotedValueConcat(v, x);
    } else {
      ReadBareConcat(v, x);
    }
  }

  function Before(q: Pair, reading: Option<seq<Pair>>): Option<seq<Pair>> {
    match reading case None => None case Some(pairs) => Some([q] + pairs)
  }

  function Both(a: Option<seq<Pair>>, b: Option<seq<Pair>>): Option<seq<Pair>> {
    if a.Some? && b.Some? then Some(a.value + b.value) else None
  }

  lemma BeforeBoth(q: Pair, a: Option<seq<Pair>>, b: Option<seq<Pair>>)
    ensures Before(q, Both(a, b)) == Both(Before(q, a), b)
  {
    if a.Some? && b.Some? {
      assert [q] + (a.value + b.value) == [q] + a.value + b.value;
    }
  }

  lemma EmptyBoth(b: Option<seq<Pair>>)
    ensures Both(Some([]), b) == b
  {
    if b.Some? {
      assert [] + b.value == b.value;
    }
  }

  lemma ParseAt(s: string, key: string, v: string, val: string, rest: string)
    requires FrontOf(s) == At(key, v) && ReadValue(v) == Some((val, rest))
    ensures Parse(s) == Before(Pair(key, val), Parse(rest))
  {
    ParseFront(s);
  }

  /** Behind a closed text the setting is read by itself. */
  lemma {:induction false} ExtendClosed(s: string, k: string, u: string)
    requires Closed(s) && Keyword(k)
    ensures Parse(s).Some?
    ensures Parse(s + Setting(k, u)) == Both(Parse(s), Parse(Setting(k, u)))
    decreases |s|
  {
    FrontConcat(s, k, u);
    match FrontOf(s)
    case Empty =>
      OwnSetting(k, u);
      ParseFront(s);
      ParseFront(s + Setting(k, u));
      EmptyBoth(Parse(Setting(k, u)));
    case At(key, v) =>
      var x := Setting(k, u);
      ReadValueConcat(v, x);
      var (val, rest) := ReadValue(v).value;
      ExtendClosed(rest, k, u);
      ParseAt(s, key, v, val, rest);
      ParseAt(s + x, key, v + x, val, rest + x);
      BeforeBoth(Pair(key, val), Parse(rest), Parse(x));
  }

  /** A last value that has not ended swallows the setting. */
  lemma OpenSwallows(v: string, k: string, u: string)
    requires Keyword(k) && (v == "" || ReadValue(v).None? || (v[0] != '\'' && Dangling(v)))
    ensures var r := ReadValue(if v == "" then k + (['='] + u) else v + Setting(k, u));
            r.Some? ==> |r.value.1| <= |u|
  {
    SettingSplits(k, u);
    if v == "" {
      assert k[0] in k && k + (['='] + u) == (k + ['=']) + u;
      BareThrough(k + ['='], u);
    } else if v[0] == '\'' {
      assert (v + Setting(k, u))[1..] == v[1..] + Setting(k, u);
      UnendedSwallows(v[1..], k, u);
    } else {
      DanglingSwallows(v, k, u);
    }
  }

  /** No pair of the reading gives `k` a value as long as `u`. */
  ghost predicate ShortOf(reading: Option<seq<Pair>>, k: string, u: string) {
    reading.Some? ==> forall q | q in reading.value && q.key == k :: |q.val| < |u|
  }

  /** Behind a text that is not closed it is not: whatever is read, no value given to `k`
      is as long as `u`. */
  lemma {:induction false} ExtendOpen(s: string, k: string, u: string)
    requires !Closed(s) && Silent(s, k) && Keyword(k)
    ensures ShortOf(Parse(s + Setting(k, u)), k, u)
    decreases |s|
  {
    var x := Setting(k, u);
    FrontConcat(s, k, u);
    ParseFront(s + x);
    match FrontOf(s)
    case Broken =>
    case At(key, v) =>
      if v == "" || ReadValue(v).None? || (v[0] != '\'' && Dangling(v)) {
        OpenSwallows(v, k, u);
        var r := ReadValue(if v == "" then k + (['='] + u) else v + x);
        if r.Some? {
          PairsShorter(r.value.1);
        }
      } else {
        ReadValueConcat(v, x);
        ExtendOpen(ReadValue(v).value.1, k, u);
      }
  }

  // ----- the value read back -----

  lemma {:induction false} LookupIn(pairs: seq<Pair>, k: string)
    ensures Lookup(pairs, k).Some? ==> Pair(k, Lookup(pairs, k).value) in pairs
  {
    if pairs != [] && pairs[|pairs| - 1].key != k {
      LookupIn(pairs[..|pairs| - 1], k);
    }
  }

  lemma {:induction false} SilentGivesNone(s: string, k: string)
    requires Silent(s, k)
    ensures Given(Parse(s), k) == None
    decreases |s|
  {
    ParseFront(s);
    var f := FrontOf(s);
    if f.At? && ReadValue(f.text).Some? {
      var (val, rest) := ReadValue(f.text).value;
      SilentGivesNone(rest, k);
      if Parse(rest).Some? {
        LookupConcat([Pair(f.key, val)], Parse(rest).value, k);
        assert [Pair(f.key, val)][..0] == [];
      }
    }
  }

  lemma PlainOwn(k: string, app: string)
    requires Keyword(k) && Plain(app)
    ensures Parse(Setting(k, app)) == Some([Pair(k, app)])
  {
    OwnSetting(k, app);
    if app != "" {
      assert app[0] in app;
      ReadBareUpTo(app, "");
      assert app + "" == app;
    }
    assert Parse("") == Some([]) && [Pair(k, app)] + [] == [Pair(k, app)];
  }

  /** A bare value is as long as its text only if it is the text, without a space. */
  lemma {:induction false} BareWhole(s: string)
    requires |ReadBare(s).0| == |s|
    ensures forall c | c in s :: !Space(c) && c != '\\'
  {
    if s != "" {
      if s[0] == '\\' {
        if |s| > 1 {
          BareLength(s[2..]);
        }
      } else if !Space(s[0]) {
        BareLength(s[1..]);
        BareWhole(s[1..]);
        assert s == [s[0]] + s[1..];
      }
    }
  }

  /** Only a plain value comes back from its own setting. */
  lemma OwnGivesOnlyPlain(k: string, app: string)
    requires Keyword(k) && '\'' !in app && Given(Parse(Setting(k, app)), k) == Some(app)
    ensures Plain(app)
  {
    OwnSetting(k, app);
    var v := SkipSpace(app);
    ValueLength(v);
    var (val, rest) := ReadValue(v).value;
    PairsShorter(rest);
    var others := Parse(rest).value;
    LookupConcat([Pair(k, val)], others, k);
    LookupIn(others, k);
    assert [Pair(k, val)][..0] == [];
    assert val == app;
    SkipSpaceLength(app);
    BareWhole(app);
  }

  lemma {:induction false} SkipSpaceLength(s: string)
    ensures SkipSpace(s) == s || |SkipSpace(s)| < |s|
  {}

  /** Behind a text that does not give `k`, the setting written with `u`, which is `app` or
      shorter, gives `k` the value `app` exactly when the text is closed, `u` is `app`, and
      `app` needs no quoting. */
  lemma GivenIff(s: string, k: string, u: string, app: string)
    requires Silent(s, k) && Keyword(k)
    requires |u| < |app| || (u == app && '\'' !in app)
    ensures Given(Parse(s + Setting(k, u)), k) == Some(app) <==> Closed(s) && u == app && Plain(app)
  {
    if Closed(s) {
      ClosedGivenIff(s, k, u, app);
    } else {
      ExtendOpen(s, k, u);
      if Parse(s + Setting(k, u)).Some? {
        LookupIn(Parse(s + Setting(k, u)).value, k);
      }
    }
  }

  lemma OwnGivesShort(k: string, u: string)
    requires Keyword(k)
    ensures var g := Given(Parse(Setting(k, u)), k);
            g.Some? ==> |g.value| <= |u|
  {
    OwnSetting(k, u);
    var v := SkipSpace(u);
    ValueLength(v);
    if Parse(Setting(k, u)).Some? {
      var (val, rest) := ReadValue(v).value;
      PairsShorter(rest);
      LookupIn(Parse(Setting(k, u)).value, k);
    }
  }

  /** A setting that can be read gives its keyword some value. */
  lemma OwnGivesSome(k: string, u: string)
    requires Keyword(k)
    ensures Parse(Setting(k, u)).Some? ==> Given(Parse(Setting(k, u)), k).Some?
  {
    OwnSetting(k, u);
    if Parse(Setting(k, u)).Some? {
      var (val, rest) := ReadValue(SkipSpace(u)).value;
      LookupConcat([Pair(k, val)], Parse(rest).value, k);
    }
  }

  /** Behind a closed text, whatever it gave `k`, the setting gives `k` the value `app`
      exactly when it was written with `app` and that needs no quoting. */
  lemma ClosedGivenIff(s: string, k: string, u: string, app: string)
    requires Closed(s) && Keyword(k)
    requires |u| < |app| || (u == app && '\'' !in app)
    ensures Given(Parse(s + Setting(k, u)), k) == Some(app) <==> u == app && Plain(app)
  {
    var own := Parse(Setting(k, u));
    ExtendClosed(s, k, u);
    OwnGivesSome(k, u);
    if own.Some? {
      LookupConcat(Parse(s).value, own.value, k);
    }
    assert Given(Parse(s + Setting(k, u)), k) == Given(own, k);
    OwnGivesShort(k, u);
    if u == app {
      if Plain(app) {
        PlainOwn(k, app);
        assert [Pair(k, app)][..0] == [];
      } else if Given(own, k) == Some(app) {
        OwnGivesOnlyPlain(k, app);
      }
    }
  }

  // ----- texts that are not closed -----

  /** How the reading of a text ends: all is well; it is in error; or, behind the pairs that
      are settled, there is a keyword whose value, beginning with `text`, has not ended. */
  datatype Ending = Ended | Failed | Open(settled: seq<Pair>, key: string, text: string)

  predicate Unended(v: string) { v == "" || ReadValue(v).None? || (v[0] != '\'' && Dangling(v)) }

  function EndingOf(s: string): (e: Ending)
    ensures e.Open? ==> Unended(e.text)
    decreases |s|
  {
    match FrontOf(s)
    case Empty => Ended
    case Broken => Failed
    case At(key, v) =>
      if Unended(v) then Open([], key, v)
      else
        var (val, rest) := ReadValue(v).value;
        match EndingOf(rest)
        case Open(settled, k, text) => Open([Pair(key, val)] + settled, k, text)
        case e => e
  }

  lemma {:induction false} ClosedIsEnded(s: string)
    ensures Closed(s) <==> EndingOf(s) == Ended
    decreases |s|
  {
    var f := FrontOf(s);
    if f.At? && !Unended(f.text) {
      ClosedIsEnded(ReadValue(f.text).value.1);
    }
  }

  /** The unended value with the setting behind it. */
  function Swallowing(v: string, k: string, u: string): string {
    if v == "" then k + (['='] + u) else v + Setting(k, u)
  }

  /** What is read when the setting runs into the unended value. */
  function ReadThrough(e: Ending, k: string, u: string): Option<seq<Pair>>
    requires e.Open?
  {
    match ReadValue(Swallowing(e.text, k, u))
    case None => None
    case Some((val, rest)) => Both(Some(e.settled + [Pair(e.key, val)]), Parse(rest))
  }

  lemma BeforeThrough(q: Pair, settled: seq<Pair>, key: string, text: string, k: string, u: string)
    ensures Before(q, ReadThrough(Open(settled, key, text), k, u)) == ReadThrough(Open([q] + settled, key, text), k, u)
  {
    match ReadValue(Swallowing(text, k, u))
    case None =>
    case Some((val, rest)) =>
      BeforeBoth(q, Some(settled + [Pair(key, val)]), Parse(rest));
      assert [q] + (settled + [Pair(key, val)]) == [q] + settled + [Pair(key, val)];
  }

  /** The reading of any text with a setting behind it that is not closed. */
  lemma {:induction false} ExtendOpenReads(s: string, k: string, u: string)
    requires Keyword(k) && !Closed(s)
    ensures !EndingOf(s).Ended?
    ensures Parse(s + Setting(k, u)) == if EndingOf(s).Open? then ReadThrough(EndingOf(s), k, u) else None
    decreases |s|
  {
    var x := Setting(k, u);
    FrontConcat(s, k, u);
    match FrontOf(s)
    case Broken => ParseFront(s + x);
    case At(key, v) =>
      if Unended(v) {
        UnendedReads(s + x, key, v, k, u);
      } else {
        ReadValueConcat(v, x);
        var (val, rest) := ReadValue(v).value;
        ExtendOpenReads(rest, k, u);
        ParseAt(s + x, key, v + x, val, rest + x);
        if EndingOf(rest).Open? {
          var e := EndingOf(rest);
          BeforeThrough(Pair(key, val), e.settled, e.key, e.text, k, u);
        }
      }
  }

  lemma UnendedReads(t: string, key: string, v: string, k: string, u: string)
    requires FrontOf(t) == At(key, Swallowing(v, k, u))
    ensures Parse(t) == ReadThrough(Open([], key, v), k, u)
  {
    ParseFront(t);
    match ReadValue(Swallowing(v, k, u))
    case None =>
    case Some((val, rest)) => assert [] + [Pair(key, val)] == [Pair(key, val)];
  }

  /** The value `app` is read in spite of the unended value: that value ends within the
      setting, what is left of it can be read and gives `k` nothing, and `app` is what the
      settled pairs gave `k`, or the grown value itself if the keyword is `k`. */
  predicate Survives(e: Ending, k: string, u: string, app: string) {
    e.Open? &&
    match ReadValue(Swallowing(e.text, k, u))
    case None => false
    case Some((val, rest)) =>
      && Parse(rest).Some? && Lookup(Parse(rest).value, k) == None
      && if e.key == k then val == app else Lookup(e.settled, k) == Some(app)
  }

  lemma LookupThrough(settled: seq<Pair>, key: string, val: string, others: seq<Pair>, k: string)
    ensures Lookup(settled + [Pair(key, val)] + others, k) ==
            Either(Lookup(others, k), if key == k then Some(val) else Lookup(settled, k))
  {
    LookupConcat(settled + [Pair(key, val)], others, k);
    assert (settled + [Pair(key, val)])[..|settled|] == settled;
  }

  /** Behind a text that is not closed the value `app` is read exactly when it survives. */
  lemma OpenGivenIff(s: string, k: string, u: string, app: string)
    requires !Closed(s) && Keyword(k) && |u| <= |app|
    ensures Given(Parse(s + Setting(k, u)), k) == Some(app) <==> Survives(EndingOf(s), k, u, app)
  {
    ExtendOpenReads(s, k, u);
    var e := EndingOf(s);
    if e.Open? {
      OpenSwallows(e.text, k, u);
      match ReadValue(Swallowing(e.text, k, u))
      case None =>
      case Some((val, rest)) =>
        PairsShorter(rest);
        if Parse(rest).Some? {
          LookupIn(Parse(rest).value, k);
          LookupThrough(e.settled, e.key, val, Parse(rest).value, k);
        }
    }
  }

  /** Text without quotes and backslashes never ends a quoted value. */
  lemma {:induction false} NeverEnds(s: string, x: string)
    requires ReadQuoted(s).None? && forall c | c in x :: c != '\'' && c != '\\'
    ensures ReadQuoted(s + x).None?
    decreases |s| + |x|
  {
    if s == "" {
      assert s + x == x;
      if x != "" {
        assert x[0] in x && forall c | c in x[1..] :: c in x;
        NeverEnds("", x[1..]);
        assert "" + x[1..] == x[1..];
      }
    } else if s[0] != '\\' {
      assert (s + x)[1..] == s[1..] + x;
      NeverEnds(s[1..], x);
    } else if |s| > 1 {
      assert (s + x)[2..] == s[2..] + x;
      NeverEnds(s[2..], x);
    } else if x != "" {
      assert (s + x)[2..] == x[1..] && forall c | c in x[1..] :: c in x;
      NeverEnds("", x[1..]);
      assert "" + x[1..] == x[1..];
    }
  }

  /** A dangling value takes in a setting with a plain value to its end. */
  lemma {:induction false} DanglingTakesAll(v: string, k: string, app: string)
    requires Dangling(v) && Keyword(k) && Plain(app)
    ensures ReadBare(v + Setting(k, app)).1 == "" && |ReadBare(v + Setting(k, app)).0| > |app|
  {
    var x := Setting(k, app);
    if |v| == 1 {
      SettingSplits(k, app);
      var t := (k + ['=']) + app;
      assert (v + x)[2..] == t;
      assert forall c | c in t :: c in k + ['='] || c in app;
      ReadBareUpTo(t, "");
      assert t + "" == t;
    } else if v[0] == '\\' {
      assert (v + x)[2..] == v[2..] + x;
      DanglingTakesAll(v[2..], k, app);
    } else {
      assert (v + x)[1..] == v[1..] + x;
      DanglingTakesAll(v[1..], k, app);
    }
  }

  lemma EmptyTakesAll(k: string, app: string)
    requires Keyword(k) && Plain(app)
    ensures ReadValue(k + (['='] + app)) == Some((k + (['='] + app), ""))
  {
    var t := k + (['='] + app);
    SettingSplits(k, app);
    assert t == (k + ['=']) + app && t[0] == k[0] && k[0] in k;
    assert forall c | c in t :: c in k + ['='] || c in app;
    ReadBareUpTo(t, "");
    assert t + "" == t;
  }

  /** For a value that needs no quoting it comes down to this: the unended value is not
      quoted and not given to `k`, and the settled pairs give `k` the value already. */
  lemma SurvivesPlain(e: Ending, k: string, app: string)
    requires Keyword(k) && Plain(app) && (e.Open? ==> Unended(e.text))
    ensures Survives(e, k, app, app) <==>
            && e.Open? && (e.text == "" || e.text[0] != '\'')
            && e.key != k && Lookup(e.settled, k) == Some(app)
  {
    if e.Open? {
      var v := e.text;
      if v == "" {
        EmptyTakesAll(k, app);
      } else if v[0] == '\'' {
        SettingSplits(k, app);
        var x := Setting(k, app);
        forall c | c in x
          ensures c != '\'' && c != '\\'
        {
          assert c in [' '] + (k + ['=']) || c in app;
        }
        NeverEnds(v[1..], x);
        assert (v + x)[1..] == v[1..] + x;
      } else {
        DanglingTakesAll(v, k, app);
      }
    }
  }
}
