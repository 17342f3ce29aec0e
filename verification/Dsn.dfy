/** Connection strings (internal/config/config.go): the printer `buildDSN` with its
    quoting, and the keyword/value grammar of libpq that reads them back (section
    34.1.1.1 of the PostgreSQL 16 documentation). */
module Dsn {
  import opened Text

  datatype Pair = Pair(key: string, val: string)

  // ----- the printer -----

  predicate NeedsQuotes(v: string) { ' ' in v || '\'' in v || '\\' in v }

  /** The replacer: backslash and quote each gain a backslash, in one pass. */
  function Escape(v: string): string {
    if v == "" then ""
    else if v[0] == '\\' || v[0] == '\'' then ['\\', v[0]] + Escape(v[1..])
    else [v[0]] + Escape(v[1..])
  }

  function QuoteValue(v: string): string {
    if v == "" then "''"
    else if !NeedsQuotes(v) then v
    else "'" + Escape(v) + "'"
  }

  function PrintPair(p: Pair): string { p.key + "=" + QuoteValue(p.val) }

  function Words(pairs: seq<Pair>): (words: seq<string>)
    ensures |words| == |pairs| && forall i | 0 <= i < |pairs| :: words[i] == PrintPair(pairs[i])
  {
    seq(|pairs|, i requires 0 <= i < |pairs| => PrintPair(pairs[i]))
  }

  /** The pairs with a blank between each two. */
  function PrintPairs(pairs: seq<Pair>): string { Join(Words(pairs), ' ') }

  // ----- the reader -----

  predicate Space(c: char) {
    c == ' ' || c == '\t' || c == '\n' || c == '\r' || c == 11 as char || c == 12 as char
  }

  function SkipSpace(s: string): (rest: string)
    ensures |rest| <= |s| && (rest != "" ==> !Space(rest[0]))
  {
    if s != "" && Space(s[0]) then SkipSpace(s[1..]) else s
  }

  /** A keyword: everything up to "=" or a space. */
  function ReadKey(s: string): (r: (string, string))
    ensures r.0 + r.1 == s
  {
    if s == "" || s[0] == '=' || Space(s[0]) then ("", s)
    else var (key, rest) := ReadKey(s[1..]); ([s[0]] + key, rest)
  }

  /** A bare value: up to a space; a backslash makes the next character literal. */
  function ReadBare(s: string): (r: (string, string))
    ensures |r.1| <= |s|
  {
    if s == "" || Space(s[0]) then ("", s)
    else if s[0] == '\\' then
      if |s| == 1 then ("", "")
      else var (v, rest) := ReadBare(s[2..]); ([s[1]] + v, rest)
    else var (v, rest) := ReadBare(s[1..]); ([s[0]] + v, rest)
  }

  /** A quoted value, after its opening quote; None if it is never closed. */
  function ReadQuoted(s: string): (r: Option<(string, string)>)
    ensures r.Some? ==> |r.value.1| < |s|
  {
    if s == "" then None
    else if s[0] == '\'' then Some(("", s[1..]))
    else if s[0] == '\\' then
      if |s| == 1 then None
      else match ReadQuoted(s[2..])
        case None => None
        case Some((v, rest)) => Some(([s[1]] + v, rest))
    else match ReadQuoted(s[1..])
      case None => None
      case Some((v, rest)) => Some(([s[0]] + v, rest))
  }

  function ReadValue(s: string): (r: Option<(string, string)>)
    ensures r.Some? ==> |r.value.1| <= |s|
  {
    if s != "" && s[0] == '\'' then ReadQuoted(s[1..]) else Some(ReadBare(s))
  }

  /** keyword [spaces] = [spaces] value, repeated; None on a syntax error. */
  function Parse(s: string): Option<seq<Pair>>
    decreases |s|
  {
    var s1 := SkipSpace(s);
    if s1 == "" then Some([])
    else
      var (key, s2) := ReadKey(s1);
      var s3 := SkipSpace(s2);
      if key == "" || s3 == "" || s3[0] != '=' then None
      else
        match ReadValue(SkipSpace(s3[1..]))
        case None => None
        case Some((val, rest)) =>
          match Parse(rest)
          case None => None
          case Some(pairs) => Some([Pair(key, val)] + pairs)
  }

  // ----- printing and reading back -----

  predicate Keyword(k: string) {
    k != "" && forall c | c in k :: 'a' <= c <= 'z' || c == '_'
  }

  /** A value the quoting rule protects: quoted, or free of the white space other than
      the blank, which the rule does not look for. */
  predicate Printable(v: string) {
    NeedsQuotes(v) || forall c | c in v :: !Space(c)
  }

  ghost predicate AllKeywords(pairs: seq<Pair>) { forall q | q in pairs :: Keyword(q.key) }

  ghost predicate AllPrintable(pairs: seq<Pair>) { forall q | q in pairs :: Printable(q.val) }

  lemma {:induction false} ReadEscaped(v: string, rest: string)
    ensures ReadQuoted(Escape(v) + "'" + rest) == Some((v, rest))
  {
    var s := Escape(v) + "'" + rest;
    if v == "" {
      assert s == "'" + rest;
    } else {
      ReadEscaped(v[1..], rest);
      var tail := Escape(v[1..]) + "'" + rest;
      if v[0] == '\\' || v[0] == '\'' {
        assert s == ['\\', v[0]] + tail;
        assert s[2..] == tail;
      } else {
        assert s == [v[0]] + tail;
        assert s[1..] == tail;
      }
      assert v == [v[0]] + v[1..];
    }
  }

  /** Without backslashes a bare value is read up to the first space, or the end. */
  lemma {:induction false} ReadBareUpTo(a: string, rest: string)
    requires forall c | c in a :: !Space(c) && c != '\\'
    requires rest == "" || Space(rest[0])
    ensures ReadBare(a + rest) == (a, rest)
  {
    if a == "" {
      assert a + rest == rest;
    } else {
      assert a[0] in a && forall c | c in a[1..] :: c in a;
      ReadBareUpTo(a[1..], rest);
      assert (a + rest)[1..] == a[1..] + rest;
      assert a == [a[0]] + a[1..];
    }
  }

  lemma {:induction false} ReadKeyUpTo(k: string, rest: string)
    requires forall c | c in k :: 'a' <= c <= 'z' || c == '_'
    requires rest != "" && rest[0] == '='
    ensures ReadKey(k + rest) == (k, rest)
  {
    if k == "" {
      assert k + rest == rest;
    } else {
      assert k[0] in k && forall c | c in k[1..] :: c in k;
      ReadKeyUpTo(k[1..], rest);
      assert (k + rest)[1..] == k[1..] + rest;
      assert k == [k[0]] + k[1..];
    }
  }

  /** What can follow a printed value: nothing, or a blank and a keyword's first letter. */
  predicate Follows(rest: string) {
    rest == "" || (|rest| > 1 && rest[0] == ' ' && ('a' <= rest[1] <= 'z' || rest[1] == '_'))
  }

  lemma ReadQuotedValue(inner: string, v: string, rest: string)
    requires ReadQuoted(inner) == Some((v, rest))
    ensures ReadValue(SkipSpace(['\''] + inner)) == Some((v, rest))
  {
    var s := ['\''] + inner;
    assert s[1..] == inner && SkipSpace(s) == s;
  }

  lemma QuoteFirst(e: string, rest: string)
    ensures "'" + e + "'" + rest == ['\''] + (e + "'" + rest)
  {}

  lemma QuotedForm(v: string)
    requires v == "" || NeedsQuotes(v)
    ensures QuoteValue(v) == "'" + Escape(v) + "'"
  {}

  lemma ReadBareValue(v: string, rest: string)
    requires v != "" && v[0] != '\'' && (forall c | c in v :: !Space(c) && c != '\\')
    requires rest == "" || Space(rest[0])
    ensures ReadValue(SkipSpace(v + rest)) == Some((v, rest))
  {
    var s := v + rest;
    assert v[0] in v && s[0] == v[0];
    ReadBareUpTo(v, rest);
  }

  lemma ReadPrintable(v: string, rest: string)
    requires Printable(v) && Follows(rest)
    ensures ReadValue(SkipSpace(QuoteValue(v) + rest)) == Some((v, rest))
  {
    if v == "" || NeedsQuotes(v) {
      QuotedForm(v);
      QuoteFirst(Escape(v), rest);
      ReadEscaped(v, rest);
      ReadQuotedValue(Escape(v) + "'" + rest, v, rest);
    } else {
      assert v[0] in v;
      ReadBareValue(v, rest);
    }
  }

  lemma {:induction false} FirstSpace(v: string) returns (a: string, b: string)
    requires exists c :: c in v && Space(c)
    ensures v == a + b && b != "" && Space(b[0]) && forall c | c in a :: !Space(c)
  {
    if Space(v[0]) {
      a, b := "", v;
    } else {
      a, b := FirstSpace(v[1..]);
      a := [v[0]] + a;
    }
  }

  lemma {:induction false} SkipSpaceKeepsTail(v: string, rest: string)
    ensures var s := SkipSpace(v + rest);
            s == SkipSpace(rest) || (s != "" && s[0] in v)
  {
    if v == "" {
      assert v + rest == rest;
    } else if Space(v[0]) {
      SkipSpaceKeepsTail(v[1..], rest);
      assert (v + rest)[1..] == v[1..] + rest;
    }
  }

  /** Any other value is never read back: reading stops at, or starts after, its space. */
  lemma ReadUnprintable(v: string, rest: string)
    requires !Printable(v) && Follows(rest)
    ensures var r := ReadValue(SkipSpace(QuoteValue(v) + rest));
            r.Some? ==> r.value.0 != v
  {
    assert QuoteValue(v) == v;
    if Space(v[0]) {
      SkipSpaceKeepsTail(v, rest);
      var s := SkipSpace(v + rest);
      if s != "" {
        assert s[0] != '\'' && s[0] != '\\' && ReadBare(s).0[0] == s[0];
      }
    } else {
      var a, b := FirstSpace(v);
      assert a != "" && a[0] == v[0] && (v + rest)[0] == v[0];
      assert forall c | c in a :: c in v;
      assert v + rest == a + (b + rest);
      ReadBareUpTo(a, b + rest);
      assert v[0] in v;
    }
  }

  /** What follows the first pair. */
  function Tail(pairs: seq<Pair>): string
    requires pairs != []
  {
    if |pairs| == 1 then "" else [' '] + PrintPairs(pairs[1..])
  }

  lemma PrintHead(pairs: seq<Pair>)
    requires pairs != [] && pairs[0].key != ""
    ensures PrintPairs(pairs) == pairs[0].key + (['='] + (QuoteValue(pairs[0].val) + Tail(pairs)))
    ensures PrintPairs(pairs) != "" && PrintPairs(pairs)[0] == pairs[0].key[0]
  {
    assert |pairs| > 1 ==> Words(pairs)[1..] == Words(pairs[1..]);
    Regroup(pairs[0].key, ['='], QuoteValue(pairs[0].val), Tail(pairs));
    assert PrintPairs(pairs) == PrintPair(pairs[0]) + Tail(pairs);
  }

  lemma Regroup(a: string, b: string, c: string, d: string)
    ensures a + b + c + d == a + (b + (c + d))
  {}

  lemma ParseOne(s: string, key: string, body: string)
    requires Keyword(key) && s == key + (['='] + body)
    ensures Parse(s) ==
            match ReadValue(SkipSpace(body))
            case None => None
            case Some((val, tail)) =>
              match Parse(tail)
              case None => None
              case Some(others) => Some([Pair(key, val)] + others)
  {
    assert key[0] in key;
    assert SkipSpace(s) == s;
    ReadKeyUpTo(key, ['='] + body);
    assert SkipSpace(['='] + body) == ['='] + body;
    assert (['='] + body)[1..] == body;
  }

  /** One pair is read off the front of a printed list. */
  lemma ParseHead(pairs: seq<Pair>)
    requires pairs != [] && AllKeywords(pairs)
    ensures Follows(Tail(pairs))
    ensures Parse(PrintPairs(pairs)) ==
            match ReadValue(SkipSpace(QuoteValue(pairs[0].val) + Tail(pairs)))
            case None => None
            case Some((val, tail)) =>
              match Parse(tail)
              case None => None
              case Some(others) => Some([Pair(pairs[0].key, val)] + others)
  {
    assert pairs[0] in pairs;
    PrintHead(pairs);
    if |pairs| > 1 {
      assert pairs[1] in pairs;
      PrintHead(pairs[1..]);
      assert pairs[1].key[0] in pairs[1].key;
    }
    ParseOne(PrintPairs(pairs), pairs[0].key, QuoteValue(pairs[0].val) + Tail(pairs));
  }

  /** Leading blanks do not matter. */
  lemma ParseAfterBlank(s: string)
    ensures Parse([' '] + s) == Parse(s)
  {
    assert ([' '] + s)[1..] == s;
    assert SkipSpace([' '] + s) == SkipSpace(s);
  }

  lemma ParseTail(pairs: seq<Pair>)
    requires pairs != []
    ensures Parse(Tail(pairs)) == Parse(PrintPairs(pairs[1..]))
  {
    if |pairs| == 1 {
      assert PrintPairs(pairs[1..]) == "";
    } else {
      ParseAfterBlank(PrintPairs(pairs[1..]));
    }
  }

  /** The round trip: a printed list of pairs is read back as exactly those pairs if and
      only if every value is one the quoting rule protects. */
  lemma {:induction false} RoundTripIff(pairs: seq<Pair>)
    requires AllKeywords(pairs)
    ensures Parse(PrintPairs(pairs)) == Some(pairs) <==> AllPrintable(pairs)
  {
    if pairs != [] {
      var first, others := pairs[0], pairs[1..];
      ParseHead(pairs);
      ParseTail(pairs);
      assert pairs == [first] + others;
      assert forall p :: p in pairs <==> p == first || p in others;
      RoundTripIff(others);
      if Printable(first.val) {
        ReadPrintable(first.val, Tail(pairs));
        ConsEqual(first, Parse(Tail(pairs)), others);
      } else {
        ReadUnprintable(first.val, Tail(pairs));
      }
    }
  }

  lemma ConsEqual(x: Pair, r: Option<seq<Pair>>, others: seq<Pair>)
    ensures r.Some? ==> ([x] + r.value == [x] + others <==> r.value == others)
  {
    if r.Some? && [x] + r.value == [x] + others {
      assert r.value == ([x] + r.value)[1..] == ([x] + others)[1..] == others;
    }
  }

  lemma PrintConcat(a: seq<Pair>, b: seq<Pair>)
    requires a != [] && b != []
    ensures PrintPairs(a + b) == PrintPairs(a) + [' '] + PrintPairs(b)
  {
    assert Words(a + b) == Words(a) + Words(b);
    JoinConcat(Words(a), ' ', Words(b));
  }

  // ----- the configuration -----

  datatype PostgresConfig = PostgresConfig(
    host: string,
    port: int,
    db: string,
    user: string,
    password: string,
    replicationUser: string,
    replicationPassword: string,
    sslMode: string,
    sslRootCert: string,
    sslCert: string,
    sslKey: string)

  function EffectiveSSLMode(p: PostgresConfig): string {
    if p.sslMode == "" then "require" else p.sslMode
  }

  function Digit(d: nat): char
    requires d < 10
  {
    '0' + d as char
  }

  function Digits(n: nat): string {
    if n < 10 then [Digit(n)] else Digits(n / 10) + [Digit(n % 10)]
  }

  /** strconv.Itoa. */
  function Itoa(i: int): string {
    if i < 0 then "-" + Digits(-i) else Digits(i)
  }

  function Optional(key: string, val: string): seq<Pair> {
    if val == "" then [] else [Pair(key, val)]
  }

  function RequiredPairs(p: PostgresConfig, user: string, password: string, dbname: string): seq<Pair> {
    [Pair("host", p.host), Pair("port", Itoa(p.port)), Pair("user", user), Pair("password", password),
     Pair("dbname", dbname), Pair("sslmode", EffectiveSSLMode(p))]
  }

  function CertificatePairs(p: PostgresConfig): seq<Pair> {
    Optional("sslrootcert", p.sslRootCert) + (Optional("sslcert", p.sslCert) + Optional("sslkey", p.sslKey))
  }

  /** The pairs buildDSN prints, in order. */
  function ConfigPairs(p: PostgresConfig, user: string, password: string, dbname: string): seq<Pair> {
    RequiredPairs(p, user, password, dbname) + CertificatePairs(p)
  }

  function Keys(pairs: seq<Pair>): seq<string> {
    seq(|pairs|, i requires 0 <= i < |pairs| => pairs[i].key)
  }

  /** The keywords in the order in which they are written. */
  lemma KeysInOrder(p: PostgresConfig, user: string, password: string, dbname: string)
    ensures Keys(ConfigPairs(p, user, password, dbname)) ==
            ["host", "port", "user", "password", "dbname", "sslmode"]
            + ((if p.sslRootCert != "" then ["sslrootcert"] else [])
               + ((if p.sslCert != "" then ["sslcert"] else []) + (if p.sslKey != "" then ["sslkey"] else [])))
  {
    var root, cert, key := Optional("sslrootcert", p.sslRootCert), Optional("sslcert", p.sslCert), Optional("sslkey", p.sslKey);
    var required := RequiredPairs(p, user, password, dbname);
    assert Keys(required) == ["host", "port", "user", "password", "dbname", "sslmode"];
    KeysConcat(required, root + (cert + key));
    KeysConcat(root, cert + key);
    KeysConcat(cert, key);
    assert Keys(root) == if p.sslRootCert != "" then ["sslrootcert"] else [];
    assert Keys(cert) == if p.sslCert != "" then ["sslcert"] else [];
    assert Keys(key) == if p.sslKey != "" then ["sslkey"] else [];
  }

  lemma KeysConcat(a: seq<Pair>, b: seq<Pair>)
    ensures Keys(a + b) == Keys(a) + Keys(b)
  {}

  function NonEmpty(v: string): Option<string> { if v == "" then None else Some(v) }

  /** What libpq takes from a list of pairs: the last value given for a keyword. */
  function Lookup(pairs: seq<Pair>, key: string): Option<string> {
    if pairs == [] then None
    else
      var last := pairs[|pairs| - 1];
      if last.key == key then Some(last.val) else Lookup(pairs[..|pairs| - 1], key)
  }

  function Either(a: Option<string>, b: Option<string>): Option<string> { if a.Some? then a else b }

  lemma {:induction false} LookupConcat(a: seq<Pair>, b: seq<Pair>, key: string)
    ensures Lookup(a + b, key) == Either(Lookup(b, key), Lookup(a, key))
  {
    if b == [] {
      assert a + b == a;
    } else {
      assert (a + b)[..|a + b| - 1] == a + b[..|b| - 1];
      LookupConcat(a, b[..|b| - 1], key);
    }
  }

  /** A keyword given once is found, wherever it stands. */
  lemma {:induction false} LookupAt(pairs: seq<Pair>, i: nat)
    requires i < |pairs| && forall j | i < j < |pairs| :: pairs[j].key != pairs[i].key
    ensures Lookup(pairs, pairs[i].key) == Some(pairs[i].val)
  {
    if i < |pairs| - 1 {
      LookupAt(pairs[..|pairs| - 1], i);
    }
  }

  lemma {:induction false} LookupNone(pairs: seq<Pair>, key: string)
    requires forall q | q in pairs :: q.key != key
    ensures Lookup(pairs, key) == None
  {
    if pairs != [] {
      LookupNone(pairs[..|pairs| - 1], key);
    }
  }

  /** The certificate keywords are no others' and differ among themselves. */
  lemma CertificateKeys(q: Pair)
    requires q.key in {"sslrootcert", "sslcert", "sslkey"}
    ensures q.key !in {"host", "port", "user", "password", "dbname", "sslmode"}
  {
    assert |q.key| == 11 || |q.key| == 7 || |q.key| == 6;
    assert |q.key| == 7 ==> q.key[3] == 'c';
    assert |q.key| == 6 ==> q.key[0] == 's';
  }

  /** What each keyword stands for in the connection, and what is left to libpq. */
  lemma KeywordValues(p: PostgresConfig, user: string, password: string, dbname: string)
    ensures var pairs := ConfigPairs(p, user, password, dbname);
            && Lookup(pairs, "host") == Some(p.host)
            && Lookup(pairs, "port").Some? && Decimal(Lookup(pairs, "port").value) == p.port
            && Lookup(pairs, "user") == Some(user) && Lookup(pairs, "password") == Some(password)
            && Lookup(pairs, "dbname") == Some(dbname)
            && Lookup(pairs, "sslmode") == Some(if p.sslMode == "" then "require" else p.sslMode)
  {
    var required, certificates := RequiredPairs(p, user, password, dbname), CertificatePairs(p);
    forall i | 0 <= i < 6
      ensures Lookup(ConfigPairs(p, user, password, dbname), required[i].key) == Some(required[i].val)
    {
      forall q | q in certificates
        ensures q.key != required[i].key
      {
        CertificateKeys(q);
      }
      LookupNone(certificates, required[i].key);
      LookupAt(required, i);
      LookupConcat(required, certificates, required[i].key);
    }
    DecimalOfItoa(p.port);
    assert required[0].key == "host" && required[1].key == "port" && required[2].key == "user";
    assert required[3].key == "password" && required[4].key == "dbname" && required[5].key == "sslmode";
  }

  lemma LookupOptional(k: string, v: string, key: string)
    ensures Lookup(Optional(k, v), key) == if key == k then NonEmpty(v) else None
  {
    if v != "" {
      assert Optional(k, v)[..0] == [];
    }
  }

  /** Three optional pairs under different keywords. */
  lemma LookupThree(k: seq<string>, v: seq<string>, i: nat)
    requires |k| == |v| == 3 && k[0] != k[1] && k[0] != k[2] && k[1] != k[2] && i < 3
    ensures Lookup(Optional(k[0], v[0]) + (Optional(k[1], v[1]) + Optional(k[2], v[2])), k[i]) == NonEmpty(v[i])
  {
    LookupConcat(Optional(k[0], v[0]), Optional(k[1], v[1]) + Optional(k[2], v[2]), k[i]);
    LookupConcat(Optional(k[1], v[1]), Optional(k[2], v[2]), k[i]);
    LookupOptional(k[0], v[0], k[i]);
    LookupOptional(k[1], v[1], k[i]);
    LookupOptional(k[2], v[2], k[i]);
  }

  /** A certificate file is passed on exactly when it is configured. */
  lemma CertificateValues(p: PostgresConfig, user: string, password: string, dbname: string)
    ensures var pairs := ConfigPairs(p, user, password, dbname);
            && Lookup(pairs, "sslrootcert") == NonEmpty(p.sslRootCert)
            && Lookup(pairs, "sslcert") == NonEmpty(p.sslCert)
            && Lookup(pairs, "sslkey") == NonEmpty(p.sslKey)
  {
    var required, certificates := RequiredPairs(p, user, password, dbname), CertificatePairs(p);
    var k, v := ["sslrootcert", "sslcert", "sslkey"], [p.sslRootCert, p.sslCert, p.sslKey];
    forall i | 0 <= i < 3
      ensures Lookup(ConfigPairs(p, user, password, dbname), k[i]) == NonEmpty(v[i])
    {
      CertificateKeys(Pair(k[i], v[i]));
      LookupNone(required, k[i]);
      LookupThree(k, v, i);
      LookupConcat(required, certificates, k[i]);
    }
    assert k[0] == "sslrootcert" && k[1] == "sslcert" && k[2] == "sslkey";
  }

  const APPLICATION: Pair := Pair("application_name", "gitlab-geo-sync")

  /** As the program writes it. */
  const APPLICATION_WORD: string := "application_name=gitlab-geo-sync"

  function ReplicationPairs(p: PostgresConfig): seq<Pair> {
    ConfigPairs(p, p.replicationUser, p.replicationPassword, "replication") + [APPLICATION]
  }

  /** Every string field that reaches the connection string is one the quoting protects. */
  predicate FieldsPrintable(p: PostgresConfig, user: string, password: string, dbname: string) {
    && Printable(p.host) && Printable(user) && Printable(password) && Printable(dbname)
    && Printable(p.sslMode) && Printable(p.sslRootCert) && Printable(p.sslCert) && Printable(p.sslKey)
  }

  lemma {:induction false} DigitsPlain(n: nat)
    ensures Digits(n) != "" && forall c | c in Digits(n) :: '0' <= c <= '9'
  {
    if n >= 10 {
      DigitsPlain(n / 10);
    }
  }

  function Value(s: string): int {
    if s == "" then 0 else Value(s[..|s| - 1]) * 10 + (s[|s| - 1] as int - '0' as int)
  }

  lemma {:induction false} ValueOfDigits(n: nat)
    ensures Value(Digits(n)) == n
  {
    if n < 10 {
      assert Digits(n)[..0] == "";
    } else {
      ValueOfDigits(n / 10);
      var d := Digits(n);
      assert d[..|d| - 1] == Digits(n / 10);
    }
  }

  /** strconv.Itoa writes the decimal digits of the number, behind a sign if it is negative. */
  lemma ItoaIsDecimal(i: int)
    ensures i >= 0 ==> Value(Itoa(i)) == i && forall c | c in Itoa(i) :: '0' <= c <= '9'
    ensures i < 0 ==> Itoa(i) == "-" + Itoa(-i)
  {
    if i >= 0 {
      ValueOfDigits(i);
      DigitsPlain(i);
    }
  }

  /** The number a decimal with an optional sign stands for. */
  function Decimal(s: string): int {
    if s != "" && s[0] == '-' then -Value(s[1..]) else Value(s)
  }

  lemma DecimalOfItoa(i: int)
    ensures Decimal(Itoa(i)) == i
  {
    ItoaIsDecimal(i);
    ItoaIsDecimal(-i);
    assert Itoa(if i < 0 then -i else i) == "" || Itoa(if i < 0 then -i else i)[0] in Itoa(if i < 0 then -i else i);
    if i < 0 {
      assert ("-" + Itoa(-i))[1..] == Itoa(-i);
    }
  }

  lemma ItoaInjective(i: int, j: int)
    requires Itoa(i) == Itoa(j)
    ensures i == j
  {
    DigitsPlain(if i < 0 then -i else i);
    DigitsPlain(if j < 0 then -j else j);
    ValueOfDigits(if i < 0 then -i else i);
    ValueOfDigits(if j < 0 then -j else j);
    assert Itoa(i)[0] in Itoa(i);
    if i < 0 {
      assert Digits(-i) == Itoa(i)[1..] && Digits(-j) == Itoa(j)[1..];
    }
  }

  lemma SplitPredicates(a: seq<Pair>, b: seq<Pair>)
    ensures AllKeywords(a + b) <==> AllKeywords(a) && AllKeywords(b)
    ensures AllPrintable(a + b) <==> AllPrintable(a) && AllPrintable(b)
  {
    assert forall q :: q in a + b <==> q in a || q in b;
  }

  lemma RequiredKeywords(p: PostgresConfig, user: string, password: string, dbname: string)
    ensures AllKeywords(RequiredPairs(p, user, password, dbname))
  {}

  lemma RequiredPrintable(p: PostgresConfig, user: string, password: string, dbname: string)
    ensures AllPrintable(RequiredPairs(p, user, password, dbname)) <==>
              Printable(p.host) && Printable(user) && Printable(password) && Printable(dbname) && Printable(p.sslMode)
  {
    var pairs := RequiredPairs(p, user, password, dbname);
    DigitsPlain(if p.port < 0 then -p.port else p.port);
    assert Printable(Itoa(p.port));
    assert Printable("require");
    assert pairs[0] in pairs && pairs[2] in pairs && pairs[3] in pairs && pairs[4] in pairs && pairs[5] in pairs;
  }

  lemma OptionalPrintable(key: string, val: string)
    requires Keyword(key)
    ensures AllKeywords(Optional(key, val))
    ensures AllPrintable(Optional(key, val)) <==> Printable(val)
  {
    if val != "" { assert Pair(key, val) in Optional(key, val); }
  }

  lemma ConfigPairsPrintable(p: PostgresConfig, user: string, password: string, dbname: string)
    ensures AllKeywords(ConfigPairs(p, user, password, dbname))
    ensures AllPrintable(ConfigPairs(p, user, password, dbname)) <==> FieldsPrintable(p, user, password, dbname)
  {
    RequiredKeywords(p, user, password, dbname);
    RequiredPrintable(p, user, password, dbname);
    OptionalPrintable("sslrootcert", p.sslRootCert);
    OptionalPrintable("sslcert", p.sslCert);
    OptionalPrintable("sslkey", p.sslKey);
    SplitPredicates(Optional("sslcert", p.sslCert), Optional("sslkey", p.sslKey));
    SplitPredicates(Optional("sslrootcert", p.sslRootCert), Optional("sslcert", p.sslCert) + Optional("sslkey", p.sslKey));
    SplitPredicates(RequiredPairs(p, user, password, dbname), CertificatePairs(p));
  }

  /** buildDSN: the pairs printed one after the other into a builder, then `extra`. */
  method BuildDSN(p: PostgresConfig, user: string, password: string, dbname: string, extra: string)
    returns (dsn: string)
    ensures dsn == PrintPairs(ConfigPairs(p, user, password, dbname)) + (if extra == "" then "" else [' '] + extra)
  {
    var pairs := RequiredPairs(p, user, password, dbname);
    if p.sslRootCert != "" {
      pairs := pairs + [Pair("sslrootcert", p.sslRootCert)];
    }
    if p.sslCert != "" {
      pairs := pairs + [Pair("sslcert", p.sslCert)];
    }
    if p.sslKey != "" {
      pairs := pairs + [Pair("sslkey", p.sslKey)];
    }
    AppendOptional(RequiredPairs(p, user, password, dbname), p);
    dsn := Render(pairs);
    if extra != "" {
      Associate(dsn, [' '], extra);
      dsn := dsn + [' '];
      dsn := dsn + extra;
    } else {
      assert dsn + "" == dsn;
    }
  }

  lemma AppendOptional(required: seq<Pair>, p: PostgresConfig)
    ensures required + Optional("sslrootcert", p.sslRootCert) + Optional("sslcert", p.sslCert) + Optional("sslkey", p.sslKey)
            == required + CertificatePairs(p)
    ensures forall s: seq<Pair> :: s + [] == s
  {}

  lemma Associate(a: string, b: string, c: string)
    ensures a + b + c == a + (b + c)
  {}

  lemma PrintOne(p: Pair)
    ensures PrintPairs([p]) == PrintPair(p)
  {
    assert Words([p]) == [PrintPair(p)];
  }

  /** The builder loop of buildDSN. */
  method Render(pairs: seq<Pair>) returns (dsn: string)
    ensures dsn == PrintPairs(pairs)
  {
    dsn := "";
    for i := 0 to |pairs|
      invariant dsn == PrintPairs(pairs[..i])
    {
      assert pairs[..i + 1] == pairs[..i] + [pairs[i]];
      if i > 0 {
        PrintConcat(pairs[..i], [pairs[i]]);
        dsn := dsn + [' '];
      }
      PrintOne(pairs[i]);
      dsn := dsn + PrintPair(pairs[i]);
    }
    assert pairs[..|pairs|] == pairs;
  }

  /** The control connection: read back by libpq as the configured pairs if and only if
      every field is protected by the quoting. */
  method DSN(p: PostgresConfig) returns (dsn: string)
    ensures dsn == PrintPairs(ConfigPairs(p, p.user, p.password, p.db))
    ensures Parse(dsn) == Some(ConfigPairs(p, p.user, p.password, p.db))
       <==> FieldsPrintable(p, p.user, p.password, p.db)
    ensures FieldsPrintable(p, p.user, p.password, p.db) ==>
              && Reads(dsn, "host", p.host) && ReadsNumber(dsn, "port", p.port)
              && Reads(dsn, "user", p.user) && Reads(dsn, "password", p.password) && Reads(dsn, "dbname", p.db)
  {
    KeywordValues(p, p.user, p.password, p.db);
    dsn := BuildDSN(p, p.user, p.password, p.db, "");
    ConfigPairsPrintable(p, p.user, p.password, p.db);
    RoundTripIff(ConfigPairs(p, p.user, p.password, p.db));
  }

  /** libpq reads the value for the keyword from the string. */
  predicate Reads(dsn: string, key: string, val: string) {
    Parse(dsn).Some? && Lookup(Parse(dsn).value, key) == Some(val)
  }

  predicate ReadsNumber(dsn: string, key: string, n: int) {
    Parse(dsn).Some? && Lookup(Parse(dsn).value, key).Some? && Decimal(Lookup(Parse(dsn).value, key).value) == n
  }

  /** The WAL receiver's connection: the same with the application name at the end. */
  method ReplicationDSN(p: PostgresConfig) returns (dsn: string)
    ensures dsn == PrintPairs(ReplicationPairs(p))
    ensures Parse(dsn) == Some(ReplicationPairs(p))
       <==> FieldsPrintable(p, p.replicationUser, p.replicationPassword, "replication")
    ensures FieldsPrintable(p, p.replicationUser, p.replicationPassword, "replication") ==>
              && Reads(dsn, "host", p.host) && ReadsNumber(dsn, "port", p.port)
              && Reads(dsn, "user", p.replicationUser) && Reads(dsn, "password", p.replicationPassword)
              && Reads(dsn, "dbname", "replication") && Reads(dsn, "application_name", "gitlab-geo-sync")
  {
    ReplicationPrinted(p);
    ReplicationValues(p);
    dsn := BuildDSN(p, p.replicationUser, p.replicationPassword, "replication", APPLICATION_WORD);
  }

  lemma LookupBehind(pairs: seq<Pair>, last: Pair, key: string)
    ensures Lookup(pairs + [last], key) == if key == last.key then Some(last.val) else Lookup(pairs, key)
  {
    assert (pairs + [last])[..|pairs|] == pairs;
  }

  lemma ReplicationValues(p: PostgresConfig)
    ensures var pairs := ReplicationPairs(p);
            && Lookup(pairs, "host") == Some(p.host)
            && Lookup(pairs, "port").Some? && Decimal(Lookup(pairs, "port").value) == p.port
            && Lookup(pairs, "user") == Some(p.replicationUser)
            && Lookup(pairs, "password") == Some(p.replicationPassword)
            && Lookup(pairs, "dbname") == Some("replication")
            && Lookup(pairs, "application_name") == Some("gitlab-geo-sync")
  {
    var own := ConfigPairs(p, p.replicationUser, p.replicationPassword, "replication");
    KeywordValues(p, p.replicationUser, p.replicationPassword, "replication");
    assert |APPLICATION.key| == 16;
    LookupBehind(own, APPLICATION, "host");
    LookupBehind(own, APPLICATION, "port");
    LookupBehind(own, APPLICATION, "user");
    LookupBehind(own, APPLICATION, "password");
    LookupBehind(own, APPLICATION, "dbname");
    LookupBehind(own, APPLICATION, "application_name");
  }

  lemma ReplicationPrinted(p: PostgresConfig)
    ensures PrintPairs(ConfigPairs(p, p.replicationUser, p.replicationPassword, "replication"))
            + ([' '] + APPLICATION_WORD) == PrintPairs(ReplicationPairs(p))
    ensures APPLICATION_WORD != ""
    ensures Parse(PrintPairs(ReplicationPairs(p))) == Some(ReplicationPairs(p))
       <==> FieldsPrintable(p, p.replicationUser, p.replicationPassword, "replication")
  {
    ConfigPairsPrintable(p, p.replicationUser, p.replicationPassword, "replication");
    ApplicationKeyword();
    ApplicationPrinted();
    WithLast(ConfigPairs(p, p.replicationUser, p.replicationPassword, "replication"), APPLICATION);
  }

  lemma ApplicationKeyword()
    ensures Keyword(APPLICATION.key)
  {}

  lemma ApplicationPrinted()
    ensures PrintPair(APPLICATION) == APPLICATION_WORD && Printable(APPLICATION.val)
  {
    PlainWord(APPLICATION.val);
  }

  lemma PlainWord(v: string)
    requires v != "" && forall i | 0 <= i < |v| :: v[i] == '-' || 'a' <= v[i] <= 'z'
    ensures QuoteValue(v) == v && Printable(v)
  {}

  lemma WithLast(pairs: seq<Pair>, last: Pair)
    requires pairs != [] && AllKeywords(pairs) && Keyword(last.key) && Printable(last.val)
    ensures PrintPairs(pairs) + ([' '] + PrintPair(last)) == PrintPairs(pairs + [last])
    ensures Parse(PrintPairs(pairs + [last])) == Some(pairs + [last]) <==> AllPrintable(pairs)
  {
    PrintConcat(pairs, [last]);
    PrintOne(last);
    Associate(PrintPairs(pairs), [' '], PrintPair(last));
    SplitPredicates(pairs, [last]);
    RoundTripIff(pairs + [last]);
  }

  // ----- telling printed lists apart -----

  function UpToBlank(s: string): (string, string) {
    if s == "" || s[0] == ' ' then ("", s)
    else var (v, rest) := UpToBlank(s[1..]); ([s[0]] + v, rest)
  }

  /** A reader for printed values alone, which no white space but the blank can stop. */
  function ReadPrinted(s: string): Option<(string, string)> {
    if s != "" && s[0] == '\'' then ReadQuoted(s[1..]) else Some(UpToBlank(s))
  }

  lemma {:induction false} UpToBlankStops(v: string, rest: string)
    requires ' ' !in v && (rest == "" || rest[0] == ' ')
    ensures UpToBlank(v + rest) == (v, rest)
  {
    if v == "" {
      assert v + rest == rest;
    } else {
      assert v[0] in v && (v + rest)[0] == v[0] && (v + rest)[1..] == v[1..] + rest;
      UpToBlankStops(v[1..], rest);
      assert [v[0]] + v[1..] == v;
    }
  }

  lemma ReadPrintedBack(v: string, rest: string)
    requires rest == "" || rest[0] == ' '
    ensures ReadPrinted(QuoteValue(v) + rest) == Some((v, rest))
  {
    if v == "" || NeedsQuotes(v) {
      QuotedForm(v);
      QuoteFirst(Escape(v), rest);
      ReadEscaped(v, rest);
      HeadOff('\'', Escape(v) + "'" + rest);
    } else {
      assert v[0] in v && (v + rest)[0] == v[0];
      UpToBlankStops(v, rest);
    }
  }

  lemma HeadOff(c: char, s: string)
    ensures ([c] + s)[0] == c && ([c] + s)[1..] == s
  {}

  /** The printer is injective: distinct lists of pairs are printed differently, whatever
      the values. */
  lemma {:induction false} PrintInjective(a: seq<Pair>, b: seq<Pair>)
    requires AllKeywords(a) && AllKeywords(b) && PrintPairs(a) == PrintPairs(b)
    ensures a == b
  {
    if a == [] || b == [] {
      if a != [] {
        PrintHead(a);
      }
      if b != [] {
        PrintHead(b);
      }
    } else {
      HeadsEqual(a, b);
      if |a| > 1 {
        HeadOff(' ', PrintPairs(a[1..]));
        HeadOff(' ', PrintPairs(b[1..]));
        PrintInjective(a[1..], b[1..]);
      }
      assert a == [a[0]] + a[1..] && b == [b[0]] + b[1..];
    }
  }

  lemma HeadsEqual(a: seq<Pair>, b: seq<Pair>)
    requires a != [] && b != [] && AllKeywords(a) && AllKeywords(b) && PrintPairs(a) == PrintPairs(b)
    ensures a[0] == b[0] && Tail(a) == Tail(b) && (|a| > 1 <==> |b| > 1)
  {
    assert Keyword(a[0].key) && Keyword(b[0].key);
    PrintHead(a);
    PrintHead(b);
    var x, y := QuoteValue(a[0].val) + Tail(a), QuoteValue(b[0].val) + Tail(b);
    ReadKeyUpTo(a[0].key, ['='] + x);
    ReadKeyUpTo(b[0].key, ['='] + y);
    HeadOff('=', x);
    HeadOff('=', y);
    assert x == y;
    ReadPrintedBack(a[0].val, Tail(a));
    ReadPrintedBack(b[0].val, Tail(b));
  }

  /** Equal connection strings mean equal connections: the string determines every field
      that was printed into it, in every configuration. */
  lemma DSNDetermines(p: PostgresConfig, q: PostgresConfig)
    requires PrintPairs(ConfigPairs(p, p.user, p.password, p.db)) == PrintPairs(ConfigPairs(q, q.user, q.password, q.db))
    ensures p.host == q.host && p.port == q.port && p.user == q.user && p.password == q.password && p.db == q.db
    ensures EffectiveSSLMode(p) == EffectiveSSLMode(q)
    ensures p.sslRootCert == q.sslRootCert && p.sslCert == q.sslCert && p.sslKey == q.sslKey
  {
    ConfigPairsPrintable(p, p.user, p.password, p.db);
    ConfigPairsPrintable(q, q.user, q.password, q.db);
    PrintInjective(ConfigPairs(p, p.user, p.password, p.db), ConfigPairs(q, q.user, q.password, q.db));
    PairsDetermine(p, q);
  }

  function AsReplication(p: PostgresConfig): PostgresConfig {
    p.(user := p.replicationUser, password := p.replicationPassword, db := "replication")
  }

  /** So does the replication string. */
  lemma ReplicationDSNDetermines(p: PostgresConfig, q: PostgresConfig)
    requires PrintPairs(ReplicationPairs(p)) == PrintPairs(ReplicationPairs(q))
    ensures p.host == q.host && p.port == q.port
    ensures p.replicationUser == q.replicationUser && p.replicationPassword == q.replicationPassword
    ensures EffectiveSSLMode(p) == EffectiveSSLMode(q)
    ensures p.sslRootCert == q.sslRootCert && p.sslCert == q.sslCert && p.sslKey == q.sslKey
  {
    ReplicationKeywords(p);
    ReplicationKeywords(q);
    var r, s := AsReplication(p), AsReplication(q);
    var a, b := ConfigPairs(r, r.user, r.password, r.db), ConfigPairs(s, s.user, s.password, s.db);
    PrintInjective(a + [APPLICATION], b + [APPLICATION]);
    assert a == (a + [APPLICATION])[..|a + [APPLICATION]| - 1] && b == (b + [APPLICATION])[..|b + [APPLICATION]| - 1];
    PairsDetermine(r, s);
  }

  lemma ReplicationKeywords(p: PostgresConfig)
    ensures var r := AsReplication(p);
            ReplicationPairs(p) == ConfigPairs(r, r.user, r.password, r.db) + [APPLICATION]
    ensures AllKeywords(ReplicationPairs(p))
  {
    ConfigPairsPrintable(p, p.replicationUser, p.replicationPassword, "replication");
    ApplicationKeyword();
  }

  lemma PairsDetermine(p: PostgresConfig, q: PostgresConfig)
    requires ConfigPairs(p, p.user, p.password, p.db) == ConfigPairs(q, q.user, q.password, q.db)
    ensures p.host == q.host && p.port == q.port && p.user == q.user && p.password == q.password && p.db == q.db
    ensures EffectiveSSLMode(p) == EffectiveSSLMode(q)
    ensures p.sslRootCert == q.sslRootCert && p.sslCert == q.sslCert && p.sslKey == q.sslKey
  {
    var a, b := RequiredPairs(p, p.user, p.password, p.db), RequiredPairs(q, q.user, q.password, q.db);
    assert a == ConfigPairs(p, p.user, p.password, p.db)[..6] && b == ConfigPairs(q, q.user, q.password, q.db)[..6];
    assert a[0] == b[0] && a[1] == b[1] && a[2] == b[2] && a[3] == b[3] && a[4] == b[4] && a[5] == b[5];
    ItoaInjective(p.port, q.port);
    assert CertificatePairs(p) == ConfigPairs(p, p.user, p.password, p.db)[6..];
    assert CertificatePairs(q) == ConfigPairs(q, q.user, q.password, q.db)[6..];
    var ca, ka := Optional("sslcert", p.sslCert), Optional("sslkey", p.sslKey);
    var cb, kb := Optional("sslcert", q.sslCert), Optional("sslkey", q.sslKey);
    OptionalApart("sslrootcert", p.sslRootCert, q.sslRootCert, ca + ka, cb + kb);
    OptionalApart("sslcert", p.sslCert, q.sslCert, ka, kb);
    assert ka + [] == ka && kb + [] == kb;
    OptionalApart("sslkey", p.sslKey, q.sslKey, [], []);
  }

  /** An optional pair is told from what follows by its keyword. */
  lemma OptionalApart(key: string, v: string, u: string, a: seq<Pair>, b: seq<Pair>)
    requires forall x | x in a + b :: x.key != key
    requires Optional(key, v) + a == Optional(key, u) + b
    ensures v == u && a == b
  {
    var l, r := Optional(key, v) + a, Optional(key, u) + b;
    assert a != [] ==> a[0] in a + b;
    assert b != [] ==> b[0] in a + b;
    assert l != [] ==> l[0] == r[0];
    assert a == l[|Optional(key, v)|..] && b == r[|Optional(key, u)|..];
  }
}
