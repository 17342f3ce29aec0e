/** The postgresql.auto.conf editor (internal/pgsetup/pgsetup.go): sets the application
    name on the primary_conninfo line. */
module AutoConf {
  import opened Text
  import Dsn
  import ConnInfo

  const PREFIX: string := "primary_conninfo = "
  const KEYWORD: string := "application_name"
  const APP_NAME: string := KEYWORD + "="

  /** strings.LastIndex for one character; None when it does not occur. */
  function LastIndex(s: string, c: char): (r: Option<nat>)
    ensures r.None? <==> c !in s
    ensures r.Some? ==> r.value < |s| && s[r.value] == c && c !in s[r.value + 1..]
  {
    if s == "" then None
    else if s[|s| - 1] == c then Some(|s| - 1)
    else
      var r := LastIndex(s[..|s| - 1], c);
      assert r.Some? ==> s[r.value + 1..] == s[..|s| - 1][r.value + 1..] + [s[|s| - 1]];
      r
  }

  function InjectAppName(line: string, app: string): string {
    match LastIndex(line, '\'')
    case None => line + " " + APP_NAME + app + "'"
    case Some(i) => line[..i] + " " + APP_NAME + app + "'"
  }

  predicate IsConnInfo(line: string) { PREFIX <= line }

  /** The index of the first primary_conninfo line, or the number of lines. */
  function FirstConnInfo(lines: seq<string>): (k: nat)
    ensures k <= |lines|
    ensures forall i | 0 <= i < k :: !IsConnInfo(lines[i])
    ensures k < |lines| ==> IsConnInfo(lines[k])
  {
    if lines == [] || IsConnInfo(lines[0]) then 0 else 1 + FirstConnInfo(lines[1..])
  }

  function EditLine(line: string, app: string): string {
    if Contains(line, APP_NAME) then line else InjectAppName(line, app)
  }

  function NewLine(app: string): string { PREFIX + "'" + APP_NAME + app + "'" }

  /** At most one line changes: the first primary_conninfo line, or one is appended. */
  function EditLines(lines: seq<string>, app: string): seq<string> {
    var k := FirstConnInfo(lines);
    if k < |lines| then lines[k := EditLine(lines[k], app)] else lines + [NewLine(app)]
  }

  function EndLine(s: string): string {
    if s != "" && s[|s| - 1] == '\n' then s else s + "\n"
  }

  /** The file's text after the edit. */
  function Edit(text: string, app: string): string {
    EndLine(Join(EditLines(Split(text, '\n'), app), '\n'))
  }

  // ----- the edited line -----

  /** The part of a line the edit keeps: up to its last quote, or all of it. */
  function Kept(line: string): string {
    match LastIndex(line, '\'') case None => line case Some(i) => line[..i]
  }

  lemma Appended(kept: string, key: string, app: string)
    ensures var out := kept + " " + key + app + "'";
            kept <= out && |out| > |kept| && Contains(out, key) && Contains(out, key + app)
  {
    var out := kept + " " + key + app + "'";
    assert out == (kept + " ") + key + (app + "'");
    ContainsMiddle(kept + " ", key, app + "'");
    assert out == (kept + " ") + (key + app) + "'";
    ContainsMiddle(kept + " ", key + app, "'");
  }

  lemma PrefixUnquoted()
    ensures '\'' !in PREFIX && '\n' !in PREFIX
  {}

  /** The quotes of a primary_conninfo line come after its prefix. */
  lemma KeptHasPrefix(line: string)
    requires IsConnInfo(line)
    ensures IsConnInfo(Kept(line))
  {
    PrefixUnquoted();
    assert LastIndex(line, '\'').Some? && LastIndex(line, '\'').value < |PREFIX| ==> line[LastIndex(line, '\'').value] in PREFIX;
  }

  /** An edited line is still a primary_conninfo line, keeps everything before its last
      quote, and carries the application name. */
  lemma InjectKeeps(line: string, app: string)
    requires IsConnInfo(line)
    ensures var out := InjectAppName(line, app);
            && IsConnInfo(out) && Kept(line) < out
            && Contains(out, APP_NAME) && Contains(out, APP_NAME + app)
  {
    KeptHasPrefix(line);
    Appended(Kept(line), APP_NAME, app);
  }

  // ----- the file -----

  /** Text without a line break only lengthens the first line of what follows it. */
  lemma {:induction false} SplitFirst(x: string, y: string)
    requires '\n' !in x
    ensures Split(x + y, '\n')[0] == x + Split(y, '\n')[0]
  {
    if x == "" {
      assert x + y == y;
    } else {
      assert x[0] in x && forall c | c in x[1..] :: c in x;
      assert (x + y)[1..] == x[1..] + y && (x + y)[0] == x[0];
      SplitFirst(x[1..], y);
      assert [x[0]] + (x[1..] + Split(y, '\n')[0]) == x + Split(y, '\n')[0];
    }
  }

  /** One line among lines, even if it breaks into several. */
  lemma SplitAround(a: seq<string>, x: string, b: seq<string>)
    requires forall line | line in a + b :: '\n' !in line
    ensures Split(Join(a + [x] + b, '\n'), '\n') == a + Split(x, '\n') + b
  {
    assert forall line | line in a :: line in a + b;
    assert forall line | line in b :: line in a + b;
    if a != [] {
      JoinConcat(a, '\n', [x]);
      SplitConcat(Join(a, '\n'), '\n', x);
      SplitJoin(a, '\n');
    } else {
      assert a + [x] == [x];
    }
    assert Split(Join(a + [x], '\n'), '\n') == a + Split(x, '\n');
    if b != [] {
      JoinConcat(a + [x], '\n', b);
      SplitConcat(Join(a + [x], '\n'), '\n', Join(b, '\n'));
      SplitJoin(b, '\n');
    } else {
      assert a + [x] + b == a + [x];
    }
  }

  /** A primary_conninfo line that names an application. */
  predicate Named(line: string) { IsConnInfo(line) && Contains(line, APP_NAME) }

  lemma FirstPieceNamed(start: string, app: string)
    requires IsConnInfo(start) && '\n' !in start
    ensures Named(Split(start + APP_NAME + app + "'", '\n')[0])
  {
    var head := start + APP_NAME;
    var tail := app + "'";
    assert start + APP_NAME + app + "'" == head + tail;
    KeyUnbroken();
    SplitFirst(head, tail);
    ContainsMiddle(start, APP_NAME, Split(tail, '\n')[0]);
    assert PREFIX == start[..|PREFIX|] == (head + Split(tail, '\n')[0])[..|PREFIX|];
  }

  lemma KeyUnbroken()
    ensures '\n' !in APP_NAME
  {}

  /** The line the edit leaves in place of the first primary_conninfo line, or appends. */
  function EditedLine(lines: seq<string>, app: string): (line: string)
    ensures IsConnInfo(line)
  {
    var k := FirstConnInfo(lines);
    if k < |lines| then EditLineStays(lines[k], app); EditLine(lines[k], app)
    else NewLineStarts(app); NewLine(app)
  }

  lemma EditLineStays(line: string, app: string)
    requires IsConnInfo(line)
    ensures IsConnInfo(EditLine(line, app))
  {
    InjectKeeps(line, app);
  }

  lemma NewLineStarts(app: string)
    ensures IsConnInfo(NewLine(app))
  {
    assert NewLine(app)[..|PREFIX|] == PREFIX;
  }

  /** Whatever the application name contains, the edited line, seen as lines of the file,
      starts with a line that names an application. */
  lemma EditedLineNamed(lines: seq<string>, app: string)
    requires forall line | line in lines :: '\n' !in line
    ensures Named(Split(EditedLine(lines, app), '\n')[0])
  {
    var k := FirstConnInfo(lines);
    PrefixUnquoted();
    if k == |lines| {
      FirstPieceNamed(PREFIX + "'", app);
    } else {
      var line := lines[k];
      assert line in lines;
      if Contains(line, APP_NAME) {
        SplitSingle(line, '\n');
      } else {
        KeptHasPrefix(line);
        FirstPieceNamed(Kept(line) + " ", app);
      }
    }
  }

  /** The lines after the edited one. */
  function Rest(lines: seq<string>): seq<string> {
    var k := FirstConnInfo(lines);
    if k < |lines| then lines[k + 1..] else []
  }

  lemma UpdateAround<T>(s: seq<T>, k: nat, x: T)
    requires k < |s|
    ensures s[k := x] == s[..k] + [x] + s[k + 1..]
  {}

  lemma EditLinesAround(lines: seq<string>, app: string)
    ensures EditLines(lines, app) == lines[..FirstConnInfo(lines)] + [EditedLine(lines, app)] + Rest(lines)
  {
    var k := FirstConnInfo(lines);
    if k < |lines| {
      UpdateAround(lines, k, EditedLine(lines, app));
    } else {
      assert lines[..k] == lines && lines + [EditedLine(lines, app)] + [] == lines + [EditedLine(lines, app)];
    }
  }

  lemma {:induction false} FirstConnInfoAfter(a: seq<string>, b: seq<string>)
    requires b != [] && IsConnInfo(b[0]) && forall i | 0 <= i < |a| :: !IsConnInfo(a[i])
    ensures FirstConnInfo(a + b) == |a|
  {
    if a == [] {
      assert a + b == b;
    } else {
      assert (a + b)[1..] == a[1..] + b;
      FirstConnInfoAfter(a[1..], b);
    }
  }

  /** Ending the text with a line break adds at most an empty last line. */
  lemma SplitEndLine(s: string) returns (ending: seq<string>)
    ensures Split(EndLine(s), '\n') == Split(s, '\n') + ending
    ensures ending == [] || ending == [""]
  {
    if s != "" && s[|s| - 1] == '\n' {
      ending := [];
      assert Split(s, '\n') + ending == Split(s, '\n');
    } else {
      ending := [""];
      SplitConcat(s, '\n', "");
      assert s + ['\n'] + "" == s + "\n";
    }
  }

  /** The lines of the edited file: those of EditLines with the edited one broken up where
      the application name breaks it, and an empty last line if the text needed ending. */
  lemma LinesAfter(text: string, app: string) returns (ending: seq<string>)
    ensures var lines := Split(text, '\n');
            Split(Edit(text, app), '\n') ==
            lines[..FirstConnInfo(lines)] + (Split(EditedLine(lines, app), '\n') + (Rest(lines) + ending))
    ensures ending == [] || ending == [""]
  {
    var lines := Split(text, '\n');
    var first, line, rest := lines[..FirstConnInfo(lines)], EditedLine(lines, app), Rest(lines);
    EditLinesAround(lines, app);
    assert forall l | l in first + rest :: l in lines;
    SplitAround(first, line, rest);
    ending := SplitEndLine(Join(first + [line] + rest, '\n'));
    Regroup(first, Split(line, '\n'), rest, ending);
  }

  lemma Regroup<T>(a: seq<T>, b: seq<T>, c: seq<T>, d: seq<T>)
    ensures a + b + c + d == a + (b + (c + d))
  {}

  /** Editing is idempotent, and more: once a file has been edited no later edit, under
      any application name, changes a character of it. */
  lemma EditIdempotent(text: string, app: string, later: string)
    ensures Edit(Edit(text, app), later) == Edit(text, app)
  {
    var lines := Split(text, '\n');
    var k := FirstConnInfo(lines);
    var ending := LinesAfter(text, app);
    EditedLineNamed(lines, app);
    var rest := Rest(lines) + ending;
    var piece := Split(EditedLine(lines, app), '\n');
    var after := Split(Edit(text, app), '\n');
    assert after == lines[..k] + (piece + rest);
    FirstConnInfoAfter(lines[..k], piece + rest);
    assert after[k] == piece[0];
    assert EditLines(after, later) == after;
    JoinSplit(Edit(text, app), '\n');
  }

  lemma EditedLineUnbroken(lines: seq<string>, app: string)
    requires '\n' !in app && forall line | line in lines :: '\n' !in line
    ensures '\n' !in EditedLine(lines, app)
  {
    var k := FirstConnInfo(lines);
    PrefixUnquoted();
    KeyUnbroken();
    if k < |lines| {
      assert lines[k] in lines;
      assert forall c | c in Kept(lines[k]) :: c in lines[k];
    }
  }

  /** `piece` has taken the place of the k-th line, or follows the last; behind the lines
      there is at most an empty one. */
  predicate Replaced(lines: seq<string>, k: nat, piece: seq<string>, after: seq<string>) {
    var rest := if k < |lines| then lines[k + 1..] else [];
    && k <= |lines| && k + |piece| <= |after|
    && after[..k] == lines[..k]
    && after[k..k + |piece|] == piece
    && (after[k + |piece|..] == rest || after[k + |piece|..] == rest + [""])
  }

  /** The file ends in a line break, and its lines are the old ones, in order, except that
      the edited line takes the place of the first primary_conninfo line or comes last. A
      name with line breaks breaks that one line into several. */
  lemma OneLineChanges(text: string, app: string)
    ensures var out := Edit(text, app);
            var lines := Split(text, '\n');
            var piece := Split(EditedLine(lines, app), '\n');
            && out != "" && out[|out| - 1] == '\n'
            && Replaced(lines, FirstConnInfo(lines), piece, Split(out, '\n'))
            && ('\n' !in app ==> piece == [EditedLine(lines, app)])
  {
    var lines := Split(text, '\n');
    var ending := LinesAfter(text, app);
    PieceUnbroken(lines, app);
    EndLineEnds(Join(EditLines(lines, app), '\n'));
    ReplacedAround(lines, FirstConnInfo(lines), Split(EditedLine(lines, app), '\n'), Rest(lines), ending);
  }

  lemma PieceUnbroken(lines: seq<string>, app: string)
    requires forall line | line in lines :: '\n' !in line
    ensures '\n' !in app ==> Split(EditedLine(lines, app), '\n') == [EditedLine(lines, app)]
  {
    if '\n' !in app {
      EditedLineUnbroken(lines, app);
      SplitSingle(EditedLine(lines, app), '\n');
    }
  }

  lemma EndLineEnds(s: string)
    ensures EndLine(s) != "" && EndLine(s)[|EndLine(s)| - 1] == '\n'
  {}

  lemma ReplacedAround(lines: seq<string>, k: nat, piece: seq<string>, rest: seq<string>, ending: seq<string>)
    requires k <= |lines| && rest == if k < |lines| then lines[k + 1..] else []
    requires ending == [] || ending == [""]
    ensures Replaced(lines, k, piece, lines[..k] + (piece + (rest + ending)))
  {
    ConcatSlices(lines[..k], piece, rest + ending);
    assert rest + [] == rest;
  }

  lemma ConcatSlices<T>(a: seq<T>, b: seq<T>, c: seq<T>)
    ensures var s := a + (b + c);
            && |a| + |b| <= |s| && s[..|a|] == a && s[|a|..|a| + |b|] == b && s[|a| + |b|..] == c
  {}

  lemma {:induction false} NoneFound(lines: seq<string>)
    requires forall line | line in lines :: !IsConnInfo(line)
    ensures FirstConnInfo(lines) == |lines|
  {
    if lines != [] {
      assert lines[0] in lines && forall line | line in lines[1..] :: line in lines;
      NoneFound(lines[1..]);
    }
  }

  /** A file without a line that starts with the setting, written as the edit looks for it,
      gets one more line. */
  lemma AppendsLine(lines: seq<string>, app: string)
    requires forall line | line in lines :: !("primary_conninfo = " <= line)
    ensures EditLines(lines, app) == lines + ["primary_conninfo = 'application_name=" + app + "'"]
  {
    NoneFound(lines);
    assert PREFIX + "'" + APP_NAME == "primary_conninfo = 'application_name=";
  }

  // ----- what the server reads -----

  predicate Blank(c: char) { c == ' ' || c == '\t' || c == '\r' }

  function SkipBlank(s: string): string {
    if s != "" && Blank(s[0]) then SkipBlank(s[1..]) else s
  }

  /** Nothing to the end of the line but a comment. */
  predicate LineEnds(s: string) {
    var t := SkipBlank(s);
    t == "" || t[0] == '#' || t[0] == '\n'
  }

  function Push(c: char, r: Option<string>): Option<string> {
    match r case None => None case Some(s) => Some([c] + s)
  }

  /** What a backslash makes of the character behind it in a quoted setting. */
  function Meant(c: char): char {
    if c == 'n' then '\n' else if c == 't' then '\t' else if c == 'r' then '\r'
    else if c == 'b' then 8 as char else if c == 'f' then 12 as char
    else c
  }

  /** A quoted setting, behind its opening quote: a quote is written twice or behind a
      backslash, and the line ends with the closing quote or a comment. */
  function Unquote(s: string): Option<string> {
    if s == "" || s[0] == '\n' then None
    else if s[0] == '\'' then
      if |s| > 1 && s[1] == '\'' then Push('\'', Unquote(s[2..]))
      else if LineEnds(s[1..]) then Some("") else None
    else if s[0] == '\\' then
      if |s| == 1 || s[1] == '\n' then None else Push(Meant(s[1]), Unquote(s[2..]))
    else Push(s[0], Unquote(s[1..]))
  }

  /** The text behind the opening quote. A setting without quotes has to be a number or a
      simple word, which no list of keywords and values is. */
  function Opened(s: string): Option<string> {
    var v := SkipBlank(s);
    if v != "" && v[0] == '\'' then Some(v[1..]) else None
  }

  function ReadSetting(s: string): Option<string> {
    match Opened(s) case None => None case Some(v) => Unquote(v)
  }

  /** The connection string a primary_conninfo line stands for, if the server accepts it. */
  function ConnInfoOf(line: string): Option<string>
    requires IsConnInfo(line)
  {
    ReadSetting(line[|PREFIX|..])
  }

  /** The application name the connection is made under, None if the line sets none or
      the server rejects it. */
  function NameOf(line: string): Option<string>
    requires IsConnInfo(line)
  {
    match ConnInfoOf(line) case None => None case Some(s) => ConnInfo.Given(Dsn.Parse(s), KEYWORD)
  }

  /** The same text as far as it is kept by the edit: None unless the quotes are open where
      the edit inserts. */
  function Inside(s: string): Option<string> {
    if s == "" then Some("")
    else if s[0] == '\n' then None
    else if s[0] == '\'' then
      if |s| > 1 && s[1] == '\'' then Push('\'', Inside(s[2..])) else None
    else if s[0] == '\\' then
      if |s| == 1 then Some("") else if s[1] == '\n' then None else Push(Meant(s[1]), Inside(s[2..]))
    else Push(s[0], Inside(s[1..]))
  }

  function KeptConnInfo(line: string): Option<string>
    requires IsConnInfo(line)
  {
    KeptHasPrefix(line);
    match Opened(Kept(line)[|PREFIX|..]) case None => None case Some(v) => Inside(v)
  }

  function Prepend(t: string, r: Option<string>): Option<string> {
    match r case None => None case Some(s) => Some(t + s)
  }

  lemma PushPrepend(c: char, t: string, r: Option<string>)
    ensures Push(c, Prepend(t, r)) == Prepend([c] + t, r)
  {
    if r.Some? {
      assert [c] + (t + r.value) == [c] + t + r.value;
    }
  }

  lemma PrependNothing(r: Option<string>)
    ensures Prepend("", r) == r
  {
    if r.Some? {
      assert "" + r.value == r.value;
    }
  }

  /** Where the quotes are open, what follows a blank is read on, even if a backslash
      stands before the blank. */
  lemma {:induction false} UnquoteInside(s: string, x: string)
    requires x != "" && x[0] == ' ' && Inside(s).Some?
    ensures Unquote(s + x) == Prepend(Inside(s).value, Unquote(x))
  {
    if s == "" {
      assert s + x == x;
      PrependNothing(Unquote(x));
    } else if s[0] == '\\' && |s| == 1 {
      assert (s + x)[2..] == x[1..];
      PrependNothing(Unquote(x));
    } else if s[0] == '\\' || s[0] == '\'' {
      assert (s + x)[2..] == s[2..] + x;
      UnquoteInside(s[2..], x);
      PushPrepend(if s[0] == '\\' then Meant(s[1]) else '\'', Inside(s[2..]).value, Unquote(x));
    } else {
      assert (s + x)[1..] == s[1..] + x;
      UnquoteInside(s[1..], x);
      PushPrepend(s[0], Inside(s[1..]).value, Unquote(x));
    }
  }

  lemma {:induction false} SkipBlankConcat(s: string, x: string)
    ensures SkipBlank(s + x) == if SkipBlank(s) == "" then SkipBlank(x) else SkipBlank(s) + x
  {
    if s == "" {
      assert s + x == x;
    } else {
      assert (s + x)[1..] == s[1..] + x;
      SkipBlankConcat(s[1..], x);
    }
  }

  lemma {:induction false} NoQuoteNoEnd(s: string)
    requires '\'' !in s
    ensures Unquote(s) == None
  {
    if s != "" {
      assert s[0] in s;
      if s[0] != '\\' {
        NoQuoteNoEnd(s[1..]);
      } else if |s| > 1 {
        NoQuoteNoEnd(s[2..]);
      }
    }
  }

  /** Where they are not, the setting has ended or is in error, and what follows a blank
      and no comment makes no difference. */
  lemma {:induction false} UnquoteOutside(s: string, x: string, rest: string)
    requires |x| > 1 && x[0] == ' ' && x[1] == 'a' && '\'' !in rest && Inside(s).None?
    ensures Unquote(s + x) == Unquote(s + (['\''] + rest))
  {
    var y := ['\''] + rest;
    if s[0] == '\n' {
    } else if s[0] == '\'' && (|s| == 1 || s[1] != '\'') {
      QuoteEnds(s, x, rest);
    } else if s[0] == '\'' || s[0] == '\\' {
      assert (s + x)[2..] == s[2..] + x && (s + y)[2..] == s[2..] + y;
      if s[0] == '\'' || s[1] != '\n' {
        UnquoteOutside(s[2..], x, rest);
      }
    } else {
      assert (s + x)[1..] == s[1..] + x && (s + y)[1..] == s[1..] + y;
      UnquoteOutside(s[1..], x, rest);
    }
  }

  lemma LineEndsConcat(t: string, x: string)
    requires x != ""
    ensures LineEnds(t + x) <==> if SkipBlank(t) == "" then LineEnds(x) else LineEnds(t)
  {
    SkipBlankConcat(t, x);
  }

  lemma QuoteAtTheEnd(x: string, rest: string)
    requires |x| > 1 && x[0] == ' ' && x[1] == 'a' && '\'' !in rest
    ensures Unquote(['\''] + x) == None && Unquote(['\''] + (['\''] + rest)) == None
  {
    assert (['\''] + x)[1..] == x && SkipBlank(x) == x[1..];
    assert (['\''] + (['\''] + rest))[2..] == rest;
    NoQuoteNoEnd(rest);
  }

  lemma QuoteBefore(t: string, x: string)
    requires t != "" && t[0] != '\'' && x != "" && !LineEnds(x)
    ensures Unquote(['\''] + (t + x)) == if SkipBlank(t) != "" && LineEnds(t) then Some("") else None
  {
    assert (['\''] + (t + x))[1..] == t + x;
    LineEndsConcat(t, x);
  }

  lemma HeadConcat(s: string, x: string)
    requires s != ""
    ensures s + x == [s[0]] + (s[1..] + x)
  {}

  lemma QuoteEnds(s: string, x: string, rest: string)
    requires |x| > 1 && x[0] == ' ' && x[1] == 'a' && '\'' !in rest
    requires s != "" && s[0] == '\'' && (|s| == 1 || s[1] != '\'')
    ensures Unquote(s + x) == Unquote(s + (['\''] + rest))
  {
    var t, y := s[1..], ['\''] + rest;
    HeadConcat(s, x);
    HeadConcat(s, y);
    if t == "" {
      assert t + x == x && t + y == y;
      QuoteAtTheEnd(x, rest);
    } else {
      assert SkipBlank(x) == x[1..] && SkipBlank(y) == y;
      QuoteBefore(t, x);
      QuoteBefore(t, y);
    }
  }

  /** An open text that a line's last quote closes is the setting the line stood for. */
  lemma {:induction false} InsideClosed(s: string, rest: string)
    requires Inside(s).Some? && '\'' !in rest && Unquote(s + (['\''] + rest)).Some?
    ensures Unquote(s + (['\''] + rest)) == Inside(s)
  {
    var y := ['\''] + rest;
    if s == "" {
      assert s + y == y && (|y| > 1 ==> y[1] in rest);
    } else if s[0] == '\\' && |s| == 1 {
      assert (s + y)[2..] == rest;
      NoQuoteNoEnd(rest);
    } else if s[0] == '\\' || s[0] == '\'' {
      assert (s + y)[2..] == s[2..] + y;
      InsideClosed(s[2..], rest);
    } else {
      assert (s + y)[1..] == s[1..] + y;
      InsideClosed(s[1..], rest);
    }
  }

  /** The name as it is read: shorter than written, unless nothing in it is special. */
  lemma {:induction false} UnquoteName(app: string)
    ensures var r := Unquote(app + "'");
            && (r.Some? ==> |r.value| < |app| || (r.value == app && '\'' !in app))
            && (ConnInfo.Plain(app) ==> r == Some(app))
  {
    var s := app + "'";
    if app == "" {
      assert s == "'";
    } else if app[0] == '\'' || app[0] == '\\' {
      assert app[0] in app;
      if |app| > 1 {
        assert s[2..] == app[2..] + "'";
        UnquoteName(app[2..]);
      } else {
        assert s[2..] == "";
      }
    } else {
      assert s[1..] == app[1..] + "'" && app == [app[0]] + app[1..];
      assert app[0] in app && forall c | c in app[1..] :: c in app;
      UnquoteName(app[1..]);
    }
  }

  /** Text without specials is read as it stands. */
  lemma {:induction false} UnquoteThrough(k: string, x: string)
    requires forall c | c in k :: c != '\'' && c != '\\' && c != '\n'
    ensures Unquote(k + x) == Prepend(k, Unquote(x))
  {
    if k == "" {
      assert k + x == x;
      PrependNothing(Unquote(x));
    } else {
      assert k[0] in k && forall c | c in k[1..] :: c in k;
      assert (k + x)[1..] == k[1..] + x;
      UnquoteThrough(k[1..], x);
      PushPrepend(k[0], k[1..], Unquote(x));
      assert k == [k[0]] + k[1..];
    }
  }

  lemma KeywordPlain()
    ensures Dsn.Keyword(KEYWORD) && KEYWORD[0] == 'a'
    ensures forall c | c in KEYWORD :: c != '\'' && c != '\\' && c != '\n'
  {}

  /** The inserted text by itself. */
  lemma UnquoteInserted(app: string)
    ensures Unquote(ConnInfo.Setting(KEYWORD, app + "'")) ==
            match Unquote(app + "'") case None => None case Some(u) => Some(ConnInfo.Setting(KEYWORD, u))
  {
    KeywordPlain();
    var head := [' '] + KEYWORD + ['='];
    assert forall c | c in head :: c == ' ' || c in KEYWORD || c == '=';
    assert ConnInfo.Setting(KEYWORD, app + "'") == head + (app + "'");
    UnquoteThrough(head, app + "'");
    var r := Unquote(app + "'");
    if r.Some? {
      assert ConnInfo.Setting(KEYWORD, r.value) == head + r.value;
    }
  }

  /** What the insertion makes of the setting, `b` being the part of it that is kept and
      `rest` what the line's last quote was followed by. */
  lemma ReadInserted(b: string, x: string, rest: string)
    requires |x| > 1 && x[0] == ' ' && x[1] == 'a' && '\'' !in rest
    ensures var y := ['\''] + rest;
            match Opened(b)
            case None => ReadSetting(b + x) == ReadSetting(b + y)
            case Some(v) =>
              if Inside(v).None? then ReadSetting(b + x) == ReadSetting(b + y)
              else && ReadSetting(b + x) == Prepend(Inside(v).value, Unquote(x))
                   && (ReadSetting(b + y).Some? ==> ReadSetting(b + y) == Inside(v))
  {
    var y := ['\''] + rest;
    SkipBlankConcat(b, x);
    SkipBlankConcat(b, y);
    var v := SkipBlank(b);
    if v == "" {
      assert SkipBlank(x) == x[1..] && SkipBlank(y) == y && y[1..] == rest;
      NoQuoteNoEnd(rest);
    } else if v[0] == '\'' {
      assert (v + x)[1..] == v[1..] + x && (v + y)[1..] == v[1..] + y;
      if Inside(v[1..]).None? {
        UnquoteOutside(v[1..], x, rest);
      } else {
        UnquoteInside(v[1..], x);
        if Unquote(v[1..] + y).Some? {
          InsideClosed(v[1..], rest);
        }
      }
    }
  }

  /** A setting without quotes is rejected before and after. */
  lemma ReadUnquoted(b: string, x: string)
    requires |x| > 1 && x[0] == ' ' && x[1] == 'a' && '\'' !in b
    ensures Opened(b) == None && ReadSetting(b + x) == None
  {
    SkipBlankConcat(b, x);
    assert SkipBlank(x) == x[1..];
    SkipBlankKeeps(b);
  }

  lemma {:induction false} SkipBlankKeeps(s: string)
    ensures SkipBlank(s) != "" ==> SkipBlank(s)[0] in s
  {
    if s != "" && Blank(s[0]) {
      SkipBlankKeeps(s[1..]);
    }
  }

  lemma InjectForm(kept: string, key: string, app: string)
    ensures kept + " " + (key + "=") + app + "'" == kept + ConnInfo.Setting(key, app + "'")
  {}

  lemma DropConcat(p: string, s: string, x: string)
    requires p <= s
    ensures p <= s + x && (s + x)[|p|..] == s[|p|..] + x
  {}

  lemma InjectSplits(line: string, app: string)
    requires IsConnInfo(line)
    ensures IsConnInfo(Kept(line)) && IsConnInfo(InjectAppName(line, app))
    ensures InjectAppName(line, app)[|PREFIX|..] == Kept(line)[|PREFIX|..] + ConnInfo.Setting(KEYWORD, app + "'")
  {
    KeptHasPrefix(line);
    InjectForm(Kept(line), KEYWORD, app);
    DropConcat(PREFIX, Kept(line), ConnInfo.Setting(KEYWORD, app + "'"));
  }

  lemma LineSplits(line: string) returns (rest: string)
    requires IsConnInfo(line) && '\'' in line
    ensures IsConnInfo(Kept(line)) && '\'' !in rest
    ensures line[|PREFIX|..] == Kept(line)[|PREFIX|..] + (['\''] + rest)
  {
    KeptHasPrefix(line);
    rest := line[LastIndex(line, '\'').value + 1..];
    SplitAtIndex(line, LastIndex(line, '\'').value);
    DropConcat(PREFIX, Kept(line), ['\''] + rest);
  }

  lemma SplitAtIndex(s: string, i: nat)
    requires i < |s|
    ensures s == s[..i] + ([s[i]] + s[i + 1..])
  {}

  /** What the server reads from the edited line: if the quotes are open where the edit
      inserts, the connection string the line stood for with the name behind it, or
      nothing if the name does not leave the quotes as they should be; and otherwise what
      it read before. */
  lemma EditedConnInfo(line: string, app: string)
    requires IsConnInfo(line)
    ensures IsConnInfo(InjectAppName(line, app))
    ensures match KeptConnInfo(line)
            case None => ConnInfoOf(InjectAppName(line, app)) == ConnInfoOf(line)
            case Some(t) =>
              && (ConnInfoOf(line).Some? ==> ConnInfoOf(line) == Some(t))
              && ConnInfoOf(InjectAppName(line, app)) ==
                 match Unquote(app + "'") case None => None case Some(u) => Some(t + ConnInfo.Setting(KEYWORD, u))
    ensures '\'' !in line ==> ConnInfoOf(InjectAppName(line, app)) == None
  {
    InjectSplits(line, app);
    var b, x := Kept(line)[|PREFIX|..], ConnInfo.Setting(KEYWORD, app + "'");
    KeywordPlain();
    UnquoteInserted(app);
    if '\'' in line {
      var rest := LineSplits(line);
      ReadInserted(b, x, rest);
    } else {
      assert forall c | c in b :: c in line;
      ReadUnquoted(b, x);
    }
  }

  /** The line's own connection string, as far as it is kept, names no application. */
  predicate Nameless(line: string)
    requires IsConnInfo(line)
  {
    KeptConnInfo(line).Some? ==> ConnInfo.Silent(KeptConnInfo(line).value, KEYWORD)
  }

  /** The edit can take: the quotes are open where it inserts, and the last value of the
      connection string has ended there. */
  predicate Receptive(line: string)
    requires IsConnInfo(line)
  {
    KeptConnInfo(line).Some? && ConnInfo.Closed(KeptConnInfo(line).value)
  }

  /** A line that names no application is edited to one that names `app` exactly when it is
      receptive and the name needs no quoting. */
  lemma InjectNamesIff(line: string, app: string)
    requires IsConnInfo(line) && Nameless(line)
    ensures IsConnInfo(InjectAppName(line, app))
    ensures NameOf(InjectAppName(line, app)) == Some(app) <==>
            if KeptConnInfo(line).Some? then Receptive(line) && ConnInfo.Plain(app) else NameOf(line) == Some(app)
  {
    EditedConnInfo(line, app);
    KeywordPlain();
    UnquoteName(app);
    var t, u := KeptConnInfo(line), Unquote(app + "'");
    if t.Some? && u.Some? {
      ConnInfo.GivenIff(t.value, KEYWORD, u.value, app);
    }
  }

  /** On a receptive line, whatever name it had, a name that needs no quoting takes: the
      server reads the old pairs and then the new one, which it lets win. */
  lemma InjectAddsPair(line: string, app: string)
    requires IsConnInfo(line) && Receptive(line) && ConnInfo.Plain(app)
    ensures IsConnInfo(InjectAppName(line, app)) && NameOf(InjectAppName(line, app)) == Some(app)
    ensures var given := Dsn.Parse(KeptConnInfo(line).value);
            && given.Some? && ConnInfoOf(InjectAppName(line, app)).Some?
            && Dsn.Parse(ConnInfoOf(InjectAppName(line, app)).value) == Some(given.value + [Dsn.Pair(KEYWORD, app)])
  {
    EditedConnInfo(line, app);
    KeywordPlain();
    UnquoteName(app);
    var t := KeptConnInfo(line).value;
    ConnInfo.ExtendClosed(t, KEYWORD, app);
    ConnInfo.PlainOwn(KEYWORD, app);
    var given, own := Dsn.Parse(t).value, [Dsn.Pair(KEYWORD, app)];
    assert (given + own)[|given + own| - 1] == Dsn.Pair(KEYWORD, app);
  }

  function AssignedLine(k: string, v: string): string { PREFIX + "'" + (k + "=") + v + "'" }

  lemma ReadAssigned(k: string, v: string)
    requires forall c | c in k :: c != '\'' && c != '\\' && c != '\n'
    ensures ReadSetting(['\''] + ((k + ['=']) + (v + "'"))) ==
            match Unquote(v + "'") case None => None case Some(u) => Some((k + ['=']) + u)
  {
    var s := (k + ['=']) + (v + "'");
    assert SkipBlank(['\''] + s) == ['\''] + s && (['\''] + s)[1..] == s;
    assert forall c | c in k + ['='] :: c in k || c == '=';
    UnquoteThrough(k + ['='], v + "'");
  }

  lemma AssignedForm(p: string, k: string, v: string)
    ensures p + "'" + (k + "=") + v + "'" == p + (['\''] + ((k + ['=']) + (v + "'")))
  {}

  /** A line with one assignment, as the server reads it. */
  lemma AssignedReads(k: string, v: string)
    requires forall c | c in k :: c != '\'' && c != '\\' && c != '\n'
    ensures IsConnInfo(AssignedLine(k, v))
    ensures ConnInfoOf(AssignedLine(k, v)) ==
            match Unquote(v + "'") case None => None case Some(u) => Some((k + ['=']) + u)
  {
    AssignedForm(PREFIX, k, v);
    DropConcat(PREFIX, PREFIX, ['\''] + ((k + ['=']) + (v + "'")));
    assert PREFIX[|PREFIX|..] == [];
    ReadAssigned(k, v);
  }

  lemma ParseAssigned(k: string, u: string)
    ensures Dsn.Parse((k + ['=']) + u) == Dsn.Parse([] + ConnInfo.Setting(k, u))
  {
    Dsn.ParseAfterBlank((k + ['=']) + u);
    assert [] + ConnInfo.Setting(k, u) == [' '] + ((k + ['=']) + u);
  }

  /** The appended line. */
  lemma NewLineNamesIff(app: string)
    ensures IsConnInfo(NewLine(app)) && (NameOf(NewLine(app)) == Some(app) <==> ConnInfo.Plain(app))
  {
    KeywordPlain();
    AssignedReads(KEYWORD, app);
    UnquoteName(app);
    var u := Unquote(app + "'");
    if u.Some? {
      ParseAssigned(KEYWORD, u.value);
      ConnInfo.GivenIff([], KEYWORD, u.value, app);
    }
  }

  /** On a receptive line, whatever name it had, exactly the names that need no quoting take. */
  lemma ReceptiveNamesIff(line: string, app: string)
    requires IsConnInfo(line) && Receptive(line)
    ensures IsConnInfo(InjectAppName(line, app))
    ensures NameOf(InjectAppName(line, app)) == Some(app) <==> ConnInfo.Plain(app)
  {
    EditedConnInfo(line, app);
    KeywordPlain();
    UnquoteName(app);
    var u := Unquote(app + "'");
    if u.Some? {
      ConnInfo.ClosedGivenIff(KeptConnInfo(line).value, KEYWORD, u.value, app);
    }
  }

  /** On a line whose last value is open the name is read in spite of it. */
  predicate NameSurvives(line: string, app: string)
    requires IsConnInfo(line) && KeptConnInfo(line).Some?
  {
    var u := Unquote(app + "'");
    u.Some? && ConnInfo.Survives(ConnInfo.EndingOf(KeptConnInfo(line).value), KEYWORD, u.value, app)
  }

  lemma OpenNamesIff(line: string, app: string)
    requires IsConnInfo(line) && KeptConnInfo(line).Some? && !Receptive(line)
    ensures IsConnInfo(InjectAppName(line, app))
    ensures NameOf(InjectAppName(line, app)) == Some(app) <==> NameSurvives(line, app)
  {
    EditedConnInfo(line, app);
    KeywordPlain();
    UnquoteName(app);
    var u := Unquote(app + "'");
    if u.Some? {
      ConnInfo.OpenGivenIff(KeptConnInfo(line).value, KEYWORD, u.value, app);
    }
  }

  /** For a name that needs no quoting: it survives exactly if the line gave it before the
      value that is open, which is not quoted and not a name itself. */
  lemma PlainSurvivesIff(line: string, app: string)
    requires IsConnInfo(line) && KeptConnInfo(line).Some? && ConnInfo.Plain(app)
    ensures NameSurvives(line, app) <==>
            match ConnInfo.EndingOf(KeptConnInfo(line).value)
            case Open(settled, key, text) =>
              (text == "" || text[0] != '\'') && key != KEYWORD && Dsn.Lookup(settled, KEYWORD) == Some(app)
            case _ => false
  {
    KeywordPlain();
    UnquoteName(app);
    ConnInfo.SurvivesPlain(ConnInfo.EndingOf(KeptConnInfo(line).value), KEYWORD, app);
  }

  /** Whether a found line comes to give the name. One in which "application_name=" occurs,
      be it with another name, in a longer keyword or in a comment, gives what it gave
      before; so does one whose quotes are not open where the edit inserts. A receptive one
      gives it if the name needs no quoting; any other only if it survives. */
  predicate WillName(line: string, app: string)
    requires IsConnInfo(line)
  {
    if Contains(line, APP_NAME) || KeptConnInfo(line).None? then NameOf(line) == Some(app)
    else if Receptive(line) then ConnInfo.Plain(app)
    else NameSurvives(line, app)
  }

  lemma EditLineNamesIff(line: string, app: string)
    requires IsConnInfo(line)
    ensures IsConnInfo(EditLine(line, app))
    ensures NameOf(EditLine(line, app)) == Some(app) <==> WillName(line, app)
  {
    if !Contains(line, APP_NAME) {
      if KeptConnInfo(line).None? {
        EditedConnInfo(line, app);
      } else if Receptive(line) {
        ReceptiveNamesIff(line, app);
      } else {
        OpenNamesIff(line, app);
      }
    }
  }

  /** The same for the file: if no line is found, the appended one gives the name exactly
      when it needs no quoting. */
  predicate FileWillName(lines: seq<string>, app: string) {
    var k := FirstConnInfo(lines);
    if k == |lines| then ConnInfo.Plain(app) else WillName(lines[k], app)
  }

  /** Exactly when the server reads the requested name from the edited line. */
  lemma NameSetIff(lines: seq<string>, app: string, edited: string)
    requires edited == EditedLine(lines, app)
    ensures NameOf(edited) == Some(app) <==> FileWillName(lines, app)
  {
    if FirstConnInfo(lines) == |lines| {
      NewLineNamesIff(app);
    } else {
      EditedIs(lines, app);
      ThatLineNamesIff(edited, lines[FirstConnInfo(lines)], app);
    }
  }

  lemma EditedIs(lines: seq<string>, app: string)
    requires FirstConnInfo(lines) < |lines|
    ensures EditedLine(lines, app) == EditLine(lines[FirstConnInfo(lines)], app)
    ensures FileWillName(lines, app) <==> WillName(lines[FirstConnInfo(lines)], app)
  {}

  lemma ThatLineNamesIff(edited: string, line: string, app: string)
    requires IsConnInfo(line) && IsConnInfo(edited) && edited == EditLine(line, app)
    ensures NameOf(edited) == Some(app) <==> WillName(line, app)
  {
    EditLineNamesIff(line, app);
  }

  /** The line the server goes by: the last that assigns the setting. */
  predicate Effective(lines: seq<string>, k: nat) {
    k < |lines| && IsConnInfo(lines[k]) && forall i | k < i < |lines| :: !IsConnInfo(lines[i])
  }

  /** The edited line is the one the server goes by exactly when no other follows it. */
  lemma EditedEffectiveIff(lines: seq<string>, app: string)
    ensures Effective(EditLines(lines, app), FirstConnInfo(lines))
       <==> forall i | FirstConnInfo(lines) < i < |lines| :: !IsConnInfo(lines[i])
  {
    var k := FirstConnInfo(lines);
    if k < |lines| {
      EditLineStays(lines[k], app);
      assert forall i | k < i < |lines| :: EditLines(lines, app)[i] == lines[i];
    } else {
      NewLineStarts(app);
    }
  }

  /** A name once given is never updated, not even to one it begins with. */
  lemma NeverUpdated(former: string, app: string)
    requires ConnInfo.Plain(former)
    ensures EditLine(NewLine(former), app) == NewLine(former)
    ensures IsConnInfo(NewLine(former)) && NameOf(NewLine(former)) == Some(former)
  {
    NewLineNamesIff(former);
    assert NewLine(former) == (PREFIX + "'") + APP_NAME + (former + "'");
    ContainsMiddle(PREFIX + "'", APP_NAME, former + "'");
  }

  const FALLBACK: string := "fallback_" + KEYWORD

  function FallbackLine(other: string): string { AssignedLine(FALLBACK, other) }

  /** A fallback name keeps the edit from setting any. */
  lemma FallbackSuppresses(other: string, app: string)
    requires ConnInfo.Plain(other)
    ensures EditLine(FallbackLine(other), app) == FallbackLine(other)
    ensures IsConnInfo(FallbackLine(other)) && NameOf(FallbackLine(other)) == None
  {
    FallbackContains(other);
    FallbackPlain();
    AssignedReads(FALLBACK, other);
    UnquoteName(other);
    ParseAssigned(FALLBACK, other);
    ConnInfo.PlainOwn(FALLBACK, other);
    assert [] + ConnInfo.Setting(FALLBACK, other) == ConnInfo.Setting(FALLBACK, other);
    LookupOther(FALLBACK, other, KEYWORD);
  }

  lemma LookupOther(k: string, v: string, other: string)
    requires k != other
    ensures Dsn.Lookup([Dsn.Pair(k, v)], other) == None
  {
    assert [Dsn.Pair(k, v)][..0] == [];
  }

  lemma FallbackContains(other: string)
    ensures Contains(FallbackLine(other), APP_NAME)
  {
    var start := PREFIX + "'" + "fallback_";
    assert FallbackLine(other) == start + APP_NAME + (other + "'");
    ContainsMiddle(start, APP_NAME, other + "'");
  }

  lemma FallbackPlain()
    ensures Dsn.Keyword(FALLBACK) && FALLBACK != KEYWORD
    ensures forall c | c in FALLBACK :: c != '\'' && c != '\\' && c != '\n'
  {
    assert |FALLBACK| == 25 && |KEYWORD| == 16;
  }

  // ----- quotes -----

  function Quotes(s: string): nat { multiset(s)['\''] }

  lemma AppNameQuotes()
    ensures '\'' !in APP_NAME
  {}

  /** The edit keeps the quotes of a line that has any balanced exactly when those of the
      name are: a value written without quotes gains one that nothing opens. */
  lemma InjectBalancedIff(line: string, app: string)
    ensures Quotes(InjectAppName(line, app)) % 2 == 0 <==>
            if '\'' in line then Quotes(line) % 2 == Quotes(app) % 2 else Quotes(app) % 2 == 1
  {
    InjectCount(line, app);
    KeptQuotes(line);
    Parity(Quotes(InjectAppName(line, app)), Quotes(Kept(line)), Quotes(line), Quotes(app), '\'' in line);
  }

  lemma Parity(after: nat, kept: nat, all: nat, added: nat, quoted: bool)
    requires after == kept + added + 1
    requires all == kept + (if quoted then 1 else 0) && (!quoted ==> all == 0)
    ensures after % 2 == 0 <==> if quoted then all % 2 == added % 2 else added % 2 == 1
  {}

  lemma InjectCount(line: string, app: string)
    ensures Quotes(InjectAppName(line, app)) == Quotes(Kept(line)) + Quotes(app) + 1
  {
    AppNameQuotes();
    InjectQuotes(Kept(line), APP_NAME, app);
    assert InjectAppName(line, app) == Kept(line) + " " + APP_NAME + app + "'";
  }

  lemma KeptQuotes(line: string)
    ensures Quotes(line) == Quotes(Kept(line)) + (if '\'' in line then 1 else 0)
    ensures '\'' !in line ==> Quotes(line) == 0
  {
    var i := LastIndex(line, '\'');
    if i.Some? {
      assert line == line[..i.value] + ['\''] + line[i.value + 1..];
    }
  }

  lemma InjectQuotes(kept: string, key: string, app: string)
    requires '\'' !in key
    ensures Quotes(kept + " " + key + app + "'") == Quotes(kept) + Quotes(app) + 1
  {}

  /** The line loop has come to the k-th line, and that is the one. */
  lemma FoundAt(lines: seq<string>, app: string, k: nat)
    requires k < |lines| && IsConnInfo(lines[k]) && forall i | 0 <= i < k :: !IsConnInfo(lines[i])
    ensures EditLines(lines, app) == lines[k := EditLine(lines[k], app)]
    ensures Contains(lines[k], APP_NAME) ==> EditLines(lines, app) == lines
  {
    FirstConnInfoAfter(lines[..k], lines[k..]);
    assert lines[..k] + lines[k..] == lines;
  }

  /** appendConnInfoAppname on the file's content, None if it cannot be read. */
  method AppendConnInfoAppname(content: Option<string>, app: string) returns (ok: bool, written: Option<string>)
    ensures app == "" ==> ok && written.None?
    ensures app != "" && content.None? ==> !ok && written.None?
    ensures app != "" && content.Some? ==> ok && written == Some(Edit(content.value, app))
  {
    if app == "" {
      return true, None;
    }
    if content.None? {
      return false, None;
    }
    var lines := Split(content.value, '\n');
    ghost var before := lines;
    var found := false;
    for i := 0 to |lines|
      invariant !found && lines == before == Split(content.value, '\n')
      invariant forall j | 0 <= j < i :: !IsConnInfo(lines[j])
    {
      if PREFIX <= lines[i] {
        FoundAt(before, app, i);
        if !Contains(lines[i], APP_NAME) {
          lines := lines[i := InjectAppName(lines[i], app)];
        }
        found := true;
        break;
      }
    }
    if !found {
      lines := lines + [NewLine(app)];
    }
    assert lines == EditLines(before, app);
    var out := Join(lines, '\n');
    if !(out != "" && out[|out| - 1] == '\n') {
      out := out + "\n";
    }
    return true, Some(out);
  }
}
