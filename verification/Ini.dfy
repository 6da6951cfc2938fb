/** The line-oriented settings syntax: sections, `key = value`, comments, optional quotes round a value.

    A text is a sequence of characters; `Parse` says what a scan hands to the caller's entry function, `Scan` is the
    scan itself. `ParseLines` is the bridge to texts written line by line. */
module Ini {
  import opened Wrappers

  const MAX_LINE: nat := 1024
  const MAX_SECTION: nat := 96

  // ---- one line ------------------------------------------------------------------------------

  predicate IsSpace(c: char) { c == ' ' || '\t' <= c <= '\r' }

  function TrimEnd(s: string): (r: string)
    ensures |r| <= |s| && r == s[..|r|]
    ensures r != "" ==> !IsSpace(r[|r| - 1])
    ensures forall i :: |r| <= i < |s| ==> IsSpace(s[i])
  {
    if s != "" && IsSpace(s[|s| - 1]) then TrimEnd(s[..|s| - 1]) else s
  }

  function Trim(s: string): (r: string)
    ensures |r| <= |s|
    ensures r != "" ==> !IsSpace(r[0]) && !IsSpace(r[|r| - 1])
  {
    if s != "" && IsSpace(s[0]) then Trim(s[1..]) else TrimEnd(s)
  }

  /** Index of the first c, or the length. */
  function Find(s: string, c: char): (r: nat)
    ensures r <= |s| && (forall i :: 0 <= i < r ==> s[i] != c) && (r < |s| ==> s[r] == c)
  {
    if s == "" || s[0] == c then 0 else 1 + Find(s[1..], c)
  }

  /** A C string ends at the first NUL. */
  function Cut(s: string): string { s[..Find(s, '\0')] }

  function Unquote(v: string): string {
    if |v| >= 2 && v[0] == v[|v| - 1] && (v[0] == '\"' || v[0] == '\'') then v[1..|v| - 1] else v
  }

  datatype Item = Blank | Section(name: string) | Entry(key: string, value: string) | Malformed

  function Interpret(line: string): Item {
    var t := Trim(line);
    if t == "" || t[0] == '#' || t[0] == ';' then Blank
    else if t[0] == '[' then
      var close := Find(t, ']');
      if close == |t| || Trim(t[close + 1..]) != "" then Malformed
      else
        var name := Trim(t[1..close]);
        if 0 < |name| < MAX_SECTION then Section(name) else Malformed
    else
      var eq := Find(t, '=');
      if eq == |t| || Trim(t[..eq]) == "" then Malformed
      else Entry(Trim(t[..eq]), Unquote(Trim(t[eq + 1..])))
  }

  // ---- a text --------------------------------------------------------------------------------

  datatype Reading = TooLong | Read(line: string, rest: string)

  /** The rest of the current line; carriage returns are dropped but count against an already full line. */
  function ReadLine(text: string, line: string): (r: Reading)
    ensures r.Read? && text != "" ==> |r.rest| < |text|
  {
    if text == "" || text[0] == '\n' then Read(line, if text == "" then "" else text[1..])
    else if |line| + 1 >= MAX_LINE then TooLong
    else ReadLine(text[1..], if text[0] == '\r' then line else line + [text[0]])
  }

  /** The caller's entry function: state, section, key and value give the next state, or refuse. */
  type Step<!S> = (S, string, string, string) -> Option<S>

  datatype Cursor<S> = Cursor(section: string, state: S)

  function Feed<S>(step: Step<S>, at: Cursor<S>, line: string): Option<Cursor<S>> {
    match Interpret(Cut(line))
    case Blank => Some(at)
    case Malformed => None
    case Section(name) => Some(at.(section := name))
    case Entry(key, value) =>
      match step(at.state, at.section, key, value)
      case None => None
      case Some(next) => Some(at.(state := next))
  }

  function Parse<S>(step: Step<S>, text: string, at: Cursor<S>): Option<S>
    decreases |text|
  {
    if text == "" then Some(at.state)
    else
      match ReadLine(text, "")
      case TooLong => None
      case Read(line, rest) =>
        match Feed(step, at, line)
        case None => None
        case Some(next) => Parse(step, rest, next)
  }

  // ---- the scan ------------------------------------------------------------------------------

  lemma {:induction false} TrimParts(s: string, a: nat, b: nat)
    requires a <= b <= |s| && (forall i :: 0 <= i < a ==> IsSpace(s[i])) && (forall i :: b <= i < |s| ==> IsSpace(s[i]))
    requires a < b ==> !IsSpace(s[a]) && !IsSpace(s[b - 1])
    ensures Trim(s) == s[a..b]
  {
    if a > 0 {
      TrimParts(s[1..], a - 1, b - 1);
      assert s[1..][a - 1..b - 1] == s[a..b];
    } else if |s| > 0 && IsSpace(s[0]) {
      TrimParts(s[1..], 0, if b == 0 then 0 else b - 1);
    } else {
      TrimEndParts(s, b);
    }
  }

  lemma {:induction false} TrimEndParts(s: string, b: nat)
    requires b <= |s| && (forall i :: b <= i < |s| ==> IsSpace(s[i])) && (b > 0 ==> !IsSpace(s[b - 1]))
    ensures TrimEnd(s) == s[..b]
  {
    if b < |s| {
      TrimEndParts(s[..|s| - 1], b);
      assert s[..|s| - 1][..b] == s[..b];
    }
  }

  method TrimText(text: string) returns (r: string)
    ensures r == Trim(text)
  {
    var start, end := 0, |text|;
    while start < |text| && IsSpace(text[start])
      invariant start <= |text| && forall i :: 0 <= i < start ==> IsSpace(text[i])
    {
      start := start + 1;
    }
    while end > start && IsSpace(text[end - 1])
      invariant start <= end <= |text| && forall i :: end <= i < |text| ==> IsSpace(text[i])
    {
      end := end - 1;
    }
    TrimParts(text, start, end);
    r := text[start..end];
  }

  /** Fills the line buffer from `from`; `next` is where the following line starts. */
  method FillLine(text: string, from: nat) returns (ok: bool, line: string, next: nat)
    requires from < |text|
    ensures !ok ==> ReadLine(text[from..], "").TooLong?
    ensures ok ==> from < next <= |text| && ReadLine(text[from..], "") == Read(line, text[next..])
  {
    line := "";
    next := from;
    while next < |text| && text[next] != '\n'
      invariant from <= next <= |text|
      invariant ReadLine(text[from..], "") == ReadLine(text[next..], line)
    {
      if |line| + 1 >= MAX_LINE { return false, "", 0; }
      if text[next] != '\r' { line := line + [text[next]]; }
      assert text[next..][1..] == text[next + 1..];
      next := next + 1;
    }
    if next < |text| {
      assert text[next..][1..] == text[next + 1..];
      next := next + 1;
    }
    return true, line, next;
  }

  /** Classifies one line in place. */
  method ReadItem(buffer: string) returns (item: Item)
    ensures item == Interpret(Cut(buffer))
  {
    hide Trim;
    var cursor := TrimText(Cut(buffer));
    if cursor == "" || cursor[0] == '#' || cursor[0] == ';' { return Blank; }
    if cursor[0] == '[' {
      var close := Find(cursor, ']');
      if close == |cursor| { return Malformed; }
      var after := TrimText(cursor[close + 1..]);
      if after != "" { return Malformed; }
      var name := TrimText(cursor[1..close]);
      if |name| == 0 || |name| >= MAX_SECTION { return Malformed; }
      return Section(name);
    }
    var equals := Find(cursor, '=');
    if equals == |cursor| { return Malformed; }
    var key := TrimText(cursor[..equals]);
    var value := TrimText(cursor[equals + 1..]);
    if key == "" { return Malformed; }
    if |value| >= 2 && ((value[0] == '\"' && value[|value| - 1] == '\"')
                        || (value[0] == '\'' && value[|value| - 1] == '\'')) {
      value := value[1..|value| - 1];
    }
    return Entry(key, value);
  }

  method Scan<S>(text: string, step: Step<S>, init: S) returns (r: Option<S>)
    ensures r == Parse(step, text, Cursor("", init))
  {
    hide Interpret, ReadLine, Cut;
    var section, state, offset := "", init, 0;
    assert text[0..] == text;
    while offset < |text|
      invariant offset <= |text|
      invariant Parse(step, text, Cursor("", init)) == Parse(step, text[offset..], Cursor(section, state))
    {
      var ok, line, next := FillLine(text, offset);
      if !ok { return None; }
      offset := next;
      var item := ReadItem(line);
      match item {
        case Blank =>
        case Malformed => return None;
        case Section(name) => section := name;
        case Entry(key, value) =>
          var entered := step(state, section, key, value);
          if entered.None? { return None; }
          state := entered.value;
      }
    }
    r := Some(state);
  }

  // ---- texts written line by line ------------------------------------------------------------

  /** A line that reads back as itself. */
  predicate Clean(line: string) {
    |line| < MAX_LINE && forall i :: 0 <= i < |line| ==> line[i] != '\n' && line[i] != '\r' && line[i] != '\0'
  }

  function Unlines(lines: seq<string>): string {
    if lines == [] then "" else lines[0] + "\n" + Unlines(lines[1..])
  }

  function FeedAll<S>(step: Step<S>, at: Cursor<S>, lines: seq<string>): Option<Cursor<S>>
    decreases |lines|
  {
    if lines == [] then Some(at)
    else
      match Feed(step, at, lines[0])
      case None => None
      case Some(next) => FeedAll(step, next, lines[1..])
  }

  lemma {:induction false} ReadClean(line: string, i: nat, rest: string)
    requires Clean(line) && i <= |line|
    ensures ReadLine(line[i..] + "\n" + rest, line[..i]) == Read(line, rest)
    decreases |line| - i
  {
    var text := line[i..] + "\n" + rest;
    if i < |line| {
      assert text[0] == line[i] && text[1..] == line[i + 1..] + "\n" + rest;
      assert line[..i] + [line[i]] == line[..i + 1];
      ReadClean(line, i + 1, rest);
    } else {
      assert text[0] == '\n' && text[1..] == rest && line[..i] == line;
    }
  }

  /** Scanning a text of clean lines feeds exactly those lines. */
  lemma {:induction false} ParseLines<S>(step: Step<S>, at: Cursor<S>, lines: seq<string>)
    requires forall i :: 0 <= i < |lines| ==> Clean(lines[i])
    ensures Parse(step, Unlines(lines), at)
         == match FeedAll(step, at, lines) { case None => None case Some(end) => Some(end.state) }
    decreases |lines|
  {
    hide Feed, ReadLine;
    if lines != [] {
      var rest := Unlines(lines[1..]);
      ReadClean(lines[0], 0, rest);
      assert lines[0][0..] + "\n" + rest == Unlines(lines);
      assert lines[0][..0] == "";
      match Feed(step, at, lines[0]) {
        case None =>
        case Some(next) => ParseLines(step, next, lines[1..]);
      }
    }
  }

  lemma {:induction false} UnlinesConcat(a: seq<string>, b: seq<string>)
    ensures Unlines(a + b) == Unlines(a) + Unlines(b)
  {
    if a == [] {
      assert a + b == b;
    } else {
      UnlinesConcat(a[1..], b);
      assert (a + b)[1..] == a[1..] + b;
    }
  }

  lemma {:induction false} FeedConcat<S>(step: Step<S>, at: Cursor<S>, a: seq<string>, b: seq<string>, mid: Cursor<S>)
    requires FeedAll(step, at, a) == Some(mid)
    ensures FeedAll(step, at, a + b) == FeedAll(step, mid, b)
    decreases |a|
  {
    if a == [] {
      assert a + b == b;
    } else {
      assert (a + b)[1..] == a[1..] + b;
      FeedConcat(step, Feed(step, at, a[0]).value, a[1..], b, mid);
    }
  }

  // ---- what a written line means -------------------------------------------------------------

  predicate Tight(s: string) { s == "" || (!IsSpace(s[0]) && !IsSpace(s[|s| - 1])) }

  lemma TrimTight(s: string)
    requires Tight(s)
    ensures Trim(s) == s
  {
    TrimParts(s, 0, |s|);
    assert s[0..|s|] == s;
  }

  lemma CutClean(s: string)
    requires Clean(s)
    ensures Cut(s) == s
  {
  }

  /** `key=value` is that entry, quotes removed, when neither side has blanks at its ends. */
  lemma InterpretEntry(key: string, value: string)
    requires key != "" && Tight(key) && Tight(value) && key[0] !in {'#', ';', '['}
    requires forall i :: 0 <= i < |key| ==> key[i] != '='
    ensures Interpret(key + "=" + value) == Entry(key, Unquote(value))
  {
    hide Unquote;
    var line := key + "=" + value;
    assert line[|line| - 1] == if value == "" then '=' else value[|value| - 1];
    TrimTight(line);
    assert Find(line, '=') == |key| by { assert line[|key|] == '='; }
    assert line[..|key|] == key && line[|key| + 1..] == value;
    TrimTight(key);
    TrimTight(value);
  }

  /** `[name]` opens that section. */
  lemma InterpretSection(name: string)
    requires 0 < |name| < MAX_SECTION && Tight(name) && forall i :: 0 <= i < |name| ==> name[i] != ']'
    ensures Interpret("[" + name + "]") == Section(name)
  {
    var line := "[" + name + "]";
    assert line[|line| - 1] == ']';
    TrimTight(line);
    assert Find(line, ']') == |line| - 1;
    assert line[1..|line| - 1] == name && line[|line|..] == "";
    TrimTight(name);
  }

  /** After any blanks, a number sign or a semicolon makes a comment; a line that is neither a section nor has an equals sign is
      malformed, and so is one with nothing before that sign. */
  lemma InterpretOther(indent: string, line: string)
    requires (forall i :: 0 <= i < |indent| ==> IsSpace(indent[i])) && line != "" && Tight(line)
    ensures line[0] in {'#', ';'} ==> Interpret(indent + line) == Blank
    ensures line[0] == '=' ==> Interpret(indent + line) == Malformed
    ensures line[0] !in {'#', ';', '['} && (forall i :: 0 <= i < |line| ==> line[i] != '=') ==> Interpret(indent + line) == Malformed
    ensures line[0] == '[' && (forall i :: 0 <= i < |line| ==> line[i] != ']') ==> Interpret(indent + line) == Malformed
  {
    hide Unquote;
    var whole := indent + line;
    TrimParts(whole, |indent|, |whole|);
    assert whole[|indent|..|whole|] == line;
    if line[0] == '=' { assert Find(line, '=') == 0 && line[..0] == "" && Trim("") == ""; }
  }

  /** One pair of equal quotes is taken off, and nothing else. */
  lemma UnquoteMeaning(v: string, quote: char)
    ensures quote in {'\"', '\''} ==> Unquote([quote] + v + [quote]) == v
    ensures |v| < 2 || v[0] !in {'\"', '\''} || v[0] != v[|v| - 1] ==> Unquote(v) == v
  {
    var quoted := [quote] + v + [quote];
    assert quoted[|quoted| - 1] == quote && quoted[1..|quoted| - 1] == v;
  }

  lemma InterpretBlank()
    ensures Interpret("") == Blank
  {
  }
}
