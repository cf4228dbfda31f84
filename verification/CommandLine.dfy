// The monitor's command-line lexer and the quoting the configuration renderer
// does for it, with the round trip between them.
module CommandLines {
  import opened Bytes

  predicate IsSpace(c: char) {
    c == ' ' || c == '\t' || c == '\n' || c == '\r' || c == '\U{000B}' || c == '\U{000C}'
  }

  // ---- tokenize -------------------------------------------------------------

  // Where the lexer is: the finished words, the one being built, and whether a
  // quote or an escape is open.  `stopped` records the comment that ends a line.
  datatype Lexer = Lexer(words: seq<string>, word: string, started: bool,
                         quoted: bool, quote: char, escaped: bool, stopped: bool)

  function Step(s: Lexer, c: char): Lexer {
    if s.stopped then s
    else if s.escaped then s.(word := s.word + [c], started := true, escaped := false)
    else if c == '\\' then s.(started := true, escaped := true)
    else if s.quoted then
      if c == s.quote then s.(quoted := false) else s.(word := s.word + [c])
    else if c == '\'' || c == '"' then s.(started := true, quoted := true, quote := c)
    else if c == ';' then s.(stopped := true)
    else if IsSpace(c) then
      if s.started then s.(words := s.words + [s.word], word := "", started := false) else s
    else s.(word := s.word + [c], started := true)
  }

  function Run(s: Lexer, line: string): Lexer {
    if line == "" then s else Step(Run(s, line[..|line| - 1]), line[|line| - 1])
  }

  function Finish(s: Lexer): Option<seq<string>> {
    var word := if s.escaped then s.word + "\\" else s.word;
    if s.quoted then None
    else if s.started then Some(s.words + [word])
    else Some(s.words)
  }

  function SkipSpaces(line: string): (r: string)
    ensures r != "" ==> !IsSpace(r[0])
  {
    if line != "" && IsSpace(line[0]) then SkipSpaces(line[1..]) else line
  }

  predicate IsComment(line: string) {
    var rest := SkipSpaces(line);
    rest == "" || rest[0] == '#' || rest[0] == ';'
  }

  const START := Lexer([], "", false, false, '\0', false, false)

  // The words of a line, or None for an unterminated quote.
  function Words(line: string): Option<seq<string>> {
    if IsComment(line) then Some([]) else Finish(Run(START, line))
  }

  method Tokenize(line: string) returns (r: Option<seq<string>>)
    ensures r == Words(line)
  {
    var first := 0;
    while first < |line| && IsSpace(line[first])
      invariant first <= |line| && SkipSpaces(line[first..]) == SkipSpaces(line)
    {
      assert line[first..][1..] == line[first + 1..];
      first := first + 1;
    }
    if first == |line| || line[first] == '#' || line[first] == ';' {
      return Some([]);
    }
    var words: seq<string>, word := [], "";
    var quoted, quote, escaped, wordStarted := false, '\0', false, false;
    var i := 0;
    while i < |line|
      invariant 0 <= i <= |line|
      invariant Run(START, line[..i]) == Lexer(words, word, wordStarted, quoted, quote, escaped, false)
    {
      var c := line[i];
      assert line[..i + 1][..i] == line[..i];
      if escaped {
        word, wordStarted, escaped := word + [c], true, false;
      } else if c == '\\' {
        wordStarted, escaped := true, true;
      } else if quoted {
        if c == quote {
          quoted := false;
        } else {
          word := word + [c];
        }
      } else if c == '\'' || c == '"' {
        wordStarted, quoted, quote := true, true, c;
      } else if c == ';' {
        assert Run(START, line[..i + 1]).stopped;
        StoppedStays(START, line, i + 1);
        break;
      } else if IsSpace(c) {
        if wordStarted {
          words, word, wordStarted := words + [word], "", false;
        }
      } else {
        word, wordStarted := word + [c], true;
      }
      i := i + 1;
    }
    assert line[..|line|] == line;
    if escaped {
      word := word + "\\";
    }
    if quoted {
      return None;
    }
    if wordStarted {
      words := words + [word];
    }
    return Some(words);
  }

  lemma {:induction false} StoppedStays(s: Lexer, line: string, i: nat)
    requires i <= |line| && Run(s, line[..i]).stopped
    ensures Run(s, line) == Run(s, line[..i])
    decreases |line|
  {
    if i == |line| {
      assert line[..i] == line;
    } else {
      assert line[..|line| - 1][..i] == line[..i];
      StoppedStays(s, line[..|line| - 1], i);
    }
  }

  // ---- quoteArgument ----------------------------------------------------------

  predicate Forbidden(c: char) {
    c == '\r' || c == '\n' || c == '\0'
  }

  predicate Special(c: char) {
    IsSpace(c) || c == ';' || c == '\'' || c == '"' || c == '\\'
  }

  ghost predicate Acceptable(value: string) {
    forall i | 0 <= i < |value| :: !Forbidden(value[i])
  }

  ghost predicate NeedsQuotes(value: string) {
    value == "" || exists i | 0 <= i < |value| :: Special(value[i])
  }

  function Escape(value: string): string {
    if value == "" then ""
    else
      var c := value[|value| - 1];
      Escape(value[..|value| - 1]) + if c == '\\' || c == '"' then ['\\', c] else [c]
  }

  ghost function Quoted(value: string): string {
    if NeedsQuotes(value) then "\"" + Escape(value) + "\"" else value
  }

  // None stands for the exception a newline or NUL raises.
  method QuoteArgument(value: string) returns (r: Option<string>)
    ensures r == if Acceptable(value) then Some(Quoted(value)) else None
  {
    for i := 0 to |value|
      invariant forall k | 0 <= k < i :: !Forbidden(value[k])
    {
      if Forbidden(value[i]) {
        return None;
      }
    }
    var quote := value == "";
    for i := 0 to |value|
      invariant quote <==> value == "" || exists k | 0 <= k < i :: Special(value[k])
    {
      if Special(value[i]) {
        quote := true;
      }
    }
    if !quote {
      return Some(value);
    }
    var out := "\"";
    for i := 0 to |value|
      invariant out == "\"" + Escape(value[..i])
    {
      assert value[..i + 1][..i] == value[..i];
      if value[i] == '\\' {
        out := out + "\\\\";
      } else if value[i] == '"' {
        out := out + "\\\"";
      } else {
        out := out + [value[i]];
      }
    }
    assert value[..|value|] == value;
    return Some(out + "\"");
  }

  // ---- the round trip -----------------------------------------------------------

  ghost function Join(args: seq<string>): string {
    if args == [] then ""
    else if |args| == 1 then Quoted(args[0])
    else Join(args[..|args| - 1]) + " " + Quoted(args[|args| - 1])
  }

  lemma {:induction false} RunAppend(s: Lexer, a: string, b: string)
    ensures Run(s, a + b) == Run(Run(s, a), b)
  {
    if b == "" {
      assert a + b == a;
    } else {
      assert (a + b)[..|a + b| - 1] == a + b[..|b| - 1];
      RunAppend(s, a, b[..|b| - 1]);
    }
  }

  // Between words: nothing begun, no quote or escape open.
  predicate Idle(s: Lexer) {
    !s.started && s.word == "" && !s.quoted && !s.escaped && !s.stopped
  }

  // A word is complete up to what follows it.
  predicate Holding(s: Lexer, words: seq<string>, word: string) {
    s.words == words && s.word == word && s.started && !s.quoted && !s.escaped && !s.stopped
  }

  lemma {:induction false} PlainWord(s: Lexer, value: string)
    requires Idle(s) && value != "" && !NeedsQuotes(value)
    ensures Holding(Run(s, value), s.words, value)
  {
    var c := value[|value| - 1];
    assert !Special(c);
    if |value| > 1 {
      PlainWord(s, value[..|value| - 1]);
      assert value == value[..|value| - 1] + [c];
    } else {
      assert value[..0] == "" && value == [c];
    }
  }

  lemma {:induction false} EscapedWord(s: Lexer, value: string)
    requires s.started && s.word == "" && s.quoted && s.quote == '"' && !s.escaped && !s.stopped
    ensures Run(s, Escape(value)) == s.(word := value)
  {
    if value != "" {
      var n := |value| - 1;
      var c := value[n];
      EscapedWord(s, value[..n]);
      var at := Run(s, Escape(value[..n]));
      assert value == value[..n] + [c];
      if c == '\\' || c == '"' {
        RunAppend(s, Escape(value[..n]), ['\\', c]);
        assert Run(at, ['\\', c]) == Step(Step(at, '\\'), c) by {
          assert ['\\', c][..1] == ['\\'];
          assert Run(at, ['\\']) == Step(Run(at, ""), '\\') by { assert ['\\'][..0] == ""; }
        }
      } else {
        RunAppend(s, Escape(value[..n]), [c]);
        assert Run(at, [c]) == Step(at, c) by { assert [c][..0] == ""; }
      }
    }
  }

  lemma QuotedWord(s: Lexer, value: string)
    requires Idle(s)
    ensures Holding(Run(s, Quoted(value)), s.words, value)
  {
    if NeedsQuotes(value) {
      var inside := s.(started := true, quoted := true, quote := '"');
      assert Run(s, "\"") == Step(s, '"') == inside by { assert "\""[..0] == ""; }
      EscapedWord(inside, value);
      RunAppend(s, "\"", Escape(value));
      var at := inside.(word := value);
      RunAppend(s, "\"" + Escape(value), "\"");
      assert Run(at, "\"") == Step(at, '"') by { assert "\""[..0] == ""; }
    } else {
      PlainWord(s, value);
    }
  }

  lemma {:induction false} JoinedWords(args: seq<string>)
    requires args != []
    ensures Holding(Run(START, Join(args)), args[..|args| - 1], args[|args| - 1])
  {
    var n := |args| - 1;
    if n == 0 {
      QuotedWord(START, args[0]);
    } else {
      JoinedWords(args[..n]);
      var at := Run(START, Join(args[..n]));
      var between := Step(at, ' ');
      assert args[..n] == args[..n][..n - 1] + [args[..n][n - 1]];
      RunAppend(START, Join(args[..n]), " ");
      assert Run(at, " ") == between by { assert " "[..0] == ""; }
      RunAppend(START, Join(args[..n]) + " ", Quoted(args[n]));
      QuotedWord(between, args[n]);
    }
  }

  lemma {:induction false} JoinStarts(args: seq<string>)
    requires args != []
    ensures Quoted(args[0]) != "" && Quoted(args[0]) <= Join(args)
  {
    if |args| > 1 {
      JoinStarts(args[..|args| - 1]);
    }
  }

  // An unquoted leading '#' turns the whole line into a comment.
  ghost predicate ReadsAsComment(args: seq<string>) {
    args != [] && !NeedsQuotes(args[0]) && args[0][0] == '#'
  }

  lemma LineIsComment(args: seq<string>)
    requires args != []
    ensures IsComment(Join(args)) <==> ReadsAsComment(args)
  {
    JoinStarts(args);
    var line, first := Join(args), Quoted(args[0]);
    assert line[0] == first[0];
    if !NeedsQuotes(args[0]) {
      assert !Special(args[0][0]);
    }
    assert !IsSpace(line[0]);
  }

  // Quoting then lexing gives the argument list back for every list of
  // acceptable values except exactly those whose line reads as a comment.
  lemma QuotedLineRoundTrips(args: seq<string>)
    requires forall i | 0 <= i < |args| :: Acceptable(args[i])
    ensures Words(Join(args)) == Some(args) <==> !ReadsAsComment(args)
    ensures ReadsAsComment(args) ==> Words(Join(args)) == Some([])
  {
    if args == [] {
      assert IsComment("");
    } else {
      LineIsComment(args);
      LexedLine(args);
    }
  }

  lemma LexedLine(args: seq<string>)
    requires args != []
    ensures Finish(Run(START, Join(args))) == Some(args)
  {
    JoinedWords(args);
    assert args[..|args| - 1] + [args[|args| - 1]] == args;
  }

  lemma HashArgumentIsLost()
    ensures Words(Join(["#1"])) == Some([])
  {
    assert ReadsAsComment(["#1"]);
    QuotedLineRoundTrips(["#1"]);
  }

  // ---- characters with a meaning ------------------------------------------------------

  // Outside quotes and escapes a semicolon ends the line.
  lemma SemicolonEnds(line: string, rest: string)
    requires !IsComment(line) && !Run(START, line).quoted && !Run(START, line).escaped
    ensures Words(line + ";" + rest) == Words(line)
  {
    var all, cut := line + ";" + rest, line + ";";
    RunAppend(START, line, ";");
    assert ";"[..0] == "";
    assert cut[..|line|] == line && cut[|line|] == ';';
    var s, t := Run(START, line), Run(START, cut);
    assert t == if s.stopped then s else s.(stopped := true);
    assert all[..|cut|] == cut;
    StoppedStays(START, all, |cut|);
    CommentPrefix(line, ";" + rest);
    assert line + (";" + rest) == all;
  }

  lemma {:induction false} CommentPrefix(line: string, rest: string)
    requires !IsComment(line)
    ensures !IsComment(line + rest)
  {
    if line != "" && IsSpace(line[0]) {
      assert (line + rest)[1..] == line[1..] + rest;
      CommentPrefix(line[1..], rest);
    }
  }

  // Either quote keeps blanks, semicolons and the other quote as they are, and
  // a backslash anywhere keeps the character after it.
  lemma {:induction false} QuoteKeeps(s: Lexer, text: string)
    requires s.quoted && !s.escaped && !s.stopped
    requires forall i | 0 <= i < |text| :: text[i] != s.quote && text[i] != '\\'
    ensures Run(s, text) == s.(word := s.word + text)
  {
    if text == "" {
      assert s.word + "" == s.word;
    } else {
      var n := |text| - 1;
      QuoteKeeps(s, text[..n]);
      assert s.word + text[..n] + [text[n]] == s.word + text;
    }
  }

  lemma BackslashKeeps(s: Lexer, c: char)
    requires !s.escaped && !s.stopped
    ensures Run(s, ['\\', c]) == s.(word := s.word + [c], started := true)
  {
    assert ['\\', c][..1] == ['\\'] && ['\\'][..0] == "";
    assert Run(s, ['\\']) == Step(s, '\\');
  }

  lemma QuotedIsOneWord(text: string, quote: char)
    requires quote == '\'' || quote == '"'
    requires forall i | 0 <= i < |text| :: text[i] != quote && text[i] != '\\'
    ensures Words([quote] + text + [quote]) == Some([text])
  {
    var line := [quote] + text + [quote];
    assert [quote][..0] == "" && Run(START, [quote]) == Step(START, quote);
    var s := Run(START, [quote]);
    RunAppend(START, [quote], text);
    QuoteKeeps(s, text);
    assert "" + text == text;
    RunAppend(START, [quote] + text, [quote]);
    assert line == [quote] + text + [quote];
    assert Run(Run(START, [quote] + text), [quote]) == Step(Run(START, [quote] + text), quote);
    assert line[0] == quote && !IsSpace(quote);
    assert [] + [text] == [text];
  }
}
