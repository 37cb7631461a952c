/** Command lines as values: what a line means, and how a parsed command is written out again. */
module CommandLines {
  const UNEXPECTED_FILE_INPUT := 1
  const UNEXPECTED_FILE_OUTPUT := 2
  const UNEXPECTED_PIPELINE := 3
  const UNEXPECTED_AMPERSAND := 4
  const EXPECT_INPUT_FILENAME := 5
  const EXPECT_OUTPUT_FILENAME := 6
  const EXPECT_COMMANDS := 7

  datatype Option<T> = None | Some(value: T)
  datatype Outcome<T> = Ok(value: T) | Err(code: int)

  datatype Parsed = Parsed(
    isBackground: bool, isFileAppend: bool,
    stdinFile: Option<string>, stdoutFile: Option<string>,
    commands: seq<seq<string>>)

  const EMPTY := Parsed(false, false, None, None, [])

  datatype Token = Word(w: string) | In | Out(append: bool) | Pipe | Amp

  // ---- characters ----

  /** isspace in the C locale. */
  predicate IsSpace(c: char) {
    c == ' ' || 9 <= c as int <= 13
  }

  predicate WordChar(c: char) {
    c != '<' && c != '>' && c != '|' && c != '&' && !IsSpace(c)
  }

  function WordLen(u: string): (n: nat)
    ensures n <= |u| && (n < |u| ==> !WordChar(u[n]))
    ensures forall i :: 0 <= i < n ==> WordChar(u[i])
  {
    if u == "" || !WordChar(u[0]) then 0 else 1 + WordLen(u[1..])
  }

  function SpaceLen(u: string): (n: nat)
    ensures n <= |u| && (n < |u| ==> !IsSpace(u[n]))
    ensures forall i :: 0 <= i < n ==> IsSpace(u[i])
  {
    if u == "" || !IsSpace(u[0]) then 0 else 1 + SpaceLen(u[1..])
  }

  // ---- tokens ----

  function Lex(u: string): seq<Token>
    decreases |u|
  {
    if u == "" then []
    else if IsSpace(u[0]) then Lex(u[1..])
    else if u[0] == '&' then [Amp] + Lex(u[1..])
    else if u[0] == '<' then [In] + Lex(u[1..])
    else if u[0] == '|' then [Pipe] + Lex(u[1..])
    else if u[0] == '>' then
      if |u| > 1 && u[1] == '>' then [Out(true)] + Lex(u[2..]) else [Out(false)] + Lex(u[1..])
    else
      assert WordLen(u) > 0;
      [Word(u[..WordLen(u)])] + Lex(u[WordLen(u)..])
  }

  lemma {:induction false} LexSpaces(u: string)
    ensures Lex(u) == Lex(u[SpaceLen(u)..])
  {
    if u == "" || !IsSpace(u[0]) {
      assert u[0..] == u;
    } else {
      LexSpaces(u[1..]);
      assert u[SpaceLen(u)..] == u[1..][SpaceLen(u[1..])..];
    }
  }

  /** What stands where a file name is expected. */
  lemma LexName(u: string)
    ensures var v := u[SpaceLen(u)..];
            if WordLen(v) == 0 then Lex(u) == [] || !Lex(u)[0].Word?
            else Lex(u) == [Word(v[..WordLen(v)])] + Lex(v[WordLen(v)..])
  {
    LexSpaces(u);
  }

  // ---- the grammar ----

  /** What has been read: the commands before the last pipe, the one being read, the redirections. */
  datatype State = State(done: seq<seq<string>>, cur: seq<string>, input: Option<string>, output: Option<string>,
      append: bool)

  const START := State([], [], None, None, false)

  function Run(t: seq<Token>, st: State): Outcome<State>
    decreases |t|
  {
    if t == [] then Ok(st)
    else match t[0]
      case Amp => Err(UNEXPECTED_AMPERSAND)
      case In =>
        if st.done != [] || st.input.Some? then Err(UNEXPECTED_FILE_INPUT)
        else if |t| < 2 || !t[1].Word? then Err(EXPECT_INPUT_FILENAME)
        else Run(t[2..], st.(input := Some(t[1].w)))
      case Out(append) =>
        if st.output.Some? then Err(UNEXPECTED_FILE_OUTPUT)
        else if |t| < 2 || !t[1].Word? then Err(EXPECT_OUTPUT_FILENAME)
        else Run(t[2..], st.(output := Some(t[1].w), append := append))
      case Pipe =>
        if st.output.Some? then Err(UNEXPECTED_FILE_OUTPUT)
        else if st.cur == [] then Err(UNEXPECTED_PIPELINE)
        else Run(t[1..], st.(done := st.done + [st.cur], cur := []))
      case Word(w) => Run(t[1..], st.(cur := st.cur + [w]))
  }

  function Total(cmds: seq<seq<string>>): nat {
    if cmds == [] then 0 else Total(cmds[..|cmds| - 1]) + |cmds[|cmds| - 1]|
  }

  function Finish(st: State, background: bool): Outcome<Parsed> {
    if Total(st.done) + |st.cur| == 0 then
      if background || st.input.Some? || st.output.Some? then Err(EXPECT_COMMANDS) else Ok(EMPTY)
    else if st.cur == [] then Err(UNEXPECTED_PIPELINE)
    else Ok(Parsed(background, st.append, st.input, st.output, st.done + [st.cur]))
  }

  function ParseText(text: string, background: bool): Outcome<Parsed> {
    match Run(Lex(text), START)
    case Err(code) => Err(code)
    case Ok(st) => Finish(st, background)
  }

  // ---- the line ----

  /** Where the comment starts. */
  function CutLen(s: string): (n: nat)
    ensures n <= |s| && (n < |s| ==> s[n] == '#') && forall i :: 0 <= i < n ==> s[i] != '#'
  {
    if s == "" || s[0] == '#' then 0 else 1 + CutLen(s[1..])
  }

  function TrimEnd(s: string, lo: nat, hi: nat): (r: nat)
    requires lo <= hi <= |s|
    ensures lo <= r <= hi && (r > lo ==> !IsSpace(s[r - 1])) && forall i :: r <= i < hi ==> IsSpace(s[i])
  {
    if lo < hi && IsSpace(s[hi - 1]) then TrimEnd(s, lo, hi - 1) else hi
  }

  /** The line without comment and surrounding white space. */
  function Trimmed(line: string): string {
    var s := line[..CutLen(line)];
    var lo := SpaceLen(s);
    s[lo..TrimEnd(s, lo, |s|)]
  }

  /** What parse_command makes of a line. */
  function Parse(line: string): Outcome<Parsed> {
    var s := Trimmed(line);
    if s == "" then Ok(EMPTY)
    else if s[|s| - 1] == '&' then ParseText(s[..|s| - 1], true)
    else ParseText(s, false)
  }

  // ---- writing out ----

  function PrintWords(words: seq<string>): string {
    if words == [] then "" else words[0] + " " + PrintWords(words[1..])
  }

  function PrintInput(p: Parsed, i: nat): string {
    if i == 0 && p.stdinFile.Some? then "< " + p.stdinFile.value + " " else ""
  }

  function PrintLink(p: Parsed, i: nat): string {
    if i + 1 < |p.commands| then "| "
    else if p.stdoutFile.Some? then (if p.isFileAppend then ">> " else "> ") + p.stdoutFile.value + " "
    else ""
  }

  /** The commands from the i-th on. */
  function PrintFrom(p: Parsed, i: nat): string
    decreases |p.commands| - i
  {
    if i >= |p.commands| then ""
    else PrintWords(p.commands[i]) + (PrintInput(p, i) + (PrintLink(p, i) + PrintFrom(p, i + 1)))
  }

  function Print(p: Parsed): string {
    PrintFrom(p, 0) + (if p.isBackground then "&" else "") + "\n"
  }

  // ---- the results a line can have ----

  /** A C string has no NUL. */
  predicate CString(s: string) {
    forall i :: 0 <= i < |s| ==> s[i] != '\0'
  }

  /** A C string without comment sign. */
  predicate Clean(s: string) {
    forall i :: 0 <= i < |s| ==> s[i] != '#' && s[i] != '\0'
  }

  predicate GoodWord(w: string) {
    w != "" && Clean(w) && forall i :: 0 <= i < |w| ==> WordChar(w[i])
  }

  predicate GoodWords(words: seq<string>) {
    forall i :: 0 <= i < |words| ==> GoodWord(words[i])
  }

  predicate GoodFile(f: Option<string>) {
    f.Some? ==> GoodWord(f.value)
  }

  predicate GoodCommands(cmds: seq<seq<string>>) {
    forall i :: 0 <= i < |cmds| ==> cmds[i] != [] && GoodWords(cmds[i])
  }

  predicate Good(p: Parsed) {
    || p == EMPTY
    || (p.commands != [] && GoodCommands(p.commands) && GoodFile(p.stdinFile) && GoodFile(p.stdoutFile)
        && (p.isFileAppend ==> p.stdoutFile.Some?))
  }

  predicate GoodState(st: State) {
    GoodCommands(st.done) && GoodWords(st.cur) && GoodFile(st.input) && GoodFile(st.output)
    && (st.append ==> st.output.Some?)
  }

  predicate GoodTokens(t: seq<Token>) {
    forall i :: 0 <= i < |t| && t[i].Word? ==> GoodWord(t[i].w)
  }

  lemma {:induction false} LexGood(u: string)
    requires Clean(u)
    ensures GoodTokens(Lex(u))
    decreases |u|
  {
    if u == "" {
    } else if IsSpace(u[0]) || u[0] == '&' || u[0] == '<' || u[0] == '|' {
      LexGood(u[1..]);
    } else if u[0] == '>' {
      LexGood(u[1..]);
      if |u| > 1 { LexGood(u[2..]); }
    } else {
      LexGood(u[WordLen(u)..]);
    }
  }

  lemma {:induction false} RunGood(t: seq<Token>, st: State)
    requires GoodTokens(t) && GoodState(st) && Run(t, st).Ok?
    ensures GoodState(Run(t, st).value)
    decreases |t|
  {
    if t != [] {
      match t[0]
      case Amp =>
      case In => RunGood(t[2..], st.(input := Some(t[1].w)));
      case Out(append) => RunGood(t[2..], st.(output := Some(t[1].w), append := append));
      case Pipe => RunGood(t[1..], st.(done := st.done + [st.cur], cur := []));
      case Word(w) => RunGood(t[1..], st.(cur := st.cur + [w]));
    }
  }

  lemma TrimmedClean(line: string)
    requires CString(line)
    ensures Clean(Trimmed(line))
    ensures Trimmed(line) != "" ==> !IsSpace(Trimmed(line)[0])
  {
    var s := line[..CutLen(line)];
    assert Clean(s);
  }

  /** Whatever a line parses to is well formed. */
  lemma {:induction false} ParseGood(line: string)
    requires CString(line) && Parse(line).Ok?
    ensures Good(Parse(line).value)
  {
    TrimmedClean(line);
    hide Trimmed, ParseText, Good, IsSpace;
    var s := Trimmed(line);
    if s != "" {
      var text := if s[|s| - 1] == '&' then s[..|s| - 1] else s;
      assert Clean(text);
      TextGood(text, s[|s| - 1] == '&');
    } else {
      EmptyGood();
    }
  }

  lemma EmptyGood()
    ensures Good(EMPTY)
  {}

  lemma {:induction false} TextGood(text: string, background: bool)
    requires Clean(text) && ParseText(text, background).Ok?
    ensures Good(ParseText(text, background).value)
  {
    hide Lex, Run, Clean, GoodTokens, GoodWord;
    LexGood(text);
    RunGood(Lex(text), START);
  }

  // ---- what is written out reads back ----

  function WordTokens(words: seq<string>): seq<Token> {
    if words == [] then [] else [Word(words[0])] + WordTokens(words[1..])
  }

  function InputTokens(p: Parsed, i: nat): seq<Token> {
    if i == 0 && p.stdinFile.Some? then [In, Word(p.stdinFile.value)] else []
  }

  function LinkTokens(p: Parsed, i: nat): seq<Token> {
    if i + 1 < |p.commands| then [Pipe]
    else if p.stdoutFile.Some? then [Out(p.isFileAppend), Word(p.stdoutFile.value)]
    else []
  }

  function TokensFrom(p: Parsed, i: nat): seq<Token>
    decreases |p.commands| - i
  {
    if i >= |p.commands| then []
    else WordTokens(p.commands[i]) + (InputTokens(p, i) + (LinkTokens(p, i) + TokensFrom(p, i + 1)))
  }

  lemma {:induction false} WordLenIs(w: string, rest: string)
    requires forall i :: 0 <= i < |w| ==> WordChar(w[i])
    ensures WordLen(w + " " + rest) == |w|
  {
    if w == "" {
      assert (w + " " + rest)[0] == ' ';
    } else {
      WordLenIs(w[1..], rest);
      assert (w + " " + rest)[1..] == w[1..] + " " + rest;
    }
  }

  lemma {:induction false} LexWord(w: string, rest: string)
    requires GoodWord(w)
    ensures Lex(w + " " + rest) == [Word(w)] + Lex(rest)
  {
    var u := w + " " + rest;
    WordLenIs(w, rest);
    assert u[0] == w[0] && u[..|w|] == w && u[|w|..] == " " + rest;
    assert (" " + rest)[1..] == rest;
  }

  lemma Joined<T>(a: seq<T>, b: seq<T>, c: seq<T>)
    ensures (a + b) + c == a + (b + c)
  {}

  lemma {:induction false} LexWords(words: seq<string>, rest: string)
    requires GoodWords(words)
    ensures Lex(PrintWords(words) + rest) == WordTokens(words) + Lex(rest)
  {
    if words == [] {
      assert PrintWords(words) + rest == rest;
    } else {
      var w, t, x := words[0], PrintWords(words[1..]), WordTokens(words[1..]);
      LexWords(words[1..], rest);
      LexWord(w, t + rest);
      assert PrintWords(words) == w + " " + t && WordTokens(words) == [Word(w)] + x;
      hide Lex, GoodWord, PrintWords, WordTokens;
      Joined(w + " ", t, rest);
      Joined([Word(w)], x, Lex(rest));
    }
  }

  lemma LexSpace(rest: string)
    ensures Lex(" " + rest) == Lex(rest)
  {
    assert (" " + rest)[1..] == rest;
  }

  /** A redirection or pipe sign in front is a token of its own; a single > must not be followed by another. */
  lemma {:induction false} LexOne(u: string, sign: string, t: Token)
    requires (sign == "<" && t == In) || (sign == ">" && t == Out(false)) || (sign == ">>" && t == Out(true))
    requires |u| > |sign| && u[0] == sign[0] && u[1] == if sign == ">>" then '>' else ' '
    ensures Lex(u) == [t] + Lex(u[|sign|..])
  {
    hide WordLen;
  }

  lemma {:induction false} LexSign(sign: string, t: Token, w: string, rest: string)
    requires GoodWord(w)
    requires (sign == "<" && t == In) || (sign == ">" && t == Out(false)) || (sign == ">>" && t == Out(true))
    ensures Lex(sign + " " + w + " " + rest) == [t, Word(w)] + Lex(rest)
  {
    hide Lex, GoodWord;
    var u, v := sign + " " + w + " " + rest, w + " " + rest;
    assert u == sign + (" " + v);
    assert u[|sign|..] == " " + v;
    assert u[0] == sign[0] && u[1] == if sign == ">>" then '>' else ' ';
    LexOne(u, sign, t);
    LexSpace(v);
    LexWord(w, rest);
    assert [t] + ([Word(w)] + Lex(rest)) == [t, Word(w)] + Lex(rest);
  }

  lemma {:induction false} LexInput(p: Parsed, i: nat, rest: string)
    requires GoodFile(p.stdinFile)
    ensures Lex(PrintInput(p, i) + rest) == InputTokens(p, i) + Lex(rest)
  {
    if i == 0 && p.stdinFile.Some? {
      var w := p.stdinFile.value;
      LexSign("<", In, w, rest);
      assert PrintInput(p, i) + rest == "<" + " " + w + " " + rest;
    } else {
      assert PrintInput(p, i) + rest == rest;
    }
  }

  lemma {:induction false} LexPipe(rest: string)
    ensures Lex("| " + rest) == [Pipe] + Lex(rest)
  {
    assert ("| " + rest)[1..] == " " + rest;
    LexSpace(rest);
  }

  lemma {:induction false} LexLink(p: Parsed, i: nat, rest: string)
    requires GoodFile(p.stdoutFile)
    ensures Lex(PrintLink(p, i) + rest) == LinkTokens(p, i) + Lex(rest)
  {
    hide Lex;
    if i + 1 < |p.commands| {
      LexPipe(rest);
    } else if p.stdoutFile.Some? {
      var w, sign := p.stdoutFile.value, if p.isFileAppend then ">>" else ">";
      LexSign(sign, Out(p.isFileAppend), w, rest);
      assert PrintLink(p, i) + rest == sign + " " + w + " " + rest;
    } else {
      assert PrintLink(p, i) + rest == rest;
    }
  }

  lemma {:induction false} LexFrom(p: Parsed, i: nat)
    requires GoodCommands(p.commands) && GoodFile(p.stdinFile) && GoodFile(p.stdoutFile)
    ensures Lex(PrintFrom(p, i)) == TokensFrom(p, i)
    decreases |p.commands| - i
  {
    if i < |p.commands| {
      hide Lex, PrintWords, PrintInput, PrintLink, WordTokens, InputTokens, LinkTokens, GoodWord, GoodWords, GoodFile;
      var c, d := PrintLink(p, i), PrintFrom(p, i + 1);
      LexFrom(p, i + 1);
      LexLink(p, i, d);
      LexInput(p, i, c + d);
      LexWords(p.commands[i], PrintInput(p, i) + (c + d));
    } else {
      assert Lex("") == [];
    }
  }

  lemma Concat3<T>(a: seq<T>, b: seq<T>, c: seq<T>)
    ensures a + b + c == a + (b + c)
  {}

  lemma {:induction false} RunWord(w: string, t: seq<Token>, st: State)
    ensures Run([Word(w)] + t, st) == Run(t, st.(cur := st.cur + [w]))
  {
    assert ([Word(w)] + t)[1..] == t;
  }

  lemma {:induction false} RunWords(words: seq<string>, t: seq<Token>, st: State)
    ensures Run(WordTokens(words) + t, st) == Run(t, st.(cur := st.cur + words))
  {
    hide Run;
    if words == [] {
      assert WordTokens(words) + t == t;
      assert st.cur + words == st.cur;
    } else {
      var w, rest := words[0], words[1..];
      RunWord(w, WordTokens(rest) + t, st);
      RunWords(rest, t, st.(cur := st.cur + [w]));
      Concat3([Word(w)], WordTokens(rest), t);
      Concat3(st.cur, [w], rest);
      assert [w] + rest == words;
    }
  }

  /** The state before the i-th command of `p`. */
  function StateBefore(p: Parsed, i: nat): State
    requires i <= |p.commands|
  {
    State(p.commands[..i], [], if i == 0 then None else p.stdinFile, None, false)
  }

  lemma {:induction false} RunFrom(p: Parsed, i: nat)
    requires i < |p.commands| && GoodCommands(p.commands) && (p.isFileAppend ==> p.stdoutFile.Some?)
    ensures var n := |p.commands| - 1;
            Run(TokensFrom(p, i), StateBefore(p, i))
              == Ok(State(p.commands[..n], p.commands[n], p.stdinFile, p.stdoutFile, p.isFileAppend))
    decreases |p.commands| - i
  {
    var st, rest := StateBefore(p, i), TokensFrom(p, i + 1);
    var link := LinkTokens(p, i) + rest;
    var st1 := st.(cur := p.commands[i]);
    var st2 := st1.(input := p.stdinFile);
    assert TokensFrom(p, i) == WordTokens(p.commands[i]) + (InputTokens(p, i) + link);
    RunWords(p.commands[i], InputTokens(p, i) + link, st);
    assert [] + p.commands[i] == p.commands[i];
    RunInput(p, i, link, st1);
    if i + 1 < |p.commands| {
      assert link[0] == Pipe && link[1..] == rest;
      assert p.commands[..i] + [p.commands[i]] == p.commands[..i + 1];
      RunFrom(p, i + 1);
    } else {
      RunOutput(p, i, st2);
      assert link == LinkTokens(p, i);
    }
  }

  lemma {:induction false} RunInput(p: Parsed, i: nat, t: seq<Token>, st: State)
    requires i == 0 ==> st.done == [] && st.input == None
    requires i > 0 ==> st.input == p.stdinFile
    ensures Run(InputTokens(p, i) + t, st) == Run(t, st.(input := p.stdinFile))
  {
    var u := InputTokens(p, i) + t;
    if i == 0 && p.stdinFile.Some? {
      assert u[0] == In && u[1] == Word(p.stdinFile.value) && u[2..] == t;
    } else {
      assert u == t;
    }
  }

  lemma {:induction false} RunOutput(p: Parsed, i: nat, st: State)
    requires i + 1 == |p.commands| && st.output == None && !st.append && (p.isFileAppend ==> p.stdoutFile.Some?)
    ensures Run(LinkTokens(p, i), st) == Ok(st.(output := p.stdoutFile, append := p.isFileAppend))
  {
    var u := LinkTokens(p, i);
    if p.stdoutFile.Some? { assert u[2..] == []; }
  }

  // ---- around the tokens ----

  /** Ends in a word and one space. */
  predicate WordEnd(u: string) {
    |u| >= 2 && u[|u| - 1] == ' ' && WordChar(u[|u| - 2])
  }

  lemma {:induction false} PrintWordsShape(words: seq<string>)
    requires words != [] && GoodWords(words)
    ensures WordEnd(PrintWords(words)) && Clean(PrintWords(words)) && WordChar(PrintWords(words)[0])
  {
    var w := words[0];
    if |words| == 1 {
      assert PrintWords(words[1..]) == "";
      assert PrintWords(words) == w + " ";
    } else {
      PrintWordsShape(words[1..]);
    }
  }

  lemma {:induction false} PrintFromShape(p: Parsed, i: nat)
    requires i < |p.commands| && GoodCommands(p.commands) && GoodFile(p.stdinFile) && GoodFile(p.stdoutFile)
    ensures WordEnd(PrintFrom(p, i)) && Clean(PrintFrom(p, i)) && WordChar(PrintFrom(p, i)[0])
    decreases |p.commands| - i
  {
    hide PrintWords, PrintInput, PrintLink, WordEnd, Clean, WordChar, GoodWord;
    var a, b, c, d := PrintWords(p.commands[i]), PrintInput(p, i), PrintLink(p, i), PrintFrom(p, i + 1);
    PrintWordsShape(p.commands[i]);
    InputShape(p, i);
    LinkShape(p, i);
    if i + 1 < |p.commands| {
      PrintFromShape(p, i + 1);
      EndsAfter(c, d);
    } else {
      assert d == "" && c + d == c;
    }
    if c + d != "" { EndsAfter(b, c + d); } else { assert b + (c + d) == b; }
    if b + (c + d) != "" { EndsAfter(a, b + (c + d)); } else { assert a + (b + (c + d)) == a; }
    assert PrintFrom(p, i)[0] == a[0] by { EndNonEmpty(a); }
  }

  lemma EndNonEmpty(a: string)
    requires WordEnd(a)
    ensures a != ""
  {}

  lemma {:induction false} EndsAfter(a: string, b: string)
    requires Clean(a) && Clean(b) && WordEnd(b)
    ensures Clean(a + b) && WordEnd(a + b) && a + b != ""
  {}

  lemma {:induction false} InputShape(p: Parsed, i: nat)
    requires GoodFile(p.stdinFile)
    ensures Clean(PrintInput(p, i)) && (PrintInput(p, i) == "" || WordEnd(PrintInput(p, i)))
  {}

  lemma {:induction false} LinkShape(p: Parsed, i: nat)
    requires GoodFile(p.stdoutFile)
    ensures Clean(PrintLink(p, i))
    ensures i + 1 >= |p.commands| ==> PrintLink(p, i) == "" || WordEnd(PrintLink(p, i))
  {}

  lemma {:induction false} LexTrail(u: string)
    ensures Lex(u + " ") == Lex(u)
    decreases |u|
  {
    var v := u + " ";
    if u == "" {
      assert v[1..] == "";
    } else {
      assert v[0] == u[0] && v[1..] == u[1..] + " ";
      if IsSpace(u[0]) || u[0] == '&' || u[0] == '<' || u[0] == '|' {
        LexTrail(u[1..]);
      } else if u[0] == '>' {
        assert |u| > 1 ==> v[1] == u[1] && v[2..] == u[2..] + " ";
        LexTrail(u[1..]);
        if |u| > 1 { LexTrail(u[2..]); }
      } else {
        var n := WordLen(u);
        WordLenTrail(u);
        assert v[..n] == u[..n] && v[n..] == u[n..] + " ";
        LexTrail(u[n..]);
      }
    }
  }

  lemma {:induction false} WordLenTrail(u: string)
    ensures WordLen(u + " ") == WordLen(u)
  {
    if u != "" {
      assert (u + " ")[1..] == u[1..] + " ";
      WordLenTrail(u[1..]);
    }
  }

  lemma CutNone(s: string)
    requires Clean(s)
    ensures CutLen(s) == |s|
  {}

  lemma TrimTo(s: string, lo: nat, mid: nat)
    requires lo < mid <= |s| && !IsSpace(s[mid - 1]) && forall i :: mid <= i < |s| ==> IsSpace(s[i])
    ensures TrimEnd(s, lo, |s|) == mid
  {}

  lemma EmptyParses()
    ensures CString(Print(EMPTY)) && Parse(Print(EMPTY)) == Ok(EMPTY)
  {
    assert Print(EMPTY) == "\n";
    assert CutLen("\n") == 1 && SpaceLen("\n") == 1;
  }

  /** Writing a parsed command out and parsing that gives the same command. */
  lemma {:induction false} PrintParses(p: Parsed)
    requires Good(p)
    ensures CString(Print(p)) && Parse(Print(p)) == Ok(p)
  {
    if p.commands == [] {
      EmptyParses();
      return;
    }
    hide Lex, Run, PrintFrom, TokensFrom, Print, Parse, ParseText, Trimmed, GoodFile, GoodWords, Good, CString;
    var x := PrintFrom(p, 0);
    GoodParts(p);
    PrintFromShape(p, 0);
    TrimPrinted(p, x);
    TextParses(p, x);
    hide WordEnd, Clean, WordChar;
    ReadsBack(Print(p), x, p.isBackground);
  }

  /** With or without a final ampersand, what is parsed is `x` up to its last space. */
  lemma {:induction false} ReadsBack(line: string, x: string, background: bool)
    requires WordEnd(x) && Trimmed(line) == if background then x + "&" else x[..|x| - 1]
    ensures Parse(line) == ParseText(x, background)
  {
    hide Lex, ParseText, Parse, Trimmed;
    if background {
      TextOf(line, x, true);
    } else {
      var y := x[..|x| - 1];
      LexTrail(y);
      assert y + " " == x;
      SameTokens(x, y, false);
      TextOf(line, y, false);
    }
  }

  lemma {:induction false} GoodParts(p: Parsed)
    requires Good(p) && p.commands != []
    ensures GoodCommands(p.commands) && GoodFile(p.stdinFile) && GoodFile(p.stdoutFile)
            && (p.isFileAppend ==> p.stdoutFile.Some?)
  {}

  lemma {:induction false} SameTokens(x: string, y: string, background: bool)
    requires Lex(x) == Lex(y)
    ensures ParseText(x, background) == ParseText(y, background)
  {}

  lemma {:induction false} TextOf(line: string, text: string, background: bool)
    requires text != "" && Trimmed(line) == if background then text + "&" else text
    requires background || text[|text| - 1] != '&'
    ensures Parse(line) == ParseText(text, background)
  {
    hide ParseText, Trimmed;
    assert background ==> (text + "&")[..|text|] == text;
  }

  lemma {:induction false} TextParses(p: Parsed, x: string)
    requires p.commands != [] && GoodCommands(p.commands) && GoodFile(p.stdinFile) && GoodFile(p.stdoutFile)
              && (p.isFileAppend ==> p.stdoutFile.Some?)
    requires x == PrintFrom(p, 0)
    ensures ParseText(x, p.isBackground) == Ok(p)
  {
    hide Lex, Run, PrintFrom, TokensFrom, Finish, GoodCommands, GoodFile;
    LexFrom(p, 0);
    RunFrom(p, 0);
    Collected(p);
  }

  /** The state at the end is that of the whole command. */
  lemma {:induction false} Collected(p: Parsed)
    requires p.commands != [] && GoodCommands(p.commands)
    ensures StateBefore(p, 0) == START
    ensures var n := |p.commands| - 1;
            Finish(State(p.commands[..n], p.commands[n], p.stdinFile, p.stdoutFile, p.isFileAppend), p.isBackground)
              == Ok(p)
  {
    var n := |p.commands| - 1;
    assert p.commands[..0] == [];
    assert p.commands[..n] + [p.commands[n]] == p.commands;
  }

  lemma {:induction false} TrimPrinted(p: Parsed, x: string)
    requires x == PrintFrom(p, 0) && WordEnd(x) && Clean(x) && WordChar(x[0])
    ensures CString(Print(p))
    ensures Trimmed(Print(p)) == if p.isBackground then x + "&" else x[..|x| - 1]
  {
    var s := Print(p);
    hide PrintFrom;
    assert s == x + (if p.isBackground then "&" else "") + "\n";
    CutNone(s);
    assert s[..|s|] == s && s[0] == x[0] && SpaceLen(s) == 0;
    var mid := if p.isBackground then |x| + 1 else |x| - 1;
    assert forall i :: mid <= i < |s| ==> IsSpace(s[i]);
    TrimTo(s, 0, mid);
  }

  /** Parse, print, parse is parse. */
  lemma {:induction false} RoundTrip(line: string)
    requires CString(line) && Parse(line).Ok?
    ensures Parse(Print(Parse(line).value)) == Parse(line)
  {
    ParseGood(line);
    PrintParses(Parse(line).value);
  }

  /** The results of parsing are exactly the well-formed commands. */
  lemma {:induction false} ResultsAreGood(p: Parsed)
    ensures Good(p) <==> exists line :: CString(line) && Parse(line) == Ok(p)
  {
    if Good(p) {
      PrintParses(p);
    }
    if line :| CString(line) && Parse(line) == Ok(p) {
      ParseGood(line);
    }
  }
}
