/**
 * The two-pass parser and the printer, over the memory block a parsed command lives in.
 * Line numbers are those of src/process/parser.c.
 */
module Parsers {
  import opened ArgvBlocks
  import opened CommandLines
  import opened Lines

  // ---- moving the cursor ----

  lemma Drop<T>(s: seq<T>, a: nat, b: nat)
    requires a + b <= |s|
    ensures s[a..][b..] == s[a + b..]
  {}

  method SkipWord(text: string, start: nat) returns (cur: nat)
    requires start <= |text|
    ensures cur == start + WordLen(text[start..]) <= |text|
  {
    cur := start;
    while cur < |text| && text[cur] != '<' && text[cur] != '>' && text[cur] != '|' && text[cur] != '&'
    && !IsSpace(text[cur])
      invariant start <= cur <= |text|
      invariant WordLen(text[start..]) == cur - start + WordLen(text[cur..])
    {
      assert text[cur..][1..] == text[cur + 1..];
      cur := cur + 1;
    }
  }

  method SkipSpace(text: string, start: nat) returns (cur: nat)
    requires start <= |text|
    ensures cur == start + SpaceLen(text[start..]) <= |text| && (cur < |text| ==> !IsSpace(text[cur]))
  {
    cur := start;
    while cur < |text| && IsSpace(text[cur])
      invariant start <= cur <= |text|
      invariant SpaceLen(text[start..]) == cur - start + SpaceLen(text[cur..])
    {
      assert text[cur..][1..] == text[cur + 1..];
      cur := cur + 1;
    }
  }

  // ---- one turn of either pass, as the grammar sees it ----

  /** What is left to run from `cur` on. */
  ghost function Rest(text: string, cur: nat, st: State): Outcome<State>
    requires cur <= |text|
  {
    Run(Lex(text[cur..]), st)
  }

  lemma SpacesSkipped(text: string, cur: nat, st: State)
    requires cur <= |text|
    ensures Rest(text, cur, st) == Rest(text, cur + SpaceLen(text[cur..]), st)
  {
    LexSpaces(text[cur..]);
    Drop(text, cur, SpaceLen(text[cur..]));
  }

  lemma TurnAmp(text: string, cur: nat, st: State)
    requires cur < |text| && text[cur] == '&'
    ensures Rest(text, cur, st) == Err(UNEXPECTED_AMPERSAND)
  {}

  lemma LexArgument(text: string, cur: nat)
    requires cur < |text| && WordChar(text[cur])
    ensures var n := WordLen(text[cur..]);
            n > 0 && Lex(text[cur..]) == [Word(text[cur..cur + n])] + Lex(text[cur + n..])
  {
    var u, n := text[cur..], WordLen(text[cur..]);
    assert u[0] == text[cur];
    LexAtWord(u);
    hide Lex;
    Drop(text, cur, n);
    assert u[..n] == text[cur..cur + n];
  }

  lemma LexAtWord(u: string)
    requires u != [] && WordChar(u[0])
    ensures var n := WordLen(u);
            n > 0 && Lex(u) == [Word(u[..n])] + Lex(u[n..])
  {}

  lemma TurnWord(text: string, cur: nat, st: State)
    requires cur < |text| && WordChar(text[cur])
    ensures var n := WordLen(text[cur..]);
            n > 0 && Rest(text, cur, st) == Rest(text, cur + n, st.(cur := st.cur + [text[cur..cur + n]]))
  {
    hide Lex, Run, WordLen, WordChar;
    LexArgument(text, cur);
    var n := WordLen(text[cur..]);
    RunWord(text[cur..cur + n], Lex(text[cur + n..]), st);
  }

  lemma TurnPipe(text: string, cur: nat, st: State)
    requires cur < |text| && text[cur] == '|'
    ensures Rest(text, cur, st) ==
            if st.output.Some? then Err(UNEXPECTED_FILE_OUTPUT)
            else if st.cur == [] then Err(UNEXPECTED_PIPELINE)
            else Rest(text, cur + 1, st.(done := st.done + [st.cur], cur := []))
  {
    Drop(text, cur, 1);
    assert ([Pipe] + Lex(text[cur + 1..]))[1..] == Lex(text[cur + 1..]);
  }

  /** A redirection when the tokens after the sign are `t`. */
  lemma RunIn(t: seq<Token>, st: State)
    ensures Run([In] + t, st) ==
            if st.done != [] || st.input.Some? then Err(UNEXPECTED_FILE_INPUT)
            else if t == [] || !t[0].Word? then Err(EXPECT_INPUT_FILENAME)
            else Run(t[1..], st.(input := Some(t[0].w)))
  {
    var u := [In] + t;
    assert u[0] == In && (t != [] ==> u[1] == t[0] && u[2..] == t[1..]);
  }

  lemma RunOut(append: bool, t: seq<Token>, st: State)
    ensures Run([Out(append)] + t, st) ==
            if st.output.Some? then Err(UNEXPECTED_FILE_OUTPUT)
            else if t == [] || !t[0].Word? then Err(EXPECT_OUTPUT_FILENAME)
            else Run(t[1..], st.(output := Some(t[0].w), append := append))
  {
    var u := [Out(append)] + t;
    assert u[0] == Out(append) && (t != [] ==> u[1] == t[0] && u[2..] == t[1..]);
  }

  lemma LexIn(text: string, cur: nat)
    requires cur < |text| && text[cur] == '<'
    ensures Lex(text[cur..]) == [In] + Lex(text[cur + 1..])
  {
    Drop(text, cur, 1);
    hide WordLen;
  }

  lemma LexOut(text: string, cur: nat)
    requires cur < |text| && text[cur] == '>'
    ensures var append := cur + 1 < |text| && text[cur + 1] == '>';
            Lex(text[cur..]) == [Out(append)] + Lex(text[if append then cur + 2 else cur + 1..])
  {
    var u := text[cur..];
    assert |u| > 1 ==> u[1] == text[cur + 1];
    Drop(text, cur, 1);
    if |u| > 1 { Drop(text, cur, 2); }
    hide WordLen;
  }

  /** A redirection sign, then (from `from` on) a file name. */
  lemma NameFollows(text: string, from: nat)
    requires from <= |text|
    ensures var name := from + SpaceLen(text[from..]);
            var n := WordLen(text[name..]);
            if n == 0 then Lex(text[from..]) == [] || !Lex(text[from..])[0].Word?
            else Lex(text[from..]) == [Word(text[name..name + n])] + Lex(text[name + n..])
  {
    hide Lex, WordLen, SpaceLen;
    LexName(text[from..]);
    var name := from + SpaceLen(text[from..]);
    Drop(text, from, SpaceLen(text[from..]));
    var n := WordLen(text[name..]);
    Drop(text, name, n);
    assert text[name..][..n] == text[name..name + n];
  }

  lemma TurnIn(text: string, cur: nat, st: State)
    requires cur < |text| && text[cur] == '<'
    ensures var name := cur + 1 + SpaceLen(text[cur + 1..]);
            var n := WordLen(text[name..]);
            Rest(text, cur, st) ==
            if st.done != [] || st.input.Some? then Err(UNEXPECTED_FILE_INPUT)
            else if n == 0 then Err(EXPECT_INPUT_FILENAME)
            else Rest(text, name + n, st.(input := Some(text[name..name + n])))
  {
    hide Lex, Run, WordLen, SpaceLen;
    NameFollows(text, cur + 1);
    LexIn(text, cur);
    RunIn(Lex(text[cur + 1..]), st);
  }

  lemma TurnOut(text: string, cur: nat, st: State)
    requires cur < |text| && text[cur] == '>'
    ensures var append := cur + 1 < |text| && text[cur + 1] == '>';
            var from := if append then cur + 2 else cur + 1;
            var name := from + SpaceLen(text[from..]);
            var n := WordLen(text[name..]);
            Rest(text, cur, st) ==
            if st.output.Some? then Err(UNEXPECTED_FILE_OUTPUT)
            else if n == 0 then Err(EXPECT_OUTPUT_FILENAME)
            else Rest(text, name + n, st.(output := Some(text[name..name + n]), append := append))
  {
    hide Lex, Run, WordLen, SpaceLen;
    var append := cur + 1 < |text| && text[cur + 1] == '>';
    var from := if append then cur + 2 else cur + 1;
    NameFollows(text, from);
    LexOut(text, cur);
    RunOut(append, Lex(text[from..]), st);
  }

  lemma TotalMore(cmds: seq<seq<string>>, c: seq<string>)
    ensures Total(cmds + [c]) == Total(cmds) + |c|
  {
    assert (cmds + [c])[..|cmds|] == cmds;
  }

  /** The result of a parse, in memory. Pointers into `str` are offsets, NULL is -1. */
  class ParsedCommand {
    var isBackground: bool
    var isFileAppend: bool
    var stdinFile: int
    var stdoutFile: int
    var numCommands: nat
    var commands: array<nat>   // where the argv of each command starts in `args`
    var args: array<int>
    var str: array<char>

    constructor ()
      ensures !isBackground && !isFileAppend && stdinFile == NULL && stdoutFile == NULL && numCommands == 0
      ensures fresh(commands) && fresh(args) && fresh(str) && commands.Length == args.Length == str.Length == 0
    {
      isBackground, isFileAppend, stdinFile, stdoutFile, numCommands := false, false, NULL, NULL, 0;
      commands, args, str := new nat[0], new int[0], new char[0];
    }
  }

  // ---- the first pass ----

  datatype Counters = Counters(total: nat, hasTokenLast: bool, hasInput: bool, hasOutput: bool)

  /** The counters of the first pass say what the state of the grammar says. */
  ghost predicate Counted(st: State, numCommands: nat, append: bool, n: Counters) {
    && numCommands == |st.done| && n.total == Total(st.done) + |st.cur|
    && n.hasTokenLast == (st.cur != []) && n.hasInput == st.input.Some? && n.hasOutput == st.output.Some?
    && append == st.append && (append ==> n.hasOutput)
    && (st.done != [] ==> Total(st.done) > 0)
  }

  /** One turn of the loop went from `start` to `cur`, or ended in the error the grammar gives. */
  ghost predicate Checked(code: int, text: string, start: nat, st0: State, cur: nat, st: State, numCommands: nat,
      append: bool, n: Counters)
    requires start <= |text|
  {
    if code == 0
    then start < cur <= |text| && Rest(text, cur, st) == Rest(text, start, st0) && Counted(st, numCommands, append, n)
    else Rest(text, start, st0) == Err(code)
  }

  /** Lines 56-71: '<' and the file name. */
  method CheckInput(pcmd: ParsedCommand, text: string, start: nat, n0: Counters, ghost st0: State)
    returns (code: int, cur: nat, n: Counters, ghost st: State)
    requires start < |text| && text[start] == '<'
    requires Counted(st0, pcmd.numCommands, pcmd.isFileAppend, n0)
    ensures Checked(code, text, start, st0, cur, st, pcmd.numCommands, pcmd.isFileAppend, n)
  {
    hide Lex, Run, WordLen, SpaceLen, Rest, Total, IsSpace;
    code, cur, n, st := 0, start, n0, st0;
    TurnIn(text, cur, st);
    if pcmd.numCommands > 0 || n.hasInput { return UNEXPECTED_FILE_INPUT, cur, n, st; }
    cur := SkipSpace(text, cur + 1);
    var skipped := SkipWord(text, cur);
    if skipped <= cur { return EXPECT_INPUT_FILENAME, cur, n, st; }
    st := st.(input := Some(text[cur..skipped]));
    cur := skipped;
    n := n.(hasInput := true);
  }

  /** Lines 72-91: '>' or '>>' and the file name. */
  method CheckOutput(pcmd: ParsedCommand, text: string, start: nat, n0: Counters, ghost st0: State)
    returns (code: int, cur: nat, n: Counters, ghost st: State)
    requires start < |text| && text[start] == '>'
    requires Counted(st0, pcmd.numCommands, pcmd.isFileAppend, n0)
    modifies pcmd`isFileAppend
    ensures Checked(code, text, start, st0, cur, st, pcmd.numCommands, pcmd.isFileAppend, n)
  {
    hide Lex, Run, WordLen, SpaceLen, Rest, Total, IsSpace;
    code, cur, n, st := 0, start, n0, st0;
    TurnOut(text, cur, st);
    if n.hasOutput { return UNEXPECTED_FILE_OUTPUT, cur, n, st; }
    if cur + 1 < |text| && text[cur + 1] == '>' {
      pcmd.isFileAppend := true;
      cur := cur + 1;
    }
    cur := SkipSpace(text, cur + 1);
    var skipped := SkipWord(text, cur);
    if skipped <= cur { return EXPECT_OUTPUT_FILENAME, cur, n, st; }
    st := st.(output := Some(text[cur..skipped]), append := pcmd.isFileAppend);
    cur := skipped;
    n := n.(hasOutput := true);
  }

  /** Lines 53-107: one token, or a redirection and its file name. */
  method CheckToken(pcmd: ParsedCommand, text: string, start: nat, n0: Counters, ghost st0: State)
    returns (code: int, cur: nat, n: Counters, ghost st: State)
    requires start < |text| && !IsSpace(text[start])
    requires Counted(st0, pcmd.numCommands, pcmd.isFileAppend, n0)
    modifies pcmd`numCommands, pcmd`isFileAppend
    ensures Checked(code, text, start, st0, cur, st, pcmd.numCommands, pcmd.isFileAppend, n)
  {
    hide Lex, Run, WordLen, SpaceLen, Rest, Total, IsSpace;
    code, cur, n, st := 0, start, n0, st0;
    if text[cur] == '&' {
      TurnAmp(text, cur, st);
      code := UNEXPECTED_AMPERSAND;
    } else if text[cur] == '<' {
      code, cur, n, st := CheckInput(pcmd, text, start, n0, st0);
    } else if text[cur] == '>' {
      code, cur, n, st := CheckOutput(pcmd, text, start, n0, st0);
    } else if text[cur] == '|' {
      TurnPipe(text, cur, st);
      if n.hasOutput { return UNEXPECTED_FILE_OUTPUT, cur, n, st; }
      if !n.hasTokenLast { return UNEXPECTED_PIPELINE, cur, n, st; }
      TotalMore(st.done, st.cur);
      st := st.(done := st.done + [st.cur], cur := []);
      n := n.(hasTokenLast := false);
      pcmd.numCommands := pcmd.numCommands + 1;
      cur := cur + 1;
    } else {
      TurnWord(text, cur, st);
      n := n.(hasTokenLast := true, total := n.total + 1);
      var skipped := SkipWord(text, cur);
      st := st.(cur := st.cur + [text[cur..skipped]]);
      cur := skipped;
    }
  }

  /** Check the tokens and count. Returns 0 or the error; the counts are those of what is to be stored. */
  method FirstPass(pcmd: ParsedCommand, text: string) returns (code: int, total: nat, ghost end: State)
    requires text != "" ==> !IsSpace(text[0])
    requires pcmd.numCommands == 0 && !pcmd.isFileAppend
    modifies pcmd`numCommands, pcmd`isFileAppend
    ensures match ParseText(text, pcmd.isBackground)
            case Err(c) => code == c != 0
            case Ok(p) =>
              code == 0 && Rest(text, 0, START) == Ok(end) && total == Total(end.done) + |end.cur|
              && if total == 0 then p == EMPTY && pcmd.numCommands == 0 && !pcmd.isFileAppend && !pcmd.isBackground
                 else pcmd.numCommands == |p.commands| == |end.done| + 1 && pcmd.isFileAppend == end.append
  {
    hide Lex, Run, WordLen, SpaceLen, Rest, Total, IsSpace, ParseText;
    StartsAt(text, pcmd.isBackground);
    var n := Counters(0, false, false, false);
    var cur := 0;
    code, total, end := 0, 0, START;
    while cur < |text|
      invariant cur <= |text| && (cur < |text| ==> !IsSpace(text[cur]))
      invariant Rest(text, cur, end) == Rest(text, 0, START)
      invariant Counted(end, pcmd.numCommands, pcmd.isFileAppend, n)
      decreases |text| - cur
    {
      code, cur, n, end := CheckToken(pcmd, text, cur, n, end);
      if code != 0 { return; }
      SpacesSkipped(text, cur, end);
      cur := SkipSpace(text, cur);
    }
    NothingLeft(text, end);
    total := n.total;
    if total == 0 {
      if pcmd.isBackground || n.hasInput || n.hasOutput { code := EXPECT_COMMANDS; }
      return;
    }
    if !n.hasTokenLast { return UNEXPECTED_PIPELINE, total, end; }
    pcmd.numCommands := pcmd.numCommands + 1;
  }

  lemma StartsAt(text: string, background: bool)
    ensures ParseText(text, background)
              == match Rest(text, 0, START) case Err(c) => Err(c) case Ok(st) => Finish(st, background)
    ensures Total([]) == 0
  {
    assert text[0..] == text;
  }

  lemma NothingLeft(text: string, st: State)
    ensures Rest(text, |text|, st) == Ok(st)
  {
    assert text[|text|..] == "";
  }

  // ---- the second pass ----

  /** The block of `pcmd` is filled as far as the state says. */
  ghost predicate Block(pcmd: ParsedCommand, text: string, st: State, argv: nat, curCmd: nat)
    reads pcmd, pcmd.commands, pcmd.args, pcmd.str
  {
    && pcmd.commands as object != pcmd.args
    && Filled(text, st, pcmd.commands[..], pcmd.args[..], pcmd.str[..], pcmd.stdinFile, pcmd.stdoutFile, argv, curCmd)
  }

  /** The counts of the first pass are right for the end of the second. */
  ghost predicate Sized(pcmd: ParsedCommand, end: State)
    reads pcmd
  {
    pcmd.args.Length == |Cells(end)| + 1 && pcmd.commands.Length == |end.done| + 1 && pcmd.isFileAppend == end.append
  }

  lemma Grows(text: string, cur: nat, st: State, end: State)
    requires cur <= |text| && Rest(text, cur, st) == Ok(end)
    ensures |Cells(st)| <= |Cells(end)| && |st.done| <= |end.done| && (st.output.Some? ==> end.append == st.append)
  {
    RunGrows(Lex(text[cur..]), st);
  }

  lemma WordHeld(text: string, str: seq<char>, p: nat)
    requires p <= |text| && |str| == |text| + 1
    ensures var q := p + WordLen(text[p..]);
            EndsAt(text, q) && Held(text, str[q := '\0'], p, text[p..q])
  {
    var n := WordLen(text[p..]);
    assert forall i :: 0 <= i < n ==> text[p..][i] == text[p + i];
    assert p + n < |text| ==> text[p..][n] == text[p + n];
  }

  lemma MoreCells(st: State, w: string)
    ensures |Cells(st.(cur := st.cur + [w]))| == |Cells(st)| + 1
    ensures |Cells(st.(done := st.done + [st.cur], cur := []))| == |Cells(st)| + 1
  {
    FlatMore(st.done, st.cur);
  }

  /** The file name behind a redirection sign: find it and end it with a NUL. */
  method StoreName(pcmd: ParsedCommand, text: string, from: nat, ghost argv: nat, ghost curCmd: nat,
      ghost st: State) returns (name: nat, cur: nat)
    requires from <= |text| && Block(pcmd, text, st, argv, curCmd)
    modifies pcmd.str
    ensures name == from + SpaceLen(text[from..]) <= |text| && cur == name + WordLen(text[name..]) <= |text|
    ensures Block(pcmd, text, st, argv, curCmd) && Held(text, pcmd.str[..], name, text[name..cur])
  {
    hide Lex, Run, WordLen, SpaceLen, Held, CellOK, Stored, EndsAt, Cells;
    name := SkipSpace(text, from);
    cur := SkipWord(text, name);
    ghost var str0 := pcmd.str[..];
    WordHeld(text, str0, name);
    pcmd.str[cur] := '\0';
    assert pcmd.str[..] == str0[cur := '\0'];
    NulFilled(text, st, pcmd.commands[..], pcmd.args[..], str0, pcmd.stdinFile, pcmd.stdoutFile, argv, curCmd, cur);
  }

  /** Lines 166-174. */
  method StoreInput(pcmd: ParsedCommand, text: string, start: nat, ghost argv: nat, ghost curCmd: nat,
      ghost st0: State, ghost end: State)
    returns (cur: nat, ghost st: State)
    requires start < |text| && text[start] == '<' && Rest(text, start, st0) == Ok(end)
    requires Block(pcmd, text, st0, argv, curCmd)
    modifies pcmd`stdinFile, pcmd.str
    ensures start < cur <= |text| && Rest(text, cur, st) == Ok(end) && Block(pcmd, text, st, argv, curCmd)
  {
    hide Lex, Run, WordLen, SpaceLen, Rest, Held, CellOK, Stored, EndsAt, Cells, Filled;
    TurnIn(text, start, st0);
    var name;
    name, cur := StoreName(pcmd, text, start + 1, argv, curCmd, st0);
    InputFilled(text, st0, pcmd.commands[..], pcmd.args[..], pcmd.str[..], pcmd.stdinFile, pcmd.stdoutFile, argv,
        curCmd, name, text[name..cur]);
    pcmd.stdinFile := name;
    st := st0.(input := Some(text[name..cur]));
  }

  /** Lines 175-184. Whether there is a second '>' to skip is what the first pass noted. */
  method StoreOutput(pcmd: ParsedCommand, text: string, start: nat, ghost argv: nat, ghost curCmd: nat,
      ghost st0: State, ghost end: State)
    returns (cur: nat, ghost st: State)
    requires start < |text| && text[start] == '>' && Rest(text, start, st0) == Ok(end)
    requires Block(pcmd, text, st0, argv, curCmd) && Sized(pcmd, end)
    modifies pcmd`stdoutFile, pcmd.str
    ensures start < cur <= |text| && Rest(text, cur, st) == Ok(end) && Block(pcmd, text, st, argv, curCmd)
  {
    hide Lex, Run, WordLen, SpaceLen, Rest, Held, CellOK, Stored, EndsAt, Cells, Filled;
    SignNoted(text, start, st0, end);
    TurnOut(text, start, st0);
    cur := start;
    if pcmd.isFileAppend { cur := cur + 1; }
    cur := cur + 1;
    var name;
    name, cur := StoreName(pcmd, text, cur, argv, curCmd, st0);
    OutputFilled(text, st0, pcmd.commands[..], pcmd.args[..], pcmd.str[..], pcmd.stdinFile, pcmd.stdoutFile, argv,
        curCmd, name, text[name..cur], pcmd.isFileAppend);
    pcmd.stdoutFile := name;
    st := st0.(output := Some(text[name..cur]), append := pcmd.isFileAppend);
  }

  /** There is one output redirection only, so the flag of the whole line tells which sign it has. */
  lemma SignNoted(text: string, start: nat, st: State, end: State)
    requires start < |text| && text[start] == '>' && Rest(text, start, st) == Ok(end)
    ensures end.append <==> start + 1 < |text| && text[start + 1] == '>'
  {
    hide Lex, Run, WordLen, SpaceLen, Rest, Cells;
    TurnOut(text, start, st);
    var append := start + 1 < |text| && text[start + 1] == '>';
    var from := if append then start + 2 else start + 1;
    var name := from + SpaceLen(text[from..]);
    var q := name + WordLen(text[name..]);
    Grows(text, q, st.(output := Some(text[name..q]), append := append), end);
  }

  /** Lines 185-191. */
  method StorePipe(pcmd: ParsedCommand, text: string, start: nat, argv0: nat, curCmd0: nat, ghost st0: State,
      ghost end: State)
    returns (cur: nat, argv: nat, curCmd: nat, ghost st: State)
    requires start < |text| && text[start] == '|' && Rest(text, start, st0) == Ok(end)
    requires Block(pcmd, text, st0, argv0, curCmd0) && Sized(pcmd, end)
    modifies pcmd.args, pcmd.commands
    ensures start < cur <= |text| && Rest(text, cur, st) == Ok(end) && Block(pcmd, text, st, argv, curCmd)
  {
    hide Lex, Run, WordLen, SpaceLen, Rest, Held, CellOK, Stored, EndsAt, Cells;
    TurnPipe(text, start, st0);
    st := st0.(done := st0.done + [st0.cur], cur := []);
    Grows(text, start + 1, st, end);
    MoreCells(st0, "");
    PipeFilled(text, st0, pcmd.commands[..], pcmd.args[..], pcmd.str[..], pcmd.stdinFile, pcmd.stdoutFile, argv0,
        curCmd0);
    pcmd.args[argv0] := NULL;
    argv := argv0 + 1;
    curCmd := curCmd0 + 1;
    pcmd.commands[curCmd] := argv;
    cur := start + 1;
    assert pcmd.args[..] == old(pcmd.args[..])[argv0 := NULL];
    assert pcmd.commands[..] == old(pcmd.commands[..])[curCmd := argv];
  }

  /** Lines 192-198. */
  method StoreWord(pcmd: ParsedCommand, text: string, start: nat, argv0: nat, ghost curCmd: nat, ghost st0: State,
      ghost end: State)
    returns (cur: nat, argv: nat, ghost st: State)
    requires start < |text| && WordChar(text[start]) && Rest(text, start, st0) == Ok(end)
    requires Block(pcmd, text, st0, argv0, curCmd) && Sized(pcmd, end)
    modifies pcmd.args, pcmd.str
    ensures start < cur <= |text| && Rest(text, cur, st) == Ok(end) && Block(pcmd, text, st, argv, curCmd)
  {
    hide Lex, Run, WordLen, SpaceLen, Rest, Held, CellOK, Stored, EndsAt, Cells, WordChar;
    TurnWord(text, start, st0);
    ghost var w := text[start..start + WordLen(text[start..])];
    st := st0.(cur := st0.cur + [w]);
    Grows(text, start + |w|, st, end);
    MoreCells(st0, w);
    ghost var str0, args0 := pcmd.str[..], pcmd.args[..];
    WordHeld(text, str0, start);
    pcmd.args[argv0] := start;
    argv := argv0 + 1;
    cur := SkipWord(text, start);
    pcmd.str[cur] := '\0';
    assert pcmd.str[..] == str0[cur := '\0'] && pcmd.args[..] == args0[argv0 := start];
    NulFilled(text, st0, pcmd.commands[..], args0, str0, pcmd.stdinFile, pcmd.stdoutFile, argv0, curCmd, cur);
    WordFilled(text, st0, pcmd.commands[..], args0, pcmd.str[..], pcmd.stdinFile, pcmd.stdoutFile, argv0, curCmd,
        start, w);
  }

  /** Lines 164-200: one token or redirection, its strings ended with NULs, its pointers stored. */
  method StoreToken(pcmd: ParsedCommand, text: string, start: nat, argv0: nat, curCmd0: nat, ghost st0: State,
      ghost end: State)
    returns (cur: nat, argv: nat, curCmd: nat, ghost st: State)
    requires start < |text| && !IsSpace(text[start]) && Rest(text, start, st0) == Ok(end)
    requires Block(pcmd, text, st0, argv0, curCmd0) && Sized(pcmd, end)
    modifies pcmd`stdinFile, pcmd`stdoutFile, pcmd.args, pcmd.commands, pcmd.str
    ensures start < cur <= |text| && Rest(text, cur, st) == Ok(end) && Block(pcmd, text, st, argv, curCmd)
  {
    hide Lex, Run, Rest, Filled, Cells;
    argv, curCmd := argv0, curCmd0;
    if text[start] == '<' {
      cur, st := StoreInput(pcmd, text, start, argv, curCmd, st0, end);
    } else if text[start] == '>' {
      cur, st := StoreOutput(pcmd, text, start, argv, curCmd, st0, end);
    } else if text[start] == '|' {
      cur, argv, curCmd, st := StorePipe(pcmd, text, start, argv, curCmd, st0, end);
    } else {
      if text[start] == '&' { TurnAmp(text, start, st0); }
      cur, argv, st := StoreWord(pcmd, text, start, argv, curCmd, st0, end);
    }
  }

  /** Lines 147-156: the block, sized by the counts of the first pass, with the copy of the line. */
  method Allocate(pcmd: ParsedCommand, text: string, total: nat)
    modifies pcmd`commands, pcmd`args, pcmd`str
    ensures fresh(pcmd.commands) && fresh(pcmd.args) && fresh(pcmd.str) && pcmd.commands as object != pcmd.args
    ensures pcmd.commands.Length == pcmd.numCommands && pcmd.args.Length == total + pcmd.numCommands
            && pcmd.str.Length == |text| + 1
    ensures forall q :: 0 <= q < |text| ==> pcmd.str[q] == text[q]
  {
    pcmd.commands := new nat[pcmd.numCommands];
    pcmd.args := new int[total + pcmd.numCommands];
    pcmd.str := new char[|text| + 1];
    forall q | 0 <= q < |text| {
      pcmd.str[q] := text[q];
    }
  }

  /**
   * Put everything in place, in a block sized by the first pass. No error can occur any more, no cell is written
   * outside the block, and in the end every cell is filled.
   */
  method SecondPass(pcmd: ParsedCommand, text: string, total: nat, ghost end: State)
    requires text != "" ==> !IsSpace(text[0])
    requires Rest(text, 0, START) == Ok(end) && total == Total(end.done) + |end.cur|
    requires pcmd.numCommands == |end.done| + 1 && pcmd.isFileAppend == end.append
    requires pcmd.stdinFile == NULL && pcmd.stdoutFile == NULL
    modifies pcmd
    ensures fresh(pcmd.commands) && fresh(pcmd.args) && fresh(pcmd.str)
    ensures pcmd.isBackground == old(pcmd.isBackground) && pcmd.isFileAppend == end.append
            && pcmd.numCommands == |end.done| + 1
    ensures Laid(text, end.done + [end.cur], end.input, end.output, pcmd.commands[..], pcmd.args[..], pcmd.str[..],
                pcmd.stdinFile, pcmd.stdoutFile)
  {
    hide Lex, Run, Rest, Filled, Cells, Total, IsSpace, SpaceLen, Laid;
    CellsSize(end);
    Allocate(pcmd, text, total);
    var curCmd: nat, argv: nat := 0, 0;
    pcmd.commands[curCmd] := argv;
    var cur := 0;
    ghost var st := START;
    NothingFilled(text, pcmd.commands[..], pcmd.args[..], pcmd.str[..]);
    while cur < |text|
      invariant fresh(pcmd.commands) && fresh(pcmd.args) && fresh(pcmd.str)
      invariant cur <= |text| && (cur < |text| ==> !IsSpace(text[cur])) && Rest(text, cur, st) == Ok(end)
      invariant Block(pcmd, text, st, argv, curCmd) && Sized(pcmd, end)
      invariant pcmd.isBackground == old(pcmd.isBackground) && pcmd.numCommands == |end.done| + 1
      decreases |text| - cur
    {
      cur, argv, curCmd, st := StoreToken(pcmd, text, cur, argv, curCmd, st, end);
      SpacesSkipped(text, cur, st);
      cur := SkipSpace(text, cur);
    }
    NothingLeft(text, st);
    FilledSize(text, st, pcmd.commands[..], pcmd.args[..], pcmd.str[..], pcmd.stdinFile, pcmd.stdoutFile, argv, curCmd);
    LastFilled(text, st, pcmd.commands[..], pcmd.args[..], pcmd.str[..], pcmd.stdinFile, pcmd.stdoutFile, argv, curCmd);
    ghost var args0 := pcmd.args[..];
    pcmd.args[argv] := NULL;
    assert pcmd.args[..] == args0[argv := NULL];
  }

  lemma NothingFilled(text: string, heads: seq<nat>, args: seq<int>, str: seq<char>)
    requires |str| == |text| + 1 && (forall q :: 0 <= q < |text| ==> str[q] == text[q]) && |heads| > 0 && heads[0] == 0
    ensures Filled(text, START, heads, args, str, NULL, NULL, 0, 0)
  {}

  lemma FilledSize(text: string, st: State, heads: seq<nat>, args: seq<int>, str: seq<char>, input: int, output: int,
      argv: nat, curCmd: nat)
    requires Filled(text, st, heads, args, str, input, output, argv, curCmd)
    ensures argv == |Cells(st)| && curCmd == |st.done|
  {}

  // ---- the whole parse ----

  /** What a client reads from the block. */
  ghost function Meaning(pcmd: ParsedCommand): Parsed
    reads pcmd, pcmd.commands, pcmd.args, pcmd.str
  {
    Parsed(pcmd.isBackground, pcmd.isFileAppend, Pointee(pcmd.str[..], pcmd.stdinFile),
        Pointee(pcmd.str[..], pcmd.stdoutFile),
        seq(pcmd.commands.Length, i requires 0 <= i < pcmd.commands.Length reads pcmd, pcmd.commands, pcmd.args,
        pcmd.str =>
             Argv(pcmd.args[..], pcmd.str[..], pcmd.commands[i])))
  }

  /** Safe to walk: every argv, and every string, ends inside the block. */
  ghost predicate Walkable(pcmd: ParsedCommand)
    reads pcmd, pcmd.commands, pcmd.args, pcmd.str
  {
    && (forall k :: 0 <= k < pcmd.args.Length ==> Terminated(pcmd.str[..], pcmd.args[k]))
    && Terminated(pcmd.str[..], pcmd.stdinFile) && Terminated(pcmd.str[..], pcmd.stdoutFile)
    && pcmd.numCommands == pcmd.commands.Length
    && (pcmd.numCommands > 0 ==> pcmd.args.Length > 0 && pcmd.args[pcmd.args.Length - 1] == NULL)
    && forall i :: 0 <= i < pcmd.numCommands ==> pcmd.commands[i] < pcmd.args.Length
  }

  /** Lines 24-30: everything from '#' on is a comment. */
  method FindComment(line: string) returns (end: nat)
    ensures end == CutLen(line)
  {
    end := |line|;
    assert line[0..] == line;
    var cur := 0;
    while cur < end
      invariant cur <= end == |line|
      invariant CutLen(line) == cur + CutLen(line[cur..])
    {
      assert line[cur..][1..] == line[cur + 1..];
      if line[cur] == '#' {
        end := cur;
        break;
      }
      cur := cur + 1;
    }
  }

  /** Lines 21-34: comment and white space around the line are dropped. */
  method Trim(line: string) returns (start: nat, end: nat)
    ensures start <= end <= |line| && line[start..end] == Trimmed(line)
  {
    hide CutLen;
    end := FindComment(line);
    var s := line[..end];
    start := SkipSpace(s, 0);
    assert s[0..] == s;
    while start < end && IsSpace(line[end - 1])
      invariant start <= end <= |s|
      invariant TrimEnd(s, start, |s|) == TrimEnd(s, start, end)
    {
      end := end - 1;
    }
    TakeSlice(line, |s|, start, end);
  }

  lemma TakeSlice<T>(s: seq<T>, n: nat, a: nat, b: nat)
    requires a <= b <= n <= |s|
    ensures s[..n][a..b] == s[a..b]
  {}

  lemma Ampersand(line: string, start: nat, end: nat, background: bool)
    requires start <= end && end + (if background then 1 else 0) <= |line|
    requires start < end + (if background then 1 else 0)
    requires line[start..end + if background then 1 else 0] == Trimmed(line)
    requires background <==> Trimmed(line)[|Trimmed(line)| - 1] == '&'
    ensures Parse(line) == ParseText(line[start..end], background)
    ensures start < end ==> line[start] == Trimmed(line)[0]
  {
    hide Trimmed, ParseText;
    var s := Trimmed(line);
    if background { assert s[..|s| - 1] == line[start..end]; }
  }

  /** The finished block means what the line means. */
  lemma Understood(pcmd: ParsedCommand, text: string, p: Parsed)
    requires Laid(text, p.commands, p.stdinFile, p.stdoutFile, pcmd.commands[..], pcmd.args[..], pcmd.str[..],
                 pcmd.stdinFile, pcmd.stdoutFile)
    requires p.commands != [] && GoodCommands(p.commands) && GoodFile(p.stdinFile) && GoodFile(p.stdoutFile)
    requires pcmd.isBackground == p.isBackground && pcmd.isFileAppend == p.isFileAppend
             && pcmd.numCommands == |p.commands|
    ensures Walkable(pcmd) && Meaning(pcmd) == p
  {
    hide Flat, Argv, CStr, Held, Intact, Total, GoodCommands, GoodFile, Terminated;
    LaidReads(text, p, pcmd.commands[..], pcmd.args[..], pcmd.str[..], pcmd.stdinFile, pcmd.stdoutFile);
    LaidEnds(text, p.commands, p.stdinFile, p.stdoutFile, pcmd.commands[..], pcmd.args[..], pcmd.str[..],
        pcmd.stdinFile, pcmd.stdoutFile);
    assert Meaning(pcmd).commands == p.commands;
  }

  lemma LaidEnds(text: string, cmds: seq<seq<string>>, stdin: Option<string>, stdout: Option<string>, heads: seq<nat>,
      args: seq<int>, str: seq<char>, input: int, output: int)
    requires Laid(text, cmds, stdin, stdout, heads, args, str, input, output) && cmds != []
    ensures args != [] && args[|args| - 1] == NULL && forall i :: 0 <= i < |heads| ==> heads[i] < |args|
    ensures Terminated(str, input) && Terminated(str, output) && forall k :: 0 <= k < |args| ==>
              Terminated(str, args[k])
  {
    hide Flat, Held, Intact, Terminated;
    CellTerminated(text, str, input, stdin);
    CellTerminated(text, str, output, stdout);
    forall k | 0 <= k < |args|
      ensures Terminated(str, args[k])
    {
      CellTerminated(text, str, args[k], Flat(cmds)[k]);
    }
    forall i | 0 <= i < |cmds|
      ensures heads[i] < |args|
    {
      FlatAt(cmds, i);
    }
    FlatEnds(cmds);
    assert CellOK(text, str, args[|args| - 1], Flat(cmds)[|args| - 1]);
  }

  lemma FlatEnds(cmds: seq<seq<string>>)
    requires cmds != []
    ensures Flat(cmds) != [] && Flat(cmds)[|Flat(cmds)| - 1] == None
  {}

  /** Parse a line: 0 and the command it stands for, or the error code. */
  method ParseCommand(line: string) returns (code: int, pcmd: ParsedCommand?)
    requires CString(line)
    ensures match Parse(line)
            case Err(c) => code == c != 0 && pcmd == null
            case Ok(p) => code == 0 && pcmd != null && fresh(pcmd) && Walkable(pcmd) && Meaning(pcmd) == p
    ensures pcmd != null ==>
              && PlainCommands(Meaning(pcmd).commands)
              && PlainFile(Meaning(pcmd).stdinFile) && PlainFile(Meaning(pcmd).stdoutFile)
  {
    hide PlainCommands, PlainFile, Lex, Run, Rest, Trimmed, ParseText, Flat, Argv, CStr, Laid, SpaceLen, Total;
    TrimmedClean(line);
    if Parse(line).Ok? { WordsArePlain(line); }
    var start, end := Trim(line);
    pcmd := new ParsedCommand();
    if start == end {
      assert Meaning(pcmd) == EMPTY;
      return 0, pcmd;
    }
    if line[end - 1] == '&' {
      pcmd.isBackground := true;
      end := end - 1;
    }
    var text := line[start..end];
    Ampersand(line, start, end, pcmd.isBackground);
    ghost var last;
    var total;
    code, total, last := FirstPass(pcmd, text);
    if code != 0 { return code, null; }
    if total == 0 {
      assert Meaning(pcmd) == EMPTY;
      return 0, pcmd;
    }
    ParseGood(line);
    StartsAt(text, pcmd.isBackground);
    SecondPass(pcmd, text, total, last);
    Understood(pcmd, text, Parse(line).value);
  }

  // ---- the printer ----

  lemma ArgvStep(args: seq<int>, str: seq<char>, k: nat)
    requires k < |args| && args[k] != NULL
    ensures PrintWords(Argv(args, str, k)) == CStr(str, args[k]) + " " + PrintWords(Argv(args, str, k + 1))
  {
    var words := Argv(args, str, k);
    assert words[1..] == Argv(args, str, k + 1);
  }

  /** The argv that starts at cell `head`, each string with a space behind it. */
  method PrintArgv(pcmd: ParsedCommand, head: nat) returns (out: string)
    requires Walkable(pcmd) && head < pcmd.args.Length && pcmd.numCommands > 0
    ensures out == PrintWords(Argv(pcmd.args[..], pcmd.str[..], head))
  {
    hide Argv, CStr, PrintWords;
    out := "";
    var k := head;
    while pcmd.args[k] != NULL
      invariant k < pcmd.args.Length
      invariant out + PrintWords(Argv(pcmd.args[..], pcmd.str[..], k))
                  == PrintWords(Argv(pcmd.args[..], pcmd.str[..], head))
      decreases pcmd.args.Length - k
    {
      ArgvStep(pcmd.args[..], pcmd.str[..], k);
      ghost var w, rest := CStr(pcmd.str[..], pcmd.args[k]), PrintWords(Argv(pcmd.args[..], pcmd.str[..], k + 1));
      Concat3(out, w + " ", rest);
      out := out + (CStr(pcmd.str[..], pcmd.args[k]) + " ");
      k := k + 1;
    }
    ArgvEnds(pcmd.args[..], pcmd.str[..], k);
    assert out + "" == out;
  }

  lemma ArgvEnds(args: seq<int>, str: seq<char>, k: nat)
    requires k < |args| && args[k] == NULL
    ensures PrintWords(Argv(args, str, k)) == ""
  {}

  lemma PrintStep(p: Parsed, i: nat, out: string)
    requires i < |p.commands|
    ensures out + PrintFrom(p, i) == out + PrintWords(p.commands[i]) + PrintInput(p, i) + PrintLink(p, i)
              + PrintFrom(p, i + 1)
  {
    hide PrintWords, PrintInput, PrintLink;
    var a, b, c, d := PrintWords(p.commands[i]), PrintInput(p, i), PrintLink(p, i), PrintFrom(p, i + 1);
    Concat3(out, a, b);
    Concat3(out, a + b, c);
    Concat3(out, a + b + c, d);
    Concat3(a, b, c);
    Concat3(a, b + c, d);
    Concat3(b, c, d);
  }

  /** What the printer writes for a parsed command in memory. */
  method PrintParsedCommand(pcmd: ParsedCommand) returns (out: string)
    requires Walkable(pcmd)
    ensures out == Print(Meaning(pcmd))
  {
    hide Argv, CStr, PrintWords, PrintFrom;
    ghost var p := Meaning(pcmd);
    out := "";
    for i := 0 to pcmd.numCommands
      invariant out + PrintFrom(p, i) == PrintFrom(p, 0)
    {
      PrintStep(p, i, out);
      var line := PrintArgv(pcmd, pcmd.commands[i]);
      assert p.commands[i] == Argv(pcmd.args[..], pcmd.str[..], pcmd.commands[i]);
      out := out + line;
      if i == 0 && pcmd.stdinFile != NULL {
        out := out + ("< " + CStr(pcmd.str[..], pcmd.stdinFile) + " ");
      } else {
        assert out + "" == out;
      }
      if i == pcmd.numCommands - 1 {
        if pcmd.stdoutFile != NULL {
          out := out + ((if pcmd.isFileAppend then ">> " else "> ") + CStr(pcmd.str[..], pcmd.stdoutFile) + " ");
        } else {
          assert out + "" == out;
        }
      } else {
        out := out + "| ";
      }
    }
    PrintEnds(p);
    assert out + "" == out;
    out := out + (if pcmd.isBackground then "&" else "") + "\n";
  }

  lemma PrintEnds(p: Parsed)
    ensures PrintFrom(p, |p.commands|) == ""
  {}

  /** Parse a line, write the command out, and parse that: the same command again. */
  method Reparse(line: string) returns (code: int, first: ParsedCommand?, code2: int, second: ParsedCommand?)
    requires CString(line)
    ensures code == 0 ==> code2 == 0 && first != null && second != null && Meaning(second) == Meaning(first)
  {
    hide Parse, Print, Meaning;
    code2, second := 0, null;
    code, first := ParseCommand(line);
    if code == 0 {
      ParseGood(line);
      PrintParses(Parse(line).value);
      var out := PrintParsedCommand(first);
      code2, second := ParseCommand(out);
    }
  }
}
