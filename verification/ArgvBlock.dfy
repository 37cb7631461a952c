/** The memory block of a parsed command: argv cells and the copy of the line they point into. */
module ArgvBlocks {
  import opened CommandLines

  const NULL := -1

  // ---- reading the block ----

  /** The C string at `p`. */
  function CStr(str: seq<char>, p: int): string
    decreases |str| - p
  {
    if p < 0 || p >= |str| || str[p] == '\0' then "" else [str[p]] + CStr(str, p + 1)
  }

  /** The strings of an argv that starts at cell `k` and ends with a null pointer. */
  function Argv(args: seq<int>, str: seq<char>, k: nat): seq<string>
    decreases |args| - k
  {
    if k >= |args| || args[k] == NULL then [] else [CStr(str, args[k])] + Argv(args, str, k + 1)
  }

  function Pointee(str: seq<char>, p: int): Option<string> {
    if p == NULL then None else Some(CStr(str, p))
  }

  /** The string at `p` ends inside the block, so that it may be read. */
  ghost predicate Terminated(str: seq<char>, p: int) {
    p == NULL || exists q :: 0 <= p <= q < |str| && str[q] == '\0'
  }

  // ---- what the cells should hold ----

  function Somes(words: seq<string>): (r: seq<Option<string>>)
    ensures |r| == |words| && forall i :: 0 <= i < |r| ==> r[i] == Some(words[i])
  {
    seq(|words|, i requires 0 <= i < |words| => Some(words[i]))
  }

  /** The cells of complete commands, each closed by a null pointer. */
  function Flat(cmds: seq<seq<string>>): seq<Option<string>> {
    if cmds == [] then [] else Flat(cmds[..|cmds| - 1]) + Somes(cmds[|cmds| - 1]) + [None]
  }

  /** The cells filled when the grammar is in state `st`. */
  function Cells(st: State): seq<Option<string>> {
    Flat(st.done) + Somes(st.cur)
  }

  lemma FlatMore(cmds: seq<seq<string>>, c: seq<string>)
    ensures Flat(cmds + [c]) == Flat(cmds) + Somes(c) + [None]
  {
    assert (cmds + [c])[..|cmds|] == cmds;
  }

  lemma {:induction false} FlatSize(cmds: seq<seq<string>>)
    ensures |Flat(cmds)| == Total(cmds) + |cmds|
  {
    if cmds != [] { FlatSize(cmds[..|cmds| - 1]); }
  }

  lemma CellsSize(st: State)
    ensures |Cells(st)| == Total(st.done) + |st.done| + |st.cur|
  {
    FlatSize(st.done);
  }

  /** The cells from `p` on hold the arguments of `c` and a null pointer. */
  ghost predicate CellsAt(cells: seq<Option<string>>, p: nat, c: seq<string>) {
    && p + |c| < |cells| && cells[p + |c|] == None
    && forall j :: 0 <= j < |c| ==> cells[p + j] == Some(c[j])
  }

  /**
   * Cell `j` of command `i` lies `j` behind the start of the command; the cell after its last word is a null
   * pointer.
   */
  lemma {:induction false} FlatAt(cmds: seq<seq<string>>, i: nat)
    requires i < |cmds|
    ensures CellsAt(Flat(cmds), |Flat(cmds[..i])|, cmds[i])
  {
    var n := |cmds| - 1;
    var m := cmds[..n];
    FlatMore(m, cmds[n]);
    assert m + [cmds[n]] == cmds;
    hide Flat, Somes, CellsAt;
    if i < n {
      FlatAt(m, i);
      assert m[i] == cmds[i] && m[..i] == cmds[..i];
      StillAt(Flat(m), Somes(cmds[n]), |Flat(cmds[..i])|, cmds[i]);
    } else {
      LastAt(Flat(m), cmds[n]);
    }
  }

  lemma StillAt(cells: seq<Option<string>>, more: seq<Option<string>>, p: nat, c: seq<string>)
    requires CellsAt(cells, p, c)
    ensures CellsAt(cells + more + [None], p, c)
  {}

  lemma LastAt(cells: seq<Option<string>>, c: seq<string>)
    ensures CellsAt(cells + Somes(c) + [None], |cells|, c)
  {}

  // ---- what it means that they do ----

  /** `w` stands at `p`, bounded by a NUL. */
  ghost predicate Held(text: string, str: seq<char>, p: int, w: string) {
    && 0 <= p && p + |w| <= |text| < |str| && text[p..p + |w|] == w && str[p + |w|] == '\0'
    && forall i :: 0 <= i < |w| ==> WordChar(w[i])
  }

  /** The copy of the line: only delimiters, and the byte behind the end, may have become NUL. */
  ghost predicate Intact(text: string, str: seq<char>) {
    && |str| == |text| + 1
    && forall q :: 0 <= q < |text| ==> str[q] == text[q] || (str[q] == '\0' && !WordChar(text[q]))
  }

  ghost predicate CellOK(text: string, str: seq<char>, p: int, c: Option<string>) {
    match c
    case None => p == NULL
    case Some(w) => Held(text, str, p, w)
  }

  ghost predicate Stored(text: string, args: seq<int>, str: seq<char>, cells: seq<Option<string>>) {
    |cells| <= |args| && forall k :: 0 <= k < |cells| ==> CellOK(text, str, args[k], cells[k])
  }

  /** A word held reads as itself, from any of its characters on. */
  lemma {:induction false} HeldReads(text: string, str: seq<char>, p: int, w: string, i: nat)
    requires Held(text, str, p, w) && Intact(text, str) && CString(w) && i <= |w|
    ensures CStr(str, p + i) == w[i..]
    decreases |w| - i
  {
    if i < |w| {
      assert text[p + i] == w[i];
      HeldReads(text, str, p, w, i + 1);
      assert w[i..] == [w[i]] + w[i + 1..];
    }
  }

  lemma HeldWord(text: string, str: seq<char>, p: int, w: string)
    requires Held(text, str, p, w) && Intact(text, str) && CString(w)
    ensures CStr(str, p) == w && p != NULL
  {
    HeldReads(text, str, p, w, 0);
    assert w[0..] == w;
  }

  /** One more NUL does no harm to what is held. */
  lemma NulKeeps(text: string, args: seq<int>, str: seq<char>, q: nat, cells: seq<Option<string>>)
    requires q < |str| && Stored(text, args, str, cells)
    ensures Stored(text, args, str[q := '\0'], cells)
  {
    forall k | 0 <= k < |cells|
      ensures CellOK(text, str[q := '\0'], args[k], cells[k])
    {
      assert CellOK(text, str, args[k], cells[k]);
    }
  }

  lemma {:induction false} ArgvReads(text: string, args: seq<int>, str: seq<char>, k: nat, words: seq<string>)
    requires Intact(text, str) && k + |words| < |args| && args[k + |words|] == NULL
    requires forall j :: 0 <= j < |words| ==> Held(text, str, args[k + j], words[j]) && CString(words[j])
    ensures Argv(args, str, k) == words
    decreases |words|
  {
    hide Held, CString, Intact;
    if words != [] {
      var rest := words[1..];
      assert Held(text, str, args[k + 0], words[0]) && CString(words[0]);
      HeldWord(text, str, args[k], words[0]);
      forall j | 0 <= j < |rest|
        ensures Held(text, str, args[k + 1 + j], rest[j]) && CString(rest[j])
      {
        assert rest[j] == words[j + 1] && args[k + 1 + j] == args[k + (j + 1)];
      }
      ArgvReads(text, args, str, k + 1, rest);
      assert words == [words[0]] + rest;
    }
  }

  // ---- the second pass, step by step ----

  /** The block agrees with the state `st` of the grammar; `argv` is the next free cell. */
  ghost predicate Filled(text: string, st: State, heads: seq<nat>, args: seq<int>, str: seq<char>, input: int,
      output: int, argv: nat, curCmd: nat) {
    && Intact(text, str) && argv == |Cells(st)| && curCmd == |st.done| < |heads|
    && Stored(text, args, str, Cells(st))
    && (forall i :: 0 <= i <= |st.done| ==> heads[i] == |Flat(st.done[..i])|)
    && CellOK(text, str, input, st.input) && CellOK(text, str, output, st.output)
  }

  /** A word ends at `q`: the place that gets the NUL. */
  ghost predicate EndsAt(text: string, q: nat) {
    q <= |text| && (q < |text| ==> !WordChar(text[q]))
  }

  lemma NulFilled(text: string, st: State, heads: seq<nat>, args: seq<int>, str: seq<char>, input: int, output: int,
      argv: nat, curCmd: nat, q: nat)
    requires Filled(text, st, heads, args, str, input, output, argv, curCmd) && EndsAt(text, q)
    ensures Filled(text, st, heads, args, str[q := '\0'], input, output, argv, curCmd)
  {
    NulKeeps(text, args, str, q, Cells(st));
  }

  lemma WordFilled(text: string, st: State, heads: seq<nat>, args: seq<int>, str: seq<char>, input: int, output: int,
      argv: nat, curCmd: nat, p: nat, w: string)
    requires Filled(text, st, heads, args, str, input, output, argv, curCmd) && argv < |args| && Held(text, str, p, w)
    ensures Filled(text, st.(cur := st.cur + [w]), heads, args[argv := p], str, input, output, argv + 1, curCmd)
  {
    hide Held, Intact;
    var st' := st.(cur := st.cur + [w]);
    assert Cells(st') == Cells(st) + [Some(w)];
  }

  lemma PipeFilled(text: string, st: State, heads: seq<nat>, args: seq<int>, str: seq<char>, input: int, output: int,
      argv: nat, curCmd: nat)
    requires Filled(text, st, heads, args, str, input, output, argv, curCmd) && argv < |args| && curCmd + 1 < |heads|
    ensures Filled(text, st.(done := st.done + [st.cur], cur := []), heads[curCmd + 1 := argv + 1],
              args[argv := NULL], str, input, output, argv + 1, curCmd + 1)
  {
    hide Held, Intact;
    var st' := st.(done := st.done + [st.cur], cur := []);
    FlatMore(st.done, st.cur);
    assert Cells(st') == Cells(st) + [None];
    assert forall i :: 0 <= i <= |st.done| ==> st'.done[..i] == st.done[..i];
    assert st'.done[..|st'.done|] == st'.done;
  }

  lemma InputFilled(text: string, st: State, heads: seq<nat>, args: seq<int>, str: seq<char>, input: int, output: int,
      argv: nat, curCmd: nat, p: nat, w: string)
    requires Filled(text, st, heads, args, str, input, output, argv, curCmd) && Held(text, str, p, w)
    ensures Filled(text, st.(input := Some(w)), heads, args, str, p, output, argv, curCmd)
  {
    assert Cells(st.(input := Some(w))) == Cells(st);
  }

  lemma OutputFilled(text: string, st: State, heads: seq<nat>, args: seq<int>, str: seq<char>, input: int,
      output: int, argv: nat, curCmd: nat, p: nat, w: string, append: bool)
    requires Filled(text, st, heads, args, str, input, output, argv, curCmd) && Held(text, str, p, w)
    ensures Filled(text, st.(output := Some(w), append := append), heads, args, str, input, p, argv, curCmd)
  {
    assert Cells(st.(output := Some(w), append := append)) == Cells(st);
  }

  /** From here on the grammar only adds; an output file, once there, stays. */
  lemma {:induction false} RunGrows(t: seq<Token>, st: State)
    requires Run(t, st).Ok?
    ensures var e := Run(t, st).value;
            |Cells(st)| <= |Cells(e)| && |st.done| <= |e.done|
            && (st.output.Some? ==> e.output == st.output && e.append == st.append)
    decreases |t|
  {
    if t != [] {
      match t[0]
      case Amp =>
      case In => RunGrows(t[2..], st.(input := Some(t[1].w)));
      case Out(append) => RunGrows(t[2..], st.(output := Some(t[1].w), append := append));
      case Pipe =>
        FlatMore(st.done, st.cur);
        RunGrows(t[1..], st.(done := st.done + [st.cur], cur := []));
      case Word(w) => RunGrows(t[1..], st.(cur := st.cur + [w]));
    }
  }

  // ---- the finished block ----

  /** Every cell of the block is what it should be, and there is no cell too many. */
  ghost predicate Laid(text: string, cmds: seq<seq<string>>, stdin: Option<string>, stdout: Option<string>,
      heads: seq<nat>, args: seq<int>, str: seq<char>, input: int, output: int) {
    && Intact(text, str) && |args| == Total(cmds) + |cmds| == |Flat(cmds)| && |heads| == |cmds|
    && Stored(text, args, str, Flat(cmds))
    && (forall i :: 0 <= i < |cmds| ==> heads[i] == |Flat(cmds[..i])|)
    && CellOK(text, str, input, stdin) && CellOK(text, str, output, stdout)
  }

  lemma CellTerminated(text: string, str: seq<char>, p: int, c: Option<string>)
    requires CellOK(text, str, p, c)
    ensures Terminated(str, p)
  {
    if c.Some? { assert 0 <= p <= p + |c.value| < |str| && str[p + |c.value|] == '\0'; }
  }

  /** The last null pointer completes the block. */
  lemma LastFilled(text: string, st: State, heads: seq<nat>, args: seq<int>, str: seq<char>, input: int, output: int,
      argv: nat, curCmd: nat)
    requires Filled(text, st, heads, args, str, input, output, argv, curCmd) && |args| == argv + 1
             && |heads| == curCmd + 1
    ensures Laid(text, st.done + [st.cur], st.input, st.output, heads, args[argv := NULL], str, input, output)
  {
    hide Held, Intact, Flat;
    var cmds := st.done + [st.cur];
    FlatMore(st.done, st.cur);
    FlatSize(cmds);
    assert Flat(cmds) == Cells(st) + [None];
    assert forall i :: 0 <= i <= |st.done| ==> cmds[..i] == st.done[..i];
  }

  /** Reading the block gives back what was parsed: each string up to its NUL, each argv up to its null pointer. */
  lemma LaidReads(text: string, p: Parsed, heads: seq<nat>, args: seq<int>, str: seq<char>, input: int, output: int)
    requires Laid(text, p.commands, p.stdinFile, p.stdoutFile, heads, args, str, input, output)
    requires GoodCommands(p.commands) && GoodFile(p.stdinFile) && GoodFile(p.stdoutFile)
    ensures Pointee(str, input) == p.stdinFile && Pointee(str, output) == p.stdoutFile
    ensures forall i :: 0 <= i < |p.commands| ==> Argv(args, str, heads[i]) == p.commands[i]
  {
    hide Flat, Argv, Held, Intact, CStr;
    if p.stdinFile.Some? { HeldFile(text, str, input, p.stdinFile.value); }
    if p.stdoutFile.Some? { HeldFile(text, str, output, p.stdoutFile.value); }
    forall i | 0 <= i < |p.commands|
      ensures Argv(args, str, heads[i]) == p.commands[i]
    {
      LaidCommand(text, p, heads, args, str, input, output, i);
    }
  }

  lemma HeldFile(text: string, str: seq<char>, p: int, w: string)
    requires Held(text, str, p, w) && Intact(text, str) && GoodWord(w)
    ensures CStr(str, p) == w && p != NULL
  {
    HeldWord(text, str, p, w);
  }

  lemma LaidCommand(text: string, p: Parsed, heads: seq<nat>, args: seq<int>, str: seq<char>, input: int, output: int,
      i: nat)
    requires Laid(text, p.commands, p.stdinFile, p.stdoutFile, heads, args, str, input, output)
    requires GoodCommands(p.commands) && i < |p.commands|
    ensures Argv(args, str, heads[i]) == p.commands[i]
  {
    hide Flat, Argv, Held, Intact, CStr;
    var k, words := heads[i], p.commands[i];
    FlatAt(p.commands, i);
    assert CellOK(text, str, args[k + |words|], Flat(p.commands)[k + |words|]);
    forall j | 0 <= j < |words|
      ensures Held(text, str, args[k + j], words[j]) && CString(words[j])
    {
      assert CellOK(text, str, args[k + j], Flat(p.commands)[k + j]);
      assert GoodWord(words[j]);
    }
    ArgvReads(text, args, str, k, words);
  }
}
