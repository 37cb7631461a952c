/** Which lines are accepted, said without a parser: conditions on where tokens stand. */
module Grammar {
  import opened CommandLines

  predicate Redirect(t: Token) {
    t.In? || t.Out?
  }

  /** A word that is not the file name of a redirection. */
  predicate Argument(t: seq<Token>, j: nat) {
    j < |t| && t[j].Word? && (j == 0 || !Redirect(t[j - 1]))
  }

  ghost predicate Before(t: seq<Token>, k: nat, kind: Token -> bool)
    requires k <= |t|
  {
    exists i :: 0 <= i < k && kind(t[i])
  }

  /** Between the last pipe before `k` and `k` there is an argument. */
  ghost predicate HasArgument(t: seq<Token>, k: nat)
    requires k <= |t|
  {
    exists j :: 0 <= j < k && Argument(t, j) && forall i :: j <= i < k ==> !t[i].Pipe?
  }

  const IS_PIPE: Token -> bool := (t: Token) => t.Pipe?
  const IS_IN: Token -> bool := (t: Token) => t.In?
  const IS_OUT: Token -> bool := (t: Token) => t.Out?

  /** What the token at `k` needs of the tokens around it. */
  ghost predicate Fine(t: seq<Token>, k: nat)
    requires k < |t|
  {
    match t[k]
    case Amp => false
    case In => k + 1 < |t| && t[k + 1].Word? && !Before(t, k, IS_IN) && !Before(t, k, IS_PIPE)
    case Out(append) => k + 1 < |t| && t[k + 1].Word? && !Before(t, k, IS_OUT)
    case Pipe => HasArgument(t, k) && !Before(t, k, IS_OUT)
    case Word(w) => true
  }

  /**
   * No ampersand; every redirection has a file name; input is redirected at most once, and in the first command;
   * output at most once, and in the last command; every command has an argument.
   */
  ghost predicate Grammatical(t: seq<Token>) {
    (forall k :: 0 <= k < |t| ==> Fine(t, k)) && HasArgument(t, |t|)
  }

  /** The state of the grammar says what stands before position `k`. */
  ghost predicate Tracks(t: seq<Token>, k: nat, st: State) {
    && k <= |t| && (k > 0 ==> !Redirect(t[k - 1]))
    && (st.done != [] <==> Before(t, k, IS_PIPE)) && (st.input.Some? <==> Before(t, k, IS_IN))
    && (st.output.Some? <==> Before(t, k, IS_OUT)) && (st.cur != [] <==> HasArgument(t, k))
    && (st.done != [] ==> Total(st.done) > 0)
  }

  lemma BeforeNext(t: seq<Token>, k: nat, kind: Token -> bool)
    requires k < |t|
    ensures Before(t, k + 1, kind) <==> Before(t, k, kind) || kind(t[k])
  {}

  lemma ArgumentNext(t: seq<Token>, k: nat)
    requires k < |t|
    ensures HasArgument(t, k + 1) <==> !t[k].Pipe? && (HasArgument(t, k) || Argument(t, k))
  {
    if !t[k].Pipe? && HasArgument(t, k) {
      var j :| 0 <= j < k && Argument(t, j) && forall i :: j <= i < k ==> !t[i].Pipe?;
      assert Argument(t, j) && forall i :: j <= i < k + 1 ==> !t[i].Pipe?;
    }
    if !t[k].Pipe? && Argument(t, k) {
      assert forall i :: k <= i < k + 1 ==> !t[i].Pipe?;
    }
  }

  lemma TrackOne(t: seq<Token>, k: nat, st: State, st': State)
    requires k < |t| && Tracks(t, k, st)
    requires match t[k]
             case Word(w) => st' == st.(cur := st.cur + [w])
             case Pipe => st.cur != [] && st' == st.(done := st.done + [st.cur], cur := [])
             case _ => false
    ensures Tracks(t, k + 1, st')
  {
    BeforeNext(t, k, IS_PIPE);
    BeforeNext(t, k, IS_IN);
    BeforeNext(t, k, IS_OUT);
    ArgumentNext(t, k);
    assert (st.done + [st.cur])[..|st.done|] == st.done;
  }

  lemma TrackTwo(t: seq<Token>, k: nat, st: State, st': State)
    requires k + 1 < |t| && Tracks(t, k, st) && t[k + 1].Word?
    requires match t[k]
             case In => st' == st.(input := Some(t[k + 1].w))
             case Out(append) => st' == st.(output := Some(t[k + 1].w), append := append)
             case _ => false
    ensures Tracks(t, k + 2, st')
  {
    BeforeNext(t, k, IS_PIPE);
    BeforeNext(t, k, IS_IN);
    BeforeNext(t, k, IS_OUT);
    ArgumentNext(t, k);
    BeforeNext(t, k + 1, IS_PIPE);
    BeforeNext(t, k + 1, IS_IN);
    BeforeNext(t, k + 1, IS_OUT);
    ArgumentNext(t, k + 1);
  }

  /**
   * From position `k` on the run succeeds exactly when every token is fine, and it ends in the state the tokens say.
   */
  lemma {:induction false} RunAccepts(t: seq<Token>, k: nat, st: State)
    requires Tracks(t, k, st)
    ensures Run(t[k..], st).Ok? <==> forall i :: k <= i < |t| ==> Fine(t, i)
    ensures Run(t[k..], st).Ok? ==> Tracks(t, |t|, Run(t[k..], st).value)
    decreases |t| - k
  {
    hide Tracks, Before, HasArgument;
    if k < |t| {
      TrackedNow(t, k, st);
      Next(t, k);
      match t[k]
      case Amp =>
        assert !Fine(t, k);
      case In =>
        if !Fine(t, k) { return; }
        var st' := st.(input := Some(t[k + 1].w));
        TrackTwo(t, k, st, st');
        RunAccepts(t, k + 2, st');
      case Out(append) =>
        if !Fine(t, k) { return; }
        var st' := st.(output := Some(t[k + 1].w), append := append);
        TrackTwo(t, k, st, st');
        RunAccepts(t, k + 2, st');
      case Pipe =>
        if !Fine(t, k) { return; }
        var st' := st.(done := st.done + [st.cur], cur := []);
        TrackOne(t, k, st, st');
        RunAccepts(t, k + 1, st');
      case Word(w) =>
        var st' := st.(cur := st.cur + [w]);
        TrackOne(t, k, st, st');
        RunAccepts(t, k + 1, st');
    } else {
      TracksEnd(t, k, st);
    }
  }

  lemma TracksEnd(t: seq<Token>, k: nat, st: State)
    requires Tracks(t, k, st)
    ensures k <= |t| && (k == |t| ==> t[k..] == [])
  {}

  lemma Next(t: seq<Token>, k: nat)
    requires k < |t|
    ensures t[k..] != [] && t[k..][0] == t[k] && t[k..][1..] == t[k + 1..]
    ensures k + 1 < |t| ==> t[k..][1] == t[k + 1] && t[k..][2..] == t[k + 2..]
  {}

  lemma TrackedNow(t: seq<Token>, k: nat, st: State)
    requires k < |t| && Tracks(t, k, st)
    ensures (st.done != [] <==> Before(t, k, IS_PIPE)) && (st.input.Some? <==> Before(t, k, IS_IN))
    ensures (st.output.Some? <==> Before(t, k, IS_OUT)) && (st.cur != [] <==> HasArgument(t, k))
  {}

  lemma StartTracks(t: seq<Token>)
    ensures Tracks(t, 0, START)
  {}

  /** With no pipe and no redirection, any token at all is an argument. */
  lemma OnlyArguments(t: seq<Token>)
    requires t != [] && forall i :: 0 <= i < |t| ==> Fine(t, i)
    requires !Before(t, |t|, IS_PIPE) && !Before(t, |t|, IS_IN) && !Before(t, |t|, IS_OUT)
    ensures HasArgument(t, |t|)
  {
    assert Fine(t, 0);
    assert !IS_PIPE(t[0]) && !IS_IN(t[0]) && !IS_OUT(t[0]);
    assert Argument(t, 0);
    forall i | 0 <= i < |t|
      ensures !t[i].Pipe?
    {
      assert !IS_PIPE(t[i]);
    }
  }

  lemma TextAccepted(text: string, background: bool)
    requires Lex(text) != []
    ensures ParseText(text, background).Ok? <==> Grammatical(Lex(text))
  {
    hide Lex, Fine, Before, HasArgument, Run;
    var t := Lex(text);
    StartTracks(t);
    RunAccepts(t, 0, START);
    assert t[0..] == t;
    if Run(t, START).Ok? && !HasArgument(t, |t|) && !Before(t, |t|, IS_PIPE) && !Before(t, |t|, IS_IN)
    && !Before(t, |t|, IS_OUT) {
      OnlyArguments(t);
    }
  }

  /** A line is accepted exactly when it is blank, or its tokens are grammatical. */
  lemma LineAccepted(line: string)
    requires CString(line)
    ensures var s := Trimmed(line);
            var text := if s != "" && s[|s| - 1] == '&' then s[..|s| - 1] else s;
            Parse(line).Ok? <==> s == "" || Grammatical(Lex(text))
  {
    TrimmedClean(line);
    hide Trimmed, ParseText;
    var s := Trimmed(line);
    if s == "" { return; }
    var background := s[|s| - 1] == '&';
    var text := if background then s[..|s| - 1] else s;
    if text == "" {
      NoTokens();
    } else {
      assert text[0] == s[0];
      SomeToken(text);
      TextAccepted(text, background);
    }
  }

  lemma SomeToken(text: string)
    requires text != "" && !IsSpace(text[0])
    ensures Lex(text) != []
  {}

  lemma NoTokens()
    ensures !ParseText("", true).Ok? && !Grammatical(Lex(""))
  {
    assert Lex("") == [];
  }

  // ---- which error a line gives ----

  /**
   * What is wrong with the token at `k`: 4 an ampersand that does not end the line; 1 a second input, or one after a
   * pipe; 2 a second output, or a pipe after one; 5 and 6 no file name behind < and >; 3 a pipe with no argument
   * before it.
   */
  ghost function Complaint(t: seq<Token>, k: nat): int
    requires k < |t|
  {
    match t[k]
    case Amp => 4
    case In => if Before(t, k, IS_PIPE) || Before(t, k, IS_IN) then 1 else 5
    case Out(append) => if Before(t, k, IS_OUT) then 2 else 6
    case Pipe => if Before(t, k, IS_OUT) then 2 else 3
    case Word(w) => 0
  }

  /** `k` is the first token that is wrong. */
  ghost predicate FirstWrong(t: seq<Token>, k: nat) {
    k < |t| && !Fine(t, k) && forall i :: 0 <= i < k ==> Fine(t, i)
  }

  /**
   * The first token that is wrong gives the error; a line of tokens that are all fine is rejected with 3 when its last
   * command has no argument, and with 7 when it has no argument at all.
   */
  ghost predicate Rejection(t: seq<Token>, code: int) {
    if exists k :: FirstWrong(t, k) then exists k :: FirstWrong(t, k) && code == Complaint(t, k)
    else code == if Before(t, |t|, IS_PIPE) then 3 else 7
  }

  /** From position `k` on the run fails with what is wrong with the first token that is. */
  lemma {:induction false} RunRejects(t: seq<Token>, k: nat, st: State) returns (j: nat)
    requires Tracks(t, k, st) && Run(t[k..], st).Err?
    ensures k <= j < |t| && !Fine(t, j) && (forall i :: k <= i < j ==> Fine(t, i))
    ensures Run(t[k..], st).code == Complaint(t, j)
    decreases |t| - k
  {
    hide Tracks, Before, HasArgument;
    j := k;
    if k == |t| {
      TracksEnd(t, k, st);
    } else {
      TracksEnd(t, k, st);
      TrackedNow(t, k, st);
      Next(t, k);
      if Fine(t, k) {
        match t[k]
        case Amp =>
        case In =>
          var st' := st.(input := Some(t[k + 1].w));
          TrackTwo(t, k, st, st');
          assert Fine(t, k + 1);
          j := RunRejects(t, k + 2, st');
        case Out(append) =>
          var st' := st.(output := Some(t[k + 1].w), append := append);
          TrackTwo(t, k, st, st');
          assert Fine(t, k + 1);
          j := RunRejects(t, k + 2, st');
        case Pipe =>
          var st' := st.(done := st.done + [st.cur], cur := []);
          TrackOne(t, k, st, st');
          j := RunRejects(t, k + 1, st');
        case Word(w) =>
          var st' := st.(cur := st.cur + [w]);
          TrackOne(t, k, st, st');
          j := RunRejects(t, k + 1, st');
      }
    }
  }

  lemma TextRejected(text: string, background: bool)
    requires ParseText(text, background).Err?
    ensures Rejection(Lex(text), ParseText(text, background).code)
  {
    hide Lex, Fine, Before, HasArgument, Run, Tracks, Total;
    var t := Lex(text);
    StartTracks(t);
    assert t[0..] == t;
    RunAccepts(t, 0, START);
    if Run(t, START).Err? {
      var j := RunRejects(t, 0, START);
      assert FirstWrong(t, j);
    } else {
      assert !exists k :: FirstWrong(t, k);
      EndTracks(t, Run(t, START).value);
    }
  }

  /** Nothing read at all means no argument in the only command. */
  lemma EndTracks(t: seq<Token>, st: State)
    requires Tracks(t, |t|, st)
    ensures Total(st.done) + |st.cur| == 0 ==> !Before(t, |t|, IS_PIPE)
    ensures Total(st.done) + |st.cur| != 0 && st.cur == [] ==> Before(t, |t|, IS_PIPE)
  {
    hide Before, HasArgument;
    if st.done == [] { assert Total(st.done) == 0; }
  }

  /** The error a rejected line gives. */
  lemma LineRejected(line: string)
    requires CString(line) && Parse(line).Err?
    ensures var s := Trimmed(line);
            var text := if s != "" && s[|s| - 1] == '&' then s[..|s| - 1] else s;
            Rejection(Lex(text), Parse(line).code)
  {
    hide Trimmed, ParseText, Rejection;
    var s := Trimmed(line);
    if s[|s| - 1] == '&' { TextRejected(s[..|s| - 1], true); } else { TextRejected(s, false); }
  }
}
