/** What a line means, character by character: which characters split words, and what is ignored. */
module Lines {
  import opened CommandLines

  /**
   * A word, by character code: not empty, and without NUL, tab, line feed, vertical tab, form feed, carriage return,
   * space, '#', '&', '<', '>' and '|'.
   */
  predicate Plain(w: string) {
    w != "" && forall i :: 0 <= i < |w| ==> w[i] as int !in {0, 9, 10, 11, 12, 13, 32, 35, 38, 60, 62, 124}
  }

  predicate PlainCommands(cmds: seq<seq<string>>) {
    forall i :: 0 <= i < |cmds| ==> cmds[i] != [] && forall j :: 0 <= j < |cmds[i]| ==> Plain(cmds[i][j])
  }

  predicate PlainFile(f: Option<string>) {
    f.Some? ==> Plain(f.value)
  }

  /** These are the words of the grammar. */
  lemma PlainIff(w: string)
    ensures Plain(w) <==> GoodWord(w)
  {
    if GoodWord(w) {
      assert Clean(w);
      assert forall i :: 0 <= i < |w| ==> WordChar(w[i]);
    }
  }

  /** No argument and no file name of a line that parses has any other character. */
  lemma WordsArePlain(line: string)
    requires CString(line) && Parse(line).Ok?
    ensures var p := Parse(line).value;
            PlainCommands(p.commands) && PlainFile(p.stdinFile) && PlainFile(p.stdoutFile)
  {
    ParseGood(line);
    hide Parse, GoodWord, Plain;
    var p := Parse(line).value;
    forall w: string
      ensures Plain(w) <==> GoodWord(w)
    {
      PlainIff(w);
    }
  }

  // ---- white space ----

  predicate White(c: char) {
    c as int in {9, 10, 11, 12, 13, 32}
  }

  /** The same, but for one white space in place of another. */
  predicate SameButWhite(a: string, b: string) {
    |a| == |b| && forall i :: 0 <= i < |a| ==> a[i] == b[i] || (White(a[i]) && White(b[i]))
  }

  lemma {:induction false} SameWordLen(a: string, b: string)
    requires SameButWhite(a, b)
    ensures WordLen(a) == WordLen(b) && a[..WordLen(a)] == b[..WordLen(b)]
  {
    if a != "" && WordChar(a[0]) {
      assert SameButWhite(a[1..], b[1..]);
      SameWordLen(a[1..], b[1..]);
      var n := WordLen(a[1..]);
      assert a[..n + 1] == [a[0]] + a[1..][..n] && b[..n + 1] == [b[0]] + b[1..][..n];
    }
  }

  lemma {:induction false} SameLex(a: string, b: string)
    requires SameButWhite(a, b)
    ensures Lex(a) == Lex(b)
    decreases |a|
  {
    if a != "" {
      assert SameButWhite(a[1..], b[1..]);
      if IsSpace(a[0]) || a[0] == '&' || a[0] == '<' || a[0] == '|' {
        SameLex(a[1..], b[1..]);
      } else if a[0] == '>' {
        SameLex(a[1..], b[1..]);
        if |a| > 1 { SameLex(a[2..], b[2..]); }
      } else {
        SameWordLen(a, b);
        var n := WordLen(a);
        assert SameButWhite(a[n..], b[n..]);
        SameLex(a[n..], b[n..]);
      }
    }
  }

  lemma {:induction false} SameCut(a: string, b: string)
    requires SameButWhite(a, b)
    ensures CutLen(a) == CutLen(b)
  {
    if a != "" && a[0] != '#' {
      assert SameButWhite(a[1..], b[1..]);
      SameCut(a[1..], b[1..]);
    }
  }

  lemma {:induction false} SameSpaceLen(a: string, b: string)
    requires SameButWhite(a, b)
    ensures SpaceLen(a) == SpaceLen(b)
  {
    if a != "" && IsSpace(a[0]) {
      assert SameButWhite(a[1..], b[1..]);
      SameSpaceLen(a[1..], b[1..]);
    }
  }

  lemma {:induction false} SameTrimEnd(a: string, b: string, lo: nat, hi: nat)
    requires SameButWhite(a, b) && lo <= hi <= |a|
    ensures TrimEnd(a, lo, hi) == TrimEnd(b, lo, hi)
    decreases hi
  {
    if lo < hi && IsSpace(a[hi - 1]) { SameTrimEnd(a, b, lo, hi - 1); }
  }

  lemma SameTrimmed(a: string, b: string)
    requires SameButWhite(a, b)
    ensures SameButWhite(Trimmed(a), Trimmed(b))
  {
    SameCut(a, b);
    var s, t := a[..CutLen(a)], b[..CutLen(b)];
    assert SameButWhite(s, t);
    SameSpaceLen(s, t);
    SameTrimEnd(s, t, SpaceLen(s), |s|);
  }

  /** Which white space stands where makes no difference to what a line means. */
  lemma WhiteIsWhite(a: string, b: string)
    requires SameButWhite(a, b)
    ensures Parse(a) == Parse(b)
  {
    SameTrimmed(a, b);
    hide Trimmed, ParseText;
    var s, t := Trimmed(a), Trimmed(b);
    if s != "" {
      var n := |s| - 1;
      assert s[n] == t[n] || (White(s[n]) && White(t[n]));
      assert SameButWhite(s[..n], t[..n]);
      SameLex(s[..n], t[..n]);
      SameLex(s, t);
      SameText(s[..n], t[..n], true);
      SameText(s, t, false);
    }
  }

  lemma SameText(a: string, b: string, background: bool)
    requires Lex(a) == Lex(b)
    ensures ParseText(a, background) == ParseText(b, background)
  {}

  // ---- what is ignored ----

  lemma {:induction false} CutBefore(a: string, b: string)
    ensures CutLen(a + "#" + b) == CutLen(a) && (a + "#" + b)[..CutLen(a)] == a[..CutLen(a)]
  {
    var l := a + "#" + b;
    if a != "" && a[0] != '#' {
      assert l[0] == a[0] && l[1..] == a[1..] + "#" + b;
      CutBefore(a[1..], b);
    }
  }

  /** A comment: everything from '#' on. */
  lemma CommentIgnored(a: string, b: string)
    ensures Parse(a + "#" + b) == Parse(a)
  {
    CutBefore(a, b);
  }

  lemma {:induction false} TrimShift(c: char, s: string, lo: nat, hi: nat)
    requires lo <= hi <= |s|
    ensures TrimEnd([c] + s, lo + 1, hi + 1) == TrimEnd(s, lo, hi) + 1
    decreases hi
  {
    if lo < hi && IsSpace(s[hi - 1]) { TrimShift(c, s, lo, hi - 1); }
  }

  lemma LeadingOne(c: char, a: string)
    requires White(c)
    ensures Trimmed([c] + a) == Trimmed(a)
  {
    assert c != '#';
    hide CutLen, SpaceLen, TrimEnd, White;
    var s := a[..CutLen(a)];
    CutNext(c, a);
    SpaceNext(c, s);
    TrimShift(c, s, SpaceLen(s), |s|);
    SliceNext(c, s, SpaceLen(s), TrimEnd(s, SpaceLen(s), |s|));
  }

  lemma SliceNext(c: char, s: string, lo: nat, hi: nat)
    requires lo <= hi <= |s|
    ensures ([c] + s)[lo + 1..hi + 1] == s[lo..hi]
  {}

  lemma CutNext(c: char, a: string)
    requires c != '#'
    ensures CutLen([c] + a) == CutLen(a) + 1 && ([c] + a)[..CutLen(a) + 1] == [c] + a[..CutLen(a)]
  {
    assert ([c] + a)[1..] == a;
  }

  lemma SpaceNext(c: char, s: string)
    requires White(c)
    ensures SpaceLen([c] + s) == SpaceLen(s) + 1
  {
    assert ([c] + s)[1..] == s;
  }

  lemma {:induction false} CutAppend(a: string, c: char)
    requires c != '#'
    ensures CutLen(a + [c]) == if CutLen(a) < |a| then CutLen(a) else |a| + 1
  {
    var l := a + [c];
    if a != "" {
      assert l[0] == a[0] && l[1..] == a[1..] + [c];
      CutAppend(a[1..], c);
    } else {
      assert l == [c] && [c][1..] == "";
    }
  }

  lemma {:induction false} SpaceAppend(a: string, c: char)
    requires White(c)
    ensures SpaceLen(a + [c]) == if SpaceLen(a) < |a| then SpaceLen(a) else |a| + 1
  {
    var l := a + [c];
    if a != "" {
      assert l[0] == a[0] && l[1..] == a[1..] + [c];
      SpaceAppend(a[1..], c);
    } else {
      assert l == [c] && [c][1..] == "";
    }
  }

  lemma {:induction false} TrimPrefix(a: string, l: string, lo: nat, hi: nat)
    requires lo <= hi <= |a| && a <= l
    ensures TrimEnd(l, lo, hi) == TrimEnd(a, lo, hi)
    decreases hi
  {
    if lo < hi && IsSpace(a[hi - 1]) { TrimPrefix(a, l, lo, hi - 1); }
  }

  lemma TrailingOne(a: string, c: char)
    requires White(c)
    ensures Trimmed(a + [c]) == Trimmed(a)
  {
    assert c != '#';
    CutAppend(a, c);
    hide CutLen, White;
    if CutLen(a) < |a| {
      TakeFirst(a, c, CutLen(a));
    } else {
      TakeFirst(a, c, |a|);
      assert (a + [c])[..|a| + 1] == a + [c];
      hide SpaceLen, TrimEnd;
      TrailingWhole(a, c);
    }
  }

  /** The same without a comment. */
  lemma TrailingWhole(a: string, c: char)
    requires White(c)
    ensures var l := a + [c];
            l[SpaceLen(l)..TrimEnd(l, SpaceLen(l), |l|)] == a[SpaceLen(a)..TrimEnd(a, SpaceLen(a), |a|)]
  {
    assert IsSpace(c);
    SpaceAppend(a, c);
    hide SpaceLen, White;
    var l := a + [c];
    if SpaceLen(a) < |a| {
      TrimPrefix(a, l, SpaceLen(a), |a|);
      OneLess(l, SpaceLen(a), |a|);
      hide TrimEnd;
      SliceFirst(a, c, SpaceLen(a), TrimEnd(a, SpaceLen(a), |a|));
    }
  }

  lemma TakeFirst(a: string, c: char, n: nat)
    requires n <= |a|
    ensures (a + [c])[..n] == a[..n] && a[..|a|] == a
  {}

  lemma SliceFirst(a: string, c: char, lo: nat, hi: nat)
    requires lo <= hi <= |a|
    ensures (a + [c])[lo..hi] == a[lo..hi]
  {}

  lemma OneLess(l: string, lo: nat, hi: nat)
    requires lo <= hi && |l| == hi + 1 && IsSpace(l[hi])
    ensures TrimEnd(l, lo, hi + 1) == TrimEnd(l, lo, hi)
  {}

  lemma {:induction false} LeadingWhite(u: string, a: string)
    requires forall i :: 0 <= i < |u| ==> White(u[i])
    ensures Trimmed(u + a) == Trimmed(a)
  {
    hide Trimmed, White;
    if u == "" {
      assert u + a == a;
    } else {
      LeadingWhite(u[1..], a);
      LeadingOne(u[0], u[1..] + a);
      assert u + a == [u[0]] + (u[1..] + a);
    }
  }

  lemma {:induction false} TrailingWhite(a: string, v: string)
    requires forall i :: 0 <= i < |v| ==> White(v[i])
    ensures Trimmed(a + v) == Trimmed(a)
  {
    hide Trimmed, White;
    if v == "" {
      assert a + v == a;
    } else {
      var n := |v| - 1;
      TrailingWhite(a, v[..n]);
      TrailingOne(a + v[..n], v[n]);
      assert a + v == (a + v[..n]) + [v[n]];
    }
  }

  /** White space around a line. */
  lemma WhiteIgnored(u: string, a: string, v: string)
    requires (forall i :: 0 <= i < |u| ==> White(u[i])) && (forall i :: 0 <= i < |v| ==> White(v[i]))
    ensures Parse(u + a + v) == Parse(a)
  {
    TrailingWhite(u + a, v);
    LeadingWhite(u, a);
  }

  // ---- what splits, and into what ----

  lemma {:induction false} WholeWord(w: string, v: string)
    requires forall i :: 0 <= i < |w| ==> WordChar(w[i])
    requires v == "" || !WordChar(v[0])
    ensures WordLen(w + v) == |w|
  {
    if w == "" {
      assert w + v == v;
    } else {
      assert (w + v)[0] == w[0] && (w + v)[1..] == w[1..] + v;
      WholeWord(w[1..], v);
    }
  }

  /** A word ends at the end of the text, at white space and at the signs, and nowhere else. */
  lemma WordThen(w: string, v: string)
    requires Plain(w) && (v == "" || v[0] as int in {9, 10, 11, 12, 13, 32, 38, 60, 62, 124})
    ensures Lex(w + v) == [Word(w)] + Lex(v)
  {
    PlainIff(w);
    assert forall i :: 0 <= i < |w| ==> WordChar(w[i]);
    WholeWord(w, v);
    var u := w + v;
    assert u != "" && u[0] == w[0] && WordChar(u[0]);
    assert u[..|w|] == w && u[|w|..] == v;
  }

  /** What the signs mean; white space means nothing. */
  lemma SignThen(c: char, v: string)
    ensures c as int in {9, 10, 11, 12, 13, 32} ==> Lex([c] + v) == Lex(v)
    ensures c as int == 38 ==> Lex([c] + v) == [Amp] + Lex(v)
    ensures c as int == 60 ==> Lex([c] + v) == [In] + Lex(v)
    ensures c as int == 124 ==> Lex([c] + v) == [Pipe] + Lex(v)
    ensures c as int == 62 && (v == "" || v[0] as int != 62) ==> Lex([c] + v) == [Out(false)] + Lex(v)
    ensures c as int == 62 && v != "" && v[0] as int == 62 ==> Lex([c] + v) == [Out(true)] + Lex(v[1..])
  {
    var u := [c] + v;
    assert u[0] == c && u[1..] == v && (v != "" ==> u[1] == v[0] && u[2..] == v[1..]);
  }

  /** A line with one of everything. */
  lemma OneOfEach(a: string, b: string, c: string, d: string)
    requires Plain(a) && Plain(b) && Plain(c) && Plain(d)
    ensures Parse(a + " < " + b + " | " + c + " >> " + d + " &")
            == Ok(Parsed(true, true, Some(b), Some(d), [[a], [c]]))
    ensures Parse(a + " " + b + " > " + d) == Ok(Parsed(false, false, None, Some(d), [[a, b]]))
  {
    PlainIff(a);
    PlainIff(b);
    PlainIff(c);
    PlainIff(d);
    hide Plain, GoodWord, Parse, Print;
    var p := Parsed(true, true, Some(b), Some(d), [[a], [c]]);
    var q := Parsed(false, false, None, Some(d), [[a, b]]);
    assert Good(p) && Good(q);
    PrintParses(p);
    PrintParses(q);
    Printed(a, b, c, d);
    WhiteIgnored("", a + " < " + b + " | " + c + " >> " + d + " &", "\n");
    WhiteIgnored("", a + " " + b + " > " + d, " \n");
  }

  lemma Printed(a: string, b: string, c: string, d: string)
    ensures Print(Parsed(true, true, Some(b), Some(d), [[a], [c]]))
            == "" + (a + " < " + b + " | " + c + " >> " + d + " &") + "\n"
    ensures Print(Parsed(false, false, None, Some(d), [[a, b]])) == "" + (a + " " + b + " > " + d) + " \n"
  {
    var p, q := Parsed(true, true, Some(b), Some(d), [[a], [c]]), Parsed(false, false, None, Some(d), [[a, b]]);
    OneWord(a);
    OneWord(c);
    OneWord(b);
    assert PrintWords([a, b]) == a + " " + PrintWords([b]) by { assert [a, b][1..] == [b]; }
    assert PrintFrom(p, 1) == (c + " ") + ("" + ((">> " + d + " ") + ""));
    assert PrintFrom(p, 0) == (a + " ") + (("< " + b + " ") + ("| " + PrintFrom(p, 1)));
    assert PrintFrom(q, 0) == (a + " " + (b + " ")) + ("" + (("> " + d + " ") + ""));
    hide PrintFrom, PrintWords;
    Flatten(a, b, c, d);
  }

  lemma OneWord(w: string)
    ensures PrintWords([w]) == w + " "
  {
    assert [w][1..] == [];
  }

  lemma Flatten(a: string, b: string, c: string, d: string)
    ensures (a + " ") + (("< " + b + " ") + ("| " + ((c + " ") + ("" + ((">> " + d + " ") + ""))))) + "&" + "\n"
            == "" + (a + " < " + b + " | " + c + " >> " + d + " &") + "\n"
    ensures (a + " " + (b + " ")) + ("" + (("> " + d + " ") + "")) + "" + "\n" == "" + (a + " " + b + " > " + d) + " \n"
  {}

  // ---- lines spelled out ----

  function Sign(t: Token): string {
    match t
    case Word(w) => w
    case In => "<"
    case Out(append) => if append then ">>" else ">"
    case Pipe => "|"
    case Amp => "&"
  }

  /** The tokens, with a space behind each. */
  function Spelled(t: seq<Token>): string {
    if t == [] then "" else Spelled(t[..|t| - 1]) + (Sign(t[|t| - 1]) + " ")
  }

  predicate PlainTokens(t: seq<Token>) {
    forall i :: 0 <= i < |t| && t[i].Word? ==> Plain(t[i].w)
  }

  lemma SignRead(t: Token, v: string)
    requires t.Word? ==> Plain(t.w)
    ensures Lex((Sign(t) + " ") + v) == [t] + Lex(v)
  {
    hide Lex, Plain;
    SignThen(' ', v);
    var u := " " + v;
    assert (Sign(t) + " ") + v == Sign(t) + u;
    match t
    case Word(w) => WordThen(w, u);
    case In => SignThen('<', u);
    case Pipe => SignThen('|', u);
    case Amp => SignThen('&', u);
    case Out(append) =>
      if append {
        assert Sign(t) + u == ">" + (">" + u) && (">" + u)[1..] == u;
        SignThen('>', ">" + u);
      } else {
        SignThen('>', u);
      }
  }

  lemma {:induction false} SpelledReads(t: seq<Token>, v: string)
    requires PlainTokens(t)
    ensures Lex(Spelled(t) + v) == t + Lex(v)
  {
    hide Lex, Sign, Plain;
    if t == [] {
      assert "" + v == v && [] + Lex(v) == Lex(v);
    } else {
      var n := |t| - 1;
      var a, b := Spelled(t[..n]), Sign(t[n]) + " ";
      assert (a + b) + v == a + (b + v);
      SpelledReads(t[..n], b + v);
      SignRead(t[n], v);
      assert t == t[..n] + [t[n]];
      assert t[..n] + ([t[n]] + Lex(v)) == (t[..n] + [t[n]]) + Lex(v);
    }
  }

  /** It starts and, but for the last space, ends with a character that is not white, and has no comment. */
  predicate Tidy(u: string) {
    && |u| >= 2 && Clean(u) && !IsSpace(u[0]) && u[|u| - 1] == ' ' && !IsSpace(u[|u| - 2])
  }

  lemma SignTidy(t: Token)
    requires t.Word? ==> Plain(t.w)
    ensures Tidy(Sign(t) + " ") && ((Sign(t) + " ")[|Sign(t)| - 1] == '&' <==> t.Amp?)
  {
    if t.Word? {
      PlainIff(t.w);
      assert WordChar(t.w[0]) && WordChar(t.w[|t.w| - 1]);
    }
  }

  lemma TidyAfter(a: string, b: string)
    requires Tidy(b) && (a == "" || Tidy(a))
    ensures Tidy(a + b) && (a + b)[|a + b| - 2] == b[|b| - 2]
  {
    if a == "" { assert a + b == b; }
  }

  lemma {:induction false} SpelledTidy(t: seq<Token>)
    requires PlainTokens(t) && t != []
    ensures Tidy(Spelled(t)) && (Spelled(t)[|Spelled(t)| - 2] == '&' <==> t[|t| - 1].Amp?)
  {
    hide Tidy, Sign, Plain;
    var n := |t| - 1;
    SignTidy(t[n]);
    if n > 0 { SpelledTidy(t[..n]); }
    TidyAfter(Spelled(t[..n]), Sign(t[n]) + " ");
    TidyLong(Sign(t[n]) + " ");
  }

  lemma TidyLong(u: string)
    requires Tidy(u)
    ensures |u| >= 2
  {}

  /** What the grammar makes of tokens. */
  function OnTokens(t: seq<Token>, background: bool): CommandLines.Outcome<Parsed> {
    match Run(t, START)
    case Err(code) => Err(code)
    case Ok(st) => Finish(st, background)
  }

  lemma TidyTrimmed(u: string)
    requires Tidy(u)
    ensures Trimmed(u) == u[..|u| - 1]
  {
    CutNone(u);
    assert u[..|u|] == u;
    TrimTo(u, 0, |u| - 1);
  }

  /** A line spelled out means what its tokens mean, an ampersand at its end aside. */
  lemma SpelledParses(t: seq<Token>)
    requires PlainTokens(t) && t != []
    ensures var n := |t| - 1;
            Parse(Spelled(t)) == if t[n].Amp? then OnTokens(t[..n], true) else OnTokens(t, false)
  {
    hide Lex, Plain, OnTokens, Trimmed, Parse, Spelled, PlainTokens, Tidy;
    var n, u := |t| - 1, Spelled(t);
    SpelledTidy(t);
    TidyTrimmed(u);
    TidyLong(u);
    if t[n].Amp? {
      SpelledAmp(t);
      FewerPlain(t);
      AmpText(u, Spelled(t[..n]));
      OnSpelled(t[..n], true);
    } else {
      var y := u[..|u| - 1];
      LexTrail(y);
      LastSpace(t, y);
      SameTokens(u, y, false);
      assert y[|y| - 1] == u[|u| - 2];
      TextOf(u, y, false);
      OnSpelled(t, false);
    }
  }

  lemma AmpText(line: string, text: string)
    requires Trimmed(line) == text + "&"
    ensures Parse(line) == ParseText(text, true)
  {
    hide Trimmed, ParseText;
    assert (text + "&")[..|text|] == text;
  }

  lemma FewerPlain(t: seq<Token>)
    requires PlainTokens(t) && t != []
    ensures PlainTokens(t[..|t| - 1])
  {}

  lemma LastSpace(t: seq<Token>, y: string)
    requires Tidy(Spelled(t)) && y == Spelled(t)[..|Spelled(t)| - 1]
    ensures y + " " == Spelled(t)
  {}

  lemma SpelledAmp(t: seq<Token>)
    requires t != [] && t[|t| - 1].Amp?
    ensures Spelled(t)[..|Spelled(t)| - 1] == Spelled(t[..|t| - 1]) + "&"
  {
    assert Sign(t[|t| - 1]) + " " == "& ";
  }

  lemma OnSpelled(t: seq<Token>, background: bool)
    requires PlainTokens(t)
    ensures ParseText(Spelled(t), background) == OnTokens(t, background)
  {
    SpelledReads(t, "");
    hide Lex, Run, Finish, Spelled;
    assert Spelled(t) + "" == Spelled(t) && t + [] == t;
    NoTokensLeft();
  }

  lemma NoTokensLeft()
    ensures Lex("") == []
  {}

  /** One line for each error, with any words. */
  lemma Errors(a: string, b: string, c: string)
    requires Plain(a) && Plain(b) && Plain(c)
    ensures Parse(Spelled([Word(a), In, Word(b), In, Word(c)])) == Err(1)
    ensures Parse(Spelled([Word(a), Pipe, Word(b), In, Word(c)])) == Err(1)
    ensures Parse(Spelled([Word(a), Out(false), Word(b), Out(true), Word(c)])) == Err(2)
    ensures Parse(Spelled([Word(a), Out(false), Word(b), Pipe, Word(c)])) == Err(2)
    ensures Parse(Spelled([Pipe, Word(a)])) == Err(3)
    ensures Parse(Spelled([Word(a), Pipe])) == Err(3)
    ensures Parse(Spelled([Word(a), Pipe, Pipe, Word(b)])) == Err(3)
    ensures Parse(Spelled([Word(a), Amp, Word(b)])) == Err(4)
    ensures Parse(Spelled([Word(a), Amp, Amp])) == Err(4)
    ensures Parse(Spelled([Word(a), In])) == Err(5)
    ensures Parse(Spelled([Word(a), Out(true), Pipe])) == Err(6)
    ensures Parse(Spelled([In, Word(a)])) == Err(7)
    ensures Parse(Spelled([Amp])) == Err(7)
  {
    InputErrors(a, b, c);
    OutputErrors(a, b, c);
    PipeErrors(a, b);
    OtherErrors(a, b);
    hide Parse, Spelled, Plain, OnTokens;
    SpelledParses([Word(a), In, Word(b), In, Word(c)]);
    SpelledParses([Word(a), Pipe, Word(b), In, Word(c)]);
    SpelledParses([Word(a), Out(false), Word(b), Out(true), Word(c)]);
    SpelledParses([Word(a), Out(false), Word(b), Pipe, Word(c)]);
    SpelledParses([Pipe, Word(a)]);
    SpelledParses([Word(a), Pipe]);
    SpelledParses([Word(a), Pipe, Pipe, Word(b)]);
    SpelledParses([Word(a), Amp, Word(b)]);
    SpelledParses([Word(a), Amp, Amp]);
    SpelledParses([Word(a), In]);
    SpelledParses([Word(a), Out(true), Pipe]);
    SpelledParses([In, Word(a)]);
    SpelledParses([Amp]);
    assert [Word(a), Amp, Amp][..2] == [Word(a), Amp] && [Amp][..0] == [];
  }

  /** One step of the grammar. */
  lemma Forward(t: seq<Token>, st: State)
    requires t != []
    ensures t[0].Word? ==> Run(t, st) == Run(t[1..], st.(cur := st.cur + [t[0].w]))
    ensures t[0].In? && |t| > 1 && t[1].Word? && st.done == [] && st.input.None? ==>
              Run(t, st) == Run(t[2..], st.(input := Some(t[1].w)))
    ensures t[0].Out? && |t| > 1 && t[1].Word? && st.output.None? ==>
              Run(t, st) == Run(t[2..], st.(output := Some(t[1].w), append := t[0].append))
    ensures t[0].Pipe? && st.output.None? && st.cur != [] ==>
              Run(t, st) == Run(t[1..], st.(done := st.done + [st.cur], cur := []))
  {}

  /** The steps it does not take. */
  lemma Stuck(t: seq<Token>, st: State)
    requires t != []
    ensures t[0].Amp? ==> Run(t, st) == Err(4)
    ensures t[0].In? && (st.done != [] || st.input.Some?) ==> Run(t, st) == Err(1)
    ensures t[0].In? && st.done == [] && st.input.None? && (|t| == 1 || !t[1].Word?) ==> Run(t, st) == Err(5)
    ensures (t[0].Out? || t[0].Pipe?) && st.output.Some? ==> Run(t, st) == Err(2)
    ensures t[0].Out? && st.output.None? && (|t| == 1 || !t[1].Word?) ==> Run(t, st) == Err(6)
    ensures t[0].Pipe? && st.output.None? && st.cur == [] ==> Run(t, st) == Err(3)
  {}

  /** How it ends: no argument at all, none in the last command, or a command. */
  lemma Ends(st: State, background: bool)
    ensures Run([], st) == Ok(st)
    ensures st.done == [] && st.cur == [] && (background || st.input.Some? || st.output.Some?) ==>
              Finish(st, background) == Err(7)
    ensures st.done != [] && |st.done[|st.done| - 1]| > 0 && st.cur == [] ==> Finish(st, background) == Err(3)
  {}

  lemma InputErrors(a: string, b: string, c: string)
    ensures OnTokens([Word(a), In, Word(b), In, Word(c)], false) == Err(1)
    ensures OnTokens([Word(a), Pipe, Word(b), In, Word(c)], false) == Err(1)
    ensures OnTokens([Word(a), In], false) == Err(5)
  {
    hide Run, Finish;
    var t, u, v := [Word(a), In, Word(b), In, Word(c)], [Word(a), Pipe, Word(b), In, Word(c)], [Word(a), In];
    var s := START.(cur := START.cur + [a]);
    var next := s.(done := s.done + [s.cur], cur := []);
    Forward(t, START);
    Forward(t[1..], s);
    Stuck(t[1..][2..], s.(input := Some(b)));
    Forward(u, START);
    Forward(u[1..], s);
    Forward(u[1..][1..], next);
    Stuck(u[1..][1..][1..], next.(cur := next.cur + [b]));
    Forward(v, START);
    Stuck(v[1..], s);
  }

  lemma OutputErrors(a: string, b: string, c: string)
    ensures OnTokens([Word(a), Out(false), Word(b), Out(true), Word(c)], false) == Err(2)
    ensures OnTokens([Word(a), Out(false), Word(b), Pipe, Word(c)], false) == Err(2)
    ensures OnTokens([Word(a), Out(true), Pipe], false) == Err(6)
  {
    hide Run, Finish;
    var t := [Word(a), Out(false), Word(b), Out(true), Word(c)];
    var u, v := [Word(a), Out(false), Word(b), Pipe, Word(c)], [Word(a), Out(true), Pipe];
    var s := START.(cur := START.cur + [a]);
    Forward(t, START);
    Forward(t[1..], s);
    Stuck(t[1..][2..], s.(output := Some(b), append := false));
    Forward(u, START);
    Forward(u[1..], s);
    Stuck(u[1..][2..], s.(output := Some(b), append := false));
    Forward(v, START);
    Stuck(v[1..], s);
  }

  lemma PipeErrors(a: string, b: string)
    ensures OnTokens([Pipe, Word(a)], false) == Err(3)
    ensures OnTokens([Word(a), Pipe], false) == Err(3)
    ensures OnTokens([Word(a), Pipe, Pipe, Word(b)], false) == Err(3)
  {
    hide Run, Finish;
    var t, u, v := [Pipe, Word(a)], [Word(a), Pipe], [Word(a), Pipe, Pipe, Word(b)];
    var s := START.(cur := START.cur + [a]);
    var next := s.(done := s.done + [s.cur], cur := []);
    Stuck(t, START);
    Forward(u, START);
    Forward(u[1..], s);
    assert u[1..][1..] == [];
    Ends(next, false);
    Forward(v, START);
    Forward(v[1..], s);
    Stuck(v[1..][1..], next);
  }

  lemma OtherErrors(a: string, b: string)
    ensures OnTokens([Word(a), Amp, Word(b)], false) == Err(4)
    ensures OnTokens([Word(a), Amp], true) == Err(4)
    ensures OnTokens([In, Word(a)], false) == Err(7)
    ensures OnTokens([], true) == Err(7)
  {
    hide Run, Finish;
    var t, u, v := [Word(a), Amp, Word(b)], [Word(a), Amp], [In, Word(a)];
    var s := START.(cur := START.cur + [a]);
    Forward(t, START);
    Stuck(t[1..], s);
    Forward(u, START);
    Stuck(u[1..], s);
    Forward(v, START);
    assert v[2..] == [];
    Ends(START.(input := Some(a)), false);
    Ends(START, true);
  }
}
