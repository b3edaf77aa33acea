/** user/sh.c: the text of a command tree, and that the parser gives the tree back. */
module ShellText {
  import opened Common
  import opened Shell
  import opened ShellGrammar

  function Only(argv: seq<string>): (parts: seq<Part>)
    ensures |parts| == |argv|
  {
    if argv == [] then [] else [Arg(argv[0])] + Only(argv[1..])
  }

  /** How the text of a tree is written, with parentheses around every part. */
  function Parenthesised(t: Cmd<string>): Syntax {
    match t
    case Exec(argv) => Simple(Only(argv))
    case Redir(c, file, mode) => Block(Parenthesised(c), [Into(file, mode)])
    case Pipe(l, r) => Piped(Block(Parenthesised(l), []), Block(Parenthesised(r), []))
    case List(l, r) => Then(Block(Parenthesised(l), []), Block(Parenthesised(r), []))
    case Back(c) => Sent(Block(Parenthesised(c), []))
  }

  lemma {:induction false} OnlyWords(argv: seq<string>, c: Cmd<string>)
    ensures ArgsOf(Only(argv)) == argv && Around(c, Only(argv)) == c
  {
    if argv != [] {
      OnlyWords(argv[1..], c);
      assert Only(argv)[1..] == Only(argv[1..]);
      AroundSkips(c, [], argv[0], Only(argv[1..]));
      assert [] + [Arg(argv[0])] + Only(argv[1..]) == Only(argv) && [] + Only(argv[1..]) == Only(argv[1..]);
    }
  }

  lemma BlockLine(body: Syntax, redirs: seq<Part>)
    requires IsLine(body) && Redirs(redirs)
    ensures var x := Block(body, redirs); IsExec(x) && IsPipe(x) && IsSent(x) && IsLine(x)
  {
    var x := Block(body, redirs);
    assert IsExec(x);
    assert IsPipe(x);
    assert IsSent(x);
  }

  lemma OneAround(c: Cmd<string>, into: Part)
    requires into.Into?
    ensures Around(c, [into]) == Redir(c, into.file, into.mode)
  {
    assert [into][..0] == [];
  }

  lemma {:induction false} ParenthesisedIs(t: Cmd<string>)
    requires ValidTree(t)
    ensures IsLine(Parenthesised(t)) && Tree(Parenthesised(t)) == t
  {
    match t
    case Exec(argv) =>
      OnlyWords(argv, t);
      var x := Simple(Only(argv));
      assert IsExec(x);
      assert IsPipe(x);
      assert IsSent(x);
    case Redir(c, file, mode) =>
      ParenthesisedIs(c);
      BlockLine(Parenthesised(c), [Into(file, mode)]);
      OneAround(c, Into(file, mode));
    case Pipe(l, r) =>
      ParenthesisedIs(l);
      ParenthesisedIs(r);
      BlockLine(Parenthesised(l), []);
      BlockLine(Parenthesised(r), []);
      var x := Parenthesised(t);
      assert IsPipe(x);
      assert IsSent(x);
    case List(l, r) =>
      ParenthesisedIs(l);
      ParenthesisedIs(r);
      BlockLine(Parenthesised(l), []);
      BlockLine(Parenthesised(r), []);
    case Back(c) =>
      ParenthesisedIs(c);
      BlockLine(Parenthesised(c), []);
      assert IsSent(Parenthesised(t));
  }

  /** From p up to e the line is written with these tokens; folded. */
  ghost predicate Reads(s: string, p: nat, toks: seq<Tok>, e: nat) {
    forall u {:trigger Open(u)} :: Open(u) ==> p <= |s| && e <= |s| && Lex(s, p) == toks + Lex(s, e)
  }

  lemma ReadsOn(s: string, p: nat, a: seq<Tok>, q: nat, b: seq<Tok>, e: nat)
    requires Reads(s, p, a, q) && Reads(s, q, b, e)
    ensures Reads(s, p, a + b, e)
  {
    assert Open(0);
    Associate(a, b, Lex(s, e));
  }

  lemma ReadsSym(s: string, p: nat, c: char, e: nat)
    requires p < |s| && s[p] == c && c in "|;&()" && e == p + 1
    ensures Reads(s, p, [Sym(c)], e)
  {
    assert s[p..e] == [c];
    LexFirst(s, p, p, e, Sym(c));
  }

  lemma ReadsSign(s: string, p: nat, mode: Mode, e: nat)
    requires Occurs(s, p, Sign(mode)) && e == p + |Sign(mode)| && e < |s| && WordChar(s[e])
    ensures Reads(s, p, [Sym(SignOf(mode))], e)
  {
    assert s[p..e] == Sign(mode);
    LexFirst(s, p, p, e, Sym(SignOf(mode)));
  }

  lemma ReadsWord(s: string, p: nat, w: string, e: nat)
    requires Occurs(s, p, w) && ValidWord(w) && e == p + |w| && (e < |s| ==> White(s[e]) || Symbol(s[e]))
    ensures Reads(s, p, [Word(w)], e)
  {
    assert s[p..e] == w;
    LexFirst(s, p, p, e, Word(w));
  }

  lemma ReadsBlank(s: string, p: nat, e: nat)
    requires p < |s| && White(s[p]) && e == p + 1
    ensures Reads(s, p, [], e)
  {
    SkipSame(s, p);
    SkipSame(s, e);
    assert [] + Lex(s, e) == Lex(s, e);
  }

  /** Where a text can end. */
  predicate Stop(s: string, e: nat) {
    e == |s| || (e < |s| && Symbol(s[e]))
  }

  lemma ReadsNothing(s: string, p: nat)
    requires p <= |s|
    ensures Reads(s, p, [], p)
  {
    assert [] + Lex(s, p) == Lex(s, p);
  }

  /** The words stand from p up to e, with blanks between them; folded. */
  ghost predicate JoinText(argv: seq<string>, s: string, p: nat, e: nat) {
    forall u {:trigger Open(u)} :: Open(u) ==>
      && Occurs(s, p, Join(argv)) && e == p + |Join(argv)| && Stop(s, e)
      && forall k :: 0 <= k < |argv| ==> ValidWord(argv[k])
  }

  lemma {:induction false} ReadsJoin(argv: seq<string>, s: string, p: nat, e: nat)
    requires JoinText(argv, s, p, e)
    ensures Reads(s, p, Written(Only(argv)), e)
  {
    if argv == [] {
      assert Open(0);
      ReadsNothing(s, p);
    } else {
      OnlyWritten(argv);
      if |argv| == 1 {
        JoinOne(argv, s, p, e);
        ReadsWord(s, p, argv[0], e);
      } else {
        var q := JoinParts(argv, s, p, e);
        ReadsJoin(argv[1..], s, q + 1, e);
        ReadsSpaced(s, p, argv[0], q, Written(Only(argv[1..])), e);
      }
    }
  }

  lemma JoinOne(argv: seq<string>, s: string, p: nat, e: nat)
    requires |argv| == 1 && JoinText(argv, s, p, e)
    ensures Occurs(s, p, argv[0]) && ValidWord(argv[0]) && e == p + |argv[0]| && (e < |s| ==> Symbol(s[e]))
  {
    assert Open(0);
  }

  lemma ReadsSpaced(s: string, p: nat, w: string, q: nat, toks: seq<Tok>, e: nat)
    requires Occurs(s, p, w) && ValidWord(w) && q == p + |w| && q < |s| && s[q] == ' ' && Reads(s, q + 1, toks, e)
    ensures Reads(s, p, [Word(w)] + toks, e)
  {
    ReadsWord(s, p, w, q);
    ReadsBlank(s, q, q + 1);
    ReadsOn(s, q, [], q + 1, toks, e);
    assert [] + toks == toks;
    ReadsOn(s, p, [Word(w)], q, toks, e);
  }

  lemma OnlyWritten(argv: seq<string>)
    requires argv != []
    ensures Written(Only(argv)) == [Word(argv[0])] + Written(Only(argv[1..]))
    ensures |argv| == 1 ==> Written(Only(argv)) == [Word(argv[0])] && Join(argv) == argv[0]
  {
    assert Only(argv)[1..] == Only(argv[1..]);
  }

  lemma JoinParts(argv: seq<string>, s: string, p: nat, e: nat) returns (q: nat)
    requires |argv| > 1 && JoinText(argv, s, p, e)
    ensures Occurs(s, p, argv[0]) && ValidWord(argv[0]) && q == p + |argv[0]| && q < |s| && s[q] == ' '
    ensures JoinText(argv[1..], s, q + 1, e)
  {
    assert Open(0);
    q := p + |argv[0]|;
    var tail := Join(argv[1..]);
    assert Join(argv) == argv[0] + (" " + tail);
    OccursPart(s, p, argv[0], " " + tail);
    OccursPart(s, q, " ", tail);
    assert s[q + 0] == " "[0];
  }

  /** The text of t stands from p up to e; folded. */
  ghost predicate TextAt(t: Cmd<string>, s: string, p: nat, e: nat) {
    forall u {:trigger Open(u)} :: Open(u) ==>
      ValidTree(t) && Occurs(s, p, Text(t)) && e == p + |Text(t)| && Stop(s, e)
  }

  /** The text of t in parentheses stands from p up to e; folded. */
  ghost predicate BlockText(t: Cmd<string>, s: string, p: nat, e: nat) {
    forall u {:trigger Open(u)} :: Open(u) ==>
      ValidTree(t) && Occurs(s, p, "(" + Text(t) + ")") && e == p + |Text(t)| + 2
  }

  lemma {:induction false} ReadsBlock(t: Cmd<string>, s: string, p: nat, e: nat)
    requires BlockText(t, s, p, e)
    ensures Reads(s, p, Print(Block(Parenthesised(t), [])), e)
    decreases t, 2
  {
    assert Open(0);
    OccursPart(s, p, "(" + Text(t), ")");
    OccursPart(s, p, "(", Text(t));
    var a, b := p + 1, e - 1;
    assert s[p + 0] == "("[0] && s[b + 0] == ")"[0];
    ReadsSym(s, p, '(', a);
    ReadsText(t, s, a, b);
    ReadsSym(s, b, ')', e);
    ReadsOn(s, p, [Sym('(')], a, Print(Parenthesised(t)), b);
    ReadsOn(s, p, [Sym('(')] + Print(Parenthesised(t)), b, [Sym(')')], e);
    PlainBlock(Parenthesised(t), []);
  }

  lemma PlainBlock(x: Syntax, intos: seq<Part>)
    ensures Print(Block(x, [])) == [Sym('(')] + Print(x) + [Sym(')')]
    ensures Print(Block(x, intos)) == Print(Block(x, [])) + Written(intos)
  {
  }

  lemma PairPrint(t: Cmd<string>, l: Cmd<string>, r: Cmd<string>, c: char)
    requires (t == Pipe(l, r) && c == '|') || (t == List(l, r) && c == ';')
    ensures Print(Parenthesised(t)) ==
      Print(Block(Parenthesised(l), [])) + [Sym(c)] + Print(Block(Parenthesised(r), []))
  {
    var x, y := Block(Parenthesised(l), []), Block(Parenthesised(r), []);
    assert Parenthesised(t) == if c == '|' then Piped(x, y) else Then(x, y);
  }

  lemma ReadsThree(s: string, p: nat, x: seq<Tok>, q: nat, c: char, y: seq<Tok>, e: nat, all: seq<Tok>)
    requires Reads(s, p, x, q) && q < |s| && s[q] == c && c in "|;&()" && Reads(s, q + 1, y, e)
    requires all == x + [Sym(c)] + y
    ensures Reads(s, p, all, e)
  {
    ReadsSym(s, q, c, q + 1);
    ReadsOn(s, p, x, q, [Sym(c)], q + 1);
    ReadsOn(s, p, x + [Sym(c)], q + 1, y, e);
  }

  lemma {:induction false} ReadsPair(t: Cmd<string>, l: Cmd<string>, r: Cmd<string>, c: char, s: string, p: nat,
                                     q: nat, e: nat)
    requires BlockText(l, s, p, q) && q < |s| && s[q] == c && BlockText(r, s, q + 1, e)
    requires (t == Pipe(l, r) && c == '|') || (t == List(l, r) && c == ';')
    ensures Reads(s, p, Print(Parenthesised(t)), e)
    decreases t, 0
  {
    ReadsBlock(l, s, p, q);
    ReadsBlock(r, s, q + 1, e);
    PairPrint(t, l, r, c);
    ReadsThree(s, p, Print(Block(Parenthesised(l), [])), q, c, Print(Block(Parenthesised(r), [])), e,
               Print(Parenthesised(t)));
  }

  lemma PairParts(t: Cmd<string>, l: Cmd<string>, r: Cmd<string>, op: string, s: string, p: nat, e: nat)
    returns (q: nat)
    requires TextAt(t, s, p, e) && |op| == 1 && ((t == Pipe(l, r) && op == "|") || (t == List(l, r) && op == ";"))
    ensures q < |s| && s[q] == op[0] && BlockText(l, s, p, q) && BlockText(r, s, q + 1, e)
  {
    assert Open(0);
    q := p + |Text(l)| + 2;
    TwoParts(s, p, Text(l), op, Text(r));
  }

  lemma TwoParts(s: string, p: nat, l: string, op: string, r: string)
    requires |op| == 1 && Occurs(s, p, "(" + l + ")" + op + "(" + r + ")")
    ensures p + |l| + 2 < |s| && s[p + |l| + 2] == op[0]
    ensures Occurs(s, p, "(" + l + ")") && Occurs(s, p + |l| + 3, "(" + r + ")")
  {
    var m, n := "(" + l + ")", "(" + r + ")";
    assert m + op + "(" + r + ")" == m + (op + n);
    OccursPart(s, p, m, op + n);
    OccursPart(s, p + |m|, op, n);
    assert s[p + |m| + 0] == op[0];
  }

  lemma ExecParts(argv: seq<string>, s: string, p: nat, e: nat)
    requires TextAt(Exec(argv), s, p, e)
    ensures JoinText(argv, s, p, e)
  {
    assert Open(0);
  }

  lemma SentParts(c: Cmd<string>, s: string, p: nat, e: nat) returns (q: nat)
    requires TextAt(Back(c), s, p, e)
    ensures BlockText(c, s, p, q) && q + 1 == e && q < |s| && s[q] == '&'
  {
    assert Open(0);
    q := p + |Text(c)| + 2;
    OccursPart(s, p, "(" + Text(c) + ")", "&");
    assert s[q + 0] == "&"[0];
  }

  lemma {:induction false} ReadsText(t: Cmd<string>, s: string, p: nat, e: nat)
    requires TextAt(t, s, p, e)
    ensures Reads(s, p, Print(Parenthesised(t)), e)
    decreases t, 1
  {
    match t
    case Exec(argv) =>
      ExecParts(argv, s, p, e);
      ReadsJoin(argv, s, p, e);
    case Redir(c, file, mode) => ReadsRedir(t, c, file, mode, s, p, e);
    case Pipe(l, r) =>
      var q := PairParts(t, l, r, "|", s, p, e);
      ReadsPair(t, l, r, '|', s, p, q, e);
    case List(l, r) =>
      var q := PairParts(t, l, r, ";", s, p, e);
      ReadsPair(t, l, r, ';', s, p, q, e);
    case Back(c) =>
      var q := SentParts(c, s, p, e);
      ReadsSent(t, c, s, p, q, e);
  }

  lemma {:induction false} ReadsSent(t: Cmd<string>, c: Cmd<string>, s: string, p: nat, q: nat, e: nat)
    requires BlockText(c, s, p, q) && t == Back(c) && q < |s| && s[q] == '&' && e == q + 1
    ensures Reads(s, p, Print(Parenthesised(t)), e)
    decreases t, 0
  {
    ReadsBlock(c, s, p, q);
    ReadsSym(s, q, '&', e);
    SentPrint(c);
    ReadsBoth(s, p, Print(Block(Parenthesised(c), [])), q, [Sym('&')], e, Print(Parenthesised(t)));
  }

  lemma SentPrint(c: Cmd<string>)
    ensures Print(Parenthesised(Back(c))) == Print(Block(Parenthesised(c), [])) + [Sym('&')]
  {
    assert Parenthesised(Back(c)) == Sent(Block(Parenthesised(c), []));
  }

  lemma ReadsBoth(s: string, p: nat, x: seq<Tok>, q: nat, y: seq<Tok>, e: nat, all: seq<Tok>)
    requires Reads(s, p, x, q) && Reads(s, q, y, e) && all == x + y
    ensures Reads(s, p, all, e)
  {
    ReadsOn(s, p, x, q, y, e);
  }

  lemma {:induction false} ReadsRedir(t: Cmd<string>, c: Cmd<string>, file: string, mode: Mode, s: string, p: nat,
                                      e: nat)
    requires TextAt(t, s, p, e) && t == Redir(c, file, mode)
    ensures Reads(s, p, Print(Parenthesised(t)), e)
    decreases t, 0
  {
    var q, f := RedirParts(c, file, mode, s, p, e);
    ReadsBlock(c, s, p, q);
    ReadsSign(s, q, mode, f);
    ReadsWord(s, f, file, e);
    ReadsOn(s, q, [Sym(SignOf(mode))], f, [Word(file)], e);
    OneInto(Into(file, mode));
    PlainBlock(Parenthesised(c), [Into(file, mode)]);
    ReadsBoth(s, p, Print(Block(Parenthesised(c), [])), q, Written([Into(file, mode)]), e, Print(Parenthesised(t)));
  }

  lemma OneInto(into: Part)
    requires into.Into?
    ensures Written([into]) == [Sym(SignOf(into.mode))] + [Word(into.file)]
  {
    assert [into][1..] == [];
  }

  lemma RedirParts(c: Cmd<string>, file: string, mode: Mode, s: string, p: nat, e: nat) returns (q: nat, f: nat)
    requires TextAt(Redir(c, file, mode), s, p, e)
    ensures BlockText(c, s, p, q) && Occurs(s, q, Sign(mode)) && f == q + |Sign(mode)| && f < |s| && WordChar(s[f])
    ensures Occurs(s, f, file) && ValidWord(file) && e == f + |file| && (e < |s| ==> Symbol(s[e]))
  {
    assert Open(0);
    var m := "(" + Text(c) + ")";
    q, f := p + |m|, p + |m| + |Sign(mode)|;
    assert m + Sign(mode) + file == m + (Sign(mode) + file);
    OccursPart(s, p, m, Sign(mode) + file);
    OccursPart(s, q, Sign(mode), file);
    assert s[f + 0] == file[0];
  }

  /** Every tree with valid words and at most nine arguments comes back from its text. */
  lemma RoundTrip(t: Cmd<string>)
    requires ValidTree(t)
    ensures var r := ParseCmd(Text(t)); r.Done? && Fit(Text(t), r.value) && Words(Text(t), r.value) == t
  {
    var s, x := Text(t), Parenthesised(t);
    TextPlain(t);
    ParenthesisedIs(t);
    assert TextAt(t, s, 0, |s|);
    ReadsText(t, s, 0, |s|);
    LexNone(s, |s|);
    assert Lex(s, 0) == Print(x) + [] == Print(x) by {
      assert Open(0);
    }
    LexSpells(s, 0);
    Accepts(s, x, t);
  }

  lemma {:induction false} TextPlain(t: Cmd<string>)
    requires ValidTree(t)
    ensures NUL !in Text(t)
  {
    match t
    case Exec(argv) => JoinPlain(argv);
    case Redir(c, file, _) => TextPlain(c);
    case Pipe(l, r) => TextPlain(l); TextPlain(r);
    case List(l, r) => TextPlain(l); TextPlain(r);
    case Back(c) => TextPlain(c);
  }

  lemma {:induction false} JoinPlain(argv: seq<string>)
    requires forall k :: 0 <= k < |argv| ==> ValidWord(argv[k])
    ensures NUL !in Join(argv)
  {
    if |argv| > 1 {
      JoinPlain(argv[1..]);
    }
  }
}
