/** user/sh.c: what the parser accepts, as a grammar over the tokens of a line, and the tree that
    each line of the grammar stands for. */
module ShellGrammar {
  import opened Common
  import opened Shell

  // ---- tokens

  /** A word, or one of the symbols; '+' is ">>". */
  datatype Tok = Word(w: string) | Sym(c: char)

  function Spelling(t: Tok): string {
    match t
    case Word(w) => w
    case Sym(c) => if c == '+' then ">>" else [c]
  }

  predicate Clean(t: Tok) {
    match t
    case Word(w) => ValidWord(w)
    case Sym(c) => c in "|&;()<>+"
  }

  /** The characters of the parser's two tables. */
  lemma Tables(c: char)
    ensures White(c) <==> c in " \t\r\n\U{0b}"
    ensures Symbol(c) <==> c in "<|>&;()"
  {
  }

  /** A token can end at b: a word runs up to a blank, a symbol or the end of the line, and
      ">>" is not two tokens. */
  predicate Ends(t: Tok, s: string, b: nat) {
    match t
    case Word(_) => b >= |s| || White(s[b]) || Symbol(s[b])
    case Sym(c) => c == '>' ==> b >= |s| || s[b] != '>'
  }

  predicate Blanks(s: string, p: nat, q: nat) {
    p <= q <= |s| && forall i :: p <= i < q ==> White(s[i])
  }

  predicate Stands(s: string, a: nat, b: nat, t: Tok) {
    a < b <= |s| && Clean(t) && s[a..b] == Spelling(t) && Ends(t, s, b)
  }

  /** From p on the line is written with these tokens, and with blanks between them. */
  ghost predicate Spells(s: string, p: nat, toks: seq<Tok>)
    decreases |toks|
  {
    if toks == [] then Blanks(s, p, |s|)
    else exists a, b :: Blanks(s, p, a) && Stands(s, a, b, toks[0]) && Spells(s, b, toks[1..])
  }

  /** The tokens that gettoken gives. */
  function TokOf(s: string, t: Token): Tok
    requires t.q <= t.eq <= |s|
  {
    if t.kind == 'a' then Word(s[t.q..t.eq]) else Sym(t.kind)
  }

  function Lex(s: string, p: nat): seq<Tok>
    requires p <= |s|
    decreases |s| - p
  {
    var t := GetToken(s, p);
    if t.kind == NUL then [] else [TokOf(s, t)] + Lex(s, t.pos)
  }

  lemma SkipBlanks(s: string, p: nat, a: nat)
    requires Blanks(s, p, a) && !White(At(s, a))
    ensures Skip(s, p) == a
    decreases a - p
  {
    if p < a {
      SkipBlanks(s, p + 1, a);
    }
  }

  lemma SkipSame(s: string, p: nat)
    requires p <= |s|
    ensures GetToken(s, Skip(s, p)) == GetToken(s, p) && Lex(s, Skip(s, p)) == Lex(s, p)
    ensures Skip(s, Skip(s, p)) == Skip(s, p)
  {
    NoSkip(s, Skip(s, p));
  }

  /** A token that stands at a, after blanks, is the one that gettoken gives. */
  lemma TokenIs(s: string, p: nat, a: nat, b: nat, t: Tok)
    requires Blanks(s, p, a) && Stands(s, a, b, t)
    ensures var g := GetToken(s, p); g.q == a && g.eq == b && g.pos == Skip(s, b) && g.kind != NUL && TokOf(s, g) == t
  {
    assert s[a] == s[a..b][0];
    match t
    case Word(w) =>
      forall i | a <= i < b
        ensures WordChar(s[i])
      {
        assert s[i] == s[a..b][i - a];
      }
      SkipBlanks(s, p, a);
      EndOfWord(s, a, b);
    case Sym(c) =>
      SkipBlanks(s, p, a);
      if c == '+' {
        assert s[a + 1] == s[a..b][1];
      }
  }

  /** And the one that gettoken gives stands there. */
  lemma TokenStands(s: string, p: nat)
    requires p <= |s| && NUL !in s && GetToken(s, p).kind != NUL
    ensures var g := GetToken(s, p);
      Blanks(s, p, g.q) && Stands(s, g.q, g.eq, TokOf(s, g)) && Blanks(s, g.eq, g.pos)
  {
    var g := GetToken(s, p);
    var t := TokOf(s, g);
    if g.kind == 'a' {
      forall i | 0 <= i < |t.w|
        ensures WordChar(t.w[i])
      {
        assert t.w[i] == s[g.q + i];
      }
    }
  }

  /** The first token, from a up to b, and those after it. */
  lemma LexFirst(s: string, p: nat, a: nat, b: nat, t: Tok)
    requires Blanks(s, p, a) && Stands(s, a, b, t)
    ensures Lex(s, p) == [t] + Lex(s, b)
  {
    TokenIs(s, p, a, b, t);
    SkipSame(s, b);
  }

  lemma LexNone(s: string, p: nat)
    requires p <= |s| && NUL !in s
    ensures Lex(s, p) == [] <==> Blanks(s, p, |s|)
  {
    var q := Skip(s, p);
    if q < |s| {
      assert s[q] in s;
    }
  }

  lemma LexSome(s: string, p: nat) returns (a: nat, b: nat)
    requires p <= |s| && NUL !in s && Lex(s, p) != []
    ensures Blanks(s, p, a) && Stands(s, a, b, Lex(s, p)[0]) && Lex(s, p)[1..] == Lex(s, b)
  {
    var g := GetToken(s, p);
    a, b := g.q, g.eq;
    TokenStands(s, p);
    LexFirst(s, p, a, b, TokOf(s, g));
  }

  /** A line is written with the tokens that gettoken gives ... */
  lemma {:induction false} LexSpells(s: string, p: nat)
    requires p <= |s| && NUL !in s
    ensures Spells(s, p, Lex(s, p))
    decreases |s| - p
  {
    LexNone(s, p);
    if Lex(s, p) != [] {
      var a, b := LexSome(s, p);
      LexSpells(s, b);
    }
  }

  /** ... and with no others. */
  lemma {:induction false} SpellsLex(s: string, p: nat, toks: seq<Tok>)
    requires p <= |s| && NUL !in s && Spells(s, p, toks)
    ensures toks == Lex(s, p)
    decreases |toks|
  {
    LexNone(s, p);
    if toks != [] {
      var a, b :| Blanks(s, p, a) && Stands(s, a, b, toks[0]) && Spells(s, b, toks[1..]);
      LexFirst(s, p, a, b, toks[0]);
      SpellsLex(s, b, toks[1..]);
    }
  }

  // ---- the parser's view of the tokens

  /** The first token is one of these symbols; '>' stands for ">>" as well. */
  predicate Heads(toks: seq<Tok>, syms: string) {
    toks != [] && toks[0].Sym? && (if toks[0].c == '+' then '>' else toks[0].c) in syms
  }

  lemma PeekIs(s: string, p: nat, syms: string)
    requires p <= |s| && NUL !in s && forall c :: c in syms ==> Symbol(c)
    ensures Peek(s, p, syms) <==> Heads(Lex(s, p), syms)
  {
    var q := Skip(s, p);
    if q < |s| {
      assert s[q] in s;
    }
  }

  lemma NextIs(s: string, p: nat)
    requires p <= |s| && NUL !in s
    ensures var g, toks := GetToken(s, p), Lex(s, p);
      && (g.kind == NUL <==> toks == []) && (g.kind == 'a' <==> toks != [] && toks[0].Word?)
      && (toks != [] ==> g.pos > p && toks[1..] == Lex(s, g.pos) && toks[0] == TokOf(s, g) && Clean(toks[0]))
  {
    if GetToken(s, p).kind != NUL {
      TokenStands(s, p);
    }
  }

  /** The tokens from p on; the quantifier keeps them folded in proofs that only pass this on. */
  ghost predicate Left(s: string, p: nat, toks: seq<Tok>) {
    forall u {:trigger Open(u)} :: Open(u) ==> p <= |s| && NUL !in s && Lex(s, p) == toks
  }

  // ---- the grammar

  /** A word of a simple command, or a redirection. */
  datatype Part = Arg(w: string) | Into(file: string, mode: Mode)

  function SignOf(m: Mode): char { match m case Read => '<' case Truncate => '>' case Append => '+' }

  function Toks(part: Part): seq<Tok> {
    match part
    case Arg(w) => [Word(w)]
    case Into(file, mode) => [Sym(SignOf(mode)), Word(file)]
  }

  function Written(parts: seq<Part>): seq<Tok> {
    if parts == [] then [] else Toks(parts[0]) + Written(parts[1..])
  }

  function ArgsOf(parts: seq<Part>): seq<string> {
    if parts == [] then [] else (if parts[0].Arg? then [parts[0].w] else []) + ArgsOf(parts[1..])
  }

  predicate Redirs(parts: seq<Part>) {
    forall k :: 0 <= k < |parts| ==> parts[k].Into?
  }

  /** A command inside redirections, the last one outermost. */
  function Around(c: Cmd<string>, parts: seq<Part>): Cmd<string> {
    if parts == [] then c
    else
      var n := |parts| - 1;
      match parts[n]
      case Into(file, mode) => Redir(Around(c, parts[..n]), file, mode)
      case Arg(_) => Around(c, parts[..n])
  }

  /** A simple command, "( line ) redirections", "a | b", "a &", and "a ; b". */
  datatype Syntax =
    | Simple(parts: seq<Part>)
    | Block(body: Syntax, redirs: seq<Part>)
    | Piped(left: Syntax, right: Syntax)
    | Sent(cmd: Syntax)
    | Then(left: Syntax, right: Syntax)

  predicate IsExec(x: Syntax)
    decreases x, 0
  {
    match x
    case Simple(parts) => |ArgsOf(parts)| < MAXARGS
    case Block(body, redirs) => IsLine(body) && Redirs(redirs)
    case _ => false
  }

  predicate IsPipe(x: Syntax)
    decreases x, 1
  {
    match x
    case Piped(l, r) => IsExec(l) && IsPipe(r)
    case Sent(_) => false
    case Then(_, _) => false
    case _ => IsExec(x)
  }

  predicate IsSent(x: Syntax)
    decreases x, 2
  {
    match x
    case Sent(c) => IsSent(c)
    case Then(_, _) => false
    case _ => IsPipe(x)
  }

  predicate IsLine(x: Syntax)
    decreases x, 3
  {
    match x
    case Then(l, r) => IsSent(l) && IsLine(r)
    case _ => IsSent(x)
  }

  function Print(x: Syntax): seq<Tok> {
    match x
    case Simple(parts) => Written(parts)
    case Block(body, redirs) => [Sym('(')] + Print(body) + [Sym(')')] + Written(redirs)
    case Piped(l, r) => Print(l) + [Sym('|')] + Print(r)
    case Sent(c) => Print(c) + [Sym('&')]
    case Then(l, r) => Print(l) + [Sym(';')] + Print(r)
  }

  function Tree(x: Syntax): Cmd<string> {
    match x
    case Simple(parts) => Around(Exec(ArgsOf(parts)), parts)
    case Block(body, redirs) => Around(Tree(body), redirs)
    case Piped(l, r) => Pipe(Tree(l), Tree(r))
    case Sent(c) => Back(Tree(c))
    case Then(l, r) => List(Tree(l), Tree(r))
  }

  // ---- redirections

  ghost predicate InFiles(s: string, redirs: seq<Redirection>) {
    forall k :: 0 <= k < |redirs| ==> redirs[k].file.q <= redirs[k].file.eq <= |s|
  }

  ghost function Files(s: string, redirs: seq<Redirection>): (intos: seq<Part>)
    requires InFiles(s, redirs)
    ensures |intos| == |redirs| && Redirs(intos)
    ensures forall k :: 0 <= k < |redirs| ==>
      intos[k] == Into(s[redirs[k].file.q..redirs[k].file.eq], redirs[k].mode)
  {
    seq(|redirs|, k requires 0 <= k < |redirs| => Into(s[redirs[k].file.q..redirs[k].file.eq], redirs[k].mode))
  }

  lemma {:induction false} WrapWords(s: string, cmd: Cmd<Span>, redirs: seq<Redirection>)
    requires Fit(s, cmd) && InFiles(s, redirs)
    ensures Fit(s, Wrap(cmd, redirs)) && Words(s, Wrap(cmd, redirs)) == Around(Words(s, cmd), Files(s, redirs))
  {
    if redirs != [] {
      var n := |redirs| - 1;
      WrapWords(s, cmd, redirs[..n]);
      assert Files(s, redirs)[..n] == Files(s, redirs[..n]);
    }
  }

  lemma FilesMore(s: string, redirs: seq<Redirection>, f: Span, mode: Mode)
    requires InFiles(s, redirs) && f.q <= f.eq <= |s|
    ensures InFiles(s, redirs + [Redirection(f, mode)])
    ensures Files(s, redirs + [Redirection(f, mode)]) == Files(s, redirs) + [Into(s[f.q..f.eq], mode)]
  {
  }

  ghost predicate RedirsAre(s: string, p: nat, redirs: seq<Redirection>, r: Parse<seq<Redirection>>) {
    forall u {:trigger Open(u)} :: Open(u) ==> p <= |s| && ParseRedirs(s, p, redirs) == r
  }

  /** The redirection at p, if there is one: its file, its mode, and the position after it. */
  lemma RedirsStep(s: string, p: nat, toks: seq<Tok>, redirs: seq<Redirection>)
    returns (r: Parse<seq<Redirection>>, f: Span, mode: Mode, pos: nat, more: seq<Tok>)
    requires Left(s, p, toks)
    ensures RedirsAre(s, p, redirs, r)
    ensures
      if !Heads(toks, "<>") then p <= pos <= |s| && r == Done(redirs, pos) && Left(s, pos, toks)
      else if |toks| < 2 || !toks[1].Word? then r == Panic
      else && p < pos <= |s| && f.q <= f.eq <= |s| && RedirsAre(s, pos, redirs + [Redirection(f, mode)], r)
           && Left(s, pos, more) && toks == Toks(Into(s[f.q..f.eq], mode)) + more
  {
    assert Open(0);
    r := ParseRedirs(s, p, redirs);
    f, mode, pos, more := RedirsAt(s, p, toks, redirs);
  }

  lemma RedirsAt(s: string, p: nat, toks: seq<Tok>, redirs: seq<Redirection>)
    returns (f: Span, mode: Mode, pos: nat, more: seq<Tok>)
    requires p <= |s| && NUL !in s && toks == Lex(s, p)
    ensures
      var r := ParseRedirs(s, p, redirs);
      if !Heads(toks, "<>") then p <= pos <= |s| && r == Done(redirs, pos) && Lex(s, pos) == toks
      else if |toks| < 2 || !toks[1].Word? then r == Panic
      else && p < pos <= |s| && f.q <= f.eq <= |s| && ParseRedirs(s, pos, redirs + [Redirection(f, mode)]) == r
           && Lex(s, pos) == more && toks == Toks(Into(s[f.q..f.eq], mode)) + more
  {
    PeekIs(s, p, "<>");
    SkipSame(s, p);
    f, mode, pos, more := Span(0, 0), Read, Skip(s, p), toks;
    if Heads(toks, "<>") {
      var t, g;
      t, g, more := TwoTokens(s, p, toks);
      f, mode, pos := Span(g.q, g.eq), ModeOf(t.kind), g.pos;
      RedirsOnce(s, p, redirs, t, g);
      SignIs(t.kind, toks);
    } else {
      RedirsEnd(s, p, redirs);
    }
  }

  lemma SignIs(kind: char, toks: seq<Tok>)
    requires Heads(toks, "<>") && toks[0] == Sym(kind)
    ensures toks[0] == Sym(SignOf(ModeOf(kind)))
  {
  }

  lemma RedirsEnd(s: string, p: nat, redirs: seq<Redirection>)
    requires p <= |s| && !Peek(s, p, "<>")
    ensures ParseRedirs(s, p, redirs) == Done(redirs, Skip(s, p))
  {
  }

  lemma RedirsOnce(s: string, p: nat, redirs: seq<Redirection>, t: Token, g: Token)
    requires p <= |s| && Peek(s, p, "<>") && t == GetToken(s, Skip(s, p)) && g == GetToken(s, t.pos)
    ensures ParseRedirs(s, p, redirs) ==
      if g.kind != 'a' then Panic
      else ParseRedirs(s, g.pos, redirs + [Redirection(Span(g.q, g.eq), ModeOf(t.kind))])
  {
  }

  /** The first two tokens from p on, if there are two and the second is a word. */
  lemma TwoTokens(s: string, p: nat, toks: seq<Tok>) returns (t: Token, g: Token, more: seq<Tok>)
    requires p <= |s| && NUL !in s && toks == Lex(s, p) != []
    ensures t == GetToken(s, p) && g == GetToken(s, t.pos) && toks[0] == TokOf(s, t) && Clean(toks[0])
    ensures g.kind == 'a' <==> |toks| >= 2 && toks[1].Word?
    ensures g.kind == 'a' ==>
      more == Lex(s, g.pos) && toks == [toks[0], Word(s[g.q..g.eq])] + more && p < g.pos <= |s|
  {
    t := GetToken(s, p);
    g := GetToken(s, t.pos);
    NextIs(s, p);
    NextIs(s, t.pos);
    more := Lex(s, g.pos);
    if g.kind == 'a' {
      TwoFirst(toks, Lex(s, t.pos), more);
    }
  }

  lemma TwoFirst(all: seq<Tok>, more: seq<Tok>, rest: seq<Tok>)
    requires all != [] && more != [] && all[1..] == more && more[1..] == rest
    ensures all == [all[0], more[0]] + rest && all[1] == more[0]
  {
  }

  /** What parseredirs has taken. */
  ghost predicate Took(s: string, redirs: seq<Redirection>, intos: seq<Part>, redirs': seq<Redirection>) {
    InFiles(s, redirs) && InFiles(s, redirs') && Redirs(intos) && Files(s, redirs') == Files(s, redirs) + intos
  }

  lemma TookNone(s: string, redirs: seq<Redirection>)
    requires InFiles(s, redirs)
    ensures Took(s, redirs, [], redirs)
  {
  }

  lemma TookMore(s: string, redirs: seq<Redirection>, f: Span, mode: Mode, intos: seq<Part>, redirs': seq<Redirection>)
    requires InFiles(s, redirs) && f.q <= f.eq <= |s| && Took(s, redirs + [Redirection(f, mode)], intos, redirs')
    ensures Took(s, redirs, [Into(s[f.q..f.eq], mode)] + intos, redirs')
  {
    FilesMore(s, redirs, f, mode);
  }

  lemma WrittenMore(part: Part, rest: seq<Part>, more: seq<Tok>)
    ensures Written([part] + rest) + more == Toks(part) + (Written(rest) + more)
  {
    assert ([part] + rest)[1..] == rest;
    assert Written([part] + rest) == Toks(part) + Written(rest);
  }

  /** What parseredirs accepts is redirections, up to where there are none. */
  lemma {:induction false} RedirsSound(s: string, p: nat, toks: seq<Tok>, redirs: seq<Redirection>,
                                       redirs': seq<Redirection>, pos: nat)
    returns (intos: seq<Part>, more: seq<Tok>)
    requires Left(s, p, toks) && p <= |s| && InFiles(s, redirs) && RedirsAre(s, p, redirs, Done(redirs', pos))
    ensures Took(s, redirs, intos, redirs') && p <= pos <= |s|
    ensures toks == Written(intos) + more && Left(s, pos, more) && !Heads(more, "<>")
    decreases |s| - p
  {
    var r, f, mode, pos1, more1 := RedirsStep(s, p, toks, redirs);
    assert r == Done(redirs', pos) by {
      assert Open(0);
    }
    if Heads(toks, "<>") {
      FilesMore(s, redirs, f, mode);
      var rest;
      rest, more := RedirsSound(s, pos1, more1, redirs + [Redirection(f, mode)], redirs', pos);
      intos := [Into(s[f.q..f.eq], mode)] + rest;
      TookMore(s, redirs, f, mode, rest, redirs');
      WrittenMore(intos[0], rest, more);
    } else {
      intos, more := [], toks;
      TookNone(s, redirs);
    }
  }

  /** And it accepts all of them. */
  lemma {:induction false} RedirsComplete(s: string, p: nat, toks: seq<Tok>, redirs: seq<Redirection>,
                                          intos: seq<Part>, more: seq<Tok>)
    returns (redirs': seq<Redirection>, pos: nat)
    requires Left(s, p, toks) && p <= |s| && InFiles(s, redirs) && Redirs(intos)
    requires toks == Written(intos) + more && !Heads(more, "<>")
    ensures RedirsAre(s, p, redirs, Done(redirs', pos)) && Took(s, redirs, intos, redirs')
    ensures p <= pos <= |s| && Left(s, pos, more)
    decreases |intos|
  {
    var r, f, mode, pos1, more1 := RedirsStep(s, p, toks, redirs);
    if intos == [] {
      redirs', pos := redirs, pos1;
      TookNone(s, redirs);
    } else {
      var rest := intos[1..];
      assert intos == [intos[0]] + rest;
      WrittenMore(intos[0], rest, more);
      FirstInto(intos[0], Written(rest) + more, toks);
      SameInto(toks, intos[0], Written(rest) + more, Into(s[f.q..f.eq], mode), more1);
      FilesMore(s, redirs, f, mode);
      redirs', pos := RedirsComplete(s, pos1, more1, redirs + [Redirection(f, mode)], rest, more);
      TookMore(s, redirs, f, mode, rest, redirs');
      assert r == Done(redirs', pos) by {
        assert Open(0);
      }
    }
  }

  lemma FirstInto(into: Part, rest: seq<Tok>, toks: seq<Tok>)
    requires into.Into? && toks == Toks(into) + rest
    ensures Heads(toks, "<>") && |toks| >= 2 && toks[1].Word?
  {
  }

  lemma SameInto(toks: seq<Tok>, a: Part, x: seq<Tok>, b: Part, y: seq<Tok>)
    requires a.Into? && b.Into? && toks == Toks(a) + x == Toks(b) + y
    ensures a == b && x == y
  {
    assert toks[0] == Toks(a)[0] == Toks(b)[0] && toks[1] == Toks(a)[1] == Toks(b)[1];
    assert x == toks[2..] && y == toks[2..];
  }

  // ---- simple commands

  lemma {:induction false} WrittenCat(a: seq<Part>, b: seq<Part>)
    ensures Written(a + b) == Written(a) + Written(b)
  {
    if a == [] {
      assert a + b == b;
    } else {
      var rest := a[1..];
      WrittenCat(rest, b);
      assert a == [a[0]] + rest && a + b == [a[0]] + (rest + b);
      WrittenMore(a[0], rest + b, []);
      WrittenMore(a[0], rest, Written(b));
      assert Written(a + b) + [] == Written(a + b) && Written(rest + b) + [] == Written(rest + b);
    }
  }

  lemma {:induction false} ArgsCat(a: seq<Part>, b: seq<Part>)
    ensures ArgsOf(a + b) == ArgsOf(a) + ArgsOf(b)
  {
    if a == [] {
      assert a + b == b;
    } else {
      var rest, first := a[1..], if a[0].Arg? then [a[0].w] else [];
      ArgsCat(rest, b);
      assert a == [a[0]] + rest && a + b == [a[0]] + (rest + b);
      ArgsFirst(a[0], rest);
      ArgsFirst(a[0], rest + b);
      SameCat(first, ArgsOf(rest), ArgsOf(b));
    }
  }

  lemma ArgsFirst(part: Part, rest: seq<Part>)
    ensures ArgsOf([part] + rest) == (if part.Arg? then [part.w] else []) + ArgsOf(rest)
  {
    assert ([part] + rest)[1..] == rest;
  }

  lemma SameCat(a: seq<string>, b: seq<string>, c: seq<string>)
    ensures a + (b + c) == a + b + c
  {
  }

  lemma ArgsAfter(w: string, intos: seq<Part>, rest: seq<Part>)
    requires Redirs(intos)
    ensures ArgsOf([Arg(w)] + (intos + rest)) == [w] + ArgsOf(rest)
  {
    NoArgs(intos);
    ArgsCat(intos, rest);
    assert ([Arg(w)] + (intos + rest))[1..] == intos + rest;
    assert [] + ArgsOf(rest) == ArgsOf(rest);
  }

  lemma {:induction false} NoArgs(intos: seq<Part>)
    requires Redirs(intos)
    ensures ArgsOf(intos) == []
  {
    if intos != [] {
      NoArgs(intos[1..]);
    }
  }

  /** Words are no redirections. */
  lemma {:induction false} AroundSkips(c: Cmd<string>, a: seq<Part>, w: string, b: seq<Part>)
    ensures Around(c, a + [Arg(w)] + b) == Around(c, a + b)
  {
    var all, n := a + [Arg(w)] + b, |b| - 1;
    if b == [] {
      assert all[..|a|] == a && a + b == a;
    } else {
      AroundSkips(c, a, w, b[..n]);
      assert all[..|all| - 1] == a + [Arg(w)] + b[..n] && (a + b)[..|a + b| - 1] == a + b[..n];
    }
  }

  ghost predicate ArgsAre(s: string, p: nat, argv: seq<Span>, redirs: seq<Redirection>, r: Parse<Cmd<Span>>) {
    forall u {:trigger Open(u)} :: Open(u) ==> p <= |s| && ParseArgs(s, p, argv, redirs) == r
  }

  predicate Ended(toks: seq<Tok>) { toks == [] || Heads(toks, "|)&;") }

  /** The word at p, if there is one, and the redirections after it. */
  lemma ArgsStep(s: string, p: nat, toks: seq<Tok>, argv: seq<Span>, redirs: seq<Redirection>)
    returns (r: Parse<Cmd<Span>>, w: Span, pos: nat, more: seq<Tok>, rr: Parse<seq<Redirection>>)
    requires Left(s, p, toks)
    ensures ArgsAre(s, p, argv, redirs, r)
    ensures
      if Ended(toks) then p <= pos <= |s| && r == Done(Wrap(Exec(argv), redirs), pos) && Left(s, pos, toks)
      else if !toks[0].Word? || |argv| + 1 >= MAXARGS then r == Panic
      else && p < pos <= |s| && w.q <= w.eq <= |s| && Left(s, pos, more) && toks == [Word(s[w.q..w.eq])] + more
           && RedirsAre(s, pos, redirs, rr) && (rr.Panic? ==> r == Panic)
           && (rr.Done? ==> ArgsAre(s, rr.pos, argv + [w], rr.value, r))
  {
    assert Open(0);
    r := ParseArgs(s, p, argv, redirs);
    PeekIs(s, p, "|)&;");
    SkipSame(s, p);
    NextIs(s, p);
    var t := GetToken(s, p);
    w, more := Span(t.q, t.eq), if toks == [] then [] else toks[1..];
    pos := if Heads(toks, "|)&;") then Skip(s, p) else t.pos;
    rr := ParseRedirs(s, pos, redirs);
    if toks == [] {
      LexNone(s, p);
      LexNone(s, pos);
    }
  }

  /** What parseexec's loop has made of some parts. */
  ghost predicate Made(s: string, argv: seq<Span>, redirs: seq<Redirection>, parts: seq<Part>, cmd: Cmd<Span>) {
    && InLine(s, argv) && InFiles(s, redirs) && Fit(s, cmd)
    && Words(s, cmd) == Around(Exec(Args(s, argv) + ArgsOf(parts)), Files(s, redirs) + parts)
  }

  lemma MadeNone(s: string, argv: seq<Span>, redirs: seq<Redirection>)
    requires InLine(s, argv) && InFiles(s, redirs)
    ensures Made(s, argv, redirs, [], Wrap(Exec(argv), redirs))
  {
    WrapWords(s, Exec(argv), redirs);
    assert Args(s, argv) + [] == Args(s, argv) && Files(s, redirs) + [] == Files(s, redirs);
  }

  lemma MadeMore(s: string, argv: seq<Span>, redirs: seq<Redirection>, w: Span, intos: seq<Part>,
                 redirs': seq<Redirection>, rest: seq<Part>, parts: seq<Part>, cmd: Cmd<Span>)
    requires InLine(s, argv) && w.q <= w.eq <= |s| && Took(s, redirs, intos, redirs')
    requires Made(s, argv + [w], redirs', rest, cmd) && parts == [Arg(s[w.q..w.eq])] + (intos + rest)
    ensures Made(s, argv, redirs, parts, cmd) && |ArgsOf(parts)| == 1 + |ArgsOf(rest)|
  {
    var x := s[w.q..w.eq];
    ArgsOneMore(s, argv, w);
    ArgsAfter(x, intos, rest);
    SameArgs(Args(s, argv), x, ArgsOf(rest), ArgsOf(parts));
    SameIntos(Exec(Args(s, argv) + ArgsOf(parts)), Files(s, redirs), x, intos, rest, parts);
  }

  lemma SameArgs(a: seq<string>, x: string, b: seq<string>, c: seq<string>)
    requires c == [x] + b
    ensures a + [x] + b == a + c
  {
  }

  lemma SameIntos(c: Cmd<string>, f: seq<Part>, x: string, intos: seq<Part>, rest: seq<Part>, parts: seq<Part>)
    requires parts == [Arg(x)] + (intos + rest)
    ensures Around(c, f + intos + rest) == Around(c, f + parts)
  {
    assert f + intos + rest == f + (intos + rest) && f + parts == f + [Arg(x)] + (intos + rest);
    AroundSkips(c, f, x, intos + rest);
  }

  lemma SameWord(x: string, a: seq<Tok>, y: string, b: seq<Tok>)
    requires [Word(x)] + a == [Word(y)] + b
    ensures x == y && a == b
  {
    assert ([Word(x)] + a)[0] == Word(x) && ([Word(x)] + a)[1..] == a && ([Word(y)] + b)[1..] == b;
  }

  lemma WrittenArg(w: string, intos: seq<Part>, rest: seq<Part>, more: seq<Tok>)
    ensures Written([Arg(w)] + (intos + rest)) + more == [Word(w)] + (Written(intos) + (Written(rest) + more))
  {
    WrittenMore(Arg(w), intos + rest, more);
    WrittenCat(intos, rest);
    assert Written(intos) + Written(rest) + more == Written(intos) + (Written(rest) + more);
  }

  lemma {:induction false} ArgsSound(s: string, p: nat, toks: seq<Tok>, argv: seq<Span>, redirs: seq<Redirection>,
                                     cmd: Cmd<Span>, pos: nat)
    returns (parts: seq<Part>, more: seq<Tok>)
    requires Left(s, p, toks) && p <= |s| && InLine(s, argv) && InFiles(s, redirs) && |argv| < MAXARGS
    requires ArgsAre(s, p, argv, redirs, Done(cmd, pos))
    ensures Made(s, argv, redirs, parts, cmd) && |argv| + |ArgsOf(parts)| < MAXARGS && p <= pos <= |s|
    ensures toks == Written(parts) + more && Left(s, pos, more) && Ended(more)
    decreases |s| - p
  {
    var r, w, pos1, more1, rr := ArgsStep(s, p, toks, argv, redirs);
    assert r == Done(cmd, pos) by {
      assert Open(0);
    }
    if Ended(toks) {
      parts, more := [], toks;
      MadeNone(s, argv, redirs);
    } else {
      var intos, more2 := RedirsSound(s, pos1, more1, redirs, rr.value, rr.pos);
      ArgsOneMore(s, argv, w);
      var rest;
      rest, more := ArgsSound(s, rr.pos, more2, argv + [w], rr.value, cmd, pos);
      parts := [Arg(s[w.q..w.eq])] + (intos + rest);
      MadeMore(s, argv, redirs, w, intos, rr.value, rest, parts, cmd);
      WrittenArg(s[w.q..w.eq], intos, rest, more);
    }
  }

  /** How many redirections come first. */
  function Leading(parts: seq<Part>): (n: nat)
    ensures n <= |parts| && Redirs(parts[..n]) && (n < |parts| ==> parts[n].Arg?)
  {
    if parts == [] || parts[0].Arg? then 0 else 1 + Leading(parts[1..])
  }

  lemma AfterIntos(rest: seq<Part>, more: seq<Tok>)
    requires (rest == [] || rest[0].Arg?) && Ended(more)
    ensures !Heads(Written(rest) + more, "<>") && (rest != [] ==> !Ended(Written(rest) + more))
    ensures rest != [] ==> (Written(rest) + more)[0] == Word(rest[0].w)
  {
    if rest == [] {
      assert Written(rest) + more == more;
    } else {
      assert (Written(rest) + more)[0] == Word(rest[0].w);
    }
  }

  lemma {:induction false} ArgsComplete(s: string, p: nat, toks: seq<Tok>, argv: seq<Span>, redirs: seq<Redirection>,
                                        parts: seq<Part>, more: seq<Tok>)
    returns (cmd: Cmd<Span>, pos: nat)
    requires Left(s, p, toks) && p <= |s| && InLine(s, argv) && InFiles(s, redirs)
    requires |argv| + |ArgsOf(parts)| < MAXARGS && (parts == [] || parts[0].Arg?)
    requires toks == Written(parts) + more && Ended(more)
    ensures ArgsAre(s, p, argv, redirs, Done(cmd, pos)) && Made(s, argv, redirs, parts, cmd)
    ensures p <= pos <= |s| && Left(s, pos, more)
    decreases |parts|
  {
    var r, w, pos1, more1, rr := ArgsStep(s, p, toks, argv, redirs);
    AfterIntos(parts, more);
    if parts == [] {
      assert toks == more;
      cmd, pos := Wrap(Exec(argv), redirs), pos1;
      MadeNone(s, argv, redirs);
    } else {
      var intos, rest, tail := SplitParts(parts, more);
      SameWord(s[w.q..w.eq], more1, parts[0].w, Written(intos) + tail);
      var redirs', pos2 := RedirsComplete(s, pos1, more1, redirs, intos, tail);
      assert rr == Done(redirs', pos2) by {
        assert Open(0);
      }
      ArgsOneMore(s, argv, w);
      cmd, pos := ArgsComplete(s, pos2, tail, argv + [w], redirs', rest, more);
      MadeMore(s, argv, redirs, w, intos, redirs', rest, parts, cmd);
      assert r == Done(cmd, pos) by {
        assert Open(0);
      }
    }
  }

  /** A word, the redirections after it, and the rest. */
  lemma SplitParts(parts: seq<Part>, more: seq<Tok>) returns (intos: seq<Part>, rest: seq<Part>, tail: seq<Tok>)
    requires parts != [] && parts[0].Arg? && Ended(more)
    ensures Redirs(intos) && (rest == [] || rest[0].Arg?) && parts == [parts[0]] + (intos + rest) && |rest| < |parts|
    ensures tail == Written(rest) + more && !Heads(tail, "<>")
    ensures Written(parts) + more == [Word(parts[0].w)] + (Written(intos) + tail)
    ensures |ArgsOf(parts)| == 1 + |ArgsOf(rest)|
  {
    intos, rest := TakeLeading(parts[1..]);
    tail := Written(rest) + more;
    assert parts == [parts[0]] + (intos + rest);
    WrittenArg(parts[0].w, intos, rest, more);
    ArgsAfter(parts[0].w, intos, rest);
    AfterIntos(rest, more);
  }

  lemma TakeLeading(parts: seq<Part>) returns (intos: seq<Part>, rest: seq<Part>)
    ensures Redirs(intos) && (rest == [] || rest[0].Arg?) && parts == intos + rest && |rest| <= |parts|
  {
    var n := Leading(parts);
    intos, rest := parts[..n], parts[n..];
  }

  // ---- the rules of the parser, on tokens

  ghost predicate ExecAre(s: string, p: nat, r: Parse<Cmd<Span>>) {
    forall u {:trigger Open(u)} :: Open(u) ==> p <= |s| && ParseExec(s, p) == r
  }

  ghost predicate BlockAre(s: string, p: nat, r: Parse<Cmd<Span>>) {
    forall u {:trigger Open(u)} :: Open(u) ==> p <= |s| && Peek(s, p, "(") && ParseBlock(s, p) == r
  }

  ghost predicate PipeAre(s: string, p: nat, r: Parse<Cmd<Span>>) {
    forall u {:trigger Open(u)} :: Open(u) ==> p <= |s| && ParsePipe(s, p) == r
  }

  ghost predicate BacksAre(s: string, p: nat, cmd: Cmd<Span>, r: Parse<Cmd<Span>>) {
    forall u {:trigger Open(u)} :: Open(u) ==> p <= |s| && ParseBacks(s, p, cmd) == r
  }

  ghost predicate LineAre(s: string, p: nat, r: Parse<Cmd<Span>>) {
    forall u {:trigger Open(u)} :: Open(u) ==> p <= |s| && ParseLine(s, p) == r
  }

  /** The token at p, if it is the symbol c. */
  lemma SymbolStep(s: string, p: nat, toks: seq<Tok>, c: char) returns (pos: nat)
    requires Left(s, p, toks) && c in "|;&()"
    ensures p <= pos <= |s|
    ensures if Heads(toks, [c]) then p < pos && Left(s, pos, toks[1..]) else Left(s, pos, toks)
    ensures Heads(toks, [c]) ==> toks == [Sym(c)] + toks[1..]
    ensures SymbolIs(s, p, toks, c, pos)
  {
    assert Open(0);
    PeekIs(s, p, [c]);
    NextIs(s, p);
    SkipSame(s, p);
    pos := if Peek(s, p, [c]) then GetToken(s, p).pos else Skip(s, p);
  }

  ghost predicate SymbolIs(s: string, p: nat, toks: seq<Tok>, c: char, pos: nat) {
    forall u {:trigger Open(u)} :: Open(u) ==>
      && p <= |s| && (Peek(s, p, [c]) <==> Heads(toks, [c]))
      && pos == if Peek(s, p, [c]) then GetToken(s, p).pos else Skip(s, p)
  }

  lemma ExecStep(s: string, p: nat, toks: seq<Tok>)
    returns (r: Parse<Cmd<Span>>, pos: nat, rr: Parse<seq<Redirection>>)
    requires Left(s, p, toks)
    ensures ExecAre(s, p, r) && p <= pos <= |s| && Left(s, pos, toks)
    ensures if Heads(toks, "(") then BlockAre(s, pos, r)
      else && RedirsAre(s, pos, [], rr) && (rr.Panic? ==> r == Panic)
           && (rr.Done? ==> ArgsAre(s, rr.pos, [], rr.value, r))
  {
    assert Open(0);
    PeekIs(s, p, "(");
    SkipSame(s, p);
    pos := Skip(s, p);
    r, rr := ParseExec(s, p), ParseRedirs(s, pos, []);
    if Heads(toks, "(") {
      assert Peek(s, pos, "(");
    }
  }

  lemma BlockStep(s: string, p: nat, toks: seq<Tok>)
    returns (r: Parse<Cmd<Span>>, pos: nat, rl: Parse<Cmd<Span>>)
    requires Left(s, p, toks) && Heads(toks, "(")
    ensures BlockAre(s, p, r) && p < pos <= |s| && Left(s, pos, toks[1..]) && toks == [Sym('(')] + toks[1..]
    ensures LineAre(s, pos, rl) && (rl.Panic? ==> r == Panic) && (rl.Done? ==> BlockRest(s, rl.value, rl.pos, r))
  {
    pos := SymbolStep(s, p, toks, '(');
    assert Open(0);
    r, rl := ParseBlock(s, p), ParseLine(s, pos);
  }

  /** What parseblock makes of what comes after the line in it. */
  ghost predicate BlockRest(s: string, cmd: Cmd<Span>, e: nat, r: Parse<Cmd<Span>>) {
    forall u {:trigger Open(u)} :: Open(u) ==>
      && e <= |s|
      && r == if !Peek(s, e, ")") then Panic
              else
                var rr := ParseRedirs(s, GetToken(s, e).pos, []);
                if rr.Panic? then Panic else Done(Wrap(cmd, rr.value), rr.pos)
  }

  lemma RestStep(s: string, cmd: Cmd<Span>, e: nat, toks: seq<Tok>, r: Parse<Cmd<Span>>)
    returns (pos: nat, rr: Parse<seq<Redirection>>)
    requires BlockRest(s, cmd, e, r) && Left(s, e, toks)
    ensures if !Heads(toks, ")") then r == Panic
      else && e < pos <= |s| && Left(s, pos, toks[1..]) && toks == [Sym(')')] + toks[1..] && RedirsAre(s, pos, [], rr)
           && r == if rr.Panic? then Panic else Done(Wrap(cmd, rr.value), rr.pos)
  {
    pos := SymbolStep(s, e, toks, ')');
    assert Open(0);
    rr := ParseRedirs(s, pos, []);
  }

  lemma PipeStep(s: string, p: nat, toks: seq<Tok>)
    returns (r: Parse<Cmd<Span>>, re: Parse<Cmd<Span>>)
    requires Left(s, p, toks)
    ensures PipeAre(s, p, r) && ExecAre(s, p, re)
    ensures (re.Panic? ==> r == Panic) && (re.Done? ==> PipeRest(s, re.value, re.pos, r))
  {
    assert Open(0);
    r, re := ParsePipe(s, p), ParseExec(s, p);
  }

  ghost predicate PipeRest(s: string, left: Cmd<Span>, e: nat, r: Parse<Cmd<Span>>) {
    forall u {:trigger Open(u)} :: Open(u) ==>
      && e <= |s|
      && r == if !Peek(s, e, "|") then Done(left, Skip(s, e))
              else
                var rp := ParsePipe(s, GetToken(s, e).pos);
                if rp.Panic? then Panic else Done(Pipe(left, rp.value), rp.pos)
  }

  lemma PipeRestStep(s: string, left: Cmd<Span>, e: nat, toks: seq<Tok>, r: Parse<Cmd<Span>>)
    returns (pos: nat, rp: Parse<Cmd<Span>>)
    requires PipeRest(s, left, e, r) && Left(s, e, toks)
    ensures e <= pos <= |s|
    ensures if !Heads(toks, "|") then r == Done(left, pos) && Left(s, pos, toks)
      else && e < pos && Left(s, pos, toks[1..]) && toks == [Sym('|')] + toks[1..] && PipeAre(s, pos, rp)
           && r == if rp.Panic? then Panic else Done(Pipe(left, rp.value), rp.pos)
  {
    pos := SymbolStep(s, e, toks, '|');
    assert Open(0);
    rp := ParsePipe(s, pos);
  }

  lemma BacksStep(s: string, p: nat, toks: seq<Tok>, cmd: Cmd<Span>) returns (r: Parse<Cmd<Span>>, pos: nat)
    requires Left(s, p, toks)
    ensures BacksAre(s, p, cmd, r) && p <= pos <= |s|
    ensures if !Heads(toks, "&") then r == Done(cmd, pos) && Left(s, pos, toks)
      else p < pos && Left(s, pos, toks[1..]) && toks == [Sym('&')] + toks[1..] && BacksAre(s, pos, Back(cmd), r)
  {
    pos := SymbolStep(s, p, toks, '&');
    assert Open(0);
    r := ParseBacks(s, p, cmd);
  }

  lemma LineStep(s: string, p: nat, toks: seq<Tok>)
    returns (r: Parse<Cmd<Span>>, rp: Parse<Cmd<Span>>, rb: Parse<Cmd<Span>>)
    requires Left(s, p, toks)
    ensures LineAre(s, p, r) && PipeAre(s, p, rp) && (rp.Panic? ==> r == Panic)
    ensures rp.Done? ==> rb.Done? && BacksAre(s, rp.pos, rp.value, rb) && LineRest(s, rb.value, rb.pos, r)
  {
    assert Open(0);
    r, rp := ParseLine(s, p), ParsePipe(s, p);
    rb := if rp.Done? then ParseBacks(s, rp.pos, rp.value) else Panic;
  }

  ghost predicate LineRest(s: string, first: Cmd<Span>, e: nat, r: Parse<Cmd<Span>>) {
    forall u {:trigger Open(u)} :: Open(u) ==>
      && e <= |s|
      && r == if !Peek(s, e, ";") then Done(first, Skip(s, e))
              else
                var rl := ParseLine(s, GetToken(s, e).pos);
                if rl.Panic? then Panic else Done(List(first, rl.value), rl.pos)
  }

  lemma LineRestStep(s: string, first: Cmd<Span>, e: nat, toks: seq<Tok>, r: Parse<Cmd<Span>>)
    returns (pos: nat, rl: Parse<Cmd<Span>>)
    requires LineRest(s, first, e, r) && Left(s, e, toks)
    ensures e <= pos <= |s|
    ensures if !Heads(toks, ";") then r == Done(first, pos) && Left(s, pos, toks)
      else && e < pos && Left(s, pos, toks[1..]) && toks == [Sym(';')] + toks[1..] && LineAre(s, pos, rl)
           && r == if rl.Panic? then Panic else Done(List(first, rl.value), rl.pos)
  {
    pos := SymbolStep(s, e, toks, ';');
    assert Open(0);
    rl := ParseLine(s, pos);
  }

  // ---- what the parser accepts is of the grammar

  /** cmd is the tree of x. */
  ghost predicate TreeIs(s: string, cmd: Cmd<Span>, x: Syntax) {
    Fit(s, cmd) && Words(s, cmd) == Tree(x)
  }

  lemma SimpleTree(s: string, redirs: seq<Redirection>, intos: seq<Part>, rest: seq<Part>, cmd: Cmd<Span>)
    requires Took(s, [], intos, redirs) && Made(s, [], redirs, rest, cmd)
    ensures TreeIs(s, cmd, Simple(intos + rest)) && ArgsOf(intos + rest) == ArgsOf(rest)
  {
    NoArgs(intos);
    ArgsCat(intos, rest);
    assert ArgsOf(intos) + ArgsOf(rest) == ArgsOf(rest) && Args(s, []) + ArgsOf(rest) == ArgsOf(rest);
    assert Files(s, []) + intos == intos;
  }

  lemma BlockTree(s: string, cmd: Cmd<Span>, body: Syntax, redirs: seq<Redirection>, intos: seq<Part>)
    requires Took(s, [], intos, redirs) && TreeIs(s, cmd, body)
    ensures TreeIs(s, Wrap(cmd, redirs), Block(body, intos))
  {
    WrapWords(s, cmd, redirs);
    assert Files(s, []) + intos == intos;
  }

  lemma SimplePrint(intos: seq<Part>, rest: seq<Part>, more: seq<Tok>)
    ensures Print(Simple(intos + rest)) + more == Written(intos) + (Written(rest) + more)
  {
    WrittenCat(intos, rest);
    Associate(Written(intos), Written(rest), more);
  }

  lemma Associate(a: seq<Tok>, b: seq<Tok>, c: seq<Tok>)
    ensures a + b + c == a + (b + c)
  {
  }

  lemma BlockPrint(body: Syntax, intos: seq<Part>, more: seq<Tok>)
    ensures Print(Block(body, intos)) + more == [Sym('(')] + (Print(body) + ([Sym(')')] + (Written(intos) + more)))
  {
    Reassociate([Sym('(')], Print(body), [Sym(')')], Written(intos), more);
  }

  lemma Reassociate(a: seq<Tok>, b: seq<Tok>, c: seq<Tok>, d: seq<Tok>, e: seq<Tok>)
    ensures a + b + c + d + e == a + (b + (c + (d + e)))
  {
  }

  lemma TwoPrint(a: seq<Tok>, c: char, b: seq<Tok>, more: seq<Tok>)
    ensures a + [Sym(c)] + b + more == a + ([Sym(c)] + (b + more))
  {
  }

  lemma {:induction false} ExecSound(s: string, p: nat, toks: seq<Tok>, cmd: Cmd<Span>, e: nat)
    returns (x: Syntax, more: seq<Tok>)
    requires Left(s, p, toks) && p <= |s| && ExecAre(s, p, Done(cmd, e))
    ensures IsExec(x) && TreeIs(s, cmd, x) && toks == Print(x) + more && p <= e <= |s| && Left(s, e, more)
    decreases |s| - p, 1
  {
    var r, pos, rr := ExecStep(s, p, toks);
    assert r == Done(cmd, e) by {
      assert Open(0);
    }
    if Heads(toks, "(") {
      x, more := BlockSound(s, pos, toks, cmd, e);
    } else {
      var intos, more1 := RedirsSound(s, pos, toks, [], rr.value, rr.pos);
      var rest;
      rest, more := ArgsSound(s, rr.pos, more1, [], rr.value, cmd, e);
      x := Simple(intos + rest);
      SimpleTree(s, rr.value, intos, rest, cmd);
      SimplePrint(intos, rest, more);
    }
  }

  lemma {:induction false} BlockSound(s: string, p: nat, toks: seq<Tok>, cmd: Cmd<Span>, e: nat)
    returns (x: Syntax, more: seq<Tok>)
    requires Left(s, p, toks) && p <= |s| && Heads(toks, "(") && BlockAre(s, p, Done(cmd, e))
    ensures IsExec(x) && TreeIs(s, cmd, x) && toks == Print(x) + more && p <= e <= |s| && Left(s, e, more)
    decreases |s| - p, 0
  {
    var r, pos, rl := BlockStep(s, p, toks);
    assert r == Done(cmd, e) by {
      assert Open(0);
    }
    var body, more1 := LineSound(s, pos, toks[1..], rl.value, rl.pos);
    var pos2, rr := RestStep(s, rl.value, rl.pos, more1, r);
    var intos;
    intos, more := RedirsSound(s, pos2, more1[1..], [], rr.value, rr.pos);
    x := Block(body, intos);
    BlockTree(s, rl.value, body, rr.value, intos);
    BlockPrint(body, intos, more);
  }

  lemma {:induction false} PipeSound(s: string, p: nat, toks: seq<Tok>, cmd: Cmd<Span>, e: nat)
    returns (x: Syntax, more: seq<Tok>)
    requires Left(s, p, toks) && p <= |s| && PipeAre(s, p, Done(cmd, e))
    ensures IsPipe(x) && TreeIs(s, cmd, x) && toks == Print(x) + more && p <= e <= |s| && Left(s, e, more)
    decreases |s| - p, 2
  {
    var r, re := PipeStep(s, p, toks);
    assert r == Done(cmd, e) by {
      assert Open(0);
    }
    var left, more1 := ExecSound(s, p, toks, re.value, re.pos);
    var pos, rp := PipeRestStep(s, re.value, re.pos, more1, r);
    if Heads(more1, "|") {
      var right;
      right, more := PipeSound(s, pos, more1[1..], rp.value, rp.pos);
      x := Piped(left, right);
      TwoPrint(Print(left), '|', Print(right), more);
    } else {
      x, more := left, more1;
    }
  }

  lemma {:induction false} BacksSound(s: string, p: nat, toks: seq<Tok>, first: Cmd<Span>, x0: Syntax, cmd: Cmd<Span>,
                                      e: nat)
    returns (x: Syntax, more: seq<Tok>)
    requires Left(s, p, toks) && p <= |s| && IsSent(x0) && TreeIs(s, first, x0)
    requires BacksAre(s, p, first, Done(cmd, e))
    ensures IsSent(x) && TreeIs(s, cmd, x) && Print(x0) + toks == Print(x) + more && p <= e <= |s| && Left(s, e, more)
    decreases |s| - p
  {
    var r, pos := BacksStep(s, p, toks, first);
    assert r == Done(cmd, e) by {
      assert Open(0);
    }
    if Heads(toks, "&") {
      x, more := BacksSound(s, pos, toks[1..], Back(first), Sent(x0), cmd, e);
      Associate(Print(x0), [Sym('&')], toks[1..]);
    } else {
      x, more := x0, toks;
    }
  }

  /** Whatever parseline accepts is a line of the grammar, and what it returns is its tree. */
  lemma {:induction false} LineSound(s: string, p: nat, toks: seq<Tok>, cmd: Cmd<Span>, e: nat)
    returns (x: Syntax, more: seq<Tok>)
    requires Left(s, p, toks) && p <= |s| && LineAre(s, p, Done(cmd, e))
    ensures IsLine(x) && TreeIs(s, cmd, x) && toks == Print(x) + more && p <= e <= |s| && Left(s, e, more)
    decreases |s| - p, 3
  {
    var r, rp, rb := LineStep(s, p, toks);
    assert r == Done(cmd, e) by {
      assert Open(0);
    }
    var x0, more0 := PipeSound(s, p, toks, rp.value, rp.pos);
    var left, more1 := BacksSound(s, rp.pos, more0, rp.value, x0, rb.value, rb.pos);
    var pos, rl := LineRestStep(s, rb.value, rb.pos, more1, r);
    if Heads(more1, ";") {
      var right;
      right, more := LineSound(s, pos, more1[1..], rl.value, rl.pos);
      x := Then(left, right);
      TwoPrint(Print(left), ';', Print(right), more);
    } else {
      x, more := left, more1;
    }
  }

  // ---- and it accepts all of the grammar

  lemma {:induction false} ExecComplete(s: string, p: nat, toks: seq<Tok>, x: Syntax, more: seq<Tok>)
    returns (cmd: Cmd<Span>, e: nat)
    requires Left(s, p, toks) && p <= |s| && IsExec(x) && toks == Print(x) + more && Ended(more)
    ensures ExecAre(s, p, Done(cmd, e)) && TreeIs(s, cmd, x) && p <= e <= |s| && Left(s, e, more)
    decreases x, 0
  {
    match x
    case Simple(parts) => cmd, e := SimpleComplete(s, p, toks, parts, more);
    case Block(body, intos) =>
      var r, pos, rr := ExecStep(s, p, toks);
      var tail := [Sym(')')] + (Written(intos) + more);
      BlockPrint(body, intos, more);
      SymFirst(toks, '(', Print(body) + tail);
      var r', pos1, rl := BlockStep(s, pos, toks);
      var c, e1 := LineComplete(s, pos1, toks[1..], body, tail);
      assert r' == r && rl == Done(c, e1) by {
        assert Open(0);
      }
      SymFirst(tail, ')', Written(intos) + more);
      var pos2, rr2 := RestStep(s, c, e1, tail, r);
      var redirs, e2 := RedirsComplete(s, pos2, tail[1..], [], intos, more);
      assert rr2 == Done(redirs, e2) by {
        assert Open(0);
      }
      cmd, e := Wrap(c, redirs), e2;
      BlockTree(s, c, body, redirs, intos);
  }

  lemma SymFirst(toks: seq<Tok>, c: char, rest: seq<Tok>)
    requires toks == [Sym(c)] + rest && c in "|;&()"
    ensures Heads(toks, [c]) && toks[1..] == rest
    ensures forall d :: d != c ==> !Heads(toks, [d])
  {
  }

  lemma SimpleComplete(s: string, p: nat, toks: seq<Tok>, parts: seq<Part>, more: seq<Tok>)
    returns (cmd: Cmd<Span>, e: nat)
    requires Left(s, p, toks) && p <= |s| && |ArgsOf(parts)| < MAXARGS && toks == Written(parts) + more && Ended(more)
    ensures ExecAre(s, p, Done(cmd, e)) && TreeIs(s, cmd, Simple(parts)) && p <= e <= |s| && Left(s, e, more)
  {
    var r, pos, rr := ExecStep(s, p, toks);
    var intos, rest := TakeLeading(parts);
    SimplePrint(intos, rest, more);
    AfterIntos(rest, more);
    NoBlock(intos, rest, more, toks);
    NoArgs(intos);
    ArgsCat(intos, rest);
    var redirs, pos1 := RedirsComplete(s, pos, toks, [], intos, Written(rest) + more);
    assert rr == Done(redirs, pos1) by {
      assert Open(0);
    }
    cmd, e := ArgsComplete(s, pos1, Written(rest) + more, [], redirs, rest, more);
    assert r == Done(cmd, e) by {
      assert Open(0);
    }
    SimpleTree(s, redirs, intos, rest, cmd);
  }

  lemma NoBlock(intos: seq<Part>, rest: seq<Part>, more: seq<Tok>, toks: seq<Tok>)
    requires Redirs(intos) && (rest == [] || rest[0].Arg?) && Ended(more)
    requires toks == Written(intos) + (Written(rest) + more)
    ensures !Heads(toks, "(")
  {
    if intos != [] {
      assert toks[0] == Toks(intos[0])[0];
    } else {
      assert toks == Written(rest) + more;
      AfterIntos(rest, more);
      assert rest == [] ==> toks == more;
    }
  }

  lemma {:induction false} PipeComplete(s: string, p: nat, toks: seq<Tok>, x: Syntax, more: seq<Tok>)
    returns (cmd: Cmd<Span>, e: nat)
    requires Left(s, p, toks) && p <= |s| && IsPipe(x) && toks == Print(x) + more && Ended(more) && !Heads(more, "|")
    ensures PipeAre(s, p, Done(cmd, e)) && TreeIs(s, cmd, x) && p <= e <= |s| && Left(s, e, more)
    decreases x, 1
  {
    var r, re := PipeStep(s, p, toks);
    if x.Piped? {
      var tail := [Sym('|')] + (Print(x.right) + more);
      TwoPrint(Print(x.left), '|', Print(x.right), more);
      SymFirst(tail, '|', Print(x.right) + more);
      var c, e1 := ExecComplete(s, p, toks, x.left, tail);
      assert re == Done(c, e1) by {
        assert Open(0);
      }
      var pos, rp := PipeRestStep(s, c, e1, tail, r);
      var c2, e2 := PipeComplete(s, pos, tail[1..], x.right, more);
      assert rp == Done(c2, e2) by {
        assert Open(0);
      }
      cmd, e := Pipe(c, c2), e2;
    } else {
      var c, e1 := ExecComplete(s, p, toks, x, more);
      assert re == Done(c, e1) by {
        assert Open(0);
      }
      var pos, rp := PipeRestStep(s, c, e1, more, r);
      cmd, e := c, pos;
    }
  }

  /** A pipe with some "&" after it: what comes of it after the ones that x has. */
  lemma {:induction false} SentComplete(s: string, p: nat, toks: seq<Tok>, x: Syntax, more: seq<Tok>)
    returns (first: Cmd<Span>, e1: nat, cmd: Cmd<Span>, e: nat)
    requires Left(s, p, toks) && p <= |s| && IsSent(x) && toks == Print(x) + more && Ended(more) && !Heads(more, "|")
    ensures PipeAre(s, p, Done(first, e1)) && TreeIs(s, cmd, x) && p <= e <= |s| && Left(s, e, more)
    ensures forall rb :: BacksAre(s, e, cmd, rb) ==> BacksAre(s, e1, first, rb)
    decreases x, 2
  {
    if x.Sent? {
      var tail := [Sym('&')] + more;
      Associate(Print(x.cmd), [Sym('&')], more);
      SymFirst(tail, '&', more);
      var c, e2;
      first, e1, c, e2 := SentComplete(s, p, toks, x.cmd, tail);
      var r, pos := BacksStep(s, e2, tail, c);
      cmd, e := Back(c), pos;
      forall rb | BacksAre(s, e, cmd, rb)
        ensures BacksAre(s, e1, first, rb)
      {
        assert rb == r by {
          assert Open(0);
        }
      }
    } else {
      first, e1 := PipeComplete(s, p, toks, x, more);
      cmd, e := first, e1;
    }
  }

  /** parseline accepts every line of the grammar. */
  lemma {:induction false} LineComplete(s: string, p: nat, toks: seq<Tok>, x: Syntax, more: seq<Tok>)
    returns (cmd: Cmd<Span>, e: nat)
    requires Left(s, p, toks) && p <= |s| && IsLine(x) && toks == Print(x) + more && (more == [] || Heads(more, ")"))
    ensures LineAre(s, p, Done(cmd, e)) && TreeIs(s, cmd, x) && p <= e <= |s| && Left(s, e, more)
    decreases x, 4
  {
    var r, rp, rb := LineStep(s, p, toks);
    if x.Then? {
      var tail := [Sym(';')] + (Print(x.right) + more);
      TwoPrint(Print(x.left), ';', Print(x.right), more);
      SymFirst(tail, ';', Print(x.right) + more);
      var c, e1 := LineFirst(s, p, toks, x.left, tail, r, rp, rb);
      var pos, rl := LineRestStep(s, c, e1, tail, r);
      var c2, e2 := LineComplete(s, pos, tail[1..], x.right, more);
      assert rl == Done(c2, e2) by {
        assert Open(0);
      }
      cmd, e := List(c, c2), e2;
    } else {
      var c, e1 := LineFirst(s, p, toks, x, more, r, rp, rb);
      var pos, rl := LineRestStep(s, c, e1, more, r);
      cmd, e := c, pos;
    }
  }

  lemma {:induction false} LineFirst(s: string, p: nat, toks: seq<Tok>, x: Syntax, more: seq<Tok>,
                                     r: Parse<Cmd<Span>>, rp: Parse<Cmd<Span>>, rb: Parse<Cmd<Span>>)
    returns (c: Cmd<Span>, e: nat)
    requires Left(s, p, toks) && p <= |s| && IsSent(x) && toks == Print(x) + more
    requires Ended(more) && !Heads(more, "|") && !Heads(more, "&") && PipeAre(s, p, rp)
    requires rp.Done? ==> rb.Done? && BacksAre(s, rp.pos, rp.value, rb) && LineRest(s, rb.value, rb.pos, r)
    ensures LineRest(s, c, e, r) && TreeIs(s, c, x) && p <= e <= |s| && Left(s, e, more)
    decreases x, 3
  {
    var first, e1, c0, e0 := SentComplete(s, p, toks, x, more);
    var r1, pos := BacksStep(s, e0, more, c0);
    assert rp == Done(first, e1) && rb == r1 by {
      assert Open(0);
    }
    c, e := c0, pos;
  }

  // ---- the parser is the grammar

  lemma AllLeft(s: string)
    requires NUL !in s
    ensures Left(s, 0, Lex(s, 0)) && Left(s, |s|, [])
  {
    LexNone(s, |s|);
  }

  /** parsecmd accepts a line exactly if it is written with the tokens of a line of the grammar,
      and then its tree, with the words of the line, is the tree of that line. */
  lemma ParsesExactly(s: string, t: Cmd<string>)
    requires NUL !in s
    ensures Gives(ParseCmd(s), s, t) <==> exists x :: Denotes(s, x, t)
  {
    if Gives(ParseCmd(s), s, t) {
      var x := Accepted(s, t);
    }
    if x :| Denotes(s, x, t) {
      Accepts(s, x, t);
    }
  }

  /** And it panics exactly if it is not written like that. */
  lemma PanicsExactly(s: string)
    requires NUL !in s
    ensures ParseCmd(s).Panic? <==> !exists x :: WrittenAs(s, x)
  {
    var r := ParseCmd(s);
    if r.Done? {
      var x := Fitted(s, r);
    }
    forall x | WrittenAs(s, x)
      ensures r.Done?
    {
      Accepts(s, x, Tree(x));
    }
  }

  lemma Fitted(s: string, r: Parse<Cmd<Span>>) returns (x: Syntax)
    requires NUL !in s && r == ParseCmd(s) && r.Done?
    ensures WrittenAs(s, x) && Gives(r, s, Tree(x))
  {
    AllLeft(s);
    var r1 := ParseLine(s, 0);
    var more;
    x, more := LineSound(s, 0, Lex(s, 0), r1.value, r1.pos);
    assert more == Lex(s, r1.pos) by {
      assert Open(0);
    }
    LexNone(s, r1.pos);
    LexSpells(s, 0);
    assert Print(x) + [] == Print(x);
  }

  /** The line is written with x, a line of the grammar; and its tree is t. */
  ghost predicate WrittenAs(s: string, x: Syntax) {
    IsLine(x) && Spells(s, 0, Print(x))
  }

  ghost predicate Denotes(s: string, x: Syntax, t: Cmd<string>) {
    WrittenAs(s, x) && Tree(x) == t
  }

  /** A parse, with the words of the line. */
  ghost predicate Gives(r: Parse<Cmd<Span>>, s: string, t: Cmd<string>) {
    r.Done? && Fit(s, r.value) && Words(s, r.value) == t
  }

  lemma Accepted(s: string, t: Cmd<string>) returns (x: Syntax)
    requires NUL !in s && Gives(ParseCmd(s), s, t)
    ensures Denotes(s, x, t)
  {
    x := Fitted(s, ParseCmd(s));
  }

  lemma Accepts(s: string, x: Syntax, t: Cmd<string>)
    requires NUL !in s && Denotes(s, x, t)
    ensures Gives(ParseCmd(s), s, t)
  {
    AllLeft(s);
    SpellsLex(s, 0, Print(x));
    assert Print(x) + [] == Print(x);
    var cmd, e := LineComplete(s, 0, Lex(s, 0), x, []);
    assert Open(0);
    LexNone(s, e);
    SkipBlanks(s, e, |s|);
  }
}
