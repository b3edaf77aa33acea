/** user/sh.c: the parser at work on its buffer, with the cursor it shares between its
    procedures, and nulterminate, which ends the words of the buffer in place. */
module ShellParser {
  import opened Shell
  import G = ShellGrammar
  import T = ShellText

  // ---- the words of the buffer after nulterminate

  /** Where the words of a command end. */
  ghost function Ends(cmd: Cmd<Span>): set<nat> {
    match cmd
    case Exec(argv) => set k | 0 <= k < |argv| :: argv[k].eq
    case Redir(c, file, _) => Ends(c) + {file.eq}
    case Pipe(l, r) => Ends(l) + Ends(r)
    case List(l, r) => Ends(l) + Ends(r)
    case Back(c) => Ends(c)
  }

  /** The buffer holds the line s, as a C string. */
  ghost predicate Holds(b: seq<char>, s: string) {
    |s| < |b| && b[..|s|] == s && b[|s|] == NUL && NUL !in s
  }

  /** b' is b with NULs at the given positions. */
  ghost predicate Cut(b: seq<char>, b': seq<char>, ends: set<nat>) {
    |b'| == |b| && forall i :: 0 <= i < |b| ==> b'[i] == if i in ends then NUL else b[i]
  }

  /** The C string that starts at q. */
  function CString(b: seq<char>, q: nat): string
    decreases |b| - q
  {
    if q >= |b| || b[q] == NUL then "" else [b[q]] + CString(b, q + 1)
  }

  ghost function CStrings(b: seq<char>, argv: seq<Span>): (a: seq<string>)
    ensures |a| == |argv| && forall k :: 0 <= k < |a| ==> a[k] == CString(b, argv[k].q)
  {
    if argv == [] then [] else CStrings(b, argv[..|argv| - 1]) + [CString(b, argv[|argv| - 1].q)]
  }

  /** The tree with the C strings that start where its words start: what runcmd sees. */
  ghost function Strings(b: seq<char>, cmd: Cmd<Span>): Cmd<string> {
    match cmd
    case Exec(argv) => Exec(CStrings(b, argv))
    case Redir(c, file, mode) => Redir(Strings(b, c), CString(b, file.q), mode)
    case Pipe(l, r) => Pipe(Strings(b, l), Strings(b, r))
    case List(l, r) => List(Strings(b, l), Strings(b, r))
    case Back(c) => Back(Strings(b, c))
  }

  /** Positions where no word of s can go on. */
  ghost predicate Breaks(s: string, ends: set<nat>) {
    forall e :: e in ends ==> e <= |s| && (e < |s| ==> White(s[e]) || Symbol(s[e]))
  }

  lemma {:induction false} EndsBreak(s: string, cmd: Cmd<Span>)
    requires WordSpans(s, cmd)
    ensures Breaks(s, Ends(cmd)) && Fit(s, cmd)
  {
    match cmd
    case Exec(argv) =>
    case Redir(c, file, _) => EndsBreak(s, c);
    case Pipe(l, r) => EndsBreak(s, l); EndsBreak(s, r);
    case List(l, r) => EndsBreak(s, l); EndsBreak(s, r);
    case Back(c) => EndsBreak(s, c);
  }

  lemma {:induction false} CStringIs(b: seq<char>, q: nat, eq: nat)
    requires q <= eq < |b| && b[eq] == NUL && forall i :: q <= i < eq ==> b[i] != NUL
    ensures CString(b, q) == b[q..eq]
    decreases eq - q
  {
    if q < eq {
      CStringIs(b, q + 1, eq);
      assert b[q..eq] == [b[q]] + b[q + 1..eq];
    }
  }

  /** A word whose end was cut, with all other cuts at breaks, reads back. */
  lemma WordReadsBack(s: string, b0: seq<char>, b: seq<char>, ends: set<nat>, w: Span)
    requires Holds(b0, s) && Cut(b0, b, ends) && Breaks(s, ends) && WordSpan(s, w) && w.eq in ends
    ensures CString(b, w.q) == s[w.q..w.eq]
  {
    forall i | w.q <= i < w.eq
      ensures b[i] == s[i] && b[i] != NUL
    {
      assert b0[..|s|][i] == s[i] && s[i] in s;
    }
    CStringIs(b, w.q, w.eq);
    assert b[w.q..w.eq] == s[w.q..w.eq];
  }

  lemma {:induction false} TreeReadsBack(s: string, b0: seq<char>, b: seq<char>, ends: set<nat>, cmd: Cmd<Span>)
    requires
      && Holds(b0, s) && Cut(b0, b, ends) && Breaks(s, ends) && WordSpans(s, cmd) && Ends(cmd) <= ends && Fit(s, cmd)
    ensures Strings(b, cmd) == Words(s, cmd)
  {
    match cmd
    case Exec(argv) =>
      forall k | 0 <= k < |argv|
        ensures CStrings(b, argv)[k] == Args(s, argv)[k]
      {
        WordReadsBack(s, b0, b, ends, argv[k]);
      }
      assert CStrings(b, argv) == Args(s, argv);
    case Redir(c, file, _) =>
      TreeReadsBack(s, b0, b, ends, c);
      WordReadsBack(s, b0, b, ends, file);
    case Pipe(l, r) =>
      TreeReadsBack(s, b0, b, ends, l);
      TreeReadsBack(s, b0, b, ends, r);
    case List(l, r) =>
      TreeReadsBack(s, b0, b, ends, l);
      TreeReadsBack(s, b0, b, ends, r);
    case Back(c) => TreeReadsBack(s, b0, b, ends, c);
  }

  /** After nulterminate the C strings of a parsed tree are exactly the words it was parsed to:
      no NUL falls inside another word. */
  lemma ReadsBack(s: string, b0: seq<char>, b: seq<char>)
    requires Holds(b0, s) && ParseCmd(s).Done? && Cut(b0, b, Ends(ParseCmd(s).value))
    ensures Fit(s, ParseCmd(s).value) && Strings(b, ParseCmd(s).value) == Words(s, ParseCmd(s).value)
  {
    var cmd := ParseCmd(s).value;
    LineSpans(s, 0);
    EndsBreak(s, cmd);
    TreeReadsBack(s, b0, b, Ends(cmd), cmd);
  }

  /** nulterminate. */
  method Nulterminate(buf: array<char>, cmd: Cmd<Span>)
    requires forall e :: e in Ends(cmd) ==> e < buf.Length
    modifies buf
    ensures Cut(old(buf[..]), buf[..], Ends(cmd))
    decreases cmd
  {
    match cmd
    case Exec(argv) =>
      for i := 0 to |argv|
        invariant forall j :: 0 <= j < buf.Length ==>
          buf[j] == if exists k :: 0 <= k < i && argv[k].eq == j then NUL else old(buf[j])
      {
        assert argv[i].eq in Ends(cmd);
        buf[argv[i].eq] := NUL;
      }
    case Redir(c, file, _) =>
      assert Ends(cmd) == Ends(c) + {file.eq};
      Nulterminate(buf, c);
      buf[file.eq] := NUL;
    case Pipe(l, r) =>
      assert Ends(cmd) == Ends(l) + Ends(r);
      Nulterminate(buf, l);
      Nulterminate(buf, r);
    case List(l, r) =>
      assert Ends(cmd) == Ends(l) + Ends(r);
      Nulterminate(buf, l);
      Nulterminate(buf, r);
    case Back(c) =>
      assert Ends(cmd) == Ends(c);
      Nulterminate(buf, c);
  }

  // ---- the parser

  class Parser {
    const buf: array<char>
    const es: nat
    /** The line before nulterminate. */
    ghost const line: string
    var ps: nat

    ghost predicate Valid()
      reads this, buf
    {
      Holds(buf[..], line) && |line| == es && ps <= es
    }

    /** parsecmd's start: es is where the C string ends. */
    constructor (b: array<char>)
      requires NUL in b[..]
      ensures Valid() && fresh(this) && buf == b && ps == 0 && line == CString(b[..], 0)
      ensures b[..] == old(b[..])
    {
      var n := 0;
      while b[n] != NUL
        invariant n < b.Length && NUL !in b[..n]
        decreases b.Length - n
      {
        n := n + 1;
      }
      CStringIs(b[..], 0, n);
      buf, es, line, ps := b, n, b[..n], 0;
    }

    /** The loop over blanks. */
    method SkipBlanks(p: nat) returns (q: nat)
      requires Valid() && p <= es
      ensures q == Skip(line, p)
    {
      q := p;
      while q < es && White(buf[q])
        invariant p <= q <= es && Skip(line, q) == Skip(line, p)
      {
        assert buf[q] == buf[..][q] == line[q];
        q := q + 1;
      }
      assert q < es ==> buf[q] == line[q];
    }

    /** gettoken. */
    method Gettoken() returns (t: Token)
      requires Valid()
      modifies `ps
      ensures Valid() && t == GetToken(line, old(ps)) && ps == t.pos
    {
      var q := SkipBlanks(ps);
      var s := q;
      var ret := buf[s];
      Reads(q);
      if ret == NUL {
      } else if ret == '|' || ret == '(' || ret == ')' || ret == ';' || ret == '&' || ret == '<' {
        s := s + 1;
      } else if ret == '>' {
        s := s + 1;
        Reads(s);
        if buf[s] == '>' {
          ret := '+';
          s := s + 1;
        }
      } else {
        ret := 'a';
        s := SkipWord(s);
      }
      var eq := s;
      ps := SkipBlanks(s);
      t := Token(ret, q, eq, ps);
    }

    /** The loop over the characters of a word. */
    method SkipWord(p: nat) returns (q: nat)
      requires Valid() && p <= es
      ensures q == WordEnd(line, p)
    {
      q := p;
      while q < es && !White(buf[q]) && !Symbol(buf[q])
        invariant p <= q <= es && WordEnd(line, q) == WordEnd(line, p)
      {
        Reads(q);
        q := q + 1;
      }
      Reads(q);
    }

    lemma Reads(q: nat)
      requires Valid() && q <= es
      ensures buf[q] == At(line, q)
      ensures q < es ==> buf[q] != NUL
    {
      if q < es {
        assert buf[q] == buf[..][..es][q] && line[q] in line;
      }
    }

    /** peek. */
    method Peeks(toks: string) returns (yes: bool)
      requires Valid()
      modifies `ps
      ensures Valid() && yes == Peek(line, old(ps), toks) && ps == Skip(line, old(ps))
    {
      ps := SkipBlanks(ps);
      Reads(ps);
      yes := buf[ps] != NUL && buf[ps] in toks;
    }

    lemma TokenSkips(p: nat, q: nat)
      requires p <= |line| && q == Skip(line, p)
      ensures q <= |line| && GetToken(line, q) == GetToken(line, p)
    {
    }

    /** parseredirs; redirs are those already around the command. */
    method Parseredirs(redirs: seq<Redirection>) returns (r: Parse<seq<Redirection>>)
      requires Valid()
      modifies `ps
      ensures Valid() && r == ParseRedirs(line, old(ps), redirs) && (r.Done? ==> ps == r.pos)
    {
      var all := redirs;
      var more := Peeks("<>");
      while more
        invariant Valid() && SkipsTo(ps) && more == Peek(line, ps, "<>")
        invariant ParseRedirs(line, ps, all) == ParseRedirs(line, old(ps), redirs)
        decreases es - ps, more
      {
        var t := Gettoken();
        var f := Gettoken();
        if f.kind != 'a' {
          return Panic;
        }
        all := all + [Redirection(Span(f.q, f.eq), ModeOf(t.kind))];
        more := Peeks("<>");
      }
      r := Done(all, ps);
    }

    /** The cursor is past the blanks. */
    ghost predicate SkipsTo(p: nat) {
      p <= |line| && Skip(line, p) == p
    }

    /** parseexec. */
    method Parseexec() returns (r: Parse<Cmd<Span>>)
      requires Valid()
      modifies `ps
      ensures Valid() && r == ParseExec(line, old(ps)) && (r.Done? ==> ps == r.pos)
      decreases es - ps, 1
    {
      var block := Peeks("(");
      if block {
        r := Parseblock();
        return;
      }
      var first := Parseredirs([]);
      if first.Panic? {
        return Panic;
      }
      r := Parseargs(first.value);
    }

    /** parseexec's loop. */
    method Parseargs(redirs: seq<Redirection>) returns (r: Parse<Cmd<Span>>)
      requires Valid()
      modifies `ps
      ensures Valid() && r == ParseArgs(line, old(ps), [], redirs) && (r.Done? ==> ps == r.pos)
    {
      var argv: seq<Span>, all := [], redirs;
      while true
        invariant Valid() && ParseArgs(line, ps, argv, all) == ParseArgs(line, old(ps), [], redirs)
        decreases es - ps
      {
        var stop := Peeks("|)&;");
        if stop {
          break;
        }
        var t := Gettoken();
        if t.kind == NUL {
          break;
        }
        if t.kind != 'a' {
          return Panic;
        }
        argv := argv + [Span(t.q, t.eq)];
        if |argv| >= MAXARGS {
          return Panic;
        }
        var more := Parseredirs(all);
        if more.Panic? {
          return Panic;
        }
        all := more.value;
      }
      r := Done(Wrap(Exec(argv), all), ps);
    }

    /** parseblock, where peek has seen "(". */
    method Parseblock() returns (r: Parse<Cmd<Span>>)
      requires Valid() && Peek(line, ps, "(")
      modifies `ps
      ensures Valid() && r == ParseBlock(line, old(ps)) && (r.Done? ==> ps == r.pos)
      decreases es - ps, 0
    {
      var t := Gettoken();
      var inner := Parseline();
      if inner.Panic? {
        return Panic;
      }
      ghost var e := ps;
      var closed := Peeks(")");
      if !closed {
        return Panic;
      }
      TokenSkips(e, ps);
      t := Gettoken();
      var redirs := Parseredirs([]);
      if redirs.Panic? {
        return Panic;
      }
      r := Done(Wrap(inner.value, redirs.value), ps);
    }

    /** parsepipe. */
    method Parsepipe() returns (r: Parse<Cmd<Span>>)
      requires Valid()
      modifies `ps
      ensures Valid() && r == ParsePipe(line, old(ps)) && (r.Done? ==> ps == r.pos)
      decreases es - ps, 2
    {
      r := Parseexec();
      if r.Panic? {
        return;
      }
      ghost var e := ps;
      var more := Peeks("|");
      if !more {
        return Done(r.value, ps);
      }
      TokenSkips(e, ps);
      var t := Gettoken();
      var right := Parsepipe();
      r := if right.Panic? then Panic else Done(Pipe(r.value, right.value), ps);
    }

    lemma BacksFrom(p: nat, q: nat, cmd: Cmd<Span>)
      requires p <= |line| && q == Skip(line, p)
      ensures q <= |line| && ParseBacks(line, q, cmd) == ParseBacks(line, p, cmd)
      ensures Peek(line, q, "&") == Peek(line, p, "&")
    {
      TokenSkips(p, q);
    }

    /** parseline's loop over "&". */
    method Parsebacks(cmd: Cmd<Span>) returns (r: Cmd<Span>)
      requires Valid()
      modifies `ps
      ensures Valid() && Done(r, ps) == ParseBacks(line, old(ps), cmd)
    {
      r := cmd;
      var more := Peeks("&");
      BacksFrom(old(ps), ps, cmd);
      while more
        invariant Valid() && SkipsTo(ps) && more == Peek(line, ps, "&")
        invariant ParseBacks(line, ps, r) == ParseBacks(line, old(ps), cmd)
        decreases es - ps, more
      {
        var t := Gettoken();
        r := Back(r);
        ghost var p := ps;
        more := Peeks("&");
        BacksFrom(p, ps, r);
      }
    }

    /** parseline. */
    method Parseline() returns (r: Parse<Cmd<Span>>)
      requires Valid()
      modifies `ps
      ensures Valid() && r == ParseLine(line, old(ps)) && (r.Done? ==> ps == r.pos)
      decreases es - ps, 3
    {
      r := Parsepipe();
      if r.Panic? {
        return;
      }
      var cmd := Parsebacks(r.value);
      ghost var e := ps;
      var more := Peeks(";");
      if !more {
        return Done(cmd, ps);
      }
      TokenSkips(e, ps);
      var t := Gettoken();
      var rest := Parseline();
      r := if rest.Panic? then Panic else Done(List(cmd, rest.value), ps);
    }
  }

  /** parsecmd: it panics exactly if no line of the grammar is written like this; otherwise the
      tree, with the C strings that it points to in the buffer it leaves, is the tree of such a
      line. */
  method Parsecmd(buf: array<char>) returns (r: Parse<Cmd<Span>>)
    requires NUL in buf[..]
    modifies buf
    ensures r == ParseCmd(CString(old(buf[..]), 0))
    ensures r.Done? ==>
        Fit(CString(old(buf[..]), 0), r.value) && Strings(buf[..], r.value) == Words(CString(old(buf[..]), 0), r.value)
    ensures r.Done? ==> Cut(old(buf[..]), buf[..], Ends(r.value))
    ensures r.Done? ==> exists x :: G.Denotes(CString(old(buf[..]), 0), x, Strings(buf[..], r.value))
    ensures r.Panic? ==>
      buf[..] == old(buf[..]) && !exists x :: G.WrittenAs(CString(old(buf[..]), 0), x)
  {
    ghost var line := CString(buf[..], 0);
    CStringPlain(buf[..], 0);
    G.PanicsExactly(line);
    var p := new Parser(buf);
    r := p.Parseline();
    if r.Panic? {
      return;
    }
    var any := p.Peeks("");
    if p.ps != p.es {
      return Panic;
    }
    r := Done(r.value, p.es);
    LineSpans(p.line, 0);
    EndsBreak(p.line, r.value);
    Nulterminate(buf, r.value);
    ReadsBack(p.line, old(buf[..]), buf[..]);
    G.ParsesExactly(line, Strings(buf[..], r.value));
  }

  lemma {:induction false} CStringPlain(b: seq<char>, q: nat)
    ensures NUL !in CString(b, q)
    decreases |b| - q
  {
    if q < |b| && b[q] != NUL {
      CStringPlain(b, q + 1);
    }
  }

  /** The whole round trip: a buffer with the text of a tree, parsed and cut by nulterminate,
      gives that tree of C strings. */
  lemma TextReadsBack(t: Cmd<string>, b: seq<char>)
    requires ValidTree(t) && (ParseCmd(Text(t)).Done? ==> Cut(Text(t) + [NUL], b, Ends(ParseCmd(Text(t)).value)))
    ensures ParseCmd(Text(t)).Done? && Strings(b, ParseCmd(Text(t)).value) == t
  {
    T.RoundTrip(t);
    T.TextPlain(t);
    assert (Text(t) + [NUL])[..|Text(t)|] == Text(t);
    ReadsBack(Text(t), Text(t) + [NUL], b);
  }
}
