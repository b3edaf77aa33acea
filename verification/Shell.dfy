/** user/sh.c: the shell's parser. A line is a C string without its final NUL; positions in it
    stand for the parser's pointers. */
module Shell {
  import opened Common

  const MAXARGS := 10
  const NUL := '\0'

  predicate White(c: char) { c == ' ' || c == '\t' || c == '\r' || c == '\n' || c == '\U{0b}' }

  predicate Symbol(c: char) { c == '<' || c == '|' || c == '>' || c == '&' || c == ';' || c == '(' || c == ')' }

  /** The character at p; NUL at the end. */
  function At(s: string, p: nat): char { if p < |s| then s[p] else NUL }

  /** A word of the line, from q up to eq. */
  datatype Span = Span(q: nat, eq: nat)

  datatype Mode = Read | Truncate | Append

  /** A command tree; its words are spans of the line or strings. */
  datatype Cmd<W> =
    | Exec(argv: seq<W>)
    | Redir(cmd: Cmd<W>, file: W, mode: Mode)
    | Pipe(left: Cmd<W>, right: Cmd<W>)
    | List(left: Cmd<W>, right: Cmd<W>)
    | Back(cmd: Cmd<W>)

  /** A panic, or a value and the position after it. */
  datatype Parse<T> = Panic | Done(value: T, pos: nat)

  // ---- tokens

  function Skip(s: string, p: nat): (r: nat)
    requires p <= |s|
    ensures p <= r <= |s| && !White(At(s, r)) && forall i :: p <= i < r ==> White(s[i])
    decreases |s| - p
  {
    if p < |s| && White(s[p]) then Skip(s, p + 1) else p
  }

  predicate WordChar(c: char) { !White(c) && !Symbol(c) && c != NUL }

  function WordEnd(s: string, p: nat): (r: nat)
    requires p <= |s|
    ensures p <= r <= |s| && !(r < |s| && !White(s[r]) && !Symbol(s[r]))
    ensures forall i :: p <= i < r ==> !White(s[i]) && !Symbol(s[i])
    decreases |s| - p
  {
    if p < |s| && !White(s[p]) && !Symbol(s[p]) then WordEnd(s, p + 1) else p
  }

  /** gettoken: its kind, the token, and the position after it and the blanks that follow. */
  datatype Token = Token(kind: char, q: nat, eq: nat, pos: nat)

  function GetToken(s: string, p: nat): (t: Token)
    requires p <= |s|
    ensures p <= t.q <= t.eq <= t.pos <= |s| && (t.kind != NUL ==> t.q < t.eq) && (t.kind == NUL <==> At(s, t.q) == NUL)
    ensures t.kind == 'a' ==> !Symbol(At(s, t.q)) && t.eq == WordEnd(s, t.q)
  {
    var q := Skip(s, p);
    var c := At(s, q);
    if c == NUL then Token(NUL, q, q, Skip(s, q))
    else if c == '>' then (
      if At(s, q + 1) == '>' then Token('+', q, q + 2, Skip(s, q + 2)) else Token('>', q, q + 1, Skip(s, q + 1)))
    else if Symbol(c) then Token(c, q, q + 1, Skip(s, q + 1))
    else Token('a', q, WordEnd(s, q), Skip(s, WordEnd(s, q)))
  }

  /** peek: whether the next character that is not blank is one of toks. */
  predicate Peek(s: string, p: nat, toks: string)
    requires p <= |s|
  {
    At(s, Skip(s, p)) != NUL && At(s, Skip(s, p)) in toks
  }

  /** A word: no blanks or symbols in it, and one of them, or the end, after it. */
  ghost predicate WordSpan(s: string, w: Span) {
    && w.q < w.eq <= |s| && (forall i :: w.q <= i < w.eq ==> !White(s[i]) && !Symbol(s[i]))
    && (w.eq < |s| ==> White(s[w.eq]) || Symbol(s[w.eq]))
  }

  ghost predicate WordSpans(s: string, cmd: Cmd<Span>) {
    match cmd
    case Exec(argv) => forall k :: 0 <= k < |argv| ==> WordSpan(s, argv[k])
    case Redir(c, file, _) => WordSpans(s, c) && WordSpan(s, file)
    case Pipe(l, r) => WordSpans(s, l) && WordSpans(s, r)
    case List(l, r) => WordSpans(s, l) && WordSpans(s, r)
    case Back(c) => WordSpans(s, c)
  }

  // ---- commands

  /** Redirections as they come in the line, around a command. */
  datatype Redirection = Redirection(file: Span, mode: Mode)

  ghost predicate FileSpans(s: string, redirs: seq<Redirection>) {
    forall k :: 0 <= k < |redirs| ==> WordSpan(s, redirs[k].file)
  }

  lemma {:induction false} WrapSpans(s: string, cmd: Cmd<Span>, redirs: seq<Redirection>)
    requires WordSpans(s, cmd) && FileSpans(s, redirs)
    ensures WordSpans(s, Wrap(cmd, redirs))
  {
    if redirs != [] {
      WrapSpans(s, cmd, redirs[..|redirs| - 1]);
    }
  }

  function Wrap(cmd: Cmd<Span>, redirs: seq<Redirection>): Cmd<Span> {
    if redirs == [] then cmd
    else Redir(Wrap(cmd, redirs[..|redirs| - 1]), redirs[|redirs| - 1].file, redirs[|redirs| - 1].mode)
  }

  function ModeOf(kind: char): Mode { if kind == '<' then Read else if kind == '>' then Truncate else Append }

  function ParseRedirs(s: string, p: nat, redirs: seq<Redirection>): (r: Parse<seq<Redirection>>)
    requires p <= |s|
    ensures r.Done? ==> p <= r.pos <= |s|
    decreases |s| - p
  {
    if !Peek(s, p, "<>") then Done(redirs, Skip(s, p))
    else
      var t := GetToken(s, Skip(s, p));
      var f := GetToken(s, t.pos);
      if f.kind != 'a' then Panic
      else ParseRedirs(s, f.pos, redirs + [Redirection(Span(f.q, f.eq), ModeOf(t.kind))])
  }

  /** parseexec's loop over arguments and redirections. */
  function ParseArgs(s: string, p: nat, argv: seq<Span>, redirs: seq<Redirection>): (r: Parse<Cmd<Span>>)
    requires p <= |s|
    ensures r.Done? ==> p <= r.pos <= |s|
    decreases |s| - p
  {
    if Peek(s, p, "|)&;") then Done(Wrap(Exec(argv), redirs), Skip(s, p))
    else
      var t := GetToken(s, Skip(s, p));
      if t.kind == NUL then Done(Wrap(Exec(argv), redirs), t.pos)
      else if t.kind != 'a' || |argv| + 1 >= MAXARGS then Panic
      else match ParseRedirs(s, t.pos, redirs)
        case Panic => Panic
        case Done(redirs', pos) => ParseArgs(s, pos, argv + [Span(t.q, t.eq)], redirs')
  }

  function ParseExec(s: string, p: nat): (r: Parse<Cmd<Span>>)
    requires p <= |s|
    ensures r.Done? ==> p <= r.pos <= |s|
    decreases |s| - p, 1
  {
    if Peek(s, p, "(") then ParseBlock(s, Skip(s, p))
    else match ParseRedirs(s, Skip(s, p), [])
      case Panic => Panic
      case Done(redirs, pos) => ParseArgs(s, pos, [], redirs)
  }

  function ParseBlock(s: string, p: nat): (r: Parse<Cmd<Span>>)
    requires p <= |s| && Peek(s, p, "(")
    ensures r.Done? ==> p <= r.pos <= |s|
    decreases |s| - p, 0
  {
    match ParseLine(s, GetToken(s, p).pos)
    case Panic => Panic
    case Done(cmd, pos) =>
      if !Peek(s, pos, ")") then Panic
      else match ParseRedirs(s, GetToken(s, pos).pos, [])
        case Panic => Panic
        case Done(redirs, pos') => Done(Wrap(cmd, redirs), pos')
  }

  function ParsePipe(s: string, p: nat): (r: Parse<Cmd<Span>>)
    requires p <= |s|
    ensures r.Done? ==> p <= r.pos <= |s|
    decreases |s| - p, 2
  {
    match ParseExec(s, p)
    case Panic => Panic
    case Done(left, pos) =>
      if !Peek(s, pos, "|") then Done(left, Skip(s, pos))
      else match ParsePipe(s, GetToken(s, pos).pos)
        case Panic => Panic
        case Done(right, pos') => Done(Pipe(left, right), pos')
  }

  /** parseline's loop over "&". */
  function ParseBacks(s: string, p: nat, cmd: Cmd<Span>): (r: Parse<Cmd<Span>>)
    requires p <= |s|
    ensures r.Done? && p <= r.pos <= |s|
    decreases |s| - p
  {
    if Peek(s, p, "&") then ParseBacks(s, GetToken(s, p).pos, Back(cmd)) else Done(cmd, Skip(s, p))
  }

  function ParseLine(s: string, p: nat): (r: Parse<Cmd<Span>>)
    requires p <= |s|
    ensures r.Done? ==> p <= r.pos <= |s|
    decreases |s| - p, 3
  {
    match ParsePipe(s, p)
    case Panic => Panic
    case Done(first, pos) =>
      var backs := ParseBacks(s, pos, first);
      if !Peek(s, backs.pos, ";") then Done(backs.value, Skip(s, backs.pos))
      else match ParseLine(s, GetToken(s, backs.pos).pos)
        case Panic => Panic
        case Done(rest, pos') => Done(List(backs.value, rest), pos')
  }

  /** parsecmd before nulterminate: all of the line, or a panic. */
  function ParseCmd(s: string): (r: Parse<Cmd<Span>>) {
    match ParseLine(s, 0)
    case Panic => Panic
    case Done(cmd, pos) => if Skip(s, pos) != |s| then Panic else Done(cmd, |s|)
  }

  // ---- every word of a parsed command is a word of the line

  lemma {:induction false} RedirsSpans(s: string, p: nat, redirs: seq<Redirection>)
    requires p <= |s| && FileSpans(s, redirs)
    ensures ParseRedirs(s, p, redirs).Done? ==> FileSpans(s, ParseRedirs(s, p, redirs).value)
    decreases |s| - p
  {
    if Peek(s, p, "<>") {
      var t := GetToken(s, Skip(s, p));
      var f := GetToken(s, t.pos);
      if f.kind == 'a' {
        RedirsSpans(s, f.pos, redirs + [Redirection(Span(f.q, f.eq), ModeOf(t.kind))]);
      }
    }
  }

  lemma {:induction false} ArgsSpans(s: string, p: nat, argv: seq<Span>, redirs: seq<Redirection>)
    requires p <= |s| && FileSpans(s, redirs) && WordSpans(s, Exec(argv))
    ensures ParseArgs(s, p, argv, redirs).Done? ==> WordSpans(s, ParseArgs(s, p, argv, redirs).value)
    decreases |s| - p
  {
    WrapSpans(s, Exec(argv), redirs);
    if !Peek(s, p, "|)&;") {
      var t := GetToken(s, Skip(s, p));
      if t.kind == 'a' && |argv| + 1 < MAXARGS {
        RedirsSpans(s, t.pos, redirs);
        match ParseRedirs(s, t.pos, redirs)
        case Panic =>
        case Done(redirs', pos) => ArgsSpans(s, pos, argv + [Span(t.q, t.eq)], redirs');
      }
    }
  }

  lemma {:induction false} BacksSpans(s: string, p: nat, cmd: Cmd<Span>)
    requires p <= |s| && WordSpans(s, cmd)
    ensures WordSpans(s, ParseBacks(s, p, cmd).value)
    decreases |s| - p
  {
    if Peek(s, p, "&") {
      BacksSpans(s, GetToken(s, p).pos, Back(cmd));
    }
  }

  lemma {:induction false} BlockSpans(s: string, p: nat)
    requires p <= |s| && Peek(s, p, "(")
    ensures ParseBlock(s, p).Done? ==> WordSpans(s, ParseBlock(s, p).value)
    decreases |s| - p, 0
  {
    var pos := GetToken(s, p).pos;
    LineSpans(s, pos);
    match ParseLine(s, pos)
    case Panic =>
    case Done(cmd, e) =>
      if Peek(s, e, ")") {
        var e' := GetToken(s, e).pos;
        RedirsSpans(s, e', []);
        match ParseRedirs(s, e', [])
        case Panic =>
        case Done(redirs, _) => WrapSpans(s, cmd, redirs);
      }
  }

  lemma {:induction false} ExecSpans(s: string, p: nat)
    requires p <= |s|
    ensures ParseExec(s, p).Done? ==> WordSpans(s, ParseExec(s, p).value)
    decreases |s| - p, 1
  {
    if Peek(s, p, "(") {
      BlockSpans(s, Skip(s, p));
    } else {
      RedirsSpans(s, Skip(s, p), []);
      match ParseRedirs(s, Skip(s, p), [])
      case Panic =>
      case Done(redirs, pos) => ArgsSpans(s, pos, [], redirs);
    }
  }

  lemma {:induction false} PipeSpans(s: string, p: nat)
    requires p <= |s|
    ensures ParsePipe(s, p).Done? ==> WordSpans(s, ParsePipe(s, p).value)
    decreases |s| - p, 2
  {
    ExecSpans(s, p);
    match ParseExec(s, p)
    case Panic =>
    case Done(left, pos) =>
      if Peek(s, pos, "|") {
        PipeSpans(s, GetToken(s, pos).pos);
      }
  }

  /** Every word of the tree that parseline makes is a word of the line. */
  lemma {:induction false} LineSpans(s: string, p: nat)
    requires p <= |s|
    ensures ParseLine(s, p).Done? ==> WordSpans(s, ParseLine(s, p).value)
    decreases |s| - p, 3
  {
    PipeSpans(s, p);
    match ParsePipe(s, p)
    case Panic =>
    case Done(first, pos) =>
      BacksSpans(s, pos, first);
      var backs := ParseBacks(s, pos, first);
      if Peek(s, backs.pos, ";") {
        LineSpans(s, GetToken(s, backs.pos).pos);
      }
  }

  // ---- text that parses back

  predicate ValidWord(w: string) { w != "" && forall i :: 0 <= i < |w| ==> WordChar(w[i]) }

  ghost predicate ValidTree(t: Cmd<string>) {
    match t
    case Exec(argv) => |argv| < MAXARGS && forall k :: 0 <= k < |argv| ==> ValidWord(argv[k])
    case Redir(c, file, _) => ValidTree(c) && ValidWord(file)
    case Pipe(l, r) => ValidTree(l) && ValidTree(r)
    case List(l, r) => ValidTree(l) && ValidTree(r)
    case Back(c) => ValidTree(c)
  }

  function Sign(m: Mode): string { match m case Read => "<" case Truncate => ">" case Append => ">>" }

  function Join(argv: seq<string>): string {
    if argv == [] then "" else if |argv| == 1 then argv[0] else argv[0] + " " + Join(argv[1..])
  }

  /** The text of a tree, with parentheses around every part. */
  function Text(t: Cmd<string>): string {
    match t
    case Exec(argv) => Join(argv)
    case Redir(c, file, mode) => "(" + Text(c) + ")" + Sign(mode) + file
    case Pipe(l, r) => "(" + Text(l) + ")" + "|" + "(" + Text(r) + ")"
    case List(l, r) => "(" + Text(l) + ")" + ";" + "(" + Text(r) + ")"
    case Back(c) => "(" + Text(c) + ")" + "&"
  }

  ghost predicate Fit(s: string, cmd: Cmd<Span>) {
    match cmd
    case Exec(argv) => forall k :: 0 <= k < |argv| ==> argv[k].q <= argv[k].eq <= |s|
    case Redir(c, file, _) => Fit(s, c) && file.q <= file.eq <= |s|
    case Pipe(l, r) => Fit(s, l) && Fit(s, r)
    case List(l, r) => Fit(s, l) && Fit(s, r)
    case Back(c) => Fit(s, c)
  }

  ghost function Args(s: string, argv: seq<Span>): (a: seq<string>)
    requires forall k :: 0 <= k < |argv| ==> argv[k].q <= argv[k].eq <= |s|
    ensures |a| == |argv| && forall k :: 0 <= k < |a| ==> a[k] == s[argv[k].q..argv[k].eq]
  {
    if argv == [] then [] else Args(s, argv[..|argv| - 1]) + [s[argv[|argv| - 1].q..argv[|argv| - 1].eq]]
  }

  /** The tree with the strings that its words span. */
  ghost function Words(s: string, cmd: Cmd<Span>): Cmd<string>
    requires Fit(s, cmd)
  {
    match cmd
    case Exec(argv) => Exec(Args(s, argv))
    case Redir(c, file, mode) => Redir(Words(s, c), s[file.q..file.eq], mode)
    case Pipe(l, r) => Pipe(Words(s, l), Words(s, r))
    case List(l, r) => List(Words(s, l), Words(s, r))
    case Back(c) => Back(Words(s, c))
  }

  /** t stands at position p of s. */
  predicate Occurs(s: string, p: nat, t: string) {
    p + |t| <= |s| && forall i :: 0 <= i < |t| ==> s[p + i] == t[i]
  }

  lemma NoSkip(s: string, p: nat)
    requires p <= |s| && !White(At(s, p))
    ensures Skip(s, p) == p
  {
  }

  lemma {:induction false} EndOfWord(s: string, p: nat, e: nat)
    requires p <= e <= |s| && (forall i :: p <= i < e ==> WordChar(s[i])) && (e < |s| ==> White(s[e]) || Symbol(s[e]))
    ensures WordEnd(s, p) == e
    decreases e - p
  {
    if p < e {
      EndOfWord(s, p + 1, e);
    }
  }

  /** Parts of a text that occurs. */
  lemma OccursPart(s: string, p: nat, a: string, b: string)
    requires Occurs(s, p, a + b)
    ensures Occurs(s, p, a) && Occurs(s, p + |a|, b)
  {
    var t := a + b;
    assert forall i :: 0 <= i < |a| ==> t[i] == a[i];
    forall i | 0 <= i < |b|
      ensures s[p + |a| + i] == b[i]
    {
      assert t[|a| + i] == b[i];
    }
  }

  ghost predicate InLine(s: string, argv: seq<Span>) {
    forall k :: 0 <= k < |argv| ==> argv[k].q <= argv[k].eq <= |s|
  }

  lemma ArgsOneMore(s: string, got: seq<Span>, w: Span)
    requires InLine(s, got) && w.q <= w.eq <= |s|
    ensures InLine(s, got + [w]) && Args(s, got + [w]) == Args(s, got) + [s[w.q..w.eq]]
  {
    assert (got + [w])[..|got|] == got;
  }
}
