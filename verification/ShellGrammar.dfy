/**
  The language the shell accepts, written as a grammar over tokens, and the proof that the parser takes exactly the
  lines of that language, with any white space between the tokens, to their trees.
 */
module ShellGrammar {
  import opened Shell
  import opened ShellPrint

  // ---------------------------------------------------------------- tokens

  const WHITESPACE := " \t\r\n\U{000b}"
  const SYMBOLS := "<|>&;()"

  datatype Lexeme = W(text: string) | S(c: char) | Append2

  function KindOf(l: Lexeme): Tok {
    match l
    case W(_) => Word
    case S(c) => Sym(c)
    case Append2 => Twice
  }

  /** From p on, the line consists of exactly these tokens. */
  ghost predicate Reads(t: string, p: nat, ls: seq<Lexeme>)
    requires IsLine(t) && p <= |t|
    decreases |ls|
  {
    var k := GetToken(t, p);
    if ls == [] then k.tok == End
    else && k.tok == KindOf(ls[0]) && (ls[0].W? ==> Text(t, Span(k.q, k.eq)) == ls[0].text)
         && Reads(t, k.next, ls[1..])
  }

  /** The first character of a token is one of these symbols. */
  predicate Starts(ls: seq<Lexeme>, cs: set<char>) {
    ls != [] && match ls[0]
      case W(_) => false
      case S(c) => c in cs
      case Append2 => '>' in cs
  }

  lemma PeekReads(t: string, p: nat, ls: seq<Lexeme>, cs: set<char>)
    requires IsLine(t) && p <= |t| && Reads(t, p, ls) && forall c :: c in cs ==> Symbol(c)
    ensures Peek(t, p, cs) <==> Starts(ls, cs)
  {}

  lemma {:induction false} SkipTwice(t: string, p: nat)
    requires p <= |t|
    ensures SkipWhite(t, SkipWhite(t, p)) == SkipWhite(t, p)
    decreases |t| - p
  {
    if p < |t| && White(t[p]) {
      SkipTwice(t, p + 1);
    }
  }

  lemma SameToken(t: string, p: nat)
    requires IsLine(t) && p <= |t|
    ensures GetToken(t, SkipWhite(t, p)) == GetToken(t, p)
  {
    SkipTwice(t, p);
  }

  lemma ReadsSkip(t: string, p: nat, q: nat, ls: seq<Lexeme>)
    requires IsLine(t) && p <= |t| && Reads(t, p, ls) && q == SkipWhite(t, p)
    ensures Reads(t, q, ls)
  {
    SameToken(t, p);
  }

  lemma ReadsNext(t: string, p: nat, l: Lexeme, ls: seq<Lexeme>)
    requires IsLine(t) && p <= |t| && Reads(t, p, [l] + ls)
    ensures var k := GetToken(t, p);
            && k.tok == KindOf(l) && (l.W? ==> Text(t, Span(k.q, k.eq)) == l.text) && p < k.next
            && Reads(t, k.next, ls)
  {
    assert ([l] + ls)[1..] == ls;
  }

  // ---------------------------------------------------------------- the grammar

  type Into = (string, Mode)

  /** A word of a simple command, and the redirections that follow it. */
  datatype Argument = Argument(word: string, redirs: seq<Into>)

  datatype Exe = Plain(lead: seq<Into>, args: seq<Argument>) | Block(line: Line, after: seq<Into>)

  datatype Pipes = Only(exe: Exe) | Piped(exe: Exe, right: Pipes)

  /** A pipeline, a number of "&", and perhaps ";" and another line. */
  datatype Line = Last(pipes: Pipes, backs: nat) | Then(pipes: Pipes, backs: nat, rest: Line)

  function Oper(m: Mode): Lexeme { match m case Read => S('<') case Write => S('>') case Append => Append2 }

  // The tokens of each, and then k.
  function IntoTokens(rs: seq<Into>, k: seq<Lexeme>): seq<Lexeme> {
    if rs == [] then k else [Oper(rs[0].1)] + ([W(rs[0].0)] + IntoTokens(rs[1..], k))
  }

  function ArgTokens(args: seq<Argument>, k: seq<Lexeme>): seq<Lexeme> {
    if args == [] then k else [W(args[0].word)] + IntoTokens(args[0].redirs, ArgTokens(args[1..], k))
  }

  function ExeTokens(e: Exe, k: seq<Lexeme>): seq<Lexeme> {
    match e
    case Plain(lead, args) => IntoTokens(lead, ArgTokens(args, k))
    case Block(line, after) => [S('(')] + LineTokens(line, [S(')')] + IntoTokens(after, k))
  }

  function PipeTokens(p: Pipes, k: seq<Lexeme>): seq<Lexeme> {
    match p
    case Only(e) => ExeTokens(e, k)
    case Piped(e, right) => ExeTokens(e, [S('|')] + PipeTokens(right, k))
  }

  function BackTokens(n: nat, k: seq<Lexeme>): seq<Lexeme> { if n == 0 then k else [S('&')] + BackTokens(n - 1, k) }

  function LineTokens(l: Line, k: seq<Lexeme>): seq<Lexeme> {
    match l
    case Last(p, n) => PipeTokens(p, BackTokens(n, k))
    case Then(p, n, rest) => PipeTokens(p, BackTokens(n, [S(';')] + LineTokens(rest, k)))
  }

  // The tree of each.
  function WordsOf(args: seq<Argument>): seq<string> {
    if args == [] then [] else [args[0].word] + WordsOf(args[1..])
  }

  function IntosOf(args: seq<Argument>): seq<Into> {
    if args == [] then [] else args[0].redirs + IntosOf(args[1..])
  }

  // The last redirection of the line is the outermost.
  function Around(c: Cmd<string>, rs: seq<Into>): Cmd<string>
    decreases |rs|
  {
    if rs == [] then c
    else var last := rs[|rs| - 1]; Redir(Around(c, rs[..|rs| - 1]), last.0, last.1)
  }

  function ExeTree(e: Exe): Cmd<string> {
    match e
    case Plain(lead, args) => Around(Exec(WordsOf(args)), lead + IntosOf(args))
    case Block(line, after) => Around(LineTree(line), after)
  }

  function PipeTree(p: Pipes): Cmd<string> {
    match p
    case Only(e) => ExeTree(e)
    case Piped(e, right) => Pipe(ExeTree(e), PipeTree(right))
  }

  function BackTree(c: Cmd<string>, n: nat): Cmd<string>
    decreases n
  {
    if n == 0 then c else BackTree(Back(c), n - 1)
  }

  function LineTree(l: Line): Cmd<string> {
    match l
    case Last(p, n) => BackTree(PipeTree(p), n)
    case Then(p, n, rest) => List(BackTree(PipeTree(p), n), LineTree(rest))
  }

  /** At most nine words in each simple command. */
  predicate ShortExe(e: Exe) {
    match e
    case Plain(_, args) => |args| <= 9
    case Block(line, _) => Short(line)
  }

  predicate ShortPipes(p: Pipes) {
    match p
    case Only(e) => ShortExe(e)
    case Piped(e, right) => ShortExe(e) && ShortPipes(right)
  }

  predicate Short(l: Line) {
    match l
    case Last(p, _) => ShortPipes(p)
    case Then(p, _, rest) => ShortPipes(p) && Short(rest)
  }

  // ---------------------------------------------------------------- every line of the grammar is parsed to its tree

  function Intos(t: string, rs: seq<Redirection>): (r: seq<Into>)
    ensures |r| == |rs|
  {
    if rs == [] then [] else [(Text(t, rs[0].0), rs[0].1)] + Intos(t, rs[1..])
  }

  lemma IntosFirst(t: string, a: seq<Redirection>, rest: seq<Redirection>)
    requires a != [] && a[1..] == rest
    ensures Intos(t, a) == [(Text(t, a[0].0), a[0].1)] + Intos(t, rest)
  {}

  lemma {:induction false} IntosCat(t: string, a: seq<Redirection>, b: seq<Redirection>)
    ensures Intos(t, a + b) == Intos(t, a) + Intos(t, b)
    decreases |a|
  {
    if a == [] {
      assert a + b == b;
    } else {
      var rest := a[1..];
      IntosCat(t, rest, b);
      IntosFirst(t, a, rest);
      IntosFirst(t, a + b, rest + b);
      CatAssoc([(Text(t, a[0].0), a[0].1)], Intos(t, rest), Intos(t, b));
    }
  }

  lemma CatAssoc<T>(a: seq<T>, b: seq<T>, c: seq<T>)
    ensures (a + b) + c == a + (b + c)
  {}

  lemma {:induction false} AroundFirst(c: Cmd<string>, rs: seq<Into>)
    requires rs != []
    ensures Around(c, rs) == Around(Redir(c, rs[0].0, rs[0].1), rs[1..])
    decreases |rs|
  {
    var n := |rs| - 1;
    if n > 0 {
      AroundFirst(c, rs[..n]);
      assert rs[..n][1..] == rs[1..][..n - 1];
    }
  }

  lemma {:induction false} WrapNames(t: string, c: Cmd<Span>, rs: seq<Redirection>)
    ensures Named(t, Wrap(c, rs)) == Around(Named(t, c), Intos(t, rs))
    decreases |rs|
  {
    if rs != [] {
      WrapNames(t, Redir(c, rs[0].0, rs[0].1), rs[1..]);
      assert Intos(t, rs)[1..] == Intos(t, rs[1..]);
      AroundFirst(Named(t, c), Intos(t, rs));
    }
  }

  /** The result stands for the tree c, and what is left are the tokens k. */
  ghost predicate Yields(t: string, r: Result<Cmd<Span>>, c: Cmd<string>, k: seq<Lexeme>)
    requires IsLine(t)
  {
    r.Ok? && r.pos <= |t| && Named(t, r.value) == c && Reads(t, r.pos, k)
  }

  ghost predicate YieldsIntos(t: string, r: Result<seq<Redirection>>, rs: seq<Into>, k: seq<Lexeme>)
    requires IsLine(t)
  {
    r.Ok? && r.pos <= |t| && Intos(t, r.value) == rs && Reads(t, r.pos, k)
  }

  lemma RedirsStep(t: string, p: nat, op: Token, file: Token, rs: seq<Into>, k: seq<Lexeme>)
    requires IsLine(t) && p <= |t| && Peek(t, p, {'<', '>'}) && op == GetToken(t, p) && file == GetToken(t, op.next)
    requires file.tok == Word && rs != [] && ModeOf(op.tok) == rs[0].1 && Text(t, Span(file.q, file.eq)) == rs[0].0
    requires YieldsIntos(t, Redirs(t, file.next), rs[1..], k)
    ensures YieldsIntos(t, Redirs(t, p), rs, k)
  {
    var r := Redirs(t, file.next);
    var one := (Span(file.q, file.eq), ModeOf(op.tok));
    assert ([one] + r.value)[1..] == r.value;
    assert rs == [rs[0]] + rs[1..];
  }

  lemma NoRedirsThere(t: string, p: nat, k: seq<Lexeme>)
    requires IsLine(t) && p <= |t| && Reads(t, p, k) && !Starts(k, {'<', '>'})
    ensures YieldsIntos(t, Redirs(t, p), [], k)
  {
    PeekReads(t, p, k, {'<', '>'});
    ReadsSkip(t, p, SkipWhite(t, p), k);
  }

  lemma OperReads(t: string, p: nat, m: Mode, f: string, k: seq<Lexeme>) returns (op: Token, file: Token)
    requires IsLine(t) && p <= |t| && Reads(t, p, [Oper(m)] + ([W(f)] + k))
    ensures op == GetToken(t, p) && file == GetToken(t, op.next) && ModeOf(op.tok) == m && file.tok == Word
    ensures Text(t, Span(file.q, file.eq)) == f && Reads(t, file.next, k) && Peek(t, p, {'<', '>'}) && p < file.next
  {
    op := GetToken(t, p);
    ReadsNext(t, p, Oper(m), [W(f)] + k);
    PeekReads(t, p, [Oper(m)] + ([W(f)] + k), {'<', '>'});
    file := GetToken(t, op.next);
    ReadsNext(t, op.next, W(f), k);
  }

  /** parseredirs takes the redirections that are there, in order, and no more. */
  lemma {:induction false} RedirsRead(t: string, p: nat, rs: seq<Into>, k: seq<Lexeme>)
    requires IsLine(t) && p <= |t| && Reads(t, p, IntoTokens(rs, k)) && !Starts(k, {'<', '>'})
    ensures YieldsIntos(t, Redirs(t, p), rs, k)
    decreases |rs|
  {
    if rs == [] {
      NoRedirsThere(t, p, k);
    } else {
      var op, file := OperReads(t, p, rs[0].1, rs[0].0, IntoTokens(rs[1..], k));
      RedirsRead(t, file.next, rs[1..], k);
      RedirsStep(t, p, op, file, rs, k);
    }
  }

  ghost predicate YieldsArgs(t: string, r: Result<(seq<Span>, seq<Redirection>)>, args: seq<Argument>, k: seq<Lexeme>)
    requires IsLine(t)
  {
    && r.Ok? && r.pos <= |t| && Texts(t, r.value.0) == WordsOf(args) && Intos(t, r.value.1) == IntosOf(args)
    && Reads(t, r.pos, k)
  }

  /** What ends a simple command. */
  predicate EndsExe(k: seq<Lexeme>) { k == [] || Starts(k, {'|', ')', '&', ';'}) }

  lemma NoArgsThere(t: string, p: nat, argc: nat, k: seq<Lexeme>) returns (r: Result<(seq<Span>, seq<Redirection>)>)
    requires IsLine(t) && p <= |t| && Reads(t, p, k) && EndsExe(k)
    ensures r == ExecRest(t, p, argc) && YieldsArgs(t, r, [], k)
  {
    r := ExecRest(t, p, argc);
    PeekReads(t, p, k, {'|', ')', '&', ';'});
    ReadsSkip(t, p, SkipWhite(t, p), k);
  }

  lemma {:induction false} IntoStarts(rs: seq<Into>, k: seq<Lexeme>)
    ensures rs == [] ==> IntoTokens(rs, k) == k
    ensures rs != [] ==> Starts(IntoTokens(rs, k), {'<', '>'})
  {}

  lemma ArgStarts(args: seq<Argument>, k: seq<Lexeme>)
    requires EndsExe(k)
    ensures !Starts(ArgTokens(args, k), {'<', '>'}) && !Starts(ArgTokens(args, k), {'('})
  {}

  lemma WordReads(t: string, p: nat, w: string, x: seq<Lexeme>)
    requires IsLine(t) && p <= |t| && Reads(t, p, [W(w)] + x)
    ensures var k := GetToken(t, p);
            k.tok == Word && Text(t, Span(k.q, k.eq)) == w && p < k.next && Reads(t, k.next, x)
    ensures !Peek(t, p, {'|', ')', '&', ';'})
  {
    ReadsNext(t, p, W(w), x);
    PeekReads(t, p, [W(w)] + x, {'|', ')', '&', ';'});
  }

  /** One word and the redirections after it. */
  lemma ArgRead(t: string, p: nat, a: Argument, x: seq<Lexeme>) returns (w: Token, rs: Result<seq<Redirection>>)
    requires IsLine(t) && p <= |t| && Reads(t, p, [W(a.word)] + IntoTokens(a.redirs, x)) && !Starts(x, {'<', '>'})
    ensures w == GetToken(t, p) && w.tok == Word && Text(t, Span(w.q, w.eq)) == a.word
    ensures !Peek(t, p, {'|', ')', '&', ';'}) && rs == Redirs(t, w.next) && YieldsIntos(t, rs, a.redirs, x)
  {
    w := GetToken(t, p);
    WordReads(t, p, a.word, IntoTokens(a.redirs, x));
    RedirsRead(t, w.next, a.redirs, x);
    rs := Redirs(t, w.next);
  }

  /** The place after the first word at p and its redirections. */
  ghost predicate After(t: string, p: nat, q: nat)
    requires IsLine(t) && p <= |t|
  {
    var rs := Redirs(t, GetToken(t, p).next);
    rs.Ok? && rs.pos == q
  }

  lemma ArgNext(t: string, p: nat, args: seq<Argument>, k: seq<Lexeme>) returns (q: nat)
    requires IsLine(t) && p <= |t| && args != [] && Reads(t, p, ArgTokens(args, k)) && EndsExe(k)
    ensures q <= |t| && After(t, p, q) && Reads(t, q, ArgTokens(args[1..], k))
  {
    ArgStarts(args[1..], k);
    var w, rs := ArgRead(t, p, args[0], ArgTokens(args[1..], k));
    q := rs.pos;
  }

  lemma ArgStep(t: string, p: nat, argc: nat, args: seq<Argument>, q: nat, more: Result<(seq<Span>, seq<Redirection>)>,
                k: seq<Lexeme>)
    returns (r: Result<(seq<Span>, seq<Redirection>)>)
    requires IsLine(t) && p <= |t| && args != [] && Reads(t, p, ArgTokens(args, k)) && EndsExe(k) && argc + 1 < MAXARGS
    requires q <= |t| && After(t, p, q) && more == ExecRest(t, q, argc + 1) && YieldsArgs(t, more, args[1..], k)
    ensures r == ExecRest(t, p, argc) && YieldsArgs(t, r, args, k)
  {
    ArgStarts(args[1..], k);
    var w, rs := ArgRead(t, p, args[0], ArgTokens(args[1..], k));
    r := ExecRest(t, p, argc);
    var sp := Span(w.q, w.eq);
    assert ([sp] + more.value.0)[1..] == more.value.0;
    IntosCat(t, rs.value, more.value.1);
  }

  /** parseexec's loop takes the words and redirections up to what ends the command. */
  lemma {:induction false} ArgsRead(t: string, p: nat, argc: nat, args: seq<Argument>, k: seq<Lexeme>)
    returns (r: Result<(seq<Span>, seq<Redirection>)>)
    requires IsLine(t) && p <= |t| && Reads(t, p, ArgTokens(args, k)) && EndsExe(k) && argc + |args| < MAXARGS
    ensures r == ExecRest(t, p, argc) && YieldsArgs(t, r, args, k)
    decreases |args|, 1
  {
    if args == [] {
      r := NoArgsThere(t, p, argc, k);
    } else {
      var q := ArgNext(t, p, args, k);
      var more := ArgsAfter(t, q, argc, args[1..], k);
      r := ArgStep(t, p, argc, args, q, more, k);
    }
  }

  lemma {:induction false} ArgsAfter(t: string, q: nat, argc: nat, tail: seq<Argument>, k: seq<Lexeme>)
    returns (r: Result<(seq<Span>, seq<Redirection>)>)
    requires IsLine(t) && q <= |t| && argc + 1 + |tail| < MAXARGS && Reads(t, q, ArgTokens(tail, k)) && EndsExe(k)
    ensures r == ExecRest(t, q, argc + 1) && YieldsArgs(t, r, tail, k)
    decreases |tail|, 2
  {
    r := ArgsRead(t, q, argc + 1, tail, k);
  }

  // What ends a pipeline, and a line.
  predicate EndsPipes(k: seq<Lexeme>) { k == [] || Starts(k, {')', '&', ';'}) }

  predicate EndsLine(k: seq<Lexeme>) { k == [] || Starts(k, {')'}) }

  /** A simple command: its words, within the redirections before, between and after them in the order of the line. */
  lemma PlainRead(t: string, p: nat, lead: seq<Into>, args: seq<Argument>, k: seq<Lexeme>)
    requires IsLine(t) && p <= |t| && Reads(t, p, ExeTokens(Plain(lead, args), k)) && EndsExe(k) && |args| < MAXARGS
    ensures Yields(t, ParseExec(t, p), ExeTree(Plain(lead, args)), k)
  {
    IntoStarts(lead, ArgTokens(args, k));
    ArgStarts(args, k);
    PeekReads(t, p, ExeTokens(Plain(lead, args), k), {'('});
    RedirsRead(t, p, lead, ArgTokens(args, k));
    var rs := Redirs(t, p);
    var more := ArgsRead(t, rs.pos, 0, args, k);
    IntosCat(t, rs.value, more.value.1);
    WrapNames(t, Exec(more.value.0), rs.value + more.value.1);
  }

  lemma EndsNotInto(k: seq<Lexeme>)
    requires EndsExe(k)
    ensures !Starts(k, {'<', '>'})
  {}

  lemma SymbolThere(t: string, q: nat, c: char, x: seq<Lexeme>)
    requires IsLine(t) && q <= |t| && Symbol(c) && Reads(t, q, [S(c)] + x)
    ensures Peek(t, q, {c}) && q < GetToken(t, q).next && Reads(t, GetToken(t, q).next, x)
  {
    ReadsNext(t, q, S(c), x);
    PeekReads(t, q, [S(c)] + x, {c});
  }

  lemma BlockCloses(t: string, q: nat, after: seq<Into>, k: seq<Lexeme>)
    requires IsLine(t) && q <= |t| && Reads(t, q, [S(')')] + IntoTokens(after, k)) && EndsExe(k)
    ensures Peek(t, q, {')'}) && YieldsIntos(t, Redirs(t, GetToken(t, q).next), after, k)
  {
    SymbolThere(t, q, ')', IntoTokens(after, k));
    EndsNotInto(k);
    RedirsRead(t, GetToken(t, q).next, after, k);
  }

  lemma BlockStep(t: string, p: nat, c: Cmd<string>, after: seq<Into>, k: seq<Lexeme>, inner: Result<Cmd<Span>>)
    requires IsLine(t) && p <= |t| && Peek(t, p, {'('}) && inner == ParseLine(t, GetToken(t, p).next)
    requires Yields(t, inner, c, [S(')')] + IntoTokens(after, k)) && EndsExe(k)
    ensures Yields(t, ParseExec(t, p), Around(c, after), k)
  {
    BlockCloses(t, inner.pos, after, k);
    WrapNames(t, inner.value, Redirs(t, GetToken(t, inner.pos).next).value);
  }

  lemma PipeEnds(t: string, p: nat, c: Cmd<string>, k: seq<Lexeme>)
    requires IsLine(t) && p <= |t| && Yields(t, ParseExec(t, p), c, k) && !Starts(k, {'|'})
    ensures Yields(t, ParsePipe(t, p), c, k)
  {
    var q := ParseExec(t, p).pos;
    PeekReads(t, q, k, {'|'});
    ReadsSkip(t, q, SkipWhite(t, q), k);
  }

  lemma PipeGoesOn(t: string, p: nat, c: Cmd<string>, d: Cmd<string>, x: seq<Lexeme>, k: seq<Lexeme>)
    requires IsLine(t) && p <= |t| && Yields(t, ParseExec(t, p), c, [S('|')] + x)
    requires Yields(t, ParsePipe(t, GetToken(t, ParseExec(t, p).pos).next), d, k)
    ensures Yields(t, ParsePipe(t, p), Pipe(c, d), k)
  {
    PeekReads(t, ParseExec(t, p).pos, [S('|')] + x, {'|'});
  }

  lemma NoBacksThere(t: string, p: nat, c: Cmd<Span>, k: seq<Lexeme>)
    requires IsLine(t) && p <= |t| && Reads(t, p, k) && !Starts(k, {'&'})
    ensures Yields(t, Backs(t, p, c), Named(t, c), k)
  {
    PeekReads(t, p, k, {'&'});
    ReadsSkip(t, p, SkipWhite(t, p), k);
  }

  lemma BackThere(t: string, p: nat, c: Cmd<Span>, k: seq<Lexeme>) returns (q: nat)
    requires IsLine(t) && p <= |t| && Reads(t, p, [S('&')] + k)
    ensures q <= |t| && Reads(t, q, k) && Backs(t, p, c) == Backs(t, q, Back(c))
  {
    PeekReads(t, p, [S('&')] + k, {'&'});
    ReadsNext(t, p, S('&'), k);
    q := GetToken(t, p).next;
  }

  lemma {:induction false} BacksRead(t: string, p: nat, c: Cmd<Span>, n: nat, k: seq<Lexeme>)
    requires IsLine(t) && p <= |t| && Reads(t, p, BackTokens(n, k)) && !Starts(k, {'&'})
    ensures Yields(t, Backs(t, p, c), BackTree(Named(t, c), n), k)
    decreases n
  {
    if n == 0 {
      NoBacksThere(t, p, c, k);
    } else {
      var q := BackThere(t, p, c, BackTokens(n - 1, k));
      BacksRead(t, q, Back(c), n - 1, k);
    }
  }

  lemma LineEnds(t: string, p: nat, c: Cmd<string>, n: nat, k: seq<Lexeme>)
    requires IsLine(t) && p <= |t| && Yields(t, ParsePipe(t, p), c, BackTokens(n, k)) && EndsLine(k)
    ensures Yields(t, ParseLine(t, p), BackTree(c, n), k)
  {
    var r := ParsePipe(t, p);
    BacksRead(t, r.pos, r.value, n, k);
    var b := Backs(t, r.pos, r.value);
    PeekReads(t, b.pos, k, {';'});
    ReadsSkip(t, b.pos, SkipWhite(t, b.pos), k);
  }

  /** Where the rest of a list starts. */
  lemma ListRest(t: string, p: nat, c: Cmd<string>, n: nat, x: seq<Lexeme>) returns (q: nat)
    requires IsLine(t) && p <= |t| && Yields(t, ParsePipe(t, p), c, BackTokens(n, [S(';')] + x))
    ensures p < q <= |t| && Reads(t, q, x)
    ensures var r := ParsePipe(t, p);
            var b := Backs(t, r.pos, r.value);
            Peek(t, b.pos, {';'}) && q == GetToken(t, b.pos).next && Named(t, b.value) == BackTree(c, n)
  {
    var r := ParsePipe(t, p);
    BacksRead(t, r.pos, r.value, n, [S(';')] + x);
    var b := Backs(t, r.pos, r.value);
    PeekReads(t, b.pos, [S(';')] + x, {';'});
    ReadsNext(t, b.pos, S(';'), x);
    q := GetToken(t, b.pos).next;
  }

  lemma BackEnds(n: nat, k: seq<Lexeme>)
    requires k == [] || Starts(k, {')', ';'})
    ensures EndsPipes(BackTokens(n, k)) && EndsExe(BackTokens(n, k)) && !Starts(BackTokens(n, k), {'|'})
  {}

  lemma {:induction false} ExeRead(t: string, p: nat, e: Exe, k: seq<Lexeme>)
    requires IsLine(t) && p <= |t| && Reads(t, p, ExeTokens(e, k)) && EndsExe(k) && ShortExe(e)
    ensures Yields(t, ParseExec(t, p), ExeTree(e), k)
    decreases e
  {
    match e
    case Plain(lead, args) => PlainRead(t, p, lead, args, k);
    case Block(line, after) =>
      var x := [S(')')] + IntoTokens(after, k);
      PeekReads(t, p, ExeTokens(e, k), {'('});
      ReadsNext(t, p, S('('), LineTokens(line, x));
      LineRead(t, GetToken(t, p).next, line, x);
      BlockStep(t, p, LineTree(line), after, k, ParseLine(t, GetToken(t, p).next));
  }

  lemma {:induction false} PipesRead(t: string, p: nat, ps: Pipes, k: seq<Lexeme>)
    requires IsLine(t) && p <= |t| && Reads(t, p, PipeTokens(ps, k)) && EndsPipes(k) && ShortPipes(ps)
    ensures Yields(t, ParsePipe(t, p), PipeTree(ps), k)
    decreases ps
  {
    match ps
    case Only(e) =>
      ExeRead(t, p, e, k);
      PipeEnds(t, p, ExeTree(e), k);
    case Piped(e, right) =>
      var x := PipeTokens(right, k);
      ExeRead(t, p, e, [S('|')] + x);
      var q := ParseExec(t, p).pos;
      ReadsNext(t, q, S('|'), x);
      PipesRead(t, GetToken(t, q).next, right, k);
      PipeGoesOn(t, p, ExeTree(e), PipeTree(right), x, k);
  }

  /** The parser takes any line of the grammar to its tree. */
  lemma {:induction false} LineRead(t: string, p: nat, l: Line, k: seq<Lexeme>)
    requires IsLine(t) && p <= |t| && Reads(t, p, LineTokens(l, k)) && EndsLine(k) && Short(l)
    ensures Yields(t, ParseLine(t, p), LineTree(l), k)
    decreases l
  {
    match l
    case Last(ps, n) =>
      BackEnds(n, k);
      PipesRead(t, p, ps, BackTokens(n, k));
      LineEnds(t, p, PipeTree(ps), n, k);
    case Then(ps, n, rest) =>
      var x := LineTokens(rest, k);
      BackEnds(n, [S(';')] + x);
      PipesRead(t, p, ps, BackTokens(n, [S(';')] + x));
      var q := ListRest(t, p, PipeTree(ps), n, x);
      LineRead(t, q, rest, k);
  }

  /** parsecmd on a line whose tokens are those of l. */
  lemma CmdRead(t: string, l: Line)
    requires IsLine(t) && Reads(t, 0, LineTokens(l, [])) && Short(l)
    ensures ParseCmd(t).Ok? && Named(t, ParseCmd(t).value) == LineTree(l)
  {
    LineRead(t, 0, l, []);
  }

  // ---------------------------------------------------------------- and nothing else is

  /** The tokens from p on. */
  function TokensFrom(t: string, p: nat): seq<Lexeme>
    requires IsLine(t) && p <= |t|
    decreases |t| - p
  {
    var k := GetToken(t, p);
    if k.tok == End then []
    else [match k.tok case Word => W(Text(t, Span(k.q, k.eq))) case Sym(c) => S(c) case _ => Append2]
         + TokensFrom(t, k.next)
  }

  lemma {:induction false} ReadsTokens(t: string, p: nat)
    requires IsLine(t) && p <= |t|
    ensures Reads(t, p, TokensFrom(t, p))
    decreases |t| - p
  {
    var k := GetToken(t, p);
    if k.tok != End {
      ReadsTokens(t, k.next);
      assert TokensFrom(t, p)[1..] == TokensFrom(t, k.next);
    }
  }

  lemma TokensSkip(t: string, p: nat)
    requires IsLine(t) && p <= |t|
    ensures TokensFrom(t, SkipWhite(t, p)) == TokensFrom(t, p)
  {
    SameToken(t, p);
  }

  lemma PeekTokens(t: string, p: nat, cs: set<char>)
    requires IsLine(t) && p <= |t| && forall c :: c in cs ==> Symbol(c)
    ensures Peek(t, p, cs) <==> Starts(TokensFrom(t, p), cs)
  {
    ReadsTokens(t, p);
    PeekReads(t, p, TokensFrom(t, p), cs);
  }

  /** A token that peek has seen. */
  lemma TakeTokens(t: string, p: nat, c: char)
    requires IsLine(t) && p <= |t| && Symbol(c) && c != '>' && Peek(t, p, {c})
    ensures TokensFrom(t, p) == [S(c)] + TokensFrom(t, GetToken(t, p).next)
  {}

  lemma OperTokens(t: string, p: nat)
    requires IsLine(t) && p <= |t| && Peek(t, p, {'<', '>'})
    ensures var k := GetToken(t, p); TokensFrom(t, p) == [Oper(ModeOf(k.tok))] + TokensFrom(t, k.next)
  {}

  lemma WordTokens(t: string, p: nat)
    requires IsLine(t) && p <= |t| && GetToken(t, p).tok == Word
    ensures var k := GetToken(t, p); TokensFrom(t, p) == [W(Text(t, Span(k.q, k.eq)))] + TokensFrom(t, k.next)
  {}

  lemma {:induction false} RedirsSound(t: string, p: nat)
    requires IsLine(t) && p <= |t| && Redirs(t, p).Ok?
    ensures var r := Redirs(t, p); TokensFrom(t, p) == IntoTokens(Intos(t, r.value), TokensFrom(t, r.pos))
    decreases |t| - p
  {
    if !Peek(t, p, {'<', '>'}) {
      TokensSkip(t, p);
    } else {
      var op := GetToken(t, p);
      var file := GetToken(t, op.next);
      OperTokens(t, p);
      WordTokens(t, op.next);
      RedirsSound(t, file.next);
      var r, more := Redirs(t, p), Redirs(t, file.next);
      assert r.value[1..] == more.value;
      assert Intos(t, r.value)[1..] == Intos(t, more.value);
    }
  }

  lemma {:induction false} ArgsSound(t: string, p: nat, argc: nat) returns (args: seq<Argument>)
    requires IsLine(t) && p <= |t| && ExecRest(t, p, argc).Ok? && argc < MAXARGS
    ensures var r := ExecRest(t, p, argc);
            && TokensFrom(t, p) == ArgTokens(args, TokensFrom(t, r.pos)) && argc + |args| < MAXARGS
            && Texts(t, r.value.0) == WordsOf(args) && Intos(t, r.value.1) == IntosOf(args)
    decreases |t| - p
  {
    var w := GetToken(t, p);
    args := [];
    if Peek(t, p, {'|', ')', '&', ';'}) {
      TokensSkip(t, p);
    } else if w.tok != End {
      WordTokens(t, p);
      RedirsSound(t, w.next);
      var rs := Redirs(t, w.next);
      var more := ExecRest(t, rs.pos, argc + 1);
      var rest := ArgsSound(t, rs.pos, argc + 1);
      args := [Argument(Text(t, Span(w.q, w.eq)), Intos(t, rs.value))] + rest;
      ArgsJoin(t, Span(w.q, w.eq), rs.value, more.value.0, more.value.1, args, rest);
    }
  }

  lemma ArgsJoin(t: string, sp: Span, rs: seq<Redirection>, ws: seq<Span>, rs': seq<Redirection>, args: seq<Argument>,
                 rest: seq<Argument>)
    requires args == [Argument(Text(t, sp), Intos(t, rs))] + rest
    requires Texts(t, ws) == WordsOf(rest) && Intos(t, rs') == IntosOf(rest)
    ensures Texts(t, [sp] + ws) == WordsOf(args) && Intos(t, rs + rs') == IntosOf(args) && args[1..] == rest
  {
    assert ([sp] + ws)[1..] == ws;
    assert args[1..] == rest;
    IntosCat(t, rs, rs');
  }

  lemma PlainSound(t: string, p: nat) returns (e: Exe)
    requires IsLine(t) && p <= |t| && Simple(t, p).Ok?
    ensures var r := Simple(t, p);
            TokensFrom(t, p) == ExeTokens(e, TokensFrom(t, r.pos)) && ShortExe(e) && Named(t, r.value) == ExeTree(e)
  {
    var rs := Redirs(t, p);
    RedirsSound(t, p);
    var more := ExecRest(t, rs.pos, 0);
    var args := ArgsSound(t, rs.pos, 0);
    e := Plain(Intos(t, rs.value), args);
    IntosCat(t, rs.value, more.value.1);
    WrapNames(t, Exec(more.value.0), rs.value + more.value.1);
  }

  ghost predicate IsBacks(t: string, p: nat, c: Cmd<Span>, n: nat)
    requires IsLine(t) && p <= |t|
  {
    var r := Backs(t, p, c);
    TokensFrom(t, p) == BackTokens(n, TokensFrom(t, r.pos)) && Named(t, r.value) == BackTree(Named(t, c), n)
  }

  lemma BacksMore(t: string, p: nat, q: nat, c: Cmd<Span>, n: nat)
    requires IsLine(t) && p <= |t| && Peek(t, p, {'&'}) && q == GetToken(t, p).next && IsBacks(t, q, Back(c), n)
    ensures IsBacks(t, p, c, n + 1)
  {
    TakeTokens(t, p, '&');
    assert Backs(t, p, c) == Backs(t, q, Back(c));
  }

  lemma BacksNone(t: string, p: nat, c: Cmd<Span>)
    requires IsLine(t) && p <= |t| && !Peek(t, p, {'&'})
    ensures IsBacks(t, p, c, 0)
  {
    TokensSkip(t, p);
  }

  lemma PastToken(t: string, p: nat, cs: set<char>) returns (q: nat)
    requires IsLine(t) && p <= |t| && Peek(t, p, cs)
    ensures q == GetToken(t, p).next && p < q <= |t|
  {
    q := GetToken(t, p).next;
  }

  lemma {:induction false} BacksSound(t: string, p: nat, c: Cmd<Span>) returns (n: nat)
    requires IsLine(t) && p <= |t|
    ensures IsBacks(t, p, c, n)
    decreases |t| - p
  {
    if Peek(t, p, {'&'}) {
      var q := PastToken(t, p, {'&'});
      var m := BacksSound(t, q, Back(c));
      BacksMore(t, p, q, c, m);
      n := m + 1;
    } else {
      BacksNone(t, p, c);
      n := 0;
    }
  }

  lemma BlockWraps(t: string, p: nat, line: Line, inner: Result<Cmd<Span>>) returns (e: Exe)
    requires IsLine(t) && p <= |t| && Peek(t, p, {'('}) && ParseBlock(t, p).Ok?
    requires inner == ParseLine(t, GetToken(t, p).next) && inner.Ok? && Short(line)
    requires Named(t, inner.value) == LineTree(line)
    requires TokensFrom(t, GetToken(t, p).next) == LineTokens(line, TokensFrom(t, inner.pos))
    ensures var r := ParseBlock(t, p);
            TokensFrom(t, p) == ExeTokens(e, TokensFrom(t, r.pos)) && ShortExe(e) && Named(t, r.value) == ExeTree(e)
  {
    var close := GetToken(t, inner.pos);
    var rs := Redirs(t, close.next);
    TakeTokens(t, p, '(');
    TakeTokens(t, inner.pos, ')');
    RedirsSound(t, close.next);
    e := Block(line, Intos(t, rs.value));
    WrapNames(t, inner.value, rs.value);
  }

  lemma {:induction false} ExeSound(t: string, p: nat) returns (e: Exe)
    requires IsLine(t) && p <= |t| && ParseExec(t, p).Ok?
    ensures var r := ParseExec(t, p);
            TokensFrom(t, p) == ExeTokens(e, TokensFrom(t, r.pos)) && ShortExe(e) && Named(t, r.value) == ExeTree(e)
    decreases |t| - p, 0
  {
    if Peek(t, p, {'('}) {
      var q := GetToken(t, p).next;
      var line := LineSound(t, q);
      e := BlockWraps(t, p, line, ParseLine(t, q));
    } else {
      e := PlainSound(t, p);
    }
  }

  lemma {:induction false} PipesSound(t: string, p: nat) returns (ps: Pipes)
    requires IsLine(t) && p <= |t| && ParsePipe(t, p).Ok?
    ensures PipesAre(t, p, ParsePipe(t, p), ps)
    decreases |t| - p, 1
  {
    var e := ExeSound(t, p);
    var q := ParseExec(t, p).pos;
    if Peek(t, q, {'|'}) {
      TakeTokens(t, q, '|');
      var right := PipesSound(t, GetToken(t, q).next);
      ps := Piped(e, right);
    } else {
      TokensSkip(t, q);
      ps := Only(e);
    }
  }

  ghost predicate PipesAre(t: string, p: nat, r: Result<Cmd<Span>>, ps: Pipes)
    requires IsLine(t) && p <= |t|
  {
    && r.Ok? && r.pos <= |t| && TokensFrom(t, p) == PipeTokens(ps, TokensFrom(t, r.pos)) && ShortPipes(ps)
    && Named(t, r.value) == PipeTree(ps)
  }

  ghost predicate LineIs(t: string, p: nat, r: Result<Cmd<Span>>, l: Line)
    requires IsLine(t) && p <= |t|
  {
    && r.Ok? && r.pos <= |t| && TokensFrom(t, p) == LineTokens(l, TokensFrom(t, r.pos)) && Short(l)
    && Named(t, r.value) == LineTree(l)
  }

  lemma LineLast(t: string, p: nat, first: Result<Cmd<Span>>, ps: Pipes, n: nat) returns (l: Line)
    requires IsLine(t) && p <= |t| && first == ParsePipe(t, p) && PipesAre(t, p, first, ps)
    requires IsBacks(t, first.pos, first.value, n) && !Peek(t, Backs(t, first.pos, first.value).pos, {';'})
    ensures LineIs(t, p, ParseLine(t, p), l)
  {
    TokensSkip(t, Backs(t, first.pos, first.value).pos);
    l := Last(ps, n);
  }

  lemma LineThen(t: string, p: nat, first: Result<Cmd<Span>>, ps: Pipes, n: nat, q: nat, more: Result<Cmd<Span>>,
                 rest: Line)
    returns (l: Line)
    requires IsLine(t) && p <= |t| && first == ParsePipe(t, p) && PipesAre(t, p, first, ps)
    requires IsBacks(t, first.pos, first.value, n) && Peek(t, Backs(t, first.pos, first.value).pos, {';'})
    requires q == GetToken(t, Backs(t, first.pos, first.value).pos).next && q <= |t|
    requires more == ParseLine(t, q) && LineIs(t, q, more, rest)
    ensures LineIs(t, p, ParseLine(t, p), l)
  {
    TakeTokens(t, Backs(t, first.pos, first.value).pos, ';');
    l := Then(ps, n, rest);
  }

  lemma {:induction false} LineSound(t: string, p: nat) returns (l: Line)
    requires IsLine(t) && p <= |t| && ParseLine(t, p).Ok?
    ensures LineIs(t, p, ParseLine(t, p), l)
    decreases |t| - p, 2
  {
    var first := ParsePipe(t, p);
    var ps := PipesSound(t, p);
    var n := BacksSound(t, first.pos, first.value);
    var b := Backs(t, first.pos, first.value).pos;
    if Peek(t, b, {';'}) {
      var q := PastToken(t, b, {';'});
      var rest := LineSound(t, q);
      l := LineThen(t, p, first, ps, n, q, ParseLine(t, q), rest);
    } else {
      l := LineLast(t, p, first, ps, n);
    }
  }

  ghost predicate IsOf(t: string, l: Line)
    requires IsLine(t)
  {
    Short(l) && LineTokens(l, []) == TokensFrom(t, 0)
  }

  /**
    parsecmd accepts a line exactly if its tokens are those of some line of the grammar, and gives that line's tree; for
    every other line the shell panics.
   */
  lemma ParsesExactly(t: string)
    requires IsLine(t)
    ensures ParseCmd(t).Ok? <==> exists l :: IsOf(t, l)
    ensures forall l {:trigger IsOf(t, l)} :: IsOf(t, l) ==> Named(t, ParseCmd(t).value) == LineTree(l)
  {
    forall l {:trigger IsOf(t, l)} | IsOf(t, l)
      ensures ParseCmd(t).Ok? && Named(t, ParseCmd(t).value) == LineTree(l)
    {
      ReadsTokens(t, 0);
      CmdRead(t, l);
    }
    if ParseCmd(t).Ok? {
      var l := LineSound(t, 0);
      assert TokensFrom(t, ParseLine(t, 0).pos) == [];
      assert IsOf(t, l);
    }
  }

  // ---------------------------------------------------------------- lines as text

  function Written(l: Lexeme): string {
    match l
    case W(w) => w
    case S(c) => [c]
    case Append2 => ">>"
  }

  /** The tokens with the gaps around them. */
  function Spell(ls: seq<Lexeme>, gaps: seq<string>): string
    requires |gaps| == |ls| + 1
  {
    if ls == [] then gaps[0] else gaps[0] + (Written(ls[0]) + Spell(ls[1..], gaps[1..]))
  }

  predicate Blank(g: string) { forall i :: 0 <= i < |g| ==> g[i] in WHITESPACE }

  predicate Writable(l: Lexeme) {
    match l
    case W(w) => w != "" && forall i :: 0 <= i < |w| ==> w[i] !in WHITESPACE && w[i] !in SYMBOLS && w[i] != '\0'
    case S(c) => c in SYMBOLS
    case Append2 => true
  }

  /** Words do not run together, and neither do two ">" that are not one token. */
  predicate Parted(a: Lexeme, gap: string, b: Lexeme) {
    gap == "" ==> !(a.W? && b.W?) && !(a == S('>') && (b == S('>') || b == Append2))
  }

  predicate Spelt(ls: seq<Lexeme>, gaps: seq<string>) {
    && |gaps| == |ls| + 1 && (forall i :: 0 <= i < |gaps| ==> Blank(gaps[i]))
    && (forall i :: 0 <= i < |ls| ==> Writable(ls[i]))
    && (forall i :: 0 < i < |ls| ==> Parted(ls[i - 1], gaps[i], ls[i]))
  }

  lemma Classes(c: char)
    ensures c in WHITESPACE <==> White(c)
    ensures c in SYMBOLS <==> Symbol(c)
  {
    assert WHITESPACE == [' ', '\t', '\r', '\n', '\U{000b}'];
    assert SYMBOLS == ['<', '|', '>', '&', ';', '(', ')'];
  }

  lemma {:induction false} SkipGap(t: string, p: nat, g: string, s: string)
    requires At(t, p, g + s) && Blank(g) && Solid(s)
    ensures p + |g| <= |t| && SkipWhite(t, p) == p + |g| && At(t, p + |g|, s)
    decreases |g|
  {
    Next(t, p, g, s);
    if g == "" {
      First(t, p, s);
    } else {
      assert t[p] == g[0] by {
        assert t[p..p + |g|][0] == g[0];
      }
      Classes(g[0]);
      assert g + s == g[..1] + (g[1..] + s);
      Next(t, p, g[..1], g[1..] + s);
      SkipGap(t, p + 1, g[1..], s);
    }
  }

  /** How a text starts: with nothing, with a gap, or with a token. */
  lemma SpellStarts(ls: seq<Lexeme>, gaps: seq<string>, a: Lexeme)
    requires Spelt(ls, gaps) && Writable(a) && (ls != [] ==> Parted(a, gaps[0], ls[0]))
    ensures var s := Spell(ls, gaps);
            && (a.W? ==> s == "" || !WordChar(s[0]))
            && (a == S('>') ==> s == "" || s[0] != '>')
  {
    var s := Spell(ls, gaps);
    if s != "" {
      Classes(s[0]);
      if gaps[0] != "" {
        assert s[0] == gaps[0][0];
      } else if ls != [] {
        assert s[0] == Written(ls[0])[0];
      }
    }
  }

  lemma WrittenSolid(l: Lexeme, s: string)
    requires Writable(l)
    ensures Written(l) != "" && Solid(Written(l) + s)
  {
    Classes(Written(l)[0]);
  }

  lemma WritableWord(w: string)
    requires Writable(W(w))
    ensures GoodWord(w)
  {
    forall i | 0 <= i < |w|
      ensures WordChar(w[i])
    {
      Classes(w[i]);
    }
  }

  /** The token at p, where the text goes on with s. */
  lemma TokenThere(t: string, p: nat, l: Lexeme, s: string)
    requires At(t, p, Written(l) + s) && Writable(l)
    requires (l.W? ==> s == "" || !WordChar(s[0])) && (l == S('>') ==> s == "" || s[0] != '>')
    ensures p <= |t| && At(t, p + |Written(l)|, s)
    ensures var k := GetToken(t, p);
            && k.tok == KindOf(l) && (l.W? ==> Text(t, Span(k.q, k.eq)) == l.text)
            && k.next == SkipWhite(t, p + |Written(l)|)
  {
    WrittenSolid(l, s);
    First(t, p, Written(l) + s);
    Next(t, p, Written(l), s);
    match l
    case W(w) =>
      WritableWord(w);
      WordNext(t, p, w, s);
    case S(c) => SymbolIs(t, p, c, s);
    case Append2 => TwiceIs(t, p, s);
  }

  lemma SymbolIs(t: string, p: nat, c: char, s: string)
    requires At(t, p, [c] + s) && c in SYMBOLS && (c == '>' ==> s == "" || s[0] != '>')
    ensures p < |t| && GetToken(t, p).tok == Sym(c) && GetToken(t, p).next == SkipWhite(t, p + 1)
  {
    Classes(c);
    First(t, p, [c] + s);
    Next(t, p, [c], s);
    if s != "" {
      assert CharAt(t, p + 1, s, 0);
    }
  }

  lemma TwiceIs(t: string, p: nat, s: string)
    requires At(t, p, ">>" + s)
    ensures p + 1 < |t| && GetToken(t, p).tok == Twice && GetToken(t, p).next == SkipWhite(t, p + 2)
  {
    First(t, p, ">>" + s);
    assert CharAt(t, p, ">>" + s, 1);
  }

  lemma SpeltTail(ls: seq<Lexeme>, gaps: seq<string>)
    requires Spelt(ls, gaps) && ls != []
    ensures Spelt(ls[1..], gaps[1..]) && Writable(ls[0]) && Blank(gaps[0])
    ensures ls[1..] != [] ==> Parted(ls[0], gaps[1..][0], ls[1..][0])
  {
    forall i | 0 < i < |ls[1..]|
      ensures Parted(ls[1..][i - 1], gaps[1..][i], ls[1..][i])
    {
      assert Parted(ls[i], gaps[i + 1], ls[i + 1]);
    }
  }

  /** The first token stands at q behind white space and ends before e. */
  lemma TokenReads(t: string, p: nat, q: nat, e: nat, ls: seq<Lexeme>, tail: seq<Lexeme>)
    requires IsLine(t) && p <= |t| && q == SkipWhite(t, p) && e <= |t| && ls != [] && tail == ls[1..]
    requires Reads(t, e, tail)
    requires var k := GetToken(t, q);
             && k.tok == KindOf(ls[0]) && (ls[0].W? ==> Text(t, Span(k.q, k.eq)) == ls[0].text)
             && k.next == SkipWhite(t, e)
    ensures Reads(t, p, ls)
  {
    ReadsSkip(t, e, SkipWhite(t, e), tail);
    SameToken(t, p);
  }

  /** The first token of a text, from q up to e. */
  lemma FirstSpelt(t: string, p: nat, ls: seq<Lexeme>, gaps: seq<string>) returns (q: nat, e: nat)
    requires Spelt(ls, gaps) && ls != [] && At(t, p, Spell(ls, gaps))
    ensures Spelt(ls[1..], gaps[1..]) && p <= |t| && q == SkipWhite(t, p) && e <= |t|
    ensures At(t, e, Spell(ls[1..], gaps[1..]))
    ensures var k := GetToken(t, q);
            && k.tok == KindOf(ls[0]) && (ls[0].W? ==> Text(t, Span(k.q, k.eq)) == ls[0].text)
            && k.next == SkipWhite(t, e)
  {
    var s := Spell(ls[1..], gaps[1..]);
    SpeltTail(ls, gaps);
    WrittenSolid(ls[0], s);
    SkipGap(t, p, gaps[0], Written(ls[0]) + s);
    q := p + |gaps[0]|;
    SpellStarts(ls[1..], gaps[1..], ls[0]);
    TokenThere(t, q, ls[0], s);
    e := q + |Written(ls[0])|;
  }

  /** However it is spaced, a line of these tokens is read as these tokens. */
  lemma {:induction false} SpellReads(t: string, p: nat, ls: seq<Lexeme>, gaps: seq<string>)
    requires Spelt(ls, gaps) && At(t, p, Spell(ls, gaps))
    ensures p <= |t| && Reads(t, p, ls)
    decreases |ls|
  {
    if ls == [] {
      assert gaps[0] + "" == gaps[0];
      SkipGap(t, p, gaps[0], "");
    } else {
      var q, e := FirstSpelt(t, p, ls, gaps);
      SpellReads(t, e, ls[1..], gaps[1..]);
      TokenReads(t, p, q, e, ls, ls[1..]);
    }
  }

  lemma {:induction false} SpellIsLine(ls: seq<Lexeme>, gaps: seq<string>)
    requires Spelt(ls, gaps)
    ensures IsLine(Spell(ls, gaps))
    decreases |ls|
  {
    forall i | 0 <= i < |gaps[0]|
      ensures gaps[0][i] != '\0'
    {
      Classes(gaps[0][i]);
    }
    if ls != [] {
      SpeltTail(ls, gaps);
      SpellIsLine(ls[1..], gaps[1..]);
      WrittenIsLine(ls[0]);
    }
  }

  lemma WrittenIsLine(l: Lexeme)
    requires Writable(l)
    ensures IsLine(Written(l))
  {
    if l.S? {
      Classes(l.c);
    }
  }

  /**
    The second inverse of the parser: any line of the grammar, written down with any white space, parses to its tree.
    Redirections may stand before, between and after the words of a simple command.
   */
  lemma ParseSpelt(l: Line, gaps: seq<string>)
    requires Short(l) && Spelt(LineTokens(l, []), gaps)
    ensures var t := Spell(LineTokens(l, []), gaps);
            IsLine(t) && ParseCmd(t).Ok? && Named(t, ParseCmd(t).value) == LineTree(l)
  {
    var ls := LineTokens(l, []);
    var t := Spell(ls, gaps);
    SpellIsLine(ls, gaps);
    assert At(t, 0, t) by {
      forall i: nat | i < |t|
        ensures CharAt(t, 0, t, i)
      {}
    }
    SpellReads(t, 0, ls, gaps);
    CmdRead(t, l);
  }
}
