/** A fully parenthesised printer for command trees, and the proof that the parser inverts it. */
module ShellPrint {

  import opened Shell

  predicate GoodWord(w: string) { w != "" && forall i :: 0 <= i < |w| ==> WordChar(w[i]) }

  predicate GoodWords(args: seq<string>) { forall i :: 0 <= i < |args| ==> GoodWord(args[i]) }

  lemma GoodTail(args: seq<string>)
    requires GoodWords(args) && args != []
    ensures GoodWord(args[0]) && GoodWords(args[1..])
  {}

  /** Words the lexer takes whole, and at most nine of them in a simple command. */
  predicate Printable(c: Cmd<string>) {
    match c
    case Exec(args) => |args| < MAXARGS && GoodWords(args)
    case Redir(d, file, _) => Printable(d) && GoodWord(file)
    case Pipe(l, r) => Printable(l) && Printable(r)
    case List(l, r) => Printable(l) && Printable(r)
    case Back(d) => Printable(d)
  }

  // Each word and a blank, then s.
  function Spoken(args: seq<string>, s: string): string
  {
    if args == [] then s else args[0] + (" " + Spoken(args[1..], s))
  }

  function Op(m: Mode): string { match m case Read => "<" case Write => ">" case Append => ">>" }

  /** The command, then s: every part of a compound command in parentheses. */
  function PrintTo(c: Cmd<string>, s: string): string
  {
    match c
    case Exec(args) => Spoken(args, s)
    case Redir(d, file, m) => "(" + PrintTo(d, ")" + (Op(m) + (file + s)))
    case Pipe(l, r) => "(" + PrintTo(l, ")" + ("|" + ("(" + PrintTo(r, ")" + s))))
    case List(l, r) => "(" + PrintTo(l, ")" + (";" + ("(" + PrintTo(r, ")" + s))))
    case Back(d) => "(" + PrintTo(d, ")" + ("&" + s))
  }

  function Print(c: Cmd<string>): string { PrintTo(c, "") }

  // The tree with each piece of the line replaced by its text.
  function Text(t: string, sp: Span): string
  {
    if sp.q <= sp.eq <= |t| then t[sp.q..sp.eq] else ""
  }

  function Texts(t: string, ws: seq<Span>): (r: seq<string>)
    ensures |r| == |ws|
  {
    if ws == [] then [] else [Text(t, ws[0])] + Texts(t, ws[1..])
  }

  function Named(t: string, c: Cmd<Span>): Cmd<string>
  {
    match c
    case Exec(args) => Exec(Texts(t, args))
    case Redir(d, file, m) => Redir(Named(t, d), Text(t, file), m)
    case Pipe(l, r) => Pipe(Named(t, l), Named(t, r))
    case List(l, r) => List(Named(t, l), Named(t, r))
    case Back(d) => Back(Named(t, d))
  }

  // ---------------------------------------------------------------- reading what was printed

  /** The rest of the line from p on is s. */
  ghost predicate At(t: string, p: nat, s: string) {
    IsLine(t) && p + |s| == |t| && forall i: nat {:trigger CharAt(t, p, s, i)} :: i < |s| ==> CharAt(t, p, s, i)
  }

  ghost predicate CharAt(t: string, p: nat, s: string, i: nat)
    requires p + |s| == |t| && i < |s|
  {
    t[p + i] == s[i]
  }

  /** Nothing white is next. */
  predicate Solid(s: string) { s == "" || !White(s[0]) }

  lemma Next(t: string, p: nat, x: string, y: string)
    requires At(t, p, x + y)
    ensures At(t, p + |x|, y) && t[p..p + |x|] == x
  {
    var z, q := x + y, p + |x|;
    forall i: nat | i < |y|
      ensures CharAt(t, q, y, i)
    {
      assert CharAt(t, p, z, |x| + i);
    }
    forall i | 0 <= i < |x|
      ensures t[p + i] == x[i]
    {
      assert CharAt(t, p, z, i);
    }
  }

  lemma First(t: string, p: nat, s: string)
    requires At(t, p, s) && Solid(s)
    ensures p <= |t| && SkipWhite(t, p) == p && (p < |t| <==> s != "") && (s != "" ==> t[p] == s[0])
  {
    if s != "" {
      assert CharAt(t, p, s, 0);
    }
  }

  lemma SymbolNext(t: string, p: nat, c: char, s: string)
    requires At(t, p, [c] + s) && Symbol(c) && Solid(s) && (c == '>' ==> s == "" || s[0] != '>')
    ensures GetToken(t, p) == Token(Sym(c), p, p + 1, p + 1) && At(t, p + 1, s)
  {
    First(t, p, [c] + s);
    Next(t, p, [c], s);
    First(t, p + 1, s);
  }

  lemma TwiceNext(t: string, p: nat, s: string)
    requires At(t, p, ">>" + s) && Solid(s)
    ensures GetToken(t, p) == Token(Twice, p, p + 2, p + 2) && At(t, p + 2, s)
  {
    First(t, p, ">>" + s);
    Next(t, p, ">>", s);
    First(t, p + 2, s);
    assert t[p..p + 2][1] == '>';
  }

  lemma {:induction false} WordEndAt(t: string, p: nat, e: nat)
    requires p <= e <= |t| && (forall i :: p <= i < e ==> WordChar(t[i])) && (e < |t| ==> !WordChar(t[e]))
    ensures WordEnd(t, p) == e
    decreases e - p
  {
    if p < e {
      WordEndAt(t, p + 1, e);
    }
  }

  lemma WordThere(t: string, p: nat, w: string, s: string)
    requires At(t, p, w + s) && GoodWord(w) && (s == "" || !WordChar(s[0]))
    ensures (forall i :: p <= i < p + |w| ==> WordChar(t[i])) && (p + |w| < |t| ==> !WordChar(t[p + |w|]))
    ensures t[p..p + |w|] == w && At(t, p + |w|, s)
  {
    var e := p + |w|;
    Next(t, p, w, s);
    forall i | p <= i < e
      ensures WordChar(t[i])
    {
      assert t[i] == t[p..e][i - p];
    }
    if s != "" {
      assert CharAt(t, e, s, 0);
    }
  }

  lemma WordToken(t: string, p: nat, e: nat)
    requires IsLine(t) && p < e <= |t| && WordChar(t[p]) && WordEnd(t, p) == e
    ensures GetToken(t, p) == Token(Word, p, e, SkipWhite(t, e))
  {}

  lemma WordNext(t: string, p: nat, w: string, s: string)
    requires At(t, p, w + s) && GoodWord(w) && (s == "" || !WordChar(s[0]))
    ensures var r := GetToken(t, p); r.tok == Word && r.q == p && r.eq == p + |w| && r.next == SkipWhite(t, p + |w|)
    ensures Text(t, Span(p, p + |w|)) == w && At(t, p + |w|, s)
  {
    WordThere(t, p, w, s);
    WordEndAt(t, p, p + |w|);
    WordToken(t, p, p + |w|);
  }

  lemma NoRedirs(t: string, p: nat, s: string)
    requires At(t, p, s) && Solid(s) && (s == "" || (s[0] != '<' && s[0] != '>'))
    ensures Redirs(t, p) == Ok([], p)
  {
    First(t, p, s);
  }

  predicate Stops(s: string) { s == "" || s[0] == ')' }

  lemma ExecStep(t: string, p: nat, argc: nat, w: Token)
    requires IsLine(t) && p <= |t| && w == GetToken(t, p) && w.tok == Word && argc + 1 < MAXARGS
    requires Redirs(t, w.next) == Ok([], w.next)
    requires ExecRest(t, w.next, argc + 1).Ok? && ExecRest(t, w.next, argc + 1).value.1 == []
    ensures var r, x := ExecRest(t, p, argc), ExecRest(t, w.next, argc + 1);
      r == Ok(([Span(w.q, w.eq)] + x.value.0, []), x.pos)
  {
    assert !Peek(t, p, {'|', ')', '&', ';'}) by {
      assert WordChar(t[SkipWhite(t, p)]);
    }
    var x := ExecRest(t, w.next, argc + 1);
    var none: seq<Redirection> := [];
    assert none + x.value.1 == none;
    assert x.value == (x.value.0, none);
  }

  lemma TextsNext(t: string, sp: Span, ws: seq<Span>, args: seq<string>)
    requires args != [] && Text(t, sp) == args[0] && Texts(t, ws) == args[1..]
    ensures Texts(t, [sp] + ws) == args
  {
    assert ([sp] + ws)[1..] == ws;
    assert args == [args[0]] + args[1..];
  }

  ghost predicate ReadsBack(t: string, r: Result<(seq<Span>, seq<Redirection>)>, args: seq<string>, pos: nat) {
    r.Ok? && r.pos == pos && r.value.1 == [] && Texts(t, r.value.0) == args
  }

  lemma WordBack(t: string, p: nat, argc: nat, args: seq<string>, tail: seq<string>, pos: nat, w: Token)
    requires IsLine(t) && p <= |t| && w == GetToken(t, p) && w.tok == Word && argc + 1 < MAXARGS
    requires Redirs(t, w.next) == Ok([], w.next)
    requires args != [] && tail == args[1..] && Text(t, Span(w.q, w.eq)) == args[0]
    requires ReadsBack(t, ExecRest(t, w.next, argc + 1), tail, pos)
    ensures ReadsBack(t, ExecRest(t, p, argc), args, pos)
  {
    ExecStep(t, p, argc, w);
    TextsNext(t, Span(w.q, w.eq), ExecRest(t, w.next, argc + 1).value.0, args);
  }

  lemma NoMoreWords(t: string, p: nat, argc: nat, s: string)
    requires At(t, p, s) && Stops(s)
    ensures ReadsBack(t, ExecRest(t, p, argc), [], p)
  {
    First(t, p, s);
  }

  lemma SpokenSolid(args: seq<string>, s: string)
    requires GoodWords(args) && Stops(s)
    ensures var x := Spoken(args, s);
            Solid(x) && (x == "" || (x[0] != '<' && x[0] != '>' && (args != [] ==> x[0] != '(')))
  {
    if args != [] {
      GoodTail(args);
    }
  }

  /** The first word of a simple command, and where the lexer stands after it. */
  lemma FirstWord(t: string, p: nat, x: string, s: string, w: Token)
    requires At(t, p, x + (" " + s)) && GoodWord(x) && Solid(s) && (s == "" || (s[0] != '<' && s[0] != '>'))
    requires w == GetToken(t, p)
    ensures w.tok == Word && Text(t, Span(w.q, w.eq)) == x && At(t, w.next, s) && Redirs(t, w.next) == Ok([], w.next)
  {
    WordNext(t, p, x, " " + s);
    var e := p + |x|;
    Next(t, e, " ", s);
    assert t[e] == ' ' by {
      assert t[e..e + 1][0] == ' ';
    }
    First(t, e + 1, s);
    NoRedirs(t, e + 1, s);
  }

  lemma NextWord(t: string, p: nat, args: seq<string>, tail: seq<string>, s: string, w: Token)
    requires At(t, p, Spoken(args, s)) && Stops(s) && args != [] && tail == args[1..] && GoodWords(args)
    requires w == GetToken(t, p)
    ensures w.tok == Word && Text(t, Span(w.q, w.eq)) == args[0] && At(t, w.next, Spoken(tail, s))
    ensures Redirs(t, w.next) == Ok([], w.next) && GoodWords(tail)
  {
    GoodTail(args);
    SpokenSolid(tail, s);
    FirstWord(t, p, args[0], Spoken(tail, s), w);
  }

  /** parseexec's loop reads back the words of a simple command, up to what follows it. */
  lemma {:induction false} WordsBack(t: string, p: nat, argc: nat, args: seq<string>, s: string)
    requires At(t, p, Spoken(args, s)) && Stops(s) && argc + |args| < MAXARGS && GoodWords(args)
    ensures |s| <= |t| && ReadsBack(t, ExecRest(t, p, argc), args, |t| - |s|)
    decreases |args|
  {
    if args == [] {
      NoMoreWords(t, p, argc, s);
    } else {
      var w, tail := GetToken(t, p), args[1..];
      NextWord(t, p, args, tail, s, w);
      assert ReadsBack(t, ExecRest(t, w.next, argc + 1), tail, |t| - |s|) by {
        WordsBack(t, w.next, argc + 1, tail, s);
      }
      WordBack(t, p, argc, args, tail, |t| - |s|, w);
    }
  }

  // ---------------------------------------------------------------- commands

  ghost predicate Parsed(t: string, r: Result<Cmd<Span>>, c: Cmd<string>, pos: nat) {
    r.Ok? && r.pos == pos && Named(t, r.value) == c
  }

  /** What was asked to follow a printed command does follow it. */
  lemma {:induction false} SpokenEnds(args: seq<string>, s: string) returns (pre: string)
    ensures Spoken(args, s) == pre + s
  {
    if args == [] {
      pre := "";
    } else {
      pre := SpokenEnds(args[1..], s);
      assert args[0] + (" " + (pre + s)) == (args[0] + " " + pre) + s;
      pre := args[0] + " " + pre;
    }
  }

  lemma Assoc(x: string, y: string, s: string)
    ensures (x + y) + s == x + (y + s)
  {}

  /** A parenthesised part, something after it, then s. */
  lemma EndsBlock(a: string, y: string, s: string) returns (pre: string)
    ensures pre + s == "(" + (a + (")" + (y + s)))
  {
    pre := "(" + (a + (")" + y));
    Assoc("(", a + (")" + y), s);
    Assoc(a, ")" + y, s);
    Assoc(")", y, s);
  }

  lemma {:induction false} PrintEnds(c: Cmd<string>, s: string) returns (pre: string)
    ensures PrintTo(c, s) == pre + s
    decreases c, 1
  {
    match c
    case Exec(args) =>
      pre := SpokenEnds(args, s);
    case Redir(d, file, m) =>
      var a := PrintEnds(d, ")" + (Op(m) + (file + s)));
      Assoc(Op(m), file, s);
      pre := EndsBlock(a, Op(m) + file, s);
    case Pipe(l, r) =>
      pre := BinaryEnds('|', c, s);
    case List(l, r) =>
      pre := BinaryEnds(';', c, s);
    case Back(d) =>
      var a := PrintEnds(d, ")" + ("&" + s));
      pre := EndsBlock(a, "&", s);
  }

  lemma {:induction false} BinaryEnds(op: char, c: Cmd<string>, s: string) returns (pre: string)
    requires c.Pipe? || c.List?
    ensures "(" + PrintTo(c.left, ")" + ([op] + ("(" + PrintTo(c.right, ")" + s)))) == pre + s
    decreases c, 0
  {
    var l, r := c.left, c.right;
    var b := PrintEnds(r, ")" + s);
    var right := "(" + PrintTo(r, ")" + s);
    var a := PrintEnds(l, ")" + ([op] + right));
    var y := EndsBlock(b, "", s);
    assert "" + s == s;
    Assoc([op], y, s);
    pre := EndsBlock(a, [op] + y, s);
  }

  lemma EndAt(t: string, p: nat, c: Cmd<string>, s: string)
    requires At(t, p, PrintTo(c, s))
    ensures |s| <= |t| && At(t, |t| - |s|, s)
  {
    var pre := PrintEnds(c, s);
    Next(t, p, pre, s);
  }

  lemma SimpleUnfold(t: string, p: nat, ws: seq<Span>, pos: nat)
    requires IsLine(t) && p <= |t| && !Peek(t, p, {'('}) && Redirs(t, p) == Ok([], p)
    requires ExecRest(t, p, 0) == Ok((ws, []), pos)
    ensures ParseExec(t, p) == Ok(Exec(ws), pos)
  {
    var none: seq<Redirection> := [];
    assert none + none == none;
  }

  lemma SimpleBack(t: string, p: nat, args: seq<string>, s: string)
    requires At(t, p, Spoken(args, s)) && Stops(s) && |args| < MAXARGS && GoodWords(args)
    ensures |s| <= |t| && Parsed(t, ParseExec(t, p), Exec(args), |t| - |s|)
  {
    var x := Spoken(args, s);
    SpokenSolid(args, s);
    First(t, p, x);
    NoRedirs(t, p, x);
    WordsBack(t, p, 0, args, s);
    SimpleUnfold(t, p, ExecRest(t, p, 0).value.0, |t| - |s|);
  }

  /** Peeking at and taking a symbol that stands next. */
  lemma SymbolAt(t: string, p: nat, c: char, s: string)
    requires At(t, p, [c] + s) && Symbol(c) && c != '>' && Solid(s)
    ensures p <= |t| && At(t, p + 1, s) && GetToken(t, p).next == p + 1 && GetToken(t, p).tok == Sym(c)
    ensures SkipWhite(t, p) == p < |t| && t[p] == c
  {
    SymbolNext(t, p, c, s);
    First(t, p, [c] + s);
  }

  lemma BlockUnfold(t: string, p: nat, d: Cmd<Span>, q: nat, rs: seq<Redirection>, pos: nat)
    requires IsLine(t) && p <= |t| && Peek(t, p, {'('}) && GetToken(t, p).next == p + 1
    requires ParseLine(t, p + 1) == Ok(d, q)
    requires q <= |t| && Peek(t, q, {')'}) && GetToken(t, q).next == q + 1 && Redirs(t, q + 1) == Ok(rs, pos)
    ensures ParseExec(t, p) == Ok(Wrap(d, rs), pos)
  {}

  /** A parenthesised command is what is inside, within the redirections that follow it. */
  lemma BlockBack(t: string, p: nat, c: Cmd<string>, d: Cmd<Span>, s: string, rs: seq<Redirection>, pos: nat)
    requires At(t, p, "(" + PrintTo(c, ")" + s)) && Solid(PrintTo(c, ")" + s)) && Solid(s) && |s| + 1 <= |t|
    requires p + 1 <= |t| && ParseLine(t, p + 1) == Ok(d, |t| - |s| - 1) && Redirs(t, |t| - |s|) == Ok(rs, pos)
    ensures ParseExec(t, p) == Ok(Wrap(d, rs), pos)
  {
    var x, q := PrintTo(c, ")" + s), |t| - |s| - 1;
    SymbolAt(t, p, '(', x);
    EndAt(t, p + 1, c, ")" + s);
    SymbolAt(t, q, ')', s);
    BlockUnfold(t, p, d, q, rs, pos);
  }

  lemma PipeUnfold(t: string, p: nat, q: nat)
    requires IsLine(t) && p <= |t| && ParseExec(t, p).Ok? && ParseExec(t, p).pos == q && SkipWhite(t, q) == q
    requires (q < |t| ==> t[q] != '|')
    ensures ParsePipe(t, p) == ParseExec(t, p)
  {
    assert !Peek(t, q, {'|'});
  }

  lemma PipeDone(t: string, p: nat, c: Cmd<string>, s: string)
    requires IsLine(t) && p <= |t| && |s| <= |t| && At(t, |t| - |s|, s) && Solid(s) && (s == "" || s[0] != '|')
    requires Parsed(t, ParseExec(t, p), c, |t| - |s|)
    ensures Parsed(t, ParsePipe(t, p), c, |t| - |s|)
  {
    First(t, |t| - |s|, s);
    PipeDoneAt(t, p, c, |t| - |s|);
  }

  lemma PipeDoneAt(t: string, p: nat, c: Cmd<string>, q: nat)
    requires IsLine(t) && p <= |t| && q <= |t| && SkipWhite(t, q) == q && (q < |t| ==> t[q] != '|')
    requires Parsed(t, ParseExec(t, p), c, q)
    ensures Parsed(t, ParsePipe(t, p), c, q)
  {
    PipeUnfold(t, p, q);
  }

  lemma LineUnfold(t: string, p: nat, q: nat)
    requires IsLine(t) && p <= |t| && ParsePipe(t, p).Ok? && ParsePipe(t, p).pos == q && SkipWhite(t, q) == q
    requires (q < |t| ==> t[q] == ')')
    ensures ParseLine(t, p) == ParsePipe(t, p)
  {
    NoBacks(t, q, ParsePipe(t, p).value);
    assert !Peek(t, q, {';'});
  }

  lemma LineDone(t: string, p: nat, c: Cmd<string>, s: string)
    requires IsLine(t) && p <= |t| && |s| <= |t| && At(t, |t| - |s|, s) && Stops(s)
    requires Parsed(t, ParsePipe(t, p), c, |t| - |s|)
    ensures Parsed(t, ParseLine(t, p), c, |t| - |s|)
  {
    First(t, |t| - |s|, s);
    LineUnfold(t, p, |t| - |s|);
  }

  lemma PrintSolid(c: Cmd<string>, s: string)
    requires Printable(c) && Stops(s)
    ensures Solid(PrintTo(c, s))
  {
    if c.Exec? {
      SpokenSolid(c.args, s);
    }
  }

  lemma BlockEnd(t: string, p: nat, c: Cmd<string>, s: string)
    requires At(t, p, "(" + PrintTo(c, ")" + s))
    ensures At(t, p + 1, PrintTo(c, ")" + s)) && |s| + 1 <= |t| && At(t, |t| - |s|, s)
  {
    Next(t, p, "(", PrintTo(c, ")" + s));
    EndAt(t, p + 1, c, ")" + s);
    Next(t, |t| - |s| - 1, ")", s);
  }

  predicate NoRedirNext(s: string) { s == "" || (s[0] != '<' && s[0] != '>') }

  /** Whatever is printed as x between the parentheses at p and q. */
  lemma PlainExec(t: string, p: nat, x: string, d: Cmd<Span>, q: nat, s: string)
    requires At(t, p, "(" + x) && Solid(x) && At(t, q, ")" + s) && Solid(s) && NoRedirNext(s)
    requires p + 1 <= |t| && ParseLine(t, p + 1) == Ok(d, q)
    ensures ParseExec(t, p) == Ok(d, q + 1)
  {
    SymbolAt(t, p, '(', x);
    SymbolAt(t, q, ')', s);
    NoRedirs(t, q + 1, s);
    BlockUnfold(t, p, d, q, [], q + 1);
  }

  lemma PlainAround(t: string, p: nat, x: string, c: Cmd<string>, q: nat, s: string)
    requires At(t, p, "(" + x) && Solid(x) && At(t, q, ")" + s) && Solid(s) && NoRedirNext(s)
    requires p + 1 <= |t| && Parsed(t, ParseLine(t, p + 1), c, q)
    ensures Parsed(t, ParseExec(t, p), c, q + 1)
  {
    PlainExec(t, p, x, ParseLine(t, p + 1).value, q, s);
  }

  lemma PlainClose(t: string, p: nat, x: string, c: Cmd<string>, y: string)
    requires At(t, p, "(" + x) && x == PrintTo(c, y)
    ensures p + 1 <= |t| && |y| <= |t| && At(t, |t| - |y|, y)
  {
    Next(t, p, "(", x);
    EndAt(t, p + 1, c, y);
  }

  lemma PlainSolid(x: string, c: Cmd<string>, y: string, s: string)
    requires x == PrintTo(c, y) && Printable(c) && y == ")" + s
    ensures Solid(x)
  {
    PrintSolid(c, y);
  }

  /** A parenthesised command with no redirection after it. */
  lemma PlainBlock(t: string, p: nat, c: Cmd<string>, s: string)
    requires At(t, p, "(" + PrintTo(c, ")" + s)) && Printable(c) && Solid(s) && NoRedirNext(s) && |s| + 1 <= |t|
    requires Parsed(t, ParseLine(t, p + 1), c, |t| - |s| - 1)
    ensures Parsed(t, ParseExec(t, p), c, |t| - |s|)
  {
    var y := ")" + s;
    var x := PrintTo(c, y);
    PlainClose(t, p, x, c, y);
    PlainSolid(x, c, y, s);
    PlainAround(t, p, x, c, |t| - |s| - 1, s);
  }

  /** The same where a pipe's right side may stand. */
  lemma BlockPipe(t: string, p: nat, c: Cmd<string>, s: string)
    requires At(t, p, "(" + PrintTo(c, ")" + s)) && Printable(c) && Solid(s) && NoRedirNext(s)
    requires (s == "" || s[0] != '|')
    requires |s| + 1 <= |t|
    requires Parsed(t, ParseLine(t, p + 1), c, |t| - |s| - 1)
    ensures Parsed(t, ParsePipe(t, p), c, |t| - |s|)
  {
    PlainBlock(t, p, c, s);
    BlockEnd(t, p, c, s);
    PipeDone(t, p, c, s);
  }

  lemma OpNext(t: string, p: nat, m: Mode, s: string)
    requires At(t, p, Op(m) + s) && s != "" && WordChar(s[0])
    ensures p <= |t| && Peek(t, p, {'<', '>'}) && ModeOf(GetToken(t, p).tok) == m && GetToken(t, p).next == p + |Op(m)|
    ensures At(t, p + |Op(m)|, s)
  {
    First(t, p, Op(m) + s);
    Next(t, p, Op(m), s);
    if m.Append? {
      TwiceNext(t, p, s);
    } else {
      SymbolNext(t, p, Op(m)[0], s);
    }
  }

  lemma RedirStep(t: string, p: nat, op: Token, file: Token, pos: nat)
    requires IsLine(t) && p <= |t| && Peek(t, p, {'<', '>'}) && op == GetToken(t, p) && file == GetToken(t, op.next)
    requires file.tok == Word
    requires Redirs(t, file.next) == Ok([], pos)
    ensures Redirs(t, p) == Ok([(Span(file.q, file.eq), ModeOf(op.tok))], pos)
  {
    var one, none: seq<Redirection> := [(Span(file.q, file.eq), ModeOf(op.tok))], [];
    assert one + none == one;
  }

  /** One redirection, and no more. */
  lemma OneRedir(t: string, p: nat, m: Mode, f: string, s: string) returns (sp: Span)
    requires At(t, p, Op(m) + (f + s)) && GoodWord(f) && Stops(s)
    ensures p <= |t| && |s| <= |t| && Redirs(t, p) == Ok([(sp, m)], |t| - |s|) && Text(t, sp) == f
  {
    OpNext(t, p, m, f + s);
    var q := p + |Op(m)|;
    WordNext(t, q, f, s);
    First(t, q + |f|, s);
    NoRedirs(t, q + |f|, s);
    sp := Span(q, q + |f|);
    RedirStep(t, p, GetToken(t, p), GetToken(t, q), q + |f|);
  }

  lemma RedirAfter(t: string, p: nat, d: Cmd<string>, f: string, m: Mode, s: string, s': string) returns (sp: Span)
    requires s' == Op(m) + (f + s) && At(t, p, "(" + PrintTo(d, ")" + s')) && GoodWord(f) && Stops(s)
    ensures |s'| <= |t| && |s| <= |t| && Redirs(t, |t| - |s'|) == Ok([(sp, m)], |t| - |s|) && Text(t, sp) == f
    ensures Solid(s')
  {
    BlockEnd(t, p, d, s');
    sp := OneRedir(t, |t| - |s'|, m, f, s);
    assert s'[0] == Op(m)[0];
  }

  lemma WrapNamed(t: string, d: Cmd<Span>, sp: Span, m: Mode, pos: nat)
    ensures Parsed(t, Ok(Wrap(d, [(sp, m)]), pos), Redir(Named(t, d), Text(t, sp), m), pos)
  {
    WrapOne(d, sp, m);
  }

  lemma RedirBack(t: string, p: nat, d: Cmd<string>, f: string, m: Mode, s: string, s': string)
    requires s' == Op(m) + (f + s) && At(t, p, "(" + PrintTo(d, ")" + s')) && |s'| + 1 <= |t|
    requires Parsed(t, ParseLine(t, p + 1), d, |t| - |s'| - 1)
    requires Printable(d) && GoodWord(f) && Stops(s)
    ensures |s| <= |t| && Parsed(t, ParseExec(t, p), Redir(d, f, m), |t| - |s|)
  {
    var sp := RedirAfter(t, p, d, f, m, s, s');
    PrintSolid(d, ")" + s');
    var inner := ParseLine(t, p + 1).value;
    BlockBack(t, p, d, inner, s', [(sp, m)], |t| - |s|);
    WrapNamed(t, inner, sp, m, |t| - |s|);
  }

  lemma WrapOne(c: Cmd<Span>, sp: Span, m: Mode)
    ensures Wrap(c, [(sp, m)]) == Redir(c, sp, m)
  {
    assert [(sp, m)][1..] == [];
  }

  lemma PipeStep(t: string, p: nat, l: Cmd<string>, r: Cmd<string>, q: nat, pos: nat)
    requires IsLine(t) && p <= |t| && Parsed(t, ParseExec(t, p), l, q) && q < |t| && SkipWhite(t, q) == q && t[q] == '|'
    requires GetToken(t, q).next == q + 1
    requires Parsed(t, ParsePipe(t, q + 1), r, pos)
    ensures Parsed(t, ParsePipe(t, p), Pipe(l, r), pos)
  {
    assert Peek(t, q, {'|'});
  }

  lemma NoBacks(t: string, p: nat, c: Cmd<Span>)
    requires IsLine(t) && p <= |t| && SkipWhite(t, p) == p && (p < |t| ==> t[p] != '&')
    ensures Backs(t, p, c) == Ok(c, p)
  {}

  lemma ListStep(t: string, p: nat, l: Cmd<string>, r: Cmd<string>, q: nat, pos: nat)
    requires IsLine(t) && p <= |t| && Parsed(t, ParsePipe(t, p), l, q) && q < |t| && SkipWhite(t, q) == q && t[q] == ';'
    requires GetToken(t, q).next == q + 1
    requires Parsed(t, ParseLine(t, q + 1), r, pos)
    ensures Parsed(t, ParseLine(t, p), List(l, r), pos)
  {
    NoBacks(t, q, ParsePipe(t, p).value);
    assert Peek(t, q, {';'});
  }

  lemma BackStep(t: string, p: nat, c: Cmd<string>, s: string)
    requires IsLine(t) && p <= |t| && |s| + 1 <= |t| && At(t, |t| - |s| - 1, "&" + s) && Stops(s)
    requires Parsed(t, ParsePipe(t, p), c, |t| - |s| - 1)
    ensures Parsed(t, ParseLine(t, p), Back(c), |t| - |s|)
  {
    var q := |t| - |s| - 1;
    SymbolAt(t, q, '&', s);
    First(t, q + 1, s);
    var d := ParsePipe(t, p).value;
    assert Peek(t, q, {'&'});
    NoBacks(t, q + 1, Back(d));
    assert Backs(t, q, d) == Ok(Back(d), q + 1);
  }

  lemma BlockLine(t: string, p: nat, c: Cmd<string>, s: string)
    requires At(t, p, "(" + PrintTo(c, ")" + s)) && Printable(c) && Stops(s) && |s| + 1 <= |t|
    requires Parsed(t, ParseLine(t, p + 1), c, |t| - |s| - 1)
    ensures Parsed(t, ParseLine(t, p), c, |t| - |s|)
  {
    BlockPipe(t, p, c, s);
    BlockEnd(t, p, c, s);
    LineDone(t, p, c, s);
  }

  lemma RedirCase(t: string, p: nat, d: Cmd<string>, f: string, m: Mode, s: string, s': string)
    requires s' == Op(m) + (f + s) && At(t, p, "(" + PrintTo(d, ")" + s')) && |s'| + 1 <= |t|
    requires Parsed(t, ParseLine(t, p + 1), d, |t| - |s'| - 1)
    requires Printable(d) && GoodWord(f) && Stops(s) && |s| <= |t| && At(t, |t| - |s|, s)
    ensures Parsed(t, ParseLine(t, p), Redir(d, f, m), |t| - |s|)
  {
    RedirBack(t, p, d, f, m, s, s');
    PipeDone(t, p, Redir(d, f, m), s);
    LineDone(t, p, Redir(d, f, m), s);
  }

  lemma PipeCase(t: string, p: nat, l: Cmd<string>, r: Cmd<string>, s: string, s1: string, q: nat)
    requires At(t, p, "(" + PrintTo(l, ")" + s1)) && s1 != "" && s1[0] == '|' && Printable(l) && q + |s1| == |t|
    requires 0 < q
    requires Parsed(t, ParseLine(t, p + 1), l, q - 1) && q < |t| && SkipWhite(t, q) == q && t[q] == '|'
    requires GetToken(t, q).next == q + 1
    requires |s| <= |t| && Parsed(t, ParsePipe(t, q + 1), r, |t| - |s|) && At(t, |t| - |s|, s) && Stops(s)
    ensures Parsed(t, ParseLine(t, p), Pipe(l, r), |t| - |s|)
  {
    PlainBlock(t, p, l, s1);
    PipeStep(t, p, l, r, q, |t| - |s|);
    LineDone(t, p, Pipe(l, r), s);
  }

  lemma ListCase(t: string, p: nat, l: Cmd<string>, r: Cmd<string>, s1: string, q: nat, pos: nat)
    requires At(t, p, "(" + PrintTo(l, ")" + s1)) && s1 != "" && s1[0] == ';' && Printable(l) && q + |s1| == |t|
    requires 0 < q
    requires Parsed(t, ParseLine(t, p + 1), l, q - 1) && q < |t| && SkipWhite(t, q) == q && t[q] == ';'
    requires GetToken(t, q).next == q + 1
    requires Parsed(t, ParseLine(t, q + 1), r, pos)
    ensures Parsed(t, ParseLine(t, p), List(l, r), pos)
  {
    BlockPipe(t, p, l, s1);
    ListStep(t, p, l, r, q, pos);
  }

  lemma BackCase(t: string, p: nat, d: Cmd<string>, s: string, s': string)
    requires s' == "&" + s && At(t, p, "(" + PrintTo(d, ")" + s')) && |s'| + 1 <= |t| && Printable(d) && Stops(s)
    requires Parsed(t, ParseLine(t, p + 1), d, |t| - |s'| - 1)
    ensures Parsed(t, ParseLine(t, p), Back(d), |t| - |s|)
  {
    BlockPipe(t, p, d, s');
    BlockEnd(t, p, d, s');
    BackStep(t, p, d, s);
  }

  /** The parser reads a printed command back, up to the end of the line or the closing parenthesis that follows. */
  lemma {:induction false} LineBack(t: string, p: nat, c: Cmd<string>, s: string)
    requires At(t, p, PrintTo(c, s)) && Printable(c) && Stops(s)
    ensures p <= |t| && |s| <= |t| && Parsed(t, ParseLine(t, p), c, |t| - |s|)
    decreases c, 1
  {
    EndAt(t, p, c, s);
    match c
    case Exec(args) =>
      SimpleBack(t, p, args, s);
      PipeDone(t, p, c, s);
      LineDone(t, p, c, s);
    case Redir(d, f, m) =>
      Inside(t, p, d, Op(m) + (f + s));
      RedirCase(t, p, d, f, m, s, Op(m) + (f + s));
    case Pipe(l, r) => PipeLine(t, p, l, r, s);
    case List(l, r) => ListLine(t, p, l, r, s);
    case Back(d) =>
      Inside(t, p, d, "&" + s);
      BackCase(t, p, d, s, "&" + s);
  }

  /** The same for what is inside parentheses. */
  lemma {:induction false} Inside(t: string, p: nat, c: Cmd<string>, s: string)
    requires At(t, p, "(" + PrintTo(c, ")" + s)) && Printable(c)
    ensures |s| + 1 <= |t| && p + 1 <= |t| && Parsed(t, ParseLine(t, p + 1), c, |t| - |s| - 1)
    decreases c, 2
  {
    BlockEnd(t, p, c, s);
    LineBack(t, p + 1, c, ")" + s);
  }

  lemma {:induction false} RightPipe(t: string, p: nat, c: Cmd<string>, s: string)
    requires At(t, p, "(" + PrintTo(c, ")" + s)) && Printable(c) && Stops(s)
    ensures p <= |t| && |s| <= |t| && Parsed(t, ParsePipe(t, p), c, |t| - |s|)
    decreases c, 3
  {
    Inside(t, p, c, s);
    BlockPipe(t, p, c, s);
  }

  lemma {:induction false} RightLine(t: string, p: nat, c: Cmd<string>, s: string)
    requires At(t, p, "(" + PrintTo(c, ")" + s)) && Printable(c) && Stops(s)
    ensures p <= |t| && |s| <= |t| && Parsed(t, ParseLine(t, p), c, |t| - |s|)
    decreases c, 3
  {
    Inside(t, p, c, s);
    BlockLine(t, p, c, s);
  }

  lemma {:induction false} PipeLine(t: string, p: nat, l: Cmd<string>, r: Cmd<string>, s: string)
    requires At(t, p, PrintTo(Pipe(l, r), s)) && Printable(l) && Printable(r) && Stops(s) && |s| <= |t|
    requires At(t, |t| - |s|, s)
    ensures p <= |t| && Parsed(t, ParseLine(t, p), Pipe(l, r), |t| - |s|)
    decreases Pipe(l, r), 0
  {
    var s2 := "(" + PrintTo(r, ")" + s);
    RightSide(t, p, '|', l, r, s);
    var q := |t| - |s2| - 1;
    RightPipe(t, q + 1, r, s);
    Inside(t, p, l, "|" + s2);
    PipeCase(t, p, l, r, s, "|" + s2, q);
  }

  lemma {:induction false} ListLine(t: string, p: nat, l: Cmd<string>, r: Cmd<string>, s: string)
    requires At(t, p, PrintTo(List(l, r), s)) && Printable(l) && Printable(r) && Stops(s) && |s| <= |t|
    ensures p <= |t| && Parsed(t, ParseLine(t, p), List(l, r), |t| - |s|)
    decreases List(l, r), 0
  {
    var s2 := "(" + PrintTo(r, ")" + s);
    RightSide(t, p, ';', l, r, s);
    var q := |t| - |s2| - 1;
    RightLine(t, q + 1, r, s);
    Inside(t, p, l, ";" + s2);
    ListCase(t, p, l, r, ";" + s2, q, |t| - |s|);
  }

  /** Where the right side of a pipe or a list stands. */
  lemma RightSide(t: string, p: nat, op: char, l: Cmd<string>, r: Cmd<string>, s: string)
    requires (op == '|' || op == ';') && At(t, p, "(" + PrintTo(l, ")" + ([op] + ("(" + PrintTo(r, ")" + s)))))
    ensures var s2 := "(" + PrintTo(r, ")" + s);
      && |s2| + 1 <= |t| && At(t, |t| - |s2|, s2) && At(t, |t| - |s2| + 1, PrintTo(r, ")" + s))
      && var q := |t| - |s2| - 1; q < |t| && SkipWhite(t, q) == q && t[q] == op && GetToken(t, q).next == q + 1
  {
    var s2 := "(" + PrintTo(r, ")" + s);
    BlockEnd(t, p, l, [op] + s2);
    SymbolAt(t, |t| - |s2| - 1, op, s2);
    Next(t, |t| - |s2|, "(", PrintTo(r, ")" + s));
  }

  lemma {:induction false} SpokenIsLine(args: seq<string>, s: string)
    requires GoodWords(args) && IsLine(s)
    ensures IsLine(Spoken(args, s))
  {
    if args != [] {
      GoodTail(args);
      SpokenIsLine(args[1..], s);
    }
  }

  lemma {:induction false} PrintIsLine(c: Cmd<string>, s: string)
    requires Printable(c) && IsLine(s)
    ensures IsLine(PrintTo(c, s))
    decreases c
  {
    match c
    case Exec(args) => SpokenIsLine(args, s);
    case Redir(d, file, m) => PrintIsLine(d, ")" + (Op(m) + (file + s)));
    case Pipe(l, r) =>
      PrintIsLine(r, ")" + s);
      PrintIsLine(l, ")" + ("|" + ("(" + PrintTo(r, ")" + s))));
    case List(l, r) =>
      PrintIsLine(r, ")" + s);
      PrintIsLine(l, ")" + (";" + ("(" + PrintTo(r, ")" + s))));
    case Back(d) => PrintIsLine(d, ")" + ("&" + s));
  }

  /** The parser inverts the printer: every printable tree comes back, word for word. */
  lemma ParsePrinted(c: Cmd<string>)
    requires Printable(c)
    ensures IsLine(Print(c)) && Parsed(Print(c), ParseCmd(Print(c)), c, |Print(c)|)
  {
    var t := Print(c);
    PrintIsLine(c, "");
    LineBack(t, 0, c, "");
  }
}
