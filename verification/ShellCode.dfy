/** The shell's lexer and parser as they run over the line, and the in-place termination of words. */
module ShellCode {

  import opened Shell
  import opened ShellPrint

  method SkipBlanks(t: string, p: nat) returns (s: nat)
    requires p <= |t|
    ensures s == SkipWhite(t, p)
  {
    s := p;
    while s < |t| && White(t[s])
      invariant p <= s <= |t| && SkipWhite(t, s) == SkipWhite(t, p)
    {
      s := s + 1;
    }
  }

  /** gettoken, with its loops over white space and over a word. */
  method LexToken(t: string, p: nat) returns (r: Token)
    requires IsLine(t) && p <= |t|
    ensures r == GetToken(t, p)
  {
    var q := SkipBlanks(t, p);
    var s, ret := q, End;
    if s < |t| {
      if t[s] == '|' || t[s] == '(' || t[s] == ')' || t[s] == ';' || t[s] == '&' || t[s] == '<' {
        ret := Sym(t[s]);
        s := s + 1;
      } else if t[s] == '>' {
        ret := Sym('>');
        s := s + 1;
        if s < |t| && t[s] == '>' {
          ret := Twice;
          s := s + 1;
        }
      } else {
        ret := Word;
        while s < |t| && !White(t[s]) && !Symbol(t[s])
          invariant q <= s <= |t| && WordEnd(t, s) == WordEnd(t, q)
        {
          s := s + 1;
        }
      }
    }
    var next := SkipBlanks(t, s);
    r := Token(ret, q, s, next);
  }

  method LexPeek(t: string, p: nat, toks: set<char>) returns (hit: bool, s: nat)
    requires p <= |t|
    ensures hit == Peek(t, p, toks) && s == SkipWhite(t, p)
  {
    s := SkipBlanks(t, p);
    hit := s < |t| && t[s] in toks;
  }

  function Prepend(rs: seq<Redirection>, r: Result<seq<Redirection>>): Result<seq<Redirection>>
  {
    match r case Panic => Panic case Ok(v, pos) => Ok(rs + v, pos)
  }

  lemma PrependOne(rs: seq<Redirection>, x: Redirection, r: Result<seq<Redirection>>)
    ensures Prepend(rs, Prepend([x], r)) == Prepend(rs + [x], r)
  {
    if r.Ok? {
      assert rs + ([x] + r.value) == rs + [x] + r.value;
    }
  }

  lemma SkipTwice(t: string, p: nat)
    requires p <= |t|
    ensures SkipWhite(t, SkipWhite(t, p)) == SkipWhite(t, p)
  {}

  lemma TokenSkip(t: string, p: nat)
    requires IsLine(t) && p <= |t|
    ensures GetToken(t, SkipWhite(t, p)) == GetToken(t, p)
  {
    SkipTwice(t, p);
  }

  lemma PrependNone(r: Result<seq<Redirection>>)
    ensures Prepend([], r) == r
  {
    if r.Ok? {
      assert [] + r.value == r.value;
    }
  }

  /** The loop of parseredirs. */
  method ReadRedirs(t: string, p: nat) returns (r: Result<seq<Redirection>>)
    requires IsLine(t) && p <= |t|
    ensures r == Redirs(t, p)
  {
    var rs: seq<Redirection> := [];
    var s := p;
    PrependNone(Redirs(t, p));
    while true
      invariant s <= |t| && Redirs(t, p) == Prepend(rs, Redirs(t, s))
      decreases |t| - s
    {
      var hit, s1 := LexPeek(t, s, {'<', '>'});
      if !hit {
        assert rs + [] == rs;
        return Ok(rs, s1);
      }
      TokenSkip(t, s);
      var op := LexToken(t, s1);
      var file := LexToken(t, op.next);
      if file.tok != Word {
        return Panic;
      }
      ghost var x := (Span(file.q, file.eq), ModeOf(op.tok));
      PrependOne(rs, x, Redirs(t, file.next));
      assert Redirs(t, s) == Prepend([x], Redirs(t, file.next));
      rs, s := rs + [(Span(file.q, file.eq), ModeOf(op.tok))], file.next;
    }
  }

  // ---------------------------------------------------------------- nulterminate

  /** Where nulterminate writes. */
  function Ends(c: Cmd<Span>): set<nat>
  {
    match c
    case Exec(args) => set i | 0 <= i < |args| :: args[i].eq
    case Redir(d, file, _) => Ends(d) + {file.eq}
    case Pipe(l, r) => Ends(l) + Ends(r)
    case List(l, r) => Ends(l) + Ends(r)
    case Back(d) => Ends(d)
  }

  /** The pieces a tree records. */
  function Spans(c: Cmd<Span>): set<Span>
  {
    match c
    case Exec(args) => set i | 0 <= i < |args| :: args[i]
    case Redir(d, file, _) => Spans(d) + {file}
    case Pipe(l, r) => Spans(l) + Spans(r)
    case List(l, r) => Spans(l) + Spans(r)
    case Back(d) => Spans(d)
  }

  ghost predicate Fits(c: Cmd<Span>, n: nat) {
    match c
    case Exec(args) => forall i :: 0 <= i < |args| ==> args[i].eq < n
    case Redir(d, file, _) => Fits(d, n) && file.eq < n
    case Pipe(l, r) => Fits(l, n) && Fits(r, n)
    case List(l, r) => Fits(l, n) && Fits(r, n)
    case Back(d) => Fits(d, n)
  }

  ghost predicate Cleared(buf: seq<char>, was: seq<char>, ends: set<nat>) {
    |buf| == |was| && forall i :: 0 <= i < |was| ==> buf[i] == if i in ends then '\0' else was[i]
  }

  /** nulterminate: a NUL goes right after every recorded piece, and nowhere else. */
  method NulTerminate(c: Cmd<Span>, buf: array<char>)
    requires Fits(c, buf.Length)
    modifies buf
    ensures Cleared(buf[..], old(buf[..]), Ends(c))
    decreases c
  {
    match c
    case Exec(args) =>
      var i := 0;
      while i < |args|
        invariant 0 <= i <= |args| && Cleared(buf[..], old(buf[..]), set j | 0 <= j < i :: args[j].eq)
      {
        buf[args[i].eq] := '\0';
        i := i + 1;
      }
    case Redir(d, file, _) =>
      NulTerminate(d, buf);
      buf[file.eq] := '\0';
    case Pipe(l, r) =>
      NulTerminate(l, buf);
      NulTerminate(r, buf);
    case List(l, r) =>
      NulTerminate(l, buf);
      NulTerminate(r, buf);
    case Back(d) =>
      NulTerminate(d, buf);
  }

  /** The C string that starts at q. */
  function CString(buf: seq<char>, q: nat): string
    requires q <= |buf|
    decreases |buf| - q
  {
    if q == |buf| || buf[q] == '\0' then "" else [buf[q]] + CString(buf, q + 1)
  }

  lemma {:induction false} CStringIs(buf: seq<char>, q: nat, e: nat)
    requires q <= e < |buf| && buf[e] == '\0' && forall i :: q <= i < e ==> buf[i] != '\0'
    ensures CString(buf, q) == buf[q..e]
    decreases e - q
  {
    if q < e {
      CStringIs(buf, q + 1, e);
      assert buf[q..e] == [buf[q]] + buf[q + 1..e];
    }
  }

  lemma {:induction false} GoodParts(t: string, c: Cmd<Span>)
    requires GoodCmd(t, c)
    ensures Fits(c, |t| + 1) && (forall sp :: sp in Spans(c) ==> GoodSpan(t, sp) && sp.eq in Ends(c))
    ensures forall e :: e in Ends(c) ==> e <= |t| && (e < |t| ==> !WordChar(t[e]))
    decreases c
  {
    match c
    case Exec(args) =>
    case Redir(d, file, _) =>
      GoodParts(t, d);
    case Pipe(l, r) =>
      GoodParts(t, l);
      GoodParts(t, r);
    case List(l, r) =>
      GoodParts(t, l);
      GoodParts(t, r);
    case Back(d) =>
      GoodParts(t, d);
  }

  /** Once terminated, every piece the tree records reads as exactly its word: no NUL fell inside another piece. */
  lemma WordsTerminated(t: string, c: Cmd<Span>, buf: seq<char>, sp: Span)
    requires IsLine(t) && GoodCmd(t, c) && Cleared(buf, t + ['\0'], Ends(c)) && sp in Spans(c)
    ensures GoodSpan(t, sp) && CString(buf, sp.q) == Text(t, sp)
  {
    GoodParts(t, c);
    var z := t + ['\0'];
    forall i | sp.q <= i < sp.eq
      ensures buf[i] == t[i] != '\0'
    {
      assert z[i] == t[i];
    }
    CStringIs(buf, sp.q, sp.eq);
    assert buf[sp.q..sp.eq] == t[sp.q..sp.eq];
  }

  // ---------------------------------------------------------------- the recursive descent

  function Extend(ws: seq<Span>, rs: seq<Redirection>,
                  r: Result<(seq<Span>, seq<Redirection>)>): Result<(seq<Span>, seq<Redirection>)>
  {
    match r case Panic => Panic case Ok(v, pos) => Ok((ws + v.0, rs + v.1), pos)
  }

  lemma ExtendOne(ws: seq<Span>, rs: seq<Redirection>, w: Span, rs1: seq<Redirection>,
                  r: Result<(seq<Span>, seq<Redirection>)>)
    ensures Extend(ws, rs, Extend([w], rs1, r)) == Extend(ws + [w], rs + rs1, r)
  {
    if r.Ok? {
      assert ws + ([w] + r.value.0) == ws + [w] + r.value.0 && rs + (rs1 + r.value.1) == rs + rs1 + r.value.1;
    }
  }

  lemma ExtendNone(r: Result<(seq<Span>, seq<Redirection>)>)
    ensures Extend([], [], r) == r
  {
    if r.Ok? {
      assert [] + r.value.0 == r.value.0 && [] + r.value.1 == r.value.1;
    }
  }

  /** One turn of parseexec's loop, as the functions describe it. */
  lemma ExecTurn(t: string, p: nat, argc: nat, w: Token, rs: seq<Redirection>, pos: nat)
    requires IsLine(t) && p <= |t| && !Peek(t, p, {'|', ')', '&', ';'}) && w == GetToken(t, p) && w.tok == Word
    requires argc + 1 < MAXARGS
    requires Redirs(t, w.next) == Ok(rs, pos)
    ensures ExecRest(t, p, argc) == Extend([Span(w.q, w.eq)], rs, ExecRest(t, pos, argc + 1))
  {}

  /** parseexec's loop; argc counts the words, and the tenth is one too many. */
  method ReadWords(t: string, p: nat) returns (r: Result<(seq<Span>, seq<Redirection>)>)
    requires IsLine(t) && p <= |t|
    ensures r == ExecRest(t, p, 0)
  {
    var ws: seq<Span>, rs: seq<Redirection> := [], [];
    var s, argc := p, 0;
    ExtendNone(ExecRest(t, p, 0));
    while true
      invariant s <= |t| && argc == |ws| && ExecRest(t, p, 0) == Extend(ws, rs, ExecRest(t, s, argc))
      decreases |t| - s
    {
      var hit, s1 := LexPeek(t, s, {'|', ')', '&', ';'});
      assert ws + [] == ws && rs + [] == rs;
      if hit {
        return Ok((ws, rs), s1);
      }
      TokenSkip(t, s);
      var w := LexToken(t, s1);
      if w.tok == End {
        return Ok((ws, rs), w.next);
      }
      if w.tok != Word {
        return Panic;
      }
      if argc + 1 >= MAXARGS {
        return Panic;
      }
      var more := ReadRedirs(t, w.next);
      if more.Panic? {
        return Panic;
      }
      ExecTurn(t, s, argc, w, more.value, more.pos);
      ExtendOne(ws, rs, Span(w.q, w.eq), more.value, ExecRest(t, more.pos, argc + 1));
      ws, rs, s, argc := ws + [Span(w.q, w.eq)], rs + more.value, more.pos, argc + 1;
    }
  }

  /** parseblock; the caller has seen the parenthesis. */
  method Block(t: string, p: nat) returns (r: Result<Cmd<Span>>)
    requires IsLine(t) && p <= |t| && Peek(t, p, {'('})
    ensures r == ParseBlock(t, p)
    decreases |t| - p, 0
  {
    var open := LexToken(t, p);
    var inner := Line(t, open.next);
    if inner.Panic? {
      return Panic;
    }
    var hit, s := LexPeek(t, inner.pos, {')'});
    if !hit {
      return Panic;
    }
    TokenSkip(t, inner.pos);
    var close := LexToken(t, s);
    var more := ReadRedirs(t, close.next);
    if more.Panic? {
      return Panic;
    }
    return Ok(Wrap(inner.value, more.value), more.pos);
  }

  /** parseexec. In the source the words go into a node that the redirections already surround. */
  method ExecCommand(t: string, p: nat) returns (r: Result<Cmd<Span>>)
    requires IsLine(t) && p <= |t|
    ensures r == ParseExec(t, p)
    decreases |t| - p, 1
  {
    var hit, s := LexPeek(t, p, {'('});
    if hit {
      r := Block(t, p);
      return;
    }
    var before := ReadRedirs(t, p);
    if before.Panic? {
      return Panic;
    }
    var words := ReadWords(t, before.pos);
    if words.Panic? {
      return Panic;
    }
    return Ok(Wrap(Exec(words.value.0), before.value + words.value.1), words.pos);
  }

  /** parsepipe. */
  method PipeLeft(t: string, p: nat) returns (r: Result<Cmd<Span>>)
    requires IsLine(t) && p <= |t|
    ensures r == ParsePipe(t, p)
    decreases |t| - p, 2
  {
    var left := ExecCommand(t, p);
    if left.Panic? {
      return Panic;
    }
    var hit, s := LexPeek(t, left.pos, {'|'});
    if !hit {
      return Ok(left.value, s);
    }
    TokenSkip(t, left.pos);
    var bar := LexToken(t, s);
    var right := PipeLeft(t, bar.next);
    if right.Panic? {
      return Panic;
    }
    return Ok(Pipe(left.value, right.value), right.pos);
  }

  /** parseline's loop over "&". */
  method Ampersands(t: string, p: nat, c: Cmd<Span>) returns (d: Cmd<Span>, s: nat)
    requires IsLine(t) && p <= |t|
    ensures s <= |t| && Backs(t, p, c) == Ok(d, s)
  {
    d, s := c, p;
    while true
      invariant s <= |t| && Backs(t, p, c) == Backs(t, s, d)
      decreases |t| - s
    {
      var hit, s1 := LexPeek(t, s, {'&'});
      if !hit {
        return d, s1;
      }
      TokenSkip(t, s);
      var amp := LexToken(t, s1);
      d, s := Back(d), amp.next;
    }
  }

  /** parseline. */
  method Line(t: string, p: nat) returns (r: Result<Cmd<Span>>)
    requires IsLine(t) && p <= |t|
    ensures r == ParseLine(t, p)
    decreases |t| - p, 3
  {
    var first := PipeLeft(t, p);
    if first.Panic? {
      return Panic;
    }
    var c, q := Ampersands(t, first.pos, first.value);
    var hit, s := LexPeek(t, q, {';'});
    if !hit {
      return Ok(c, s);
    }
    TokenSkip(t, q);
    var semi := LexToken(t, s);
    var rest := Line(t, semi.next);
    if rest.Panic? {
      return Panic;
    }
    return Ok(List(c, rest.value), rest.pos);
  }

  /**
   * parsecmd on a NUL-terminated buffer: the tree of the line, or a panic; and then every word it records is a C string
   * of its own in the buffer.
   */
  method Command(buf: array<char>) returns (r: Result<Cmd<Span>>)
    requires 0 < buf.Length && buf[buf.Length - 1] == '\0' && IsLine(buf[..buf.Length - 1])
    modifies buf
    ensures r == ParseCmd(old(buf[..buf.Length - 1]))
    ensures r.Ok? ==> forall sp :: sp in Spans(r.value) ==>
      GoodSpan(old(buf[..buf.Length - 1]), sp) && CString(buf[..], sp.q) == Text(old(buf[..buf.Length - 1]), sp)
  {
    var t := buf[..buf.Length - 1];
    ghost var was := buf[..];
    assert was == t + ['\0'];
    var line := Line(t, 0);
    if line.Panic? {
      return Panic;
    }
    var s := SkipBlanks(t, line.pos);
    if s != |t| {
      return Panic;
    }
    LineGood(t, 0);
    GoodParts(t, line.value);
    NulTerminate(line.value, buf);
    forall sp | sp in Spans(line.value)
      ensures GoodSpan(t, sp) && CString(buf[..], sp.q) == Text(t, sp)
    {
      WordsTerminated(t, line.value, buf[..], sp);
    }
    return Ok(line.value, |t|);
  }
}
