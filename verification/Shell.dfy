/** The shell's grammar: tokens, the recursive-descent parser as functions of positions in the line, and a printer. */
module Shell {

  const MAXARGS := 10

  predicate White(c: char) { c == ' ' || c == '\t' || c == '\r' || c == '\n' || c == '\U{000b}' }

  predicate Symbol(c: char) { c == '<' || c == '|' || c == '>' || c == '&' || c == ';' || c == '(' || c == ')' }

  predicate WordChar(c: char) { !White(c) && !Symbol(c) && c != '\0' }

  // A piece of the line, from q up to eq.
  datatype Span = Span(q: nat, eq: nat)

  // The redirections <, > and >>.
  datatype Mode = Read | Write | Append

  datatype Cmd<W> =
    | Exec(args: seq<W>)
    | Redir(cmd: Cmd<W>, file: W, mode: Mode)
    | Pipe(left: Cmd<W>, right: Cmd<W>)
    | List(left: Cmd<W>, right: Cmd<W>)
    | Back(cmd: Cmd<W>)

  // ---------------------------------------------------------------- tokens

  function SkipWhite(t: string, p: nat): (s: nat)
    requires p <= |t|
    ensures p <= s <= |t| && (s < |t| ==> !White(t[s]))
    decreases |t| - p
  {
    if p < |t| && White(t[p]) then SkipWhite(t, p + 1) else p
  }

  function WordEnd(t: string, p: nat): (s: nat)
    requires p <= |t|
    ensures p <= s <= |t|
    decreases |t| - p
  {
    if p < |t| && WordChar(t[p]) then WordEnd(t, p + 1) else p
  }

  datatype Tok = End | Sym(c: char) | Twice | Word

  datatype Token = Token(tok: Tok, q: nat, eq: nat, next: nat)

  /** The line itself holds no NUL; the one after it ends it. */
  predicate IsLine(t: string) { forall i :: 0 <= i < |t| ==> t[i] != '\0' }

  /** gettoken: skip white space, take a token from q up to eq, skip white space. */
  function GetToken(t: string, p: nat): (r: Token)
    requires IsLine(t) && p <= |t|
    ensures p <= r.q <= r.eq <= r.next <= |t| && (r.tok != End ==> p < r.next)
  {
    var q := SkipWhite(t, p);
    if q == |t| then Token(End, q, q, q)
    else if t[q] == '>' && q + 1 < |t| && t[q + 1] == '>' then Token(Twice, q, q + 2, SkipWhite(t, q + 2))
    else if Symbol(t[q]) then Token(Sym(t[q]), q, q + 1, SkipWhite(t, q + 1))
    else Token(Word, q, WordEnd(t, q), SkipWhite(t, WordEnd(t, q)))
  }

  /** peek: is the next token's first character one of toks. */
  predicate Peek(t: string, p: nat, toks: set<char>)
    requires p <= |t|
  {
    var s := SkipWhite(t, p);
    s < |t| && t[s] in toks
  }

  // ---------------------------------------------------------------- the parser

  datatype Result<T> = Ok(value: T, pos: nat) | Panic

  ghost predicate Within<T>(r: Result<T>, p: nat, t: string) { r.Ok? ==> p <= r.pos <= |t| }

  type Redirection = (Span, Mode)

  function ModeOf(tok: Tok): Mode { if tok == Sym('<') then Read else if tok == Sym('>') then Write else Append }

  /** parseredirs: the redirections from p on, in order. */
  function Redirs(t: string, p: nat): (r: Result<seq<Redirection>>)
    requires IsLine(t) && p <= |t|
    ensures Within(r, p, t)
    decreases |t| - p
  {
    if !Peek(t, p, {'<', '>'}) then Ok([], SkipWhite(t, p))
    else
      var op := GetToken(t, p);
      var file := GetToken(t, op.next);
      if file.tok != Word then Panic
      else match Redirs(t, file.next)
        case Panic => Panic
        case Ok(rs, pos) => Ok([(Span(file.q, file.eq), ModeOf(op.tok))] + rs, pos)
  }

  // Each redirection goes around what is there already.
  function Wrap<W>(c: Cmd<W>, rs: seq<(W, Mode)>): Cmd<W>
    decreases |rs|
  {
    if rs == [] then c else Wrap(Redir(c, rs[0].0, rs[0].1), rs[1..])
  }

  /** parseexec's loop: the words and redirections that follow, given how many arguments there are already. */
  function ExecRest(t: string, p: nat, argc: nat): (r: Result<(seq<Span>, seq<Redirection>)>)
    requires IsLine(t) && p <= |t|
    ensures Within(r, p, t)
    decreases |t| - p
  {
    if Peek(t, p, {'|', ')', '&', ';'}) then Ok(([], []), SkipWhite(t, p))
    else
      var w := GetToken(t, p);
      if w.tok == End then Ok(([], []), w.next)
      else if w.tok != Word then Panic
      else if argc + 1 >= MAXARGS then Panic
      else match Redirs(t, w.next)
        case Panic => Panic
        case Ok(rs, pos) =>
          match ExecRest(t, pos, argc + 1)
          case Panic => Panic
          case Ok((ws, rs'), pos') => Ok(([Span(w.q, w.eq)] + ws, rs + rs'), pos')
  }

  /** parseexec for a simple command. */
  function Simple(t: string, p: nat): (r: Result<Cmd<Span>>)
    requires IsLine(t) && p <= |t|
    ensures Within(r, p, t)
  {
    match Redirs(t, p)
    case Panic => Panic
    case Ok(rs, pos) =>
      match ExecRest(t, pos, 0)
      case Panic => Panic
      case Ok((ws, rs'), pos') => Ok(Wrap(Exec(ws), rs + rs'), pos')
  }

  function ParseBlock(t: string, p: nat): (r: Result<Cmd<Span>>)
    requires IsLine(t) && p <= |t| && Peek(t, p, {'('})
    ensures Within(r, p, t)
    decreases |t| - p, 0
  {
    var open := GetToken(t, p);
    match ParseLine(t, open.next)
    case Panic => Panic
    case Ok(c, pos) =>
      if !Peek(t, pos, {')'}) then Panic
      else
        var close := GetToken(t, pos);
        match Redirs(t, close.next)
        case Panic => Panic
        case Ok(rs, pos') => Ok(Wrap(c, rs), pos')
  }

  function ParseExec(t: string, p: nat): (r: Result<Cmd<Span>>)
    requires IsLine(t) && p <= |t|
    ensures Within(r, p, t)
    decreases |t| - p, 1
  {
    if Peek(t, p, {'('}) then ParseBlock(t, p) else Simple(t, p)
  }

  function ParsePipe(t: string, p: nat): (r: Result<Cmd<Span>>)
    requires IsLine(t) && p <= |t|
    ensures Within(r, p, t)
    decreases |t| - p, 2
  {
    match ParseExec(t, p)
    case Panic => Panic
    case Ok(c, pos) =>
      if !Peek(t, pos, {'|'}) then Ok(c, SkipWhite(t, pos))
      else match ParsePipe(t, GetToken(t, pos).next)
        case Panic => Panic
        case Ok(d, pos') => Ok(Pipe(c, d), pos')
  }

  /** parseline's loop over "&". */
  function Backs(t: string, p: nat, c: Cmd<Span>): (r: Result<Cmd<Span>>)
    requires IsLine(t) && p <= |t|
    ensures Within(r, p, t) && r.Ok?
    decreases |t| - p
  {
    if !Peek(t, p, {'&'}) then Ok(c, SkipWhite(t, p)) else Backs(t, GetToken(t, p).next, Back(c))
  }

  function ParseLine(t: string, p: nat): (r: Result<Cmd<Span>>)
    requires IsLine(t) && p <= |t|
    ensures Within(r, p, t)
    decreases |t| - p, 3
  {
    match ParsePipe(t, p)
    case Panic => Panic
    case Ok(c0, pos0) =>
      var b := Backs(t, pos0, c0);
      if !Peek(t, b.pos, {';'}) then Ok(b.value, SkipWhite(t, b.pos))
      else match ParseLine(t, GetToken(t, b.pos).next)
        case Panic => Panic
        case Ok(d, pos) => Ok(List(b.value, d), pos)
  }

  /** parsecmd up to nulterminate: the whole line is one command, or the shell panics. */
  function ParseCmd(t: string): Result<Cmd<Span>>
    requires IsLine(t)
  {
    match ParseLine(t, 0)
    case Panic => Panic
    case Ok(c, pos) => if SkipWhite(t, pos) != |t| then Panic else Ok(c, |t|)
  }

  // ---------------------------------------------------------------- what the parser records

  /** A recorded piece is one whole word of the line: nothing but word characters, and none right after. */
  ghost predicate GoodSpan(t: string, sp: Span) {
    && sp.q < sp.eq <= |t| && (forall i :: sp.q <= i < sp.eq ==> WordChar(t[i]))
    && (sp.eq < |t| ==> !WordChar(t[sp.eq]))
  }

  ghost predicate GoodSpans(t: string, ws: seq<Span>) { forall i :: 0 <= i < |ws| ==> GoodSpan(t, ws[i]) }

  ghost predicate GoodRedirs(t: string, rs: seq<Redirection>) { forall i :: 0 <= i < |rs| ==> GoodSpan(t, rs[i].0) }

  ghost predicate GoodCmd(t: string, c: Cmd<Span>) {
    match c
    case Exec(args) => GoodSpans(t, args)
    case Redir(d, file, _) => GoodCmd(t, d) && GoodSpan(t, file)
    case Pipe(l, r) => GoodCmd(t, l) && GoodCmd(t, r)
    case List(l, r) => GoodCmd(t, l) && GoodCmd(t, r)
    case Back(d) => GoodCmd(t, d)
  }

  lemma {:induction false} WrapGood(t: string, c: Cmd<Span>, rs: seq<Redirection>)
    requires GoodCmd(t, c) && GoodRedirs(t, rs)
    ensures GoodCmd(t, Wrap(c, rs))
    decreases |rs|
  {
    if rs != [] {
      WrapGood(t, Redir(c, rs[0].0, rs[0].1), rs[1..]);
    }
  }

  lemma {:induction false} WordEndGood(t: string, p: nat)
    requires p <= |t|
    ensures var e := WordEnd(t, p); (e < |t| ==> !WordChar(t[e])) && forall i :: p <= i < e ==> WordChar(t[i])
    decreases |t| - p
  {
    if p < |t| && WordChar(t[p]) {
      WordEndGood(t, p + 1);
    }
  }

  lemma TokenGood(t: string, p: nat)
    requires IsLine(t) && p <= |t|
    ensures GetToken(t, p).tok == Word ==> GoodSpan(t, Span(GetToken(t, p).q, GetToken(t, p).eq))
  {
    WordEndGood(t, SkipWhite(t, p));
  }

  lemma {:induction false} RedirsGood(t: string, p: nat)
    requires IsLine(t) && p <= |t|
    ensures Redirs(t, p).Ok? ==> GoodRedirs(t, Redirs(t, p).value)
    decreases |t| - p
  {
    if Peek(t, p, {'<', '>'}) {
      var file := GetToken(t, GetToken(t, p).next);
      TokenGood(t, GetToken(t, p).next);
      if file.tok == Word {
        RedirsGood(t, file.next);
      }
    }
  }

  ghost predicate GoodRest(t: string, r: Result<(seq<Span>, seq<Redirection>)>) {
    r.Ok? ==> GoodSpans(t, r.value.0) && GoodRedirs(t, r.value.1)
  }

  lemma GoodCat(t: string, w: Span, ws: seq<Span>, rs: seq<Redirection>, rs': seq<Redirection>)
    requires GoodSpan(t, w) && GoodSpans(t, ws) && GoodRedirs(t, rs) && GoodRedirs(t, rs')
    ensures GoodSpans(t, [w] + ws) && GoodRedirs(t, rs + rs')
  {}

  predicate RestGoesOn(t: string, p: nat, argc: nat, w: Token)
    requires IsLine(t) && p <= |t| && w == GetToken(t, p)
  {
    !Peek(t, p, {'|', ')', '&', ';'}) && w.tok == Word && argc + 1 < MAXARGS && Redirs(t, w.next).Ok?
  }

  lemma RestEnds(t: string, p: nat, argc: nat, w: Token)
    requires IsLine(t) && p <= |t| && w == GetToken(t, p) && !RestGoesOn(t, p, argc, w)
    ensures GoodRest(t, ExecRest(t, p, argc))
  {}

  lemma RestStep(t: string, p: nat, argc: nat, w: Token)
    requires IsLine(t) && p <= |t| && w == GetToken(t, p) && RestGoesOn(t, p, argc, w)
    requires GoodRedirs(t, Redirs(t, w.next).value) && GoodSpan(t, Span(w.q, w.eq))
    requires GoodRest(t, ExecRest(t, Redirs(t, w.next).pos, argc + 1))
    ensures GoodRest(t, ExecRest(t, p, argc))
  {
    var rs := Redirs(t, w.next);
    var more := ExecRest(t, rs.pos, argc + 1);
    if more.Ok? {
      GoodCat(t, Span(w.q, w.eq), more.value.0, rs.value, more.value.1);
    }
  }

  lemma {:induction false} ExecRestGood(t: string, p: nat, argc: nat)
    requires IsLine(t) && p <= |t|
    ensures GoodRest(t, ExecRest(t, p, argc))
    decreases |t| - p
  {
    var w := GetToken(t, p);
    if RestGoesOn(t, p, argc, w) {
      TokenGood(t, p);
      RedirsGood(t, w.next);
      ExecRestGood(t, Redirs(t, w.next).pos, argc + 1);
      RestStep(t, p, argc, w);
    } else {
      RestEnds(t, p, argc, w);
    }
  }

  lemma SimpleGood(t: string, p: nat)
    requires IsLine(t) && p <= |t|
    ensures Simple(t, p).Ok? ==> GoodCmd(t, Simple(t, p).value)
  {
    RedirsGood(t, p);
    var rs := Redirs(t, p);
    if rs.Ok? {
      ExecRestGood(t, rs.pos, 0);
      var ws := ExecRest(t, rs.pos, 0);
      if ws.Ok? {
        WrapGood(t, Exec(ws.value.0), rs.value + ws.value.1);
      }
    }
  }

  lemma {:induction false} BlockGood(t: string, p: nat)
    requires IsLine(t) && p <= |t| && Peek(t, p, {'('})
    ensures ParseBlock(t, p).Ok? ==> GoodCmd(t, ParseBlock(t, p).value)
    decreases |t| - p, 0
  {
    LineGood(t, GetToken(t, p).next);
    var c := ParseLine(t, GetToken(t, p).next);
    if c.Ok? && Peek(t, c.pos, {')'}) {
      var close := GetToken(t, c.pos);
      RedirsGood(t, close.next);
      if Redirs(t, close.next).Ok? {
        WrapGood(t, c.value, Redirs(t, close.next).value);
      }
    }
  }

  lemma {:induction false} PipeGood(t: string, p: nat)
    requires IsLine(t) && p <= |t|
    ensures ParsePipe(t, p).Ok? ==> GoodCmd(t, ParsePipe(t, p).value)
    decreases |t| - p, 2
  {
    if Peek(t, p, {'('}) {
      BlockGood(t, p);
    } else {
      SimpleGood(t, p);
    }
    var c := ParseExec(t, p);
    if c.Ok? && Peek(t, c.pos, {'|'}) {
      PipeGood(t, GetToken(t, c.pos).next);
    }
  }

  lemma {:induction false} BacksGood(t: string, p: nat, c: Cmd<Span>)
    requires IsLine(t) && p <= |t| && GoodCmd(t, c)
    ensures GoodCmd(t, Backs(t, p, c).value)
    decreases |t| - p
  {
    if Peek(t, p, {'&'}) {
      BacksGood(t, GetToken(t, p).next, Back(c));
    }
  }

  /** Whatever line the parser accepts, every piece it records is one whole word. */
  lemma {:induction false} LineGood(t: string, p: nat)
    requires IsLine(t) && p <= |t|
    ensures ParseLine(t, p).Ok? ==> GoodCmd(t, ParseLine(t, p).value)
    decreases |t| - p, 3
  {
    PipeGood(t, p);
    var c := ParsePipe(t, p);
    if c.Ok? {
      BacksGood(t, c.pos, c.value);
      var b := Backs(t, c.pos, c.value);
      if Peek(t, b.pos, {';'}) {
        LineGood(t, GetToken(t, b.pos).next);
      }
    }
  }
}
