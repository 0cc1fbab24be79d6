/** The command language of `sh.c`: its tokens, its recursive-descent grammar, and what the parser promises. */
module ShellGrammar {

  const MAXARGS: nat := 10
  const O_RDONLY: nat := 0x000
  const O_WRONLY: nat := 0x001
  const O_CREATE: nat := 0x200

  /** A NUL-terminated line, as the characters before its terminator. */
  type CString = s: string | '\0' !in s

  predicate IsSpace(c: char) {
    c == ' ' || c == '\t' || c == '\r' || c == '\n' || c == '\U{000B}'
  }

  predicate IsSymbol(c: char) {
    c == '<' || c == '|' || c == '>' || c == '&' || c == ';' || c == '(' || c == ')'
  }

  predicate IsWordChar(c: char) {
    c != '\0' && !IsSpace(c) && !IsSymbol(c)
  }

  /** The character that a pointer at offset `p` sees. */
  function At(s: CString, p: nat): char {
    if p < |s| then s[p] else '\0'
  }

  // ---- tokens ----

  /** Past the whitespace at `p`. */
  function Skip(s: CString, p: nat): (r: nat)
    requires p <= |s|
    ensures p <= r <= |s| && !IsSpace(At(s, r))
    decreases |s| - p
  {
    if p < |s| && IsSpace(s[p]) then Skip(s, p + 1) else p
  }

  /** Past the word characters at `p`. */
  function WordEnd(s: CString, p: nat): (r: nat)
    requires p <= |s|
    ensures p <= r <= |s|
    ensures p < |s| && IsWordChar(s[p]) ==> p < r
    ensures !IsWordChar(At(s, r))
    ensures forall x | p <= x < r :: IsWordChar(s[x])
    decreases |s| - p
  {
    if p < |s| && !IsSpace(s[p]) && !IsSymbol(s[p]) then WordEnd(s, p + 1) else p
  }

  /** `kind` is 0 at the end, 'a' for a word, '+' for ">>", and otherwise the symbol itself. */
  datatype Token = Token(kind: char, q: nat, eq: nat, next: nat)

  function GetToken(s: CString, p: nat): (t: Token)
    requires p <= |s|
    ensures p <= t.q <= t.eq <= t.next <= |s|
    ensures t.kind != '\0' ==> p < t.next
    ensures t.kind == 'a' ==> IsWord(s, t.q, t.eq)
    ensures !IsSpace(At(s, t.next))
  {
    var q := Skip(s, p);
    var c := At(s, q);
    if c == '\0' then Token('\0', q, q, q)
    else if c == '>' then
      if At(s, q + 1) == '>' then Token('+', q, q + 2, Skip(s, q + 2)) else Token('>', q, q + 1, Skip(s, q + 1))
    else if IsSymbol(c) then Token(c, q, q + 1, Skip(s, q + 1))
    else Token('a', q, WordEnd(s, q), Skip(s, WordEnd(s, q)))
  }

  /** The span from `q` to `eq` is a whole word: word characters that end where word characters end. */
  ghost predicate IsWord(s: CString, q: nat, eq: nat) {
    && q < eq <= |s|
    && (forall x | q <= x < eq :: IsWordChar(s[x]))
    && !IsWordChar(At(s, eq))
  }

  predicate PeekAt(s: CString, p: nat, toks: set<char>)
    requires p <= |s|
  {
    At(s, p) != '\0' && At(s, p) in toks
  }

  // ---- commands ----

  /** A word of the line, as the offsets of its first character and of the character after it. */
  datatype Span = Span(q: nat, eq: nat)

  datatype Redirect = Redirect(file: Span, mode: nat, fd: nat)

  datatype Cmd =
    | Exec(argv: seq<Span>)
    | Redir(cmd: Cmd, r: Redirect)
    | Pipe(left: Cmd, right: Cmd)
    | List(left: Cmd, right: Cmd)
    | Back(cmd: Cmd)

  /** The outcome of a parsing function: a value and the new cursor, or a panic. */
  datatype Parse<+T> = Ok(value: T, pos: nat) | Panics(message: string)

  /** Each redirection wraps the command built so far. */
  function Wrap(c: Cmd, rs: seq<Redirect>): Cmd {
    if rs == [] then c else Redir(Wrap(c, rs[..|rs| - 1]), rs[|rs| - 1])
  }

  function ToRedirect(kind: char, file: Span): Redirect {
    if kind == '<' then Redirect(file, O_RDONLY, 0) else Redirect(file, O_WRONLY + O_CREATE, 1)
  }

  /** `parseredirs`, collecting the redirections it finds after those in `rs`. */
  function ParseRedirs(s: CString, p: nat, rs: seq<Redirect>): (r: Parse<seq<Redirect>>)
    requires p <= |s|
    ensures r.Ok? ==> p <= r.pos <= |s|
    decreases |s| - p
  {
    var p1 := Skip(s, p);
    if !PeekAt(s, p1, {'<', '>'}) then Ok(rs, p1)
    else
      var tok := GetToken(s, p1);
      var file := GetToken(s, tok.next);
      if file.kind != 'a' then Panics("missing file for redirection")
      else ParseRedirs(s, file.next, rs + [ToRedirect(tok.kind, Span(file.q, file.eq))])
  }

  /** The words and redirections of a simple command. */
  datatype Simple = Simple(argv: seq<Span>, rs: seq<Redirect>)

  /** The loop of `parseexec`. */
  function ParseArgs(s: CString, p: nat, e: Simple): (r: Parse<Simple>)
    requires p <= |s|
    ensures r.Ok? ==> p <= r.pos <= |s|
    decreases |s| - p
  {
    var p1 := Skip(s, p);
    if PeekAt(s, p1, {'|', ')', '&', ';'}) then Ok(e, p1)
    else
      var tok := GetToken(s, p1);
      if tok.kind == '\0' then Ok(e, tok.next)
      else if tok.kind != 'a' then Panics("syntax")
      else if |e.argv| + 1 >= MAXARGS then Panics("too many args")
      else
        match ParseRedirs(s, tok.next, e.rs)
        case Panics(m) => Panics(m)
        case Ok(rs, p2) => ParseArgs(s, p2, Simple(e.argv + [Span(tok.q, tok.eq)], rs))
  }

  function ParseExec(s: CString, p: nat): (r: Parse<Cmd>)
    requires p <= |s|
    ensures r.Ok? ==> p <= r.pos <= |s|
    decreases |s| - p, 1
  {
    var p1 := Skip(s, p);
    if PeekAt(s, p1, {'('}) then ParseBlock(s, p1)
    else
      match ParseRedirs(s, p1, [])
      case Panics(m) => Panics(m)
      case Ok(rs, p2) =>
        match ParseArgs(s, p2, Simple([], rs))
        case Panics(m) => Panics(m)
        case Ok(e, p3) => Ok(Wrap(Exec(e.argv), e.rs), p3)
  }

  function ParseBlock(s: CString, p: nat): (r: Parse<Cmd>)
    requires p <= |s|
    ensures r.Ok? ==> p <= r.pos <= |s|
    decreases |s| - p, 0
  {
    var p1 := Skip(s, p);
    if !PeekAt(s, p1, {'('}) then Panics("parseblock")
    else
      match ParseLine(s, GetToken(s, p1).next)
      case Panics(m) => Panics(m)
      case Ok(c, p2) =>
        var p3 := Skip(s, p2);
        if !PeekAt(s, p3, {')'}) then Panics("syntax - missing )")
        else
          match ParseRedirs(s, GetToken(s, p3).next, [])
          case Panics(m) => Panics(m)
          case Ok(rs, p4) => Ok(Wrap(c, rs), p4)
  }

  function ParsePipe(s: CString, p: nat): (r: Parse<Cmd>)
    requires p <= |s|
    ensures r.Ok? ==> p <= r.pos <= |s|
    decreases |s| - p, 2
  {
    match ParseExec(s, p)
    case Panics(m) => Panics(m)
    case Ok(c, p1) =>
      var p2 := Skip(s, p1);
      if !PeekAt(s, p2, {'|'}) then Ok(c, p2)
      else
        match ParsePipe(s, GetToken(s, p2).next)
        case Panics(m) => Panics(m)
        case Ok(d, p3) => Ok(Pipe(c, d), p3)
  }

  /** The loop over '&' in `parseline`. */
  function ParseBacks(s: CString, p: nat, c: Cmd): (r: (Cmd, nat))
    requires p <= |s|
    ensures p <= r.1 <= |s|
    decreases |s| - p
  {
    var p1 := Skip(s, p);
    if PeekAt(s, p1, {'&'}) then ParseBacks(s, GetToken(s, p1).next, Back(c)) else (c, p1)
  }

  function ParseLine(s: CString, p: nat): (r: Parse<Cmd>)
    requires p <= |s|
    ensures r.Ok? ==> p <= r.pos <= |s|
    decreases |s| - p, 3
  {
    match ParsePipe(s, p)
    case Panics(m) => Panics(m)
    case Ok(c, p1) =>
      var (c2, p2) := ParseBacks(s, p1, c);
      var p3 := Skip(s, p2);
      if !PeekAt(s, p3, {';'}) then Ok(c2, p3)
      else
        match ParseLine(s, GetToken(s, p3).next)
        case Panics(m) => Panics(m)
        case Ok(d, p4) => Ok(List(c2, d), p4)
  }

  function ParseCmd(s: CString): (r: Parse<Cmd>)
    ensures r.Ok? ==> r.pos == |s|
  {
    match ParseLine(s, 0)
    case Panics(m) => Panics(m)
    case Ok(c, p) => if Skip(s, p) != |s| then Panics("syntax") else Ok(c, |s|)
  }
}
