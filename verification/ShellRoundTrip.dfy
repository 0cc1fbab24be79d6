/** Every command tree of ordinary words has a spelling, fully parenthesised, that parses back to it. */
module ShellRoundTrip {
  import opened ShellGrammar

  /** A command as a tree of words. Both ">" and ">>" open the file for writing, so a redirection is in or out. */
  datatype Tree =
    | TExec(words: seq<string>)
    | TRedir(t: Tree, file: string, out: bool)
    | TPipe(l: Tree, r: Tree)
    | TList(l: Tree, r: Tree)
    | TBack(t: Tree)

  ghost predicate Word(w: string) {
    w != "" && forall i | 0 <= i < |w| :: IsWordChar(w[i])
  }

  /** Ordinary words, and fewer than MAXARGS of them in each command. */
  ghost predicate Ordinary(t: Tree) {
    match t
    case TExec(ws) => |ws| < MAXARGS && forall i | 0 <= i < |ws| :: Word(ws[i])
    case TRedir(u, f, _) => Ordinary(u) && Word(f)
    case TPipe(l, r) => Ordinary(l) && Ordinary(r)
    case TList(l, r) => Ordinary(l) && Ordinary(r)
    case TBack(u) => Ordinary(u)
  }

  // ---- spelling ----

  function SpellFrom(ws: seq<string>, k: nat): string
    decreases |ws| - k
  {
    if k >= |ws| then "" else ws[k] + " " + SpellFrom(ws, k + 1)
  }

  function Paren(t: Tree): string
    decreases t, 1
  {
    "(" + Spell(t) + ")"
  }

  function Spell(t: Tree): string
    decreases t, 0
  {
    match t
    case TExec(ws) => SpellFrom(ws, 0)
    case TRedir(u, f, out) => Paren(u) + (if out then ">" else "<") + (f + " ")
    case TPipe(l, r) => Paren(l) + "|" + Paren(r)
    case TList(l, r) => Paren(l) + ";" + Paren(r)
    case TBack(u) => Paren(u) + "&"
  }

  lemma {:induction false} SpellFromNoNul(ws: seq<string>, k: nat)
    requires forall i | 0 <= i < |ws| :: Word(ws[i])
    ensures '\0' !in SpellFrom(ws, k)
    decreases |ws| - k
  {
    if k < |ws| {
      SpellFromNoNul(ws, k + 1);
      assert Word(ws[k]);
    }
  }

  lemma {:induction false} SpellNoNul(t: Tree)
    requires Ordinary(t)
    ensures '\0' !in Spell(t)
  {
    match t {
      case TExec(ws) => SpellFromNoNul(ws, 0);
      case TRedir(u, f, _) => SpellNoNul(u);
      case TPipe(l, r) =>
        SpellNoNul(l);
        SpellNoNul(r);
      case TList(l, r) =>
        SpellNoNul(l);
        SpellNoNul(r);
      case TBack(u) => SpellNoNul(u);
    }
  }

  // ---- reading a parsed command ----

  function Text(s: CString, w: Span): string {
    if w.q <= w.eq <= |s| then s[w.q..w.eq] else ""
  }

  function Texts(s: CString, ws: seq<Span>): (r: seq<string>)
    ensures |r| == |ws|
  {
    seq(|ws|, i requires 0 <= i < |ws| => Text(s, ws[i]))
  }

  function Reads(s: CString, c: Cmd): Tree {
    match c
    case Exec(argv) => TExec(Texts(s, argv))
    case Redir(d, r) => TRedir(Reads(s, d), Text(s, r.file), r.fd == 1)
    case Pipe(l, r) => TPipe(Reads(s, l), Reads(s, r))
    case List(l, r) => TList(Reads(s, l), Reads(s, r))
    case Back(d) => TBack(Reads(s, d))
  }

  // ---- text at a position ----

  ghost predicate Has(s: CString, p: nat, w: string) {
    p + |w| <= |s| && forall i | 0 <= i < |w| :: s[p + i] == w[i]
  }

  lemma HasParts(s: CString, p: nat, a: string, b: string)
    requires Has(s, p, a + b)
    ensures Has(s, p, a) && Has(s, p + |a|, b)
  {
    var w := a + b;
    forall i | 0 <= i < |a| ensures s[p + i] == a[i] {
      assert w[i] == a[i];
    }
    forall i | 0 <= i < |b| ensures s[p + |a| + i] == b[i] {
      assert w[|a| + i] == b[i];
    }
  }

  lemma HasChar(s: CString, p: nat, w: string, i: nat)
    requires Has(s, p, w) && i < |w|
    ensures At(s, p + i) == w[i]
  {
  }

  /** The end of the line, or a closing parenthesis. */
  predicate Stop(s: CString, p: nat) {
    p <= |s| && (p == |s| || s[p] == ')')
  }

  // ---- the outcome of a parsing function ----

  // These are stated of every cursor equal to `p`, rather than of `p`, so that assuming one of them does not make the
  // solver unfold the parser; the step lemmas below do that, one function at a time.

  ghost predicate RedirsAre(s: CString, p: nat, rs: seq<Redirect>, e: nat) {
    p <= |s| && forall q: nat | p <= q <= p :: ParseRedirs(s, q, []) == Ok(rs, e)
  }

  ghost predicate ArgsAre(s: CString, p: nat, argv: seq<Span>, all: seq<Span>, e: nat) {
    p <= |s| && forall q: nat | p <= q <= p :: ParseArgs(s, q, Simple(argv, [])) == Ok(Simple(all, []), e)
  }

  ghost predicate ExecIs(s: CString, p: nat, c: Cmd, e: nat) {
    p <= |s| && forall q: nat | p <= q <= p :: ParseExec(s, q) == Ok(c, e)
  }

  ghost predicate PipeIs(s: CString, p: nat, c: Cmd, e: nat) {
    p <= |s| && forall q: nat | p <= q <= p :: ParsePipe(s, q) == Ok(c, e)
  }

  ghost predicate LineIs(s: CString, p: nat, c: Cmd, e: nat) {
    p <= |s| && forall q: nat | p <= q <= p :: ParseLine(s, q) == Ok(c, e)
  }

  // ---- words ----

  ghost predicate Plain(s: CString, p: nat) {
    p <= |s| && !IsSpace(At(s, p))
  }

  /** Neither a space nor a redirection is at `p`. */
  ghost predicate Bare(s: CString, p: nat) {
    Plain(s, p) && At(s, p) != '<' && At(s, p) != '>'
  }

  /** A word followed by a space and then something else than a space is one token. */
  lemma WordToken(s: CString, p: nat, w: string)
    requires Has(s, p, w + " ") && Word(w) && !IsSpace(At(s, p + |w| + 1))
    ensures GetToken(s, p) == Token('a', p, p + |w|, p + |w| + 1)
    ensures Text(s, Span(p, p + |w|)) == w
  {
    HasParts(s, p, w, " ");
    HasChar(s, p + |w|, " ", 0);
    forall x | p <= x < p + |w| ensures IsWordChar(At(s, x)) {
      HasChar(s, p, w, x - p);
    }
    assert IsWordChar(At(s, p)) && WordEnd(s, p) == p + |w|;
    assert Skip(s, p + |w|) == Skip(s, p + |w| + 1) == p + |w| + 1;
    assert s[p..p + |w|] == w;
  }

  lemma NoRedirs(s: CString, p: nat, rs: seq<Redirect>)
    requires p <= |s| && !IsSpace(At(s, p)) && At(s, p) != '<' && At(s, p) != '>'
    ensures ParseRedirs(s, p, rs) == Ok(rs, p)
  {
    assert Skip(s, p) == p;
  }

  /** What follows the spelling of the first `k` words: the next word, or the stop. */
  lemma AfterWords(s: CString, p: nat, ws: seq<string>, k: nat)
    requires k <= |ws| && Has(s, p, SpellFrom(ws, k)) && Stop(s, p + |SpellFrom(ws, k)|)
    requires forall i | 0 <= i < |ws| :: Word(ws[i])
    ensures k < |ws| ==> IsWordChar(At(s, p))
    ensures k == |ws| ==> Stop(s, p)
  {
    if k < |ws| {
      assert Word(ws[k]);
      HasChar(s, p, SpellFrom(ws, k), 0);
    }
  }

  lemma StepArgCore(s: CString, p: nat, tok: Token, argv: seq<Span>)
    requires p <= |s| && Skip(s, p) == p && IsWordChar(At(s, p)) && GetToken(s, p) == tok && tok.kind == 'a'
    requires |argv| + 1 < MAXARGS && ParseRedirs(s, tok.next, []) == Ok([], tok.next)
    ensures ParseArgs(s, p, Simple(argv, [])) == ParseArgs(s, tok.next, Simple(argv + [Span(tok.q, tok.eq)], []))
  {
  }

  /** One word of a simple command, with no redirection after it. */
  lemma StepArg(s: CString, p: nat, w: string, argv: seq<Span>)
    requires WordAt(s, p, w) && |argv| + 1 < MAXARGS
    ensures ParseArgs(s, p, Simple(argv, [])) == ParseArgs(s, p + |w| + 1, Simple(argv + [Span(p, p + |w|)], []))
    ensures Text(s, Span(p, p + |w|)) == w
  {
    assert IsWordChar(At(s, p)) by {
      HasChar(s, p, w + " ", 0);
      assert IsWordChar(w[0]);
    }
    var tok := Token('a', p, p + |w|, p + |w| + 1);
    assert GetToken(s, p) == tok && Text(s, Span(p, p + |w|)) == w by { WordToken(s, p, w); }
    NoRedirs(s, p + |w| + 1, []);
    StepArgCore(s, p, tok, argv);
  }

  lemma PushArg(s: CString, p: nat, w: string, argv: seq<Span>, all: seq<Span>, e: nat)
    requires WordAt(s, p, w) && |argv| + 1 < MAXARGS && ArgsAre(s, p + |w| + 1, argv + [Span(p, p + |w|)], all, e)
    ensures ArgsAre(s, p, argv, all, e)
  {
    StepArg(s, p, w, argv);
    assert ParseArgs(s, p, Simple(argv, [])) == Ok(Simple(all, []), e);
  }

  lemma StopArgs(s: CString, p: nat, argv: seq<Span>)
    requires Stop(s, p)
    ensures ArgsAre(s, p, argv, argv, p)
  {
    assert Skip(s, p) == p;
    assert ParseArgs(s, p, Simple(argv, [])) == Ok(Simple(argv, []), p);
  }

  /** The length of the spelling of the words from the `k`th on. */
  function Length(ws: seq<string>, k: nat): nat
    decreases |ws| - k
  {
    if k >= |ws| then 0 else |ws[k]| + 1 + Length(ws, k + 1)
  }

  /** An ordinary word is at `p`, a space after it, and then neither a space nor a redirection. */
  ghost predicate WordAt(s: CString, p: int, w: string) {
    0 <= p && Word(w) && Has(s, p, w + " ") && Bare(s, p + |w| + 1)
  }

  /** The words from the `k`th on, spelled up to a stop at `e`. */
  ghost predicate WordsAt(s: CString, ws: seq<string>, k: nat, e: nat) {
    Stop(s, e) && forall i | k <= i < |ws| :: WordAt(s, e - Length(ws, i), ws[i])
  }

  lemma FirstWord(s: CString, p: nat, ws: seq<string>, k: nat)
    requires k < |ws| && Has(s, p, SpellFrom(ws, k))
    ensures Has(s, p, ws[k] + " ") && Has(s, p + |ws[k]| + 1, SpellFrom(ws, k + 1))
    ensures |SpellFrom(ws, k)| == |ws[k]| + 1 + |SpellFrom(ws, k + 1)|
  {
    assert SpellFrom(ws, k) == (ws[k] + " ") + SpellFrom(ws, k + 1);
    HasParts(s, p, ws[k] + " ", SpellFrom(ws, k + 1));
  }

  lemma {:induction false} SpelledWords(s: CString, p: nat, ws: seq<string>, k: nat, e: nat)
    requires k <= |ws| && Has(s, p, SpellFrom(ws, k)) && e == p + |SpellFrom(ws, k)| && Stop(s, e)
    requires forall i | 0 <= i < |ws| :: Word(ws[i])
    ensures WordsAt(s, ws, k, e) && p == e - Length(ws, k)
    decreases |ws| - k
  {
    if k < |ws| {
      var p2 := p + |ws[k]| + 1;
      assert Has(s, p, ws[k] + " ") && Has(s, p2, SpellFrom(ws, k + 1)) && e == p2 + |SpellFrom(ws, k + 1)| by {
        FirstWord(s, p, ws, k);
      }
      assert Bare(s, p2) by { AfterWords(s, p2, ws, k + 1); }
      SpelledWords(s, p2, ws, k + 1, e);
      assert WordAt(s, p, ws[k]);
    }
  }

  lemma TextsStep(s: CString, argv: seq<Span>, ws: seq<string>, k: nat, w: Span)
    requires k < |ws| && |argv| == k && Texts(s, argv) == ws[..k] && WordAt(s, w.q, ws[k]) && w.eq == w.q + |ws[k]|
    ensures Texts(s, argv + [w]) == ws[..k + 1]
  {
    assert Text(s, w) == ws[k] by { WordToken(s, w.q, ws[k]); }
    forall i | 0 <= i < k + 1 ensures Texts(s, argv + [w])[i] == ws[..k + 1][i] {
      if i < k {
        assert Texts(s, argv)[i] == ws[..k][i];
      }
    }
  }

  lemma {:induction false} ArgsParse(s: CString, p: nat, ws: seq<string>, k: nat, e: nat, argv: seq<Span>)
    returns (all: seq<Span>)
    requires k <= |ws| < MAXARGS && WordsAt(s, ws, 0, e) && p == e - Length(ws, k)
    requires |argv| == k && Texts(s, argv) == ws[..k]
    ensures ArgsAre(s, p, argv, all, e) && Texts(s, all) == ws
    decreases |ws| - k
  {
    if k == |ws| {
      all := argv;
      StopArgs(s, p, argv);
    } else {
      assert WordAt(s, p, ws[k]);
      var w := Span(p, p + |ws[k]|);
      TextsStep(s, argv, ws, k, w);
      all := ArgsParse(s, p + |ws[k]| + 1, ws, k + 1, e, argv + [w]);
      PushArg(s, p, ws[k], argv, all, e);
    }
  }

  lemma StepExec(s: CString, p: nat, all: seq<Span>, e: nat)
    requires Bare(s, p) && At(s, p) != '(' && ArgsAre(s, p, [], all, e)
    ensures ExecIs(s, p, Exec(all), e)
  {
    assert Skip(s, p) == p;
    NoRedirs(s, p, []);
    assert ParseArgs(s, p, Simple([], [])) == Ok(Simple(all, []), e);
    assert ParseExec(s, p) == Ok(Exec(all), e);
  }

  lemma ExecParses(s: CString, p: nat, ws: seq<string>, e: nat) returns (c: Cmd)
    requires |ws| < MAXARGS && Has(s, p, SpellFrom(ws, 0)) && e == p + |SpellFrom(ws, 0)| && Stop(s, e)
    requires forall i | 0 <= i < |ws| :: Word(ws[i])
    ensures ExecIs(s, p, c, e) && Reads(s, c) == TExec(ws)
  {
    AfterWords(s, p, ws, 0);
    SpelledWords(s, p, ws, 0, e);
    var all := ArgsParse(s, p, ws, 0, e, []);
    c := Exec(all);
    StepExec(s, p, all, e);
  }

  // ---- one step of each parsing function, where nothing has to be skipped ----

  lemma SkipPlain(s: CString, p: nat)
    requires Plain(s, p)
    ensures Skip(s, p) == p
  {
  }

  lemma SymbolToken(s: CString, p: nat, c: char)
    requires At(s, p) == c && IsSymbol(c) && c != '>' && Plain(s, p + 1)
    ensures Skip(s, p) == p && GetToken(s, p).next == p + 1 && GetToken(s, p).kind == c
  {
    SkipPlain(s, p + 1);
  }

  lemma StepBlock(s: CString, p: nat, c: Cmd, p2: nat, rs: seq<Redirect>, e: nat)
    requires At(s, p) == '(' && Plain(s, p + 1) && LineIs(s, p + 1, c, p2)
    requires p2 <= |s| && At(s, p2) == ')' && Plain(s, p2 + 1) && RedirsAre(s, p2 + 1, rs, e)
    ensures ExecIs(s, p, Wrap(c, rs), e)
  {
    assert Skip(s, p) == p && GetToken(s, p).next == p + 1 by { SymbolToken(s, p, '('); }
    assert Skip(s, p2) == p2 && GetToken(s, p2).next == p2 + 1 by { SymbolToken(s, p2, ')'); }
    assert ParseLine(s, p + 1) == Ok(c, p2) && ParseRedirs(s, p2 + 1, []) == Ok(rs, e);
    assert ParseBlock(s, p) == Ok(Wrap(c, rs), e);
    assert ParseExec(s, p) == Ok(Wrap(c, rs), e);
  }

  lemma StepPipeEnd(s: CString, p: nat, c: Cmd, e: nat)
    requires p <= |s| && ExecIs(s, p, c, e) && Plain(s, e) && At(s, e) != '|'
    ensures PipeIs(s, p, c, e)
  {
    SkipPlain(s, e);
    assert ParseExec(s, p) == Ok(c, e);
    assert ParsePipe(s, p) == Ok(c, e);
  }

  lemma StepPipe(s: CString, p: nat, c: Cmd, m: nat, d: Cmd, e: nat)
    requires p <= |s| && ExecIs(s, p, c, m) && m <= |s| && At(s, m) == '|' && Plain(s, m + 1)
    requires PipeIs(s, m + 1, d, e)
    ensures PipeIs(s, p, Pipe(c, d), e)
  {
    SymbolToken(s, m, '|');
    assert ParseExec(s, p) == Ok(c, m) && ParsePipe(s, m + 1) == Ok(d, e);
    assert ParsePipe(s, p) == Ok(Pipe(c, d), e);
  }

  lemma StepBacksEnd(s: CString, p: nat, c: Cmd)
    requires Plain(s, p) && At(s, p) != '&'
    ensures ParseBacks(s, p, c) == (c, p)
  {
    SkipPlain(s, p);
  }

  lemma StepLineEnd(s: CString, p: nat, c: Cmd, e: nat)
    requires p <= |s| && PipeIs(s, p, c, e) && Plain(s, e) && At(s, e) != '&' && At(s, e) != ';'
    ensures LineIs(s, p, c, e)
  {
    StepBacksEnd(s, e, c);
    SkipPlain(s, e);
    assert ParsePipe(s, p) == Ok(c, e);
    assert ParseLine(s, p) == Ok(c, e);
  }

  lemma StepLineBack(s: CString, p: nat, c: Cmd, e: nat)
    requires p <= |s| && PipeIs(s, p, c, e) && e <= |s| && At(s, e) == '&' && Stop(s, e + 1)
    ensures LineIs(s, p, Back(c), e + 1)
  {
    SymbolToken(s, e, '&');
    StepBacksEnd(s, e + 1, Back(c));
    assert ParseBacks(s, e, c) == (Back(c), e + 1);
    SkipPlain(s, e + 1);
    assert ParsePipe(s, p) == Ok(c, e);
    assert ParseLine(s, p) == Ok(Back(c), e + 1);
  }

  lemma StepLineList(s: CString, p: nat, c: Cmd, m: nat, d: Cmd, e: nat)
    requires p <= |s| && PipeIs(s, p, c, m) && m <= |s| && At(s, m) == ';' && Plain(s, m + 1)
    requires LineIs(s, m + 1, d, e)
    ensures LineIs(s, p, List(c, d), e)
  {
    StepBacksEnd(s, m, c);
    SymbolToken(s, m, ';');
    assert ParsePipe(s, p) == Ok(c, m) && ParseLine(s, m + 1) == Ok(d, e);
    assert ParseLine(s, p) == Ok(List(c, d), e);
  }

  /** A command that ends at a stop is the whole pipeline and the whole line. */
  lemma StepStop(s: CString, p: nat, c: Cmd, e: nat)
    requires p <= |s| && ExecIs(s, p, c, e) && Stop(s, e)
    ensures PipeIs(s, p, c, e) && LineIs(s, p, c, e)
  {
    StepPipeEnd(s, p, c, e);
    StepLineEnd(s, p, c, e);
  }

  lemma PipeOfTwo(s: CString, p: nat, a: Cmd, m: nat, b: Cmd, e: nat)
    requires p <= |s| && At(s, m) == '|' && Plain(s, m + 1) && Stop(s, e)
    requires ExecIs(s, p, a, m) && ExecIs(s, m + 1, b, e)
    ensures LineIs(s, p, Pipe(a, b), e)
  {
    StepPipeEnd(s, m + 1, b, e);
    StepPipe(s, p, a, m, b, e);
    StepLineEnd(s, p, Pipe(a, b), e);
  }

  lemma ListOfTwo(s: CString, p: nat, a: Cmd, m: nat, b: Cmd, e: nat)
    requires p <= |s| && At(s, m) == ';' && Plain(s, m + 1) && Stop(s, e)
    requires ExecIs(s, p, a, m) && ExecIs(s, m + 1, b, e)
    ensures LineIs(s, p, List(a, b), e)
  {
    StepPipeEnd(s, p, a, m);
    StepStop(s, m + 1, b, e);
    StepLineList(s, p, a, m, b, e);
  }

  // ---- where the pieces of a spelling are ----

  /** The length of a spelling. */
  function Width(t: Tree): nat {
    match t
    case TExec(ws) => Length(ws, 0)
    case TRedir(u, f, _) => Width(u) + |f| + 4
    case TPipe(l, r) => Width(l) + Width(r) + 5
    case TList(l, r) => Width(l) + Width(r) + 5
    case TBack(u) => Width(u) + 3
  }

  /** The spelling of `t` is the text at `p`, piece by piece. */
  ghost predicate SpelledAt(s: CString, p: nat, t: Tree)
    decreases t, 0
  {
    match t
    case TExec(ws) => Has(s, p, SpellFrom(ws, 0))
    case TRedir(u, f, out) =>
      var m := p + Width(u) + 2;
      ParenAt(s, p, u) && At(s, m) == (if out then '>' else '<') && Has(s, m + 1, f + " ")
    case TPipe(l, r) => ParenAt(s, p, l) && At(s, p + Width(l) + 2) == '|' && ParenAt(s, p + Width(l) + 3, r)
    case TList(l, r) => ParenAt(s, p, l) && At(s, p + Width(l) + 2) == ';' && ParenAt(s, p + Width(l) + 3, r)
    case TBack(u) => ParenAt(s, p, u) && At(s, p + Width(u) + 2) == '&'
  }

  ghost predicate ParenAt(s: CString, p: nat, t: Tree)
    decreases t, 1
  {
    At(s, p) == '(' && SpelledAt(s, p + 1, t) && At(s, p + 1 + Width(t)) == ')'
  }

  lemma {:induction false} LengthOfWords(ws: seq<string>, k: nat)
    ensures |SpellFrom(ws, k)| == Length(ws, k)
    decreases |ws| - k
  {
    if k < |ws| {
      LengthOfWords(ws, k + 1);
    }
  }

  lemma {:induction false} WidthOfSpell(t: Tree)
    ensures |Spell(t)| == Width(t)
  {
    match t {
      case TExec(ws) => LengthOfWords(ws, 0);
      case TRedir(u, f, _) => WidthOfSpell(u);
      case TPipe(l, r) =>
        WidthOfSpell(l);
        WidthOfSpell(r);
      case TList(l, r) =>
        WidthOfSpell(l);
        WidthOfSpell(r);
      case TBack(u) => WidthOfSpell(u);
    }
  }

  lemma {:induction false} ParenSpelled(s: CString, p: nat, t: Tree)
    requires Has(s, p, Paren(t))
    ensures ParenAt(s, p, t)
    decreases t, 1
  {
    WidthOfSpell(t);
    var rest := Spell(t) + ")";
    assert Has(s, p, "(") && Has(s, p + 1, rest) by {
      assert Paren(t) == "(" + rest;
      HasParts(s, p, "(", rest);
    }
    HasParts(s, p + 1, Spell(t), ")");
    HasChar(s, p, "(", 0);
    HasChar(s, p + 1 + Width(t), ")", 0);
    Spelled(s, p + 1, t);
  }

  lemma {:induction false} OpSpelled(s: CString, p: nat, t: Tree, op: char, rest: string)
    requires Has(s, p, Paren(t) + [op] + rest)
    ensures ParenAt(s, p, t) && At(s, p + Width(t) + 2) == op && Has(s, p + Width(t) + 3, rest)
    decreases t, 2
  {
    WidthOfSpell(t);
    HasParts(s, p, Paren(t) + [op], rest);
    HasParts(s, p, Paren(t), [op]);
    HasChar(s, p + |Paren(t)|, [op], 0);
    ParenSpelled(s, p, t);
  }

  /** The text of a spelling has its pieces in place. */
  lemma {:induction false} Spelled(s: CString, p: nat, t: Tree)
    requires Has(s, p, Spell(t))
    ensures SpelledAt(s, p, t)
    decreases t, 0
  {
    match t {
      case TExec(ws) =>
      case TRedir(u, f, out) => OpSpelled(s, p, u, if out then '>' else '<', f + " ");
      case TPipe(l, r) =>
        OpSpelled(s, p, l, '|', Paren(r));
        ParenSpelled(s, p + Width(l) + 3, r);
      case TList(l, r) =>
        OpSpelled(s, p, l, ';', Paren(r));
        ParenSpelled(s, p + Width(l) + 3, r);
      case TBack(u) =>
        assert Spell(t) == Paren(u) + ['&'] + "";
        OpSpelled(s, p, u, '&', "");
    }
  }

  /** What follows an opening parenthesis is never a space. */
  lemma SpellStarts(s: CString, p: nat, t: Tree)
    requires Ordinary(t) && SpelledAt(s, p, t) && Stop(s, p + Width(t))
    ensures Plain(s, p)
  {
    match t {
      case TExec(ws) =>
        LengthOfWords(ws, 0);
        AfterWords(s, p, ws, 0);
      case TRedir(u, _, _) => assert ParenAt(s, p, u);
      case TPipe(l, _) => assert ParenAt(s, p, l);
      case TList(l, _) => assert ParenAt(s, p, l);
      case TBack(u) => assert ParenAt(s, p, u);
    }
  }

  lemma RedirToken(s: CString, m: nat)
    requires (At(s, m) == '<' || At(s, m) == '>') && IsWordChar(At(s, m + 1))
    ensures Skip(s, m) == m && GetToken(s, m) == Token(At(s, m), m, m + 1, m + 1)
  {
    SkipPlain(s, m + 1);
  }

  lemma StepRedir(s: CString, m: nat, w: Span, e: nat)
    requires (At(s, m) == '<' || At(s, m) == '>') && IsWordChar(At(s, m + 1)) && Bare(s, e)
    requires GetToken(s, m + 1) == Token('a', w.q, w.eq, e)
    ensures RedirsAre(s, m, [ToRedirect(At(s, m), w)], e)
  {
    RedirToken(s, m);
    var rs := [ToRedirect(At(s, m), w)];
    assert [] + rs == rs;
    NoRedirs(s, e, rs);
    assert ParseRedirs(s, m, []) == Ok(rs, e);
  }

  lemma RedirParses(s: CString, m: nat, f: string, out: bool, e: nat) returns (r: Redirect)
    requires At(s, m) == (if out then '>' else '<') && Word(f) && Has(s, m + 1, f + " ") && e == m + |f| + 2
             && Stop(s, e)
    ensures RedirsAre(s, m, [r], e) && Text(s, r.file) == f && (r.fd == 1) == out
  {
    assert IsWordChar(At(s, m + 1)) by {
      HasChar(s, m + 1, f + " ", 0);
      assert IsWordChar(f[0]);
    }
    var w := Span(m + 1, m + 1 + |f|);
    assert GetToken(s, m + 1) == Token('a', w.q, w.eq, e) && Text(s, w) == f by { WordToken(s, m + 1, f); }
    r := ToRedirect(At(s, m), w);
    StepRedir(s, m, w, e);
  }

  // ---- the induction ----

  /** "(" line ")" followed by redirections `rs` that end at `e`. */
  lemma {:induction false} BlockParses(s: CString, p: nat, t: Tree, m: nat, rs: seq<Redirect>, e: nat) returns (c: Cmd)
    requires Ordinary(t) && ParenAt(s, p, t) && m == p + Width(t) + 2 && Plain(s, m) && RedirsAre(s, m, rs, e)
    ensures ExecIs(s, p, Wrap(c, rs), e) && Reads(s, c) == t
    decreases t, 3
  {
    SpellStarts(s, p + 1, t);
    c := LineParses(s, p + 1, t, m - 1);
    StepBlock(s, p, c, m - 1, rs, e);
  }

  lemma {:induction false} BlockAlone(s: CString, p: nat, t: Tree, e: nat) returns (c: Cmd)
    requires Ordinary(t) && ParenAt(s, p, t) && e == p + Width(t) + 2 && Bare(s, e)
    ensures ExecIs(s, p, c, e) && Reads(s, c) == t
    decreases t, 4
  {
    assert RedirsAre(s, e, [], e) by { NoRedirs(s, e, []); }
    c := BlockParses(s, p, t, e, [], e);
  }

  lemma {:induction false} LineParses(s: CString, p: nat, t: Tree, e: nat) returns (c: Cmd)
    requires Ordinary(t) && SpelledAt(s, p, t) && e == p + Width(t) && Stop(s, e)
    ensures LineIs(s, p, c, e) && Reads(s, c) == t
    decreases t, 2
  {
    match t {
      case TExec(ws) =>
        LengthOfWords(ws, 0);
        c := ExecParses(s, p, ws, e);
        StepStop(s, p, c, e);
      case TRedir(u, f, out) =>
        var m := p + Width(u) + 2;
        var r := RedirParses(s, m, f, out, e);
        c := RedirLine(s, p, u, r, m, e);
      case TPipe(l, r) => c := PipeLine(s, p, t, p + Width(l) + 2, e);
      case TList(l, r) => c := ListLine(s, p, t, p + Width(l) + 2, e);
      case TBack(u) => c := BackLine(s, p, u, e);
    }
  }

  lemma {:induction false} RedirLine(s: CString, p: nat, u: Tree, r: Redirect, m: nat, e: nat) returns (c: Cmd)
    requires Ordinary(u) && ParenAt(s, p, u) && m == p + Width(u) + 2 && Plain(s, m)
    requires RedirsAre(s, m, [r], e) && Stop(s, e)
    ensures LineIs(s, p, c, e) && Reads(s, c) == TRedir(u, Text(s, r.file), r.fd == 1)
    decreases u, 5
  {
    var d := BlockParses(s, p, u, m, [r], e);
    WrapOne(d, r);
    c := Redir(d, r);
    StepStop(s, p, c, e);
  }

  lemma {:induction false} PipeLine(s: CString, p: nat, t: Tree, m: nat, e: nat) returns (c: Cmd)
    requires t.TPipe? && Ordinary(t) && m == p + Width(t.l) + 2 && e == m + Width(t.r) + 3
    requires ParenAt(s, p, t.l) && At(s, m) == '|' && ParenAt(s, m + 1, t.r) && Stop(s, e)
    ensures LineIs(s, p, c, e) && Reads(s, c) == t
    decreases t, 1
  {
    var a := BlockAlone(s, p, t.l, m);
    var b := BlockAlone(s, m + 1, t.r, e);
    c := Pipe(a, b);
    PipeOfTwo(s, p, a, m, b, e);
  }

  lemma {:induction false} ListLine(s: CString, p: nat, t: Tree, m: nat, e: nat) returns (c: Cmd)
    requires t.TList? && Ordinary(t) && m == p + Width(t.l) + 2 && e == m + Width(t.r) + 3
    requires ParenAt(s, p, t.l) && At(s, m) == ';' && ParenAt(s, m + 1, t.r) && Stop(s, e)
    ensures LineIs(s, p, c, e) && Reads(s, c) == t
    decreases t, 1
  {
    var a := BlockAlone(s, p, t.l, m);
    var b := BlockAlone(s, m + 1, t.r, e);
    c := List(a, b);
    ListOfTwo(s, p, a, m, b, e);
  }

  lemma {:induction false} BackLine(s: CString, p: nat, u: Tree, e: nat) returns (c: Cmd)
    requires Ordinary(u) && ParenAt(s, p, u) && At(s, p + Width(u) + 2) == '&' && e == p + Width(u) + 3 && Stop(s, e)
    ensures LineIs(s, p, c, e) && Reads(s, c) == TBack(u)
    decreases u, 5
  {
    var a := BlockAlone(s, p, u, e - 1);
    StepPipeEnd(s, p, a, e - 1);
    StepLineBack(s, p, a, e - 1);
    c := Back(a);
  }

  lemma WrapOne(c: Cmd, r: Redirect)
    ensures Wrap(c, [r]) == Redir(c, r)
  {
    assert [r][..0] == [];
  }

  /** The round trip. */
  lemma SpellParses(t: Tree)
    requires Ordinary(t)
    ensures '\0' !in Spell(t)
    ensures var r := ParseCmd(Spell(t)); r.Ok? && Reads(Spell(t), r.value) == t
  {
    SpellNoNul(t);
    var s: CString := Spell(t);
    assert SpelledAt(s, 0, t) by { Spelled(s, 0, t); }
    WidthOfSpell(t);
    var c := LineParses(s, 0, t, |s|);
    assert ParseLine(s, 0) == Ok(c, |s|);
    SkipPlain(s, |s|);
  }
}
