/**
 The parser of `sh.c` as it runs: a cursor that moves along the line, and a buffer that is NUL-terminated in place.
 */
module Shell {
  import G = ShellGrammar
  import P = ShellProps

  datatype Outcome<+T> = Done(value: T) | Panic(message: string)

  /** A parsing method did what the grammar function says: same value, same cursor, or the same panic. */
  ghost predicate Agrees<T(!new)>(r: Outcome<T>, pos: nat, spec: G.Parse<T>) {
    match spec
    case Ok(v, p) => r == Done(v) && pos == p
    case Panics(m) => r == Panic(m)
  }

  lemma SkipTwice(s: G.CString, p: nat)
    requires p <= |s|
    ensures G.Skip(s, G.Skip(s, p)) == G.Skip(s, p)
  {
  }

  lemma SkipArgs(s: G.CString, p: nat, e: G.Simple)
    requires p <= |s|
    ensures G.ParseArgs(s, G.Skip(s, p), e) == G.ParseArgs(s, p, e)
    ensures G.PeekAt(s, G.Skip(s, p), {'|', ')', '&', ';'}) ==> G.ParseArgs(s, p, e) == G.Ok(e, G.Skip(s, p))
  {
    SkipTwice(s, p);
  }

  class Parser {
    const text: G.CString
    var pos: nat

    ghost predicate Valid() reads this {
      pos <= |text|
    }

    constructor (s: G.CString)
      ensures Valid() && text == s && pos == 0
    {
      text, pos := s, 0;
    }

    method SkipSpace(from: nat) returns (p: nat)
      requires from <= |text|
      ensures p == G.Skip(text, from)
    {
      p := from;
      while p < |text| && G.IsSpace(text[p])
        invariant p <= |text| && G.Skip(text, p) == G.Skip(text, from)
      {
        p := p + 1;
      }
    }

    method SkipWord(from: nat) returns (p: nat)
      requires from <= |text|
      ensures p == G.WordEnd(text, from)
    {
      p := from;
      while p < |text| && !G.IsSpace(text[p]) && !G.IsSymbol(text[p])
        invariant p <= |text| && G.WordEnd(text, p) == G.WordEnd(text, from)
      {
        p := p + 1;
      }
    }

    method GetToken() returns (kind: char, q: nat, eq: nat)
      requires Valid()
      modifies this`pos
      ensures Valid() && G.GetToken(text, old(pos)) == G.Token(kind, q, eq, pos)
    {
      var p := SkipSpace(pos);
      q := p;
      kind := G.At(text, p);
      if kind == '\0' {
      } else if kind == '>' {
        p := p + 1;
        if G.At(text, p) == '>' {
          kind := '+';
          p := p + 1;
        }
      } else if G.IsSymbol(kind) {
        p := p + 1;
      } else {
        kind := 'a';
        p := SkipWord(p);
      }
      eq := p;
      pos := SkipSpace(p);
    }

    method Peek(toks: set<char>) returns (found: bool)
      requires Valid()
      modifies this`pos
      ensures Valid() && pos == G.Skip(text, old(pos)) && found == G.PeekAt(text, pos, toks)
    {
      pos := SkipSpace(pos);
      found := G.At(text, pos) != '\0' && G.At(text, pos) in toks;
    }

    method ParseRedirs(before: seq<G.Redirect>) returns (r: Outcome<seq<G.Redirect>>)
      requires Valid()
      modifies this`pos
      ensures Valid() && Agrees(r, pos, G.ParseRedirs(text, old(pos), before))
    {
      var rs := before;
      var more := Peek({'<', '>'});
      while more
        invariant Valid() && G.Skip(text, pos) == pos && more == G.PeekAt(text, pos, {'<', '>'})
        invariant G.ParseRedirs(text, pos, rs) == G.ParseRedirs(text, old(pos), before)
        decreases |text| - pos, more
      {
        ghost var start := pos;
        var kind, _, _ := GetToken();
        var file, q, eq := GetToken();
        if file != 'a' {
          return Panic("missing file for redirection");
        }
        rs := rs + [G.ToRedirect(kind, G.Span(q, eq))];
        assert start < pos;
        more := Peek({'<', '>'});
      }
      r := Done(rs);
    }

    /** One word of a simple command and the redirections after it, or the end of the line. */
    method ParseArg(e: G.Simple) returns (r: Outcome<G.Simple>, last: bool)
      requires Valid() && !G.PeekAt(text, G.Skip(text, pos), {'|', ')', '&', ';'})
      modifies this`pos
      ensures Valid()
      ensures r.Panic? ==> G.ParseArgs(text, old(pos), e) == G.Panics(r.message)
      ensures r.Done? && last ==> G.ParseArgs(text, old(pos), e) == G.Ok(r.value, pos)
      ensures r.Done? && !last ==> old(pos) < pos && G.ParseArgs(text, old(pos), e) == G.ParseArgs(text, pos, r.value)
    {
      last := false;
      pos := SkipSpace(pos);
      var kind, q, eq := GetToken();
      if kind == '\0' {
        return Done(e), true;
      }
      if kind != 'a' {
        return Panic("syntax"), false;
      }
      if |e.argv| + 1 >= G.MAXARGS {
        return Panic("too many args"), false;
      }
      var rs := ParseRedirs(e.rs);
      r := if rs.Panic? then Panic(rs.message) else Done(G.Simple(e.argv + [G.Span(q, eq)], rs.value));
    }

    /** The loop of `parseexec` over the words of a simple command. */
    method ParseArgs(start: G.Simple) returns (r: Outcome<G.Simple>)
      requires Valid()
      modifies this`pos
      ensures Valid() && Agrees(r, pos, G.ParseArgs(text, old(pos), start))
    {
      var e := start;
      ghost var spec := G.ParseArgs(text, pos, start);
      ghost var p: nat := pos;
      var stop := Peek({'|', ')', '&', ';'});
      while !stop
        invariant Valid() && p <= |text| && pos == G.Skip(text, p) && stop == G.PeekAt(text, pos, {'|', ')', '&', ';'})
        invariant G.ParseArgs(text, p, e) == spec
        decreases |text| - pos, !stop
      {
        SkipTwice(text, p);
        SkipArgs(text, p, e);
        var next, last := ParseArg(e);
        if next.Panic? || last {
          return next;
        }
        e := next.value;
        p := pos;
        stop := Peek({'|', ')', '&', ';'});
      }
      SkipArgs(text, p, e);
      r := Done(e);
    }

    method ParseExec() returns (r: Outcome<G.Cmd>)
      requires Valid()
      modifies this`pos
      ensures Valid() && Agrees(r, pos, G.ParseExec(text, old(pos)))
      decreases |text| - pos, 1
    {
      var block := Peek({'('});
      if block {
        r := ParseBlock();
        return;
      }
      var rs := ParseRedirs([]);
      if rs.Panic? {
        return Panic(rs.message);
      }
      var e := ParseArgs(G.Simple([], rs.value));
      if e.Panic? {
        return Panic(e.message);
      }
      r := Done(G.Wrap(G.Exec(e.value.argv), e.value.rs));
    }

    method ParseBlock() returns (r: Outcome<G.Cmd>)
      requires Valid()
      modifies this`pos
      ensures Valid() && Agrees(r, pos, G.ParseBlock(text, old(pos)))
      decreases |text| - pos, 0
    {
      var open := Peek({'('});
      if !open {
        return Panic("parseblock");
      }
      var _, _, _ := GetToken();
      r := ParseLine();
      if r.Panic? {
        return;
      }
      var close := Peek({')'});
      if !close {
        return Panic("syntax - missing )");
      }
      var _, _, _ := GetToken();
      var rs := ParseRedirs([]);
      if rs.Panic? {
        return Panic(rs.message);
      }
      r := Done(G.Wrap(r.value, rs.value));
    }

    method ParsePipe() returns (r: Outcome<G.Cmd>)
      requires Valid()
      modifies this`pos
      ensures Valid() && Agrees(r, pos, G.ParsePipe(text, old(pos)))
      decreases |text| - pos, 2
    {
      r := ParseExec();
      if r.Panic? {
        return;
      }
      var more := Peek({'|'});
      if more {
        var _, _, _ := GetToken();
        var right := ParsePipe();
        if right.Panic? {
          return right;
        }
        r := Done(G.Pipe(r.value, right.value));
      }
    }

    method ParseBacks(c: G.Cmd) returns (d: G.Cmd)
      requires Valid()
      modifies this`pos
      ensures Valid() && G.ParseBacks(text, old(pos), c) == (d, pos)
    {
      d := c;
      var more := Peek({'&'});
      while more
        invariant Valid() && G.Skip(text, pos) == pos && more == G.PeekAt(text, pos, {'&'})
        invariant G.ParseBacks(text, pos, d) == G.ParseBacks(text, old(pos), c)
        decreases |text| - pos, more
      {
        var _, _, _ := GetToken();
        d := G.Back(d);
        more := Peek({'&'});
      }
    }

    method ParseLine() returns (r: Outcome<G.Cmd>)
      requires Valid()
      modifies this`pos
      ensures Valid() && Agrees(r, pos, G.ParseLine(text, old(pos)))
      decreases |text| - pos, 3
    {
      r := ParsePipe();
      if r.Panic? {
        return;
      }
      var c := ParseBacks(r.value);
      r := Done(c);
      var more := Peek({';'});
      if more {
        var _, _, _ := GetToken();
        var right := ParseLine();
        if right.Panic? {
          return right;
        }
        r := Done(G.List(c, right.value));
      }
    }
  }

  ghost predicate Within(c: G.Cmd, n: nat) {
    forall x | x in P.Ends(c) :: x < n
  }

  lemma NulledStep(buf: seq<char>, ends: set<nat>, x: nat)
    requires x < |buf|
    ensures P.Nulled(buf, ends)[x := '\0'] == P.Nulled(buf, ends + {x})
  {
  }

  lemma NulledTwice(buf: seq<char>, a: set<nat>, b: set<nat>)
    ensures P.Nulled(P.Nulled(buf, a), b) == P.Nulled(buf, a + b)
  {
  }

  lemma EndsOfPrefix(argv: seq<G.Span>, i: nat)
    requires i < |argv|
    ensures P.Ends(G.Exec(argv[..i + 1])) == P.Ends(G.Exec(argv[..i])) + {argv[i].eq}
    ensures argv[i].eq in P.Ends(G.Exec(argv))
  {
    assert argv[..i + 1] == argv[..i] + [argv[i]];
    assert argv[i] in argv;
  }

  method NulTerminateArgs(buf: array<char>, argv: seq<G.Span>)
    requires Within(G.Exec(argv), buf.Length)
    modifies buf
    ensures buf[..] == P.Nulled(old(buf[..]), P.Ends(G.Exec(argv)))
  {
    for i := 0 to |argv|
      invariant buf[..] == P.Nulled(old(buf[..]), P.Ends(G.Exec(argv[..i])))
    {
      EndsOfPrefix(argv, i);
      NulledStep(old(buf[..]), P.Ends(G.Exec(argv[..i])), argv[i].eq);
      buf[argv[i].eq] := '\0';
    }
    assert argv[..|argv|] == argv;
  }

  /** Overwrites the character after each recorded word. */
  method NulTerminate(buf: array<char>, c: G.Cmd)
    requires Within(c, buf.Length)
    modifies buf
    ensures buf[..] == P.Nulled(old(buf[..]), P.Ends(c))
    decreases c, 1
  {
    match c {
      case Exec(argv) =>
        NulTerminateArgs(buf, argv);
      case Redir(d, r) =>
        assert r.file.eq in P.Ends(c) && P.Ends(d) <= P.Ends(c);
        NulTerminate(buf, d);
        NulledStep(old(buf[..]), P.Ends(d), r.file.eq);
        buf[r.file.eq] := '\0';
      case Pipe(l, r) =>
        NulTerminateBoth(buf, c, l, r);
      case List(l, r) =>
        NulTerminateBoth(buf, c, l, r);
      case Back(d) =>
        assert P.Ends(d) == P.Ends(c);
        NulTerminate(buf, d);
    }
  }

  method NulTerminateBoth(buf: array<char>, c: G.Cmd, l: G.Cmd, r: G.Cmd)
    requires (c == G.Pipe(l, r) || c == G.List(l, r)) && Within(c, buf.Length)
    modifies buf
    ensures buf[..] == P.Nulled(old(buf[..]), P.Ends(c))
    decreases c, 0
  {
    assert P.Ends(c) == P.Ends(l) + P.Ends(r);
    NulTerminate(buf, l);
    NulTerminate(buf, r);
    NulledTwice(old(buf[..]), P.Ends(l), P.Ends(r));
  }

  lemma EndsWithin(s: G.CString, c: G.Cmd)
    requires P.Words(s, P.Spans(c), 0, |s|)
    ensures Within(c, |s| + 1)
  {
    forall x | x in P.Ends(c) ensures x < |s| + 1 {
      P.EndsOfSpans(c, x);
      var i :| 0 <= i < |P.Spans(c)| && P.Spans(c)[i].eq == x;
      assert P.SpanOk(s, P.Spans(c)[i], 0, |s|);
    }
  }

  /**
   * `parsecmd`: the tree that the grammar gives the line, and a buffer in which every word of the tree is a C string
   * equal to its token.
   */
  method ParseCmd(buf: array<char>, text: G.CString) returns (r: Outcome<G.Cmd>)
    requires buf[..] == text + ['\0']
    modifies buf
    ensures var spec := G.ParseCmd(text); if spec.Ok? then r == Done(spec.value) else r == Panic(spec.message)
    ensures r.Panic? ==> buf[..] == old(buf[..])
    ensures r.Done? ==> forall i | 0 <= i < |P.Spans(r.value)| ::
                          var w := P.Spans(r.value)[i];
                          w.q < w.eq <= |text| && P.StringAt(buf[..], w.q) == text[w.q..w.eq]
  {
    var parser := new Parser(text);
    r := parser.ParseLine();
    if r.Panic? {
      return;
    }
    var _ := parser.Peek({});
    if parser.pos != |text| {
      return Panic("syntax");
    }
    P.ParsedWords(text);
    EndsWithin(text, r.value);
    assert buf.Length == |buf[..]| == |text| + 1;
    NulTerminate(buf, r.value);
  }
}
