/** What the shell's parser promises: disjoint words, faithful strings after NUL-termination, and a round trip. */
module ShellProps {
  import opened ShellGrammar

  // ---- the words of a command ----

  function Files(rs: seq<Redirect>): (f: seq<Span>)
    ensures |f| == |rs|
  {
    seq(|rs|, i requires 0 <= i < |rs| => rs[i].file)
  }

  /** Every word that a command records, arguments and file names. */
  function Spans(c: Cmd): seq<Span> {
    match c
    case Exec(argv) => argv
    case Redir(d, r) => Spans(d) + [r.file]
    case Pipe(l, r) => Spans(l) + Spans(r)
    case List(l, r) => Spans(l) + Spans(r)
    case Back(d) => Spans(d)
  }

  predicate Apart(a: Span, b: Span) {
    a.eq <= b.q || b.eq <= a.q
  }

  /** A whole word of the line, within the given range. */
  ghost predicate SpanOk(s: CString, w: Span, lo: nat, hi: nat) {
    IsWord(s, w.q, w.eq) && lo <= w.q && w.eq <= hi
  }

  /** The character at `x`, if it belongs to a word, lies in one of the recorded words. */
  ghost predicate CoveredAt(s: CString, ws: seq<Span>, x: nat) {
    IsWordChar(At(s, x)) ==> exists i :: 0 <= i < |ws| && ws[i].q <= x < ws[i].eq
  }

  /** Whole words of the line within a range, no two of which overlap, and all that there are in that range. */
  ghost predicate Words(s: CString, ws: seq<Span>, lo: nat, hi: nat) {
    && (forall i | 0 <= i < |ws| :: SpanOk(s, ws[i], lo, hi))
    && (forall i, j | 0 <= i < j < |ws| :: Apart(ws[i], ws[j]))
    && (forall x | lo <= x < hi :: CoveredAt(s, ws, x))
  }

  /** No character of a word. */
  ghost predicate Blank(s: CString, lo: nat, hi: nat) {
    forall x | lo <= x < hi :: !IsWordChar(At(s, x))
  }

  lemma {:induction false} SkipBlank(s: CString, p: nat)
    requires p <= |s|
    ensures Blank(s, p, Skip(s, p))
    decreases |s| - p
  {
    if p < |s| && IsSpace(s[p]) {
      SkipBlank(s, p + 1);
    }
  }

  /** Before and behind a word, and all along any other token, there is no character of a word. */
  lemma TokenBlank(s: CString, p: nat)
    requires p <= |s|
    ensures var t := GetToken(s, p);
            if t.kind == 'a' then Blank(s, p, t.q) && Blank(s, t.eq, t.next) else Blank(s, p, t.next)
  {
    SkipBlank(s, p);
    SkipBlank(s, GetToken(s, p).eq);
  }

  lemma WordsConcat(s: CString, a: seq<Span>, b: seq<Span>, lo: nat, mid: nat, hi: nat)
    requires Words(s, a, lo, mid) && Words(s, b, mid, hi) && lo <= mid <= hi
    ensures Words(s, a + b, lo, hi)
  {
    var ws := a + b;
    forall i | 0 <= i < |ws| ensures SpanOk(s, ws[i], lo, hi) {
      assert i < |a| ==> SpanOk(s, a[i], lo, mid);
      assert i >= |a| ==> SpanOk(s, b[i - |a|], mid, hi);
    }
    forall i, j | 0 <= i < j < |ws| ensures Apart(ws[i], ws[j]) {
      assert i < |a| ==> SpanOk(s, a[i], lo, mid);
      assert j >= |a| ==> SpanOk(s, b[j - |a|], mid, hi);
    }
    forall x | lo <= x < hi ensures CoveredAt(s, ws, x) {
      CoverConcat(s, a, b, x, x < mid);
    }
  }

  lemma CoverConcat(s: CString, a: seq<Span>, b: seq<Span>, x: nat, left: bool)
    requires CoveredAt(s, if left then a else b, x)
    ensures CoveredAt(s, a + b, x)
  {
    if IsWordChar(At(s, x)) {
      if left {
        var i :| 0 <= i < |a| && a[i].q <= x < a[i].eq;
        assert (a + b)[i] == a[i];
      } else {
        var i :| 0 <= i < |b| && b[i].q <= x < b[i].eq;
        assert (a + b)[|a| + i] == b[i];
      }
    }
  }

  lemma CoverInsert(s: CString, a: seq<Span>, b: seq<Span>, w: Span, x: nat)
    requires CoveredAt(s, a + b, x)
    ensures CoveredAt(s, a + [w] + b, x)
  {
    if IsWordChar(At(s, x)) {
      var i :| 0 <= i < |a + b| && (a + b)[i].q <= x < (a + b)[i].eq;
      var k := if i < |a| then i else i + 1;
      assert (a + [w] + b)[k] == (a + b)[i];
    }
  }

  lemma WordsInsert(s: CString, a: seq<Span>, b: seq<Span>, w: Span, lo: nat, mid: nat, hi: nat)
    requires Words(s, a + b, lo, mid) && SpanOk(s, w, mid, hi) && lo <= mid <= hi
    requires Blank(s, mid, w.q) && Blank(s, w.eq, hi)
    ensures Words(s, a + [w] + b, lo, hi)
  {
    var ws, old_ := a + [w] + b, a + b;
    forall i | 0 <= i < |ws| ensures SpanOk(s, ws[i], lo, hi) {
      if i < |a| {
        assert ws[i] == old_[i] && SpanOk(s, old_[i], lo, mid);
      } else if i > |a| {
        assert ws[i] == old_[i - 1] && SpanOk(s, old_[i - 1], lo, mid);
      }
    }
    forall i, j | 0 <= i < j < |ws| ensures Apart(ws[i], ws[j]) {
      InsertApart(s, a, b, w, lo, mid, hi, i, j);
    }
    forall x | lo <= x < hi ensures CoveredAt(s, ws, x) {
      if x < mid {
        CoverInsert(s, a, b, w, x);
      } else {
        assert ws[|a|] == w;
      }
    }
  }

  lemma InsertApart(s: CString, a: seq<Span>, b: seq<Span>, w: Span, lo: nat, mid: nat, hi: nat, i: nat, j: nat)
    requires Words(s, a + b, lo, mid) && SpanOk(s, w, mid, hi) && lo <= mid <= hi && i < j < |a + [w] + b|
    ensures Apart((a + [w] + b)[i], (a + [w] + b)[j])
  {
    var ws, old_ := a + [w] + b, a + b;
    var i', j' := if i < |a| then i else i - 1, if j < |a| then j else j - 1;
    if i != |a| && j != |a| {
      assert ws[i] == old_[i'] && ws[j] == old_[j'];
    } else if i == |a| {
      assert ws[j] == old_[j'] && SpanOk(s, old_[j'], lo, mid);
    } else {
      assert ws[i] == old_[i'] && SpanOk(s, old_[i'], lo, mid);
    }
  }

  lemma WordsWiden(s: CString, ws: seq<Span>, lo: nat, hi: nat, lo': nat, hi': nat)
    requires Words(s, ws, lo, hi) && lo' <= lo && hi <= hi' && Blank(s, lo', lo) && Blank(s, hi, hi')
    ensures Words(s, ws, lo', hi')
  {
    forall i | 0 <= i < |ws| ensures SpanOk(s, ws[i], lo', hi') {
      assert SpanOk(s, ws[i], lo, hi);
    }
    forall x | lo' <= x < hi' ensures CoveredAt(s, ws, x) {
    }
  }

  /** Two commands with a token between them that is no word. */
  lemma WordsJoin(s: CString, a: seq<Span>, b: seq<Span>, lo: nat, end: nat, mid: nat, hi: nat)
    requires Words(s, a, lo, end) && Words(s, b, mid, hi) && lo <= end <= mid <= hi && Blank(s, end, mid)
    ensures Words(s, a + b, lo, hi)
  {
    WordsWiden(s, a, lo, end, lo, mid);
    WordsConcat(s, a, b, lo, mid, hi);
  }

  /** From a cursor over the space there and over one token that is no word. */
  lemma StepBlank(s: CString, p: nat)
    requires p <= |s| && GetToken(s, Skip(s, p)).kind != 'a'
    ensures Blank(s, p, GetToken(s, Skip(s, p)).next)
  {
    SkipBlank(s, p);
    TokenBlank(s, Skip(s, p));
  }

  lemma {:induction false} WrapSpans(c: Cmd, rs: seq<Redirect>)
    ensures Spans(Wrap(c, rs)) == Spans(c) + Files(rs)
    decreases |rs|
  {
    if rs != [] {
      var front := rs[..|rs| - 1];
      WrapSpans(c, front);
      assert Files(rs) == Files(front) + [rs[|rs| - 1].file];
    }
  }

  // ---- every parsing function records disjoint whole words between its two cursors ----

  lemma {:induction false} RedirsWords(s: CString, p: nat, rs: seq<Redirect>, a: seq<Span>, lo: nat)
    requires p <= |s| && lo <= p && Words(s, a + Files(rs), lo, p)
    ensures var r := ParseRedirs(s, p, rs); r.Ok? ==> Words(s, a + Files(r.value), lo, r.pos)
    decreases |s| - p
  {
    var p1 := Skip(s, p);
    SkipBlank(s, p);
    if !PeekAt(s, p1, {'<', '>'}) {
      WordsWiden(s, a + Files(rs), lo, p, lo, p1);
    } else {
      var tok := GetToken(s, p1);
      var file := GetToken(s, tok.next);
      if file.kind == 'a' {
        StepBlank(s, p);
        TokenBlank(s, tok.next);
        var w := Span(file.q, file.eq);
        var rs' := rs + [ToRedirect(tok.kind, w)];
        WordsInsert(s, a + Files(rs), [], w, lo, p, file.next) by {
          assert a + Files(rs) + [] == a + Files(rs);
        }
        assert a + Files(rs') == a + Files(rs) + [w] + [];
        RedirsWords(s, file.next, rs', a, lo);
      }
    }
  }

  lemma {:induction false} ArgsWords(s: CString, p: nat, e: Simple, lo: nat)
    requires p <= |s| && lo <= p && Words(s, e.argv + Files(e.rs), lo, p)
    ensures var r := ParseArgs(s, p, e); r.Ok? ==> Words(s, r.value.argv + Files(r.value.rs), lo, r.pos)
    decreases |s| - p
  {
    var p1 := Skip(s, p);
    var tok := GetToken(s, p1);
    SkipBlank(s, p);
    TokenBlank(s, p1);
    if PeekAt(s, p1, {'|', ')', '&', ';'}) || tok.kind == '\0' {
      WordsWiden(s, e.argv + Files(e.rs), lo, p, lo, if PeekAt(s, p1, {'|', ')', '&', ';'}) then p1 else tok.next);
    } else if tok.kind == 'a' && |e.argv| + 1 < MAXARGS {
      var w := Span(tok.q, tok.eq);
      WordsInsert(s, e.argv, Files(e.rs), w, lo, p, tok.next);
      RedirsWords(s, tok.next, e.rs, e.argv + [w], lo);
      match ParseRedirs(s, tok.next, e.rs) {
        case Panics(_) =>
        case Ok(rs, p2) => ArgsWords(s, p2, Simple(e.argv + [w], rs), lo);
      }
    }
  }

  lemma {:induction false} ExecWords(s: CString, p: nat)
    requires p <= |s|
    ensures var r := ParseExec(s, p); r.Ok? ==> Words(s, Spans(r.value), p, r.pos)
    decreases |s| - p, 1
  {
    var p1 := Skip(s, p);
    SkipBlank(s, p);
    if PeekAt(s, p1, {'('}) {
      BlockWords(s, p1);
      var r := ParseBlock(s, p1);
      if r.Ok? {
        WordsWiden(s, Spans(r.value), p1, r.pos, p, r.pos);
      }
    } else {
      assert [] + Files([]) == [];
      assert Words(s, [], p, p1) by { WordsWiden(s, [], p1, p1, p, p1); }
      RedirsWords(s, p1, [], [], p);
      match ParseRedirs(s, p1, []) {
        case Panics(_) =>
        case Ok(rs, p2) =>
          ArgsWords(s, p2, Simple([], rs), p);
          var r := ParseArgs(s, p2, Simple([], rs));
          if r.Ok? {
            WrapSpans(Exec(r.value.argv), r.value.rs);
          }
      }
    }
  }

  lemma {:induction false} BlockWords(s: CString, p: nat)
    requires p <= |s|
    ensures var r := ParseBlock(s, p); r.Ok? ==> Words(s, Spans(r.value), p, r.pos)
    decreases |s| - p, 0
  {
    var p1 := Skip(s, p);
    if PeekAt(s, p1, {'('}) {
      var p2 := GetToken(s, p1).next;
      LineWords(s, p2);
      match ParseLine(s, p2) {
        case Panics(_) =>
        case Ok(c, p3) =>
          var p4 := Skip(s, p3);
          if PeekAt(s, p4, {')'}) {
            var p5 := GetToken(s, p4).next;
            StepBlank(s, p);
            StepBlank(s, p3);
            WordsWiden(s, Spans(c), p2, p3, p, p5);
            assert Spans(c) + Files([]) == Spans(c);
            RedirsWords(s, p5, [], Spans(c), p);
            var r := ParseRedirs(s, p5, []);
            if r.Ok? {
              WrapSpans(c, r.value);
            }
          }
      }
    }
  }

  lemma {:induction false} PipeWords(s: CString, p: nat)
    requires p <= |s|
    ensures var r := ParsePipe(s, p); r.Ok? ==> Words(s, Spans(r.value), p, r.pos)
    decreases |s| - p, 3
  {
    ExecWords(s, p);
    match ParseExec(s, p) {
      case Panics(_) =>
      case Ok(c, p1) => PipeRest(s, p, c, p1);
    }
  }

  /** What follows the first command of a pipe. */
  lemma {:induction false} PipeRest(s: CString, p: nat, c: Cmd, p1: nat)
    requires p <= p1 <= |s| && Words(s, Spans(c), p, p1)
    ensures var p2 := Skip(s, p1);
            if PeekAt(s, p2, {'|'})
            then var r := ParsePipe(s, GetToken(s, p2).next); r.Ok? ==> Words(s, Spans(Pipe(c, r.value)), p, r.pos)
            else Words(s, Spans(c), p, p2)
    decreases |s| - p1, 2
  {
    var p2 := Skip(s, p1);
    if PeekAt(s, p2, {'|'}) {
      var p3 := GetToken(s, p2).next;
      PipeWords(s, p3);
      var r := ParsePipe(s, p3);
      if r.Ok? {
        StepBlank(s, p1);
        WordsJoin(s, Spans(c), Spans(r.value), p, p1, p3, r.pos);
      }
    } else {
      SkipBlank(s, p1);
      WordsWiden(s, Spans(c), p, p1, p, p2);
    }
  }

  lemma {:induction false} BacksWords(s: CString, p: nat, c: Cmd, lo: nat)
    requires p <= |s| && lo <= p && Words(s, Spans(c), lo, p)
    ensures var r := ParseBacks(s, p, c); Words(s, Spans(r.0), lo, r.1)
    decreases |s| - p
  {
    var p1 := Skip(s, p);
    SkipBlank(s, p);
    if PeekAt(s, p1, {'&'}) {
      StepBlank(s, p);
      WordsWiden(s, Spans(c), lo, p, lo, GetToken(s, p1).next);
      BacksWords(s, GetToken(s, p1).next, Back(c), lo);
    } else {
      WordsWiden(s, Spans(c), lo, p, lo, p1);
    }
  }

  lemma {:induction false} LineWords(s: CString, p: nat)
    requires p <= |s|
    ensures var r := ParseLine(s, p); r.Ok? ==> Words(s, Spans(r.value), p, r.pos)
    decreases |s| - p, 5
  {
    PipeWords(s, p);
    match ParsePipe(s, p) {
      case Panics(_) =>
      case Ok(c, p1) =>
        BacksWords(s, p1, c, p);
        var (c2, p2) := ParseBacks(s, p1, c);
        LineRest(s, p, c2, p2);
    }
  }

  /** What follows the first command of a list. */
  lemma {:induction false} LineRest(s: CString, p: nat, c: Cmd, p1: nat)
    requires p <= p1 <= |s| && Words(s, Spans(c), p, p1)
    ensures var p2 := Skip(s, p1);
            if PeekAt(s, p2, {';'})
            then var r := ParseLine(s, GetToken(s, p2).next); r.Ok? ==> Words(s, Spans(List(c, r.value)), p, r.pos)
            else Words(s, Spans(c), p, p2)
    decreases |s| - p1, 4
  {
    var p2 := Skip(s, p1);
    if PeekAt(s, p2, {';'}) {
      var p3 := GetToken(s, p2).next;
      LineWords(s, p3);
      var r := ParseLine(s, p3);
      if r.Ok? {
        StepBlank(s, p1);
        WordsJoin(s, Spans(c), Spans(r.value), p, p1, p3, r.pos);
      }
    } else {
      SkipBlank(s, p1);
      WordsWiden(s, Spans(c), p, p1, p, p2);
    }
  }

  // ---- NUL-termination ----

  /** The offsets that `nulterminate` overwrites. */
  function Ends(c: Cmd): set<nat> {
    match c
    case Exec(argv) => set w | w in argv :: w.eq
    case Redir(d, r) => Ends(d) + {r.file.eq}
    case Pipe(l, r) => Ends(l) + Ends(r)
    case List(l, r) => Ends(l) + Ends(r)
    case Back(d) => Ends(d)
  }

  ghost predicate HasEnd(ws: seq<Span>, x: nat) {
    exists i :: 0 <= i < |ws| && ws[i].eq == x
  }

  lemma {:induction false} EndsOfSpans(c: Cmd, x: nat)
    ensures x in Ends(c) <==> HasEnd(Spans(c), x)
  {
    match c {
      case Exec(argv) =>
      case Redir(d, r) =>
        EndsOfSpans(d, x);
        ConcatHas(Spans(d), [r.file], x);
        assert HasEnd([r.file], x) <==> [r.file][0].eq == x;
      case Pipe(l, r) =>
        EndsOfSpans(l, x);
        EndsOfSpans(r, x);
        ConcatHas(Spans(l), Spans(r), x);
      case List(l, r) =>
        EndsOfSpans(l, x);
        EndsOfSpans(r, x);
        ConcatHas(Spans(l), Spans(r), x);
      case Back(d) =>
        EndsOfSpans(d, x);
    }
  }

  lemma ConcatHas(a: seq<Span>, b: seq<Span>, x: nat)
    ensures HasEnd(a + b, x) <==> HasEnd(a, x) || HasEnd(b, x)
  {
    if HasEnd(a, x) {
      var i :| 0 <= i < |a| && a[i].eq == x;
      assert (a + b)[i].eq == x;
    }
    if HasEnd(b, x) {
      var i :| 0 <= i < |b| && b[i].eq == x;
      assert (a + b)[|a| + i].eq == x;
    }
  }

  /** The buffer with the given offsets overwritten by NUL. */
  function Nulled(buf: seq<char>, ends: set<nat>): (r: seq<char>)
    ensures |r| == |buf|
  {
    seq(|buf|, x requires 0 <= x < |buf| => if x in ends then '\0' else buf[x])
  }

  /** The C string that starts at offset `q`. */
  function StringAt(buf: seq<char>, q: nat): string
    decreases |buf| - q
  {
    if q >= |buf| || buf[q] == '\0' then "" else [buf[q]] + StringAt(buf, q + 1)
  }

  lemma {:induction false} StringUpTo(buf: seq<char>, q: nat, eq: nat)
    requires q <= eq < |buf| && buf[eq] == '\0' && forall x | q <= x < eq :: buf[x] != '\0'
    ensures StringAt(buf, q) == buf[q..eq]
    decreases eq - q
  {
    if q < eq {
      StringUpTo(buf, q + 1, eq);
      assert buf[q..eq] == [buf[q]] + buf[q + 1..eq];
    }
  }

  /** After NUL-termination each recorded word reads back as exactly its token's text. */
  lemma ReadsBack(s: CString, c: Cmd, i: nat)
    requires Words(s, Spans(c), 0, |s|) && i < |Spans(c)|
    ensures var w := Spans(c)[i]; w.q < w.eq <= |s| && StringAt(Nulled(s + ['\0'], Ends(c)), w.q) == s[w.q..w.eq]
  {
    var w := Spans(c)[i];
    var buf := Nulled(s + ['\0'], Ends(c));
    assert SpanOk(s, w, 0, |s|);
    EndsOfSpans(c, w.eq);
    forall x | w.q <= x < w.eq ensures buf[x] == s[x] {
      EndsOfSpans(c, x);
      forall j | 0 <= j < |Spans(c)| ensures Spans(c)[j].eq != x {
        assert SpanOk(s, Spans(c)[j], 0, |s|);
      }
    }
    StringUpTo(buf, w.q, w.eq);
    assert buf[w.q..w.eq] == s[w.q..w.eq];
  }

  /** A word of the line that nothing of a word stands before. */
  ghost predicate IsToken(s: CString, w: Span) {
    IsWord(s, w.q, w.eq) && (w.q > 0 ==> !IsWordChar(At(s, w.q - 1)))
  }

  ghost predicate Once(ws: seq<Span>, w: Span) {
    w in ws && forall i, j | 0 <= i < j < |ws| :: !(ws[i] == w && ws[j] == w)
  }

  /** Each word of the line is recorded, and once only. */
  lemma RecordedOnce(s: CString, ws: seq<Span>, w: Span)
    requires Words(s, ws, 0, |s|) && IsToken(s, w)
    ensures Once(ws, w)
  {
    assert CoveredAt(s, ws, w.q);
    assert IsWordChar(s[w.q]);
    var i :| 0 <= i < |ws| && ws[i].q <= w.q < ws[i].eq;
    assert SpanOk(s, ws[i], 0, |s|);
    SameToken(s, w, ws[i]);
    forall a, b | 0 <= a < b < |ws| ensures !(ws[a] == w && ws[b] == w) {
      assert Apart(ws[a], ws[b]);
    }
  }

  lemma SameToken(s: CString, w: Span, v: Span)
    requires IsToken(s, w) && IsWord(s, v.q, v.eq) && v.q <= w.q < v.eq
    ensures v == w
  {
    forall x | v.q <= x < v.eq || w.q <= x < w.eq ensures IsWordChar(At(s, x)) {
      assert IsWordChar(s[x]);
    }
  }

  /** The whole of `parsecmd`: on success its words are disjoint, and every string reads back as its token. */
  lemma ParsedWords(s: CString)
    ensures var r := ParseCmd(s);
            r.Ok? ==> && Words(s, Spans(r.value), 0, |s|)
                      && forall i | 0 <= i < |Spans(r.value)| ::
                           var w := Spans(r.value)[i];
                           w.q < w.eq <= |s| && StringAt(Nulled(s + ['\0'], Ends(r.value)), w.q) == s[w.q..w.eq]
  {
    LineWords(s, 0);
    var r := ParseCmd(s);
    if r.Ok? {
      SkipBlank(s, ParseLine(s, 0).pos);
      WordsWiden(s, Spans(r.value), 0, ParseLine(s, 0).pos, 0, |s|);
      forall i | 0 <= i < |Spans(r.value)|
        ensures var w := Spans(r.value)[i];
                w.q < w.eq <= |s| && StringAt(Nulled(s + ['\0'], Ends(r.value)), w.q) == s[w.q..w.eq]
      {
        ReadsBack(s, r.value, i);
      }
    }
  }

  /** On success every word of the line is recorded in the command, exactly once. */
  lemma EveryWordOnce(s: CString, w: Span)
    requires ParseCmd(s).Ok? && IsToken(s, w)
    ensures Once(Spans(ParseCmd(s).value), w)
  {
    ParsedWords(s);
    RecordedOnce(s, Spans(ParseCmd(s).value), w);
  }
}
