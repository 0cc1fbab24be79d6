/** The regular-expression matcher of `grep`, proved against the language its patterns denote. */
module Grep {

  /** A NUL-terminated string, as the characters before its terminator. */
  type CString = s: string | '\0' !in s

  /** One element of a pattern: `c`, or `c*`; the character '.' stands for any character. */
  datatype Item = One(c: char) | Star(c: char)

  /** A pattern without its leading '^': its elements, and whether a final '$' anchors it. */
  datatype Pattern = Pattern(items: seq<Item>, atEnd: bool)

  /** How a pattern is read: `*` binds the character before it, and only a lone final '$' is an anchor. */
  function Parse(re: CString): Pattern {
    if re == "" then
      Pattern([], false)
    else if |re| >= 2 && re[1] == '*' then
      var rest := Parse(re[2..]);
      Pattern([Star(re[0])] + rest.items, rest.atEnd)
    else if re == "$" then
      Pattern([], true)
    else
      var rest := Parse(re[1..]);
      Pattern([One(re[0])] + rest.items, rest.atEnd)
  }

  predicate CharMatches(c: char, ch: char) {
    c == '.' || c == ch
  }

  predicate AllMatch(c: char, s: string) {
    forall i | 0 <= i < |s| :: CharMatches(c, s[i])
  }

  predicate Accepts(item: Item, part: string) {
    match item
    case One(c) => |part| == 1 && CharMatches(c, part[0])
    case Star(c) => AllMatch(c, part)
  }

  function Concat(parts: seq<string>): string {
    if parts == [] then "" else parts[0] + Concat(parts[1..])
  }

  ghost predicate Splits(items: seq<Item>, s: string, parts: seq<string>) {
    && |parts| == |items|
    && Concat(parts) == s
    && forall i | 0 <= i < |items| :: Accepts(items[i], parts[i])
  }

  /** The language of a list of elements: the strings that split into one accepted part per element. */
  ghost predicate InLanguage(items: seq<Item>, s: string) {
    exists parts :: Splits(items, s, parts)
  }

  /** The substring `text[i..j]` is an occurrence of the pattern `re` (which has no leading '^' left). */
  ghost predicate Occurs(re: CString, text: CString, i: int, j: int) {
    && 0 <= i <= j <= |text|
    && InLanguage(Parse(re).items, text[i..j])
    && (Parse(re).atEnd ==> j == |text|)
  }

  /** An occurrence starts at the beginning of the text. */
  ghost predicate OccursHere(re: CString, text: CString) {
    exists j :: Occurs(re, text, 0, j)
  }

  /** Some prefix of the text is a run of `c`, and an occurrence starts right after it. */
  ghost predicate OccursAfterRun(c: char, re: CString, text: CString, from: nat) {
    exists k :: from <= k <= |text| && AllMatch(c, text[from..k]) && OccursHere(re, text[k..])
  }

  // ---- the language, one element at a time ----

  lemma ConsInLanguage(item: Item, items: seq<Item>, s: string, k: int)
    requires 0 <= k <= |s| && Accepts(item, s[..k]) && InLanguage(items, s[k..])
    ensures InLanguage([item] + items, s)
  {
    var parts :| Splits(items, s[k..], parts);
    var parts' := [s[..k]] + parts;
    assert parts'[1..] == parts && s[..k] + s[k..] == s;
    assert Splits([item] + items, s, parts');
  }

  lemma InLanguageHead(item: Item, items: seq<Item>, s: string) returns (k: int)
    requires InLanguage([item] + items, s)
    ensures 0 <= k <= |s| && Accepts(item, s[..k]) && InLanguage(items, s[k..])
  {
    var all := [item] + items;
    var parts :| Splits(all, s, parts);
    k := |parts[0]|;
    assert s[..k] == parts[0] && s[k..] == Concat(parts[1..]);
    assert Accepts(all[0], parts[0]);
    forall i | 0 <= i < |items| ensures Accepts(items[i], parts[1..][i]) {
      assert all[i + 1] == items[i] && Accepts(all[i + 1], parts[i + 1]);
    }
    assert Splits(items, s[k..], parts[1..]);
  }

  lemma EmptyLanguage(s: string)
    ensures InLanguage([], s) <==> s == ""
  {
    if s == "" {
      assert Splits([], s, []);
    }
  }

  /** An occurrence of an element followed by `rest` is the element's part and an occurrence of `rest`. */
  lemma OccursHereCons(item: Item, rest: CString, re: CString, text: CString)
    requires Parse(re) == Pattern([item] + Parse(rest).items, Parse(rest).atEnd)
    ensures OccursHere(re, text) <==>
            exists k :: 0 <= k <= |text| && Accepts(item, text[..k]) && OccursHere(rest, text[k..])
  {
    if OccursHere(re, text) {
      var j :| Occurs(re, text, 0, j);
      var k := InLanguageHead(item, Parse(rest).items, text[0..j]);
      assert text[0..j][..k] == text[..k] && text[0..j][k..] == text[k..][0..j - k];
      assert Occurs(rest, text[k..], 0, j - k);
    }
    if k :| 0 <= k <= |text| && Accepts(item, text[..k]) && OccursHere(rest, text[k..]) {
      var j :| Occurs(rest, text[k..], 0, j);
      assert text[0..k + j][..k] == text[..k] && text[0..k + j][k..] == text[k..][0..j];
      ConsInLanguage(item, Parse(rest).items, text[0..k + j], k);
      assert Occurs(re, text, 0, k + j);
    }
  }

  lemma OccursHereOne(re: CString, text: CString)
    requires re != "" && re != "$" && !(|re| >= 2 && re[1] == '*')
    ensures OccursHere(re, text) <==> text != "" && CharMatches(re[0], text[0]) && OccursHere(re[1..], text[1..])
  {
    OccursHereCons(One(re[0]), re[1..], re, text);
    if text != "" && CharMatches(re[0], text[0]) && OccursHere(re[1..], text[1..]) {
      assert Accepts(One(re[0]), text[..1]);
    }
  }

  lemma OccursHereStar(re: CString, text: CString)
    requires |re| >= 2 && re[1] == '*'
    ensures OccursHere(re, text) <==> OccursAfterRun(re[0], re[2..], text, 0)
  {
    OccursHereCons(Star(re[0]), re[2..], re, text);
    if OccursHere(re, text) {
      var k :| 0 <= k <= |text| && Accepts(Star(re[0]), text[..k]) && OccursHere(re[2..], text[k..]);
      assert text[0..k] == text[..k];
    }
    if OccursAfterRun(re[0], re[2..], text, 0) {
      var k :| 0 <= k <= |text| && AllMatch(re[0], text[0..k]) && OccursHere(re[2..], text[k..]);
      assert text[0..k] == text[..k] && Accepts(Star(re[0]), text[..k]);
    }
  }

  lemma OccursHereEmpty(re: CString, text: CString)
    requires re == "" || re == "$"
    ensures OccursHere(re, text) <==> re == "" || text == ""
  {
    EmptyLanguage(text[0..0]);
    if re == "" || text == "" {
      assert Occurs(re, text, 0, 0);
    }
    if OccursHere(re, text) {
      var j :| Occurs(re, text, 0, j);
      EmptyLanguage(text[0..j]);
    }
  }

  /** An occurrence at the start of a suffix is an occurrence inside the whole text. */
  lemma OccursShift(re: CString, text: CString, i: nat)
    requires i <= |text|
    ensures OccursHere(re, text[i..]) <==> exists j :: Occurs(re, text, i, j)
  {
    if OccursHere(re, text[i..]) {
      var j :| Occurs(re, text[i..], 0, j);
      assert text[i..][0..j] == text[i..i + j];
      assert Occurs(re, text, i, i + j);
    }
    if j :| Occurs(re, text, i, j) {
      assert text[i..][0..j - i] == text[i..j];
      assert Occurs(re, text[i..], 0, j - i);
    }
  }

  /** The character a C pointer at offset `i` sees. */
  function At(s: CString, i: nat): char {
    if i < |s| then s[i] else '\0'
  }

  method MatchHere(re: CString, text: CString) returns (r: bool)
    ensures r <==> OccursHere(re, text)
    decreases |re|, 0
  {
    if At(re, 0) == '\0' {
      OccursHereEmpty(re, text);
      return true;
    }
    if At(re, 1) == '*' {
      OccursHereStar(re, text);
      r := MatchStar(re[0], re[2..], text);
      return;
    }
    if re[0] == '$' && At(re, 1) == '\0' {
      assert re == "$";
      OccursHereEmpty(re, text);
      return At(text, 0) == '\0';
    }
    OccursHereOne(re, text);
    if At(text, 0) != '\0' && (re[0] == '.' || re[0] == text[0]) {
      r := MatchHere(re[1..], text[1..]);
      return;
    }
    return false;
  }

  method MatchStar(c: char, re: CString, text: CString) returns (r: bool)
    ensures r <==> OccursAfterRun(c, re, text, 0)
    decreases |re| + 1, 1
  {
    var t := 0;
    while true
      invariant 0 <= t <= |text|
      invariant AllMatch(c, text[0..t])
      invariant forall k | 0 <= k < t :: !OccursHere(re, text[k..])
      decreases |text| - t
    {
      var here := MatchHere(re, text[t..]);
      if here {
        return true;
      }
      if !(At(text, t) != '\0' && (text[t] == c || c == '.')) {
        break;
      }
      t := t + 1;
    }
    // A longer run would have to cross text[t], which `c` does not match.
    forall k | t < k <= |text| ensures !AllMatch(c, text[0..k]) {
      assert text[0..k][t] == text[t];
    }
    return false;
  }

  /** The whole matcher: some substring belongs to the pattern's language (a prefix, under '^'). */
  method Match(re: CString, text: CString) returns (r: bool)
    ensures re != "" && re[0] == '^' ==> (r <==> exists j :: Occurs(re[1..], text, 0, j))
    ensures !(re != "" && re[0] == '^') ==> (r <==> exists i, j :: Occurs(re, text, i, j))
  {
    if At(re, 0) == '^' {
      r := MatchHere(re[1..], text);
      return;
    }
    var t := 0;
    while true
      invariant 0 <= t <= |text|
      invariant forall i, j | 0 <= i < t :: !Occurs(re, text, i, j)
      decreases |text| - t
    {
      OccursShift(re, text, t);
      var here := MatchHere(re, text[t..]);
      if here {
        return true;
      }
      if At(text, t) == '\0' {
        break;
      }
      t := t + 1;
    }
    return false;
  }
}
