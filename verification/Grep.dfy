/** The pattern matcher of grep.c. Strings are without their terminating NUL. */
module Grep {

  /** One item of a pattern: a character (`.` stands for any) or a starred one. */
  datatype Item = One(c: char) | Star(c: char)

  /** A pattern as it is read: the items, and whether a final `$` ties the match to the end. */
  datatype Pattern = Pattern(items: seq<Item>, toEnd: bool)

  predicate Accepts(c: char, x: char) {
    c == '.' || c == x
  }

  /** How matchhere reads a pattern: `x*` before anything else, `$` only in last place. */
  function Read(re: string): Pattern {
    if re == [] then Pattern([], false)
    else if |re| >= 2 && re[1] == '*' then var r := Read(re[2..]); r.(items := [Star(re[0])] + r.items)
    else if re == "$" then Pattern([], true)
    else var r := Read(re[1..]); r.(items := [One(re[0])] + r.items)
  }

  // ---- The language of a pattern

  ghost predicate InItem(it: Item, w: string) {
    match it
    case One(c) => |w| == 1 && Accepts(c, w[0])
    case Star(c) => forall i :: 0 <= i < |w| ==> Accepts(c, w[i])
  }

  /** `w` is the concatenation of one word of each item. */
  ghost predicate InLanguage(items: seq<Item>, w: string) {
    if items == [] then w == []
    else exists k :: 0 <= k <= |w| && InItem(items[0], w[..k]) && InLanguage(items[1..], w[k..])
  }

  /** The characters of text from `i` to `j` form a word of the pattern that ends where it must. */
  ghost predicate MatchesFromTo(p: Pattern, text: string, i: int, j: int) {
    0 <= i <= j <= |text| && InLanguage(p.items, text[i..j]) && (p.toEnd ==> j == |text|)
  }

  /** What grep promises: some stretch of the text, at its beginning if the pattern starts with `^`, matches. */
  ghost predicate Matches(re: string, text: string) {
    if re != [] && re[0] == '^' then exists j :: MatchesFromTo(Read(re[1..]), text, 0, j)
    else exists i, j :: MatchesFromTo(Read(re), text, i, j)
  }

  /** The same, for a match that begins at the beginning of the text. */
  ghost predicate Here(p: Pattern, text: string) {
    exists j :: MatchesFromTo(p, text, 0, j)
  }

  // ---- Unfolding the language by its first item

  lemma {:induction false} HereStar(c: char, p: Pattern, text: string)
    ensures Here(p.(items := [Star(c)] + p.items), text) <==>
      exists k :: 0 <= k <= |text| && InItem(Star(c), text[..k]) && Here(p, text[k..])
  {
    var q := p.(items := [Star(c)] + p.items);
    assert q.items[1..] == p.items;
    if j :| MatchesFromTo(q, text, 0, j) {
      var w := text[0..j];
      var k :| 0 <= k <= |w| && InItem(q.items[0], w[..k]) && InLanguage(q.items[1..], w[k..]);
      assert w[..k] == text[..k] && w[k..] == text[k..][0..j - k];
      assert MatchesFromTo(p, text[k..], 0, j - k);
    }
    if k :| 0 <= k <= |text| && InItem(Star(c), text[..k]) && Here(p, text[k..]) {
      var j :| MatchesFromTo(p, text[k..], 0, j);
      var w := text[0..k + j];
      assert w[..k] == text[..k] && w[k..] == text[k..][0..j];
      assert MatchesFromTo(q, text, 0, k + j);
    }
  }

  lemma {:induction false} HereOne(c: char, p: Pattern, text: string)
    ensures Here(p.(items := [One(c)] + p.items), text) <==> text != [] && Accepts(c, text[0]) && Here(p, text[1..])
  {
    var q := p.(items := [One(c)] + p.items);
    assert q.items[1..] == p.items;
    if j :| MatchesFromTo(q, text, 0, j) {
      var w := text[0..j];
      var k :| 0 <= k <= |w| && InItem(q.items[0], w[..k]) && InLanguage(q.items[1..], w[k..]);
      assert k == 1 && w[..1][0] == text[0] && w[1..] == text[1..][0..j - 1];
      assert MatchesFromTo(p, text[1..], 0, j - 1);
    }
    if text != [] && Accepts(c, text[0]) && Here(p, text[1..]) {
      var j :| MatchesFromTo(p, text[1..], 0, j);
      var w := text[0..1 + j];
      assert w[..1] == [text[0]] && w[1..] == text[1..][0..j];
      assert InItem(q.items[0], w[..1]) && InLanguage(q.items[1..], w[1..]);
      assert MatchesFromTo(q, text, 0, 1 + j);
    }
  }

  // ---- The matcher

  method MatchHere(re: string, text: string) returns (b: bool)
    ensures b <==> Here(Read(re), text)
    decreases |re|, 0
  {
    if re == [] {
      assert MatchesFromTo(Read(re), text, 0, 0);
      return true;
    }
    if |re| >= 2 && re[1] == '*' {
      HereStar(re[0], Read(re[2..]), text);
      b := MatchStar(re[0], re[2..], text);
      return;
    }
    if re[0] == '$' && |re| == 1 {
      assert re == "$";
      assert text == [] ==> MatchesFromTo(Read(re), text, 0, 0);
      assert Here(Read(re), text) ==> text == [];
      return text == [];
    }
    HereOne(re[0], Read(re[1..]), text);
    if text != [] && (re[0] == '.' || re[0] == text[0]) {
      b := MatchHere(re[1..], text[1..]);
      return;
    }
    return false;
  }

  method MatchStar(c: char, re: string, text: string) returns (b: bool)
    ensures b <==> exists k :: 0 <= k <= |text| && InItem(Star(c), text[..k]) && Here(Read(re), text[k..])
    decreases |re|, 1
  {
    var i := 0;
    while true
      invariant 0 <= i <= |text| && InItem(Star(c), text[..i])
      invariant forall k :: 0 <= k < i ==> !Here(Read(re), text[k..])
      decreases |text| - i
    {
      var here := MatchHere(re, text[i..]);
      if here {
        return true;
      }
      if !(i < |text| && (text[i] == c || c == '.')) {
        assert forall k :: i < k <= |text| ==> !Accepts(c, text[..k][i]);
        return false;
      }
      i := i + 1;
    }
  }

  /** `match`: true exactly if the text contains a match of the pattern. */
  method Match(re: string, text: string) returns (b: bool)
    ensures b <==> Matches(re, text)
  {
    if re != [] && re[0] == '^' {
      b := MatchHere(re[1..], text);
      return;
    }
    var i := 0;
    while true
      invariant 0 <= i <= |text|
      invariant forall k :: 0 <= k < i ==> !Here(Read(re), text[k..])
      decreases |text| - i
    {
      var here := MatchHere(re, text[i..]);
      if here {
        ShiftMatch(Read(re), text, i);
        return true;
      }
      if i == |text| {
        forall k, j ensures !MatchesFromTo(Read(re), text, k, j) {
          if 0 <= k <= |text| { ShiftMatch(Read(re), text, k); }
        }
        return false;
      }
      i := i + 1;
    }
  }

  lemma {:induction false} ShiftMatch(p: Pattern, text: string, i: nat)
    requires i <= |text|
    ensures Here(p, text[i..]) <==> exists j :: MatchesFromTo(p, text, i, j)
  {
    if j :| MatchesFromTo(p, text[i..], 0, j) {
      assert text[i..][0..j] == text[i..i + j];
      assert MatchesFromTo(p, text, i, i + j);
    }
    if j :| MatchesFromTo(p, text, i, j) {
      assert text[i..][0..j - i] == text[i..j];
      assert MatchesFromTo(p, text[i..], 0, j - i);
    }
  }
}
