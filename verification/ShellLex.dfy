/** What the tokens of a line are, by the characters of sh.c: white space is dropped, everything else is kept in order, and words
    are as long as they can be. */
module ShellLex {
  import opened Shell
  import opened ShellPrint

  predicate White(c: char) { c in " \t\r\n\U{0b}" }

  predicate Special(c: char) { c in "<|>&;()" }

  /** The text without its white space. */
  function Strip(s: string): string {
    if s == "" then "" else (if White(s[0]) then "" else [s[0]]) + Strip(s[1..])
  }

  /** The texts of tokens, one behind the other. */
  function Flat(ts: seq<Tok<string>>): string {
    if ts == [] then "" else TokString(ts[0]) + Flat(ts[1..])
  }

  lemma {:induction false} StripBoth(a: string, b: string)
    ensures Strip(a + b) == Strip(a) + Strip(b)
  {
    if a == "" {
      assert a + b == b;
    } else {
      assert (a + b)[1..] == a[1..] + b;
      StripBoth(a[1..], b);
    }
  }

  lemma {:induction false} StripNone(a: string)
    requires forall i :: 0 <= i < |a| ==> !White(a[i])
    ensures Strip(a) == a
  {
    if a != "" {
      StripNone(a[1..]);
      assert a == [a[0]] + a[1..];
    }
  }

  lemma {:induction false} StripAll(a: string)
    requires forall i :: 0 <= i < |a| ==> White(a[i])
    ensures Strip(a) == ""
  {
    if a != "" {
      StripAll(a[1..]);
    }
  }

  /** A token is a stretch of the line without white space; a word has no special characters either. */
  lemma {:induction false} TokenText(line: string, p: nat)
    requires IsLine(line) && p < |line| && !White(line[p])
    ensures !IsSpace(line[p])
    ensures
      var (t, e) := TokenAt(line, p);
      && TokString(TokText(line, t)) == line[p..e] && (forall i :: p <= i < e ==> !White(line[i]))
      && (t.Word? ==> t.w == Span(p, e) && (forall i :: p <= i < e ==> !Special(line[i])) && (e < |line| ==> White(line[e]) || Special(line[e])))
  {
    var (t, e) := TokenAt(line, p);
    if !t.Word? {
      assert line[p..e] == if t == Append then [line[p], line[p + 1]] else [line[p]];
    }
  }

  lemma {:induction false} FlatFirst(line: string, t: Tok<Span>, rest: seq<Tok<Span>>)
    ensures Flat(ToksText(line, [t] + rest)) == TokString(TokText(line, t)) + Flat(ToksText(line, rest))
  {
    var ts := ToksText(line, [t] + rest);
    assert ts[0] == TokText(line, t) && ts[1..] == ToksText(line, rest);
  }

  lemma {:induction false} StripFirst(line: string, p: nat, e: nat)
    requires p <= e <= |line| && forall i :: p <= i < e ==> !White(line[i])
    ensures Strip(line[p..]) == line[p..e] + Strip(line[e..])
  {
    assert line[p..] == line[p..e] + line[e..];
    StripBoth(line[p..e], line[e..]);
    StripNone(line[p..e]);
  }

  /** Lexing loses nothing but white space, and invents nothing. */
  lemma {:induction false} LexConserves(line: string, p: nat)
    requires IsLine(line) && p <= |line|
    ensures Flat(ToksText(line, Lex(line, p))) == Strip(line[p..])
    decreases |line| - p
  {
    if p == |line| {
      assert Lex(line, p) == [];
    } else if White(line[p]) {
      LexSpace(line, p);
      LexConserves(line, p + 1);
      StripAll([line[p]]);
      assert line[p..] == [line[p]] + line[p + 1..];
      StripBoth([line[p]], line[p + 1..]);
    } else {
      LexToken(line, p);
      LexConserves(line, TokenAt(line, p).1);
    }
  }

  lemma {:induction false} LexToken(line: string, p: nat)
    requires IsLine(line) && p < |line| && !White(line[p])
    ensures !IsSpace(line[p])
    ensures
      var (t, e) := TokenAt(line, p);
      && Flat(ToksText(line, Lex(line, p))) == line[p..e] + Flat(ToksText(line, Lex(line, e)))
      && Strip(line[p..]) == line[p..e] + Strip(line[e..])
  {
    TokenText(line, p);
    LexStep(line, p);
    var (t, e) := TokenAt(line, p);
    FlatFirst(line, t, Lex(line, e));
    StripFirst(line, p, e);
  }

  /** Two words in a row have white space between them, and nothing else; so a word ends only at white space, at a special
      character, or with the line. */
  ghost predicate Separated(line: string, ts: seq<Tok<Span>>, i: nat)
    requires i < |ts|
  {
    ts[i].Word? ==>
      && ts[i].w.q < ts[i].w.eq <= |line| && (forall k :: ts[i].w.q <= k < ts[i].w.eq ==> !White(line[k]) && !Special(line[k]))
      && (i + 1 < |ts| && ts[i + 1].Word? ==>
            ts[i].w.eq < ts[i + 1].w.q <= |line| && forall k :: ts[i].w.eq <= k < ts[i + 1].w.q ==> White(line[k]))
  }

  /** The first token from `p` on, if it is a word, begins behind white space only. */
  lemma {:induction false} FirstWord(line: string, p: nat)
    requires IsLine(line) && p <= |line|
    ensures
      var ts := Lex(line, p);
      ts != [] && ts[0].Word? ==> p <= ts[0].w.q < |line| && !White(line[ts[0].w.q]) && !Special(line[ts[0].w.q]) && forall k :: p <= k < ts[0].w.q ==> White(line[k])
    decreases |line| - p
  {
    if p < |line| {
      if White(line[p]) {
        LexSpace(line, p);
        FirstWord(line, p + 1);
      } else {
        TokenText(line, p);
        LexStep(line, p);
      }
    }
  }

  lemma {:induction false} WordsSeparated(line: string, p: nat, i: nat)
    requires IsLine(line) && p <= |line| && i < |Lex(line, p)|
    ensures Separated(line, Lex(line, p), i)
    decreases |line| - p
  {
    if White(line[p]) {
      LexSpace(line, p);
      WordsSeparated(line, p + 1, i);
    } else {
      TokenText(line, p);
      LexStep(line, p);
      var e := TokenAt(line, p).1;
      if i == 0 {
        FirstWord(line, e);
      } else {
        WordsSeparated(line, e, i - 1);
      }
    }
  }
}
