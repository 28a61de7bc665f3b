/** A canonical printing of commands, and that parsing it gives back the command. */
module ShellPrint {
  import opened Shell

  // ---- Printing, as tokens

  /** Level of the grammar at which a command stands without parentheses: line, background, pipe, simple command. */
  function Level<W>(c: Cmd<W>): nat {
    match c
    case List(_, _) => 0
    case Back(_) => 1
    case Pipe(_, _) => 2
    case _ => 3
  }

  function Words<W>(args: seq<W>): (r: seq<Tok<W>>)
    ensures |r| == |args|
  {
    seq(|args|, i requires 0 <= i < |args| => Word(args[i]))
  }

  function RedirToks<W>(rs: seq<Redirection<W>>): seq<Tok<W>> {
    if rs == [] then [] else [if rs[0].out then Great else Less, Word(rs[0].file)] + RedirToks(rs[1..])
  }

  /** The command in a place for level `lvl`, with parentheses if it needs them. */
  function Print<W>(lvl: nat, c: Cmd<W>): seq<Tok<W>>
    requires lvl <= 3
    decreases c, (Level(c) + 4 - lvl) % 4
  {
    if lvl != Level(c) then (if lvl < 3 then Print(lvl + 1, c) else [Open] + Print(0, c) + [Close])
    else
      match c
      case List(l, r) => Print(1, l) + [Semi] + Print(0, r)
      case Back(d) => Print(1, d) + [Amp]
      case Pipe(l, r) => Print(3, l) + [Bar] + Print(2, r)
      case Redir(d, file, out) => Print(3, d) + [if out then Great else Less, Word(file)]
      case Exec(args) => Words(args)
  }

  /** No command has more arguments than the shell takes. */
  predicate Short<W>(c: Cmd<W>) {
    match c
    case List(l, r) => Short(l) && Short(r)
    case Back(d) => Short(d)
    case Pipe(l, r) => Short(l) && Short(r)
    case Redir(d, _, _) => Short(d)
    case Exec(args) => |args| < MAXARGS
  }

  /** What may come behind a command of level `lvl`. */
  predicate Follows<W(==)>(lvl: nat, ts: seq<Tok<W>>) {
    ts == [] || ts[0] == Close || (lvl >= 1 && ts[0] == Semi) || (lvl >= 2 && ts[0] == Amp) || (lvl >= 3 && ts[0] == Bar)
  }

  // ---- Redirections and arguments

  lemma {:induction false} RedirsStep<W>(ts: seq<Tok<W>>, rs: seq<Redirection<W>>, rest: seq<Tok<W>>)
    requires BeginsRedir(ts) && |ts| >= 2 && ts[1].Word? && Redirs(ts[2..]) == Ok(rs, rest)
    ensures Redirs(ts) == Ok([Redirection(ts[1].w, ts[0] != Less)] + rs, rest)
  {
  }

  lemma {:induction false} RedirToksFirst<W>(rs: seq<Redirection<W>>, rest: seq<Tok<W>>)
    requires rs != []
    ensures
      var ts := RedirToks(rs) + rest;
      |ts| >= 2 && ts[0] == (if rs[0].out then Great else Less) && ts[1] == Word(rs[0].file) && ts[2..] == RedirToks(rs[1..]) + rest
  {
  }

  lemma {:induction false} RedirsPrinted<W>(rs: seq<Redirection<W>>, rest: seq<Tok<W>>)
    requires !BeginsRedir(rest)
    ensures Redirs(RedirToks(rs) + rest) == Ok(rs, rest)
  {
    if rs == [] {
      assert RedirToks(rs) + rest == rest;
    } else {
      RedirsPrinted(rs[1..], rest);
      RedirToksFirst(rs, rest);
      RedirsStep(RedirToks(rs) + rest, rs[1..], rest);
      assert rs == [rs[0]] + rs[1..];
    }
  }

  /** A redirection is around the command or the first of those around it. */
  lemma {:induction false} WrapFirst<W>(c: Cmd<W>, x: Redirection<W>, rs: seq<Redirection<W>>)
    ensures Wrap(Redir(c, x.file, x.out), rs) == Wrap(c, [x] + rs)
  {
    var all := [x] + rs;
    if rs == [] {
      assert all[..|all| - 1] == [];
    } else {
      WrapFirst(c, x, rs[..|rs| - 1]);
      assert all[..|all| - 1] == [x] + rs[..|rs| - 1];
    }
  }

  // Single steps of the parsers.

  lemma {:induction false} BlockStep<W>(ts: seq<Tok<W>>, c: Cmd<W>, rest: seq<Tok<W>>, rs: seq<Redirection<W>>, rest': seq<Tok<W>>)
    requires Begins(ts, Open) && ParseLine(ts[1..]) == Ok(c, rest) && Begins(rest, Close) && Redirs(rest[1..]) == Ok(rs, rest')
    ensures ParseExec(ts) == Ok(Wrap(c, rs), rest')
  {
  }

  lemma {:induction false} PipeStep<W>(ts: seq<Tok<W>>, c: Cmd<W>, rest: seq<Tok<W>>)
    requires ParseExec(ts) == Ok(c, rest)
    ensures !Begins(rest, Bar) ==> ParsePipe(ts) == Ok(c, rest)
    ensures Begins(rest, Bar) && ParsePipe(rest[1..]).Ok? ==> ParsePipe(ts) == Ok(Pipe(c, ParsePipe(rest[1..]).val), ParsePipe(rest[1..]).rest)
  {
  }

  lemma {:induction false} ArgsPrinted<W>(done: seq<W>, args: seq<W>, rs: seq<Redirection<W>>, rest: seq<Tok<W>>)
    requires args != [] && |done| + |args| < MAXARGS && Follows(3, rest)
    ensures Args(done, [], Words(args) + RedirToks(rs) + rest) == Ok(Wrap(Exec(done + args), rs), rest)
    decreases |args|
  {
    var ts := Words(args) + RedirToks(rs) + rest;
    assert ts[0] == Word(args[0]);
    assert ts[1..] == Words(args[1..]) + RedirToks(rs) + rest;
    assert done + args == done + [args[0]] + args[1..];
    if |args| == 1 {
      assert ts[1..] == RedirToks(rs) + rest;
      RedirsPrinted(rs, rest);
      ArgsNext(done, [], ts, rs, rest);
      assert [] + rs == rs && done + args == done + [args[0]];
    } else {
      assert ts[1..][0] == Word(args[1]);
      var none: seq<Redirection<W>> := [];
      ArgsNext(done, none, ts, none, ts[1..]);
      assert none + none == none;
      ArgsPrinted(done + [args[0]], args[1..], rs, rest);
    }
  }

  lemma {:induction false} ExecStep<W>(ts: seq<Tok<W>>, rs: seq<Redirection<W>>, rest: seq<Tok<W>>)
    requires !Begins(ts, Open) && Redirs(ts) == Ok(rs, rest)
    ensures ParseExec(ts) == Args([], rs, rest)
  {
  }

  lemma {:induction false} NoArgsPrinted<W>(rs: seq<Redirection<W>>, rest: seq<Tok<W>>)
    requires Follows(3, rest)
    ensures ParseExec(RedirToks(rs) + rest) == Ok(Wrap(Exec([]), rs), rest)
  {
    RedirsPrinted(rs, rest);
    ExecStep(RedirToks(rs) + rest, rs, rest);
  }

  lemma {:induction false} SomeArgsPrinted<W>(args: seq<W>, rs: seq<Redirection<W>>, rest: seq<Tok<W>>)
    requires 0 < |args| < MAXARGS && Follows(3, rest)
    ensures ParseExec(Words(args) + RedirToks(rs) + rest) == Ok(Wrap(Exec(args), rs), rest)
  {
    var ts := Words(args) + RedirToks(rs) + rest;
    assert ts[0] == Word(args[0]);
    ExecStep(ts, [], ts);
    ArgsPrinted([], args, rs, rest);
    assert [] + args == args;
  }

  lemma {:induction false} SimplePrinted<W>(args: seq<W>, rs: seq<Redirection<W>>, rest: seq<Tok<W>>)
    requires |args| < MAXARGS && Follows(3, rest)
    ensures ParseExec(Words(args) + RedirToks(rs) + rest) == Ok(Wrap(Exec(args), rs), rest)
  {
    if args == [] {
      assert Words(args) + RedirToks(rs) + rest == RedirToks(rs) + rest;
      NoArgsPrinted(rs, rest);
    } else {
      SomeArgsPrinted(args, rs, rest);
    }
  }

  // How the printings begin and go on.

  lemma {:induction false} PrintRedir<W>(c: Cmd<W>, rs: seq<Redirection<W>>, rest: seq<Tok<W>>)
    requires c.Redir?
    ensures Print(3, c) + RedirToks(rs) + rest == Print(3, c.cmd) + RedirToks([Redirection(c.file, c.out)] + rs) + rest
  {
  }

  lemma {:induction false} PrintBlock<W>(c: Cmd<W>, rs: seq<Redirection<W>>, rest: seq<Tok<W>>)
    requires Level(c) < 3
    ensures
      var ts := Print(3, c) + RedirToks(rs) + rest;
      Begins(ts, Open) && ts[1..] == Print(0, c) + ([Close] + (RedirToks(rs) + rest))
  {
  }

  lemma {:induction false} PrintPipe<W>(l: Cmd<W>, r: Cmd<W>, rest: seq<Tok<W>>)
    ensures Print(2, Pipe(l, r)) + rest == Print(3, l) + RedirToks<W>([]) + ([Bar] + (Print(2, r) + rest))
  {
  }

  lemma {:induction false} PrintList<W>(l: Cmd<W>, r: Cmd<W>, rest: seq<Tok<W>>)
    ensures Print(0, List(l, r)) + rest == Print(1, l) + ([Semi] + (Print(0, r) + rest))
  {
  }

  lemma {:induction false} Tail<W>(t: Tok<W>, ts: seq<Tok<W>>)
    ensures ([t] + ts)[1..] == ts
  {
  }

  // ---- The round trip, level by level

  lemma {:induction false} ExecPrinted<W>(c: Cmd<W>, rs: seq<Redirection<W>>, rest: seq<Tok<W>>)
    requires Short(c) && Follows(3, rest)
    ensures ParseExec(Print(3, c) + RedirToks(rs) + rest) == Ok(Wrap(c, rs), rest)
    decreases c, (Level(c) + 1) % 4
  {
    if c.Exec? {
      SimplePrinted(c.args, rs, rest);
    } else if c.Redir? {
      var x := Redirection(c.file, c.out);
      ExecPrinted(c.cmd, [x] + rs, rest);
      WrapFirst(c.cmd, x, rs);
      PrintRedir(c, rs, rest);
    } else {
      var rest' := RedirToks(rs) + rest;
      LinePrinted(c, [Close] + rest');
      RedirsPrinted(rs, rest);
      PrintBlock(c, rs, rest);
      Tail(Close, rest');
      BlockStep(Print(3, c) + RedirToks(rs) + rest, c, [Close] + rest', rs, rest);
    }
  }

  lemma {:induction false} PipePrinted<W>(c: Cmd<W>, rest: seq<Tok<W>>)
    requires Short(c) && Follows(2, rest)
    ensures ParsePipe(Print(2, c) + rest) == Ok(c, rest)
    decreases c, (Level(c) + 2) % 4
  {
    if c.Pipe? {
      var rest' := Print(2, c.right) + rest;
      ExecPrinted(c.left, [], [Bar] + rest');
      PipePrinted(c.right, rest);
      PrintPipe(c.left, c.right, rest);
      Tail(Bar, rest');
      PipeStep(Print(2, c) + rest, c.left, [Bar] + rest');
    } else {
      ExecPrinted(c, [], rest);
      assert Print(2, c) + rest == Print(3, c) + RedirToks<W>([]) + rest;
      PipeStep(Print(2, c) + rest, c, rest);
    }
  }

  lemma {:induction false} BackPrinted<W>(c: Cmd<W>, rest: seq<Tok<W>>)
    requires Short(c) && Follows(2, rest)
    ensures
      var r := ParsePipe(Print(1, c) + rest);
      r.Ok? && Backs(r.val, r.rest) == Backs(c, rest)
    decreases c, (Level(c) + 3) % 4
  {
    if c.Back? {
      BackPrinted(c.cmd, [Amp] + rest);
      assert Print(1, c) + rest == Print(1, c.cmd) + ([Amp] + rest);
      assert ([Amp] + rest)[1..] == rest;
    } else {
      PipePrinted(c, rest);
    }
  }

  lemma {:induction false} LinePrinted<W>(c: Cmd<W>, rest: seq<Tok<W>>)
    requires Short(c) && Follows(0, rest)
    ensures ParseLine(Print(0, c) + rest) == Ok(c, rest)
    decreases c, Level(c) % 4
  {
    var r := ParsePipe(Print(0, c) + rest);
    if c.List? {
      var rest' := Print(0, c.right) + rest;
      BackPrinted(c.left, [Semi] + rest');
      LinePrinted(c.right, rest);
      PrintList(c.left, c.right, rest);
      Tail(Semi, rest');
      LineStep(Print(0, c) + rest, r.val, r.rest, c.left, [Semi] + rest');
    } else {
      BackPrinted(c, rest);
      LineStep(Print(0, c) + rest, r.val, r.rest, c, rest);
    }
  }

  // ---- Printing, as text

  function TokString(t: Tok<string>): string {
    match t
    case Word(w) => w
    case Bar => "|"
    case Open => "("
    case Close => ")"
    case Semi => ";"
    case Amp => "&"
    case Less => "<"
    case Great => ">"
    case Append => ">>"
  }

  /** Tokens with a space behind each. */
  function Render(ts: seq<Tok<string>>): string {
    if ts == [] then "" else TokString(ts[0]) + " " + Render(ts[1..])
  }

  predicate GoodWord(w: string) {
    w != "" && forall i :: 0 <= i < |w| ==> IsWordChar(w[i])
  }

  predicate GoodTok(t: Tok<string>) { t.Word? ==> GoodWord(t.w) }

  /** What ends here is the word. */
  lemma {:induction false} WordEndIs(line: string, p: nat, e: nat)
    requires p <= e < |line| && !IsWordChar(line[e]) && forall i :: p <= i < e ==> IsWordChar(line[i])
    ensures WordEnd(line, p) == e
  {
  }

  lemma {:induction false} TokenRendered(line: string, p: nat, t: Tok<string>, tail: string) returns (a: Tok<Span>, e: nat)
    requires IsLine(line) && p <= |line| && line[p..] == TokString(t) + " " + tail && GoodTok(t)
    ensures p < e < |line| && !IsSpace(line[p]) && line[e] == ' ' && line[e + 1..] == tail
    ensures TokenAt(line, p) == (a, e) && TokText(line, a) == t
  {
    var x := TokString(t);
    e := p + |x|;
    assert |line[p..]| == |x| + 1 + |tail|;
    assert forall i :: 0 <= i < |x| ==> line[p + i] == line[p..][i] == x[i];
    assert line[e] == line[p..][|x|] == ' ';
    assert line[e + 1..] == line[p..][|x| + 1..] == tail;
    if t.Word? {
      assert forall i :: p <= i < e ==> line[i] == x[i - p];
      WordEndIs(line, p, e);
      assert line[p..e] == x;
    }
    a := TokenAt(line, p).0;
  }

  lemma {:induction false} LexSpace(line: string, p: nat)
    requires IsLine(line) && p < |line| && IsSpace(line[p])
    ensures Lex(line, p) == Lex(line, p + 1)
  {
  }

  lemma {:induction false} LexStep(line: string, p: nat)
    requires IsLine(line) && p < |line| && !IsSpace(line[p])
    ensures Lex(line, p) == [TokenAt(line, p).0] + Lex(line, TokenAt(line, p).1)
  {
  }

  /** From `p` on the line has the token `a`, and behind that the tokens from `e` on. (Folded: it holds of every `fold`.) */
  ghost predicate LexesTo(line: string, p: nat, a: Tok<Span>, e: nat) {
    forall fold: nat :: LexesToBody(fold, line, p, a, e)
  }

  ghost predicate LexesToBody(fold: nat, line: string, p: nat, a: Tok<Span>, e: nat) {
    IsLine(line) && p <= |line| && e <= |line| && Lex(line, p) == [a] + Lex(line, e)
  }

  lemma {:induction false} LexAfter(line: string, p: nat, a: Tok<Span>, e: nat)
    requires IsLine(line) && p < |line| && !IsSpace(line[p]) && TokenAt(line, p) == (a, e) && e < |line| && IsSpace(line[e])
    ensures LexesTo(line, p, a, e + 1)
  {
    LexStep(line, p);
    LexSpace(line, e);
  }

  lemma {:induction false} TextFirst(line: string, p: nat, a: Tok<Span>, e: nat, ts: seq<Tok<string>>)
    requires IsLine(line) && p <= |line| && e <= |line| && LexesTo(line, p, a, e)
    requires ts != [] && TokText(line, a) == ts[0] && ToksText(line, Lex(line, e)) == ts[1..]
    ensures ToksText(line, Lex(line, p)) == ts
  {
    assert LexesToBody(0, line, p, a, e);
  }

  lemma {:induction false} RenderedStep(line: string, p: nat, t: Tok<string>, tail: string) returns (a: Tok<Span>, e: nat)
    requires IsLine(line) && p <= |line| && line[p..] == TokString(t) + " " + tail && GoodTok(t)
    ensures p < e <= |line| && line[e..] == tail && LexesTo(line, p, a, e) && TokText(line, a) == t
  {
    a, e := TokenRendered(line, p, t, tail);
    LexAfter(line, p, a, e);
    e := e + 1;
  }

  /** Lexing what was rendered gives the tokens. */
  lemma {:induction false} LexRendered(line: string, p: nat, ts: seq<Tok<string>>)
    requires IsLine(line) && p <= |line| && line[p..] == Render(ts) && forall i :: 0 <= i < |ts| ==> GoodTok(ts[i])
    ensures ToksText(line, Lex(line, p)) == ts
    decreases |ts|
  {
    if ts == [] {
      assert p == |line|;
    } else {
      assert GoodTok(ts[0]);
      var a, e := RenderedStep(line, p, ts[0], Render(ts[1..]));
      LexRendered(line, e, ts[1..]);
      TextFirst(line, p, a, e, ts);
    }
  }

  // ---- The whole round trip

  predicate GoodWords(c: Cmd<string>) {
    match c
    case List(l, r) => GoodWords(l) && GoodWords(r)
    case Back(d) => GoodWords(d)
    case Pipe(l, r) => GoodWords(l) && GoodWords(r)
    case Redir(d, file, _) => GoodWords(d) && GoodWord(file)
    case Exec(args) => forall i :: 0 <= i < |args| ==> GoodWord(args[i])
  }

  lemma {:induction false} PrintGood(lvl: nat, c: Cmd<string>)
    requires lvl <= 3 && GoodWords(c)
    ensures forall i :: 0 <= i < |Print(lvl, c)| ==> GoodTok(Print(lvl, c)[i])
    decreases c, (Level(c) + 4 - lvl) % 4
  {
    if lvl != Level(c) {
      PrintGood(if lvl < 3 then lvl + 1 else 0, c);
    } else {
      match c
      case List(l, r) => PrintGood(1, l); PrintGood(0, r);
      case Back(d) => PrintGood(1, d);
      case Pipe(l, r) => PrintGood(3, l); PrintGood(2, r);
      case Redir(d, file, out) => PrintGood(3, d);
      case Exec(args) =>
    }
  }

  lemma {:induction false} RenderIsLine(ts: seq<Tok<string>>)
    requires forall i :: 0 <= i < |ts| ==> GoodTok(ts[i])
    ensures IsLine(Render(ts))
  {
    if ts != [] {
      RenderIsLine(ts[1..]);
      assert GoodTok(ts[0]);
      assert IsLine(TokString(ts[0]));
    }
  }

  /** The canonical text of a command. */
  function PrintCmd(c: Cmd<string>): string { Render(Print(0, c)) }

  /** Parsing the canonical text of any command gives that command and leaves nothing over. */
  lemma {:induction false} RoundTrip(c: Cmd<string>)
    requires Short(c) && GoodWords(c)
    ensures IsLine(PrintCmd(c))
    ensures
      var line := PrintCmd(c);
      var r := ParseLine(Lex(line, 0));
      r.Ok? && r.rest == [] && CmdText(line, r.val) == c
  {
    var line := PrintCmd(c);
    PrintGood(0, c);
    RenderIsLine(Print(0, c));
    assert line[0..] == line;
    LexRendered(line, 0, Print(0, c));
    LinePrinted(c, []);
    assert Print(0, c) + [] == Print(0, c);
    LineOfText(line, Lex(line, 0));
  }
}
