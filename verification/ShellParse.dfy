/** The parser of sh.c: functions that advance a cursor over the line, and the pass that terminates the words in place. */
module ShellParse {
  import opened Base
  import opened Shell
  import opened ShellPrint

  // ---- The parser's range

  /** A whole word of the line. */
  predicate IsToken(line: string, w: Span) {
    && w.q < w.eq <= |line| && (w.eq < |line| ==> !IsWordChar(line[w.eq]))
    && forall i :: w.q <= i < w.eq ==> IsWordChar(line[i])
  }

  predicate ToksOk(line: string, ts: seq<Tok<Span>>) {
    forall i :: 0 <= i < |ts| && ts[i].Word? ==> IsToken(line, ts[i].w)
  }

  predicate RedirsOk(line: string, rs: seq<Redirection<Span>>) {
    forall i :: 0 <= i < |rs| ==> IsToken(line, rs[i].file)
  }

  predicate ArgsOk(line: string, args: seq<Span>) {
    |args| < MAXARGS && forall i :: 0 <= i < |args| ==> IsToken(line, args[i])
  }

  /** All arguments and file names are whole words, and no command has too many of them. */
  predicate CmdOk(line: string, c: Cmd<Span>) {
    match c
    case List(l, r) => CmdOk(line, l) && CmdOk(line, r)
    case Back(d) => CmdOk(line, d)
    case Pipe(l, r) => CmdOk(line, l) && CmdOk(line, r)
    case Redir(d, file, _) => CmdOk(line, d) && IsToken(line, file)
    case Exec(args) => ArgsOk(line, args)
  }

  predicate ParseOk(line: string, r: Parse<Cmd<Span>, Span>) {
    r.Ok? ==> CmdOk(line, r.val) && ToksOk(line, r.rest)
  }

  lemma {:induction false} LexOk(line: string, p: nat)
    requires IsLine(line) && p <= |line|
    ensures ToksOk(line, Lex(line, p))
    decreases |line| - p
  {
    var q := Skip(line, p);
    if q < |line| {
      LexOk(line, TokenAt(line, q).1);
      if !IsSymbol(line[q]) {
        assert IsWordChar(line[q]);
        assert WordEnd(line, q) > q;
      }
    }
  }

  lemma {:induction false} WrapOk(line: string, c: Cmd<Span>, rs: seq<Redirection<Span>>)
    requires CmdOk(line, c) && RedirsOk(line, rs)
    ensures CmdOk(line, Wrap(c, rs))
  {
    if rs != [] {
      WrapOk(line, c, rs[..|rs| - 1]);
    }
  }

  lemma {:induction false} RedirsParsed(line: string, ts: seq<Tok<Span>>)
    requires ToksOk(line, ts)
    ensures Redirs(ts).Ok? ==> RedirsOk(line, Redirs(ts).val) && ToksOk(line, Redirs(ts).rest)
  {
    if BeginsRedir(ts) && |ts| >= 2 && ts[1].Word? {
      RedirsParsed(line, ts[2..]);
    }
  }

  lemma {:induction false} ArgsParsed(line: string, args: seq<Span>, rs: seq<Redirection<Span>>, ts: seq<Tok<Span>>)
    requires ArgsOk(line, args) && RedirsOk(line, rs) && ToksOk(line, ts)
    ensures ParseOk(line, Args(args, rs, ts))
    decreases |ts|
  {
    if ts == [] || BeginsStop(ts) {
      WrapOk(line, Exec(args), rs);
    } else if ts[0].Word? && |args| + 1 < MAXARGS {
      RedirsParsed(line, ts[1..]);
      if Redirs(ts[1..]).Ok? {
        ArgsParsed(line, args + [ts[0].w], rs + Redirs(ts[1..]).val, Redirs(ts[1..]).rest);
      }
    }
  }

  lemma {:induction false} ExecParsed(line: string, ts: seq<Tok<Span>>)
    requires ToksOk(line, ts)
    ensures ParseOk(line, ParseExec(ts))
    decreases |ts|, 0
  {
    if Begins(ts, Open) {
      LineParsed(line, ts[1..]);
      if ParseLine(ts[1..]).Ok? {
        var c, rest := ParseLine(ts[1..]).val, ParseLine(ts[1..]).rest;
        if Begins(rest, Close) {
          RedirsParsed(line, rest[1..]);
          if Redirs(rest[1..]).Ok? {
            WrapOk(line, c, Redirs(rest[1..]).val);
          }
        }
      }
    } else {
      RedirsParsed(line, ts);
      if Redirs(ts).Ok? {
        ArgsParsed(line, [], Redirs(ts).val, Redirs(ts).rest);
      }
    }
  }

  lemma {:induction false} PipeParsed(line: string, ts: seq<Tok<Span>>)
    requires ToksOk(line, ts)
    ensures ParseOk(line, ParsePipe(ts))
    decreases |ts|, 1
  {
    ExecParsed(line, ts);
    if ParseExec(ts).Ok? && Begins(ParseExec(ts).rest, Bar) {
      PipeParsed(line, ParseExec(ts).rest[1..]);
    }
  }

  lemma {:induction false} BacksParsed(line: string, c: Cmd<Span>, ts: seq<Tok<Span>>)
    requires CmdOk(line, c) && ToksOk(line, ts)
    ensures ParseOk(line, Backs(c, ts))
    decreases |ts|
  {
    if Begins(ts, Amp) {
      BacksParsed(line, Back(c), ts[1..]);
    }
  }

  /** Every command that the parser returns has whole words and not too many. */
  lemma {:induction false} LineParsed(line: string, ts: seq<Tok<Span>>)
    requires ToksOk(line, ts)
    ensures ParseOk(line, ParseLine(ts))
    decreases |ts|, 2
  {
    PipeParsed(line, ts);
    if ParsePipe(ts).Ok? {
      BacksParsed(line, ParsePipe(ts).val, ParsePipe(ts).rest);
      var rest := Backs(ParsePipe(ts).val, ParsePipe(ts).rest).rest;
      if Begins(rest, Semi) {
        LineParsed(line, rest[1..]);
      }
    }
  }

  /** Read as text, such a command is one that the round trip is about. */
  lemma {:induction false} OkIsGood(line: string, c: Cmd<Span>)
    requires CmdOk(line, c)
    ensures Short(CmdText(line, c)) && GoodWords(CmdText(line, c))
  {
    match c
    case List(l, r) => OkIsGood(line, l); OkIsGood(line, r);
    case Back(d) => OkIsGood(line, d);
    case Pipe(l, r) => OkIsGood(line, l); OkIsGood(line, r);
    case Redir(d, file, _) => OkIsGood(line, d);
    case Exec(args) =>
  }

  /** Printing what was parsed from any line and parsing that gives the same command. */
  lemma {:induction false} Reparse(line: string)
    requires IsLine(line) && ParseLine(Lex(line, 0)).Ok?
    ensures
      var c := CmdText(line, ParseLine(Lex(line, 0)).val);
      IsLine(PrintCmd(c)) &&
      var r := ParseLine(Lex(PrintCmd(c), 0));
      r.Ok? && r.rest == [] && CmdText(PrintCmd(c), r.val) == c
  {
    LexOk(line, 0);
    LineParsed(line, Lex(line, 0));
    OkIsGood(line, ParseLine(Lex(line, 0)).val);
    RoundTrip(CmdText(line, ParseLine(Lex(line, 0)).val));
  }

  // ---- The parser

  /** The character by which peek() knows a token. */
  function First(t: Tok<Span>): char {
    match t
    case Bar => '|'
    case Open => '('
    case Close => ')'
    case Semi => ';'
    case Amp => '&'
    case Less => '<'
    case Great => '>'
    case Append => '>'
    case Word(_) => 'a'
  }

  /** White space does not count. */
  lemma {:induction false} LexSkip(line: string, p: nat, q: nat)
    requires IsLine(line) && p <= q <= |line| && forall i :: p <= i < q ==> IsSpace(line[i])
    ensures Lex(line, p) == Lex(line, q)
    decreases q - p
  {
  }

  /** Redirections that were read before those that are still to be read. */
  ghost function Before(rs: seq<Redirection<Span>>, r: Parse<seq<Redirection<Span>>, Span>): Parse<seq<Redirection<Span>>, Span> {
    match r
    case Syntax => Syntax
    case Ok(rs', rest) => Ok(rs + rs', rest)
  }

  lemma {:induction false} BeforeNone(ts: seq<Tok<Span>>)
    ensures Before([], Redirs(ts)) == Redirs(ts)
  {
    if Redirs(ts).Ok? {
      assert [] + Redirs(ts).val == Redirs(ts).val;
    }
  }

  lemma {:induction false} BeforeOne(rs: seq<Redirection<Span>>, ts: seq<Tok<Span>>)
    requires BeginsRedir(ts) && |ts| >= 2 && ts[1].Word?
    ensures Before(rs, Redirs(ts)) == Before(rs + [Redirection(ts[1].w, ts[0] != Less)], Redirs(ts[2..]))
  {
    var x := Redirection(ts[1].w, ts[0] != Less);
    if Redirs(ts[2..]).Ok? {
      assert rs + ([x] + Redirs(ts[2..]).val) == rs + [x] + Redirs(ts[2..]).val;
    }
  }

  class Parser {
    const line: string
    var pos: nat

    constructor (line: string)
      requires IsLine(line)
      ensures this.line == line && pos == 0
    {
      this.line, this.pos := line, 0;
    }

    ghost predicate Valid()
      reads this
    {
      IsLine(line) && pos <= |line|
    }

    /** The tokens that are still to be read. */
    ghost function Left(): seq<Tok<Span>>
      requires Valid()
      reads this
    {
      Lex(line, pos)
    }

    method SkipSpace()
      requires Valid()
      modifies this
      ensures Valid() && Left() == old(Left()) && (pos < |line| ==> !IsSpace(line[pos]))
    {
      while pos < |line| && IsSpace(line[pos])
        invariant Valid() && old(pos) <= pos && forall i :: old(pos) <= i < pos ==> IsSpace(line[i])
      {
        pos := pos + 1;
      }
      LexSkip(line, old(pos), pos);
    }

    /** gettoken(): the next token, or none at the end of the line. */
    method Gettoken() returns (t: Option<Tok<Span>>)
      requires Valid()
      modifies this
      ensures Valid()
      ensures if old(Left()) == [] then t == None && Left() == [] else t == Some(old(Left())[0]) && Left() == old(Left())[1..]
    {
      SkipSpace();
      if pos == |line| {
        return None;
      }
      var s := pos;
      assert Skip(line, s) == s;
      if line[s] == '>' {
        if s + 1 < |line| && line[s + 1] == '>' {
          t := Some(Append);
          pos := s + 2;
        } else {
          t := Some(Great);
          pos := s + 1;
        }
      } else if IsSymbol(line[s]) {
        t := Some(Symbol(line[s]));
        pos := s + 1;
      } else {
        while pos < |line| && !IsSpace(line[pos]) && !IsSymbol(line[pos])
          invariant Valid() && s <= pos && WordEnd(line, s) == WordEnd(line, pos)
        {
          pos := pos + 1;
        }
        t := Some(Word(Span(s, pos)));
      }
      assert (t.value, pos) == TokenAt(line, s);
      SkipSpace();
    }

    /** peek(): whether the next token begins with one of these symbols. */
    method Peek(toks: string) returns (b: bool)
      requires Valid() && forall i :: 0 <= i < |toks| ==> IsSymbol(toks[i])
      modifies this
      ensures Valid() && Left() == old(Left()) && (b <==> Left() != [] && First(Left()[0]) in toks)
      ensures pos == |line| <==> Left() == []
    {
      SkipSpace();
      if pos == |line| {
        return false;
      }
      assert Skip(line, pos) == pos;
      b := line[pos] in toks;
    }

    /** One round of parseredirs(). */
    method ParseRedir() returns (r: Option<Redirection<Span>>)
      requires Valid() && BeginsRedir(Left())
      modifies this
      ensures Valid()
      ensures r == None ==> Redirs(old(Left())) == Syntax
      ensures r.Some? ==>
        && |old(Left())| >= 2 && old(Left())[1].Word? && r.value == Redirection(old(Left())[1].w, old(Left())[0] != Less)
        && Left() == old(Left())[2..]
    {
      ghost var ts := Left();
      var tok := Gettoken();
      var file := Gettoken();
      if file == None || !file.value.Word? {
        return None;
      }
      assert ts[1..][1..] == ts[2..];
      r := Some(Redirection(file.value.w, tok != Some(Less)));
    }

    /** parseredirs(): the redirections that come next, or a panic. */
    method ParseRedirs() returns (r: Option<seq<Redirection<Span>>>)
      requires Valid()
      modifies this
      ensures Valid()
      ensures match Redirs(old(Left())) case Syntax => r == None case Ok(rs, rest) => r == Some(rs) && Left() == rest
    {
      var rs: seq<Redirection<Span>> := [];
      BeforeNone(Left());
      Firsts(Left());
      var more := Peek("<>");
      while more
        invariant Valid() && (more <==> BeginsRedir(Left())) && Redirs(old(Left())) == Before(rs, Redirs(Left()))
        decreases |Left()|
      {
        ghost var ts := Left();
        var x := ParseRedir();
        if x == None {
          return None;
        }
        BeforeOne(rs, ts);
        rs := rs + [x.value];
        Firsts(Left());
        more := Peek("<>");
      }
      assert rs + [] == rs;
      r := Some(rs);
    }

    // The parsers below return the command, or none for a panic.

    /** parseexec() and parseblock(). */
    method ParseExecCmd() returns (r: Option<Cmd<Span>>)
      requires Valid()
      modifies this
      ensures Valid() && Agrees(r, Left(), ParseExec(old(Left())))
      decreases |Left()|, 1
    {
      ghost var ts := Left();
      Firsts(ts);
      var open := Peek("(");
      if open {
        r := ParseBlock();
      } else {
        var rs := ParseRedirs();
        if rs == None {
          return None;
        }
        r := ParseArgs(rs.value);
      }
    }

    /** parseblock(). */
    method ParseBlock() returns (r: Option<Cmd<Span>>)
      requires Valid() && Begins(Left(), Open)
      modifies this
      ensures Valid() && Agrees(r, Left(), ParseExec(old(Left())))
      decreases |Left()|, 0
    {
      var t := Gettoken();
      r := ParseLineCmd();
      if r == None {
        return;
      }
      var c := r.value;
      Firsts(Left());
      var close := Peek(")");
      if !close {
        return None;
      }
      t := Gettoken();
      var rs := ParseRedirs();
      if rs == None {
        return None;
      }
      c := WrapCmd(c, rs.value);
      r := Some(c);
    }

    /** The loop of parseexec(), after the first redirections. */
    method ParseArgs(rs0: seq<Redirection<Span>>) returns (r: Option<Cmd<Span>>)
      requires Valid() && !BeginsRedir(Left())
      modifies this
      ensures Valid() && Agrees(r, Left(), Args([], rs0, old(Left())))
    {
      var args, rs := [], rs0;
      Firsts(Left());
      var stop := Peek("|)&;");
      while !stop
        invariant Valid() && (stop <==> BeginsStop(Left())) && Args([], rs0, old(Left())) == Args(args, rs, Left())
        decreases |Left()|, !stop
      {
        var t := Gettoken();
        if t == None {
          break;
        }
        if !t.value.Word? {
          return None;
        }
        args := args + [t.value.w];
        if |args| >= MAXARGS {
          return None;
        }
        var more := ParseRedirs();
        if more == None {
          return None;
        }
        rs := rs + more.value;
        Firsts(Left());
        stop := Peek("|)&;");
      }
      var c := WrapCmd(Exec(args), rs);
      r := Some(c);
    }

    /** parsepipe(). */
    method ParsePipeCmd() returns (r: Option<Cmd<Span>>)
      requires Valid()
      modifies this
      ensures Valid() && Agrees(r, Left(), ParsePipe(old(Left())))
      decreases |Left()|, 2
    {
      r := ParseExecCmd();
      if r == None {
        return;
      }
      var c := r.value;
      Firsts(Left());
      var bar := Peek("|");
      if bar {
        var t := Gettoken();
        r := ParsePipeCmd();
        if r != None {
          r := Some(Pipe(c, r.value));
        }
      }
    }

    /** parseline(). */
    method ParseLineCmd() returns (r: Option<Cmd<Span>>)
      requires Valid()
      modifies this
      ensures Valid() && Agrees(r, Left(), ParseLine(old(Left())))
      decreases |Left()|, 3
    {
      r := ParsePipeCmd();
      if r == None {
        return;
      }
      var c := r.value;
      ghost var c0, ts0 := c, Left();
      Firsts(Left());
      var amp := Peek("&");
      while amp
        invariant Valid() && (amp <==> Begins(Left(), Amp)) && Backs(c0, ts0) == Backs(c, Left()) && |Left()| <= |ts0|
        decreases |Left()|
      {
        var t := Gettoken();
        c := Back(c);
        Firsts(Left());
        amp := Peek("&");
      }
      Firsts(Left());
      r := Some(c);
      var semi := Peek(";");
      if semi {
        var t := Gettoken();
        r := ParseLineCmd();
        if r != None {
          r := Some(List(c, r.value));
        }
      }
    }
  }

  /** The outcome of a parser is that of the grammar: no command on a syntax error, else the command and the tokens behind it. */
  ghost predicate Agrees(r: Option<Cmd<Span>>, left: seq<Tok<Span>>, p: Parse<Cmd<Span>, Span>) {
    match p
    case Syntax => r == None
    case Ok(c, rest) => r == Some(c) && left == rest
  }

  /** What peek() sees. */
  lemma {:induction false} Firsts(ts: seq<Tok<Span>>)
    ensures ts != [] && First(ts[0]) in "<>" <==> BeginsRedir(ts)
    ensures ts != [] && First(ts[0]) in "|)&;" <==> BeginsStop(ts)
    ensures ts != [] && First(ts[0]) in "(" <==> Begins(ts, Open)
    ensures ts != [] && First(ts[0]) in ")" <==> Begins(ts, Close)
    ensures ts != [] && First(ts[0]) in "|" <==> Begins(ts, Bar)
    ensures ts != [] && First(ts[0]) in "&" <==> Begins(ts, Amp)
    ensures ts != [] && First(ts[0]) in ";" <==> Begins(ts, Semi)
  {
  }

  /** redircmd() for each redirection in turn. */
  method WrapCmd(c: Cmd<Span>, rs: seq<Redirection<Span>>) returns (r: Cmd<Span>)
    ensures r == Wrap(c, rs)
  {
    r := c;
    var i := 0;
    while i < |rs|
      invariant 0 <= i <= |rs| && r == Wrap(c, rs[..i])
    {
      r := Redir(r, rs[i].file, rs[i].out);
      assert rs[..i + 1][..i] == rs[..i];
      i := i + 1;
    }
    assert rs[..i] == rs;
  }

  // ---- nulterminate

  /** The words of a command. */
  ghost function Spans(c: Cmd<Span>): set<Span> {
    match c
    case List(l, r) => Spans(l) + Spans(r)
    case Back(d) => Spans(d)
    case Pipe(l, r) => Spans(l) + Spans(r)
    case Redir(d, file, _) => Spans(d) + {file}
    case Exec(args) => set w | w in args
  }

  /** Position `i` is just behind a word. */
  ghost predicate IsEnd(ws: set<Span>, i: nat) {
    exists w :: w in ws && w.eq == i
  }

  /** `after` is `before` with a NUL behind each of these words. */
  ghost predicate Ended(before: seq<char>, after: seq<char>, ws: set<Span>) {
    |after| == |before| && forall i :: 0 <= i < |after| ==> after[i] == if IsEnd(ws, i) then '\0' else before[i]
  }

  lemma {:induction false} EndedTwice(a: seq<char>, b: seq<char>, c: seq<char>, ws: set<Span>, vs: set<Span>)
    requires Ended(a, b, ws) && Ended(b, c, vs)
    ensures Ended(a, c, ws + vs)
  {
  }

  /** nulterminate(): a NUL goes behind every word, and nothing else changes. */
  method Nulterminate(buf: array<char>, c: Cmd<Span>)
    requires forall w :: w in Spans(c) ==> w.eq < buf.Length
    modifies buf
    ensures Ended(old(buf[..]), buf[..], Spans(c))
    decreases c
  {
    match c
    case Exec(args) => NulArgs(buf, args);
    case Redir(d, file, _) =>
      Nulterminate(buf, d);
      ghost var mid := buf[..];
      buf[file.eq] := '\0';
      assert IsEnd({file}, file.eq);
      EndedTwice(old(buf[..]), mid, buf[..], Spans(d), {file});
    case Pipe(l, r) =>
      Nulterminate(buf, l);
      ghost var mid := buf[..];
      Nulterminate(buf, r);
      EndedTwice(old(buf[..]), mid, buf[..], Spans(l), Spans(r));
    case List(l, r) =>
      Nulterminate(buf, l);
      ghost var mid := buf[..];
      Nulterminate(buf, r);
      EndedTwice(old(buf[..]), mid, buf[..], Spans(l), Spans(r));
    case Back(d) => Nulterminate(buf, d);
  }

  /** The loop over the arguments of a command. */
  method NulArgs(buf: array<char>, args: seq<Span>)
    requires forall i :: 0 <= i < |args| ==> args[i].eq < buf.Length
    modifies buf
    ensures Ended(old(buf[..]), buf[..], set w | w in args)
  {
    var i := 0;
    ghost var done: set<Span> := {};
    while i < |args|
      invariant 0 <= i <= |args| && Ended(old(buf[..]), buf[..], done) && done == set w | w in args[..i]
    {
      ghost var mid := buf[..];
      buf[args[i].eq] := '\0';
      assert IsEnd({args[i]}, args[i].eq);
      EndedTwice(old(buf[..]), mid, buf[..], done, {args[i]});
      assert args[..i + 1] == args[..i] + [args[i]];
      done := done + {args[i]};
      i := i + 1;
    }
    assert args[..i] == args;
  }

  /** The string that begins at `q`. */
  function CString(s: seq<char>, q: nat): string
    decreases |s| - q
  {
    if q >= |s| || s[q] == '\0' then "" else [s[q]] + CString(s, q + 1)
  }

  lemma {:induction false} CStringIs(s: seq<char>, q: nat, e: nat)
    requires q <= e < |s| && s[e] == '\0' && forall i :: q <= i < e ==> s[i] != '\0'
    ensures CString(s, q) == s[q..e]
    decreases e - q
  {
    if q < e {
      CStringIs(s, q + 1, e);
    }
  }

  lemma {:induction false} SpansAreTokens(line: string, c: Cmd<Span>)
    requires CmdOk(line, c)
    ensures forall w :: w in Spans(c) ==> IsToken(line, w)
  {
    match c
    case List(l, r) => SpansAreTokens(line, l); SpansAreTokens(line, r);
    case Back(d) => SpansAreTokens(line, d);
    case Pipe(l, r) => SpansAreTokens(line, l); SpansAreTokens(line, r);
    case Redir(d, file, _) => SpansAreTokens(line, d);
    case Exec(args) =>
  }

  /** After nulterminate() each word reads as itself: no NUL is within another word. */
  lemma {:induction false} WordsReadBack(line: string, buf: seq<char>, ws: set<Span>, w: Span)
    requires (forall v :: v in ws ==> IsToken(line, v)) && w in ws && Ended(line + ['\0'], buf, ws)
    ensures CString(buf, w.q) == Text(line, w)
  {
    forall i | w.q <= i < w.eq ensures buf[i] == line[i] && line[i] != '\0' {
      assert IsWordChar(line[i]);
      assert !IsEnd(ws, i);
    }
    assert IsEnd(ws, w.eq);
    CStringIs(buf, w.q, w.eq);
    assert buf[w.q..w.eq] == line[w.q..w.eq];
  }

  /** parsecmd(): the command that the grammar gives for the whole line, with every word terminated in the buffer; or a panic. */
  method Parsecmd(line: string, buf: array<char>) returns (r: Option<Cmd<Span>>)
    requires IsLine(line) && buf[..] == line + ['\0']
    modifies buf
    ensures r.Some? <==> ParseLine(Lex(line, 0)).Ok? && ParseLine(Lex(line, 0)).rest == []
    ensures r.Some? ==> r.value == ParseLine(Lex(line, 0)).val && forall w :: w in Spans(r.value) ==> CString(buf[..], w.q) == Text(line, w)
  {
    var p := new Parser(line);
    r := p.ParseLineCmd();
    if r == None {
      return;
    }
    var none := p.Peek("");
    if p.pos != |line| {
      return None;
    }
    LexOk(line, 0);
    LineParsed(line, Lex(line, 0));
    SpansAreTokens(line, r.value);
    Nulterminate(buf, r.value);
    forall w | w in Spans(r.value) ensures CString(buf[..], w.q) == Text(line, w) {
      WordsReadBack(line, buf[..], Spans(r.value), w);
    }
  }
}
