/** The command language of sh.c as values: tokens, the recursive-descent grammar over them, and a canonical printing. */
module Shell {

  const MAXARGS := 10

  // ---- Characters and tokens

  predicate IsSpace(c: char) { c == ' ' || c == '\t' || c == '\r' || c == '\n' || c == '\U{0b}' }

  predicate IsSymbol(c: char) { c == '<' || c == '|' || c == '>' || c == '&' || c == ';' || c == '(' || c == ')' }

  predicate IsWordChar(c: char) { c != '\0' && !IsSpace(c) && !IsSymbol(c) }

  /** A token; `Append` is ">>". */
  datatype Tok<W> = Bar | Open | Close | Semi | Amp | Less | Great | Append | Word(w: W)

  /** A stretch of the input line, from `q` up to `eq`. */
  datatype Span = Span(q: nat, eq: nat)

  function Symbol(c: char): Tok<Span>
    requires IsSymbol(c)
  {
    if c == '|' then Bar else if c == '(' then Open else if c == ')' then Close else if c == ';' then Semi
    else if c == '&' then Amp else if c == '<' then Less else Great
  }

  // ---- The lexer

  /** End of the white space that begins at `p`. */
  function Skip(line: string, p: nat): (e: nat)
    requires p <= |line|
    ensures p <= e <= |line| && (e < |line| ==> !IsSpace(line[e])) && forall i :: p <= i < e ==> IsSpace(line[i])
    decreases |line| - p
  {
    if p < |line| && IsSpace(line[p]) then Skip(line, p + 1) else p
  }

  /** End of the word that begins at `p`. */
  function WordEnd(line: string, p: nat): (e: nat)
    requires p <= |line|
    ensures p <= e <= |line| && (e < |line| ==> !IsWordChar(line[e])) && forall i :: p <= i < e ==> IsWordChar(line[i])
    decreases |line| - p
  {
    if p < |line| && IsWordChar(line[p]) then WordEnd(line, p + 1) else p
  }

  /** A line as the input of the shell: no NUL within. */
  predicate IsLine(line: string) { forall i :: 0 <= i < |line| ==> line[i] != '\0' }

  /** The token that begins at `p`, which is no white space, and its end. */
  function TokenAt(line: string, p: nat): (r: (Tok<Span>, nat))
    requires IsLine(line) && p < |line| && !IsSpace(line[p])
    ensures p < r.1 <= |line|
  {
    if line[p] == '>' then (if p + 1 < |line| && line[p + 1] == '>' then (Append, p + 2) else (Great, p + 1))
    else if IsSymbol(line[p]) then (Symbol(line[p]), p + 1)
    else (Word(Span(p, WordEnd(line, p))), WordEnd(line, p))
  }

  /** The tokens from `p` on. */
  function Lex(line: string, p: nat): seq<Tok<Span>>
    requires IsLine(line) && p <= |line|
    decreases |line| - p
  {
    var q := Skip(line, p);
    if q == |line| then [] else [TokenAt(line, q).0] + Lex(line, TokenAt(line, q).1)
  }

  // ---- Commands

  /** A command; `out` tells redirection of output from that of input. */
  datatype Cmd<W> = Exec(args: seq<W>) | Redir(cmd: Cmd<W>, file: W, out: bool) | Pipe(left: Cmd<W>, right: Cmd<W>)
                  | List(left: Cmd<W>, right: Cmd<W>) | Back(cmd: Cmd<W>)

  datatype Redirection<W> = Redirection(file: W, out: bool)

  datatype Parse<T, W> = Ok(val: T, rest: seq<Tok<W>>) | Syntax

  /** Redirections in the order they were read; the last is outermost. */
  function Wrap<W>(c: Cmd<W>, rs: seq<Redirection<W>>): Cmd<W> {
    if rs == [] then c else Redir(Wrap(c, rs[..|rs| - 1]), rs[|rs| - 1].file, rs[|rs| - 1].out)
  }

  // ---- The grammar

  predicate Begins<W(==)>(ts: seq<Tok<W>>, t: Tok<W>) { |ts| > 0 && ts[0] == t }

  predicate BeginsRedir<W(==)>(ts: seq<Tok<W>>) { |ts| > 0 && (ts[0] == Less || ts[0] == Great || ts[0] == Append) }

  predicate BeginsStop<W(==)>(ts: seq<Tok<W>>) { |ts| > 0 && (ts[0] == Bar || ts[0] == Close || ts[0] == Amp || ts[0] == Semi) }

  /** parseredirs(). */
  function Redirs<W(==)>(ts: seq<Tok<W>>): (r: Parse<seq<Redirection<W>>, W>)
    ensures r.Ok? ==> |r.rest| <= |ts| && !BeginsRedir(r.rest)
  {
    if !BeginsRedir(ts) then Ok([], ts)
    else if |ts| < 2 || !ts[1].Word? then Syntax
    else
      match Redirs(ts[2..])
      case Syntax => Syntax
      case Ok(rs, rest) => Ok([Redirection(ts[1].w, ts[0] != Less)] + rs, rest)
  }

  /** The loop of parseexec(): `args` and `rs` are what has been read. */
  function Args<W(==)>(args: seq<W>, rs: seq<Redirection<W>>, ts: seq<Tok<W>>): (r: Parse<Cmd<W>, W>)
    ensures r.Ok? ==> |r.rest| <= |ts|
    decreases |ts|
  {
    if ts == [] || BeginsStop(ts) then Ok(Wrap(Exec(args), rs), ts)
    else if !ts[0].Word? || |args| + 1 >= MAXARGS then Syntax
    else
      match Redirs(ts[1..])
      case Syntax => Syntax
      case Ok(rs', rest) => Args(args + [ts[0].w], rs + rs', rest)
  }

  /** parseexec() and parseblock(). */
  function ParseExec<W(==)>(ts: seq<Tok<W>>): (r: Parse<Cmd<W>, W>)
    ensures r.Ok? ==> |r.rest| <= |ts|
    decreases |ts|, 0
  {
    if Begins(ts, Open) then
      match ParseLine(ts[1..])
      case Syntax => Syntax
      case Ok(c, rest) =>
        if !Begins(rest, Close) then Syntax
        else
          match Redirs(rest[1..])
          case Syntax => Syntax
          case Ok(rs, rest') => Ok(Wrap(c, rs), rest')
    else
      match Redirs(ts)
      case Syntax => Syntax
      case Ok(rs, rest) => Args([], rs, rest)
  }

  /** parsepipe(). */
  function ParsePipe<W(==)>(ts: seq<Tok<W>>): (r: Parse<Cmd<W>, W>)
    ensures r.Ok? ==> |r.rest| <= |ts|
    decreases |ts|, 1
  {
    match ParseExec(ts)
    case Syntax => Syntax
    case Ok(c, rest) =>
      if !Begins(rest, Bar) then Ok(c, rest)
      else
        match ParsePipe(rest[1..])
        case Syntax => Syntax
        case Ok(d, rest') => Ok(Pipe(c, d), rest')
  }

  /** The loop of parseline(). */
  function Backs<W(==)>(c: Cmd<W>, ts: seq<Tok<W>>): (r: Parse<Cmd<W>, W>)
    ensures r.Ok? && |r.rest| <= |ts|
    decreases |ts|
  {
    if Begins(ts, Amp) then Backs(Back(c), ts[1..]) else Ok(c, ts)
  }

  /** parseline(). */
  function ParseLine<W(==)>(ts: seq<Tok<W>>): (r: Parse<Cmd<W>, W>)
    ensures r.Ok? ==> |r.rest| <= |ts|
    decreases |ts|, 2
  {
    match ParsePipe(ts)
    case Syntax => Syntax
    case Ok(c0, rest0) =>
      var Ok(c, rest) := Backs(c0, rest0);
      if !Begins(rest, Semi) then Ok(c, rest)
      else
        match ParseLine(rest[1..])
        case Syntax => Syntax
        case Ok(d, rest') => Ok(List(c, d), rest')
  }

  /** What parseline() does behind its loop. */
  lemma {:induction false} LineStep<W>(ts: seq<Tok<W>>, c0: Cmd<W>, rest0: seq<Tok<W>>, c: Cmd<W>, rest: seq<Tok<W>>)
    requires ParsePipe(ts) == Ok(c0, rest0) && Backs(c0, rest0) == Ok(c, rest)
    ensures !Begins(rest, Semi) ==> ParseLine(ts) == Ok(c, rest)
    ensures Begins(rest, Semi) ==>
      ParseLine(ts) == if ParseLine(rest[1..]).Ok? then Ok(List(c, ParseLine(rest[1..]).val), ParseLine(rest[1..]).rest) else Syntax
  {
  }

  // ---- Reading words off the line

  function Text(line: string, w: Span): string {
    if w.q <= w.eq <= |line| then line[w.q..w.eq] else ""
  }

  function TokText(line: string, t: Tok<Span>): Tok<string> {
    match t
    case Word(w) => Word(Text(line, w))
    case Bar => Bar
    case Open => Open
    case Close => Close
    case Semi => Semi
    case Amp => Amp
    case Less => Less
    case Great => Great
    case Append => Append
  }

  function ToksText(line: string, ts: seq<Tok<Span>>): (r: seq<Tok<string>>)
    ensures |r| == |ts|
  {
    seq(|ts|, i requires 0 <= i < |ts| => TokText(line, ts[i]))
  }

  function ArgsText(line: string, args: seq<Span>): (r: seq<string>)
    ensures |r| == |args|
  {
    seq(|args|, i requires 0 <= i < |args| => Text(line, args[i]))
  }

  function RedirsText(line: string, rs: seq<Redirection<Span>>): (r: seq<Redirection<string>>)
    ensures |r| == |rs|
  {
    seq(|rs|, i requires 0 <= i < |rs| => Redirection(Text(line, rs[i].file), rs[i].out))
  }

  function CmdText(line: string, c: Cmd<Span>): Cmd<string> {
    match c
    case Exec(args) => Exec(ArgsText(line, args))
    case Redir(d, file, out) => Redir(CmdText(line, d), Text(line, file), out)
    case Pipe(l, r) => Pipe(CmdText(line, l), CmdText(line, r))
    case List(l, r) => List(CmdText(line, l), CmdText(line, r))
    case Back(d) => Back(CmdText(line, d))
  }

  function ParseText(line: string, r: Parse<Cmd<Span>, Span>): Parse<Cmd<string>, string> {
    match r
    case Syntax => Syntax
    case Ok(c, rest) => Ok(CmdText(line, c), ToksText(line, rest))
  }

  // Parsing does not look into words: reading them before or after comes to the same.

  lemma {:induction false} ToksTail(line: string, ts: seq<Tok<Span>>, n: nat)
    requires n <= |ts|
    ensures ToksText(line, ts[n..]) == ToksText(line, ts)[n..]
  {
  }

  lemma {:induction false} WrapText(line: string, c: Cmd<Span>, rs: seq<Redirection<Span>>)
    ensures CmdText(line, Wrap(c, rs)) == Wrap(CmdText(line, c), RedirsText(line, rs))
  {
    if rs != [] {
      WrapText(line, c, rs[..|rs| - 1]);
      assert RedirsText(line, rs)[..|rs| - 1] == RedirsText(line, rs[..|rs| - 1]);
    }
  }

  lemma {:induction false} RedirsOfText(line: string, ts: seq<Tok<Span>>)
    ensures Redirs(ToksText(line, ts)) ==
      match Redirs(ts)
      case Syntax => Syntax
      case Ok(rs, rest) => Ok(RedirsText(line, rs), ToksText(line, rest))
  {
    if BeginsRedir(ts) && |ts| >= 2 && ts[1].Word? {
      RedirsOfText(line, ts[2..]);
      ToksTail(line, ts, 2);
      if Redirs(ts[2..]).Ok? {
        var rs, x := Redirs(ts[2..]).val, Redirection(ts[1].w, ts[0] != Less);
        assert RedirsText(line, [x] + rs) == [Redirection(Text(line, x.file), x.out)] + RedirsText(line, rs);
      }
    }
  }

  lemma {:induction false} LineTailText(line: string, ts: seq<Tok<Span>>, c0: Cmd<Span>, rest0: seq<Tok<Span>>, c: Cmd<Span>, rest: seq<Tok<Span>>)
    requires ParsePipe(ts) == Ok(c0, rest0) && Backs(c0, rest0) == Ok(c, rest)
    requires ParsePipe(ToksText(line, ts)) == Ok(CmdText(line, c0), ToksText(line, rest0))
    requires Backs(CmdText(line, c0), ToksText(line, rest0)) == Ok(CmdText(line, c), ToksText(line, rest))
    requires Begins(rest, Semi) ==> ParseLine(ToksText(line, rest)[1..]) == ParseText(line, ParseLine(rest[1..]))
    ensures ParseLine(ToksText(line, ts)) == ParseText(line, ParseLine(ts))
  {
    LineStep(ts, c0, rest0, c, rest);
    LineStep(ToksText(line, ts), CmdText(line, c0), ToksText(line, rest0), CmdText(line, c), ToksText(line, rest));
  }

  /** An argument is read, with the redirections behind it. */
  lemma {:induction false} ArgsNext<W>(args: seq<W>, rs: seq<Redirection<W>>, ts: seq<Tok<W>>, rs': seq<Redirection<W>>, rest: seq<Tok<W>>)
    requires |ts| > 0 && ts[0].Word? && |args| + 1 < MAXARGS && Redirs(ts[1..]) == Ok(rs', rest)
    ensures Args(args, rs, ts) == Args(args + [ts[0].w], rs + rs', rest)
  {
  }

  lemma {:induction false} MoreText(line: string, args: seq<Span>, w: Span, rs: seq<Redirection<Span>>, rs': seq<Redirection<Span>>)
    ensures ArgsText(line, args + [w]) == ArgsText(line, args) + [Text(line, w)]
    ensures RedirsText(line, rs + rs') == RedirsText(line, rs) + RedirsText(line, rs')
  {
  }

  lemma {:induction false} ArgsOfText(line: string, args: seq<Span>, rs: seq<Redirection<Span>>, ts: seq<Tok<Span>>)
    ensures Args(ArgsText(line, args), RedirsText(line, rs), ToksText(line, ts)) == ParseText(line, Args(args, rs, ts))
    decreases |ts|
  {
    if ts == [] || BeginsStop(ts) {
      WrapText(line, Exec(args), rs);
    } else if ts[0].Word? && |args| + 1 < MAXARGS {
      RedirsOfText(line, ts[1..]);
      ToksTail(line, ts, 1);
      if Redirs(ts[1..]).Ok? {
        var rs', rest := Redirs(ts[1..]).val, Redirs(ts[1..]).rest;
        MoreText(line, args, ts[0].w, rs, rs');
        ArgsNext(args, rs, ts, rs', rest);
        ArgsNext(ArgsText(line, args), RedirsText(line, rs), ToksText(line, ts), RedirsText(line, rs'), ToksText(line, rest));
        ArgsOfText(line, args + [ts[0].w], rs + rs', rest);
      }
    }
  }

  lemma {:induction false} ExecOfText(line: string, ts: seq<Tok<Span>>)
    ensures ParseExec(ToksText(line, ts)) == ParseText(line, ParseExec(ts))
    decreases |ts|, 0
  {
    if Begins(ts, Open) {
      LineOfText(line, ts[1..]);
      ToksTail(line, ts, 1);
      if ParseLine(ts[1..]).Ok? {
        var c, rest := ParseLine(ts[1..]).val, ParseLine(ts[1..]).rest;
        if Begins(rest, Close) {
          RedirsOfText(line, rest[1..]);
          ToksTail(line, rest, 1);
          if Redirs(rest[1..]).Ok? {
            WrapText(line, c, Redirs(rest[1..]).val);
          }
        }
      }
    } else {
      RedirsOfText(line, ts);
      if Redirs(ts).Ok? {
        ArgsOfText(line, [], Redirs(ts).val, Redirs(ts).rest);
      }
    }
  }

  lemma {:induction false} PipeOfText(line: string, ts: seq<Tok<Span>>)
    ensures ParsePipe(ToksText(line, ts)) == ParseText(line, ParsePipe(ts))
    decreases |ts|, 1
  {
    ExecOfText(line, ts);
    if ParseExec(ts).Ok? {
      var rest := ParseExec(ts).rest;
      if Begins(rest, Bar) {
        ToksTail(line, rest, 1);
        PipeOfText(line, rest[1..]);
      }
    }
  }

  lemma {:induction false} BacksOfText(line: string, c: Cmd<Span>, ts: seq<Tok<Span>>)
    ensures Backs(CmdText(line, c), ToksText(line, ts)) == ParseText(line, Backs(c, ts))
    decreases |ts|
  {
    if Begins(ts, Amp) {
      ToksTail(line, ts, 1);
      BacksOfText(line, Back(c), ts[1..]);
    }
  }

  lemma {:induction false} LineOfText(line: string, ts: seq<Tok<Span>>)
    ensures ParseLine(ToksText(line, ts)) == ParseText(line, ParseLine(ts))
    decreases |ts|, 2
  {
    PipeOfText(line, ts);
    if ParsePipe(ts).Ok? {
      var c0, rest0 := ParsePipe(ts).val, ParsePipe(ts).rest;
      BacksOfText(line, c0, rest0);
      var c, rest := Backs(c0, rest0).val, Backs(c0, rest0).rest;
      if Begins(rest, Semi) {
        ToksTail(line, rest, 1);
        LineOfText(line, rest[1..]);
      }
      LineTailText(line, ts, c0, rest0, c, rest);
    }
  }
}
