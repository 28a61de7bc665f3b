/** The simple commands of sh.c: words and redirections in any order. */
module ShellItems {
  import opened Shell
  import opened ShellPrint

  /** A word of a simple command, or a redirection: "<", ">" or ">>" and a file name. */
  datatype Item<W> = Arg(w: W) | Red(op: Tok<W>, file: W)

  predicate Redirects<W(==)>(x: Item<W>) { x.Red? && (x.op == Less || x.op == Great || x.op == Append) }

  predicate IsItem<W(==)>(x: Item<W>) { x.Arg? || Redirects(x) }

  function ItemToks<W>(items: seq<Item<W>>): seq<Tok<W>> {
    if items == [] then []
    else (match items[0] case Arg(w) => [Word(w)] case Red(op, file) => [op, Word(file)]) + ItemToks(items[1..])
  }

  function ItemArgs<W>(items: seq<Item<W>>): seq<W> {
    if items == [] then [] else (if items[0].Arg? then [items[0].w] else []) + ItemArgs(items[1..])
  }

  /** The redirections in order; all but "<" are of output. */
  function ItemRedirs<W(==)>(items: seq<Item<W>>): seq<Redirection<W>> {
    if items == [] then [] else (if items[0].Red? then [Redirection(items[0].file, items[0].op != Less)] else []) + ItemRedirs(items[1..])
  }

  /** What ends a simple command. */
  predicate Stops<W(==)>(rest: seq<Tok<W>>) {
    rest == [] || rest[0] == Bar || rest[0] == Close || rest[0] == Amp || rest[0] == Semi
  }

  predicate AllItems<W(==)>(items: seq<Item<W>>) { forall i :: 0 <= i < |items| ==> IsItem(items[i]) }

  // One item at a time.

  lemma {:induction false} FirstArg<W>(items: seq<Item<W>>, rest: seq<Tok<W>>)
    requires items != [] && items[0].Arg?
    ensures var ts := ItemToks(items) + rest; |ts| > 0 && ts[0] == Word(items[0].w) && ts[1..] == ItemToks(items[1..]) + rest
    ensures ItemArgs(items) == [items[0].w] + ItemArgs(items[1..]) && ItemRedirs(items) == ItemRedirs(items[1..])
  {
    assert ItemToks(items) == [Word(items[0].w)] + ItemToks(items[1..]);
  }

  lemma {:induction false} FirstRed<W>(items: seq<Item<W>>, rest: seq<Tok<W>>)
    requires items != [] && items[0].Red?
    ensures
      var ts := ItemToks(items) + rest;
      |ts| >= 2 && ts[0] == items[0].op && ts[1] == Word(items[0].file) && ts[2..] == ItemToks(items[1..]) + rest
    ensures ItemArgs(items) == ItemArgs(items[1..])
    ensures ItemRedirs(items) == [Redirection(items[0].file, items[0].op != Less)] + ItemRedirs(items[1..])
  {
    assert ItemToks(items) == [items[0].op, Word(items[0].file)] + ItemToks(items[1..]);
  }

  /** `rs` are the redirections of the first `k` items, which are nothing else. */
  ghost predicate Leading<W>(items: seq<Item<W>>, k: nat, rs: seq<Redirection<W>>) {
    && k <= |items| && (k < |items| ==> items[k].Arg?)
    && ItemArgs(items) == ItemArgs(items[k..]) && ItemRedirs(items) == rs + ItemRedirs(items[k..])
  }

  lemma {:induction false} LeadingMore<W>(items: seq<Item<W>>, k: nat, rs: seq<Redirection<W>>)
    requires items != [] && items[0].Red? && Leading(items[1..], k, rs)
    ensures Leading(items, k + 1, [Redirection(items[0].file, items[0].op != Less)] + rs) && items[1..][k..] == items[k + 1..]
  {
    FirstRed(items, []);
    assert items[1..][k..] == items[k + 1..];
    var x := [Redirection(items[0].file, items[0].op != Less)];
    assert x + (rs + ItemRedirs(items[k + 1..])) == x + rs + ItemRedirs(items[k + 1..]);
  }

  /** Redirections are read up to the first word, or to what ends the command. */
  lemma {:induction false} RedirsItems<W>(items: seq<Item<W>>, rest: seq<Tok<W>>) returns (k: nat, rs: seq<Redirection<W>>)
    requires AllItems(items) && Stops(rest)
    ensures Leading(items, k, rs) && Redirs(ItemToks(items) + rest) == Ok(rs, ItemToks(items[k..]) + rest)
  {
    if items == [] || items[0].Arg? {
      k, rs := 0, [];
      assert items[0..] == items && rs + ItemRedirs(items) == ItemRedirs(items);
      if items == [] {
        assert ItemToks(items) + rest == rest;
      } else {
        FirstArg(items, rest);
      }
    } else {
      k, rs := RedirsItems(items[1..], rest);
      FirstRed(items, rest);
      LeadingMore(items, k, rs);
      assert IsItem(items[0]);
      RedirsStep(ItemToks(items) + rest, rs, ItemToks(items[k + 1..]) + rest);
      k, rs := k + 1, [Redirection(items[0].file, items[0].op != Less)] + rs;
    }
  }

  /** What the loop of parseexec() makes of words and redirections from a word on. */
  function Expected<W>(args: seq<W>, rs: seq<Redirection<W>>, rest: seq<Tok<W>>): Parse<Cmd<W>, W> {
    if |args| < 10 then Ok(Wrap(Exec(args), rs), rest) else Syntax
  }

  lemma {:induction false} ArgsItems<W>(args: seq<W>, rs: seq<Redirection<W>>, items: seq<Item<W>>, rest: seq<Tok<W>>)
    requires AllItems(items) && Stops(rest) && (items == [] || items[0].Arg?) && |args| < MAXARGS
    ensures Args(args, rs, ItemToks(items) + rest) == Expected(args + ItemArgs(items), rs + ItemRedirs(items), rest)
    decreases |items|
  {
    if items == [] {
      assert ItemToks(items) + rest == rest && args + [] == args && rs + [] == rs;
    } else {
      FirstArg(items, rest);
      if |args| + 1 < MAXARGS {
        var k, rs' := RedirsItems(items[1..], rest);
        ArgsStep(args, rs, items, rest, k, rs');
        ArgsSums(args, rs, items, k, rs');
        ArgsItems(args + [items[0].w], rs + rs', items[1..][k..], rest);
      }
    }
  }

  lemma {:induction false} ArgsStep<W>(args: seq<W>, rs: seq<Redirection<W>>, items: seq<Item<W>>, rest: seq<Tok<W>>, k: nat, rs': seq<Redirection<W>>)
    requires items != [] && items[0].Arg? && |args| + 1 < MAXARGS && Leading(items[1..], k, rs')
    requires Redirs(ItemToks(items[1..]) + rest) == Ok(rs', ItemToks(items[1..][k..]) + rest)
    ensures Args(args, rs, ItemToks(items) + rest) == Args(args + [items[0].w], rs + rs', ItemToks(items[1..][k..]) + rest)
  {
    FirstArg(items, rest);
    ArgsNext(args, rs, ItemToks(items) + rest, rs', ItemToks(items[1..][k..]) + rest);
  }

  lemma {:induction false} ArgsSums<W>(args: seq<W>, rs: seq<Redirection<W>>, items: seq<Item<W>>, k: nat, rs': seq<Redirection<W>>)
    requires items != [] && items[0].Arg? && Leading(items[1..], k, rs')
    ensures args + [items[0].w] + ItemArgs(items[1..][k..]) == args + ItemArgs(items)
    ensures rs + rs' + ItemRedirs(items[1..][k..]) == rs + ItemRedirs(items)
  {
    FirstArg(items, []);
  }

  /** A simple command may have its redirections before, between and behind its words: the words are its arguments, and the
      redirections are around it in the order in which they were read. Ten words or more are an error. */
  lemma {:induction false} SimpleParsed<W>(items: seq<Item<W>>, rest: seq<Tok<W>>)
    requires AllItems(items) && Stops(rest)
    ensures ParseExec(ItemToks(items) + rest) == Expected(ItemArgs(items), ItemRedirs(items), rest)
  {
    var ts := ItemToks(items) + rest;
    if items != [] {
      assert IsItem(items[0]);
      if items[0].Arg? { FirstArg(items, rest); } else { FirstRed(items, rest); }
    } else {
      assert ts == rest;
    }
    var k, rs := RedirsItems(items, rest);
    ExecStep(ts, rs, ItemToks(items[k..]) + rest);
    ArgsItems([], rs, items[k..], rest);
    assert [] + ItemArgs(items[k..]) == ItemArgs(items);
  }
}
