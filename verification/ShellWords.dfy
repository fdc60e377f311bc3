/** Every word of a line reaches the tree that the shell's parser (sh.c) makes of it, once and in order. */
module ShellWords {
  import opened CStrings
  import opened ShellGrammar
  import opened ShellLanguage
  import opened ShellParser

  /** The words of a tree. */
  function Bag(c: Cmd<Span>): multiset<Span> {
    match c
    case Exec(args) => multiset(args)
    case Redir(c', file, _) => Bag(c') + multiset{file}
    case Pipe(l, r) => Bag(l) + Bag(r)
    case List(l, r) => Bag(l) + Bag(r)
    case Back(c') => Bag(c')
  }

  lemma {:induction false} BagHasWord(c: Cmd<Span>, w: Span)
    ensures Bag(c)[w] > 0 <==> HasWord(c, w)
  {
    match c
    case Exec(args) => assert w in multiset(args) <==> w in args;
    case Redir(c', file, _) => BagHasWord(c', w);
    case Pipe(l, r) => BagHasWord(l, w); BagHasWord(r, w);
    case List(l, r) => BagHasWord(l, w); BagHasWord(r, w);
    case Back(c') => BagHasWord(c', w);
  }

  /** How often a word stands among terminals. */
  function Times(ts: seq<Terminal>, w: Span): nat {
    if ts == [] then 0 else (if ts[0] == Word(w) then 1 else 0) + Times(ts[1..], w)
  }

  lemma {:induction false} TimesJoin(a: seq<Terminal>, b: seq<Terminal>, w: Span)
    ensures Times(a + b, w) == Times(a, w) + Times(b, w)
    decreases |a|
  {
    if a == [] {
      assert a + b == b;
    } else {
      assert (a + b)[1..] == a[1..] + b;
      TimesJoin(a[1..], b, w);
    }
  }

  lemma TimesOne(x: Terminal, w: Span)
    ensures Times([x], w) == if x == Word(w) then 1 else 0
  {
    assert [x][1..] == [];
  }

  lemma TimesItem(x: Item, w: Span)
    ensures Times(ItemTokens([x]), w) == if (if x.Arg? then x.w else x.file) == w then 1 else 0
  {
    var ts := ItemTokens([x]);
    assert ts == ItemTerminals(x);
    TimesOne(Word(if x.Arg? then x.w else x.file), w);
    if x.To? { assert ts[1..] == [Word(x.file)]; }
  }

  lemma {:induction false} BagItems(c: Cmd<Span>, items: seq<Item>, w: Span)
    ensures Bag(Wrapped(c, items))[w] + multiset(ArgsOf(items))[w] == Bag(c)[w] + Times(ItemTokens(items), w)
    decreases |items|
  {
    if items != [] {
      var most, x := items[..|items| - 1], items[|items| - 1];
      assert items == most + [x];
      BagItems(c, most, w);
      WrapOne(c, most, x);
      ItemsJoin(most, [x]);
      TimesJoin(ItemTokens(most), ItemTokens([x]), w);
      TimesItem(x, w);
      hide Wrapped, ArgsOf, ItemTokens, Times;
      assert x.Arg? ==> multiset(ArgsOf(most) + [x.w])[w] == multiset(ArgsOf(most))[w] + multiset([x.w])[w];
    }
  }

  lemma CommandIsPipeline(f: Form)
    requires IsCommand(f)
    ensures IsPipeline(f)
  {
  }

  lemma PipelineIsLine(f: Form)
    requires IsPipeline(f)
    ensures IsLine(f)
  {
    assert !IsCommand(f) ==> f.Piped?;
    assert IsJob(f);
    JobIsLine(f);
  }

  lemma Parts(f: Form)
    requires IsLine(f)
    ensures match f
            case Simple(items) => |ArgsOf(items)| < 10
            case Group(body, items) => IsLine(body) && Redirections(items)
            case Piped(l, r) => IsLine(l) && IsLine(r)
            case Behind(body) => IsLine(body)
            case Then(l, r) => IsLine(l) && IsLine(r)
  {
    if f.Piped? {
      assert IsJob(f) && IsPipeline(f);
      CommandIsPipeline(f.left);
      PipelineIsLine(f.left);
      PipelineIsLine(f.right);
    } else if f.Behind? {
      JobIsLine(f.body);
    } else if f.Then? {
      JobIsLine(f.left);
    } else {
      assert IsJob(f);
      assert IsPipeline(f);
      assert IsCommand(f);
    }
  }

  lemma {:induction false} BagForm(f: Form, w: Span)
    requires IsLine(f)
    ensures Bag(Tree(f))[w] == Times(FormTokens(f), w)
  {
    hide IsLine, Wrapped, ArgsOf, ItemTokens, Times;
    Parts(f);
    match f
    case Simple(items) =>
      BagItems(Exec(ArgsOf(items)), items, w);
    case Group(body, items) =>
      BagForm(body, w);
      BagItems(Tree(body), items, w);
      SameArgs([], items);
      NoneBuilt();
      assert [] + items == items && FormTokens(f) == [] + [Sym('(')] + (FormTokens(body) + [Sym(')')] + ItemTokens(items));
      TimesPair([], Sym('('), FormTokens(body) + [Sym(')')] + ItemTokens(items), w);
      TimesPair(FormTokens(body), Sym(')'), ItemTokens(items), w);
    case Piped(l, r) =>
      BagForm(l, w);
      BagForm(r, w);
      TimesPair(FormTokens(l), Sym('|'), FormTokens(r), w);
    case Behind(body) =>
      BagForm(body, w);
      TimesPair(FormTokens(body), Sym('&'), [], w);
      assert FormTokens(f) == FormTokens(body) + [Sym('&')] + [];
    case Then(l, r) =>
      BagForm(l, w);
      BagForm(r, w);
      TimesPair(FormTokens(l), Sym(';'), FormTokens(r), w);
  }

  lemma TimesPair(a: seq<Terminal>, x: Terminal, b: seq<Terminal>, w: Span)
    requires x.Sym?
    ensures Times(a + [x] + b, w) == Times(a, w) + Times(b, w) && Times([], w) == 0
  {
    TimesJoin(a + [x], b, w);
    TimesJoin(a, [x], w);
  }

  lemma FirstRun(s: string, i: int, x: Lexeme, w: Span)
    requires 0 <= i <= x.q && LexemeOk(s, x) && (forall k | i <= k < x.q :: White(s[k]))
    ensures i <= w.q && IsRun(s, w) ==> x.token == Word(w) || x.eq <= w.q
    ensures x.token == Word(w) ==> IsRun(s, w) && i <= w.q < x.eq
  {
    if IsRun(s, w) {
      RunStart(s, w);
      if x.token.Word? { SameRun(s, x.token.w, w); }
    }
  }

  lemma RunStart(s: string, w: Span)
    requires IsRun(s, w)
    ensures Letter(s[w.q]) && !White(s[w.q]) && !Special(s[w.q])
  {
  }

  /** Runs do not overlap. */
  lemma SameRun(s: string, v: Span, w: Span)
    requires IsRun(s, v) && IsRun(s, w)
    ensures v.q <= w.q < v.eq ==> v == w
  {
  }

  /** Of the words of a line, the ones from i on. */
  lemma {:induction false} TimesRun(s: string, i: int, xs: seq<Lexeme>, w: Span)
    requires 0 <= i && Lexed(s, i, xs)
    ensures Times(Terminals(xs), w) == if i <= w.q && IsRun(s, w) then 1 else 0
    decreases |xs|
  {
    if IsRun(s, w) { RunStart(s, w); }
    if xs != [] {
      TimesRun(s, xs[0].eq, xs[1..], w);
      hide Lexed, Terminals, Times;
      FirstRun(s, i, xs[0], w);
    }
  }

  /** Every run of letters is in the tree, once; and nothing else is. */
  lemma EveryWordOnce(s: string, w: Span)
    requires CString(s) && ParseCmd(s).Ok?
    ensures Bag(ParseCmd(s).cmd)[w] == if IsRun(s, w) then 1 else 0
    ensures HasWord(ParseCmd(s).cmd, w) <==> IsRun(s, w)
  {
    hide ParseCmd, Tree, FormTokens, Bag, IsLine, Terminals, Lexed;
    Language(s);
    var f :| Reads(s, f);
    var xs :| Lexed(s, 0, xs) && Terminals(xs) == FormTokens(f);
    BagForm(f, w);
    TimesRun(s, 0, xs, w);
    BagHasWord(Tree(f), w);
  }

  // ---------------------------------------------------------------- the arguments keep the order of the line

  predicate Rising(args: seq<Span>) { forall a, b | 0 <= a < b < |args| :: args[a].eq <= args[b].q }

  /** The arguments of every command are in the order of the line. */
  predicate InOrder(c: Cmd<Span>) {
    match c
    case Exec(args) => Rising(args)
    case Redir(c', _, _) => InOrder(c')
    case Pipe(l, r) => InOrder(l) && InOrder(r)
    case List(l, r) => InOrder(l) && InOrder(r)
    case Back(c') => InOrder(c')
  }

  /** Words among terminals are in the order of the line. */
  predicate Ordered(ts: seq<Terminal>) {
    forall a, b | 0 <= a < b < |ts| && ts[a].Word? && ts[b].Word? :: ts[a].w.eq <= ts[b].w.q
  }

  lemma OrderedParts(a: seq<Terminal>, b: seq<Terminal>)
    requires Ordered(a + b)
    ensures Ordered(a) && Ordered(b)
  {
    var ts := a + b;
    assert forall k | 0 <= k < |a| :: a[k] == ts[k];
    assert forall k | 0 <= k < |b| :: b[k] == ts[|a| + k];
  }

  lemma {:induction false} ScannedInOrder(s: string, i: int, xs: seq<Lexeme>)
    requires Lexed(s, i, xs)
    ensures Ordered(Terminals(xs)) && forall k | 0 <= k < |xs| && Terminals(xs)[k].Word? :: i <= Terminals(xs)[k].w.q
    decreases |xs|
  {
    if xs != [] {
      ScannedInOrder(s, xs[0].eq, xs[1..]);
      var ts, rest := Terminals(xs), Terminals(xs[1..]);
      assert forall k | 0 < k < |ts| :: ts[k] == rest[k - 1];
    }
  }

  lemma {:induction false} ArgIsWord(items: seq<Item>, k: int)
    requires 0 <= k < |ArgsOf(items)|
    ensures Word(ArgsOf(items)[k]) in ItemTokens(items)
    decreases |items|
  {
    var most, x := items[..|items| - 1], items[|items| - 1];
    assert items == most + [x];
    ItemsJoin(most, [x]);
    if k < |ArgsOf(most)| { ArgIsWord(most, k); } else { assert ItemTokens([x])[0] == Word(x.w); }
  }

  lemma {:induction false} ArgsRise(items: seq<Item>)
    requires Ordered(ItemTokens(items))
    ensures Rising(ArgsOf(items))
    decreases |items|
  {
    if items != [] {
      var most, x := items[..|items| - 1], items[|items| - 1];
      assert items == most + [x];
      ItemsJoin(most, [x]);
      OrderedParts(ItemTokens(most), ItemTokens([x]));
      ArgsRise(most);
      if x.Arg? {
        var ts, args := ItemTokens(items), ArgsOf(most);
        assert ItemTokens([x]) == [Word(x.w)] && ts[|ts| - 1] == Word(x.w);
        forall k | 0 <= k < |args| ensures args[k].eq <= x.w.q {
          ArgIsWord(most, k);
          var j :| 0 <= j < |ItemTokens(most)| && ItemTokens(most)[j] == Word(args[k]);
          assert ts[j] == Word(args[k]);
        }
      }
    }
  }

  lemma {:induction false} WrappedInOrder(c: Cmd<Span>, items: seq<Item>)
    ensures InOrder(Wrapped(c, items)) <==> InOrder(c)
    decreases |items|
  {
    if items != [] { WrappedInOrder(c, items[..|items| - 1]); }
  }

  lemma {:induction false} FormInOrder(f: Form)
    requires Ordered(FormTokens(f))
    ensures InOrder(Tree(f))
  {
    match f
    case Simple(items) =>
      ArgsRise(items);
      WrappedInOrder(Exec(ArgsOf(items)), items);
    case Group(body, items) =>
      OrderedParts([Sym('(')] + FormTokens(body) + [Sym(')')], ItemTokens(items));
      OrderedParts([Sym('(')] + FormTokens(body), [Sym(')')]);
      OrderedParts([Sym('(')], FormTokens(body));
      FormInOrder(body);
      WrappedInOrder(Tree(body), items);
    case Piped(l, r) =>
      OrderedParts(FormTokens(l) + [Sym('|')], FormTokens(r));
      OrderedParts(FormTokens(l), [Sym('|')]);
      FormInOrder(l);
      FormInOrder(r);
    case Behind(body) =>
      OrderedParts(FormTokens(body), [Sym('&')]);
      FormInOrder(body);
    case Then(l, r) =>
      OrderedParts(FormTokens(l) + [Sym(';')], FormTokens(r));
      OrderedParts(FormTokens(l), [Sym(';')]);
      FormInOrder(l);
      FormInOrder(r);
  }

  /** Each command has its arguments in the order in which the line has them. */
  lemma ArgsInOrder(s: string)
    requires CString(s) && ParseCmd(s).Ok?
    ensures InOrder(ParseCmd(s).cmd)
  {
    hide ParseCmd, Tree, FormTokens, InOrder, Ordered, IsLine, Terminals, Lexed;
    Language(s);
    var f :| Reads(s, f);
    var xs :| Lexed(s, 0, xs) && Terminals(xs) == FormTokens(f);
    ScannedInOrder(s, 0, xs);
    FormInOrder(f);
  }
}
