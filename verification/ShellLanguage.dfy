/**
 * The language that the shell's parser (sh.c) accepts, by its grammar: which lines it takes, and which
 * tree each has.  Nothing here follows the parser; that the parser does this is proved below.
 */
module ShellLanguage {
  import opened CStrings
  import opened ShellGrammar

  // ---------------------------------------------------------------- the words and symbols of a line

  predicate White(c: char) { c in " \t\r\n\U{B}" }

  predicate Special(c: char) { c in "<|>&;()" }

  /** A character of a word. */
  predicate Letter(c: char) { !White(c) && !Special(c) && c != '\0' }

  /** A word, or a symbol; '+' is >>. */
  datatype Terminal = Word(w: Span) | Sym(c: char)

  /** A token with its place in the line. */
  datatype Lexeme = Lexeme(token: Terminal, q: int, eq: int)

  /** A maximal run of letters. */
  predicate IsRun(s: string, w: Span) {
    && 0 <= w.q < w.eq <= |s| && (forall i | w.q <= i < w.eq :: Letter(s[i]))
    && (w.q > 0 ==> !Letter(s[w.q - 1])) && (w.eq < |s| ==> !Letter(s[w.eq]))
  }

  predicate LexemeOk(s: string, x: Lexeme) {
    && 0 <= x.q < x.eq <= |s|
    && match x.token
       case Word(w) => w == Span(x.q, x.eq) && IsRun(s, w)
       case Sym(c) => if c == '+' then x.eq == x.q + 2 && s[x.q] == '>' && s[x.q + 1] == '>'
                      else x.eq == x.q + 1 && s[x.q] == c && Special(c) && (c == '>' && x.eq < |s| ==> s[x.eq] != '>')
  }

  /** The line from position i is these lexemes, with white space around them. */
  predicate Lexed(s: string, i: int, xs: seq<Lexeme>)
    decreases |xs|
  {
    if xs == [] then forall k | i <= k < |s| && 0 <= k :: White(s[k])
    else i <= xs[0].q && LexemeOk(s, xs[0]) && (forall k | i <= k < xs[0].q && 0 <= k :: White(s[k])) && Lexed(s, xs[0].eq, xs[1..])
  }

  function Terminals(xs: seq<Lexeme>): (ts: seq<Terminal>)
    ensures |ts| == |xs|
  {
    if xs == [] then [] else [xs[0].token] + Terminals(xs[1..])
  }

  // ---------------------------------------------------------------- the grammar

  /** An argument, or a redirection. */
  datatype Item = Arg(w: Span) | To(mode: Mode, file: Span)

  /** A line, as the grammar has it. */
  datatype Form =
    | Simple(items: seq<Item>)                     // arguments and redirections in any order
    | Group(body: Form, items: seq<Item>)          // ( body ) and redirections
    | Piped(left: Form, right: Form)               // left | right
    | Behind(body: Form)                           // body &
    | Then(left: Form, right: Form)                // left ; right

  predicate Redirections(items: seq<Item>) { forall k | 0 <= k < |items| :: items[k].To? }

  function ArgsOf(items: seq<Item>): seq<Span> {
    if items == [] then [] else
    var rest, last := ArgsOf(items[..|items| - 1]), items[|items| - 1];
    if last.Arg? then rest + [last.w] else rest
  }

  /** A command: at most 9 arguments, or a line in parentheses. */
  predicate IsCommand(f: Form)
    decreases f, 0
  {
    (f.Simple? && |ArgsOf(f.items)| < 10) || (f.Group? && IsLine(f.body) && Redirections(f.items))
  }

  /** Pipes take a command on the left: they group to the right. */
  predicate IsPipeline(f: Form)
    decreases f, 1
  {
    if f.Piped? then IsCommand(f.left) && IsPipeline(f.right) else IsCommand(f)
  }

  /** & binds less than |. */
  predicate IsJob(f: Form)
    decreases f, 2
  {
    if f.Behind? then IsJob(f.body) else IsPipeline(f)
  }

  /** ; binds least, and groups to the right. */
  predicate IsLine(f: Form)
    decreases f, 3
  {
    if f.Then? then IsJob(f.left) && IsLine(f.right) else IsJob(f)
  }

  function ModeSym(mode: Mode): char {
    match mode case In => '<' case Out => '>' case Append => '+'
  }

  function ItemTerminals(x: Item): seq<Terminal> {
    match x case Arg(w) => [Word(w)] case To(mode, file) => [Sym(ModeSym(mode)), Word(file)]
  }

  function ItemTokens(items: seq<Item>): seq<Terminal> {
    if items == [] then [] else ItemTerminals(items[0]) + ItemTokens(items[1..])
  }

  function FormTokens(f: Form): seq<Terminal> {
    match f
    case Simple(items) => ItemTokens(items)
    case Group(body, items) => [Sym('(')] + FormTokens(body) + [Sym(')')] + ItemTokens(items)
    case Piped(l, r) => FormTokens(l) + [Sym('|')] + FormTokens(r)
    case Behind(body) => FormTokens(body) + [Sym('&')]
    case Then(l, r) => FormTokens(l) + [Sym(';')] + FormTokens(r)
  }

  /** Redirections wrap a command, the first innermost. */
  function Wrapped(c: Cmd<Span>, items: seq<Item>): Cmd<Span> {
    if items == [] then c else
    var inner, last := Wrapped(c, items[..|items| - 1]), items[|items| - 1];
    if last.To? then Redir(inner, last.file, last.mode) else inner
  }

  /** The tree of a line. */
  function Tree(f: Form): Cmd<Span> {
    match f
    case Simple(items) => Wrapped(Exec(ArgsOf(items)), items)
    case Group(body, items) => Wrapped(Tree(body), items)
    case Piped(l, r) => Pipe(Tree(l), Tree(r))
    case Behind(body) => Back(Tree(body))
    case Then(l, r) => List(Tree(l), Tree(r))
  }

  // ---------------------------------------------------------------- gettoken() finds the lexemes

  function TerminalOf(s: string, i: int): Terminal
    requires 0 <= i <= |s| && CString(s)
  {
    var t := Tok(s, i);
    if t.kind == 'a' then Word(Span(t.q, t.eq)) else Sym(t.kind)
  }

  /** What is left of the line at position i, by gettoken(). */
  function Rest(s: string, i: int): seq<Terminal>
    requires 0 <= i <= |s| && CString(s)
    decreases |s| - i
  {
    if Tok(s, i).kind == NUL then [] else [TerminalOf(s, i)] + Rest(s, Tok(s, i).next)
  }

  lemma SameChars(c: char)
    ensures White(c) <==> IsSpace(c)
    ensures Special(c) <==> IsSymbol(c)
    ensures Letter(c) <==> Plain(c)
  {
  }

  /** Position i is not inside a run. */
  predicate Edge(s: string, i: int) { 0 < i < |s| && Letter(s[i]) ==> !Letter(s[i - 1]) }

  lemma LexemeAt(s: string, i: int)
    requires 0 <= i <= |s| && CString(s) && Edge(s, i) && Tok(s, i).kind != NUL
    ensures var t := Tok(s, i);
            LexemeOk(s, Lexeme(TerminalOf(s, i), t.q, t.eq)) && Edge(s, t.next)
            && (forall k | i <= k < t.q :: White(s[k])) && (forall k | t.eq <= k < t.next :: White(s[k]))
  {
    forall c: char { SameChars(c); }
  }

  /** gettoken(), called until the end, finds the lexemes of the line. */
  lemma {:induction false} Scanned(s: string, i: int) returns (xs: seq<Lexeme>)
    requires 0 <= i <= |s| && CString(s) && Edge(s, i)
    ensures Lexed(s, i, xs) && Terminals(xs) == Rest(s, i)
    decreases |s| - i
  {
    var t := Tok(s, i);
    if t.kind == NUL {
      forall c: char { SameChars(c); }
      xs := [];
    } else {
      LexemeAt(s, i);
      var rest := Scanned(s, t.next);
      xs := [Lexeme(TerminalOf(s, i), t.q, t.eq)] + rest;
      assert xs[1..] == rest;
    }
  }

  lemma NotWhite(s: string, x: Lexeme)
    requires LexemeOk(s, x)
    ensures !White(s[x.q])
  {
  }

  lemma FirstOnce(s: string, i: int, x: Lexeme, y: Lexeme)
    requires 0 <= i <= x.q && i <= y.q && LexemeOk(s, x) && LexemeOk(s, y)
    requires (forall k | i <= k < x.q :: White(s[k])) && (forall k | i <= k < y.q :: White(s[k]))
    ensures x == y
  {
    assert x.q == y.q;
    assert x.token.Word? <==> y.token.Word?;
  }

  /** A line has one sequence of lexemes. */
  lemma {:induction false} LexedOnce(s: string, i: int, xs: seq<Lexeme>, ys: seq<Lexeme>)
    requires 0 <= i && Lexed(s, i, xs) && Lexed(s, i, ys)
    ensures xs == ys
    decreases |xs|
  {
    if xs != [] { NotWhite(s, xs[0]); }
    if ys != [] { NotWhite(s, ys[0]); }
    if xs != [] && ys != [] {
      FirstOnce(s, i, xs[0], ys[0]);
      LexedOnce(s, xs[0].eq, xs[1..], ys[1..]);
      assert xs == [xs[0]] + xs[1..] && ys == [ys[0]] + ys[1..];
    }
  }

  // ---------------------------------------------------------------- the parser looks ahead

  /** The character that gettoken() returns. */
  function Kind(ts: seq<Terminal>): char {
    if ts == [] then NUL else if ts[0].Word? then 'a' else ts[0].c
  }

  lemma Ahead(s: string, i: int)
    requires 0 <= i <= |s| && CString(s)
    ensures Tok(s, i).kind == Kind(Rest(s, i)) && (Tok(s, i).kind == NUL <==> Rest(s, i) == []) && Rest(s, SkipSpace(s, i)) == Rest(s, i)
    ensures Rest(s, i) != [] ==> Tok(s, i).next > i && Rest(s, i)[0] == TerminalOf(s, i) && Rest(s, Tok(s, i).next) == Rest(s, i)[1..]
  {
    hide Tok, SkipSpace;
    SkipTok(s, i);
  }

  lemma SkipTok(s: string, i: int)
    requires 0 <= i <= |s| && CString(s)
    ensures Tok(s, SkipSpace(s, i)) == Tok(s, i)
  {
    assert SkipSpace(s, SkipSpace(s, i)) == SkipSpace(s, i);
  }

  lemma PeekKind(s: string, i: int, toks: string)
    requires 0 <= i <= |s| && CString(s) && forall c | c in toks :: Special(c)
    ensures var k := Kind(Rest(s, i)); Peek(s, i, toks) <==> (if k == '+' then '>' else k) in toks
  {
    forall c: char { SameChars(c); }
  }

  // ---------------------------------------------------------------- arguments and redirections

  lemma {:induction false} ItemsJoin(a: seq<Item>, b: seq<Item>)
    ensures ItemTokens(a + b) == ItemTokens(a) + ItemTokens(b)
    decreases |a|
  {
    if a == [] {
      assert a + b == b;
    } else {
      assert (a + b)[1..] == a[1..] + b;
      ItemsJoin(a[1..], b);
    }
  }

  /** The tree of a command that has these items. */
  function Built(items: seq<Item>): Cmd<Span> { Wrapped(Exec(ArgsOf(items)), items) }

  lemma WrapOne(c: Cmd<Span>, items: seq<Item>, x: Item)
    ensures Wrapped(c, items + [x]) == if x.To? then Redir(Wrapped(c, items), x.file, x.mode) else Wrapped(c, items)
    ensures ArgsOf(items + [x]) == if x.Arg? then ArgsOf(items) + [x.w] else ArgsOf(items)
  {
    assert (items + [x])[..|items|] == items;
  }

  /** Redirections add no arguments. */
  lemma {:induction false} SameArgs(items: seq<Item>, more: seq<Item>)
    requires Redirections(more)
    ensures ArgsOf(items + more) == ArgsOf(items)
    decreases |more|
  {
    if more == [] {
      assert items + more == items;
    } else {
      var most := more[..|more| - 1];
      assert items + more == (items + most) + [more[|most|]];
      WrapOne(Exec([]), items + most, more[|most|]);
      SameArgs(items, most);
    }
  }

  /** A redirection that came earlier stays around the arguments that come later. */
  lemma {:induction false} AddUnder(args: seq<Span>, items: seq<Item>, w: Span)
    ensures AddArg(Wrapped(Exec(args), items), w) == Wrapped(Exec(args + [w]), items)
    decreases |items|
  {
    if items != [] { AddUnder(args, items[..|items| - 1], w); }
  }

  lemma AddBuilt(items: seq<Item>, w: Span)
    ensures AddArg(Built(items), w) == Built(items + [Arg(w)])
  {
    AddUnder(ArgsOf(items), items, w);
    WrapOne(Exec(ArgsOf(items) + [w]), items, Arg(w));
  }

  lemma FirstItem(x: Item, items: seq<Item>)
    ensures ItemTokens([x] + items) == ItemTokens([x]) + ItemTokens(items)
  {
    ItemsJoin([x], items);
  }

  lemma RedirTokens(s: string, i: int)
    requires 0 <= i <= |s| && CString(s) && Kind(Rest(s, i)) in "<>+" && Tok(s, Tok(s, i).next).kind == 'a'
    ensures var t := Tok(s, i);
            var f := Tok(s, t.next);
            i < f.next && Rest(s, i) == ItemTokens([To(ModeOf(t.kind), Span(f.q, f.eq))]) + Rest(s, f.next)
  {
    hide Tok, SkipSpace, Rest;
    var t := Tok(s, i);
    var f := Tok(s, t.next);
    Ahead(s, i);
    Ahead(s, t.next);
    assert Rest(s, i) == [Rest(s, i)[0], Rest(s, t.next)[0]] + Rest(s, f.next);
  }

  /** parseredirs() reads redirections, and wraps them around the command. */
  lemma {:induction false} RedirsForm(s: string, i: int, c: Cmd<Span>, done: seq<Item>) returns (more: seq<Item>)
    requires 0 <= i <= |s| && CString(s) && Words(s, Wrapped(c, done)) && Redirs(s, i, Wrapped(c, done)).Ok?
    ensures var r := Redirs(s, i, Wrapped(c, done));
            Redirections(more) && r.cmd == Wrapped(c, done + more) && Rest(s, i) == ItemTokens(more) + Rest(s, r.pos)
    decreases |s| - i
  {
    hide Tok, Peek, SkipSpace, Redirs, Words, Rest, Kind, Wrapped;
    RedirsStep(s, i, Wrapped(c, done));
    PeekKind(s, i, "<>");
    Ahead(s, i);
    if !Peek(s, i, "<>") {
      more := [];
      assert done + more == done;
    } else {
      var t := Tok(s, i);
      var f := Tok(s, t.next);
      RedirTokens(s, i);
      var x := To(ModeOf(t.kind), Span(f.q, f.eq));
      WrapOne(c, done, x);
      var rest := RedirsForm(s, f.next, c, done + [x]);
      more := [x] + rest;
      assert done + more == done + [x] + rest;
      FirstItem(x, rest);
    }
  }

  lemma FrontTokens(items: seq<Item>, rest: seq<Terminal>)
    requires items != []
    ensures var ts, after := ItemTokens(items) + rest, ItemTokens(items[1..]) + rest;
            match items[0]
            case Arg(w) => |ts| > 0 && ts[0] == Word(w) && ts[1..] == after
            case To(mode, file) => |ts| > 1 && ts[0] == Sym(ModeSym(mode)) && ts[1] == Word(file) && ts[2..] == after
  {
    var first, after := ItemTerminals(items[0]), ItemTokens(items[1..]) + rest;
    assert ItemTokens(items) + rest == first + after;
    hide ItemTokens;
    assert (first + after)[|first|..] == after;
  }

  lemma ReadRedir(s: string, i: int, more: seq<Item>, rest: seq<Terminal>)
    requires 0 <= i <= |s| && CString(s) && Rest(s, i) == ItemTokens(more) + rest && more != [] && more[0].To?
    ensures Peek(s, i, "<>")
    ensures var t := Tok(s, i);
            var f := Tok(s, t.next);
            f.kind == 'a' && more[0] == To(ModeOf(t.kind), Span(f.q, f.eq)) && Rest(s, f.next) == ItemTokens(more[1..]) + rest
  {
    hide Tok, SkipSpace, Rest, ItemTokens;
    FrontTokens(more, rest);
    var t := Tok(s, i);
    PeekKind(s, i, "<>");
    Ahead(s, i);
    Ahead(s, t.next);
    assert Rest(s, i)[2..] == Rest(s, t.next)[1..];
  }

  lemma {:induction false} RedirsRead(s: string, i: int, c: Cmd<Span>, done: seq<Item>, more: seq<Item>, rest: seq<Terminal>)
    requires 0 <= i <= |s| && CString(s) && Words(s, Wrapped(c, done))
    requires Redirections(more) && Rest(s, i) == ItemTokens(more) + rest && Kind(rest) !in "<>+"
    ensures var r := Redirs(s, i, Wrapped(c, done)); r.Ok? && r.cmd == Wrapped(c, done + more) && Rest(s, r.pos) == rest
    decreases |more|
  {
    hide Tok, Peek, SkipSpace, Redirs, Words, Rest, Wrapped;
    RedirsStep(s, i, Wrapped(c, done));
    if more == [] {
      PeekKind(s, i, "<>");
      Ahead(s, i);
      assert done + more == done;
    } else {
      ReadRedir(s, i, more, rest);
      var x := more[0];
      WrapOne(c, done, x);
      RedirsRead(s, Tok(s, Tok(s, i).next).next, c, done + [x], more[1..], rest);
      assert done + more == done + [x] + more[1..];
    }
  }

  lemma NoItems(rest: seq<Terminal>)
    ensures ItemTokens([]) + rest == rest
  {
  }

  /** An argument joins the arguments so far. */
  lemma OneArg(s: string, i: int, done: seq<Item>)
    requires 0 <= i <= |s| && CString(s) && Words(s, Built(done)) && Tok(s, i).kind == 'a'
    ensures var t := Tok(s, i);
            var w := Span(t.q, t.eq);
            var now := done + [Arg(w)];
            AddArg(Built(done), w) == Built(now) == Wrapped(Exec(ArgsOf(now)), now) && Words(s, Built(now)) && |ArgsOf(now)| == |ArgsOf(done)| + 1
  {
    hide Tok, Words, Wrapped, ArgsOf;
    var t := Tok(s, i);
    var w := Span(t.q, t.eq);
    AddArgWords(s, Built(done), w);
    AddBuilt(done, w);
    WrapOne(Exec([]), done, Arg(w));
  }

  /** One round of the loop over arguments: an argument, and the redirections after it. */
  lemma ThenArgs(s: string, i: int, done: seq<Item>, redirs: seq<Item>)
    requires 0 <= i <= |s| && CString(s) && Words(s, Built(done)) && Tok(s, i).kind == 'a' && Redirections(redirs)
    requires var t := Tok(s, i);
             var now := done + [Arg(Span(t.q, t.eq))];
             Words(s, Built(now)) && var r := Redirs(s, t.next, Built(now)); r.Ok? && r.cmd == Wrapped(Exec(ArgsOf(now)), now + redirs)
    ensures var t := Tok(s, i);
            var now := done + [Arg(Span(t.q, t.eq))];
            var r := Redirs(s, t.next, Built(now));
            && Built(now + redirs) == r.cmd && Words(s, r.cmd) && |ArgsOf(now + redirs)| == |ArgsOf(done)| + 1
            && (|ArgsOf(done)| + 1 < 10 ==> Args(s, i, Built(done), |ArgsOf(done)|) == Args(s, r.pos, Built(now + redirs), |ArgsOf(now + redirs)|))
            && (|ArgsOf(done)| + 1 >= 10 ==> Args(s, i, Built(done), |ArgsOf(done)|).Panic?)
  {
    hide Tok, Peek, SkipSpace, Redirs, Args, Words, Wrapped, ArgsOf, Rest;
    var t := Tok(s, i);
    OneArg(s, i, done);
    SameArgs(done + [Arg(Span(t.q, t.eq))], redirs);
    Ahead(s, i);
    PeekKind(s, i, "|)&;");
    ArgsStep(s, i, Built(done), |ArgsOf(done)|);
  }

  lemma ArgTokens(x: Item, redirs: seq<Item>, rest: seq<Item>)
    ensures ItemTokens([x] + redirs + rest) == ItemTerminals(x) + ItemTokens(redirs) + ItemTokens(rest)
  {
    ItemsJoin([x] + redirs, rest);
    ItemsJoin([x], redirs);
  }

  lemma OneTerminal(s: string, i: int)
    requires 0 <= i <= |s| && CString(s) && Tok(s, i).kind == 'a'
    ensures var t := Tok(s, i); i < t.next && Rest(s, i) == ItemTerminals(Arg(Span(t.q, t.eq))) + Rest(s, t.next)
  {
    hide Tok;
  }

  /** The loop over arguments reads arguments and redirections, in the order of the line. */
  lemma {:induction false} ArgsForm(s: string, i: int, done: seq<Item>) returns (more: seq<Item>)
    requires 0 <= i <= |s| && CString(s) && Words(s, Built(done)) && |ArgsOf(done)| < 10
    requires Args(s, i, Built(done), |ArgsOf(done)|).Ok?
    ensures var r := Args(s, i, Built(done), |ArgsOf(done)|);
            |ArgsOf(done + more)| < 10 && r.cmd == Built(done + more) && Rest(s, i) == ItemTokens(more) + Rest(s, r.pos)
    decreases |s| - i
  {
    hide Tok, Peek, SkipSpace, Redirs, Args, Words, Rest, Wrapped, ArgsOf, ItemTerminals, ItemTokens, Built, Kind;
    Ahead(s, i);
    PeekKind(s, i, "|)&;");
    ArgsStep(s, i, Built(done), |ArgsOf(done)|);
    if Tok(s, i).kind != 'a' {
      more := [];
      assert done + more == done;
      NoItems(Rest(s, i));
      EndRest(s, i);
    } else {
      var t := Tok(s, i);
      var x := Arg(Span(t.q, t.eq));
      var now := done + [x];
      OneArg(s, i, done);
      var r := Redirs(s, t.next, Built(now));
      var redirs := RedirsForm(s, t.next, Exec(ArgsOf(now)), now);
      ThenArgs(s, i, done, redirs);
      var rest := ArgsForm(s, r.pos, now + redirs);
      more := [x] + redirs + rest;
      assert done + more == now + redirs + rest;
      ArgTokens(x, redirs, rest);
      assert Rest(s, i) == ItemTerminals(x) + Rest(s, t.next) by { OneTerminal(s, i); }
    }
  }

  lemma EndRest(s: string, i: int)
    requires 0 <= i <= |s| && CString(s)
    ensures Tok(s, i).kind == NUL ==> Rest(s, Tok(s, i).next) == Rest(s, i)
  {
  }

  /** The redirections at the start of these items. */
  function Leading(items: seq<Item>): (n: nat)
    ensures n <= |items| && Redirections(items[..n]) && (n < |items| ==> items[n].Arg?)
  {
    if items == [] || items[0].Arg? then 0 else
    assert forall k | 1 <= k < 1 + Leading(items[1..]) :: items[k] == items[1..][k - 1];
    1 + Leading(items[1..])
  }

  lemma {:induction false} FewerArgs(a: seq<Item>, b: seq<Item>)
    ensures |ArgsOf(a)| <= |ArgsOf(a + b)|
    decreases |b|
  {
    if b == [] {
      assert a + b == a;
    } else {
      var most := b[..|b| - 1];
      assert a + b == (a + most) + [b[|most|]];
      WrapOne(Exec([]), a + most, b[|most|]);
      FewerArgs(a, most);
    }
  }

  lemma ReadArg(s: string, i: int, more: seq<Item>, rest: seq<Terminal>)
    requires 0 <= i <= |s| && CString(s) && Rest(s, i) == ItemTokens(more) + rest && more != [] && more[0].Arg?
    ensures var t := Tok(s, i);
            t.kind == 'a' && more[0] == Arg(Span(t.q, t.eq)) && Rest(s, t.next) == ItemTokens(more[1..]) + rest
  {
    hide Tok, SkipSpace, Rest, ItemTokens;
    FrontTokens(more, rest);
    Ahead(s, i);
  }

  lemma NoRedir(items: seq<Item>, rest: seq<Terminal>)
    requires (items != [] ==> items[0].Arg?) && (rest == [] || Kind(rest) in "|)&;")
    ensures Kind(ItemTokens(items) + rest) !in "<>+"
  {
    if items == [] {
      assert ItemTokens(items) + rest == rest;
    } else {
      FrontTokens(items, rest);
    }
  }

  lemma RoundRead(s: string, i: int, done: seq<Item>, more: seq<Item>, rest: seq<Terminal>) returns (redirs: seq<Item>, after: seq<Item>)
    requires 0 <= i <= |s| && CString(s) && Words(s, Built(done)) && more != [] && more[0].Arg?
    requires Rest(s, i) == ItemTokens(more) + rest && (rest == [] || Kind(rest) in "|)&;")
    ensures more == [more[0]] + redirs + after && Redirections(redirs) && (after != [] ==> after[0].Arg?)
    ensures var t, now := Tok(s, i), done + [more[0]];
            && t.kind == 'a' && more[0] == Arg(Span(t.q, t.eq)) && Words(s, Built(now))
            && var r := Redirs(s, t.next, Built(now));
               r.Ok? && r.cmd == Wrapped(Exec(ArgsOf(now)), now + redirs) && Rest(s, r.pos) == ItemTokens(after) + rest
  {
    hide Tok, SkipSpace, Redirs, Words, Rest, Wrapped, ArgsOf, ItemTerminals, ItemTokens, Built, Kind;
    var t, now, n := Tok(s, i), done + [more[0]], Leading(more[1..]);
    redirs, after := more[1..][..n], more[1..][n..];
    ReadArg(s, i, more, rest);
    OneArg(s, i, done);
    assert more[1..] == redirs + after;
    ItemsJoin(redirs, after);
    assert Rest(s, t.next) == ItemTokens(redirs) + (ItemTokens(after) + rest);
    NoRedir(after, rest);
    RedirsRead(s, t.next, Exec(ArgsOf(now)), now, redirs, ItemTokens(after) + rest);
  }

  lemma {:induction false} ArgsRead(s: string, i: int, done: seq<Item>, more: seq<Item>, rest: seq<Terminal>)
    requires 0 <= i <= |s| && CString(s) && Words(s, Built(done)) && |ArgsOf(done + more)| < 10 && (more != [] ==> more[0].Arg?)
    requires Rest(s, i) == ItemTokens(more) + rest && (rest == [] || Kind(rest) in "|)&;")
    ensures var r := Args(s, i, Built(done), |ArgsOf(done)|); r.Ok? && r.cmd == Built(done + more) && Rest(s, r.pos) == rest
    decreases |more|
  {
    hide Tok, Peek, SkipSpace, Redirs, Args, Words, Rest, Wrapped, ArgsOf, ItemTerminals, ItemTokens, Built, Kind;
    if more == [] {
      ArgsStep(s, i, Built(done), |ArgsOf(done)|);
      Ahead(s, i);
      PeekKind(s, i, "|)&;");
      NoItems(rest);
      assert done + more == done;
      EndRest(s, i);
    } else {
      var redirs, after := RoundRead(s, i, done, more, rest);
      var t, now := Tok(s, i), done + [more[0]];
      ThenArgs(s, i, done, redirs);
      assert done + more == now + redirs + after;
      FewerArgs(now + redirs, after);
      ArgsRead(s, Redirs(s, t.next, Built(now)).pos, now + redirs, after, rest);
    }
  }

  // ---------------------------------------------------------------- the parser reads the grammar, and nothing else

  lemma {:induction false} CommandForm(s: string, i: int) returns (f: Form)
    requires 0 <= i <= |s| && CString(s) && ParseExec(s, i).Ok?
    ensures var r := ParseExec(s, i); IsCommand(f) && Tree(f) == r.cmd && Rest(s, i) == FormTokens(f) + Rest(s, r.pos)
    decreases |s| - i, 2
  {
    hide Tok, Peek, SkipSpace, Redirs, Args, Rest, ItemTokens, Kind;
    Ahead(s, i);
    PeekKind(s, i, "(");
    if Peek(s, i, "(") {
      f := BlockForm(s, i);
    } else {
      var r := Redirs(s, i, Exec([]));
      var redirs := RedirsForm(s, i, Exec([]), []);
      SameArgs([], redirs);
      assert [] + redirs == redirs;
      var more := ArgsForm(s, r.pos, redirs);
      f := Simple(redirs + more);
      ItemsJoin(redirs, more);
    }
  }

  lemma {:induction false} BlockForm(s: string, i: int) returns (f: Form)
    requires 0 <= i <= |s| && CString(s) && ParseBlock(s, i).Ok?
    ensures var r := ParseBlock(s, i); IsCommand(f) && Tree(f) == r.cmd && Rest(s, i) == FormTokens(f) + Rest(s, r.pos)
    decreases |s| - i, 1
  {
    hide Tok, Peek, SkipSpace, Redirs, Words, Rest, ItemTokens;
    var t := Tok(s, i);
    Ahead(s, i);
    PeekKind(s, i, "(");
    var body := LineForm(s, t.next);
    var l := ParseLine(s, t.next);
    Ahead(s, l.pos);
    PeekKind(s, l.pos, ")");
    var redirs := RedirsForm(s, Tok(s, l.pos).next, Tree(body), []);
    assert [] + redirs == redirs;
    f := Group(body, redirs);
  }

  lemma {:induction false} PipelineForm(s: string, i: int) returns (f: Form)
    requires 0 <= i <= |s| && CString(s) && ParsePipe(s, i).Ok?
    ensures var r := ParsePipe(s, i); IsPipeline(f) && Tree(f) == r.cmd && Rest(s, i) == FormTokens(f) + Rest(s, r.pos)
    decreases |s| - i, 3
  {
    hide Tok, Peek, SkipSpace, Words, Rest, ItemTokens;
    f := CommandForm(s, i);
    var x := ParseExec(s, i);
    PipeStep(s, i);
    Ahead(s, x.pos);
    PeekKind(s, x.pos, "|");
    if Peek(s, x.pos, "|") {
      var right := PipelineForm(s, Tok(s, x.pos).next);
      f := Piped(f, right);
    }
  }

  /** The loop over '&' goes on from a job that is read. */
  lemma {:induction false} JobForm(s: string, i: int, f: Form) returns (g: Form)
    requires 0 <= i <= |s| && CString(s) && IsJob(f) && Words(s, Tree(f))
    ensures var r := Backs(s, i, Tree(f)); IsJob(g) && Tree(g) == r.cmd && FormTokens(f) + Rest(s, i) == FormTokens(g) + Rest(s, r.pos)
    decreases |s| - i
  {
    hide Tok, Peek, SkipSpace, Words, Rest, ItemTokens, Backs;
    BacksStep(s, i, Tree(f));
    Ahead(s, i);
    PeekKind(s, i, "&");
    g := f;
    if Peek(s, i, "&") { g := JobForm(s, Tok(s, i).next, Behind(f)); }
  }

  lemma JobIsLine(f: Form)
    requires IsJob(f)
    ensures IsLine(f)
  {
    assert !f.Then? by { if f.Then? { assert !IsCommand(f); } }
  }

  lemma {:induction false} LineForm(s: string, i: int) returns (f: Form)
    requires 0 <= i <= |s| && CString(s) && ParseLine(s, i).Ok?
    ensures var r := ParseLine(s, i); IsLine(f) && Tree(f) == r.cmd && Rest(s, i) == FormTokens(f) + Rest(s, r.pos)
    decreases |s| - i, 4
  {
    hide Tok, Peek, SkipSpace, Words, Rest, ItemTokens, Backs;
    var p := ParsePipe(s, i);
    var b := Backs(s, p.pos, p.cmd);
    f := PipelineForm(s, i);
    f := JobForm(s, p.pos, f);
    JobIsLine(f);
    LineStep(s, i);
    Ahead(s, b.pos);
    PeekKind(s, b.pos, ";");
    if Peek(s, b.pos, ";") {
      var right := LineForm(s, Tok(s, b.pos).next);
      f := Then(f, right);
    }
  }

  /** What may follow a command, a pipeline, a job and a line. */
  predicate Stops(rest: seq<Terminal>, ends: string) { rest == [] || (rest[0].Sym? && rest[0].c in ends) }

  lemma {:induction false} SimpleRead(s: string, i: int, items: seq<Item>, rest: seq<Terminal>)
    requires 0 <= i <= |s| && CString(s) && |ArgsOf(items)| < 10 && Rest(s, i) == ItemTokens(items) + rest && Stops(rest, "|)&;")
    ensures var r := ParseExec(s, i); r.Ok? && r.cmd == Built(items) && Rest(s, r.pos) == rest
  {
    hide Tok, Peek, SkipSpace, Redirs, Args, Rest, ItemTokens, Wrapped, ArgsOf;
    var n := Leading(items);
    var redirs, more := items[..n], items[n..];
    assert items == redirs + more && [] + redirs == redirs;
    ItemsJoin(redirs, more);
    assert Rest(s, i) == ItemTokens(redirs) + (ItemTokens(more) + rest);
    NoRedir(more, rest);
    NoBlock(s, i, items, rest);
    assert Words(s, Exec([])) && Wrapped(Exec([]), []) == Exec([]) && ArgsOf([]) == [] by { NoneBuilt(); }
    RedirsRead(s, i, Exec([]), [], redirs, ItemTokens(more) + rest);
    SameArgs([], redirs);
    ArgsRead(s, Redirs(s, i, Exec([])).pos, redirs, more, rest);
  }

  lemma NoneBuilt()
    ensures Wrapped(Exec([]), []) == Exec([]) && ArgsOf([]) == []
  {
  }

  lemma NoBlock(s: string, i: int, items: seq<Item>, rest: seq<Terminal>)
    requires 0 <= i <= |s| && CString(s) && Rest(s, i) == ItemTokens(items) + rest && Stops(rest, "|)&;")
    ensures !Peek(s, i, "(")
  {
    hide Tok, Peek, SkipSpace, Rest;
    PeekKind(s, i, "(");
    if items == [] { NoItems(rest); } else { FrontTokens(items, rest); }
  }

  lemma {:induction false} CommandRead(s: string, i: int, f: Form, rest: seq<Terminal>)
    requires 0 <= i <= |s| && CString(s) && IsCommand(f) && Rest(s, i) == FormTokens(f) + rest && Stops(rest, "|)&;")
    ensures var r := ParseExec(s, i); r.Ok? && r.cmd == Tree(f) && Rest(s, r.pos) == rest
    decreases f, 0
  {
    hide Tok, Peek, SkipSpace, Redirs, Args, Rest, ItemTokens, Wrapped, ArgsOf, Words, ParseLine;
    if f.Simple? {
      SimpleRead(s, i, f.items, rest);
    } else {
      var t, last := Tok(s, i), ItemTokens(f.items) + rest;
      var inner := FormTokens(f.body) + ([Sym(')')] + last);
      assert Rest(s, i) == [Sym('(')] + inner;
      Ahead(s, i);
      PeekKind(s, i, "(");
      assert Rest(s, t.next) == inner;
      LineRead(s, t.next, f.body, [Sym(')')] + last);
      var l := ParseLine(s, t.next);
      Ahead(s, l.pos);
      PeekKind(s, l.pos, ")");
      assert [] + f.items == f.items;
      assert Wrapped(Tree(f.body), []) == Tree(f.body) by { WrapNone(Tree(f.body)); }
      RedirsRead(s, Tok(s, l.pos).next, Tree(f.body), [], f.items, rest);
    }
  }

  lemma WrapNone(c: Cmd<Span>)
    ensures Wrapped(c, []) == c
  {
  }

  lemma {:induction false} PipelineRead(s: string, i: int, f: Form, rest: seq<Terminal>)
    requires 0 <= i <= |s| && CString(s) && IsPipeline(f) && Rest(s, i) == FormTokens(f) + rest && Stops(rest, ")&;")
    ensures var r := ParsePipe(s, i); r.Ok? && r.cmd == Tree(f) && Rest(s, r.pos) == rest
    decreases f, 1
  {
    hide Tok, Peek, SkipSpace, Rest, ItemTokens, Wrapped, ArgsOf, Words, ParseExec;
    if !f.Piped? {
      CommandRead(s, i, f, rest);
    } else {
      assert Rest(s, i) == FormTokens(f.left) + ([Sym('|')] + (FormTokens(f.right) + rest));
      CommandRead(s, i, f.left, [Sym('|')] + (FormTokens(f.right) + rest));
    }
    PipeStep(s, i);
    var x := ParseExec(s, i);
    Ahead(s, x.pos);
    PeekKind(s, x.pos, "|");
    if f.Piped? { PipelineRead(s, Tok(s, x.pos).next, f.right, rest); }
  }

  /** The loop over '&' gets to the job, and goes on from there. */
  lemma {:induction false} JobRead(s: string, i: int, f: Form, rest: seq<Terminal>) returns (j: int)
    requires 0 <= i <= |s| && CString(s) && IsJob(f) && Rest(s, i) == FormTokens(f) + rest && Stops(rest, ")&;")
    ensures var p := ParsePipe(s, i);
            p.Ok? && 0 <= j <= |s| && Words(s, Tree(f)) && Backs(s, p.pos, p.cmd) == Backs(s, j, Tree(f)) && Rest(s, j) == rest
    decreases f, 2
  {
    hide Tok, Peek, SkipSpace, Rest, ItemTokens, Wrapped, ArgsOf, Words, ParsePipe, Backs;
    if !f.Behind? {
      PipelineRead(s, i, f, rest);
      j := ParsePipe(s, i).pos;
    } else {
      assert Rest(s, i) == FormTokens(f.body) + ([Sym('&')] + rest);
      var k := JobRead(s, i, f.body, [Sym('&')] + rest);
      BacksStep(s, k, Tree(f.body));
      Ahead(s, k);
      PeekKind(s, k, "&");
      j := Tok(s, k).next;
    }
  }

  lemma {:induction false} LineRead(s: string, i: int, f: Form, rest: seq<Terminal>)
    requires 0 <= i <= |s| && CString(s) && IsLine(f) && Rest(s, i) == FormTokens(f) + rest && Stops(rest, ")")
    ensures var r := ParseLine(s, i); r.Ok? && r.cmd == Tree(f) && Rest(s, r.pos) == rest
    decreases f, 3
  {
    hide Tok, Peek, SkipSpace, Rest, ItemTokens, Wrapped, ArgsOf, Words, ParsePipe, Backs;
    var j, job, after := 0, f, rest;
    if f.Then? {
      job, after := f.left, [Sym(';')] + (FormTokens(f.right) + rest);
      assert Rest(s, i) == FormTokens(job) + after;
    }
    j := JobRead(s, i, job, after);
    BacksStep(s, j, Tree(job));
    Ahead(s, j);
    PeekKind(s, j, "&");
    LineStep(s, i);
    var b := SkipSpace(s, j);
    Ahead(s, b);
    PeekKind(s, b, ";");
    if f.Then? { LineRead(s, Tok(s, b).next, f.right, rest); }
  }

  /** The line reads as this form. */
  ghost predicate Reads(s: string, f: Form) { IsLine(f) && exists xs :: Lexed(s, 0, xs) && Terminals(xs) == FormTokens(f) }

  lemma ReadsRest(s: string, f: Form)
    requires CString(s)
    ensures Reads(s, f) <==> IsLine(f) && Rest(s, 0) == FormTokens(f)
  {
    var ys := Scanned(s, 0);
    forall xs | Lexed(s, 0, xs) ensures xs == ys { LexedOnce(s, 0, xs, ys); }
  }

  /** The parser takes the lines of the grammar, and gives each the one tree that the grammar gives it. */
  lemma Language(s: string)
    requires CString(s)
    ensures ParseCmd(s).Ok? <==> exists f :: Reads(s, f)
    ensures forall f | Reads(s, f) :: ParseCmd(s) == Ok(Tree(f), |s|)
  {
    hide Reads, Rest, ParseLine, Tree, FormTokens, IsLine;
    var r := ParseLine(s, 0);
    if r.Ok? { Ahead(s, r.pos); AtEnd(s, r.pos); }
    forall f | Reads(s, f) ensures ParseCmd(s) == Ok(Tree(f), |s|) {
      ReadsRest(s, f);
      assert FormTokens(f) + [] == FormTokens(f);
      LineRead(s, 0, f, []);
    }
    if ParseCmd(s).Ok? {
      var f := LineForm(s, 0);
      assert FormTokens(f) + [] == FormTokens(f);
      ReadsRest(s, f);
    }
  }

  lemma AtEnd(s: string, i: int)
    requires 0 <= i <= |s| && CString(s)
    ensures SkipSpace(s, i) == |s| <==> Rest(s, i) == []
  {
  }
}
