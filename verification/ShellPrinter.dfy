/** Printing command trees so that the shell's parser reads them back. */
module ShellPrinter {
  import opened CStrings
  import opened ShellGrammar

  /** What can be printed: words are plain and not empty, and commands have at most 9 of them. */
  predicate PlainWord(w: string) { w != [] && forall i | 0 <= i < |w| :: Plain(w[i]) }

  predicate Printable(t: Cmd<string>) {
    match t
    case Exec(args) => |args| < MAXARGS && forall i | 0 <= i < |args| :: PlainWord(args[i])
    case Redir(c, file, _) => Printable(c) && PlainWord(file)
    case Pipe(l, r) => Printable(l) && Printable(r)
    case List(l, r) => Printable(l) && Printable(r)
    case Back(c) => Printable(c)
  }

  function PrintWords(ws: seq<string>): string {
    if ws == [] then "" else if |ws| == 1 then ws[0] else ws[0] + " " + PrintWords(ws[1..])
  }

  function Operator(mode: Mode): string {
    match mode
    case In => "<"
    case Out => ">"
    case Append => ">>"
  }

  /** The canonical form: every operand in parentheses. */
  function Print(t: Cmd<string>): string
    decreases t, 0
  {
    match t
    case Exec(args) => PrintWords(args)
    case Redir(c, file, mode) => Block(c) + Operator(mode) + file
    case Pipe(l, r) => Block(l) + "|" + Block(r)
    case List(l, r) => Block(l) + ";" + Block(r)
    case Back(c) => Block(c) + "&"
  }

  function Block(t: Cmd<string>): string
    decreases t, 1
  {
    "(" + Print(t) + ")"
  }

  // ---------------------------------------------------------------- places in the line

  /** p stands at position i of s. */
  ghost predicate At(s: string, i: int, p: string) {
    0 <= i && i + |p| <= |s| && forall k | 0 <= k < |p| :: s[i + k] == p[k]
  }

  lemma AtSplit(s: string, i: int, p: string, q: string)
    requires At(s, i, p + q)
    ensures At(s, i, p) && At(s, i + |p|, q)
  {
    forall k | 0 <= k < |p| ensures s[i + k] == p[k] { assert (p + q)[k] == p[k]; }
    forall k | 0 <= k < |q| ensures s[i + |p| + k] == q[k] { assert (p + q)[|p| + k] == q[k]; assert s[i + (|p| + k)] == q[k]; }
  }

  lemma AtFirst(s: string, i: int, p: string)
    requires At(s, i, p) && p != []
    ensures 0 <= i < |s| && s[i] == p[0]
  {
    assert s[i + 0] == p[0];
  }

  /** A block in its parentheses. */
  lemma BlockAt(s: string, i: int, t: Cmd<string>)
    requires At(s, i, Block(t))
    ensures var e := i + 1 + |Print(t)|;
            && |Block(t)| == |Print(t)| + 2 && 0 <= i && e < |s| && s[i] == '(' && s[e] == ')' && At(s, i + 1, Print(t))
  {
    assert Block(t) == "(" + (Print(t) + ")");
    AtSplit(s, i, "(", Print(t) + ")");
    AtSplit(s, i + 1, Print(t), ")");
    AtFirst(s, i, "(");
    AtFirst(s, i + 1 + |Print(t)|, ")");
  }

  /** Two blocks and the operator between them. */
  lemma PairAt(s: string, i: int, l: Cmd<string>, op: string, r: Cmd<string>)
    requires At(s, i, Block(l) + op + Block(r)) && |op| == 1
    ensures var j := i + |Block(l)|;
            && At(s, i, Block(l)) && 0 <= i <= j && j + 1 < |s| && s[j] == op[0] && s[j + 1] == '(' && At(s, j + 1, Block(r))
            && j + 1 + |Block(r)| == i + |Block(l) + op + Block(r)| && |Block(l)| > 0 && |Block(r)| > 0
  {
    var a, b := Block(l), Block(r);
    assert b[0] == '(';
    hide Block;
    AtSplit(s, i, a + op, b);
    AtSplit(s, i, a, op);
    AtFirst(s, i + |a|, op);
    AtFirst(s, i + |a| + 1, b);
  }

  /** The end of the line, or a closing parenthesis. */
  predicate Stops(s: string, e: int) { 0 <= e <= |s| && (e == |s| || s[e] == ')') }

  lemma SkipNone(s: string, i: int)
    requires 0 <= i <= |s| && (i < |s| ==> !IsSpace(s[i]))
    ensures SkipSpace(s, i) == i
  {
  }

  /** A one-character token other than '>'. */
  lemma SymbolTok(s: string, i: int, c: char)
    requires CString(s) && 0 <= i < |s| && s[i] == c && IsSymbol(c) && c != '>' && (i + 1 < |s| ==> !IsSpace(s[i + 1]))
    ensures Tok(s, i) == Token(c, i, i + 1, i + 1) && forall toks :: Peek(s, i, toks) <==> c in toks
  {
    SkipNone(s, i);
    SkipNone(s, i + 1);
  }

  lemma {:induction false} WordEndIs(s: string, i: int, w: string)
    requires At(s, i, w) && (forall k | 0 <= k < |w| :: Plain(w[k])) && (i + |w| < |s| ==> IsSpace(s[i + |w|]) || IsSymbol(s[i + |w|]))
    ensures WordEnd(s, i) == i + |w|
    decreases |w|
  {
    if w != [] {
      assert s[i + 0] == w[0];
      var w' := w[1..];
      forall k | 0 <= k < |w'| ensures s[i + 1 + k] == w'[k] { assert s[i + (k + 1)] == w[k + 1]; }
      WordEndIs(s, i + 1, w');
    }
  }

  /** A word token, followed by at most one space. */
  lemma WordTok(s: string, i: int, w: string)
    requires CString(s) && At(s, i, w) && PlainWord(w)
    requires var e := i + |w|; e == |s| || IsSymbol(s[e]) || (s[e] == ' ' && e + 1 < |s| && !IsSpace(s[e + 1]))
    ensures var e := i + |w|;
            && Tok(s, i) == Token('a', i, e, if e < |s| && s[e] == ' ' then e + 1 else e)
            && IsWord(s, Span(i, e)) && s[i..e] == w
    ensures forall toks | (forall c | c in toks :: IsSymbol(c)) :: !Peek(s, i, toks)
  {
    AtFirst(s, i, w);
    SkipNone(s, i);
    WordEndIs(s, i, w);
    var e := i + |w|;
    if e < |s| && s[e] == ' ' { SkipNone(s, e + 1); } else { SkipNone(s, e); }
    forall k | i <= k < e ensures s[k] == w[k - i] && Plain(s[k]) { assert s[i + (k - i)] == w[k - i]; }
  }

  lemma NoPeek(s: string, e: int, toks: string)
    requires CString(s) && 0 <= e <= |s| && (e == |s| || (!IsSpace(s[e]) && s[e] !in toks))
    ensures !Peek(s, e, toks) && SkipSpace(s, e) == e
  {
    SkipNone(s, e);
  }

  // ---------------------------------------------------------------- simple commands

  /** The spans are the words ws of the line. */
  ghost predicate SpansAre(s: string, spans: seq<Span>, ws: seq<string>) {
    |spans| == |ws| && forall k | 0 <= k < |ws| :: IsWord(s, spans[k]) && s[spans[k].q..spans[k].eq] == ws[k]
  }

  lemma {:induction false} ArgsPrinted(s: string, i: int, ws: seq<string>, args: seq<Span>) returns (spans: seq<Span>)
    requires CString(s) && At(s, i, PrintWords(ws)) && Stops(s, i + |PrintWords(ws)|) && |args| + |ws| < MAXARGS
    requires (forall k | 0 <= k < |ws| :: PlainWord(ws[k])) && Words(s, Exec(args))
    ensures SpansAre(s, spans, ws) && Args(s, i, Exec(args), |args|) == Ok(Exec(args + spans), i + |PrintWords(ws)|)
    decreases |ws|
  {
    hide PrintWords, Args, Tok, Peek, SkipSpace, At, SpansAre, IsWord, PlainWord;
    if ws == [] {
      spans := [];
      NoSpans(s);
      NoWords(s, i, args);
      assert args + spans == args;
    } else {
      var span, next;
      span, next := FirstArg(s, i, ws, args);
      var rest;
      rest := ArgsPrinted(s, next, ws[1..], args + [span]);
      spans := [span] + rest;
      assert args + [span] + rest == args + spans;
      MoreSpans(s, span, rest, ws);
    }
  }

  /** The first word becomes an argument; the others are next. */
  lemma FirstArg(s: string, i: int, ws: seq<string>, args: seq<Span>) returns (span: Span, next: int)
    requires ws != [] && CString(s) && At(s, i, PrintWords(ws)) && Stops(s, i + |PrintWords(ws)|) && |args| + |ws| < MAXARGS
    requires (forall k | 0 <= k < |ws| :: PlainWord(ws[k])) && Words(s, Exec(args))
    ensures IsWord(s, span) && s[span.q..span.eq] == ws[0] && Words(s, Exec(args + [span])) && 0 <= i <= next <= |s|
    ensures At(s, next, PrintWords(ws[1..])) && next + |PrintWords(ws[1..])| == i + |PrintWords(ws)|
    ensures Args(s, i, Exec(args), |args|) == Args(s, next, Exec(args + [span]), |args + [span]|)
  {
    hide PrintWords, Args, Tok, Peek, SkipSpace, At, IsWord;
    FirstWord(s, i, ws);
    var e := i + |ws[0]|;
    span, next := Span(i, e), if |ws| == 1 then e else e + 1;
    OneArg(s, i, ws[0], next, args);
  }

  lemma NoWords(s: string, i: int, args: seq<Span>)
    requires CString(s) && Stops(s, i) && Words(s, Exec(args))
    ensures PrintWords([]) == [] && Args(s, i, Exec(args), |args|) == Ok(Exec(args), i)
  {
    SkipNone(s, i);
  }

  lemma NoSpans(s: string)
    ensures SpansAre(s, [], []) && PrintWords([]) == []
  {
  }

  lemma MoreSpans(s: string, span: Span, rest: seq<Span>, ws: seq<string>)
    requires ws != [] && IsWord(s, span) && s[span.q..span.eq] == ws[0] && SpansAre(s, rest, ws[1..])
    ensures SpansAre(s, [span] + rest, ws)
  {
    forall k | 0 <= k < |ws| ensures IsWord(s, ([span] + rest)[k]) && s[([span] + rest)[k].q..([span] + rest)[k].eq] == ws[k] {
      if k > 0 { assert ws[k] == ws[1..][k - 1] && ([span] + rest)[k] == rest[k - 1]; }
    }
  }

  /** One round of parseexec()'s loop, at a word that no redirection follows. */
  lemma OneArg(s: string, i: int, w: string, next: int, args: seq<Span>)
    requires CString(s) && At(s, i, w) && PlainWord(w) && Words(s, Exec(args)) && |args| + 1 < MAXARGS
    requires var e := i + |w|;
             if next == e then Stops(s, e) else next == e + 1 && e + 1 < |s| && s[e] == ' ' && Plain(s[e + 1])
    ensures var span := Span(i, i + |w|);
            && IsWord(s, span) && s[i..i + |w|] == w && Words(s, Exec(args + [span])) && 0 <= i <= next <= |s|
            && Args(s, i, Exec(args), |args|) == Args(s, next, Exec(args + [span]), |args + [span]|)
  {
    hide Tok, Peek, SkipSpace, Args, Redirs, Words;
    WordTok(s, i, w);
    var span := Span(i, i + |w|);
    assert AddArg(Exec(args), span) == Exec(args + [span]);
    AddArgWords(s, Exec(args), span);
    RedirsNone(s, next, Exec(args + [span]));
    ArgsStep(s, i, Exec(args), |args|);
  }

  /** The first word, and what follows it. */
  lemma FirstWord(s: string, i: int, ws: seq<string>)
    requires ws != [] && At(s, i, PrintWords(ws)) && Stops(s, i + |PrintWords(ws)|) && forall k | 0 <= k < |ws| :: PlainWord(ws[k])
    ensures At(s, i, ws[0])
    ensures var e := i + |ws[0]|;
            if |ws| == 1 then
              Stops(s, e) && e == i + |PrintWords(ws)| && PrintWords(ws[1..]) == [] && At(s, e, PrintWords(ws[1..]))
            else
              && e + 1 < |s| && s[e] == ' ' && Plain(s[e + 1]) && At(s, e + 1, PrintWords(ws[1..]))
              && e + 1 + |PrintWords(ws[1..])| == i + |PrintWords(ws)|
  {
    var w, rest := ws[0], PrintWords(ws[1..]);
    if |ws| > 1 {
      assert PrintWords(ws) == w + (" " + rest);
      AtSplit(s, i, w, " " + rest);
      AtSplit(s, i + |w|, " ", rest);
      AtFirst(s, i + |w|, " ");
      WordsStart(ws[1..]);
      AtFirst(s, i + |w| + 1, rest);
    }
  }

  lemma WordsStart(ws: seq<string>)
    requires ws != [] && forall k | 0 <= k < |ws| :: PlainWord(ws[k])
    ensures PrintWords(ws) != [] && Plain(PrintWords(ws)[0])
  {
  }

  // ---------------------------------------------------------------- the round trip

  /** A printed command does not begin with a space. */
  lemma StartsWell(t: Cmd<string>)
    requires Printable(t)
    ensures Print(t) != [] ==> !IsSpace(Print(t)[0])
    ensures t.Exec? && Print(t) != [] ==> Plain(Print(t)[0])
  {
    if t.Exec? && t.args != [] { WordsStart(t.args); }
  }

  lemma Starts(s: string, i: int, t: Cmd<string>)
    requires Printable(t) && At(s, i, Print(t)) && Stops(s, i + |Print(t)|)
    ensures i < |s| ==> !IsSpace(s[i])
    ensures t.Exec? && i < |s| ==> Plain(s[i]) || s[i] == ')'
  {
    StartsWell(t);
    if Print(t) != [] { AtFirst(s, i, Print(t)); }
  }

  /** A block is read as its command, and then its redirections. */
  lemma {:induction false} BlockPrinted(s: string, i: int, t: Cmd<string>) returns (cmd: Cmd<Span>)
    requires CString(s) && Printable(t) && At(s, i, Block(t))
    requires var e := i + |Block(t)|; e < |s| ==> !IsSpace(s[e])
    ensures Words(s, cmd) && Read(s, cmd) == t && ParseExec(s, i) == Redirs(s, i + |Block(t)|, cmd)
    decreases t, 1
  {
    hide Print, Block, Printable, Read, Words, ParseExec, ParseLine, Redirs, Tok, Peek;
    BlockAt(s, i, t);
    var e := i + 1 + |Print(t)|;
    Starts(s, i + 1, t);
    SymbolTok(s, i, '(');
    SymbolTok(s, e, ')');
    cmd := LinePrinted(s, i + 1, t);
    BlockIs(s, i, e, cmd);
  }

  lemma BlockIs(s: string, i: int, e: int, cmd: Cmd<Span>)
    requires CString(s) && 0 <= i && i + 1 <= e < |s| && Words(s, cmd) && ParseLine(s, i + 1) == Ok(cmd, e)
    requires Peek(s, i, "(") && Tok(s, i).next == i + 1 && Peek(s, e, ")") && Tok(s, e).next == e + 1
    ensures ParseExec(s, i) == Redirs(s, e + 1, cmd)
  {
    hide ParseLine, Tok, Peek, Redirs, Words;
  }

  /** From the end of a printed command, parsepipe() and parseline() have nothing more to read. */
  lemma LineEnds(s: string, i: int, e: int, cmd: Cmd<Span>)
    requires CString(s) && 0 <= i <= e && Stops(s, e) && Words(s, cmd) && ParseExec(s, i) == Ok(cmd, e)
    ensures ParseLine(s, i) == Ok(cmd, e) && ParsePipe(s, i) == Ok(cmd, e)
  {
    hide ParseExec, ParsePipe, ParseLine, Words, Backs, Tok, Peek, SkipSpace;
    NoPeek(s, e, "|");
    PipeStep(s, i);
    LineRest(s, i, e, cmd, cmd, e);
  }

  /** The end of parseline(): at e there is neither '&' nor ';' left. */
  lemma LineRest(s: string, i: int, j: int, c: Cmd<Span>, cmd: Cmd<Span>, e: int)
    requires CString(s) && 0 <= i <= j <= e && Stops(s, e) && Words(s, c) && Words(s, cmd) && ParsePipe(s, i) == Ok(c, j)
    requires Backs(s, j, c) == Backs(s, e, cmd)
    ensures ParseLine(s, i) == Ok(cmd, e)
  {
    hide ParsePipe, ParseLine, Words, Backs, Tok, Peek, SkipSpace;
    NoPeek(s, e, "&");
    NoPeek(s, e, ";");
    BacksStep(s, e, cmd);
    LineStep(s, i);
  }

  lemma PrintIs(l: Cmd<string>, r: Cmd<string>)
    ensures Print(Pipe(l, r)) == Block(l) + "|" + Block(r) && Print(List(l, r)) == Block(l) + ";" + Block(r)
    ensures Print(Back(l)) == Block(l) + "&"
  {
  }

  /** Round trip, within a line: a printed command is read as the same command. */
  lemma {:induction false} LinePrinted(s: string, i: int, t: Cmd<string>) returns (cmd: Cmd<Span>)
    requires CString(s) && Printable(t) && At(s, i, Print(t)) && Stops(s, i + |Print(t)|)
    ensures Words(s, cmd) && Read(s, cmd) == t && ParseLine(s, i) == Ok(cmd, i + |Print(t)|)
    decreases t, 0
  {
    match t
    case Exec(ws) => cmd := ExecPrinted(s, i, ws);
    case Redir(c, file, mode) => cmd := RedirPrinted(s, i, c, file, mode);
    case Pipe(l, r) => cmd := PipePrinted(s, i, l, r);
    case List(l, r) => cmd := ListPrinted(s, i, l, r);
    case Back(c) => cmd := BackPrinted(s, i, c);
  }

  lemma {:induction false} PipePrinted(s: string, i: int, l: Cmd<string>, r: Cmd<string>) returns (cmd: Cmd<Span>)
    requires CString(s) && Printable(l) && Printable(r) && At(s, i, Print(Pipe(l, r))) && Stops(s, i + |Print(Pipe(l, r))|)
    ensures Words(s, cmd) && Read(s, cmd) == Pipe(l, r) && ParseLine(s, i) == Ok(cmd, i + |Print(Pipe(l, r))|)
    decreases Pipe(l, r), -1
  {
    hide Print, Block, Printable, ParseExec, ParseLine, Redirs, Words, Read, At;
    PrintIs(l, r);
    PairAt(s, i, l, "|", r);
    var j := i + |Block(l)|;
    var c1, c2;
    c1 := BlockPrinted(s, i, l);
    c2 := BlockPrinted(s, j + 1, r);
    ReadPair(s, c1, c2);
    PipeEnds(s, i, j, j + 1 + |Block(r)|, c1, c2);
    cmd := Pipe(c1, c2);
  }

  lemma {:induction false} ListPrinted(s: string, i: int, l: Cmd<string>, r: Cmd<string>) returns (cmd: Cmd<Span>)
    requires CString(s) && Printable(l) && Printable(r) && At(s, i, Print(List(l, r))) && Stops(s, i + |Print(List(l, r))|)
    ensures Words(s, cmd) && Read(s, cmd) == List(l, r) && ParseLine(s, i) == Ok(cmd, i + |Print(List(l, r))|)
    decreases List(l, r), -1
  {
    hide Print, Block, Printable, ParseExec, ParseLine, Redirs, Words, Read, At;
    PrintIs(l, r);
    PairAt(s, i, l, ";", r);
    var j := i + |Block(l)|;
    var c1, c2;
    c1 := BlockPrinted(s, i, l);
    c2 := BlockPrinted(s, j + 1, r);
    ReadPair(s, c1, c2);
    ListEnds(s, i, j, j + 1 + |Block(r)|, c1, c2);
    cmd := List(c1, c2);
  }

  lemma {:induction false} BackPrinted(s: string, i: int, c: Cmd<string>) returns (cmd: Cmd<Span>)
    requires CString(s) && Printable(c) && At(s, i, Print(Back(c))) && Stops(s, i + |Print(Back(c))|)
    ensures Words(s, cmd) && Read(s, cmd) == Back(c) && ParseLine(s, i) == Ok(cmd, i + |Print(Back(c))|)
    decreases c, 2
  {
    hide Print, Block, Printable, ParseExec, ParseLine, Redirs, Words, Read, At;
    PrintIs(c, c);
    AtSplit(s, i, Block(c), "&");
    var j := i + |Block(c)|;
    AtFirst(s, j, "&");
    var c1;
    c1 := BlockPrinted(s, i, c);
    ReadPair(s, c1, c1);
    BackEnds(s, i, j, c1);
    cmd := Back(c1);
  }

  lemma ExecPrinted(s: string, i: int, ws: seq<string>) returns (cmd: Cmd<Span>)
    requires CString(s) && Printable(Exec(ws)) && At(s, i, PrintWords(ws)) && Stops(s, i + |PrintWords(ws)|)
    ensures Words(s, cmd) && Read(s, cmd) == Exec(ws) && ParseLine(s, i) == Ok(cmd, i + |PrintWords(ws)|)
  {
    assert Print(Exec(ws)) == PrintWords(ws);
    Starts(s, i, Exec(ws));
    NoPeek(s, i, "(");
    RedirsNone(s, i, Exec([]));
    var spans;
    spans := ArgsPrinted(s, i, ws, []);
    assert [] + spans == spans;
    cmd := Exec(spans);
    assert ReadAll(s, spans) == ws;
    hide Args, Redirs, PrintWords, Tok, Peek, ParseLine, ParsePipe;
    assert ParseExec(s, i) == Ok(cmd, i + |PrintWords(ws)|);
    LineEnds(s, i, i + |PrintWords(ws)|, cmd);
  }

  lemma RedirsNone(s: string, e: int, cmd: Cmd<Span>)
    requires CString(s) && 0 <= e <= |s| && Words(s, cmd) && (e == |s| || (!IsSpace(s[e]) && s[e] != '<' && s[e] != '>'))
    ensures Redirs(s, e, cmd) == Ok(cmd, e)
  {
    NoPeek(s, e, "<>");
  }

  lemma {:induction false} RedirPrinted(s: string, i: int, c: Cmd<string>, file: string, mode: Mode) returns (cmd: Cmd<Span>)
    requires CString(s) && Printable(c) && PlainWord(file) && At(s, i, Block(c) + Operator(mode) + file)
    requires Stops(s, i + |Block(c) + Operator(mode) + file|)
    ensures Words(s, cmd) && Read(s, cmd) == Redir(c, file, mode) && ParseLine(s, i) == Ok(cmd, i + |Block(c) + Operator(mode) + file|)
    decreases c, 2
  {
    hide Block, Printable, ParseExec, ParseLine, Redirs, Tok, Peek, IsWord, At;
    AtSplit(s, i, Block(c) + Operator(mode), file);
    AtSplit(s, i, Block(c), Operator(mode));
    var j := i + |Block(c)|;
    var k := j + |Operator(mode)|;
    var e := k + |file|;
    AtFirst(s, j, Operator(mode));
    var c1;
    c1 := BlockPrinted(s, i, c);
    OperatorTok(s, j, mode, file);
    WordTok(s, k, file);
    cmd := Redir(c1, Span(k, e), mode);
    RedirsNone(s, e, cmd);
    OneRedir(s, j, k, e, c1, mode);
    LineEnds(s, i, e, cmd);
  }

  lemma OneRedir(s: string, j: int, k: int, e: int, c1: Cmd<Span>, mode: Mode)
    requires CString(s) && 0 <= j < k < e <= |s| && Words(s, c1) && IsWord(s, Span(k, e))
    requires Peek(s, j, "<>") && Tok(s, j).next == k && ModeOf(Tok(s, j).kind) == mode && Tok(s, k) == Token('a', k, e, e)
    ensures Words(s, Redir(c1, Span(k, e), mode)) && Redirs(s, j, c1) == Redirs(s, e, Redir(c1, Span(k, e), mode))
  {
    hide Tok, Peek, SkipSpace;
  }

  /** The operators <, > and >>, before a word. */
  lemma OperatorTok(s: string, j: int, mode: Mode, file: string)
    requires CString(s) && PlainWord(file) && At(s, j, Operator(mode)) && At(s, j + |Operator(mode)|, file)
    ensures Peek(s, j, "<>") && Tok(s, j).next == j + |Operator(mode)| && ModeOf(Tok(s, j).kind) == mode
  {
    var op := Operator(mode);
    AtFirst(s, j, op);
    AtFirst(s, j + |op|, file);
    assert mode.Append? ==> s[j + 1] == op[1];
    SkipNone(s, j);
    SkipNone(s, j + |op|);
  }

  lemma ReadPair(s: string, c1: Cmd<Span>, c2: Cmd<Span>)
    requires Words(s, c1) && Words(s, c2)
    ensures Words(s, Pipe(c1, c2)) && Words(s, List(c1, c2)) && Words(s, Back(c1))
    ensures Read(s, Pipe(c1, c2)) == Pipe(Read(s, c1), Read(s, c2)) && Read(s, List(c1, c2)) == List(Read(s, c1), Read(s, c2))
    ensures Read(s, Back(c1)) == Back(Read(s, c1))
  {
  }

  lemma PipeEnds(s: string, i: int, j: int, e: int, c1: Cmd<Span>, c2: Cmd<Span>)
    requires CString(s) && 0 <= i <= j && j + 1 < e && Stops(s, e) && s[j] == '|' && s[j + 1] == '(' && Words(s, c1) && Words(s, c2)
    requires ParseExec(s, i) == Redirs(s, j, c1) && ParseExec(s, j + 1) == Redirs(s, e, c2)
    ensures ParseLine(s, i) == Ok(Pipe(c1, c2), e)
  {
    hide ParseExec, ParsePipe, ParseLine, Words, Redirs, Read, Backs, Tok, Peek;
    ReadPair(s, c1, c2);
    RedirsNone(s, j, c1);
    RedirsNone(s, e, c2);
    LineEnds(s, j + 1, e, c2);
    SymbolTok(s, j, '|');
    PipeStep(s, i);
    LineRest(s, i, e, Pipe(c1, c2), Pipe(c1, c2), e);
  }

  lemma ListEnds(s: string, i: int, j: int, e: int, c1: Cmd<Span>, c2: Cmd<Span>)
    requires CString(s) && 0 <= i <= j && j + 1 < e && Stops(s, e) && s[j] == ';' && s[j + 1] == '(' && Words(s, c1) && Words(s, c2)
    requires ParseExec(s, i) == Redirs(s, j, c1) && ParseExec(s, j + 1) == Redirs(s, e, c2)
    ensures ParseLine(s, i) == Ok(List(c1, c2), e)
  {
    hide ParseExec, ParsePipe, ParseLine, Words, Redirs, Backs, Tok, Peek;
    RedirsNone(s, j, c1);
    RedirsNone(s, e, c2);
    LineEnds(s, j + 1, e, c2);
    SymbolTok(s, j, ';');
    NoPeek(s, j, "|");
    PipeStep(s, i);
    NoPeek(s, j, "&");
    BacksStep(s, j, c1);
    LineStep(s, i);
  }

  lemma BackEnds(s: string, i: int, j: int, c1: Cmd<Span>)
    requires CString(s) && 0 <= i <= j < |s| && Stops(s, j + 1) && s[j] == '&' && Words(s, c1) && ParseExec(s, i) == Redirs(s, j, c1)
    ensures ParseLine(s, i) == Ok(Back(c1), j + 1)
  {
    hide ParseExec, ParsePipe, ParseLine, Words, Redirs, Backs, Tok, Peek;
    RedirsNone(s, j, c1);
    NoPeek(s, j, "|");
    PipeStep(s, i);
    SymbolTok(s, j, '&');
    BacksStep(s, j, c1);
    LineRest(s, i, j, c1, Back(c1), j + 1);
  }

  lemma WordChars(w: string)
    requires PlainWord(w)
    ensures CString(w)
  {
  }

  /** Printed commands have no NUL in them. */
  lemma {:induction false} PrintChars(t: Cmd<string>)
    requires Printable(t)
    ensures CString(Print(t))
    decreases t
  {
    match t
    case Exec(ws) => WordsChars(ws);
    case Redir(c, file, mode) => PrintChars(c); WordChars(file);
    case Pipe(l, r) => PrintChars(l); PrintChars(r);
    case List(l, r) => PrintChars(l); PrintChars(r);
    case Back(c) => PrintChars(c);
  }

  lemma {:induction false} WordsChars(ws: seq<string>)
    requires forall k | 0 <= k < |ws| :: PlainWord(ws[k])
    ensures CString(PrintWords(ws))
    decreases |ws|
  {
    if ws != [] {
      WordChars(ws[0]);
      WordsChars(ws[1..]);
    }
  }

  /** Round trip: parsing a printed command yields the command. */
  lemma RoundTrip(t: Cmd<string>)
    requires Printable(t)
    ensures CString(Print(t))
    ensures var r := ParseCmd(Print(t)); r.Ok? && Words(Print(t), r.cmd) && Read(Print(t), r.cmd) == t
  {
    hide ParseLine, Print, Printable;
    PrintChars(t);
    var cmd;
    cmd := LinePrinted(Print(t), 0, t);
    SkipNone(Print(t), |Print(t)|);
  }
}
