/** What the shell's parser (sh.c) computes, as functions of the input line and a position in it. */
module ShellGrammar {
  import opened CStrings

  const MAXARGS: int := 10

  predicate IsSpace(c: char) { c == ' ' || c == '\t' || c == '\r' || c == '\n' || c == '\U{B}' }

  predicate IsSymbol(c: char) { c == '<' || c == '|' || c == '>' || c == '&' || c == ';' || c == '(' || c == ')' }

  /** A character of a word. */
  predicate Plain(c: char) { !IsSpace(c) && !IsSymbol(c) && c != NUL }

  // ---------------------------------------------------------------- command trees

  datatype Mode = In | Out | Append      // <, >, >>

  /** A command over words of type W: spans of the line, or strings. */
  datatype Cmd<W> =
    | Exec(args: seq<W>)
    | Redir(cmd: Cmd<W>, file: W, mode: Mode)
    | Pipe(left: Cmd<W>, right: Cmd<W>)
    | List(left: Cmd<W>, right: Cmd<W>)
    | Back(cmd: Cmd<W>)

  /** The token between pointers q and eq. */
  datatype Span = Span(q: int, eq: int)

  datatype Result = Ok(cmd: Cmd<Span>, pos: int) | Panic(msg: string)

  /** A span is a word of the line: plain characters, ended by another character or the end. */
  predicate IsWord(s: string, w: Span) {
    && 0 <= w.q < w.eq <= |s| && (forall i | w.q <= i < w.eq :: Plain(s[i]))
    && (w.eq < |s| ==> !Plain(s[w.eq]))
  }

  predicate Words(s: string, cmd: Cmd<Span>) {
    match cmd
    case Exec(args) => forall i | 0 <= i < |args| :: IsWord(s, args[i])
    case Redir(c, file, _) => Words(s, c) && IsWord(s, file)
    case Pipe(l, r) => Words(s, l) && Words(s, r)
    case List(l, r) => Words(s, l) && Words(s, r)
    case Back(c) => Words(s, c)
  }

  /** The words that the spans stand for. */
  function Read(s: string, cmd: Cmd<Span>): Cmd<string>
    requires Words(s, cmd)
  {
    match cmd
    case Exec(args) => Exec(ReadAll(s, args))
    case Redir(c, file, mode) => Redir(Read(s, c), s[file.q..file.eq], mode)
    case Pipe(l, r) => Pipe(Read(s, l), Read(s, r))
    case List(l, r) => List(Read(s, l), Read(s, r))
    case Back(c) => Back(Read(s, c))
  }

  function ReadAll(s: string, args: seq<Span>): (r: seq<string>)
    requires forall i | 0 <= i < |args| :: IsWord(s, args[i])
    ensures |r| == |args| && forall i | 0 <= i < |args| :: IsWord(s, args[i]) && r[i] == s[args[i].q..args[i].eq]
  {
    seq(|args|, i requires 0 <= i < |args| => assert IsWord(s, args[i]); s[args[i].q..args[i].eq])
  }

  // ---------------------------------------------------------------- tokens

  function SkipSpace(s: string, i: int): (r: int)
    requires 0 <= i <= |s|
    ensures i <= r <= |s| && (forall k | i <= k < r :: IsSpace(s[k])) && (r < |s| ==> !IsSpace(s[r]))
    decreases |s| - i
  {
    if i < |s| && IsSpace(s[i]) then SkipSpace(s, i + 1) else i
  }

  function WordEnd(s: string, i: int): (r: int)
    requires 0 <= i <= |s|
    ensures i <= r <= |s| && (forall k | i <= k < r :: !IsSpace(s[k]) && !IsSymbol(s[k])) && (r < |s| ==> IsSpace(s[r]) || IsSymbol(s[r]))
    decreases |s| - i
  {
    if i < |s| && !IsSpace(s[i]) && !IsSymbol(s[i]) then WordEnd(s, i + 1) else i
  }

  /** gettoken(): kind is the token's character, 'a' for a word, '+' for >>, NUL at the end. */
  datatype Token = Token(kind: char, q: int, eq: int, next: int)

  function Tok(s: string, i: int): (t: Token)
    requires 0 <= i <= |s| && CString(s)
    ensures i <= t.q <= t.eq <= t.next <= |s| && (t.kind != NUL ==> t.q < t.eq)
    ensures t.kind == 'a' ==> IsWord(s, Span(t.q, t.eq))
  {
    var q := SkipSpace(s, i);
    var c := CharAt(s, q);
    if c == NUL then Token(NUL, q, q, q)
    else if c == '>' then
      if CharAt(s, q + 1) == '>' then Token('+', q, q + 2, SkipSpace(s, q + 2)) else Token('>', q, q + 1, SkipSpace(s, q + 1))
    else if IsSymbol(c) then Token(c, q, q + 1, SkipSpace(s, q + 1))
    else
      var eq := WordEnd(s, q);
      Token('a', q, eq, SkipSpace(s, eq))
  }

  /** peek(): whether the next token begins with one of these characters. */
  predicate Peek(s: string, i: int, toks: string)
    requires 0 <= i <= |s|
  {
    var j := SkipSpace(s, i);
    j < |s| && s[j] in toks
  }

  lemma PeekTok(s: string, i: int, toks: string)
    requires 0 <= i <= |s| && CString(s) && Peek(s, i, toks)
    ensures Tok(s, i).kind != NUL && Tok(s, i).next > i
  {
  }

  // ---------------------------------------------------------------- the grammar

  ghost predicate Good(s: string, i: int, r: Result) { r.Ok? ==> i <= r.pos <= |s| && Words(s, r.cmd) }

  function ParseLine(s: string, i: int): (r: Result)
    requires 0 <= i <= |s| && CString(s)
    ensures Good(s, i, r)
    decreases |s| - i, 4
  {
    match ParsePipe(s, i)
    case Panic(m) => Panic(m)
    case Ok(c, j) =>
      var b := Backs(s, j, c);
      if !Peek(s, b.pos, ";") then Ok(b.cmd, SkipSpace(s, b.pos)) else
      PeekTok(s, b.pos, ";");
      match ParseLine(s, Tok(s, b.pos).next)
      case Panic(m) => Panic(m)
      case Ok(c', k) => Ok(List(b.cmd, c'), k)
  }

  /** The loop over '&' in parseline(). */
  function Backs(s: string, i: int, c: Cmd<Span>): (r: Result)
    requires 0 <= i <= |s| && CString(s) && Words(s, c)
    ensures r.Ok? && Good(s, i, r)
    decreases |s| - i
  {
    if !Peek(s, i, "&") then Ok(c, SkipSpace(s, i)) else
    PeekTok(s, i, "&");
    Backs(s, Tok(s, i).next, Back(c))
  }

  function ParsePipe(s: string, i: int): (r: Result)
    requires 0 <= i <= |s| && CString(s)
    ensures Good(s, i, r)
    decreases |s| - i, 3
  {
    match ParseExec(s, i)
    case Panic(m) => Panic(m)
    case Ok(c, j) =>
      if !Peek(s, j, "|") then Ok(c, SkipSpace(s, j)) else
      PeekTok(s, j, "|");
      match ParsePipe(s, Tok(s, j).next)
      case Panic(m) => Panic(m)
      case Ok(c', k) => Ok(Pipe(c, c'), k)
  }

  function ModeOf(kind: char): Mode { if kind == '<' then In else if kind == '>' then Out else Append }

  /** parseredirs() */
  function Redirs(s: string, i: int, c: Cmd<Span>): (r: Result)
    requires 0 <= i <= |s| && CString(s) && Words(s, c)
    ensures Good(s, i, r)
    decreases |s| - i
  {
    if !Peek(s, i, "<>") then Ok(c, SkipSpace(s, i)) else
    PeekTok(s, i, "<>");
    var t := Tok(s, i);
    var f := Tok(s, t.next);
    if f.kind != 'a' then Panic("missing file for redirection") else
    Redirs(s, f.next, Redir(c, Span(f.q, f.eq), ModeOf(t.kind)))
  }

  function ParseBlock(s: string, i: int): (r: Result)
    requires 0 <= i <= |s| && CString(s)
    ensures Good(s, i, r)
    decreases |s| - i, 1
  {
    if !Peek(s, i, "(") then Panic("parseblock") else
    PeekTok(s, i, "(");
    match ParseLine(s, Tok(s, i).next)
    case Panic(m) => Panic(m)
    case Ok(c, j) => if !Peek(s, j, ")") then Panic("syntax - missing )") else Redirs(s, Tok(s, j).next, c)
  }

  /** cmd->argv[argc] = q in the exec node that the redirections in `c` wrap. */
  function AddArg(c: Cmd<Span>, w: Span): Cmd<Span> {
    match c
    case Exec(args) => Exec(args + [w])
    case Redir(c', file, mode) => Redir(AddArg(c', w), file, mode)
    case _ => c
  }

  lemma {:induction false} AddArgWords(s: string, c: Cmd<Span>, w: Span)
    requires Words(s, c) && IsWord(s, w)
    ensures Words(s, AddArg(c, w))
  {
    if c.Redir? { AddArgWords(s, c.cmd, w); }
  }

  function ParseExec(s: string, i: int): (r: Result)
    requires 0 <= i <= |s| && CString(s)
    ensures Good(s, i, r)
    decreases |s| - i, 2
  {
    if Peek(s, i, "(") then ParseBlock(s, i) else
    match Redirs(s, i, Exec([]))
    case Panic(m) => Panic(m)
    case Ok(c, j) => Args(s, j, c, 0)
  }

  /** The loop over arguments in parseexec(). */
  function Args(s: string, i: int, c: Cmd<Span>, argc: int): (r: Result)
    requires 0 <= i <= |s| && CString(s) && Words(s, c)
    ensures Good(s, i, r)
    decreases |s| - i
  {
    if Peek(s, i, "|)&;") then Ok(c, SkipSpace(s, i)) else
    var t := Tok(s, i);
    if t.kind == NUL then Ok(c, t.next)
    else if t.kind != 'a' then Panic("syntax")
    else if argc + 1 >= MAXARGS then Panic("too many args")
    else
      AddArgWords(s, c, Span(t.q, t.eq));
      match Redirs(s, t.next, AddArg(c, Span(t.q, t.eq)))
      case Panic(m) => Panic(m)
      case Ok(c', j) => Args(s, j, c', argc + 1)
  }

  function ParseCmd(s: string): (r: Result)
    requires CString(s)
    ensures Good(s, 0, r) && (r.Ok? ==> r.pos == |s|)
  {
    match ParseLine(s, 0)
    case Panic(m) => Panic(m)
    case Ok(c, j) => if SkipSpace(s, j) != |s| then Panic("syntax") else Ok(c, |s|)
  }

  // ---------------------------------------------------------------- one step at a time

  lemma BacksStep(s: string, i: int, c: Cmd<Span>)
    requires 0 <= i <= |s| && CString(s) && Words(s, c)
    ensures Backs(s, i, c) == if Peek(s, i, "&") then Backs(s, Tok(s, i).next, Back(c)) else Ok(c, SkipSpace(s, i))
    ensures Words(s, Back(c))
  {
  }

  lemma RedirsStep(s: string, i: int, c: Cmd<Span>)
    requires 0 <= i <= |s| && CString(s) && Words(s, c)
    ensures var t := Tok(s, i);
            var f := Tok(s, t.next);
            if !Peek(s, i, "<>") then Redirs(s, i, c) == Ok(c, SkipSpace(s, i))
            else if f.kind != 'a' then Redirs(s, i, c) == Panic("missing file for redirection")
            else
              var c' := Redir(c, Span(f.q, f.eq), if t.kind == '<' then In else if t.kind == '>' then Out else Append);
              Words(s, c') && Redirs(s, i, c) == Redirs(s, f.next, c')
  {
  }

  lemma ArgsStep(s: string, i: int, c: Cmd<Span>, argc: int)
    requires 0 <= i <= |s| && CString(s) && Words(s, c)
    ensures var t := Tok(s, i);
            if Peek(s, i, "|)&;") then Args(s, i, c, argc) == Ok(c, SkipSpace(s, i))
            else if t.kind == NUL then Args(s, i, c, argc) == Ok(c, t.next)
            else if t.kind != 'a' then Args(s, i, c, argc) == Panic("syntax")
            else if argc + 1 >= MAXARGS then Args(s, i, c, argc) == Panic("too many args")
            else
              && Words(s, AddArg(c, Span(t.q, t.eq)))
              && var r := Redirs(s, t.next, AddArg(c, Span(t.q, t.eq)));
                 Args(s, i, c, argc) == if r.Panic? then r else Args(s, r.pos, r.cmd, argc + 1)
  {
    var t := Tok(s, i);
    if t.kind == 'a' { AddArgWords(s, c, Span(t.q, t.eq)); }
  }

  lemma LineStep(s: string, i: int)
    requires 0 <= i <= |s| && CString(s) && ParsePipe(s, i).Ok?
    ensures var p := ParsePipe(s, i);
            var b := Backs(s, p.pos, p.cmd);
            ParseLine(s, i)
            == if !Peek(s, b.pos, ";") then Ok(b.cmd, SkipSpace(s, b.pos))
               else var l := ParseLine(s, Tok(s, b.pos).next); if l.Panic? then l else Ok(List(b.cmd, l.cmd), l.pos)
  {
    hide ParsePipe, Backs, Peek, Tok, SkipSpace, Words;
  }

  lemma PipeStep(s: string, i: int)
    requires 0 <= i <= |s| && CString(s) && ParseExec(s, i).Ok?
    ensures var x := ParseExec(s, i);
            ParsePipe(s, i)
            == if !Peek(s, x.pos, "|") then Ok(x.cmd, SkipSpace(s, x.pos))
               else var p := ParsePipe(s, Tok(s, x.pos).next); if p.Panic? then p else Ok(Pipe(x.cmd, p.cmd), p.pos)
  {
    hide ParseExec, Peek, Tok, SkipSpace, Words;
  }
}
