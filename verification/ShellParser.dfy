/** The shell's parser as sh.c has it: a cursor moved by loops and recursion, then in-place NUL termination. */
module ShellParser {
  import opened CStrings
  import opened ShellGrammar

  class Parser {
    const s: string
    var pos: int                // *ps

    ghost predicate Valid()
      reads this
    {
      0 <= pos <= |s| && CString(s)
    }

    constructor (s: string)
      requires CString(s)
      ensures this.s == s && pos == 0 && Valid()
    {
      this.s, pos := s, 0;
    }

    method Skip()
      requires Valid()
      modifies this
      ensures Valid() && pos == SkipSpace(s, old(pos))
    {
      while pos < |s| && IsSpace(s[pos])
        invariant Valid() && old(pos) <= pos && SkipSpace(s, pos) == SkipSpace(s, old(pos))
      {
        pos := pos + 1;
      }
    }

    method GetToken() returns (t: Token)
      requires Valid()
      modifies this
      ensures Valid() && t == Tok(s, old(pos)) && pos == t.next
    {
      Skip();
      var q := pos;
      var kind := CharAt(s, pos);
      if kind == NUL {
      } else if kind == '|' || kind == '(' || kind == ')' || kind == ';' || kind == '&' || kind == '<' {
        pos := pos + 1;
      } else if kind == '>' {
        pos := pos + 1;
        if CharAt(s, pos) == '>' {
          kind := '+';
          pos := pos + 1;
        }
      } else {
        kind := 'a';
        while pos < |s| && !IsSpace(s[pos]) && !IsSymbol(s[pos])
          invariant Valid() && q <= pos && WordEnd(s, pos) == WordEnd(s, q)
        {
          pos := pos + 1;
        }
      }
      var eq := pos;
      Skip();
      t := Token(kind, q, eq, pos);
    }

    method PeekFor(toks: string) returns (b: bool)
      requires Valid()
      modifies this
      ensures Valid() && pos == SkipSpace(s, old(pos)) && b == Peek(s, old(pos), toks)
    {
      Skip();
      b := CharAt(s, pos) != NUL && CharAt(s, pos) in toks;
    }

    /** parsecmd(), up to nulterminate(). */
    method Parse() returns (r: Result)
      requires Valid() && pos == 0
      modifies this
      ensures r == ParseCmd(s)
    {
      r := Line();
      if r.Panic? { return; }
      var b := PeekFor("");
      if pos != |s| { return Panic("syntax"); }
      r := Ok(r.cmd, pos);
    }

    method Line() returns (r: Result)
      requires Valid()
      modifies this
      ensures r == ParseLine(s, old(pos)) && Valid() && (r.Ok? ==> pos == r.pos)
      decreases |s| - pos, 4
    {
      ghost var i := pos;
      r := PipeLine();
      if r.Panic? { return; }
      r := Background(r.cmd);
      var cmd, b := r.cmd, false;
      SkipTwice(s, pos);
      b := PeekFor(";");
      if b {
        PeekTok(s, pos, ";");
        var t := GetToken();
        r := Line();
        if r.Panic? { return; }
        r := Ok(List(cmd, r.cmd), r.pos);
      } else {
        r := Ok(cmd, pos);
      }
    }

    /** while(peek(ps, es, "&")) in parseline() */
    method Background(c: Cmd<Span>) returns (r: Result)
      requires Valid() && Words(s, c)
      modifies this
      ensures r == Backs(s, old(pos), c) && Valid() && old(pos) <= pos && r.Ok? && pos == r.pos
    {
      var cmd, b := c, false;
      ghost var i, j := pos, pos;
      hide Backs, Tok, Peek, SkipSpace, Words;
      b := PeekFor("&");
      while b
        invariant Valid() && i <= j <= pos == SkipSpace(s, j) && b == Peek(s, j, "&") && Words(s, cmd) && Backs(s, i, c) == Backs(s, j, cmd)
        decreases |s| - pos
      {
        BacksStep(s, j, cmd);
        SkipTwice(s, j);
        PeekTok(s, pos, "&");
        var t;
        t := GetToken();
        cmd := Back(cmd);
        j := pos;
        b := PeekFor("&");
      }
      BacksStep(s, j, cmd);
      r := Ok(cmd, pos);
    }

    method PipeLine() returns (r: Result)
      requires Valid()
      modifies this
      ensures r == ParsePipe(s, old(pos)) && Valid() && (r.Ok? ==> pos == r.pos)
      decreases |s| - pos, 3
    {
      r := Simple();
      if r.Panic? { return; }
      var cmd := r.cmd;
      SkipTwice(s, pos);
      var b := PeekFor("|");
      if b {
        PeekTok(s, pos, "|");
        var t := GetToken();
        r := PipeLine();
        if r.Panic? { return; }
        r := Ok(Pipe(cmd, r.cmd), r.pos);
      } else {
        r := Ok(cmd, pos);
      }
    }

    method Redirections(c: Cmd<Span>) returns (r: Result)
      requires Valid() && Words(s, c)
      modifies this
      ensures r == Redirs(s, old(pos), c) && Valid() && old(pos) <= pos && (r.Ok? ==> pos == r.pos)
    {
      var cmd, b := c, false;
      ghost var i, j := pos, pos;
      hide Redirs, Tok, Peek, SkipSpace, Words;
      b := PeekFor("<>");
      while b
        invariant Valid() && i <= j <= pos == SkipSpace(s, j) && b == Peek(s, j, "<>") && Words(s, cmd) && Redirs(s, i, c) == Redirs(s, j, cmd)
        decreases |s| - pos
      {
        RedirsStep(s, j, cmd);
        SkipTwice(s, j);
        PeekTok(s, pos, "<>");
        var t, f;
        t := GetToken();
        f := GetToken();
        if f.kind != 'a' { return Panic("missing file for redirection"); }
        cmd := Redir(cmd, Span(f.q, f.eq), if t.kind == '<' then In else if t.kind == '>' then Out else Append);
        j := pos;
        b := PeekFor("<>");
      }
      RedirsStep(s, j, cmd);
      r := Ok(cmd, pos);
    }

    method Block() returns (r: Result)
      requires Valid()
      modifies this
      ensures r == ParseBlock(s, old(pos)) && Valid() && (r.Ok? ==> pos == r.pos)
      decreases |s| - pos, 1
    {
      SkipTwice(s, pos);
      var b := PeekFor("(");
      if !b { return Panic("parseblock"); }
      PeekTok(s, pos, "(");
      var t := GetToken();
      r := Line();
      if r.Panic? { return; }
      SkipTwice(s, pos);
      b := PeekFor(")");
      if !b { return Panic("syntax - missing )"); }
      t := GetToken();
      r := Redirections(r.cmd);
    }

    method Simple() returns (r: Result)
      requires Valid()
      modifies this
      ensures r == ParseExec(s, old(pos)) && Valid() && (r.Ok? ==> pos == r.pos)
      decreases |s| - pos, 2
    {
      ghost var i := pos;
      SkipTwice(s, pos);
      var b := PeekFor("(");
      if b {
        BlockSkips(s, i);
        r := Block();
        return;
      }
      RedirsSkip(s, i, Exec([]));
      r := Redirections(Exec([]));
      if r.Panic? { return; }
      r := Arguments(r.cmd);
    }

    /** while(!peek(ps, es, "|)&;")) in parseexec() */
    method Arguments(c: Cmd<Span>) returns (r: Result)
      requires Valid() && Words(s, c)
      modifies this
      ensures r == Args(s, old(pos), c, 0) && Valid() && old(pos) <= pos && (r.Ok? ==> pos == r.pos)
    {
      var cmd, argc, b := c, 0, false;
      ghost var i, j := pos, pos;
      hide Args, Tok, Peek, SkipSpace, Words, Redirs, AddArg;
      b := PeekFor("|)&;");
      while !b
        invariant Valid() && i <= j <= pos == SkipSpace(s, j) && b == Peek(s, j, "|)&;") && Words(s, cmd)
        invariant Args(s, i, c, 0) == Args(s, j, cmd, argc)
        decreases |s| - pos
      {
        ArgsStep(s, j, cmd, argc);
        SkipTwice(s, j);
        var t;
        t := GetToken();
        if t.kind == NUL { return Ok(cmd, pos); }
        if t.kind != 'a' { return Panic("syntax"); }
        AddArgWords(s, cmd, Span(t.q, t.eq));
        cmd := AddArg(cmd, Span(t.q, t.eq));
        argc := argc + 1;
        if argc >= MAXARGS { return Panic("too many args"); }
        r := Redirections(cmd);
        if r.Panic? { return; }
        cmd := r.cmd;
        j := pos;
        b := PeekFor("|)&;");
      }
      ArgsStep(s, j, cmd, argc);
      r := Ok(cmd, pos);
    }
  }

  /** Skipping spaces twice is skipping them once; tokens and peeks do not mind. */
  lemma SkipTwice(s: string, i: int)
    requires 0 <= i <= |s| && CString(s)
    ensures var j := SkipSpace(s, i);
            SkipSpace(s, j) == j && Tok(s, j) == Tok(s, i) && forall toks :: Peek(s, j, toks) == Peek(s, i, toks)
  {
  }

  lemma BlockSkips(s: string, i: int)
    requires 0 <= i <= |s| && CString(s)
    ensures ParseBlock(s, SkipSpace(s, i)) == ParseBlock(s, i)
  {
    SkipTwice(s, i);
  }

  lemma RedirsSkip(s: string, i: int, c: Cmd<Span>)
    requires 0 <= i <= |s| && CString(s) && Words(s, c)
    ensures Redirs(s, SkipSpace(s, i), c) == Redirs(s, i, c)
  {
    SkipTwice(s, i);
  }

  // ---------------------------------------------------------------- nulterminate()

  /** The characters after the words of a command. */
  ghost function Ends(cmd: Cmd<Span>): set<int> {
    match cmd
    case Exec(args) => set i | 0 <= i < |args| :: args[i].eq
    case Redir(c, file, _) => Ends(c) + {file.eq}
    case Pipe(l, r) => Ends(l) + Ends(r)
    case List(l, r) => Ends(l) + Ends(r)
    case Back(c) => Ends(c)
  }

  /** w is an argv or a file entry of the command. */
  predicate HasWord(cmd: Cmd<Span>, w: Span) {
    match cmd
    case Exec(args) => w in args
    case Redir(c, file, _) => w == file || HasWord(c, w)
    case Pipe(l, r) => HasWord(l, w) || HasWord(r, w)
    case List(l, r) => HasWord(l, w) || HasWord(r, w)
    case Back(c) => HasWord(c, w)
  }

  /** nulterminate(): a NUL after every word, and no other change. */
  method NulTerminate(cmd: Cmd<Span>, buf: array<char>, ghost s: string)
    requires Words(s, cmd) && buf.Length == |s| + 1
    modifies buf
    ensures forall i | 0 <= i < buf.Length :: buf[i] == if i in Ends(cmd) then NUL else old(buf[i])
    decreases cmd
  {
    match cmd {
      case Exec(args) =>
        var k := 0;
        while k < |args|
          invariant 0 <= k <= |args|
          invariant forall i | 0 <= i < buf.Length :: buf[i] == if exists j :: 0 <= j < k && args[j].eq == i then NUL else old(buf[i])
        {
          assert IsWord(s, args[k]);
          buf[args[k].eq] := NUL;
          k := k + 1;
        }
      case Redir(c, file, _) =>
        NulTerminate(c, buf, s);
        buf[file.eq] := NUL;
      case Pipe(l, r) =>
        NulTerminate(l, buf, s);
        NulTerminate(r, buf, s);
      case List(l, r) =>
        NulTerminate(l, buf, s);
        NulTerminate(r, buf, s);
      case Back(c) =>
        NulTerminate(c, buf, s);
    }
  }

  /** The C string at q. */
  ghost predicate ReadsAs(buf: seq<char>, q: int, word: string) {
    && 0 <= q && q + |word| < |buf| && buf[q + |word|] == NUL
    && buf[q..q + |word|] == word && forall i | 0 <= i < |word| :: word[i] != NUL
  }

  lemma {:induction false} EndsNotPlain(s: string, cmd: Cmd<Span>, e: int)
    requires Words(s, cmd) && e in Ends(cmd)
    ensures 0 <= e <= |s| && (e < |s| ==> !Plain(s[e]))
    decreases cmd
  {
    match cmd
    case Exec(args) =>
    case Redir(c, file, _) => if e in Ends(c) { EndsNotPlain(s, c, e); }
    case Pipe(l, r) => if e in Ends(l) { EndsNotPlain(s, l, e); } else { EndsNotPlain(s, r, e); }
    case List(l, r) => if e in Ends(l) { EndsNotPlain(s, l, e); } else { EndsNotPlain(s, r, e); }
    case Back(c) => EndsNotPlain(s, c, e);
  }

  lemma {:induction false} WordHasEnd(s: string, cmd: Cmd<Span>, w: Span)
    requires Words(s, cmd) && HasWord(cmd, w)
    ensures IsWord(s, w) && w.eq in Ends(cmd)
    decreases cmd
  {
    match cmd
    case Exec(args) =>
    case Redir(c, file, _) => if w != file { WordHasEnd(s, c, w); }
    case Pipe(l, r) => if HasWord(l, w) { WordHasEnd(s, l, w); } else { WordHasEnd(s, r, w); }
    case List(l, r) => if HasWord(l, w) { WordHasEnd(s, l, w); } else { WordHasEnd(s, r, w); }
    case Back(c) => WordHasEnd(s, c, w);
  }

  /** After nulterminate(), every argv and file entry reads back as exactly its token. */
  lemma TokensReadBack(s: string, cmd: Cmd<Span>, buf: seq<char>, w: Span)
    requires Words(s, cmd) && HasWord(cmd, w) && |buf| == |s| + 1
    requires forall i | 0 <= i <= |s| :: buf[i] == if i in Ends(cmd) then NUL else CharAt(s, i)
    ensures IsWord(s, w) && ReadsAs(buf, w.q, s[w.q..w.eq])
  {
    hide Words, HasWord, Ends;
    WordHasEnd(s, cmd, w);
    forall i | w.q <= i < w.eq ensures buf[i] == s[i] {
      if i in Ends(cmd) { EndsNotPlain(s, cmd, i); }
    }
  }

  /** parsecmd(): the tree, and the line with every token of the tree terminated. */
  method ParseAndTerminate(s: string, buf: array<char>) returns (r: Result)
    requires CString(s) && buf.Length == |s| + 1 && buf[..] == s + [NUL]
    modifies buf
    ensures r == ParseCmd(s)
    ensures r.Panic? ==> buf[..] == s + [NUL]
    ensures r.Ok? ==> Words(s, r.cmd) && forall w | HasWord(r.cmd, w) :: IsWord(s, w) && ReadsAs(buf[..], w.q, s[w.q..w.eq])
  {
    var parser := new Parser(s);
    r := parser.Parse();
    if r.Panic? { return; }
    NulTerminate(r.cmd, buf, s);
    forall w | HasWord(r.cmd, w) ensures IsWord(s, w) && ReadsAs(buf[..], w.q, s[w.q..w.eq]) {
      TokensReadBack(s, r.cmd, buf[..], w);
    }
  }
}
