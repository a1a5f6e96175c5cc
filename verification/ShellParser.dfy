/** sh.c as it runs: loops over the cursor, and NULs written into the buffer. */
module ShellParser {
  import opened Shell
  import opened ShellPrint

  method GetToken(buf: string, ps: int) returns (t: Token)
    requires 0 <= ps <= |buf| && NUL !in buf
    ensures t == TokenAt(buf, ps)
  {
    var s := ps;
    while s < |buf| && Space(buf[s])
      invariant ps <= s <= |buf| && Skip(buf, s) == Skip(buf, ps)
    {
      s := s + 1;
    }
    var q, kind := s, At(buf, s);
    if At(buf, s) == NUL {
    } else if At(buf, s) == '>' {
      s := s + 1;
      if At(buf, s) == '>' {
        kind := '+';
        s := s + 1;
      }
    } else if Symbol(At(buf, s)) {
      s := s + 1;
    } else {
      kind := 'a';
      while s < |buf| && !Space(buf[s]) && !Symbol(buf[s])
        invariant q <= s <= |buf| && WordEnd(buf, s) == WordEnd(buf, q)
      {
        s := s + 1;
      }
    }
    var eq := s;
    while s < |buf| && Space(buf[s])
      invariant eq <= s <= |buf| && Skip(buf, s) == Skip(buf, eq)
    {
      s := s + 1;
    }
    t := Token(kind, q, eq, s);
  }

  method PeekToken(buf: string, ps: int, toks: string) returns (yes: bool, s: int)
    requires 0 <= ps <= |buf|
    ensures yes == Peek(buf, ps, toks) && s == Skip(buf, ps)
  {
    s := ps;
    while s < |buf| && Space(buf[s])
      invariant ps <= s <= |buf| && Skip(buf, s) == Skip(buf, ps)
    {
      s := s + 1;
    }
    yes := At(buf, s) != NUL && At(buf, s) in toks;
  }

  /** Spaces before the cursor's token do not matter. */
  lemma SkipTwice(buf: string, ps: int)
    requires 0 <= ps <= |buf| && NUL !in buf
    ensures Skip(buf, Skip(buf, ps)) == Skip(buf, ps) && TokenAt(buf, Skip(buf, ps)) == TokenAt(buf, ps)
    ensures forall toks :: Peek(buf, Skip(buf, ps), toks) == Peek(buf, ps, toks)
  {
  }

  method ParseRedirs(buf: string, ps: int, rs: seq<Redirect>) returns (r: Parse<seq<Redirect>>)
    requires 0 <= ps <= |buf| && NUL !in buf
    ensures r == Redirs(buf, ps, rs)
  {
    hide TokenAt, Skip;
    var out := rs;
    var more, s := PeekToken(buf, ps, "<>");
    SkipTwice(buf, ps);
    while more
      invariant 0 <= s <= |buf| && s == Skip(buf, s) && more == Peek(buf, s, "<>") && Redirs(buf, s, out) == Redirs(buf, ps, rs)
      decreases |buf| - s
    {
      var tok := GetToken(buf, s);
      var f := GetToken(buf, tok.ps);
      if f.kind != 'a' {
        return Panic(MissingFile);
      }
      out := out + [Redirect(Range(f.q, f.eq), if tok.kind == '<' then In else Out)];
      SkipTwice(buf, f.ps);
      more, s := PeekToken(buf, f.ps, "<>");
    }
    r := Ok(out, s);
  }

  lemma SkipSame(buf: string, ps: int)
    requires 0 <= ps <= |buf| && NUL !in buf
    ensures var s := Skip(buf, ps);
            && Redirs(buf, s, []) == Redirs(buf, ps, []) && BlockAt(buf, s) == BlockAt(buf, ps)
  {
    hide Skip, TokenAt, Peek, LineAt;
    SkipTwice(buf, ps);
  }

  lemma SkipArgs(buf: string, ps: int, args: seq<Range>, rs: seq<Redirect>)
    requires 0 <= ps <= |buf| && NUL !in buf
    ensures Args(buf, Skip(buf, ps), args, rs) == Args(buf, ps, args, rs)
  {
    hide Skip, TokenAt, Peek, Redirs;
    SkipTwice(buf, ps);
  }

  lemma SkipBacks(buf: string, ps: int, c: Cmd<Range>)
    requires 0 <= ps <= |buf| && NUL !in buf
    ensures Backs(buf, Skip(buf, ps), c) == Backs(buf, ps, c)
  {
    hide Skip, TokenAt, Peek;
    SkipTwice(buf, ps);
  }

  method ParseExec(buf: string, ps: int) returns (r: Parse<Cmd<Range>>)
    requires 0 <= ps <= |buf| && NUL !in buf
    ensures r == ExecAt(buf, ps)
    decreases |buf| - ps, 1
  {
    hide TokenAt, Skip, BlockAt, Peek;
    SkipTwice(buf, ps);
    SkipSame(buf, ps);
    var block, s := PeekToken(buf, ps, "(");
    if block {
      r := ParseBlock(buf, s);
      return;
    }
    var args, ret := [], [];
    var rs := ParseRedirs(buf, s, ret);
    if rs.Panic? {
      return Panic(rs.error);
    }
    ret := rs.value;
    SkipTwice(buf, rs.ps);
    SkipArgs(buf, rs.ps, args, ret);
    var end;
    end, s := PeekToken(buf, rs.ps, "|)&;");
    while !end
      invariant 0 <= s <= |buf| && s == Skip(buf, s) && end == Peek(buf, s, "|)&;") && |args| < MAXARGS
      invariant Args(buf, s, args, ret) == ExecAt(buf, ps)
      decreases |buf| - s
    {
      var tok := GetToken(buf, s);
      if tok.kind == NUL {
        s := tok.ps;
        break;
      }
      if tok.kind != 'a' {
        return Panic(Syntax);
      }
      args := args + [Range(tok.q, tok.eq)];
      if |args| >= MAXARGS {
        return Panic(TooManyArgs);
      }
      rs := ParseRedirs(buf, tok.ps, ret);
      if rs.Panic? {
        return Panic(rs.error);
      }
      ret := rs.value;
      SkipTwice(buf, rs.ps);
      SkipArgs(buf, rs.ps, args, ret);
      end, s := PeekToken(buf, rs.ps, "|)&;");
    }
    r := Ok(Wrap(Exec(args), ret), s);
  }

  method ParseBlock(buf: string, ps: int) returns (r: Parse<Cmd<Range>>)
    requires 0 <= ps <= |buf| && NUL !in buf
    ensures r == BlockAt(buf, ps)
    decreases |buf| - ps, 0
  {
    hide TokenAt, Skip, Redirs;
    SkipTwice(buf, ps);
    var yes, s := PeekToken(buf, ps, "(");
    if !yes {
      return Panic(NoBlock);
    }
    var tok := GetToken(buf, s);
    r := ParseLine(buf, tok.ps);
    if r.Panic? {
      return;
    }
    var c := r.value;
    SkipTwice(buf, r.ps);
    yes, s := PeekToken(buf, r.ps, ")");
    if !yes {
      return Panic(MissingParen);
    }
    tok := GetToken(buf, s);
    var rs := ParseRedirs(buf, tok.ps, []);
    if rs.Panic? {
      return Panic(rs.error);
    }
    r := Ok(Wrap(c, rs.value), rs.ps);
  }

  method ParsePipe(buf: string, ps: int) returns (r: Parse<Cmd<Range>>)
    requires 0 <= ps <= |buf| && NUL !in buf
    ensures r == PipeAt(buf, ps)
    decreases |buf| - ps, 2
  {
    hide TokenAt, Skip, ExecAt, Peek;
    r := ParseExec(buf, ps);
    if r.Panic? {
      return;
    }
    var c := r.value;
    SkipTwice(buf, r.ps);
    var yes, s := PeekToken(buf, r.ps, "|");
    r := Ok(c, s);
    if yes {
      PeekProgress(buf, s, "|");
      var tok := GetToken(buf, s);
      r := ParsePipe(buf, tok.ps);
      if r.Ok? {
        r := Ok(Pipe(c, r.value), r.ps);
      }
    }
  }

  lemma PeekProgress(buf: string, ps: int, toks: string)
    requires 0 <= ps <= |buf| && NUL !in buf && Peek(buf, ps, toks)
    ensures ps < TokenAt(buf, ps).ps <= |buf|
  {
  }

  method ParseLine(buf: string, ps: int) returns (r: Parse<Cmd<Range>>)
    requires 0 <= ps <= |buf| && NUL !in buf
    ensures r == LineAt(buf, ps)
    decreases |buf| - ps, 3
  {
    hide TokenAt, Skip, PipeAt, Peek;
    r := ParsePipe(buf, ps);
    if r.Panic? {
      return;
    }
    ghost var p := r;
    var c := r.value;
    SkipTwice(buf, r.ps);
    SkipBacks(buf, r.ps, c);
    var yes, s := PeekToken(buf, r.ps, "&");
    while yes
      invariant r.ps <= s <= |buf| && s == Skip(buf, s) && yes == Peek(buf, s, "&") && Backs(buf, s, c) == Backs(buf, p.ps, p.value)
      decreases |buf| - s
    {
      PeekProgress(buf, s, "&");
      var tok := GetToken(buf, s);
      c := Back(c);
      SkipTwice(buf, tok.ps);
      SkipBacks(buf, tok.ps, c);
      yes, s := PeekToken(buf, tok.ps, "&");
    }
    yes, s := PeekToken(buf, s, ";");
    r := Ok(c, s);
    if yes {
      PeekProgress(buf, s, ";");
      var tok := GetToken(buf, s);
      r := ParseLine(buf, tok.ps);
      if r.Ok? {
        r := Ok(List(c, r.value), r.ps);
      }
    }
  }

  // ---------- ending the words ----------

  /** r is a word of c. */
  predicate InTree(c: Cmd<Range>, r: Range) {
    match c
    case Exec(args) => r in args
    case Redir(c1, file, dir) => r == file || InTree(c1, r)
    case Pipe(left, right) => InTree(left, r) || InTree(right, r)
    case List(left, right) => InTree(left, r) || InTree(right, r)
    case Back(c1) => InTree(c1, r)
  }

  /** s with a NUL at the end of each word of c, and nothing else changed. */
  ghost predicate Ended(s: seq<char>, s': seq<char>, c: Cmd<Range>) {
    && |s'| == |s|
    && (forall i :: 0 <= i < |s| && s'[i] != s[i] ==> s'[i] == NUL && exists r :: InTree(c, r) && r.eq == i)
    && (forall r :: InTree(c, r) && 0 <= r.eq < |s| ==> s'[r.eq] == NUL)
  }

  /** The string C finds from q on. */
  function CString(s: seq<char>, q: int): string
    requires 0 <= q
    decreases |s| - q
  {
    if q >= |s| || s[q] == NUL then [] else [s[q]] + CString(s, q + 1)
  }

  lemma {:induction false} CStringIs(s: seq<char>, q: int, e: int)
    requires 0 <= q <= e < |s| && s[e] == NUL && forall i :: q <= i < e ==> s[i] != NUL
    ensures CString(s, q) == s[q..e]
    decreases e - q
  {
    if q < e {
      CStringIs(s, q + 1, e);
    }
  }

  lemma {:induction false} WordInTree(buf: string, c: Cmd<Range>, r: Range)
    requires TreeWords(buf, c) && InTree(c, r)
    ensures IsWord(buf, r)
  {
    hide IsWord;
    match c
    case Exec(args) =>
    case Redir(c1, file, dir) => if r != file { WordInTree(buf, c1, r); }
    case Pipe(left, right) => if InTree(left, r) { WordInTree(buf, left, r); } else { WordInTree(buf, right, r); }
    case List(left, right) => if InTree(left, r) { WordInTree(buf, left, r); } else { WordInTree(buf, right, r); }
    case Back(c1) => WordInTree(buf, c1, r);
  }

  /** Ending words cuts into no word, so each reads as a C string as its token. */
  lemma WordsRead(buf: string, c: Cmd<Range>, s: seq<char>, r: Range)
    requires TreeWords(buf, c) && Ended(buf + [NUL], s, c) && InTree(c, r)
    ensures 0 <= r.q <= r.eq <= |buf| && CString(s, r.q) == buf[r.q..r.eq]
  {
    WordInTree(buf, c, r);
    var s0 := buf + [NUL];
    forall i | r.q <= i < r.eq ensures s[i] == buf[i] {
      if s[i] != s0[i] {
        var r' :| InTree(c, r') && r'.eq == i;
        WordInTree(buf, c, r');
      }
    }
    CStringIs(s, r.q, r.eq);
    assert s[r.q..r.eq] == buf[r.q..r.eq];
  }

  ghost predicate EndsIn(c: Cmd<Range>, n: int) {
    forall r :: InTree(c, r) ==> 0 <= r.eq < n
  }

  lemma EndedTwice(s: seq<char>, s1: seq<char>, s2: seq<char>, l: Cmd<Range>, r: Cmd<Range>, c: Cmd<Range>)
    requires Ended(s, s1, l) && Ended(s1, s2, r) && forall x :: InTree(c, x) <==> InTree(l, x) || InTree(r, x)
    ensures Ended(s, s2, c)
  {
    forall i | 0 <= i < |s| && s2[i] != s[i] ensures s2[i] == NUL && exists r :: InTree(c, r) && r.eq == i {
      if s2[i] != s1[i] {
        var x :| InTree(r, x) && x.eq == i;
        assert InTree(c, x);
      } else {
        var x :| InTree(l, x) && x.eq == i;
        assert InTree(c, x);
      }
    }
    forall x | InTree(c, x) && 0 <= x.eq < |s| ensures s2[x.eq] == NUL {
      if InTree(l, x) {
        assert s1[x.eq] == NUL;
      }
    }
  }

  method Nulterminate(a: array<char>, c: Cmd<Range>)
    requires EndsIn(c, a.Length)
    modifies a
    ensures Ended(old(a[..]), a[..], c)
    decreases c
  {
    ghost var s0 := a[..];
    match c {
      case Exec(args) =>
        var i := 0;
        while i < |args|
          invariant 0 <= i <= |args| && Ended(s0, a[..], Exec(args[..i]))
        {
          ghost var s1 := a[..];
          assert InTree(c, args[i]);
          a[args[i].eq] := NUL;
          assert Ended(s1, a[..], Exec([args[i]])) by { assert InTree(Exec([args[i]]), args[i]); }
          assert args[..i + 1] == args[..i] + [args[i]];
          EndedTwice(s0, s1, a[..], Exec(args[..i]), Exec([args[i]]), Exec(args[..i + 1]));
          i := i + 1;
        }
        assert args[..i] == args;
      case Redir(c1, file, dir) =>
        assert InTree(c, file);
        assert forall r :: InTree(c1, r) ==> InTree(c, r);
        Nulterminate(a, c1);
        ghost var s1 := a[..];
        a[file.eq] := NUL;
        assert Ended(s1, a[..], Exec([file])) by { assert InTree(Exec([file]), file); }
        EndedTwice(s0, s1, a[..], c1, Exec([file]), c);
      case Pipe(left, right) =>
        assert forall r :: InTree(left, r) || InTree(right, r) ==> InTree(c, r);
        Nulterminate(a, left);
        ghost var s1 := a[..];
        Nulterminate(a, right);
        EndedTwice(s0, s1, a[..], left, right, c);
      case List(left, right) =>
        assert forall r :: InTree(left, r) || InTree(right, r) ==> InTree(c, r);
        Nulterminate(a, left);
        ghost var s1 := a[..];
        Nulterminate(a, right);
        EndedTwice(s0, s1, a[..], left, right, c);
      case Back(c1) =>
        assert forall r :: InTree(c1, r) <==> InTree(c, r);
        Nulterminate(a, c1);
        EndedTwice(s0, s0, a[..], Exec([]), c1, c);
    }
  }

  /** parsecmd on a buffer that holds the text and its NUL. */
  method ParseCmd(a: array<char>) returns (r: Parse<Cmd<Range>>)
    requires a.Length > 0 && a[a.Length - 1] == NUL && NUL !in a[..a.Length - 1]
    modifies a
    ensures r == CmdOf(old(a[..a.Length - 1]))
    ensures r.Panic? ==> a[..] == old(a[..])
    ensures r.Ok? ==> forall w :: InTree(r.value, w) ==>
      0 <= w.q <= w.eq < a.Length && CString(a[..], w.q) == old(a[..a.Length - 1])[w.q..w.eq]
  {
    hide LineAt, Ended, TreeWords;
    var buf := a[..a.Length - 1];
    ghost var s0 := a[..];
    assert s0 == buf + [NUL];
    var c := ParseLine(buf, 0);
    if c.Panic? {
      return c;
    }
    var yes, s := PeekToken(buf, c.ps, "");
    if s != |buf| {
      return Panic(Leftovers);
    }
    LineWords(buf, 0);
    forall w | InTree(c.value, w) ensures 0 <= w.eq < a.Length {
      WordInTree(buf, c.value, w);
    }
    Nulterminate(a, c.value);
    forall w | InTree(c.value, w) ensures 0 <= w.q <= w.eq < a.Length && CString(a[..], w.q) == buf[w.q..w.eq] {
      WordsRead(buf, c.value, a[..], w);
    }
    r := Ok(c.value, |buf|);
  }
}
