/** sh.c: the tokenizer and recursive descent parser, as functions of the buffer and the cursor. */
module Shell {
  const MAXARGS := 10
  const NUL := '\0'

  predicate Space(c: char) {
    c == ' ' || c == '\t' || c == '\r' || c == '\n' || c == '\U{0B}'
  }

  predicate Symbol(c: char) {
    c == '<' || c == '|' || c == '>' || c == '&' || c == ';' || c == '(' || c == ')'
  }

  predicate WordChar(c: char) {
    !Space(c) && !Symbol(c) && c != NUL
  }

  /** The character at s; the buffer ends in a NUL. */
  function At(buf: string, s: int): char {
    if 0 <= s < |buf| then buf[s] else NUL
  }

  // ---------- commands ----------

  datatype Direction = In | Out  // O_RDONLY on 0, O_WRONLY|O_CREATE on 1

  /** W is how words are given: text, or where they lie in the buffer. */
  datatype Cmd<W> =
    | Exec(args: seq<W>)
    | Redir(cmd: Cmd<W>, file: W, dir: Direction)
    | Pipe(left: Cmd<W>, right: Cmd<W>)
    | List(left: Cmd<W>, right: Cmd<W>)
    | Back(cmd: Cmd<W>)

  datatype Range = Range(q: int, eq: int)

  datatype Error = MissingFile | NoBlock | MissingParen | Syntax | TooManyArgs | Leftovers

  datatype Parse<T> = Ok(value: T, ps: int) | Panic(error: Error)

  // ---------- tokens ----------

  function Skip(buf: string, s: int): (r: int)
    requires 0 <= s <= |buf|
    ensures s <= r <= |buf| && !Space(At(buf, r))
    ensures forall i :: s <= i < r ==> Space(buf[i])
    decreases |buf| - s
  {
    if s < |buf| && Space(buf[s]) then Skip(buf, s + 1) else s
  }

  function WordEnd(buf: string, s: int): (r: int)
    requires 0 <= s <= |buf|
    ensures s <= r <= |buf| && (r < |buf| ==> Space(buf[r]) || Symbol(buf[r]))
    ensures forall i :: s <= i < r ==> !Space(buf[i]) && !Symbol(buf[i])
    decreases |buf| - s
  {
    if s < |buf| && !Space(buf[s]) && !Symbol(buf[s]) then WordEnd(buf, s + 1) else s
  }

  /** What gettoken returns ('a' for a word, '+' for >>), where the token lies, and the new cursor. */
  datatype Token = Token(kind: char, q: int, eq: int, ps: int)

  function TokenAt(buf: string, ps: int): (t: Token)
    requires 0 <= ps <= |buf| && NUL !in buf
    ensures ps <= t.q <= t.eq <= t.ps <= |buf|
    ensures t.kind == NUL <==> t.q == |buf|
    ensures t.kind != NUL ==> t.q < t.eq
  {
    var q := Skip(buf, ps);
    var c := At(buf, q);
    var (kind, eq) :=
      if c == NUL then (NUL, q)
      else if c == '>' then (if At(buf, q + 1) == '>' then ('+', q + 2) else ('>', q + 1))
      else if Symbol(c) then (c, q + 1)
      else ('a', WordEnd(buf, q));
    Token(kind, q, eq, Skip(buf, eq))
  }

  predicate Peek(buf: string, ps: int, toks: string)
    requires 0 <= ps <= |buf|
  {
    var c := At(buf, Skip(buf, ps));
    c != NUL && c in toks
  }

  // ---------- the parser ----------

  datatype Redirect = Redirect(file: Range, dir: Direction)

  /** The chain of redirections put around c, first one innermost. */
  function Wrap(c: Cmd<Range>, rs: seq<Redirect>): Cmd<Range> {
    if rs == [] then c
    else
      var last := rs[|rs| - 1];
      Redir(Wrap(c, rs[..|rs| - 1]), last.file, last.dir)
  }

  function Redirs(buf: string, ps: int, rs: seq<Redirect>): (r: Parse<seq<Redirect>>)
    requires 0 <= ps <= |buf| && NUL !in buf
    ensures r.Ok? ==> ps <= r.ps <= |buf|
    decreases |buf| - ps
  {
    if !Peek(buf, ps, "<>") then Ok(rs, Skip(buf, ps))
    else
      var t := TokenAt(buf, ps);
      var f := TokenAt(buf, t.ps);
      if f.kind != 'a' then Panic(MissingFile)
      else Redirs(buf, f.ps, rs + [Redirect(Range(f.q, f.eq), if t.kind == '<' then In else Out)])
  }

  function Args(buf: string, ps: int, args: seq<Range>, rs: seq<Redirect>): (r: Parse<Cmd<Range>>)
    requires 0 <= ps <= |buf| && NUL !in buf
    ensures r.Ok? ==> ps <= r.ps <= |buf|
    decreases |buf| - ps
  {
    if Peek(buf, ps, "|)&;") then Ok(Wrap(Exec(args), rs), Skip(buf, ps))
    else
      var t := TokenAt(buf, ps);
      if t.kind == NUL then Ok(Wrap(Exec(args), rs), t.ps)
      else if t.kind != 'a' then Panic(Syntax)
      else if |args| + 1 >= MAXARGS then Panic(TooManyArgs)
      else
        var r := Redirs(buf, t.ps, rs);
        if r.Panic? then Panic(r.error) else Args(buf, r.ps, args + [Range(t.q, t.eq)], r.value)
  }

  function ExecAt(buf: string, ps: int): (r: Parse<Cmd<Range>>)
    requires 0 <= ps <= |buf| && NUL !in buf
    ensures r.Ok? ==> ps <= r.ps <= |buf|
    decreases |buf| - ps, 1
  {
    if Peek(buf, ps, "(") then BlockAt(buf, ps)
    else
      var r := Redirs(buf, ps, []);
      if r.Panic? then Panic(r.error) else Args(buf, r.ps, [], r.value)
  }

  function BlockAt(buf: string, ps: int): (r: Parse<Cmd<Range>>)
    requires 0 <= ps <= |buf| && NUL !in buf
    ensures r.Ok? ==> ps <= r.ps <= |buf|
    decreases |buf| - ps, 0
  {
    if !Peek(buf, ps, "(") then Panic(NoBlock)
    else
      var c := LineAt(buf, TokenAt(buf, ps).ps);
      if c.Panic? then c
      else if !Peek(buf, c.ps, ")") then Panic(MissingParen)
      else
        var r := Redirs(buf, TokenAt(buf, c.ps).ps, []);
        if r.Panic? then Panic(r.error) else Ok(Wrap(c.value, r.value), r.ps)
  }

  function PipeAt(buf: string, ps: int): (r: Parse<Cmd<Range>>)
    requires 0 <= ps <= |buf| && NUL !in buf
    ensures r.Ok? ==> ps <= r.ps <= |buf|
    decreases |buf| - ps, 2
  {
    var l := ExecAt(buf, ps);
    if l.Panic? || !Peek(buf, l.ps, "|") then (if l.Panic? then l else Ok(l.value, Skip(buf, l.ps)))
    else
      var r := PipeAt(buf, TokenAt(buf, l.ps).ps);
      if r.Panic? then r else Ok(Pipe(l.value, r.value), r.ps)
  }

  function Backs(buf: string, ps: int, c: Cmd<Range>): (r: Parse<Cmd<Range>>)
    requires 0 <= ps <= |buf| && NUL !in buf
    ensures r.Ok? && ps <= r.ps <= |buf|
    decreases |buf| - ps
  {
    if !Peek(buf, ps, "&") then Ok(c, Skip(buf, ps)) else Backs(buf, TokenAt(buf, ps).ps, Back(c))
  }

  function LineAt(buf: string, ps: int): (r: Parse<Cmd<Range>>)
    requires 0 <= ps <= |buf| && NUL !in buf
    ensures r.Ok? ==> ps <= r.ps <= |buf|
    decreases |buf| - ps, 3
  {
    var p := PipeAt(buf, ps);
    if p.Panic? then p
    else
      var l := Backs(buf, p.ps, p.value);
      if !Peek(buf, l.ps, ";") then Ok(l.value, Skip(buf, l.ps))
      else
        var r := LineAt(buf, TokenAt(buf, l.ps).ps);
        if r.Panic? then r else Ok(List(l.value, r.value), r.ps)
  }

  /** parsecmd before nulterminate. */
  function CmdOf(buf: string): (r: Parse<Cmd<Range>>)
    requires NUL !in buf
  {
    var c := LineAt(buf, 0);
    if c.Panic? then c
    else if Skip(buf, c.ps) != |buf| then Panic(Leftovers)
    else Ok(c.value, |buf|)
  }

  // ---------- every word of a tree is a whole word of the buffer ----------

  /** r is a maximal run of word characters. */
  ghost predicate IsWord(buf: string, r: Range) {
    && 0 <= r.q < r.eq <= |buf|
    && (forall i :: r.q <= i < r.eq ==> WordChar(buf[i]))
    && !WordChar(At(buf, r.eq))
  }

  ghost predicate AllWords(buf: string, rs: seq<Range>) {
    forall i :: 0 <= i < |rs| ==> IsWord(buf, rs[i])
  }

  ghost predicate RedirWords(buf: string, rs: seq<Redirect>) {
    forall i :: 0 <= i < |rs| ==> IsWord(buf, rs[i].file)
  }

  ghost predicate TreeWords(buf: string, c: Cmd<Range>) {
    match c
    case Exec(args) => AllWords(buf, args) && |args| < MAXARGS
    case Redir(c1, file, dir) => TreeWords(buf, c1) && IsWord(buf, file)
    case Pipe(l, r) => TreeWords(buf, l) && TreeWords(buf, r)
    case List(l, r) => TreeWords(buf, l) && TreeWords(buf, r)
    case Back(c1) => TreeWords(buf, c1)
  }

  lemma TokenWord(buf: string, ps: int)
    requires 0 <= ps <= |buf| && NUL !in buf && TokenAt(buf, ps).kind == 'a'
    ensures IsWord(buf, Range(TokenAt(buf, ps).q, TokenAt(buf, ps).eq))
  {
  }

  lemma {:induction false} WrapWords(buf: string, c: Cmd<Range>, rs: seq<Redirect>)
    requires TreeWords(buf, c) && RedirWords(buf, rs)
    ensures TreeWords(buf, Wrap(c, rs))
  {
    if rs != [] {
      WrapWords(buf, c, rs[..|rs| - 1]);
    }
  }

  lemma {:induction false} RedirsWords(buf: string, ps: int, rs: seq<Redirect>)
    requires 0 <= ps <= |buf| && NUL !in buf && RedirWords(buf, rs)
    ensures var r := Redirs(buf, ps, rs); r.Ok? ==> RedirWords(buf, r.value)
    decreases |buf| - ps
  {
    hide IsWord;
    if Peek(buf, ps, "<>") {
      var t := TokenAt(buf, ps);
      var f := TokenAt(buf, t.ps);
      if f.kind == 'a' {
        TokenWord(buf, t.ps);
        RedirsWords(buf, f.ps, rs + [Redirect(Range(f.q, f.eq), if t.kind == '<' then In else Out)]);
      }
    }
  }

  lemma {:induction false} ArgsWords(buf: string, ps: int, args: seq<Range>, rs: seq<Redirect>)
    requires 0 <= ps <= |buf| && NUL !in buf && AllWords(buf, args) && RedirWords(buf, rs) && |args| < MAXARGS
    ensures var r := Args(buf, ps, args, rs); r.Ok? ==> TreeWords(buf, r.value)
    decreases |buf| - ps
  {
    hide IsWord;
    WrapWords(buf, Exec(args), rs);
    if !Peek(buf, ps, "|)&;") {
      var t := TokenAt(buf, ps);
      if t.kind == 'a' && |args| + 1 < MAXARGS {
        TokenWord(buf, ps);
        RedirsWords(buf, t.ps, rs);
        var r := Redirs(buf, t.ps, rs);
        if r.Ok? {
          ArgsWords(buf, r.ps, args + [Range(t.q, t.eq)], r.value);
        }
      }
    }
  }

  lemma {:induction false} ExecWords(buf: string, ps: int)
    requires 0 <= ps <= |buf| && NUL !in buf
    ensures var r := ExecAt(buf, ps); r.Ok? ==> TreeWords(buf, r.value)
    decreases |buf| - ps, 1
  {
    hide IsWord, Redirs, Args;
    if Peek(buf, ps, "(") {
      BlockWords(buf, ps);
    } else {
      RedirsWords(buf, ps, []);
      var r := Redirs(buf, ps, []);
      if r.Ok? {
        ArgsWords(buf, r.ps, [], r.value);
      }
    }
  }

  lemma {:induction false} BlockWords(buf: string, ps: int)
    requires 0 <= ps <= |buf| && NUL !in buf
    ensures var r := BlockAt(buf, ps); r.Ok? ==> TreeWords(buf, r.value)
    decreases |buf| - ps, 0
  {
    hide IsWord, Redirs, Args;
    if Peek(buf, ps, "(") {
      var c := LineAt(buf, TokenAt(buf, ps).ps);
      LineWords(buf, TokenAt(buf, ps).ps);
      if c.Ok? && Peek(buf, c.ps, ")") {
        RedirsWords(buf, TokenAt(buf, c.ps).ps, []);
        var r := Redirs(buf, TokenAt(buf, c.ps).ps, []);
        if r.Ok? {
          WrapWords(buf, c.value, r.value);
        }
      }
    }
  }

  lemma {:induction false} PipeWords(buf: string, ps: int)
    requires 0 <= ps <= |buf| && NUL !in buf
    ensures var r := PipeAt(buf, ps); r.Ok? ==> TreeWords(buf, r.value)
    decreases |buf| - ps, 2
  {
    hide IsWord;
    ExecWords(buf, ps);
    var l := ExecAt(buf, ps);
    if l.Ok? && Peek(buf, l.ps, "|") {
      PipeWords(buf, TokenAt(buf, l.ps).ps);
    }
  }

  lemma {:induction false} BacksWords(buf: string, ps: int, c: Cmd<Range>)
    requires 0 <= ps <= |buf| && NUL !in buf && TreeWords(buf, c)
    ensures TreeWords(buf, Backs(buf, ps, c).value)
    decreases |buf| - ps
  {
    if Peek(buf, ps, "&") {
      BacksWords(buf, TokenAt(buf, ps).ps, Back(c));
    }
  }

  lemma {:induction false} LineWords(buf: string, ps: int)
    requires 0 <= ps <= |buf| && NUL !in buf
    ensures var r := LineAt(buf, ps); r.Ok? ==> TreeWords(buf, r.value)
    decreases |buf| - ps, 3
  {
    hide IsWord;
    PipeWords(buf, ps);
    var p := PipeAt(buf, ps);
    if p.Ok? {
      BacksWords(buf, p.ps, p.value);
      var l := Backs(buf, p.ps, p.value);
      if Peek(buf, l.ps, ";") {
        LineWords(buf, TokenAt(buf, l.ps).ps);
      }
    }
  }
}
