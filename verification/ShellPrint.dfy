/** The parser undoes printing: the fully parenthesised text of a command parses to that command. */
module ShellPrint {
  import opened Shell

  function Join(ws: seq<string>): string {
    if ws == [] then "" else if |ws| == 1 then ws[0] else ws[0] + " " + Join(ws[1..])
  }

  function Sign(dir: Direction): string {
    if dir == In then "<" else ">"
  }

  /** The fully parenthesised text. */
  function Print(c: Cmd<string>): string
    decreases c, 0
  {
    match c
    case Exec(args) => Join(args)
    case Redir(c1, file, dir) => Paren(c1) + Sign(dir) + file
    case Pipe(l, r) => Paren(l) + "|" + Paren(r)
    case List(l, r) => Paren(l) + ";" + Paren(r)
    case Back(c1) => Paren(c1) + "&"
  }

  function Paren(c: Cmd<string>): string
    decreases c, 1
  {
    "(" + Print(c) + ")"
  }

  ghost predicate LegalWord(w: string) {
    w != "" && forall i :: 0 <= i < |w| ==> WordChar(w[i])
  }

  /** Legal words, and fewer than MAXARGS of them in each command. */
  ghost predicate Legal(c: Cmd<string>) {
    match c
    case Exec(args) => |args| < MAXARGS && forall i :: 0 <= i < |args| ==> LegalWord(args[i])
    case Redir(c1, file, dir) => Legal(c1) && LegalWord(file)
    case Pipe(l, r) => Legal(l) && Legal(r)
    case List(l, r) => Legal(l) && Legal(r)
    case Back(c1) => Legal(c1)
  }

  function Text(buf: string, r: Range): string {
    if 0 <= r.q <= r.eq <= |buf| then buf[r.q..r.eq] else ""
  }

  function Texts(buf: string, rs: seq<Range>): (ws: seq<string>)
    ensures |ws| == |rs| && forall i :: 0 <= i < |rs| ==> ws[i] == Text(buf, rs[i])
  {
    seq(|rs|, i requires 0 <= i < |rs| => Text(buf, rs[i]))
  }

  /** The tree with its words read from the buffer. */
  function Resolve(buf: string, c: Cmd<Range>): Cmd<string> {
    match c
    case Exec(args) => Exec(Texts(buf, args))
    case Redir(c1, file, dir) => Redir(Resolve(buf, c1), Text(buf, file), dir)
    case Pipe(l, r) => Pipe(Resolve(buf, l), Resolve(buf, r))
    case List(l, r) => List(Resolve(buf, l), Resolve(buf, r))
    case Back(c1) => Back(Resolve(buf, c1))
  }

  ghost predicate Has(buf: string, p: int, s: string) {
    0 <= p && p + |s| <= |buf| && buf[p..p + |s|] == s
  }

  lemma HasSplit(buf: string, p: int, a: string, b: string)
    requires Has(buf, p, a + b)
    ensures Has(buf, p, a) && Has(buf, p + |a|, b)
  {
    assert (a + b)[..|a|] == a && (a + b)[|a|..] == b;
  }

  lemma HasAt(buf: string, p: int, s: string, i: int)
    requires Has(buf, p, s) && 0 <= i < |s|
    ensures At(buf, p + i) == s[i] && p + i < |buf|
  {
    assert buf[p..p + |s|][i] == s[i];
  }

  predicate Arrow(c: char) {
    c == '<' || c == '>'
  }

  predicate Stop(c: char) {
    c == ')' || c == NUL
  }

  lemma NoSkip(buf: string, p: int)
    requires 0 <= p <= |buf| && !Space(At(buf, p))
    ensures Skip(buf, p) == p
  {
  }

  lemma SymbolToken(buf: string, p: int)
    requires 0 <= p < |buf| && NUL !in buf && Symbol(buf[p]) && !Space(At(buf, p + 1)) && (buf[p] == '>' ==> At(buf, p + 1) != '>')
    ensures TokenAt(buf, p) == Token(buf[p], p, p + 1, p + 1)
  {
    NoSkip(buf, p);
    NoSkip(buf, p + 1);
  }

  lemma WordToken(buf: string, p: int, w: string)
    requires NUL !in buf && LegalWord(w) && Has(buf, p, w) && !WordChar(At(buf, p + |w|))
    ensures TokenAt(buf, p) == Token('a', p, p + |w|, Skip(buf, p + |w|)) && WordChar(At(buf, p))
  {
    HasAt(buf, p, w, 0);
    NoSkip(buf, p);
    var r := WordEnd(buf, p);
    if r < p + |w| {
      HasAt(buf, p, w, r - p);
    }
  }

  lemma NoRedirs(buf: string, p: int, rs: seq<Redirect>)
    requires 0 <= p <= |buf| && NUL !in buf && !Space(At(buf, p)) && !Arrow(At(buf, p))
    ensures Redirs(buf, p, rs) == Ok(rs, p)
  {
    NoSkip(buf, p);
  }

  lemma ArgsEnd(buf: string, p: int, args: seq<Range>)
    requires 0 <= p <= |buf| && NUL !in buf && Stop(At(buf, p))
    ensures Args(buf, p, args, []) == Ok(Exec(args), p)
  {
    NoSkip(buf, p);
  }

  /** One word and what separates it from the next. */
  lemma ArgsStep(buf: string, p: int, w: string, n: int, args: seq<Range>)
    requires NUL !in buf && LegalWord(w) && Has(buf, p, w) && !WordChar(At(buf, p + |w|)) && |args| + 1 < MAXARGS
    requires n == Skip(buf, p + |w|) && !Arrow(At(buf, n))
    ensures Args(buf, p, args, []) == Args(buf, n, args + [Range(p, p + |w|)], [])
  {
    hide Redirs, TokenAt, Skip, LegalWord;
    WordToken(buf, p, w);
    NoSkip(buf, p);
    NoRedirs(buf, n, []);
  }

  /** The separator is one space before another word, nothing before the end. */
  lemma NextWord(buf: string, p: int, ws: seq<string>)
    requires NUL !in buf && ws != [] && Has(buf, p, Join(ws)) && Stop(At(buf, p + |Join(ws)|))
    requires forall i :: 0 <= i < |ws| ==> LegalWord(ws[i])
    ensures var e := p + |ws[0]|;
            && Has(buf, p, ws[0]) && !WordChar(At(buf, e))
            && var n := Skip(buf, e);
            && !Arrow(At(buf, n)) && Has(buf, n, Join(ws[1..])) && n + |Join(ws[1..])| == p + |Join(ws)|
  {
    hide LegalWord, Skip, Has, WordChar;
    var w, rest := ws[0], Join(ws[1..]);
    if |ws| == 1 {
      assert ws[1..] == [];
      AtStop(buf, p, w);
    } else {
      assert Join(ws) == w + (" " + rest);
      HasSplit(buf, p, w, " " + rest);
      HasSplit(buf, p + |w|, " ", rest);
      assert LegalWord(ws[1..][0]);
      FirstWord(buf, p + |w| + 1, ws[1..]);
      OneSpace(buf, p + |w|);
    }
  }

  lemma AtStop(buf: string, p: int, w: string)
    requires Has(buf, p, w) && Stop(At(buf, p + |w|))
    ensures var e := p + |w|;
            Skip(buf, e) == e && !WordChar(At(buf, e)) && !Arrow(At(buf, e)) && Has(buf, e, "")
  {
    NoSkip(buf, p + |w|);
  }

  lemma OneSpace(buf: string, e: int)
    requires Has(buf, e, " ") && WordChar(At(buf, e + 1))
    ensures Skip(buf, e) == e + 1 && !WordChar(At(buf, e)) && !Arrow(At(buf, e + 1))
  {
    HasAt(buf, e, " ", 0);
    NoSkip(buf, e + 1);
  }

  lemma {:induction false} ArgsOfWords(buf: string, p: int, ws: seq<string>, args: seq<Range>)
    requires NUL !in buf && Has(buf, p, Join(ws)) && Stop(At(buf, p + |Join(ws)|)) && |args| + |ws| < MAXARGS
    requires forall i :: 0 <= i < |ws| ==> LegalWord(ws[i])
    ensures var r := Args(buf, p, args, []);
            r.Ok? && r.ps == p + |Join(ws)| && r.value.Exec? && Texts(buf, r.value.args) == Texts(buf, args) + ws
    decreases |ws|
  {
    hide LegalWord, Skip, WordChar, Args;
    if ws == [] {
      ArgsEnd(buf, p, args);
      assert Texts(buf, args) + ws == Texts(buf, args);
    } else {
      var w := ws[0];
      NextWord(buf, p, ws);
      var e := p + |w|;
      var n := Skip(buf, e);
      ArgsStep(buf, p, w, n, args);
      ArgsOfWords(buf, n, ws[1..], args + [Range(p, e)]);
      assert Texts(buf, args + [Range(p, e)]) == Texts(buf, args) + [w];
      assert Texts(buf, args) + [w] + ws[1..] == Texts(buf, args) + ws;
    }
  }

  lemma FirstWord(buf: string, p: int, ws: seq<string>)
    requires Has(buf, p, Join(ws)) && ws != [] && LegalWord(ws[0])
    ensures WordChar(At(buf, p))
  {
    HasAt(buf, p, Join(ws), 0);
  }

  /** r is a parse of c that ends at e. */
  ghost predicate Parses(r: Parse<Cmd<Range>>, buf: string, c: Cmd<string>, e: int) {
    r.Ok? && r.ps == e && Resolve(buf, r.value) == c
  }

  lemma ParenFirst(c: Cmd<string>)
    requires !c.Exec?
    ensures Print(c) != "" && Print(c)[0] == '('
  {
    var c1 := if c.Redir? || c.Back? then c.cmd else c.left;
    assert Print(c)[0] == Paren(c1)[0];
  }

  /** A command starts with no space, no redirection and no separator. */
  lemma FirstChar(buf: string, p: int, c: Cmd<string>)
    requires Legal(c) && Has(buf, p, Print(c)) && Stop(At(buf, p + |Print(c)|))
    ensures !Space(At(buf, p)) && !Arrow(At(buf, p))
    ensures c.Exec? ==> At(buf, p) != '('
  {
    if Print(c) != "" {
      HasAt(buf, p, Print(c), 0);
      if c.Exec? {
        FirstWord(buf, p, c.args);
      } else {
        ParenFirst(c);
      }
    }
  }

  lemma ExecPlain(buf: string, p: int)
    requires 0 <= p <= |buf| && NUL !in buf && !Space(At(buf, p)) && !Arrow(At(buf, p)) && At(buf, p) != '('
    ensures ExecAt(buf, p) == Args(buf, p, [], [])
  {
    hide Args, BlockAt, Redirs, TokenAt, Skip;
    NoSkip(buf, p);
    NoRedirs(buf, p, []);
  }

  lemma ExecOfWords(buf: string, p: int, ws: seq<string>)
    requires NUL !in buf && Legal(Exec(ws)) && Has(buf, p, Join(ws)) && Stop(At(buf, p + |Join(ws)|))
    ensures Parses(ExecAt(buf, p), buf, Exec(ws), p + |Join(ws)|)
  {
    hide Args, ExecAt, LegalWord, Join;
    FirstChar(buf, p, Exec(ws));
    ExecPlain(buf, p);
    ArgsOfWords(buf, p, ws, []);
    assert Texts(buf, []) + ws == ws;
  }

  /** Where nothing more can follow, a line is its one command. */
  lemma LineOfExec(buf: string, p: int, c: Cmd<string>, e: int)
    requires 0 <= p <= |buf| && NUL !in buf && Parses(ExecAt(buf, p), buf, c, e) && Stop(At(buf, e))
    ensures Parses(PipeAt(buf, p), buf, c, e) && Parses(LineAt(buf, p), buf, c, e)
  {
    hide ExecAt, Skip, TokenAt;
    NoSkip(buf, e);
  }

  /** The command in parentheses, up to the closing one. */
  lemma InParens(buf: string, p: int, c: Cmd<string>)
    requires NUL !in buf && Has(buf, p, Paren(c)) && Legal(c)
    requires Parses(LineAt(buf, p + 1), buf, c, p + 1 + |Print(c)|)
    requires !Space(At(buf, p + |Print(c)| + 2))
    ensures var e := p + |Print(c)| + 2;
            && 0 <= p && e <= |buf|
            && var line := LineAt(buf, p + 1);
            && var r := Redirs(buf, e, []);
            && ExecAt(buf, p) == if r.Panic? then Panic(r.error) else Ok(Wrap(line.value, r.value), r.ps)
  {
    hide LineAt, Redirs, Skip, TokenAt, Args, ExecAt, BlockAt;
    var n := |Print(c)|;
    ParenChars(buf, p, c);
    FirstChar(buf, p + 1, c);
    OpenParen(buf, p);
    CloseParen(buf, p, p + 1 + n);
  }

  lemma ParenChars(buf: string, p: int, c: Cmd<string>)
    requires Has(buf, p, Paren(c))
    ensures Has(buf, p + 1, Print(c)) && p + |Print(c)| + 1 < |buf| && buf[p] == '(' && buf[p + 1 + |Print(c)|] == ')'
  {
    hide Print;
    assert "(" + Print(c) + ")" == "(" + (Print(c) + ")");
    HasSplit(buf, p, "(", Print(c) + ")");
    HasSplit(buf, p + 1, Print(c), ")");
    HasAt(buf, p, "(", 0);
    HasAt(buf, p + 1 + |Print(c)|, ")", 0);
  }

  lemma OpenParen(buf: string, p: int)
    requires 0 <= p < |buf| && NUL !in buf && buf[p] == '(' && !Space(At(buf, p + 1))
    ensures ExecAt(buf, p) == BlockAt(buf, p) && Peek(buf, p, "(") && TokenAt(buf, p).ps == p + 1
  {
    hide BlockAt, Skip, TokenAt, Redirs, Args;
    NoSkip(buf, p);
    SymbolToken(buf, p);
  }

  lemma CloseParen(buf: string, p: int, q: int)
    requires 0 <= p < q < |buf| && NUL !in buf && buf[q] == ')' && !Space(At(buf, q + 1))
    requires Peek(buf, p, "(") && TokenAt(buf, p).ps == p + 1 && LineAt(buf, p + 1).Ok? && LineAt(buf, p + 1).ps == q
    ensures var r := Redirs(buf, q + 1, []);
            BlockAt(buf, p) == if r.Panic? then Panic(r.error) else Ok(Wrap(LineAt(buf, p + 1).value, r.value), r.ps)
  {
    hide LineAt, Skip, TokenAt, Redirs;
    NoSkip(buf, q);
    SymbolToken(buf, q);
  }

  /** A command in parentheses with no redirection after it. */
  lemma BlockExec(buf: string, p: int, c: Cmd<string>)
    requires NUL !in buf && Has(buf, p, Paren(c)) && Legal(c)
    requires Parses(LineAt(buf, p + 1), buf, c, p + 1 + |Print(c)|)
    requires !Space(At(buf, p + |Print(c)| + 2)) && !Arrow(At(buf, p + |Print(c)| + 2))
    ensures Parses(ExecAt(buf, p), buf, c, p + |Print(c)| + 2)
  {
    hide LineAt, ExecAt, Redirs, Print, Legal;
    InParens(buf, p, c);
    NoRedirs(buf, p + |Print(c)| + 2, []);
  }

  lemma BlockSep(buf: string, p: int, c: Cmd<string>)
    requires NUL !in buf && Has(buf, p, Paren(c)) && Legal(c) && Parses(LineAt(buf, p + 1), buf, c, p + 1 + |Print(c)|)
    requires At(buf, p + |Paren(c)|) == '|' || At(buf, p + |Paren(c)|) == ';' || At(buf, p + |Paren(c)|) == '&'
    ensures Parses(ExecAt(buf, p), buf, c, p + |Paren(c)|)
  {
    hide LineAt, ExecAt, Print, Legal, Has, Parses;
    BlockExec(buf, p, c);
  }

  lemma BlockStop(buf: string, p: int, c: Cmd<string>)
    requires NUL !in buf && Has(buf, p, Paren(c)) && Legal(c) && Parses(LineAt(buf, p + 1), buf, c, p + 1 + |Print(c)|)
    requires Stop(At(buf, p + |Paren(c)|))
    ensures Parses(ExecAt(buf, p), buf, c, p + |Paren(c)|)
  {
    hide LineAt, ExecAt, Print, Legal, Has, Parses;
    BlockExec(buf, p, c);
  }

  /** One redirection at the end. */
  lemma OneRedir(buf: string, q: int, f: string, dir: Direction)
    requires NUL !in buf && LegalWord(f) && Has(buf, q, Sign(dir) + f) && Stop(At(buf, q + 1 + |f|))
    ensures Redirs(buf, q, []) == Ok([Redirect(Range(q + 1, q + 1 + |f|), dir)], q + 1 + |f|)
    ensures Text(buf, Range(q + 1, q + 1 + |f|)) == f && !Space(At(buf, q))
  {
    hide Skip, TokenAt, LegalWord;
    var e := q + 1 + |f|;
    HasSplit(buf, q, Sign(dir), f);
    HasAt(buf, q, Sign(dir), 0);
    NoSkip(buf, q);
    NoSkip(buf, e);
    WordToken(buf, q + 1, f);
    SymbolToken(buf, q);
    NoRedirs(buf, e, [Redirect(Range(q + 1, e), dir)]);
    assert [] + [Redirect(Range(q + 1, e), dir)] == [Redirect(Range(q + 1, e), dir)];
  }

  /** Where no `&` or `;` follows, a line is its one pipeline. */
  lemma LineOfPipe(buf: string, p: int, c: Cmd<string>, e: int)
    requires 0 <= p <= |buf| && NUL !in buf && Parses(PipeAt(buf, p), buf, c, e) && Stop(At(buf, e))
    ensures Parses(LineAt(buf, p), buf, c, e)
  {
    hide PipeAt, Skip, TokenAt;
    NoSkip(buf, e);
  }

  /** A left side, its separator, and the right side. */
  lemma PipeOf(buf: string, p: int, l: Cmd<string>, r: Cmd<string>, q: int, e: int)
    requires 0 <= p < q < |buf| && NUL !in buf && buf[q] == '|' && At(buf, q + 1) == '('
    requires Parses(ExecAt(buf, p), buf, l, q) && Parses(PipeAt(buf, q + 1), buf, r, e)
    ensures Parses(PipeAt(buf, p), buf, Pipe(l, r), e)
  {
    hide ExecAt, Skip, TokenAt;
    NoSkip(buf, q);
    SymbolToken(buf, q);
  }

  lemma PipeAlone(buf: string, p: int, c: Cmd<string>, q: int)
    requires 0 <= p <= q < |buf| && NUL !in buf && (buf[q] == ';' || buf[q] == '&') && Parses(ExecAt(buf, p), buf, c, q)
    ensures Parses(PipeAt(buf, p), buf, c, q)
  {
    hide ExecAt, Skip, TokenAt;
    NoSkip(buf, q);
  }

  lemma ListOf(buf: string, p: int, l: Cmd<string>, r: Cmd<string>, q: int, e: int)
    requires 0 <= p < q < |buf| && NUL !in buf && buf[q] == ';' && At(buf, q + 1) == '('
    requires Parses(PipeAt(buf, p), buf, l, q) && Parses(LineAt(buf, q + 1), buf, r, e)
    ensures Parses(LineAt(buf, p), buf, List(l, r), e)
  {
    hide PipeAt, Skip, TokenAt;
    NoSkip(buf, q);
    SymbolToken(buf, q);
  }

  lemma BackOf(buf: string, p: int, c: Cmd<string>, q: int)
    requires 0 <= p < q < |buf| && NUL !in buf && buf[q] == '&' && Stop(At(buf, q + 1)) && Parses(PipeAt(buf, p), buf, c, q)
    ensures Parses(LineAt(buf, p), buf, Back(c), q + 1)
  {
    hide PipeAt, Skip, TokenAt;
    NoSkip(buf, q);
    NoSkip(buf, q + 1);
    SymbolToken(buf, q);
    var t := PipeAt(buf, p).value;
    assert Backs(buf, q + 1, Back(t)) == Ok(Back(t), q + 1);
    assert Backs(buf, q, t) == Backs(buf, q + 1, Back(t));
  }

  lemma {:induction false} LineOfPrint(buf: string, p: int, c: Cmd<string>)
    requires NUL !in buf && Legal(c) && Has(buf, p, Print(c)) && Stop(At(buf, p + |Print(c)|))
    ensures Parses(LineAt(buf, p), buf, c, p + |Print(c)|)
    decreases c, 1
  {
    hide LineAt, PipeAt, ExecAt, LegalWord, Redirs;
    var e := p + |Print(c)|;
    match c {
      case Exec(args) =>
        ExecOfWords(buf, p, args);
        LineOfExec(buf, p, c, e);
      case Redir(c1, file, dir) =>
        RedirOfPrint(buf, p, c);
        LineOfExec(buf, p, c, e);
      case Pipe(l, r) =>
        PipeOfPrint(buf, p, c);
      case List(l, r) =>
        ListOfPrint(buf, p, c);
      case Back(c1) =>
        BackOfPrint(buf, p, c);
    }
  }

  lemma {:induction false} PipeOfPrint(buf: string, p: int, c: Cmd<string>)
    requires NUL !in buf && c.Pipe? && Legal(c) && Has(buf, p, Print(c)) && Stop(At(buf, p + |Print(c)|))
    ensures Parses(LineAt(buf, p), buf, c, p + |Print(c)|)
    decreases c, 0
  {
    hide LineAt, PipeAt, ExecAt, Has, Parses;
    assert Print(c) == Paren(c.left) + "|" + Paren(c.right) && Legal(c.left) && Legal(c.right);
    hide Print, Legal, Paren;
    var q, e := p + |Paren(c.left)|, p + |Print(c)|;
    TwoParts(buf, p, c.left, "|", c.right);
    SubLine(buf, p, c.left);
    SubLine(buf, q + 1, c.right);
    BlockSep(buf, p, c.left);
    BlockStop(buf, q + 1, c.right);
    LineOfExec(buf, q + 1, c.right, e);
    PipeOf(buf, p, c.left, c.right, q, e);
    LineOfPipe(buf, p, c, e);
  }

  lemma {:induction false} ListOfPrint(buf: string, p: int, c: Cmd<string>)
    requires NUL !in buf && c.List? && Legal(c) && Has(buf, p, Print(c)) && Stop(At(buf, p + |Print(c)|))
    ensures Parses(LineAt(buf, p), buf, c, p + |Print(c)|)
    decreases c, 0
  {
    hide LineAt, PipeAt, ExecAt, Has, Parses;
    assert Print(c) == Paren(c.left) + ";" + Paren(c.right) && Legal(c.left) && Legal(c.right);
    hide Print, Legal, Paren;
    var q, e := p + |Paren(c.left)|, p + |Print(c)|;
    TwoParts(buf, p, c.left, ";", c.right);
    SubLine(buf, p, c.left);
    SubLine(buf, q + 1, c.right);
    BlockSep(buf, p, c.left);
    BlockStop(buf, q + 1, c.right);
    PipeAlone(buf, p, c.left, q);
    LineOfExec(buf, q + 1, c.right, e);
    ListOf(buf, p, c.left, c.right, q, e);
  }

  lemma {:induction false} BackOfPrint(buf: string, p: int, c: Cmd<string>)
    requires NUL !in buf && c.Back? && Legal(c) && Has(buf, p, Print(c)) && Stop(At(buf, p + |Print(c)|))
    ensures Parses(LineAt(buf, p), buf, c, p + |Print(c)|)
    decreases c, 0
  {
    hide LineAt, PipeAt, ExecAt, Parses;
    var q := p + |Paren(c.cmd)|;
    HasSplit(buf, p, Paren(c.cmd), "&");
    HasAt(buf, q, "&", 0);
    SubLine(buf, p, c.cmd);
    BlockSep(buf, p, c.cmd);
    PipeAlone(buf, p, c.cmd, q);
    BackOf(buf, p, c.cmd, q);
  }

  /** Two commands in parentheses around a separator. */
  lemma TwoParts(buf: string, p: int, l: Cmd<string>, sep: string, r: Cmd<string>)
    requires Has(buf, p, Paren(l) + sep + Paren(r)) && |sep| == 1
    ensures var q := p + |Paren(l)|;
            && Has(buf, p, Paren(l)) && Has(buf, q + 1, Paren(r))
            && 0 <= p < q < |buf| && buf[q] == sep[0] && At(buf, q + 1) == '('
  {
    hide Print;
    var q := p + |Paren(l)|;
    HasSplit(buf, p, Paren(l) + sep, Paren(r));
    HasSplit(buf, p, Paren(l), sep);
    HasAt(buf, q, sep, 0);
    ParenChars(buf, q + 1, r);
  }

  lemma {:induction false} SubLine(buf: string, p: int, c: Cmd<string>)
    requires NUL !in buf && Legal(c) && Has(buf, p, Paren(c))
    ensures Parses(LineAt(buf, p + 1), buf, c, p + 1 + |Print(c)|)
    decreases c, 2
  {
    hide LineAt, Print, Legal;
    ParenChars(buf, p, c);
    LineOfPrint(buf, p + 1, c);
  }

  lemma {:induction false} RedirOfPrint(buf: string, p: int, c: Cmd<string>)
    requires NUL !in buf && c.Redir? && Legal(c) && Has(buf, p, Print(c)) && Stop(At(buf, p + |Print(c)|))
    ensures Parses(ExecAt(buf, p), buf, c, p + |Print(c)|)
    decreases c, 0
  {
    hide LineAt, ExecAt, LegalWord, Redirs, Has;
    var block, tail := Paren(c.cmd), Sign(c.dir) + c.file;
    assert Print(c) == block + tail;
    HasSplit(buf, p, block, tail);
    SubLine(buf, p, c.cmd);
    OneRedir(buf, p + |block|, c.file, c.dir);
    InParens(buf, p, c.cmd);
    var line, rs := LineAt(buf, p + 1).value, Redirs(buf, p + |block|, []).value;
    assert rs[..0] == [];
    assert Wrap(line, rs) == Redir(line, rs[0].file, rs[0].dir);
  }

  lemma {:induction false} PrintPlain(c: Cmd<string>)
    requires Legal(c)
    ensures NUL !in Print(c)
  {
    match c
    case Exec(args) => JoinPlain(args);
    case Redir(c1, file, dir) => PrintPlain(c1);
    case Pipe(l, r) => PrintPlain(l); PrintPlain(r);
    case List(l, r) => PrintPlain(l); PrintPlain(r);
    case Back(c1) => PrintPlain(c1);
  }

  lemma {:induction false} JoinPlain(ws: seq<string>)
    requires forall i :: 0 <= i < |ws| ==> LegalWord(ws[i])
    ensures NUL !in Join(ws)
  {
    if |ws| > 1 {
      JoinPlain(ws[1..]);
    }
  }

  /** parsecmd on the printed text of a legal command is that command. */
  lemma ParseOfPrint(c: Cmd<string>)
    requires Legal(c)
    ensures NUL !in Print(c)
    ensures Parses(CmdOf(Print(c)), Print(c), c, |Print(c)|)
  {
    hide LineAt, Legal, Skip, Print;
    PrintPlain(c);
    LineOfPrint(Print(c), 0, c);
    NoSkip(Print(c), |Print(c)|);
  }

  /** So no two legal commands print alike. */
  lemma PrintInjective(c1: Cmd<string>, c2: Cmd<string>)
    requires Legal(c1) && Legal(c2) && Print(c1) == Print(c2)
    ensures c1 == c2
  {
    hide Print, Legal, CmdOf;
    ParseOfPrint(c1);
    ParseOfPrint(c2);
  }
}
