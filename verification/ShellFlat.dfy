/** What sh.c accepts and what it makes of it: the flat syntax of command lines, with redirections anywhere among
    the words of a command and no parentheses but the user's own. */
module ShellFlat {
  import opened Shell
  import opened ShellPrint
  import opened ShellLex

  // ---------- command lines and their meaning ----------

  /** A word, or a redirection: sign is '<', '>', or '+' for >>. */
  datatype Item = Word(text: string) | To(sign: char, file: string)

  datatype Command = Simple(items: seq<Item>) | Block(line: Line, redirs: seq<Item>)

  datatype Pipeline = One(command: Command) | Into(command: Command, next: Pipeline)

  /** A pipeline with backs ampersands after it; Then is followed by a semicolon and the rest. */
  datatype Line = Last(pipe: Pipeline, backs: nat) | Then(pipe: Pipeline, backs: nat, rest: Line)

  function Words(items: seq<Item>): seq<string> {
    if items == [] then [] else (if items[0].Word? then [items[0].text] else []) + Words(items[1..])
  }

  datatype Redirection = Redirection(file: string, dir: Direction)

  function Redirections(items: seq<Item>): seq<Redirection> {
    if items == [] then []
    else (if items[0].To? then [Redirection(items[0].file, if items[0].sign == '<' then In else Out)] else [])
         + Redirections(items[1..])
  }

  /** c with the redirections ds around it, the first one innermost. */
  function Around(c: Cmd<string>, ds: seq<Redirection>): Cmd<string> {
    if ds == [] then c
    else Redir(Around(c, ds[..|ds| - 1]), ds[|ds| - 1].file, ds[|ds| - 1].dir)
  }

  function Backed(c: Cmd<string>, n: nat): Cmd<string>
    decreases n
  {
    if n == 0 then c else Backed(Back(c), n - 1)
  }

  function CommandTree(e: Command): Cmd<string> {
    match e
    case Simple(items) => Around(Exec(Words(items)), Redirections(items))
    case Block(line, redirs) => Around(LineTree(line), Redirections(redirs))
  }

  /** | associates to the right, */
  function PipeTree(p: Pipeline): Cmd<string> {
    match p
    case One(e) => CommandTree(e)
    case Into(e, next) => Pipe(CommandTree(e), PipeTree(next))
  }

  /** & binds a whole pipeline, and ; binds loosest, to the right. */
  function LineTree(l: Line): Cmd<string> {
    match l
    case Last(p, n) => Backed(PipeTree(p), n)
    case Then(p, n, rest) => List(Backed(PipeTree(p), n), LineTree(rest))
  }

  // ---------- as tokens, followed by the tokens in rest ----------

  function ItemToks(items: seq<Item>, rest: seq<Tok>): seq<Tok> {
    if items == [] then rest
    else (match items[0] case Word(w) => [W(w)] case To(sign, file) => [S(sign), W(file)]) + ItemToks(items[1..], rest)
  }

  function CommandToks(e: Command, rest: seq<Tok>): seq<Tok>
    decreases e
  {
    match e
    case Simple(items) => ItemToks(items, rest)
    case Block(line, redirs) => [S('(')] + LineToks(line, [S(')')] + ItemToks(redirs, rest))
  }

  function PipeToks(p: Pipeline, rest: seq<Tok>): seq<Tok>
    decreases p
  {
    match p
    case One(e) => CommandToks(e, rest)
    case Into(e, next) => CommandToks(e, [S('|')] + PipeToks(next, rest))
  }

  function Amps(n: nat, rest: seq<Tok>): seq<Tok> {
    if n == 0 then rest else [S('&')] + Amps(n - 1, rest)
  }

  function LineToks(l: Line, rest: seq<Tok>): seq<Tok>
    decreases l
  {
    match l
    case Last(p, n) => PipeToks(p, Amps(n, rest))
    case Then(p, n, next) => PipeToks(p, Amps(n, [S(';')] + LineToks(next, rest)))
  }

  // ---------- legal command lines ----------

  ghost predicate LegalItem(i: Item) {
    match i
    case Word(w) => LegalWord(w)
    case To(sign, file) => (sign == '<' || sign == '>' || sign == '+') && LegalWord(file)
  }

  ghost predicate LegalItems(items: seq<Item>) {
    forall i :: 0 <= i < |items| ==> LegalItem(items[i])
  }

  ghost predicate OnlyTo(items: seq<Item>) {
    forall i :: 0 <= i < |items| ==> items[i].To?
  }

  ghost predicate LegalCommand(e: Command) {
    match e
    case Simple(items) => LegalItems(items) && |Words(items)| < MAXARGS
    case Block(line, redirs) => LegalLine(line) && LegalItems(redirs) && OnlyTo(redirs)
  }

  ghost predicate LegalPipe(p: Pipeline) {
    match p
    case One(e) => LegalCommand(e)
    case Into(e, next) => LegalCommand(e) && LegalPipe(next)
  }

  ghost predicate LegalLine(l: Line) {
    match l
    case Last(p, n) => LegalPipe(p)
    case Then(p, n, rest) => LegalPipe(p) && LegalLine(rest)
  }

  // ---------- redirections ----------

  function Named(buf: string, rs: seq<Redirect>): (ds: seq<Redirection>)
    ensures |ds| == |rs|
    ensures forall i :: 0 <= i < |rs| ==> ds[i] == Redirection(Text(buf, rs[i].file), rs[i].dir)
  {
    seq(|rs|, i requires 0 <= i < |rs| => Redirection(Text(buf, rs[i].file), rs[i].dir))
  }

  lemma {:induction false} WrapAround(buf: string, c: Cmd<Range>, rs: seq<Redirect>)
    ensures Resolve(buf, Wrap(c, rs)) == Around(Resolve(buf, c), Named(buf, rs))
  {
    if rs != [] {
      WrapAround(buf, c, rs[..|rs| - 1]);
      assert Named(buf, rs)[..|rs| - 1] == Named(buf, rs[..|rs| - 1]);
    }
  }

  lemma NamedMore(buf: string, rs: seq<Redirect>, r: Redirect)
    ensures Named(buf, rs + [r]) == Named(buf, rs) + [Redirection(Text(buf, r.file), r.dir)]
  {
  }

  /** One redirection of the buffer. */
  lemma RedirsStep(buf: string, ps: int, rs: seq<Redirect>)
    requires 0 <= ps <= |buf| && NUL !in buf && Next(Toks(buf, ps), "<>")
    ensures var ts := Toks(buf, ps);
            if |ts| == 1 || !ts[1].W? then Redirs(buf, ps, rs) == Panic(MissingFile)
            else
              var f := TokenAt(buf, TokenAt(buf, ps).ps);
              && ps < f.ps <= |buf| && Toks(buf, f.ps) == ts[2..] && Text(buf, Range(f.q, f.eq)) == ts[1].text
              && Redirs(buf, ps, rs) == Redirs(buf, f.ps, rs + [Redirect(Range(f.q, f.eq), if ts[0].kind == '<' then In else Out)])
  {
    hide TokenAt, Skip, Peek, Toks;
    PeekToks(buf, ps, "<>");
    NextTok(buf, ps);
    NextTok(buf, TokenAt(buf, ps).ps);
  }

  lemma RedirsStop(buf: string, ps: int, rs: seq<Redirect>)
    requires 0 <= ps <= |buf| && NUL !in buf && !Next(Toks(buf, ps), "<>")
    ensures Redirs(buf, ps, rs) == Ok(rs, Skip(buf, ps)) && Toks(buf, Skip(buf, ps)) == Toks(buf, ps)
  {
    hide TokenAt, Skip, Peek, Toks;
    PeekToks(buf, ps, "<>");
    SkipToks(buf, ps);
  }

  lemma ToFirst(items: seq<Item>, rest: seq<Tok>)
    requires items != [] && items[0].To? && LegalItems(items)
    ensures var ts, i := ItemToks(items, rest), items[0];
            && |ts| >= 2 && ts[0] == S(i.sign) && ts[1] == W(i.file) && ts[2..] == ItemToks(items[1..], rest) && Next(ts, "<>")
            && Words(items) == Words(items[1..]) && LegalItems(items[1..])
            && Redirections(items) == [Redirection(i.file, if i.sign == '<' then In else Out)] + Redirections(items[1..])
  {
    assert LegalItem(items[0]);
  }

  lemma WordFirst(items: seq<Item>, rest: seq<Tok>)
    requires items != [] && items[0].Word? && LegalItems(items)
    ensures var ts := ItemToks(items, rest);
            && ts != [] && ts[0] == W(items[0].text) && ts[1..] == ItemToks(items[1..], rest)
            && Words(items) == [items[0].text] + Words(items[1..]) && Redirections(items) == Redirections(items[1..])
            && LegalItems(items[1..])
  {
  }

  /** parseredirs takes the redirections at the front of items and leaves the rest of them. */
  lemma {:induction false} RedirsOf(buf: string, ps: int, rs: seq<Redirect>, items: seq<Item>, rest: seq<Tok>) returns (left: seq<Item>)
    requires 0 <= ps <= |buf| && NUL !in buf && Toks(buf, ps) == ItemToks(items, rest) && LegalItems(items) && !Next(rest, "<>")
    ensures var r := Redirs(buf, ps, rs);
            && r.Ok? && ps <= r.ps <= |buf| && Toks(buf, r.ps) == ItemToks(left, rest)
            && Named(buf, r.value) + Redirections(left) == Named(buf, rs) + Redirections(items) && Words(left) == Words(items)
    ensures |left| <= |items| && LegalItems(left) && (left != [] ==> left[0].Word?) && (OnlyTo(items) ==> left == [])
    decreases |items|
  {
    if items == [] {
      RedirsStop(buf, ps, rs);
      left := items;
    } else if items[0].Word? {
      WordFirst(items, rest);
      RedirsStop(buf, ps, rs);
      left := items;
    } else {
      hide TokenAt, Skip, Toks, Redirs, LegalItems, ItemToks, Words, Redirections, Next;
      var ts := Toks(buf, ps);
      ToFirst(items, rest);
      RedirsStep(buf, ps, rs);
      var f := TokenAt(buf, TokenAt(buf, ps).ps);
      var r := Redirect(Range(f.q, f.eq), if ts[0].kind == '<' then In else Out);
      left := RedirsOf(buf, f.ps, rs + [r], items[1..], rest);
      NamedMore(buf, rs, r);
      MoreFirst(Named(buf, rs), Redirections(items)[0], Redirections(items[1..]));
    }
  }

  lemma MoreFirst<T>(a: seq<T>, x: T, b: seq<T>)
    ensures a + [x] + b == a + ([x] + b)
  {
  }

  // ---------- simple commands ----------

  /** What may follow a command. */
  predicate Follow(ts: seq<Tok>) {
    ts == [] || Next(ts, "|)&;")
  }

  lemma ArgsStop(buf: string, ps: int, args: seq<Range>, rs: seq<Redirect>)
    requires 0 <= ps <= |buf| && NUL !in buf && Follow(Toks(buf, ps))
    ensures var r := Args(buf, ps, args, rs);
            r.Ok? && r.value == Wrap(Exec(args), rs) && Toks(buf, r.ps) == Toks(buf, ps)
  {
    hide TokenAt, Skip, Peek, Redirs, Wrap;
    PeekToks(buf, ps, "|)&;");
    SkipToks(buf, ps);
    if !Peek(buf, ps, "|)&;") {
      NextTok(buf, ps);
      EndToks(buf, ps);
    }
  }

  lemma EndToks(buf: string, ps: int)
    requires 0 <= ps <= |buf| && NUL !in buf && TokenAt(buf, ps).kind == NUL
    ensures Toks(buf, TokenAt(buf, ps).ps) == []
  {
  }

  lemma ArgsWord(buf: string, ps: int, args: seq<Range>, rs: seq<Redirect>)
    requires 0 <= ps <= |buf| && NUL !in buf && Toks(buf, ps) != [] && Toks(buf, ps)[0].W?
    ensures var t, ts := TokenAt(buf, ps), Toks(buf, ps);
            && ps < t.ps <= |buf| && Toks(buf, t.ps) == ts[1..] && Text(buf, Range(t.q, t.eq)) == ts[0].text
            && var r := Redirs(buf, t.ps, rs);
            && Args(buf, ps, args, rs) == if |args| + 1 >= MAXARGS then Panic(TooManyArgs)
                                          else if r.Panic? then Panic(r.error)
                                          else Args(buf, r.ps, args + [Range(t.q, t.eq)], r.value)
  {
    hide TokenAt, Skip, Peek, Redirs, Toks;
    PeekToks(buf, ps, "|)&;");
    NextTok(buf, ps);
  }

  lemma {:induction false} ArgsOf(buf: string, ps: int, args: seq<Range>, rs: seq<Redirect>, items: seq<Item>, rest: seq<Tok>)
    requires 0 <= ps <= |buf| && NUL !in buf && Toks(buf, ps) == ItemToks(items, rest) && LegalItems(items) && Follow(rest)
    requires (items != [] ==> items[0].Word?) && |args| + |Words(items)| < MAXARGS
    ensures var r := Args(buf, ps, args, rs);
            && r.Ok? && Toks(buf, r.ps) == rest
            && Resolve(buf, r.value) == Around(Exec(Texts(buf, args) + Words(items)), Named(buf, rs) + Redirections(items))
    decreases |items|
  {
    if items == [] {
      hide TokenAt, Skip, Toks, Redirs, Args;
      ArgsStop(buf, ps, args, rs);
      WrapAround(buf, Exec(args), rs);
      assert Texts(buf, args) + Words(items) == Texts(buf, args) && Named(buf, rs) + Redirections(items) == Named(buf, rs);
    } else {
      hide TokenAt, Skip, Toks, Redirs, Args, LegalItems, ItemToks, Words, Redirections, Next, Around, Resolve;
      WordFirst(items, rest);
      ArgsWord(buf, ps, args, rs);
      FollowStops(rest);
      var t := TokenAt(buf, ps);
      var left := RedirsOf(buf, t.ps, rs, items[1..], rest);
      var r, w := Redirs(buf, t.ps, rs), Range(t.q, t.eq);
      ArgsOf(buf, r.ps, args + [w], r.value, left, rest);
      assert Texts(buf, args + [w]) == Texts(buf, args) + [items[0].text];
      MoreFirst(Texts(buf, args), items[0].text, Words(left));
    }
  }

  lemma FollowStops(ts: seq<Tok>)
    requires Follow(ts)
    ensures !Next(ts, "<>")
  {
  }

  // ---------- every legal command line parses to its meaning ----------

  /** r is a parse of c after which the tokens rest are left. */
  ghost predicate Reads(r: Parse<Cmd<Range>>, buf: string, c: Cmd<string>, rest: seq<Tok>) {
    NUL !in buf && r.Ok? && 0 <= r.ps <= |buf| && Resolve(buf, r.value) == c && Toks(buf, r.ps) == rest
  }

  lemma SimpleOf(buf: string, ps: int, items: seq<Item>, rest: seq<Tok>)
    requires 0 <= ps <= |buf| && NUL !in buf && Toks(buf, ps) == ItemToks(items, rest) && LegalCommand(Simple(items)) && Follow(rest)
    ensures Reads(ExecAt(buf, ps), buf, CommandTree(Simple(items)), rest)
  {
    hide TokenAt, Skip, Toks, Redirs, Args, BlockAt, Peek, LegalItems;
    PeekToks(buf, ps, "(");
    assert !Next(Toks(buf, ps), "(") by { FirstItem(items, rest); }
    var left := RedirsOf(buf, ps, [], items, rest);
    var r := Redirs(buf, ps, []);
    ArgsOf(buf, r.ps, [], r.value, left, rest);
    assert Texts(buf, []) + Words(left) == Words(items) && Named(buf, r.value) + Redirections(left) == Redirections(items);
  }

  lemma FirstItem(items: seq<Item>, rest: seq<Tok>)
    requires LegalItems(items) && Follow(rest)
    ensures !Next(ItemToks(items, rest), "(")
  {
  }

  lemma {:induction false} BlockOf(buf: string, ps: int, line: Line, redirs: seq<Item>, rest: seq<Tok>)
    requires 0 <= ps <= |buf| && NUL !in buf && LegalCommand(Block(line, redirs)) && Follow(rest)
    requires Toks(buf, ps) == CommandToks(Block(line, redirs), rest)
    ensures Reads(ExecAt(buf, ps), buf, CommandTree(Block(line, redirs)), rest)
    decreases line, 1
  {
    hide TokenAt, Skip, Toks, Redirs, Args, Peek, LineAt, LineToks, LegalItems;
    var tail := [S(')')] + ItemToks(redirs, rest);
    PeekToks(buf, ps, "(");
    NextTok(buf, ps);
    var p := TokenAt(buf, ps).ps;
    assert Toks(buf, p) == LineToks(line, tail);
    LineIs(buf, p, line, tail);
    var c := LineAt(buf, p);
    PeekToks(buf, c.ps, ")");
    NextTok(buf, c.ps);
    assert tail[1..] == ItemToks(redirs, rest);
    var left := RedirsOf(buf, TokenAt(buf, c.ps).ps, [], redirs, rest);
    var r := Redirs(buf, TokenAt(buf, c.ps).ps, []);
    WrapAround(buf, c.value, r.value);
    assert Named(buf, r.value) + Redirections(left) == Named(buf, r.value);
    assert Named(buf, []) + Redirections(redirs) == Redirections(redirs);
  }

  lemma {:induction false} CommandIs(buf: string, ps: int, e: Command, rest: seq<Tok>)
    requires 0 <= ps <= |buf| && NUL !in buf && Toks(buf, ps) == CommandToks(e, rest) && LegalCommand(e) && Follow(rest)
    ensures Reads(ExecAt(buf, ps), buf, CommandTree(e), rest)
    decreases e, 0
  {
    hide ExecAt, Toks, LegalItems;
    match e
    case Simple(items) => SimpleOf(buf, ps, items, rest);
    case Block(line, redirs) => BlockOf(buf, ps, line, redirs, rest);
  }

  lemma {:induction false} PipeIs(buf: string, ps: int, p: Pipeline, rest: seq<Tok>)
    requires 0 <= ps <= |buf| && NUL !in buf && Toks(buf, ps) == PipeToks(p, rest) && LegalPipe(p) && Follow(rest) && !Next(rest, "|")
    ensures Reads(PipeAt(buf, ps), buf, PipeTree(p), rest)
    decreases p, 0
  {
    hide ExecAt, TokenAt, Skip, Toks, Peek, CommandToks, LegalCommand, CommandTree;
    var l := ExecAt(buf, ps);
    match p {
      case One(e) =>
        CommandIs(buf, ps, e, rest);
        PeekToks(buf, l.ps, "|");
        SkipToks(buf, l.ps);
      case Into(e, next) =>
        var tail := [S('|')] + PipeToks(next, rest);
        CommandIs(buf, ps, e, tail);
        PeekToks(buf, l.ps, "|");
        NextTok(buf, l.ps);
        assert tail[1..] == PipeToks(next, rest);
        PipeIs(buf, TokenAt(buf, l.ps).ps, next, rest);
    }
  }

  lemma {:induction false} BacksOf(buf: string, ps: int, c: Cmd<Range>, n: nat, rest: seq<Tok>)
    requires 0 <= ps <= |buf| && NUL !in buf && Toks(buf, ps) == Amps(n, rest) && !Next(rest, "&")
    ensures Reads(Backs(buf, ps, c), buf, Backed(Resolve(buf, c), n), rest)
    decreases n
  {
    hide TokenAt, Skip, Toks, Peek;
    PeekToks(buf, ps, "&");
    if n == 0 {
      SkipToks(buf, ps);
    } else {
      NextTok(buf, ps);
      assert Amps(n, rest)[1..] == Amps(n - 1, rest);
      BacksOf(buf, TokenAt(buf, ps).ps, Back(c), n - 1, rest);
    }
  }

  /** The last pipeline of l has an & after it. */
  predicate EndsAmp(l: Line) {
    match l
    case Last(p, n) => n > 0
    case Then(p, n, rest) => EndsAmp(rest)
  }

  /** parseline stops before ts: at the end, at a closing parenthesis and, after an &, at all but & and ;. */
  predicate Ends(l: Line, ts: seq<Tok>) {
    ts == [] || Next(ts, ")") || (EndsAmp(l) && !Next(ts, "&;"))
  }

  lemma AmpsFollow(n: nat, rest: seq<Tok>)
    requires n > 0 || (Follow(rest) && !Next(rest, "|"))
    ensures Follow(Amps(n, rest)) && !Next(Amps(n, rest), "|")
  {
  }

  lemma {:induction false} LineIs(buf: string, ps: int, l: Line, rest: seq<Tok>)
    requires 0 <= ps <= |buf| && NUL !in buf && Toks(buf, ps) == LineToks(l, rest) && LegalLine(l) && Ends(l, rest)
    ensures Reads(LineAt(buf, ps), buf, LineTree(l), rest)
    decreases l, 0
  {
    hide PipeAt, TokenAt, Skip, Toks, Peek, PipeToks, LegalPipe, Backs, PipeTree, Amps, Backed;
    var tail := if l.Last? then rest else [S(';')] + LineToks(l.rest, rest);
    AmpsFollow(l.backs, tail);
    PipeIs(buf, ps, l.pipe, Amps(l.backs, tail));
    var p := PipeAt(buf, ps);
    BacksOf(buf, p.ps, p.value, l.backs, tail);
    var b := Backs(buf, p.ps, p.value);
    PeekToks(buf, b.ps, ";");
    SkipToks(buf, b.ps);
    if l.Then? {
      NextTok(buf, b.ps);
      assert tail[1..] == LineToks(l.rest, rest);
      LineIs(buf, TokenAt(buf, b.ps).ps, l.rest, rest);
    }
  }

  // ---------- what parses is a legal command line ----------

  lemma {:induction false} ConcatToks(a: seq<Item>, b: seq<Item>, rest: seq<Tok>)
    ensures ItemToks(a + b, rest) == ItemToks(a, ItemToks(b, rest))
    decreases |a|
  {
    if a == [] {
      assert a + b == b;
    } else {
      ConcatToks(a[1..], b, rest);
      assert (a + b)[1..] == a[1..] + b && (a + b)[0] == a[0];
    }
  }

  lemma {:induction false} ConcatWords(a: seq<Item>, b: seq<Item>)
    ensures Words(a + b) == Words(a) + Words(b)
    decreases |a|
  {
    if a == [] {
      assert a + b == b;
    } else {
      ConcatWords(a[1..], b);
      assert (a + b)[1..] == a[1..] + b && (a + b)[0] == a[0];
      hide Words;
      WordsStep(a);
      WordsStep(a + b);
    }
  }

  lemma WordsStep(items: seq<Item>)
    requires items != []
    ensures Words(items) == (if items[0].Word? then [items[0].text] else []) + Words(items[1..])
  {
  }

  lemma {:induction false} ConcatRedirections(a: seq<Item>, b: seq<Item>)
    ensures Redirections(a + b) == Redirections(a) + Redirections(b)
    decreases |a|
  {
    if a == [] {
      assert a + b == b;
    } else {
      ConcatRedirections(a[1..], b);
      assert (a + b)[1..] == a[1..] + b && (a + b)[0] == a[0];
      hide Redirections;
      RedirectionsStep(a);
      RedirectionsStep(a + b);
    }
  }

  lemma RedirectionsStep(items: seq<Item>)
    requires items != []
    ensures Redirections(items)
            == (if items[0].To? then [Redirection(items[0].file, if items[0].sign == '<' then In else Out)] else [])
               + Redirections(items[1..])
  {
  }

  lemma Concat(a: seq<Item>, b: seq<Item>, rest: seq<Tok>)
    ensures ItemToks(a + b, rest) == ItemToks(a, ItemToks(b, rest))
    ensures Words(a + b) == Words(a) + Words(b) && Redirections(a + b) == Redirections(a) + Redirections(b)
  {
    ConcatToks(a, b, rest);
    ConcatWords(a, b);
    ConcatRedirections(a, b);
  }

  lemma {:induction false} OnlyToWords(items: seq<Item>)
    requires OnlyTo(items)
    ensures Words(items) == []
  {
    if items != [] {
      OnlyToWords(items[1..]);
    }
  }

  lemma {:induction false} RedirsFrom(buf: string, ps: int, rs: seq<Redirect>) returns (items: seq<Item>)
    requires 0 <= ps <= |buf| && NUL !in buf && Redirs(buf, ps, rs).Ok?
    ensures var r := Redirs(buf, ps, rs);
            && Toks(buf, ps) == ItemToks(items, Toks(buf, r.ps)) && LegalItems(items) && OnlyTo(items)
            && Named(buf, r.value) == Named(buf, rs) + Redirections(items)
    decreases |buf| - ps
  {
    hide TokenAt, Skip, Toks, Redirs, LegalWord;
    var ts := Toks(buf, ps);
    if Next(ts, "<>") {
      RedirsStep(buf, ps, rs);
      var f := TokenAt(buf, TokenAt(buf, ps).ps);
      TwoLegal(buf, ps);
      var r := Redirect(Range(f.q, f.eq), if ts[0].kind == '<' then In else Out);
      var more := RedirsFrom(buf, f.ps, rs + [r]);
      items := [To(ts[0].kind, ts[1].text)] + more;
      assert items[1..] == more;
      NamedMore(buf, rs, r);
      MoreFirst(Named(buf, rs), Redirections(items)[0], Redirections(more));
      assert ts == [ts[0], ts[1]] + ts[2..];
    } else {
      RedirsStop(buf, ps, rs);
      items := [];
    }
  }

  lemma TwoLegal(buf: string, ps: int)
    requires 0 <= ps <= |buf| && NUL !in buf && |Toks(buf, ps)| > 1
    ensures LegalTok(Toks(buf, ps)[0]) && LegalTok(Toks(buf, ps)[1])
  {
    hide TokenAt, Toks, LegalTok;
    NextTok(buf, ps);
    TokLegal(buf, ps);
    TokLegal(buf, TokenAt(buf, ps).ps);
  }

  /** A symbol that ends no command is an error inside one. */
  lemma ArgsSymbol(buf: string, ps: int, args: seq<Range>, rs: seq<Redirect>)
    requires 0 <= ps <= |buf| && NUL !in buf && !Follow(Toks(buf, ps)) && Toks(buf, ps)[0].S?
    ensures Args(buf, ps, args, rs) == Panic(Syntax)
  {
    hide TokenAt, Skip, Peek, Redirs, Toks;
    PeekToks(buf, ps, "|)&;");
    NextTok(buf, ps);
  }

  lemma {:induction false} ArgsFrom(buf: string, ps: int, args: seq<Range>, rs: seq<Redirect>) returns (items: seq<Item>)
    requires 0 <= ps <= |buf| && NUL !in buf && Args(buf, ps, args, rs).Ok? && |args| < MAXARGS
    ensures var r := Args(buf, ps, args, rs);
            && Toks(buf, ps) == ItemToks(items, Toks(buf, r.ps)) && LegalItems(items) && |args| + |Words(items)| < MAXARGS
            && Resolve(buf, r.value) == Around(Exec(Texts(buf, args) + Words(items)), Named(buf, rs) + Redirections(items))
    decreases |buf| - ps
  {
    hide TokenAt, Skip, Toks, Redirs, Args, LegalWord, Around, Resolve;
    var ts := Toks(buf, ps);
    if Follow(ts) {
      ArgsStop(buf, ps, args, rs);
      WrapAround(buf, Exec(args), rs);
      ResolveExec(buf, args);
      items := [];
      assert Texts(buf, args) + Words(items) == Texts(buf, args) && Named(buf, rs) + Redirections(items) == Named(buf, rs);
    } else if ts[0].S? {
      ArgsSymbol(buf, ps, args, rs);
      assert false;
    } else {
      hide Follow, Next, Words, Redirections, LegalItems, LegalItem, OnlyTo, ItemToks;
      ArgsWord(buf, ps, args, rs);
      TokLegal(buf, ps);
      var t := TokenAt(buf, ps);
      var r, w := Redirs(buf, t.ps, rs), Range(t.q, t.eq);
      var tos := RedirsFrom(buf, t.ps, rs);
      var left := ArgsFrom(buf, r.ps, args + [w], r.value);
      OnlyToWords(tos);
      items := Prepended(ts[0].text, tos, left, Toks(buf, Args(buf, ps, args, rs).ps));
      assert Texts(buf, args + [w]) == Texts(buf, args) + [ts[0].text];
      MoreFirst(Texts(buf, args), ts[0].text, Words(left));
      assert Named(buf, rs) + Redirections(tos) + Redirections(left) == Named(buf, rs) + (Redirections(tos) + Redirections(left));
    }
  }

  lemma ResolveExec(buf: string, args: seq<Range>)
    ensures Resolve(buf, Exec(args)) == Exec(Texts(buf, args))
  {
  }

  lemma Prepended(w: string, tos: seq<Item>, left: seq<Item>, rest: seq<Tok>) returns (items: seq<Item>)
    requires LegalWord(w) && LegalItems(tos) && OnlyTo(tos) && LegalItems(left)
    ensures LegalItems(items) && ItemToks(items, rest) == [W(w)] + ItemToks(tos, ItemToks(left, rest))
    ensures Words(items) == [w] + Words(left) && Redirections(items) == Redirections(tos) + Redirections(left)
  {
    hide LegalWord;
    Concat(tos, left, rest);
    OnlyToWords(tos);
    items := [Word(w)] + (tos + left);
    assert items[1..] == tos + left;
  }

  /** f is what stands at ps, up to where r ends. */
  ghost predicate From(buf: string, ps: int, r: Parse<Cmd<Range>>, ts: seq<Tok>, c: Cmd<string>) {
    && 0 <= ps <= |buf| && NUL !in buf && r.Ok? && 0 <= r.ps <= |buf|
    && Toks(buf, ps) == ts && Resolve(buf, r.value) == c
  }

  lemma {:induction false} CommandFrom(buf: string, ps: int) returns (e: Command)
    requires 0 <= ps <= |buf| && NUL !in buf && ExecAt(buf, ps).Ok?
    ensures var r := ExecAt(buf, ps); LegalCommand(e) && From(buf, ps, r, CommandToks(e, Toks(buf, r.ps)), CommandTree(e))
    decreases |buf| - ps, 1
  {
    hide TokenAt, Skip, Toks, Redirs, Args, BlockAt, LegalItems, Resolve, Around, ItemToks, Words, Redirections;
    if Peek(buf, ps, "(") {
      e := BlockFrom(buf, ps);
    } else {
      hide Peek;
      var tos := RedirsFrom(buf, ps, []);
      var r := Redirs(buf, ps, []);
      var left := ArgsFrom(buf, r.ps, [], r.value);
      var items := Joined(tos, left, Toks(buf, ExecAt(buf, ps).ps));
      assert Texts(buf, []) + Words(left) == Words(items) && Named(buf, []) + Redirections(tos) == Redirections(tos);
      e := Simple(items);
    }
  }

  lemma Joined(tos: seq<Item>, left: seq<Item>, rest: seq<Tok>) returns (items: seq<Item>)
    requires LegalItems(tos) && OnlyTo(tos) && LegalItems(left)
    ensures LegalItems(items) && ItemToks(items, rest) == ItemToks(tos, ItemToks(left, rest))
    ensures Words(items) == Words(left) && Redirections(items) == Redirections(tos) + Redirections(left)
  {
    hide LegalItem;
    Concat(tos, left, rest);
    OnlyToWords(tos);
    items := tos + left;
  }

  lemma {:induction false} BlockFrom(buf: string, ps: int) returns (e: Command)
    requires 0 <= ps <= |buf| && NUL !in buf && Peek(buf, ps, "(") && BlockAt(buf, ps).Ok?
    ensures var r := BlockAt(buf, ps); LegalCommand(e) && From(buf, ps, r, CommandToks(e, Toks(buf, r.ps)), CommandTree(e))
    decreases |buf| - ps, 0
  {
    hide TokenAt, Skip, Toks, Redirs, LineAt, LegalItems, Around, ItemToks, Redirections, LineToks, LegalLine;
    PeekToks(buf, ps, "(");
    NextTok(buf, ps);
    var p := TokenAt(buf, ps).ps;
    var line := LineFrom(buf, p);
    var c := LineAt(buf, p);
    PeekToks(buf, c.ps, ")");
    NextTok(buf, c.ps);
    var q := TokenAt(buf, c.ps).ps;
    var redirs := RedirsFrom(buf, q, []);
    WrapAround(buf, c.value, Redirs(buf, q, []).value);
    assert Named(buf, []) + Redirections(redirs) == Redirections(redirs);
    OneSymbol(buf, ps, '(');
    OneSymbol(buf, c.ps, ')');
    e := Block(line, redirs);
  }

  /** A next token of one character is that symbol. */
  lemma OneSymbol(buf: string, ps: int, c: char)
    requires 0 <= ps <= |buf| && NUL !in buf && Next(Toks(buf, ps), [c]) && c != '>'
    ensures Toks(buf, ps) == [S(c)] + Toks(buf, TokenAt(buf, ps).ps)
  {
    hide TokenAt, Toks;
    NextTok(buf, ps);
    assert Head(Toks(buf, ps)[0].kind) == c;
    assert Toks(buf, ps) == [Toks(buf, ps)[0]] + Toks(buf, ps)[1..];
  }

  lemma {:induction false} PipeFrom(buf: string, ps: int) returns (p: Pipeline)
    requires 0 <= ps <= |buf| && NUL !in buf && PipeAt(buf, ps).Ok?
    ensures var r := PipeAt(buf, ps); LegalPipe(p) && From(buf, ps, r, PipeToks(p, Toks(buf, r.ps)), PipeTree(p))
    decreases |buf| - ps, 2
  {
    hide ExecAt, TokenAt, Skip, Toks, Peek, CommandToks, LegalCommand, CommandTree;
    var e := CommandFrom(buf, ps);
    var l := ExecAt(buf, ps);
    PeekToks(buf, l.ps, "|");
    SkipToks(buf, l.ps);
    if Peek(buf, l.ps, "|") {
      NextTok(buf, l.ps);
      OneSymbol(buf, l.ps, '|');
      var next := PipeFrom(buf, TokenAt(buf, l.ps).ps);
      p := Into(e, next);
    } else {
      p := One(e);
    }
  }

  lemma {:induction false} BacksFrom(buf: string, ps: int, c: Cmd<Range>) returns (n: nat)
    requires 0 <= ps <= |buf| && NUL !in buf
    ensures var r := Backs(buf, ps, c); From(buf, ps, r, Amps(n, Toks(buf, r.ps)), Backed(Resolve(buf, c), n))
    decreases |buf| - ps
  {
    hide TokenAt, Skip, Toks, Peek;
    PeekToks(buf, ps, "&");
    SkipToks(buf, ps);
    if Peek(buf, ps, "&") {
      NextTok(buf, ps);
      OneSymbol(buf, ps, '&');
      n := BacksFrom(buf, TokenAt(buf, ps).ps, Back(c));
      n := n + 1;
    } else {
      n := 0;
    }
  }

  lemma {:induction false} LineFrom(buf: string, ps: int) returns (l: Line)
    requires 0 <= ps <= |buf| && NUL !in buf && LineAt(buf, ps).Ok?
    ensures var r := LineAt(buf, ps); LegalLine(l) && From(buf, ps, r, LineToks(l, Toks(buf, r.ps)), LineTree(l))
    decreases |buf| - ps, 3
  {
    hide PipeAt, TokenAt, Skip, Toks, Peek, PipeToks, LegalPipe, PipeTree, Amps, Backed, Backs;
    var p := PipeFrom(buf, ps);
    var q := PipeAt(buf, ps);
    var n := BacksFrom(buf, q.ps, q.value);
    var b := Backs(buf, q.ps, q.value);
    PeekToks(buf, b.ps, ";");
    SkipToks(buf, b.ps);
    if Peek(buf, b.ps, ";") {
      NextTok(buf, b.ps);
      OneSymbol(buf, b.ps, ';');
      var rest := LineFrom(buf, TokenAt(buf, b.ps).ps);
      l := Then(p, n, rest);
    } else {
      l := Last(p, n);
    }
  }

  // ---------- the language of sh.c ----------

  lemma {:induction false} ItemsLegalToks(items: seq<Item>, rest: seq<Tok>)
    requires LegalItems(items) && LegalToks(rest)
    ensures LegalToks(ItemToks(items, rest))
  {
    if items != [] {
      ItemsLegalToks(items[1..], rest);
      assert LegalItem(items[0]);
    }
  }

  lemma {:induction false} CommandLegalToks(e: Command, rest: seq<Tok>)
    requires LegalCommand(e) && LegalToks(rest)
    ensures LegalToks(CommandToks(e, rest))
    decreases e
  {
    match e
    case Simple(items) => ItemsLegalToks(items, rest);
    case Block(line, redirs) =>
      ItemsLegalToks(redirs, rest);
      LineLegalToks(line, [S(')')] + ItemToks(redirs, rest));
  }

  lemma {:induction false} PipeLegalToks(p: Pipeline, rest: seq<Tok>)
    requires LegalPipe(p) && LegalToks(rest)
    ensures LegalToks(PipeToks(p, rest))
    decreases p
  {
    match p
    case One(e) => CommandLegalToks(e, rest);
    case Into(e, next) =>
      PipeLegalToks(next, rest);
      CommandLegalToks(e, [S('|')] + PipeToks(next, rest));
  }

  lemma {:induction false} AmpsLegalToks(n: nat, rest: seq<Tok>)
    requires LegalToks(rest)
    ensures LegalToks(Amps(n, rest))
  {
    if n > 0 {
      AmpsLegalToks(n - 1, rest);
    }
  }

  lemma {:induction false} LineLegalToks(l: Line, rest: seq<Tok>)
    requires LegalLine(l) && LegalToks(rest)
    ensures LegalToks(LineToks(l, rest))
    decreases l
  {
    var tail := rest;
    if l.Then? {
      LineLegalToks(l.rest, rest);
      tail := [S(';')] + LineToks(l.rest, rest);
    }
    AmpsLegalToks(l.backs, tail);
    PipeLegalToks(l.pipe, Amps(l.backs, tail));
  }

  /** A text whose tokens are those of a legal line, and then ts, which do not belong to it. */
  lemma TokensParse(buf: string, l: Line, ts: seq<Tok>)
    requires NUL !in buf && LegalLine(l) && Ends(l, ts) && Toks(buf, 0) == LineToks(l, ts)
    ensures if ts == [] then Parses(CmdOf(buf), buf, LineTree(l), |buf|) else CmdOf(buf) == Panic(Leftovers)
  {
    hide LineAt, Toks, LineToks, LegalLine, LineTree;
    LineIs(buf, 0, l, ts);
    AllRead(buf, LineAt(buf, 0).ps);
  }

  lemma AllRead(buf: string, ps: int)
    requires 0 <= ps <= |buf| && NUL !in buf
    ensures Toks(buf, ps) == [] <==> Skip(buf, ps) == |buf|
  {
  }

  /** Every legal command line, however spaced, parses to its meaning: words and redirections of each command in
      their order, pipelines to the right, & over a whole pipeline, lists to the right. Followed by more that does
      not belong to it, as in `a & b` or `a)`, it is refused. */
  lemma ParseOfFlat(l: Line, ts: seq<Tok>, gaps: seq<string>)
    requires LegalLine(l) && LegalToks(ts) && Ends(l, ts) && Gaps(LineToks(l, ts), gaps)
    ensures var buf := Spaced(LineToks(l, ts), gaps);
            && NUL !in buf
            && if ts == [] then Parses(CmdOf(buf), buf, LineTree(l), |buf|) else CmdOf(buf) == Panic(Leftovers)
  {
    hide LineToks, LegalLine, LineTree, CmdOf, LegalToks, Ends, Toks;
    var buf := Spaced(LineToks(l, ts), gaps);
    LineLegalToks(l, ts);
    SpacedPlain(LineToks(l, ts), gaps);
    Lex(buf, 0, LineToks(l, ts), gaps);
    TokensParse(buf, l, ts);
  }

  /** And only those parse: every text that parses is a legal command line with some spacing, and its tree is the
      meaning of that line. */
  lemma FlatOfParse(buf: string) returns (l: Line, gaps: seq<string>)
    requires NUL !in buf && CmdOf(buf).Ok?
    ensures LegalLine(l) && Gaps(LineToks(l, []), gaps) && buf == Spaced(LineToks(l, []), gaps)
    ensures Resolve(buf, CmdOf(buf).value) == LineTree(l)
  {
    hide LineToks, LegalLine, LineTree, LineAt, Toks, Resolve;
    l := LineFrom(buf, 0);
    AllRead(buf, LineAt(buf, 0).ps);
    gaps := Unlex(buf, 0);
    assert buf[0..] == buf;
  }
}
