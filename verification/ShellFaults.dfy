/** What sh.c refuses, and for what. */
module ShellFaults {
  import opened Shell
  import opened ShellPrint
  import opened ShellLex
  import opened ShellFlat

  /** What the tokens from the faulty place on look like. */
  ghost predicate FaultHere(ts: seq<Tok>, e: Error) {
    match e
    case MissingFile => Next(ts, "<>") && !(|ts| > 1 && ts[1].W?)
    case Syntax => |ts| > 1 && ts[0].W? && ts[1] == S('(')
    case TooManyArgs => exists items, rest :: ts == ItemToks(items, rest) && LegalItems(items) && |Words(items)| == MAXARGS
    case MissingParen => Next(ts, "(")
    case NoBlock => false
    case Leftovers => exists l, rest :: ts == LineToks(l, rest) && LegalLine(l) && rest != []
  }

  ghost predicate Fault(buf: string, ps: int, e: Error)
    requires 0 <= ps && NUL !in buf
  {
    exists p :: ps <= p <= |buf| && FaultHere(Toks(buf, p), e)
  }

  lemma {:induction false} RedirsFault(buf: string, ps: int, rs: seq<Redirect>)
    requires 0 <= ps <= |buf| && NUL !in buf
    ensures var r := Redirs(buf, ps, rs);
            if r.Panic? then r.error == MissingFile && Fault(buf, ps, MissingFile) else !Next(Toks(buf, r.ps), "<>")
    decreases |buf| - ps
  {
    hide TokenAt, Skip, Toks, Redirs;
    var ts := Toks(buf, ps);
    if Next(ts, "<>") {
      RedirsStep(buf, ps, rs);
      if |ts| > 1 && ts[1].W? {
        var f := TokenAt(buf, TokenAt(buf, ps).ps);
        RedirsFault(buf, f.ps, rs + [Redirect(Range(f.q, f.eq), if ts[0].kind == '<' then In else Out)]);
      } else {
        assert FaultHere(ts, MissingFile);
      }
    } else {
      RedirsStop(buf, ps, rs);
    }
  }

  /** args are the words before ps. A parenthesis first thing is for the caller to explain. */
  lemma {:induction false} ArgsFault(buf: string, ps: int, args: seq<Range>, rs: seq<Redirect>)
    requires 0 <= ps <= |buf| && NUL !in buf && |args| < MAXARGS && !Next(Toks(buf, ps), "<>") && Args(buf, ps, args, rs).Panic?
    ensures match Args(buf, ps, args, rs).error
            case MissingFile => Fault(buf, ps, MissingFile)
            case Syntax => Fault(buf, ps, Syntax) || Next(Toks(buf, ps), "(")
            case TooManyArgs => Many(buf, ps, |args|)
            case _ => false
    decreases |buf| - ps
  {
    hide TokenAt, Skip, Toks, Redirs, Args, LegalWord, ItemToks, Words, LegalItems;
    var ts := Toks(buf, ps);
    if Follow(ts) {
      ArgsStop(buf, ps, args, rs);
      assert false;
    } else if ts[0].S? {
      ArgsSymbol(buf, ps, args, rs);
      TokLegal(buf, ps);
      ParenLeft(ts);
    } else {
      ArgsWord(buf, ps, args, rs);
      TokLegal(buf, ps);
      var t := TokenAt(buf, ps);
      if |args| + 1 >= MAXARGS {
        TenthWord(ts);
      } else {
        RedirsFault(buf, t.ps, rs);
        var r := Redirs(buf, t.ps, rs);
        if r.Ok? {
          var tos := RedirsFrom(buf, t.ps, rs);
          ArgsFault(buf, r.ps, args + [Range(t.q, t.eq)], r.value);
          var a := Args(buf, ps, args, rs).error;
          if a == Syntax && Next(Toks(buf, r.ps), "(") {
            AfterWord(buf, ps, tos, r.ps);
          } else if a == TooManyArgs {
            MoreWords(buf, ps, tos, r.ps, |args| + 1);
          }
        }
      }
    }
  }

  /** From ps on stand words and redirections of which the words make MAXARGS with the n before. */
  ghost predicate Many(buf: string, ps: int, n: nat)
    requires 0 <= ps <= |buf| && NUL !in buf
  {
    exists items, rest :: Toks(buf, ps) == ItemToks(items, rest) && LegalItems(items) && n + |Words(items)| == MAXARGS
  }

  lemma ParenLeft(ts: seq<Tok>)
    requires ts != [] && ts[0].S? && LegalTok(ts[0]) && !Follow(ts) && !Next(ts, "<>")
    ensures Next(ts, "(")
  {
  }

  lemma TenthWord(ts: seq<Tok>)
    requires ts != [] && ts[0].W? && LegalTok(ts[0])
    ensures exists items, rest :: ts == ItemToks(items, rest) && LegalItems(items) && |Words(items)| == 1
  {
    hide LegalWord;
    var items := [Word(ts[0].text)];
    assert ts == ItemToks(items, ts[1..]) && |Words(items)| == 1;
  }

  /** The token before a parenthesis inside a command is a word. */
  lemma {:induction false} AfterWord(buf: string, ps: int, tos: seq<Item>, q: int)
    requires 0 <= ps <= |buf| && 0 <= q <= |buf| && NUL !in buf && Toks(buf, ps) != [] && Toks(buf, ps)[0].W? && OnlyTo(tos)
    requires Toks(buf, ps)[1..] == ItemToks(tos, Toks(buf, q)) && Next(Toks(buf, q), "(")
    ensures Fault(buf, ps, Syntax)
    decreases |tos|
  {
    hide TokenAt, Toks;
    NextTok(buf, ps);
    if tos == [] {
      assert FaultHere(Toks(buf, ps), Syntax);
    } else {
      var p := TokenAt(buf, ps).ps;
      NextTok(buf, p);
      var f := TokenAt(buf, p).ps;
      assert Toks(buf, f) == [W(tos[0].file)] + ItemToks(tos[1..], Toks(buf, q));
      AfterWord(buf, f, tos[1..], q);
    }
  }

  lemma MoreWords(buf: string, ps: int, tos: seq<Item>, q: int, n: nat)
    requires 0 <= ps <= |buf| && 0 <= q <= |buf| && NUL !in buf && Toks(buf, ps) != [] && Toks(buf, ps)[0].W? && LegalTok(Toks(buf, ps)[0])
    requires OnlyTo(tos) && LegalItems(tos) && Toks(buf, ps)[1..] == ItemToks(tos, Toks(buf, q)) && n > 0 && Many(buf, q, n)
    ensures Many(buf, ps, n - 1)
  {
    hide Toks, LegalWord, ItemToks, Words, LegalItems, OnlyTo;
    var left, rest :| Toks(buf, q) == ItemToks(left, rest) && LegalItems(left) && n + |Words(left)| == MAXARGS;
    var items := Prepended(Toks(buf, ps)[0].text, tos, left, rest);
    assert Toks(buf, ps) == ItemToks(items, rest);
  }

  lemma Later(buf: string, ps: int, q: int, e: Error)
    requires 0 <= ps <= q && NUL !in buf && Fault(buf, q, e)
    ensures Fault(buf, ps, e)
  {
    hide Toks, FaultHere;
  }

  lemma {:induction false} CommandFault(buf: string, ps: int)
    requires 0 <= ps <= |buf| && NUL !in buf && ExecAt(buf, ps).Panic?
    ensures ExecAt(buf, ps).error != Leftovers && Fault(buf, ps, ExecAt(buf, ps).error)
    decreases |buf| - ps, 1
  {
    hide TokenAt, Skip, Toks, Redirs, Args, BlockAt, LegalItems, Fault;
    PeekToks(buf, ps, "(");
    if Peek(buf, ps, "(") {
      BlockFault(buf, ps);
    } else {
      hide Peek;
      RedirsFault(buf, ps, []);
      var r := Redirs(buf, ps, []);
      if r.Ok? {
        var tos := RedirsFrom(buf, ps, []);
        ArgsFault(buf, r.ps, [], r.value);
        match Args(buf, r.ps, [], r.value).error
        case MissingFile => Later(buf, ps, r.ps, MissingFile);
        case Syntax => ParenFault(buf, ps, tos, r.ps);
        case TooManyArgs => ManyFault(buf, ps, tos, r.ps);
      }
    }
  }

  lemma ParenFault(buf: string, ps: int, tos: seq<Item>, q: int)
    requires 0 <= ps <= q <= |buf| && NUL !in buf && OnlyTo(tos) && Toks(buf, ps) == ItemToks(tos, Toks(buf, q)) && !Next(Toks(buf, ps), "(")
    requires Fault(buf, q, Syntax) || Next(Toks(buf, q), "(")
    ensures Fault(buf, ps, Syntax)
  {
    hide Toks, FaultHere;
    if Next(Toks(buf, q), "(") && tos != [] {
      NextTok(buf, ps);
      var f := TokenAt(buf, ps).ps;
      assert Toks(buf, f) == [W(tos[0].file)] + ItemToks(tos[1..], Toks(buf, q));
      AfterWord(buf, f, tos[1..], q);
      Later(buf, ps, f, Syntax);
    } else {
      Later(buf, ps, q, Syntax);
    }
  }

  lemma ManyFault(buf: string, ps: int, tos: seq<Item>, q: int)
    requires 0 <= ps <= |buf| && 0 <= q <= |buf| && NUL !in buf && LegalItems(tos) && OnlyTo(tos)
    requires Toks(buf, ps) == ItemToks(tos, Toks(buf, q)) && Many(buf, q, 0)
    ensures Fault(buf, ps, TooManyArgs)
  {
    hide Toks, LegalWord, ItemToks, Words, LegalItems, OnlyTo;
    var left, rest :| Toks(buf, q) == ItemToks(left, rest) && LegalItems(left) && 0 + |Words(left)| == MAXARGS;
    var items := Joined(tos, left, rest);
    assert Toks(buf, ps) == ItemToks(items, rest);
    assert FaultHere(Toks(buf, ps), TooManyArgs);
  }

  lemma {:induction false} BlockFault(buf: string, ps: int)
    requires 0 <= ps <= |buf| && NUL !in buf && Peek(buf, ps, "(") && BlockAt(buf, ps).Panic?
    ensures BlockAt(buf, ps).error != Leftovers && Fault(buf, ps, BlockAt(buf, ps).error)
    decreases |buf| - ps, 0
  {
    hide TokenAt, Skip, Toks, Redirs, LineAt;
    PeekToks(buf, ps, "(");
    NextTok(buf, ps);
    assert FaultHere(Toks(buf, ps), MissingParen);
    var p := TokenAt(buf, ps).ps;
    var c := LineAt(buf, p);
    if c.Panic? {
      LineFault(buf, p);
    } else if Peek(buf, c.ps, ")") {
      RedirsFault(buf, TokenAt(buf, c.ps).ps, []);
    }
  }

  lemma {:induction false} PipeFault(buf: string, ps: int)
    requires 0 <= ps <= |buf| && NUL !in buf && PipeAt(buf, ps).Panic?
    ensures PipeAt(buf, ps).error != Leftovers && Fault(buf, ps, PipeAt(buf, ps).error)
    decreases |buf| - ps, 2
  {
    hide ExecAt, TokenAt, Skip, Toks, FaultHere;
    var l := ExecAt(buf, ps);
    if l.Panic? {
      CommandFault(buf, ps);
    } else {
      PipeFault(buf, TokenAt(buf, l.ps).ps);
    }
  }

  lemma {:induction false} LineFault(buf: string, ps: int)
    requires 0 <= ps <= |buf| && NUL !in buf && LineAt(buf, ps).Panic?
    ensures LineAt(buf, ps).error != Leftovers && Fault(buf, ps, LineAt(buf, ps).error)
    decreases |buf| - ps, 3
  {
    hide PipeAt, TokenAt, Skip, Toks, FaultHere;
    var p := PipeAt(buf, ps);
    if p.Panic? {
      PipeFault(buf, ps);
    } else {
      LineFault(buf, TokenAt(buf, Backs(buf, p.ps, p.value).ps).ps);
    }
  }

  /** A text that is refused has the fault it is refused for: a redirection without a file, a parenthesis after a
      word, ten words in one command, a parenthesis (left open), or something after a whole line. */
  lemma RefusedFor(buf: string)
    requires NUL !in buf && CmdOf(buf).Panic?
    ensures Fault(buf, 0, CmdOf(buf).error)
  {
    hide LineAt, Toks, Skip, LineToks, LegalLine, LineTree, Resolve;
    if LineAt(buf, 0).Panic? {
      hide FaultHere;
      LineFault(buf, 0);
    } else {
      var l := LineFrom(buf, 0);
      AllRead(buf, LineAt(buf, 0).ps);
      assert FaultHere(Toks(buf, 0), Leftovers);
    }
  }
}
