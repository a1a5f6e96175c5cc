/** The tokens of a command line: what gettoken finds in a text however it is spaced, and that every text is its
    tokens with spaces around them. */
module ShellLex {
  import opened Shell
  import opened ShellPrint

  /** A word, or a symbol with '+' for >>. */
  datatype Tok = W(text: string) | S(kind: char)

  ghost predicate LegalTok(t: Tok) {
    match t
    case W(text) => LegalWord(text)
    case S(kind) => Symbol(kind) || kind == '+'
  }

  function TokOf(buf: string, t: Token): Tok {
    if t.kind == 'a' then W(Text(buf, Range(t.q, t.eq))) else S(t.kind)
  }

  function Toks(buf: string, ps: int): seq<Tok>
    requires 0 <= ps <= |buf| && NUL !in buf
    decreases |buf| - ps
  {
    var t := TokenAt(buf, ps);
    if t.kind == NUL then [] else [TokOf(buf, t)] + Toks(buf, t.ps)
  }

  lemma SkipToks(buf: string, ps: int)
    requires 0 <= ps <= |buf| && NUL !in buf
    ensures Toks(buf, Skip(buf, ps)) == Toks(buf, ps)
  {
    SkipAgain(buf, ps);
    hide TokenAt;
  }

  lemma SkipAgain(buf: string, ps: int)
    requires 0 <= ps <= |buf| && NUL !in buf
    ensures TokenAt(buf, Skip(buf, ps)) == TokenAt(buf, ps)
  {
    NoSkip(buf, Skip(buf, ps));
  }

  /** The first character of a symbol. */
  function Head(kind: char): char {
    if kind == '+' then '>' else kind
  }

  /** The next token is one of the symbols in set. */
  predicate Next(ts: seq<Tok>, symbols: string) {
    ts != [] && ts[0].S? && Head(ts[0].kind) in symbols
  }

  lemma PeekToks(buf: string, ps: int, symbols: string)
    requires 0 <= ps <= |buf| && NUL !in buf && forall c :: c in symbols ==> Symbol(c)
    ensures Peek(buf, ps, symbols) <==> Next(Toks(buf, ps), symbols)
  {
    var t := TokenAt(buf, ps);
    if t.kind != NUL {
      assert Toks(buf, ps)[0] == TokOf(buf, t);
    }
  }

  /** The token at ps is the first of the tokens, and the cursor after it has the others. */
  lemma NextTok(buf: string, ps: int)
    requires 0 <= ps <= |buf| && NUL !in buf
    ensures var t, ts := TokenAt(buf, ps), Toks(buf, ps);
            && (t.kind == NUL <==> ts == [])
            && (ts != [] ==> ps < t.ps <= |buf| && ts[0] == TokOf(buf, t) && Toks(buf, t.ps) == ts[1..] && (t.kind == 'a' <==> ts[0].W?))
  {
    hide TokenAt;
  }

  /** A word token is a legal word, a symbol token a symbol. */
  lemma TokLegal(buf: string, ps: int)
    requires 0 <= ps <= |buf| && NUL !in buf && Toks(buf, ps) != []
    ensures LegalTok(Toks(buf, ps)[0])
  {
    var t := TokenAt(buf, ps);
    NextTok(buf, ps);
    if t.kind == 'a' {
      TokenWord(buf, ps);
      hide TokenAt;
      assert forall i :: 0 <= i < t.eq - t.q ==> buf[t.q..t.eq][i] == buf[t.q + i];
    }
  }

  // ---------- spacing ----------

  function TokText(t: Tok): string {
    match t
    case W(text) => text
    case S(kind) => if kind == '+' then ">>" else [kind]
  }

  /** The tokens with gaps[i] before token i and the last gap at the end. */
  function Spaced(ts: seq<Tok>, gaps: seq<string>): string
    requires |gaps| == |ts| + 1
  {
    if ts == [] then gaps[0] else gaps[0] + (TokText(ts[0]) + Spaced(ts[1..], gaps[1..]))
  }

  /** Without a space between them a and b would read as other tokens. */
  predicate Touch(a: Tok, b: Tok) {
    (a.W? && b.W?) || (a == S('>') && b.S? && Head(b.kind) == '>')
  }

  ghost predicate Blank(s: string) {
    forall i :: 0 <= i < |s| ==> Space(s[i])
  }

  ghost predicate Gaps(ts: seq<Tok>, gaps: seq<string>) {
    && |gaps| == |ts| + 1
    && (forall i :: 0 <= i < |gaps| ==> Blank(gaps[i]))
    && (forall i :: 0 < i < |ts| && Touch(ts[i - 1], ts[i]) ==> gaps[i] != "")
  }

  ghost predicate LegalToks(ts: seq<Tok>) {
    forall i :: 0 <= i < |ts| ==> LegalTok(ts[i])
  }

  lemma GapsTail(ts: seq<Tok>, gaps: seq<string>)
    requires Gaps(ts, gaps) && LegalToks(ts) && ts != []
    ensures Gaps(ts[1..], gaps[1..]) && LegalToks(ts[1..])
  {
  }

  /** What a token starts with. */
  lemma TokHead(t: Tok)
    requires LegalTok(t)
    ensures TokText(t) != "" && !Space(TokText(t)[0]) && TokText(t)[0] != NUL
    ensures t.W? <==> WordChar(TokText(t)[0])
    ensures t.S? ==> TokText(t)[0] == Head(t.kind)
  {
  }

  lemma {:induction false} SkipBlank(buf: string, p: int, g: string)
    requires Has(buf, p, g) && Blank(g) && !Space(At(buf, p + |g|))
    ensures Skip(buf, p) == p + |g|
    decreases |g|
  {
    if g == "" {
      NoSkip(buf, p);
    } else {
      HasAt(buf, p, g, 0);
      assert g == g[..1] + g[1..];
      HasSplit(buf, p, g[..1], g[1..]);
      SkipBlank(buf, p + 1, g[1..]);
    }
  }

  /** The character at which the spaced tokens begin does not run on from the token a before it. */
  lemma NextChar(buf: string, e: int, a: Tok, ts: seq<Tok>, gaps: seq<string>)
    requires Gaps(ts, gaps) && LegalToks(ts) && Has(buf, e, Spaced(ts, gaps)) && e + |Spaced(ts, gaps)| == |buf|
    requires ts != [] && Touch(a, ts[0]) ==> gaps[0] != ""
    ensures a.W? ==> !WordChar(At(buf, e))
    ensures a == S('>') ==> At(buf, e) != '>'
  {
    if gaps[0] != "" {
      HasAt(buf, e, Spaced(ts, gaps), 0);
      assert Spaced(ts, gaps)[0] == gaps[0][0];
    } else if ts != [] {
      TokHead(ts[0]);
      HasAt(buf, e, Spaced(ts, gaps), 0);
      assert Spaced(ts, gaps)[0] == TokText(ts[0])[0];
    }
  }

  /** gettoken at the start of a token. */
  lemma TokenIs(buf: string, q: int, a: Tok)
    requires NUL !in buf && LegalTok(a) && Has(buf, q, TokText(a))
    requires a.W? ==> !WordChar(At(buf, q + |TokText(a)|))
    requires a == S('>') ==> At(buf, q + 1) != '>'
    ensures var t := TokenAt(buf, q);
            t.kind != NUL && t.q == q && t.eq == q + |TokText(a)| && t.ps == Skip(buf, t.eq) && TokOf(buf, t) == a
  {
    TokHead(a);
    HasAt(buf, q, TokText(a), 0);
    NoSkip(buf, q);
    if a.W? {
      WordToken(buf, q, a.text);
    } else if a.kind == '+' {
      HasAt(buf, q, ">>", 1);
    }
  }

  lemma SpacedFirst(ts: seq<Tok>, gaps: seq<string>)
    requires Gaps(ts, gaps) && LegalToks(ts) && ts != []
    ensures Spaced(ts, gaps) == gaps[0] + (TokText(ts[0]) + Spaced(ts[1..], gaps[1..]))
    ensures LegalTok(ts[0]) && Blank(gaps[0]) && Gaps(ts[1..], gaps[1..]) && LegalToks(ts[1..])
    ensures |ts| > 1 && Touch(ts[0], ts[1]) ==> gaps[1] != ""
  {
    GapsTail(ts, gaps);
    hide LegalTok, Blank, Touch;
  }

  lemma LexFirst(buf: string, p: int, g: string, a: Tok)
    requires NUL !in buf && LegalTok(a) && Blank(g) && Has(buf, p, g) && Has(buf, p + |g|, TokText(a))
    requires var e := p + |g| + |TokText(a)|; (a.W? ==> !WordChar(At(buf, e))) && (a == S('>') ==> At(buf, e) != '>')
    ensures Toks(buf, p) == [a] + Toks(buf, p + |g| + |TokText(a)|)
  {
    hide LegalTok, TokenAt, Skip, Blank, Toks;
    var q, e := p + |g|, p + |g| + |TokText(a)|;
    TokHead(a);
    HasAt(buf, q, TokText(a), 0);
    SkipBlank(buf, p, g);
    TokenIs(buf, q, a);
    SkipAgain(buf, p);
    SkipToks(buf, e);
    NextTok(buf, p);
    assert Toks(buf, p) == [a] + Toks(buf, p)[1..];
  }

  /** However the tokens are spaced, gettoken finds them. */
  lemma {:induction false} Lex(buf: string, p: int, ts: seq<Tok>, gaps: seq<string>)
    requires |gaps| == |ts| + 1 && Gaps(ts, gaps) && LegalToks(ts)
    requires NUL !in buf && Has(buf, p, Spaced(ts, gaps)) && p + |Spaced(ts, gaps)| == |buf|
    ensures Toks(buf, p) == ts
    decreases |ts|
  {
    if ts == [] {
      LexEnd(buf, p, gaps[0]);
    } else {
      hide Spaced, LegalTok, Blank, LegalToks, WordChar, Toks, Has, Gaps, TokText, Touch;
      SpacedFirst(ts, gaps);
      var e := LexStep(buf, p, gaps[0], ts[0], ts[1..], gaps[1..]);
      Lex(buf, e, ts[1..], gaps[1..]);
    }
  }

  lemma LexStep(buf: string, p: int, g: string, a: Tok, ts: seq<Tok>, gaps: seq<string>) returns (e: int)
    requires |gaps| == |ts| + 1 && Gaps(ts, gaps) && LegalToks(ts) && LegalTok(a) && Blank(g)
    requires ts != [] && Touch(a, ts[0]) ==> gaps[0] != ""
    requires var s := g + (TokText(a) + Spaced(ts, gaps)); NUL !in buf && Has(buf, p, s) && p + |s| == |buf|
    ensures 0 <= e <= |buf| && Toks(buf, p) == [a] + Toks(buf, e)
    ensures Has(buf, e, Spaced(ts, gaps)) && e + |Spaced(ts, gaps)| == |buf|
  {
    hide Spaced, LegalTok, Blank, LegalToks, WordChar, Toks, Gaps, TokText, Touch;
    var rest := Spaced(ts, gaps);
    e := p + |g| + |TokText(a)|;
    HasSplit(buf, p, g, TokText(a) + rest);
    HasSplit(buf, p + |g|, TokText(a), rest);
    NextChar(buf, e, a, ts, gaps);
    LexFirst(buf, p, g, a);
  }

  lemma LexEnd(buf: string, p: int, g: string)
    requires NUL !in buf && Blank(g) && Has(buf, p, g) && p + |g| == |buf|
    ensures Toks(buf, p) == []
  {
    SkipBlank(buf, p, g);
  }

  /** Every text is its tokens, spaced. */
  lemma {:induction false} Unlex(buf: string, p: int) returns (gaps: seq<string>)
    requires NUL !in buf && 0 <= p <= |buf|
    ensures |gaps| == |Toks(buf, p)| + 1 && Gaps(Toks(buf, p), gaps) && LegalToks(Toks(buf, p))
    ensures buf[p..] == Spaced(Toks(buf, p), gaps)
    decreases |buf| - p
  {
    var t := TokenAt(buf, p);
    if t.kind == NUL {
      gaps := UnlexEnd(buf, p);
    } else {
      hide Skip, LegalTok, TokenAt, Toks, Blank, Gaps, LegalToks, Touch, TokText;
      NextEq(buf, p);
      var more := Unlex(buf, t.eq);
      gaps := UnlexStep(buf, p, more);
    }
  }

  lemma NextEq(buf: string, p: int)
    requires NUL !in buf && 0 <= p <= |buf| && TokenAt(buf, p).kind != NUL
    ensures var t, ts := TokenAt(buf, p), Toks(buf, p);
            ts != [] && ts[0] == TokOf(buf, t) && ts[1..] == Toks(buf, t.eq) && t.ps == Skip(buf, t.eq) && p < t.eq
  {
    hide TokenAt, Toks, Skip;
    TokenText(buf, p);
    NextTok(buf, p);
    SkipToks(buf, TokenAt(buf, p).eq);
  }

  lemma UnlexStep(buf: string, p: int, more: seq<string>) returns (gaps: seq<string>)
    requires NUL !in buf && 0 <= p <= |buf| && TokenAt(buf, p).kind != NUL
    requires var ts, e := Toks(buf, TokenAt(buf, p).eq), TokenAt(buf, p).eq;
             |more| == |ts| + 1 && Gaps(ts, more) && LegalToks(ts) && buf[e..] == Spaced(ts, more)
    ensures |gaps| == |Toks(buf, p)| + 1 && Gaps(Toks(buf, p), gaps) && LegalToks(Toks(buf, p))
    ensures buf[p..] == Spaced(Toks(buf, p), gaps)
  {
    hide Skip, LegalTok, TokenAt, Toks, Blank, Gaps, LegalToks, Touch, TokText, Spaced;
    var t, ts := TokenAt(buf, p), Toks(buf, p);
    var g := buf[p..t.q];
    NextEq(buf, p);
    BlankBefore(buf, p);
    TokLegal(buf, p);
    TokenText(buf, p);
    Apart(buf, p, ts, more);
    GapsCons(ts, g, more);
    gaps := [g] + more;
    SpacedFirst(ts, gaps);
    assert gaps[0] == g && gaps[1..] == more;
    assert buf[p..] == g + (buf[t.q..t.eq] + buf[t.eq..]);
  }

  lemma UnlexEnd(buf: string, p: int) returns (gaps: seq<string>)
    requires NUL !in buf && 0 <= p <= |buf| && TokenAt(buf, p).kind == NUL
    ensures Toks(buf, p) == [] && gaps == [buf[p..]] && Gaps([], gaps)
  {
    gaps := [buf[p..]];
  }

  lemma BlankBefore(buf: string, p: int)
    requires NUL !in buf && 0 <= p <= |buf|
    ensures Blank(buf[p..TokenAt(buf, p).q])
  {
  }

  lemma TokenText(buf: string, p: int)
    requires NUL !in buf && 0 <= p <= |buf| && TokenAt(buf, p).kind != NUL
    ensures var t := TokenAt(buf, p);
            && buf[t.q..t.eq] == TokText(TokOf(buf, t)) && t.ps == Skip(buf, t.eq)
            && (t.kind == 'a' ==> !WordChar(At(buf, t.eq))) && (t.kind == '>' ==> At(buf, t.eq) != '>')
  {
    hide TokenAt, Skip, WordChar;
    var t := TokenAt(buf, p);
    if t.kind == 'a' {
      TokenWord(buf, p);
      WordShape(buf, p);
    } else {
      SymbolShape(buf, p);
      SliceOf(buf, t.q, t.eq, t.kind);
    }
  }

  lemma SliceOf(buf: string, q: int, eq: int, kind: char)
    requires 0 <= q < eq <= |buf| && eq == q + (if kind == '+' then 2 else 1)
    requires buf[q] == Head(kind) && (kind == '+' ==> buf[q + 1] == '>')
    ensures buf[q..eq] == TokText(S(kind))
  {
  }

  lemma WordShape(buf: string, p: int)
    requires NUL !in buf && 0 <= p <= |buf| && TokenAt(buf, p).kind == 'a'
    ensures var t := TokenAt(buf, p); t.ps == Skip(buf, t.eq)
  {
  }

  lemma SymbolShape(buf: string, p: int)
    requires NUL !in buf && 0 <= p <= |buf| && TokenAt(buf, p).kind != 'a' && TokenAt(buf, p).kind != NUL
    ensures var t := TokenAt(buf, p);
            && t.ps == Skip(buf, t.eq) && t.q == Skip(buf, p) && buf[t.q] == Head(t.kind)
            && t.eq == t.q + (if t.kind == '+' then 2 else 1) && (t.kind == '+' ==> buf[t.q + 1] == '>')
            && (t.kind == '>' ==> At(buf, t.eq) != '>')
  {
    hide Skip;
  }

  lemma Apart(buf: string, p: int, ts: seq<Tok>, more: seq<string>)
    requires NUL !in buf && 0 <= p <= |buf| && ts == Toks(buf, p) != [] && |more| == |ts|
    requires LegalToks(ts[1..]) && buf[TokenAt(buf, p).eq..] == Spaced(ts[1..], more)
    ensures |ts| > 1 && Touch(ts[0], ts[1]) ==> more[0] != ""
  {
    var t := TokenAt(buf, p);
    TokenText(buf, p);
    NextTok(buf, p);
    if |ts| > 1 && more[0] == "" {
      assert LegalTok(ts[1..][0]);
      TokHead(ts[1]);
      hide TokenAt, Skip, Toks;
      assert Spaced(ts[1..], more)[0] == TokText(ts[1])[0];
      assert buf[t.eq..][0] == At(buf, t.eq);
    }
  }

  lemma GapsCons(ts: seq<Tok>, g: string, more: seq<string>)
    requires ts != [] && Gaps(ts[1..], more) && LegalToks(ts[1..]) && LegalTok(ts[0]) && Blank(g)
    requires |ts| > 1 && Touch(ts[0], ts[1]) ==> more[0] != ""
    ensures Gaps(ts, [g] + more) && LegalToks(ts)
  {
    hide LegalTok, Blank, Touch;
    var gaps := [g] + more;
    forall i | 0 < i < |ts| && Touch(ts[i - 1], ts[i]) ensures gaps[i] != "" {
      if i > 1 {
        assert Touch(ts[1..][i - 2], ts[1..][i - 1]);
      }
    }
    forall i | 0 <= i < |ts| ensures LegalTok(ts[i]) {
      if i > 0 {
        assert LegalTok(ts[1..][i - 1]);
      }
    }
  }

  lemma {:induction false} SpacedPlain(ts: seq<Tok>, gaps: seq<string>)
    requires Gaps(ts, gaps) && LegalToks(ts)
    ensures NUL !in Spaced(ts, gaps)
  {
    if ts != [] {
      GapsTail(ts, gaps);
      SpacedPlain(ts[1..], gaps[1..]);
      TokPlain(ts[0]);
      hide LegalTok;
    }
  }

  lemma TokPlain(t: Tok)
    requires LegalTok(t)
    ensures NUL !in TokText(t)
  {
  }
}
