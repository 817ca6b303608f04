/** What the splitter promises: nothing lost, pieces stable, joins undone, quotes opaque, slices on boundaries. */
module SplitTheorems {
  import opened Options
  import opened Text
  import opened ShellLexer
  import opened Pieces
  import opened CommandSplit

  // ---------------------------------------------------------------------------
  // Lossless
  // ---------------------------------------------------------------------------

  /** Pieces and separators, taken in turn, rebuild the command byte for byte; every separator is an operator. */
  lemma SplittingIsLossless(c: Text)
    requires Lex(c).Some?
    ensures var ts := Lex(c).value;
            && Interleave(RawPieces(ts), Separators(ts)) == c
            && forall o :: o in Separators(ts) ==> IsOperator(o)
  {
    var ts := Lex(c).value;
    LexIsLossless(c);
    InterleaveRebuilds(ts);
    forall i | 0 <= i < |ts| && ts[i].op
      ensures IsOperator(ts[i].text)
    {
      SeparatorsAreOperators(c, i);
    }
    SeparatorsAreTokens(ts);
  }

  lemma {:induction false} SeparatorsAreTokens(ts: seq<Token>)
    requires forall i | 0 <= i < |ts| && ts[i].op :: IsOperator(ts[i].text)
    ensures forall o :: o in Separators(ts) ==> IsOperator(o)
  {
    if ts != [] {
      SeparatorsAreTokens(ts[1..]);
    }
  }

  // ---------------------------------------------------------------------------
  // Stable pieces
  // ---------------------------------------------------------------------------

  /** `p` reads as words only: no separator, no open quote, nothing rejected. */
  predicate IsPlain(p: Text) {
    Lex(p).Some? && forall i | 0 <= i < |Lex(p).value| :: !Lex(p).value[i].op
  }

  /** The first piece of a text, read on its own, and what follows it. */
  lemma {:induction false} FirstPieceIsPlain(s: Text) returns (r: Text)
    requires Lex(s).Some?
    ensures s == RawPieces(Lex(s).value)[0] + r
    ensures r == [] || (HeadOf(r).Accept? && HeadOf(r).op)
    ensures IsPlain(RawPieces(Lex(s).value)[0])
    decreases |s|
  {
    if s == [] {
      r := [];
    } else {
      var op, n := HeadOf(s).op, HeadOf(s).len;
      var t := Token(op, s[..n]);
      assert ([t] + Lex(s[n..]).value)[1..] == Lex(s[n..]).value;
      if op {
        r := s;
        assert [] + r == s;
      } else {
        r := FirstPieceIsPlain(s[n..]);
        WordThenPlain(s, n, RawPieces(Lex(s[n..]).value)[0], r);
      }
    }
  }

  lemma WordThenPlain(s: Text, n: nat, p: Text, r: Text)
    requires s != [] && HeadOf(s) == Accept(false, n)
    requires s[n..] == p + r && IsPlain(p)
    requires r == [] || (HeadOf(r).Accept? && HeadOf(r).op)
    ensures s == (s[..n] + p) + r && IsPlain(s[..n] + p)
  {
    var w := s[..n] + p;
    Regroup(s, n, p, r);
    HeadShrinks(w, r);
    PlainWord(w, n, p);
  }

  lemma Regroup(s: Text, n: nat, p: Text, r: Text)
    requires n <= |s| && s[n..] == p + r
    ensures s == (s[..n] + p) + r && (s[..n] + p)[n..] == p
  {
    assert s == s[..n] + s[n..];
  }

  lemma PlainWord(w: Text, n: nat, p: Text)
    requires w != [] && HeadOf(w) == Accept(false, n) && w[n..] == p && IsPlain(p)
    ensures IsPlain(w)
  {
    assert Lex(w) == Prepend(Token(false, w[..n]), Lex(p));
  }

  /**
   Every untrimmed piece, scanned on its own, is a simple command: no separator in it, no quote left
   open, nothing rejected, although the byte after its last one is now missing.
   */
  lemma {:induction false} RawPiecesAreStable(c: Text, k: nat)
    requires Lex(c).Some? && k < |RawPieces(Lex(c).value)|
    ensures var p := RawPieces(Lex(c).value)[k];
            IsPlain(p) && SplitOf(p) == Simple(Trim(p))
    decreases |c|
  {
    if k == 0 {
      var _ := FirstPieceIsPlain(c);
    } else {
      PieceBehindHead(c, k);
      RawPiecesAreStable(c[HeadOf(c).len..], if HeadOf(c).op then k - 1 else k);
    }
    PlainIsSimple(RawPieces(Lex(c).value)[k]);
  }

  lemma PieceBehindHead(c: Text, k: nat)
    requires c != [] && Lex(c).Some? && 0 < k < |RawPieces(Lex(c).value)|
    ensures var j := if HeadOf(c).op then k - 1 else k;
            var rest := Lex(c[HeadOf(c).len..]);
            && rest.Some? && j < |RawPieces(rest.value)|
            && RawPieces(Lex(c).value)[k] == RawPieces(rest.value)[j]
  {
    assert Lex(c).value[1..] == Lex(c[HeadOf(c).len..]).value;
  }

  lemma PlainIsSimple(p: Text)
    requires IsPlain(p)
    ensures RawPieces(Lex(p).value) == [p] && SplitOf(p) == Simple(Trim(p))
  {
    WordsMakeOnePiece(Lex(p).value);
    LexIsLossless(p);
  }

  // ---------------------------------------------------------------------------
  // Joins
  // ---------------------------------------------------------------------------

  /** A separator with spaces or tabs around it. */
  datatype Joiner = Joiner(lead: Text, op: Text, trail: Text) {
    function Show(): Text {
      lead + op + trail
    }

    predicate Valid() {
      IsBlank(lead) && IsOperator(op) && IsBlank(trail)
    }

    /** Between these texts the separator is read as itself: where it touches one, neither lengthens the other. */
    predicate Parts(c1: Text, c2: Text) {
      && Valid()
      && (lead != [] || (Lex(c1).Some? && FitsBehind(Lex(c1).value, op[0])))
      && (trail != [] || |op| == 2 || c2 == [] || Fits(op[0], c2[0]))
    }
  }

  /** The commands of a text, the blank ones left out; None when the text cannot be read. */
  function Commands(c: Text): Option<seq<Text>> {
    match Lex(c)
    case None => None
    case Some(ts) => Some(NonBlank(RawPieces(ts)))
  }

  /** A text the splitter accepts and that is not blank. */
  predicate IsRunnable(c: Text) {
    SplitOf(c) != Unparseable && SplitOf(c) != Simple([])
  }

  /** What the splitter reports of a runnable text is its list of commands, one or more. */
  lemma RunnableHasCommands(c: Text)
    ensures IsRunnable(c) <==> Commands(c).Some? && Commands(c).value != []
    ensures IsRunnable(c) ==> SplitOf(c) == Verdict(Commands(c).value)
  {
    if Lex(c).Some? && |RawPieces(Lex(c).value)| == 1 {
      OnePieceIsWords(Lex(c).value);
      PlainIsSimple(c);
      assert NonBlank([c]) == Trimmed(c) + [];
    } else if Lex(c).Some? {
      CommandsAreNotEmpty(RawPieces(Lex(c).value));
    }
  }

  lemma {:induction false} CommandsAreNotEmpty(ps: seq<Text>)
    ensures forall i | 0 <= i < |NonBlank(ps)| :: NonBlank(ps)[i] != []
  {
    if ps != [] {
      CommandsAreNotEmpty(ps[1..]);
    }
  }

  /** The tokens of a joined text. */
  lemma LexOfJoin(c1: Text, j: Joiner, c2: Text)
    requires Lex(c1).Some? && Lex(c2).Some? && j.Parts(c1, c2)
    ensures Lex(j.lead).Some? && Lex(j.trail).Some?
    ensures Lex(c1 + j.Show() + c2) ==
            Some((Lex(c1).value + Lex(j.lead).value) + ([Token(true, j.op)] + (Lex(j.trail).value + Lex(c2).value)))
  {
    LexBlank(j.lead);
    var mid := j.op + (j.trail + c2);
    LexOfSeparated(j.op, j.trail, c2);
    LexJoinFront(c1, j.lead, mid);
    JoinRegroups(c1, j, c2);
  }

  /** A byte that changes the last token of a text is not read as the start of a separator behind it. */
  lemma {:induction false} TouchingIsMisread(c: Text, op: Text, r: Text, ts: seq<Token>)
    requires Lex(c).Some? && op != [] && !FitsBehind(Lex(c).value, op[0])
    ensures Lex(c + (op + r)) != Some(Lex(c).value + ([Token(true, op)] + ts))
    decreases |c|
  {
    var n := HeadOf(c).len;
    LastToken(c);
    if n < |c| {
      TouchingIsMisread(c[n..], op, r, ts);
      MisreadBehind(c, op + r, [Token(true, op)] + ts);
    } else {
      assert c[n..] == [] && c[..n] == c;
      assert Lex(c).value == [Token(HeadOf(c).op, c)];
      MisreadToken(c, op + r, [Token(true, op)] + ts);
    }
  }

  lemma MisreadToken(c: Text, r: Text, ts: seq<Token>)
    requires |c| == 1 && HeadOf(c).Accept? && r != [] && !Fits(c[0], r[0])
    ensures Lex(c + r) != Some([Token(HeadOf(c).op, c)] + ts)
  {
    assert HeadOf(c + r) != HeadOf(c);
    HeadsDiffer(c + r, c, HeadOf(c).op, ts);
  }

  lemma MisreadBehind(c: Text, r: Text, ts: seq<Token>)
    requires Lex(c).Some? && |c| > 1 && HeadOf(c).Accept?
    requires Lex(c[HeadOf(c).len..]).Some? && Lex(c[HeadOf(c).len..] + r) != Some(Lex(c[HeadOf(c).len..]).value + ts)
    ensures Lex(c + r) != Some(Lex(c).value + ts)
  {
    var n := HeadOf(c).len;
    var t := Token(HeadOf(c).op, c[..n]);
    assert Lex(c) == Some([t] + Lex(c[n..]).value);
    HeadExtends(c, r);
    LexOneMore(c, r, t.op, n);
    TailsDiffer(t, Lex(c[n..]).value, ts, Lex(c[n..] + r));
  }

  lemma TailsDiffer(t: Token, front: seq<Token>, ts: seq<Token>, rest: Option<seq<Token>>)
    requires rest != Some(front + ts)
    ensures Prepend(t, rest) != Some(([t] + front) + ts)
  {
    if rest.Some? {
      assert ([t] + rest.value)[1..] == rest.value && (([t] + front) + ts)[1..] == front + ts;
    }
  }

  /** A text that does not start with a token is not read so. */
  lemma HeadsDiffer(s: Text, c: Text, op: bool, ts: seq<Token>)
    requires c != [] && c <= s && HeadOf(s) != Accept(op, |c|)
    ensures Lex(s) != Some([Token(op, c)] + ts)
  {
    if Lex(s).Some? {
      assert Lex(s).value[0] == Token(HeadOf(s).op, s[..HeadOf(s).len]);
      assert ([Token(op, c)] + ts)[0] == Token(op, c);
    }
  }

  /**
   The condition on a join is exact: the joined text is read as the tokens of the first, the blanks, the separator, the
   blanks and the tokens of the second, if and only if the separator parts them.
   */
  lemma PartsIsExact(c1: Text, j: Joiner, c2: Text)
    requires Lex(c1).Some? && Lex(c2).Some? && j.Valid()
    ensures Lex(j.lead).Some? && Lex(j.trail).Some?
    ensures j.Parts(c1, c2) <==>
            Lex(c1 + j.Show() + c2) ==
            Some((Lex(c1).value + Lex(j.lead).value) + ([Token(true, j.op)] + (Lex(j.trail).value + Lex(c2).value)))
  {
    LexBlank(j.lead);
    LexBlank(j.trail);
    if j.Parts(c1, c2) {
      LexOfJoin(c1, j, c2);
    } else if j.lead == [] && !FitsBehind(Lex(c1).value, j.op[0]) {
      JoinRegroups(c1, j, c2);
      assert j.lead + (j.op + (j.trail + c2)) == j.op + (j.trail + c2);
      assert Lex(c1).value + Lex(j.lead).value == Lex(c1).value;
      TouchingIsMisread(c1, j.op, j.trail + c2, Lex(j.trail).value + Lex(c2).value);
    } else {
      LengthenedIsMisread(c1, j, c2);
    }
  }

  lemma LengthenedIsMisread(c1: Text, j: Joiner, c2: Text)
    requires Lex(c1).Some? && Lex(c2).Some? && j.Valid() && Lex(j.lead).Some? && Lex(j.trail).Some?
    requires j.lead != [] || FitsBehind(Lex(c1).value, j.op[0])
    requires j.trail == [] && |j.op| == 1 && c2 != [] && !Fits(j.op[0], c2[0])
    ensures Lex(c1 + j.Show() + c2) !=
            Some((Lex(c1).value + Lex(j.lead).value) + ([Token(true, j.op)] + (Lex(j.trail).value + Lex(c2).value)))
  {
    var mid, ts := j.op + (j.trail + c2), Lex(j.trail).value + Lex(c2).value;
    JoinRegroups(c1, j, c2);
    LexJoinFront(c1, j.lead, mid);
    assert mid == j.op + c2;
    OperatorMisread(j.op, c2, ts);
    FrontsCancel(Lex(c1).value + Lex(j.lead).value, Lex(mid), [Token(true, j.op)] + ts);
  }

  lemma OperatorMisread(op: Text, r: Text, ts: seq<Token>)
    requires IsOperator(op) && |op| == 1 && r != [] && !Fits(op[0], r[0])
    ensures Lex(op + r) != Some([Token(true, op)] + ts)
  {
    MisreadToken(op, r, ts);
  }

  lemma FrontsCancel(front: seq<Token>, back: Option<seq<Token>>, other: seq<Token>)
    requires back != Some(other)
    ensures Append(Some(front), back) != Some(front + other)
  {
    if back.Some? {
      assert (front + back.value)[|front|..] == back.value && (front + other)[|front|..] == other;
    }
  }

  lemma JoinRegroups(c1: Text, j: Joiner, c2: Text)
    ensures c1 + j.Show() + c2 == c1 + (j.lead + (j.op + (j.trail + c2)))
  {
  }

  lemma LexOfSeparated(op: Text, trail: Text, c: Text)
    requires IsOperator(op) && IsBlank(trail) && Lex(c).Some?
    requires trail != [] || |op| == 2 || c == [] || Fits(op[0], c[0])
    ensures Lex(trail).Some?
    ensures Lex(op + (trail + c)) == Some([Token(true, op)] + (Lex(trail).value + Lex(c).value))
    ensures (op + (trail + c))[0] == op[0]
  {
    LexBehindBlank(trail, c);
    LexOperator(op, trail + c);
  }

  lemma LexBehindBlank(lead: Text, mid: Text)
    requires IsBlank(lead)
    ensures Lex(lead).Some? && Lex(lead + mid) == Append(Lex(lead), Lex(mid))
  {
    LexBlank(lead);
    if mid != [] {
      BlankFits(lead, mid[0]);
    }
    LexAppend(lead, mid);
  }

  lemma LexJoinFront(c: Text, lead: Text, mid: Text)
    requires Lex(c).Some? && IsBlank(lead)
    requires lead != [] || (mid != [] && FitsBehind(Lex(c).value, mid[0]))
    ensures Lex(c + (lead + mid)) == Append(Append(Lex(c), Lex(lead)), Lex(mid))
  {
    LexBehindBlank(lead, mid);
    if lead != [] {
      NeutralFits(Lex(c).value, lead[0]);
    }
    LexAppend(c, lead + mid);
    AppendRegroups(Lex(c), Lex(lead), Lex(mid));
  }

  lemma AppendRegroups(a: Option<seq<Token>>, b: Option<seq<Token>>, d: Option<seq<Token>>)
    ensures Append(a, Append(b, d)) == Append(Append(a, b), d)
  {
    if a.Some? && b.Some? && d.Some? {
      assert a.value + (b.value + d.value) == (a.value + b.value) + d.value;
    }
  }

  /**
   Splitting is compositional: the commands of two texts joined by a separator are the commands of the
   first followed by the commands of the second.
   */
  lemma JoinIsCompositional(c1: Text, j: Joiner, c2: Text)
    requires Lex(c1).Some? && Lex(c2).Some? && j.Parts(c1, c2)
    ensures Commands(c1 + j.Show() + c2) == Some(Commands(c1).value + Commands(c2).value)
  {
    LexOfJoin(c1, j, c2);
    var a, b := Lex(c1).value + Lex(j.lead).value, Lex(j.trail).value + Lex(c2).value;
    var o := [Token(true, j.op)];
    PiecesAcrossSeparator(a, o[0], b);
    NonBlankOfConcat(RawPieces(a), RawPieces(b));
    BlanksBehind(c1, j.lead);
    BlanksAhead(j.trail, c2);
  }

  lemma PiecesAcrossSeparator(a: seq<Token>, o: Token, b: seq<Token>)
    requires o.op
    ensures RawPieces(a + ([o] + b)) == RawPieces(a) + RawPieces(b)
  {
    PiecesOfConcat(a, [o] + b);
    assert ([o] + b)[1..] == b;
    MergeSeparated(RawPieces(a), RawPieces(b));
  }

  lemma MergeSeparated(p: seq<Text>, q: seq<Text>)
    requires p != []
    ensures Merge(p, [[]] + q) == p + q
  {
    assert p[|p| - 1] + [] == p[|p| - 1];
    assert p == p[..|p| - 1] + [p[|p| - 1]];
  }

  /** Blanks behind a text change none of its commands. */
  lemma BlanksBehind(c: Text, lead: Text)
    requires Lex(c).Some? && IsBlank(lead) && Lex(lead).Some?
    ensures NonBlank(RawPieces(Lex(c).value + Lex(lead).value)) == NonBlank(RawPieces(Lex(c).value))
  {
    LexBlank(lead);
    PlainIsSimple(lead);
    PiecesOfConcat(Lex(c).value, Lex(lead).value);
    BlankPieceBehind(RawPieces(Lex(c).value), lead);
  }

  lemma BlankPieceBehind(p: seq<Text>, lead: Text)
    requires p != [] && IsBlank(lead)
    ensures NonBlank(Merge(p, [lead])) == NonBlank(p)
  {
    var front, last := p[..|p| - 1], p[|p| - 1];
    BlanksBehindLast(front, last, lead);
    assert Merge(p, [lead]) == front + [last + lead] && p == front + [last];
  }

  lemma BlanksBehindLast(front: seq<Text>, last: Text, lead: Text)
    requires IsBlank(lead)
    ensures NonBlank(front + [last + lead]) == NonBlank(front + [last])
  {
    NonBlankOfConcat(front, [last + lead]);
    NonBlankOfConcat(front, [last]);
    TrimIgnoresTrail(last, lead);
  }

  /** Blanks ahead of a text change none of its commands. */
  lemma BlanksAhead(trail: Text, c: Text)
    requires Lex(c).Some? && IsBlank(trail) && Lex(trail).Some?
    ensures NonBlank(RawPieces(Lex(trail).value + Lex(c).value)) == NonBlank(RawPieces(Lex(c).value))
  {
    LexBlank(trail);
    PlainIsSimple(trail);
    PiecesOfConcat(Lex(trail).value, Lex(c).value);
    var p := RawPieces(Lex(c).value);
    assert [trail][..0] + Glue(trail, p) == Glue(trail, p);
    assert Glue(trail, p)[1..] == p[1..];
    TrimIgnoresLead(trail, p[0]);
  }

  /** Two runnable texts, joined: the splitter returns the commands of both, in order. */
  lemma SplitOfJoin(c1: Text, j: Joiner, c2: Text)
    requires IsRunnable(c1) && IsRunnable(c2) && j.Parts(c1, c2)
    ensures SplitOf(c1 + j.Show() + c2) == Compound(Commands(c1).value + Commands(c2).value)
  {
    RunnableHasCommands(c1);
    RunnableHasCommands(c2);
    JoinIsCompositional(c1, j, c2);
    RunnableHasCommands(c1 + j.Show() + c2);
  }

  /** Commands with a separator between any two of them. */
  function Join(cs: seq<Text>, js: seq<Joiner>): Text
    requires |cs| == |js| + 1
  {
    if js == [] then cs[0] else cs[0] + js[0].Show() + Join(cs[1..], js[1..])
  }

  function TrimAll(cs: seq<Text>): seq<Text> {
    if cs == [] then [] else [Trim(cs[0])] + TrimAll(cs[1..])
  }

  /**
   Splitting undoes joining: any list of simple, non-blank commands, joined by any separators, is
   recovered, each command trimmed.
   */
  lemma {:induction false} SplitUndoesJoin(cs: seq<Text>, js: seq<Joiner>)
    requires |cs| == |js| + 1
    requires forall i | 0 <= i < |cs| :: IsPlain(cs[i]) && Trim(cs[i]) != []
    requires forall i | 0 <= i < |js| :: js[i].Parts(cs[i], cs[i + 1])
    ensures Commands(Join(cs, js)) == Some(TrimAll(cs))
    ensures SplitOf(Join(cs, js)) == Verdict(TrimAll(cs))
    decreases |cs|
  {
    PlainIsSimple(cs[0]);
    assert NonBlank([cs[0]]) == [Trim(cs[0])];
    if js == [] {
      assert cs[1..] == [];
    } else {
      SplitUndoesJoin(cs[1..], js[1..]);
      JoinIsCompositional(cs[0], js[0], Join(cs[1..], js[1..]));
    }
    RunnableHasCommands(Join(cs, js));
  }

  // ---------------------------------------------------------------------------
  // What is refused, and what only looks like a separator
  // ---------------------------------------------------------------------------

  /** Command substitution, a subshell, process substitution and a here-document: each has one of these, unquoted. */
  predicate IsForbidden(t: Text) {
    t in {[BACKTICK], [LPAREN], [RPAREN], [LESS, LESS]}
  }

  /** What follows a token that is complete in itself cannot save it, nor change it into another. */
  lemma HeadBeforeForbidden(pre: Text, bad: Text)
    requires pre != [] && HeadOf(pre).Accept? && bad != [] && bad[0] in {BACKTICK, LPAREN, RPAREN, LESS}
    ensures HeadOf(pre + bad) == HeadOf(pre) || HeadOf(pre + bad) == Reject
  {
    if pre[0] == SQUOTE {
      assert (pre + bad)[1..] == pre[1..] + bad;
      SingleQuoteEndExtends(pre[1..], bad);
    } else if pre[0] == DQUOTE {
      assert (pre + bad)[1..] == pre[1..] + bad;
      DoubleQuoteEndExtends(pre[1..], bad);
    }
  }

  /** Wherever a forbidden text stands unquoted, with anything before and behind it, the command is refused. */
  lemma {:induction false} SubstitutionIsRefused(pre: Text, bad: Text, post: Text)
    requires Lex(pre).Some? && IsForbidden(bad)
    ensures Lex(pre + (bad + post)) == None && SplitOf(pre + (bad + post)) == Unparseable
    decreases |pre|
  {
    var s := pre + (bad + post);
    if pre == [] {
      assert HeadOf(s) == Reject;
    } else {
      var n := HeadOf(pre).len;
      HeadBeforeForbidden(pre, bad + post);
      SubstitutionIsRefused(pre[n..], bad, post);
      if HeadOf(s).Accept? {
        LexOneMore(pre, bad + post, HeadOf(pre).op, n);
      }
    }
  }

  /** The text is what a double-quoted region may hold so far: no quote that closes it, and no byte missing behind a backslash. */
  predicate StaysOpen(body: Text)
    decreases |body|
  {
    body == [] ||
    if body[0] == BACKSLASH then |body| > 1 && StaysOpen(body[2..]) else body[0] != DQUOTE && StaysOpen(body[1..])
  }

  lemma {:induction false} OpenRegionIsRefused(body: Text, bad: Text, post: Text)
    requires StaysOpen(body) && (bad == [BACKTICK] || bad == [DOLLAR, LPAREN])
    ensures DoubleQuoteEnd(body + (bad + post)) == None
    decreases |body|
  {
    var s := body + (bad + post);
    if body == [] {
      assert s == bad + post;
    } else {
      var n := if body[0] == BACKSLASH then 2 else 1;
      OpenRegionIsRefused(body[n..], bad, post);
      assert s[n..] == body[n..] + (bad + post);
    }
  }

  /** Double quotes do not protect a command substitution: it is refused inside them too. */
  lemma QuotedSubstitutionIsRefused(pre: Text, body: Text, bad: Text, post: Text)
    requires Lex(pre).Some? && StaysOpen(body) && (bad == [BACKTICK] || bad == [DOLLAR, LPAREN])
    ensures SplitOf(pre + ([DQUOTE] + (body + (bad + post)))) == Unparseable
  {
    var s := [DQUOTE] + (body + (bad + post));
    OpenRegionIsRefused(body, bad, post);
    assert s[1..] == body + (bad + post);
    NeutralFits(Lex(pre).value, DQUOTE);
    LexAppend(pre, s);
  }

  lemma LexWord(word: Text, r: Text)
    requires word != [] && HeadOf(word + r) == Accept(false, |word|)
    ensures Lex(word + r) == Prepend(Token(false, word), Lex(r))
  {
    assert (word + r)[..|word|] == word && (word + r)[|word|..] == r;
  }

  /** The `&` or `|` of a redirection, and any byte behind a backslash, is part of a word. */
  lemma RedirectsAreWords(word: Text, r: Text)
    requires word in {[GREATER, AMP], [LESS, AMP], [GREATER, PIPE]} || (|word| == 2 && word[0] == BACKSLASH)
    ensures Lex(word + r) == Prepend(Token(false, word), Lex(r))
    ensures Lex([AMP] + ([GREATER] + r)) == Prepend(Token(false, [AMP]), Lex([GREATER] + r))
  {
    LexWord(word, r);
    LexWord([AMP], [GREATER] + r);
  }

  // ---------------------------------------------------------------------------
  // Quoted text is opaque
  // ---------------------------------------------------------------------------

  function Quoted(body: Text): Text {
    [SQUOTE] + body + [SQUOTE]
  }

  lemma {:induction false} QuoteEndsAtQuote(body: Text, r: Text)
    requires SQUOTE !in body
    ensures SingleQuoteEnd(body + [SQUOTE] + r) == Some(|body| + 1)
  {
    if body != [] {
      assert (body + [SQUOTE] + r)[1..] == body[1..] + [SQUOTE] + r;
      QuoteEndsAtQuote(body[1..], r);
    }
  }

  /** A single-quoted region that starts outside quotes is one token, whatever it holds. */
  lemma LexAroundQuoted(pre: Text, body: Text, post: Text)
    requires Lex(pre).Some? && SQUOTE !in body
    ensures Lex(pre + (Quoted(body) + post)) == Append(Lex(pre), Prepend(Token(false, Quoted(body)), Lex(post)))
  {
    var q := Quoted(body);
    var s := q + post;
    QuoteEndsAtQuote(body, post);
    assert s[1..] == body + [SQUOTE] + post;
    assert HeadOf(s) == Accept(false, |q|);
    assert s[..|q|] == q && s[|q|..] == post;
    LexAppend(pre, s);
  }

  /** No White_Space character contains a quote. */
  lemma {:induction false} BlankRunHasNoQuote(s: Text)
    requires IsBlankRun(s)
    ensures SQUOTE !in s
    decreases |s|
  {
    if s != [] {
      var n := LeadingBlank(s);
      BlankRunHasNoQuote(s[n..]);
      assert s == s[..n] + s[n..];
    }
  }

  lemma QuoteIsNotBlank(s: Text)
    requires SQUOTE in s
    ensures Trim(s) != []
  {
    var from, to := TrimStripsBlanks(s);
    if Trim(s) == [] {
      assert s == s[..from] + s[to..];
      BlankRunHasNoQuote(s[..from]);
      BlankRunHasNoQuote(s[to..]);
    }
  }

  /** The pieces around a word that is neither the first nor the last token, seen from that word. */
  lemma PiecesAroundWord(a: seq<Token>, w: Token, b: seq<Token>)
    requires !w.op
    ensures var p, q := RawPieces(a), RawPieces(b);
            RawPieces(a + ([w] + b)) == p[..|p| - 1] + [p[|p| - 1] + w.text + q[0]] + q[1..]
  {
    PiecesOfConcat(a, [w] + b);
    assert ([w] + b)[1..] == b;
    MergeAroundWord(RawPieces(a), w.text, RawPieces(b));
  }

  lemma MergeAroundWord(p: seq<Text>, t: Text, q: seq<Text>)
    requires p != [] && q != []
    ensures Merge(p, Glue(t, q)) == p[..|p| - 1] + [p[|p| - 1] + t + q[0]] + q[1..]
  {
    var x := p[|p| - 1];
    GlueTwice(x, t, x + t, q);
    assert p[..|p| - 1] + ([x + t + q[0]] + q[1..]) == p[..|p| - 1] + [x + t + q[0]] + q[1..];
  }

  /** The commands of a text, seen from a single-quoted region in it. */
  lemma CommandsAroundQuoted(pre: Text, body: Text, post: Text)
    requires Lex(pre).Some? && Lex(post).Some? && SQUOTE !in body
    ensures var p, q := RawPieces(Lex(pre).value), RawPieces(Lex(post).value);
            Commands(pre + (Quoted(body) + post)) ==
            Some(NonBlank(p[..|p| - 1]) + [Trim(p[|p| - 1] + Quoted(body) + q[0])] + NonBlank(q[1..]))
  {
    var p, q := RawPieces(Lex(pre).value), RawPieces(Lex(post).value);
    LexAroundQuoted(pre, body, post);
    PiecesAroundWord(Lex(pre).value, Token(false, Quoted(body)), Lex(post).value);
    var piece := p[|p| - 1] + Quoted(body) + q[0];
    assert piece[|p[|p| - 1]|] == SQUOTE;
    QuoteIsNotBlank(piece);
    NonBlankAround(p[..|p| - 1], piece, q[1..]);
  }

  lemma NonBlankAround(a: seq<Text>, piece: Text, b: seq<Text>)
    requires Trim(piece) != []
    ensures NonBlank(a + [piece] + b) == NonBlank(a) + [Trim(piece)] + NonBlank(b)
  {
    NonBlankOfConcat(a + [piece], b);
    NonBlankOfConcat(a, [piece]);
    assert NonBlank([piece]) == [Trim(piece)];
  }

  /**
   Quoted text is opaque: replacing what a single-quoted region holds changes neither whether the command
   can be split, nor how many commands there are, nor any command but the one around the region.
   */
  lemma QuotedTextIsOpaque(pre: Text, body: Text, other: Text, post: Text)
    returns (before: seq<Text>, x: Text, y: Text, after: seq<Text>)
    requires Lex(pre).Some? && SQUOTE !in body && SQUOTE !in other
    ensures var c, d := pre + (Quoted(body) + post), pre + (Quoted(other) + post);
            && (SplitOf(c) == Unparseable <==> SplitOf(d) == Unparseable)
            && (SplitOf(c) != Unparseable ==>
                  && SplitOf(c) == Verdict(before + [Trim(x + Quoted(body) + y)] + after)
                  && SplitOf(d) == Verdict(before + [Trim(x + Quoted(other) + y)] + after))
  {
    var c, d := pre + (Quoted(body) + post), pre + (Quoted(other) + post);
    LexAroundQuoted(pre, body, post);
    LexAroundQuoted(pre, other, post);
    before, x, y, after := [], [], [], [];
    if Lex(post).Some? {
      var p, q := RawPieces(Lex(pre).value), RawPieces(Lex(post).value);
      before, x, y, after := NonBlank(p[..|p| - 1]), p[|p| - 1], q[0], NonBlank(q[1..]);
      CommandsAroundQuoted(pre, body, post);
      CommandsAroundQuoted(pre, other, post);
      RunnableHasCommands(c);
      RunnableHasCommands(d);
    }
  }

  // ---------------------------------------------------------------------------
  // Slices fall on character boundaries
  // ---------------------------------------------------------------------------

  /** Both ends of every separator are character boundaries. */
  predicate OnBoundaries(c: Text, splits: seq<Split>) {
    forall i | 0 <= i < |splits| :: OnBoundary(c, splits[i])
  }

  lemma OperatorOnBoundaries(c: Text, b: nat, t: Text)
    requires ValidUtf8(c) && b <= |c| && t <= c[b..] && IsOperator(t)
    ensures IsCharBoundary(c, b) && IsCharBoundary(c, b + |t|)
  {
    assert c[b] == t[0] && c[b + |t| - 1] == t[|t| - 1];
    BoundaryAfterAscii(c, b);
    BoundaryAfterAscii(c, b + |t| - 1);
  }

  predicate OnBoundary(c: Text, split: Split) {
    && split.opLen <= split.start <= |c|
    && IsCharBoundary(c, split.start)
    && IsCharBoundary(c, split.start - split.opLen)
  }

  lemma OneMoreOnBoundaries(c: Text, split: Split, rest: seq<Split>)
    requires OnBoundary(c, split) && OnBoundaries(c, rest)
    ensures OnBoundaries(c, [split] + rest)
  {
  }

  lemma FlattenFirst(c: Text, b: nat, ts: seq<Token>)
    requires b <= |c| && ts != [] && c[b..] == Flatten(ts)
    ensures b + |ts[0].text| <= |c| && ts[0].text <= c[b..] && c[b + |ts[0].text|..] == Flatten(ts[1..])
  {
    assert c[b..][|ts[0].text|..] == c[b + |ts[0].text|..];
  }

  lemma {:induction false} SplitsOnBoundaries(c: Text, b: nat, ts: seq<Token>)
    requires ValidUtf8(c) && b <= |c| && c[b..] == Flatten(ts)
    requires forall i | 0 <= i < |ts| && ts[i].op :: IsOperator(ts[i].text)
    ensures OnBoundaries(c, Splits(ts, b))
    decreases |ts|
  {
    if ts != [] {
      var t := ts[0].text;
      var rest := Splits(ts[1..], b + |t|);
      FlattenFirst(c, b, ts);
      SplitsOnBoundaries(c, b + |t|, ts[1..]);
      if ts[0].op {
        OperatorOnBoundaries(c, b, t);
        OneMoreOnBoundaries(c, Split(b + |t|, |t|), rest);
      } else {
        assert [] + rest == rest;
      }
    }
  }

  lemma SliceIsUtf8(c: Text, start: nat, end: nat)
    requires ValidUtf8(c) && start <= end <= |c|
    requires IsCharBoundary(c, start) && IsCharBoundary(c, end)
    ensures ValidUtf8(c[start..end])
  {
    CutAtBoundary(c, end);
    var front := c[..end];
    assert start < end ==> front[start] == c[start];
    CutAtBoundary(front, start);
    assert front[start..] == c[start..end];
  }

  lemma {:induction false} SlicesAreUtf8(c: Text, start: nat, splits: seq<Split>, k: nat)
    requires ValidUtf8(c) && start <= |c| && IsCharBoundary(c, start)
    requires InOrder(start, splits, |c|) && OnBoundaries(c, splits)
    requires k < |Slices(c, start, splits)|
    ensures ValidUtf8(Slices(c, start, splits)[k])
    decreases |splits|
  {
    InOrderIsBounded(start, splits, |c|);
    if splits == [] {
      CutAtBoundary(c, start);
    } else if k > 0 {
      SlicesAreUtf8(c, splits[0].start, splits[1..], k - 1);
    } else {
      SliceIsUtf8(c, start, splits[0].start - splits[0].opLen);
    }
  }

  /**
   On every well-formed command, each split point lies on a character boundary, and each piece, before and
   after trimming, is well-formed: no slice can cut a character in two.
   */
  lemma SplittingIsUtf8Safe(c: Text)
    requires ValidUtf8(c) && Lex(c).Some?
    ensures var ts := Lex(c).value;
            && OnBoundaries(c, Splits(ts, 0))
            && forall k | 0 <= k < |RawPieces(ts)| ::
                 ValidUtf8(RawPieces(ts)[k]) && ValidUtf8(Trim(RawPieces(ts)[k]))
  {
    var ts := Lex(c).value;
    LexIsLossless(c);
    forall i | 0 <= i < |ts| && ts[i].op
      ensures IsOperator(ts[i].text)
    {
      SeparatorsAreOperators(c, i);
    }
    assert c[0..] == c;
    SplitsOnBoundaries(c, 0, ts);
    SplitPointsAreSound(c, ts);
    assert IsCharBoundary(c, 0);
    forall k | 0 <= k < |RawPieces(ts)|
      ensures ValidUtf8(RawPieces(ts)[k]) && ValidUtf8(Trim(RawPieces(ts)[k]))
    {
      SlicesAreUtf8(c, 0, Splits(ts, 0), k);
      TrimKeepsUtf8(RawPieces(ts)[k]);
    }
  }
}
