/**
 Quoting by position (section 2.2 of the POSIX.1-2017 Shell Command Language): which bytes of a command line stand
 unquoted and unescaped, which of those separate commands, and which lines are refused. Nothing here tokenizes; the
 lexer is proved to read exactly this.
 */
module Quoting {
  import opened Options
  import opened Text
  import opened ShellLexer
  import opened Pieces

  /** How the next byte stands: plain, behind a backslash, or inside quotes. */
  datatype Mode = Plain | Escaped | Single | Double | DoubleEscaped

  function After(m: Mode, b: Byte): Mode {
    match m
    case Plain =>
      if b == '\\' as int then Escaped
      else if b == '\'' as int then Single
      else if b == '"' as int then Double
      else Plain
    case Escaped => Plain
    case Single => if b == '\'' as int then Plain else Single
    case Double =>
      if b == '\\' as int then DoubleEscaped
      else if b == '"' as int then Plain
      else Double
    case DoubleEscaped => Double
  }

  /** How byte `i` stands, or what follows the last byte. */
  function ModeAt(c: Text, i: nat): Mode
    requires i <= |c|
  {
    if i == 0 then Plain else After(ModeAt(c, i - 1), c[i - 1])
  }

  predicate IsByte(c: Text, i: nat, b: char) {
    i < |c| && c[i] == b as int
  }

  /** Two plain bytes that belong together: the redirections `>&`, `<&`, `>|` and the separators `&&`, `||`, `|&`. */
  predicate Pairs(a: Byte, b: Byte) {
    || (a == '>' as int && (b == '&' as int || b == '|' as int))
    || (a == '<' as int && b == '&' as int)
    || (a == '&' as int && b == '&' as int)
    || (a == '|' as int && (b == '|' as int || b == '&' as int))
  }

  /** Byte `i` is the second of such a pair, pairs being taken from the left. */
  predicate IsSecond(c: Text, i: nat) {
    0 < i < |c| && ModeAt(c, i - 1) == Plain && Pairs(c[i - 1], c[i]) && !IsSecond(c, i - 1)
  }

  /** A separator starts at byte `i`: a plain `;`, newline, `|` or `&`, alone or first of a pair, but not the `&` of `&>`. */
  predicate IsSeparatorAt(c: Text, i: nat) {
    && i < |c| && ModeAt(c, i) == Plain && !IsSecond(c, i)
    && (|| IsByte(c, i, ';') || IsByte(c, i, '\n') || IsByte(c, i, '|')
        || (IsByte(c, i, '&') && !IsByte(c, i + 1, '>')))
  }

  function SeparatorLength(c: Text, i: nat): nat {
    if IsSecond(c, i + 1) then 2 else 1
  }

  /**
   What is never accepted: a plain backtick, parenthesis or `<<`; and inside double quotes a backtick or `$(` that is not
   behind a backslash.
   */
  predicate IsForbiddenAt(c: Text, i: nat) {
    i < |c| &&
    match ModeAt(c, i)
    case Plain => IsByte(c, i, '`') || IsByte(c, i, '(') || IsByte(c, i, ')') || (IsByte(c, i, '<') && IsByte(c, i + 1, '<'))
    case Double => IsByte(c, i, '`') || (IsByte(c, i, '$') && IsByte(c, i + 1, '('))
    case _ => false
  }

  predicate NoneForbidden(c: Text, from: nat, to: nat) {
    forall i | from <= i < to :: !IsForbiddenAt(c, i)
  }

  /** Nothing forbidden, no quote left open, no backslash at the end. */
  predicate IsReadable(c: Text) {
    ModeAt(c, |c|) == Plain && NoneForbidden(c, 0, |c|)
  }

  /** The separators from byte `i` on. */
  function SeparatorsFrom(c: Text, i: nat): seq<Split>
    requires i <= |c|
    decreases |c| - i
  {
    if i == |c| then []
    else
      (if IsSeparatorAt(c, i) then [Split(i + SeparatorLength(c, i), SeparatorLength(c, i))] else [])
      + SeparatorsFrom(c, i + 1)
  }

  // ---------------------------------------------------------------------------
  // Quoted regions
  // ---------------------------------------------------------------------------

  /** Bytes that stand in quotes are neither separators nor seconds of a pair behind them. */
  predicate IsQuiet(c: Text, from: nat, to: nat)
    requires to <= |c|
  {
    forall i | from <= i < to :: ModeAt(c, i) != Plain
  }

  lemma {:induction false} SingleRegion(c: Text, b: nat)
    requires b <= |c| && ModeAt(c, b) == Single
    ensures match SingleQuoteEnd(c[b..])
            case None => ModeAt(c, |c|) == Single
            case Some(k) => b + k <= |c| && ModeAt(c, b + k) == Plain && IsQuiet(c, b, b + k) && NoneForbidden(c, b, b + k)
    decreases |c| - b
  {
    if b < |c| {
      assert c[b..][1..] == c[b + 1..];
      if c[b] != SQUOTE {
        SingleRegion(c, b + 1);
      }
    }
  }

  /** From inside double quotes on, something is forbidden, or the text ends there. */
  ghost predicate IsStuck(c: Text, b: nat) {
    ModeAt(c, |c|) != Plain || exists i :: b <= i < |c| && IsForbiddenAt(c, i)
  }

  /** A region inside double quotes that ends after `k` bytes, or never does. */
  ghost predicate IsRegion(c: Text, b: nat, end: Option<nat>) {
    match end
    case None => IsStuck(c, b)
    case Some(k) => b + k <= |c| && ModeAt(c, b + k) == Plain && IsQuiet(c, b, b + k) && NoneForbidden(c, b, b + k)
  }

  /** Quoted bytes in front of a region make it longer. */
  lemma RegionGrows(c: Text, b: nat, n: nat, end: Option<nat>)
    requires b + n <= |c| && IsQuiet(c, b, b + n) && NoneForbidden(c, b, b + n) && IsRegion(c, b + n, end)
    ensures IsRegion(c, b, Shift(n, end))
  {
  }

  lemma {:induction false} DoubleRegion(c: Text, b: nat)
    requires b <= |c| && ModeAt(c, b) == Double
    ensures IsRegion(c, b, DoubleQuoteEnd(c[b..]))
    decreases |c| - b
  {
    if b < |c| {
      var s := c[b..];
      assert s[1..] == c[b + 1..];
      if s[0] == BACKTICK || (s[0] == DOLLAR && Lookahead(s) == LPAREN) {
        assert IsForbiddenAt(c, b);
      } else if s[0] == DQUOTE {
        DoubleCloses(c, b);
      } else if s[0] == BACKSLASH {
        DoubleEscape(c, b);
        if |s| > 1 {
          assert s[2..] == c[b + 2..];
          DoubleRegion(c, b + 2);
          RegionGrows(c, b, 2, DoubleQuoteEnd(c[b + 2..]));
        }
      } else {
        DoubleGoesOn(c, b);
        DoubleRegion(c, b + 1);
        RegionGrows(c, b, 1, DoubleQuoteEnd(c[b + 1..]));
      }
    }
  }

  lemma DoubleCloses(c: Text, b: nat)
    requires b < |c| && ModeAt(c, b) == Double && c[b] == DQUOTE
    ensures ModeAt(c, b + 1) == Plain && IsQuiet(c, b, b + 1) && NoneForbidden(c, b, b + 1)
  {
  }

  lemma DoubleGoesOn(c: Text, b: nat)
    requires b < |c| && ModeAt(c, b) == Double && c[b] != DQUOTE && c[b] != BACKSLASH && !IsForbiddenAt(c, b)
    ensures ModeAt(c, b + 1) == Double && IsQuiet(c, b, b + 1) && NoneForbidden(c, b, b + 1)
  {
  }

  lemma DoubleEscape(c: Text, b: nat)
    requires b < |c| && ModeAt(c, b) == Double && c[b] == BACKSLASH
    ensures ModeAt(c, b + 1) == DoubleEscaped && NoneForbidden(c, b, b + 2)
    ensures b + 1 < |c| ==> ModeAt(c, b + 2) == Double && IsQuiet(c, b, b + 2)
  {
  }

  // ---------------------------------------------------------------------------
  // Tokens
  // ---------------------------------------------------------------------------

  /** A token may start here: the byte stands plain and is not the second of a pair. */
  predicate IsStart(c: Text, b: nat) {
    b <= |c| && ModeAt(c, b) == Plain && !IsSecond(c, b)
  }

  /** The bytes from `b` on, `n` of them, are one token by position. */
  ghost predicate IsTokenAt(c: Text, b: nat, op: bool, n: nat) {
    && 0 < n && b + n <= |c| && IsStart(c, b + n) && NoneForbidden(c, b, b + n)
    && (op <==> IsSeparatorAt(c, b)) && (op ==> SeparatorLength(c, b) == n)
    && forall i | b < i < b + n :: !IsSeparatorAt(c, i)
  }

  lemma QuotedToken(c: Text, b: nat, end: Option<nat>)
    requires b < |c| && IsStart(c, b) && IsRegion(c, b + 1, end) && (c[b] == SQUOTE || c[b] == DQUOTE)
    requires end.Some? ==> end.value > 0
    ensures match QuotedHead(end)
            case Reject => IsStuck(c, b)
            case Accept(op, n) => IsTokenAt(c, b, op, n)
  {
    match end
    case None =>
      if i :| b + 1 <= i < |c| && IsForbiddenAt(c, i) {
        assert IsStuck(c, b);
      }
    case Some(k) =>
      assert ModeAt(c, b + k) != Plain;
      assert !IsSecond(c, b + 1 + k);
      assert !IsForbiddenAt(c, b) && !IsSeparatorAt(c, b);
  }

  /** An escaped byte. */
  lemma EscapeToken(c: Text, b: nat)
    requires b < |c| && IsStart(c, b) && c[b] == BACKSLASH
    ensures if b + 1 == |c| then IsStuck(c, b) else IsTokenAt(c, b, false, 2)
  {
    assert ModeAt(c, b + 1) == Escaped;
    if b + 1 < |c| {
      assert ModeAt(c, b + 2) == Plain;
    }
  }

  /** Two plain bytes that belong together. */
  lemma PairToken(c: Text, b: nat)
    requires b + 1 < |c| && IsStart(c, b) && Pairs(c[b], c[b + 1])
    ensures IsTokenAt(c, b, c[b] == AMP || c[b] == PIPE, 2)
  {
    assert ModeAt(c, b + 1) == Plain && IsSecond(c, b + 1);
    assert ModeAt(c, b + 2) == Plain && !IsSecond(c, b + 2);
  }

  /** A plain byte that is not first of a pair. */
  lemma ByteToken(c: Text, b: nat)
    requires b < |c| && IsStart(c, b) && !IsForbiddenAt(c, b) && c[b] != BACKSLASH && c[b] != SQUOTE && c[b] != DQUOTE
    requires b + 1 < |c| ==> !Pairs(c[b], c[b + 1])
    ensures IsTokenAt(c, b, IsSeparatorAt(c, b), 1)
  {
    assert ModeAt(c, b + 1) == Plain && !IsSecond(c, b + 1);
  }

  lemma PlainToken(c: Text, b: nat)
    requires b < |c| && IsStart(c, b) && c[b] != SQUOTE && c[b] != DQUOTE
    ensures match PlainHead(c[b], Lookahead(c[b..]))
            case Reject => IsStuck(c, b)
            case Accept(op, n) => IsTokenAt(c, b, op, n)
  {
    if c[b] == BACKSLASH {
      EscapeToken(c, b);
    } else if IsForbiddenAt(c, b) {
    } else if b + 1 < |c| && Pairs(c[b], c[b + 1]) {
      PairToken(c, b);
    } else {
      ByteToken(c, b);
      if IsByte(c, b + 1, '(') && (c[b] == DOLLAR || c[b] == LESS || c[b] == GREATER) {
        assert IsForbiddenAt(c, b + 1);
      }
    }
  }

  /** The lexer's first token is the token that stands there by position; where it rejects, the text is stuck. */
  lemma HeadByPosition(c: Text, b: nat)
    requires b < |c| && IsStart(c, b)
    ensures match HeadOf(c[b..])
            case Reject => IsStuck(c, b)
            case Accept(op, n) => IsTokenAt(c, b, op, n)
  {
    assert c[b..][1..] == c[b + 1..];
    if c[b] == SQUOTE {
      SingleRegion(c, b + 1);
      QuotedToken(c, b, SingleQuoteEnd(c[b + 1..]));
    } else if c[b] == DQUOTE {
      DoubleRegion(c, b + 1);
      QuotedToken(c, b, DoubleQuoteEnd(c[b + 1..]));
    } else {
      PlainToken(c, b);
    }
  }

  // ---------------------------------------------------------------------------
  // Whole texts
  // ---------------------------------------------------------------------------

  lemma {:induction false} SkipBytes(c: Text, i: nat, to: nat)
    requires i <= to <= |c| && forall k | i <= k < to :: !IsSeparatorAt(c, k)
    ensures SeparatorsFrom(c, i) == SeparatorsFrom(c, to)
    decreases |c| - i
  {
    if i < to {
      SkipByte(c, i);
      SkipBytes(c, i + 1, to);
    }
  }

  lemma SkipByte(c: Text, i: nat)
    requires i < |c| && !IsSeparatorAt(c, i)
    ensures SeparatorsFrom(c, i) == SeparatorsFrom(c, i + 1)
  {
    assert SeparatorsFrom(c, i) == [] + SeparatorsFrom(c, i + 1);
  }

  lemma SeparatorsOfToken(c: Text, b: nat, op: bool, n: nat)
    requires b < |c| && IsTokenAt(c, b, op, n)
    ensures SeparatorsFrom(c, b) == (if op then [Split(b + n, n)] else []) + SeparatorsFrom(c, b + n)
  {
    SkipBytes(c, b + 1, b + n);
  }

  lemma LexStep(c: Text, b: nat, op: bool, n: nat)
    requires b < |c| && HeadOf(c[b..]) == Accept(op, n)
    ensures b + n <= |c| && (Lex(c[b..]).Some? <==> Lex(c[b + n..]).Some?)
    ensures Lex(c[b..]).Some? ==>
              Splits(Lex(c[b..]).value, b) == (if op then [Split(b + n, n)] else []) + Splits(Lex(c[b + n..]).value, b + n)
  {
    assert c[b..][n..] == c[b + n..];
    if Lex(c[b + n..]).Some? {
      var t, ts := Token(op, c[b..][..n]), Lex(c[b + n..]).value;
      assert Lex(c[b..]) == Some([t] + ts) && ([t] + ts)[1..] == ts;
    }
  }

  /** Nothing is forbidden in a text from `b` on. */
  predicate IsFine(c: Text, b: nat) {
    ModeAt(c, |c|) == Plain && NoneForbidden(c, b, |c|)
  }

  lemma FineBehind(c: Text, b: nat, n: nat)
    requires b + n <= |c| && NoneForbidden(c, b, b + n)
    ensures IsFine(c, b) <==> IsFine(c, b + n)
  {
  }

  /** Exactly the readable rest of a text is lexed, and its separators are those that stand there by position. */
  lemma {:induction false} LexByPosition(c: Text, b: nat)
    requires IsStart(c, b)
    ensures Lex(c[b..]).Some? <==> IsFine(c, b)
    ensures Lex(c[b..]).Some? ==> Splits(Lex(c[b..]).value, b) == SeparatorsFrom(c, b)
    decreases |c| - b
  {
    if b < |c| {
      HeadByPosition(c, b);
      match HeadOf(c[b..])
      case Reject => StuckIsNotFine(c, b);
      case Accept(op, n) =>
        LexByPosition(c, b + n);
        LexStep(c, b, op, n);
        FineBehind(c, b, n);
        SeparatorsOfToken(c, b, op, n);
    }
  }

  lemma StuckIsNotFine(c: Text, b: nat)
    requires IsStuck(c, b)
    ensures !IsFine(c, b)
  {
  }

  /** A text is lexed if and only if it is readable, and then its split points are its separators. */
  lemma ReadableExactly(c: Text)
    ensures Lex(c).Some? <==> IsReadable(c)
    ensures Lex(c).Some? ==> Splits(Lex(c).value, 0) == SeparatorsFrom(c, 0)
  {
    assert c[0..] == c;
    LexByPosition(c, 0);
  }
}
