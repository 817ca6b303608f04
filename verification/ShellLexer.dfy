/**
 The reference reading of a command line: a recursive lexer that takes one token at a time
 and swallows a quoted region whole (section 2.2 of the POSIX.1-2017 Shell Command Language).
 The scanner of `CommandSplit`, which walks the bytes one by one with a quote state, is proved to
 find exactly the operators this lexer finds.
 */
module ShellLexer {
  import opened Options
  import opened Text

  const DQUOTE: Byte := 34
  const DOLLAR: Byte := 36
  const AMP: Byte := 38
  const SQUOTE: Byte := 39
  const LPAREN: Byte := 40
  const RPAREN: Byte := 41
  const SEMICOLON: Byte := 59
  const LESS: Byte := 60
  const GREATER: Byte := 62
  const BACKSLASH: Byte := 92
  const BACKTICK: Byte := 96
  const PIPE: Byte := 124

  /** A command separator, or a stretch of bytes that belongs to a command. */
  datatype Token = Token(op: bool, text: Text)

  /** The first token of a text: its kind and length, or the verdict that the text cannot be read. */
  datatype Head = Reject | Accept(op: bool, len: nat)

  /** The second byte of a text, or -1 at its end. */
  function Lookahead(s: Text): (next: int)
    ensures next >= 0 ==> |s| > 1 && s[1] == next
    ensures next < 0 ==> |s| <= 1
  {
    if |s| > 1 then s[1] else -1
  }

  // ---------------------------------------------------------------------------
  // Quoted regions
  // ---------------------------------------------------------------------------

  function Shift(n: nat, end: Option<nat>): Option<nat> {
    match end
    case None => None
    case Some(k) => Some(n + k)
  }

  /** After an opening single quote: the number of bytes up to and including the closing one. */
  function SingleQuoteEnd(s: Text): (end: Option<nat>)
    ensures end.Some? ==> 0 < end.value <= |s|
  {
    if s == [] then None
    else if s[0] == SQUOTE then Some(1)
    else Shift(1, SingleQuoteEnd(s[1..]))
  }

  /**
   After an opening double quote: the number of bytes up to and including the closing one.
   There is none when the quote stays open, ends in a lone backslash, or substitutes a command.
   */
  function DoubleQuoteEnd(s: Text): (end: Option<nat>)
    ensures end.Some? ==> 0 < end.value <= |s|
    decreases |s|
  {
    if s == [] then None
    else if s[0] == DQUOTE then Some(1)
    else if s[0] == BACKTICK then None
    else if s[0] == DOLLAR && Lookahead(s) == LPAREN then None
    else if s[0] == BACKSLASH then
      if |s| == 1 then None else Shift(2, DoubleQuoteEnd(s[2..]))
    else Shift(1, DoubleQuoteEnd(s[1..]))
  }

  /** The token made of an opening quote and a region that ends where `end` says. */
  function QuotedHead(end: Option<nat>): Head {
    match end
    case None => Reject
    case Some(k) => Accept(false, k + 1)
  }

  // ---------------------------------------------------------------------------
  // Tokens
  // ---------------------------------------------------------------------------

  /** The token that an unquoted byte `c` starts when `next` comes after it. */
  function PlainHead(c: Byte, next: int): (h: Head)
    ensures h.Accept? ==> h.len == 1 || (h.len == 2 && next >= 0)
  {
    if c == BACKSLASH then
      if next < 0 then Reject else Accept(false, 2)
    else if c == BACKTICK || c == LPAREN || c == RPAREN then Reject
    else if c == DOLLAR then
      if next == LPAREN then Reject else Accept(false, 1)
    else if c == LESS then
      if next == LESS || next == LPAREN then Reject
      else Accept(false, if next == AMP then 2 else 1)
    else if c == GREATER then
      if next == LPAREN then Reject
      else Accept(false, if next == AMP || next == PIPE then 2 else 1)
    else if c == AMP then
      if next == GREATER then Accept(false, 1)
      else Accept(true, if next == AMP then 2 else 1)
    else if c == PIPE then Accept(true, if next == PIPE || next == AMP then 2 else 1)
    else Accept(c == SEMICOLON || c == NEWLINE, 1)
  }

  function HeadOf(s: Text): (h: Head)
    requires s != []
    ensures h.Accept? ==> 0 < h.len <= |s|
  {
    if s[0] == SQUOTE then QuotedHead(SingleQuoteEnd(s[1..]))
    else if s[0] == DQUOTE then QuotedHead(DoubleQuoteEnd(s[1..]))
    else PlainHead(s[0], Lookahead(s))
  }

  function Prepend(t: Token, rest: Option<seq<Token>>): Option<seq<Token>> {
    match rest
    case None => None
    case Some(ts) => Some([t] + ts)
  }

  function Append(a: Option<seq<Token>>, b: Option<seq<Token>>): Option<seq<Token>> {
    if a.None? || b.None? then None else Some(a.value + b.value)
  }

  /** All the tokens of a text, or None when some part of it cannot be read. */
  function Lex(s: Text): (r: Option<seq<Token>>)
    decreases |s|
  {
    if s == [] then Some([])
    else
      match HeadOf(s)
      case Reject => None
      case Accept(op, n) => Prepend(Token(op, s[..n]), Lex(s[n..]))
  }

  /** The texts of the separators, in the order of sections 2.9.2 and 2.9.3 of the same standard. */
  predicate IsOperator(t: Text) {
    t in {[AMP, AMP], [PIPE, PIPE], [PIPE, AMP], [AMP], [PIPE], [SEMICOLON], [NEWLINE]}
  }

  function Flatten(ts: seq<Token>): Text {
    if ts == [] then [] else ts[0].text + Flatten(ts[1..])
  }

  /** The tokens of a text, put back together, are the text. */
  lemma {:induction false} LexIsLossless(s: Text)
    requires Lex(s).Some?
    ensures Flatten(Lex(s).value) == s
    decreases |s|
  {
    if s != [] {
      var n := HeadOf(s).len;
      LexIsLossless(s[n..]);
      assert s == s[..n] + s[n..];
    }
  }

  /** A separator token has the text of one of the seven operators. */
  lemma HeadIsOperator(s: Text)
    requires s != [] && HeadOf(s).Accept? && HeadOf(s).op
    ensures IsOperator(s[..HeadOf(s).len])
  {
    assert HeadOf(s).len == 1 ==> s[..1] == [s[0]];
    assert HeadOf(s).len == 2 ==> s[..2] == [s[0], s[1]];
  }

  lemma {:induction false} SeparatorsAreOperators(s: Text, i: nat)
    requires Lex(s).Some? && i < |Lex(s).value| && Lex(s).value[i].op
    ensures IsOperator(Lex(s).value[i].text)
    decreases |s|
  {
    if i == 0 {
      HeadIsOperator(s);
    } else {
      SeparatorsAreOperators(s[HeadOf(s).len..], i - 1);
    }
  }

  // ---------------------------------------------------------------------------
  // What a token depends on: its own bytes and, at most, the byte after it
  // ---------------------------------------------------------------------------

  /** A byte that changes the reading of no byte before it. */
  predicate IsNeutral(b: Byte) {
    b != LPAREN && b != LESS && b != AMP && b != GREATER && b != PIPE
  }

  /** `b` right behind the one-byte token `c` leaves that token as it is. */
  predicate Fits(c: Byte, b: Byte) {
    PlainHead(c, -1).Accept? ==> PlainHead(c, b) == PlainHead(c, -1)
  }

  /** `b` right behind these tokens leaves the last of them as it is. */
  predicate FitsBehind(ts: seq<Token>, b: Byte) {
    ts == [] || |ts[|ts| - 1].text| != 1 || Fits(ts[|ts| - 1].text[0], b)
  }

  lemma NeutralFits(ts: seq<Token>, b: Byte)
    requires IsNeutral(b)
    ensures FitsBehind(ts, b)
  {
  }

  lemma {:induction false} SingleQuoteEndExtends(s: Text, r: Text)
    requires SingleQuoteEnd(s).Some?
    ensures SingleQuoteEnd(s + r) == SingleQuoteEnd(s)
  {
    if s[0] != SQUOTE {
      assert (s + r)[1..] == s[1..] + r;
      SingleQuoteEndExtends(s[1..], r);
    }
  }

  lemma {:induction false} DoubleQuoteEndExtends(s: Text, r: Text)
    requires DoubleQuoteEnd(s).Some?
    ensures DoubleQuoteEnd(s + r) == DoubleQuoteEnd(s)
    decreases |s|
  {
    if s[0] != DQUOTE {
      var n := if s[0] == BACKSLASH then 2 else 1;
      assert (s + r)[n..] == s[n..] + r;
      DoubleQuoteEndExtends(s[n..], r);
    }
  }

  /** A token keeps its reading when text is added behind it. */
  lemma HeadExtends(s: Text, r: Text)
    requires s != [] && HeadOf(s).Accept?
    requires |s| == 1 && r != [] ==> Fits(s[0], r[0])
    ensures HeadOf(s + r) == HeadOf(s)
  {
    assert (s + r)[1..] == s[1..] + r;
    if s[0] == SQUOTE {
      SingleQuoteEndExtends(s[1..], r);
    } else if s[0] == DQUOTE {
      DoubleQuoteEndExtends(s[1..], r);
    }
  }

  lemma {:induction false} SingleQuoteEndShrinks(s: Text, r: Text)
    requires SingleQuoteEnd(s + r).Some? && SingleQuoteEnd(s + r).value <= |s|
    ensures SingleQuoteEnd(s) == SingleQuoteEnd(s + r)
  {
    if (s + r)[0] != SQUOTE {
      assert (s + r)[1..] == s[1..] + r;
      SingleQuoteEndShrinks(s[1..], r);
    }
  }

  lemma {:induction false} DoubleQuoteEndShrinks(s: Text, r: Text)
    requires DoubleQuoteEnd(s + r).Some? && DoubleQuoteEnd(s + r).value <= |s|
    ensures DoubleQuoteEnd(s) == DoubleQuoteEnd(s + r)
    decreases |s|
  {
    if (s + r)[0] != DQUOTE {
      var n := if s[0] == BACKSLASH then 2 else 1;
      assert (s + r)[n..] == s[n..] + r;
      DoubleQuoteEndShrinks(s[n..], r);
    }
  }

  /** A token keeps its reading when the text behind it is cut off, if that text began with a separator. */
  lemma HeadShrinks(s: Text, r: Text)
    requires s != [] && HeadOf(s + r).Accept? && HeadOf(s + r).len <= |s|
    requires HeadOf(s + r).len < |s| || r == [] || (HeadOf(r).Accept? && HeadOf(r).op)
    ensures HeadOf(s) == HeadOf(s + r)
  {
    assert (s + r)[1..] == s[1..] + r;
    if s[0] == SQUOTE {
      SingleQuoteEndShrinks(s[1..], r);
    } else if s[0] == DQUOTE {
      DoubleQuoteEndShrinks(s[1..], r);
    }
  }

  /** Reading is compositional wherever the second text leaves the last token of the first as it is. */
  lemma {:induction false} LexAppend(s: Text, r: Text)
    requires Lex(s).Some?
    requires r == [] || FitsBehind(Lex(s).value, r[0])
    ensures Lex(s + r) == Append(Lex(s), Lex(r))
    decreases |s|
  {
    if s == [] {
      assert s + r == r;
      assert Lex(r).Some? ==> [] + Lex(r).value == Lex(r).value;
    } else {
      var n := HeadOf(s).len;
      var t := Token(HeadOf(s).op, s[..n]);
      LastToken(s);
      LexAppend(s[n..], r);
      HeadExtends(s, r);
      LexOneMore(s, r, t.op, n);
      AppendAfterPrepend(t, Lex(s[n..]), Lex(r));
    }
  }

  /** The last token of a text is the last one behind its first token, or its only one. */
  lemma LastToken(s: Text)
    requires s != [] && Lex(s).Some?
    ensures var n, ts := HeadOf(s).len, Lex(s).value;
            && Lex(s[n..]).Some? && ts != []
            && (var rest := Lex(s[n..]).value;
                ts[|ts| - 1].text == if rest == [] then s else rest[|rest| - 1].text)
  {
    var n := HeadOf(s).len;
    if Lex(s[n..]).value == [] {
      assert s[n..] == [];
      assert s[..n] == s;
    }
  }

  lemma LexOneMore(s: Text, r: Text, op: bool, n: nat)
    requires s != [] && n <= |s| && HeadOf(s + r) == Accept(op, n)
    ensures Lex(s + r) == Prepend(Token(op, s[..n]), Lex(s[n..] + r))
  {
    assert (s + r)[..n] == s[..n] && (s + r)[n..] == s[n..] + r;
  }

  lemma AppendAfterPrepend(t: Token, a: Option<seq<Token>>, b: Option<seq<Token>>)
    ensures Append(Prepend(t, a), b) == Prepend(t, Append(a, b))
  {
    if a.Some? && b.Some? {
      assert ([t] + a.value) + b.value == [t] + (a.value + b.value);
    }
  }

  predicate IsOneBlank(t: Text) {
    |t| == 1 && (t[0] == SPACE || t[0] == TAB)
  }

  /** Spaces and tabs are tokens of a command, one byte each. */
  lemma {:induction false} LexBlank(b: Text)
    requires IsBlank(b)
    ensures Lex(b).Some?
    ensures forall i | 0 <= i < |Lex(b).value| :: !Lex(b).value[i].op && IsOneBlank(Lex(b).value[i].text)
  {
    if b != [] {
      assert b[..1] == [b[0]];
      LexBlank(b[1..]);
    }
  }

  /** Nothing lengthens a space or a tab. */
  lemma BlankFits(b: Text, c: Byte)
    requires IsBlank(b)
    ensures Lex(b).Some? && FitsBehind(Lex(b).value, c)
  {
    LexBlank(b);
  }

  /** A separator in front of a text is read as that separator, unless the next byte lengthens it. */
  lemma LexOperator(op: Text, r: Text)
    requires IsOperator(op)
    requires |op| == 2 || r == [] || Fits(op[0], r[0])
    ensures Lex(op + r) == Prepend(Token(true, op), Lex(r))
  {
    var s := op + r;
    assert HeadOf(s) == Accept(true, |op|);
    assert s[..|op|] == op && s[|op|..] == r;
  }
}
