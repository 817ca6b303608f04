/** Byte strings: UTF-8 well-formedness, and trimming of Unicode white space. */
module Text {
  type Byte = b: int | 0 <= b < 256
  type Text = seq<Byte>

  const TAB: Byte := 9
  const NEWLINE: Byte := 10
  const SPACE: Byte := 32

  // ---------------------------------------------------------------------------
  // UTF-8 (sections 3 and 4 of RFC 3629)
  // ---------------------------------------------------------------------------

  predicate IsTail(b: Byte) {
    0x80 <= b <= 0xBF
  }

  /** The length of the well-formed character that `s` starts with, or 0 if there is none. */
  function CharLength(s: Text): (n: nat)
    ensures n <= |s| && n <= 4
    ensures n > 0 ==> !IsTail(s[0]) && forall i | 0 < i < n :: IsTail(s[i])
  {
    if |s| >= 1 && s[0] <= 0x7F then 1
    else if |s| >= 2 && 0xC2 <= s[0] <= 0xDF && IsTail(s[1]) then 2
    else if |s| >= 3 && IsTail(s[1]) && IsTail(s[2]) && (
        || (s[0] == 0xE0 && 0xA0 <= s[1])
        || 0xE1 <= s[0] <= 0xEC
        || (s[0] == 0xED && s[1] <= 0x9F)
        || 0xEE <= s[0] <= 0xEF) then 3
    else if |s| >= 4 && IsTail(s[1]) && IsTail(s[2]) && IsTail(s[3]) && (
        || (s[0] == 0xF0 && 0x90 <= s[1])
        || 0xF1 <= s[0] <= 0xF3
        || (s[0] == 0xF4 && s[1] <= 0x8F)) then 4
    else 0
  }

  predicate ValidUtf8(s: Text) {
    s == [] || (CharLength(s) > 0 && ValidUtf8(s[CharLength(s)..]))
  }

  /** A position of `s` that does not fall inside a multi-byte character. */
  predicate IsCharBoundary(s: Text, i: nat)
    requires i <= |s|
  {
    i == |s| || !IsTail(s[i])
  }

  /** A character depends on its own bytes only. */
  lemma CharOfPrefix(s: Text, i: nat)
    requires 0 < CharLength(s) <= i <= |s|
    ensures CharLength(s[..i]) == CharLength(s)
  {
  }

  lemma CutTwice(s: Text, n: nat, i: nat)
    requires n <= i <= |s|
    ensures s[n..][i - n..] == s[i..] && s[n..][..i - n] == s[..i][n..]
  {
  }

  /** Cutting a well-formed string at a character boundary leaves two well-formed strings. */
  lemma {:induction false} CutAtBoundary(s: Text, i: nat)
    requires ValidUtf8(s) && i <= |s| && IsCharBoundary(s, i)
    ensures ValidUtf8(s[..i]) && ValidUtf8(s[i..])
  {
    if i == |s| {
      assert s[..i] == s;
    } else if i == 0 {
      assert s[i..] == s;
    } else {
      var n := CharLength(s);
      assert n <= i;
      CutTwice(s, n, i);
      CutAtBoundary(s[n..], i - n);
      CharOfPrefix(s, i);
    }
  }

  /** The byte after a one-byte character starts a character. */
  lemma {:induction false} BoundaryAfterAscii(s: Text, i: nat)
    requires ValidUtf8(s) && i < |s| && s[i] <= 0x7F
    ensures IsCharBoundary(s, i) && IsCharBoundary(s, i + 1)
  {
    CutAtBoundary(s, i);
    assert s[i..][1..] == s[i + 1..];
    assert ValidUtf8(s[i + 1..]);
  }

  /** The UTF-8 encoding of a code point (section 3 of RFC 3629). */
  function Encode(p: int): Text
    requires 0 <= p < 0x110000
  {
    if p < 0x80 then [p]
    else if p < 0x800 then [0xC0 + p / 64, 0x80 + p % 64]
    else if p < 0x10000 then [0xE0 + p / 4096, 0x80 + p / 64 % 64, 0x80 + p % 64]
    else [0xF0 + p / 262144, 0x80 + p / 4096 % 64, 0x80 + p / 64 % 64, 0x80 + p % 64]
  }

  function EncodeAll(s: string): Text {
    if s == "" then [] else Encode(s[0] as int) + EncodeAll(s[1..])
  }

  /** How many bytes the UTF-8 encoding of a string takes. */
  function EncodedLength(s: string): nat {
    if s == "" then 0
    else
      var c := s[0] as int;
      (if c < 0x80 then 1 else if c < 0x800 then 2 else if c < 0x10000 then 3 else 4) + EncodedLength(s[1..])
  }

  lemma ThreeBytes(p: int)
    requires 0x800 <= p < 0xD800 || 0xE000 <= p < 0x10000
    ensures 0 <= p / 4096 < 16 && (p / 4096 == 0 ==> p / 64 % 64 >= 0x20) && (p / 4096 == 13 ==> p / 64 % 64 < 0x20)
  {
    var a, b, c := p / 4096, p / 64 % 64, p % 64;
    assert p == 4096 * a + 64 * b + c;
  }

  lemma FourBytes(p: int)
    requires 0x10000 <= p < 0x110000
    ensures 0 <= p / 262144 < 5 && (p / 262144 == 0 ==> p / 4096 % 64 >= 0x10) && (p / 262144 == 4 ==> p / 4096 % 64 < 0x10)
  {
    var a, b, c := p / 262144, p / 4096 % 64, p % 4096;
    assert p == 262144 * a + 4096 * b + c;
  }

  lemma EncodedChar(p: int, r: Text)
    requires 0 <= p < 0xD800 || 0xE000 <= p < 0x110000
    ensures CharLength(Encode(p) + r) == |Encode(p)|
  {
    var s := Encode(p) + r;
    if 0x10000 <= p {
      FourBytes(p);
      assert s[0] == Encode(p)[0] && s[1] == Encode(p)[1] && s[2] == Encode(p)[2] && s[3] == Encode(p)[3];
    } else if 0x800 <= p {
      ThreeBytes(p);
      assert s[0] == Encode(p)[0] && s[1] == Encode(p)[1] && s[2] == Encode(p)[2];
    }
  }

  /** The length is that of the encoding, which is well-formed. */
  lemma {:induction false} EncodedLengthIsExact(s: string)
    ensures EncodedLength(s) == |EncodeAll(s)| && ValidUtf8(EncodeAll(s))
  {
    if s != "" {
      EncodedLengthIsExact(s[1..]);
      EncodedChar(s[0] as int, EncodeAll(s[1..]));
      assert EncodeAll(s)[|Encode(s[0] as int)|..] == EncodeAll(s[1..]);
    }
  }

  // ---------------------------------------------------------------------------
  // White space and trimming
  // ---------------------------------------------------------------------------

  /** The three-byte encodings of White_Space: U+1680, U+2000..U+200A, U+2028, U+2029, U+202F, U+205F, U+3000. */
  predicate IsWideBlank(a: Byte, b: Byte, c: Byte) {
    || (a == 0xE1 && b == 0x9A && c == 0x80)
    || (a == 0xE2 && b == 0x80 && (0x80 <= c <= 0x8A || c == 0xA8 || c == 0xA9 || c == 0xAF))
    || (a == 0xE2 && b == 0x81 && c == 0x9F)
    || (a == 0xE3 && b == 0x80 && c == 0x80)
  }

  /** The two-byte encodings of White_Space: U+0085 and U+00A0. */
  predicate IsPairBlank(a: Byte, b: Byte) {
    a == 0xC2 && (b == 0x85 || b == 0xA0)
  }

  /** The one-byte encodings of White_Space: U+0009..U+000D and U+0020. */
  predicate IsAsciiBlank(a: Byte) {
    9 <= a <= 13 || a == 32
  }

  /** The length of the White_Space character at the start of `s`, or 0. */
  function LeadingBlank(s: Text): (n: nat)
    ensures n <= |s|
  {
    if |s| >= 1 && IsAsciiBlank(s[0]) then 1
    else if |s| >= 2 && IsPairBlank(s[0], s[1]) then 2
    else if |s| >= 3 && IsWideBlank(s[0], s[1], s[2]) then 3
    else 0
  }

  /** The length of the White_Space character at the end of `s`, or 0. */
  function TrailingBlank(s: Text): (n: nat)
    ensures n <= |s|
  {
    var e := |s|;
    if e >= 1 && IsAsciiBlank(s[e - 1]) then 1
    else if e >= 2 && IsPairBlank(s[e - 2], s[e - 1]) then 2
    else if e >= 3 && IsWideBlank(s[e - 3], s[e - 2], s[e - 1]) then 3
    else 0
  }

  /** The code points with the Unicode property White_Space. */
  predicate IsWhiteSpace(p: int) {
    || 0x09 <= p <= 0x0D || p == 0x20 || p == 0x85 || p == 0xA0 || p == 0x1680 || 0x2000 <= p <= 0x200A
    || p == 0x2028 || p == 0x2029 || p == 0x202F || p == 0x205F || p == 0x3000
  }

  /** What is trimmed at the start of a text, and at its end, is White_Space and nothing else. */
  lemma BlanksAreWhiteSpace(p: int, r: Text)
    requires 0 <= p < 0x110000
    ensures LeadingBlank(Encode(p) + r) == if IsWhiteSpace(p) then |Encode(p)| else 0
    ensures TrailingBlank(r + Encode(p)) == if IsWhiteSpace(p) then |Encode(p)| else 0
  {
    var e := Encode(p);
    var s, t := e + r, r + e;
    assert forall i | 0 <= i < |e| :: s[i] == e[i] && t[|r| + i] == e[i];
    if p < 0x800 {
    } else if p < 0x10000 {
      WideCodes(p);
    } else {
      assert e[1] < 0xC0 && e[2] < 0xC0 && e[3] < 0xC0;
    }
  }

  lemma WideCodes(p: int)
    requires 0x800 <= p < 0x10000
    ensures IsWideBlank(Encode(p)[0], Encode(p)[1], Encode(p)[2]) <==> IsWhiteSpace(p)
  {
    var a, b, c := p / 4096, p / 64 % 64, p % 64;
    assert p == 4096 * a + 64 * b + c;
  }

  function TrimStart(s: Text): (r: Text)
    ensures |r| <= |s| && LeadingBlank(r) == 0
    decreases |s|
  {
    if LeadingBlank(s) == 0 then s else TrimStart(s[LeadingBlank(s)..])
  }

  function TrimEnd(s: Text): (r: Text)
    ensures r <= s && TrailingBlank(r) == 0
    decreases |s|
  {
    if TrailingBlank(s) == 0 then s else TrimEnd(s[..|s| - TrailingBlank(s)])
  }

  function Trim(s: Text): (r: Text) {
    TrimEnd(TrimStart(s))
  }

  /** `s` is a run of White_Space characters. */
  predicate IsBlankRun(s: Text) {
    s == [] || (LeadingBlank(s) > 0 && IsBlankRun(s[LeadingBlank(s)..]))
  }

  /** Spaces and tabs only: the blanks that never separate commands. */
  predicate IsBlank(s: Text) {
    forall i | 0 <= i < |s| :: s[i] == SPACE || s[i] == TAB
  }

  /** Trimming removes a run of White_Space characters from either end, all of it, and nothing else. */
  lemma TrimStripsBlanks(s: Text) returns (from: nat, to: nat)
    ensures from <= to <= |s| && Trim(s) == s[from..to]
    ensures IsBlankRun(s[..from]) && IsBlankRun(s[to..])
    ensures LeadingBlank(Trim(s)) == 0 && TrailingBlank(Trim(s)) == 0
  {
    from := TrimStartStripsBlanks(s);
    var t, r := TrimStart(s), Trim(s);
    to := from + |r|;
    TrimEndStripsBlanks(t);
    PrefixHasNoBlank(t, r);
    CutMiddle(s, from, to);
  }

  lemma PrefixHasNoBlank(t: Text, r: Text)
    requires r <= t && LeadingBlank(t) == 0
    ensures LeadingBlank(r) == 0
  {
  }

  lemma {:induction false} TrimStartStripsBlanks(s: Text) returns (k: nat)
    ensures k <= |s| && TrimStart(s) == s[k..] && IsBlankRun(s[..k])
    decreases |s|
  {
    var n := LeadingBlank(s);
    if n == 0 {
      k := 0;
    } else {
      var j := TrimStartStripsBlanks(s[n..]);
      k := n + j;
      assert s[n..][j..] == s[k..];
      BlankRunLeads(s[..k], s[n..][..j]);
    }
  }

  lemma BlankRunLeads(t: Text, s: Text)
    requires IsBlankRun(s) && |s| < |t| && t[|t| - |s|..] == s
    requires LeadingBlank(t) == |t| - |s|
    ensures IsBlankRun(t)
  {
  }

  /** A blank character at the end of a text is one on its own. */
  lemma LastBlank(s: Text)
    requires TrailingBlank(s) > 0
    ensures var last := s[|s| - TrailingBlank(s)..];
            last != [] && LeadingBlank(last) == |last|
  {
  }

  lemma {:induction false} TrimEndStripsBlanks(s: Text)
    ensures IsBlankRun(s[|TrimEnd(s)|..])
    decreases |s|
  {
    if TrailingBlank(s) > 0 {
      var m := |s| - TrailingBlank(s);
      var e := |TrimEnd(s[..m])|;
      TrimEndStripsBlanks(s[..m]);
      LastBlank(s);
      BlankRunCut(s, e, m);
    }
  }

  lemma BlankRunCut(s: Text, e: nat, m: nat)
    requires e <= m < |s| && IsBlankRun(s[..m][e..]) && LeadingBlank(s[m..]) == |s[m..]|
    ensures IsBlankRun(s[e..])
  {
    BlankRunGrows(s[..m][e..], s[m..]);
    CutMiddle(s, e, m);
  }

  lemma CutMiddle(s: Text, k: nat, m: nat)
    requires k <= m <= |s|
    ensures s[..m][k..] + s[m..] == s[k..]
    ensures s[k..][m - k..] == s[m..] && s[k..][..m - k] == s[k..m]
  {
  }

  lemma {:induction false} BlankRunGrows(s: Text, w: Text)
    requires IsBlankRun(s) && w != [] && LeadingBlank(w) == |w|
    ensures IsBlankRun(s + w)
    decreases |s|
  {
    if s == [] {
      assert s + w == w && w[|w|..] == [];
    } else {
      var n := LeadingBlank(s);
      assert LeadingBlank(s + w) == n && (s + w)[n..] == s[n..] + w;
      BlankRunGrows(s[n..], w);
    }
  }

  /** Spaces and tabs before a string do not change what it trims to. */
  lemma {:induction false} TrimIgnoresLead(a: Text, s: Text)
    requires IsBlank(a)
    ensures Trim(a + s) == Trim(s)
  {
    if a == [] {
      assert a + s == s;
    } else {
      assert (a + s)[1..] == a[1..] + s;
      TrimIgnoresLead(a[1..], s);
    }
  }

  /** Spaces and tabs after a string do not change what it trims to. */
  lemma {:induction false} TrimIgnoresTrail(s: Text, b: Text)
    requires IsBlank(b)
    ensures Trim(s + b) == Trim(s)
  {
    if b == [] {
      assert s + b == s;
    } else {
      var front, c := b[..|b| - 1], b[|b| - 1];
      TrimIgnoresTrail(s, front);
      assert s + b == (s + front) + [c];
      TrimStartBefore(s + front, c);
      TrimEndDrops(TrimStart(s + front), c);
    }
  }

  lemma {:induction false} TrimStartBefore(s: Text, c: Byte)
    requires c == SPACE || c == TAB
    ensures TrimStart(s + [c]) == if TrimStart(s) == [] then [] else TrimStart(s) + [c]
    decreases |s|
  {
    if s == [] {
      assert s + [c] == [c] && [c][..1] == [c] && [c][1..] == [];
    } else {
      var n := LeadingBlank(s);
      if n > 0 {
        assert (s + [c])[n..] == s[n..] + [c];
        TrimStartBefore(s[n..], c);
      }
    }
  }

  lemma TrimEndDrops(s: Text, c: Byte)
    requires c == SPACE || c == TAB
    ensures TrimEnd(s + [c]) == TrimEnd(s)
  {
    var t := s + [c];
    assert t[|t| - 1..] == [c] && t[..|t| - 1] == s;
  }

  /** Trimming a well-formed string leaves a well-formed string. */
  lemma TrimKeepsUtf8(s: Text)
    requires ValidUtf8(s)
    ensures ValidUtf8(Trim(s))
  {
    TrimStartKeepsUtf8(s);
    TrimEndKeepsUtf8(TrimStart(s));
  }

  lemma {:induction false} TrimStartKeepsUtf8(s: Text)
    requires ValidUtf8(s)
    ensures ValidUtf8(TrimStart(s))
    decreases |s|
  {
    var n := LeadingBlank(s);
    if n > 0 {
      assert CharLength(s) == n;
      TrimStartKeepsUtf8(s[n..]);
    }
  }

  lemma {:induction false} TrimEndKeepsUtf8(s: Text)
    requires ValidUtf8(s)
    ensures ValidUtf8(TrimEnd(s))
    decreases |s|
  {
    var n := TrailingBlank(s);
    if n > 0 {
      CutAtBoundary(s, |s| - n);
      TrimEndKeepsUtf8(s[..|s| - n]);
    }
  }
}
