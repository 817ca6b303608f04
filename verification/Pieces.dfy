/** From tokens to commands: the stretches between separators, where they lie, and what rebuilds the text. */
module Pieces {
  import opened Text
  import opened ShellLexer

  /** A separator that ends at `start`, where the next command begins, and is `opLen` bytes long. */
  datatype Split = Split(start: nat, opLen: nat)

  /** `p` in front of the first of several pieces. */
  function Glue(p: Text, ps: seq<Text>): (r: seq<Text>)
    requires ps != []
    ensures |r| == |ps|
  {
    [p + ps[0]] + ps[1..]
  }

  /** The untrimmed texts between separators; n separators leave n + 1 of them. */
  function RawPieces(ts: seq<Token>): (ps: seq<Text>)
    ensures ps != []
  {
    if ts == [] then [[]]
    else if ts[0].op then [[]] + RawPieces(ts[1..])
    else Glue(ts[0].text, RawPieces(ts[1..]))
  }

  function Separators(ts: seq<Token>): (os: seq<Text>)
    ensures |os| + 1 == |RawPieces(ts)|
  {
    if ts == [] then [] else (if ts[0].op then [ts[0].text] else []) + Separators(ts[1..])
  }

  /** Pieces and separators taken in turn. */
  function Interleave(ps: seq<Text>, os: seq<Text>): Text
    requires |ps| == |os| + 1
  {
    if os == [] then ps[0] else ps[0] + os[0] + Interleave(ps[1..], os[1..])
  }

  lemma {:induction false} InterleaveGlue(p: Text, ps: seq<Text>, os: seq<Text>)
    requires |ps| == |os| + 1
    ensures Interleave(Glue(p, ps), os) == p + Interleave(ps, os)
  {
    if os != [] {
      assert Glue(p, ps)[1..] == ps[1..];
      var tail := Interleave(ps[1..], os[1..]);
      assert (p + ps[0]) + os[0] + tail == p + (ps[0] + os[0] + tail);
    }
  }

  /** Interleaving the pieces with the separators gives back every byte. */
  lemma {:induction false} InterleaveRebuilds(ts: seq<Token>)
    ensures Interleave(RawPieces(ts), Separators(ts)) == Flatten(ts)
  {
    if ts != [] {
      var ps, os := RawPieces(ts[1..]), Separators(ts[1..]);
      InterleaveRebuilds(ts[1..]);
      if ts[0].op {
        assert RawPieces(ts)[1..] == ps && Separators(ts)[1..] == os;
        assert [] + ts[0].text == ts[0].text;
      } else {
        assert Separators(ts) == os;
        InterleaveGlue(ts[0].text, ps, os);
      }
    }
  }

  /** Two lists of pieces, the last of the first list running into the first of the second. */
  function Merge(p: seq<Text>, q: seq<Text>): (r: seq<Text>)
    requires p != [] && q != []
    ensures r != []
  {
    p[..|p| - 1] + Glue(p[|p| - 1], q)
  }

  lemma MergeAfterSeparator(p: seq<Text>, q: seq<Text>)
    requires p != [] && q != []
    ensures Merge([[]] + p, q) == [[]] + Merge(p, q)
  {
    assert ([[]] + p)[..|p|] == [[]] + p[..|p| - 1];
  }

  lemma MergeAfterWord(t: Text, p: seq<Text>, q: seq<Text>)
    requires p != [] && q != []
    ensures Merge(Glue(t, p), q) == Glue(t, Merge(p, q))
  {
    if |p| == 1 {
      assert (t + p[0]) + q[0] == t + (p[0] + q[0]);
    } else {
      assert Glue(t, p)[..|p| - 1] == Glue(t, p[..|p| - 1]);
    }
  }

  /** The pieces of two token lists put together. */
  lemma {:induction false} PiecesOfConcat(a: seq<Token>, b: seq<Token>)
    ensures RawPieces(a + b) == Merge(RawPieces(a), RawPieces(b))
  {
    if a == [] {
      assert a + b == b;
      assert [] + RawPieces(b)[0] == RawPieces(b)[0];
    } else {
      assert (a + b)[1..] == a[1..] + b;
      PiecesOfConcat(a[1..], b);
      MergeAfterSeparator(RawPieces(a[1..]), RawPieces(b));
      MergeAfterWord(a[0].text, RawPieces(a[1..]), RawPieces(b));
    }
  }

  /** Tokens without a separator make one piece. */
  lemma {:induction false} WordsMakeOnePiece(ts: seq<Token>)
    requires forall i | 0 <= i < |ts| :: !ts[i].op
    ensures RawPieces(ts) == [Flatten(ts)]
  {
    if ts != [] {
      WordsMakeOnePiece(ts[1..]);
    }
  }

  /** One piece means there was no separator. */
  lemma {:induction false} OnePieceIsWords(ts: seq<Token>)
    requires |RawPieces(ts)| == 1
    ensures forall i | 0 <= i < |ts| :: !ts[i].op
  {
    if ts != [] {
      OnePieceIsWords(ts[1..]);
    }
  }

  // ---------------------------------------------------------------------------
  // Commands: trimmed pieces, the blank ones dropped
  // ---------------------------------------------------------------------------

  function Trimmed(p: Text): seq<Text> {
    if Trim(p) == [] then [] else [Trim(p)]
  }

  function NonBlank(ps: seq<Text>): seq<Text> {
    if ps == [] then [] else Trimmed(ps[0]) + NonBlank(ps[1..])
  }

  lemma {:induction false} NonBlankOfConcat(a: seq<Text>, b: seq<Text>)
    ensures NonBlank(a + b) == NonBlank(a) + NonBlank(b)
  {
    if a == [] {
      assert a + b == b;
    } else {
      assert (a + b)[1..] == a[1..] + b;
      NonBlankOfConcat(a[1..], b);
    }
  }

  // ---------------------------------------------------------------------------
  // Positions
  // ---------------------------------------------------------------------------

  /** Where the separators of `ts` lie when the first token starts at `base`. */
  function Splits(ts: seq<Token>, base: nat): seq<Split> {
    if ts == [] then []
    else
      var next := base + |ts[0].text|;
      (if ts[0].op then [Split(next, |ts[0].text|)] else []) + Splits(ts[1..], next)
  }

  /** Separators in order, none of them empty, none overlapping, none before `from` or after `len`. */
  predicate InOrder(from: nat, splits: seq<Split>, len: nat)
    decreases |splits|
  {
    if splits == [] then from <= len
    else
      && 0 < splits[0].opLen
      && from + splits[0].opLen <= splits[0].start
      && InOrder(splits[0].start, splits[1..], len)
  }

  lemma {:induction false} InOrderIsBounded(from: nat, splits: seq<Split>, len: nat)
    requires InOrder(from, splits, len)
    ensures from <= len && forall i | 0 <= i < |splits| :: from < splits[i].start <= len
    ensures forall i, j | 0 <= i < j < |splits| :: splits[i].start + splits[j].opLen <= splits[j].start
    decreases |splits|
  {
    if splits != [] {
      InOrderIsBounded(splits[0].start, splits[1..], len);
      forall i, j | 0 <= i < j < |splits|
        ensures splits[i].start + splits[j].opLen <= splits[j].start
      {
        if i == 0 {
          InOrderAt(splits[0].start, splits[1..], len, j - 1);
        } else {
          assert splits[i] == splits[1..][i - 1] && splits[j] == splits[1..][j - 1];
        }
      }
    }
  }

  lemma {:induction false} InOrderAt(from: nat, splits: seq<Split>, len: nat, j: nat)
    requires InOrder(from, splits, len) && j < |splits|
    ensures from + splits[j].opLen <= splits[j].start
    decreases j
  {
    if j > 0 {
      InOrderAt(splits[0].start, splits[1..], len, j - 1);
    }
  }

  /** The slices of `c` that the separators leave, from `start` on. */
  function Slices(c: Text, start: nat, splits: seq<Split>): seq<Text>
    requires InOrder(start, splits, |c|)
    decreases |splits|
  {
    if splits == [] then [c[start..]]
    else
      InOrderIsBounded(start, splits, |c|);
      [c[start..splits[0].start - splits[0].opLen]] + Slices(c, splits[0].start, splits[1..])
  }

  /** No token is empty. */
  predicate Solid(ts: seq<Token>) {
    forall i | 0 <= i < |ts| :: ts[i].text != []
  }

  /** Slicing at the separators' positions yields the pieces between the separators. */
  lemma {:induction false} SlicesAreRawPieces(c: Text, start: nat, b: nat, ts: seq<Token>)
    requires start <= b <= |c| && c[b..] == Flatten(ts) && Solid(ts)
    ensures InOrder(start, Splits(ts, b), |c|)
    ensures Slices(c, start, Splits(ts, b)) == Glue(c[start..b], RawPieces(ts))
    decreases |ts|
  {
    if ts == [] {
      assert c[start..b] + [] == c[start..];
    } else {
      var next := b + |ts[0].text|;
      assert c[b..][|ts[0].text|..] == c[next..];
      if ts[0].op {
        SlicesAreRawPieces(c, next, next, ts[1..]);
        SliceAtSeparator(c, start, b, ts);
      } else {
        SlicesAreRawPieces(c, start, next, ts[1..]);
        assert Splits(ts, b) == Splits(ts[1..], next);
        SliceWordText(c, start, b, ts[0].text, Flatten(ts[1..]));
        GlueTwice(c[start..b], ts[0].text, c[start..next], RawPieces(ts[1..]));
      }
    }
  }

  lemma SliceAtSeparator(c: Text, start: nat, b: nat, ts: seq<Token>)
    requires start <= b <= |c| && c[b..] == Flatten(ts) && Solid(ts)
    requires ts != [] && ts[0].op
    requires var next := b + |ts[0].text|;
             && InOrder(next, Splits(ts[1..], next), |c|)
             && Slices(c, next, Splits(ts[1..], next)) == Glue(c[next..next], RawPieces(ts[1..]))
    ensures InOrder(start, Splits(ts, b), |c|)
    ensures Slices(c, start, Splits(ts, b)) == Glue(c[start..b], RawPieces(ts))
  {
    var next := b + |ts[0].text|;
    var one, rest := Split(next, |ts[0].text|), Splits(ts[1..], next);
    OneMoreSlice(c, start, one, rest);
    GlueNothing(c[start..b], c[next..next], RawPieces(ts[1..]));
  }

  /** A separator in front of others cuts one more slice off. */
  lemma OneMoreSlice(c: Text, start: nat, one: Split, rest: seq<Split>)
    requires 0 < one.opLen && start + one.opLen <= one.start <= |c| && InOrder(one.start, rest, |c|)
    ensures InOrder(start, [one] + rest, |c|)
    ensures Slices(c, start, [one] + rest) == [c[start..one.start - one.opLen]] + Slices(c, one.start, rest)
  {
    assert ([one] + rest)[1..] == rest;
  }

  lemma GlueNothing(p: Text, none: Text, ps: seq<Text>)
    requires none == [] && ps != []
    ensures [p] + Glue(none, ps) == Glue(p, [[]] + ps)
  {
    assert none + ps[0] == ps[0] && p + [] == p;
    assert [ps[0]] + ps[1..] == ps;
  }

  lemma GlueTwice(a: Text, b: Text, ab: Text, ps: seq<Text>)
    requires ps != [] && ab == a + b
    ensures Glue(a, Glue(b, ps)) == Glue(ab, ps)
  {
    assert a + (b + ps[0]) == ab + ps[0];
  }

  lemma SliceWordText(c: Text, start: nat, b: nat, t: Text, rest: Text)
    requires start <= b <= |c| && c[b..] == t + rest
    ensures b + |t| <= |c| && c[start..b + |t|] == c[start..b] + t
  {
    assert c[b..b + |t|] == c[b..][..|t|] == t;
  }
}
