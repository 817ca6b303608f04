/** The command splitter: what it computes, and the two loops that compute it. */
module CommandSplit {
  import opened Options
  import opened Text
  import opened ShellLexer
  import opened Pieces
  import opened Quoting

  datatype BashSplit =
    | Simple(command: Text)
    | Compound(commands: seq<Text>)
    | Unparseable

  /** The verdict on the trimmed, non-blank pieces of a text that had a separator. */
  function Verdict(cmds: seq<Text>): (r: BashSplit)
    ensures r.Compound? ==> |r.commands| > 1
  {
    if cmds == [] then Unparseable
    else if |cmds| == 1 then Simple(cmds[0])
    else Compound(cmds)
  }

  /** What the splitter returns, in terms of the lexer. */
  function SplitOf(c: Text): (r: BashSplit)
    ensures r.Compound? ==> |r.commands| > 1
  {
    match Lex(c)
    case None => Unparseable
    case Some(ts) =>
      if |RawPieces(ts)| == 1 then Simple(Trim(c)) else Verdict(NonBlank(RawPieces(ts)))
  }

  // ---------------------------------------------------------------------------
  // The scan: one byte at a time, with a quote state
  // ---------------------------------------------------------------------------

  datatype Quote = Unquoted | SingleQuoted | DoubleQuoted

  /** The separators still to be found in `s`, which starts at `base` in quote state `q`. */
  function Ahead(q: Quote, s: Text, base: nat): Option<seq<Split>> {
    match q
    case Unquoted => AheadUnquoted(s, base)
    case SingleQuoted => AheadAfter(SingleQuoteEnd(s), s, base)
    case DoubleQuoted => AheadAfter(DoubleQuoteEnd(s), s, base)
  }

  function AheadUnquoted(s: Text, base: nat): Option<seq<Split>> {
    match Lex(s)
    case None => None
    case Some(ts) => Some(Splits(ts, base))
  }

  function AheadAfter(end: Option<nat>, s: Text, base: nat): Option<seq<Split>>
    requires end.Some? ==> end.value <= |s|
  {
    match end
    case None => None
    case Some(k) => AheadUnquoted(s[k..], base + k)
  }

  function Follow(found: seq<Split>, ahead: Option<seq<Split>>): Option<seq<Split>> {
    match ahead
    case None => None
    case Some(more) => Some(found + more)
  }

  /** Taking one token: nothing ahead changes but the separator it may be. */
  lemma TakeToken(s: Text, base: nat, op: bool, n: nat)
    requires s != [] && HeadOf(s) == Accept(op, n)
    ensures op ==> Ahead(Unquoted, s, base) == Follow([Split(base + n, n)], Ahead(Unquoted, s[n..], base + n))
    ensures !op ==> Ahead(Unquoted, s, base) == Ahead(Unquoted, s[n..], base + n)
  {
    if Lex(s[n..]).Some? {
      var ts := Lex(s[n..]).value;
      assert ([Token(op, s[..n])] + ts)[1..] == ts;
      assert [] + Splits(ts, base + n) == Splits(ts, base + n);
    }
  }

  /** Entering a quoted region. */
  lemma OpenQuote(s: Text, base: nat)
    requires s != [] && (s[0] == SQUOTE || s[0] == DQUOTE)
    ensures Ahead(Unquoted, s, base) == Ahead(if s[0] == SQUOTE then SingleQuoted else DoubleQuoted, s[1..], base + 1)
  {
    if HeadOf(s).Accept? {
      TakeToken(s, base, false, HeadOf(s).len);
      assert s[1..][HeadOf(s).len - 1..] == s[HeadOf(s).len..];
    }
  }

  /** Moving `n` bytes on inside a quoted region, or out of it. */
  lemma InsideSingle(s: Text, base: nat)
    requires s != []
    ensures Ahead(SingleQuoted, s, base) == Ahead(if s[0] == SQUOTE then Unquoted else SingleQuoted, s[1..], base + 1)
  {
    if s[0] != SQUOTE && SingleQuoteEnd(s[1..]).Some? {
      var k := SingleQuoteEnd(s[1..]).value;
      assert s[1..][k..] == s[1 + k..];
    }
  }

  lemma InsideDouble(s: Text, base: nat)
    requires s != [] && s[0] != BACKTICK && !(s[0] == DOLLAR && Lookahead(s) == LPAREN)
    requires s[0] == BACKSLASH ==> |s| > 1
    ensures var n := if s[0] == BACKSLASH then 2 else 1;
            Ahead(DoubleQuoted, s, base) == Ahead(if s[0] == DQUOTE then Unquoted else DoubleQuoted, s[n..], base + n)
  {
    var n := if s[0] == BACKSLASH then 2 else 1;
    if s[0] != DQUOTE && DoubleQuoteEnd(s[n..]).Some? {
      var k := DoubleQuoteEnd(s[n..]).value;
      assert s[n..][k..] == s[n + k..];
    }
  }

  lemma FollowTwice(found: seq<Split>, one: Split, ahead: Option<seq<Split>>)
    ensures Follow(found, Follow([one], ahead)) == Follow(found + [one], ahead)
  {
    if ahead.Some? {
      assert found + ([one] + ahead.value) == (found + [one]) + ahead.value;
    }
  }

  /** One step of the scan outside quotes, as the lexer sees it. */
  lemma UnquotedStep(c: Text, i: nat, found: seq<Split>, n: nat)
    requires i < |c| && HeadOf(c[i..]).Accept? && HeadOf(c[i..]).len == n
    ensures Follow(found, Ahead(Unquoted, c[i..], i)) ==
            Follow(if HeadOf(c[i..]).op then found + [Split(i + n, n)] else found, Ahead(Unquoted, c[i + n..], i + n))
  {
    TakeToken(c[i..], i, HeadOf(c[i..]).op, n);
    assert c[i..][n..] == c[i + n..];
    FollowTwice(found, Split(i + n, n), Ahead(Unquoted, c[i + n..], i + n));
  }

  /** The match on one unquoted byte and the byte after it: a token's kind and length, 0 to give up. */
  method ScanToken(c: Text, i: nat) returns (op: bool, n: nat)
    requires i < |c| && c[i] != SQUOTE && c[i] != DQUOTE
    ensures HeadOf(c[i..]) == if n == 0 then Reject else Accept(op, n)
  {
    var len := |c|;
    assert i + 1 < len ==> c[i..][1] == c[i + 1];
    if c[i] == BACKSLASH {
      return false, if i + 1 >= len then 0 else 2;
    } else if c[i] == BACKTICK || c[i] == LPAREN || c[i] == RPAREN {
      return false, 0;
    } else if c[i] == DOLLAR && i + 1 < len && c[i + 1] == LPAREN {
      return false, 0;
    } else if c[i] == LESS && i + 1 < len && (c[i + 1] == LESS || c[i + 1] == LPAREN) {
      return false, 0;
    } else if c[i] == LESS && i + 1 < len && c[i + 1] == AMP {
      return false, 2;
    } else if c[i] == GREATER && i + 1 < len && c[i + 1] == LPAREN {
      return false, 0;
    } else if c[i] == GREATER && i + 1 < len && c[i + 1] == AMP {
      return false, 2;
    } else if c[i] == GREATER && i + 1 < len && c[i + 1] == PIPE {
      return false, 2;
    } else if c[i] == AMP && i + 1 < len && c[i + 1] == AMP {
      return true, 2;
    } else if c[i] == AMP && i + 1 < len && c[i + 1] == GREATER {
      return false, 1;
    } else if c[i] == AMP {
      return true, 1;
    } else if c[i] == PIPE && i + 1 < len && c[i + 1] == PIPE {
      return true, 2;
    } else if c[i] == PIPE && i + 1 < len && c[i + 1] == AMP {
      return true, 2;
    } else if c[i] == PIPE {
      return true, 1;
    } else if c[i] == SEMICOLON || c[i] == NEWLINE {
      return true, 1;
    }
    return false, 1;
  }

  /**
   The scanning loop. It finds every separator the lexer finds and no other, in order and without
   overlap, and gives up exactly when the lexer does.
   */
  method ScanSplits(c: Text) returns (r: Option<seq<Split>>)
    ensures r == Follow([Split(0, 0)], Ahead(Unquoted, c, 0))
  {
    var len := |c|;
    var state := Unquoted;
    var i: nat := 0;
    var splits := [Split(0, 0)];
    assert c[0..] == c;
    while i < len
      invariant i <= len
      invariant Follow(splits, Ahead(state, c[i..], i)) == Follow([Split(0, 0)], Ahead(Unquoted, c, 0))
    {
      ghost var s := c[i..];
      assert |s| > 1 ==> s[1] == c[i + 1];
      match state
      case Unquoted =>
        if c[i] == SQUOTE || c[i] == DQUOTE {
          OpenQuote(s, i);
          assert s[1..] == c[i + 1..];
          state := if c[i] == SQUOTE then SingleQuoted else DoubleQuoted;
          i := i + 1;
        } else {
          var op, n := ScanToken(c, i);
          if n == 0 {
            return None;
          }
          UnquotedStep(c, i, splits, n);
          if op {
            splits := splits + [Split(i + n, n)];
          }
          i := i + n;
        }
      case SingleQuoted =>
        InsideSingle(s, i);
        assert s[1..] == c[i + 1..];
        if c[i] == SQUOTE {
          state := Unquoted;
        }
        i := i + 1;
      case DoubleQuoted =>
        if c[i] == BACKTICK || (c[i] == DOLLAR && i + 1 < len && c[i + 1] == LPAREN) {
          return None;
        }
        if c[i] == BACKSLASH {
          if i + 1 >= len {
            return None;
          }
          InsideDouble(s, i);
          assert s[2..] == c[i + 2..];
          i := i + 2;
        } else {
          InsideDouble(s, i);
          assert s[1..] == c[i + 1..];
          if c[i] == DQUOTE {
            state := Unquoted;
          }
          i := i + 1;
        }
    }
    assert c[i..] == [];
    if state != Unquoted {
      return None;
    }
    assert Ahead(Unquoted, [], i) == Some([]);
    assert splits + [] == splits;
    return Some(splits);
  }

  // ---------------------------------------------------------------------------
  // The extraction: slices between split points, trimmed, the empty ones skipped
  // ---------------------------------------------------------------------------

  predicate Sliceable(c: Text, splits: seq<Split>) {
    splits != [] ==> InOrder(splits[0].start, splits[1..], |c|)
  }

  /** The commands that a list of split points gives. */
  function CommandsAt(c: Text, splits: seq<Split>): seq<Text>
    requires Sliceable(c, splits)
  {
    if splits == [] then [] else NonBlank(Slices(c, splits[0].start, splits[1..]))
  }

  /** The first of those commands, and the rest. */
  lemma CommandsStep(c: Text, splits: seq<Split>, start: int, end: int)
    requires splits != [] && Sliceable(c, splits)
    requires start == splits[0].start
    requires end == if |splits| > 1 then splits[1].start - splits[1].opLen else |c|
    ensures start <= end <= |c| && Sliceable(c, splits[1..])
    ensures CommandsAt(c, splits) == Trimmed(c[start..end]) + CommandsAt(c, splits[1..])
  {
    SlicesUnfold(c, splits[0].start, splits[1..]);
  }

  lemma SlicesUnfold(c: Text, start: nat, splits: seq<Split>)
    requires InOrder(start, splits, |c|)
    ensures start <= |c|
    ensures splits == [] ==> NonBlank(Slices(c, start, splits)) == Trimmed(c[start..|c|]) + []
    ensures splits != [] ==>
              && InOrder(splits[0].start, splits[1..], |c|)
              && start <= splits[0].start - splits[0].opLen <= |c|
              && NonBlank(Slices(c, start, splits)) ==
                 Trimmed(c[start..splits[0].start - splits[0].opLen]) + NonBlank(Slices(c, splits[0].start, splits[1..]))
  {
    InOrderIsBounded(start, splits, |c|);
    if splits != [] {
      assert Slices(c, start, splits)[1..] == Slices(c, splits[0].start, splits[1..]);
    } else {
      assert c[start..|c|] == c[start..];
    }
  }

  /** The body of the extraction loop: trim one slice and keep it unless it is empty. */
  method PushCommand(cmds: seq<Text>, piece: Text, ghost later: seq<Text>) returns (r: seq<Text>)
    ensures r == cmds + Trimmed(piece)
    ensures r + later == cmds + (Trimmed(piece) + later)
  {
    var subcmd := Trim(piece);
    r := cmds;
    if |subcmd| != 0 {
      r := r + [subcmd];
    }
  }

  method ExtractCommands(c: Text, splits: seq<Split>) returns (cmds: seq<Text>)
    requires Sliceable(c, splits)
    ensures cmds == CommandsAt(c, splits)
  {
    cmds := [];
    ghost var rest, later := splits, CommandsAt(c, splits);
    for idx := 0 to |splits|
      invariant rest == splits[idx..] && Sliceable(c, rest)
      invariant later == CommandsAt(c, rest)
      invariant cmds + later == CommandsAt(c, splits)
    {
      var start := splits[idx].start;
      var end := if idx + 1 < |splits| then splits[idx + 1].start - splits[idx + 1].opLen else |c|;
      CommandsStep(c, rest, start, end);
      rest := rest[1..];
      later := CommandsAt(c, rest);
      cmds := PushCommand(cmds, c[start..end], later);
    }
  }

  lemma {:induction false} LexIsSolid(s: Text)
    requires Lex(s).Some?
    ensures Solid(Lex(s).value)
    decreases |s|
  {
    if s != [] {
      LexIsSolid(s[HeadOf(s).len..]);
    }
  }

  /**
   The split points of a text that can be read: in order, disjoint, inside the text, and the slices
   between them are the lexer's pieces, byte for byte.
   */
  lemma SplitPointsAreSound(c: Text, ts: seq<Token>)
    requires Lex(c) == Some(ts)
    ensures InOrder(0, Splits(ts, 0), |c|)
    ensures Slices(c, 0, Splits(ts, 0)) == RawPieces(ts)
    ensures |Splits(ts, 0)| + 1 == |RawPieces(ts)|
  {
    LexIsSolid(c);
    LexIsLossless(c);
    assert c[0..] == c;
    SlicesAreRawPieces(c, 0, 0, ts);
    var ps := RawPieces(ts);
    assert c[0..0] + ps[0] == ps[0] && Glue(c[0..0], ps) == ps;
    SlicesCount(c, 0, Splits(ts, 0));
  }

  lemma {:induction false} SlicesCount(c: Text, start: nat, splits: seq<Split>)
    requires InOrder(start, splits, |c|)
    ensures |Slices(c, start, splits)| == |splits| + 1
    decreases |splits|
  {
    if splits != [] {
      SlicesCount(c, splits[0].start, splits[1..]);
    }
  }

  /** The pieces a readable text has by position: its slices between separators. */
  function PiecesByPosition(c: Text): (ps: seq<Text>)
    requires IsReadable(c)
    ensures |ps| == |SeparatorsFrom(c, 0)| + 1
  {
    ReadableExactly(c);
    SplitPointsAreSound(c, Lex(c).value);
    Slices(c, 0, SeparatorsFrom(c, 0))
  }

  /**
   What a split of the text must be, by position. A text that is not readable is refused. One without a separator is
   itself, trimmed. Otherwise the pieces between separators count that are not blank, trimmed and in order: none of
   them is a refusal, one is a simple command, more are a compound.
   */
  predicate IsSplitOf(c: Text, r: BashSplit) {
    if !IsReadable(c) then r == Unparseable
    else if SeparatorsFrom(c, 0) == [] then r == Simple(Trim(c))
    else
      var cmds := NonBlank(PiecesByPosition(c));
      match r
      case Unparseable => cmds == []
      case Simple(cmd) => cmds == [cmd]
      case Compound(list) => |list| > 1 && cmds == list
  }

  lemma SplitByPosition(c: Text)
    ensures IsSplitOf(c, SplitOf(c))
  {
    ReadableExactly(c);
    if IsReadable(c) {
      SplitPointsAreSound(c, Lex(c).value);
    }
  }

  /** The splitter splits by position, and computes what the lexer says. */
  method SplitBashCommand(c: Text) returns (r: BashSplit)
    ensures IsSplitOf(c, r)
    ensures r == SplitOf(c)
  {
    SplitByPosition(c);
    var scanned := ScanSplits(c);
    if scanned.None? {
      return Unparseable;
    }
    var splits := scanned.value;
    ghost var ts := Lex(c).value;
    SplitPointsAreSound(c, ts);
    assert splits[1..] == Splits(ts, 0);
    if |splits| == 1 {
      return Simple(Trim(c));
    }
    var cmds := ExtractCommands(c, splits);
    if |cmds| == 0 {
      return Unparseable;
    }
    if |cmds| == 1 {
      return Simple(cmds[0]);
    }
    return Compound(cmds);
  }
}
