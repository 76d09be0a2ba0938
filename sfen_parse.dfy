/**
 * Reading a position from SFEN text (web/shogi.js, lines 251-285) as
 * functions: the four-field pattern, the scanners that stand for the
 * source's `matchAll` calls, and the effect of each token on the board and
 * the hands. `Position.FromSfen` runs the same steps with loops.
 */
module SfenParse {
  import opened Wrappers
  import opened Text
  import opened Coords
  import opened Pieces
  import opened Hands

  /**
   * What `/^([+a-zA-Z\d/]+)\s+([bw])\s+(?:-|([a-zA-Z\d]+))\s+(\d+)$/`
   * matches: four fields and the white space between them.
   */
  datatype SfenMatch = SfenMatch(
    board: string, gap1: string, side: char, gap2: string, hand: string, gap3: string, ply: string)

  predicate IsGap(s: string)
  {
    |s| >= 1 && AllIn(s, SpaceChar)
  }

  predicate WellFormedSfen(m: SfenMatch)
  {
    |m.board| >= 1 && AllIn(m.board, BoardChar) && IsGap(m.gap1) &&
    (m.side == 'b' || m.side == 'w') && IsGap(m.gap2) &&
    IsHandField(m.hand) && IsGap(m.gap3) &&
    |m.ply| >= 1 && AllIn(m.ply, DigitChar)
  }

  function MatchText(m: SfenMatch): string
  {
    m.board + (m.gap1 + ([m.side] + (m.gap2 + (m.hand + (m.gap3 + m.ply)))))
  }

  /** White space then the ply digits up to the end: `\s+(\d+)$`. */
  function MatchPly(t: string): (r: Option<(string, string)>)
    ensures r.Some? ==> IsGap(r.value.0) && |r.value.1| >= 1 && AllIn(r.value.1, DigitChar)
    ensures r.Some? ==> t == r.value.0 + r.value.1
  {
    var gap := Span(t, SpaceChar);
    var ply := t[|gap|..];
    if |gap| == 0 || |ply| == 0 || !AllIn(ply, DigitChar) then None
    else
      assert t == gap + ply;
      Some((gap, ply))
  }

  predicate IsHandField(hand: string)
  {
    hand == "-" || (|hand| >= 1 && AllIn(hand, AlnumChar))
  }

  /** `-` or a run of letters and digits, and what follows it. */
  function ScanHand(t: string): (r: (string, string))
    ensures t == r.0 + r.1
    ensures r.0 == "-" || (AllIn(r.0, AlnumChar) && (r.1 == [] || !InClass(r.1[0], AlnumChar)))
  {
    if |t| > 0 && t[0] == '-' then
      assert t == "-" + t[1..];
      ("-", t[1..])
    else Scan(t, AlnumChar)
  }

  /** White space, the hand field, and the rest: `\s+(?:-|([a-zA-Z\d]+))\s+(\d+)$`. */
  function MatchHand(t: string): (r: Option<(string, string, string, string)>)
    ensures r.Some? ==> IsGap(r.value.0) && IsHandField(r.value.1) && IsGap(r.value.2)
    ensures r.Some? ==> |r.value.3| >= 1 && AllIn(r.value.3, DigitChar)
    ensures r.Some? ==> t == r.value.0 + (r.value.1 + (r.value.2 + r.value.3))
  {
    var (gap, t1) := Scan(t, SpaceChar);
    var (hand, t2) := ScanHand(t1);
    if |gap| == 0 || |hand| == 0 then None
    else
      match MatchPly(t2)
      case None => None
      case Some((gap3, ply)) => Some((gap, hand, gap3, ply))
  }

  /** The side letter and the rest: `([bw])\s+(?:-|([a-zA-Z\d]+))\s+(\d+)$`. */
  function MatchSide(t: string): (r: Option<(char, (string, string, string, string))>)
    ensures r.Some? ==> |t| >= 1 && r.value.0 == t[0] && (t[0] == 'b' || t[0] == 'w')
    ensures r.Some? ==> MatchHand(t[1..]) == Some(r.value.1) && t == [t[0]] + t[1..]
  {
    if |t| == 0 || !(t[0] == 'b' || t[0] == 'w') then None
    else
      match MatchHand(t[1..])
      case None => None
      case Some(rest) => Some((t[0], rest))
  }

  /** A scanner for the four-field pattern; a match always spells out the whole text. */
  function MatchSfen(t: string): (r: Option<SfenMatch>)
    ensures r.Some? ==> WellFormedSfen(r.value) && MatchText(r.value) == t
  {
    var (board, t1) := Scan(t, BoardChar);
    var (gap1, t2) := Scan(t1, SpaceChar);
    if |board| == 0 || |gap1| == 0 then None
    else
      match MatchSide(t2)
      case None => None
      case Some((side, (gap2, hand, gap3, ply))) =>
        Some(SfenMatch(board, gap1, side, gap2, hand, gap3, ply))
  }

  lemma MatchPlyOf(gap: string, ply: string)
    requires IsGap(gap) && |ply| >= 1 && AllIn(ply, DigitChar)
    ensures MatchPly(gap + ply) == Some((gap, ply))
  {
    SpanOf(gap, ply, SpaceChar);
    assert (gap + ply)[|gap|..] == ply;
  }

  lemma ScanHandOf(hand: string, t: string)
    requires IsHandField(hand) && (t == [] || !InClass(t[0], AlnumChar))
    ensures ScanHand(hand + t) == (hand, t)
  {
    if hand == "-" {
      assert (hand + t)[1..] == t;
    } else {
      ScanOf(hand, t, AlnumChar);
    }
  }

  lemma MatchHandOf(gap: string, hand: string, gap3: string, ply: string)
    requires IsGap(gap) && IsHandField(hand) && IsGap(gap3) && |ply| >= 1 && AllIn(ply, DigitChar)
    ensures MatchHand(gap + (hand + (gap3 + ply))) == Some((gap, hand, gap3, ply))
  {
    var t2 := gap3 + ply;
    var t1 := hand + t2;
    ScanOf(gap, t1, SpaceChar);
    ScanHandOf(hand, t2);
    MatchPlyOf(gap3, ply);
  }

  /** The scanner accepts exactly the texts of well-formed matches. */
  lemma MatchSfenExact(t: string, m: SfenMatch)
    requires WellFormedSfen(m)
    ensures MatchSfen(t) == Some(m) <==> MatchText(m) == t
  {
    if MatchText(m) == t {
      var t2 := [m.side] + (m.gap2 + (m.hand + (m.gap3 + m.ply)));
      var t1 := m.gap1 + t2;
      ScanOf(m.board, t1, BoardChar);
      ScanOf(m.gap1, t2, SpaceChar);
      assert t2[1..] == m.gap2 + (m.hand + (m.gap3 + m.ply));
      MatchHandOf(m.gap2, m.hand, m.gap3, m.ply);
      assert MatchSide(t2) == Some((m.side, (m.gap2, m.hand, m.gap3, m.ply)));
    }
  }

  /** What `/(\d)|(\+?[a-zA-Z])/g` finds in one rank: a run of empty files or a piece. */
  datatype RankToken = EmptyRun(n: nat) | PieceToken(usi: string)

  /** `rankUsi.matchAll(...)`: a character that starts no match (a `+` before no letter) is passed over. */
  function LexRank(s: string): seq<RankToken>
    decreases |s|
  {
    if s == [] then []
    else if IsDigit(s[0]) then [EmptyRun(DigitValue(s[0]))] + LexRank(s[1..])
    else if IsLetter(s[0]) then [PieceToken([s[0]])] + LexRank(s[1..])
    else if s[0] == '+' && |s| >= 2 && IsLetter(s[1]) then [PieceToken(s[..2])] + LexRank(s[2..])
    else LexRank(s[1..])
  }

  /** A board of 81 empty squares. */
  function EmptyBoard(): (b: seq<nat>)
    ensures |b| == SquareNb && forall sq :: 0 <= sq < SquareNb ==> b[sq] == PieceNone
  {
    seq(SquareNb, _ => PieceNone)
  }

  /**
   * `putPiece` as `fromSfen` uses it. A square outside 0..80 (too many ranks
   * or files in the text) is a property of the source's array that no other
   * operation reads, so on the 81 squares it changes nothing.
   */
  function Put(board: seq<nat>, sq: int, pc: nat): (b: seq<nat>)
    ensures |b| == |board|
    ensures forall i :: 0 <= i < |b| ==> b[i] == if i == sq then pc else board[i]
  {
    if 0 <= sq < |board| then board[sq := pc] else board
  }

  /**
   * The inner loop of `fromSfen` on rank `r` from file `f` on. `None` marks a
   * token with no piece: the source stores `undefined` there, which the model
   * does not follow.
   */
  function PlaceRank(board: seq<nat>, r: int, f: int, toks: seq<RankToken>): (res: Option<seq<nat>>)
    ensures res.Some? ==> |res.value| == |board|
    decreases |toks|
  {
    if toks == [] then Some(board)
    else
      match toks[0]
      case EmptyRun(n) => PlaceRank(board, r, f - n, toks[1..])
      case PieceToken(usi) =>
        match PieceFromUsi(usi)
        case None => None
        case Some(pc) =>
          PlaceRank(if pc != PieceNone then Put(board, SquareInit(f, r), pc) else board, r, f - 1, toks[1..])
  }

  /** The outer loop of `fromSfen`: rank `r` onwards, each starting at file 8. */
  function PlaceRanks(board: seq<nat>, r: int, ranks: seq<string>): (res: Option<seq<nat>>)
    ensures res.Some? ==> |res.value| == |board|
    decreases |ranks|
  {
    if ranks == [] then Some(board)
    else
      match PlaceRank(board, r, FileNb - 1, LexRank(ranks[0]))
      case None => None
      case Some(b) => PlaceRanks(b, r + 1, ranks[1..])
  }

  /** What `/(\d*)([a-zA-Z])/g` finds in the hand field: a count and a letter. */
  datatype HandToken = HandToken(count: string, letter: char)

  /** `handsUsi.matchAll(...)`: digits that no letter follows are passed over. */
  function LexHand(s: string): seq<HandToken>
    decreases |s|
  {
    if s == [] then []
    else
      var digits := Span(s, DigitChar);
      if |digits| < |s| && IsLetter(s[|digits|]) then
        [HandToken(digits, s[|digits|])] + LexHand(s[|digits| + 1..])
      else
        LexHand(s[1..])
  }

  /** `+countUsi || 1`: no count, or a count of 0, means one piece. */
  function TokenCount(count: string): nat
  {
    if AllIn(count, DigitChar) && DecimalValue(count) != 0 then DecimalValue(count) else 1
  }

  /**
   * One pass of the hand loop of `fromSfen`: a token whose letter names a
   * piece adds its count to the hand of the piece's colour, in the field of
   * its raw type; a letter with no piece is passed over.
   */
  function AddToken(hands: seq<int>, tok: HandToken): (hs: seq<int>)
    requires |hands| == ColorNb
    ensures |hs| == ColorNb
  {
    match PieceFromUsi([tok.letter])
    case Some(pc) =>
      if pc != PieceNone then
        var c := PieceGetColor(pc);
        hands[c := hands[c] + HandDiff(PieceGetPieceRaw(pc), TokenCount(tok.count))]
      else hands
    case None => hands
  }

  /** The hand loop of `fromSfen`, token by token. */
  function AddHands(hands: seq<int>, toks: seq<HandToken>): (hs: seq<int>)
    requires |hands| == ColorNb
    ensures |hs| == ColorNb
    decreases |toks|
  {
    if toks == [] then hands else AddHands(AddToken(hands, toks[0]), toks[1..])
  }

  /** `+gamePlyUsi || 1` */
  function PlyOf(ply: string): int
    requires AllIn(ply, DigitChar)
  {
    if DecimalValue(ply) != 0 then DecimalValue(ply) else 1
  }

  /** Malformed stands for the source's `null`. */
  datatype SfenResult =
    | Malformed
    | UnknownToken
    | Parsed(board: seq<nat>, hands: seq<int>, side: Color, ply: int)

  /** The hand words the hand field gives, both empty for `-`. */
  function HandsOf(hand: string): (hs: seq<int>)
    ensures |hs| == ColorNb
  {
    if hand == "-" then [HandEmpty, HandEmpty] else AddHands([HandEmpty, HandEmpty], LexHand(hand))
  }

  /** What `fromSfen` builds from the four fields of a match. */
  function BuildFromMatch(m: SfenMatch): (res: SfenResult)
    requires WellFormedSfen(m)
    ensures !res.Malformed?
    ensures res.Parsed? ==> |res.board| == SquareNb && |res.hands| == ColorNb && res.ply >= 1
    ensures res.Parsed? ==> (res.side == White <==> m.side == 'w')
  {
    match PlaceRanks(EmptyBoard(), 0, Split(m.board, '/'))
    case None => UnknownToken
    case Some(board) => Parsed(board, HandsOf(m.hand), ColorFromUsi(m.side), PlyOf(m.ply))
  }

  /** `Position.fromSfen` as a function of the text. */
  function ParseSfen(sfen: string): (res: SfenResult)
    ensures res.Malformed? <==> MatchSfen(Trim(sfen)).None?
    ensures res.Parsed? ==> |res.board| == SquareNb && |res.hands| == ColorNb && res.ply >= 1
  {
    match MatchSfen(Trim(sfen))
    case None => Malformed
    case Some(m) => BuildFromMatch(m)
  }

  /**
   * `fromSfen` returns `null` exactly when the trimmed text is not of the form
   * board, white space, side, white space, hand, white space, ply: a
   * well-formed match `m` that spells out the trimmed text is never
   * malformed, and a text that is not malformed has such a match.
   */
  lemma MalformedExactly(sfen: string, m: SfenMatch)
    requires WellFormedSfen(m)
    ensures MatchText(m) == Trim(sfen) ==> !ParseSfen(sfen).Malformed?
    ensures !ParseSfen(sfen).Malformed? ==>
              MatchSfen(Trim(sfen)).Some? && WellFormedSfen(MatchSfen(Trim(sfen)).value) &&
              MatchText(MatchSfen(Trim(sfen)).value) == Trim(sfen)
  {
    MatchSfenExact(Trim(sfen), m);
  }
}
