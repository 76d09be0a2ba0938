/**
 * Facts about whole SFEN lines (web/shogi.js, lines 222-229 and 251-327):
 * the text of a fresh position, and the law that a line written by
 * `toSfen` is read by `fromSfen` into a position that writes the same line.
 */
module SfenFacts {
  import opened Text
  import opened Coords
  import opened Pieces
  import opened Hands
  import opened SfenParse
  import opened SfenFormat
  import opened SfenRoundTrip

  /** A run of empty squares is written as one count, however many squares it spans. */
  lemma {:induction false} EmptyRowText(cells: seq<nat>, run: nat)
    requires forall i :: 0 <= i < |cells| ==> cells[i] == PieceNone
    ensures RowText(cells, run) == RunText(run + |cells|)
    decreases |cells|
  {
    if cells != [] {
      EmptyRowText(cells[1..], run + 1);
    }
  }

  /** A board with no piece on it. */
  predicate Empty(board: seq<nat>)
  {
    |board| == SquareNb && forall sq :: 0 <= sq < SquareNb ==> board[sq] == PieceNone
  }

  /** An empty rank is written `9`. */
  lemma EmptyRankText(board: seq<nat>, r: int)
    requires Empty(board) && PrintableBoard(board) && 0 <= r < RankNb
    ensures RankText(board, r) == "9"
  {
    EmptyRowText(RankCells(board, r), 0);
  }

  /** `n` empty ranks, joined by `/`. */
  function EmptyRanks(n: nat): string
    requires n >= 1
  {
    if n == 1 then "9" else "9/" + EmptyRanks(n - 1)
  }

  lemma {:induction false} EmptyRanksFrom(board: seq<nat>, r: int)
    requires Empty(board) && PrintableBoard(board) && 0 <= r < RankNb
    ensures RanksFrom(board, r) == EmptyRanks(RankNb - r)
    decreases RankNb - r
  {
    EmptyRankText(board, r);
    if r < RankNb - 1 {
      var rest := EmptyRanks(RankNb - (r + 1));
      EmptyRanksFrom(board, r + 1);
      assert RanksFrom(board, r) == "9" + ("/" + rest);
      ConcatAssoc("9", "/", rest);
      assert EmptyRanks(RankNb - r) == "9/" + rest;
    } else {
      assert RanksFrom(board, r) == "9" + "";
    }
  }

  lemma EmptyRanksNine()
    ensures EmptyRanks(9) == "9/9/9/9/9/9/9/9/9"
  {
  }

  /** The empty board is written as nine ranks of nine empty squares. */
  lemma EmptyBoardText()
    ensures BoardText(EmptyBoard()) == "9/9/9/9/9/9/9/9/9"
  {
    EmptyRanksFrom(EmptyBoard(), 0);
    EmptyRanksNine();
  }

  /** The line without its ply: board, side and hands, each followed by a space. */
  function LineHead(board: seq<nat>, hands: seq<int>, side: Color): string
    requires PrintableBoard(board) && |hands| == ColorNb
  {
    BoardText(board) + " " + [ColorToUsi(side)] + " " + HandsText(hands) + " "
  }

  lemma RegroupFields(b: string, c: char, h: string, p: string)
    ensures b + (" " + ([c] + (" " + (h + (" " + p))))) == (b + " " + [c] + " " + h + " ") + p
  {
    ConcatAssoc(h, " ", p);
    ConcatAssoc(" ", h + " ", p);
    ConcatAssoc([c], " " + (h + " "), p);
    ConcatAssoc(" ", [c] + (" " + (h + " ")), p);
    ConcatAssoc(b, " " + ([c] + (" " + (h + " "))), p);
  }

  lemma LineSplit(board: seq<nat>, hands: seq<int>, side: Color, ply: int)
    requires PrintableBoard(board) && |hands| == ColorNb
    ensures SfenText(board, hands, side, ply) == LineHead(board, hands, side) + IntToString(ply)
  {
    RegroupFields(BoardText(board), ColorToUsi(side), HandsText(hands), IntToString(ply));
  }

  lemma FreshFieldsText()
    ensures ("9/9/9/9/9/9/9/9/9" + " " + ['b'] + " " + "-" + " ") + "0" == "9/9/9/9/9/9/9/9/9 b - 0"
  {
  }

  /** A fresh position (empty board and hands, black to move, ply 0) is written `9/9/9/9/9/9/9/9/9 b - 0`. */
  lemma FreshText()
    ensures SfenText(EmptyBoard(), [HandEmpty, HandEmpty], Black, 0) == "9/9/9/9/9/9/9/9/9 b - 0"
  {
    LineSplit(EmptyBoard(), [HandEmpty, HandEmpty], Black, 0);
    EmptyBoardText();
    assert HandsText([HandEmpty, HandEmpty]) == "-";
    assert IntToString(0) == "0";
    FreshFieldsText();
  }

  /**
   * `fromSfen(s).toSfen() == s` for every line `s` that `toSfen` writes for a
   * readable position with a ply of at least 1.
   */
  lemma WrittenTextStable(board: seq<nat>, hands: seq<int>, side: Color, ply: int)
    requires SfenState(board, hands) && ply >= 1
    ensures var t := SfenText(board, hands, side, ply);
            ParseSfen(t).Parsed? && PrintableBoard(ParseSfen(t).board) &&
            SfenText(ParseSfen(t).board, ParseSfen(t).hands, ParseSfen(t).side, ParseSfen(t).ply) == t
  {
    SfenTextRoundTrip(board, hands, side, ply);
  }

  /**
   * At ply 0 the law above fails: the ply is read back as 1, so the line
   * written again differs in its last field. A fresh position is such a
   * position.
   */
  lemma PlyZeroNotStable(board: seq<nat>, hands: seq<int>, side: Color)
    requires SfenState(board, hands)
    ensures var t := SfenText(board, hands, side, 0);
            ParseSfen(t).Parsed? && ParseSfen(t).ply == 1 && PrintableBoard(ParseSfen(t).board) &&
            SfenText(ParseSfen(t).board, ParseSfen(t).hands, ParseSfen(t).side, ParseSfen(t).ply) != t
  {
    SfenTextRoundTrip(board, hands, side, 0);
    LineSplit(board, hands, side, 0);
    LineSplit(board, hands, side, 1);
    var head := LineHead(board, hands, side);
    assert (head + "1")[|head|] != (head + "0")[|head|];
  }
}
