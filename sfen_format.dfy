/**
 * Writing a position as SFEN text (web/shogi.js, lines 287-327) as
 * functions: the board rank by rank, the hands in the fixed order of
 * `HAND_PIECE_RAWS`, and the whole four-field line. `Position.ToSfen`
 * builds the same text with loops.
 */
module SfenFormat {
  import opened Text
  import opened Coords
  import opened Pieces
  import opened Hands

  /** Every square holds a piece the table can write (or nothing). */
  predicate PrintableBoard(board: seq<nat>)
  {
    |board| == SquareNb && forall sq :: 0 <= sq < SquareNb ==> HasUsi(board[sq])
  }

  /** The squares of rank `r` in the order `toSfen` visits them: file 8 down to file 0. */
  function RankCells(board: seq<nat>, r: int): (cells: seq<nat>)
    requires |board| == SquareNb && 0 <= r < RankNb
    ensures |cells| == FileNb
    ensures forall i :: 0 <= i < FileNb ==> cells[i] == board[SquareInit(FileNb - 1 - i, r)]
  {
    seq(FileNb, i requires 0 <= i < FileNb => board[SquareInit(FileNb - 1 - i, r)])
  }

  /** `if (emptyCount) sfen += emptyCount`: a pending run of empty squares. */
  function RunText(run: nat): string
  {
    if run == 0 then "" else NatToString(run)
  }

  /**
   * The text of the rest of a rank after `run` empty squares have been
   * counted: a run is written when a piece or the end of the rank closes it.
   */
  function RowText(cells: seq<nat>, run: nat): string
    requires forall i :: 0 <= i < |cells| ==> HasUsi(cells[i])
    decreases |cells|
  {
    if cells == [] then RunText(run)
    else if cells[0] != PieceNone then RunText(run) + (PieceToUsi(cells[0]) + RowText(cells[1..], 0))
    else RowText(cells[1..], run + 1)
  }

  function RankText(board: seq<nat>, r: int): string
    requires PrintableBoard(board) && 0 <= r < RankNb
  {
    RowText(RankCells(board, r), 0)
  }

  /** Ranks `r` to 8, a `/` between each two. */
  function RanksFrom(board: seq<nat>, r: int): string
    requires PrintableBoard(board) && 0 <= r < RankNb
    decreases RankNb - r, |board|
  {
    RankText(board, r) + (if r == RankNb - 1 then "" else "/" + RanksFrom(board, r + 1))
  }

  function BoardText(board: seq<nat>): string
    requires PrintableBoard(board)
  {
    RanksFrom(board, 0)
  }

  /** One hand entry: nothing for a count of 0, the piece letter alone for a count of 1 (or a negative reading). */
  function EntryText(c: Color, pr: int, n: int): string
    requires Pawn <= pr <= Gold
  {
    if n == 0 then "" else (if n > 1 then NatToString(n) else "") + PieceToUsi(PieceInit(c, pr))
  }

  /** The entries for `HAND_PIECE_RAWS[i..]` of a hand holding `counts[pr]` pieces of each raw type `pr`. */
  function EntriesFrom(counts: seq<int>, c: Color, i: nat): string
    requires |counts| == 8 && i <= |HandPieceRaws|
    decreases |HandPieceRaws| - i, |counts|
  {
    if i == |HandPieceRaws| then ""
    else EntryText(c, HandPieceRaws[i], counts[HandPieceRaws[i]]) + EntriesFrom(counts, c, i + 1)
  }

  /** The entries of hand word `h`, its counts read by `getHandCount`. */
  function HandText(h: int, c: Color): string
  {
    EntriesFrom(HandFields(h), c, 0)
  }

  /** `-` when both hands are empty, else black's entries then white's. */
  function HandsText(hands: seq<int>): string
    requires |hands| == ColorNb
  {
    if hands[Black] == HandEmpty && hands[White] == HandEmpty then "-"
    else HandText(hands[Black], Black) + HandText(hands[White], White)
  }

  /** `toSfen`: the four fields separated by single spaces. */
  function SfenText(board: seq<nat>, hands: seq<int>, side: Color, ply: int): string
    requires PrintableBoard(board) && |hands| == ColorNb
  {
    BoardText(board) + (" " + ([ColorToUsi(side)] + (" " + (HandsText(hands) + (" " + IntToString(ply))))))
  }
}
