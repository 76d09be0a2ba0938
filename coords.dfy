/**
 * Colours, files, ranks and squares of the 9x9 Shogi board, with their
 * Universal Shogi Interface (USI) text forms (web/shogi.js, lines 1-57).
 */
module Coords {

  const Black := 0
  const White := 1
  const ColorNb := 2

  /** A colour is 0 (black, first player) or 1 (white, second player). */
  type Color = c: int | 0 <= c < ColorNb

  /** `c ^ 1`: the opponent's colour. */
  function ColorTurn(c: Color): (r: Color)
    ensures r != c
  {
    1 - c
  }

  /** `'bw'[c]` */
  function ColorToUsi(c: Color): char
  {
    "bw"[c]
  }

  /** Only `'w'` is white; every other character reads as black. */
  function ColorFromUsi(usi: char): (c: Color)
    ensures c == White <==> usi == 'w'
  {
    if usi == 'w' then White else Black
  }

  lemma ColorTurnInvolution(c: Color)
    ensures ColorTurn(ColorTurn(c)) == c
  {
  }

  lemma ColorRoundTrip(c: Color)
    ensures ColorFromUsi(ColorToUsi(c)) == c
  {
  }

  lemma ColorTextRoundTrip(usi: char)
    requires usi == 'b' || usi == 'w'
    ensures ColorToUsi(ColorFromUsi(usi)) == usi
  {
  }

  const FileNb := 9
  const RankNb := 9
  const SquareNb := RankNb * FileNb

  predicate IsFileChar(ch: char) { '1' <= ch <= '9' }
  predicate IsRankChar(ch: char) { 'a' <= ch <= 'i' }

  /** `'123456789'[f]`: file 0 is written `1`. */
  function FileToUsi(f: int): (ch: char)
    requires 0 <= f < FileNb
    ensures IsFileChar(ch)
  {
    "123456789"[f]
  }

  /** `usi.charCodeAt(0) - 0x31`; not range checked. */
  function FileFromUsi(usi: char): int
  {
    usi as int - 0x31
  }

  /** `'abcdefghi'[r]`: rank 0 is written `a`. */
  function RankToUsi(r: int): (ch: char)
    requires 0 <= r < RankNb
    ensures IsRankChar(ch)
  {
    "abcdefghi"[r]
  }

  /** `usi.charCodeAt(0) - 0x61`; not range checked. */
  function RankFromUsi(usi: char): int
  {
    usi as int - 0x61
  }

  lemma FileRoundTrip(f: int)
    requires 0 <= f < FileNb
    ensures FileFromUsi(FileToUsi(f)) == f
  {
  }

  lemma FileTextRoundTrip(ch: char)
    requires IsFileChar(ch)
    ensures 0 <= FileFromUsi(ch) < FileNb && FileToUsi(FileFromUsi(ch)) == ch
  {
  }

  lemma RankRoundTrip(r: int)
    requires 0 <= r < RankNb
    ensures RankFromUsi(RankToUsi(r)) == r
  {
  }

  lemma RankTextRoundTrip(ch: char)
    requires IsRankChar(ch)
    ensures 0 <= RankFromUsi(ch) < RankNb && RankToUsi(RankFromUsi(ch)) == ch
  {
  }

  /** `RANK_NB * f + r`. Inside the board it is a square whose file and rank are `f` and `r`. */
  function SquareInit(f: int, r: int): (sq: int)
    ensures 0 <= f < FileNb && 0 <= r < RankNb ==>
              0 <= sq < SquareNb && SquareGetFile(sq) == f && SquareGetRank(sq) == r
  {
    RankNb * f + r
  }

  /** `Math.floor(sq / RANK_NB)` */
  function SquareGetFile(sq: nat): nat
  {
    sq / RankNb
  }

  /** `sq % RANK_NB` */
  function SquareGetRank(sq: nat): nat
  {
    sq % RankNb
  }

  /** Every square is rebuilt from its file and rank, both inside the board. */
  lemma SquareSplit(sq: nat)
    requires sq < SquareNb
    ensures SquareGetFile(sq) < FileNb && SquareGetRank(sq) < RankNb
    ensures SquareInit(SquareGetFile(sq), SquareGetRank(sq)) == sq
  {
  }

  predicate IsSquareText(s: string)
  {
    |s| == 2 && IsFileChar(s[0]) && IsRankChar(s[1])
  }

  /** File character followed by rank character, e.g. square 1 is `1b`. */
  function SquareToUsi(sq: nat): (s: string)
    requires sq < SquareNb
    ensures IsSquareText(s)
  {
    [FileToUsi(SquareGetFile(sq)), RankToUsi(SquareGetRank(sq))]
  }

  function SquareFromUsi(usi: string): (sq: int)
    requires |usi| >= 2
    ensures IsSquareText(usi[..2]) ==> 0 <= sq < SquareNb
  {
    SquareInit(FileFromUsi(usi[0]), RankFromUsi(usi[1]))
  }

  lemma SquareRoundTrip(sq: nat)
    requires sq < SquareNb
    ensures SquareFromUsi(SquareToUsi(sq)) == sq
  {
    FileRoundTrip(SquareGetFile(sq));
    RankRoundTrip(SquareGetRank(sq));
  }

  lemma SquareTextRoundTrip(s: string)
    requires IsSquareText(s)
    ensures 0 <= SquareFromUsi(s) < SquareNb && SquareToUsi(SquareFromUsi(s)) == s
  {
    FileTextRoundTrip(s[0]);
    RankTextRoundTrip(s[1]);
  }
}
