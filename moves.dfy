/**
 * Moves packed into one integer and their USI text (web/shogi.js, lines
 * 158-212): bits 0-6 hold the destination, bits 7-13 the origin or the raw
 * type of a dropped piece, bit 14 is the drop flag and bit 15 the promotion
 * flag.
 */
module Moves {
  import opened Wrappers
  import opened Coords
  import opened Pieces

  const MoveNone := 0
  const MoveDropped := 0x4000
  const MovePromoted := 0x8000

  /** `m & 0x7f` */
  function MoveGetTo(m: nat): nat
  {
    m % 0x80
  }

  /** `(m >> 7) & 0x7f` */
  function MoveGetFrom(m: nat): nat
  {
    (m / 0x80) % 0x80
  }

  /** `m & MOVE_DROPPED`, read as a truth value. */
  predicate MoveIsDropped(m: nat)
  {
    (m / MoveDropped) % 2 == 1
  }

  /** `m & MOVE_PROMOTED`, read as a truth value. */
  predicate MoveIsPromoted(m: nat)
  {
    (m / MovePromoted) % 2 == 1
  }

  /** `to + (from << 7)`: a board move without promotion. */
  function MoveInit(from: nat, to: nat): (m: nat)
    ensures from < 0x80 && to < 0x80 ==>
              MoveGetTo(m) == to && MoveGetFrom(m) == from && !MoveIsDropped(m) && !MoveIsPromoted(m)
  {
    to + from * 0x80
  }

  /** `to + (from << 7) + MOVE_PROMOTED`: a promoting board move. */
  function MoveInitPromote(from: nat, to: nat): (m: nat)
    ensures from < 0x80 && to < 0x80 ==>
              MoveGetTo(m) == to && MoveGetFrom(m) == from && !MoveIsDropped(m) && MoveIsPromoted(m)
  {
    to + from * 0x80 + MovePromoted
  }

  /** `to + (pr << 7) + MOVE_DROPPED`: a drop of raw type `pr`. */
  function MoveInitDrop(pr: nat, to: nat): (m: nat)
    ensures pr < 0x80 && to < 0x80 ==>
              MoveGetTo(m) == to && MoveGetFrom(m) == pr && MoveIsDropped(m) && !MoveIsPromoted(m)
  {
    to + pr * 0x80 + MoveDropped
  }

  /** Every 16-bit move is the sum of its four fields. */
  lemma MoveDecompose(m: nat)
    requires m < 0x1_0000
    ensures m == MoveGetTo(m) + MoveGetFrom(m) * 0x80 +
                 (if MoveIsDropped(m) then MoveDropped else 0) +
                 (if MoveIsPromoted(m) then MovePromoted else 0)
  {
  }

  /** A move that `moveToUsi` can write: its squares and dropped piece have text. */
  predicate MovePrintable(m: nat)
  {
    MoveGetTo(m) < SquareNb &&
    if MoveIsDropped(m) then HasUsi(MoveGetFrom(m)) else MoveGetFrom(m) < SquareNb
  }

  /**
   * A drop `<Piece>*<square>`, a promoting move `<square><square>+` or a
   * plain move `<square><square>`.
   */
  function MoveToUsi(m: nat): (usi: string)
    requires MovePrintable(m)
  {
    if MoveIsDropped(m) then
      PieceToUsi(MoveGetFrom(m)) + "*" + SquareToUsi(MoveGetTo(m))
    else if MoveIsPromoted(m) then
      SquareToUsi(MoveGetFrom(m)) + SquareToUsi(MoveGetTo(m)) + "+"
    else
      SquareToUsi(MoveGetFrom(m)) + SquareToUsi(MoveGetTo(m))
  }

  predicate IsUpper(ch: char) { 'A' <= ch <= 'Z' }

  /**
   * What `/^(?:([A-Z])\*|([1-9][a-i]))([1-9][a-i])(\+)?$/` captures: a drop
   * letter or an origin square, the destination square and whether a `+`
   * follows. The pattern lets a `+` follow a drop as well.
   */
  datatype MoveMatch =
    | DropMatch(letter: char, to: string, plus: bool)
    | BoardMatch(from: string, to: string, plus: bool)

  predicate WellFormedMatch(mm: MoveMatch)
  {
    IsSquareText(mm.to) &&
    match mm
    case DropMatch(letter, _, _) => IsUpper(letter)
    case BoardMatch(from, _, _) => IsSquareText(from)
  }

  /** The text a match was read from. */
  function MatchText(mm: MoveMatch): string
  {
    var tail := mm.to + (if mm.plus then "+" else "");
    match mm
    case DropMatch(letter, _, _) => [letter, '*'] + tail
    case BoardMatch(from, _, _) => from + tail
  }

  /** The part of the pattern after the first alternative: a square and an optional `+`. */
  function MatchTail(t: string): (r: Option<(string, bool)>)
    ensures r.Some? ==> IsSquareText(r.value.0) && t == r.value.0 + (if r.value.1 then "+" else "")
  {
    if |t| == 2 && IsSquareText(t) then Some((t, false))
    else if |t| == 3 && IsSquareText(t[..2]) && t[2] == '+' then Some((t[..2], true))
    else None
  }

  /** A scanner for the move pattern; a match always spells out the whole text. */
  function MatchMove(usi: string): (r: Option<MoveMatch>)
    ensures r.Some? ==> WellFormedMatch(r.value) && MatchText(r.value) == usi
  {
    if |usi| >= 2 && IsUpper(usi[0]) && usi[1] == '*' then
      match MatchTail(usi[2..])
      case Some((to, plus)) => Some(DropMatch(usi[0], to, plus))
      case None => None
    else if |usi| >= 2 && IsSquareText(usi[..2]) then
      match MatchTail(usi[2..])
      case Some((to, plus)) => Some(BoardMatch(usi[..2], to, plus))
      case None => None
    else
      None
  }

  /** The scanner accepts exactly the texts of well-formed matches. */
  lemma MatchMoveExact(usi: string, mm: MoveMatch)
    requires WellFormedMatch(mm)
    ensures MatchMove(usi) == Some(mm) <==> MatchText(mm) == usi
  {
    if MatchText(mm) == usi {
      var tail := mm.to + (if mm.plus then "+" else "");
      match mm
      case DropMatch(letter, to, plus) =>
        assert usi[2..] == tail;
      case BoardMatch(from, to, plus) =>
        assert usi[..2] == from && usi[2..] == tail;
        assert !IsUpper(usi[0]);
    }
  }

  /**
   * The raw type of a drop letter, `pieceFromUsi(prUsi)`; for a letter with no
   * piece the source shifts `undefined`, which reads as 0.
   */
  function DropRaw(letter: char): nat
  {
    match PieceFromUsi([letter])
    case Some(pc) => pc
    case None => 0
  }

  /** `moveFromUsi`: `MOVE_NONE` for any text outside the pattern. */
  function MoveFromUsi(usi: string): (m: nat)
    ensures MatchMove(usi).None? ==> m == MoveNone
  {
    match MatchMove(usi)
    case None => MoveNone
    case Some(DropMatch(letter, to, _)) =>
      MoveInitDrop(DropRaw(letter), SquareFromUsi(to))
    case Some(BoardMatch(from, to, plus)) =>
      if plus then MoveInitPromote(SquareFromUsi(from), SquareFromUsi(to))
      else MoveInit(SquareFromUsi(from), SquareFromUsi(to))
  }

  /**
   * Inside the pattern only `1a1a`, a move from square 0 to square 0, also
   * packs to `MOVE_NONE`.
   */
  lemma MoveNoneText(usi: string)
    ensures MoveFromUsi(usi) == MoveNone <==> MatchMove(usi).None? || usi == "1a1a"
  {
    if MatchMove(usi).Some? {
      var mm := MatchMove(usi).value;
      SquareTextRoundTrip(mm.to);
      assert mm.to[..2] == mm.to;
      if mm.BoardMatch? {
        SquareTextRoundTrip(mm.from);
        assert mm.from[..2] == mm.from;
        if MoveFromUsi(usi) == MoveNone {
          assert !mm.plus;
          assert SquareFromUsi(mm.from) == 0 && SquareFromUsi(mm.to) == 0;
          assert mm.from == SquareToUsi(0) == "1a";
          assert mm.to == "1a";
        }
      }
      if usi == "1a1a" {
        MatchMoveExact(usi, BoardMatch("1a", "1a", false));
      }
    }
  }

  /**
   * The moves the constructors build from squares on the board and from the
   * droppable raw types 1 to 8 (pawn to king).
   */
  predicate CanonicalMove(m: nat)
  {
    m < 0x1_0000 && !(MoveIsDropped(m) && MoveIsPromoted(m)) && MoveGetTo(m) < SquareNb &&
    if MoveIsDropped(m) then 1 <= MoveGetFrom(m) <= 8 else MoveGetFrom(m) < SquareNb
  }

  lemma ConstructorsCanonical(from: nat, to: nat, pr: nat)
    requires from < SquareNb && to < SquareNb && 1 <= pr <= 8
    ensures CanonicalMove(MoveInit(from, to))
    ensures CanonicalMove(MoveInitPromote(from, to))
    ensures CanonicalMove(MoveInitDrop(pr, to))
  {
  }

  /** `moveFromUsi(moveToUsi(m)) == m` for every canonical move. */
  lemma MoveRoundTrip(m: nat)
    requires CanonicalMove(m)
    ensures MovePrintable(m) && MoveFromUsi(MoveToUsi(m)) == m
  {
    var from, to := MoveGetFrom(m), MoveGetTo(m);
    MoveDecompose(m);
    SquareRoundTrip(to);
    var toUsi := SquareToUsi(to);
    if MoveIsDropped(m) {
      var letter := PieceToUsi(from);
      PieceToUsiEntry(from);
      assert |letter| == 1 && IsUpper(letter[0]);
      PieceRoundTrip(from);
      assert [letter[0]] == letter;
      var mm := DropMatch(letter[0], toUsi, false);
      assert MatchText(mm) == MoveToUsi(m);
      MatchMoveExact(MoveToUsi(m), mm);
    } else {
      SquareRoundTrip(from);
      var mm := BoardMatch(SquareToUsi(from), toUsi, MoveIsPromoted(m));
      assert MatchText(mm) == MoveToUsi(m);
      MatchMoveExact(MoveToUsi(m), mm);
    }
  }

  /**
   * `moveToUsi(moveFromUsi(s)) == s` for every text of the pattern whose drop
   * letter names a piece and carries no `+`.
   */
  lemma UsiRoundTrip(usi: string)
    requires MatchMove(usi).Some?
    requires MatchMove(usi).value.DropMatch? ==>
               MatchMove(usi).value.letter in "PLNSBRGK" && !MatchMove(usi).value.plus
    ensures MovePrintable(MoveFromUsi(usi)) && MoveToUsi(MoveFromUsi(usi)) == usi
  {
    var mm := MatchMove(usi).value;
    match mm
    case DropMatch(letter, to, plus) =>
      DropTextRoundTrip(letter, to);
    case BoardMatch(from, to, plus) =>
      BoardTextRoundTrip(from, to, plus);
  }

  /** The drop case of `UsiRoundTrip`. */
  lemma DropTextRoundTrip(letter: char, to: string)
    requires letter in "PLNSBRGK" && IsSquareText(to)
    ensures var m := MoveInitDrop(DropRaw(letter), SquareFromUsi(to));
            MovePrintable(m) && MoveToUsi(m) == [letter, '*'] + to
  {
    SquareTextRoundTrip(to);
    var pr := "PLNSBRGK"[..];
    var i :| 0 <= i < 8 && pr[i] == letter;
    PieceToUsiEntry(i + 1);
    assert PieceToUsi(i + 1) == [letter];
    PieceRoundTrip(i + 1);
    assert DropRaw(letter) == i + 1;
  }

  /** The board-move case of `UsiRoundTrip`. */
  lemma BoardTextRoundTrip(from: string, to: string, plus: bool)
    requires IsSquareText(from) && IsSquareText(to)
    ensures var f, t := SquareFromUsi(from), SquareFromUsi(to);
            var m := if plus then MoveInitPromote(f, t) else MoveInit(f, t);
            MovePrintable(m) && MoveToUsi(m) == from + to + (if plus then "+" else "")
  {
    SquareTextRoundTrip(from);
    SquareTextRoundTrip(to);
  }

  // The three moves between squares 0 (`1a`) and 1 (`1b`) written and read in test/lib/shogi.test.js.

  lemma PlainMoveText()
    ensures MoveToUsi(MoveInit(SquareInit(0, 0), SquareInit(0, 1))) == "1a1b"
  {
    var m := MoveInit(SquareInit(0, 0), SquareInit(0, 1));
    assert MoveGetFrom(m) == 0 && MoveGetTo(m) == 1 && !MoveIsDropped(m) && !MoveIsPromoted(m);
    assert MoveToUsi(m) == SquareToUsi(0) + SquareToUsi(1);
    assert SquareToUsi(0) == ['1', 'a'] && SquareToUsi(1) == ['1', 'b'];
  }

  lemma PromotingMoveText()
    ensures MoveToUsi(MoveInitPromote(SquareInit(0, 0), SquareInit(0, 1))) == "1a1b+"
  {
  }

  lemma DropMoveText()
    ensures MoveToUsi(MoveInitDrop(Pawn, SquareInit(0, 1))) == "P*1b"
  {
    PieceToUsiEntry(Pawn);
  }

  lemma PlainMoveRead()
    ensures MoveFromUsi("1a1b") == MoveInit(SquareInit(0, 0), SquareInit(0, 1))
  {
    MatchMoveExact("1a1b", BoardMatch("1a", "1b", false));
    assert SquareFromUsi("1a") == 0 && SquareFromUsi("1b") == 1;
  }

  lemma PromotingMoveRead()
    ensures MoveFromUsi("1a1b+") == MoveInitPromote(SquareInit(0, 0), SquareInit(0, 1))
  {
    MatchMoveExact("1a1b+", BoardMatch("1a", "1b", true));
  }

  lemma DropMoveRead()
    ensures MoveFromUsi("P*1b") == MoveInitDrop(Pawn, SquareInit(0, 1))
  {
    MatchMoveExact("P*1b", DropMatch('P', "1b", false));
    PieceToUsiEntry(Pawn);
    PieceRoundTrip(Pawn);
  }
}
