/**
 * Pieces packed as `color << 4 | type` and their USI letters
 * (web/shogi.js, lines 59-134).
 *
 * The source's bit operations act on small non-negative integers, where
 * `x & (2^k - 1)` is `x % 2^k` and `x >> k` is `x / 2^k`; the model writes
 * them that way.
 */
module Pieces {
  import opened Wrappers
  import opened Coords

  const PieceNone := 0
  const Pawn := 1
  const Lance := 2
  const Knight := 3
  const Silver := 4
  const Bishop := 5
  const Rook := 6
  const Gold := 7

  /** Bit 3 of a piece, the promotion bit `0b01000`. */
  predicate IsPromoted(pc: nat)
  {
    (pc / 8) % 2 == 1
  }

  /** `(c << 4) + pt`; `PieceFields` states what reads back. */
  function PieceInit(c: Color, pt: nat): nat
  {
    c * 16 + pt
  }

  /** `(pc & 0b10000) >> 4` */
  function PieceGetColor(pc: nat): Color
  {
    (pc / 16) % 2
  }

  /** `pc & 0b00111`: the type with the promotion bit dropped. */
  function PieceGetPieceRaw(pc: nat): nat
  {
    pc % 8
  }

  /** `pc & 0b01111` */
  function PieceGetPieceType(pc: nat): nat
  {
    pc % 16
  }

  /** `pc | 0b01000`: sets the promotion bit and keeps every other bit. */
  function PiecePromote(pc: nat): (r: nat)
    ensures IsPromoted(r)
    ensures PieceGetPieceRaw(r) == PieceGetPieceRaw(pc) && r / 16 == pc / 16
  {
    if IsPromoted(pc) then pc else pc + 8
  }

  /** `pc & ~0b01000`: clears the promotion bit and keeps every other bit. */
  function PieceDemote(pc: nat): (r: nat)
    ensures !IsPromoted(r)
    ensures PieceGetPieceRaw(r) == PieceGetPieceRaw(pc) && r / 16 == pc / 16
  {
    if IsPromoted(pc) then pc - 8 else pc
  }

  /** Demotion undoes promotion of an unpromoted piece. */
  lemma DemotePromote(pc: nat)
    requires !IsPromoted(pc)
    ensures PieceDemote(PiecePromote(pc)) == pc
  {
  }

  /** Promotion keeps the colour, and the raw type of a piece and its promoted form agree. */
  lemma PromoteKeepsColorAndRaw(pc: nat)
    ensures PieceGetColor(PiecePromote(pc)) == PieceGetColor(pc)
    ensures PieceGetPieceRaw(PiecePromote(pc)) == PieceGetPieceRaw(pc)
  {
  }

  /**
   * The init/accessor laws for every colour and every 4-bit type: the
   * colour and type read back unchanged, and an unpromoted type is its own
   * raw type.
   */
  lemma PieceFields(c: Color, pt: nat)
    requires pt < 16
    ensures PieceGetColor(PieceInit(c, pt)) == c
    ensures PieceGetPieceType(PieceInit(c, pt)) == pt
    ensures pt < 8 ==> PieceGetPieceRaw(PieceInit(c, pt)) == pt && !IsPromoted(PieceInit(c, pt))
    ensures !IsPromoted(pt) ==> PieceGetPieceRaw(PiecePromote(PieceInit(c, pt))) == PieceGetPieceRaw(PieceInit(c, pt))
  {
  }

  /** `PIECE_TO_USI`, indexed by piece: upper case for black, lower case for white. */
  const PieceToUsiTable: seq<string> := [
    "", "P", "L", "N", "S", "B", "R", "G", "K", "+P", "+L", "+N", "+S", "+B", "+R", "",
    "", "p", "l", "n", "s", "b", "r", "g", "k", "+p", "+l", "+n", "+s", "+b", "+r"
  ]

  /** A piece that has a table entry. */
  predicate HasUsi(pc: nat)
  {
    pc < |PieceToUsiTable|
  }

  /** `PIECE_TO_USI[pc]` */
  function PieceToUsi(pc: nat): string
    requires HasUsi(pc)
  {
    TableEntry(pc, |PieceToUsiTable| - 1)
  }

  /**
   * Entry `pc` of the table, reached by walking down from entry `k`. This is
   * plain indexing (`PieceToUsiEntry`), written as a walk so that the
   * verifier opens the table one entry at a time where `pc` is unknown.
   */
  function TableEntry(pc: nat, k: nat): string
    requires pc <= k < |PieceToUsiTable|
    decreases k, pc
  {
    if k == pc then PieceToUsiTable[k] else TableEntry(pc, k - 1)
  }

  lemma {:induction false} TableEntryIndex(pc: nat, k: nat)
    requires pc <= k < |PieceToUsiTable|
    ensures TableEntry(pc, k) == PieceToUsiTable[pc]
    decreases k
  {
    if k != pc {
      TableEntryIndex(pc, k - 1);
    }
  }

  lemma PieceToUsiEntry(pc: nat)
    requires HasUsi(pc)
    ensures PieceToUsi(pc) == PieceToUsiTable[pc]
  {
    TableEntryIndex(pc, |PieceToUsiTable| - 1);
  }

  /**
   * The last index below `n` whose entry is `s`. Building `PIECE_FROM_USI`
   * with `Map.set` over the table in index order lets a later index
   * overwrite an earlier one with the same text.
   */
  function LastIndexOf(s: string, n: nat): (r: Option<nat>)
    requires n <= |PieceToUsiTable|
    ensures r.Some? ==> r.value < n && PieceToUsi(r.value) == s
    decreases n, |s|
  {
    if n == 0 then None
    else if PieceToUsi(n - 1) == s then Some(n - 1)
    else LastIndexOf(s, n - 1)
  }

  /** No entry after the one found, up to `n`, has the text `s`. */
  lemma {:induction false} LastIndexOfIsLast(s: string, n: nat)
    requires n <= |PieceToUsiTable| && LastIndexOf(s, n).Some?
    ensures forall j :: LastIndexOf(s, n).value < j < n ==> PieceToUsi(j) != s
  {
    if PieceToUsi(n - 1) != s {
      LastIndexOfIsLast(s, n - 1);
    }
  }

  /** Nothing is found only when no entry below `n` has the text `s`. */
  lemma {:induction false} LastIndexOfNone(s: string, n: nat)
    requires n <= |PieceToUsiTable| && LastIndexOf(s, n).None?
    ensures forall j :: 0 <= j < n ==> PieceToUsi(j) != s
  {
    if n > 0 {
      LastIndexOfNone(s, n - 1);
    }
  }

  /** `PIECE_FROM_USI.get(usi)`: `None` stands for the source's `undefined`. */
  function PieceFromUsi(usi: string): Option<nat>
  {
    LastIndexOf(usi, |PieceToUsiTable|)
  }

  /** The non-empty entries of the table are pairwise distinct. */
  lemma PieceTextsDistinct(i: nat, j: nat)
    requires i < j < |PieceToUsiTable| && PieceToUsi(i) != ""
    ensures PieceToUsi(i) != PieceToUsi(j)
  {
    PieceToUsiEntry(i);
    PieceToUsiEntry(j);
  }

  /** Every piece with a non-empty letter is read back from that letter. */
  lemma PieceRoundTrip(pc: nat)
    requires HasUsi(pc) && PieceToUsi(pc) != ""
    ensures PieceFromUsi(PieceToUsi(pc)) == Some(pc)
  {
    var r := PieceFromUsi(PieceToUsi(pc));
    if r.None? {
      LastIndexOfNone(PieceToUsi(pc), |PieceToUsiTable|);
    } else if r != Some(pc) {
      LastIndexOfIsLast(PieceToUsi(pc), |PieceToUsiTable|);
      PieceTextsDistinct(pc, r.value);
    }
  }
}
