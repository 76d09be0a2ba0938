/**
 * Pieces in hand: one integer word per colour, split into bit fields per raw
 * piece type (web/shogi.js, lines 136-156). Pawn is an 8-bit field at bit 0;
 * lance, knight, silver, bishop, rook and gold are 4-bit fields at bits 8,
 * 12, 16, 20, 24 and 28.
 */
module Hands {
  import opened Pieces

  const HandEmpty := 0

  /** `HAND_ONE`: the value 1 in the field of each raw type (`1 << HAND_SHIFT[pr]`). */
  const HandOne: seq<int> := [0, 0x1, 0x100, 0x1000, 0x1_0000, 0x10_0000, 0x100_0000, 0x1000_0000]

  /** The number of values a field holds: `HAND_MASK[pr] >> HAND_SHIFT[pr]` plus one. */
  function FieldSize(pr: int): nat
    requires Pawn <= pr <= Gold
  {
    if pr == Pawn then 0x100 else 0x10
  }

  /** `HAND_PIECE_RAWS`: the order in which a hand is written out. */
  const HandPieceRaws: seq<int> := [Rook, Bishop, Gold, Silver, Knight, Lance, Pawn]

  lemma HandPieceRawIn(i: int)
    requires 0 <= i < |HandPieceRaws|
    ensures Pawn <= HandPieceRaws[i] <= Gold
  {
  }

  /**
   * `(h & HAND_MASK[pr]) >> HAND_SHIFT[pr]`. JavaScript's `&` and `>>` act on
   * the signed 32-bit value of `h`: the field is read from `h` modulo 2^32, and
   * the gold field, whose top bit is bit 31 of the word, reads negative from 8
   * up. A raw type without a mask (none, king and beyond) reads 0.
   */
  function HandCount(h: int, pr: int): (n: int)
    ensures Pawn <= pr <= Gold && pr != Gold ==> 0 <= n < FieldSize(pr)
    ensures pr == Gold ==> -8 <= n < 8
    ensures !(Pawn <= pr <= Gold) ==> n == 0
  {
    if Pawn <= pr <= Gold then
      var field := (h % 0x1_0000_0000 / HandOne[pr]) % FieldSize(pr);
      if pr == Gold && field >= 8 then field - 16 else field
    else
      0
  }

  /** `HAND_ONE[pr] * d`: the change that adds `d` pieces of raw type `pr`. */
  function HandDiff(pr: int, d: int): int
    requires 0 <= pr < |HandOne|
  {
    HandOne[pr] * d
  }

  /** The largest count a field holds and still reads back as itself. */
  function SlotLimit(pr: int): nat
    requires Pawn <= pr <= Gold
  {
    if pr == Gold then 8 else FieldSize(pr)
  }

  /** A hand word whose every field is inside its slot, the gold field below 8. */
  predicate HandFits(h: int)
  {
    0 <= h < 0x8000_0000
  }

  /** Counts per raw type, index 0 unused. */
  predicate ValidCounts(cs: seq<int>)
  {
    |cs| == 8 && cs[0] == 0 &&
    forall pr :: Pawn <= pr <= Gold ==> 0 <= cs[pr] < SlotLimit(pr)
  }

  /** The word that holds the given counts. */
  function HandWord(cs: seq<int>): int
    requires |cs| == 8
  {
    cs[1] * HandOne[1] + cs[2] * HandOne[2] + cs[3] * HandOne[3] + cs[4] * HandOne[4] +
    cs[5] * HandOne[5] + cs[6] * HandOne[6] + cs[7] * HandOne[7]
  }

  /** The counts a word holds, as `handCount` reads them. */
  function HandFields(h: int): (cs: seq<int>)
    ensures |cs| == 8 && cs[0] == 0
    ensures forall pr :: Pawn <= pr <= Gold ==> cs[pr] == HandCount(h, pr)
  {
    [0, HandCount(h, 1), HandCount(h, 2), HandCount(h, 3), HandCount(h, 4),
     HandCount(h, 5), HandCount(h, 6), HandCount(h, 7)]
  }

  lemma {:induction false} MulAtLeast(k: int, a: int)
    requires k > 0 && a >= 1
    ensures k * a >= k
    decreases a
  {
    if a > 1 {
      MulAtLeast(k, a - 1);
      assert k * a == k * (a - 1) + k;
    }
  }

  /** Division by `k` recovers the high part of `lo + k * q` and the remainder its low part. */
  lemma DivAddMul(lo: int, k: int, q: int)
    requires 0 <= lo < k
    ensures (lo + k * q) / k == q && (lo + k * q) % k == lo
  {
    var n := lo + k * q;
    var d, r := n / k, n % k;
    assert k * d + r == n;
    assert k * (d - q) == lo - r by {
      assert k * d - k * q == k * (d - q);
    }
    if d > q {
      MulAtLeast(k, d - q);
    } else if d < q {
      MulAtLeast(k, q - d);
    }
  }

  /** The field of width `size` at unit `k` of a word whose lower fields sum to `lo` is `c`. */
  lemma FieldRead(w: int, lo: int, k: int, c: int, size: int, hi: int)
    requires 0 <= lo < k && 0 <= c < size && w == lo + k * (c + size * hi)
    ensures (w / k) % size == c
  {
    DivAddMul(lo, k, c + size * hi);
    DivAddMul(c, size, hi);
  }

  /** Field `pr` of the word built from fitting counts reads back as `cs[pr]`. */
  lemma WordField(cs: seq<int>, pr: int)
    requires ValidCounts(cs) && Pawn <= pr <= Gold
    ensures HandCount(HandWord(cs), pr) == cs[pr]
  {
    var c1, c2, c3, c4, c5, c6, c7 := cs[1], cs[2], cs[3], cs[4], cs[5], cs[6], cs[7];
    assert 0 <= c1 < 256 && 0 <= c2 < 16 && 0 <= c3 < 16 && 0 <= c4 < 16;
    assert 0 <= c5 < 16 && 0 <= c6 < 16 && 0 <= c7 < 8;
    var w := HandWord(cs);
    DivAddMul(w, 0x1_0000_0000, 0);
    var l2 := c1;
    var l3 := l2 + 0x100 * c2;
    var l4 := l3 + 0x1000 * c3;
    var l5 := l4 + 0x1_0000 * c4;
    var l6 := l5 + 0x10_0000 * c5;
    var l7 := l6 + 0x100_0000 * c6;
    var h6 := c7;
    var h5 := c6 + 16 * h6;
    var h4 := c5 + 16 * h5;
    var h3 := c4 + 16 * h4;
    var h2 := c3 + 16 * h3;
    var h1 := c2 + 16 * h2;
    if pr == 1 {
      FieldRead(w, 0, 1, c1, 0x100, h1);
    } else if pr == 2 {
      FieldRead(w, l2, 0x100, c2, 16, h2);
    } else if pr == 3 {
      FieldRead(w, l3, 0x1000, c3, 16, h3);
    } else if pr == 4 {
      FieldRead(w, l4, 0x1_0000, c4, 16, h4);
    } else if pr == 5 {
      FieldRead(w, l5, 0x10_0000, c5, 16, h5);
    } else if pr == 6 {
      FieldRead(w, l6, 0x100_0000, c6, 16, h6);
    } else {
      FieldRead(w, l7, 0x1000_0000, c7, 16, 0);
    }
  }

  /** Reading the fields of a word built from fitting counts gives the counts back. */
  lemma FieldsOfWord(cs: seq<int>)
    requires ValidCounts(cs)
    ensures HandFits(HandWord(cs))
    ensures HandFields(HandWord(cs)) == cs
  {
    forall pr | Pawn <= pr <= Gold
      ensures HandFields(HandWord(cs))[pr] == cs[pr]
    {
      WordField(cs, pr);
    }
  }

  /** Every fitting word is the word of the counts it holds. */
  lemma WordOfFields(h: int)
    requires HandFits(h)
    ensures ValidCounts(HandFields(h))
    ensures HandWord(HandFields(h)) == h
  {
    var q1, f1 := h / 0x100, h % 0x100;
    var q2, f2 := q1 / 16, q1 % 16;
    var q3, f3 := q2 / 16, q2 % 16;
    var q4, f4 := q3 / 16, q3 % 16;
    var q5, f5 := q4 / 16, q4 % 16;
    var q6, f6 := q5 / 16, q5 % 16;
    assert q1 < 0x80_0000 && q2 < 0x8_0000 && q3 < 0x8000 && q4 < 0x800 && q5 < 0x80 && q6 < 8;
    var cs := [0, f1, f2, f3, f4, f5, f6, q6];
    assert ValidCounts(cs);
    assert HandWord(cs) == h;
    FieldsOfWord(cs);
  }

  /**
   * Adding `HandDiff(pr, d)` to a fitting word raises the count of `pr` by `d`
   * and leaves every other field as it was, provided the new count stays
   * inside its slot.
   */
  lemma AddHandCountLaw(h: int, pr: int, d: int)
    requires HandFits(h) && Pawn <= pr <= Gold
    requires 0 <= HandCount(h, pr) + d < SlotLimit(pr)
    ensures HandFits(h + HandDiff(pr, d))
    ensures HandCount(h + HandDiff(pr, d), pr) == HandCount(h, pr) + d
    ensures forall q :: q != pr ==> HandCount(h + HandDiff(pr, d), q) == HandCount(h, q)
  {
    var cs := HandFields(h);
    WordOfFields(h);
    var cs' := cs[pr := cs[pr] + d];
    assert ValidCounts(cs');
    assert HandWord(cs') == h + HandDiff(pr, d);
    FieldsOfWord(cs');
    forall q | q != pr
      ensures HandCount(h + HandDiff(pr, d), q) == HandCount(h, q)
    {
      if Pawn <= q <= Gold {
        assert HandFields(h + HandDiff(pr, d))[q] == cs'[q];
      }
    }
  }

  /** A raw type without a field (none, or a king's raw type 0) changes nothing. */
  lemma NoFieldNoChange(d: int)
    ensures HandDiff(PieceNone, d) == 0
  {
  }

  /** Only the empty word holds no pieces at all. */
  lemma EmptyHandIsZero(h: int)
    requires HandFits(h)
    ensures h == HandEmpty <==> forall pr :: Pawn <= pr <= Gold ==> HandCount(h, pr) == 0
  {
    WordOfFields(h);
    if forall pr :: Pawn <= pr <= Gold ==> HandCount(h, pr) == 0 {
      assert HandWord(HandFields(h)) == 0;
    }
    if h == HandEmpty {
      FieldsOfWord([0, 0, 0, 0, 0, 0, 0, 0]);
      assert HandWord([0, 0, 0, 0, 0, 0, 0, 0]) == 0;
    }
  }
}
