/**
 * Reading back what `toSfen` writes: `fromSfen(p.toSfen())` rebuilds the
 * board, the hands and the side to move of `p`, and its ply with 0 read as
 * 1 (web/shogi.js, lines 251-327).
 */
module SfenRoundTrip {
  import opened Wrappers
  import opened Text
  import opened Coords
  import opened Pieces
  import opened Hands
  import opened SfenParse
  import opened SfenFormat

  /** A square that `toSfen` writes in a form `fromSfen` reads back. */
  predicate BoardCell(pc: nat)
  {
    pc == PieceNone || (HasUsi(pc) && PieceToUsi(pc) != "")
  }

  predicate SfenBoard(board: seq<nat>)
  {
    PrintableBoard(board) && forall sq :: 0 <= sq < SquareNb ==> BoardCell(board[sq])
  }

  /** A board and two hand words that `toSfen` writes in a form `fromSfen` reads back. */
  predicate SfenState(board: seq<nat>, hands: seq<int>)
  {
    SfenBoard(board) && |hands| == ColorNb && HandFits(hands[Black]) && HandFits(hands[White])
  }

  predicate CellsReadable(cells: seq<nat>)
  {
    forall i :: 0 <= i < |cells| ==> BoardCell(cells[i])
  }

  /** Empty, one letter, or `+` and one letter. */
  predicate PieceTextForm(u: string)
  {
    u == "" || (|u| == 1 && IsLetter(u[0])) || (|u| == 2 && u[0] == '+' && IsLetter(u[1]))
  }

  /** The black half of the table and its unused entries hold texts of that form. */
  lemma BlackTextsFormed()
    ensures forall k :: 0 <= k < 16 ==> PieceTextForm(PieceToUsiTable[k])
  {
  }

  /** So does the white half. */
  lemma WhiteTextsFormed()
    ensures forall k :: 16 <= k < |PieceToUsiTable| ==> PieceTextForm(PieceToUsiTable[k])
  {
  }

  /** A piece text is one letter, or `+` and one letter. */
  lemma PieceTextShape(pc: nat)
    requires HasUsi(pc) && PieceToUsi(pc) != ""
    ensures var u := PieceToUsi(pc);
            (|u| == 1 && IsLetter(u[0])) || (|u| == 2 && u[0] == '+' && IsLetter(u[1]))
  {
    PieceToUsiEntry(pc);
    if pc < 16 {
      BlackTextsFormed();
    } else {
      WhiteTextsFormed();
    }
  }

  // ---------------------------------------------------------------- tokens

  lemma LexDigit(d: char, s: string)
    requires IsDigit(d)
    ensures LexRank([d] + s) == [EmptyRun(DigitValue(d))] + LexRank(s)
  {
    assert ([d] + s)[1..] == s;
  }

  lemma LexRun(run: nat, s: string)
    requires 1 <= run < 10
    ensures LexRank(RunText(run) + s) == [EmptyRun(run)] + LexRank(s)
  {
    SmallNatToString(run);
    LexDigit(DigitToChar(run), s);
  }

  lemma LexPiece(pc: nat, s: string)
    requires HasUsi(pc) && PieceToUsi(pc) != ""
    ensures LexRank(PieceToUsi(pc) + s) == [PieceToken(PieceToUsi(pc))] + LexRank(s)
  {
    var u := PieceToUsi(pc);
    PieceTextShape(pc);
    if |u| == 1 {
      assert (u + s)[0] == u[0] && (u + s)[1..] == s && [u[0]] == u;
    } else {
      assert (u + s)[0] == '+' && (u + s)[1] == u[1];
      assert (u + s)[..2] == u && (u + s)[2..] == s;
    }
  }

  lemma PlaceRankCons(board: seq<nat>, r: int, f: int, t: RankToken, toks: seq<RankToken>)
    ensures PlaceRank(board, r, f, [t] + toks) ==
              match t
              case EmptyRun(n) => PlaceRank(board, r, f - n, toks)
              case PieceToken(usi) =>
                match PieceFromUsi(usi)
                case None => None
                case Some(pc) =>
                  PlaceRank(if pc != PieceNone then Put(board, SquareInit(f, r), pc) else board, r, f - 1, toks)
  {
    assert ([t] + toks)[0] == t && ([t] + toks)[1..] == toks;
  }

  // ---------------------------------------------------------------- one rank

  /** The pieces of `cells` put on rank `r`, the head on file `|cells| - 1`; `PutCellsAt` says where. */
  function PutCells(board: seq<nat>, r: int, cells: seq<nat>): (b: seq<nat>)
    requires |board| == SquareNb && 0 <= r < RankNb && |cells| <= FileNb
    ensures |b| == SquareNb
    decreases |cells|
  {
    if cells == [] then board
    else
      var next := if cells[0] != PieceNone then Put(board, SquareInit(|cells| - 1, r), cells[0]) else board;
      PutCells(next, r, cells[1..])
  }

  /** Square `sq` after `PutCells`: the cell for its file when on rank `r` and not empty, else as before. */
  lemma {:induction false} PutCellsAt(board: seq<nat>, r: int, cells: seq<nat>, sq: int)
    requires |board| == SquareNb && 0 <= r < RankNb && |cells| <= FileNb && 0 <= sq < SquareNb
    ensures PutCells(board, r, cells)[sq] ==
              if SquareGetRank(sq) == r && SquareGetFile(sq) < |cells| &&
                 cells[|cells| - 1 - SquareGetFile(sq)] != PieceNone
              then cells[|cells| - 1 - SquareGetFile(sq)] else board[sq]
    decreases |cells|
  {
    if cells != [] {
      var next := if cells[0] != PieceNone then Put(board, SquareInit(|cells| - 1, r), cells[0]) else board;
      PutCellsAt(next, r, cells[1..], sq);
      SquareSplit(sq);
    }
  }

  /** Parsing the text of the rest of a rank places exactly its pieces. */
  lemma {:induction false} RowPlace(board: seq<nat>, r: int, f: int, cells: seq<nat>, run: nat)
    requires |board| == SquareNb && 0 <= r < RankNb
    requires CellsReadable(cells) && run + |cells| <= FileNb && f == |cells| - 1 + run
    ensures PlaceRank(board, r, f, LexRank(RowText(cells, run))) == Some(PutCells(board, r, cells))
    decreases |cells|
  {
    if cells == [] {
      if run != 0 {
        LexRun(run, "");
        assert RunText(run) + "" == RunText(run);
        PlaceRankCons(board, r, f, EmptyRun(run), []);
      }
    } else if cells[0] != PieceNone {
      assert CellsReadable(cells[1..]);
      RowPlace(Put(board, SquareInit(|cells| - 1, r), cells[0]), r, f - run - 1, cells[1..], 0);
      RowPlacePiece(board, r, f, cells, run);
    } else {
      assert CellsReadable(cells[1..]);
      RowPlace(board, r, f, cells[1..], run + 1);
    }
  }

  /** The step of `RowPlace` for a rank whose next cell holds a piece. */
  lemma RowPlacePiece(board: seq<nat>, r: int, f: int, cells: seq<nat>, run: nat)
    requires |board| == SquareNb && 0 <= r < RankNb
    requires CellsReadable(cells) && cells != [] && cells[0] != PieceNone
    requires run + |cells| <= FileNb && f == |cells| - 1 + run
    requires var next := Put(board, SquareInit(|cells| - 1, r), cells[0]);
             PlaceRank(next, r, f - run - 1, LexRank(RowText(cells[1..], 0))) == Some(PutCells(next, r, cells[1..]))
    ensures PlaceRank(board, r, f, LexRank(RowText(cells, run))) == Some(PutCells(board, r, cells))
  {
    var u, rest := PieceToUsi(cells[0]), RowText(cells[1..], 0);
    assert RowText(cells, run) == RunText(run) + (u + rest);
    PlacePiece(board, r, f - run, cells[0], rest);
    if run != 0 {
      PlaceRun(board, r, f, run, u + rest);
    } else {
      assert RunText(run) + (u + rest) == u + rest;
    }
  }

  /** A piece's letters at the head of a rank put the piece on the current file. */
  lemma PlacePiece(board: seq<nat>, r: int, f: int, pc: nat, s: string)
    requires HasUsi(pc) && PieceToUsi(pc) != "" && pc != PieceNone
    ensures PlaceRank(board, r, f, LexRank(PieceToUsi(pc) + s)) ==
            PlaceRank(Put(board, SquareInit(f, r), pc), r, f - 1, LexRank(s))
  {
    LexPiece(pc, s);
    PieceRoundTrip(pc);
    PlaceRankCons(board, r, f, PieceToken(PieceToUsi(pc)), LexRank(s));
  }

  /** A digit at the head of a rank skips that many files. */
  lemma PlaceRun(board: seq<nat>, r: int, f: int, run: nat, s: string)
    requires 1 <= run < 10
    ensures PlaceRank(board, r, f, LexRank(RunText(run) + s)) == PlaceRank(board, r, f - run, LexRank(s))
  {
    LexRun(run, s);
    PlaceRankCons(board, r, f, EmptyRun(run), LexRank(s));
  }

  // ---------------------------------------------------------------- all ranks

  /** `board` on ranks below `r`, empty elsewhere. */
  function Restrict(board: seq<nat>, r: int): (b: seq<nat>)
    requires |board| == SquareNb
    ensures |b| == SquareNb
    ensures forall sq :: 0 <= sq < SquareNb ==> b[sq] == if SquareGetRank(sq) < r then board[sq] else PieceNone
  {
    seq(SquareNb, sq requires 0 <= sq < SquareNb => if SquareGetRank(sq) < r then board[sq] else PieceNone)
  }

  lemma RestrictStep(board: seq<nat>, r: int)
    requires SfenBoard(board) && 0 <= r < RankNb
    ensures PutCells(Restrict(board, r), r, RankCells(board, r)) == Restrict(board, r + 1)
  {
    var cells := RankCells(board, r);
    var lhs := PutCells(Restrict(board, r), r, cells);
    forall sq | 0 <= sq < SquareNb
      ensures lhs[sq] == Restrict(board, r + 1)[sq]
    {
      SquareSplit(sq);
      PutCellsAt(Restrict(board, r), r, cells, sq);
      var f := SquareGetFile(sq);
      if SquareGetRank(sq) == r {
        assert cells[|cells| - 1 - f] == board[sq];
      }
    }
  }

  function RowsFrom(board: seq<nat>, r: int): (rows: seq<string>)
    requires PrintableBoard(board) && 0 <= r <= RankNb
    ensures |rows| == RankNb - r
    ensures forall i :: 0 <= i < RankNb - r ==> rows[i] == RankText(board, r + i)
  {
    seq(RankNb - r, i requires 0 <= i < RankNb - r => RankText(board, r + i))
  }

  lemma RankCellsReadable(board: seq<nat>, r: int)
    requires SfenBoard(board) && 0 <= r < RankNb
    ensures CellsReadable(RankCells(board, r))
  {
    var cells := RankCells(board, r);
    forall i | 0 <= i < |cells|
      ensures BoardCell(cells[i])
    {
      var sq := SquareInit(FileNb - 1 - i, r);
      assert cells[i] == board[sq];
    }
  }

  lemma {:induction false} PlaceAllRanks(board: seq<nat>, r: int)
    requires SfenBoard(board) && 0 <= r <= RankNb
    ensures PlaceRanks(Restrict(board, r), r, RowsFrom(board, r)) == Some(board)
    decreases RankNb - r
  {
    if r == RankNb {
      assert Restrict(board, r) == board;
    } else {
      var cells := RankCells(board, r);
      RankCellsReadable(board, r);
      RowPlace(Restrict(board, r), r, FileNb - 1, cells, 0);
      RestrictStep(board, r);
      PlaceAllRanks(board, r + 1);
      RowsFromCons(board, r);
    }
  }

  /** The text of one rank has no `/` and no character outside the board class. */
  lemma {:induction false} RowChars(cells: seq<nat>, run: nat)
    requires forall i :: 0 <= i < |cells| ==> HasUsi(cells[i])
    ensures AllIn(RowText(cells, run), BoardChar) && '/' !in RowText(cells, run)
    ensures CellsReadable(cells) && |cells| + run >= 1 ==> |RowText(cells, run)| >= 1
    decreases |cells|
  {
    if cells != [] {
      RowChars(cells[1..], if cells[0] != PieceNone then 0 else run + 1);
      assert CellsReadable(cells) ==> CellsReadable(cells[1..]);
      if cells[0] != PieceNone && PieceToUsi(cells[0]) != "" {
        PieceTextShape(cells[0]);
      }
    }
  }

  /** The rows from rank `r` on: rank `r`'s text, then the rows after it. */
  lemma RowsFromCons(board: seq<nat>, r: int)
    requires PrintableBoard(board) && 0 <= r < RankNb
    ensures RowsFrom(board, r) == [RankText(board, r)] + RowsFrom(board, r + 1)
  {
  }

  /** The board text from rank `r` on is a non-empty run of board characters. */
  lemma {:induction false} RanksChars(board: seq<nat>, r: int)
    requires SfenBoard(board) && 0 <= r < RankNb
    ensures AllIn(RanksFrom(board, r), BoardChar) && |RanksFrom(board, r)| >= 1
    decreases RankNb - r
  {
    RankCellsReadable(board, r);
    RowChars(RankCells(board, r), 0);
    if r < RankNb - 1 {
      RanksChars(board, r + 1);
    }
  }

  /** `split('/')` of the board text gives back the ranks. */
  lemma {:induction false} SplitRanks(board: seq<nat>, r: int)
    requires PrintableBoard(board) && 0 <= r < RankNb
    ensures Split(RanksFrom(board, r), '/') == RowsFrom(board, r)
    decreases RankNb - r
  {
    var row := RankText(board, r);
    RowChars(RankCells(board, r), 0);
    SplitNoSep(row, '/');
    RowsFromCons(board, r);
    if r == RankNb - 1 {
      assert RanksFrom(board, r) == row;
    } else {
      SplitRanks(board, r + 1);
      var tail := RanksFrom(board, r + 1);
      assert RanksFrom(board, r) == row + [('/')] + tail;
      SplitConcat(row, '/', tail);
    }
  }

  /** Parsing the board text of a readable board gives the board back. */
  lemma BoardRoundTrip(board: seq<nat>)
    requires SfenBoard(board)
    ensures PlaceRanks(EmptyBoard(), 0, Split(BoardText(board), '/')) == Some(board)
  {
    SplitRanks(board, 0);
    assert Restrict(board, 0) == EmptyBoard();
    PlaceAllRanks(board, 0);
  }

  // ---------------------------------------------------------------- hands

  /** The letter of a piece of raw type `pr` in the hand of colour `c`. */
  function HandLetterOf(c: Color, pr: int): (letter: char)
    requires Pawn <= pr <= Gold
    ensures IsLetter(letter)
  {
    (if c == Black then "PLNSBRG" else "plnsbrg")[pr - 1]
  }

  lemma BlackLetters(pr: int)
    requires Pawn <= pr <= Gold
    ensures PieceToUsiTable[pr] == ["PLNSBRG"[pr - 1]]
  {
  }

  lemma WhiteLetters(pr: int)
    requires Pawn <= pr <= Gold
    ensures PieceToUsiTable[16 + pr] == ["plnsbrg"[pr - 1]]
  {
  }

  /** A piece in hand is written as its one letter, which reads back as that piece. */
  lemma HandLetterText(c: Color, pr: int)
    requires Pawn <= pr <= Gold
    ensures PieceToUsi(PieceInit(c, pr)) == [HandLetterOf(c, pr)]
    ensures PieceFromUsi([HandLetterOf(c, pr)]) == Some(PieceInit(c, pr))
  {
    var pc := PieceInit(c, pr);
    PieceToUsiEntry(pc);
    if c == Black {
      BlackLetters(pr);
    } else {
      WhiteLetters(pr);
    }
    assert PieceToUsi(pc) == [HandLetterOf(c, pr)];
    PieceRoundTrip(pc);
  }

  /** The count written before the letter of an entry of `n` pieces. */
  function CountText(n: int): (digits: string)
    ensures AllIn(digits, DigitChar)
  {
    if n > 1 then NatToString(n) else ""
  }

  lemma TokenCountOf(n: int)
    requires n >= 1
    ensures TokenCount(CountText(n)) == n
  {
    if n > 1 {
      DecimalOfNatToString(n);
    }
  }

  lemma EntryTextOf(c: Color, pr: int, n: int)
    requires Pawn <= pr <= Gold && n != 0
    ensures EntryText(c, pr, n) == CountText(n) + [HandLetterOf(c, pr)]
  {
    HandLetterText(c, pr);
  }

  /** The tokens the scanner finds in one entry. */
  function EntryTokens(c: Color, pr: int, n: int): seq<HandToken>
    requires Pawn <= pr <= Gold
  {
    if n == 0 then [] else [HandToken(CountText(n), HandLetterOf(c, pr))]
  }

  /** The tokens the scanner finds in the entries for `HAND_PIECE_RAWS[i..]`. */
  function TokensFrom(counts: seq<int>, c: Color, i: nat): seq<HandToken>
    requires |counts| == 8 && i <= |HandPieceRaws|
    decreases |HandPieceRaws| - i, |counts|
  {
    if i == |HandPieceRaws| then []
    else EntryTokens(c, HandPieceRaws[i], counts[HandPieceRaws[i]]) + TokensFrom(counts, c, i + 1)
  }

  lemma LexEntry(digits: string, letter: char, s: string)
    requires AllIn(digits, DigitChar) && IsLetter(letter)
    ensures LexHand(digits + ([letter] + s)) == [HandToken(digits, letter)] + LexHand(s)
  {
    var t := digits + ([letter] + s);
    SpanOf(digits, [letter] + s, DigitChar);
    assert t[|digits|] == letter;
    assert t[|digits| + 1..] == s;
  }

  lemma LexEntryText(c: Color, pr: int, n: int, s: string)
    requires Pawn <= pr <= Gold
    ensures LexHand(EntryText(c, pr, n) + s) == EntryTokens(c, pr, n) + LexHand(s)
  {
    if n == 0 {
      assert EntryText(c, pr, n) + s == s;
    } else {
      var digits, letter := CountText(n), HandLetterOf(c, pr);
      EntryTextOf(c, pr, n);
      ConcatAssoc(digits, [letter], s);
      LexEntry(digits, letter, s);
    }
  }

  /** Scanning two texts in a row finds the tokens of the first, then those of the second. */
  lemma LexConcat(a: string, b: string, s: string, ta: seq<HandToken>, tb: seq<HandToken>)
    requires LexHand(a + (b + s)) == ta + LexHand(b + s)
    requires LexHand(b + s) == tb + LexHand(s)
    ensures LexHand((a + b) + s) == (ta + tb) + LexHand(s)
  {
    ConcatAssoc(a, b, s);
    assert ta + (tb + LexHand(s)) == (ta + tb) + LexHand(s);
  }

  /** Scanning the entries of a hand finds one token per non-empty entry. */
  lemma {:induction false} LexEntries(counts: seq<int>, c: Color, i: nat, s: string)
    requires |counts| == 8 && i <= |HandPieceRaws|
    ensures LexHand(EntriesFrom(counts, c, i) + s) == TokensFrom(counts, c, i) + LexHand(s)
    decreases |HandPieceRaws| - i
  {
    if i == |HandPieceRaws| {
      assert EntriesFrom(counts, c, i) + s == s;
    } else {
      LexEntries(counts, c, i + 1, s);
      LexEntriesStep(counts, c, i, s);
    }
  }

  lemma LexEntriesStep(counts: seq<int>, c: Color, i: nat, s: string)
    requires |counts| == 8 && i < |HandPieceRaws|
    requires LexHand(EntriesFrom(counts, c, i + 1) + s) == TokensFrom(counts, c, i + 1) + LexHand(s)
    ensures LexHand(EntriesFrom(counts, c, i) + s) == TokensFrom(counts, c, i) + LexHand(s)
  {
    var pr := HandPieceRaws[i];
    var n := counts[pr];
    var entry, rest := EntryText(c, pr, n), EntriesFrom(counts, c, i + 1);
    LexEntryText(c, pr, n, rest + s);
    LexConcat(entry, rest, s, EntryTokens(c, pr, n), TokensFrom(counts, c, i + 1));
  }

  lemma AddHandsAppend(hands: seq<int>, a: seq<HandToken>, b: seq<HandToken>)
    requires |hands| == ColorNb
    ensures AddHands(hands, a + b) == AddHands(AddHands(hands, a), b)
    decreases |a|
  {
    if a != [] {
      assert (a + b)[0] == a[0] && (a + b)[1..] == a[1..] + b;
      AddHandsAppend(AddToken(hands, a[0]), a[1..], b);
    } else {
      assert a + b == b;
    }
  }

  /** `after` is `before` with `d` added to the hand word of `c` and the other hand unchanged. */
  predicate Added(after: seq<int>, before: seq<int>, c: Color, d: int)
  {
    |after| == ColorNb && |before| == ColorNb && after[c] == before[c] + d && after[1 - c] == before[1 - c]
  }

  /** Two additions to the same hand in a row add their sum. */
  lemma AddedConcat(hands: seq<int>, a: seq<HandToken>, b: seq<HandToken>, c: Color, x: int, y: int)
    requires |hands| == ColorNb
    requires Added(AddHands(hands, a), hands, c, x)
    requires Added(AddHands(AddHands(hands, a), b), AddHands(hands, a), c, y)
    ensures Added(AddHands(hands, a + b), hands, c, x + y)
  {
    AddHandsAppend(hands, a, b);
  }

  /** A token whose letter names a piece of colour `c` and raw type `pr` adds its count there. */
  lemma AddNamedToken(hands: seq<int>, c: Color, pr: int, n: int, count: string, letter: char, pc: nat)
    requires |hands| == ColorNb && Pawn <= pr <= Gold
    requires PieceFromUsi([letter]) == Some(pc) && pc != PieceNone
    requires PieceGetColor(pc) == c && PieceGetPieceRaw(pc) == pr && TokenCount(count) == n
    ensures Added(AddHands(hands, [HandToken(count, letter)]), hands, c, HandDiff(pr, n))
  {
    AddOneToken(hands, HandToken(count, letter));
  }

  lemma AddOneToken(hands: seq<int>, tok: HandToken)
    requires |hands| == ColorNb
    ensures AddHands(hands, [tok]) == AddToken(hands, tok)
  {
    assert [tok][1..] == [];
  }

  /** The token of an entry of `n` pieces adds `n` to the field of `pr` in the hand of `c`. */
  lemma AddEntryTokens(c: Color, pr: int, n: int, hands: seq<int>)
    requires Pawn <= pr <= Gold && n >= 0 && |hands| == ColorNb
    ensures Added(AddHands(hands, EntryTokens(c, pr, n)), hands, c, HandDiff(pr, n))
  {
    if n != 0 {
      HandLetterText(c, pr);
      TokenCountOf(n);
      PieceFields(c, pr);
      AddNamedToken(hands, c, pr, n, CountText(n), HandLetterOf(c, pr), PieceInit(c, pr));
    }
  }

  /** The sum of the `handDiff` values the entries from `HAND_PIECE_RAWS[i]` on add. */
  function PartialWord(counts: seq<int>, i: nat): int
    requires |counts| == 8 && i <= |HandPieceRaws|
    decreases |HandPieceRaws| - i, |counts|
  {
    if i == |HandPieceRaws| then 0
    else HandDiff(HandPieceRaws[i], counts[HandPieceRaws[i]]) + PartialWord(counts, i + 1)
  }

  /** All the entries together add up to the word that holds the counts. */
  lemma PartialWordWhole(counts: seq<int>)
    requires |counts| == 8
    ensures PartialWord(counts, 0) == HandWord(counts)
  {
    assert PartialWord(counts, 6) == HandOne[Pawn] * counts[Pawn];
    assert PartialWord(counts, 5) == HandOne[Lance] * counts[Lance] + PartialWord(counts, 6);
    assert PartialWord(counts, 4) == HandOne[Knight] * counts[Knight] + PartialWord(counts, 5);
    assert PartialWord(counts, 3) == HandOne[Silver] * counts[Silver] + PartialWord(counts, 4);
    assert PartialWord(counts, 2) == HandOne[Gold] * counts[Gold] + PartialWord(counts, 3);
    assert PartialWord(counts, 1) == HandOne[Bishop] * counts[Bishop] + PartialWord(counts, 2);
    assert PartialWord(counts, 0) == HandOne[Rook] * counts[Rook] + PartialWord(counts, 1);
  }

  /** The tokens of a hand's entries add the word of its counts to the hand of colour `c`. */
  lemma {:induction false} AddTokensFrom(counts: seq<int>, c: Color, i: nat, hands: seq<int>)
    requires ValidCounts(counts) && i <= |HandPieceRaws| && |hands| == ColorNb
    ensures Added(AddHands(hands, TokensFrom(counts, c, i)), hands, c, PartialWord(counts, i))
    decreases |HandPieceRaws| - i
  {
    if i < |HandPieceRaws| {
      var pr := HandPieceRaws[i];
      var n := counts[pr];
      var entry, rest := EntryTokens(c, pr, n), TokensFrom(counts, c, i + 1);
      assert TokensFrom(counts, c, i) == entry + rest;
      AddEntryTokens(c, pr, n, hands);
      AddTokensFrom(counts, c, i + 1, AddHands(hands, entry));
      AddedConcat(hands, entry, rest, c, HandDiff(pr, n), PartialWord(counts, i + 1));
    }
  }

  /** No pieces of the raw types `HAND_PIECE_RAWS[i..]`. */
  predicate NoneFrom(counts: seq<int>, i: nat)
    requires |counts| == 8 && i <= |HandPieceRaws|
  {
    forall j :: i <= j < |HandPieceRaws| ==> counts[HandPieceRaws[j]] == 0
  }

  /** The entries are letters and digits. */
  lemma {:induction false} EntriesAlnum(counts: seq<int>, c: Color, i: nat)
    requires |counts| == 8 && i <= |HandPieceRaws|
    ensures AllIn(EntriesFrom(counts, c, i), AlnumChar)
    decreases |HandPieceRaws| - i
  {
    if i < |HandPieceRaws| {
      EntriesAlnum(counts, c, i + 1);
      var pr := HandPieceRaws[i];
      if counts[pr] != 0 {
        EntryTextOf(c, pr, counts[pr]);
      }
    }
  }

  /** The entries are empty exactly when the counts they are written from are all 0. */
  lemma {:induction false} EntriesEmpty(counts: seq<int>, c: Color, i: nat)
    requires |counts| == 8 && i <= |HandPieceRaws|
    ensures EntriesFrom(counts, c, i) == "" <==> NoneFrom(counts, i)
    decreases |HandPieceRaws| - i
  {
    if i < |HandPieceRaws| {
      EntriesEmpty(counts, c, i + 1);
      NoneFromStep(counts, i);
      var pr := HandPieceRaws[i];
      if counts[pr] != 0 {
        EntryTextOf(c, pr, counts[pr]);
      }
    }
  }

  lemma NoneFromStep(counts: seq<int>, i: nat)
    requires |counts| == 8 && i < |HandPieceRaws|
    ensures NoneFrom(counts, i) <==> counts[HandPieceRaws[i]] == 0 && NoneFrom(counts, i + 1)
  {
  }

  /** The text of a hand is letters and digits. */
  lemma HandTextAlnum(h: int, c: Color)
    ensures AllIn(HandText(h, c), AlnumChar)
  {
    EntriesAlnum(HandFields(h), c, 0);
  }

  /** A fitting word has no pieces exactly when its text is empty. */
  lemma HandTextEmpty(h: int, c: Color)
    requires HandFits(h)
    ensures HandText(h, c) == "" <==> h == HandEmpty
  {
    var cs := HandFields(h);
    EntriesEmpty(cs, c, 0);
    EmptyHandIsZero(h);
    if NoneFrom(cs, 0) {
      assert cs[Rook] == 0 && cs[Bishop] == 0 && cs[Gold] == 0 && cs[Silver] == 0;
      assert cs[Knight] == 0 && cs[Lance] == 0 && cs[Pawn] == 0;
    }
  }

  /** Two runs of letters and digits, not both empty, make a hand field other than `-`. */
  lemma JoinedEntries(e0: string, e1: string)
    requires AllIn(e0, AlnumChar) && AllIn(e1, AlnumChar) && (e0 != "" || e1 != "")
    ensures e0 + e1 != "-" && IsHandField(e0 + e1)
  {
    var t := e0 + e1;
    assert t[0] == if e0 != "" then e0[0] else e1[0];
  }

  /** The entries of two hands, not both empty, are not written as `-`. */
  lemma EntriesNotDash(h0: int, h1: int)
    requires HandFits(h0) && HandFits(h1) && !(h0 == HandEmpty && h1 == HandEmpty)
    ensures HandText(h0, Black) + HandText(h1, White) != "-"
    ensures IsHandField(HandText(h0, Black) + HandText(h1, White))
  {
    HandTextAlnum(h0, Black);
    HandTextAlnum(h1, White);
    HandTextEmpty(h0, Black);
    HandTextEmpty(h1, White);
    JoinedEntries(HandText(h0, Black), HandText(h1, White));
  }

  /** `toSfen`'s hand field is `-` exactly when both hand words are 0. */
  lemma HandsDash(hands: seq<int>)
    requires |hands| == ColorNb && HandFits(hands[Black]) && HandFits(hands[White])
    ensures HandsText(hands) == "-" <==> hands[Black] == HandEmpty && hands[White] == HandEmpty
    ensures IsHandField(HandsText(hands))
  {
    if !(hands[Black] == HandEmpty && hands[White] == HandEmpty) {
      EntriesNotDash(hands[Black], hands[White]);
    }
  }

  /** A hand field other than `-` whose tokens add up to `h0` and `h1` reads back as those words. */
  lemma HandsOfTokens(t: string, ts0: seq<HandToken>, ts1: seq<HandToken>, h0: int, h1: int)
    requires t != "-" && LexHand(t) == ts0 + ts1
    requires Added(AddHands([HandEmpty, HandEmpty], ts0), [HandEmpty, HandEmpty], Black, h0)
    requires Added(AddHands(AddHands([HandEmpty, HandEmpty], ts0), ts1), AddHands([HandEmpty, HandEmpty], ts0), White, h1)
    ensures HandsOf(t) == [h0, h1]
  {
    AddHandsAppend([HandEmpty, HandEmpty], ts0, ts1);
    var r := HandsOf(t);
    assert r[Black] == h0 && r[White] == h1;
  }

  /** Reading back the hand field gives both hand words. */
  lemma HandsRoundTrip(hands: seq<int>)
    requires |hands| == ColorNb && HandFits(hands[Black]) && HandFits(hands[White])
    ensures HandsOf(HandsText(hands)) == hands
  {
    var h0, h1 := hands[Black], hands[White];
    if !(h0 == HandEmpty && h1 == HandEmpty) {
      var cs0, cs1 := HandFields(h0), HandFields(h1);
      var ts0, ts1 := TokensFrom(cs0, Black, 0), TokensFrom(cs1, White, 0);
      var empty := [HandEmpty, HandEmpty];
      EntriesNotDash(h0, h1);
      LexHandsText(h0, h1);
      WordOfFields(h0);
      WordOfFields(h1);
      PartialWordWhole(cs0);
      PartialWordWhole(cs1);
      AddTokensFrom(cs0, Black, 0, empty);
      AddTokensFrom(cs1, White, 0, AddHands(empty, ts0));
      HandsOfTokens(HandsText(hands), ts0, ts1, h0, h1);
      assert [h0, h1] == hands;
    }
  }

  /** Scanning both hands' entries finds black's tokens, then white's. */
  lemma LexHandsText(h0: int, h1: int)
    ensures LexHand(HandText(h0, Black) + HandText(h1, White)) ==
              TokensFrom(HandFields(h0), Black, 0) + TokensFrom(HandFields(h1), White, 0)
  {
    var e0, e1 := HandText(h0, Black), HandText(h1, White);
    var ts0, ts1 := TokensFrom(HandFields(h0), Black, 0), TokensFrom(HandFields(h1), White, 0);
    LexEntries(HandFields(h0), Black, 0, e1);
    LexEntries(HandFields(h1), White, 0, "");
    assert e1 + "" == e1;
    assert ts1 + [] == ts1;
  }

  // ---------------------------------------------------------------- the line

  /** The fields `toSfen` writes, as the scanner splits them. */
  function FieldsOf(board: seq<nat>, hands: seq<int>, side: Color, ply: nat): SfenMatch
    requires PrintableBoard(board) && |hands| == ColorNb
  {
    SfenMatch(BoardText(board), " ", ColorToUsi(side), " ", HandsText(hands), " ", NatToString(ply))
  }

  /** Four fields of the right classes joined by single spaces form an already trimmed line. */
  lemma LineShape(m: SfenMatch)
    requires |m.board| >= 1 && AllIn(m.board, BoardChar) && (m.side == 'b' || m.side == 'w')
    requires IsHandField(m.hand) && |m.ply| >= 1 && AllIn(m.ply, DigitChar)
    requires m.gap1 == " " && m.gap2 == " " && m.gap3 == " "
    ensures WellFormedSfen(m) && Trim(MatchText(m)) == MatchText(m)
  {
    var t := MatchText(m);
    assert t[0] == m.board[0];
    assert t[|t| - 1] == m.ply[|m.ply| - 1];
    TrimUnspaced(t);
  }

  /** The board text of a readable board is a non-empty run of board characters. */
  lemma BoardTextChars(board: seq<nat>)
    requires SfenBoard(board)
    ensures AllIn(BoardText(board), BoardChar) && |BoardText(board)| >= 1
  {
    RanksChars(board, 0);
  }

  /** The fields `toSfen` writes are of the four-field form. */
  lemma SfenShape(board: seq<nat>, hands: seq<int>, side: Color, ply: nat)
    requires SfenState(board, hands)
    ensures WellFormedSfen(FieldsOf(board, hands, side, ply))
  {
    BoardTextChars(board);
    HandsDash(hands);
    LineShape(FieldsOf(board, hands, side, ply));
  }

  /** `toSfen`'s line is its fields joined. */
  lemma SfenTextFields(board: seq<nat>, hands: seq<int>, side: Color, ply: nat)
    requires PrintableBoard(board) && |hands| == ColorNb
    ensures MatchText(FieldsOf(board, hands, side, ply)) == SfenText(board, hands, side, ply)
  {
  }

  /** `toSfen`'s line is already trimmed. */
  lemma SfenTextTrimmed(board: seq<nat>, hands: seq<int>, side: Color, ply: nat)
    requires SfenState(board, hands)
    ensures Trim(SfenText(board, hands, side, ply)) == SfenText(board, hands, side, ply)
  {
    BoardTextChars(board);
    HandsDash(hands);
    LineShape(FieldsOf(board, hands, side, ply));
    SfenTextFields(board, hands, side, ply);
  }

  /** The ply `toSfen` writes reads back, 0 as 1. */
  lemma PlyRoundTrip(ply: nat)
    ensures PlyOf(NatToString(ply)) == if ply == 0 then 1 else ply
  {
    DecimalOfNatToString(ply);
  }

  /**
   * `t` is a trimmed line of the four-field form with fields `m`, and those
   * fields read back as `board`, `hands`, `side` and `ply`.
   */
  predicate LineReads(t: string, m: SfenMatch, board: seq<nat>, hands: seq<int>, side: Color, ply: int)
  {
    WellFormedSfen(m) && MatchText(m) == t && Trim(t) == t &&
    PlaceRanks(EmptyBoard(), 0, Split(m.board, '/')) == Some(board) &&
    HandsOf(m.hand) == hands && ColorFromUsi(m.side) == side && PlyOf(m.ply) == ply
  }

  /** A line that reads back as a position parses as that position. */
  lemma LineRoundTrip(t: string, m: SfenMatch, board: seq<nat>, hands: seq<int>, side: Color, ply: int)
    requires LineReads(t, m, board, hands, side, ply)
    ensures ParseSfen(t) == Parsed(board, hands, side, ply)
  {
    MatchSfenExact(t, m);
  }

  /** Each field `toSfen` writes reads back as the part of the position it was written from. */
  lemma FieldsRead(board: seq<nat>, hands: seq<int>, side: Color, ply: nat)
    requires SfenState(board, hands)
    ensures var m := FieldsOf(board, hands, side, ply);
            PlaceRanks(EmptyBoard(), 0, Split(m.board, '/')) == Some(board) && HandsOf(m.hand) == hands &&
            ColorFromUsi(m.side) == side && AllIn(m.ply, DigitChar) && PlyOf(m.ply) == if ply == 0 then 1 else ply
  {
    BoardRoundTrip(board);
    HandsRoundTrip(hands);
    ColorRoundTrip(side);
    PlyRoundTrip(ply);
  }

  /** The line `toSfen` writes reads back as the position it was written from. */
  lemma WrittenLineReads(board: seq<nat>, hands: seq<int>, side: Color, ply: nat)
    requires SfenState(board, hands)
    ensures LineReads(SfenText(board, hands, side, ply), FieldsOf(board, hands, side, ply),
                      board, hands, side, if ply == 0 then 1 else ply)
  {
    SfenShape(board, hands, side, ply);
    SfenTextFields(board, hands, side, ply);
    SfenTextTrimmed(board, hands, side, ply);
    FieldsRead(board, hands, side, ply);
  }

  /**
   * `fromSfen(toSfen(p))` rebuilds `p`: its board, both hands and the side
   * to move, and its ply, a ply of 0 being read back as 1.
   */
  lemma SfenTextRoundTrip(board: seq<nat>, hands: seq<int>, side: Color, ply: int)
    requires SfenState(board, hands) && ply >= 0
    ensures ParseSfen(SfenText(board, hands, side, ply)) == Parsed(board, hands, side, if ply == 0 then 1 else ply)
  {
    var p := if ply == 0 then 1 else ply;
    forall t, m | LineReads(t, m, board, hands, side, p) ensures ParseSfen(t) == Parsed(board, hands, side, p) {
      LineRoundTrip(t, m, board, hands, side, p);
    }
    WrittenLineReads(board, hands, side, ply);
  }
}
