/**
 * The `Position` class (web/shogi.js, lines 222-374): a board of 81 squares
 * and two hand words that `putPiece`, `addHandCount`, `doMove` and
 * `undoMove` update in place, the SFEN reader `fromSfen` and the SFEN
 * writer `toSfen`. Each method is proved against the functions that
 * specify it: `PositionSpec` for moves, `SfenParse.ParseSfen` for reading
 * and `SfenFormat.SfenText` for writing.
 */
module Position {
  import opened Wrappers
  import opened Text
  import opened Coords
  import opened Pieces
  import opened Hands
  import opened Moves
  import opened SfenParse
  import opened SfenFormat
  import opened PositionSpec
  import opened SfenFacts

  /** What is left of the board text once ranks `0..r-1` are written. */
  function RanksAfter(board: seq<nat>, r: int): string
    requires PrintableBoard(board) && 0 <= r <= RankNb
  {
    if r == RankNb then "" else if r == 0 then RanksFrom(board, 0) else "/" + RanksFrom(board, r)
  }

  /** The four fields joined as `toSfen` appends them, and as `SfenText` groups them. */
  lemma JoinFields(b: string, side: char, h: string, ply: string)
    ensures b + [' ', side, ' '] + h + " " + ply == b + (" " + ([side] + (" " + (h + (" " + ply)))))
  {
    assert [' ', side, ' '] == " " + ([side] + " ");
  }

  /**
   * One pass of the inner loop of `toSfen` over `cells[k]`: a piece closes the
   * pending run and writes its letters, an empty square lengthens the run.
   */
  lemma RowStep(cells: seq<nat>, k: int, s0: string, run: nat, s1: string, run1: nat)
    requires 0 <= k < |cells| && forall i :: 0 <= i < |cells| ==> HasUsi(cells[i])
    requires cells[k] != PieceNone ==> s1 == s0 + RunText(run) + PieceToUsi(cells[k]) && run1 == 0
    requires cells[k] == PieceNone ==> s1 == s0 && run1 == run + 1
    ensures s0 + RowText(cells[k..], run) == s1 + RowText(cells[k + 1..], run1)
  {
    var rest := cells[k..];
    assert rest[0] == cells[k] && rest[1..] == cells[k + 1..];
    if cells[k] != PieceNone {
      assert s0 + "" == s0;
    }
  }

  /** One pass of the rank loop of `toSfen`: the separator, then the rank's text. */
  lemma RanksAfterStep(board: seq<nat>, r: int, s0: string, s1: string, t: string)
    requires PrintableBoard(board) && 0 <= r < RankNb
    requires s1 == s0 + (if r == 0 then "" else "/") && t == RankText(board, r)
    ensures s0 + RanksAfter(board, r) == (s1 + t) + RanksAfter(board, r + 1)
  {
    if r == 0 {
      FirstRankStep(board, s0, s1, t);
    } else if r < RankNb - 1 {
      NextRankStep(board, r, s0, s1, t);
    } else {
      LastRankStep(board, s0, s1, t);
    }
  }

  lemma FirstRankStep(board: seq<nat>, s0: string, s1: string, t: string)
    requires PrintableBoard(board) && s1 == s0 && t == RankText(board, 0)
    ensures s0 + RanksAfter(board, 0) == (s1 + t) + RanksAfter(board, 1)
  {
  }

  lemma NextRankStep(board: seq<nat>, r: int, s0: string, s1: string, t: string)
    requires PrintableBoard(board) && 0 < r < RankNb - 1
    requires s1 == s0 + "/" && t == RankText(board, r)
    ensures s0 + RanksAfter(board, r) == (s1 + t) + RanksAfter(board, r + 1)
  {
  }

  lemma LastRankStep(board: seq<nat>, s0: string, s1: string, t: string)
    requires PrintableBoard(board) && s1 == s0 + "/" && t == RankText(board, RankNb - 1)
    ensures s0 + RanksAfter(board, RankNb - 1) == (s1 + t) + RanksAfter(board, RankNb)
  {
  }

  /** One pass of the hand loop of `toSfen`: the entry for `HAND_PIECE_RAWS[i]`. */
  lemma EntriesStep(cs: seq<int>, c: Color, i: int, s: string, t: string)
    requires |cs| == 8 && 0 <= i < |HandPieceRaws| && Pawn <= HandPieceRaws[i] <= Gold
    requires t == EntryText(c, HandPieceRaws[i], cs[HandPieceRaws[i]])
    ensures s + EntriesFrom(cs, c, i) == (s + t) + EntriesFrom(cs, c, i + 1)
  {
    ConcatAssoc(s, t, EntriesFrom(cs, c, i + 1));
  }

  /** The hand entries of colours `0..c-1`. */
  function HandsUpTo(hands: seq<int>, c: int): string
    requires |hands| == ColorNb && 0 <= c <= ColorNb
  {
    if c == 0 then "" else HandsUpTo(hands, c - 1) + HandText(hands[c - 1], c - 1)
  }

  lemma HandsUpToAll(hands: seq<int>)
    requires |hands| == ColorNb && (hands[Black] != HandEmpty || hands[White] != HandEmpty)
    ensures HandsUpTo(hands, ColorNb) == HandsText(hands)
  {
    var x, y := HandText(hands[Black], Black), HandText(hands[White], White);
    assert HandsUpTo(hands, 1) == "" + x;
    assert "" + x == x;
  }

  class Position {
    const board: array<nat>
    const hands: array<int>
    var sideToMove: Color
    var gamePly: int
    var state: StateInfo

    /** 81 squares, one hand word per colour, and only fitting moves in the undo chain. */
    predicate Valid()
      reads this
    {
      board.Length == SquareNb && hands.Length == ColorNb && ChainFits(state)
    }

    /** The position as a value. */
    function Value(): (p: Snapshot)
      reads this, board, hands
      ensures Valid() ==> Shaped(p)
    {
      Snapshot(board[..], hands[..], sideToMove, gamePly, state)
    }

    /** An empty board, empty hands, black to move, ply 0, and nothing to undo. */
    constructor ()
      ensures Valid() && fresh(board) && fresh(hands)
      ensures Value() == Snapshot(EmptyBoard(), [HandEmpty, HandEmpty], Black, 0, Root)
    {
      board := new nat[SquareNb](_ => PieceNone);
      hands := new int[ColorNb](_ => HandEmpty);
      sideToMove := Black;
      gamePly := 0;
      state := Root;
      new;
      assert board[..] == EmptyBoard();
      assert hands[..] == [HandEmpty, HandEmpty];
    }

    function GetPiece(sq: int): (pc: nat)
      reads this, board
      requires Valid() && 0 <= sq < SquareNb
      ensures PrintableBoard(board[..]) ==> HasUsi(pc)
    {
      board[sq]
    }

    method PutPiece(sq: int, pc: nat)
      requires Valid() && 0 <= sq < SquareNb
      modifies board
      ensures board[..] == old(board[..])[sq := pc]
    {
      board[sq] := pc;
    }

    method RemovePiece(sq: int)
      requires Valid() && 0 <= sq < SquareNb
      modifies board
      ensures board[..] == old(board[..])[sq := PieceNone]
    {
      board[sq] := PieceNone;
    }

    /** The count of raw type `pr` in the hand of `c`, as the hand word reads it. */
    function GetHandCount(c: Color, pr: int): (n: int)
      reads this, hands
      requires Valid()
      ensures HandFits(hands[c]) && Pawn <= pr <= Gold ==> 0 <= n < SlotLimit(pr)
    {
      HandCount(hands[c], pr)
    }

    /**
     * Adds `d` pieces of raw type `pr` to the hand of `c`; `Hands.AddHandCountLaw`
     * states how the counts then read.
     */
    method AddHandCount(c: Color, pr: int, d: int)
      requires Valid() && 0 <= pr < |HandOne|
      modifies hands
      ensures hands[..] == old(hands[..])[c := old(hands[c]) + HandDiff(pr, d)]
    {
      hands[c] := hands[c] + HandDiff(pr, d);
    }

    // ------------------------------------------------------------ fromSfen

    /** The inner board loop of `fromSfen` over the tokens of rank `r`; false on a token with no piece. */
    method PlaceRankTokens(r: int, toks: seq<RankToken>) returns (ok: bool)
      requires Valid()
      modifies board
      ensures ok <==> PlaceRank(old(board[..]), r, FileNb - 1, toks).Some?
      ensures ok ==> board[..] == PlaceRank(old(board[..]), r, FileNb - 1, toks).value
    {
      var f := FileNb - 1;
      var j := 0;
      while j < |toks|
        invariant 0 <= j <= |toks|
        invariant PlaceRank(board[..], r, f, toks[j..]) == PlaceRank(old(board[..]), r, FileNb - 1, toks)
      {
        assert toks[j..][0] == toks[j] && toks[j..][1..] == toks[j + 1..];
        match toks[j] {
          case EmptyRun(n) =>
            f := f - n;
          case PieceToken(usi) =>
            var pc := PieceFromUsi(usi);
            if pc.None? {
              return false;
            }
            if pc.value != PieceNone {
              var sq := SquareInit(f, r);
              if 0 <= sq < SquareNb {
                PutPiece(sq, pc.value);
              }
            }
            f := f - 1;
        }
        j := j + 1;
      }
      return true;
    }

    /** The hand loop of `fromSfen`: each token naming a piece adds its count to that piece's hand. */
    method AddHandTokens(toks: seq<HandToken>)
      requires Valid()
      modifies hands
      ensures hands[..] == AddHands(old(hands[..]), toks)
    {
      var j := 0;
      while j < |toks|
        invariant 0 <= j <= |toks|
        invariant AddHands(hands[..], toks[j..]) == AddHands(old(hands[..]), toks)
      {
        assert toks[j..][0] == toks[j] && toks[j..][1..] == toks[j + 1..];
        var pc := PieceFromUsi([toks[j].letter]);
        if pc.Some? && pc.value != PieceNone {
          AddHandCount(PieceGetColor(pc.value), PieceGetPieceRaw(pc.value), TokenCount(toks[j].count));
        }
        j := j + 1;
      }
    }

    /** The board loop of `fromSfen`: rank `r` of the text fills rank `r` of the board. */
    method PlaceRankTexts(ranks: seq<string>) returns (ok: bool)
      requires Valid()
      modifies board
      ensures ok <==> PlaceRanks(old(board[..]), 0, ranks).Some?
      ensures ok ==> board[..] == PlaceRanks(old(board[..]), 0, ranks).value
    {
      var r := 0;
      while r < |ranks|
        invariant 0 <= r <= |ranks|
        invariant PlaceRanks(board[..], r, ranks[r..]) == PlaceRanks(old(board[..]), 0, ranks)
      {
        assert ranks[r..][0] == ranks[r] && ranks[r..][1..] == ranks[r + 1..];
        ok := PlaceRankTokens(r, LexRank(ranks[r]));
        if !ok {
          return;
        }
        r := r + 1;
      }
      assert ranks[r..] == [];
      ok := true;
    }

    /** `fromSfen` once the pattern has matched: a fresh position filled from the four fields. */
    static method FromMatch(m: SfenMatch) returns (p: Position?)
      requires WellFormedSfen(m)
      ensures p == null <==> !BuildFromMatch(m).Parsed?
      ensures p != null ==> fresh(p) && fresh(p.board) && fresh(p.hands) && p.Valid()
      ensures p != null ==>
                p.Value() == Snapshot(BuildFromMatch(m).board, BuildFromMatch(m).hands, BuildFromMatch(m).side,
                                      BuildFromMatch(m).ply, Root)
    {
      var self := new Position();
      var ok := self.PlaceRankTexts(Split(m.board, '/'));
      if !ok {
        return null;
      }
      if m.hand != "-" {
        self.AddHandTokens(LexHand(m.hand));
      }
      assert self.hands[..] == HandsOf(m.hand);
      self.sideToMove := ColorFromUsi(m.side);
      self.gamePly := PlyOf(m.ply);
      return self;
    }

    /**
     * `Position.fromSfen`: `null` for a text that is not of the SFEN form
     * (and for a rank token naming no piece, see the README), else a fresh
     * position holding what `ParseSfen` reads, with nothing to undo.
     */
    static method FromSfen(sfen: string) returns (p: Position?)
      ensures p == null <==> !ParseSfen(sfen).Parsed?
      ensures p != null ==> fresh(p) && fresh(p.board) && fresh(p.hands) && p.Valid()
      ensures p != null ==>
                p.Value() == Snapshot(ParseSfen(sfen).board, ParseSfen(sfen).hands, ParseSfen(sfen).side,
                                      ParseSfen(sfen).ply, Root)
    {
      var found := MatchSfen(Trim(sfen));
      if found.None? {
        return null;
      }
      p := FromMatch(found.value);
    }

    // -------------------------------------------------------------- toSfen

    /** One pass of the inner loop of `toSfen`: square `(f, r)` either closes the pending run or lengthens it. */
    method CellSfen(f: int, r: int, s0: string, run: nat) returns (s: string, emptyCount: nat)
      requires Valid() && PrintableBoard(board[..]) && 0 <= f < FileNb && 0 <= r < RankNb
      ensures board[SquareInit(f, r)] != PieceNone ==>
                s == s0 + RunText(run) + PieceToUsi(board[SquareInit(f, r)]) && emptyCount == 0
      ensures board[SquareInit(f, r)] == PieceNone ==> s == s0 && emptyCount == run + 1
    {
      s, emptyCount := s0, run;
      var pc := GetPiece(SquareInit(f, r));
      if pc != PieceNone {
        if emptyCount != 0 {
          s := s + NatToString(emptyCount);
          emptyCount := 0;
        }
        s := s + PieceToUsi(pc);
        assert run == 0 ==> s0 + RunText(run) == s0;
      } else {
        emptyCount := emptyCount + 1;
      }
    }

    /** The inner loop of `toSfen`: rank `r` from file 8 to file 0, runs of empty squares as digits. */
    method RankSfen(r: int) returns (s: string)
      requires Valid() && PrintableBoard(board[..]) && 0 <= r < RankNb
      ensures s == RankText(board[..], r)
    {
      ghost var cells := RankCells(board[..], r);
      s := "";
      var emptyCount := 0;
      var f := FileNb - 1;
      while f >= 0
        invariant -1 <= f < FileNb
        invariant s + RowText(cells[FileNb - 1 - f..], emptyCount) == RowText(cells, 0)
      {
        ghost var s0, run := s, emptyCount;
        s, emptyCount := CellSfen(f, r, s, emptyCount);
        RowStep(cells, FileNb - 1 - f, s0, run, s, emptyCount);
        f := f - 1;
      }
      assert cells[FileNb..] == [];
      if emptyCount != 0 {
        s := s + NatToString(emptyCount);
      }
    }

    /** One pass of the hand loop of `toSfen`: the count if above 1, then the piece letter. */
    static method EntrySfen(c: Color, pr: int, n: int) returns (s: string)
      requires Pawn <= pr <= Gold
      ensures s == EntryText(c, pr, n)
    {
      s := "";
      if n != 0 {
        var count := if n > 1 then NatToString(n) else "";
        s := count + PieceToUsi(PieceInit(c, pr));
      }
    }

    /** The hand loop of `toSfen` for colour `c`, in the order of `HAND_PIECE_RAWS`. */
    method HandSfen(c: Color) returns (s: string)
      requires Valid()
      ensures s == HandText(hands[c], c)
    {
      ghost var cs := HandFields(hands[c]);
      s := "";
      var i := 0;
      while i < |HandPieceRaws|
        invariant 0 <= i <= |HandPieceRaws|
        invariant s + EntriesFrom(cs, c, i) == HandText(hands[c], c)
      {
        var pr := HandPieceRaws[i];
        HandPieceRawIn(i);
        var n := GetHandCount(c, pr);
        assert n == cs[pr];
        var t := EntrySfen(c, pr, n);
        EntriesStep(cs, c, i, s, t);
        s := s + t;
        i := i + 1;
      }
    }

    /** The rank loop of `toSfen`: the nine ranks, a `/` between each two. */
    method BoardSfen() returns (s: string)
      requires Valid() && PrintableBoard(board[..])
      ensures s == BoardText(board[..])
    {
      ghost var cells := board[..];
      s := "";
      for r := 0 to RankNb
        invariant s + RanksAfter(cells, r) == BoardText(cells)
      {
        ghost var s0 := s;
        if r != 0 {
          s := s + "/";
        }
        var t := RankSfen(r);
        RanksAfterStep(cells, r, s0, s, t);
        s := s + t;
      }
      assert s + "" == s;
    }

    /** The hands field of `toSfen`: `-` when both hands are empty, else black's entries then white's. */
    method HandsSfen() returns (s: string)
      requires Valid()
      ensures s == HandsText(hands[..])
    {
      if hands[Black] == HandEmpty && hands[White] == HandEmpty {
        s := "-";
      } else {
        s := "";
        for c := 0 to ColorNb
          invariant s == HandsUpTo(hands[..], c)
        {
          var t := HandSfen(c);
          s := s + t;
        }
        HandsUpToAll(hands[..]);
      }
    }

    /** `toSfen`: the position as one line of SFEN text. */
    method ToSfen() returns (s: string)
      requires Valid() && PrintableBoard(board[..])
      ensures s == SfenText(board[..], hands[..], sideToMove, gamePly)
    {
      var b := BoardSfen();
      var h := HandsSfen();
      s := b + [' ', ColorToUsi(sideToMove), ' '] + h + " " + IntToString(gamePly);
      JoinFields(b, ColorToUsi(sideToMove), h, IntToString(gamePly));
    }

    // ---------------------------------------------------------------- moves

    /** `doMove(m)`: plays `m` and returns the captured piece (none for a drop). */
    method DoMove(m: nat) returns (capturedPiece: nat)
      requires Valid() && MoveFits(m)
      modifies this, board, hands
      ensures Valid()
      ensures Value() == DoMoveSpec(old(Value()), m)
      ensures capturedPiece == Captured(old(Value()), m)
    {
      ghost var p := Value();
      capturedPiece := PieceNone;
      var to := MoveGetTo(m);
      if MoveIsDropped(m) {
        var pr := MoveGetFrom(m);
        AddHandCount(sideToMove, pr, -1);
        PutPiece(to, PieceInit(sideToMove, pr));
        assert board[..] == MovedBoard(p, m);
        assert hands[..] == MovedHands(p, m);
      } else {
        capturedPiece := GetPiece(to);
        if capturedPiece != PieceNone {
          RemovePiece(to);
          AddHandCount(sideToMove, PieceGetPieceRaw(capturedPiece), 1);
        }
        var from := MoveGetFrom(m);
        var pc := GetPiece(from);
        RemovePiece(from);
        PutPiece(to, if MoveIsPromoted(m) then PiecePromote(pc) else pc);
        assert board[..] == MovedBoard(p, m);
        assert hands[..] == MovedHands(p, m);
      }
      sideToMove := ColorTurn(sideToMove);
      gamePly := gamePly + 1;
      state := Node(state, m, capturedPiece);
      assert Value() == Snapshot(MovedBoard(p, m), MovedHands(p, m), ColorTurn(p.side), p.ply + 1,
                                 Node(p.state, m, Captured(p, m)));
    }

    /** `undoMove()`: takes back the last move, or does nothing on a position with no move to take back. */
    method UndoMove()
      requires Valid()
      modifies this, board, hands
      ensures Valid()
      ensures Value() == UndoMoveSpec(old(Value()))
    {
      ghost var p := Value();
      if state.Node? {
        sideToMove := ColorTurn(sideToMove);
        var to := MoveGetTo(state.lastMove);
        var from := MoveGetFrom(state.lastMove);
        if MoveIsDropped(state.lastMove) {
          RemovePiece(to);
          AddHandCount(sideToMove, from, 1);
        } else {
          var pc := GetPiece(to);
          RemovePiece(to);
          PutPiece(from, if MoveIsPromoted(state.lastMove) then PieceDemote(pc) else pc);
          if state.capturedPiece != PieceNone {
            AddHandCount(sideToMove, PieceGetPieceRaw(state.capturedPiece), -1);
            PutPiece(to, state.capturedPiece);
          }
        }
        assert board[..] == UndoneBoard(p) && hands[..] == UndoneHands(p);
        gamePly := gamePly - 1;
        state := state.previous;
      }
    }
  }

  /** A new `Position` is written `9/9/9/9/9/9/9/9/9 b - 0`. */
  method FreshPositionText() returns (s: string)
    ensures s == "9/9/9/9/9/9/9/9/9 b - 0"
  {
    var p := new Position();
    s := p.ToSfen();
    FreshText();
  }
}
