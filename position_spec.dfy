/**
 * `doMove` and `undoMove` (web/shogi.js, lines 329-373) as functions on a
 * snapshot of a position, with the laws they obey: undo after do restores
 * the snapshot, a move touches only its two squares, and the hand counts
 * move by one piece. `Position.Position.DoMove` and `UndoMove` are proved
 * against these functions.
 */
module PositionSpec {
  import opened Coords
  import opened Pieces
  import opened Hands
  import opened Moves

  /** `StateInfo`: the undo chain. `Root` is the state of a fresh position, whose `previous` is undefined. */
  datatype StateInfo =
    | Root
    | Node(previous: StateInfo, lastMove: nat, capturedPiece: nat)

  /** The fields of a `Position`: board, hands, side to move, ply and state. */
  datatype Snapshot = Snapshot(board: seq<nat>, hands: seq<int>, side: Color, ply: int, state: StateInfo)

  /**
   * A move whose squares are on the board and, for a drop, whose raw type
   * has a hand field (or is 0): the moves `doMove` handles without writing
   * outside the board array or reading `HAND_ONE` out of range.
   */
  predicate MoveFits(m: nat)
  {
    MoveGetTo(m) < SquareNb &&
    (if MoveIsDropped(m) then MoveGetFrom(m) < |HandOne| else MoveGetFrom(m) < SquareNb)
  }

  /** Every move recorded in the chain fits. */
  predicate ChainFits(s: StateInfo)
  {
    match s
    case Root => true
    case Node(previous, m, _) => MoveFits(m) && ChainFits(previous)
  }

  predicate Shaped(p: Snapshot)
  {
    |p.board| == SquareNb && |p.hands| == ColorNb && ChainFits(p.state)
  }

  /** The piece `doMove` returns: what stood on the destination of a board move. */
  function Captured(p: Snapshot, m: nat): (pc: nat)
    requires Shaped(p) && MoveFits(m)
    ensures MoveIsDropped(m) ==> pc == PieceNone
  {
    if MoveIsDropped(m) then PieceNone else p.board[MoveGetTo(m)]
  }

  /** The board after `doMove(m)`. */
  function MovedBoard(p: Snapshot, m: nat): (b: seq<nat>)
    requires Shaped(p) && MoveFits(m)
    ensures |b| == SquareNb
  {
    var to, from := MoveGetTo(m), MoveGetFrom(m);
    if MoveIsDropped(m) then
      p.board[to := PieceInit(p.side, from)]
    else
      var b1 := if p.board[to] != PieceNone then p.board[to := PieceNone] else p.board;
      var pc := b1[from];
      b1[from := PieceNone][to := if MoveIsPromoted(m) then PiecePromote(pc) else pc]
  }

  /** The hands after `doMove(m)`: a drop takes from, a capture adds to, the mover's hand. */
  function MovedHands(p: Snapshot, m: nat): (h: seq<int>)
    requires Shaped(p) && MoveFits(m)
    ensures |h| == ColorNb
  {
    var side, captured := p.side, Captured(p, m);
    if MoveIsDropped(m) then
      p.hands[side := p.hands[side] + HandDiff(MoveGetFrom(m), -1)]
    else if captured != PieceNone then
      p.hands[side := p.hands[side] + HandDiff(PieceGetPieceRaw(captured), 1)]
    else
      p.hands
  }

  /** `doMove(m)` */
  function DoMoveSpec(p: Snapshot, m: nat): (q: Snapshot)
    requires Shaped(p) && MoveFits(m)
    ensures Shaped(q)
  {
    Snapshot(MovedBoard(p, m), MovedHands(p, m), ColorTurn(p.side), p.ply + 1, Node(p.state, m, Captured(p, m)))
  }

  /** The board after `undoMove()` takes back the move recorded in `p.state`. */
  function UndoneBoard(p: Snapshot): (b: seq<nat>)
    requires Shaped(p) && p.state.Node?
    ensures |b| == SquareNb
  {
    var m, captured := p.state.lastMove, p.state.capturedPiece;
    var to, from := MoveGetTo(m), MoveGetFrom(m);
    if MoveIsDropped(m) then
      p.board[to := PieceNone]
    else
      var pc := p.board[to];
      var b1 := p.board[to := PieceNone][from := if MoveIsPromoted(m) then PieceDemote(pc) else pc];
      if captured != PieceNone then b1[to := captured] else b1
  }

  /** The hands after `undoMove()`: the piece dropped goes back, the piece captured leaves. */
  function UndoneHands(p: Snapshot): (h: seq<int>)
    requires Shaped(p) && p.state.Node?
    ensures |h| == ColorNb
  {
    var m, captured := p.state.lastMove, p.state.capturedPiece;
    var side := ColorTurn(p.side);
    if MoveIsDropped(m) then
      p.hands[side := p.hands[side] + HandDiff(MoveGetFrom(m), 1)]
    else if captured != PieceNone then
      p.hands[side := p.hands[side] + HandDiff(PieceGetPieceRaw(captured), -1)]
    else
      p.hands
  }

  /** `undoMove()`: nothing at the root, else the last move taken back. */
  function UndoMoveSpec(p: Snapshot): (q: Snapshot)
    requires Shaped(p)
    ensures Shaped(q)
  {
    match p.state
    case Root => p
    case Node(previous, _, _) => Snapshot(UndoneBoard(p), UndoneHands(p), ColorTurn(p.side), p.ply - 1, previous)
  }

  /**
   * The moves `undoMove` takes back exactly: a drop onto an empty square, or
   * a board move between two different squares that promotes only an
   * unpromoted piece.
   */
  predicate Undoable(p: Snapshot, m: nat)
  {
    Shaped(p) && MoveFits(m) &&
    (if MoveIsDropped(m) then p.board[MoveGetTo(m)] == PieceNone
     else MoveGetFrom(m) != MoveGetTo(m) && (MoveIsPromoted(m) ==> !IsPromoted(p.board[MoveGetFrom(m)])))
  }

  /** Undo after do gives back the position, a captured promoted piece in its promoted form. */
  lemma UndoDoMove(p: Snapshot, m: nat)
    requires Undoable(p, m)
    ensures UndoMoveSpec(DoMoveSpec(p, m)) == p
  {
    var q := DoMoveSpec(p, m);
    assert q.state == Node(p.state, m, Captured(p, m));
    var r := UndoMoveSpec(q);
    ColorTurnInvolution(p.side);
    if MoveIsDropped(m) {
      DropUndone(p, m);
    } else {
      BoardMoveUndone(p, m);
    }
  }

  lemma DropUndone(p: Snapshot, m: nat)
    requires Undoable(p, m) && MoveIsDropped(m)
    ensures UndoMoveSpec(DoMoveSpec(p, m)).board == p.board && UndoMoveSpec(DoMoveSpec(p, m)).hands == p.hands
  {
    var to := MoveGetTo(m);
    ColorTurnInvolution(p.side);
    assert p.board[to := PieceInit(p.side, MoveGetFrom(m))][to := PieceNone] == p.board;
  }

  lemma BoardMoveUndone(p: Snapshot, m: nat)
    requires Undoable(p, m) && !MoveIsDropped(m)
    ensures UndoMoveSpec(DoMoveSpec(p, m)).board == p.board && UndoMoveSpec(DoMoveSpec(p, m)).hands == p.hands
  {
    var to, from := MoveGetTo(m), MoveGetFrom(m);
    var captured := p.board[to];
    ColorTurnInvolution(p.side);
    var pc := p.board[from];
    if MoveIsPromoted(m) {
      DemotePromote(pc);
    }
    var b := UndoMoveSpec(DoMoveSpec(p, m)).board;
    forall sq | 0 <= sq < SquareNb
      ensures b[sq] == p.board[sq]
    {
    }
  }

  /** `doMove` flips the side to move, counts the ply and records the move and the captured piece. */
  lemma DoMoveRecords(p: Snapshot, m: nat)
    requires Shaped(p) && MoveFits(m)
    ensures var q := DoMoveSpec(p, m);
            q.side == ColorTurn(p.side) && q.ply == p.ply + 1 && q.state == Node(p.state, m, Captured(p, m))
  {
  }

  /** `doMove` changes no square other than the destination and, for a board move, the origin. */
  lemma DoMoveFrame(p: Snapshot, m: nat, sq: int)
    requires Shaped(p) && MoveFits(m) && 0 <= sq < SquareNb
    requires sq != MoveGetTo(m) && (MoveIsDropped(m) || sq != MoveGetFrom(m))
    ensures DoMoveSpec(p, m).board[sq] == p.board[sq]
  {
  }

  /** A drop puts a piece of the mover's colour and the dropped raw type on the destination. */
  lemma DropPlaces(p: Snapshot, m: nat)
    requires Shaped(p) && MoveFits(m) && MoveIsDropped(m)
    ensures DoMoveSpec(p, m).board[MoveGetTo(m)] == PieceInit(p.side, MoveGetFrom(m))
  {
  }

  /** A board move empties its origin and puts the moved piece, promoted if flagged, on the destination. */
  lemma BoardMovePlaces(p: Snapshot, m: nat)
    requires Shaped(p) && MoveFits(m) && !MoveIsDropped(m) && MoveGetFrom(m) != MoveGetTo(m)
    ensures var q, pc := DoMoveSpec(p, m), p.board[MoveGetFrom(m)];
            q.board[MoveGetFrom(m)] == PieceNone &&
            q.board[MoveGetTo(m)] == if MoveIsPromoted(m) then PiecePromote(pc) else pc
  {
  }

  /** A drop takes one piece of its raw type from the mover's hand and leaves every other count alone. */
  lemma DropTakesFromHand(p: Snapshot, m: nat, pr: int)
    requires Shaped(p) && MoveFits(m) && MoveIsDropped(m) && HandFits(p.hands[p.side])
    requires Pawn <= MoveGetFrom(m) <= Gold && HandCount(p.hands[p.side], MoveGetFrom(m)) >= 1
    ensures HandCount(DoMoveSpec(p, m).hands[p.side], pr) ==
              HandCount(p.hands[p.side], pr) - (if pr == MoveGetFrom(m) then 1 else 0)
  {
    AddHandCountLaw(p.hands[p.side], MoveGetFrom(m), -1);
  }

  /**
   * A capture puts one piece of the captured piece's raw type in the mover's
   * hand and leaves every other count alone, while that count stays in its slot.
   */
  lemma CaptureAddsToHand(p: Snapshot, m: nat, pr: int)
    requires Shaped(p) && MoveFits(m) && !MoveIsDropped(m) && HandFits(p.hands[p.side])
    requires var raw := PieceGetPieceRaw(Captured(p, m));
             Pawn <= raw <= Gold && HandCount(p.hands[p.side], raw) + 1 < SlotLimit(raw)
    ensures HandCount(DoMoveSpec(p, m).hands[p.side], pr) ==
              HandCount(p.hands[p.side], pr) + (if pr == PieceGetPieceRaw(Captured(p, m)) then 1 else 0)
  {
    AddHandCountLaw(p.hands[p.side], PieceGetPieceRaw(Captured(p, m)), 1);
  }

  /** The opponent's hand is never touched. */
  lemma DoMoveKeepsOtherHand(p: Snapshot, m: nat)
    requires Shaped(p) && MoveFits(m)
    ensures DoMoveSpec(p, m).hands[ColorTurn(p.side)] == p.hands[ColorTurn(p.side)]
  {
  }

  // ---------------------------------------------------------------- games

  /** The moves `ms` played one after the other. */
  function DoMoves(p: Snapshot, ms: seq<nat>): (q: Snapshot)
    requires Shaped(p) && forall i :: 0 <= i < |ms| ==> MoveFits(ms[i])
    ensures Shaped(q)
    decreases |ms|
  {
    if ms == [] then p else DoMoves(DoMoveSpec(p, ms[0]), ms[1..])
  }

  /** `undoMove()` called `n` times. */
  function UndoMoves(p: Snapshot, n: nat): (q: Snapshot)
    requires Shaped(p)
    ensures Shaped(q)
    decreases n
  {
    if n == 0 then p else UndoMoves(UndoMoveSpec(p), n - 1)
  }

  /** Every move of `ms` is undoable in the position it is played in. */
  predicate Replayable(p: Snapshot, ms: seq<nat>)
    decreases |ms|
  {
    Shaped(p) &&
    (ms == [] || (Undoable(p, ms[0]) && Replayable(DoMoveSpec(p, ms[0]), ms[1..])))
  }

  lemma {:induction false} ReplayableFits(p: Snapshot, ms: seq<nat>)
    requires Replayable(p, ms)
    ensures Shaped(p) && forall i :: 0 <= i < |ms| ==> MoveFits(ms[i])
    decreases |ms|
  {
    if ms != [] {
      ReplayableFits(DoMoveSpec(p, ms[0]), ms[1..]);
      assert forall i :: 1 <= i < |ms| ==> ms[i] == ms[1..][i - 1];
    }
  }

  /** Undoing `n + 1` times is undoing `n` times and then once more. */
  lemma {:induction false} UndoMovesLast(p: Snapshot, n: nat)
    requires Shaped(p)
    ensures UndoMoves(p, n + 1) == UndoMoveSpec(UndoMoves(p, n))
    decreases n
  {
    if n > 0 {
      UndoMovesLast(UndoMoveSpec(p), n - 1);
    }
  }

  /** Playing a game and then undoing as many moves gives back the starting position. */
  lemma {:induction false} UndoGame(p: Snapshot, ms: seq<nat>)
    requires Replayable(p, ms) && forall i :: 0 <= i < |ms| ==> MoveFits(ms[i])
    ensures UndoMoves(DoMoves(p, ms), |ms|) == p
    decreases |ms|
  {
    if ms != [] {
      var q, rest := DoMoveSpec(p, ms[0]), ms[1..];
      ReplayableFits(q, rest);
      var end := DoMoves(q, rest);
      calc {
        UndoMoves(DoMoves(p, ms), |ms|);
        UndoMoves(end, |rest| + 1);
        { UndoMovesLast(end, |rest|); }
        UndoMoveSpec(UndoMoves(end, |rest|));
        { UndoGame(q, rest); }
        UndoMoveSpec(q);
        { UndoDoMove(p, ms[0]); }
        p;
      }
    }
  }
}
