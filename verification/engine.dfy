/**
 * The game screen's engine without its views: the nine cell texts, the two
 * move queues, the turn and game-over flags, the blinking (pending
 * eviction) indices and the cell the AI has just vacated, updated in place
 * by the human's move, the AI's move and a reset.
 */
module Engine {
  import opened Wrappers
  import opened Board
  import opened Queues
  import opened Strategy

  class Game {
    /** `buttons[i].text` for the nine cells. */
    const cells: array<Mark>
    /** The human's cells, oldest first. */
    var playerMoves: seq<Cell>
    /** The AI's cells, oldest first. */
    var aiMoves: seq<Cell>
    var isPlayerTurn: bool
    var isGameOver: bool
    var blinkingPlayerIndex: Option<Cell>
    var blinkingAiIndex: Option<Cell>
    var lastRemovedAiIndex: Option<Cell>

    /** The board and both queues as a value. */
    ghost function Pos(): Position
      reads this, cells
      requires cells.Length == 9
    {
      Position(cells[..], playerMoves, aiMoves)
    }

    /** The state between two events. The board agrees with the queues; the
        game is over exactly when some line is complete; `lastRemovedAiIndex`
        is only set inside the AI's move; and the blinking index of the side
        whose turn it is marks that side's pending eviction, while the other
        side's (and both, once the game is over) is cleared. */
    ghost predicate Valid()
      reads this, cells
    {
      && cells.Length == 9
      && Consistent(Pos())
      && lastRemovedAiIndex == None
      && (isGameOver <==> HasWin(cells[..]))
      && (isGameOver ==> blinkingPlayerIndex == None && blinkingAiIndex == None)
      && (!isGameOver && isPlayerTurn ==>
            blinkingPlayerIndex == Pending(playerMoves) && blinkingAiIndex == None)
      && (!isGameOver && !isPlayerTurn ==>
            blinkingAiIndex == Pending(aiMoves) && blinkingPlayerIndex == None)
    }

    /** The screen is created and `resetGame` runs; playerStarts is the coin. */
    constructor (playerStarts: bool)
      ensures Valid() && fresh(cells)
      ensures cells[..] == EmptyBoard && playerMoves == [] && aiMoves == []
      ensures !isGameOver && isPlayerTurn == playerStarts
      ensures blinkingPlayerIndex == None && blinkingAiIndex == None && lastRemovedAiIndex == None
    {
      cells := new Mark[9](_ => Empty);
      playerMoves, aiMoves := [], [];
      isPlayerTurn, isGameOver := true, false;
      blinkingPlayerIndex, blinkingAiIndex, lastRemovedAiIndex := None, None, None;
      new;
      ResetGame(playerStarts);
    }

    // ---------------------------------------------------------------
    // Blinking
    // ---------------------------------------------------------------

    /** `startBlinkForPlayerIfNeeded`: clear the human's blink, then flag the
        queue front when the human has exactly three marks. */
    method StartBlinkForPlayerIfNeeded()
      modifies this`blinkingPlayerIndex
      ensures blinkingPlayerIndex == Pending(playerMoves)
    {
      blinkingPlayerIndex := None;
      if |playerMoves| == MaxMarks {
        blinkingPlayerIndex := Some(playerMoves[0]);
      }
    }

    /** `startBlinkForAiIfNeeded`, the same for the AI. */
    method StartBlinkForAiIfNeeded()
      modifies this`blinkingAiIndex
      ensures blinkingAiIndex == Pending(aiMoves)
    {
      blinkingAiIndex := None;
      if |aiMoves| == MaxMarks {
        blinkingAiIndex := Some(aiMoves[0]);
      }
    }

    // ---------------------------------------------------------------
    // Win detection
    // ---------------------------------------------------------------

    /** The scan of `checkGameState`: the index of the first line, in the
        fixed order, whose three cells hold the same non-empty mark. */
    method WinningLine() returns (r: Option<nat>)
      requires cells.Length == 9
      ensures r == FirstWin(cells[..], 0)
    {
      for k := 0 to |Lines|
        invariant forall j :: 0 <= j < k ==> !Complete(cells[..], j)
      {
        var l := Lines[k];
        if cells[l.a] != Empty && cells[l.a] == cells[l.b] && cells[l.a] == cells[l.c] {
          return Some(k);
        }
      }
      return None;
    }

    /** `checkGameState` with the effect of `showGameResult`: on a complete
        line, report its mark, clear both blinks and end the game. */
    method CheckGameState() returns (won: bool, winner: Mark)
      requires cells.Length == 9
      modifies this`isGameOver, this`blinkingPlayerIndex, this`blinkingAiIndex
      ensures won == HasWin(cells[..]) && winner == WinMark(cells[..])
      ensures won ==> isGameOver && blinkingPlayerIndex == None && blinkingAiIndex == None
      ensures !won ==> (isGameOver == old(isGameOver)
        && blinkingPlayerIndex == old(blinkingPlayerIndex) && blinkingAiIndex == old(blinkingAiIndex))
    {
      var line := WinningLine();
      if line.Some? {
        winner := cells[Lines[line.value].a];
        blinkingPlayerIndex := None;
        blinkingAiIndex := None;
        isGameOver := true;
        return true, winner;
      }
      return false, Empty;
    }

    // ---------------------------------------------------------------
    // The human's move
    // ---------------------------------------------------------------

    /** `onPlayerMove` on the button of cell index, followed by `switchToAI`
        (the AI's move itself is the caller's next call, MakeAIMove). */
    method OnPlayerMove(index: Cell)
      requires Valid()
      modifies this, cells
      ensures Valid()
      ensures old(!isPlayerTurn || isGameOver || cells[index] != Empty) ==>
        unchanged(this) && cells[..] == old(cells[..])
      ensures old(isPlayerTurn && !isGameOver && cells[index] == Empty) ==>
        && Evicted(old(Pos()), Player) == old(blinkingPlayerIndex)
        && Pos() == Move(old(Pos()), Player, index)
        && isGameOver == HasWin(cells[..])
        && isPlayerTurn == isGameOver
        && (isGameOver ==> WinMark(cells[..]) == X)
    {
      if !isPlayerTurn || isGameOver || cells[index] != Empty {
        return;
      }
      ghost var p0 := Pos();
      PendingIsEvicted(p0, Player);
      PlacePlayerMark(index);
      assert Consistent(Pos()) by {
        MoveIsFifo(p0, Player, index);
      }
      assert HasWin(cells[..]) ==> WinMark(cells[..]) == X by {
        OnlyMoverCanWin(p0.board, cells[..], index, X);
      }

      FinishPlayerMove();
    }

    /** The tail of `onPlayerMove`: check the game and, when nobody has won,
        `switchToAI`. */
    method FinishPlayerMove()
      requires cells.Length == 9
      requires Consistent(Pos()) && lastRemovedAiIndex == None
      requires !isGameOver && isPlayerTurn
      requires blinkingPlayerIndex == None && blinkingAiIndex == None
      requires HasWin(cells[..]) ==> WinMark(cells[..]) == X
      modifies this`isGameOver, this`isPlayerTurn, this`blinkingPlayerIndex, this`blinkingAiIndex
      ensures Valid() && Pos() == old(Pos())
      ensures isGameOver == HasWin(cells[..]) && isPlayerTurn == isGameOver
      ensures isGameOver ==> WinMark(cells[..]) == X
    {
      var won, _ := CheckGameState();
      if !won {
        SwitchToAI();
      }
    }

    /** The board part of `onPlayerMove`: with three X on the board, pop the
        oldest, drop its blink and clear its cell; then write X into the
        chosen cell and queue it. */
    method PlacePlayerMark(index: Cell)
      requires cells.Length == 9
      modifies this`playerMoves, this`blinkingPlayerIndex, cells
      ensures Pos() == Move(old(Pos()), Player, index)
      ensures blinkingPlayerIndex == if |old(playerMoves)| >= MaxMarks then None else old(blinkingPlayerIndex)
    {
      ghost var p0 := Pos();
      if |playerMoves| >= MaxMarks {
        var oldIndex := playerMoves[0];
        playerMoves := playerMoves[1..];
        blinkingPlayerIndex := None;
        cells[oldIndex] := Empty;
      }
      assert Pos() == Evict(p0, Player);
      cells[index] := X;
      playerMoves := playerMoves + [index];
    }

    /** `switchToAI`: hand the turn over and flag the AI's pending eviction. */
    method SwitchToAI()
      modifies this`isPlayerTurn, this`blinkingAiIndex
      ensures !isPlayerTurn && blinkingAiIndex == Pending(aiMoves)
    {
      isPlayerTurn := false;
      StartBlinkForAiIfNeeded();
    }

    // ---------------------------------------------------------------
    // The AI's move
    // ---------------------------------------------------------------

    /** `findBestMoveFor(symbol)`: the empty cell of the first line, in the
        fixed order, holding two symbol marks and one empty cell that is not
        `lastRemovedAiIndex`. */
    method FindBestMoveFor(symbol: Mark) returns (r: Option<Cell>)
      requires cells.Length == 9
      ensures r == BestMoveFor(cells[..], symbol, lastRemovedAiIndex)
    {
      var texts: Board := cells[..];
      for k := 0 to |Lines|
        invariant forall j :: 0 <= j < k ==> !Threat(texts, symbol, lastRemovedAiIndex, j)
      {
        var comb := Lines[k];
        var countSymbol := CountOn(texts, comb, symbol);
        var countEmpty := CountOn(texts, comb, Empty);
        if countSymbol == 2 && countEmpty == 1 {
          var idx := Gap(texts, comb);
          if Some(idx) == lastRemovedAiIndex {
            continue;
          }
          BestMoveAt(texts, symbol, lastRemovedAiIndex, k);
          return Some(idx);
        }
      }
      return None;
    }

    /** The delayed callback of `switchToAI`/`startRandomTurn`: `makeAIMove`,
        which evicts the AI's oldest mark when it has three and remembers the
        vacated cell, then `performAIMove`. rnd is the outcome of the random
        pick among the candidates. Its only guard is `isGameOver`, so it may
        run on either side's turn (a callback posted before a reset still
        fires after it); the invariant holds either way. */
    method MakeAIMove(rnd: nat)
      requires Valid()
      modifies this, cells
      ensures Valid()
      ensures old(isGameOver) ==> unchanged(this) && cells[..] == old(cells[..])
      ensures !old(isGameOver) && !old(isPlayerTurn) ==> Evicted(old(Pos()), Ai) == old(blinkingAiIndex)
      ensures !old(isGameOver) ==>
        && Pos() == AiStep(old(Pos()), rnd)
        && isGameOver == HasWin(cells[..])
        && isPlayerTurn == (if isGameOver then old(isPlayerTurn) else true)
        && (isGameOver ==> WinMark(cells[..]) == O)
    {
      if isGameOver {
        return;
      }
      PendingIsEvicted(Pos(), Ai);
      EvictAndPlace(rnd);
    }

    /** `makeAIMove` past its game-over guard: the eviction, then
        `performAIMove`. */
    method EvictAndPlace(rnd: nat)
      requires Valid() && !isGameOver
      modifies this, cells
      ensures Valid()
      ensures Pos() == AiStep(old(Pos()), rnd)
      ensures isGameOver == HasWin(cells[..])
      ensures isPlayerTurn == (if isGameOver then old(isPlayerTurn) else true)
      ensures isGameOver ==> WinMark(cells[..]) == O
    {
      ghost var p0, turn := Pos(), isPlayerTurn;
      EvictAiMark();
      ghost var p1, skip := Pos(), lastRemovedAiIndex;
      assert isPlayerTurn == turn;
      PerformAIMove(rnd);
      assert AiStep(p0, rnd) == AiPlace(p1, skip, rnd);
    }

    /** The eviction of `makeAIMove`: with three O on the board, pop the
        oldest, drop its blink, clear its cell and remember it as
        `lastRemovedAiIndex`; otherwise forget any earlier vacated cell. */
    method EvictAiMark()
      requires Valid() && !isGameOver
      modifies this`aiMoves, this`blinkingAiIndex, this`lastRemovedAiIndex, cells
      ensures Pos() == Evict(old(Pos()), Ai)
      ensures lastRemovedAiIndex == Evicted(old(Pos()), Ai)
      ensures Consistent(Pos()) && |aiMoves| < MaxMarks && !HasWin(cells[..])
      ensures blinkingAiIndex == None
    {
      assert |aiMoves| < MaxMarks ==> blinkingAiIndex == None by {
        assert Pending(aiMoves) == None || |aiMoves| == MaxMarks;
      }
      ghost var p0 := Pos();
      if |aiMoves| >= MaxMarks {
        var oldIndex := aiMoves[0];
        aiMoves := aiMoves[1..];
        blinkingAiIndex := None;
        cells[oldIndex] := Empty;
        lastRemovedAiIndex := Some(oldIndex);
      } else {
        lastRemovedAiIndex := None;
      }
      assert Pos() == Evict(p0, Ai);
      assert Consistent(Pos()) && |aiMoves| < MaxMarks by {
        EvictKeepsConsistent(p0, Ai);
      }
      assert !HasWin(cells[..]) by {
        if Evicted(p0, Ai).Some? {
          ClearingCannotWin(p0.board, Evicted(p0, Ai).value);
        }
      }
    }

    /** `performAIMove`, entered right after the AI's eviction: choose a win,
        else a block, else the rnd-th candidate, place an O there, then check
        the game and hand the turn back. */
    method PerformAIMove(rnd: nat)
      requires cells.Length == 9
      requires Consistent(Pos()) && |aiMoves| < MaxMarks
      requires !isGameOver && !HasWin(cells[..]) && blinkingAiIndex == None
      modifies this, cells
      ensures Valid()
      ensures Pos() == AiPlace(old(Pos()), old(lastRemovedAiIndex), rnd)
      ensures AiChoice(old(cells[..]), old(lastRemovedAiIndex), rnd).Some?
      ensures isGameOver == HasWin(cells[..])
      ensures isPlayerTurn == (if isGameOver then old(isPlayerTurn) else true)
      ensures isGameOver ==> WinMark(cells[..]) == O
    {
      ghost var p1 := Pos();
      ghost var skip := lastRemovedAiIndex;
      var emptyCells := Candidates(cells[..], lastRemovedAiIndex);
      if |emptyCells| == 0 {
        // No candidate: hand the turn back without placing. This cannot
        // happen: the AI holds at most two marks here.
        isPlayerTurn := true;
        StartBlinkForPlayerIfNeeded();
        EnoughCandidates(p1, skip);
        assert false;
      }

      var moveIndex := ChooseAIMove(emptyCells, rnd);
      PlaceAiMark(moveIndex);
      assert Consistent(Pos()) by {
        PlaceKeepsConsistent(p1, Ai, moveIndex);
      }
      assert HasWin(cells[..]) ==> WinMark(cells[..]) == O by {
        OnlyMoverCanWin(p1.board, cells[..], moveIndex, O);
      }

      FinishAiTurn();
    }

    /** The tail of `performAIMove`: check the game and, when nobody has won,
        hand the turn to the human and flag their pending eviction. */
    method FinishAiTurn()
      requires cells.Length == 9
      requires Consistent(Pos()) && lastRemovedAiIndex == None
      requires !isGameOver && blinkingAiIndex == None
      requires HasWin(cells[..]) ==> WinMark(cells[..]) == O
      modifies this`isGameOver, this`isPlayerTurn, this`blinkingPlayerIndex, this`blinkingAiIndex
      ensures Valid() && Pos() == old(Pos())
      ensures isGameOver == HasWin(cells[..])
      ensures isPlayerTurn == (if isGameOver then old(isPlayerTurn) else true)
      ensures isGameOver ==> WinMark(cells[..]) == O
    {
      var won, _ := CheckGameState();
      if !won {
        isPlayerTurn := true;
        StartBlinkForPlayerIfNeeded();
      }
    }

    /** The choice of `performAIMove`: the winning cell if `findBestMoveFor("O")`
        finds one, else the blocking cell of `findBestMoveFor("X")`, else the
        rnd-th entry of the non-empty candidate list. */
    method ChooseAIMove(emptyCells: seq<Cell>, rnd: nat) returns (moveIndex: Cell)
      requires cells.Length == 9
      requires emptyCells == Candidates(cells[..], lastRemovedAiIndex) && |emptyCells| > 0
      ensures AiChoice(cells[..], lastRemovedAiIndex, rnd) == Some(moveIndex)
    {
      var winIndex := FindBestMoveFor(O);
      var blockIndex := FindBestMoveFor(X);
      if winIndex.Some? {
        moveIndex := winIndex.value;
      } else if blockIndex.Some? {
        moveIndex := blockIndex.value;
      } else {
        moveIndex := emptyCells[rnd % |emptyCells|];
      }
    }

    /** The placement of `performAIMove`: if the chosen cell is empty, write
        O into it, queue it and forget the vacated cell. */
    method PlaceAiMark(moveIndex: Cell)
      requires cells.Length == 9
      modifies this`aiMoves, this`lastRemovedAiIndex, cells
      ensures old(cells[moveIndex]) == Empty ==>
        Pos() == Place(old(Pos()), Ai, moveIndex) && lastRemovedAiIndex == None
      ensures old(cells[moveIndex]) != Empty ==>
        Pos() == old(Pos()) && lastRemovedAiIndex == old(lastRemovedAiIndex)
    {
      if cells[moveIndex] == Empty {
        cells[moveIndex] := O;
        aiMoves := aiMoves + [moveIndex];
        lastRemovedAiIndex := None;
      }
    }

    // ---------------------------------------------------------------
    // Reset
    // ---------------------------------------------------------------

    /** `resetGame` followed by `startRandomTurn` with the coin playerStarts.
        Every field afterwards is fixed by the coin alone, so resetting twice
        gives the state of resetting once with the second coin. */
    method ResetGame(playerStarts: bool)
      requires cells.Length == 9
      modifies this, cells
      ensures Valid()
      ensures cells[..] == EmptyBoard && playerMoves == [] && aiMoves == []
      ensures !isGameOver && isPlayerTurn == playerStarts
      ensures blinkingPlayerIndex == None && blinkingAiIndex == None && lastRemovedAiIndex == None
    {
      for i := 0 to 9
        invariant forall j :: 0 <= j < i ==> cells[j] == Empty
      {
        cells[i] := Empty;
      }
      assert cells[..] == EmptyBoard;
      isGameOver := false;
      playerMoves := [];
      aiMoves := [];
      blinkingPlayerIndex := None;
      blinkingAiIndex := None;
      lastRemovedAiIndex := None;
      StartRandomTurn(playerStarts);
    }

    /** `startRandomTurn`: the coin decides who moves; the side to move gets
        its pending eviction flagged. When the AI starts, its move is the
        caller's next call, MakeAIMove. */
    method StartRandomTurn(playerStarts: bool)
      modifies this`isPlayerTurn, this`blinkingPlayerIndex, this`blinkingAiIndex
      ensures isPlayerTurn == playerStarts
      ensures playerStarts ==> blinkingPlayerIndex == Pending(playerMoves) && blinkingAiIndex == old(blinkingAiIndex)
      ensures !playerStarts ==> blinkingAiIndex == Pending(aiMoves) && blinkingPlayerIndex == old(blinkingPlayerIndex)
    {
      if playerStarts {
        isPlayerTurn := true;
        StartBlinkForPlayerIfNeeded();
      } else {
        isPlayerTurn := false;
        StartBlinkForAiIfNeeded();
      }
    }
  }
}
