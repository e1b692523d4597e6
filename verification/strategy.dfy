/**
 * The AI's move: evict first, then choose on the board as it is after the
 * eviction — win, else block, else any empty cell other than the one just
 * vacated (the random pick is an injected index).
 */
module Strategy {
  import opened Wrappers
  import opened Board
  import opened Queues

  /** The cell `performAIMove` picks, with skip standing for
      `lastRemovedAiIndex` and rnd for the outcome of `emptyCells.random()`;
      nothing when the candidate list is empty. */
  function AiChoice(b: Board, skip: Option<Cell>, rnd: nat): (r: Option<Cell>)
    ensures r.None? <==> |Candidates(b, skip)| == 0
    ensures r.Some? ==> b[r.value] == Empty && skip != Some(r.value)
    ensures r.Some? ==> r.value in Candidates(b, skip)
  {
    var emptyCells := Candidates(b, skip);
    if |emptyCells| == 0 then None
    else
      var winIndex := BestMoveFor(b, O, skip);
      var blockIndex := BestMoveFor(b, X, skip);
      if winIndex.Some? then winIndex
      else if blockIndex.Some? then blockIndex
      else Some(emptyCells[rnd % |emptyCells|])
  }

  /** `performAIMove` on a position, skip being the cell just vacated:
      choose, and place when the chosen cell is empty. With no candidate
      the position is left as it is. */
  function AiPlace(p: Position, skip: Option<Cell>, rnd: nat): Position {
    match AiChoice(p.board, skip, rnd)
    case None => p
    case Some(c) => if p.board[c] == Empty then Place(p, Ai, c) else p
  }

  /** The whole AI turn (`makeAIMove` then `performAIMove`) on a position:
      evict the oldest O when the AI has three, then choose and place on
      the resulting board, skipping the vacated cell. */
  function AiStep(p: Position, rnd: nat): Position {
    AiPlace(Evict(p, Ai), Evicted(p, Ai), rnd)
  }

  /** While the AI holds at most two marks and the player at most three, at
      least four cells are empty, so at least three are candidates whatever
      cell is skipped: the pass-the-turn branch of `performAIMove` is dead. */
  lemma EnoughCandidates(p: Position, skip: Option<Cell>)
    requires Consistent(p)
    requires |p.ai| < MaxMarks
    ensures |Candidates(p.board, skip)| >= 3
  {
    EmptyCount(p);
    CandidatesCount(p.board, skip);
  }

  /** The AI's own eviction always leaves it below capacity, so the
      candidate list after it is never empty. */
  lemma CandidatesAfterEviction(p: Position)
    requires Consistent(p)
    ensures |Candidates(Evict(p, Ai).board, Evicted(p, Ai))| >= 3
  {
    EvictKeepsConsistent(p, Ai);
    EnoughCandidates(Evict(p, Ai), Evicted(p, Ai));
  }

  /** The AI always places a mark: its turn is exactly a move onto its
      chosen cell, which is empty and is not the cell it just vacated, and
      the invariant survives. */
  lemma AiAlwaysMoves(p: Position, rnd: nat)
    requires Consistent(p)
    ensures var c := AiChoice(Evict(p, Ai).board, Evicted(p, Ai), rnd);
      && c.Some?
      && p.board[c.value] == Empty
      && Evicted(p, Ai) != Some(c.value)
      && AiStep(p, rnd) == Move(p, Ai, c.value)
    ensures Consistent(AiStep(p, rnd))
  {
    CandidatesAfterEviction(p);
    EvictKeepsConsistent(p, Ai);
    var c := AiChoice(Evict(p, Ai).board, Evicted(p, Ai), rnd).value;
    assert Evict(p, Ai).board[c] == Empty;
    PlaceKeepsConsistent(Evict(p, Ai), Ai, c);
  }

  /** Priority of the choice: a winning cell first, else a blocking cell. */
  lemma ChoicePriority(b: Board, skip: Option<Cell>, rnd: nat)
    requires |Candidates(b, skip)| > 0
    ensures BestMoveFor(b, O, skip).Some? ==> AiChoice(b, skip, rnd) == BestMoveFor(b, O, skip)
    ensures BestMoveFor(b, O, skip).None? && BestMoveFor(b, X, skip).Some? ==>
      AiChoice(b, skip, rnd) == BestMoveFor(b, X, skip)
  {
  }

  /** A draw below the list length picks that very index. Kept apart so that
      the modulus is reasoned about without the candidate list in view. */
  lemma SmallMod(i: nat, n: nat)
    requires i < n
    ensures i % n == i
  {
  }

  /** With no win and no block, every candidate is the pick for some
      outcome of the random draw, and only candidates are. */
  lemma FallbackIsAnyCandidate(b: Board, skip: Option<Cell>, c: Cell)
    requires BestMoveFor(b, O, skip).None? && BestMoveFor(b, X, skip).None?
    ensures c in Candidates(b, skip) <==> exists rnd: nat :: AiChoice(b, skip, rnd) == Some(c)
  {
    var cs := Candidates(b, skip);
    if c in cs {
      var i :| 0 <= i < |cs| && cs[i] == c;
      assert AiChoice(b, skip, i) == Some(c) by {
        SmallMod(i, |cs|);
      }
    } else {
      forall rnd: nat ensures AiChoice(b, skip, rnd) != Some(c) {
      }
    }
  }

  /** When the post-eviction board offers the AI a winning cell, its move
      wins the game. */
  lemma AiTakesWin(p: Position, rnd: nat)
    requires Consistent(p)
    requires BestMoveFor(Evict(p, Ai).board, O, Evicted(p, Ai)).Some?
    ensures HasWin(AiStep(p, rnd).board)
  {
    CandidatesAfterEviction(p);
    var p1 := Evict(p, Ai);
    BestMoveCompletesLine(p1.board, O, Evicted(p, Ai));
  }

  /** When the post-eviction board offers the AI no win but the human a
      winning cell, the AI takes that cell: the human's first threatening
      line is then full, holding two X and the new O, and can no longer be
      completed by the human. */
  lemma AiBlocksThreat(p: Position, rnd: nat, k: nat)
    requires Consistent(p)
    requires BestMoveFor(Evict(p, Ai).board, O, Evicted(p, Ai)).None?
    requires k < |Lines| && Threat(Evict(p, Ai).board, X, Evicted(p, Ai), k)
    requires forall j :: 0 <= j < k ==> !Threat(Evict(p, Ai).board, X, Evicted(p, Ai), j)
    ensures CountOn(AiStep(p, rnd).board, Lines[k], Empty) == 0
    ensures CountOn(AiStep(p, rnd).board, Lines[k], X) == 2
    ensures CountOn(AiStep(p, rnd).board, Lines[k], O) == 1
  {
    var p1 := Evict(p, Ai);
    var skip := Evicted(p, Ai);
    var l := Lines[k];
    var g := Gap(p1.board, l);
    CandidatesAfterEviction(p);
    BestMoveAt(p1.board, X, skip, k);
    assert AiChoice(p1.board, skip, rnd) == Some(g);
    assert p1.board[g] == Empty;
    var b' := AiStep(p, rnd).board;
    assert b' == p1.board[g := O];
    assert b'[l.a] != Empty && b'[l.b] != Empty && b'[l.c] != Empty;
  }
}
