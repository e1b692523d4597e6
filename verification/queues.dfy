/**
 * The two move queues (`playerMoves`, `aiMoves`) together with the board,
 * the capacity-3 eviction rule, and the invariant that ties queue
 * membership to the marks on the board.
 */
module Queues {
  import opened Wrappers
  import opened Board

  /** `maxMarksPerPlayer`. */
  const MaxMarks: nat := 3

  datatype Side = Player | Ai

  function MarkOf(s: Side): Mark {
    if s == Player then X else O
  }

  /** The board and both queues (oldest index first). */
  datatype Position = Position(board: Board, player: seq<Cell>, ai: seq<Cell>)

  function Queue(p: Position, s: Side): seq<Cell> {
    if s == Player then p.player else p.ai
  }

  function WithQueue(p: Position, s: Side, q: seq<Cell>): Position {
    if s == Player then p.(player := q) else p.(ai := q)
  }

  predicate Distinct(q: seq<Cell>) {
    forall j, k :: 0 <= j < k < |q| ==> q[j] != q[k]
  }

  /** Both queues are within capacity and duplicate-free, a cell holds X iff
      it is queued for the player and O iff it is queued for the AI (so the
      queues are disjoint and every empty cell is in neither). */
  ghost predicate Consistent(p: Position) {
    && |p.player| <= MaxMarks && |p.ai| <= MaxMarks
    && Distinct(p.player) && Distinct(p.ai)
    && (forall c: Cell :: (p.board[c] == X <==> c in p.player) && (p.board[c] == O <==> c in p.ai))
  }

  /** The cell a side will lose on its next move (its blinking cell): the
      queue front when the queue is full, nothing otherwise. */
  function Pending(q: seq<Cell>): (r: Option<Cell>)
    ensures r.Some? <==> |q| == MaxMarks
    ensures r.Some? ==> r.value == q[0]
  {
    if |q| == MaxMarks then Some(q[0]) else None
  }

  /** The cell a side's next move removes: its oldest when it already has
      `maxMarksPerPlayer` marks. */
  function Evicted(p: Position, s: Side): Option<Cell> {
    if |Queue(p, s)| >= MaxMarks then Some(Queue(p, s)[0]) else None
  }

  /** In a consistent position the blinking cell of a side is exactly the
      cell its next move removes: the mark that blinked is the one that
      vanishes. */
  lemma PendingIsEvicted(p: Position, s: Side)
    requires Consistent(p)
    ensures Pending(Queue(p, s)) == Evicted(p, s)
  {
  }

  /** The first half of a move: pop the oldest index and clear its cell when
      the side is at capacity. */
  function Evict(p: Position, s: Side): Position {
    var q := Queue(p, s);
    if |q| >= MaxMarks then WithQueue(p.(board := p.board[q[0] := Empty]), s, q[1..]) else p
  }

  /** The second half of a move: mark the cell and append it to the queue. */
  function Place(p: Position, s: Side, cell: Cell): Position {
    WithQueue(p.(board := p.board[cell := MarkOf(s)]), s, Queue(p, s) + [cell])
  }

  /** A whole move of side s onto cell: eviction, then placement. */
  function Move(p: Position, s: Side, cell: Cell): Position {
    Place(Evict(p, s), s, cell)
  }

  /** Eviction keeps the invariant and leaves the side below capacity. */
  lemma EvictKeepsConsistent(p: Position, s: Side)
    requires Consistent(p)
    ensures Consistent(Evict(p, s))
    ensures |Queue(Evict(p, s), s)| < MaxMarks
    ensures Queue(Evict(p, s), s) == if |Queue(p, s)| >= MaxMarks then Queue(p, s)[1..] else Queue(p, s)
    ensures Evicted(p, s).Some? ==> Evict(p, s).board[Evicted(p, s).value] == Empty
  {
    var q := Queue(p, s);
    if |q| >= MaxMarks {
      var r := Evict(p, s);
      var e := q[0];
      assert p.board[e] == MarkOf(s);
      assert e !in q[1..];
      forall c: Cell
        ensures (r.board[c] == X <==> c in r.player) && (r.board[c] == O <==> c in r.ai)
      {
        if c != e {
          assert c in q <==> c in q[1..];
        }
      }
    }
  }

  /** Placing on an empty cell of a side below capacity keeps the invariant. */
  lemma PlaceKeepsConsistent(p: Position, s: Side, cell: Cell)
    requires Consistent(p)
    requires |Queue(p, s)| < MaxMarks
    requires p.board[cell] == Empty
    ensures Consistent(Place(p, s, cell))
    ensures |Queue(Place(p, s, cell), s)| <= MaxMarks
  {
    var r := Place(p, s, cell);
    assert cell !in Queue(p, s);
    forall c: Cell
      ensures (r.board[c] == X <==> c in r.player) && (r.board[c] == O <==> c in r.ai)
    {
    }
  }

  /** A full move by side s on an empty cell: FIFO eviction, then placement.
      Only the evicted cell and the new cell change, the new cell is never
      the evicted one, the side's queue loses its front and gains the new
      cell at its back, and the other side's queue is untouched. */
  lemma MoveIsFifo(p: Position, s: Side, cell: Cell)
    requires Consistent(p)
    requires p.board[cell] == Empty
    ensures Consistent(Move(p, s, cell))
    ensures Evicted(p, s) != Some(cell)
    ensures var r := Move(p, s, cell);
      && r.board[cell] == MarkOf(s)
      && (Evicted(p, s).Some? ==> r.board[Evicted(p, s).value] == Empty)
      && (forall c: Cell :: c != cell && Some(c) != Evicted(p, s) ==> r.board[c] == p.board[c])
      && Queue(r, s) == (if |Queue(p, s)| == MaxMarks then Queue(p, s)[1..] else Queue(p, s)) + [cell]
      && (s == Player ==> r.ai == p.ai)
      && (s == Ai ==> r.player == p.player)
  {
    EvictKeepsConsistent(p, s);
    var p1 := Evict(p, s);
    if Evicted(p, s).Some? {
      assert p.board[Evicted(p, s).value] == MarkOf(s);
    }
    assert p1.board[cell] == Empty;
    PlaceKeepsConsistent(p1, s, cell);
  }

  /** Removing a subset takes away exactly its size. */
  lemma DiffCard(all: set<Cell>, occ: set<Cell>)
    requires occ <= all
    ensures |all - occ| == |all| - |occ|
  {
    assert all == (all - occ) + occ;
    assert (all - occ) * occ == {};
  }

  /** The occupied cells are exactly the two queues' cells, which are disjoint. */
  lemma OccupiedCount(p: Position)
    requires Consistent(p)
    ensures |Elems(p.player) + Elems(p.ai)| == |p.player| + |p.ai|
  {
    DistinctCard(p.player);
    DistinctCard(p.ai);
    assert Elems(p.player) * Elems(p.ai) == {} by {
      forall c | c in Elems(p.player) ensures c !in Elems(p.ai) {
        assert p.board[c] == X;
      }
    }
  }

  const AllCells: set<Cell> := {0, 1, 2, 3, 4, 5, 6, 7, 8}

  lemma AllCellsCard()
    ensures |AllCells| == 9
    ensures forall c: Cell :: c in AllCells
  {
  }

  /** The empty cells are the cells in neither queue. */
  lemma EmptyIsUnqueued(p: Position)
    requires Consistent(p)
    ensures EmptySet(p.board) == AllCells - (Elems(p.player) + Elems(p.ai))
  {
    AllCellsCard();
  }

  /** With the queues in step with the board, the number of empty cells is
      nine minus the marks both sides hold. */
  lemma EmptyCount(p: Position)
    requires Consistent(p)
    ensures |EmptySet(p.board)| == 9 - |p.player| - |p.ai|
  {
    AllCellsCard();
    OccupiedCount(p);
    EmptyIsUnqueued(p);
    DiffCard(AllCells, Elems(p.player) + Elems(p.ai));
  }
}
