/**
 * The 3x3 board of vanishing tic-tac-toe and the read-only scans over its
 * eight winning lines: the win check of `checkGameState` and the
 * "two of a symbol and one gap" search of `findBestMoveFor`.
 */
module Board {
  import opened Wrappers

  /** The text of a cell button: "X" (the human), "O" (the AI) or "". */
  datatype Mark = Empty | X | O

  /** A cell index, row-major on the 3x3 grid. */
  type Cell = i: int | 0 <= i < 9

  /** The nine cell texts, in row-major order. */
  type Board = b: seq<Mark> | |b| == 9 witness seq(9, _ => Empty)

  const EmptyBoard: Board := seq(9, _ => Empty)

  /** A winning combination: three cell indices. */
  datatype Line = Line(a: Cell, b: Cell, c: Cell)

  /** The winning combinations in the order both scans use:
      rows top to bottom, columns left to right, then the two diagonals. */
  const Lines: seq<Line> := [
    Line(0, 1, 2), Line(3, 4, 5), Line(6, 7, 8),
    Line(0, 3, 6), Line(1, 4, 7), Line(2, 5, 8),
    Line(0, 4, 8), Line(2, 4, 6)
  ]

  predicate OnLine(l: Line, i: Cell) {
    i == l.a || i == l.b || i == l.c
  }

  // ---------------------------------------------------------------
  // Win detection
  // ---------------------------------------------------------------

  /** Line k holds three equal, non-empty marks. */
  predicate Complete(b: Board, k: nat)
    requires k < |Lines|
  {
    var l := Lines[k];
    b[l.a] != Empty && b[l.a] == b[l.b] && b[l.a] == b[l.c]
  }

  /** The first complete line at position k or later, if any. */
  function FirstWin(b: Board, k: nat): (r: Option<nat>)
    requires k <= |Lines|
    decreases |Lines| - k
    ensures r.Some? ==> k <= r.value < |Lines| && Complete(b, r.value)
    ensures r.Some? ==> forall j :: k <= j < r.value ==> !Complete(b, j)
    ensures r.None? ==> forall j :: k <= j < |Lines| ==> !Complete(b, j)
  {
    if k == |Lines| then None
    else if Complete(b, k) then Some(k)
    else FirstWin(b, k + 1)
  }

  /** Some line of the board is complete. */
  predicate HasWin(b: Board) {
    FirstWin(b, 0).Some?
  }

  /** The winner that `checkGameState` reports: the mark on the first
      complete line, or Empty when there is none. */
  function WinMark(b: Board): (m: Mark)
    ensures m != Empty <==> HasWin(b)
  {
    match FirstWin(b, 0)
    case Some(k) => b[Lines[k].a]
    case None => Empty
  }

  /** If no line was complete before, and the new board differs from the old
      one only by cells that were emptied and by the cell just marked m, then
      every complete line of the new board is a line of m: only the side that
      has just moved can have won. */
  lemma OnlyMoverCanWin(b: Board, b': Board, cell: Cell, m: Mark)
    requires !HasWin(b)
    requires b'[cell] == m
    requires forall i: Cell :: i != cell ==> b'[i] == b[i] || b'[i] == Empty
    ensures forall k :: 0 <= k < |Lines| && Complete(b', k) ==> b'[Lines[k].a] == m
    ensures HasWin(b') ==> WinMark(b') == m
  {
    forall k | 0 <= k < |Lines| && Complete(b', k)
      ensures b'[Lines[k].a] == m
    {
      var l := Lines[k];
      if !OnLine(l, cell) {
        assert Complete(b, k);
        assert false;
      }
    }
  }

  /** Emptying a cell cannot complete a line. */
  lemma ClearingCannotWin(b: Board, e: Cell)
    requires !HasWin(b)
    ensures !HasWin(b[e := Empty])
  {
  }

  // ---------------------------------------------------------------
  // The AI's line search
  // ---------------------------------------------------------------

  /** How many of the three cells of l hold m. */
  function CountOn(b: Board, l: Line, m: Mark): (n: nat)
    ensures n <= 3
    ensures n == 0 <==> b[l.a] != m && b[l.b] != m && b[l.c] != m
  {
    (if b[l.a] == m then 1 else 0) + (if b[l.b] == m then 1 else 0) + (if b[l.c] == m then 1 else 0)
  }

  /** The first empty cell of l (its `indexOfFirst { it.isEmpty() }`). */
  function Gap(b: Board, l: Line): (i: Cell)
    ensures OnLine(l, i)
    ensures CountOn(b, l, Empty) > 0 ==> b[i] == Empty
  {
    if b[l.a] == Empty then l.a else if b[l.b] == Empty then l.b else l.c
  }

  /** Line k has exactly two m and one empty cell, and that cell is not skip. */
  predicate Threat(b: Board, m: Mark, skip: Option<Cell>, k: nat)
    requires k < |Lines|
  {
    CountOn(b, Lines[k], m) == 2 && CountOn(b, Lines[k], Empty) == 1
    && skip != Some(Gap(b, Lines[k]))
  }

  /** The first line at position k or later that is a Threat, if any. */
  function FirstThreat(b: Board, m: Mark, skip: Option<Cell>, k: nat): (r: Option<nat>)
    requires k <= |Lines|
    decreases |Lines| - k
    ensures r.Some? ==> k <= r.value < |Lines| && Threat(b, m, skip, r.value)
    ensures r.Some? ==> forall j :: k <= j < r.value ==> !Threat(b, m, skip, j)
    ensures r.None? ==> forall j :: k <= j < |Lines| ==> !Threat(b, m, skip, j)
  {
    if k == |Lines| then None
    else if Threat(b, m, skip, k) then Some(k)
    else FirstThreat(b, m, skip, k + 1)
  }

  /** What `findBestMoveFor(m)` returns when `lastRemovedAiIndex` is skip: the
      gap of the first threatening line, or nothing. */
  function BestMoveFor(b: Board, m: Mark, skip: Option<Cell>): (r: Option<Cell>)
    ensures r.Some? ==> b[r.value] == Empty && skip != Some(r.value)
    ensures r.None? ==> forall k :: 0 <= k < |Lines| ==> !Threat(b, m, skip, k)
  {
    match FirstThreat(b, m, skip, 0)
    case Some(k) => Some(Gap(b, Lines[k]))
    case None => None
  }

  /** The line scan's exit conditions determine BestMoveFor. */
  lemma BestMoveAt(b: Board, m: Mark, skip: Option<Cell>, k: nat)
    requires k < |Lines| && Threat(b, m, skip, k)
    requires forall j :: 0 <= j < k ==> !Threat(b, m, skip, j)
    ensures BestMoveFor(b, m, skip) == Some(Gap(b, Lines[k]))
  {
  }

  /** `findBestMoveFor` in full: it finds nothing exactly when no line is a
      Threat, and it finds c exactly when c is the gap of the first Threat. */
  lemma BestMoveIsFirstThreat(b: Board, m: Mark, skip: Option<Cell>, c: Cell)
    ensures BestMoveFor(b, m, skip).None? <==> forall k :: 0 <= k < |Lines| ==> !Threat(b, m, skip, k)
    ensures BestMoveFor(b, m, skip) == Some(c) <==>
      exists k :: 0 <= k < |Lines| && Threat(b, m, skip, k) && c == Gap(b, Lines[k])
        && forall j :: 0 <= j < k ==> !Threat(b, m, skip, j)
  {
  }

  /** The cell found for m lies on a line whose other two cells hold m, so
      marking it with m completes that line and wins. */
  lemma BestMoveCompletesLine(b: Board, m: Mark, skip: Option<Cell>)
    requires m != Empty
    requires BestMoveFor(b, m, skip).Some?
    ensures HasWin(b[BestMoveFor(b, m, skip).value := m])
  {
    var k := FirstThreat(b, m, skip, 0).value;
    var c := BestMoveFor(b, m, skip).value;
    var b' := b[c := m];
    var l := Lines[k];
    assert b'[l.a] == m && b'[l.b] == m && b'[l.c] == m;
    assert Complete(b', k);
  }

  // ---------------------------------------------------------------
  // The candidate list of `performAIMove`
  // ---------------------------------------------------------------

  /** The empty cells from index i on, in increasing order, leaving out skip. */
  function CandidatesFrom(b: Board, skip: Option<Cell>, i: nat): (r: seq<Cell>)
    requires i <= 9
    decreases 9 - i
    ensures forall c: Cell :: c in r <==> i <= c && b[c] == Empty && skip != Some(c)
    ensures forall j, k :: 0 <= j < k < |r| ==> r[j] < r[k]
  {
    if i == 9 then []
    else
      var rest := CandidatesFrom(b, skip, i + 1);
      var c: Cell := i;
      if b[c] == Empty && skip != Some(c) then
        forall k | 0 <= k < |rest|
          ensures c < rest[k]
        {
          assert rest[k] in rest;
        }
        [c] + rest
      else rest
  }

  /** `buttons.indices.filter { empty && idx != lastRemovedAiIndex }`. */
  function Candidates(b: Board, skip: Option<Cell>): (r: seq<Cell>)
    ensures forall c: Cell :: c in r <==> b[c] == Empty && skip != Some(c)
    ensures forall j, k :: 0 <= j < k < |r| ==> r[j] != r[k]
  {
    CandidatesFrom(b, skip, 0)
  }

  /** The set of empty cells. */
  function EmptySet(b: Board): set<Cell> {
    set c: Cell | 0 <= c < 9 && b[c] == Empty
  }

  /** The cells a queue or list holds. */
  function Elems(q: seq<Cell>): set<Cell> {
    set c | c in q
  }

  /** A duplicate-free sequence has as many elements as its set. */
  lemma {:induction false} DistinctCard(q: seq<Cell>)
    requires forall j, k :: 0 <= j < k < |q| ==> q[j] != q[k]
    ensures |Elems(q)| == |q|
  {
    if q != [] {
      var rest := q[1..];
      DistinctCard(rest);
      assert Elems(q) == {q[0]} + Elems(rest);
      assert q[0] !in rest;
    }
  }

  /** The candidate list holds every empty cell except skip, so it is at most
      one shorter than the set of empty cells. */
  lemma CandidatesCount(b: Board, skip: Option<Cell>)
    ensures |Candidates(b, skip)| >= |EmptySet(b)| - 1
  {
    var r := Candidates(b, skip);
    DistinctCard(r);
    var rs := Elems(r);
    var e := EmptySet(b);
    if skip.Some? {
      assert rs == e - {skip.value};
    } else {
      assert rs == e;
    }
  }
}
