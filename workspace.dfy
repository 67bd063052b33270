/** The letter workspace of the game board: the solution area and the pool of
    available letters, edited by drag and drop, and the two button gates. */
module Workspace {

  import opened Sequences

  /** The two drop areas of the board. */
  datatype Area = Solution | Available

  /** The `source` field of the drag payload: one of the two areas, or
      anything else (a drag that did not start on a letter tile). */
  datatype DragSource = FromSolution | FromAvailable | FromElsewhere

  datatype Board = Board(solution: seq<char>, available: seq<char>)

  /** What a drag started on a tile carries: its letter, its index and its area. */
  datatype Drag = Drag(letter: char, source: DragSource, sourceIndex: int)

  /** The `handleDrop` rule of GameBoard.jsx: a drop of `d` on area `target`
      at position `targetIndex`. A drop of a tile keeps the number of tiles
      on the board, and unless it goes from the pool to the pool, the
      dragged letter ends up in the target area. */
  function Drop(b: Board, d: Drag, target: Area, targetIndex: nat): (r: Board)
    requires d.source == FromSolution && target == Solution ==> 0 <= d.sourceIndex < |b.solution|
    ensures TileDrag(b, d) ==> |r.solution| + |r.available| == |b.solution| + |b.available|
    ensures TileDrag(b, d) && !(d.source == FromAvailable && target == Available) ==>
      d.letter in (if target == Solution then r.solution else r.available)
  {
    match (d.source, target)
    case (FromSolution, Solution) =>
      var moved := b.solution[d.sourceIndex];
      Board(InsertAt(DropIndex(b.solution, d.sourceIndex), targetIndex, moved), b.available)
    case (FromAvailable, Solution) =>
      Board(InsertAt(b.solution, targetIndex, d.letter), DropIndex(b.available, d.sourceIndex))
    case (FromSolution, Available) =>
      Board(DropIndex(b.solution, d.sourceIndex), InsertAt(b.available, targetIndex, d.letter))
    case _ => b
  }

  /** Dropping on an area's background targets the end of the area. */
  function AreaDropIndex(items: seq<char>): nat {
    |items|
  }

  /** Dropping on a tile targets that tile's own index. */
  function TileDropIndex(tileIndex: nat): nat {
    tileIndex
  }

  function AreaOf(b: Board, a: DragSource): seq<char>
    requires a != FromElsewhere
  {
    if a == FromSolution then b.solution else b.available
  }

  /** A drag started on a tile: the payload's index points into the area it
      names, and its letter is the letter of that tile (GameBoard.jsx passes
      each tile's own letter, index and area to `handleDragStart`). */
  predicate TileDrag(b: Board, d: Drag) {
    d.source != FromElsewhere &&
    0 <= d.sourceIndex < |AreaOf(b, d.source)| &&
    d.letter == AreaOf(b, d.source)[d.sourceIndex]
  }

  /** All letters on the board, as a multiset. */
  function Letters(b: Board): multiset<char> {
    multiset(b.solution) + multiset(b.available)
  }

  /** A reorder inside the solution moves the dragged tile to the clamped
      target position; the other tiles keep their order, the pool is untouched
      and the solution keeps its length and its letters. */
  lemma ReorderMovesOneTile(b: Board, d: Drag, targetIndex: nat)
    requires d.source == FromSolution && 0 <= d.sourceIndex < |b.solution|
    ensures var r := Drop(b, d, Solution, targetIndex);
      && r.available == b.available
      && |r.solution| == |b.solution|
      && multiset(r.solution) == multiset(b.solution)
      && r.solution[Min(targetIndex, |b.solution| - 1)] == b.solution[d.sourceIndex]
      && DropIndex(r.solution, Min(targetIndex, |b.solution| - 1)) == DropIndex(b.solution, d.sourceIndex)
  {
    var rest := DropIndex(b.solution, d.sourceIndex);
    DropInserted(rest, targetIndex, b.solution[d.sourceIndex]);
  }

  /** A pool-to-solution move takes exactly the pool entry at the source index
      out and puts the dragged letter at the clamped target position. */
  lemma PoolToSolutionMove(b: Board, d: Drag, targetIndex: nat)
    requires d.source == FromAvailable
    ensures var r := Drop(b, d, Solution, targetIndex);
      && r.available == DropIndex(b.available, d.sourceIndex)
      && r.solution[Min(targetIndex, |b.solution|)] == d.letter
      && DropIndex(r.solution, Min(targetIndex, |b.solution|)) == b.solution
      && (TileDrag(b, d) ==> Letters(r) == Letters(b))
  {
    DropInserted(b.solution, targetIndex, d.letter);
  }

  /** A solution-to-pool move takes exactly the solution entry at the source
      index out and puts the dragged letter into the pool at the clamped
      target position. */
  lemma SolutionToPoolMove(b: Board, d: Drag, targetIndex: nat)
    requires d.source == FromSolution
    ensures var r := Drop(b, d, Available, targetIndex);
      && r.solution == DropIndex(b.solution, d.sourceIndex)
      && r.available[Min(targetIndex, |b.available|)] == d.letter
      && DropIndex(r.available, Min(targetIndex, |b.available|)) == b.available
      && (TileDrag(b, d) ==> Letters(r) == Letters(b))
  {
    DropInserted(b.available, targetIndex, d.letter);
  }

  /** A pool-to-pool drop, or a drop of anything not dragged from a tile,
      matches no branch: the board is passed on unchanged. */
  lemma UnmatchedDropIsNoOp(b: Board, d: Drag, target: Area, targetIndex: nat)
    requires d.source == FromElsewhere || (d.source == FromAvailable && target == Available)
    ensures Drop(b, d, target, targetIndex) == b
  {}

  /** Dropping on the background of the target area appends the letter to it. */
  lemma AreaDropAppends(b: Board, d: Drag, target: Area)
    requires TileDrag(b, d)
    requires d.source == FromSolution || target == Solution
    ensures var r := Drop(b, d, target, AreaDropIndex(if target == Solution then b.solution else b.available));
      match target
      case Solution => r.solution == (if d.source == FromSolution then DropIndex(b.solution, d.sourceIndex) else b.solution) + [d.letter]
      case Available => r.available == b.available + [d.letter]
  {
    match target
    case Solution =>
      var base := if d.source == FromSolution then DropIndex(b.solution, d.sourceIndex) else b.solution;
      InsertAtEnd(base, |b.solution|, d.letter);
    case Available =>
      InsertAtEnd(b.available, |b.available|, d.letter);
  }

  /** The board after a sequence of drops, each at the given area and index. */
  datatype DropEvent = DropEvent(drag: Drag, target: Area, targetIndex: nat)

  /** Every drop of the sequence is a drag from a tile of the board as it is
      at that moment. */
  predicate AllTileDrags(b: Board, events: seq<DropEvent>)
    decreases |events|
  {
    events == [] ||
    (TileDrag(b, events[0].drag) &&
     AllTileDrags(Drop(b, events[0].drag, events[0].target, events[0].targetIndex), events[1..]))
  }

  function ApplyDrops(b: Board, events: seq<DropEvent>): Board
    requires AllTileDrags(b, events)
    decreases |events|
  {
    if events == [] then b
    else ApplyDrops(Drop(b, events[0].drag, events[0].target, events[0].targetIndex), events[1..])
  }

  /** One drop of a tile neither creates nor loses a letter. */
  lemma DropConservesLetters(b: Board, e: DropEvent)
    requires TileDrag(b, e.drag)
    ensures Letters(Drop(b, e.drag, e.target, e.targetIndex)) == Letters(b)
  {
    var d := e.drag;
    match (d.source, e.target)
    case (FromSolution, Solution) => ReorderMovesOneTile(b, d, e.targetIndex);
    case (FromAvailable, Solution) => PoolToSolutionMove(b, d, e.targetIndex);
    case (FromSolution, Available) => SolutionToPoolMove(b, d, e.targetIndex);
    case _ =>
  }

  /** Letter conservation: any sequence of tile drops leaves the letters on
      the board exactly those it started with. */
  lemma {:induction false} DropsConserveLetters(b: Board, events: seq<DropEvent>)
    requires AllTileDrags(b, events)
    ensures Letters(ApplyDrops(b, events)) == Letters(b)
    decreases |events|
  {
    if events != [] {
      var next := Drop(b, events[0].drag, events[0].target, events[0].targetIndex);
      DropConservesLetters(b, events[0]);
      DropsConserveLetters(next, events[1..]);
    }
  }

  /** `isValidateDisabled` of GameBoard.jsx: Validate can be pressed only
      with at least five letters placed, and in the main game only before
      time-up. */
  predicate ValidateDisabled(solutionLength: nat, isTimeUp: bool, isTutorial: bool)
    ensures !ValidateDisabled(solutionLength, isTimeUp, isTutorial) ==> solutionLength >= 5 && (isTutorial || !isTimeUp)
  {
    solutionLength < 5 || (isTimeUp && !isTutorial)
  }

  /** `isSubmitDisabled` of GameBoard.jsx: Submit can be pressed only with a
      validated word, in the main game only before time-up, and in the
      tutorial only in the last 60 seconds. */
  predicate SubmitDisabled(validatedCount: nat, isTimeUp: bool, isTutorial: bool, timeLeft: int)
    ensures !SubmitDisabled(validatedCount, isTimeUp, isTutorial, timeLeft) ==>
      validatedCount >= 1 && (isTutorial || !isTimeUp) && (!isTutorial || timeLeft <= 60)
  {
    validatedCount == 0 || (isTimeUp && !isTutorial) || (isTutorial && timeLeft > 60)
  }
}
