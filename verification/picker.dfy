/** The move pickers: one step of selection sort per call. `src/movepicker.cpp`
    works on a shared move list and starts its scan one past the start
    index; the older `movepicker.cpp` (over a copied list with a `count`)
    and `move_picker.cpp` (over a vector) start the scan at the start
    index itself. All three hand out the best remaining move, earliest on
    ties. */
module Picker {
  import opened Bitboard

  /** The moves, the number in use (`size`, `count` or the vector's
      length) and the index of the first move not yet handed out. */
  datatype Picker = Picker(moves: seq<Move>, size: nat, start: nat)

  predicate Valid(p: Picker)
  {
    p.size <= |p.moves| && p.start <= p.size
  }

  /** `hasNext`. */
  predicate HasNext(p: Picker)
  {
    p.start < p.size
  }

  /** `size`. */
  function Size(p: Picker): nat { p.size }

  /** `remaining`. */
  function Remaining(p: Picker): int { p.size - p.start }

  /** `movesSearched`. */
  function MovesSearched(p: Picker): nat { p.start }

  /** Index `idx` holds a best-scoring move of `moves[start..size]`, and no
      earlier index there scores as much. */
  predicate Selected(moves: seq<Move>, start: nat, size: nat, idx: nat)
    requires size <= |moves|
  {
    start <= idx < size &&
    (forall j :: start <= j < size ==> moves[j].score <= moves[idx].score) &&
    (forall j :: start <= j < idx ==> moves[j].score < moves[idx].score)
  }

  /** `std::swap` of two slots. */
  function Swap(moves: seq<Move>, i: nat, j: nat): (r: seq<Move>)
    requires i < |moves| && j < |moves|
    ensures |r| == |moves| && multiset(r) == multiset(moves)
    ensures r[i] == moves[j] && r[j] == moves[i]
    ensures forall k :: 0 <= k < |moves| && k != i && k != j ==> r[k] == moves[k]
  {
    moves[i := moves[j]][j := moves[i]]
  }

  /** The index the scans settle on: the best-scoring move of
      `moves[start..size]`, the earliest among equals. */
  function Best(moves: seq<Move>, start: nat, size: nat): (idx: nat)
    requires start < size <= |moves|
    ensures Selected(moves, start, size, idx)
    decreases size
  {
    if size == start + 1 then start
    else
      var b := Best(moves, start, size - 1);
      if moves[size - 1].score > moves[b].score then size - 1 else b
  }

  /** A selected index is the one `Best` finds. */
  lemma SelectedIsBest(moves: seq<Move>, start: nat, size: nat, idx: nat)
    requires start < size <= |moves|
    requires Selected(moves, start, size, idx)
    ensures idx == Best(moves, start, size)
  {
  }

  /** The picker after one `getNextMove`: the best move swapped to the
      start, and the start moved past it. */
  function Picked(p: Picker): (r: Picker)
    requires Valid(p) && HasNext(p)
    ensures Valid(r)
  {
    p.(moves := Swap(p.moves, p.start, Best(p.moves, p.start, p.size)), start := p.start + 1)
  }

  /** `getNextMove` of src/movepicker.cpp: the scan starts one past the
      start index, with the start's move as the best so far. */
  method GetNextMove(p: Picker) returns (r: Picker, m: Move)
    requires Valid(p) && HasNext(p)
    ensures m == p.moves[Best(p.moves, p.start, p.size)] && r == Picked(p)
  {
    var highest := p.moves[p.start].score;
    var idx := p.start;
    var i := p.start + 1;
    while i < p.size
      invariant p.start < i <= p.size
      invariant idx == Best(p.moves, p.start, i) && highest == p.moves[idx].score
    {
      if p.moves[i].score > highest {
        highest := p.moves[i].score;
        idx := i;
      }
      i := i + 1;
    }
    r := p.(moves := Swap(p.moves, p.start, idx), start := p.start + 1);
    m := r.moves[r.start - 1];
  }

  /** `getNextMove` of movepicker.cpp and move_picker.cpp: the scan starts
      at the start index itself and carries the best move alongside its
      index; comparing the start with itself changes nothing. */
  method GetNextMoveFromStart(p: Picker) returns (r: Picker, m: Move)
    requires Valid(p) && HasNext(p)
    ensures m == p.moves[Best(p.moves, p.start, p.size)] && r == Picked(p)
  {
    var highest := p.moves[p.start].score;
    var idx := p.start;
    var move := p.moves[p.start];
    var i := p.start;
    while i < p.size
      invariant p.start <= i <= p.size
      invariant idx == Best(p.moves, p.start, if i == p.start then i + 1 else i)
      invariant highest == p.moves[idx].score && move == p.moves[idx]
    {
      if p.moves[i].score > highest {
        highest := p.moves[i].score;
        move := p.moves[i];
        idx := i;
      }
      i := i + 1;
    }
    var moves := p.moves[p.start := move][idx := p.moves[p.start]];
    assert moves == Swap(p.moves, p.start, idx);
    r := p.(moves := moves, start := p.start + 1);
    m := move;
  }

  /** What a pick does: the handed-out move scores at least as much as
      every move not yet handed out; the moves are the same in another
      order, those already handed out stay in place, one more is searched
      and one fewer remains. */
  lemma PickKeeps(p: Picker)
    requires Valid(p) && HasNext(p)
    ensures var r := Picked(p); var m := r.moves[p.start];
      (forall j :: p.start <= j < p.size ==> p.moves[j].score <= m.score) &&
      m in p.moves[p.start..p.size] &&
      multiset(r.moves) == multiset(p.moves) && r.moves[..p.start] == p.moves[..p.start] &&
      Size(r) == Size(p) && MovesSearched(r) == MovesSearched(p) + 1 && Remaining(r) == Remaining(p) - 1
  {
    var r := Picked(p);
    var b := Best(p.moves, p.start, p.size);
    assert r.moves[p.start] == p.moves[b] == p.moves[p.start..p.size][b - p.start];
    assert forall k :: 0 <= k < p.start ==> r.moves[k] == p.moves[k];
  }

  /** Successive picks never score more than the pick before. */
  lemma PicksNonIncreasing(p: Picker)
    requires Valid(p) && HasNext(p) && HasNext(Picked(p))
    ensures var r := Picked(p); Picked(r).moves[r.start].score <= r.moves[p.start].score
  {
    var r := Picked(p);
    var i := Best(p.moves, p.start, p.size);
    var j := Best(r.moves, r.start, r.size);
    assert Picked(r).moves[r.start] == r.moves[j];
    if j == i {
      assert r.moves[j] == p.moves[p.start];
    } else {
      assert r.moves[j] == p.moves[j];
    }
  }
}
