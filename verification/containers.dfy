/** The pool of move lists of src/movelist_pool.cpp: a LIFO stack of
    reusable lists that hands out emptied lists and makes a fresh one when
    it runs dry. Lists are values here; a list handed back and taken again
    is the same list with its size reset. */
module Pool {
  import opened Bitboard
  import opened MoveGen

  /** `INITIAL_POOL_SIZE` (src/movelist_pool.h:28). */
  const INITIAL_POOL_SIZE: nat := 100

  /** The pooled lists; the back of the vector is the end of the sequence. */
  datatype Pool = Pool(lists: seq<MoveList>)

  /** A list just made by `createMoveList`: every slot holds the blank
      move `Move()`, whose defaults are declared in a header that is not
      part of this model and so come in as `blank`. */
  function Fresh(blank: Move): (l: MoveList)
    ensures Valid(l) && l.size == 0 && forall i :: 0 <= i < MAX_MOVES ==> l.moves[i] == blank
  {
    MoveList(seq(MAX_MOVES, _ => blank), 0)
  }

  /** The constructor: `INITIAL_POOL_SIZE` fresh lists. */
  function NewPool(blank: Move): (p: Pool)
    ensures |p.lists| == INITIAL_POOL_SIZE
    ensures forall i :: 0 <= i < |p.lists| ==> p.lists[i] == Fresh(blank)
  {
    Pool(seq(INITIAL_POOL_SIZE, _ => Fresh(blank)))
  }

  /** The pool after `getMoveList` and the list it returns. */
  datatype Taken = Taken(pool: Pool, list: MoveList)

  /** `getMoveList`: a fresh list from an empty pool; otherwise the last
      pooled list, removed from the pool and emptied. */
  function GetMoveList(p: Pool, blank: Move): (t: Taken)
    ensures t.list.size == 0
    ensures |p.lists| == 0 ==> t == Taken(p, Fresh(blank))
    ensures |p.lists| > 0 ==>
      t.pool.lists == p.lists[..|p.lists| - 1] && t.list.moves == p.lists[|p.lists| - 1].moves
  {
    if |p.lists| == 0 then Taken(p, Fresh(blank))
    else
      var l := p.lists[|p.lists| - 1];
      Taken(Pool(p.lists[..|p.lists| - 1]), l.(size := 0))
  }

  /** `releaseMoveList`: empties the list and pushes it on the pool. */
  function ReleaseMoveList(p: Pool, l: MoveList): (r: Pool)
    ensures |r.lists| == |p.lists| + 1
    ensures r.lists[..|p.lists|] == p.lists && r.lists[|p.lists|] == l.(size := 0)
  {
    Pool(p.lists + [l.(size := 0)])
  }

  /** The pool is LIFO: taking a list right after releasing one returns
      that list, emptied, and leaves the pool as it was. */
  lemma ReleaseThenGet(p: Pool, l: MoveList, blank: Move)
    ensures GetMoveList(ReleaseMoveList(p, l), blank) == Taken(p, l.(size := 0))
  {
    var r := ReleaseMoveList(p, l);
    assert r.lists[..|r.lists| - 1] == p.lists;
  }

  /** Every list the pool hands out is valid when every pooled list is. */
  lemma TakenValid(p: Pool, blank: Move)
    requires forall i :: 0 <= i < |p.lists| ==> Valid(p.lists[i])
    ensures Valid(GetMoveList(p, blank).list)
    ensures forall i :: 0 <= i < |GetMoveList(p, blank).pool.lists| ==> Valid(GetMoveList(p, blank).pool.lists[i])
  {
  }
}

/** The fixed-capacity containers of the `collections/` prototype: a move
    list and an undo stack, each an array of 128 slots and an index one
    past the last element written. */
module Collections {
  import opened Wrappers

  /** The array size of both containers (collections/move_list.h:15,
      collections/undo_stack.h:12). */
  const CAPACITY: nat := 128

  /** The move record of the prototype. */
  datatype ListMove = ListMove(fromSquare: nat, toSquare: nat, pieceType: int, zobristHash: nat, promotionPiece: int)

  /** `MoveList`: the slots and `lastElementIndex`. */
  datatype MoveList = MoveList(slots: seq<ListMove>, size: nat)

  predicate ListValid(l: MoveList)
  {
    |l.slots| == CAPACITY && l.size <= CAPACITY
  }

  /** The moves in the list, oldest first. */
  function Elements(l: MoveList): seq<ListMove>
    requires ListValid(l)
  {
    l.slots[..l.size]
  }

  /** `addMove`: writes the slot at the index and advances it; its assert
      demands that the index stays within the 128 slots. */
  function AddMove(l: MoveList, fromSquare: nat, toSquare: nat, pieceType: int, zobristHash: nat, promotionPiece: int): (r: MoveList)
    requires ListValid(l) && l.size < CAPACITY
    ensures ListValid(r)
    ensures Elements(r) == Elements(l) + [ListMove(fromSquare, toSquare, pieceType, zobristHash, promotionPiece)]
  {
    var r := MoveList(l.slots[l.size := ListMove(fromSquare, toSquare, pieceType, zobristHash, promotionPiece)], l.size + 1);
    assert Elements(r) == Elements(l) + [r.slots[l.size]];
    r
  }

  /** The list after `popBack` and the move it returns. */
  datatype Popped = Popped(list: MoveList, move: ListMove)

  /** `popBack`: steps the index back and returns the slot it now points
      at; its assert demands a non-empty list. */
  function PopBack(l: MoveList): (r: Popped)
    requires ListValid(l) && l.size > 0
    ensures ListValid(r.list) && Elements(l) == Elements(r.list) + [r.move]
  {
    var r := Popped(l.(size := l.size - 1), l.slots[l.size - 1]);
    assert Elements(l) == Elements(r.list) + [l.slots[l.size - 1]];
    r
  }

  /** `clear`. */
  function Clear(l: MoveList): (r: MoveList)
    requires ListValid(l)
    ensures ListValid(r) && Elements(r) == []
  {
    l.(size := 0)
  }

  /** `operator[]`: the element at an index below the size. */
  function At(l: MoveList, index: int): (m: ListMove)
    requires ListValid(l) && 0 <= index < l.size
    ensures m == Elements(l)[index]
  {
    l.slots[index]
  }

  /** Popping right after adding returns the added move and the list as it
      was before. */
  lemma AddThenPop(l: MoveList, fromSquare: nat, toSquare: nat, pieceType: int, zobristHash: nat, promotionPiece: int)
    requires ListValid(l) && l.size < CAPACITY
    ensures var r := PopBack(AddMove(l, fromSquare, toSquare, pieceType, zobristHash, promotionPiece));
      r.move == ListMove(fromSquare, toSquare, pieceType, zobristHash, promotionPiece) &&
      Elements(r.list) == Elements(l) && r.list.size == l.size
  {
    var a := AddMove(l, fromSquare, toSquare, pieceType, zobristHash, promotionPiece);
    var r := PopBack(a);
    assert Elements(a) == Elements(r.list) + [r.move];
    assert Elements(a)[..l.size] == Elements(r.list);
  }

  /** The record `pushMove` fills: the twelve piece boards, the 64-entry
      mapping and attack tables, the colour boards and the scalars. */
  datatype UndoRecord = UndoRecord(
    pieceBB: seq<nat>, pieceSquareMapping: seq<int>, colorBB: seq<nat>, occupiedBB: nat,
    whiteEnPassantSquare: int, blackEnPassantSquare: int, castlingRights: nat,
    attacksFrom: seq<nat>, attacksTo: seq<nat>, zobristHash: nat,
    movesMade: int, halfMoveClock: int, fullMoveClock: int)

  /** `UndoStack`: the slots and `lastElementIndex`. */
  datatype UndoStack = UndoStack(stack: seq<UndoRecord>, size: nat)

  predicate StackValid(s: UndoStack)
  {
    |s.stack| == CAPACITY && s.size <= CAPACITY
  }

  /** The records on the stack, oldest first. */
  function Records(s: UndoStack): seq<UndoRecord>
    requires StackValid(s)
  {
    s.stack[..s.size]
  }

  /** The bound `pushMove` asserts after advancing the index, as written:
      at most 256, twice the number of slots. */
  predicate PushGuardAsWritten(size: nat)
  {
    size + 1 <= 256
  }

  /** `pushMove` as written: the record goes into the slot at the index
      and the index advances; the assert afterwards fails (`None`) only
      past 256. A write past the last slot is undefined behaviour in C++;
      here it leaves the slots as they were. */
  function PushAsWritten(s: UndoStack, u: UndoRecord): (r: Option<UndoStack>)
    ensures r.Some? <==> PushGuardAsWritten(s.size)
    ensures r.Some? ==> r.value.size == s.size + 1
    ensures r.Some? && s.size < |s.stack| ==> r.value.stack == s.stack[s.size := u]
  {
    var slots := if s.size < |s.stack| then s.stack[s.size := u] else s.stack;
    if PushGuardAsWritten(s.size) then Some(UndoStack(slots, s.size + 1)) else None
  }

  /** The guard lets a push into a full stack through: the record has no
      slot, and the stack left behind claims 129 records in 128 slots. */
  lemma PushGuardAdmitsOverflow(s: UndoStack, u: UndoRecord)
    requires StackValid(s) && s.size == CAPACITY
    ensures PushAsWritten(s, u).Some? && !StackValid(PushAsWritten(s, u).value)
  {
  }

  /** Below capacity the push as written and the guarded `Push` agree. */
  lemma PushAgrees(s: UndoStack, u: UndoRecord)
    requires StackValid(s) && s.size < CAPACITY
    ensures PushAsWritten(s, u) == Some(Push(s, u))
  {
  }

  /** `pushMove` with the bound the array needs: the record goes into the
      slot at the index, which then advances. */
  function Push(s: UndoStack, u: UndoRecord): (r: UndoStack)
    requires StackValid(s) && s.size < CAPACITY
    ensures StackValid(r) && Records(r) == Records(s) + [u]
  {
    var r := UndoStack(s.stack[s.size := u], s.size + 1);
    assert Records(r) == Records(s) + [r.stack[s.size]];
    r
  }

  /** The stack after `pop` and the record it returns. */
  datatype Restored = Restored(stack: UndoStack, record: UndoRecord)

  /** `pop`: steps the index back and returns the record there; its assert
      demands a non-empty stack. */
  function Pop(s: UndoStack): (r: Restored)
    requires StackValid(s) && s.size > 0
    ensures StackValid(r.stack) && Records(s) == Records(r.stack) + [r.record]
  {
    var r := Restored(s.(size := s.size - 1), s.stack[s.size - 1]);
    assert Records(s) == Records(r.stack) + [s.stack[s.size - 1]];
    r
  }

  /** `clear`. */
  function ClearStack(s: UndoStack): (r: UndoStack)
    requires StackValid(s)
    ensures StackValid(r) && Records(r) == []
  {
    s.(size := 0)
  }

  /** Popping right after pushing returns the pushed record and the stack
      as it was before. */
  lemma PushThenPop(s: UndoStack, u: UndoRecord)
    requires StackValid(s) && s.size < CAPACITY
    ensures Pop(Push(s, u)).record == u
    ensures Records(Pop(Push(s, u)).stack) == Records(s)
  {
    var a := Push(s, u);
    var r := Pop(a);
    assert Records(a) == Records(r.stack) + [r.record];
    assert Records(a)[..s.size] == Records(r.stack);
  }
}
