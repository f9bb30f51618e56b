/** The slider tables of src/magics.cpp: the relevant-occupancy masks of
    rooks and bishops and the attack sets computed ray by ray with the walk
    stopping at the first blocker.

    The walkers build a bitboard with `b |= 1ULL << (f + r * 8)` and test
    `block & (1ULL << (f + r * 8))` for squares on the board; they are
    modelled on sets of square numbers, where those two operations are
    `b + {f + r * 8}` and `f + r * 8 in block`. */
module Magics {
  import opened Types
  import opened Bits

  // ---------------------------------------------------------------------
  // Walking a ray (src/magics.cpp:85-147, 236-350)

  /** The rank `sq / 8` and the file `sq % 8` of a square. */
  function Rank(t: int): int { t / 8 }
  function File(t: int): int { t % 8 }

  /** The square on rank `r` and file `f`: `f + r * 8`. */
  function At(r: int, f: int): int { f + r * 8 }

  /** A direction of travel: a step of -1, 0 or 1 on each axis, not both 0. */
  predicate IsDirection(dr: int, df: int)
  {
    -1 <= dr <= 1 && -1 <= df <= 1 && (dr != 0 || df != 0)
  }

  /** The loop condition on one axis: `x <= hi` when it increases, `x >= lo`
      when it decreases, nothing when it stays. */
  predicate Continues(x: int, d: int, lo: int, hi: int)
  {
    (d == 1 ==> x <= hi) && (d == -1 ==> x >= lo)
  }

  predicate InBounds(r: int, f: int, dr: int, df: int, lo: int, hi: int)
  {
    Continues(r, dr, lo, hi) && Continues(f, df, lo, hi)
  }

  /** The loops start one step away from a square on the board, so an axis
      that moves has not yet passed its lower limit, and an axis that stays
      is on the board. */
  predicate Starts(x: int, d: int, lo: int, hi: int)
  {
    (d == 1 ==> x >= lo) && (d == -1 ==> x <= hi) && (d == 0 ==> 0 <= x < 8)
  }

  predicate WalkOk(r: int, f: int, dr: int, df: int, lo: int, hi: int)
  {
    IsDirection(dr, df) && 0 <= lo && hi <= 7 && Starts(r, dr, lo, hi) && Starts(f, df, lo, hi)
  }

  /** How far an axis still has to go before it leaves the limits. */
  function Room(x: int, d: int): int
  {
    if d == 1 then 8 - x else if d == -1 then x + 1 else 0
  }

  /** One `for` loop of the walkers: starting at rank `r` and file `f` and
      stepping by `dr` and `df` while the limits hold, every square visited
      is added; the walk stops after adding a square of `block`. The masks
      use the limits 1..6 and no blockers, the attack generators 0..7. */
  function Walk(r: int, f: int, dr: int, df: int, lo: int, hi: int, block: set<int>): set<int>
    requires WalkOk(r, f, dr, df, lo, hi)
    decreases Room(r, dr) + Room(f, df)
  {
    if InBounds(r, f, dr, df, lo, hi) then
      {At(r, f)} + (if At(r, f) in block then {} else Walk(r + dr, f + df, dr, df, lo, hi, block))
    else {}
  }

  /** The distance covered along an axis from `start` to `x`. */
  function Offset(x: int, start: int, d: int): int
  {
    if d == 1 then x - start else if d == -1 then start - x else 0
  }

  /** The number of steps from the start of the walk to square `t`. */
  function Steps(r: int, f: int, dr: int, df: int, t: int): int
  {
    if dr != 0 then Offset(Rank(t), r, dr) else Offset(File(t), f, df)
  }

  /** After `k` steps an axis is at `x`. */
  predicate Follows(x: int, start: int, d: int, k: int)
  {
    if d == 0 then x == start else Offset(x, start, d) == k
  }

  /** `t` is a square of the board on the line from the start in the
      direction of travel, no further than the limits allow. */
  predicate OnWalk(r: int, f: int, dr: int, df: int, lo: int, hi: int, t: int)
  {
    0 <= t < 64 && Steps(r, f, dr, df, t) >= 0 &&
    Follows(Rank(t), r, dr, Steps(r, f, dr, df, t)) &&
    Follows(File(t), f, df, Steps(r, f, dr, df, t)) &&
    InBounds(Rank(t), File(t), dr, df, lo, hi)
  }

  /** `t` is on the walk and no square of `block` comes before it. */
  predicate Reaches(r: int, f: int, dr: int, df: int, lo: int, hi: int, block: set<int>, t: int)
  {
    OnWalk(r, f, dr, df, lo, hi, t) &&
    forall b :: b in block && OnWalk(r, f, dr, df, lo, hi, b) ==> Steps(r, f, dr, df, b) >= Steps(r, f, dr, df, t)
  }

  lemma StartSquare(r: int, f: int, dr: int, df: int, lo: int, hi: int, t: int)
    requires WalkOk(r, f, dr, df, lo, hi) && InBounds(r, f, dr, df, lo, hi)
    ensures OnWalk(r, f, dr, df, lo, hi, t) && Steps(r, f, dr, df, t) == 0 <==> t == At(r, f)
  {
  }

  /** Past the start, the walk goes on as the walk from the next square,
      one step shorter. */
  lemma NextSquare(r: int, f: int, dr: int, df: int, lo: int, hi: int, t: int)
    requires WalkOk(r, f, dr, df, lo, hi) && InBounds(r, f, dr, df, lo, hi)
    ensures OnWalk(r, f, dr, df, lo, hi, t) && Steps(r, f, dr, df, t) != 0 <==>
      OnWalk(r + dr, f + df, dr, df, lo, hi, t)
    ensures OnWalk(r + dr, f + df, dr, df, lo, hi, t) ==>
      Steps(r, f, dr, df, t) == Steps(r + dr, f + df, dr, df, t) + 1
  {
  }

  /** Once the limits fail they fail for every later square. */
  lemma PastLimits(r: int, f: int, dr: int, df: int, lo: int, hi: int, t: int)
    requires WalkOk(r, f, dr, df, lo, hi) && !InBounds(r, f, dr, df, lo, hi)
    ensures !OnWalk(r, f, dr, df, lo, hi, t)
  {
  }

  /** When the first square of the walk is a blocker, it is the only
      square reached. */
  lemma BlockedHere(r: int, f: int, dr: int, df: int, lo: int, hi: int, block: set<int>, t: int)
    requires WalkOk(r, f, dr, df, lo, hi) && InBounds(r, f, dr, df, lo, hi) && At(r, f) in block
    ensures Reaches(r, f, dr, df, lo, hi, block, t) <==> t == At(r, f)
  {
    var p := At(r, f);
    StartSquare(r, f, dr, df, lo, hi, t);
    StartSquare(r, f, dr, df, lo, hi, p);
    if Reaches(r, f, dr, df, lo, hi, block, t) {
      assert Steps(r, f, dr, df, p) >= Steps(r, f, dr, df, t);
    }
    if t == p {
      forall b | b in block && OnWalk(r, f, dr, df, lo, hi, b)
        ensures Steps(r, f, dr, df, b) >= Steps(r, f, dr, df, t)
      {
      }
    }
  }

  /** When the first square is free, the squares reached past it are those
      reached from the next square. */
  lemma OpenHere(r: int, f: int, dr: int, df: int, lo: int, hi: int, block: set<int>, t: int)
    requires WalkOk(r, f, dr, df, lo, hi) && InBounds(r, f, dr, df, lo, hi) && At(r, f) !in block
    requires t != At(r, f)
    ensures Reaches(r, f, dr, df, lo, hi, block, t) <==> Reaches(r + dr, f + df, dr, df, lo, hi, block, t)
  {
    StartSquare(r, f, dr, df, lo, hi, t);
    NextSquare(r, f, dr, df, lo, hi, t);
    if Reaches(r + dr, f + df, dr, df, lo, hi, block, t) {
      forall b | b in block && OnWalk(r, f, dr, df, lo, hi, b)
        ensures Steps(r, f, dr, df, b) >= Steps(r, f, dr, df, t)
      {
        StartSquare(r, f, dr, df, lo, hi, b);
        NextSquare(r, f, dr, df, lo, hi, b);
      }
    }
    if Reaches(r, f, dr, df, lo, hi, block, t) {
      forall b | b in block && OnWalk(r + dr, f + df, dr, df, lo, hi, b)
        ensures Steps(r + dr, f + df, dr, df, b) >= Steps(r + dr, f + df, dr, df, t)
      {
        NextSquare(r, f, dr, df, lo, hi, b);
      }
    }
  }

  /** The first square of the walk is always reached. */
  lemma FirstReached(r: int, f: int, dr: int, df: int, lo: int, hi: int, block: set<int>)
    requires WalkOk(r, f, dr, df, lo, hi) && InBounds(r, f, dr, df, lo, hi)
    ensures Reaches(r, f, dr, df, lo, hi, block, At(r, f))
  {
    StartSquare(r, f, dr, df, lo, hi, At(r, f));
    forall b | b in block && OnWalk(r, f, dr, df, lo, hi, b)
      ensures Steps(r, f, dr, df, b) >= 0
    {
    }
  }

  /** A walk holds exactly the squares of its line that no blocker comes
      before: every square up to and including the first blocker, and
      none beyond it. */
  lemma {:induction false} WalkHas(r: int, f: int, dr: int, df: int, lo: int, hi: int, block: set<int>, t: int)
    requires WalkOk(r, f, dr, df, lo, hi)
    ensures t in Walk(r, f, dr, df, lo, hi, block) <==> Reaches(r, f, dr, df, lo, hi, block, t)
    decreases Room(r, dr) + Room(f, df)
  {
    if !InBounds(r, f, dr, df, lo, hi) {
      PastLimits(r, f, dr, df, lo, hi, t);
    } else if At(r, f) in block {
      BlockedWalk(r, f, dr, df, lo, hi, block, t);
    } else if t == At(r, f) {
      FirstReached(r, f, dr, df, lo, hi, block);
    } else {
      WalkHas(r + dr, f + df, dr, df, lo, hi, block, t);
      FreeWalk(r, f, dr, df, lo, hi, block, t);
    }
  }

  /** A walk whose first square is a blocker holds that square alone. */
  lemma BlockedWalk(r: int, f: int, dr: int, df: int, lo: int, hi: int, block: set<int>, t: int)
    requires WalkOk(r, f, dr, df, lo, hi) && InBounds(r, f, dr, df, lo, hi) && At(r, f) in block
    ensures t in Walk(r, f, dr, df, lo, hi, block) <==> Reaches(r, f, dr, df, lo, hi, block, t)
  {
    BlockedHere(r, f, dr, df, lo, hi, block, t);
    assert Walk(r, f, dr, df, lo, hi, block) == {At(r, f)};
  }

  /** Past a free first square, a walk holds what the walk from the next
      square holds. */
  lemma FreeWalk(r: int, f: int, dr: int, df: int, lo: int, hi: int, block: set<int>, t: int)
    requires WalkOk(r, f, dr, df, lo, hi) && InBounds(r, f, dr, df, lo, hi) && At(r, f) !in block
    requires t != At(r, f)
    requires WalkOk(r + dr, f + df, dr, df, lo, hi)
    requires t in Walk(r + dr, f + df, dr, df, lo, hi, block) <==> Reaches(r + dr, f + df, dr, df, lo, hi, block, t)
    ensures t in Walk(r, f, dr, df, lo, hi, block) <==> Reaches(r, f, dr, df, lo, hi, block, t)
  {
    OpenHere(r, f, dr, df, lo, hi, block, t);
    assert t in Walk(r, f, dr, df, lo, hi, block) <==> t in Walk(r + dr, f + df, dr, df, lo, hi, block);
  }

  /** A square of the walk that comes before another one is not at the
      edge: it lies on the walk within the limits 1..6. */
  lemma BeforeIsInner(r: int, f: int, dr: int, df: int, q: int, t: int)
    requires WalkOk(r, f, dr, df, 0, 7) && WalkOk(r, f, dr, df, 1, 6)
    requires OnWalk(r, f, dr, df, 0, 7, q) && OnWalk(r, f, dr, df, 0, 7, t)
    requires Steps(r, f, dr, df, q) < Steps(r, f, dr, df, t)
    ensures OnWalk(r, f, dr, df, 1, 6, q)
  {
  }

  /** Blockers matter only where the walk could go on: on the squares the
      walk would visit within 1..6. Two blocker sets that agree there let
      the walk reach the same squares. */
  lemma ReachRelevant(r: int, f: int, dr: int, df: int, block: set<int>, other: set<int>, t: int)
    requires WalkOk(r, f, dr, df, 0, 7) && WalkOk(r, f, dr, df, 1, 6)
    requires forall q :: OnWalk(r, f, dr, df, 1, 6, q) ==> (q in block <==> q in other)
    ensures Reaches(r, f, dr, df, 0, 7, block, t) <==> Reaches(r, f, dr, df, 0, 7, other, t)
  {
    if OnWalk(r, f, dr, df, 0, 7, t) {
      forall q | OnWalk(r, f, dr, df, 0, 7, q) && Steps(r, f, dr, df, q) < Steps(r, f, dr, df, t)
        ensures q in block <==> q in other
      {
        BeforeIsInner(r, f, dr, df, q, t);
      }
    }
  }

  /** Two blocker sets that agree within 1..6 on the walk give the same walk. */
  lemma WalkRelevant(r: int, f: int, dr: int, df: int, block: set<int>, other: set<int>, t: int)
    requires WalkOk(r, f, dr, df, 0, 7) && WalkOk(r, f, dr, df, 1, 6)
    requires forall q :: OnWalk(r, f, dr, df, 1, 6, q) ==> (q in block <==> q in other)
    ensures t in Walk(r, f, dr, df, 0, 7, block) <==> t in Walk(r, f, dr, df, 0, 7, other)
  {
    WalkHas(r, f, dr, df, 0, 7, block, t);
    WalkHas(r, f, dr, df, 0, 7, other, t);
    ReachRelevant(r, f, dr, df, block, other, t);
  }

  // ---------------------------------------------------------------------
  // Rook and bishop masks (src/magics.cpp:85-103, 236-277)

  /** `t` is on a line of `sq` that a rook or a bishop moves along, and is
      not `sq`; the masks drop the edge of the board. */
  predicate OnRookLine(sq: Square, t: int)
  {
    0 <= t < 64 && t != sq && (File(t) == File(sq) || Rank(t) == Rank(sq))
  }

  predicate OnBishopLine(sq: Square, t: int)
  {
    0 <= t < 64 && t != sq &&
    (Rank(t) - Rank(sq) == File(t) - File(sq) || Rank(t) - Rank(sq) == File(sq) - File(t))
  }

  /** Away from the edge along the axes the line moves on. */
  predicate InnerRook(sq: Square, t: int)
  {
    (File(t) == File(sq) ==> 1 <= Rank(t) <= 6) && (Rank(t) == Rank(sq) ==> 1 <= File(t) <= 6)
  }

  predicate Inner(t: int)
  {
    1 <= Rank(t) <= 6 && 1 <= File(t) <= 6
  }

  /** `rmask(sq)` and `mask_rook_attacks(sq)`: the same four loops (north,
      south, east, west) with the limits 1..6 and no blockers. */
  function RookMask(sq: Square): set<int>
  {
    var rk, fl := Rank(sq), File(sq);
    Walk(rk + 1, fl, 1, 0, 1, 6, {}) + Walk(rk - 1, fl, -1, 0, 1, 6, {}) +
    Walk(rk, fl + 1, 0, 1, 1, 6, {}) + Walk(rk, fl - 1, 0, -1, 1, 6, {})
  }

  /** `bmask(sq)` and `mask_bishop_attacks(sq)`: the four diagonal loops
      with the limits 1..6 and no blockers. */
  function BishopMask(sq: Square): set<int>
  {
    var rk, fl := Rank(sq), File(sq);
    Walk(rk + 1, fl + 1, 1, 1, 1, 6, {}) + Walk(rk + 1, fl - 1, 1, -1, 1, 6, {}) +
    Walk(rk - 1, fl + 1, -1, 1, 1, 6, {}) + Walk(rk - 1, fl - 1, -1, -1, 1, 6, {})
  }

  /** With no blockers a walk holds its whole line. */
  lemma OpenWalk(r: int, f: int, dr: int, df: int, lo: int, hi: int, t: int)
    requires WalkOk(r, f, dr, df, lo, hi)
    ensures t in Walk(r, f, dr, df, lo, hi, {}) <==> OnWalk(r, f, dr, df, lo, hi, t)
  {
    WalkHas(r, f, dr, df, lo, hi, {}, t);
  }

  /** The rook mask is the rook's lines through `sq` without `sq` and
      without the edge squares they run into. */
  lemma RookMaskHas(sq: Square, t: int)
    ensures t in RookMask(sq) <==> OnRookLine(sq, t) && InnerRook(sq, t)
  {
    var rk, fl := Rank(sq), File(sq);
    OpenWalk(rk + 1, fl, 1, 0, 1, 6, t);
    OpenWalk(rk - 1, fl, -1, 0, 1, 6, t);
    OpenWalk(rk, fl + 1, 0, 1, 1, 6, t);
    OpenWalk(rk, fl - 1, 0, -1, 1, 6, t);
  }

  /** The bishop mask is the bishop's diagonals through `sq` without `sq`
      and without the edge of the board. */
  lemma BishopMaskHas(sq: Square, t: int)
    ensures t in BishopMask(sq) <==> OnBishopLine(sq, t) && Inner(t)
  {
    var rk, fl := Rank(sq), File(sq);
    OpenWalk(rk + 1, fl + 1, 1, 1, 1, 6, t);
    OpenWalk(rk + 1, fl - 1, 1, -1, 1, 6, t);
    OpenWalk(rk - 1, fl + 1, -1, 1, 1, 6, t);
    OpenWalk(rk - 1, fl - 1, -1, -1, 1, 6, t);
    InnerDiagonals(sq, t);
  }

  /** The inner squares of the diagonals through `sq` are those of its
      four inner walks. */
  lemma InnerDiagonals(sq: Square, t: int)
    ensures OnBishopLine(sq, t) && Inner(t) <==>
      OnWalk(Rank(sq) + 1, File(sq) + 1, 1, 1, 1, 6, t) || OnWalk(Rank(sq) + 1, File(sq) - 1, 1, -1, 1, 6, t) ||
      OnWalk(Rank(sq) - 1, File(sq) + 1, -1, 1, 1, 6, t) || OnWalk(Rank(sq) - 1, File(sq) - 1, -1, -1, 1, 6, t)
  {
  }

  // ---------------------------------------------------------------------
  // Attacks with blockers (src/magics.cpp:105-147, 279-350)

  /** `ratt(sq, block)` and `rook_attacks_on_the_fly(sq, block)`: the four
      rook loops with the limits 0..7, each stopping after a blocker. */
  function RookAttacks(sq: Square, block: set<int>): set<int>
  {
    var rk, fl := Rank(sq), File(sq);
    Walk(rk + 1, fl, 1, 0, 0, 7, block) + Walk(rk - 1, fl, -1, 0, 0, 7, block) +
    Walk(rk, fl + 1, 0, 1, 0, 7, block) + Walk(rk, fl - 1, 0, -1, 0, 7, block)
  }

  /** `batt(sq, block)` and `bishop_attacks_on_the_fly(sq, block)`: the
      four diagonal loops with the limits 0..7. */
  function BishopAttacks(sq: Square, block: set<int>): set<int>
  {
    var rk, fl := Rank(sq), File(sq);
    Walk(rk + 1, fl + 1, 1, 1, 0, 7, block) + Walk(rk + 1, fl - 1, 1, -1, 0, 7, block) +
    Walk(rk - 1, fl + 1, -1, 1, 0, 7, block) + Walk(rk - 1, fl - 1, -1, -1, 0, 7, block)
  }

  /** A rook on `sq` attacks exactly the squares along one of its four rays
      up to and including the first blocker, and never `sq` itself. */
  lemma RookAttacksHas(sq: Square, block: set<int>, t: int)
    ensures t in RookAttacks(sq, block) <==>
      Reaches(Rank(sq) + 1, File(sq), 1, 0, 0, 7, block, t) ||
      Reaches(Rank(sq) - 1, File(sq), -1, 0, 0, 7, block, t) ||
      Reaches(Rank(sq), File(sq) + 1, 0, 1, 0, 7, block, t) ||
      Reaches(Rank(sq), File(sq) - 1, 0, -1, 0, 7, block, t)
    ensures sq !in RookAttacks(sq, block)
  {
    var rk, fl := Rank(sq), File(sq);
    WalkHas(rk + 1, fl, 1, 0, 0, 7, block, t);
    WalkHas(rk - 1, fl, -1, 0, 0, 7, block, t);
    WalkHas(rk, fl + 1, 0, 1, 0, 7, block, t);
    WalkHas(rk, fl - 1, 0, -1, 0, 7, block, t);
    WalkHas(rk + 1, fl, 1, 0, 0, 7, block, sq);
    WalkHas(rk - 1, fl, -1, 0, 0, 7, block, sq);
    WalkHas(rk, fl + 1, 0, 1, 0, 7, block, sq);
    WalkHas(rk, fl - 1, 0, -1, 0, 7, block, sq);
  }

  /** A bishop on `sq` attacks exactly the squares along one of its four
      diagonals up to and including the first blocker, and never `sq`. */
  lemma BishopAttacksHas(sq: Square, block: set<int>, t: int)
    ensures t in BishopAttacks(sq, block) <==>
      Reaches(Rank(sq) + 1, File(sq) + 1, 1, 1, 0, 7, block, t) ||
      Reaches(Rank(sq) + 1, File(sq) - 1, 1, -1, 0, 7, block, t) ||
      Reaches(Rank(sq) - 1, File(sq) + 1, -1, 1, 0, 7, block, t) ||
      Reaches(Rank(sq) - 1, File(sq) - 1, -1, -1, 0, 7, block, t)
    ensures sq !in BishopAttacks(sq, block)
  {
    var rk, fl := Rank(sq), File(sq);
    WalkHas(rk + 1, fl + 1, 1, 1, 0, 7, block, t);
    WalkHas(rk + 1, fl - 1, 1, -1, 0, 7, block, t);
    WalkHas(rk - 1, fl + 1, -1, 1, 0, 7, block, t);
    WalkHas(rk - 1, fl - 1, -1, -1, 0, 7, block, t);
    WalkHas(rk + 1, fl + 1, 1, 1, 0, 7, block, sq);
    WalkHas(rk + 1, fl - 1, 1, -1, 0, 7, block, sq);
    WalkHas(rk - 1, fl + 1, -1, 1, 0, 7, block, sq);
    WalkHas(rk - 1, fl - 1, -1, -1, 0, 7, block, sq);
  }

  /** One ray of the attack generator sees only the blockers inside the
      mask walk that starts where it does. */
  lemma RayMasked(r: int, f: int, dr: int, df: int, block: set<int>, mask: set<int>, t: int)
    requires WalkOk(r, f, dr, df, 0, 7) && WalkOk(r, f, dr, df, 1, 6)
    requires Walk(r, f, dr, df, 1, 6, {}) <= mask
    ensures t in Walk(r, f, dr, df, 0, 7, block) <==> t in Walk(r, f, dr, df, 0, 7, block * mask)
  {
    forall q | OnWalk(r, f, dr, df, 1, 6, q)
      ensures q in block <==> q in block * mask
    {
      OpenWalk(r, f, dr, df, 1, 6, q);
    }
    WalkRelevant(r, f, dr, df, block, block * mask, t);
  }

  /** A whole ray is the same under the blockers and under those of them
      inside the mask. */
  lemma RaySame(r: int, f: int, dr: int, df: int, block: set<int>, mask: set<int>)
    requires WalkOk(r, f, dr, df, 0, 7) && WalkOk(r, f, dr, df, 1, 6)
    requires Walk(r, f, dr, df, 1, 6, {}) <= mask
    ensures Walk(r, f, dr, df, 0, 7, block) == Walk(r, f, dr, df, 0, 7, block * mask)
  {
    forall t ensures t in Walk(r, f, dr, df, 0, 7, block) <==> t in Walk(r, f, dr, df, 0, 7, block * mask) {
      RayMasked(r, f, dr, df, block, mask, t);
    }
  }

  /** The rook attacks depend only on the blockers inside the rook mask,
      which is what lets the magic lookup index by `block & rmask(sq)`. */
  lemma RookAttacksMasked(sq: Square, block: set<int>)
    ensures RookAttacks(sq, block) == RookAttacks(sq, block * RookMask(sq))
  {
    var rk, fl, m := Rank(sq), File(sq), RookMask(sq);
    RaySame(rk + 1, fl, 1, 0, block, m);
    RaySame(rk - 1, fl, -1, 0, block, m);
    RaySame(rk, fl + 1, 0, 1, block, m);
    RaySame(rk, fl - 1, 0, -1, block, m);
  }

  /** The bishop attacks depend only on the blockers inside the bishop mask. */
  lemma BishopAttacksMasked(sq: Square, block: set<int>)
    ensures BishopAttacks(sq, block) == BishopAttacks(sq, block * BishopMask(sq))
  {
    var rk, fl, m := Rank(sq), File(sq), BishopMask(sq);
    RaySame(rk + 1, fl + 1, 1, 1, block, m);
    RaySame(rk + 1, fl - 1, 1, -1, block, m);
    RaySame(rk - 1, fl + 1, -1, 1, block, m);
    RaySame(rk - 1, fl - 1, -1, -1, block, m);
  }
}
