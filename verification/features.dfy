/** The evaluation parameters of src/features.cpp: the 70 feature weights
    and the flat parameter vector the tuner reads and writes (features,
    then the midgame and the endgame piece-square values).

    The vector is a `std::vector<double>` in the engine; here its entries
    are exact reals, and `static_cast<int>` is truncation toward zero. */
module Features {
  import opened Types
  import Pst

  /** `getEvalFeatureSize()`, the length of `evalValues`. */
  const EVAL_FEATURES: nat := 70
  /** Length of the whole parameter vector: features, midgame, endgame. */
  const VECTOR_SIZE: nat := 838
  /** Where the midgame and the endgame blocks start in the vector. */
  const MIDGAME_AT: nat := 70
  const ENDGAME_AT: nat := 454

  /** The tuned feature weights `evalValues` the engine starts with. */
  const EVAL_VALUES: seq<int> := [
    105, 103, 371, 354, 398, 370, 543, 548, 1032, 1021, 9, 5, 6, 4, 0, 7, 0, 22,
    21, -1, -6, -1, -12, 9, 6, -5, -12, 0, -20, 1, -13, -30, -13, -6, 0, 23,
    -5, -10, -10, -9, -21, -9, -5, -9, 7, -7, -5, -9, -5, -17, -31, -17, 22, 5,
    8, 7, 36, 22, 19, 0, -5, 0, 11, 4, 6, 16, 0, -6, 11, 0]

  /** The default material weights that open `baseEvalValues`: midgame
      and endgame value of pawn, knight, bishop, rook and queen. */
  const BASE_MATERIAL: seq<int> := [100, 100, 350, 350, 350, 350, 525, 525, 1000, 1000]

  /** The tuning defaults `baseEvalValues`. */
  const BASE_EVAL_VALUES: seq<int> := BASE_MATERIAL + [
    7, 2, 8, 3, 2, 6, 4, 8,
    20, 0, -5, 0,
    -2, -2, -5, -7, -7, -10, -10, -15, -15, -20,
    -10, -15, 10, 20, -5, -10, -10, -15, -3, -6,
    -5, -3, 5, 3, -5, -5, -15, -10, -50, -50, 15, 0,
    5, 5, 10, 15, 5, 7, 10, 15,
    0, -10, 0, 10, 0, -10, 6, 3]

  /** The mutable evaluation state: the feature weights and the
      piece-square tables they are tuned together with. */
  datatype Params = Params(eval: seq<int>, pst: Pst.Tables)

  predicate Shaped(w: Params)
  {
    |w.eval| == EVAL_FEATURES && Pst.Shaped(w.pst)
  }

  /** The engine's state after start-up. */
  function Initial(src: Pst.Sources): (w: Params)
    requires Pst.SourcesShaped(src)
    ensures Shaped(w)
  {
    Params(EVAL_VALUES, Pst.Initialized(src))
  }

  /** `getEvalFeatureSize`: the number of feature weights. */
  function EvalFeatureSize(w: Params): (n: nat)
    requires Shaped(w)
    ensures n == EVAL_FEATURES && n == |EVAL_VALUES| && n == |BASE_EVAL_VALUES|
  {
    |w.eval|
  }

  /** `getEvalValue(f)`. */
  function EvalValue(w: Params, f: nat): int
    requires Shaped(w) && f < EVAL_FEATURES
  {
    w.eval[f]
  }

  /** `static_cast<int>` of a double: truncation toward zero. */
  function Trunc(x: real): (n: int)
    ensures 0.0 <= x ==> n as real <= x < n as real + 1.0
    ensures x < 0.0 ==> n as real - 1.0 < x <= n as real
  {
    if x >= 0.0 then x.Floor else -((-x).Floor)
  }

  /** Truncation gives back every integer it is handed. */
  lemma TruncInt(n: int)
    ensures Trunc(n as real) == n
  {
  }

  /** Integers as vector entries. */
  function Reals(s: seq<int>): (r: seq<real>)
    ensures |r| == |s| && forall i | 0 <= i < |s| :: r[i] == s[i] as real
  {
    seq(|s|, i requires 0 <= i < |s| => s[i] as real)
  }

  /** Vector entries as integers, each truncated. */
  function Truncs(s: seq<real>): (r: seq<int>)
    ensures |r| == |s| && forall i | 0 <= i < |s| :: r[i] == Trunc(s[i])
  {
    seq(|s|, i requires 0 <= i < |s| => Trunc(s[i]))
  }

  lemma TruncsReals(s: seq<int>)
    ensures Truncs(Reals(s)) == s
  {
    forall i | 0 <= i < |s| ensures Truncs(Reals(s))[i] == s[i] {
      TruncInt(s[i]);
    }
  }

  /** `getEvalValues`: the 70 weights, then the midgame and the endgame
      values of the black pieces (`getMidgameValues`, `getEndgameValues`). */
  function EvalValues(w: Params): (v: seq<real>)
    requires Shaped(w)
    ensures |v| == VECTOR_SIZE
    ensures forall f | 0 <= f < EVAL_FEATURES :: v[f] == w.eval[f] as real
    ensures forall k: nat, s: Square | k < Pst.KINDS ::
      v[MIDGAME_AT + Pst.KindSlot(k, s)] == Pst.MidgameValue(w.pst, 2 * k + 1, s) as real &&
      v[ENDGAME_AT + Pst.KindSlot(k, s)] == Pst.EndgameValue(w.pst, 2 * k + 1, s) as real
  {
    Reals(w.eval) + Reals(Pst.BlackRows(w.pst.midgame)) + Reals(Pst.BlackRows(w.pst.endgame))
  }

  /** `getBaseEvalValues`: the default weights and the black pieces' rows of
      the two base tables, in the same layout as `getEvalValues`. */
  function BaseEvalValues(w: Params): (v: seq<real>)
    requires Shaped(w)
    ensures |v| == VECTOR_SIZE
    ensures forall f | 0 <= f < EVAL_FEATURES :: v[f] == BASE_EVAL_VALUES[f] as real
    ensures forall k: nat, s: Square | k < Pst.KINDS ::
      v[MIDGAME_AT + Pst.KindSlot(k, s)] == w.pst.baseMidgame[Pst.Slot(2 * k + 1, s)] as real &&
      v[ENDGAME_AT + Pst.KindSlot(k, s)] == w.pst.baseEndgame[Pst.Slot(2 * k + 1, s)] as real
  {
    Reals(BASE_EVAL_VALUES) + Reals(Pst.BlackRows(w.pst.baseMidgame)) + Reals(Pst.BlackRows(w.pst.baseEndgame))
  }

  /** What `updateEvalValues` leaves behind: the truncated weights, and the
      midgame and endgame blocks copied into the tables in the orientation
      of `initializePst` (black piece at `j`, white twin at `63 - j`). */
  function Updated(w: Params, nv: seq<real>): (r: Params)
    requires Shaped(w) && |nv| >= VECTOR_SIZE
    ensures Shaped(r)
  {
    Params(Truncs(nv[..EVAL_FEATURES]),
           w.pst.(midgame := Pst.Filled(Truncs(nv[MIDGAME_AT..ENDGAME_AT]), true),
                  endgame := Pst.Filled(Truncs(nv[ENDGAME_AT..VECTOR_SIZE]), true)))
  }

  /** The entries `updateEvalValues` has written for kinds below `k`, and for
      squares below `j` of kind `k`. */
  ghost predicate WrittenUpTo(t: seq<int>, block: seq<int>, k: nat, j: nat)
    requires |t| == Pst.TABLE_SIZE && |block| == Pst.SOURCE_SIZE && k <= Pst.KINDS && j <= 64
  {
    (forall i: nat, s: Square | i < k ::
       t[Pst.Slot(2 * i + 1, s)] == block[Pst.KindSlot(i, s)] &&
       t[Pst.Slot(2 * i, Pst.Turn(s))] == block[Pst.KindSlot(i, s)]) &&
    (forall s: Square | s < j && k < Pst.KINDS ::
       t[Pst.Slot(2 * k + 1, s)] == block[Pst.KindSlot(k, s)] &&
       t[Pst.Slot(2 * k, Pst.Turn(s))] == block[Pst.KindSlot(k, s)])
  }

  /** A table whose every entry has been written is the filled table. */
  lemma WrittenAll(t: seq<int>, block: seq<int>)
    requires |t| == Pst.TABLE_SIZE && |block| == Pst.SOURCE_SIZE
    requires WrittenUpTo(t, block, Pst.KINDS, 0)
    ensures t == Pst.Filled(block, true)
  {
    var f := Pst.Filled(block, true);
    forall n | 0 <= n < Pst.TABLE_SIZE
      ensures t[n] == f[n]
    {
      var p, s := n / 64, n % 64;
      var k := p / 2;
      assert n == Pst.Slot(p, s);
      if p % 2 == 0 {
        assert t[Pst.Slot(2 * k, Pst.Turn(Pst.Turn(s)))] == block[Pst.KindSlot(k, Pst.Turn(s))];
      } else {
        assert t[Pst.Slot(2 * k + 1, s)] == block[Pst.KindSlot(k, s)];
      }
    }
  }

  /** Writing kind `k`'s value for square `j` to the black piece at `j` and
      to the white twin at `63 - j` extends what has been written by `j`. */
  lemma WriteTwins(t: seq<int>, block: seq<int>, k: nat, j: Square)
    requires |t| == Pst.TABLE_SIZE && |block| == Pst.SOURCE_SIZE && k < Pst.KINDS
    requires WrittenUpTo(t, block, k, j)
    ensures WrittenUpTo(t[Pst.Slot(2 * k, 63 - j) := block[Pst.KindSlot(k, j)]]
                         [Pst.Slot(2 * k + 1, j) := block[Pst.KindSlot(k, j)]], block, k, j + 1)
  {
  }

  /** One round of the inner loop of `updateEvalValues`: the four
      `set*PstValue` calls for kind `k` and square `j`. */
  method UpdateSquare(t: Pst.Tables, nv: seq<real>, k: nat, j: Square) returns (r: Pst.Tables)
    requires Pst.Shaped(t) && |nv| >= VECTOR_SIZE && k < Pst.KINDS
    requires WrittenUpTo(t.midgame, Truncs(nv[MIDGAME_AT..ENDGAME_AT]), k, j)
    requires WrittenUpTo(t.endgame, Truncs(nv[ENDGAME_AT..VECTOR_SIZE]), k, j)
    ensures Pst.Shaped(r) && r.baseMidgame == t.baseMidgame && r.baseEndgame == t.baseEndgame
    ensures WrittenUpTo(r.midgame, Truncs(nv[MIDGAME_AT..ENDGAME_AT]), k, j + 1)
    ensures WrittenUpTo(r.endgame, Truncs(nv[ENDGAME_AT..VECTOR_SIZE]), k, j + 1)
  {
    ghost var mid, end := Truncs(nv[MIDGAME_AT..ENDGAME_AT]), Truncs(nv[ENDGAME_AT..VECTOR_SIZE]);
    var mg := Trunc(nv[MIDGAME_AT + k * 64 + j]);
    var eg := Trunc(nv[ENDGAME_AT + k * 64 + j]);
    assert mg == mid[Pst.KindSlot(k, j)];
    assert eg == end[Pst.KindSlot(k, j)];
    r := Pst.SetMidgameValue(t, 2 * k, 63 - j, mg);
    r := Pst.SetMidgameValue(r, 2 * k + 1, j, mg);
    r := Pst.SetEndgameValue(r, 2 * k, 63 - j, eg);
    r := Pst.SetEndgameValue(r, 2 * k + 1, j, eg);
    WriteTwins(t.midgame, mid, k, j);
    WriteTwins(t.endgame, end, k, j);
  }

  /** The first loop of `updateEvalValues`: each weight becomes its
      truncated vector entry. */
  method TruncateWeights(eval: seq<int>, nv: seq<real>) returns (r: seq<int>)
    requires |eval| == EVAL_FEATURES && |nv| >= VECTOR_SIZE
    ensures r == Truncs(nv[..EVAL_FEATURES])
  {
    r := eval;
    var i := 0;
    while i < EVAL_FEATURES
      invariant 0 <= i <= EVAL_FEATURES && |r| == EVAL_FEATURES
      invariant forall f | 0 <= f < i :: r[f] == Trunc(nv[f])
    {
      r := r[i := Trunc(nv[i])];
      i := i + 1;
    }
  }

  /** A kind whose 64 squares have all been written is complete. */
  lemma NextKind(t: seq<int>, block: seq<int>, k: nat)
    requires |t| == Pst.TABLE_SIZE && |block| == Pst.SOURCE_SIZE && k < Pst.KINDS
    requires WrittenUpTo(t, block, k, 64)
    ensures WrittenUpTo(t, block, k + 1, 0)
  {
  }

  /** The inner loop of `updateEvalValues` for kind `k`. */
  method RewriteKind(t0: Pst.Tables, nv: seq<real>, k: nat) returns (t: Pst.Tables)
    requires Pst.Shaped(t0) && |nv| >= VECTOR_SIZE && k < Pst.KINDS
    requires WrittenUpTo(t0.midgame, Truncs(nv[MIDGAME_AT..ENDGAME_AT]), k, 0)
    requires WrittenUpTo(t0.endgame, Truncs(nv[ENDGAME_AT..VECTOR_SIZE]), k, 0)
    ensures Pst.Shaped(t) && t.baseMidgame == t0.baseMidgame && t.baseEndgame == t0.baseEndgame
    ensures WrittenUpTo(t.midgame, Truncs(nv[MIDGAME_AT..ENDGAME_AT]), k + 1, 0)
    ensures WrittenUpTo(t.endgame, Truncs(nv[ENDGAME_AT..VECTOR_SIZE]), k + 1, 0)
  {
    ghost var mid, end := Truncs(nv[MIDGAME_AT..ENDGAME_AT]), Truncs(nv[ENDGAME_AT..VECTOR_SIZE]);
    t := t0;
    var j := 0;
    while j < 64
      invariant 0 <= j <= 64 && Pst.Shaped(t)
      invariant t.baseMidgame == t0.baseMidgame && t.baseEndgame == t0.baseEndgame
      invariant WrittenUpTo(t.midgame, mid, k, j) && WrittenUpTo(t.endgame, end, k, j)
    {
      t := UpdateSquare(t, nv, k, j);
      j := j + 1;
    }
    NextKind(t.midgame, mid, k);
    NextKind(t.endgame, end, k);
  }

  /** The nested loops of `updateEvalValues` over kinds and squares. */
  method RewriteTables(t0: Pst.Tables, nv: seq<real>) returns (t: Pst.Tables)
    requires Pst.Shaped(t0) && |nv| >= VECTOR_SIZE
    ensures t == t0.(midgame := Pst.Filled(Truncs(nv[MIDGAME_AT..ENDGAME_AT]), true),
                     endgame := Pst.Filled(Truncs(nv[ENDGAME_AT..VECTOR_SIZE]), true))
  {
    ghost var mid, end := Truncs(nv[MIDGAME_AT..ENDGAME_AT]), Truncs(nv[ENDGAME_AT..VECTOR_SIZE]);
    t := t0;
    var k := 0;
    while k < Pst.KINDS
      invariant 0 <= k <= Pst.KINDS && Pst.Shaped(t)
      invariant t.baseMidgame == t0.baseMidgame && t.baseEndgame == t0.baseEndgame
      invariant WrittenUpTo(t.midgame, mid, k, 0) && WrittenUpTo(t.endgame, end, k, 0)
    {
      t := RewriteKind(t, nv, k);
      k := k + 1;
    }
    WrittenAll(t.midgame, mid);
    WrittenAll(t.endgame, end);
  }

  /** `updateEvalValues(newValues)`: the weights become the truncated first
      70 entries, and each table is rewritten from its block. */
  method UpdateEvalValues(w: Params, nv: seq<real>) returns (r: Params)
    requires Shaped(w) && |nv| >= VECTOR_SIZE
    ensures r == Updated(w, nv)
  {
    var eval := TruncateWeights(w.eval, nv);
    var t := RewriteTables(w.pst, nv);
    r := Params(eval, t);
  }

  /** After an update the white and black entries mirror each other, in
      both tables, whatever vector was written. */
  lemma UpdatedMirrored(w: Params, nv: seq<real>)
    requires Shaped(w) && |nv| >= VECTOR_SIZE
    ensures Pst.Mirrored(Updated(w, nv).pst.midgame) && Pst.Mirrored(Updated(w, nv).pst.endgame)
  {
    Pst.FilledMirrored(Truncs(nv[MIDGAME_AT..ENDGAME_AT]), true);
    Pst.FilledMirrored(Truncs(nv[ENDGAME_AT..VECTOR_SIZE]), true);
  }

  /** Writing back the vector just read changes nothing, as long as the
      tables are mirrored (as `initializePst` and every update leave them). */
  lemma UpdateWithOwnValues(w: Params)
    requires Shaped(w) && Pst.Mirrored(w.pst.midgame) && Pst.Mirrored(w.pst.endgame)
    ensures Updated(w, EvalValues(w)) == w
  {
    var v := EvalValues(w);
    var mid, end := Pst.BlackRows(w.pst.midgame), Pst.BlackRows(w.pst.endgame);
    assert v[..EVAL_FEATURES] == Reals(w.eval);
    assert v[MIDGAME_AT..ENDGAME_AT] == Reals(mid);
    assert v[ENDGAME_AT..VECTOR_SIZE] == Reals(end);
    TruncsReals(w.eval);
    TruncsReals(mid);
    TruncsReals(end);
    Pst.FilledBlackRows(w.pst.midgame);
    Pst.FilledBlackRows(w.pst.endgame);
  }
}
