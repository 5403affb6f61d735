/**
 * The weighted draw behind assortative partner selection: the candidates
 * with a positive weight are kept in list order in a bounded scratch pool,
 * and the first pooled candidate whose running weight exceeds draw * total
 * is chosen.
 */
module PartnerPool {
  import opened Results

  /** Capacity of the scratch pool. */
  const PS_MAX_LIST: nat := 50000

  /** A pooled candidate: its position in the candidate list and its weight. */
  datatype Scored = Scored(partner: nat, score: real)

  /** The candidates with a positive weight, in list order. */
  function Positive(s: seq<Scored>): (p: seq<Scored>)
    ensures |p| <= |s|
    ensures forall k :: 0 <= k < |p| ==> p[k].score > 0.0 && p[k] in s
    ensures forall k :: 0 <= k < |s| && s[k].score > 0.0 ==> s[k] in p
    decreases |s|
  {
    if s == [] then []
    else
      var p := Positive(s[..|s| - 1]);
      var last := s[|s| - 1];
      assert forall k :: 0 <= k < |s| - 1 ==> s[k] == s[..|s| - 1][k];
      if last.score > 0.0 then p + [last] else p
  }

  /** At most PS_MAX_LIST entries: the rest of the list is dropped. */
  function Truncate(s: seq<Scored>): seq<Scored>
  {
    if |s| <= PS_MAX_LIST then s else s[..PS_MAX_LIST]
  }

  /** One candidate offered to the pool: kept when its weight is positive and there is room. */
  function Offer(pool: seq<Scored>, x: Scored): seq<Scored>
  {
    if x.score > 0.0 && |pool| < PS_MAX_LIST then pool + [x] else pool
  }

  /** The pool after offering every candidate in list order. */
  function PoolOf(s: seq<Scored>): (pool: seq<Scored>)
    ensures |pool| <= PS_MAX_LIST
    decreases |s|
  {
    if s == [] then [] else Offer(PoolOf(s[..|s| - 1]), s[|s| - 1])
  }

  /**
   * The pool holds exactly the positively weighted candidates in list
   * order, cut off after PS_MAX_LIST of them.
   */
  lemma {:induction false} PoolIsTruncatedPositive(s: seq<Scored>)
    ensures PoolOf(s) == Truncate(Positive(s))
    decreases |s|
  {
    if s != [] {
      var init, last := s[..|s| - 1], s[|s| - 1];
      PoolIsTruncatedPositive(init);
      var p := Positive(init);
      if |p| >= PS_MAX_LIST && last.score > 0.0 {
        assert (p + [last])[..PS_MAX_LIST] == p[..PS_MAX_LIST];
      }
    }
  }

  /** Every pooled candidate has a positive weight, and the pool is bounded. */
  lemma PoolBounded(s: seq<Scored>)
    ensures |PoolOf(s)| <= PS_MAX_LIST
    ensures forall k :: 0 <= k < |PoolOf(s)| ==> PoolOf(s)[k].score > 0.0 && PoolOf(s)[k] in s
  {
    PoolIsTruncatedPositive(s);
    var p := Positive(s);
    forall k | 0 <= k < |PoolOf(s)| ensures PoolOf(s)[k].score > 0.0 && PoolOf(s)[k] in s {
      assert PoolOf(s)[k] == p[k];
      assert p[k] in p;
    }
  }

  /** The total weight of the pooled candidates. */
  function ScoreSum(s: seq<Scored>): real
    decreases |s|
  {
    if s == [] then 0.0 else ScoreSum(s[..|s| - 1]) + s[|s| - 1].score
  }

  lemma {:induction false} ScoreSumPositive(s: seq<Scored>)
    requires forall k :: 0 <= k < |s| ==> s[k].score > 0.0
    ensures |s| > 0 ==> ScoreSum(s) > 0.0
    ensures |s| == 0 ==> ScoreSum(s) == 0.0
    decreases |s|
  {
    if |s| > 1 {
      ScoreSumPositive(s[..|s| - 1]);
    }
  }

  /** Offering one more candidate extends the pool of the shorter list. */
  lemma PoolStep(s: seq<Scored>, k: nat)
    requires k < |s|
    ensures PoolOf(s[..k + 1]) == Offer(PoolOf(s[..k]), s[k])
  {
    assert s[..k + 1][..k] == s[..k];
  }

  /** Appending an entry adds its weight to the total. */
  lemma ScoreSumSnoc(p: seq<Scored>, x: Scored)
    ensures ScoreSum(p + [x]) == ScoreSum(p) + x.score
  {
    assert (p + [x])[..|p|] == p;
  }

  /** The running weight of the pool up to and including entry j. */
  function RunningSum(pool: seq<Scored>, j: nat): real
    requires j < |pool|
  {
    ScoreSum(pool[..j + 1])
  }

  /**
   * The first index at or after i whose running weight sum exceeds the
   * threshold, or None when even the whole pool does not.
   */
  function FirstAbove(pool: seq<Scored>, threshold: real, i: nat): (r: Option<nat>)
    requires i <= |pool|
    ensures r.Some? ==> i <= r.value < |pool| && RunningSum(pool, r.value) > threshold &&
                        forall j :: i <= j < r.value ==> RunningSum(pool, j) <= threshold
    ensures r.None? ==> forall j :: i <= j < |pool| ==> RunningSum(pool, j) <= threshold
    decreases |pool| - i
  {
    if i == |pool| then None
    else if RunningSum(pool, i) > threshold then Some(i)
    else FirstAbove(pool, threshold, i + 1)
  }

  /** The index chosen for a draw in [0, 1): the running sum is compared with draw * total. */
  function Choose(pool: seq<Scored>, draw: real): (r: Option<nat>)
    ensures pool == [] ==> r.None?
    ensures r.Some? ==> r.value < |pool| && RunningSum(pool, r.value) > draw * ScoreSum(pool) &&
                        forall j :: 0 <= j < r.value ==> RunningSum(pool, j) <= draw * ScoreSum(pool)
    ensures r.None? ==> forall j :: 0 <= j < |pool| ==> RunningSum(pool, j) <= draw * ScoreSum(pool)
  {
    FirstAbove(pool, Scale(draw, ScoreSum(pool)), 0)
  }

  /** The point of the total weight that the draw lands on. */
  function Scale(draw: real, total: real): real
  {
    draw * total
  }

  /** An empty pool chooses nobody. */
  lemma EmptyPoolChoosesNobody(draw: real)
    ensures Choose([], draw) == None
  {
  }

  /**
   * A non-empty pool of positive weights always chooses someone for a draw
   * in [0, 1), and the one chosen has a positive weight.
   */
  lemma NonEmptyPoolChooses(pool: seq<Scored>, draw: real)
    requires forall k :: 0 <= k < |pool| ==> pool[k].score > 0.0
    requires |pool| > 0 && 0.0 <= draw < 1.0
    ensures Choose(pool, draw).Some?
    ensures pool[Choose(pool, draw).value].score > 0.0
  {
    ScoreSumPositive(pool);
    WholeAboveDraw(pool, draw);
  }

  /** A draw below 1 is exceeded somewhere in a pool of positive total weight. */
  lemma WholeAboveDraw(pool: seq<Scored>, draw: real)
    requires |pool| > 0 && ScoreSum(pool) > 0.0 && 0.0 <= draw < 1.0
    ensures FirstAbove(pool, Scale(draw, ScoreSum(pool)), 0).Some?
  {
    BelowWhole(draw, ScoreSum(pool));
    var last := |pool| - 1;
    assert pool[..last + 1] == pool;
    assert RunningSum(pool, last) > Scale(draw, ScoreSum(pool));
  }

  lemma BelowWhole(draw: real, total: real)
    requires 0.0 <= draw < 1.0 && total > 0.0
    ensures Scale(draw, total) < total
  {
    var rest := 1.0 - draw;
    assert rest > 0.0;
    assert rest * total > 0.0;
    assert total - draw * total == rest * total;
  }

  /** A zero-weight candidate of the list is never chosen from its pool. */
  lemma ChosenHasPositiveWeight(s: seq<Scored>, draw: real)
    ensures var pool := PoolOf(s);
            Choose(pool, draw).Some? ==>
              pool[Choose(pool, draw).value] in s && pool[Choose(pool, draw).value].score > 0.0
  {
    PoolBounded(s);
  }

  /** The worked example: weights 1 and 3; a draw of 0.2 picks the first, 0.5 the second. */
  lemma ChooseExample()
    ensures Choose([Scored(1, 1.0), Scored(2, 3.0)], 0.2) == Some(0)
    ensures Choose([Scored(1, 1.0), Scored(2, 3.0)], 0.5) == Some(1)
  {
    var pool := [Scored(1, 1.0), Scored(2, 3.0)];
    assert pool[..1] == [Scored(1, 1.0)] && pool[..1][..0] == [];
    assert pool[..2] == pool && pool[..2][..1] == pool[..1];
  }
}
