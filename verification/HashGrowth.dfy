/**
 The growth policy of the hash map as arithmetic: when a table must grow, what it asks for, and
 the capacity it ends with once a number of entries has been added to it.
 */
module HashGrowth {

  /** The least growth factor with which a table grows at all. */
  const LEAST_FACTOR: real := 1.0001

  /** The growth test: `count >= capacity * grow_limit`. */
  predicate MustGrow(count: nat, capacity: nat, limit: real) {
    count as real >= capacity as real * limit
  }

  /** The capacity asked for when growing: the product truncated. */
  function Grown(capacity: nat, grow: real): (r: int) {
    (capacity as real * grow).Floor
  }

  lemma GrownIsNoSmaller(capacity: nat, grow: real)
    requires grow >= LEAST_FACTOR
    ensures Grown(capacity, grow) >= capacity
  {
    var c := capacity as real;
    assert c * grow == c + c * (grow - 1.0);
    assert c * (grow - 1.0) >= 0.0;
  }

  /** n entries can be added to an empty table without the growth test ever holding. */
  ghost predicate Fits(n: nat, capacity: nat, limit: real) {
    forall k: nat :: k < n ==> !MustGrow(k, capacity, limit)
  }

  /** The capacity after one more entry has been added to a table of n entries. */
  ghost function Step(n: nat, c: nat, limit: real, grow: real): (r: nat)
    ensures r >= c
    decreases n, 1
  {
    if MustGrow(n, c, limit) && grow >= LEAST_FACTOR then
      GrownIsNoSmaller(c, grow);
      Filled(n, Grown(c, grow), limit, grow)
    else
      c
  }

  /** The capacity of a table created with capacity c once n entries have been added to it. */
  ghost function Filled(n: nat, c: nat, limit: real, grow: real): (r: nat)
    ensures r >= c
    decreases n, 0
  {
    if n == 0 then c else Step(n - 1, Filled(n - 1, c, limit, grow), limit, grow)
  }

  /**
   If a table of n entries must grow, it has entries, its rehash ends with the capacity asked for,
   and so do the rehashes within.
   */
  ghost predicate GrowsEnough(n: nat, c: nat, limit: real, grow: real)
    decreases n, 1
  {
    MustGrow(n, c, limit) && grow >= LEAST_FACTOR ==>
      && n > 0 && Grown(c, grow) >= 0
      && Filled(n, Grown(c, grow), limit, grow) == Grown(c, grow)
      && Steady(n, Grown(c, grow), limit, grow)
  }

  /** While n entries are added to a table of capacity c, no rehash outgrows the capacity it asked for. */
  ghost predicate Steady(n: nat, c: nat, limit: real, grow: real)
    decreases n, 0
  {
    n == 0 || (
      && Steady(n - 1, c, limit, grow)
      && GrowsEnough(n - 1, Filled(n - 1, c, limit, grow), limit, grow))
  }

  lemma {:induction false} FitsIsSteady(n: nat, c: nat, limit: real, grow: real)
    requires Fits(n, c, limit)
    ensures Filled(n, c, limit, grow) == c && Steady(n, c, limit, grow)
  {
    hide MustGrow, Grown;
    if n > 0 {
      FitsIsSteady(n - 1, c, limit, grow);
    }
  }

  lemma {:induction false} NoGrowthFills(n: nat, c: nat, limit: real, grow: real)
    requires grow < LEAST_FACTOR
    ensures Filled(n, c, limit, grow) == c && Steady(n, c, limit, grow)
  {
    if n > 0 {
      NoGrowthFills(n - 1, c, limit, grow);
    }
  }

  lemma EmptyStays(c: nat, limit: real)
    requires c >= 1 && limit > 0.0
    ensures !MustGrow(0, c, limit)
  {
    assert c as real * limit >= limit;
  }

  /** A table whose growth truncates to nothing keeps its capacity, in every rehash as well. */
  lemma {:induction false} StuckIsSteady(n: nat, c: nat, limit: real, grow: real)
    requires grow >= LEAST_FACTOR && Grown(c, grow) == c && c >= 1 && limit > 0.0
    ensures Filled(n, c, limit, grow) == c && Steady(n, c, limit, grow)
  {
    hide MustGrow, Grown;
    if n > 0 {
      EmptyStays(c, limit);
      StuckIsSteady(n - 1, c, limit, grow);
    }
  }

  lemma {:induction false} SteadyPrefix(n: nat, k: nat, c: nat, limit: real, grow: real)
    requires Steady(n, c, limit, grow) && k <= n
    ensures Steady(k, c, limit, grow)
  {
    hide MustGrow, Grown, Fits, Filled;
    if k < n {
      SteadyPrefix(n - 1, k, c, limit, grow);
    }
  }

  /** What the growth amounts to never becomes smaller as the table grows. */
  lemma AmountGrows(c: nat, d: nat, grow: real)
    requires c <= d && grow >= LEAST_FACTOR
    ensures Grown(c, grow) - c <= Grown(d, grow) - d
  {
    var x, y := c as real, d as real;
    assert y * grow - x * grow == (y - x) + (y - x) * (grow - 1.0);
    assert (y - x) * (grow - 1.0) >= 0.0;
  }

  lemma FitsMore(n: nat, c: nat, d: nat, limit: real)
    requires Fits(n, c, limit) && c <= d && limit > 0.0
    ensures Fits(n, d, limit)
  {
    forall k: nat | k < n ensures !MustGrow(k, d, limit) {
      assert !MustGrow(k, c, limit);
      assert d as real * limit - c as real * limit == (d - c) as real * limit >= 0.0;
    }
  }

  /** Growing makes room for at least one more entry. */
  ghost predicate BigStep(c: nat, limit: real, grow: real) {
    (Grown(c, grow) - c) as real * limit >= 1.0
  }

  lemma BigStepStays(c: nat, d: nat, limit: real, grow: real)
    requires BigStep(c, limit, grow) && c <= d && limit > 0.0 && grow >= LEAST_FACTOR
    ensures BigStep(d, limit, grow)
  {
    hide Grown;
    AmountGrows(c, d, grow);
    ScaleUp(Grown(c, grow) - c, Grown(d, grow) - d, limit);
  }

  lemma ScaleUp(x: int, y: int, limit: real)
    requires x <= y && limit > 0.0
    ensures x as real * limit <= y as real * limit
  {
  }

  lemma RoomForOne(n: nat, c: nat, limit: real, grow: real)
    requires n > 0 && c >= 1 && limit > 0.0 && grow >= LEAST_FACTOR && Fits(n - 1, c, limit)
    requires BigStep(c, limit, grow)
    ensures Grown(c, grow) >= c && Fits(n - 1, Grown(c, grow), limit) && Fits(n, Grown(c, grow), limit)
  {
    hide Grown;
    GrownIsNoSmaller(c, grow);
    var g: nat := Grown(c, grow);
    FitsMore(n - 1, c, g, limit);
    if n > 1 {
      assert !MustGrow(n - 2, c, limit);
      assert g as real * limit == c as real * limit + (g - c) as real * limit;
    }
    assert !MustGrow(n - 1, g, limit);
  }

  /** Steps that make room for at least one more entry keep every table steady. */
  lemma {:induction false} BigStepsAreSteady(n: nat, c: nat, limit: real, grow: real)
    requires c >= 1 && limit > 0.0 && grow >= LEAST_FACTOR && BigStep(c, limit, grow)
    ensures Steady(n, c, limit, grow) && Fits(n, Filled(n, c, limit, grow), limit)
  {
    hide MustGrow, Grown, Fits, BigStep;
    if n == 0 {
      NothingFits(c, limit);
    } else {
      BigStepsAreSteady(n - 1, c, limit, grow);
      var r := Filled(n - 1, c, limit, grow);
      if MustGrow(n - 1, r, limit) {
        EmptyStays(r, limit);
        BigStepStays(c, r, limit, grow);
        RoomForOne(n, r, limit, grow);
        FitsIsSteady(n - 1, Grown(r, grow), limit, grow);
      } else {
        OneMoreFits(n, r, limit);
      }
    }
  }

  lemma NothingFits(c: nat, limit: real)
    ensures Fits(0, c, limit)
  {
  }

  lemma OneMoreFits(n: nat, c: nat, limit: real)
    requires n > 0 && Fits(n - 1, c, limit) && !MustGrow(n - 1, c, limit)
    ensures Fits(n, c, limit)
  {
  }

  // ------------------------------------------------ one entry of a rehash

  /** The table that is being filled, before and after entry number p. */
  lemma Filling(p: nat, c: nat, limit: real, grow: real)
    ensures Filled(0, c, limit, grow) == c && Fits(0, c, limit)
    ensures Filled(p + 1, c, limit, grow) == Step(p, Filled(p, c, limit, grow), limit, grow)
    ensures grow < LEAST_FACTOR ==> Filled(p, c, limit, grow) == c
    ensures Fits(p + 1, c, limit) <==> Fits(p, c, limit) && !MustGrow(p, c, limit)
  {
    hide Step, MustGrow;
    if grow < LEAST_FACTOR {
      NoGrowthFills(p, c, limit, grow);
    }
  }

  /** Why filling stopped at entry p of n: no growth was allowed, or growing outgrew its request. */
  lemma Refused(p: nat, n: nat, c: nat, limit: real, grow: real)
    requires p < n
    ensures MustGrow(p, c, limit) ==> !Fits(n, c, limit)
    ensures !GrowsEnough(p, Filled(p, c, limit, grow), limit, grow) ==> !Steady(n, c, limit, grow)
  {
    hide Filled, MustGrow, Grown, GrowsEnough;
    if Steady(n, c, limit, grow) {
      SteadyPrefix(n, p + 1, c, limit, grow);
    }
  }

  // ------------------------------------------------ tables that always have room

  /** Under the default policy, room for n entries in the capacity that comes next. */
  ghost predicate DefaultRoom(n: nat, capacity: nat) {
    (capacity == 2 && n <= 2) || (capacity >= 3 && 4 * n < 3 * (3 * capacity / 2) + 4)
  }

  /**
   A table of n entries whose rehashes never outgrow their request, now and after any additions
   and removals: growing truncates to nothing, or makes room for at least one more entry in a table
   that has room for its own, or follows the default policy.
   */
  ghost predicate AlwaysRoom(n: nat, c: nat, limit: real, grow: real) {
    && c >= 1 && limit > 0.0 && grow >= LEAST_FACTOR
    && (|| Grown(c, grow) == c
        || (BigStep(c, limit, grow) && Fits(n, c, limit))
        || (limit == 0.75 && grow == 1.5 && DefaultRoom(n, c)))
  }

  lemma DefaultGrown(capacity: nat)
    ensures Grown(capacity, 1.5) == 3 * capacity / 2
  {
    assert capacity as real * 1.5 == (3 * capacity) as real / 2.0;
    var h := 3 * capacity / 2;
    assert 3 * capacity == 2 * h || 3 * capacity == 2 * h + 1;
  }

  lemma DefaultMustGrow(n: nat, capacity: nat)
    ensures MustGrow(n, capacity, 0.75) <==> 4 * n >= 3 * capacity
  {
  }

  /** A new table under the default policy has room for good. */
  lemma DefaultHasRoom(c: nat)
    requires c >= 1
    ensures AlwaysRoom(0, c, 0.75, 1.5)
  {
    DefaultGrown(c);
  }

  lemma DefaultFits(n: nat, c: nat)
    requires DefaultRoom(n, c)
    ensures Fits(n, 3 * c / 2, 0.75)
  {
    hide MustGrow;
    forall k: nat | k < n ensures !MustGrow(k, 3 * c / 2, 0.75) {
      DefaultMustGrow(k, 3 * c / 2);
    }
  }

  /** Such a table ends a rehash with the capacity it asks for. */
  lemma RoomIsSteady(n: nat, c: nat, limit: real, grow: real)
    requires AlwaysRoom(n, c, limit, grow)
    ensures grow >= LEAST_FACTOR && Grown(c, grow) >= c && (MustGrow(n, c, limit) ==> n > 0)
    ensures Filled(n, Grown(c, grow), limit, grow) == Grown(c, grow) && Steady(n, Grown(c, grow), limit, grow)
  {
    hide Filled, Steady, MustGrow, Fits, Grown, BigStep, DefaultRoom;
    GrownIsNoSmaller(c, grow);
    EmptyStays(c, limit);
    if Grown(c, grow) == c {
      StuckIsSteady(n, c, limit, grow);
    } else {
      if BigStep(c, limit, grow) && Fits(n, c, limit) {
        FitsMore(n, c, Grown(c, grow), limit);
      } else {
        DefaultGrown(c);
        DefaultFits(n, c);
      }
      FitsIsSteady(n, Grown(c, grow), limit, grow);
    }
  }

  /** Adding an entry, or leaving it or others away, keeps the room. */
  lemma RoomKept(n: nat, m: nat, c: nat, limit: real, grow: real)
    requires AlwaysRoom(n, c, limit, grow) && m <= n + 1
    ensures AlwaysRoom(m, Step(n, c, limit, grow), limit, grow)
  {
    hide Filled, Steady, MustGrow, Fits, Grown, BigStep;
    RoomIsSteady(n, c, limit, grow);
    if Grown(c, grow) != c {
      if BigStep(c, limit, grow) && Fits(n, c, limit) {
        if MustGrow(n, c, limit) {
          RoomForOne(n + 1, c, limit, grow);
          BigStepStays(c, Grown(c, grow), limit, grow);
        } else {
          OneMoreFits(n + 1, c, limit);
        }
        FitsFewer(n + 1, m, Step(n, c, limit, grow), limit);
      } else {
        DefaultGrown(c);
        DefaultMustGrow(n, c);
      }
    }
  }

  lemma FitsFewer(n: nat, m: nat, c: nat, limit: real)
    requires Fits(n, c, limit) && m <= n
    ensures Fits(m, c, limit)
  {
  }

  lemma FewerHaveRoom(n: nat, m: nat, c: nat, limit: real, grow: real)
    requires AlwaysRoom(n, c, limit, grow) && m <= n
    ensures AlwaysRoom(m, c, limit, grow)
  {
  }
}
