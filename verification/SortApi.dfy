/** The public entry points: which routine runs, what it returns, and that the choice does not matter. */
module SortApi {
  import opened Ordering
  import HeapSort
  import QuickSort
  import RadixPass
  import RadixSort
  import SignedRadix
  import SimpleSorts

  datatype Algorithm = Bubble | Heap | Insert | Quick | Select | Radix | Unknown
  datatype Status = Ok | InvalidArgument | NotSupported
  datatype Callback<!T> = Null | Compare(cmp: (T, T) -> int)

  /** Routines that read the first element unconditionally, or count down from count - 1. */
  predicate NeedsElement(algorithm: Algorithm) {
    algorithm in {Heap, Quick, Select, Radix}
  }

  lemma WholeArray<T>(s: seq<T>, t: seq<T>, less: (T, T) -> bool)
    requires PermutedWithin(s, t, 0, |s|) && SortedWithin(t, 0, |t|, less)
    ensures Sorted(t, less) && Permutation(s, t)
  {
    assert s[0..|s|] == s && t[0..|t|] == t;
  }

  /** The comparison routines, on one strict order. */
  method SortBy<T(!new)>(a: array<T>, algorithm: Algorithm, less: (T, T) -> bool)
    requires StrictWeakOrder(less)
    requires algorithm != Radix && algorithm != Unknown
    requires NeedsElement(algorithm) ==> a.Length >= 1
    modifies a
    ensures Sorted(a[..], less)
    ensures Permutation(old(a[..]), a[..])
    ensures algorithm == Bubble || algorithm == Insert ==> Stable(old(a[..]), a[..], less)
  {
    hide StrictWeakOrder, PermutedWithin, SortedWithin, Sorted, Permutation, Stable;
    match algorithm {
      case Bubble => SimpleSorts.BubbleSort(a, less);
      case Heap => HeapSort.Sort(a, less);
      case Insert => SimpleSorts.InsertionSort(a, less);
      case Quick => QuickSort.Sort(a, 0, a.Length - 1, less);
      case Select => SimpleSorts.SelectionSort(a, less);
    }
    WholeArray(old(a[..]), a[..], less);
  }

  /** xtSortP; xtSortStr is the instance whose comparator is strcmp on the pointed-to strings. */
  method SortP<T(!new)>(a: array<T>, algorithm: Algorithm, callback: Callback<T>, ascend: bool, elemSize: nat)
    returns (status: Status)
    requires callback.Compare? ==> TotalPreorder(callback.cmp)
    requires callback.Compare? && elemSize > 0 && algorithm != Radix && NeedsElement(algorithm) ==> a.Length >= 1
    modifies a
    ensures status == InvalidArgument <==> callback.Null? || elemSize == 0 || algorithm == Unknown
    ensures status == NotSupported <==> callback.Compare? && elemSize > 0 && algorithm == Radix
    ensures status != Ok ==> a[..] == old(a[..])
    ensures status == Ok ==> Sorted(a[..], Before(callback.cmp, ascend)) && Permutation(old(a[..]), a[..])
    ensures status == Ok && (algorithm == Bubble || algorithm == Insert) ==>
              Stable(old(a[..]), a[..], Before(callback.cmp, ascend))
    ensures status == Ok ==> multiset(a[..]) == multiset(old(a[..]))
    ensures status == Ok ==>
              forall i, j :: 0 <= i < j < a.Length ==>
                if ascend then callback.cmp(a[i], a[j]) <= 0 else callback.cmp(a[i], a[j]) >= 0
  {
    hide StrictWeakOrder, TotalPreorder, Sorted, Permutation, Before, Stable;
    if callback.Null? || elemSize == 0 {
      return InvalidArgument;
    }
    match algorithm {
      case Radix => return NotSupported;
      case Unknown => return InvalidArgument;
      case _ =>
        BeforeIsStrictWeakOrder(callback.cmp, ascend);
        SortBy(a, algorithm, Before(callback.cmp, ascend));
        InCallbackOrder(old(a[..]), a[..], callback.cmp, ascend);
        return Ok;
    }
  }

  /** Sorted in terms of the callback itself. */
  lemma InCallbackOrder<T(!new)>(orig: seq<T>, s: seq<T>, cmp: (T, T) -> int, ascend: bool)
    requires TotalPreorder(cmp) && Sorted(s, Before(cmp, ascend)) && Permutation(orig, s)
    ensures multiset(s) == multiset(orig)
    ensures forall i, j :: 0 <= i < j < |s| ==> if ascend then cmp(s[i], s[j]) <= 0 else cmp(s[i], s[j]) >= 0
  {
    forall i, j | 0 <= i < j < |s| ensures if ascend then cmp(s[i], s[j]) <= 0 else cmp(s[i], s[j]) >= 0 {
      assert !Before(cmp, ascend)(s[j], s[i]);
    }
  }

  /** Sorted in terms of the numbers themselves. */
  lemma InNumericOrder(orig: seq<int>, s: seq<int>, ascend: bool)
    requires Sorted(s, Numeric(ascend)) && Permutation(orig, s)
    ensures multiset(s) == multiset(orig)
    ensures forall i, j :: 0 <= i < j < |s| ==> if ascend then s[i] <= s[j] else s[i] >= s[j]
  {
    forall i, j | 0 <= i < j < |s| ensures if ascend then s[i] <= s[j] else s[i] >= s[j] {
      assert !Numeric(ascend)(s[j], s[i]);
    }
  }

  lemma NaturalIsNumeric(s: seq<nat>, ascend: bool)
    requires Sorted(s, RadixSort.Natural(ascend))
    ensures Sorted<int>(s, Numeric(ascend))
  {
  }

  /** xtSortU: the radix case needs the range that its divisor can cover. */
  method SortU(a: array<nat>, algorithm: Algorithm, ascend: bool) returns (status: Status)
    requires NeedsElement(algorithm) ==> a.Length >= 1
    requires algorithm == Radix ==> forall i :: 0 <= i < a.Length ==> a[i] < RadixSort.LIMIT
    modifies a
    ensures status == if algorithm == Unknown then InvalidArgument else Ok
    ensures status != Ok ==> a[..] == old(a[..])
    ensures status == Ok ==> Sorted<int>(a[..], Numeric(ascend)) && Permutation<int>(old(a[..]), a[..])
    ensures status == Ok ==> multiset(a[..]) == multiset(old(a[..]))
    ensures status == Ok ==>
              forall i, j :: 0 <= i < j < a.Length ==> if ascend then a[i] <= a[j] else a[i] >= a[j]
  {
    match algorithm {
      case Radix => RadixSort.Sort(a, ascend);
      case Unknown => return InvalidArgument;
      case _ => SortBy(a, algorithm, RadixSort.Natural(ascend));
    }
    NaturalIsNumeric(a[..], ascend);
    InNumericOrder(old(a[..]), a[..], ascend);
    return Ok;
  }

  /**
   xtSortD on any int. The signed radix sort is asked for with a maximum below 10^9, where no
   product of it leaves int, and negative elements that keep it inside its counters; what it
   makes of the list is then determined, and sorted exactly if the non-positive elements
   were given in ascending order.
   */
  method SortD(a: array<int>, algorithm: Algorithm, ascend: bool) returns (status: Status)
    requires NeedsElement(algorithm) ==> a.Length >= 1
    requires algorithm == Radix ==> SignedRadix.Inside(a[..]) && forall i :: 0 <= i < a.Length ==> a[i] < 1000000000
    modifies a
    ensures status == if algorithm == Unknown then InvalidArgument else Ok
    ensures status != Ok ==> a[..] == old(a[..])
    ensures status == Ok ==> Permutation(old(a[..]), a[..])
    ensures status == Ok && algorithm != Radix ==> Sorted(a[..], Numeric(ascend))
    ensures status == Ok ==> multiset(a[..]) == multiset(old(a[..]))
    ensures status == Ok && (algorithm == Radix ==> forall i :: 0 <= i < a.Length ==> old(a[i]) >= 0) ==>
              forall i, j :: 0 <= i < j < a.Length ==> if ascend then a[i] <= a[j] else a[i] >= a[j]
    ensures algorithm == Radix ==>
              && SignedRadix.Result(old(a[..]), a[..], ascend)
              && (Sorted(a[..], Numeric(ascend)) <==> Sorted(SignedRadix.NonPositive(old(a[..])), Numeric(true)))
  {
    hide SignedRadix.Result, SignedRadix.Inside, SignedRadix.NonPositive, Sorted, Permutation;
    match algorithm {
      case Radix =>
        SignedRadix.Sort(a, ascend);
        SignedRadix.SortedExactly(old(a[..]), a[..], ascend);
        if forall i :: 0 <= i < a.Length ==> old(a[i]) >= 0 {
          SignedRadix.NaturalsAreSorted(old(a[..]));
          InNumericOrder(old(a[..]), a[..], ascend);
        }
      case Unknown => return InvalidArgument;
      case _ =>
        NumericOrder(ascend);
        SortBy(a, algorithm, Numeric(ascend));
        InNumericOrder(old(a[..]), a[..], ascend);
    }
    SameElements(old(a[..]), a[..]);
    return Ok;
  }

  lemma SameElements(s: seq<int>, t: seq<int>)
    requires Permutation(s, t)
    ensures multiset(t) == multiset(s)
  {
  }

  /** Radix sorting -1 and -5 reports success and leaves them in this order. */
  method SilentlyUnsorted() returns (a: array<int>, status: Status)
    ensures status == Ok && a[..] == [-1, -5] && !Sorted(a[..], Numeric(true))
  {
    a := new int[][-1, -5];
    assert a[..] == [-1, -5];
    SignedRadix.NothingPositive(a[..], a[..]);
    status := SortD(a, Radix, true);
    SignedRadix.NothingPositive([-1, -5], a[..]);
    assert Numeric(true)(a[1], a[0]);
  }

  /**
   Whatever algorithm is asked for, a sorted result is the same list of integers: two sorted
   results of SortD or SortU for one input are equal.
   */
  lemma AlgorithmsAgree(input: seq<int>, s: seq<int>, t: seq<int>, ascend: bool)
    requires Sorted(s, Numeric(ascend)) && Permutation(input, s)
    requires Sorted(t, Numeric(ascend)) && Permutation(input, t)
    ensures s == t
  {
    SortedIsUnique(s, t, Numeric(ascend));
  }

  /** The two stable routines agree on any elements, however the callback ties them. */
  lemma StableAlgorithmsAgree<T(!new)>(input: seq<T>, s: seq<T>, t: seq<T>, cmp: (T, T) -> int, ascend: bool)
    requires TotalPreorder(cmp)
    requires Sorted(s, Before(cmp, ascend)) && Stable(input, s, Before(cmp, ascend))
    requires Sorted(t, Before(cmp, ascend)) && Stable(input, t, Before(cmp, ascend))
    ensures s == t
  {
    hide TotalPreorder, Sorted, Stable, Before;
    var less := Before(cmp, ascend);
    BeforeIsStrictWeakOrder(cmp, ascend);
    StableSymmetric(input, s, less);
    StableTransitive(s, input, t, less);
    StableIsUnique(s, t, less);
  }

  /** Ascending and descending results of one list are reversals of each other. */
  lemma DescendingIsReversed(input: seq<int>, s: seq<int>, t: seq<int>)
    requires Sorted(s, Numeric(true)) && Permutation(input, s)
    requires Sorted(t, Numeric(false)) && Permutation(input, t)
    ensures |s| == |t| && forall k :: 0 <= k < |s| ==> t[k] == s[|s| - 1 - k]
  {
    assert |s| == |multiset(s)| == |multiset(t)| == |t|;
    var r := seq(|t|, k requires 0 <= k < |t| => t[|t| - 1 - k]);
    RadixPass.ReversalPermutes(t, r);
    SortedIsUnique(s, r, Numeric(true));
    assert forall k :: 0 <= k < |t| ==> t[k] == r[|t| - 1 - k];
  }
}
