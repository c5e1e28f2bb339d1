/**
 The sorting half of the buy page's filter effect: the comparator behind each
 sort key, the in-place sort of the filtered list, and what a sorted
 permutation is determined by.
 */
module Sorting {
  import opened Catalog

  /** The comparator the page hands to the array sort for key k: a negative
      value puts a before b. */
  function Compare(k: SortKey, a: Bike, b: Bike): int {
    match k
    case Newest => b.year - a.year
    case PriceLowHigh => a.price - b.price
    case PriceHighLow => b.price - a.price
    case MileageLowHigh => a.mileage - b.mileage
  }

  /** No later element should come before an earlier one under key k. */
  predicate SortedBy(s: seq<Bike>, k: SortKey) {
    forall p, q :: 0 <= p < q < |s| ==> Compare(k, s[p], s[q]) <= 0
  }

  /** What sortedness under each key means in terms of the bike's fields. */
  lemma SortedByMeans(s: seq<Bike>, k: SortKey)
    ensures k == Newest ==>
              (SortedBy(s, k) <==> forall p, q :: 0 <= p < q < |s| ==> s[p].year >= s[q].year)
    ensures k == PriceLowHigh ==>
              (SortedBy(s, k) <==> forall p, q :: 0 <= p < q < |s| ==> s[p].price <= s[q].price)
    ensures k == PriceHighLow ==>
              (SortedBy(s, k) <==> forall p, q :: 0 <= p < q < |s| ==> s[p].price >= s[q].price)
    ensures k == MileageLowHigh ==>
              (SortedBy(s, k) <==> forall p, q :: 0 <= p < q < |s| ==> s[p].mileage <= s[q].mileage)
  {
  }

  /** Sorts the array in place under key k (insertion sort). */
  method SortInPlace(a: array<Bike>, k: SortKey)
    modifies a
    ensures SortedBy(a[..], k)
    ensures multiset(a[..]) == multiset(old(a[..]))
  {
    var i := 0;
    while i < a.Length
      invariant 0 <= i <= a.Length
      invariant forall p, q :: 0 <= p < q < i ==> Compare(k, a[p], a[q]) <= 0
      invariant multiset(a[..]) == multiset(old(a[..]))
    {
      Insert(a, i, k);
      i := i + 1;
    }
  }

  /** Moves a[i] left past every larger element, so that a[..i+1] becomes
      sorted when a[..i] was. */
  method Insert(a: array<Bike>, i: nat, k: SortKey)
    requires i < a.Length
    requires forall p, q :: 0 <= p < q < i ==> Compare(k, a[p], a[q]) <= 0
    modifies a
    ensures forall p, q :: 0 <= p < q <= i ==> Compare(k, a[p], a[q]) <= 0
    ensures multiset(a[..]) == multiset(old(a[..]))
  {
    var j := i;
    while j > 0 && Compare(k, a[j - 1], a[j]) > 0
      invariant 0 <= j <= i
      invariant forall p, q :: 0 <= p < q <= i && p != j && q != j ==> Compare(k, a[p], a[q]) <= 0
      invariant forall q :: j < q <= i ==> Compare(k, a[j], a[q]) <= 0
      invariant multiset(a[..]) == multiset(old(a[..]))
    {
      Swap(a, j - 1, j);
      j := j - 1;
    }
  }

  /** Exchanges two elements. */
  method Swap(a: array<Bike>, i: nat, j: nat)
    requires i < j < a.Length
    modifies a
    ensures a[i] == old(a[j]) && a[j] == old(a[i])
    ensures forall m :: 0 <= m < a.Length && m != i && m != j ==> a[m] == old(a[m])
    ensures multiset(a[..]) == multiset(old(a[..]))
  {
    a[i], a[j] := a[j], a[i];
  }

  /** Elements that compare equal under key k are the same record. */
  ghost predicate KeyInjective(s: seq<Bike>, k: SortKey) {
    forall x, y :: x in s && y in s && Compare(k, x, y) == 0 ==> x == y
  }

  /** Two sortings of the same bikes start with the same bike when no two
      different bikes tie. */
  lemma SortedHeadsEqual(a: seq<Bike>, b: seq<Bike>, k: SortKey)
    requires a != [] && multiset(a) == multiset(b)
    requires SortedBy(a, k) && SortedBy(b, k)
    requires KeyInjective(a, k)
    ensures b != [] && a[0] == b[0]
  {
    assert a[0] in multiset(b);
    var j :| 0 <= j < |b| && b[j] == a[0];
    assert b[0] in multiset(a);
    var i :| 0 <= i < |a| && a[i] == b[0];
    assert Compare(k, a[0], a[i]) <= 0;
    assert Compare(k, b[0], b[j]) <= 0;
  }

  /** Removing equal heads from equal multisets leaves equal multisets. */
  lemma TailsPermuted(a: seq<Bike>, b: seq<Bike>)
    requires a != [] && b != [] && a[0] == b[0]
    requires multiset(a) == multiset(b)
    ensures multiset(a[1..]) == multiset(b[1..])
  {
    assert a == [a[0]] + a[1..] && b == [b[0]] + b[1..];
    assert multiset(a[1..]) == multiset(a) - multiset{a[0]};
    assert multiset(b[1..]) == multiset(b) - multiset{b[0]};
  }

  /** The tail of a sorted list is sorted and keeps distinct keys distinct. */
  lemma SortedTail(a: seq<Bike>, k: SortKey)
    requires a != [] && SortedBy(a, k) && KeyInjective(a, k)
    ensures SortedBy(a[1..], k) && KeyInjective(a[1..], k)
  {
    var t := a[1..];
    forall p, q | 0 <= p < q < |t| ensures Compare(k, t[p], t[q]) <= 0 {
      assert t[p] == a[p + 1] && t[q] == a[q + 1];
    }
    forall x, y | x in t && y in t && Compare(k, x, y) == 0 ensures x == y {
      assert x in a && y in a;
    }
  }

  /** Two sortings of the same bikes agree when no two different bikes tie. */
  lemma {:induction false} SortedPermutationsEqual(a: seq<Bike>, b: seq<Bike>, k: SortKey)
    requires multiset(a) == multiset(b)
    requires SortedBy(a, k) && SortedBy(b, k)
    requires KeyInjective(a, k)
    ensures a == b
  {
    if a != [] {
      SortedHeadsEqual(a, b, k);
      TailsPermuted(a, b);
      SortedTail(a, k);
      assert SortedBy(b[1..], k) by {
        forall p, q | 0 <= p < q < |b[1..]| ensures Compare(k, b[1..][p], b[1..][q]) <= 0 {
          assert b[1..][p] == b[p + 1] && b[1..][q] == b[q + 1];
        }
      }
      SortedPermutationsEqual(a[1..], b[1..], k);
      assert a == [a[0]] + a[1..] && b == [b[0]] + b[1..];
    }
  }

  /** The list in reverse order. */
  function Reversed(s: seq<Bike>): (r: seq<Bike>)
    ensures |r| == |s|
    ensures forall i :: 0 <= i < |s| ==> r[i] == s[|s| - 1 - i]
    ensures multiset(r) == multiset(s)
  {
    if s == [] then []
    else
      assert s == [s[0]] + s[1..];
      Reversed(s[1..]) + [s[0]]
  }

  /** No two different bikes share a price. */
  ghost predicate DistinctPrices(s: seq<Bike>) {
    forall x, y :: x in s && y in s && x.price == y.price ==> x == y
  }

  /** Reversing a low-to-high price order gives a high-to-low one. */
  lemma ReversedLowHighIsHighLow(lo: seq<Bike>)
    requires SortedBy(lo, PriceLowHigh)
    ensures SortedBy(Reversed(lo), PriceHighLow)
  {
    var r, n := Reversed(lo), |lo|;
    forall p, q | 0 <= p < q < n ensures Compare(PriceHighLow, r[p], r[q]) <= 0 {
      assert r[p] == lo[n - 1 - p] && r[q] == lo[n - 1 - q];
      assert Compare(PriceLowHigh, lo[n - 1 - q], lo[n - 1 - p]) <= 0;
    }
  }

  /** Distinct prices make the high-to-low comparator tie only equal bikes. */
  lemma DistinctPricesInjective(s: seq<Bike>, t: seq<Bike>)
    requires DistinctPrices(s) && multiset(t) == multiset(s)
    ensures KeyInjective(t, PriceHighLow)
  {
    forall x, y | x in t && y in t && Compare(PriceHighLow, x, y) == 0 ensures x == y {
      assert x in multiset(t) && y in multiset(t);
    }
  }

  /** For bikes with distinct prices, the high-to-low order is the reverse of
      the low-to-high order. */
  lemma PriceOrdersAreReverses(lo: seq<Bike>, hi: seq<Bike>)
    requires multiset(lo) == multiset(hi)
    requires SortedBy(lo, PriceLowHigh) && SortedBy(hi, PriceHighLow)
    requires DistinctPrices(lo)
    ensures hi == Reversed(lo)
  {
    ReversedLowHighIsHighLow(lo);
    DistinctPricesInjective(lo, Reversed(lo));
    SortedPermutationsEqual(Reversed(lo), hi, PriceHighLow);
  }
}
