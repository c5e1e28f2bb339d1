/**
 The buy page's filter effect: starting from a copy of the loaded list, it
 narrows the list once per dimension that has selected tokens, in the filter
 object's key order, then sorts the copy in place by the selected key.
 */
module Engine {
  import opened Catalog
  import opened Filtering
  import opened Sorting

  /** What the effect may hand to the page for the loaded list `all`: exactly
      the selected bikes, each as often as it was loaded, ordered by the sort
      key, or left in filter order when the key is not recognised. */
  ghost predicate IsView(all: seq<Bike>, f: Filters, sort: string, view: seq<Bike>) {
    && multiset(view) == multiset(Filtered(all, f))
    && match SortKeyOf(sort)
       case None => view == Filtered(all, f)
       case Some(k) => SortedBy(view, k)
  }

  /** The filter effect. */
  method ApplyFilters(all: seq<Bike>, filters: Filters, sort: string) returns (view: seq<Bike>)
    ensures IsView(all, filters, sort, view)
  {
    var temp := NarrowAll(all, filters);
    match SortKeyOf(sort)
    case None =>
      view := temp;
    case Some(k) =>
      var a := new Bike[|temp|](j requires 0 <= j < |temp| => temp[j]);
      assert a[..] == temp;
      SortInPlace(a, k);
      view := a[..];
  }

  /** The effect's loop over the filter object's keys: each dimension with
      selected tokens narrows the copy of the loaded list. */
  method NarrowAll(all: seq<Bike>, filters: Filters) returns (temp: seq<Bike>)
    ensures temp == Filtered(all, filters)
  {
    temp := all;
    var i := 0;
    while i < |Dimensions|
      invariant 0 <= i <= |Dimensions|
      invariant temp == Narrowed(all, filters, i)
    {
      var key := Dimensions[i];
      if Tokens(filters, key) != [] {
        temp := Keep(temp, key, Tokens(filters, key));
      }
      i := i + 1;
    }
  }

  /** The view only holds loaded bikes that every dimension admits, never more
      often than they were loaded, and every such bike is there. */
  lemma ViewIsSelection(all: seq<Bike>, f: Filters, sort: string, view: seq<Bike>, b: Bike)
    requires IsView(all, f, sort, view)
    ensures multiset(view)[b] == if Selects(f, b) then multiset(all)[b] else 0
    ensures b in view <==> b in all && Selects(f, b)
  {
    FilteredCounts(all, f, b);
    assert b in view <==> b in multiset(view);
    assert b in all <==> b in multiset(all);
  }

  /** Under a key that is not recognised the view is the selected bikes in
      their loaded order. */
  lemma UnsortedViewKeepsLoadedOrder(all: seq<Bike>, f: Filters, sort: string, view: seq<Bike>)
    requires SortKeyOf(sort) == None
    requires IsView(all, f, sort, view)
    ensures view == SelectedInOrder(all, f)
  {
    FilteredIsOnePass(all, f);
  }

  /** With nothing selected the view is the whole list, reordered by the key,
      and in its loaded order when the key is not recognised. */
  lemma EmptySelectionShowsAll(all: seq<Bike>, f: Filters, sort: string, view: seq<Bike>)
    requires forall d :: Tokens(f, d) == []
    requires IsView(all, f, sort, view)
    ensures multiset(view) == multiset(all)
    ensures SortKeyOf(sort) == None ==> view == all
  {
    EmptySelectionKeepsAll(all, f, |Dimensions|);
  }

  /** When every token selected in a categorical dimension equals no loaded
      bike's field, the view is empty. */
  lemma UnknownTokenEmptiesView(all: seq<Bike>, f: Filters, sort: string, view: seq<Bike>, d: Dimension)
    requires IsCategorical(d) && Tokens(f, d) != []
    requires forall b, t :: b in all && t in Tokens(f, d) ==> Field(d, b) != t
    requires IsView(all, f, sort, view)
    ensures view == []
  {
    UnknownCategoricalTokenEmptiesResult(all, f, d);
  }

  /** When no two loaded bikes share a price, the high-to-low view is the
      low-to-high view reversed. */
  lemma PriceViewsAreReverses(all: seq<Bike>, f: Filters, lo: seq<Bike>, hi: seq<Bike>)
    requires DistinctPrices(all)
    requires IsView(all, f, "price_low_high", lo)
    requires IsView(all, f, "price_high_low", hi)
    ensures hi == Reversed(lo)
  {
    forall x, y | x in lo && y in lo && x.price == y.price ensures x == y {
      ViewIsSelection(all, f, "price_low_high", lo, x);
      ViewIsSelection(all, f, "price_low_high", lo, y);
    }
    PriceOrdersAreReverses(lo, hi);
  }

  /** The two sample listings used below. */
  const Cheap: Bike := Bike(1, "", "", "", "", 40000, 1000, 2022, "Yamaha", "", "", "", "", false)
  const Dear: Bike := Bike(2, "", "", "", "", 120000, 30000, 2018, "Bajaj", "", "", "", "", false)

  /** Selecting the price band under 50000 and sorting newest first keeps
      only the cheap listing. */
  lemma CheapBandExample(view: seq<Bike>)
    requires IsView([Cheap, Dear], map[Price := ["<50000"]], "newest", view)
    ensures view == [Cheap]
  {
    var f := map[Price := ["<50000"]];
    assert Matches(Price, Tokens(f, Price)[0], Cheap);
    assert Selects(f, Cheap);
    assert !Passes(f, Price, Dear);
    assert multiset(view) == multiset{Cheap} by {
      forall b ensures multiset(view)[b] == multiset{Cheap}[b] {
        ViewIsSelection([Cheap, Dear], f, "newest", view, b);
      }
    }
    assert |view| == 1;
    assert view[0] in multiset(view);
  }

  /** With nothing selected, price high to low puts the dear listing first. */
  lemma HighToLowExample(view: seq<Bike>)
    requires IsView([Cheap, Dear], map[], "price_high_low", view)
    ensures view == [Dear, Cheap]
  {
    var all, sorted := [Cheap, Dear], [Dear, Cheap];
    assert SortKeyOf("price_high_low") == Some(PriceHighLow);
    assert SortedBy(view, PriceHighLow);
    EmptySelectionShowsAll(all, map[], "price_high_low", view);
    assert multiset(sorted) == multiset(all);
    assert SortedBy(sorted, PriceHighLow) by {
      assert Compare(PriceHighLow, sorted[0], sorted[1]) < 0;
    }
    assert KeyInjective(sorted, PriceHighLow) by {
      assert forall x :: x in sorted <==> x == Dear || x == Cheap;
    }
    SortedPermutationsEqual(sorted, view, PriceHighLow);
  }
}
