/**
 The filtering half of the buy page's filter effect: the predicate that decides
 whether one selected token admits a bike, the per-dimension narrowing
 (tokens OR-combined) and the narrowing over all dimensions (AND-combined).
 */
module Filtering {
  import opened Catalog

  /** The page's filter object: the selected tokens of each dimension. */
  type Filters = map<Dimension, seq<string>>

  /** The tokens selected in one dimension; a key that is absent is never
      visited by the effect, which is the same as selecting nothing. */
  function Tokens(f: Filters, d: Dimension): seq<string> {
    if d in f then f[d] else []
  }

  /** The three band tokens the range dimensions recognise, in display order. */
  function Bands(d: Dimension): seq<string>
    requires IsRange(d)
  {
    match d
    case Price => ["<50000", "50000-100000", ">100000"]
    case Mileage => ["<5000", "5000-20000", ">20000"]
    case Year => ["<2015", "2015-2019", "2020-2024"]
  }

  /** Whether one selected token of dimension d admits bike b. Range tokens
      decode to fixed bands; any other token in a range dimension admits
      nothing. Categorical tokens compare case-sensitively with the field. */
  predicate Matches(d: Dimension, token: string, b: Bike) {
    match d
    case Price =>
      if token == "<50000" then b.price < 50000
      else if token == "50000-100000" then 50000 <= b.price <= 100000
      else if token == ">100000" then b.price > 100000
      else false
    case Mileage =>
      if token == "<5000" then b.mileage < 5000
      else if token == "5000-20000" then 5000 <= b.mileage <= 20000
      else if token == ">20000" then b.mileage > 20000
      else false
    case Year =>
      if token == "<2015" then b.year < 2015
      else if token == "2015-2019" then 2015 <= b.year <= 2019
      else if token == "2020-2024" then 2020 <= b.year <= 2024
      else false
    case _ => Field(d, b) == token
  }

  /** Some selected token admits b (the tokens of one dimension are OR-combined). */
  predicate AnyMatches(d: Dimension, tokens: seq<string>, b: Bike) {
    exists i :: 0 <= i < |tokens| && Matches(d, tokens[i], b)
  }

  /** Dimension d does not exclude b: nothing is selected in it, or some
      selected token admits b. */
  predicate Passes(f: Filters, d: Dimension, b: Bike) {
    Tokens(f, d) == [] || AnyMatches(d, Tokens(f, d), b)
  }

  /** Every dimension admits b (the dimensions are AND-combined). */
  predicate Selects(f: Filters, b: Bike) {
    forall d: Dimension :: Passes(f, d, b)
  }

  /** The first n dimensions, in the effect's visiting order, admit b. */
  predicate PassesFirst(f: Filters, n: nat, b: Bike)
    requires n <= |Dimensions|
  {
    forall i :: 0 <= i < n ==> Passes(f, Dimensions[i], b)
  }

  /** One `filter` call of the effect: keeps, in order, the bikes that some
      token of dimension d admits (order: see FilteredIsOnePass). */
  function Keep(s: seq<Bike>, d: Dimension, tokens: seq<string>): seq<Bike> {
    if s == [] then []
    else (if AnyMatches(d, tokens, s[0]) then [s[0]] else []) + Keep(s[1..], d, tokens)
  }

  /** A filter call keeps each admitted bike as often as it occurs, and drops
      every other bike. */
  lemma {:induction false} KeepCounts(s: seq<Bike>, d: Dimension, tokens: seq<string>, b: Bike)
    ensures multiset(Keep(s, d, tokens))[b] == if AnyMatches(d, tokens, b) then multiset(s)[b] else 0
  {
    if s != [] {
      assert s == [s[0]] + s[1..];
      KeepCounts(s[1..], d, tokens, b);
    }
  }

  /** The list after the effect has visited the first n dimensions. */
  function Narrowed(all: seq<Bike>, f: Filters, n: nat): seq<Bike>
    requires n <= |Dimensions|
  {
    if n == 0 then all
    else
      var prev := Narrowed(all, f, n - 1);
      var d := Dimensions[n - 1];
      if Tokens(f, d) != [] then Keep(prev, d, Tokens(f, d)) else prev
  }

  /** Passing the first n dimensions is passing the first n - 1 and the n-th. */
  lemma PassesFirstStep(f: Filters, n: nat, b: Bike)
    requires 0 < n <= |Dimensions|
    ensures PassesFirst(f, n, b) <==> PassesFirst(f, n - 1, b) && Passes(f, Dimensions[n - 1], b)
  {
  }

  /** After n dimensions a bike occurs as often as it was loaded when each of
      them passes it, and not at all otherwise. */
  lemma {:induction false} NarrowedCounts(all: seq<Bike>, f: Filters, n: nat, b: Bike)
    requires n <= |Dimensions|
    ensures multiset(Narrowed(all, f, n))[b] == if PassesFirst(f, n, b) then multiset(all)[b] else 0
  {
    if n > 0 {
      var prev := Narrowed(all, f, n - 1);
      var d := Dimensions[n - 1];
      NarrowedCounts(all, f, n - 1, b);
      PassesFirstStep(f, n, b);
      if Tokens(f, d) != [] {
        KeepCounts(prev, d, Tokens(f, d), b);
        assert Passes(f, d, b) == AnyMatches(d, Tokens(f, d), b);
      } else {
        assert Passes(f, d, b);
      }
    }
  }

  /** The list after all dimensions have been visited. */
  function Filtered(all: seq<Bike>, f: Filters): seq<Bike> {
    Narrowed(all, f, |Dimensions|)
  }

  /** One pass over s keeping, in order, the bikes the first n dimensions pass. */
  function PassingFirst(s: seq<Bike>, f: Filters, n: nat): seq<Bike>
    requires n <= |Dimensions|
  {
    if s == [] then []
    else (if PassesFirst(f, n, s[0]) then [s[0]] else []) + PassingFirst(s[1..], f, n)
  }

  /** One pass over s keeping, in order, the bikes every dimension admits. */
  function SelectedInOrder(s: seq<Bike>, f: Filters): seq<Bike> {
    if s == [] then []
    else (if Selects(f, s[0]) then [s[0]] else []) + SelectedInOrder(s[1..], f)
  }

  /** Passing no dimension at all keeps everything. */
  lemma {:induction false} PassingFirstZero(s: seq<Bike>, f: Filters)
    ensures PassingFirst(s, f, 0) == s
  {
    if s != [] {
      PassingFirstZero(s[1..], f);
      assert s == [s[0]] + s[1..];
    }
  }

  /** A dimension with selected tokens narrows the one-pass result by Keep. */
  lemma {:induction false} PassingFirstNarrowed(s: seq<Bike>, f: Filters, n: nat, d: Dimension)
    requires 0 < n <= |Dimensions| && d == Dimensions[n - 1] && Tokens(f, d) != []
    ensures PassingFirst(s, f, n) == Keep(PassingFirst(s, f, n - 1), d, Tokens(f, d))
  {
    if s != [] {
      var x, rest := s[0], PassingFirst(s[1..], f, n - 1);
      PassingFirstNarrowed(s[1..], f, n, d);
      PassesFirstStep(f, n, x);
      assert Passes(f, d, x) == AnyMatches(d, Tokens(f, d), x);
      if PassesFirst(f, n - 1, x) {
        assert PassingFirst(s, f, n - 1) == [x] + rest;
        assert ([x] + rest)[0] == x && ([x] + rest)[1..] == rest;
      } else {
        assert PassingFirst(s, f, n - 1) == rest;
      }
    }
  }

  /** A dimension without selected tokens leaves the one-pass result alone. */
  lemma {:induction false} PassingFirstUnconstrained(s: seq<Bike>, f: Filters, n: nat)
    requires 0 < n <= |Dimensions| && Tokens(f, Dimensions[n - 1]) == []
    ensures PassingFirst(s, f, n) == PassingFirst(s, f, n - 1)
  {
    if s != [] {
      PassingFirstUnconstrained(s[1..], f, n);
      PassesFirstStep(f, n, s[0]);
    }
  }

  /** The effect's narrowing after n dimensions is one order-keeping pass. */
  lemma {:induction false} NarrowedIsOnePass(all: seq<Bike>, f: Filters, n: nat)
    requires n <= |Dimensions|
    ensures Narrowed(all, f, n) == PassingFirst(all, f, n)
  {
    if n == 0 {
      PassingFirstZero(all, f);
    } else {
      NarrowedIsOnePass(all, f, n - 1);
      var d := Dimensions[n - 1];
      if Tokens(f, d) != [] {
        PassingFirstNarrowed(all, f, n, d);
      } else {
        PassingFirstUnconstrained(all, f, n);
      }
    }
  }

  /** Passing the seven visited dimensions in one pass is selecting in one pass. */
  lemma {:induction false} PassingAllIsSelected(s: seq<Bike>, f: Filters)
    ensures PassingFirst(s, f, |Dimensions|) == SelectedInOrder(s, f)
  {
    if s != [] {
      PassesAllIsSelects(f, s[0]);
      PassingAllIsSelected(s[1..], f);
    }
  }

  /** Narrowing dimension by dimension equals a single AND-filter over the
      loaded list: the result keeps the selected bikes in their loaded order. */
  lemma FilteredIsOnePass(all: seq<Bike>, f: Filters)
    ensures Filtered(all, f) == SelectedInOrder(all, f)
  {
    NarrowedIsOnePass(all, f, |Dimensions|);
    PassingAllIsSelected(all, f);
  }

  /** Visiting all seven dimensions is exactly the AND over every dimension. */
  lemma PassesAllIsSelects(f: Filters, b: Bike)
    ensures PassesFirst(f, |Dimensions|, b) <==> Selects(f, b)
  {
    if PassesFirst(f, |Dimensions|, b) {
      forall d: Dimension ensures Passes(f, d, b) {
        DimensionsListsEveryDimension(d);
      }
    }
  }

  /** Filtering only removes: a bike occurs in the result as often as in the
      loaded list when every dimension admits it, and not at all otherwise. */
  lemma FilteredCounts(all: seq<Bike>, f: Filters, b: Bike)
    ensures multiset(Filtered(all, f))[b] == if Selects(f, b) then multiset(all)[b] else 0
  {
    NarrowedCounts(all, f, |Dimensions|, b);
    PassesAllIsSelects(f, b);
  }

  /** With every token list empty the effect keeps the whole list, in order. */
  lemma {:induction false} EmptySelectionKeepsAll(all: seq<Bike>, f: Filters, n: nat)
    requires n <= |Dimensions|
    requires forall d :: Tokens(f, d) == []
    ensures Narrowed(all, f, n) == all
  {
    if n > 0 {
      EmptySelectionKeepsAll(all, f, n - 1);
    }
  }

  /** A token list that admits no loaded bike empties the result, whatever the
      other dimensions select. */
  lemma NoMatchEmptiesResult(all: seq<Bike>, f: Filters, d: Dimension)
    requires Tokens(f, d) != []
    requires forall b :: b in all ==> !AnyMatches(d, Tokens(f, d), b)
    ensures Filtered(all, f) == []
  {
    var r := Filtered(all, f);
    forall x ensures multiset(r)[x] == 0 {
      FilteredCounts(all, f, x);
      if x in all {
        assert !Passes(f, d, x);
      }
    }
    assert multiset(r) == multiset{};
  }

  /** Hence when every token selected in a categorical dimension equals no
      loaded bike's field (a brand the catalogue does not carry, or a different
      letter case) the result is empty. One such token next to a token that
      does occur empties nothing, as the tokens are OR-combined. */
  lemma UnknownCategoricalTokenEmptiesResult(all: seq<Bike>, f: Filters, d: Dimension)
    requires IsCategorical(d) && Tokens(f, d) != []
    requires forall b, t :: b in all && t in Tokens(f, d) ==> Field(d, b) != t
    ensures Filtered(all, f) == []
  {
    forall b | b in all ensures !AnyMatches(d, Tokens(f, d), b) {
      forall i | 0 <= i < |Tokens(f, d)| ensures !Matches(d, Tokens(f, d)[i], b) {
        assert Tokens(f, d)[i] in Tokens(f, d);
      }
    }
    NoMatchEmptiesResult(all, f, d);
  }

  /** Number of the given tokens that admit b. */
  function MatchCount(d: Dimension, tokens: seq<string>, b: Bike): nat {
    if tokens == [] then 0
    else (if Matches(d, tokens[0], b) then 1 else 0) + MatchCount(d, tokens[1..], b)
  }

  /** The price bands and the mileage bands each partition the integers:
      every bike lies in exactly one band. */
  lemma PriceAndMileageBandsPartition(d: Dimension, b: Bike)
    requires d == Price || d == Mileage
    ensures MatchCount(d, Bands(d), b) == 1
  {
    var t := Bands(d);
    assert MatchCount(d, t[2..], b) == if Matches(d, t[2], b) then 1 else 0 by {
      assert t[2..][1..] == [];
    }
    assert t[1..][1..] == t[2..];
  }

  /** The year bands cover exactly the years up to 2024, each once; a later
      year lies in no band. */
  lemma YearBandsStopAt2024(b: Bike)
    ensures MatchCount(Year, Bands(Year), b) == if b.year <= 2024 then 1 else 0
  {
    var t := Bands(Year);
    assert MatchCount(Year, t[2..], b) == if Matches(Year, t[2], b) then 1 else 0 by {
      assert t[2..][1..] == [];
    }
    assert t[1..][1..] == t[2..];
  }

  /** A token of a range dimension that is not one of its bands admits nothing,
      and a year after 2024 is admitted by no token at all. */
  lemma RangeTokensOutsideBandsMatchNothing(d: Dimension, token: string, b: Bike)
    requires IsRange(d)
    ensures token !in Bands(d) ==> !Matches(d, token, b)
    ensures d == Year && b.year > 2024 ==> !Matches(d, token, b)
  {
  }
}
