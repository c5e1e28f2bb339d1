/**
 The page's filter object and its one mutator, the checkbox handler: checking
 a box appends its token to that dimension's list, unchecking removes every
 occurrence of it.
 */
module Selection {
  import opened Catalog
  import opened Filtering

  /** The list with every occurrence of v removed and the rest kept in order. */
  function Without(s: seq<string>, v: string): (r: seq<string>)
    ensures |r| <= |s|
    ensures v !in r
    ensures forall x :: multiset(r)[x] == if x == v then 0 else multiset(s)[x]
  {
    if s == [] then []
    else
      assert s == [s[0]] + s[1..];
      (if s[0] == v then [] else [s[0]]) + Without(s[1..], v)
  }

  /** The new token list of the changed dimension. */
  function Toggled(tokens: seq<string>, value: string, checked: bool): seq<string> {
    if checked then tokens + [value] else Without(tokens, value)
  }

  /** Removing a token that is not there changes nothing. */
  lemma {:induction false} WithoutAbsentIsIdentity(s: seq<string>, v: string)
    requires v !in s
    ensures Without(s, v) == s
  {
    if s != [] {
      WithoutAbsentIsIdentity(s[1..], v);
    }
  }

  /** Removing a token after appending it is the same as removing it. */
  lemma {:induction false} WithoutAppended(s: seq<string>, v: string)
    ensures Without(s + [v], v) == Without(s, v)
  {
    if s == [] {
      assert [v][1..] == [];
    } else {
      assert (s + [v])[1..] == s[1..] + [v];
      WithoutAppended(s[1..], v);
    }
  }

  /** Appending a token that is not in the list and then removing it restores
      the list. */
  lemma UncheckUndoesCheck(tokens: seq<string>, v: string)
    requires v !in tokens
    ensures Toggled(Toggled(tokens, v, true), v, false) == tokens
  {
    WithoutAppended(tokens, v);
    WithoutAbsentIsIdentity(tokens, v);
  }

  /** After checking token v in dimension d, every bike v admits passes d,
      and when d already had a selection nothing it admitted is lost. */
  lemma CheckAdmits(f: Filters, d: Dimension, v: string, b: Bike)
    ensures Matches(d, v, b) ==> Passes(f[d := Tokens(f, d) + [v]], d, b)
    ensures Tokens(f, d) != [] && Passes(f, d, b) ==> Passes(f[d := Tokens(f, d) + [v]], d, b)
  {
    var g := f[d := Tokens(f, d) + [v]];
    assert Tokens(g, d) == Tokens(f, d) + [v];
    if Matches(d, v, b) {
      assert Tokens(g, d)[|Tokens(f, d)|] == v;
    }
    if Tokens(f, d) != [] && Passes(f, d, b) {
      var i :| 0 <= i < |Tokens(f, d)| && Matches(d, Tokens(f, d)[i], b);
      assert Tokens(g, d)[i] == Tokens(f, d)[i];
    }
  }

  /** After unchecking token v in dimension d, v no longer admits anything
      there: while another token remains selected, a bike passes d only
      through it; once none remains, d admits every bike. */
  lemma UncheckRemovesToken(f: Filters, d: Dimension, v: string, b: Bike)
    ensures Without(Tokens(f, d), v) != [] ==>
              (Passes(f[d := Without(Tokens(f, d), v)], d, b) ==>
                 exists t :: t in Tokens(f, d) && t != v && Matches(d, t, b))
    ensures Without(Tokens(f, d), v) == [] ==> Passes(f[d := Without(Tokens(f, d), v)], d, b)
  {
    var g := f[d := Without(Tokens(f, d), v)];
    assert Tokens(g, d) == Without(Tokens(f, d), v);
    if Tokens(g, d) != [] && Passes(g, d, b) {
      var i :| 0 <= i < |Tokens(g, d)| && Matches(d, Tokens(g, d)[i], b);
      var t := Tokens(g, d)[i];
      assert t in multiset(Tokens(g, d));
      assert t in multiset(Tokens(f, d));
    }
  }

  /** The filter state of the page: one token list per dimension. */
  class FilterSelection {
    var lists: map<Dimension, seq<string>>

    /** Every dimension has a list, as in the page's initial state. */
    ghost predicate Valid()
      reads this
    {
      forall d: Dimension :: d in lists
    }

    /** The initial state: every dimension's list is empty. */
    constructor ()
      ensures Valid()
      ensures forall d: Dimension :: lists[d] == []
    {
      var empty: map<Dimension, seq<string>> :=
        map[Price := [], Brand := [], Category := [], Year := [],
            Mileage := [], Fuel := [], Color := []];
      forall d: Dimension ensures d in empty && empty[d] == [] {
        match d
        case Price =>
        case Brand =>
        case Category =>
        case Year =>
        case Mileage =>
        case Fuel =>
        case Color =>
      }
      lists := empty;
    }

    /** The checkbox handler: appends value to dimension d's list when the box
        is checked, removes every occurrence of it otherwise; the other
        dimensions' lists are untouched. */
    method Change(d: Dimension, value: string, checked: bool)
      requires Valid()
      modifies this
      ensures Valid()
      ensures lists == old(lists)[d := Toggled(old(lists)[d], value, checked)]
      ensures checked ==> lists[d] == old(lists)[d] + [value]
      ensures !checked ==> value !in lists[d]
      ensures forall e :: e != d ==> lists[e] == old(lists)[e]
    {
      if checked {
        lists := lists[d := lists[d] + [value]];
      } else {
        lists := lists[d := Without(lists[d], value)];
      }
    }
  }
}
