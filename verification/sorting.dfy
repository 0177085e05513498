/** The final `sort_values(ascending=False)` of hodlx.py:115: holdings ordered
    by weight, largest first. Ties may come out in any order, so only the
    order of weights and the permutation are promised.
 */
module Sorting {
  /** One row of the output Series: an asset symbol and its weight. */
  datatype Holding = Holding(symbol: string, weight: real)

  /** Each holding weighs at least as much as the next one. */
  predicate Descending(s: seq<Holding>) {
    forall i :: 0 < i < |s| ==> s[i - 1].weight >= s[i].weight
  }

  /** Neighbour order is order: in a descending sequence every holding weighs
      at least as much as every later one. */
  lemma {:induction false} DescendingOrdered(s: seq<Holding>)
    requires Descending(s)
    ensures forall i, j :: 0 <= i < j < |s| ==> s[i].weight >= s[j].weight
  {
    if |s| > 1 {
      DescendingOrdered(s[1..]);
      forall i, j | 0 <= i < j < |s|
        ensures s[i].weight >= s[j].weight
      {
        if i > 0 {
          assert s[1..][i - 1] == s[i] && s[1..][j - 1] == s[j];
        } else if j > 1 {
          assert s[1..][0] == s[1] && s[1..][j - 1] == s[j];
        }
      }
    }
  }

  /** Total weight of the holdings. */
  function TotalWeight(s: seq<Holding>): real {
    if |s| == 0 then 0.0 else s[0].weight + TotalWeight(s[1..])
  }

  /** The symbols of the holdings, as a bag. */
  function SymbolBag(s: seq<Holding>): multiset<string> {
    if |s| == 0 then multiset{} else multiset{s[0].symbol} + SymbolBag(s[1..])
  }

  /** Insert one holding in front of the first holding that weighs no more
      than it. */
  function Insert(h: Holding, s: seq<Holding>): (r: seq<Holding>)
    ensures |r| == |s| + 1
    ensures r[0] == h || (|s| > 0 && r[0] == s[0])
    ensures multiset(r) == multiset(s) + multiset{h}
  {
    if |s| == 0 then [h]
    else if h.weight >= s[0].weight then
      [h] + s
    else
      assert s == [s[0]] + s[1..];
      [s[0]] + Insert(h, s[1..])
  }

  /** Inserting into a descending sequence keeps it descending. */
  lemma {:induction false} InsertKeepsOrder(h: Holding, s: seq<Holding>)
    requires Descending(s)
    ensures Descending(Insert(h, s))
  {
    if |s| > 0 && h.weight < s[0].weight {
      var t := Insert(h, s[1..]);
      InsertKeepsOrder(h, s[1..]);
      var r := Insert(h, s);
      assert r == [s[0]] + t;
      forall i | 0 < i < |r|
        ensures r[i - 1].weight >= r[i].weight
      {
        if i > 1 {
          assert r[i - 1] == t[i - 2] && r[i] == t[i - 1];
        }
      }
    }
  }

  /** Inserting adds the holding's symbol to the symbols. */
  lemma {:induction false} InsertKeepsSymbols(h: Holding, s: seq<Holding>)
    ensures SymbolBag(Insert(h, s)) == SymbolBag(s) + multiset{h.symbol}
  {
    var r := Insert(h, s);
    if |s| == 0 {
      assert r == [h];
    } else if h.weight >= s[0].weight {
      assert r[1..] == s;
    } else {
      InsertKeepsSymbols(h, s[1..]);
      assert r[1..] == Insert(h, s[1..]);
    }
  }

  /** Inserting adds the holding's weight to the total. */
  lemma {:induction false} InsertKeepsWeight(h: Holding, s: seq<Holding>)
    ensures TotalWeight(Insert(h, s)) == h.weight + TotalWeight(s)
  {
    var r := Insert(h, s);
    if |s| == 0 {
      assert r == [h];
    } else if h.weight >= s[0].weight {
      assert r[1..] == s;
    } else {
      InsertKeepsWeight(h, s[1..]);
      assert r[1..] == Insert(h, s[1..]);
    }
  }

  /** Sort holdings by weight, descending (insertion sort). */
  function SortDescending(s: seq<Holding>): (r: seq<Holding>)
    ensures |r| == |s|
    ensures Descending(r)
    ensures multiset(r) == multiset(s)
  {
    if |s| == 0 then []
    else
      var t := SortDescending(s[1..]);
      assert multiset(s) == multiset(s[1..]) + multiset{s[0]} by {
        assert s == [s[0]] + s[1..];
      }
      InsertKeepsOrder(s[0], t);
      Insert(s[0], t)
  }

  /** Sorting keeps the symbols. */
  lemma {:induction false} SortKeepsSymbols(s: seq<Holding>)
    ensures SymbolBag(SortDescending(s)) == SymbolBag(s)
  {
    if |s| > 0 {
      var t := SortDescending(s[1..]);
      assert SortDescending(s) == Insert(s[0], t);
      SortKeepsSymbols(s[1..]);
      InsertKeepsSymbols(s[0], t);
    }
  }

  /** Sorting keeps the total weight. */
  lemma {:induction false} SortKeepsWeight(s: seq<Holding>)
    ensures TotalWeight(SortDescending(s)) == TotalWeight(s)
  {
    if |s| > 0 {
      var t := SortDescending(s[1..]);
      assert SortDescending(s) == Insert(s[0], t);
      SortKeepsWeight(s[1..]);
      InsertKeepsWeight(s[0], t);
    }
  }
}
