/** The recommendation service: count how often each item the customer bought was
    sold, rank those items by count, drop the ones the customer already bought, and
    return up to five matching items. Every counted item is one the customer bought,
    so the exclusion removes all of them and the answer is always empty. */
module Recommendations {
  import opened Seqs
  import opened Store

  /** One recommended product, as the response lists it. */
  datatype Recommendation = Recommendation(itemId: int, name: string, pricePerItem: int)

  function RecommendationOf(it: Item): Recommendation {
    Recommendation(it.id, it.name, it.pricePerItem)
  }

  /** The ids of the items the customer has bought: the set of its sales' item ids. */
  function Purchased(sales: seq<Sale>, customerId: int): (r: set<int>)
    ensures forall id :: id in r <==> exists k :: 0 <= k < |sales| && sales[k].customerId == customerId && sales[k].itemId == id
  {
    set k | 0 <= k < |sales| && sales[k].customerId == customerId :: sales[k].itemId
  }

  /** The number of sales, by anyone, of item `itemId`. */
  function CountOf(sales: seq<Sale>, itemId: int): (r: nat)
    ensures r <= |sales|
    ensures r == 0 <==> forall k :: 0 <= k < |sales| ==> sales[k].itemId != itemId
  {
    if |sales| == 0 then 0
    else
      var init := sales[..|sales| - 1];
      assert forall k :: 0 <= k < |init| ==> init[k] == sales[k];
      CountOf(init, itemId) + (if sales[|sales| - 1].itemId == itemId then 1 else 0)
  }

  /** The counter's keys in the order they are first inserted: the item ids in
      `purchased`, each at its first sale. */
  function KeyOrder(sales: seq<Sale>, purchased: set<int>): (r: seq<int>)
    ensures forall id :: id in r <==> id in purchased && exists k :: 0 <= k < |sales| && sales[k].itemId == id
    ensures forall i, j :: 0 <= i < j < |r| ==> r[i] != r[j]
  {
    if |sales| == 0 then []
    else
      var init, id := sales[..|sales| - 1], sales[|sales| - 1].itemId;
      assert forall k :: 0 <= k < |init| ==> init[k] == sales[k];
      var keys := KeyOrder(init, purchased);
      if id in purchased && id !in keys then keys + [id] else keys
  }

  /** The counting loop: one pass over all sales, counting each sale whose item is in
      `purchased`. The map holds exactly the items met, each with its number of sales;
      the sequence holds the same items in insertion order. */
  method CountCoPurchases(sales: seq<Sale>, purchased: set<int>) returns (counts: map<int, nat>, keys: seq<int>)
    ensures keys == KeyOrder(sales, purchased)
    ensures forall id :: id in counts <==> id in keys
    ensures forall id :: id in counts ==> counts[id] == CountOf(sales, id)
  {
    counts, keys := map[], [];
    for i := 0 to |sales|
      invariant keys == KeyOrder(sales[..i], purchased)
      invariant forall id :: id in counts <==> id in keys
      invariant forall id :: id in counts ==> counts[id] == CountOf(sales[..i], id)
    {
      var id := sales[i].itemId;
      assert sales[..i + 1][..i] == sales[..i];
      if id in purchased {
        if id in counts {
          counts := counts[id := counts[id] + 1];
        } else {
          counts := counts[id := 1];
          keys := keys + [id];
        }
      }
    }
    assert sales[..|sales|] == sales;
  }

  /** Every element of `s` has a count. */
  predicate Counted(s: seq<int>, counts: map<int, nat>) {
    forall k :: 0 <= k < |s| ==> s[k] in counts
  }

  /** `s` runs from the highest count down. */
  predicate ByCountDesc(s: seq<int>, counts: map<int, nat>)
    requires Counted(s, counts)
  {
    forall i, j :: 0 <= i < j < |s| ==> counts[s[i]] >= counts[s[j]]
  }

  /** Puts `x` after every element whose count is at least its own. */
  function InsertByCount(s: seq<int>, x: int, counts: map<int, nat>): (r: seq<int>)
    requires x in counts && Counted(s, counts)
    requires ByCountDesc(s, counts)
    ensures multiset(r) == multiset(s) + multiset{x}
    ensures forall id :: id in r <==> id in s || id == x
    ensures Counted(r, counts)
    ensures ByCountDesc(r, counts)
  {
    if |s| == 0 then [x]
    else if counts[s[0]] < counts[x] then
      ConsByCount(x, s, counts);
      [x] + s
    else
      assert s == [s[0]] + s[1..];
      var rest := InsertByCount(s[1..], x, counts);
      HeadBoundsInsert(s, x, rest, counts);
      ConsByCount(s[0], rest, counts);
      [s[0]] + rest
  }

  /** A head whose count bounds the tail's keeps a descending tail descending. */
  lemma ConsByCount(h: int, tail: seq<int>, counts: map<int, nat>)
    requires h in counts && Counted(tail, counts) && ByCountDesc(tail, counts)
    requires forall k :: 0 <= k < |tail| ==> counts[h] >= counts[tail[k]]
    ensures Counted([h] + tail, counts) && ByCountDesc([h] + tail, counts)
  {
    var r := [h] + tail;
    assert forall k :: 1 <= k < |r| ==> r[k] == tail[k - 1];
  }

  /** The head of a descending sequence bounds whatever is built from its tail and a smaller `x`. */
  lemma HeadBoundsInsert(s: seq<int>, x: int, rest: seq<int>, counts: map<int, nat>)
    requires |s| > 0 && x in counts && Counted(s, counts) && ByCountDesc(s, counts)
    requires counts[s[0]] >= counts[x]
    requires forall id :: id in rest <==> id in s[1..] || id == x
    requires Counted(rest, counts)
    ensures forall k :: 0 <= k < |rest| ==> counts[s[0]] >= counts[rest[k]]
  {
    forall k | 0 <= k < |rest|
      ensures counts[s[0]] >= counts[rest[k]]
    {
      assert rest[k] in rest;
      if rest[k] != x {
        var m :| 0 <= m < |s[1..]| && s[1..][m] == rest[k];
        assert s[m + 1] == rest[k];
      }
    }
  }

  /** The stable sort by count, highest first: the same keys, reordered. */
  function SortByCount(keys: seq<int>, counts: map<int, nat>): (r: seq<int>)
    requires Counted(keys, counts)
    ensures multiset(r) == multiset(keys)
    ensures forall id :: id in r <==> id in keys
    ensures Counted(r, counts)
    ensures ByCountDesc(r, counts)
  {
    if |keys| == 0 then []
    else
      var init := keys[..|keys| - 1];
      assert keys == init + [keys[|keys| - 1]];
      assert forall k :: 0 <= k < |init| ==> init[k] == keys[k];
      InsertByCount(SortByCount(init, counts), keys[|keys| - 1], counts)
  }

  /** The whole handler. The items returned are those of the table, in table order,
      whose id is among the ranked ids not yet bought, at most five of them. Since
      every ranked id is one the customer bought, there are none. */
  method RecommendProducts(sales: seq<Sale>, items: seq<Item>, customerId: int) returns (r: seq<Recommendation>)
    ensures |r| <= 5
    ensures forall x :: x in r ==> x.itemId !in Purchased(sales, customerId) && exists it :: it in items && RecommendationOf(it) == x
    ensures r == []
  {
    var purchased := Purchased(sales, customerId);
    var counts, keys := CountCoPurchases(sales, purchased);
    var ranked := SortByCount(keys, counts);
    var unbought := Filter(ranked, (id: int) => id !in purchased);
    var chosen := Take(Filter(items, (it: Item) => it.id in unbought), 5);
    r := Map(chosen, RecommendationOf);
  }

  /** With no exclusion, the ranking puts an item sold more often before one sold less often. */
  lemma RankingOrdersBySales(sales: seq<Sale>, purchased: set<int>, counts: map<int, nat>, i: nat, j: nat)
    requires forall id :: id in counts <==> id in KeyOrder(sales, purchased)
    requires forall id :: id in counts ==> counts[id] == CountOf(sales, id)
    requires i < j < |SortByCount(KeyOrder(sales, purchased), counts)|
    ensures var ranked := SortByCount(KeyOrder(sales, purchased), counts);
            CountOf(sales, ranked[i]) >= CountOf(sales, ranked[j])
  {
    var ranked := SortByCount(KeyOrder(sales, purchased), counts);
    assert ranked[i] in ranked && ranked[j] in ranked;
  }
}
