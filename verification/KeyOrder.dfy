/** The order of the keys of an associative array in numbers: how large the table is, and where each key stands. */
module KeyOrder {
  import opened AssocCodec
  import opened KeyHash
  import opened AssocOrder

  predicate Ascending(items: seq<nat>) { forall a, b | 0 <= a < b < |items| :: items[a] < items[b] }

  predicate Descending(items: seq<nat>) { forall a, b | 0 <= a < b < |items| :: items[a] > items[b] }

  lemma {:induction false} ChainDescends(hs: seq<nat>, items: seq<nat>, n: nat, b: nat)
    requires n > 0 && Ascending(items)
    ensures var chain := Chain(hs, items, n, b);
            Descending(chain) && forall i | i in chain :: i in items
  {
    assert Chain(hs, [], n, b) == [];
    hide BucketOf, Chain;
    if items != [] {
      var rest, x := items[..|items| - 1], items[|items| - 1];
      assert items == rest + [x];
      ChainDescends(hs, rest, n, b);
      ChainSnoc(hs, rest, x, n, b);
      var front := Chain(hs, rest, n, b);
      AllBelow(items, front);
      AboveAll(x, front);
      assert [] + front == front;
    }
  }

  lemma AllBelow(items: seq<nat>, front: seq<nat>)
    requires items != [] && Ascending(items) && forall i | i in front :: i in items[..|items| - 1]
    ensures forall i | i in front :: i in items && i < items[|items| - 1]
  {
    forall i | i in front ensures i in items && i < items[|items| - 1] {
      var k :| 0 <= k < |items| - 1 && items[..|items| - 1][k] == i;
      assert items[k] == i;
    }
  }

  lemma AboveAll(x: nat, front: seq<nat>)
    requires Descending(front) && forall i | i in front :: i < x
    ensures Descending([x] + front)
  {
    assert forall k | 0 <= k < |front| :: front[k] in front;
  }

  /** Where two items stand in the listing of buckets that each hold descending items. */
  lemma {:induction false} FlattenOrders(hs: seq<nat>, buckets: seq<seq<nat>>, n: nat, a: nat, b: nat)
    requires n > 0 && a < b < |Flatten(buckets)|
    requires forall i | 0 <= i < |buckets| :: Descending(buckets[i])
    requires forall i, item | 0 <= i < |buckets| && item in buckets[i] :: BucketOf(hs, item, n) == i
    ensures var x, y := Flatten(buckets)[a], Flatten(buckets)[b];
            && BucketOf(hs, y, n) < |buckets|
            && (BucketOf(hs, x, n) < BucketOf(hs, y, n) || (BucketOf(hs, x, n) == BucketOf(hs, y, n) && x > y))
  {
    hide BucketOf;
    var m := |buckets| - 1;
    var front := Flatten(buckets[..m]);
    assert Flatten(buckets) == front + buckets[m];
    if b < |front| {
      FlattenOrders(hs, buckets[..m], n, a, b);
    } else {
      assert Flatten(buckets)[b] == buckets[m][b - |front|] && buckets[m][b - |front|] in buckets[m];
      if a < |front| {
        FlattenAscends(hs, buckets[..m], n, a, a);
      } else {
        assert Flatten(buckets)[a] == buckets[m][a - |front|] && buckets[m][a - |front|] in buckets[m];
        assert Descending(buckets[m]);
      }
    }
  }

  /** Up to 2048 items stay in the 1024 buckets that the table starts with. */
  lemma {:induction false} SmallTable(hs: seq<nat>, items: seq<nat>)
    requires |items| <= 2048
    ensures TableAfter(hs, items) == Table(Chains(hs, items, 1024), |items|)
  {
    hide Chain, BucketOf, Grown;
    if items == [] {
      NoChains(hs);
    } else {
      var m := |items| - 1;
      SmallTable(hs, items[..m]);
      ChainsStep(hs, items, 1024);
    }
  }

  lemma NoChains(hs: seq<nat>)
    ensures EmptyTable() == Table(Chains(hs, [], 1024), 0)
  {
    assert forall b | 0 <= b < 1024 :: Chain(hs, [], 1024, b) == [];
  }

  /** A table of `n` buckets with `count` items: the size it starts with, or four times a size that was too small. */
  predicate RightSize(n: nat, count: nat) {
    count <= 2 * n && (n == 1024 || (n % 4 == 0 && n / 4 >= 1024 && count > 2 * (n / 4)))
  }

  lemma RightSizeKept(n: nat, count: nat)
    requires RightSize(n, count)
    ensures RightSize(if count >= 2 * n then 4 * n else n, count + 1)
  {
    assert 4 * n % 4 == 0 && 4 * n / 4 == n;
  }

  /** The table grows only when it holds twice as many items as buckets, and then fourfold. */
  lemma {:induction false} TableSize(hs: seq<nat>, items: seq<nat>)
    ensures TableAfter(hs, items).count == |items|
    ensures RightSize(|TableAfter(hs, items).buckets|, |items|)
  {
    hide BucketOf, Flatten, Chain, Inserted, Roomy, RightSize;
    if items == [] {
      NoChains(hs);
      assert RightSize(1024, 0) by { SizeAtStart(); }
    } else {
      var before := TableAfter(hs, items[..|items| - 1]);
      TableSize(hs, items[..|items| - 1]);
      RoomySize(hs, before);
      InsertedSize(hs, Roomy(hs, before), items[|items| - 1]);
      RightSizeKept(|before.buckets|, before.count);
    }
  }

  lemma SizeAtStart()
    ensures RightSize(1024, 0)
  {
  }

  lemma RoomySize(hs: seq<nat>, t: Table)
    requires |t.buckets| > 0
    ensures var r := Roomy(hs, t);
            && r.count == t.count
            && |r.buckets| == if t.count >= 2 * |t.buckets| then 4 * |t.buckets| else |t.buckets|
  {
    hide Chain, Flatten;
  }

  lemma InsertedSize(hs: seq<nat>, t: Table, item: nat)
    requires |t.buckets| > 0
    ensures var r := Inserted(hs, t, item); r.count == t.count + 1 && |r.buckets| == |t.buckets|
  {
  }

  function HashOf(es: seq<Entry>, i: nat): nat
    requires i < |es|
  {
    HashBytes(Bytes(es[i].0))
  }

  lemma OrderIsSmall(es: seq<Entry>)
    requires |FirstIndices(es)| <= 2048
    ensures Order(es) == Flatten(Chains(Hashes(es), FirstIndices(es), 1024))
  {
    hide Chains, Flatten;
    SmallTable(Hashes(es), FirstIndices(es));
  }

  /** With at most 2048 different keys, one key is listed before another exactly when its hash modulo 1024 is smaller,
      or when these are equal and it was entered later. */
  lemma KeysOrdered(es: seq<Entry>, p: nat, q: nat)
    requires |FirstIndices(es)| <= 2048 && p < |Order(es)| && q < |Order(es)| && p != q
    ensures var a, b := Order(es)[p], Order(es)[q];
            p < q <==>
            HashOf(es, a) % 1024 < HashOf(es, b) % 1024
            || (HashOf(es, a) % 1024 == HashOf(es, b) % 1024 && a > b)
  {
    ListedInOrder(es, if p < q then p else q, if p < q then q else p);
  }

  lemma ListedInOrder(es: seq<Entry>, p: nat, q: nat)
    requires |FirstIndices(es)| <= 2048 && p < q < |Order(es)|
    ensures var a, b := Order(es)[p], Order(es)[q];
            HashOf(es, a) % 1024 < HashOf(es, b) % 1024
            || (HashOf(es, a) % 1024 == HashOf(es, b) % 1024 && a > b)
  {
    var hs, unique := Hashes(es), FirstIndices(es);
    var buckets := Chains(hs, unique, 1024);
    OrderIsSmall(es);
    FirstIndicesAre(es);
    forall i | 0 <= i < 1024 ensures Descending(buckets[i]) { ChainDescends(hs, unique, 1024, i); }
    ChainsKeep(hs, unique, 1024);
    hide Order, FirstIndices, Flatten, Chains, HashBytes, Bytes;
    FlattenOrders(hs, buckets, 1024, p, q);
  }

  /** The keys `two` and `0`, entered in this order, are listed the other way round. */
  lemma TwoAndZero(a: string, b: string)
    ensures Order([("two", a), ("0", b)]) == [1, 0]
  {
    var es := [("two", a), ("0", b)];
    TheirHashes(a, b);
    assert es[0].0 != es[1].0 by { assert |"two"| == 3 && |"0"| == 1; }
    hide *;
    TwoListed(es);
    if Order(es)[0] == 0 { KeysOrdered(es, 0, 1); }
  }

  lemma TheirHashes(a: string, b: string)
    ensures var es := [("two", a), ("0", b)]; HashOf(es, 0) % 1024 == 541 && HashOf(es, 1) % 1024 == 303
  {
    hide HashBytes, Bytes;
    HashValues();
  }

  /** Two entries with different keys are both listed. */
  lemma TwoListed(es: seq<Entry>)
    requires |es| == 2 && es[0].0 != es[1].0
    ensures |FirstIndices(es)| <= 2048
    ensures Order(es) == [0, 1] || Order(es) == [1, 0]
  {
    hide Order;
    var order := Order(es);
    assert |FirstIndices(es)| <= 2 by { hide *; FewFirstIndices(es); }
    forall i: nat ensures multiset(order)[i] == multiset{0, 1}[i] {
      OrderListsFirstOccurrences(es, i);
      assert FirstOf(es, i) <==> i < 2;
    }
    assert multiset(order) == multiset{0, 1};
    assert |order| == |multiset(order)| == 2;
    assert order[0] in multiset(order) && order[1] in multiset(order);
    assert order == [order[0], order[1]];
    assert multiset([order[0], order[1]])[order[0]] == 1;
  }

  lemma {:induction false} FewFirstIndices(es: seq<Entry>)
    ensures |FirstIndices(es)| <= |es|
  {
    if es != [] { FewFirstIndices(es[..|es| - 1]); }
  }
}
