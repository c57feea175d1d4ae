/** Iteration order of associative arrays: hashed keys in a growing table of buckets. */
module AssocOrder {
  import opened Text
  import opened AssocCodec
  import opened KeyHash

  // ----- Bucket table

  function FirstIndices(es: seq<Entry>): (unique: seq<nat>)
    ensures forall i | i in unique :: i < |es|
  {
    if es == [] then []
    else
      var n := |es| - 1;
      FirstIndices(es[..n]) + if exists j :: 0 <= j < n && es[j].0 == es[n].0 then [] else [n]
  }

  function Hashes(es: seq<Entry>): seq<nat> { seq(|es|, i requires 0 <= i < |es| => HashBytes(Bytes(es[i].0))) }

  /** The bucket of an entry index, given the hash of every entry; only such indices are ever inserted. */
  function BucketOf(hs: seq<nat>, item: nat, n: nat): (b: nat)
    requires n > 0
    ensures b < n
  {
    if item < |hs| then hs[item] % n else 0
  }

  function Flatten(buckets: seq<seq<nat>>): seq<nat> {
    if buckets == [] then [] else Flatten(buckets[..|buckets| - 1]) + buckets[|buckets| - 1]
  }

  /** The items that hash to bucket `b` of `n`, the latest first. */
  function Chain(hs: seq<nat>, items: seq<nat>, n: nat, b: nat): seq<nat>
    requires n > 0
  {
    if items == [] then []
    else
      var last := items[|items| - 1];
      (if BucketOf(hs, last, n) == b then [last] else []) + Chain(hs, items[..|items| - 1], n, b)
  }

  function Chains(hs: seq<nat>, items: seq<nat>, n: nat): (t: seq<seq<nat>>)
    requires n > 0
    ensures |t| == n
  {
    seq(n, b requires 0 <= b < n => Chain(hs, items, n, b))
  }

  datatype Table = Table(buckets: seq<seq<nat>>, count: nat)

  ghost predicate PowerOfTwo(n: nat) { exists k: nat :: n == Pow2(k) }

  /** What holds of the table at every step. */
  ghost predicate Valid(hs: seq<nat>, t: Table) {
    && PowerOfTwo(|t.buckets|)
    && (forall b, item | 0 <= b < |t.buckets| && item in t.buckets[b] ::
          BucketOf(hs, item, |t.buckets|) == b)
    && t.count == |Flatten(t.buckets)|
    && t.count <= 2 * |t.buckets|
  }

  const START: nat := 1024

  function Grown(hs: seq<nat>, t: Table): Table
    requires |t.buckets| > 0
  {
    t.(buckets := Chains(hs, Flatten(t.buckets), 4 * |t.buckets|))
  }

  function Roomy(hs: seq<nat>, t: Table): (r: Table)
    requires |t.buckets| > 0
    ensures |r.buckets| > 0
  {
    if t.count >= 2 * |t.buckets| then Grown(hs, t) else t
  }

  function Inserted(hs: seq<nat>, t: Table, item: nat): Table
    requires |t.buckets| > 0
  {
    var b := BucketOf(hs, item, |t.buckets|);
    Table(t.buckets[b := [item] + t.buckets[b]], t.count + 1)
  }

  // ----- The table is valid at every step and holds exactly what was inserted

  lemma FlattenLast(buckets: seq<seq<nat>>)
    requires buckets != []
    ensures var n := |buckets| - 1;
            && |Flatten(buckets)| == |Flatten(buckets[..n])| + |buckets[n]|
            && multiset(Flatten(buckets)) == multiset(Flatten(buckets[..n])) + multiset(buckets[n])
  {
  }

  lemma {:induction false} FlattenPrepend(buckets: seq<seq<nat>>, b: nat, item: nat)
    requires b < |buckets|
    ensures multiset(Flatten(buckets[b := [item] + buckets[b]])) == multiset(Flatten(buckets)) + multiset{item}
    ensures |Flatten(buckets[b := [item] + buckets[b]])| == |Flatten(buckets)| + 1
  {
    hide Flatten;
    var n := |buckets| - 1;
    var changed := buckets[b := [item] + buckets[b]];
    FlattenLast(buckets);
    FlattenLast(changed);
    if b < n {
      FlattenPrepend(buckets[..n], b, item);
      assert changed[..n] == buckets[..n][b := [item] + buckets[b]];
    } else {
      assert changed[..n] == buckets[..n];
      assert multiset([item] + buckets[n]) == multiset{item} + multiset(buckets[n]);
    }
  }

  lemma {:induction false} FlattenEmpty(buckets: seq<seq<nat>>)
    requires forall b | 0 <= b < |buckets| :: buckets[b] == []
    ensures Flatten(buckets) == []
  {
    if buckets != [] { FlattenEmpty(buckets[..|buckets| - 1]); }
  }

  lemma {:induction false} ChainsStep(hs: seq<nat>, items: seq<nat>, n: nat)
    requires n > 0 && items != []
    ensures var m := |items| - 1;
            var b := BucketOf(hs, items[m], n);
            Chains(hs, items, n) == Chains(hs, items[..m], n)[b := [items[m]] + Chains(hs, items[..m], n)[b]]
  {
    var m := |items| - 1;
    forall b | 0 <= b < n
      ensures var front := Chain(hs, items[..m], n, b);
              Chain(hs, items, n, b) == if b == BucketOf(hs, items[m], n) then [items[m]] + front else front
    {
      assert [] + Chain(hs, items[..m], n, b) == Chain(hs, items[..m], n, b);
    }
  }

  lemma {:induction false} ChainsHome(hs: seq<nat>, items: seq<nat>, n: nat, b: nat, item: nat)
    requires n > 0 && item in Chain(hs, items, n, b)
    ensures BucketOf(hs, item, n) == b
  {
    var m := |items| - 1;
    if item in Chain(hs, items[..m], n, b) { ChainsHome(hs, items[..m], n, b, item); }
  }

  lemma {:induction false} ChainsCount(hs: seq<nat>, items: seq<nat>, n: nat)
    requires n > 0
    ensures multiset(Flatten(Chains(hs, items, n))) == multiset(items) && |Flatten(Chains(hs, items, n))| == |items|
  {
    hide BucketOf;
    if items == [] {
      FlattenEmpty(Chains(hs, items, n));
    } else {
      var m := |items| - 1;
      ChainsCount(hs, items[..m], n);
      ChainsStep(hs, items, n);
      FlattenPrepend(Chains(hs, items[..m], n), BucketOf(hs, items[m], n), items[m]);
      assert items == items[..m] + [items[m]];
    }
  }

  lemma ChainsKeep(hs: seq<nat>, items: seq<nat>, n: nat)
    requires n > 0
    ensures var t := Chains(hs, items, n);
            && multiset(Flatten(t)) == multiset(items) && |Flatten(t)| == |items|
            && forall b, item | 0 <= b < n && item in t[b] :: BucketOf(hs, item, n) == b
  {
    ChainsCount(hs, items, n);
    forall b, item | 0 <= b < n && item in Chains(hs, items, n)[b] ensures BucketOf(hs, item, n) == b {
      ChainsHome(hs, items, n, b, item);
    }
  }

  lemma {:induction false} GrownKeeps(hs: seq<nat>, t: Table)
    requires Valid(hs, t)
    ensures var r := Grown(hs, t);
            && Valid(hs, r)
            && multiset(Flatten(r.buckets)) == multiset(Flatten(t.buckets))
            && |r.buckets| == 4 * |t.buckets|
  {
    Quadrupled(|t.buckets|);
    ChainsKeep(hs, Flatten(t.buckets), 4 * |t.buckets|);
  }

  lemma {:induction false} RoomyKeeps(hs: seq<nat>, t: Table)
    requires Valid(hs, t)
    ensures var r := Roomy(hs, t);
            Valid(hs, r) && multiset(Flatten(r.buckets)) == multiset(Flatten(t.buckets)) && r.count < 2 * |r.buckets|
  {
    if t.count >= 2 * |t.buckets| { GrownKeeps(hs, t); }
  }

  lemma {:induction false} InsertedKeeps(hs: seq<nat>, t: Table, item: nat)
    requires Valid(hs, t) && t.count < 2 * |t.buckets|
    ensures var r := Inserted(hs, t, item);
            Valid(hs, r) && multiset(Flatten(r.buckets)) == multiset(Flatten(t.buckets)) + multiset{item}
  {
    FlattenPrepend(t.buckets, BucketOf(hs, item, |t.buckets|), item);
  }

  function EmptyTable(): Table { Table(seq(START, _ => []), 0) }

  lemma EmptyValid(hs: seq<nat>)
    ensures Valid(hs, EmptyTable()) && Flatten(EmptyTable().buckets) == []
  {
    FlattenEmpty(EmptyTable().buckets);
    assert Pow2(5) == 32;
    assert Pow2(10) == START;
  }

  /** The table after the given items have been inserted one by one. */
  function TableAfter(hs: seq<nat>, items: seq<nat>): (t: Table)
    ensures |t.buckets| > 0
  {
    if items == [] then EmptyTable()
    else Inserted(hs, Roomy(hs, TableAfter(hs, items[..|items| - 1])), items[|items| - 1])
  }

  lemma {:induction false} TableKeeps(hs: seq<nat>, items: seq<nat>)
    ensures var t := TableAfter(hs, items); Valid(hs, t) && multiset(Flatten(t.buckets)) == multiset(items)
  {
    hide Chains, BucketOf, Flatten, Valid, Grown, EmptyTable;
    EmptyValid(hs);
    if items != [] {
      var m := |items| - 1;
      var before := TableAfter(hs, items[..m]);
      TableKeeps(hs, items[..m]);
      RoomyKeeps(hs, before);
      InsertedKeeps(hs, Roomy(hs, before), items[m]);
      assert items == items[..m] + [items[m]];
    }
  }

  // ----- Rehashing

  function Reverse(s: seq<nat>): seq<nat> { if s == [] then [] else [s[|s| - 1]] + Reverse(s[..|s| - 1]) }

  function Selected(hs: seq<nat>, items: seq<nat>, n: nat, b: nat): seq<nat>
    requires n > 0
  {
    if items == [] then []
    else
      var last := items[|items| - 1];
      Selected(hs, items[..|items| - 1], n, b) + if BucketOf(hs, last, n) == b then [last] else []
  }

  lemma {:induction false} ReverseSnoc(s: seq<nat>, x: nat)
    ensures Reverse(s + [x]) == [x] + Reverse(s)
  {
    assert (s + [x])[..|s|] == s;
  }

  lemma {:induction false} ChainReverses(hs: seq<nat>, items: seq<nat>, n: nat, b: nat)
    requires n > 0
    ensures Chain(hs, items, n, b) == Reverse(Selected(hs, items, n, b))
  {
    hide BucketOf;
    if items != [] {
      var m := |items| - 1;
      ChainReverses(hs, items[..m], n, b);
      var front := Selected(hs, items[..m], n, b);
      ReverseSnoc(front, items[m]);
      assert front + [] == front && [] + Chain(hs, items[..m], n, b) == Chain(hs, items[..m], n, b);
    }
  }

  lemma ChainSnoc(hs: seq<nat>, items: seq<nat>, x: nat, n: nat, b: nat)
    requires n > 0
    ensures Chain(hs, items + [x], n, b) == (if BucketOf(hs, x, n) == b then [x] else []) + Chain(hs, items, n, b)
  {
    hide BucketOf;
    assert (items + [x])[..|items|] == items;
  }

  lemma {:induction false} ChainAppend(hs: seq<nat>, xs: seq<nat>, ys: seq<nat>, n: nat, b: nat)
    requires n > 0
    ensures Chain(hs, xs + ys, n, b) == Chain(hs, ys, n, b) + Chain(hs, xs, n, b)
  {
    assert Chain(hs, [], n, b) == [];
    hide BucketOf, Chain;
    if ys == [] {
      assert xs + ys == xs && [] + Chain(hs, xs, n, b) == Chain(hs, xs, n, b);
    } else {
      var front, y := ys[..|ys| - 1], ys[|ys| - 1];
      ChainAppend(hs, xs, front, n, b);
      ChainSnoc(hs, xs + front, y, n, b);
      ChainSnoc(hs, front, y, n, b);
      Regrouped(xs, front, [y]);
      assert ys == front + [y];
      Regrouped(if BucketOf(hs, y, n) == b then [y] else [], Chain(hs, front, n, b), Chain(hs, xs, n, b));
    }
  }

  lemma Regrouped(a: seq<nat>, b: seq<nat>, c: seq<nat>)
    ensures a + b + c == a + (b + c)
  {
  }

  lemma {:induction false} ChainEmpty(hs: seq<nat>, items: seq<nat>, n: nat, b: nat)
    requires n > 0 && forall i | i in items :: BucketOf(hs, i, n) != b
    ensures Chain(hs, items, n, b) == []
  {
    if items != [] { ChainEmpty(hs, items[..|items| - 1], n, b); }
  }

  lemma {:induction false} SmallerBucket(hs: seq<nat>, item: nat, n: nat)
    requires n > 0
    ensures BucketOf(hs, item, n) == BucketOf(hs, item, 4 * n) % n
  {
    if item < |hs| { RemainderOfRemainder(hs[item], n); }
  }

  lemma OtherSource(hs: seq<nat>, t: Table, b: nat, from: nat)
    requires Valid(hs, t) && b < 4 * |t.buckets| && from < |t.buckets| && b % |t.buckets| != from
    ensures Chain(hs, t.buckets[from], 4 * |t.buckets|, b) == []
  {
    var n := |t.buckets|;
    forall i | i in t.buckets[from] ensures BucketOf(hs, i, 4 * n) != b { SmallerBucket(hs, i, n); }
    ChainEmpty(hs, t.buckets[from], 4 * n, b);
  }

  lemma FlattenStep(buckets: seq<seq<nat>>, upto: nat)
    requires upto <= |buckets|
    ensures Flatten(buckets[..upto]) == if upto == 0 then [] else Flatten(buckets[..upto - 1]) + buckets[upto - 1]
  {
    if upto > 0 { assert buckets[..upto][..upto - 1] == buckets[..upto - 1]; }
  }

  /** Among the old buckets, taken in order, only bucket `b mod n` feeds the new bucket `b`. */
  lemma {:induction false} OneSource(hs: seq<nat>, t: Table, b: nat, upto: nat)
    requires Valid(hs, t) && b < 4 * |t.buckets| && upto <= |t.buckets|
    ensures var n := |t.buckets|;
            Chain(hs, Flatten(t.buckets[..upto]), 4 * n, b) ==
               if b % n < upto then Chain(hs, t.buckets[b % n], 4 * n, b) else []
  {
    var n := |t.buckets|;
    assert n > 0;
    assert Chain(hs, [], 4 * n, b) == [];
    hide Chain, Flatten, BucketOf, Valid;
    FlattenStep(t.buckets, upto);
    if upto > 0 {
      OneSource(hs, t, b, upto - 1);
      var from := upto - 1;
      ChainAppend(hs, Flatten(t.buckets[..from]), t.buckets[from], 4 * n, b);
      var chain := Chain(hs, t.buckets[from], 4 * n, b);
      assert chain + [] == chain;
      if b % n != from {
        OtherSource(hs, t, b, from);
        assert [] + Chain(hs, Flatten(t.buckets[..from]), 4 * n, b) == Chain(hs, Flatten(t.buckets[..from]), 4 * n, b);
      }
    }
  }

  /** After growing, bucket `b` is the reverse of the part of old bucket `b mod n` that belongs to it. */
  lemma {:induction false} GrowReverses(hs: seq<nat>, t: Table, b: nat)
    requires Valid(hs, t) && b < 4 * |t.buckets|
    ensures var n := |t.buckets|;
            Grown(hs, t).buckets[b] == Reverse(Selected(hs, t.buckets[b % n], 4 * n, b))
  {
    var n := |t.buckets|;
    OneSource(hs, t, b, n);
    assert t.buckets[..n] == t.buckets;
    ChainReverses(hs, t.buckets[b % n], 4 * n, b);
  }

  // ----- The order

  function Order(es: seq<Entry>): (order: seq<nat>)
    ensures forall k | 0 <= k < |order| :: order[k] < |es|
  {
    TableKeeps(Hashes(es), FirstIndices(es));
    var order := Flatten(TableAfter(Hashes(es), FirstIndices(es)).buckets);
    forall k | 0 <= k < |order| ensures order[k] < |es| {
      assert order[k] in multiset(order);
      assert order[k] in FirstIndices(es);
    }
    order
  }

  /** The bucket as the code computes it: the hash masked with the bucket count less one. */
  method BucketFor(es: seq<Entry>, item: nat, n: nat) returns (b: nat)
    requires item < |es| && PowerOfTwo(n)
    ensures n > 0 && b == BucketOf(Hashes(es), item, n)
  {
    var hash := BashHashString(es[item].0);
    b := BitAnd(hash, n - 1);
    ghost var k: nat :| n == Pow2(k);
    MaskIsRemainder(hash, k);
  }

  method Insert(entries: seq<Entry>, before: seq<seq<nat>>, countBefore: nat, item: nat)
    returns (buckets: seq<seq<nat>>, count: nat)
    requires Valid(Hashes(entries), Table(before, countBefore)) && item < |entries|
    requires forall b, item | 0 <= b < |before| && item in before[b] :: item < |entries|
    ensures var hs := Hashes(entries);
            && Valid(hs, Roomy(hs, Table(before, countBefore)))
            && Table(buckets, count) == Inserted(hs, Roomy(hs, Table(before, countBefore)), item)
  {
    buckets, count := before, countBefore;
    RoomyKeeps(Hashes(entries), Table(before, countBefore));
    if count >= |buckets| * 2 {
      buckets := Rehash(entries, buckets, count);
    }
    assert Table(buckets, count) == Roomy(Hashes(entries), Table(before, countBefore));
    var bucket := BucketFor(entries, item, |buckets|);
    buckets := buckets[bucket := [item] + buckets[bucket]];
    count := count + 1;
  }

  method BuildTable(entries: seq<Entry>, unique: seq<nat>) returns (buckets: seq<seq<nat>>)
    requires forall i | i in unique :: i < |entries|
    ensures buckets == TableAfter(Hashes(entries), unique).buckets
  {
    ghost var hs := Hashes(entries);
    buckets := seq(START, _ => []);
    var count := 0;
    assert Table(buckets, count) == TableAfter(hs, unique[..0]);
    for i := 0 to |unique|
      invariant Table(buckets, count) == TableAfter(hs, unique[..i])
    {
      ghost var before := TableAfter(hs, unique[..i]);
      TableKeeps(hs, unique[..i]);
      assert unique[..i + 1][..i] == unique[..i] && unique[i] in unique;
      forall x | x in unique[..i] ensures x < |entries| { assert x in unique; }
      ItemsInRange(before, unique[..i], |entries|);
      buckets, count := Insert(entries, buckets, count, unique[i]);
      assert Table(buckets, count) == Inserted(hs, Roomy(hs, before), unique[i]);
    }
    assert unique[..|unique|] == unique;
  }

  method BashAssocOrder(entries: seq<Entry>) returns (order: seq<(nat, Entry)>)
    ensures |order| == |Order(entries)|
    ensures forall i | 0 <= i < |order| :: order[i] == (Order(entries)[i], entries[Order(entries)[i]])
  {
    var unique := UniqueIndices(entries);
    var buckets := BuildTable(entries, unique);
    var items := Flatten(buckets);
    assert items == Order(entries);
    order := seq(|items|, i requires 0 <= i < |items| && items[i] < |entries| => (items[i], entries[items[i]]));
  }

  method UniqueIndices(entries: seq<Entry>) returns (unique: seq<nat>)
    ensures unique == FirstIndices(entries)
  {
    unique := [];
    var firstIndex: map<string, nat> := map[];
    for index := 0 to |entries|
      invariant unique == FirstIndices(entries[..index])
      invariant forall key :: key in firstIndex <==> exists j :: 0 <= j < index && entries[j].0 == key
    {
      var key := entries[index].0;
      assert entries[..index + 1][..index] == entries[..index];
      if key in firstIndex { continue; }
      firstIndex := firstIndex[key := index];
      unique := unique + [index];
    }
    assert entries[..|entries|] == entries;
  }

  lemma Quadrupled(n: nat)
    requires PowerOfTwo(n)
    ensures n > 0 && PowerOfTwo(4 * n)
  {
    var k: nat :| n == Pow2(k);
    assert 4 * n == Pow2(k + 2);
  }

  lemma ItemsInRange(t: Table, items: seq<nat>, limit: nat)
    requires multiset(Flatten(t.buckets)) == multiset(items) && forall i | i in items :: i < limit
    ensures forall b, item | 0 <= b < |t.buckets| && item in t.buckets[b] :: item < limit
  {
    forall b, item | 0 <= b < |t.buckets| && item in t.buckets[b] ensures item < limit {
      FlattenElements(t.buckets, b, item);
      assert item in multiset(Flatten(t.buckets)) && item in items;
    }
  }

  lemma {:induction false} FlattenElements(buckets: seq<seq<nat>>, b: nat, item: nat)
    requires b < |buckets| && item in buckets[b]
    ensures item in Flatten(buckets) && item in multiset(Flatten(buckets))
  {
    var n := |buckets| - 1;
    if b < n { FlattenElements(buckets[..n], b, item); }
  }

  method Rehash(es: seq<Entry>, buckets: seq<seq<nat>>, ghost count: nat) returns (grown: seq<seq<nat>>)
    requires Valid(Hashes(es), Table(buckets, count))
    requires forall b, item | 0 <= b < |buckets| && item in buckets[b] :: item < |es|
    ensures grown == Grown(Hashes(es), Table(buckets, count)).buckets
  {
    ghost var hs := Hashes(es);
    var n := 4 * |buckets|;
    Quadrupled(|buckets|);
    grown := seq(n, _ => []);
    assert grown == Chains(hs, [], n);
    for i := 0 to |buckets|
      invariant grown == Chains(hs, Flatten(buckets[..i]), n)
    {
      ghost var done := Flatten(buckets[..i]);
      var bucket := buckets[i];
      assert done + bucket[..0] == done;
      for k := 0 to |bucket|
        invariant grown == Chains(hs, done + bucket[..k], n)
      {
        var item := bucket[k];
        ghost var items := done + bucket[..k + 1];
        assert item in bucket && items[..|items| - 1] == done + bucket[..k] && items[|items| - 1] == item;
        ChainsStep(hs, items, n);
        var b := BucketFor(es, item, n);
        grown := grown[b := [item] + grown[b]];
      }
      assert bucket[..|bucket|] == bucket && buckets[..i + 1][..i] == buckets[..i];
    }
    assert buckets[..|buckets|] == buckets;
  }

  /** No earlier entry has the key. */
  predicate FirstOf(es: seq<Entry>, i: nat) { i < |es| && forall j | 0 <= j < i :: es[j].0 != es[i].0 }

  /** No later entry has the key. */
  predicate LastOf(es: seq<Entry>, i: nat) { i < |es| && forall j | i < j < |es| :: es[j].0 != es[i].0 }

  lemma {:induction false} FirstIndicesAre(es: seq<Entry>)
    ensures forall i: nat :: i in FirstIndices(es) <==> FirstOf(es, i)
    ensures forall a, b | 0 <= a < b < |FirstIndices(es)| :: FirstIndices(es)[a] < FirstIndices(es)[b]
  {
    if es != [] {
      var n := |es| - 1;
      var front := FirstIndices(es[..n]);
      var added := if exists j :: 0 <= j < n && es[j].0 == es[n].0 then [] else [n];
      assert FirstIndices(es) == front + added;
      FirstIndicesAre(es[..n]);
      forall i: nat ensures i in FirstIndices(es) <==> FirstOf(es, i) {
        assert i in FirstIndices(es) <==> i in front || i in added;
        if i < n {
          assert forall j | 0 <= j <= i :: es[..n][j] == es[j];
          assert FirstOf(es[..n], i) <==> FirstOf(es, i);
        }
      }
      assert forall a | 0 <= a < |front| :: front[a] in front;
    }
  }

  /** Every first occurrence of a key is listed exactly once, and nothing else is. */
  lemma {:induction false} OrderListsFirstOccurrences(es: seq<Entry>, i: nat)
    ensures multiset(Order(es))[i] == if FirstOf(es, i) then 1 else 0
  {
    var unique := FirstIndices(es);
    FirstIndicesAre(es);
    TableKeeps(Hashes(es), unique);
    OnceEach(unique, i);
  }

  lemma {:induction false} OnceEach(s: seq<nat>, x: nat)
    requires forall a, b | 0 <= a < b < |s| :: s[a] < s[b]
    ensures multiset(s)[x] == if x in s then 1 else 0
  {
    if s != [] {
      OnceEach(s[1..], x);
      assert s == [s[0]] + s[1..];
    }
  }

  /** Buckets are visited in ascending order. */
  lemma {:induction false} FlattenAscends(hs: seq<nat>, buckets: seq<seq<nat>>, n: nat, a: nat, b: nat)
    requires n > 0 && a <= b < |Flatten(buckets)|
    requires forall i, item | 0 <= i < |buckets| && item in buckets[i] :: BucketOf(hs, item, n) == i
    ensures BucketOf(hs, Flatten(buckets)[a], n) <= BucketOf(hs, Flatten(buckets)[b], n) < |buckets|
  {
    hide BucketOf;
    var m := |buckets| - 1;
    var front := Flatten(buckets[..m]);
    assert Flatten(buckets) == front + buckets[m];
    if b < |front| {
      FlattenAscends(hs, buckets[..m], n, a, b);
    } else {
      assert Flatten(buckets)[b] in buckets[m];
      if a < |front| {
        FlattenAscends(hs, buckets[..m], n, a, a);
      } else {
        assert Flatten(buckets)[a] in buckets[m];
      }
    }
  }

  lemma {:induction false} OrderAscends(es: seq<Entry>, a: nat, b: nat)
    requires a <= b < |Order(es)|
    ensures var n := |TableAfter(Hashes(es), FirstIndices(es)).buckets|;
            n > 0 && BucketOf(Hashes(es), Order(es)[a], n) <= BucketOf(Hashes(es), Order(es)[b], n)
  {
    var t := TableAfter(Hashes(es), FirstIndices(es));
    TableKeeps(Hashes(es), FirstIndices(es));
    FlattenAscends(Hashes(es), t.buckets, |t.buckets|, a, b);
  }

  lemma {:induction false} ValueAtLast(es: seq<Entry>, key: string, i: nat)
    requires i < |es| && es[i].0 == key && forall j | i < j < |es| :: es[j].0 != key
    ensures ValueAt(es, key) == Some(es[i].1)
  {
    if i < |es| - 1 { ValueAtLast(es[..|es| - 1], key, i); }
  }

  lemma {:induction false} LastOccurrence(es: seq<Entry>, i: nat) returns (last: nat)
    requires i < |es|
    ensures i <= last && LastOf(es, last) && es[last].0 == es[i].0
  {
    last := |es| - 1;
    if es[last].0 != es[i].0 {
      var front := es[..last];
      last := LastOccurrence(front, i);
      assert es[last] == front[last];
      forall j | last < j < |es| ensures es[j].0 != es[i].0 {
        if j < |es| - 1 { assert es[j] == front[j]; }
      }
    }
  }

  /** The listing shows every key with the value that a lookup finds if and only if, for every key, the first value and
      the last are the same. */
  lemma ListingAgrees(es: seq<Entry>)
    ensures (forall i | i in Order(es) :: ValueAt(es, es[i].0) == Some(es[i].1)) <==>
            forall i: nat, j: nat | FirstOf(es, i) && LastOf(es, j) && es[i].0 == es[j].0 :: es[i].1 == es[j].1
  {
    hide Order, ValueAt;
    forall i: nat ensures i in Order(es) <==> FirstOf(es, i) {
      OrderListsFirstOccurrences(es, i);
      assert i in Order(es) <==> i in multiset(Order(es));
    }
    forall i: nat, j: nat | FirstOf(es, i) && LastOf(es, j) && es[i].0 == es[j].0
      ensures ValueAt(es, es[i].0) == Some(es[j].1)
    {
      ValueAtLast(es, es[i].0, j);
    }
    forall i: nat | FirstOf(es, i) ensures exists j: nat :: LastOf(es, j) && es[j].0 == es[i].0 {
      var j := LastOccurrence(es, i);
    }
  }

  /** A listed pair carries the first value of its key, a lookup finds the last: they agree exactly when
      those two values do, in particular whenever the key occurs once. */
  lemma {:induction false} OrderAgreesWithLookup(es: seq<Entry>, first: nat, last: nat)
    requires first in Order(es) && first <= last < |es| && es[last].0 == es[first].0
    requires forall j | last < j < |es| :: es[j].0 != es[first].0
    ensures ValueAt(es, es[first].0) == Some(es[first].1) <==> es[first].1 == es[last].1
  {
    ValueAtLast(es, es[first].0, last);
  }

  lemma {:induction false} DistinctKeysAgree(es: seq<Entry>, i: nat)
    requires (forall a, b | 0 <= a < b < |es| :: es[a].0 != es[b].0) && i < |es|
    ensures multiset(Order(es))[i] == 1 && ValueAt(es, es[i].0) == Some(es[i].1)
  {
    assert FirstOf(es, i);
    hide Order, ValueAt;
    OrderListsFirstOccurrences(es, i);
    ValueAtLast(es, es[i].0, i);
  }
}
