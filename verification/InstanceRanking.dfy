/** Instance types interleaved by inverse spot price: cheaper types come up more often. */
module InstanceRanking {

  import opened Sequences

  const MAX_WEIGHT: nat := 5

  datatype WeightedType = WeightedType(typ: string, price: real, weight: nat)

  // ----- weighted round robin

  function Total(ws: seq<nat>): nat {
    if ws == [] then 0 else ws[0] + Total(ws[1..])
  }

  lemma {:induction false} TotalPositive(ws: seq<nat>) returns (k: nat)
    requires Total(ws) > 0
    ensures k < |ws| && ws[k] > 0
  {
    if ws[0] > 0 { k := 0; } else { k := TotalPositive(ws[1..]); k := k + 1; }
  }

  lemma {:induction false} TotalZero(ws: seq<nat>)
    requires Total(ws) == 0
    ensures forall k :: 0 <= k < |ws| ==> ws[k] == 0
  {
    if ws != [] { TotalZero(ws[1..]); }
  }

  lemma {:induction false} TotalDecrement(ws: seq<nat>, k: nat)
    requires k < |ws| && ws[k] > 0
    ensures Total(ws[k := ws[k] - 1]) == Total(ws) - 1
  {
    if k > 0 {
      assert ws[k := ws[k] - 1][1..] == ws[1..][k - 1 := ws[k] - 1];
      TotalDecrement(ws[1..], k - 1);
    }
  }

  function Weights(items: seq<WeightedType>): seq<nat> {
    seq(|items|, i requires 0 <= i < |items| => items[i].weight)
  }

  /** The copy-th listing of an item; copies count from one. */
  datatype Entry = Entry(item: nat, copy: nat)

  predicate Precedes(a: Entry, b: Entry) {
    a.copy < b.copy || (a.copy == b.copy && a.item < b.item)
  }

  /** Every k-th copy comes before every (k+1)-th copy; within a round the items keep their order. */
  ghost predicate RoundRobin(entries: seq<Entry>) {
    forall p, q :: 0 <= p < q < |entries| ==> Precedes(entries[p], entries[q])
  }

  /** The entries are, for each item, its copies from one up to what it has been given. */
  ghost predicate Lists(entries: seq<Entry>, items: seq<WeightedType>, remaining: seq<nat>)
    requires |remaining| == |items|
  {
    forall i: nat, c: nat :: Entry(i, c) in entries <==> i < |items| && 1 <= c <= items[i].weight - remaining[i]
  }

  /** The output names the listed items. */
  ghost predicate Names(out: seq<string>, entries: seq<Entry>, items: seq<WeightedType>) {
    && |out| == |entries|
    && forall p :: 0 <= p < |out| ==> entries[p].item < |items| && out[p] == items[entries[p].item].typ
  }

  /** After `round` full rounds, and the next one up to item i. */
  ghost predicate Level(items: seq<WeightedType>, remaining: seq<nat>, round: nat, i: nat)
    requires |remaining| == |items|
  {
    forall j :: 0 <= j < |items| ==>
      var due := if j < i then round + 1 else round;
      && remaining[j] <= items[j].weight
      && items[j].weight - remaining[j] <= due && (remaining[j] > 0 ==> items[j].weight - remaining[j] == due)
  }

  ghost predicate UpTo(entries: seq<Entry>, last: Entry) {
    forall p :: 0 <= p < |entries| ==> Precedes(entries[p], last)
  }

  /** Listing one more copy of item i in the current round. */
  lemma AppendCopy(entries: seq<Entry>, items: seq<WeightedType>, remaining: seq<nat>, i: nat, round: nat)
    requires |remaining| == |items| && i < |items| && remaining[i] > 0
    requires RoundRobin(entries) && Lists(entries, items, remaining) && Level(items, remaining, round, i)
    requires UpTo(entries, Entry(i, round + 1))
    ensures var entries' := entries + [Entry(i, round + 1)];
            var remaining' := remaining[i := remaining[i] - 1];
            && RoundRobin(entries') && Lists(entries', items, remaining')
            && Level(items, remaining', round, i + 1) && UpTo(entries', Entry(i + 1, round + 1))
  {
    var entries' := entries + [Entry(i, round + 1)];
    assert forall e :: e in entries' <==> e in entries || e == Entry(i, round + 1);
  }

  /**
   Terminates with each item listed as often as its weight says, round by round.
   `entries` says which copy of which item each listing is.
   */
  method InterleaveWeighted(items: seq<WeightedType>) returns (out: seq<string>, ghost entries: seq<Entry>)
    ensures |out| == Total(Weights(items)) && Names(out, entries, items) && RoundRobin(entries)
    ensures forall i: nat, c: nat :: Entry(i, c) in entries <==> i < |items| && 1 <= c <= items[i].weight
  {
    var n := |items|;
    var remaining := new nat[n](i requires 0 <= i < n => items[i].weight);
    var total := 0;
    for i := 0 to n
      invariant total + Total(Weights(items)[i..]) == Total(Weights(items))
    {
      total := total + items[i].weight;
    }
    assert remaining[..] == Weights(items);

    out, entries := [], [];
    ghost var round := 0;
    while |out| < total
      invariant |out| + Total(remaining[..]) == total
      invariant Names(out, entries, items) && RoundRobin(entries)
      invariant Lists(entries, items, remaining[..])
      invariant Level(items, remaining[..], round, 0) && UpTo(entries, Entry(0, round + 1))
      decreases total - |out|
    {
      out, entries := OneRound(items, remaining, out, entries, round);
      round := round + 1;
    }
    TotalZero(remaining[..]);
  }

  /** One pass over the items: each that has copies left is listed once more. */
  method OneRound(items: seq<WeightedType>, remaining: array<nat>, out0: seq<string>,
                  ghost entries0: seq<Entry>, ghost round: nat)
    returns (out: seq<string>, ghost entries: seq<Entry>)
    requires remaining.Length == |items| && Total(remaining[..]) > 0
    requires Names(out0, entries0, items) && RoundRobin(entries0) && Lists(entries0, items, remaining[..])
    requires Level(items, remaining[..], round, 0) && UpTo(entries0, Entry(0, round + 1))
    modifies remaining
    ensures Names(out, entries, items) && RoundRobin(entries) && Lists(entries, items, remaining[..])
    ensures Level(items, remaining[..], round, |items|) && UpTo(entries, Entry(|items|, round + 1))
    ensures |out| + Total(remaining[..]) == |out0| + old(Total(remaining[..])) && |out| > |out0|
  {
    out, entries := out0, entries0;
    ghost var k := TotalPositive(remaining[..]);
    for i := 0 to |items|
      invariant |out| + Total(remaining[..]) == |out0| + old(Total(remaining[..]))
      invariant Names(out, entries, items) && RoundRobin(entries) && Lists(entries, items, remaining[..])
      invariant Level(items, remaining[..], round, i) && UpTo(entries, Entry(i, round + 1))
      invariant |out0| <= |out| && (if k < i then |out0| < |out| else remaining[k] > 0)
    {
      if remaining[i] > 0 {
        ghost var was := remaining[..];
        TotalDecrement(was, i);
        AppendCopy(entries, items, was, i, round);
        out := out + [items[i].typ];
        entries := entries + [Entry(i, round + 1)];
        remaining[i] := remaining[i] - 1;
        assert remaining[..] == was[i := was[i] - 1];
      }
    }
  }

  // ----- weights from prices

  /** The cached price of a type; zero stands for unknown. */
  function PriceOf(prices: map<string, real>, t: string): real {
    if t in prices then prices[t] else 0.0
  }

  /** Rounds half up, which on positive numbers is half away from zero. */
  function Round(x: real): int {
    (x + 0.5).Floor
  }

  function WeightFor(price: real, maxPrice: real): nat
    requires price >= 0.0
  {
    if price == 0.0 then 1
    else
      var w := Round(maxPrice / price);
      if w < 1 then 1 else if w > MAX_WEIGHT then MAX_WEIGHT else w
  }

  /** The weight is the nearest whole number of times the dearest price holds this one, within one and five. */
  lemma WeightIsRatio(price: real, maxPrice: real)
    requires 0.0 < price <= maxPrice
    ensures var w := WeightFor(price, maxPrice);
            && 1 <= w <= 5
            && (2 * w - 1) as real * price <= 2.0 * maxPrice
            && (w < 5 ==> 2.0 * maxPrice < (2 * w + 1) as real * price)
  {
    var x, w := maxPrice / price, WeightFor(price, maxPrice);
    var r, y, lo, hi := Round(x), 2.0 * x, (2 * w - 1) as real, (2 * w + 1) as real;
    Quotient(maxPrice, price, y);
    assert r as real <= x + 0.5 < r as real + 1.0;
    assert w == if r > 5 then 5 else r;
    ScaledBelow(lo, y, price, maxPrice);
    if w < 5 { ScaledAbove(y, hi, price, maxPrice); }
  }

  lemma ScaledBelow(lo: real, y: real, p: real, m: real)
    requires lo <= y && p > 0.0 && y * p == 2.0 * m
    ensures lo * p <= 2.0 * m
  {
    Scale(lo, y, p);
  }

  lemma ScaledAbove(y: real, hi: real, p: real, m: real)
    requires y < hi && p > 0.0 && y * p == 2.0 * m
    ensures 2.0 * m < hi * p
  {
    ScaleStrictly(y, hi, p);
  }

  lemma Quotient(m: real, p: real, y: real)
    requires 0.0 < p <= m && y == 2.0 * (m / p)
    ensures y * p == 2.0 * m && m / p >= 1.0
  {
    var x := m / p;
    assert x * p == m;
    if x < 1.0 { ScaleStrictly(x, 1.0, p); }
  }

  lemma ScaleStrictly(a: real, b: real, p: real)
    requires a < b && p > 0.0
    ensures a * p < b * p
  {
  }

  lemma Scale(a: real, b: real, p: real)
    requires a <= b && p > 0.0
    ensures a * p <= b * p
  {
  }

  lemma CheaperWeighsMore(p: real, q: real, maxPrice: real)
    requires 0.0 < p <= q && maxPrice >= 0.0
    ensures WeightFor(p, maxPrice) >= WeightFor(q, maxPrice)
  {
    var x, y := maxPrice / p, maxPrice / q;
    assert x * p == maxPrice == y * q;
    assert y * p <= y * q;
    assert x >= y;
  }

  predicate CheaperFirst(a: WeightedType, b: WeightedType) {
    b.price == 0.0 || (a.price != 0.0 && a.price <= b.price)
  }

  ghost predicate DistinctTypes(items: seq<WeightedType>) {
    forall i, j :: 0 <= i < j < |items| ==> items[i].typ != items[j].typ
  }

  lemma TwiceIn<T>(s: seq<T>, i: nat, j: nat)
    requires i < j < |s| && s[i] == s[j]
    ensures multiset(s)[s[i]] >= 2
  {
    assert s == s[..i] + [s[i]] + s[i + 1..j] + [s[j]] + s[j + 1..];
  }

  lemma {:induction false} OnceIfDistinct<T>(s: seq<T>, x: T)
    requires Distinct(s)
    ensures multiset(s)[x] == if x in s then 1 else 0
  {
    if s != [] {
      assert s == [s[0]] + s[1..];
      OnceIfDistinct(s[1..], x);
    }
  }

  /** Distinct types stay distinct under reordering. */
  lemma DistinctUnderPermutation(a: seq<WeightedType>, b: seq<WeightedType>)
    requires multiset(a) == multiset(b) && DistinctTypes(a)
    ensures DistinctTypes(b)
  {
    forall i, j | 0 <= i < j < |b| ensures b[i].typ != b[j].typ {
      assert b[i] in multiset(a) && b[j] in multiset(a);
      var k, m :| 0 <= k < |a| && 0 <= m < |a| && a[k] == b[i] && a[m] == b[j];
      if b[i] == b[j] {
        TwiceIn(b, i, j);
        OnceIfDistinct(a, b[i]);
      } else {
        assert k != m;
      }
    }
  }

  /** The last entry, if it is of item i, is its last copy. */
  lemma LastCopy(entries: seq<Entry>, i: nat, w: nat)
    requires entries != [] && RoundRobin(entries) && forall c: nat :: Entry(i, c) in entries <==> 1 <= c <= w
    ensures var n := |entries| - 1;
            var w' := if entries[n].item == i then w - 1 else w;
            w' >= 0 && RoundRobin(entries[..n]) && forall c: nat :: Entry(i, c) in entries[..n] <==> 1 <= c <= w'
  {
    var n := |entries| - 1;
    var last := entries[n];
    assert entries == entries[..n] + [last];
    if last.item == i {
      assert last == Entry(i, last.copy) && last in entries;
      assert Entry(i, w) in entries;
      assert last.copy == w;
      assert last !in entries[..n];
    }
    forall c: nat ensures Entry(i, c) in entries[..n] <==> Entry(i, c) in entries && Entry(i, c) != last {
      assert Precedes(last, last) == false;
    }
  }

  /** With distinct types, a type is listed as often as its item has copies. */
  lemma {:induction false} CountByName(items: seq<WeightedType>, entries: seq<Entry>, out: seq<string>, i: nat, w: nat)
    requires DistinctTypes(items) && Names(out, entries, items) && RoundRobin(entries) && i < |items|
    requires forall c: nat :: Entry(i, c) in entries <==> 1 <= c <= w
    ensures multiset(out)[items[i].typ] == w
  {
    if out == [] {
      assert w > 0 ==> Entry(i, w) in entries;
    } else {
      var n := |out| - 1;
      LastCopy(entries, i, w);
      CountByName(items, entries[..n], out[..n], i, if entries[n].item == i then w - 1 else w);
      CountLast(out, items[i].typ);
    }
  }

  /** A listing is as many copies in as it has been listed before. */
  lemma PrefixCount(items: seq<WeightedType>, entries: seq<Entry>, out: seq<string>, p: nat)
    requires DistinctTypes(items) && Names(out, entries, items) && RoundRobin(entries) && p < |out|
    requires forall i: nat, c: nat :: Entry(i, c) in entries <==> i < |items| && 1 <= c <= items[i].weight
    ensures entries[p].copy >= 1 && multiset(out[..p])[out[p]] == entries[p].copy - 1
  {
    var e := entries[p];
    assert e == Entry(e.item, e.copy) && e in entries;
    forall c: nat ensures Entry(e.item, c) in entries[..p] <==> 1 <= c <= e.copy - 1 {
      if 1 <= c <= e.copy - 1 {
        assert Entry(e.item, c) in entries;
        var m :| 0 <= m < |entries| && entries[m] == Entry(e.item, c);
        assert m < p;
        assert entries[..p][m] == Entry(e.item, c);
      }
      if Entry(e.item, c) in entries[..p] {
        var m :| 0 <= m < p && entries[m] == Entry(e.item, c);
        assert Precedes(entries[m], e) && entries[m] in entries;
      }
    }
    CountByName(items, entries[..p], out[..p], e.item, e.copy - 1);
  }

  /** Round by round, and in a round the cheaper first and those without a price last. */
  ghost predicate RoundsByPrice(prices: map<string, real>, ranked: seq<string>) {
    forall p, q :: 0 <= p < q < |ranked| ==>
      var before, after := multiset(ranked[..p])[ranked[p]], multiset(ranked[..q])[ranked[q]];
      && before <= after
      && (before == after && ranked[q] in prices ==> ranked[p] in prices && prices[ranked[p]] <= prices[ranked[q]])
  }

  lemma RankedInRounds(types: seq<string>, prices: map<string, real>, sorted: seq<WeightedType>, maxPrice: real,
                       ranked: seq<string>, entries: seq<Entry>)
    requires Distinct(types) && Positive(prices) && SortedBy(sorted, CheaperFirst)
    requires multiset(sorted) == multiset(Listed(types, prices)) && forall i :: 0 <= i < |sorted| ==> sorted[i].price >= 0.0
    requires Names(ranked, entries, Weighed(sorted, maxPrice)) && RoundRobin(entries)
    requires forall i: nat, c: nat :: Entry(i, c) in entries <==> i < |sorted| && 1 <= c <= Weighed(sorted, maxPrice)[i].weight
    ensures RoundsByPrice(prices, ranked)
  {
    var weighed := Weighed(sorted, maxPrice);
    DistinctUnderPermutation(Listed(types, prices), sorted);
    MembersSame(sorted, Listed(types, prices));
    forall p, q | 0 <= p < q < |ranked|
      ensures var before, after := multiset(ranked[..p])[ranked[p]], multiset(ranked[..q])[ranked[q]];
              && before <= after
              && (before == after && ranked[q] in prices ==> ranked[p] in prices && prices[ranked[p]] <= prices[ranked[q]])
    {
      PrefixCount(weighed, entries, ranked, p);
      PrefixCount(weighed, entries, ranked, q);
      assert Precedes(entries[p], entries[q]);
      var a, b := sorted[entries[p].item], sorted[entries[q].item];
      assert a in Listed(types, prices) && b in Listed(types, prices);
      assert a.price == PriceOf(prices, a.typ) && b.price == PriceOf(prices, b.typ);
      if entries[p].copy == entries[q].copy { assert CheaperFirst(a, b); }
    }
  }

  lemma CountLast<T>(s: seq<T>, x: T)
    requires s != []
    ensures multiset(s)[x] == multiset(s[..|s| - 1])[x] + if s[|s| - 1] == x then 1 else 0
  {
    assert s == s[..|s| - 1] + [s[|s| - 1]];
  }

  function Listed(types: seq<string>, prices: map<string, real>): seq<WeightedType> {
    seq(|types|, i requires 0 <= i < |types| => WeightedType(types[i], PriceOf(prices, types[i]), 0))
  }

  function Weighed(items: seq<WeightedType>, maxPrice: real): seq<WeightedType>
    requires forall i :: 0 <= i < |items| ==> items[i].price >= 0.0
  {
    seq(|items|, i requires 0 <= i < |items| => items[i].(weight := WeightFor(items[i].price, maxPrice)))
  }

  method ListWithPrices(types: seq<string>, prices: map<string, real>) returns (items: seq<WeightedType>, maxPrice: real)
    requires Positive(prices)
    ensures items == Listed(types, prices) && maxPrice >= 0.0
    ensures maxPrice == 0.0 <==> forall t :: t in types ==> t !in prices
    ensures forall t :: t in types ==> PriceOf(prices, t) <= maxPrice
    ensures maxPrice > 0.0 ==> exists t :: t in types && PriceOf(prices, t) == maxPrice
  {
    items := [];
    maxPrice := 0.0;
    for i := 0 to |types|
      invariant items == Listed(types[..i], prices) && maxPrice >= 0.0
      invariant maxPrice == 0.0 <==> forall j :: 0 <= j < i ==> types[j] !in prices
      invariant forall j :: 0 <= j < i ==> PriceOf(prices, types[j]) <= maxPrice
      invariant maxPrice > 0.0 ==> exists t :: t in types && PriceOf(prices, t) == maxPrice
    {
      var p := PriceOf(prices, types[i]);
      items := items + [WeightedType(types[i], p, 0)];
      if p > maxPrice { maxPrice := p; }
    }
    assert types[..|types|] == types;
  }

  /** Nothing but the given types, each as often as its price weighs. */
  ghost predicate ListedByWeight(types: seq<string>, prices: map<string, real>, maxPrice: real, ranked: seq<string>)
    requires Positive(prices)
  {
    && (forall t :: t in ranked ==> t in types)
    && (Distinct(types) ==> forall t :: t in types ==> multiset(ranked)[t] == WeightFor(PriceOf(prices, t), maxPrice))
  }

  method RankPriced(types: seq<string>, prices: map<string, real>, items: seq<WeightedType>, maxPrice: real)
    returns (ranked: seq<string>)
    requires Positive(prices)
    requires items == Listed(types, prices)
    ensures ListedByWeight(types, prices, maxPrice, ranked)
    ensures Distinct(types) ==> RoundsByPrice(prices, ranked)
  {
    var sorted := Sort(items, CheaperFirst);
    SortSorts(items, CheaperFirst);
    MembersSame(items, sorted);
    assert forall i :: 0 <= i < |sorted| ==> sorted[i] in items;
    ghost var entries;
    ranked, entries := InterleaveWeighted(Weighed(sorted, maxPrice));
    RankedMembers(types, prices, sorted, maxPrice, ranked, entries);
    if Distinct(types) {
      RankedCounts(types, prices, sorted, maxPrice, ranked, entries);
      RankedInRounds(types, prices, sorted, maxPrice, ranked, entries);
    }
  }

  ghost predicate Dearest(types: seq<string>, prices: map<string, real>, u: string) {
    u in types && u in prices && forall t :: t in types && t in prices ==> prices[t] <= prices[u]
  }

  ghost predicate Positive(prices: map<string, real>) {
    forall t :: t in prices ==> prices[t] > 0.0
  }

  /** Each type one to five times, a cheaper priced type at least as often as a dearer one. */
  ghost predicate FairlyListed(types: seq<string>, prices: map<string, real>, ranked: seq<string>) {
    && (forall t :: t in types ==> 1 <= multiset(ranked)[t] <= MAX_WEIGHT)
    && (forall t, u :: t in types && u in types && t in prices && u in prices && prices[t] <= prices[u]
          ==> multiset(ranked)[t] >= multiset(ranked)[u])
  }

  lemma WeightsAreFair(types: seq<string>, prices: map<string, real>, maxPrice: real, ranked: seq<string>)
    requires Positive(prices) && maxPrice >= 0.0 && Distinct(types) && ListedByWeight(types, prices, maxPrice, ranked)
    ensures FairlyListed(types, prices, ranked)
  {
    forall t, u | t in types && u in types && t in prices && u in prices && prices[t] <= prices[u]
      ensures multiset(ranked)[t] >= multiset(ranked)[u]
    {
      CheaperWeighsMore(prices[t], prices[u], maxPrice);
    }
  }

  /**
   `prices` is the spot cache, which holds positive prices only. Nothing but the given types is
   listed, distinct ones fairly: one to five times, a cheaper one at least as often; as many times
   as the dearest price holds the type's own, to the nearest whole number; once without a price;
   round by round, the cheaper first.
   */
  method RankInstanceTypesByPrice(types: seq<string>, prices: map<string, real>) returns (ranked: seq<string>)
    requires Positive(prices)
    ensures forall t :: t in ranked ==> t in types
    ensures Distinct(types) ==> forall t :: t in types ==> 1 <= multiset(ranked)[t] <= 5
    ensures Distinct(types) ==> forall t, u :: t in types && u in types && t in prices && u in prices && prices[t] <= prices[u]
                                               ==> multiset(ranked)[t] >= multiset(ranked)[u]
    ensures Distinct(types) && |types| > 1 ==>
              forall t, u :: t in types && t in prices && u in types && u in prices
                             && (forall v :: v in types && v in prices ==> prices[v] <= prices[u]) ==>
                multiset(ranked)[t] == WeightFor(prices[t], prices[u])
    ensures Distinct(types) ==> forall t :: t in types && t !in prices ==> multiset(ranked)[t] == 1
    ensures Distinct(types) && (exists t :: t in types && t in prices) ==>
              forall p, q :: 0 <= p < q < |ranked| ==>
                var before, after := multiset(ranked[..p])[ranked[p]], multiset(ranked[..q])[ranked[q]];
                && before <= after
                && (before == after && ranked[q] in prices ==> ranked[p] in prices && prices[ranked[p]] <= prices[ranked[q]])
    ensures (forall t :: t in types ==> t !in prices) ==> ranked == types
  {
    if Distinct(types) { CountsWhenPlain(types); }
    if |types| <= 1 { return types; }
    var items, maxPrice := ListWithPrices(types, prices);
    if maxPrice == 0.0 { return types; }
    ranked := RankPriced(types, prices, items, maxPrice);
    if Distinct(types) {
      WeightsAreFair(types, prices, maxPrice, ranked);
      forall u | Dearest(types, prices, u) ensures prices[u] == maxPrice { DearestIsMax(types, prices, u, maxPrice); }
    }
  }

  lemma DearestIsMax(types: seq<string>, prices: map<string, real>, u: string, maxPrice: real)
    requires Positive(prices) && Dearest(types, prices, u) && maxPrice > 0.0
    requires forall t :: t in types ==> PriceOf(prices, t) <= maxPrice
    requires exists t :: t in types && PriceOf(prices, t) == maxPrice
    ensures prices[u] == maxPrice
  {
    assert PriceOf(prices, u) == prices[u];
  }

  lemma CountsWhenPlain(types: seq<string>)
    requires Distinct(types)
    ensures forall t :: t in types ==> multiset(types)[t] == 1
  {
    forall t | t in types ensures multiset(types)[t] == 1 { OnceIfDistinct(types, t); }
  }

  lemma MembersSame<T>(a: seq<T>, b: seq<T>)
    requires multiset(a) == multiset(b)
    ensures forall x :: x in a <==> x in b
  {
    assert forall x :: x in a <==> x in multiset(a);
    assert forall x :: x in b <==> x in multiset(b);
  }

  lemma RankedMembers(types: seq<string>, prices: map<string, real>, sorted: seq<WeightedType>, maxPrice: real,
                      ranked: seq<string>, entries: seq<Entry>)
    requires multiset(sorted) == multiset(Listed(types, prices)) && forall i :: 0 <= i < |sorted| ==> sorted[i].price >= 0.0
    requires Names(ranked, entries, Weighed(sorted, maxPrice))
    ensures forall t :: t in ranked ==> t in types
  {
    MembersSame(sorted, Listed(types, prices));
    forall p | 0 <= p < |ranked| ensures ranked[p] in types {
      assert sorted[entries[p].item] in Listed(types, prices);
    }
  }

  /** Each type is listed exactly as often as its price weighs. */
  lemma RankedCounts(types: seq<string>, prices: map<string, real>, sorted: seq<WeightedType>, maxPrice: real,
                     ranked: seq<string>, entries: seq<Entry>)
    requires Distinct(types) && Positive(prices)
    requires multiset(sorted) == multiset(Listed(types, prices)) && forall i :: 0 <= i < |sorted| ==> sorted[i].price >= 0.0
    requires Names(ranked, entries, Weighed(sorted, maxPrice)) && RoundRobin(entries)
    requires forall i: nat, c: nat :: Entry(i, c) in entries <==> i < |sorted| && 1 <= c <= Weighed(sorted, maxPrice)[i].weight
    ensures forall t :: t in types ==> multiset(ranked)[t] == WeightFor(PriceOf(prices, t), maxPrice)
  {
    var listed := Listed(types, prices);
    var weighed := Weighed(sorted, maxPrice);
    DistinctUnderPermutation(listed, sorted);
    MembersSame(sorted, listed);
    forall t | t in types ensures multiset(ranked)[t] == WeightFor(PriceOf(prices, t), maxPrice) {
      var k :| 0 <= k < |types| && types[k] == t;
      assert listed[k] in sorted;
      var i :| 0 <= i < |sorted| && sorted[i] == listed[k];
      CountByName(weighed, entries, ranked, i, weighed[i].weight);
    }
  }
}
