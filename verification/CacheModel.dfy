/**
 The shared response cache on values: entries in recency order (most recent first) and the byte total
 kept beside them, in the 64-bit arithmetic of the C code.  `Cache` proves that the linked structures
 compute these functions.  Here we prove what the functions promise.
 */
module CacheModel {
  import opened Common

  datatype Item = Item(key: string, data: seq<byte>)

  datatype State = State(items: seq<Item>, total: word, maxTotal: word, maxObject: word)

  /** Which of the three `malloc` calls of one put succeed. */
  datatype Allocation = Allocation(entry: bool, key: bool, data: bool)

  datatype PutResult = PutResult(state: State, ok: bool, evicted: bool)

  datatype GetResult = GetResult(state: State, value: Option<seq<byte>>)

  // ----- operations, branch by branch as in the C code

  /** Index of the entry with this key, or |items|. */
  function Find(items: seq<Item>, key: string): (i: nat)
    ensures i <= |items|
    ensures i < |items| ==> items[i].key == key
    ensures forall j :: 0 <= j < i ==> items[j].key != key
  {
    if items == [] || items[0].key == key then 0 else 1 + Find(items[1..], key)
  }

  /** What the recency list holds besides the entry for `key`. */
  function Others(items: seq<Item>, key: string): seq<Item> {
    var i := Find(items, key);
    if i < |items| then RemoveAt(items, i) else items
  }

  /** The eviction loop on the first `n` entries: how many survive, and the total it leaves. */
  function Evict(items: seq<Item>, n: nat, total: word, incoming: nat, maxTotal: word): (r: (nat, word))
    requires n <= |items|
    ensures r.0 <= n
  {
    if Wrap(total + incoming) <= maxTotal || n == 0 then (n, total)
    else
      var size := |items[n - 1].data|;
      Evict(items, n - 1, if total >= size then total - size else 0, incoming, maxTotal)
  }

  predicate Admissible(s: State, data: seq<byte>) {
    0 < |data| <= s.maxObject && |data| <= s.maxTotal
  }

  /** Overwriting `entry` by a longer value: `entry` is off the recency list while room is made.
      `rest` is what the list holds besides it. */
  function Grow(s: State, entry: Item, rest: seq<Item>, data: seq<byte>, gotMemory: bool): PutResult {
    var previous := |entry.data|;
    var (n, total) := Evict(rest, |rest|, Wrap(s.total - previous), |data|, s.maxTotal);
    if Wrap(total + |data|) > s.maxTotal || !gotMemory then
      PutResult(s.(items := [entry] + rest[..n], total := Wrap(total + previous)), false, n < |rest|)
    else
      PutResult(s.(items := [Item(entry.key, data)] + rest[..n], total := Wrap(total + |data|)), true, n < |rest|)
  }

  /** Overwriting `entry` by a value that is not longer. */
  function Shrink(s: State, entry: Item, rest: seq<Item>, data: seq<byte>, gotMemory: bool): PutResult {
    var reduced := Wrap(s.total - |entry.data|);
    if !gotMemory then PutResult(s.(total := Wrap(reduced + |entry.data|)), false, false)
    else PutResult(s.(items := [Item(entry.key, data)] + rest, total := Wrap(reduced + |data|)), true, false)
  }

  function Insert(s: State, key: string, data: seq<byte>, alloc: Allocation): PutResult {
    var (n, total) := Evict(s.items, |s.items|, s.total, |data|, s.maxTotal);
    var kept := s.items[..n];
    if Wrap(total + |data|) > s.maxTotal || !alloc.entry || !alloc.key || !alloc.data then
      PutResult(s.(items := kept, total := total), false, n < |s.items|)
    else
      PutResult(s.(items := [Item(key, data)] + kept, total := Wrap(total + |data|)), true, n < |s.items|)
  }

  /** `evicted` is what the caller's result record held before; a rejected put leaves it alone. */
  function Put(s: State, key: string, data: seq<byte>, alloc: Allocation, evicted: bool): PutResult {
    if !Admissible(s, data) then PutResult(s, false, evicted)
    else
      var i := Find(s.items, key);
      if i == |s.items| then Insert(s, key, data, alloc)
      else if |data| > |s.items[i].data| then Grow(s, s.items[i], RemoveAt(s.items, i), data, alloc.data)
      else Shrink(s, s.items[i], RemoveAt(s.items, i), data, alloc.data)
  }

  function Get(s: State, key: string, gotMemory: bool): GetResult {
    var i := Find(s.items, key);
    if i == |s.items| || !gotMemory then GetResult(s, None)
    else GetResult(s.(items := [s.items[i]] + RemoveAt(s.items, i)), Some(s.items[i].data))
  }

  // ----- the policy the operations implement

  /** Sizes of the first `n` entries, added up. */
  function Sum(items: seq<Item>, n: nat): nat
    requires n <= |items|
  {
    if n == 0 then 0 else Sum(items, n - 1) + |items[n - 1].data|
  }

  /** Length of the longest prefix, at most `n` long, whose sizes add up to at most `budget`. */
  function Keep(items: seq<Item>, n: nat, budget: nat): (k: nat)
    requires n <= |items|
    ensures k <= n
  {
    if Sum(items, n) <= budget then n else Keep(items, n - 1, budget)
  }

  lemma {:induction false} KeepIsLongest(items: seq<Item>, n: nat, budget: nat)
    requires n <= |items|
    ensures Sum(items, Keep(items, n, budget)) <= budget
    ensures forall m :: Keep(items, n, budget) < m <= n ==> Sum(items, m) > budget
  {
    if Sum(items, n) > budget {
      KeepIsLongest(items, n - 1, budget);
    }
  }

  ghost predicate DistinctKeys(items: seq<Item>) {
    forall i, j :: 0 <= i < j < |items| ==> items[i].key != items[j].key
  }

  /** The byte total is exact and within the budget. */
  predicate Accounted(s: State) {
    && 0 < s.maxObject <= s.maxTotal
    && s.total == Sum(s.items, |s.items|) <= s.maxTotal
  }

  /** Each key occurs once, and only admissible values are stored. */
  ghost predicate WellFormed(items: seq<Item>, maxObject: nat) {
    && DistinctKeys(items)
    && (forall i :: 0 <= i < |items| ==> 0 < |items[i].data| <= maxObject)
  }

  ghost predicate Valid(s: State) {
    Accounted(s) && WellFormed(s.items, s.maxObject)
  }

  lemma {:induction false} SumCongruent(a: seq<Item>, i: nat, b: seq<Item>, j: nat, n: nat)
    requires i + n <= |a| && j + n <= |b| && a[i..i + n] == b[j..j + n]
    ensures Sum(a, i + n) - Sum(a, i) == Sum(b, j + n) - Sum(b, j)
  {
    if n > 0 {
      assert a[i..i + n][..n - 1] == a[i..i + n - 1] && b[j..j + n][..n - 1] == b[j..j + n - 1];
      SumCongruent(a, i, b, j, n - 1);
      assert a[i + n - 1] == a[i..i + n][n - 1] && b[j + n - 1] == b[j..j + n][n - 1];
    }
  }

  lemma SumRemoveAt(items: seq<Item>, i: nat)
    requires i < |items|
    ensures Sum(RemoveAt(items, i), |items| - 1) == Sum(items, |items|) - |items[i].data|
  {
    var r := RemoveAt(items, i);
    SumCongruent(items, 0, r, 0, i);
    SumCongruent(items, i + 1, r, i, |items| - i - 1);
  }

  lemma SumPrepend(x: Item, items: seq<Item>, n: nat)
    requires n <= |items|
    ensures Sum([x] + items[..n], n + 1) == |x.data| + Sum(items, n)
  {
    SumCongruent(items, 0, [x] + items[..n], 1, n);
  }

  lemma SumTake(items: seq<Item>, n: nat)
    requires n <= |items|
    ensures Sum(items[..n], n) == Sum(items, n)
  {
    SumCongruent(items, 0, items[..n], 0, n);
  }

  /** With an exact total and no wrap-around, the eviction loop keeps the longest prefix that fits:
      the underflow clamp never acts. */
  lemma {:induction false} EvictKeepsLongestFit(items: seq<Item>, n: nat, total: word, incoming: nat, maxTotal: word)
    requires n <= |items| && total == Sum(items, n)
    requires incoming <= maxTotal && total + incoming < SIZE_RANGE
    ensures var k := Keep(items, n, maxTotal - incoming);
            Evict(items, n, total, incoming, maxTotal) == (k, Sum(items, k))
  {
    if total + incoming > maxTotal {
      EvictKeepsLongestFit(items, n - 1, Sum(items, n - 1), incoming, maxTotal);
    }
  }

  /** The eviction loop makes exactly the room that is asked for. */
  lemma EvictExact(items: seq<Item>, total: word, incoming: nat, maxTotal: word)
    requires total == Sum(items, |items|) && total + incoming < SIZE_RANGE && incoming <= maxTotal
    ensures var n := Keep(items, |items|, maxTotal - incoming);
            && Evict(items, |items|, total, incoming, maxTotal) == (n, Sum(items, n))
            && Sum(items, n) + incoming <= maxTotal
  {
    EvictKeepsLongestFit(items, |items|, total, incoming, maxTotal);
    KeepIsLongest(items, |items|, maxTotal - incoming);
  }

  predicate Allocated(s: State, key: string, alloc: Allocation) {
    alloc.data && (Find(s.items, key) == |s.items| ==> alloc.entry && alloc.key)
  }

  /** How many of the other entries fit beside a value of this size. */
  function Kept(s: State, key: string, data: seq<byte>): nat
    requires Admissible(s, data)
  {
    var others := Others(s.items, key);
    Keep(others, |others|, s.maxTotal - |data|)
  }

  // ----- the operations without word arithmetic

  lemma GrowExact(s: State, entry: Item, rest: seq<Item>, data: seq<byte>, gotMemory: bool, n: nat, kept: nat)
    requires |entry.data| <= s.total && |entry.data| < |data| && n <= |rest| && kept + |data| <= s.maxTotal
    requires Evict(rest, |rest|, s.total - |entry.data|, |data|, s.maxTotal) == (n, kept)
    ensures Grow(s, entry, rest, data, gotMemory) ==
            if gotMemory then
              PutResult(s.(items := [Item(entry.key, data)] + rest[..n], total := kept + |data|), true, n < |rest|)
            else
              PutResult(s.(items := [entry] + rest[..n], total := kept + |entry.data|), false, n < |rest|)
  {
  }

  lemma ShrinkExact(s: State, entry: Item, rest: seq<Item>, data: seq<byte>, gotMemory: bool)
    requires |data| <= |entry.data| <= s.total
    ensures Shrink(s, entry, rest, data, gotMemory) ==
            if gotMemory then
              var total := s.total - |entry.data| + |data|;
              PutResult(s.(items := [Item(entry.key, data)] + rest, total := total), true, false)
            else PutResult(s, false, false)
  {
  }

  lemma InsertExact(s: State, key: string, data: seq<byte>, alloc: Allocation, n: nat, kept: nat)
    requires n <= |s.items| && kept + |data| <= s.maxTotal
    requires Evict(s.items, |s.items|, s.total, |data|, s.maxTotal) == (n, kept)
    ensures Insert(s, key, data, alloc) ==
            if alloc.entry && alloc.key && alloc.data then
              PutResult(s.(items := [Item(key, data)] + s.items[..n], total := kept + |data|), true, n < |s.items|)
            else PutResult(s.(items := s.items[..n], total := kept), false, n < |s.items|)
  {
  }

  /** The stored payload fits an address space. */
  predicate Storable(s: State) {
    Sum(s.items, |s.items|) < SIZE_RANGE
  }

  /** So do the other entries together with the incoming bytes. */
  predicate Addressable(s: State, key: string, data: seq<byte>) {
    var others := Others(s.items, key);
    Sum(others, |others|) + |data| < SIZE_RANGE
  }

  /** What the other entries add up to. */
  lemma OthersSum(s: State, key: string)
    requires Accounted(s)
    ensures var others, i := Others(s.items, key), Find(s.items, key);
            Sum(others, |others|) == s.total - (if i < |s.items| then |s.items[i].data| else 0)
  {
    if Find(s.items, key) < |s.items| {
      SumRemoveAt(s.items, Find(s.items, key));
    }
  }

  /** What a put keeps of the other entries. */
  lemma KeptFacts(s: State, key: string, data: seq<byte>)
    requires Accounted(s) && Admissible(s, data) && Addressable(s, key, data)
    ensures var others, i, n := Others(s.items, key), Find(s.items, key), Kept(s, key, data);
            && Sum(others, |others|) == s.total - (if i < |s.items| then |s.items[i].data| else 0)
            && Sum(others, n) + |data| <= s.maxTotal
            && Evict(others, |others|, Sum(others, |others|), |data|, s.maxTotal) == (n, Sum(others, n))
            && (i < |s.items| && |data| <= |s.items[i].data| ==> n == |others|)
  {
    var others, i := Others(s.items, key), Find(s.items, key);
    OthersSum(s, key);
    EvictExact(others, Sum(others, |others|), |data|, s.maxTotal);
  }

  /** The result of an admissible put. */
  function Exact(s: State, key: string, data: seq<byte>, alloc: Allocation): PutResult
    requires Admissible(s, data)
  {
    var others, i, n := Others(s.items, key), Find(s.items, key), Kept(s, key, data);
    var room := Sum(others, n);
    if Allocated(s, key, alloc) then
      PutResult(s.(items := [Item(key, data)] + others[..n], total := Wrap(room + |data|)), true, n < |others|)
    else if i == |s.items| then
      PutResult(s.(items := others[..n], total := Wrap(room)), false, n < |others|)
    else if |data| > |s.items[i].data| then
      PutResult(s.(items := [s.items[i]] + others[..n], total := Wrap(room + |s.items[i].data|)), false, n < |others|)
    else PutResult(s, false, false)
  }

  /** The result of an admissible put of more bytes than fit an address space beside the other entries: the sum
      in the loop guard wraps around and nothing is evicted. */
  function Overflown(s: State, key: string, data: seq<byte>, alloc: Allocation): PutResult {
    var others, i := Others(s.items, key), Find(s.items, key);
    var room := Sum(others, |others|);
    if Allocated(s, key, alloc) then
      PutResult(s.(items := [Item(key, data)] + others, total := Wrap(room + |data|)), true, false)
    else if i < |s.items| then PutResult(s.(items := [s.items[i]] + others), false, false)
    else PutResult(s, false, false)
  }

  /** The whole meaning of a put: when it succeeds, what it drops, what a failure leaves. */
  lemma PutMeaning(s: State, key: string, data: seq<byte>, alloc: Allocation, evicted: bool)
    requires Accounted(s)
    ensures Put(s, key, data, alloc, evicted) ==
            if !Admissible(s, data) then PutResult(s, false, evicted)
            else if Addressable(s, key, data) then Exact(s, key, data, alloc)
            else Overflown(s, key, data, alloc)
  {
    if Admissible(s, data) && !Addressable(s, key, data) {
      OverflownMeaning(s, key, data, alloc, evicted);
    } else if Admissible(s, data) {
      hide Evict, Keep, Sum;
      var others, i, n := Others(s.items, key), Find(s.items, key), Kept(s, key, data);
      KeptFacts(s, key, data);
      OthersSum(s, key);
      var kept := Sum(others, n);
      if i == |s.items| {
        InsertExact(s, key, data, alloc, n, kept);
      } else if |data| > |s.items[i].data| {
        GrowExact(s, s.items[i], others, data, alloc.data, n, kept);
      } else {
        ShrinkExact(s, s.items[i], others, data, alloc.data);
        assert others[..n] == others;
      }
    }
  }

  lemma OverflownMeaning(s: State, key: string, data: seq<byte>, alloc: Allocation, evicted: bool)
    requires Accounted(s) && Admissible(s, data) && !Addressable(s, key, data)
    ensures Put(s, key, data, alloc, evicted) == Overflown(s, key, data, alloc)
  {
    hide Keep, Sum, Find;
    var others, i := Others(s.items, key), Find(s.items, key);
    OthersSum(s, key);
    var room: word := Sum(others, |others|);
    assert Wrap(room + |data|) <= s.maxTotal;
    assert Evict(others, |others|, room, |data|, s.maxTotal) == (|others|, room);
    assert others[..|others|] == others;
    hide Evict;
  }

  /** The contract of a put.  It succeeds exactly when the value is admissible and the memory it needs is there;
      a success that leaves no more than fits an address space puts the value in front of the longest recent
      prefix of the other entries that fits beside it, and reports `evicted` exactly when one of those was
      dropped; and the entry being overwritten is never the one that is evicted. */
  lemma PutContract(s: State, key: string, data: seq<byte>, alloc: Allocation, evicted: bool)
    requires Accounted(s)
    ensures var r := Put(s, key, data, alloc, evicted);
            && (r.ok <==>
                  && 0 < |data| <= s.maxObject && |data| <= s.maxTotal && alloc.data
                  && (Find(s.items, key) == |s.items| ==> alloc.entry && alloc.key))
            && (!Admissible(s, data) ==> r.state == s && r.evicted == evicted)
            && (r.ok && Storable(r.state) ==> Addressable(s, key, data))
            && (Admissible(s, data) && Addressable(s, key, data) ==>
                  && (r.evicted <==> Kept(s, key, data) < |Others(s.items, key)|)
                  && (r.ok ==> r.state.items == [Item(key, data)] + Others(s.items, key)[..Kept(s, key, data)]))
            && (Find(s.items, key) < |s.items| ==> Find(r.state.items, key) < |r.state.items|)
  {
    PutMeaning(s, key, data, alloc, evicted);
    if Admissible(s, data) && !Addressable(s, key, data) {
      OverflownSum(s, key, data, alloc);
    } else if Admissible(s, data) {
      KeptFacts(s, key, data);
      hide Put, Keep, Sum, Wrap, Kept, Exact, Evict, Addressable, Storable;
      ExactContract(s, key, data, alloc);
    }
  }

  /** A success that overflows has stored more than fits an address space; a failure has stored nothing. */
  lemma OverflownSum(s: State, key: string, data: seq<byte>, alloc: Allocation)
    requires Accounted(s) && Admissible(s, data) && !Addressable(s, key, data)
    ensures var r := Overflown(s, key, data, alloc);
            if r.ok then !Storable(r.state) else Accounted(r.state)
  {
    hide Keep, Sum;
    var others, i := Others(s.items, key), Find(s.items, key);
    OthersSum(s, key);
    assert others[..|others|] == others;
    SumPrepend(Item(key, data), others, |others|);
    if i < |s.items| {
      SumPrepend(s.items[i], others, |others|);
    }
  }

  lemma ExactContract(s: State, key: string, data: seq<byte>, alloc: Allocation)
    requires Admissible(s, data)
    requires var i := Find(s.items, key);
             i < |s.items| && |data| <= |s.items[i].data| ==> Kept(s, key, data) == |Others(s.items, key)|
    ensures var r := Exact(s, key, data, alloc);
            && (r.ok <==> Allocated(s, key, alloc))
            && (r.ok ==> r.state.items == [Item(key, data)] + Others(s.items, key)[..Kept(s, key, data)])
            && (r.evicted <==> Kept(s, key, data) < |Others(s.items, key)|)
            && (Find(s.items, key) < |s.items| ==> Find(r.state.items, key) < |r.state.items|)
  {
  }

  /** A new item in front of some of the entries with other keys. */
  lemma FrontWellFormed(items: seq<Item>, key: string, data: seq<byte>, n: nat, maxObject: nat)
    requires WellFormed(items, maxObject) && 0 < |data| <= maxObject
    requires n <= |Others(items, key)|
    ensures WellFormed([Item(key, data)] + Others(items, key)[..n], maxObject)
  {
    OthersWellFormed(items, key, maxObject);
  }

  lemma OthersWellFormed(items: seq<Item>, key: string, maxObject: nat)
    requires WellFormed(items, maxObject)
    ensures WellFormed(Others(items, key), maxObject)
    ensures forall j :: 0 <= j < |Others(items, key)| ==> Others(items, key)[j].key != key
  {
    var others, i := Others(items, key), Find(items, key);
    assert i < |items| ==> items[i].key == key;
    assert forall j :: 0 <= j < |others| ==> others[j] == items[if j < i then j else j + 1];
    hide Others, Find;
  }

  lemma ExactAccounted(s: State, key: string, data: seq<byte>, alloc: Allocation)
    requires Accounted(s) && Admissible(s, data) && Addressable(s, key, data)
    ensures Accounted(Exact(s, key, data, alloc).state)
  {
    hide Evict, Keep, Sum;
    var others, i, n := Others(s.items, key), Find(s.items, key), Kept(s, key, data);
    KeptFacts(s, key, data);
    OthersSum(s, key);
    SumPrepend(Item(key, data), others, n);
    SumTake(others, n);
    if i < |s.items| {
      SumPrepend(s.items[i], others, n);
    }
  }

  lemma ExactWellFormed(s: State, key: string, data: seq<byte>, alloc: Allocation)
    requires WellFormed(s.items, s.maxObject) && Admissible(s, data)
    ensures WellFormed(Exact(s, key, data, alloc).state.items, s.maxObject)
  {
    hide Evict, Keep, Sum;
    var i, n := Find(s.items, key), Kept(s, key, data);
    FrontWellFormed(s.items, key, data, n, s.maxObject);
    if i < |s.items| {
      FrontWellFormed(s.items, key, s.items[i].data, n, s.maxObject);
    }
  }

  lemma OverflownWellFormed(s: State, key: string, data: seq<byte>, alloc: Allocation)
    requires WellFormed(s.items, s.maxObject) && Admissible(s, data)
    ensures WellFormed(Overflown(s, key, data, alloc).state.items, s.maxObject)
  {
    hide Sum;
    var others, i := Others(s.items, key), Find(s.items, key);
    assert others[..|others|] == others;
    FrontWellFormed(s.items, key, data, |others|, s.maxObject);
    if i < |s.items| {
      FrontWellFormed(s.items, key, s.items[i].data, |others|, s.maxObject);
    }
  }

  /** Every put keeps the invariant, whatever the outcome of its allocations, exactly when what it leaves stored
      fits an address space. */
  lemma PutValid(s: State, key: string, data: seq<byte>, alloc: Allocation, evicted: bool)
    requires Valid(s)
    ensures var s' := Put(s, key, data, alloc, evicted).state;
            (Valid(s') <==> Storable(s')) && s'.maxTotal == s.maxTotal && s'.maxObject == s.maxObject
  {
    PutMeaning(s, key, data, alloc, evicted);
    if Admissible(s, data) {
      hide Evict, Keep, Sum, Put;
      if Addressable(s, key, data) {
        ExactAccounted(s, key, data, alloc);
        ExactWellFormed(s, key, data, alloc);
      } else {
        OverflownSum(s, key, data, alloc);
        OverflownWellFormed(s, key, data, alloc);
      }
    }
  }

  lemma GetValid(s: State, key: string, gotMemory: bool)
    requires Valid(s)
    ensures Valid(Get(s, key, gotMemory).state)
  {
    var i := Find(s.items, key);
    if i < |s.items| {
      var others := RemoveAt(s.items, i);
      assert others[..|others|] == others;
      SumRemoveAt(s.items, i);
      SumPrepend(s.items[i], others, |others|);
      FrontWellFormed(s.items, key, s.items[i].data, |others|, s.maxObject);
    }
  }
}
