/**
 Whole runs of the cache: any sequence of gets and puts, with any outcome of every allocation.
 */
module CacheRuns {
  import opened Common
  import opened CacheModel

  datatype Op =
    | GetOp(key: string, gotMemory: bool)
    | PutOp(key: string, data: seq<byte>, alloc: Allocation)

  /** A state with, for each key ever touched, the time of its last touch and the last value stored. */
  datatype History = History(state: State, touch: map<string, nat>, latest: map<string, seq<byte>>, clock: nat)

  function Empty(maxTotal: word, maxObject: word): State {
    State([], 0, maxTotal, maxObject)
  }

  function Step(s: State, op: Op): State {
    match op
    case GetOp(key, gotMemory) => Get(s, key, gotMemory).state
    case PutOp(key, data, alloc) => Put(s, key, data, alloc, false).state
  }

  predicate Stores(s: State, op: Op) {
    op.PutOp? && Put(s, op.key, op.data, op.alloc, false).ok
  }

  /** A successful get, a successful put, or a growing overwrite, which touches even when it fails. */
  predicate Touches(s: State, op: Op) {
    var i := Find(s.items, op.key);
    match op
    case GetOp(_, gotMemory) => i < |s.items| && gotMemory
    case PutOp(_, data, _) =>
      Stores(s, op) || (Admissible(s, data) && i < |s.items| && |data| > |s.items[i].data|)
  }

  function Advance(h: History, op: Op): History {
    History(Step(h.state, op),
            if Touches(h.state, op) then h.touch[op.key := h.clock] else h.touch,
            if Stores(h.state, op) then h.latest[op.key := op.data] else h.latest,
            h.clock + 1)
  }

  function Replay(start: State, ops: seq<Op>): History {
    if ops == [] then History(start, map[], map[], 0)
    else Advance(Replay(start, ops[..|ops| - 1]), ops[|ops| - 1])
  }

  lemma ReplayAppend(start: State, ops: seq<Op>, op: Op)
    ensures Replay(start, ops + [op]) == Advance(Replay(start, ops), op)
  {
  }

  // ----- recency order and contents, in the C code's own arithmetic, wrap-around included

  /** What a put does to the list: it touches its key and keeps `n` of the others, or it only drops a tail. */
  lemma PutShape(s: State, key: string, data: seq<byte>, alloc: Allocation) returns (n: nat)
    ensures var r := Put(s, key, data, alloc, false);
            var i := Find(s.items, key);
            if Touches(s, PutOp(key, data, alloc)) then
              && n <= |Others(s.items, key)| && (!r.ok ==> i < |s.items|)
              && r.state.items == [Item(key, if r.ok then data else s.items[i].data)] + Others(s.items, key)[..n]
            else n <= |s.items| && r.state.items == s.items[..n]
  {
    hide Evict;
    var i := Find(s.items, key);
    n := |s.items|;
    assert s.items[..|s.items|] == s.items;
    if Admissible(s, data) {
      if i == |s.items| {
        n := Evict(s.items, |s.items|, s.total, |data|, s.maxTotal).0;
      } else if |data| > |s.items[i].data| {
        var others := RemoveAt(s.items, i);
        n := Evict(others, |others|, Wrap(s.total - |s.items[i].data|), |data|, s.maxTotal).0;
      } else {
        var others := RemoveAt(s.items, i);
        assert others[..|others|] == others;
        n := if alloc.data then |others| else |s.items|;
      }
    }
  }

  predicate Resident(items: seq<Item>, key: string) {
    Find(items, key) < |items|
  }

  /** From front to back, strictly ordered by last touch. */
  ghost predicate Ordered(items: seq<Item>, touch: map<string, nat>) {
    && (forall i :: 0 <= i < |items| ==> items[i].key in touch)
    && (forall i, j :: 0 <= i < j < |items| ==> touch[items[j].key] < touch[items[i].key])
  }

  /** Every key that is not resident was last touched before every resident key. */
  ghost predicate DroppedFirst(items: seq<Item>, touch: map<string, nat>) {
    forall k, i :: k in touch && !Resident(items, k) && 0 <= i < |items| && items[i].key in touch ==>
      touch[k] < touch[items[i].key]
  }

  ghost predicate RecencyOrder(h: History) {
    && h.touch.Keys == h.latest.Keys
    && (forall k :: k in h.touch ==> h.touch[k] < h.clock)
    && Ordered(h.state.items, h.touch)
    && DroppedFirst(h.state.items, h.touch)
    && (forall i :: 0 <= i < |h.state.items| ==> h.latest[h.state.items[i].key] == h.state.items[i].data)
  }

  lemma Absent(items: seq<Item>, key: string)
    requires !Resident(items, key)
    ensures forall i :: 0 <= i < |items| ==> items[i].key != key
  {
  }

  /** A key outside a prefix is outside the list or beyond the prefix. */
  lemma NotInPrefix(items: seq<Item>, n: nat, k: string)
    requires n <= |items| && !Resident(items[..n], k)
    ensures Find(items, k) >= n
  {
  }

  lemma FindKey(items: seq<Item>, k: string)
    requires Resident(items, k)
    ensures items[Find(items, k)].key == k
  {
  }

  lemma DropKeepsDroppedFirst(items: seq<Item>, touch: map<string, nat>, n: nat)
    requires Ordered(items, touch) && DroppedFirst(items, touch) && n <= |items|
    ensures Ordered(items[..n], touch) && DroppedFirst(items[..n], touch)
  {
    hide Find;
    forall k, i | k in touch && !Resident(items[..n], k) && 0 <= i < n
      ensures touch[k] < touch[items[i].key]
    {
      NotInPrefix(items, n, k);
      if Resident(items, k) {
        FindKey(items, k);
      }
    }
  }

  /** `others[j]` in terms of the list it came from, and back. */
  lemma OthersIndex(items: seq<Item>, key: string, j: nat)
    requires j < |Others(items, key)|
    ensures Others(items, key)[j] == items[if j < Find(items, key) then j else j + 1]
  {
  }

  lemma OthersOrdered(items: seq<Item>, touch: map<string, nat>, key: string)
    requires Ordered(items, touch)
    ensures Ordered(Others(items, key), touch)
    ensures forall j :: 0 <= j < |Others(items, key)| ==> Others(items, key)[j].key != key
  {
    var others, f := Others(items, key), Find(items, key);
    forall j | 0 <= j < |others|
      ensures others[j].key in touch && others[j].key != key
    {
      OthersIndex(items, key, j);
    }
    forall i, j | 0 <= i < j < |others|
      ensures touch[others[j].key] < touch[others[i].key]
    {
      OthersIndex(items, key, i);
      OthersIndex(items, key, j);
    }
  }

  lemma FrontOrdered(x: Item, rest: seq<Item>, touch: map<string, nat>, clock: nat)
    requires Ordered(rest, touch) && forall j :: 0 <= j < |rest| ==> rest[j].key != x.key
    requires forall k :: k in touch ==> touch[k] < clock
    ensures Ordered([x] + rest, touch[x.key := clock])
  {
  }

  /** A key outside the new list is either outside the old one or among the others beyond the first `n`. */
  lemma NotKept(items: seq<Item>, x: Item, n: nat, k: string)
    requires n <= |Others(items, x.key)| && k != x.key
    requires !Resident([x] + Others(items, x.key)[..n], k)
    ensures !Resident(items, k) || exists j :: n <= j < |Others(items, x.key)| && Others(items, x.key)[j].key == k
  {
    var others, f, j := Others(items, x.key), Find(items, x.key), Find(items, k);
    if j < |items| {
      var j' := if f < j then j - 1 else j;
      OthersIndex(items, x.key, j');
      Absent([x] + others[..n], k);
      assert forall m :: 0 <= m < n ==> others[m] == ([x] + others[..n])[m + 1];
    }
  }

  lemma DroppedStaysOlder(items: seq<Item>, touch: map<string, nat>, x: Item, n: nat, k: string, i: nat)
    requires Ordered(items, touch) && DroppedFirst(items, touch) && i < n <= |Others(items, x.key)|
    requires k in touch && k != x.key && !Resident([x] + Others(items, x.key)[..n], k)
    ensures Others(items, x.key)[i].key in touch && touch[k] < touch[Others(items, x.key)[i].key]
  {
    OthersOrdered(items, touch, x.key);
    NotKept(items, x, n, k);
    OthersIndex(items, x.key, i);
  }

  lemma TouchKeepsDroppedFirst(items: seq<Item>, touch: map<string, nat>, x: Item, n: nat, clock: nat)
    requires Ordered(items, touch) && DroppedFirst(items, touch) && n <= |Others(items, x.key)|
    requires forall k :: k in touch ==> touch[k] < clock
    ensures DroppedFirst([x] + Others(items, x.key)[..n], touch[x.key := clock])
  {
    var others, items' := Others(items, x.key), [x] + Others(items, x.key)[..n];
    var touch' := touch[x.key := clock];
    OthersOrdered(items, touch, x.key);
    hide Ordered, DroppedFirst, Others;
    forall k, i | k in touch' && !Resident(items', k) && 0 <= i < |items'| && items'[i].key in touch'
      ensures touch'[k] < touch'[items'[i].key]
    {
      assert items'[0].key == x.key;
      assert k != x.key;
      if i > 0 {
        DroppedStaysOlder(items, touch, x, n, k, i - 1);
        assert items'[i] == others[i - 1];
      }
    }
  }

  lemma TouchKeepsLatest(h: History, x: Item, n: nat)
    requires RecencyOrder(h) && n <= |Others(h.state.items, x.key)|
    ensures var items := [x] + Others(h.state.items, x.key)[..n];
            forall i :: 0 <= i < |items| ==>
              items[i].key in h.latest[x.key := x.data] && h.latest[x.key := x.data][items[i].key] == items[i].data
  {
    OthersOrdered(h.state.items, h.touch, x.key);
    var others := Others(h.state.items, x.key);
    forall i | 0 <= i < |others|
      ensures others[i].key in h.latest && h.latest[others[i].key] == others[i].data
    {
      OthersIndex(h.state.items, x.key, i);
    }
  }

  lemma TouchKeepsOrder(h: History, x: Item, n: nat, h': History)
    requires RecencyOrder(h) && n <= |Others(h.state.items, x.key)|
    requires h'.state.items == [x] + Others(h.state.items, x.key)[..n]
    requires h'.touch == h.touch[x.key := h.clock] && h'.latest == h.latest[x.key := x.data] && h'.clock == h.clock + 1
    ensures RecencyOrder(h')
  {
    var others := Others(h.state.items, x.key);
    OthersOrdered(h.state.items, h.touch, x.key);
    FrontOrdered(x, others[..n], h.touch, h.clock);
    TouchKeepsDroppedFirst(h.state.items, h.touch, x, n, h.clock);
    TouchKeepsLatest(h, x, n);
  }

  lemma DropKeepsOrder(h: History, n: nat, h': History)
    requires RecencyOrder(h) && n <= |h.state.items|
    requires h'.state.items == h.state.items[..n]
    requires h'.touch == h.touch && h'.latest == h.latest && h'.clock == h.clock + 1
    ensures RecencyOrder(h')
  {
    DropKeepsDroppedFirst(h.state.items, h.touch, n);
  }

  lemma GetKeepsOrder(h: History, key: string, gotMemory: bool)
    requires RecencyOrder(h)
    ensures RecencyOrder(Advance(h, GetOp(key, gotMemory)))
  {
    var items, i := h.state.items, Find(h.state.items, key);
    var h' := Advance(h, GetOp(key, gotMemory));
    if i < |items| && gotMemory {
      assert h.latest[key := items[i].data] == h.latest;
      var others := RemoveAt(items, i);
      hide RecencyOrder;
      assert others[..|others|] == others;
      TouchKeepsOrder(h, items[i], |others|, h');
    } else {
      hide RecencyOrder;
      assert items[..|items|] == items;
      DropKeepsOrder(h, |items|, h');
    }
  }

  lemma PutKeepsOrder(h: History, key: string, data: seq<byte>, alloc: Allocation)
    requires RecencyOrder(h)
    ensures RecencyOrder(Advance(h, PutOp(key, data, alloc)))
  {
    var op := PutOp(key, data, alloc);
    var h' := Advance(h, op);
    var i := Find(h.state.items, key);
    var n := PutShape(h.state, key, data, alloc);
    if Touches(h.state, op) {
      var value := if Stores(h.state, op) then data else h.state.items[i].data;
      assert h.latest[key := value] == h'.latest;
      hide RecencyOrder, Put;
      TouchKeepsOrder(h, Item(key, value), n, h');
    } else {
      hide RecencyOrder, Put;
      DropKeepsOrder(h, n, h');
    }
  }

  /** The recency list is in LRU order after every run. */
  lemma {:induction false} LruOrder(maxTotal: word, maxObject: word, ops: seq<Op>)
    ensures RecencyOrder(Replay(Empty(maxTotal, maxObject), ops))
  {
    if ops != [] {
      LruOrder(maxTotal, maxObject, ops[..|ops| - 1]);
      var h := Replay(Empty(maxTotal, maxObject), ops[..|ops| - 1]);
      match ops[|ops| - 1]
      case GetOp(key, gotMemory) => GetKeepsOrder(h, key, gotMemory);
      case PutOp(key, data, alloc) => PutKeepsOrder(h, key, data, alloc);
    }
  }

  /** After every run a get succeeds exactly when its key is resident and it gets memory for the copy, and then
      it returns the value of the last successful put of the key. */
  lemma GetReturnsLatest(maxTotal: word, maxObject: word, ops: seq<Op>, key: string, gotMemory: bool)
    ensures var h := Replay(Empty(maxTotal, maxObject), ops);
            var r := Get(h.state, key, gotMemory);
            && (r.value.Some? <==> Resident(h.state.items, key) && gotMemory)
            && (r.value.Some? ==> key in h.latest && r.value == Some(h.latest[key]))
  {
    LruOrder(maxTotal, maxObject, ops);
  }

  // ----- the byte budget

  predicate WithinBudget(s: State) {
    Sum(s.items, |s.items|) <= s.maxTotal
  }

  /** At no point of the run does the stored payload exceed an address space.  All of it is allocated memory, so
      every run that can happen is like this. */
  ghost predicate StaysStorable(start: State, ops: seq<Op>) {
    forall n :: 0 <= n <= |ops| ==> Storable(Replay(start, ops[..n]).state)
  }

  lemma StaysStorableBefore(start: State, ops: seq<Op>)
    requires StaysStorable(start, ops) && ops != []
    ensures StaysStorable(start, ops[..|ops| - 1])
  {
    var before := ops[..|ops| - 1];
    forall n | 0 <= n <= |before| ensures Storable(Replay(start, before[..n]).state) {
      assert before[..n] == ops[..n];
    }
  }

  /** Every run that can happen keeps the whole invariant, for every budget and every outcome of the allocations:
      where the guard's sum wraps around, nothing is evicted and nothing can be stored either. */
  lemma {:induction false} RunValid(maxTotal: word, maxObject: word, ops: seq<Op>)
    requires 0 < maxObject <= maxTotal && StaysStorable(Empty(maxTotal, maxObject), ops)
    ensures var s := Replay(Empty(maxTotal, maxObject), ops).state;
            Valid(s) && s.maxTotal == maxTotal && s.maxObject == maxObject
  {
    assert ops[..|ops|] == ops;
    if ops != [] {
      StaysStorableBefore(Empty(maxTotal, maxObject), ops);
      RunValid(maxTotal, maxObject, ops[..|ops| - 1]);
      var s := Replay(Empty(maxTotal, maxObject), ops[..|ops| - 1]).state;
      match ops[|ops| - 1]
      case GetOp(key, gotMemory) => GetValid(s, key, gotMemory);
      case PutOp(key, data, alloc) => PutValid(s, key, data, alloc, false);
    }
  }

  /** A cache as `cache_create` accepts it stays within its byte budget all along a run exactly when the stored
      payload fits an address space all along the run. */
  lemma BudgetIffStorable(maxTotal: word, maxObject: word, ops: seq<Op>)
    requires 0 < maxObject <= maxTotal
    ensures StaysStorable(Empty(maxTotal, maxObject), ops) <==>
            forall n :: 0 <= n <= |ops| ==> WithinBudget(Replay(Empty(maxTotal, maxObject), ops[..n]).state)
  {
    var start := Empty(maxTotal, maxObject);
    if StaysStorable(start, ops) {
      forall n | 0 <= n <= |ops| ensures WithinBudget(Replay(start, ops[..n]).state) {
        forall m | 0 <= m <= n ensures Storable(Replay(start, ops[..n][..m]).state) {
          assert ops[..n][..m] == ops[..m];
        }
        RunValid(maxTotal, maxObject, ops[..n]);
      }
    }
  }

  // ----- more memory never gives more misses

  /** What the server does with a key: look it up, and store the origin's response on a miss. */
  function Access(s: State, key: string, response: seq<byte>): State {
    if Resident(s.items, key) then Get(s, key, true).state
    else Put(s, key, response, Allocation(true, true, true), false).state
  }

  function Trace(s: State, keys: seq<string>, origin: string -> seq<byte>): State {
    if keys == [] then s
    else
      var key := keys[|keys| - 1];
      Access(Trace(s, keys[..|keys| - 1], origin), key, origin(key))
  }

  lemma KeepMonotone(small: seq<Item>, large: seq<Item>, budget: nat, larger: nat)
    requires small <= large && budget <= larger
    ensures Keep(small, |small|, budget) <= Keep(large, |large|, larger)
  {
    var k := Keep(small, |small|, budget);
    KeepIsLongest(small, |small|, budget);
    KeepIsLongest(large, |large|, larger);
    SumCongruent(small, 0, large, 0, k);
  }

  lemma FindInPrefix(small: seq<Item>, large: seq<Item>, key: string)
    requires small <= large
    ensures Resident(small, key) ==> Find(large, key) == Find(small, key)
    ensures !Resident(small, key) ==> Find(large, key) >= |small|
  {
  }

  lemma ExactStored(s: State, key: string, data: seq<byte>, alloc: Allocation)
    requires Admissible(s, data) && Allocated(s, key, alloc)
    ensures Exact(s, key, data, alloc).state.items == [Item(key, data)] + Others(s.items, key)[..Kept(s, key, data)]
  {
  }

  lemma KeptOnMiss(s: State, key: string, data: seq<byte>)
    requires Others(s.items, key) == s.items && Admissible(s, data)
    ensures Kept(s, key, data) == Keep(s.items, |s.items|, s.maxTotal - |data|)
  {
  }

  lemma ExactMiss(s: State, key: string, data: seq<byte>)
    requires !Resident(s.items, key) && Admissible(s, data)
    ensures Exact(s, key, data, Allocation(true, true, true)).state.items ==
            [Item(key, data)] + s.items[..Keep(s.items, |s.items|, s.maxTotal - |data|)]
  {
    hide Exact, Kept, Keep;
    KeptOnMiss(s, key, data);
    ExactStored(s, key, data, Allocation(true, true, true));
  }

  lemma AccessMiss(s: State, key: string, response: seq<byte>)
    requires Valid(s) && !Resident(s.items, key) && (Admissible(s, response) ==> Addressable(s, key, response))
    ensures Access(s, key, response).items ==
            if Admissible(s, response) then
              [Item(key, response)] + s.items[..Keep(s.items, |s.items|, s.maxTotal - |response|)]
            else s.items
  {
    PutMeaning(s, key, response, Allocation(true, true, true), false);
    if Admissible(s, response) {
      hide Put, Keep, Sum, Exact;
      ExactMiss(s, key, response);
    }
  }

  ghost predicate FromOrigin(items: seq<Item>, origin: string -> seq<byte>) {
    forall i :: 0 <= i < |items| ==> items[i].data == origin(items[i].key)
  }

  lemma AccessHit(s: State, key: string, response: seq<byte>)
    requires Resident(s.items, key)
    ensures var i := Find(s.items, key);
            Access(s, key, response).items == [s.items[i]] + RemoveAt(s.items, i)
  {
  }

  lemma AccessFromOrigin(s: State, key: string, origin: string -> seq<byte>)
    requires FromOrigin(s.items, origin)
    ensures FromOrigin(Access(s, key, origin(key)).items, origin)
  {
    if !Resident(s.items, key) {
      var n := PutShape(s, key, origin(key), Allocation(true, true, true));
      hide Put;
    }
  }

  lemma AccessValid(s: State, key: string, response: seq<byte>)
    requires Valid(s)
    ensures var s' := Access(s, key, response);
            (Valid(s') <==> Storable(s')) && s'.maxTotal == s.maxTotal && s'.maxObject == s.maxObject
  {
    GetValid(s, key, true);
    PutValid(s, key, response, Allocation(true, true, true), false);
  }

  lemma {:induction false} SumBeyond(items: seq<Item>, k: nat, n: nat)
    requires k <= n <= |items|
    ensures Sum(items, k) <= Sum(items, n)
    ensures forall i :: k <= i < n ==> Sum(items, k) + |items[i].data| <= Sum(items, n)
  {
    if k < n {
      SumBeyond(items, k, n - 1);
    }
  }

  /** A prefix of what is stored is smaller, by any entry beyond it. */
  lemma PrefixSum(small: seq<Item>, large: seq<Item>)
    requires small <= large
    ensures Sum(small, |small|) <= Sum(large, |large|)
    ensures forall i :: |small| <= i < |large| ==> Sum(small, |small|) + |large[i].data| <= Sum(large, |large|)
  {
    SumCongruent(small, 0, large, 0, |small|);
    SumBeyond(large, |small|, |large|);
  }

  /** The smaller cache misses where the larger one hits. */
  lemma LargeHitKeepsInclusion(small: seq<Item>, large: seq<Item>, key: string, n: nat)
    requires small <= large && n <= |small| && !Resident(small, key) && Resident(large, key)
    ensures small[..n] <= RemoveAt(large, Find(large, key))
  {
  }

  /** Both caches hit, at the same place. */
  lemma BothHitKeepsInclusion(small: seq<Item>, large: seq<Item>, i: nat)
    requires small <= large && i < |small|
    ensures [small[i]] + RemoveAt(small, i) <= [large[i]] + RemoveAt(large, i)
  {
  }

  lemma SameAdmissible(small: State, large: State, key: string, origin: string -> seq<byte>)
    requires Valid(small) && Valid(large) && FromOrigin(large.items, origin)
    requires small.maxTotal <= large.maxTotal && small.maxObject == large.maxObject
    ensures Admissible(small, origin(key)) <==> Admissible(large, origin(key))
    ensures Resident(large.items, key) ==> Admissible(large, origin(key))
  {
  }

  /** Both caches have room in the address space for what the larger one stores. */
  lemma MissIsAddressable(small: State, large: State, key: string, response: seq<byte>)
    requires Valid(large) && Storable(Access(large, key, response)) && small.items <= large.items
    requires !Resident(small.items, key) && !Resident(large.items, key)
    ensures Admissible(large, response) ==> Addressable(small, key, response) && Addressable(large, key, response)
  {
    PutContract(large, key, response, Allocation(true, true, true), false);
    hide Put, Sum;
    PrefixSum(small.items, large.items);
  }

  lemma MissKeepsInclusion(small: State, large: State, key: string, response: seq<byte>)
    requires Valid(small) && Valid(large) && Storable(Access(large, key, response))
    requires small.maxTotal <= large.maxTotal && small.maxObject == large.maxObject
    requires small.items <= large.items && !Resident(large.items, key)
    requires Admissible(small, response) <==> Admissible(large, response)
    ensures Access(small, key, response).items <= Access(large, key, response).items
  {
    hide Valid, Keep, Put, Access, Addressable, Storable, Find;
    FindInPrefix(small.items, large.items, key);
    MissIsAddressable(small, large, key, response);
    hide Resident;
    AccessMiss(small, key, response);
    AccessMiss(large, key, response);
    if Admissible(small, response) {
      KeepMonotone(small.items, large.items, small.maxTotal - |response|, large.maxTotal - |response|);
    }
  }

  lemma HitKeepsInclusion(small: State, large: State, key: string, response: seq<byte>)
    requires Valid(small) && Valid(large) && small.items <= large.items
    requires Resident(large.items, key) && large.items[Find(large.items, key)].data == response
    requires Resident(small.items, key) || Admissible(small, response)
    ensures Access(small, key, response).items <= Access(large, key, response).items
  {
    FindInPrefix(small.items, large.items, key);
    PrefixSum(small.items, large.items);
    hide Valid, Keep, Put, Access, Sum;
    AccessHit(large, key, response);
    if Resident(small.items, key) {
      AccessHit(small, key, response);
      BothHitKeepsInclusion(small.items, large.items, Find(small.items, key));
    } else {
      AccessMiss(small, key, response);
      var n := Keep(small.items, |small.items|, small.maxTotal - |response|);
      LargeHitKeepsInclusion(small.items, large.items, key, n);
    }
  }

  lemma AccessKeepsInclusion(small: State, large: State, key: string, origin: string -> seq<byte>)
    requires Valid(small) && Valid(large) && Storable(Access(large, key, origin(key)))
    requires small.maxTotal <= large.maxTotal && small.maxObject == large.maxObject
    requires small.items <= large.items && FromOrigin(large.items, origin)
    ensures Access(small, key, origin(key)).items <= Access(large, key, origin(key)).items
  {
    SameAdmissible(small, large, key, origin);
    if Resident(large.items, key) {
      HitKeepsInclusion(small, large, key, origin(key));
    } else {
      MissKeepsInclusion(small, large, key, origin(key));
    }
  }

  ghost predicate TraceStorable(start: State, keys: seq<string>, origin: string -> seq<byte>) {
    forall n :: 0 <= n <= |keys| ==> Storable(Trace(start, keys[..n], origin))
  }

  lemma TraceStorableBefore(start: State, keys: seq<string>, origin: string -> seq<byte>)
    requires TraceStorable(start, keys, origin)
    ensures Storable(Trace(start, keys, origin)) && (keys != [] ==> TraceStorable(start, keys[..|keys| - 1], origin))
  {
    assert keys[..|keys|] == keys;
    if keys != [] {
      var before := keys[..|keys| - 1];
      forall n | 0 <= n <= |before| ensures Storable(Trace(start, before[..n], origin)) {
        assert before[..n] == keys[..n];
      }
    }
  }

  /** Inclusion: on one trace of keys, with one response per key, the recency list of the smaller cache is
      always a prefix of the larger one's. */
  lemma {:induction false} Inclusion(m: word, M: word, maxObject: word, keys: seq<string>, origin: string -> seq<byte>)
    requires 0 < maxObject <= m <= M && TraceStorable(Empty(M, maxObject), keys, origin)
    ensures var small, large := Trace(Empty(m, maxObject), keys, origin), Trace(Empty(M, maxObject), keys, origin);
            && Valid(small) && Valid(large) && FromOrigin(large.items, origin)
            && small.maxTotal == m && large.maxTotal == M && small.maxObject == large.maxObject == maxObject
            && small.items <= large.items
  {
    if keys != [] {
      var shorter, key := keys[..|keys| - 1], keys[|keys| - 1];
      TraceStorableBefore(Empty(M, maxObject), keys, origin);
      Inclusion(m, M, maxObject, shorter, origin);
      var small, large := Trace(Empty(m, maxObject), shorter, origin), Trace(Empty(M, maxObject), shorter, origin);
      hide Valid, Access, FromOrigin;
      AccessKeepsInclusion(small, large, key, origin);
      AccessFromOrigin(large, key, origin);
      AccessValid(small, key, origin(key));
      AccessValid(large, key, origin(key));
      PrefixSum(Access(small, key, origin(key)).items, Access(large, key, origin(key)).items);
    }
  }

  /** Every hit of the smaller cache is a hit of the larger one, with the same bytes. */
  lemma MoreMemoryNeverMissesMore(m: word, M: word, maxObject: word, keys: seq<string>,
                                  origin: string -> seq<byte>, key: string)
    requires 0 < maxObject <= m <= M && TraceStorable(Empty(M, maxObject), keys, origin)
    ensures var small, large := Trace(Empty(m, maxObject), keys, origin), Trace(Empty(M, maxObject), keys, origin);
            Get(small, key, true).value.Some? ==> Get(large, key, true).value == Get(small, key, true).value
  {
    Inclusion(m, M, maxObject, keys, origin);
    FindInPrefix(Trace(Empty(m, maxObject), keys, origin).items, Trace(Empty(M, maxObject), keys, origin).items, key);
  }
}
