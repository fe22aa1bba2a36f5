/**
 The shared cache as linked structures updated in place: every entry is on a bucket chain of `table` and
 on the recency list.  Each method computes the corresponding function of `CacheModel`.
 A method body is one critical section of the cache's mutex.
 */
module Cache {
  import opened Common
  import opened Lru
  import opened BucketTable
  import M = CacheModel
  import R = CacheRuns

  ghost function NodeSet(nodes: seq<Entry>): set<Entry> {
    set e | e in nodes
  }

  /** The entries on the chains are those on the recency list and those detached from it; every entry ever
      linked is on a chain or was freed once. */
  ghost predicate Owned(members: set<Entry>, nodes: seq<Entry>, detached: set<Entry>, linked: set<Entry>,
                        freed: seq<Entry>)
  {
    && members == NodeSet(nodes) + detached
    && NodeSet(nodes) !! detached
    && linked == members + NodeSet(freed)
    && members !! NodeSet(freed)
    && Distinct(freed)
  }

  lemma FreeLast(members: set<Entry>, nodes: seq<Entry>, detached: set<Entry>, linked: set<Entry>, freed: seq<Entry>)
    requires Owned(members, nodes, detached, linked, freed) && Distinct(nodes) && nodes != []
    ensures var last := nodes[|nodes| - 1];
            Owned(members - {last}, nodes[..|nodes| - 1], detached, linked, freed + [last])
  {
  }

  lemma DetachOwned(members: set<Entry>, nodes: seq<Entry>, linked: set<Entry>, freed: seq<Entry>, i: nat)
    requires Owned(members, nodes, {}, linked, freed) && Distinct(nodes) && i < |nodes|
    ensures Owned(members, RemoveAt(nodes, i), {nodes[i]}, linked, freed)
    ensures nodes[i] !in RemoveAt(nodes, i) && nodes[i] in members
  {
  }

  lemma AttachOwned(members: set<Entry>, nodes: seq<Entry>, entry: Entry, linked: set<Entry>, freed: seq<Entry>)
    requires Owned(members, nodes, {entry}, linked, freed)
    ensures Owned(members, [entry] + nodes, {}, linked, freed)
    ensures entry !in nodes && entry in members
  {
  }

  /** The entries on the chains `from`, `from + 1`, ... */
  ghost function Rest(chains: seq<seq<Entry>>, from: nat): set<Entry> {
    set b, i | from <= b < |chains| && 0 <= i < |chains[b]| :: chains[b][i]
  }

  lemma RestStep(chains: seq<seq<Entry>>, members: set<Entry>, b: nat)
    requires BucketTable.Holds(chains, members) && b < |chains|
    ensures Rest(chains, b) == NodeSet(chains[b]) + Rest(chains, b + 1)
    ensures NodeSet(chains[b]) !! Rest(chains, b + 1)
    ensures Rest(chains, 0) == members
  {
  }

  lemma LinkOwned(members: set<Entry>, nodes: seq<Entry>, entry: Entry, linked: set<Entry>, freed: seq<Entry>)
    requires Owned(members, nodes, {}, linked, freed) && entry !in linked
    ensures Owned(members + {entry}, nodes, {entry}, linked + {entry}, freed)
    ensures entry !in members
  {
  }

  /** `items` is the value of the entries `nodes`. */
  ghost predicate Stores(nodes: seq<Entry>, items: seq<M.Item>)
    reads nodes`data, nodes`sizeBytes
  {
    && |items| == |nodes|
    && (forall i {:trigger nodes[i].data} {:trigger items[i]} :: 0 <= i < |items| ==>
          items[i] == M.Item(nodes[i].key, nodes[i].data) && nodes[i].sizeBytes == |nodes[i].data|)
  }

  lemma StoresFront(nodes: seq<Entry>, items: seq<M.Item>)
    requires Stores(nodes, items) && nodes != []
    ensures |items| == |nodes| && nodes[|nodes| - 1].sizeBytes == |items[|nodes| - 1].data|
    ensures Stores(nodes[..|nodes| - 1], items[..|nodes| - 1])
  {
  }

  lemma EvictUnfold(items: seq<M.Item>, n: nat, total: word, incoming: nat, maxTotal: word)
    requires n <= |items|
    ensures M.Evict(items, n, total, incoming, maxTotal) ==
            if Wrap(total + incoming) <= maxTotal || n == 0 then (n, total)
            else
              var size := |items[n - 1].data|;
              M.Evict(items, n - 1, if total >= size then total - size else 0, incoming, maxTotal)
  {
  }

  lemma StoresRemoveAt(nodes: seq<Entry>, items: seq<M.Item>, i: nat)
    requires Stores(nodes, items) && i < |nodes|
    ensures |items| == |nodes| && Stores(RemoveAt(nodes, i), RemoveAt(items, i))
    ensures items[i] == M.Item(nodes[i].key, nodes[i].data) && nodes[i].sizeBytes == |nodes[i].data|
  {
  }

  lemma StoresFrontOf(entry: Entry, nodes: seq<Entry>, items: seq<M.Item>)
    requires Stores(nodes, items) && entry.sizeBytes == |entry.data|
    ensures Stores([entry] + nodes, [M.Item(entry.key, entry.data)] + items)
  {
  }

  class Cache {
    const table: Table
    const lruList: LruList
    const maxTotal: word
    const maxObject: word
    var currentSize: word
    /** The recency list as values. */
    ghost var items: seq<M.Item>
    /** Every entry ever linked into the cache, and those of them already freed, in order. */
    ghost var linked: set<Entry>
    ghost var freed: seq<Entry>

    /** The structural invariant while the entries in `detached` are on their chains but off the recency list. */
    ghost predicate Linked(detached: set<Entry>)
      reads this, table, table.buckets, table.members, lruList, lruList.nodes
    {
      && table.Valid() && lruList.Valid()
      && Owned(table.members, lruList.nodes, detached, linked, freed)
      && Stores(lruList.nodes, items)
    }

    ghost predicate Valid()
      reads this, table, table.buckets, table.members, lruList, lruList.nodes
    {
      Linked({})
    }

    ghost function State(): M.State
      reads this
    {
      M.State(items, currentSize, maxTotal, maxObject)
    }

    constructor (maxTotal: word, maxObject: word)
      ensures Valid() && State() == M.State([], 0, maxTotal, maxObject)
      ensures linked == table.members == {} && freed == []
      ensures fresh(table) && fresh(table.buckets) && fresh(lruList)
    {
      table := new Table();
      lruList := new LruList();
      this.maxTotal := maxTotal;
      this.maxObject := maxObject;
      currentSize := 0;
      items, linked, freed := [], {}, [];
    }

    /** `cache_create`: null for arguments it rejects and when either allocation fails. */
    static method Create(maxTotal: word, maxObject: word, gotCache: bool, gotBuckets: bool) returns (cache: Cache?)
      ensures cache != null <==> 0 < maxObject <= maxTotal && gotCache && gotBuckets
      ensures cache != null ==>
                && cache.Valid() && cache.State() == M.State([], 0, maxTotal, maxObject)
                && cache.linked == cache.table.members == {} && cache.freed == []
                && fresh(cache) && fresh(cache.table) && fresh(cache.table.buckets) && fresh(cache.lruList)
    {
      if maxTotal == 0 || maxObject == 0 || maxObject > maxTotal {
        return null;
      }
      if !gotCache {
        return null;
      }
      if !gotBuckets {
        return null;
      }
      cache := new Cache(maxTotal, maxObject);
    }

    method EvictIfNeeded(incoming: nat, ghost detached: set<Entry>, evictedBefore: bool) returns (evicted: bool)
      requires Linked(detached)
      modifies this`currentSize, this`items, this`freed, table, table.buckets, table.members`bucketNext
      modifies lruList, lruList.nodes`prev, lruList.nodes`next
      ensures Linked(detached) && table.members <= old(table.members) && old(freed) <= freed
      ensures var (n, total) := M.Evict(old(items), |old(items)|, old(currentSize), incoming, maxTotal);
              && items == old(items)[..n] && currentSize == total
              && n <= |old(lruList.nodes)| && lruList.nodes == old(lruList.nodes)[..n]
              && evicted == (evictedBefore || n < |old(items)|)
    {
      hide LruList.Valid, Table.Valid, Owned, Stores, M.Evict;
      evicted := evictedBefore;
      SizeFacts(detached);
      ghost var n: nat := |items|;
      while Wrap(currentSize + incoming) > maxTotal && lruList.tail != null
        invariant Linked(detached) && table.members <= old(table.members) && old(freed) <= freed
        invariant n <= |old(lruList.nodes)| && lruList.nodes == old(lruList.nodes)[..n]
        invariant n <= |old(items)| && items == old(items)[..n]
        invariant M.Evict(old(items), n, currentSize, incoming, maxTotal) ==
                  M.Evict(old(items), |old(items)|, old(currentSize), incoming, maxTotal)
        invariant evicted == (evictedBefore || n < |old(items)|)
        decreases n
      {
        SizeFacts(detached);
        EvictUnfold(old(items), n, currentSize, incoming, maxTotal);
        RemoveOldest(detached);
        evicted := true;
        n := n - 1;
      }
      SizeFacts(detached);
      EvictUnfold(old(items), n, currentSize, incoming, maxTotal);
    }

    lemma SizeFacts(detached: set<Entry>)
      requires Linked(detached)
      ensures |items| == |lruList.nodes| && (lruList.tail == null <==> items == [])
    {
    }

    /** What one round of the eviction loop relies on. */
    lemma OldestFacts(detached: set<Entry>)
      requires Linked(detached) && lruList.nodes != []
      ensures var nodes, last := lruList.nodes, |lruList.nodes| - 1;
              && |items| == |nodes| && nodes[last] in table.members && nodes[last].sizeBytes == |items[last].data|
              && Stores(nodes[..last], items[..last])
              && Owned(table.members - {nodes[last]}, nodes[..last], detached, linked, freed + [nodes[last]])
    {
      hide Table.Valid;
      FreeLast(table.members, lruList.nodes, detached, linked, freed);
      StoresFront(lruList.nodes, items);
    }

    /** One round of the eviction loop. */
    method RemoveOldest(ghost detached: set<Entry>)
      requires Linked(detached) && lruList.nodes != []
      modifies this`currentSize, this`items, this`freed, table, table.buckets, table.members`bucketNext
      modifies lruList, lruList.nodes`prev, lruList.nodes`next
      ensures Linked(detached) && table.members <= old(table.members) && old(freed) <= freed
      ensures lruList.nodes == old(lruList.nodes)[..|old(items)| - 1]
      ensures items == old(items)[..|old(items)| - 1]
      ensures var size := |old(items)[|old(items)| - 1].data|;
              currentSize == if old(currentSize) >= size then old(currentSize) - size else 0
    {
      hide LruList.Valid, Table.Valid, Owned, Stores;
      OldestFacts(detached);
      var oldest := lruList.RemoveTail();
      table.Remove(oldest);
      if currentSize >= oldest.sizeBytes {
        currentSize := currentSize - oldest.sizeBytes;
      } else {
        currentSize := 0;
      }
      freed := freed + [oldest];
      items := items[..|items| - 1];
    }

    lemma NodesDistinct(detached: set<Entry>)
      requires Linked(detached)
      ensures Distinct(lruList.nodes)
    {
    }

    method DetachEntry(entry: Entry, ghost i: nat)
      requires Linked({}) && i < |lruList.nodes| && lruList.nodes[i] == entry && Position(lruList.nodes, entry) == i
      modifies this`items, lruList, lruList.nodes`prev, lruList.nodes`next
      ensures Linked({entry}) && lruList.nodes == RemoveAt(old(lruList.nodes), i)
      ensures i < |old(items)| && items == RemoveAt(old(items), i)
    {
      hide LruList.Valid, Table.Valid, Owned, Stores, Position;
      NodesDistinct({});
      DetachOwned(table.members, lruList.nodes, linked, freed, i);
      StoresRemoveAt(lruList.nodes, items, i);
      lruList.Detach(entry);
      items := RemoveAt(items, i);
    }

    method AttachEntry(entry: Entry)
      requires Linked({entry}) && entry.sizeBytes == |entry.data|
      modifies this`items, lruList, lruList.nodes`prev, entry`prev, entry`next
      ensures Linked({}) && lruList.nodes == [entry] + old(lruList.nodes)
      ensures items == [M.Item(entry.key, entry.data)] + old(items)
    {
      hide LruList.Valid, Table.Valid, Owned, Stores;
      AttachOwned(table.members, lruList.nodes, entry, linked, freed);
      StoresFrontOf(entry, lruList.nodes, items);
      lruList.AttachFront(entry);
      items := [M.Item(entry.key, entry.data)] + items;
    }

    /** The entry a lookup finds is where the model finds its key, on the recency list and in the values. */
    lemma FoundAt(entry: Entry)
      requires Linked({}) && entry in table.members
      ensures var i := M.Find(items, entry.key);
              && i < |items| == |lruList.nodes| && lruList.nodes[i] == entry && Position(lruList.nodes, entry) == i
              && items[i] == M.Item(entry.key, entry.data) && entry.sizeBytes == |entry.data|
    {
      hide Chain, LruList.Links, BucketOf;
      var p, i := Position(lruList.nodes, entry), M.Find(items, entry.key);
      assert items[p].key == entry.key;
      assert lruList.nodes[i] in NodeSet(lruList.nodes) && lruList.nodes[i].key == entry.key;
    }

    lemma NotFound(key: string)
      requires Linked({}) && forall e :: e in table.members ==> e.key != key
      ensures M.Find(items, key) == |items|
    {
    }

    method MoveToFront(entry: Entry, ghost i: nat)
      requires Linked({}) && i < |lruList.nodes| && lruList.nodes[i] == entry && Position(lruList.nodes, entry) == i
      modifies this`items, lruList, lruList.nodes`prev, lruList.nodes`next
      ensures Linked({}) && lruList.nodes == [entry] + RemoveAt(old(lruList.nodes), i)
      ensures i < |old(items)| && items == [old(items)[i]] + RemoveAt(old(items), i)
    {
      hide LruList.Valid, Table.Valid, Owned, Stores, Position;
      NodesDistinct({});
      DetachOwned(table.members, lruList.nodes, linked, freed, i);
      StoresRemoveAt(lruList.nodes, items, i);
      AttachOwned(table.members, RemoveAt(lruList.nodes, i), entry, linked, freed);
      StoresFrontOf(entry, RemoveAt(lruList.nodes, i), RemoveAt(items, i));
      lruList.MoveToFront(entry);
      items := [items[i]] + RemoveAt(items, i);
    }

    method SetData(entry: Entry, data: seq<byte>, ghost i: nat)
      requires Linked({}) && i < |lruList.nodes| && lruList.nodes[i] == entry
      modifies this`items, entry`data, entry`sizeBytes
      ensures Linked({}) && i < |old(items)| && items == old(items)[i := M.Item(entry.key, data)]
    {
      hide LruList.Links, Table.Valid, Owned;
      entry.data := data;
      entry.sizeBytes := |data|;
      items := items[i := M.Item(entry.key, data)];
    }

    /** The new bytes replace the old ones and the entry becomes the most recent. */
    method Overwrite(entry: Entry, data: seq<byte>, ghost i: nat)
      requires Linked({}) && i < |lruList.nodes| && lruList.nodes[i] == entry && Position(lruList.nodes, entry) == i
      modifies this`items, this`currentSize, entry`data, entry`sizeBytes
      modifies lruList, lruList.nodes`prev, lruList.nodes`next
      ensures Linked({}) && currentSize == Wrap(old(currentSize) + |data|)
      ensures i < |old(items)| && items == [M.Item(entry.key, data)] + RemoveAt(old(items), i)
    {
      hide LruList.Valid, Table.Valid, Owned, Stores;
      SetData(entry, data, i);
      currentSize := Wrap(currentSize + |data|);
      MoveToFront(entry, i);
    }

    method Get(key: string, gotMemory: bool) returns (value: Option<seq<byte>>)
      requires Valid()
      modifies this`items, lruList, lruList.nodes`prev, lruList.nodes`next
      ensures Valid()
      ensures M.GetResult(State(), value) == M.Get(old(State()), key, gotMemory)
    {
      hide LruList.Valid, Table.Valid, Owned, Stores;
      var entry, _ := table.Find(key);
      if entry == null {
        NotFound(key);
        return None;
      }
      FoundAt(entry);
      if !gotMemory {
        return None;
      }
      value := Some(entry.data);
      MoveToFront(entry, M.Find(items, key));
    }

    /** Evicts other entries while `entry` is off the recency list, then puts it back in front. */
    method MakeRoom(entry: Entry, ghost i: nat, incoming: nat, evictedBefore: bool) returns (evicted: bool)
      requires Valid() && i < |lruList.nodes| && lruList.nodes[i] == entry && Position(lruList.nodes, entry) == i
      requires i < |items| && items[i] == M.Item(entry.key, entry.data) && entry.sizeBytes == |entry.data|
      modifies this`currentSize, this`items, this`freed, table, table.buckets, table.members`bucketNext
      modifies lruList, lruList.nodes`prev, lruList.nodes`next
      ensures Valid() && lruList.nodes != [] && lruList.nodes[0] == entry && Position(lruList.nodes, entry) == 0
      ensures old(freed) <= freed && table.members <= old(table.members)
      ensures forall j :: 0 <= j < |lruList.nodes| ==> lruList.nodes[j] in old(lruList.nodes)
      ensures var rest := RemoveAt(old(items), i);
              var (n, total) := M.Evict(rest, |rest|, old(currentSize), incoming, maxTotal);
              && items == [old(items)[i]] + rest[..n] && currentSize == total
              && evicted == (evictedBefore || n < |rest|)
    {
      hide LruList.Valid, Table.Valid, Owned, Stores, M.Evict;
      DetachEntry(entry, i);
      evicted := EvictIfNeeded(incoming, {entry}, evictedBefore);
      AttachEntry(entry);
    }

    method Grow(entry: Entry, data: seq<byte>, gotMemory: bool, evictedBefore: bool) returns (ok: bool, evicted: bool)
      requires Valid() && entry in table.members && |data| > entry.sizeBytes
      modifies this`currentSize, this`items, this`freed, table, table.buckets, table.members`bucketNext
      modifies lruList, lruList.nodes`prev, lruList.nodes`next, entry`data, entry`sizeBytes
      ensures Valid() && old(freed) <= freed && table.members <= old(table.members)
      ensures var s, i := old(State()), M.Find(old(items), entry.key);
              && i < |s.items|
              && var r := M.Grow(s, s.items[i], RemoveAt(s.items, i), data, gotMemory);
                 M.PutResult(State(), ok, evicted) == r.(evicted := r.evicted || evictedBefore)
    {
      hide LruList.Valid, Table.Valid, Owned, Stores, M.Evict, Position, Wrap;
      FoundAt(entry);
      ghost var i := M.Find(items, entry.key);
      var previous := entry.sizeBytes;
      currentSize := Wrap(currentSize - previous);
      evicted := MakeRoom(entry, i, |data|, evictedBefore);
      ghost var kept := items[1..];
      assert items == [old(items)[i]] + kept && RemoveAt(items, 0) == kept;
      if Wrap(currentSize + |data|) > maxTotal {
        currentSize := Wrap(currentSize + previous);
        return false, evicted;
      }
      if !gotMemory {
        currentSize := Wrap(currentSize + previous);
        return false, evicted;
      }
      Overwrite(entry, data, 0);
      ok := true;
    }

    method Shrink(entry: Entry, data: seq<byte>, gotMemory: bool) returns (ok: bool)
      requires Valid() && entry in table.members && |data| <= entry.sizeBytes
      modifies this`currentSize, this`items
      modifies lruList, lruList.nodes`prev, lruList.nodes`next, entry`data, entry`sizeBytes
      ensures Valid()
      ensures var s, i := old(State()), M.Find(old(items), entry.key);
              && i < |s.items|
              && M.PutResult(State(), ok, false) == M.Shrink(s, s.items[i], RemoveAt(s.items, i), data, gotMemory)
    {
      hide LruList.Valid, Table.Valid, Owned, Stores;
      FoundAt(entry);
      ghost var i := M.Find(items, entry.key);
      var previous := entry.sizeBytes;
      currentSize := Wrap(currentSize - previous);
      if !gotMemory {
        currentSize := Wrap(currentSize + previous);
        return false;
      }
      Overwrite(entry, data, i);
      ok := true;
    }

    /** A new entry goes to the head of its chain and to the front of the recency list. */
    method Link(entry: Entry, index: nat)
      requires Valid() && entry !in linked && entry.sizeBytes == |entry.data| && index == BucketOf(entry.key)
      requires forall e :: e in table.members ==> e.key != entry.key
      modifies this`items, this`linked, table, table.buckets, lruList, lruList.nodes`prev
      modifies entry`bucketNext, entry`prev, entry`next
      ensures Valid() && linked == old(linked) + {entry} && table.members == old(table.members) + {entry}
      ensures items == [M.Item(entry.key, entry.data)] + old(items)
    {
      hide LruList.Valid, Table.Valid, Owned, Stores, BucketOf;
      LinkOwned(table.members, lruList.nodes, entry, linked, freed);
      table.Insert(entry, index);
      linked := linked + {entry};
      AttachEntry(entry);
    }

    method Put(key: string, data: seq<byte>, alloc: M.Allocation, evictedBefore: bool) returns (ok: bool, evicted: bool)
      requires Valid()
      modifies this`currentSize, this`items, this`freed, this`linked, table, table.buckets, table.members`bucketNext
      modifies lruList, lruList.nodes
      ensures Valid() && old(freed) <= freed && old(linked) <= linked && fresh(table.members - old(table.members))
      ensures M.PutResult(State(), ok, evicted) == M.Put(old(State()), key, data, alloc, evictedBefore)
    {
      hide LruList.Valid, Table.Valid, Owned, Stores, M.Evict, BucketOf;
      if |data| == 0 || |data| > maxObject || |data| > maxTotal {
        return false, evictedBefore;
      }
      var entry, index := table.Find(key);
      if entry != null {
        FoundAt(entry);
        if |data| > entry.sizeBytes {
          ok, evicted := Grow(entry, data, alloc.data, false);
        } else {
          ok := Shrink(entry, data, alloc.data);
          evicted := false;
        }
        return;
      }
      ok, evicted := Insert(key, data, alloc, index);
    }

    method Insert(key: string, data: seq<byte>, alloc: M.Allocation, index: nat) returns (ok: bool, evicted: bool)
      requires Valid() && index == BucketOf(key) && forall e :: e in table.members ==> e.key != key
      modifies this`currentSize, this`items, this`freed, this`linked, table, table.buckets, table.members`bucketNext
      modifies lruList, lruList.nodes`prev, lruList.nodes`next
      ensures Valid() && old(freed) <= freed && old(linked) <= linked && fresh(table.members - old(table.members))
      ensures M.Find(old(items), key) == |old(items)|
      ensures M.PutResult(State(), ok, evicted) == M.Insert(old(State()), key, data, alloc)
    {
      hide LruList.Valid, Table.Valid, Owned, Stores, M.Evict, BucketOf;
      NotFound(key);
      evicted := EvictIfNeeded(|data|, {}, false);
      if Wrap(currentSize + |data|) > maxTotal {
        return false, evicted;
      }
      if !alloc.entry {
        return false, evicted;
      }
      if !alloc.key || !alloc.data {
        return false, evicted;
      }
      var entry := new Entry(key, data);
      Link(entry, index);
      currentSize := Wrap(currentSize + |data|);
      ok := true;
    }

    /** Teardown frees what is on the chains; together with the evictions every entry is freed exactly once. */
    method Destroy()
      requires Valid()
      modifies this`freed
      ensures Distinct(freed) && NodeSet(freed) == linked
      ensures old(freed) <= freed
    {
      hide LruList.Valid, Stores;
      var index := 0;
      ghost var chains := table.chains;
      RestStep(chains, table.members, 0);
      while index < BUCKET_COUNT
        invariant index <= BUCKET_COUNT
        invariant Distinct(freed) && old(freed) <= freed
        invariant NodeSet(freed) !! Rest(chains, index) && NodeSet(freed) + Rest(chains, index) == linked
      {
        RestStep(chains, table.members, index);
        DestroyChain(index);
        index := index + 1;
      }
    }

    lemma MembersAreNodes()
      requires Valid()
      ensures forall e :: e in table.members <==> e in lruList.nodes
    {
    }

    /** Any sequence of gets and puts, with any outcome of their allocations, keeps the structure valid and computes
        what the model computes. */
    method Perform(ops: seq<R.Op>)
      requires Valid()
      modifies this`currentSize, this`items, this`freed, this`linked, table, table.buckets, table.members`bucketNext
      modifies lruList, lruList.nodes
      ensures Valid() && old(freed) <= freed && old(linked) <= linked && fresh(table.members - old(table.members))
      ensures State() == R.Replay(old(State()), ops).state
    {
      hide Linked, M.Put, M.Get;
      MembersAreNodes();
      var i := 0;
      while i < |ops|
        invariant i <= |ops| && Valid() && old(freed) <= freed && old(linked) <= linked
        invariant fresh(table.members - old(table.members))
        invariant State() == R.Replay(old(State()), ops[..i]).state
      {
        MembersAreNodes();
        R.ReplayAppend(old(State()), ops[..i], ops[i]);
        assert ops[..i + 1] == ops[..i] + [ops[i]];
        match ops[i] {
          case GetOp(key, gotMemory) =>
            var _ := Get(key, gotMemory);
          case PutOp(key, data, alloc) =>
            var _, _ := Put(key, data, alloc, false);
        }
        i := i + 1;
      }
      assert ops[..i] == ops;
    }

    /** From creation to teardown: every entry ever linked is freed exactly once. */
    static method Lifetime(maxTotal: word, maxObject: word, gotCache: bool, gotBuckets: bool, ops: seq<R.Op>)
      returns (cache: Cache?)
      ensures cache != null <==> 0 < maxObject <= maxTotal && gotCache && gotBuckets
      ensures cache != null ==> cache.State() == R.Replay(R.Empty(maxTotal, maxObject), ops).state
      ensures cache != null ==> Distinct(cache.freed) && NodeSet(cache.freed) == cache.linked
    {
      cache := Create(maxTotal, maxObject, gotCache, gotBuckets);
      if cache != null {
        cache.Perform(ops);
        cache.Destroy();
      }
    }

    method DestroyChain(index: nat)
      requires table.Valid() && index < BUCKET_COUNT
      requires Distinct(freed) && NodeSet(freed) !! NodeSet(table.chains[index])
      modifies this`freed
      ensures freed == old(freed) + table.chains[index] && Distinct(freed)
    {
      ghost var chain, i := table.chains[index], 0;
      var entry := table.buckets[index];
      assert Chain(entry, chain);
      assert Distinct(chain);
      while entry != null
        invariant i <= |chain| && entry == LruList.At(chain, i)
        invariant freed == old(freed) + chain[..i]
        decreases |chain| - i
      {
        var next := entry.bucketNext;
        freed := freed + [entry];
        entry := next;
        i := i + 1;
      }
      DistinctConcat(old(freed), chain);
    }
  }

  lemma DistinctConcat(a: seq<Entry>, b: seq<Entry>)
    requires Distinct(a) && Distinct(b) && NodeSet(a) !! NodeSet(b)
    ensures Distinct(a + b) && NodeSet(a + b) == NodeSet(a) + NodeSet(b)
  {
    forall i, j | 0 <= i < |a| && 0 <= j < |b| ensures a[i] != b[j] {
      assert a[i] in NodeSet(a) && b[j] in NodeSet(b);
    }
  }
}
