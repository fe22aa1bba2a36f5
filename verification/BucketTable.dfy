/**
 The hash table of the cache: an array of chain heads and the chains threaded through `bucketNext`.
 (In the C code these are the `buckets` and `bucket_count` fields of `struct cache`.)
 */
module BucketTable {
  import opened Common
  import opened Lru

  const BUCKET_COUNT: nat := 128

  /** The djb2 hash in 64-bit arithmetic. */
  function Hash(key: string): word {
    if key == "" then 5381
    else Wrap(Hash(key[..|key| - 1]) * 33 + Octet(key[|key| - 1]))
  }

  /** `(unsigned char)ch` */
  function Octet(ch: char): nat {
    ch as int % 0x100
  }

  function BucketOf(key: string): (b: nat)
    ensures b < BUCKET_COUNT
  {
    Hash(key) % BUCKET_COUNT
  }

  function Power33(n: nat): nat {
    if n == 0 then 1 else 33 * Power33(n - 1)
  }

  /** The octets of the key, from `i` on, as digits in base 33, the first one most significant. */
  function Digits(key: string, i: nat): nat
    requires i <= |key|
    decreases |key| - i
  {
    if i == |key| then 0 else (key[i] as int % 256) * Power33(|key| - i - 1) + Digits(key, i + 1)
  }

  /** The hash is 5381 * 33^n plus the octets as digits in base 33, modulo 2^64; it picks one of 128 chains. */
  lemma HashIsPolynomial(key: string)
    ensures Hash(key) == (5381 * Power33(|key|) + Digits(key, 0)) % 0x1_0000_0000_0000_0000
    ensures BucketOf(key) == Hash(key) % 128
  {
    DigitsOfPrefix(key, |key|);
    assert key[..|key|] == key;
  }

  /** The loop's value after `n` characters. */
  lemma {:induction false} DigitsOfPrefix(key: string, n: nat)
    requires n <= |key|
    ensures Hash(key[..n]) == (5381 * Power33(n) + Digits(key[..n], 0)) % 0x1_0000_0000_0000_0000
  {
    if n > 0 {
      DigitsOfPrefix(key, n - 1);
      var front, whole := key[..n - 1], key[..n];
      assert whole[..n - 1] == front;
      DigitsStep(front, whole, 0);
      ReduceFirst(5381 * Power33(n - 1) + Digits(front, 0), key[n - 1] as int % 256);
    }
  }

  /** One more digit multiplies the others by 33. */
  lemma {:induction false} DigitsStep(front: string, whole: string, i: nat)
    requires |whole| == |front| + 1 && whole[..|front|] == front && i <= |front|
    ensures Digits(whole, i) == 33 * Digits(front, i) + whole[|front|] as int % 256
    decreases |front| - i
  {
    if i < |front| {
      DigitsStep(front, whole, i + 1);
      assert whole[i] == front[i];
      var octet, power := front[i] as int % 256, Power33(|front| - i - 1);
      assert octet * (33 * power) == 33 * (octet * power);
    }
  }

  lemma ReduceFirst(x: nat, octet: nat)
    ensures Wrap(x % SIZE_RANGE * 33 + octet) == (33 * x + octet) % SIZE_RANGE
  {
    SameRemainder(x % SIZE_RANGE * 33 + octet, 33 * (x / SIZE_RANGE));
  }

  lemma SameRemainder(y: nat, k: nat)
    ensures (y + k * SIZE_RANGE) % SIZE_RANGE == y % SIZE_RANGE
  {
    var z, q, r := y + k * SIZE_RANGE, y / SIZE_RANGE, y % SIZE_RANGE;
    assert z == (q + k) * SIZE_RANGE + r;
  }

  method HashKey(key: string) returns (hash: word)
    ensures hash == Hash(key)
  {
    hash := 5381;
    var cursor := 0;
    while cursor < |key|
      invariant cursor <= |key| && hash == Hash(key[..cursor])
    {
      assert key[..cursor + 1][..cursor] == key[..cursor];
      hash := Wrap(hash * 33 + Octet(key[cursor]));
      cursor := cursor + 1;
    }
    assert key[..|key|] == key;
  }

  ghost predicate Chain(head: Entry?, chain: seq<Entry>)
    reads chain`bucketNext
  {
    && head == LruList.At(chain, 0)
    && (forall i {:trigger chain[i].bucketNext} :: 0 <= i < |chain| ==> chain[i].bucketNext == LruList.At(chain, i + 1))
  }

  /** The links of `chain` once its element `k` is bypassed. */
  ghost predicate Bypasses(head: Entry?, chain: seq<Entry>, k: nat)
    requires k < |chain|
    reads chain`bucketNext
  {
    && head == LruList.At(chain, if k == 0 then 1 else 0)
    && (forall i {:trigger chain[i].bucketNext} :: 0 <= i < |chain| && i != k ==>
          chain[i].bucketNext == LruList.At(chain, if i == k - 1 then k + 1 else i + 1))
  }

  lemma BypassChain(head: Entry?, chain: seq<Entry>, k: nat)
    requires k < |chain| && Bypasses(head, chain, k)
    ensures Chain(head, RemoveAt(chain, k))
  {
  }

  /** The chains hold exactly `members`, each once and in the chain its hash picks, and each key once. */
  ghost predicate Holds(chains: seq<seq<Entry>>, members: set<Entry>) {
    && |chains| == BUCKET_COUNT
    && (forall b, i :: 0 <= b < |chains| && 0 <= i < |chains[b]| ==>
          chains[b][i] in members && BucketOf(chains[b][i].key) == b)
    && (forall b :: 0 <= b < |chains| ==> Distinct(chains[b]))
    && (forall e :: e in members ==> e in chains[BucketOf(e.key)])
    && (forall e, f :: e in members && f in members && e.key == f.key ==> e == f)
  }

  lemma InsertHolds(chains: seq<seq<Entry>>, members: set<Entry>, entry: Entry)
    requires Holds(chains, members) && entry !in members && forall e :: e in members ==> e.key != entry.key
    ensures var b := BucketOf(entry.key);
            Holds(chains[b := [entry] + chains[b]], members + {entry})
  {
  }

  lemma RemoveHolds(chains: seq<seq<Entry>>, members: set<Entry>, entry: Entry, i: nat)
    requires Holds(chains, members) && entry in members
    requires var chain := chains[BucketOf(entry.key)]; i < |chain| && chain[i] == entry
    ensures var b := BucketOf(entry.key);
            Holds(chains[b := RemoveAt(chains[b], i)], members - {entry})
  {
  }

  class Table {
    const buckets: array<Entry?>
    ghost var chains: seq<seq<Entry>>
    ghost var members: set<Entry>

    ghost predicate Valid()
      reads this, buckets, members`bucketNext
    {
      && buckets.Length == BUCKET_COUNT
      && Holds(chains, members)
      && (forall b :: 0 <= b < |chains| ==> Chain(buckets[b], chains[b]))
    }

    constructor ()
      ensures Valid() && members == {} && fresh(buckets)
    {
      buckets := new Entry?[BUCKET_COUNT](_ => null);
      chains := seq(BUCKET_COUNT, _ => []);
      members := {};
    }

    method Find(key: string) returns (entry: Entry?, index: nat)
      requires Valid()
      ensures index == BucketOf(key)
      ensures entry != null ==> entry in members && entry.key == key
      ensures entry == null ==> forall e :: e in members ==> e.key != key
    {
      var hash := HashKey(key);
      index := hash % BUCKET_COUNT;
      entry := buckets[index];
      ghost var chain, i := chains[index], 0;
      assert Chain(entry, chain);
      while entry != null
        invariant i <= |chain| && entry == LruList.At(chain, i)
        invariant forall j :: 0 <= j < i ==> chain[j].key != key
        decreases |chain| - i
      {
        if entry.key == key {
          return;
        }
        entry := entry.bucketNext;
        i := i + 1;
      }
      assert i == |chain|;
    }

    method Insert(entry: Entry, index: nat)
      requires Valid() && index == BucketOf(entry.key)
      requires entry !in members && forall e :: e in members ==> e.key != entry.key
      modifies this, buckets, entry`bucketNext
      ensures Valid() && members == old(members) + {entry}
    {
      assert Chain(buckets[index], chains[index]);
      assert forall b :: 0 <= b < |chains| ==> entry !in chains[b];
      InsertHolds(chains, members, entry);
      entry.bucketNext := buckets[index];
      buckets[index] := entry;
      assert Chain(entry, [entry] + chains[index]);
      assert forall b :: 0 <= b < |chains| && b != index ==> Chain(buckets[b], chains[b]);
      hide Holds, Chain;
      chains := chains[index := [entry] + chains[index]];
      members := members + {entry};
    }

    /** `cursor`, element `i` of its chain, is made unreachable from the chain's head. */
    method Skip(index: nat, cursor: Entry, previous: Entry?, ghost i: nat)
      requires Valid() && index < BUCKET_COUNT && i < |chains[index]|
      requires cursor == chains[index][i] && previous == LruList.Before(chains[index], i)
      modifies buckets, members`bucketNext
      ensures forall b :: 0 <= b < |chains| && b != index ==> Chain(buckets[b], chains[b])
      ensures Bypasses(buckets[index], chains[index], i)
    {
      assert Chain(buckets[index], chains[index]);
      assert forall b :: 0 <= b < |chains| && b != index ==> previous !in chains[b];
      if previous == null {
        buckets[index] := cursor.bucketNext;
      } else {
        previous.bucketNext := cursor.bucketNext;
      }
      hide Holds;
    }

    /** `entry`, element `i` of its chain, leaves the table. */
    method Unlink(index: nat, entry: Entry, previous: Entry?, ghost i: nat)
      requires Valid() && entry in members && index == BucketOf(entry.key) && i < |chains[index]|
      requires entry == chains[index][i] && previous == LruList.Before(chains[index], i)
      modifies this, buckets, members`bucketNext
      ensures Valid() && members == old(members) - {entry}
    {
      ghost var chain := chains[index];
      Skip(index, entry, previous, i);
      RemoveHolds(chains, members, entry, i);
      BypassChain(buckets[index], chain, i);
      hide Holds, Chain;
      chains := chains[index := RemoveAt(chain, i)];
      members := members - {entry};
    }

    method Remove(entry: Entry)
      requires Valid() && entry in members
      modifies this, buckets, members`bucketNext
      ensures Valid() && members == old(members) - {entry}
    {
      var hash := HashKey(entry.key);
      var index := hash % BUCKET_COUNT;
      var cursor, previous: Entry? := buckets[index], null;
      ghost var chain, i := chains[index], 0;
      assert Chain(cursor, chain);
      while cursor != null
        invariant i <= |chain| && cursor == LruList.At(chain, i) && previous == LruList.Before(chain, i)
        invariant i <= Position(chain, entry)
        decreases |chain| - i
      {
        if cursor == entry {
          Unlink(index, cursor, previous, i);
          return;
        }
        previous := cursor;
        cursor := cursor.bucketNext;
        i := i + 1;
      }
    }
  }
}
