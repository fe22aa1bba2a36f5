/**
 The intrusive doubly linked recency list.  A `cache_entry_t` embeds its `lru_entry_t`, so one class
 holds the fields of both.
 */
module Lru {
  import opened Common

  class Entry {
    const key: string
    var data: seq<byte>
    var sizeBytes: nat
    var prev: Entry?
    var next: Entry?
    var bucketNext: Entry?

    constructor (key: string, data: seq<byte>)
      ensures this.key == key && this.data == data && sizeBytes == |data|
      ensures prev == null && next == null && bucketNext == null
    {
      this.key := key;
      this.data := data;
      sizeBytes := |data|;
      prev, next, bucketNext := null, null, null;
    }
  }

  /** `s` without the element `x`. */
  ghost function Without<T>(s: seq<T>, x: T): (r: seq<T>)
    requires x in s
    ensures |r| == |s| - 1
  {
    RemoveAt(s, Position(s, x))
  }

  ghost function Position<T>(s: seq<T>, x: T): (i: nat)
    requires x in s
    ensures i < |s| && s[i] == x
  {
    if s[0] == x then 0 else 1 + Position(s[1..], x)
  }

  class LruList {
    var head: Entry?
    var tail: Entry?
    var entryCount: nat
    ghost var nodes: seq<Entry>

    static ghost function Before(s: seq<Entry>, i: nat): Entry?
      requires i <= |s|
    {
      if i == 0 then null else s[i - 1]
    }

    static ghost function At(s: seq<Entry>, i: nat): Entry?
      requires i <= |s|
    {
      if i == |s| then null else s[i]
    }

    static ghost predicate Links(s: seq<Entry>)
      reads s`prev, s`next
    {
      && (forall i {:trigger s[i].prev} :: 0 <= i < |s| ==> s[i].prev == Before(s, i))
      && (forall i {:trigger s[i].next} :: 0 <= i < |s| ==> s[i].next == At(s, i + 1))
    }

    /** The links of `s` once its element `k` is bypassed. */
    static ghost predicate Bypasses(s: seq<Entry>, k: nat)
      requires k < |s|
      reads s`prev, s`next
    {
      && (forall i {:trigger s[i].prev} :: 0 <= i < |s| && i != k ==>
            s[i].prev == Before(s, if i == k + 1 then k else i))
      && (forall i {:trigger s[i].next} :: 0 <= i < |s| && i != k ==>
            s[i].next == At(s, if i == k - 1 then k + 1 else i + 1))
    }

    static lemma BypassLinks(s: seq<Entry>, k: nat)
      requires k < |s| && Bypasses(s, k)
      ensures Links(RemoveAt(s, k))
    {
    }

    /** `nodes` is what following `next` from `head` visits; `prev` is the exact reverse of `next`. */
    ghost predicate Valid()
      reads this, nodes`prev, nodes`next
    {
      && Distinct(nodes)
      && entryCount == |nodes|
      && head == At(nodes, 0)
      && tail == Before(nodes, |nodes|)
      && Links(nodes)
    }

    constructor ()
      ensures Valid() && nodes == []
    {
      head, tail, entryCount := null, null, 0;
      nodes := [];
    }

    method AttachFront(entry: Entry)
      requires Valid() && entry !in nodes
      modifies this, nodes`prev, entry`prev, entry`next
      ensures Valid() && nodes == [entry] + old(nodes)
    {
      entry.prev := null;
      entry.next := head;
      if head != null {
        head.prev := entry;
      } else {
        tail := entry;
      }
      head := entry;
      entryCount := entryCount + 1;
      ghost var before := nodes;
      nodes := [entry] + nodes;
      assert forall i :: 0 < i < |nodes| ==> nodes[i] == before[i - 1];
    }

    /** The neighbours of `entry`, or the list's ends, are made to skip it. */
    method Bypass(entry: Entry, ghost k: nat)
      requires Valid() && k < |nodes| && nodes[k] == entry
      modifies this`head, this`tail, nodes`prev, nodes`next
      ensures Bypasses(nodes, k)
      ensures head == At(nodes, if k == 0 then 1 else 0)
      ensures tail == Before(nodes, if k == |nodes| - 1 then k else |nodes|)
    {
      assert entry.prev == Before(nodes, k) && entry.next == At(nodes, k + 1);
      if entry.prev != null {
        entry.prev.next := entry.next;
      } else {
        head := entry.next;
      }
      if entry.next != null {
        entry.next.prev := entry.prev;
      } else {
        tail := entry.prev;
      }
    }

    method Detach(entry: Entry)
      requires Valid() && entry in nodes
      modifies this, nodes`prev, nodes`next
      ensures Valid() && nodes == Without(old(nodes), entry)
      ensures entry.prev == null && entry.next == null
    {
      ghost var k := Position(nodes, entry);
      Bypass(entry, k);
      entry.prev := null;
      entry.next := null;
      if entryCount > 0 {
        entryCount := entryCount - 1;
      }
      RemoveAtDistinct(nodes, k);
      BypassLinks(nodes, k);
      nodes := RemoveAt(nodes, k);
    }

    method MoveToFront(entry: Entry)
      requires Valid() && entry in nodes
      modifies this, nodes`prev, nodes`next
      ensures Valid() && nodes == [entry] + Without(old(nodes), entry)
    {
      if head == entry {
        return;
      }
      Detach(entry);
      AttachFront(entry);
    }

    method RemoveTail() returns (removed: Entry?)
      requires Valid()
      modifies this, nodes`prev, nodes`next
      ensures Valid()
      ensures old(nodes) == [] ==> removed == null && nodes == []
      ensures old(nodes) != [] ==>
                removed == old(nodes)[|old(nodes)| - 1] && nodes == old(nodes)[..|old(nodes)| - 1]
    {
      if tail == null {
        return null;
      }
      removed := tail;
      Detach(removed);
    }
  }
}
