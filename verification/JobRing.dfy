/**
 The bounded job queue of the thread pool: a ring buffer and the FIFO queue it stands for.
 */
module JobRing {
  import opened Common

  const INVALID_SOCKET: int := -1

  datatype Job = Job(socket: int, host: string, service: string)

  /** What `client_job_reset` leaves in a slot. */
  const NO_JOB := Job(INVALID_SOCKET, "", "")

  datatype Ring = Ring(slots: seq<Job>, head: nat, tail: nat, size: nat)

  /** The slot `i` places after `head`. */
  function Slot(r: Ring, i: nat): nat
    requires r.head + i < 2 * |r.slots|
  {
    if r.head + i < |r.slots| then r.head + i else r.head + i - |r.slots|
  }

  /** Slots of the live window hold accepted jobs, all others are empty. */
  ghost predicate Valid(r: Ring) {
    && r.head < |r.slots| && r.size <= |r.slots|
    && r.tail == Slot(r, r.size)
    && (forall i :: 0 <= i < |r.slots| ==>
          if i < r.size then r.slots[Slot(r, i)].socket != INVALID_SOCKET else r.slots[Slot(r, i)] == NO_JOB)
  }

  function Empty(capacity: nat): Ring {
    Ring(seq(capacity, _ => NO_JOB), 0, 0, 0)
  }

  /** The jobs waiting, oldest first. */
  function Window(r: Ring): seq<Job>
    requires r.head < |r.slots| && r.size <= |r.slots|
  {
    seq(r.size, i requires 0 <= i < r.size => r.slots[Slot(r, i)])
  }

  function Next(r: Ring, index: nat): nat
    requires r.slots != []
  {
    (index + 1) % |r.slots|
  }

  function Enqueue(r: Ring, job: Job): Ring
    requires r.tail < |r.slots|
  {
    r.(slots := r.slots[r.tail := job], tail := Next(r, r.tail), size := r.size + 1)
  }

  function Dequeue(r: Ring): Ring
    requires r.head < |r.slots| && r.size > 0
  {
    r.(slots := r.slots[r.head := NO_JOB], head := Next(r, r.head), size := r.size - 1)
  }

  lemma NextWraps(r: Ring, index: nat)
    requires index < |r.slots|
    ensures Next(r, index) == if index + 1 == |r.slots| then 0 else index + 1
  {
  }

  lemma TailIsModular(r: Ring)
    requires Valid(r)
    ensures r.tail == (r.head + r.size) % |r.slots|
  {
  }

  lemma EmptyValid(capacity: nat)
    requires capacity > 0
    ensures Valid(Empty(capacity)) && Window(Empty(capacity)) == []
  {
  }

  /** Enqueueing appends to the waiting jobs. */
  lemma EnqueueAppends(r: Ring, job: Job)
    requires Valid(r) && r.size < |r.slots| && job.socket != INVALID_SOCKET
    ensures Valid(Enqueue(r, job)) && Window(Enqueue(r, job)) == Window(r) + [job]
  {
    NextWraps(r, r.tail);
    var r' := Enqueue(r, job);
    assert forall i :: 0 <= i < |r.slots| ==> Slot(r', i) == Slot(r, i) && (Slot(r, i) == r.tail <==> i == r.size);
  }

  /** Dequeueing takes the oldest waiting job and empties its slot. */
  lemma DequeueTakesOldest(r: Ring)
    requires Valid(r) && r.size > 0
    ensures Valid(Dequeue(r)) && Window(r) == [r.slots[r.head]] + Window(Dequeue(r))
    ensures r.slots[r.head].socket != INVALID_SOCKET
  {
    NextWraps(r, r.head);
    var r' := Dequeue(r);
    assert Slot(r, 0) == r.head;
    assert forall i :: 0 <= i < |r.slots| - 1 ==> Slot(r', i) == Slot(r, i + 1) && Slot(r, i + 1) != r.head;
    assert Slot(r', |r.slots| - 1) == r.head;
  }

  /** The sockets the teardown loop would close. */
  function Leftover(slots: seq<Job>): seq<int> {
    if slots == [] then []
    else
      var last := slots[|slots| - 1].socket;
      Leftover(slots[..|slots| - 1]) + if last != INVALID_SOCKET then [last] else []
  }

  lemma {:induction false} EmptyLeavesNothing(slots: seq<Job>)
    requires forall i :: 0 <= i < |slots| ==> slots[i] == NO_JOB
    ensures Leftover(slots) == []
  {
    if slots != [] {
      EmptyLeavesNothing(slots[..|slots| - 1]);
    }
  }

  /** With an empty queue the teardown loop closes nothing. */
  lemma DrainedLeavesNothing(r: Ring)
    requires Valid(r) && r.size == 0
    ensures Leftover(r.slots) == []
  {
    forall i | 0 <= i < |r.slots| ensures r.slots[i] == NO_JOB {
      var j := if i >= r.head then i - r.head else i - r.head + |r.slots|;
      assert Slot(r, j) == i;
    }
    EmptyLeavesNothing(r.slots);
  }

  class JobQueue {
    const jobs: array<Job>
    var head: nat
    var tail: nat
    var size: nat

    ghost function Value(): Ring
      reads this, jobs
    {
      Ring(jobs[..], head, tail, size)
    }

    constructor (capacity: nat)
      requires capacity > 0
      ensures fresh(jobs) && Value() == Empty(capacity)
    {
      jobs := new Job[capacity](_ => Job(0, "", ""));
      head, tail, size := 0, 0, 0;
      new;
      var index := 0;
      while index < capacity
        invariant index <= capacity && head == tail == size == 0
        invariant forall i :: 0 <= i < capacity ==> jobs[i] == if i < index then NO_JOB else Job(0, "", "")
      {
        jobs[index] := jobs[index].(socket := INVALID_SOCKET);
        index := index + 1;
      }
    }

    /** The critical section's work in `thread_pool_submit`. */
    method Submit(job: Job)
      requires Valid(Value()) && size < jobs.Length && job.socket != INVALID_SOCKET
      modifies this, jobs
      ensures Value() == Enqueue(old(Value()), job)
      ensures Valid(Value()) && Window(Value()) == old(Window(Value())) + [job]
    {
      EnqueueAppends(Value(), job);
      jobs[tail] := job;
      tail := (tail + 1) % jobs.Length;
      size := size + 1;
    }

    /** The critical section's work in `thread_pool_worker`. */
    method Take() returns (job: Job)
      requires Valid(Value()) && size > 0
      modifies this, jobs
      ensures Value() == Dequeue(old(Value()))
      ensures Valid(Value()) && old(Window(Value())) == [job] + Window(Value())
    {
      DequeueTakesOldest(Value());
      job := jobs[head];
      jobs[head] := NO_JOB;
      head := (head + 1) % jobs.Length;
      size := size - 1;
    }

    /** The close loop of `thread_pool_destroy`. */
    method CloseLeftover() returns (closed: seq<int>)
      ensures closed == Leftover(jobs[..])
    {
      closed := [];
      var index := 0;
      while index < jobs.Length
        invariant index <= jobs.Length && closed == Leftover(jobs[..index])
      {
        assert jobs[..index + 1][..index] == jobs[..index];
        if jobs[index].socket != INVALID_SOCKET {
          closed := closed + [jobs[index].socket];
        }
        index := index + 1;
      }
      assert jobs[..] == jobs[..jobs.Length];
    }
  }
}
