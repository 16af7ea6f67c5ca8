/** The growing ring buffer of lib/queue.go. */
module Queues {
  import opened Options

  const INITIAL_CAPACITY := 100

  /** The size elements of a ring from position head on. */
  function FromRing<T>(ring: seq<T>, head: nat, size: nat): (r: seq<T>)
    requires head < |ring| && size <= |ring|
    ensures |r| == size
    ensures forall i :: 0 <= i < size ==> r[i] == ring[Wrap(head + i, |ring|)]
  {
    seq(size, i requires 0 <= i < size => ring[Wrap(head + i, |ring|)])
  }

  /** The position k on a ring of n places, for a k that is at most one turn too far. */
  function Wrap(k: nat, n: nat): (r: nat)
    requires k < 2 * n
    ensures r < n
  {
    if k < n then k else k - n
  }

  lemma WrapIsModulo(k: nat, n: nat)
    requires k < 2 * n
    ensures k % n == Wrap(k, n)
  {
    if k >= n {
      assert k == n * 1 + (k - n);
    }
  }

  lemma WrapNext(k: nat, n: nat)
    requires k + 1 < 2 * n
    ensures (Wrap(k, n) + 1) % n == Wrap(k + 1, n)
  {
    WrapIsModulo(Wrap(k, n) + 1, n);
  }

  /** Laying a ring out from its head keeps what it holds. */
  lemma Unrolled<T>(ring: seq<T>, wider: seq<T>, head: nat)
    requires head < |ring| <= |wider|
    requires wider[..|ring|] == ring[head..] + ring[..head]
    ensures FromRing(wider, 0, |ring|) == FromRing(ring, head, |ring|)
  {
    var n := |ring|;
    forall i | 0 <= i < n ensures FromRing(wider, 0, n)[i] == FromRing(ring, head, n)[i] {
      assert wider[i] == wider[..n][i];
    }
  }

  lemma PushedOne<T>(ring: seq<T>, head: nat, size: nat, e: T)
    requires head < |ring| && size < |ring|
    ensures FromRing(ring[Wrap(head + size, |ring|) := e], head, size + 1) == FromRing(ring, head, size) + [e]
  {}

  lemma PoppedOne<T>(ring: seq<T>, head: nat, size: nat)
    requires head < |ring| && 0 < size <= |ring|
    ensures FromRing(ring, head, size) == [ring[head]] + FromRing(ring, Wrap(head + 1, |ring|), size - 1)
  {
    var rest := FromRing(ring, Wrap(head + 1, |ring|), size - 1);
    forall i | 0 < i < size ensures FromRing(ring, head, size)[i] == rest[i - 1] {
      assert Wrap(head + i, |ring|) == Wrap(Wrap(head + 1, |ring|) + i - 1, |ring|);
    }
  }

  class Queue<T(0)> {
    var queue: array<T>
    var size: nat
    var head: nat
    var tail: nat

    // Everything pushed so far, how much of it has been popped, and how often an element was moved.
    ghost var pushed: seq<T>
    ghost var popped: nat
    ghost var moved: nat

    /** What is left to pop is what was pushed and not yet popped, oldest first. */
    ghost predicate Valid()
      reads this, queue
    {
      && 0 < queue.Length && head < queue.Length && size <= queue.Length
      && tail == Wrap(head + size, queue.Length)
      && popped <= |pushed| && Contents() == pushed[popped..]
      && moved == queue.Length - INITIAL_CAPACITY && moved <= 2 * |pushed|
    }

    ghost function Contents(): seq<T>
      requires head < queue.Length && size <= queue.Length
      reads this, queue
    {
      FromRing(queue[..], head, size)
    }

    constructor ()
      ensures Valid() && fresh(queue) && queue.Length == 100 && pushed == [] && popped == 0
    {
      queue := new T[INITIAL_CAPACITY];
      size, head, tail := 0, 0, 0;
      pushed, popped, moved := [], 0, 0;
    }

    method Size() returns (n: nat)
      requires Valid()
      ensures n == |pushed| - popped == |Contents()|
    {
      return size;
    }

    method Push(e: T)
      requires Valid()
      modifies this, queue
      ensures Valid() && (queue == old(queue) || fresh(queue))
      ensures pushed == old(pushed) + [e] && popped == old(popped)
      ensures Contents() == old(Contents()) + [e]
    {
      if head == tail && size > 0 {
        Grow();
      }
      Store(e);
    }

    /** The rest of Push, once there is room. */
    method Store(e: T)
      requires Valid() && size < queue.Length
      modifies this, queue
      ensures Valid() && queue == old(queue)
      ensures pushed == old(pushed) + [e] && popped == old(popped)
      ensures Contents() == old(Contents()) + [e]
    {
      PushedOne(queue[..], head, size, e);
      WrapNext(head + size, queue.Length);
      ghost var ring, contents := queue[..], Contents();
      queue[tail] := e;
      assert queue[..] == ring[tail := e];
      tail := (tail + 1) % queue.Length;
      size := size + 1;
      assert Contents() == contents + [e];
      assert (pushed + [e])[popped..] == contents + [e];
      pushed := pushed + [e];
    }

    /** The branch of Push that doubles the buffer when it is full. */
    method Grow()
      requires Valid() && size == queue.Length
      modifies this
      ensures Valid() && fresh(queue) && size < queue.Length
      ensures pushed == old(pushed) && popped == old(popped) && size == old(size)
      ensures queue.Length == 2 * old(queue.Length) && moved == old(moved) + old(size)
      ensures Contents() == old(Contents())
    {
      var n := queue.Length;
      var wider := new T[n * 2];
      forall i | 0 <= i < n - head {
        wider[i] := queue[head + i];
      }
      forall i | 0 <= i < head {
        wider[n - head + i] := queue[i];
      }
      assert wider[..][..n] == queue[..][head..] + queue[..][..head];
      Unrolled(queue[..], wider[..], head);
      head, tail := 0, n;
      queue := wider;
      moved := moved + n;
    }

    /** The oldest element not yet popped; nothing from an empty queue. */
    method Pop() returns (r: Option<T>)
      requires Valid()
      modifies this
      ensures Valid() && queue == old(queue) && pushed == old(pushed)
      ensures old(popped) == |pushed| ==> r == None && popped == old(popped)
      ensures old(popped) < |pushed| ==> r == Some(pushed[old(popped)]) && popped == old(popped) + 1
    {
      if size == 0 {
        return None;
      }
      PoppedOne(queue[..], head, size);
      WrapIsModulo(head + 1, queue.Length);
      var e := queue[head];
      head := (head + 1) % queue.Length;
      size := size - 1;
      popped := popped + 1;
      return Some(e);
    }
  }
}
