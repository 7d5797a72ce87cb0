/**
 The deletion queue: an append-only list of teardown actions that is replayed
 last-in-first-out and then cleared. Closures are modelled as values of an
 arbitrary action type `A` (a tagged variant in the modules that use it).
 The same class appears twice in the repository (deletion_queue.hpp and a copy
 in engine.hpp); both have this behaviour.
 */
module DeletionQueue {

  datatype Queue<A> = Queue(entries: seq<A>)

  /** The result of `delete_all`: the actions in the order they ran, and the queue left behind. */
  datatype Flushed<A> = Flushed(ran: seq<A>, queue: Queue<A>)

  function Empty<A>(): Queue<A>
  {
    Queue([])
  }

  /** `add`: the action goes to the back, everything already queued stays where it was. */
  function Add<A>(q: Queue<A>, a: A): (r: Queue<A>)
    ensures |r.entries| == |q.entries| + 1
    ensures r.entries[..|q.entries|] == q.entries
    ensures r.entries[|q.entries|] == a
  {
    Queue(q.entries + [a])
  }

  /** Adds every action of `xs`, first to last. */
  function AddAll<A>(q: Queue<A>, xs: seq<A>): (r: Queue<A>)
    decreases |xs|
  {
    if |xs| == 0 then q else AddAll(Add(q, xs[0]), xs[1..])
  }

  /** The order of a reverse iteration over `s`. */
  function Reverse<A>(s: seq<A>): (r: seq<A>)
    ensures |r| == |s|
    ensures forall i :: 0 <= i < |s| ==> r[i] == s[|s| - 1 - i]
  {
    if |s| == 0 then [] else [s[|s| - 1]] + Reverse(s[..|s| - 1])
  }

  /** `delete_all` as a value: run back to front, then clear. */
  function Flush<A>(q: Queue<A>): Flushed<A>
  {
    Flushed(Reverse(q.entries), Empty())
  }

  /**
   `delete_all` as the loop in the source: a reverse iterator from `rbegin`
   to `rend`, running each action once, followed by `clear`.
   */
  method DeleteAll<A>(q: Queue<A>) returns (ran: seq<A>, rest: Queue<A>)
    ensures |ran| == |q.entries|
    ensures forall i :: 0 <= i < |ran| ==> ran[i] == q.entries[|q.entries| - 1 - i]
    ensures multiset(ran) == multiset(q.entries)
    ensures rest.entries == []
  {
    ran := [];
    var it := |q.entries|;
    while it > 0
      invariant 0 <= it <= |q.entries|
      invariant |ran| == |q.entries| - it
      invariant forall i :: 0 <= i < |ran| ==> ran[i] == q.entries[|q.entries| - 1 - i]
      invariant multiset(ran) == multiset(q.entries[it..])
    {
      assert q.entries[it - 1..] == [q.entries[it - 1]] + q.entries[it..];
      ran := ran + [q.entries[it - 1]];
      it := it - 1;
    }
    assert q.entries[0..] == q.entries;
    rest := Queue([]);
  }

  /** The loop and the value agree. */
  lemma DeleteAllIsFlush<A>(q: Queue<A>, ran: seq<A>)
    requires |ran| == |q.entries|
    requires forall i :: 0 <= i < |ran| ==> ran[i] == q.entries[|q.entries| - 1 - i]
    ensures ran == Flush(q).ran
  {
  }

  /** Reversal of a concatenation: the later block runs first. */
  lemma {:induction false} ReverseAppend<A>(a: seq<A>, b: seq<A>)
    ensures Reverse(a + b) == Reverse(b) + Reverse(a)
  {
    if |b| == 0 {
      assert a + b == a;
    } else {
      assert (a + b)[..|a + b| - 1] == a + b[..|b| - 1];
      ReverseAppend(a, b[..|b| - 1]);
    }
  }

  /** Every queued action runs exactly once: the run is a permutation of the queue. */
  lemma {:induction false} FlushRunsEachOnce<A>(q: Queue<A>)
    ensures multiset(Flush(q).ran) == multiset(q.entries)
  {
    ReverseIsPermutation(q.entries);
  }

  lemma {:induction false} ReverseIsPermutation<A>(s: seq<A>)
    ensures multiset(Reverse(s)) == multiset(s)
  {
    if |s| > 0 {
      ReverseIsPermutation(s[..|s| - 1]);
      assert s == s[..|s| - 1] + [s[|s| - 1]];
    }
  }

  /** The action added last runs first, ahead of everything queued before it. */
  lemma FlushAdd<A>(q: Queue<A>, a: A)
    ensures Flush(Add(q, a)).ran == [a] + Flush(q).ran
  {
    assert (q.entries + [a])[..|q.entries|] == q.entries;
  }

  /** `add(a); add(b); add(c); delete_all()` runs c, b, a. */
  lemma FlushThreeIsLifo<A>(a: A, b: A, c: A)
    ensures Flush(Add(Add(Add(Empty(), a), b), c)).ran == [c, b, a]
  {
    FlushAdd(Add(Add(Empty(), a), b), c);
    FlushAdd(Add(Empty(), a), b);
    FlushAdd(Empty(), a);
  }

  /** After a flush the queue is empty, so flushing again runs nothing. */
  lemma FlushTwiceRunsNothing<A>(q: Queue<A>)
    ensures Flush(q).queue.entries == []
    ensures Flush(Flush(q).queue).ran == []
    ensures Flush(Flush(q).queue).queue == Flush(q).queue
  {
  }

  /** Flushing an empty queue runs nothing and leaves it empty. */
  lemma FlushEmptyIsNoOp<A>()
    ensures Flush(Empty<A>()) == Flushed([], Empty())
  {
  }

  /** Adding a batch to a queue appends the batch in order. */
  lemma {:induction false} AddAllAppends<A>(q: Queue<A>, xs: seq<A>)
    ensures AddAll(q, xs).entries == q.entries + xs
    decreases |xs|
  {
    if |xs| > 0 {
      AddAllAppends(Add(q, xs[0]), xs[1..]);
      assert q.entries + [xs[0]] + xs[1..] == q.entries + xs;
    }
  }

  /** Actions added after a flush are the only ones the next flush runs, newest first. */
  lemma AddAfterFlushRunsOnlyNew<A>(q: Queue<A>, xs: seq<A>)
    ensures Flush(AddAll(Flush(q).queue, xs)).ran == Reverse(xs)
  {
    AddAllAppends(Flush(q).queue, xs);
    assert [] + xs == xs;
  }

  /** A queue built in two batches replays the second batch before the first. */
  lemma FlushOfTwoBatches<A>(q: Queue<A>, xs: seq<A>)
    ensures Flush(AddAll(q, xs)).ran == Reverse(xs) + Flush(q).ran
  {
    AddAllAppends(q, xs);
    ReverseAppend(q.entries, xs);
  }
}
