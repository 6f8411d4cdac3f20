/**
 * `ExecutableBufferSystem<T>`: commands received during a frame are queued
 * and executed, oldest first, when the system next updates. An exception
 * thrown by a command ends the update after that command has been taken off
 * the queue; the commands behind it stay queued for the next update.
 */
module Buffer {
  import opened Wrappers

  /** The state a command leaves behind, and the exception it threw, if any; effects before the throw persist. */
  datatype Attempt<S, E> = Attempt(state: S, error: Option<E>)

  /** `Buffer`: the command joins the tail of the queue. */
  function Enqueue<T>(queue: seq<T>, item: T): (r: seq<T>)
    ensures |r| == |queue| + 1 && r[|queue|] == item
    ensures r[..|queue|] == queue
  {
    queue + [item]
  }

  /** The state after an update, the commands still queued and the exception that ended it, if any. */
  datatype Drained<S, T, E> = Drained(state: S, rest: seq<T>, error: Option<E>)

  /**
   * The meaning of one update: execute the queue front to back, stopping
   * after the first command that throws. What stays queued is always a
   * suffix of the queue, empty unless a command threw, and at least one
   * command runs when the queue is not empty.
   */
  function Fold<S, T, E>(s: S, queue: seq<T>, exec: (S, T) -> Attempt<S, E>): (r: Drained<S, T, E>)
    ensures |r.rest| <= |queue| && r.rest == queue[|queue| - |r.rest|..]
    ensures queue != [] ==> |r.rest| < |queue|
    ensures r.error.None? ==> r.rest == []
    decreases |queue|
  {
    if queue == [] then Drained(s, [], None)
    else
      var a := exec(s, queue[0]);
      if a.error.Some? then Drained(a.state, queue[1..], a.error)
      else Fold(a.state, queue[1..], exec)
  }

  /**
   * Updates compose: an update over `a + b` is an update over `a` followed,
   * if nothing threw, by one over `b`; if something threw, all of `b` is
   * still queued behind the rest of `a`.
   */
  lemma {:induction false} FoldAppend<S, T, E>(s: S, a: seq<T>, b: seq<T>, exec: (S, T) -> Attempt<S, E>)
    ensures var ra := Fold(s, a, exec);
      Fold(s, a + b, exec) ==
        if ra.error.None? then Fold(ra.state, b, exec) else Drained(ra.state, ra.rest + b, ra.error)
    decreases |a|
  {
    if a == [] {
      assert a + b == b;
    } else {
      assert (a + b)[0] == a[0];
      assert (a + b)[1..] == a[1..] + b;
      var x := exec(s, a[0]);
      if x.error.None? {
        FoldAppend(x.state, a[1..], b, exec);
      }
    }
  }

  /**
   * `OnUpdate`: dequeues and executes until the queue is empty or a command
   * throws. The commands executed, followed by those left, are exactly the
   * queue: each runs at most once, in enqueue order, and the outcome is the
   * one `Fold` describes.
   */
  method Drain<S, T, E>(s0: S, queue: seq<T>, exec: (S, T) -> Attempt<S, E>)
    returns (s: S, executed: seq<T>, rest: seq<T>, error: Option<E>)
    ensures executed + rest == queue
    ensures error.None? ==> rest == [] && executed == queue
    ensures error.Some? ==> executed != []
    ensures Drained(s, rest, error) == Fold(s0, queue, exec)
  {
    s, executed, rest, error := s0, [], queue, None;
    while rest != [] && error.None?
      invariant executed + rest == queue
      invariant error.Some? ==> executed != []
      invariant error.None? ==> Fold(s, rest, exec) == Fold(s0, queue, exec)
      invariant error.Some? ==> Drained(s, rest, error) == Fold(s0, queue, exec)
      decreases |rest|
    {
      var item := rest[0];
      var a := exec(s, item);
      executed, rest := executed + [item], rest[1..];
      s, error := a.state, a.error;
    }
  }
}
