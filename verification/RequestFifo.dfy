/**
 * A single server that answers requests in arrival order: the specification that
 * both RPC machines of the wallet refine.
 */
module RequestFifo {
  import opened Common

  /** received and finished record the history; active and queue are the server's state. */
  datatype Fifo<T> = Fifo(received: seq<T>, finished: seq<T>, active: Option<T>, queue: seq<T>)

  ghost predicate Inv<T>(f: Fifo<T>) {
    && f.received == f.finished + ToSeq(f.active) + f.queue
    && (f.active.None? ==> f.queue == [])
  }

  ghost function Empty<T>(): Fifo<T> {
    Fifo([], [], None, [])
  }

  /** A request arrives: it is served at once when the server is idle and waits otherwise. */
  ghost function Arrive<T>(f: Fifo<T>, x: T): Fifo<T> {
    if f.active.None?
    then f.(received := f.received + [x], active := Some(x))
    else f.(received := f.received + [x], queue := f.queue + [x])
  }

  /** The active request is answered and the longest waiting one becomes active. */
  ghost function Finish<T>(f: Fifo<T>): Fifo<T>
    requires f.active.Some?
  {
    Fifo(f.received, f.finished + [f.active.value],
         if f.queue == [] then None else Some(f.queue[0]),
         if f.queue == [] then [] else f.queue[1..])
  }

  ghost predicate Arrives<T>(f: Fifo<T>, x: T, g: Fifo<T>) {
    g == Arrive(f, x)
  }

  ghost predicate Next<T(!new)>(f: Fifo<T>, g: Fifo<T>) {
    || g == f
    || (exists x :: Arrives(f, x, g))
    || (f.active.Some? && g == Finish(f))
  }

  lemma NextPreservesInv<T(!new)>(f: Fifo<T>, g: Fifo<T>)
    requires Inv(f) && Next(f, g)
    ensures Inv(g)
    ensures f.received <= g.received && f.finished <= g.finished
    ensures f.active.Some? && g.finished == f.finished ==> g.active == f.active
  {
    if x :| Arrives(f, x, g) {
      assert g.received == g.finished + ToSeq(g.active) + g.queue;
    }
  }

  /** Answers come in arrival order, one for each request: the k-th answer is to the k-th arrival. */
  lemma InvMeansInOrder<T>(f: Fifo<T>)
    requires Inv(f)
    ensures f.finished <= f.received
    ensures |f.finished| < |f.received| <==> f.active.Some?
    ensures f.active.Some? ==> f.active.value == f.received[|f.finished|]
  {
  }
}
