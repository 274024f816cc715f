/**
 * The per-symbol price-priority queue (a `SimplePriorityQueue<IQuote, double>`),
 * seen through its contents: each queued quote, named by its Id because the queue
 * compares quotes with their Id-based equality, with the priority it was given.
 * Enqueue is map update, Remove is key removal and Count is cardinality; `First`
 * is some entry of least priority, ties broken arbitrarily.
 */
module PriorityQueue {
  import opened Model

  type Queue = map<Guid, real>

  /** g may be the queue's `First`: it is queued and no queued priority is smaller. */
  predicate IsFirst(q: Queue, g: Guid)
  {
    g in q && forall h | h in q :: q[g] <= q[h]
  }

  /** Every non-empty queue has a first element. */
  lemma {:induction false} FirstExists(q: Queue)
    requires q != map[]
    ensures exists g :: IsFirst(q, g)
    decreases |q.Keys|
  {
    var g :| g in q;
    var rest := q - {g};
    assert rest.Keys == q.Keys - {g};
    assert forall h | h in q :: h == g || h in rest;
    if rest == map[] {
      assert IsFirst(q, g);
    } else {
      FirstExists(rest);
      var h :| IsFirst(rest, h);
      if q[g] <= q[h] {
        assert IsFirst(q, g);
      } else {
        assert IsFirst(q, h);
      }
    }
  }

  /** `First`: an element of least priority. */
  method First(q: Queue) returns (g: Guid)
    requires q != map[]
    ensures IsFirst(q, g)
  {
    FirstExists(q);
    g :| g in q && IsFirst(q, g);
  }

  /** `Dequeue`: takes out an element of least priority and returns it. */
  method Dequeue(q: Queue) returns (g: Guid, rest: Queue)
    requires q != map[]
    ensures IsFirst(q, g) && rest == q - {g}
  {
    g := First(q);
    rest := q - {g};
  }

  /** `Count` goes down by one when a queued element is removed. */
  lemma CountAfterRemove(q: Queue, g: Guid)
    requires g in q
    ensures |q - {g}| == |q| - 1
  {
    assert (q - {g}).Keys == q.Keys - {g};
  }
}
