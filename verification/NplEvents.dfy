/** Event queues of the NimBLE porting layer: singly linked lists threaded through the events. */
module NplEvents {

  class Event {
    var queued: bool
    var next: Event?
    var evq: EventQueue?

    constructor ()
      ensures !queued && next == null && evq == null
    {
      queued, next, evq := false, null, null;
    }
  }

  /** `s` without its i-th element. */
  ghost function Cut<T>(s: seq<T>, i: nat): (r: seq<T>)
    requires i < |s|
    ensures |r| == |s| - 1 && forall k :: 0 <= k < |r| ==> r[k] == s[if k < i then k else k + 1]
  {
    s[..i] + s[i + 1..]
  }

  /** `after` is `before` without `e`, in the same order. */
  ghost predicate Without<T>(before: seq<T>, e: T, after: seq<T>) {
    if e in before then exists i :: 0 <= i < |before| && before[i] == e && after == Cut(before, i)
    else after == before
  }

  lemma CutDistinct<T>(s: seq<T>, i: nat)
    requires i < |s| && forall j, k :: 0 <= j < k < |s| ==> s[j] != s[k]
    ensures var r := Cut(s, i);
            && (forall j, k :: 0 <= j < k < |r| ==> r[j] != r[k])
            && (forall k :: 0 <= k < |r| ==> r[k] != s[i])
            && (forall x :: x in r <==> x in s && x != s[i])
  {
    var r := Cut(s, i);
    forall x | x in s && x != s[i]
      ensures x in r
    {
      var k :| 0 <= k < |s| && s[k] == x;
      assert r[if k < i then k else k - 1] == x;
    }
  }

  class EventQueue {
    var head: Event?
    var tail: Event?
    /** The events in the queue, oldest first. */
    ghost var items: seq<Event>

    ghost function At(i: int): Event?
      reads this
    {
      if 0 <= i < |items| then items[i] else null
    }

    /** The list from `head` visits `items` and nothing else, `tail` is its last node. */
    ghost predicate Linked()
      reads this, items
    {
      && (forall i, j :: 0 <= i < j < |items| ==> items[i] != items[j])
      && head == At(0) && tail == At(|items| - 1)
      && (forall i {:trigger items[i].next} :: 0 <= i < |items| ==> items[i].next == At(i + 1))
    }

    /** Linked, and every event in it says so. */
    ghost predicate Valid()
      reads this, items
    {
      Linked() && forall i :: 0 <= i < |items| ==> items[i].queued && items[i].evq == this
    }

    constructor ()
      ensures Valid() && items == []
    {
      head, tail, items := null, null, [];
    }

    /** Links an event behind the last. */
    method Append(ev: Event)
      requires Valid() && ev !in items
      modifies this, ev, items
      ensures Valid() && items == old(items) + [ev]
    {
      ev.next, ev.queued, ev.evq := null, true, this;
      if tail != null {
        tail.next := ev;
      } else {
        head := ev;
      }
      tail := ev;
      items := items + [ev];
    }

    /** Unlinks the first event. */
    method TakeHead() returns (ev: Event?)
      requires Valid()
      modifies this, items
      ensures Valid()
      ensures if old(items) == [] then ev == null && items == [] else
                ev == old(items)[0] && items == old(items)[1..] && !ev.queued && ev.evq == null && ev.next == null
    {
      ev := head;
      if ev != null {
        head := ev.next;
        if head == null {
          tail := null;
        }
        ev.next, ev.queued, ev.evq := null, false, null;
        items := items[1..];
      }
    }

    /** Unlinks an event, given the one in front of it. */
    method Unlink(prev: Event?, cur: Event, ghost i: nat)
      requires Valid() && i < |items| && cur == items[i] && prev == At(i - 1)
      modifies this, items
      ensures Valid() && items == Cut(old(items), i) && forall e :: e in items <==> e in old(items) && e != cur
      ensures !cur.queued && cur.evq == null && cur.next == null
    {
      ghost var was := items;
      assert (tail == cur) == (i == |was| - 1) && (prev == null) == (i == 0);
      assert forall k :: 0 <= k < |was| ==> (was[k] == cur <==> k == i) && (was[k] == prev <==> k == i - 1);
      if prev != null {
        prev.next := cur.next;
      } else {
        head := cur.next;
      }
      if tail == cur {
        tail := prev;
      }
      cur.next, cur.queued, cur.evq := null, false, null;
      items := Cut(was, i);
      CutDistinct(was, i);
      Relinked(was, i);
    }

    /** The links left by an unlink make the shorter list. */
    lemma Relinked(was: seq<Event>, i: nat)
      requires i < |was| && items == Cut(was, i) && forall j, k :: 0 <= j < k < |was| ==> was[j] != was[k]
      requires forall k :: 0 <= k < |was| && k != i ==> was[k].queued && was[k].evq == this
      requires forall k {:trigger was[k].next} :: 0 <= k < |was| - 1 && k != i - 1 && k != i ==>
                 was[k].next == was[k + 1]
      requires 0 < i < |was| - 1 ==> was[i - 1].next == was[i + 1]
      requires |was| > 1 ==> was[if i == |was| - 1 then i - 1 else |was| - 1].next == null
      requires head == (if i > 0 then was[0] else if |was| > 1 then was[1] else null)
      requires tail == (if i < |was| - 1 then was[|was| - 1] else if i > 0 then was[i - 1] else null)
      ensures Valid()
    {
      CutDistinct(was, i);
      forall k | 0 <= k < |items|
        ensures items[k].next == At(k + 1)
      {
        if k < i {
          assert items[k] == was[k];
        } else {
          assert items[k] == was[k + 1];
        }
      }
    }

    /** Finds an event. */
    method Find(ev: Event) returns (found: bool, prev: Event?, ghost i: nat)
      requires Valid()
      ensures found == (ev in items)
      ensures found ==> i < |items| && items[i] == ev && prev == At(i - 1)
    {
      found, prev, i := false, null, 0;
      var cur := head;
      while cur != null
        invariant i <= |items| && cur == At(i) && prev == At(i - 1)
        invariant ev !in items[..i]
        decreases |items| - i
      {
        if cur == ev {
          return true, prev, i;
        }
        prev, cur, i := cur, cur.next, i + 1;
      }
      assert items[..i] == items;
    }
  }

  /** The queues and events of a program: what a queue holds says so, and what is queued is held by
      the queue it names. */
  ghost predicate World(queues: set<EventQueue>, events: set<Event>)
    reads queues, events
  {
    && (forall q, i {:trigger q.items[i]} :: q in queues && 0 <= i < |q.items| ==> q.items[i] in events)
    && (forall q {:trigger q.Valid()} :: q in queues ==> q.Valid())
    && (forall e {:trigger e.queued} :: e in events ==>
         if e.queued then e.evq in queues && e in e.evq.items else e.evq == null && e.next == null)
  }

  /** An event is queued exactly when some queue holds it, and then that queue is the only one. */
  lemma QueuedInExactlyOne(queues: set<EventQueue>, events: set<Event>, e: Event)
    requires World(queues, events) && e in events
    ensures e.queued <==> exists q :: q in queues && e in q.items
    ensures forall q :: q in queues && e in q.items ==> q == e.evq
  {
    forall q | q in queues && e in q.items
      ensures e.queued && e.evq == q
    {
      Held(q, e);
    }
  }

  lemma Held(q: EventQueue, e: Event)
    requires q.Valid() && e in q.items
    ensures e.queued && e.evq == q
  {
    var i :| 0 <= i < |q.items| && q.items[i] == e;
  }

  lemma Members(q: EventQueue)
    requires q.Valid()
    ensures forall e :: e in q.items ==> e.queued && e.evq == q
  {
  }

  /** What lies outside one queue is a world of its own, with or without one unqueued event. */
  lemma Split(queues: set<EventQueue>, events: set<Event>, evq: EventQueue, loose: set<Event>)
    returns (outside: set<Event>)
    requires World(queues, events) && evq in queues && forall e :: e in loose ==> !e.queued
    ensures outside == (set e | e in events && e !in evq.items && e !in loose)
    ensures World(queues - {evq}, outside)
  {
    outside := set e | e in events && e !in evq.items && e !in loose;
    forall q, i | q in queues - {evq} && 0 <= i < |q.items|
      ensures q.items[i] in outside
    {
      Held(q, q.items[i]);
      if q.items[i] in evq.items { Held(evq, q.items[i]); }
    }
  }

  lemma Join(queues: set<EventQueue>, events: set<Event>, evq: EventQueue, outside: set<Event>)
    requires evq in queues && evq.Valid() && World(queues - {evq}, outside) && outside <= events
    requires forall e :: e in evq.items ==> e in events
    requires forall e :: e in events && e !in outside && e !in evq.items ==>
               !e.queued && e.evq == null && e.next == null
    ensures World(queues, events)
  {
    Members(evq);
  }

  /** Queues an event at the end; an event that is queued somewhere stays where it is. */
  method Put(evq: EventQueue?, ev: Event?, ghost queues: set<EventQueue>, ghost events: set<Event>)
    requires World(queues, events)
    requires (evq == null || evq in queues) && (ev == null || ev in events)
    modifies evq, events
    ensures World(queues, events)
    ensures evq != null ==> evq.items == old(evq.items) + if ev != null && !old(ev.queued) then [ev] else []
    ensures forall e {:trigger e.queued} :: e in events ==> e.queued == (old(e.queued) || (evq != null && e == ev))
  {
    if evq == null || ev == null || ev.queued {
      return;
    }
    ghost var outside := Split(queues, events, evq, {ev});
    Members(evq);
    evq.Append(ev);
    Members(evq);
    Join(queues, events, evq, outside);
  }

  /** Takes the oldest event. */
  method Take(evq: EventQueue?, ghost queues: set<EventQueue>, ghost events: set<Event>) returns (ev: Event?)
    requires World(queues, events) && (evq == null || evq in queues)
    modifies evq, events
    ensures World(queues, events)
    ensures evq == null ==> ev == null
    ensures evq != null ==> ev == (if old(evq.items) == [] then null else old(evq.items)[0])
    ensures evq != null ==> evq.items == if old(evq.items) == [] then [] else old(evq.items)[1..]
    ensures forall e {:trigger e.queued} :: e in events ==> e.queued == (old(e.queued) && e != ev)
  {
    if evq == null { return null; }
    ghost var outside := Split(queues, events, evq, {});
    Members(evq);
    ev := evq.TakeHead();
    Members(evq);
    Join(queues, events, evq, outside);
  }

  /** Takes an event out of a queue, from wherever it stands; an event the queue does not hold is
      left alone, queued elsewhere or not. */
  method Remove(evq: EventQueue?, ev: Event?, ghost queues: set<EventQueue>, ghost events: set<Event>)
    requires World(queues, events) && (evq == null || evq in queues) && (ev == null || ev in events)
    modifies evq, events
    ensures World(queues, events)
    ensures evq != null ==> if ev == null then evq.items == old(evq.items) else Without(old(evq.items), ev, evq.items)
    ensures forall e {:trigger e.queued} :: e in events ==>
              e.queued == (old(e.queued) && (evq == null || e != ev || e !in old(evq.items)))
  {
    if evq == null || ev == null { return; }
    var found, prev, i := evq.Find(ev);
    if found {
      ghost var outside := Split(queues, events, evq, {});
      Members(evq);
      evq.Unlink(prev, ev, i);
      Members(evq);
      Join(queues, events, evq, outside);
    }
  }
}
