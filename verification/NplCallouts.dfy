/** Callouts of the NimBLE porting layer: a deadline list under a 32-bit clock that wraps. */
module NplCallouts {
  import opened Bytes
  import opened NplEvents

  const TURN: int := 0x1_0000_0000
  const HALF: int := 0x8000_0000

  /** The signed 32-bit difference of two times. */
  function Delta(a: u32, b: u32): (d: int)
    ensures -HALF <= d < HALF && (d == 0 <==> a == b)
  {
    var d: int := (a - b) % TURN;
    if d < HALF then d else d - TURN
  }

  /** How far a time lies after the start of a window. */
  function Offset(base: u32, t: u32): int { (t - base) % TURN }

  /** The time lies in the window of 2^31 ticks that starts at `base`. */
  predicate InWindow(base: u32, t: u32) { Offset(base, t) < HALF }

  /** Within a window the signed difference is the true one. */
  lemma DeltaIsTrue(base: u32, a: u32, b: u32)
    requires InWindow(base, a) && InWindow(base, b)
    ensures Delta(a, b) == Offset(base, a) - Offset(base, b)
  {
  }

  /** A callout armed for `ticks` from now counts as due right away exactly when the delay is zero or
      at least half a turn of the clock. */
  lemma DueAtOnceExactly(now: u32, ticks: u32)
    ensures Delta((now + ticks) % TURN, now) <= 0 <==> ticks == 0 || ticks >= HALF
  {
    assert ((now + ticks) % TURN - now) % TURN == ticks;
  }

  class Callout {
    const ev: Event
    const evq: EventQueue
    var ticks: u32
    var active: bool
    var next: Callout?
    /** When it was last armed, counted in insertions. */
    ghost var stamp: nat

    constructor (evq: EventQueue)
      ensures this.evq == evq && fresh(ev) && !active && next == null && ticks == 0
      ensures !ev.queued && ev.evq == null && ev.next == null
    {
      this.evq, ticks, active, next := evq, 0, false, null;
      ev := new Event();
    }
  }

  ghost predicate Earlier(c: Callout, d: Callout)
    reads c`ticks, d`ticks, c`stamp, d`stamp
  {
    var delta := Delta(c.ticks, d.ticks);
    delta < 0 || (delta == 0 && c.stamp < d.stamp)
  }

  ghost function Inserted<T>(s: seq<T>, k: nat, x: T): (r: seq<T>)
    requires k <= |s|
    ensures |r| == |s| + 1 && r[k] == x
    ensures forall i :: 0 <= i < |r| && i != k ==> r[i] == s[if i < k then i else i - 1]
  {
    s[..k] + [x] + s[k..]
  }

  lemma InsertedMembers<T>(s: seq<T>, k: nat, x: T)
    requires k <= |s|
    ensures forall y :: y in Inserted(s, k, x) <==> y in s || y == x
  {
  }

  /** The first `due` callouts are due, and the next one is not. */
  ghost predicate DueUpTo(cs: seq<Callout>, due: nat, now: u32)
    reads cs`ticks
  {
    && due <= |cs| && (forall i :: 0 <= i < due ==> Delta(cs[i].ticks, now) <= 0)
    && (due < |cs| ==> Delta(cs[due].ticks, now) > 0)
  }

  /** The callouts in front of `k` are due no later than `ticks`, the others later. */
  ghost predicate Splits(cs: seq<Callout>, k: nat, ticks: u32)
    reads cs`ticks
  {
    forall i :: 0 <= i < |cs| ==> if i < k then Delta(cs[i].ticks, ticks) <= 0 else Delta(ticks, cs[i].ticks) < 0
  }

  ghost predicate InOrder(cs: seq<Callout>)
    reads cs`ticks, cs`stamp
  {
    forall i, j :: 0 <= i < j < |cs| ==> Earlier(cs[i], cs[j])
  }

  class Callouts {
    var head: Callout?
    /** The active callouts in list order, and how many insertions there have been. */
    ghost var list: seq<Callout>
    ghost var clock: nat

    ghost function At(i: int): Callout?
      reads this
    {
      if 0 <= i < |list| then list[i] else null
    }

    /** The list from `head` visits `list` and nothing else. */
    ghost predicate Linked()
      reads this, list`next
    {
      && (forall i, j :: 0 <= i < j < |list| ==> list[i] != list[j])
      && head == At(0)
      && (forall i {:trigger list[i].next} :: 0 <= i < |list| ==> list[i].next == At(i + 1))
    }

    ghost predicate AllActive()
      reads this, list`active, list`stamp
    {
      forall i :: 0 <= i < |list| ==> list[i].active && list[i].stamp < clock
    }

    ghost predicate Valid()
      reads this, list
    {
      Linked() && AllActive()
    }

    /** Sorted by wrapped time, equal deadlines in the order they were armed. */
    ghost predicate Sorted()
      reads this, list`ticks, list`stamp
    {
      InOrder(list)
    }

    ghost predicate Windowed(base: u32)
      reads this, list`ticks
    {
      forall i :: 0 <= i < |list| ==> InWindow(base, list[i].ticks)
    }

    /** The list is sorted, and its deadlines and a further time lie in the window from `base`. */
    ghost predicate Fits(base: u32, t: u32)
      reads this, list`ticks, list`stamp
    {
      Sorted() && Windowed(base) && InWindow(base, t)
    }

    /** Of the callouts of a program, those in the list are the active ones. */
    ghost predicate Tracks(callouts: set<Callout>)
      reads this, callouts
    {
      && (forall c :: c in list ==> c in callouts)
      && (forall c {:trigger c.active} :: c in callouts ==> (c.active <==> c in list) && (!c.active ==> c.next == null))
    }

    constructor ()
      ensures Valid() && list == []
    {
      head, list, clock := null, [], 0;
    }

    /** In a sorted list within a window, whatever stands behind a later deadline is later. */
    lemma LaterBehind(base: u32, ticks: u32, k: nat, i: nat)
      requires Fits(base, ticks)
      requires k <= i < |list| && Delta(list[k].ticks, ticks) > 0
      ensures Delta(list[i].ticks, ticks) > 0 && Delta(ticks, list[i].ticks) < 0
    {
      DeltaIsTrue(base, list[k].ticks, ticks);
      DeltaIsTrue(base, list[i].ticks, ticks);
      DeltaIsTrue(base, ticks, list[i].ticks);
      if k < i {
        assert Earlier(list[k], list[i]);
        DeltaIsTrue(base, list[k].ticks, list[i].ticks);
      }
    }

    /** What the place found says about every entry, when all lie in one window. */
    lemma PlaceSplits(base: u32, ticks: u32, k: nat)
      requires DueUpTo(list, k, ticks)
      ensures Fits(base, ticks) ==>
                Splits(list, k, ticks) && forall i :: k <= i < |list| ==> Delta(list[i].ticks, ticks) > 0
    {
      forall i | Fits(base, ticks) && k <= i < |list|
        ensures Delta(list[i].ticks, ticks) > 0 && Delta(ticks, list[i].ticks) < 0
      {
        LaterBehind(base, ticks, k, i);
      }
    }

    /** The place for a deadline: behind every entry that is due no later. In a sorted list within a
        window all behind it are due later. */
    method FindPlace(ticks: u32, ghost base: u32) returns (prev: Callout?, ghost k: nat)
      requires Valid()
      ensures DueUpTo(list, k, ticks) && prev == At(k - 1)
              && (prev != null ==> prev in list && Delta(prev.ticks, ticks) <= 0)
      ensures Fits(base, ticks) ==> Splits(list, k, ticks)
    {
      prev, k := null, 0;
      var cur := head;
      while cur != null
        invariant k <= |list| && cur == At(k) && prev == At(k - 1)
        invariant forall i :: 0 <= i < k ==> Delta(list[i].ticks, ticks) <= 0
        decreases |list| - k
      {
        if Delta(cur.ticks, ticks) > 0 { break; }
        prev, cur, k := cur, cur.next, k + 1;
      }
      PlaceSplits(base, ticks, k);
    }

    /** How many callouts at the front are due. */
    lemma DuePrefix(now: u32, i: nat) returns (k: nat)
      requires i <= |list| && forall j :: 0 <= j < i ==> Delta(list[j].ticks, now) <= 0
      ensures DueUpTo(list, k, now)
      decreases |list| - i
    {
      if i < |list| && Delta(list[i].ticks, now) <= 0 {
        k := DuePrefix(now, i + 1);
      } else {
        k := i;
      }
    }

    /** In a sorted list within a window these are all that are due. */
    lemma DueFirst(base: u32, now: u32, k: nat)
      requires Fits(base, now) && DueUpTo(list, k, now)
      ensures forall j :: 0 <= j < |list| ==> (j < k <==> Delta(list[j].ticks, now) <= 0)
    {
      PlaceSplits(base, now, k);
    }

    /** Links a callout behind `prev`. */
    method LinkIn(co: Callout, prev: Callout?, ghost k: nat)
      requires Linked() && AllActive() && co !in list && k <= |list| && prev == At(k - 1)
      modifies `head, co`next, co`active, co`stamp, list`next, `list, `clock
      ensures Linked() && AllActive() && list == Inserted(old(list), k, co)
      ensures co.stamp == old(clock) && clock == old(clock) + 1
      ensures forall c :: c in list <==> c in old(list) || c == co
    {
      ghost var was := list;
      assert forall i :: 0 <= i < |was| ==> (was[i] == prev <==> i == k - 1);
      if prev != null {
        co.next := prev.next;
        prev.next := co;
      } else {
        co.next := head;
        head := co;
      }
      co.active := true;
      co.stamp, clock := clock, clock + 1;
      list := Inserted(was, k, co);
      InsertedMembers(was, k, co);
    }

    /** A callout armed last, between the entries due no later and those due later. */
    lemma SortedInserted(was: seq<Callout>, k: nat, co: Callout)
      requires k <= |was| && list == Inserted(was, k, co)
      requires InOrder(was)
      requires forall i :: 0 <= i < |was| ==> was[i].stamp < co.stamp
      requires Splits(was, k, co.ticks)
      ensures Sorted()
    {
      forall i, j | 0 <= i < j < |list|
        ensures Earlier(list[i], list[j])
      {
        assert i != k ==> list[i] == was[if i < k then i else i - 1];
        assert j != k ==> list[j] == was[if j < k then j else j - 1];
      }
    }

    /** Links a callout into a sorted list at its place. */
    method InsertAt(co: Callout, prev: Callout?, ghost k: nat)
      requires Valid() && co !in list && k <= |list| && prev == At(k - 1)
      modifies `head, `list, `clock, list`next, co`next, co`active, co`stamp
      ensures Valid() && list == Inserted(old(list), k, co) && co.active
      ensures forall c :: c in list <==> c in old(list) || c == co
      ensures old(Sorted() && Splits(list, k, co.ticks)) ==> Sorted()
    {
      ghost var was, sorted := list, Sorted() && Splits(list, k, co.ticks);
      LinkIn(co, prev, k);
      if sorted {
        SortedInserted(was, k, co);
      }
    }

    /** Puts a callout in front of the first entry with a later deadline. When all deadlines lie in a
        window of 2^31 ticks from `base`, a sorted list stays sorted, and all entries behind are later. */
    method Insert(co: Callout, ghost base: u32) returns (ghost k: nat)
      requires Valid() && co !in list
      modifies `head, `list, `clock, list`next, co`next, co`active, co`stamp
      ensures Valid() && k <= |old(list)| && list == Inserted(old(list), k, co) && co.active
      ensures forall c :: c in list <==> c in old(list) || c == co
      ensures old(DueUpTo(list, k, co.ticks))
      ensures old(Fits(base, co.ticks)) ==> Sorted() && old(Splits(list, k, co.ticks))
    {
      var prev;
      prev, k := FindPlace(co.ticks, base);
      InsertAt(co, prev, k);
    }

    lemma SortedCut(was: seq<Callout>, k: nat)
      requires k < |was| && list == Cut(was, k)
      requires InOrder(was)
      ensures Sorted()
    {
      forall i, j | 0 <= i < j < |list|
        ensures Earlier(list[i], list[j])
      {
        assert list[i] == was[if i < k then i else i + 1];
        assert list[j] == was[if j < k then j else j + 1];
      }
    }

    /** Unlinks the callout behind `prev`. */
    method LinkOut(co: Callout, prev: Callout?, ghost k: nat)
      requires Linked() && AllActive() && k < |list| && co == list[k] && prev == At(k - 1)
      modifies `head, list`next, list`active, `list
      ensures Linked() && AllActive() && list == Cut(old(list), k)
      ensures !co.active && co.next == null
    {
      ghost var was := list;
      assert forall i :: 0 <= i < |was| ==> (was[i] == prev <==> i == k - 1) && (was[i] == co <==> i == k);
      if prev != null {
        prev.next := co.next;
      } else {
        head := co.next;
      }
      co.next, co.active := null, false;
      list := Cut(was, k);
      CutDistinct(was, k);
    }

    /** Takes a callout out of the list; one that is not in it is left alone. */
    method Remove(co: Callout)
      requires Valid()
      modifies `head, list`next, list`active, `list
      ensures Valid() && (old(Sorted()) ==> Sorted())
      ensures Without(old(list), co, list) && (co in old(list) ==> !co.active && co.next == null)
      ensures forall c :: c in list <==> c in old(list) && c != co
    {
      var prev: Callout? := null;
      var cur := head;
      ghost var k := 0;
      while cur != null
        invariant k <= |list| && cur == At(k) && prev == At(k - 1)
        invariant forall i :: 0 <= i < k ==> list[i] != co
        decreases |list| - k
      {
        if cur == co {
          ghost var was, sorted := list, Sorted();
          CutDistinct(was, k);
          LinkOut(co, prev, k);
          if sorted { SortedCut(was, k); }
          return;
        }
        prev, cur, k := cur, cur.next, k + 1;
      }
    }

    /** Taking a callout out leaves it inactive, and the others as they are. */
    method Disarm(co: Callout, ghost callouts: set<Callout>)
      requires Valid() && Tracks(callouts) && co in callouts
      modifies `head, `list, callouts`next, callouts`active
      ensures Valid() && Tracks(callouts) && (old(Sorted()) ==> Sorted())
      ensures Without(old(list), co, list) && !co.active && forall c :: c in list <==> c in old(list) && c != co
    {
      Remove(co);
    }

    /** Disarms a callout. */
    method Stop(co: Callout?, ghost callouts: set<Callout>)
      requires Valid() && Tracks(callouts) && (co == null || co in callouts)
      modifies `head, `list, callouts`next, callouts`active
      ensures Valid() && Tracks(callouts) && (old(Sorted()) ==> Sorted())
      ensures co != null ==> !co.active && Without(old(list), co, list)
      ensures co == null ==> list == old(list)
    {
      if co != null {
        Disarm(co, callouts);
      }
    }

    /** The deadlines of the other active callouts lie in a window. */
    ghost predicate OthersWindowed(co: Callout, base: u32)
      reads this, list`ticks
    {
      forall i :: 0 <= i < |list| && list[i] != co ==> InWindow(base, list[i].ticks)
    }

    /** Without a callout the list lies in the window of the others. */
    lemma OthersLeft(was: seq<Callout>, co: Callout, base: u32)
      requires forall c :: c in list ==> c in was && c != co
      requires forall i :: 0 <= i < |was| && was[i] != co ==> InWindow(base, was[i].ticks)
      ensures Windowed(base)
    {
      forall i | 0 <= i < |list|
        ensures InWindow(base, list[i].ticks)
      {
        assert list[i] in was && list[i] != co;
      }
    }

    /** Takes a callout out and sets its deadline. */
    method Retime(co: Callout, t: u32, ghost base: u32, ghost callouts: set<Callout>)
      requires Valid() && Tracks(callouts) && co in callouts
      modifies `head, `list, callouts`next, callouts`active, co`ticks
      ensures Valid() && Tracks(callouts) && Without(old(list), co, list)
      ensures old(Sorted()) ==> Sorted()
      ensures old(OthersWindowed(co, base)) ==> Windowed(base)
      ensures co.ticks == t && co !in list
    {
      ghost var was, windowed := list, OthersWindowed(co, base);
      Disarm(co, callouts);
      if windowed {
        OthersLeft(was, co, base);
      }
      co.ticks := t;
    }

    /** Links an inactive callout in at its place. */
    method Arm(co: Callout, ghost base: u32, ghost callouts: set<Callout>) returns (ghost k: nat)
      requires Valid() && Tracks(callouts) && co in callouts && co !in list
      modifies `head, `list, `clock, callouts`next, callouts`active, co`stamp
      ensures Valid() && Tracks(callouts) && co.active
      ensures k <= |old(list)| && list == Inserted(old(list), k, co) && DueUpTo(old(list), k, co.ticks)
      ensures old(Fits(base, co.ticks)) ==> Sorted() && Splits(old(list), k, co.ticks)
    {
      k := Insert(co, base);
    }

    /** Arms a callout for `ticks` from now, wherever it stood before: it ends up in front of the
        first entry with a later deadline. `rest` is the list without it. When the deadlines lie in a
        window of 2^31 ticks from `base`, a sorted list stays sorted. */
    method Reset(co: Callout?, now: u32, ticks: u32, ghost base: u32, ghost callouts: set<Callout>)
      returns (ok: bool, ghost rest: seq<Callout>, ghost k: nat)
      requires Valid() && Tracks(callouts) && (co == null || co in callouts)
      modifies `head, `list, `clock, callouts`next, callouts`active, co
      ensures Valid() && Tracks(callouts) && ok == (co != null)
      ensures co == null ==> list == old(list)
      ensures co != null ==> co.active && co.ticks == (now + ticks) % TURN && Without(old(list), co, rest)
      ensures co != null ==> k <= |rest| && list == Inserted(rest, k, co) && DueUpTo(rest, k, co.ticks)
      ensures co != null && old(Sorted() && OthersWindowed(co, base)) && InWindow(base, (now + ticks) % TURN) ==>
                Sorted() && Splits(rest, k, co.ticks)
    {
      rest, k := [], 0;
      if co == null {
        return false, rest, k;
      }
      Retime(co, (now + ticks) % TURN, base, callouts);
      rest := list;
      k := Arm(co, base, callouts);
      ok := true;
    }

    // -------------------------------------------------------------------------------------------
    // Processing

    method PopHead() returns (co: Callout)
      requires Valid() && head != null
      modifies `head, `list, list`next, list`active
      ensures Valid() && co == old(list)[0] && list == old(list)[1..]
      ensures !co.active && co.next == null && (old(Sorted()) ==> Sorted())
    {
      co := head;
      head := co.next;
      co.next, co.active := null, false;
      list := list[1..];
    }
  }

  /** The events the first `n` callouts put on a queue, when those of `queued` are on some queue
      already. */
  ghost function EventsFor(cs: seq<Callout>, n: nat, q: EventQueue, queued: set<Event>): seq<Event>
    requires n <= |cs|
  {
    if n == 0 then []
    else
      EventsFor(cs, n - 1, q, queued)
      + if cs[n - 1].evq == q && cs[n - 1].ev !in queued then [cs[n - 1].ev] else []
  }

  /** Every callout has its own event, and posts it to one of the queues. */
  ghost predicate Posting(callouts: set<Callout>, queues: set<EventQueue>, events: set<Event>) {
    && (forall c {:trigger c.ev} {:trigger c.evq} :: c in callouts ==> c.ev in events && c.evq in queues)
    && (forall c, d {:trigger c.ev, d.ev} :: c in callouts && d in callouts && c != d ==> c.ev != d.ev)
  }

  /** Unlinks the first callout; queues and events stay as they are. */
  method TakeFirst(callouts: Callouts, ghost all: set<Callout>, ghost queues: set<EventQueue>, ghost events: set<Event>)
    returns (co: Callout)
    requires callouts.Valid() && callouts.Tracks(all) && World(queues, events) && callouts.head != null
    modifies callouts`head, callouts`list, all`next, all`active
    ensures callouts.Valid() && callouts.Tracks(all) && World(queues, events)
    ensures co == old(callouts.list)[0] && callouts.list == old(callouts.list)[1..]
  {
    co := callouts.PopHead();
  }

  /** Takes out the first callout and posts its event. */
  method PostHead(callouts: Callouts, ghost all: set<Callout>, ghost queues: set<EventQueue>, ghost events: set<Event>)
    returns (co: Callout)
    requires callouts.Valid() && callouts.Tracks(all) && World(queues, events) && Posting(all, queues, events)
    requires callouts.head != null
    modifies callouts`head, callouts`list, all`next, all`active, queues, events
    ensures callouts.Valid() && callouts.Tracks(all) && World(queues, events)
    ensures co == old(callouts.list)[0] && callouts.list == old(callouts.list)[1..]
    ensures forall q {:trigger q.items} :: q in queues ==>
              q.items == old(q.items) + if q == co.evq && !old(co.ev.queued) then [co.ev] else []
    ensures forall e {:trigger e.queued} :: e in events ==> e.queued == (old(e.queued) || e == co.ev)
    ensures forall c {:trigger c.ticks} {:trigger c.stamp} :: c in all ==>
              c.ticks == old(c.ticks) && c.stamp == old(c.stamp)
  {
    co := TakeFirst(callouts, all, queues, events);
    Put(co.evq, co.ev, queues, events);
  }

  /** What the first `n` callouts of `was` have done to the queues, which held `start`. */
  ghost predicate Posted(was: seq<Callout>, n: nat, queues: set<EventQueue>, events: set<Event>,
                         start: map<EventQueue, seq<Event>>, queued: set<Event>)
    requires n <= |was|
    reads queues, events
  {
    && start.Keys == queues
    && (forall q {:trigger q.items} :: q in queues ==> q.items == start[q] + EventsFor(was, n, q, queued))
    && (forall e {:trigger e.queued} :: e in events ==>
         (e.queued <==> e in queued || exists i :: 0 <= i < n && was[i].ev == e))
  }

  lemma EventsStep(was: seq<Callout>, n: nat, q: EventQueue, queued: set<Event>, start: seq<Event>, before: seq<Event>)
    requires n < |was| && before == start + EventsFor(was, n, q, queued)
    ensures start + EventsFor(was, n + 1, q, queued)
         == before + if was[n].evq == q && was[n].ev !in queued then [was[n].ev] else []
  {
  }

  /** Takes out the callouts at the front that are due, and posts their events. When the deadlines lie
      in a window of 2^31 ticks from `base` these are all that are due. */
  method ProcessCallouts(callouts: Callouts, now: u32, ghost base: u32,
                         ghost all: set<Callout>, ghost queues: set<EventQueue>, ghost events: set<Event>)
    returns (ghost n: nat)
    requires callouts.Valid() && callouts.Tracks(all) && World(queues, events) && Posting(all, queues, events)
    modifies callouts`head, callouts`list, all`next, all`active, queues, events
    ensures callouts.Valid() && callouts.Tracks(all) && World(queues, events)
    ensures old(DueUpTo(callouts.list, n, now)) && callouts.list == old(callouts.list)[n..]
    ensures old(callouts.Sorted()) ==> callouts.Sorted()
    ensures old(callouts.Fits(base, now)) ==>
              forall i :: 0 <= i < |old(callouts.list)| ==> (i < n <==> old(Delta(callouts.list[i].ticks, now)) <= 0)
    ensures forall q {:trigger q.items} :: q in queues ==>
              q.items == old(q.items) + EventsFor(old(callouts.list), n, q, old(set e | e in events && e.queued))
  {
    ghost var was, queued := callouts.list, set e | e in events && e.queued;
    ghost var start := map q | q in queues :: q.items;
    n := callouts.DuePrefix(now, 0);
    if callouts.Fits(base, now) {
      callouts.DueFirst(base, now, n);
    }
    ProcessDue(callouts, now, all, queues, events, was, start, queued, n);
  }

  /** One turn of the processing loop. */
  method PostIfDue(callouts: Callouts, now: u32, ghost all: set<Callout>, ghost queues: set<EventQueue>,
                   ghost events: set<Event>, ghost was: seq<Callout>, ghost n: nat,
                   ghost start: map<EventQueue, seq<Event>>, ghost queued: set<Event>, ghost due: nat)
    returns (more: bool)
    requires callouts.Valid() && callouts.Tracks(all) && World(queues, events) && Posting(all, queues, events)
    requires callouts.head != null && n <= due && DueUpTo(was, due, now) && callouts.list == was[n..]
    requires Posted(was, n, queues, events, start, queued)
    requires (forall i :: 0 <= i < |was| ==> was[i] in all) && forall i, j :: 0 <= i < j < |was| ==> was[i] != was[j]
    modifies callouts`head, callouts`list, all`next, all`active, queues, events
    ensures callouts.Valid() && callouts.Tracks(all) && World(queues, events) && DueUpTo(was, due, now)
    ensures old(InOrder(was)) ==> InOrder(was)
    ensures n < |was| && more == (n < due)
    ensures if more then callouts.list == was[n + 1..] && Posted(was, n + 1, queues, events, start, queued)
            else callouts.list == was[n..] && Posted(was, n, queues, events, start, queued)
  {
    assert callouts.head == was[n];
    if Delta(callouts.head.ticks, now) > 0 {
      return false;
    }
    PostDue(callouts, all, queues, events, was, n, start, queued);
    more := true;
  }

  /** The processing loop, given how many callouts are due. */
  method ProcessDue(callouts: Callouts, now: u32, ghost all: set<Callout>, ghost queues: set<EventQueue>,
                    ghost events: set<Event>, ghost was: seq<Callout>,
                    ghost start: map<EventQueue, seq<Event>>, ghost queued: set<Event>, ghost due: nat)
    requires callouts.Valid() && callouts.Tracks(all) && World(queues, events) && Posting(all, queues, events)
    requires due <= |was| && callouts.list == was && DueUpTo(was, due, now)
             && Posted(was, 0, queues, events, start, queued)
    modifies callouts`head, callouts`list, all`next, all`active, queues, events
    ensures callouts.Valid() && callouts.Tracks(all) && World(queues, events)
    ensures callouts.list == was[due..] && Posted(was, due, queues, events, start, queued)
    ensures old(callouts.Sorted()) ==> callouts.Sorted()
  {
    ghost var n := 0;
    var more := true;
    assert (forall i :: 0 <= i < |was| ==> was[i] in all) && forall i, j :: 0 <= i < j < |was| ==> was[i] != was[j];
    while more && callouts.head != null
      invariant callouts.Valid() && callouts.Tracks(all) && World(queues, events)
      invariant n <= due && callouts.list == was[n..] && (more || n == due)
      invariant DueUpTo(was, due, now) && Posted(was, n, queues, events, start, queued)
      invariant old(InOrder(was)) ==> InOrder(was)
      decreases |was| - n, more
    {
      more := PostIfDue(callouts, now, all, queues, events, was, n, start, queued, due);
      n := if more then n + 1 else n;
    }
  }

  method PostDue(callouts: Callouts, ghost all: set<Callout>, ghost queues: set<EventQueue>, ghost events: set<Event>,
                 ghost was: seq<Callout>, ghost n: nat, ghost start: map<EventQueue, seq<Event>>,
                 ghost queued: set<Event>)
    requires callouts.Valid() && callouts.Tracks(all) && World(queues, events) && Posting(all, queues, events)
    requires callouts.head != null && n < |was| && callouts.list == was[n..]
    requires Posted(was, n, queues, events, start, queued)
    requires (forall i :: 0 <= i <= n ==> was[i] in all) && forall i, j :: 0 <= i < j < |was| ==> was[i] != was[j]
    modifies callouts`head, callouts`list, all`next, all`active, queues, events
    ensures callouts.Valid() && callouts.Tracks(all) && World(queues, events)
    ensures callouts.list == was[n + 1..]
    ensures Posted(was, n + 1, queues, events, start, queued)
    ensures forall c {:trigger c.ticks} {:trigger c.stamp} :: c in all ==>
              c.ticks == old(c.ticks) && c.stamp == old(c.stamp)
  {
    assert was[n..][0] == was[n] && was[n..][1..] == was[n + 1..];
    assert was[n].ev.queued <==> was[n].ev in queued by {
      assert forall i :: 0 <= i < n ==> was[i].ev != was[n].ev;
    }
    ghost var before := map q | q in queues :: q.items;
    var co := PostHead(callouts, all, queues, events);
    forall q | q in queues
      ensures q.items == start[q] + EventsFor(was, n + 1, q, queued)
    {
      EventsStep(was, n, q, queued, start[q], before[q]);
    }
  }

  /** Takes an event; the callouts stay as they are. */
  method TakeBeside(evq: EventQueue, callouts: Callouts, ghost all: set<Callout>, ghost queues: set<EventQueue>,
                    ghost events: set<Event>)
    returns (ev: Event?)
    requires callouts.Valid() && callouts.Tracks(all) && World(queues, events) && evq in queues
    modifies evq, events
    ensures callouts.Valid() && callouts.Tracks(all) && (old(callouts.Sorted()) ==> callouts.Sorted())
            && World(queues, events)
    ensures ev == (if old(evq.items) == [] then null else old(evq.items)[0])
    ensures evq.items == if old(evq.items) == [] then [] else old(evq.items)[1..]
  {
    ev := Take(evq, queues, events);
  }

  /** One turn of taking an event from a queue: due callouts are posted first. */
  method GetNow(evq: EventQueue, callouts: Callouts, now: u32, ghost base: u32,
                ghost all: set<Callout>, ghost queues: set<EventQueue>, ghost events: set<Event>)
    returns (ev: Event?, ghost n: nat)
    requires callouts.Valid() && callouts.Tracks(all) && World(queues, events) && Posting(all, queues, events)
             && evq in queues
    modifies callouts`head, callouts`list, all`next, all`active, queues, events
    ensures callouts.Valid() && callouts.Tracks(all) && World(queues, events)
    ensures old(callouts.Sorted()) ==> callouts.Sorted()
    ensures old(DueUpTo(callouts.list, n, now)) && callouts.list == old(callouts.list)[n..]
    ensures old(callouts.Fits(base, now)) ==>
              forall i :: 0 <= i < |old(callouts.list)| ==> (i < n <==> old(Delta(callouts.list[i].ticks, now)) <= 0)
    ensures var waiting := old(evq.items) + EventsFor(old(callouts.list), n, evq, old(set e | e in events && e.queued));
            if waiting == [] then ev == null && evq.items == [] else ev == waiting[0] && evq.items == waiting[1..]
  {
    n := ProcessCallouts(callouts, now, base, all, queues, events);
    ev := TakeBeside(evq, callouts, all, queues, events);
  }
}
