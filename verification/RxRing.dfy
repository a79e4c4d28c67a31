/** The receive ring between transport and upper layers. */
module RxRing {
  import opened Bytes

  const DEPTH: nat := 8
  const PAYLOAD_MAX: nat := 1600

  const IF_STA: nat := 1
  const IF_AP: nat := 2
  const IF_SERIAL: nat := 3
  const IF_HCI: nat := 4
  const IF_ETH: nat := 7

  datatype FrameInfo = FrameInfo(
    ifType: nat, ifNum: nat, flags: byte, payloadLen: u16, payloadOffset: u16, checksum: u16,
    seqNum: u16, throttleCmd: nat, hciPktType: byte, privPktType: byte)

  datatype Packet = Packet(info: FrameInfo, payload: seq<byte>)

  const NO_PACKET := Packet(FrameInfo(0, 0, 0, 0, 0, 0, 0, 0, 0, 0), [])

  /** The slots in use, from the tail on and around the end. */
  function Queued(items: seq<Packet>, tail: nat, count: nat): (s: seq<Packet>)
    requires |items| == DEPTH && tail < DEPTH && count <= DEPTH
    ensures |s| == count
  {
    if tail + count <= DEPTH then items[tail..tail + count] else items[tail..] + items[..tail + count - DEPTH]
  }

  /** The slot `i` behind another. */
  function Slot(tail: nat, i: nat): (k: nat)
    requires tail < DEPTH && i <= DEPTH
    ensures k < DEPTH
  {
    if tail + i < DEPTH then tail + i else tail + i - DEPTH
  }

  lemma NextSlot(tail: nat, i: nat)
    requires tail < DEPTH && i < DEPTH
    ensures Slot(Slot(tail, 1), i) == Slot(tail, i + 1)
  {
  }

  lemma QueuedAt(items: seq<Packet>, tail: nat, count: nat, i: nat)
    requires |items| == DEPTH && tail < DEPTH && i < count <= DEPTH
    ensures Queued(items, tail, count)[i] == items[Slot(tail, i)]
  {
  }

  lemma QueuedPush(items: seq<Packet>, tail: nat, count: nat, p: Packet)
    requires |items| == DEPTH && tail < DEPTH && count < DEPTH
    ensures Queued(items[Slot(tail, count) := p], tail, count + 1) == Queued(items, tail, count) + [p]
  {
    var now := items[Slot(tail, count) := p];
    forall i | 0 <= i < count + 1
      ensures Queued(now, tail, count + 1)[i] == (Queued(items, tail, count) + [p])[i]
    {
      QueuedAt(now, tail, count + 1, i);
      if i < count { QueuedAt(items, tail, count, i); }
    }
  }

  lemma QueuedPop(items: seq<Packet>, tail: nat, count: nat)
    requires |items| == DEPTH && tail < DEPTH && 0 < count <= DEPTH
    ensures Queued(items, tail, count)[0] == items[tail]
    ensures Queued(items, Slot(tail, 1), count - 1) == Queued(items, tail, count)[1..]
  {
    QueuedAt(items, tail, count, 0);
    forall i | 0 <= i < count - 1
      ensures Queued(items, Slot(tail, 1), count - 1)[i] == Queued(items, tail, count)[1..][i]
    {
      NextSlot(tail, i);
      QueuedAt(items, Slot(tail, 1), count - 1, i);
      QueuedAt(items, tail, count, i + 1);
    }
  }

  class Ring {
    const items: array<Packet>
    var head: nat
    var tail: nat
    var count: nat
    var dropped: nat

    ghost predicate Valid()
      reads this, items
    {
      && items.Length == DEPTH && head < DEPTH && tail < DEPTH && count <= DEPTH
      && head == Slot(tail, count)
    }

    /** The queued packets, oldest first. */
    ghost function Contents(): (s: seq<Packet>)
      requires Valid()
      reads this, items
      ensures |s| == count
    {
      Queued(items[..], tail, count)
    }

    constructor ()
      ensures Valid() && fresh(items) && Contents() == [] && dropped == 0
    {
      items := new Packet[DEPTH](_ => NO_PACKET);
      head, tail, count, dropped := 0, 0, 0, 0;
    }

    /** Appends a packet, or counts it as dropped when the ring is full. */
    method Push(p: Packet) returns (ok: bool)
      requires Valid()
      modifies this, items
      ensures Valid() && ok == (old(count) < 8)
      ensures Contents() == old(Contents()) + if ok then [p] else []
      ensures dropped == old(dropped) + if ok then 0 else 1
    {
      if count >= DEPTH {
        dropped := dropped + 1;
        return false;
      }
      QueuedPush(items[..], tail, count, p);
      items[head] := p;
      head := (head + 1) % DEPTH;
      count := count + 1;
      ok := true;
    }

    /** Removes the oldest packet. */
    method Pop() returns (r: Option<Packet>)
      requires Valid()
      modifies this
      ensures Valid() && dropped == old(dropped)
      ensures r == if old(count) == 0 then None else Some(old(Contents())[0])
      ensures Contents() == if old(count) == 0 then [] else old(Contents())[1..]
    {
      if count == 0 { return None; }
      QueuedPop(items[..], tail, count);
      r := Some(items[tail]);
      tail := (tail + 1) % DEPTH;
      count := count - 1;
    }

    /** Accepts payloads up to the buffer size. */
    method Submit(p: Packet) returns (ok: bool)
      requires Valid()
      modifies this, items
      ensures Valid() && ok == (|p.payload| <= 1600 && old(count) < 8)
      ensures Contents() == old(Contents()) + if ok then [p] else []
      ensures dropped == old(dropped) + if |p.payload| <= 1600 && !ok then 1 else 0
    {
      if |p.payload| > PAYLOAD_MAX { return false; }
      ok := Push(p);
    }
  }

  /** The ring as a value: what a run of submissions leaves in it. */
  function Submitted(q: seq<Packet>, arrivals: seq<Packet>): (r: seq<Packet>)
    ensures |q| <= DEPTH ==> |r| <= DEPTH
    decreases |arrivals|
  {
    if arrivals == [] then q
    else
      var p := arrivals[0];
      Submitted(if |p.payload| <= PAYLOAD_MAX && |q| < DEPTH then q + [p] else q, arrivals[1..])
  }

  /** First in, first out: what was queued stays in front, in order, and every packet queued after
      it is one of the arrivals, in their order. */
  lemma {:induction false} SubmittedKeepsOrder(q: seq<Packet>, arrivals: seq<Packet>) returns (kept: seq<nat>)
    ensures |kept| == |Submitted(q, arrivals)| - |q|
    ensures forall i :: 0 <= i < |kept| ==> kept[i] < |arrivals| && Submitted(q, arrivals)[|q| + i] == arrivals[kept[i]]
    ensures forall i, j :: 0 <= i < j < |kept| ==> kept[i] < kept[j]
    ensures q <= Submitted(q, arrivals)
    decreases |arrivals|
  {
    if arrivals == [] {
      return [];
    }
    var p := arrivals[0];
    var fits := |p.payload| <= PAYLOAD_MAX && |q| < DEPTH;
    var rest := SubmittedKeepsOrder(if fits then q + [p] else q, arrivals[1..]);
    kept := (if fits then [0] else []) + seq(|rest|, i requires 0 <= i < |rest| => rest[i] + 1);
  }
}
