/** With two buffers or more, a run of the stream in which clearing an EOF bit undoes a write-back of
    the DMA, and the exact condition under which no run sends anything twice. */
module I2sLostWriteBack {
  import opened Bytes
  import opened I2sMachine
  import opened I2sStream
  import opened I2sSteps

  lemma LoadWord(R: iset<State>, s: State) returns (t: State)
    requires Closed(R) && s in R && Ready(s) && s.pc == WLink(1) && s.queued > 0 && s.head == 1
    ensures t == s.(pc := WEofStore(1, s.descs[0].ownerDma), descs := s.descs[0 := s.descs[0].(next := 1)]) && t in R
  {
    t := Main1(R, s);
    t := Main1(R, t);
  }

  /** Descriptor 0 between the link and the clearing of its EOF bit. */
  function First(owner: bool, eof: bool, size: nat): Desc
    requires size > 0
  {
    Desc(owner, eof, 1, 1, Buffer(1, size))
  }

  /** The DMA finishes buffer 0 while the writer holds its descriptor word in a register, and the
      writer's store makes the sent buffer DMA-owned again. */
  lemma WriteBackUndone(R: iset<State>, s: State) returns (t: State)
    requires Closed(R) && s in R && Ready(s) && s.pc == WEofStore(1, true) && s.head == 1 && s.size > 0
    requires s.dma == Running(0) && s.descs[0] == First(true, true, s.size) && s.sent == []
    ensures t == s.(pc := WAdvance(1), dma := Following(0), sent := [[1]],
                    descs := s.descs[0 := First(true, false, s.size)])
    ensures t in R
  {
    assert Buffer(1, s.size)[..1] == [1];
    var u := Go(R, s, Complete);
    assert u == s.(descs := s.descs[0 := First(false, true, s.size)], dma := Following(0), sent := [[1]]);
    t := Main1(R, u);
    assert t.descs == s.descs[0 := First(true, false, s.size)];
  }

  /** The DMA goes on to buffer 1 and parks. */
  lemma DmaGoesOn(R: iset<State>, s: State) returns (t: State)
    requires Closed(R) && s in R && Shaped(s) && s.count >= 2 && s.size > 0 && s.dma == Following(0) && s.sent == [[1]]
    requires s.descs[0] == First(true, false, s.size) && s.descs[1] == Filled(Buffer(2, s.size))
    ensures t == s.(dma := Parked, sent := [[1], [2]], descs := s.descs[1 := Sent(Buffer(2, s.size))])
    ensures t in R
  {
    assert Buffer(2, s.size)[..1] == [2];
    var u := Go(R, s, Follow);
    var v := Go(R, u, Complete);
    assert v == s.(descs := s.descs[1 := Sent(Buffer(2, s.size))], dma := Following(1), sent := [[1], [2]]);
    t := Go(R, v, Follow);
  }

  lemma ToResume(R: iset<State>, s: State) returns (t: State)
    requires Closed(R) && s in R && Ready(s) && s.pc == WAdvance(1) && s.count >= 2 && s.queued == 1 && s.started
    ensures t == s.(pc := RError(WLoop), head := Succ(s.count, s.head), queued := 2, written := s.written + 1) && t in R
  {
    t := AdvanceHead(R, s);
    t := TryStart(R, t);
  }

  lemma AdvanceHead(R: iset<State>, s: State) returns (t: State)
    requires Closed(R) && s in R && Ready(s) && s.pc == WAdvance(1)
    ensures t == s.(pc := TError, head := Succ(s.count, s.head), queued := s.queued + 1, written := s.written + 1)
            && t in R
  {
    t := Main1(R, s);
  }

  lemma TryStart(R: iset<State>, s: State) returns (t: State)
    requires Closed(R) && s in R && Ready(s) && s.pc == TError && s.count >= 2 && s.queued >= 2 && s.started
    ensures t == s.(pc := RError(WLoop)) && t in R
  {
    t := Main1(R, s);
    t := Main1(R, t);
    assert t == s.(pc := TStarted);
    t := Main1(R, t);
  }

  lemma SendAgain(R: iset<State>, s: State) returns (t: State)
    requires Closed(R) && s in R && Shaped(s) && s.size > 0 && s.dma == Running(0)
             && s.descs[0] == First(true, false, s.size)
    requires s.sent == [[1], [2]] && s.accepted == [[1], [2]]
    ensures t in R && Flat(t.accepted) == [1, 2] && Flat(t.sent) == [1, 2, 1]
  {
    assert Buffer(1, s.size)[..1] == [1];
    t := Go(R, s, Complete);
    assert t.sent == [[1], [2], [1]];
    FlatOfTwo([1], [2]);
    FlatOfThree([1], [2], [1]);
  }

  lemma FlatOfTwo(a: seq<byte>, b: seq<byte>)
    ensures Flat([a, b]) == a + b
  {
    assert [] + [a] == [a] && [a] + [b] == [a, b];
    FlatAppend([], a);
    FlatAppend([a], b);
  }

  lemma FlatOfThree(a: seq<byte>, b: seq<byte>, c: seq<byte>)
    ensures Flat([a, b, c]) == a + b + c
  {
    assert [a, b] + [c] == [a, b, c];
    FlatOfTwo(a, b);
    FlatAppend([a, b], c);
  }

  /** Every set of states that contains a begin with two buffers or more and is closed under the
      steps has a state in which a byte was sent twice: the writer finds the channel idle, restarts
      it at the tail, and the buffer whose write-back was lost goes out again. */
  lemma ByteSentTwice(R: iset<State>, count: nat, size: nat) returns (s: State)
    requires Impatient(R) && 2 <= count <= MAX_BUFFERS && size > 0 && Begin(count, size) in R
    ensures s in R && Flat(s.accepted) == [1, 2] && Flat(s.sent) == [1, 2, 1]
  {
    s := SecondByteWritten(R, count, size);
    s := DmaGoesOn(R, s);
    s := ToResume(R, s);
    s := ToIdleTest(R, s, WLoop);
    s := Unpark(R, s, WLoop);
    s := StartDma(R, s, WLoop);
    s := SendAgain(R, s);
  }

  lemma SecondByteWritten(R: iset<State>, count: nat, size: nat) returns (s: State)
    requires Impatient(R) && 2 <= count <= MAX_BUFFERS && size > 0 && Begin(count, size) in R
    ensures s in R && Ready(s) && s.pc == WAdvance(1) && s.count == count && s.size == size
    ensures s.queued == 1 && s.started && s.head == 1 && s.tail == 0 && s.dma == Following(0)
    ensures s.sent == [[1]] && s.accepted == [[1], [2]]
    ensures s.descs[0] == First(true, false, size) && s.descs[1] == Filled(Buffer(2, size))
  {
    var a := FirstByteRunning(R, count, size);
    assert a.descs[1].data == Zeros(size);
    var b := WriteUpToLink(R, a, 2, Buffer(2, size));
    var c := LoadWord(R, b);
    assert c.descs[0] == First(true, true, size) && c.descs[1] == Filled(Buffer(2, size));
    s := WriteBackUndone(R, c);
  }

  /** With two buffers or more some run sends more than was accepted; it does lose a write-back. */
  lemma LostWriteBackResends(count: nat, size: nat) returns (run: Run)
    requires 2 <= count <= MAX_BUFFERS && size > 0
    ensures From(run, count, size) && After(run).Some? && !NoLostWriteBack(run)
    ensures Flat(After(run).value.accepted) == [1, 2] && Flat(After(run).value.sent) == [1, 2, 1]
  {
    ReachedClosed(count, size);
    var s := ByteSentTwice(Reached(count, size), count, size);
    run :| From(run, count, size) && After(run) == Some(s);
    if NoLostWriteBack(run) {
      StreamSafety(run);
      assert false;
    }
  }

  /** The stream is safe in every run, and sends only what was accepted in every run, exactly when
      it was begun with one buffer. */
  lemma {:induction false} SafeExactlyWithOneBuffer(count: nat, size: nat)
    requires 1 <= count <= MAX_BUFFERS && size > 0
    ensures (forall run :: From(run, count, size) && After(run).Some? ==>
               Flat(After(run).value.sent) <= Flat(After(run).value.accepted)) <==> count == 1
    ensures (forall run :: From(run, count, size) && After(run).Some? ==> Safe(After(run).value)) <==> count == 1
  {
    if count == 1 {
      forall run | From(run, count, size) && After(run).Some?
        ensures Safe(After(run).value)
      {
        OneBufferLosesNothing(run, size);
        StreamSafety(run);
      }
    } else {
      var run := LostWriteBackResends(count, size);
      assert !Safe(After(run).value);
    }
  }
}
