/** Properties of whole MC6809 decoding runs: spans of one display row never
    overlap, every span ends at the sample that emitted it, and what comes
    out of a clean read/write sequence, of a read/write violation, and which
    data byte a cycle end latches. */
module Mc6809Trace {
  import opened Options
  import opened Bits
  import opened HexText
  import opened Spans
  import opened Mc6809

  /** What a run keeps true before processing sample `now`, having emitted
      `acc`: everything emitted ended before `now`, each row's spans so far
      do not overlap, and the pending address and data spans start no
      earlier than the last span of their row ended. */
  predicate Inv(st: State, acc: seq<Span<Ann>>, now: int) {
    && Wf(st)
    && (forall s :: s in acc ==> s.end <= now - 1)
    && NonOverlapping(Select(acc, AddrRow))
    && NonOverlapping(Select(acc, DataRow))
    && NonOverlapping(Select(acc, WarnRow))
    && (st.addrStart.Some? ==> st.addrStart.value <= now - 1)
    && (st.dataStart.Some? ==> st.dataStart.value <= now - 1)
    && (forall s :: s in Select(acc, AddrRow) ==> st.addrStart.Some? && s.end <= st.addrStart.value)
    && (forall s :: s in Select(acc, DataRow) ==> st.dataStart.Some? && s.end <= st.dataStart.value)
  }

  /** Appending one span to a row that does not hold its category leaves
      the row as it was. */
  lemma SelectSnocOther(acc: seq<Span<Ann>>, s: Span<Ann>, row: set<Ann>)
    requires s.category !in row
    ensures Select(acc + [s], row) == Select(acc, row)
  {
    SelectAppend(acc, [s], row);
    SelectOne(s, row);
  }

  /** Appending one span to the row that holds its category. */
  lemma SelectSnocSame(acc: seq<Span<Ann>>, s: Span<Ann>, row: set<Ann>)
    requires s.category in row
    ensures Select(acc + [s], row) == Select(acc, row) + [s]
  {
    SelectAppend(acc, [s], row);
    SelectOne(s, row);
  }

  /** A row's new span keeps the row non-overlapping when it starts no
      earlier than every earlier span of the row ended. */
  lemma RowSnoc(acc: seq<Span<Ann>>, s: Span<Ann>, row: set<Ann>)
    requires NonOverlapping(Select(acc, row))
    requires s.category in row && s.start <= s.end
    requires forall x :: x in Select(acc, row) ==> x.end <= s.start
    ensures NonOverlapping(Select(acc + [s], row))
  {
    SelectSnocSame(acc, s, row);
    var sel := Select(acc, row);
    if |sel| > 0 {
      assert sel[|sel| - 1] in sel;
    }
    NonOverlappingSnoc(sel, s);
  }

  /** A step that emits nothing and moves no start sample keeps the
      invariant. */
  lemma InvSilent(st: State, st': State, acc: seq<Span<Ann>>, now: int)
    requires Inv(st, acc, now) && Wf(st')
    requires st'.addrStart == st.addrStart && st'.dataStart == st.dataStart
    ensures Inv(st', acc, now + 1)
  {
  }

  /** A cycle begin, emitting at most one address span from the old address
      start to `now`, keeps the invariant. */
  lemma InvAddrEmit(st: State, st': State, acc: seq<Span<Ann>>, out: seq<Span<Ann>>, now: int)
    requires Inv(st, acc, now) && Wf(st') && |out| <= 1
    requires out != [] ==>
      && st.addrStart.Some? && out[0].category == Addr
      && out[0].start == st.addrStart.value && out[0].end == now
    requires st'.addrStart == Some(now) && st'.dataStart == st.dataStart
    ensures Inv(st', acc + out, now + 1)
  {
    if out == [] {
      assert acc + out == acc;
    } else {
      assert out == [out[0]];
      RowSnoc(acc, out[0], AddrRow);
      SelectSnocOther(acc, out[0], DataRow);
      SelectSnocOther(acc, out[0], WarnRow);
    }
  }

  /** A cycle end, emitting at most one data span from the old data start to
      `now`, keeps the invariant. */
  lemma InvDataEmit(st: State, st': State, acc: seq<Span<Ann>>, out: seq<Span<Ann>>, now: int)
    requires Inv(st, acc, now) && Wf(st') && |out| <= 1
    requires out != [] ==>
      && st.dataStart.Some? && out[0].category in DataRow
      && out[0].start == st.dataStart.value && out[0].end == now
    requires st'.dataStart == Some(now) && st'.addrStart == st.addrStart
    ensures Inv(st', acc + out, now + 1)
  {
    if out == [] {
      assert acc + out == acc;
    } else {
      assert out == [out[0]];
      RowSnoc(acc, out[0], DataRow);
      SelectSnocOther(acc, out[0], AddrRow);
      SelectSnocOther(acc, out[0], WarnRow);
    }
  }

  /** A read/write switch, emitting one warning over the sample before `now`,
      keeps the invariant. */
  lemma InvWarnEmit(st: State, st': State, acc: seq<Span<Ann>>, w: Span<Ann>, now: int)
    requires Inv(st, acc, now) && Wf(st')
    requires w.category == Warn && w.start == now - 1 && w.end == now
    requires st'.addrStart == st.addrStart && st'.dataStart == st.dataStart
    ensures Inv(st', acc + [w], now + 1)
  {
    assert forall x :: x in Select(acc, WarnRow) ==> x in acc;
    RowSnoc(acc, w, WarnRow);
    SelectSnocOther(acc, w, AddrRow);
    SelectSnocOther(acc, w, DataRow);
  }

  /** One decoder step, with any address handed to the begin handler,
      keeps the run invariant. */
  lemma StepKeepsInv(st: State, acc: seq<Span<Ann>>, now: int,
                     pins: seq<PinValue>, busAddr: Option<nat>)
    requires Inv(st, acc, now) && Sized(pins)
    requires StepOn(st, now, pins, busAddr).Stepped?
    ensures Inv(StepOn(st, now, pins, busAddr).state, acc + StepOn(st, now, pins, busAddr).out, now + 1)
  {
    var r := StepOn(st, now, pins, busAddr);
    if Classify(pins) == st.prevCycle {
      assert acc + r.out == acc;
      InvSilent(st, r.state, acc, now);
    } else if Begins(st, pins) {
      StepOnAtBegin(st, now, pins, busAddr);
      InvAddrEmit(st, r.state, acc, r.out, now);
    } else if Ends(st, pins) {
      StepOnAtEnd(st, now, pins, busAddr);
      InvDataEmit(st, r.state, acc, r.out, now);
    } else {
      StepOnAtSwitch(st, now, pins, busAddr);
      InvWarnEmit(st, r.state, acc, r.out[0], now);
    }
  }

  /** The output promise of a run up to sample `bound`: the spans of each
      row never overlap, and every span ends before `bound`. */
  predicate Ordered(out: seq<Span<Ann>>, bound: int) {
    && NonOverlapping(Select(out, AddrRow))
    && NonOverlapping(Select(out, DataRow))
    && NonOverlapping(Select(out, WarnRow))
    && (forall s :: s in out ==> s.end < bound)
  }

  /** The invariant at `now` gives the output promise at any later bound. */
  lemma InvOrdered(st: State, acc: seq<Span<Ann>>, now: int, bound: int)
    requires Inv(st, acc, now) && now <= bound
    ensures Ordered(acc, bound)
  {
  }

  /** Spans of one row emitted by a run never overlap, and every span ends
      before the sample after the last one processed. */
  lemma {:induction false} RunKeepsInv(st: State, acc: seq<Span<Ann>>,
                                       samples: seq<seq<PinValue>>, now: int)
    requires Inv(st, acc, now) && AllSized(samples)
    ensures Ordered(Run(st, acc, samples, now).out, now + |samples|)
    decreases |samples|
  {
    if |samples| == 0 {
      InvOrdered(st, acc, now, now);
    } else {
      match Step(st, now, samples[0])
      case Faulted(_) =>
        InvOrdered(st, acc, now, now + |samples|);
      case Stepped(st', out) =>
        StepKeepsInv(st, acc, now, samples[0], ReduceBus(AddrPins(samples[0])));
        RunKeepsInv(st', acc + out, samples[1..], now + 1);
    }
  }

  /** Over a whole run: address spans follow one another without overlap,
      and so do data spans and warnings; each is well formed, and none ends
      after the last sample processed. */
  lemma DecodeSpansOrdered(samples: seq<seq<PinValue>>, first: int)
    requires AllSized(samples)
    ensures NonOverlapping(Select(Decode(samples, first).out, AddrRow))
    ensures NonOverlapping(Select(Decode(samples, first).out, DataRow))
    ensures NonOverlapping(Select(Decode(samples, first).out, WarnRow))
    ensures forall s :: s in Decode(samples, first).out ==> s.end < first + |samples|
  {
    RunKeepsInv(Start(), [], samples, first);
  }

  /** The data byte made pending at a cycle end is the one latched on the
      last in-cycle sample, the sample just before it. */
  lemma EndLatchesLastInCycleData(st: State, now: int, p1: seq<PinValue>, p2: seq<PinValue>)
    requires Wf(st) && Sized(p1) && Sized(p2)
    requires Classify(p1) != NoCycle && Classify(p2) == NoCycle
    requires Step(st, now, p1).Stepped?
    requires Step(Step(st, now, p1).state, now + 1, p2).Stepped?
    ensures Step(Step(st, now, p1).state, now + 1, p2).state.pendData == ReduceBus(DataPins(p1))
    ensures Step(Step(st, now, p1).state, now + 1, p2).state.annData == Some(DataAnn(Classify(p1)))
  {
  }

  /** After a read/write violation nothing that was pending is flushed: the
      next cycle begin emits no address span and the next cycle end emits no
      data span. */
  lemma ViolationDropsPending(st: State, now: int, later: int, busAddr: Option<nat>)
    requires Wf(st)
    ensures var st' := Trans(st, now).0;
      && Begin(st', later, busAddr).1 == []
      && (st'.prevCycle != NoCycle ==> End(st', later).Stepped? && End(st', later).out == [])
  {
  }

  /** All address and data lines of a sample carry logic levels. */
  predicate BusWired(pins: seq<PinValue>)
    requires Sized(pins)
  {
    Unassigned !in AddrPins(pins) && Unassigned !in DataPins(pins)
  }

  /** The value on the address lines of a wired sample. */
  function AddrValue(pins: seq<PinValue>): nat
    requires Sized(pins) && BusWired(pins)
  {
    ReduceBus(AddrPins(pins)).value
  }

  /** The value on the data lines of a wired sample. */
  function DataValue(pins: seq<PinValue>): nat
    requires Sized(pins) && BusWired(pins)
  {
    ReduceBus(DataPins(pins)).value
  }

  /** A span over [start, end) of the given category whose text is `width`
      hex digits reading back as `value`. */
  predicate Shows(s: Span<Ann>, start: int, end: int, category: Ann, value: nat, width: nat) {
    && s.start == start && s.end == end && s.category == category
    && IsHexText(s.text) && ParseHex(s.text) == value && |s.text| == width
  }

  /** Unfolds one sample of a run that does not fault. */
  lemma RunStep(st: State, acc: seq<Span<Ann>>, samples: seq<seq<PinValue>>, now: int)
    requires Wf(st) && AllSized(samples) && |samples| > 0
    requires Step(st, now, samples[0]).Stepped?
    ensures AllSized(samples[1..])
    ensures Run(st, acc, samples, now)
         == Run(Step(st, now, samples[0]).state, acc + Step(st, now, samples[0]).out, samples[1..], now + 1)
  {
  }

  /** An idle sample after an idle sample changes nothing. */
  lemma RunAtIdle(st: State, acc: seq<Span<Ann>>, q: seq<seq<PinValue>>, now: int)
    requires Wf(st) && AllSized(q) && |q| > 0
    requires st.prevCycle == NoCycle && Classify(q[0]) == NoCycle
    ensures AllSized(q[1..])
    ensures Run(st, acc, q, now) == Run(st, acc, q[1..], now + 1)
  {
    RunStep(st, acc, q, now);
    assert acc + [] == acc;
  }

  /** `st'` is what a cycle begin at `now` on `pins` leaves behind: the
      phase is the new cycle's, the data lines are latched, and the address
      on the bus is pending from `now`; the data side is untouched. */
  predicate Began(st: State, now: int, pins: seq<PinValue>, st': State)
    requires Sized(pins)
  {
    && st'.prevCycle == Classify(pins) && st'.busData == ReduceBus(DataPins(pins))
    && st'.addrStart == Some(now) && st'.pendAddr == ReduceBus(AddrPins(pins))
    && st'.dataStart == st.dataStart && st'.annData == st.annData && st'.pendData == st.pendData
  }

  /** `out` is the flush of the address pending in `st`, ended at `now`:
      nothing when none is pending, otherwise one span of it. */
  predicate FlushesAddr(st: State, now: int, out: seq<Span<Ann>>) {
    && |out| == (if st.pendAddr.Some? then 1 else 0)
    && (out != [] ==>
          && st.addrStart.Some? && st.pendAddr.Some?
          && Shows(out[0], st.addrStart.value, now, Addr, st.pendAddr.value, |out[0].text|)
          && Formats(out[0].text, st.pendAddr.value, 4)
          && (st.pendAddr.value < 65536 ==> |out[0].text| == 4))
  }

  /** `st'` is what a cycle end at `now` leaves behind: the phase is idle,
      and the byte latched in the cycle is pending from `now` under the
      cycle's category; the address side is untouched. */
  predicate Ended(st: State, now: int, st': State)
    requires st.prevCycle != NoCycle
  {
    && st'.prevCycle == NoCycle && st'.busData == st.busData
    && st'.dataStart == Some(now) && st'.pendData == st.busData
    && st'.annData == Some(DataAnn(st.prevCycle))
    && st'.addrStart == st.addrStart && st'.pendAddr == st.pendAddr
  }

  /** `out` is the flush of the data pending in `st`, ended at `now`. */
  predicate FlushesData(st: State, now: int, out: seq<Span<Ann>>) {
    && |out| == (if st.annData.Some? then 1 else 0)
    && (out != [] ==>
          && st.dataStart.Some? && st.annData.Some? && st.pendData.Some?
          && Shows(out[0], st.dataStart.value, now, st.annData.value, st.pendData.value, |out[0].text|)
          && Formats(out[0].text, st.pendData.value, 2)
          && (st.pendData.value < 256 ==> |out[0].text| == 2))
  }

  /** A run across a cycle begin. */
  lemma RunAtBegin(st: State, acc: seq<Span<Ann>>, q: seq<seq<PinValue>>, now: int)
    returns (st': State, out: seq<Span<Ann>>)
    requires Wf(st) && AllSized(q) && |q| > 0 && Begins(st, q[0])
    ensures Wf(st') && AllSized(q[1..])
    ensures Run(st, acc, q, now) == Run(st', acc + out, q[1..], now + 1)
    ensures Began(st, now, q[0], st') && FlushesAddr(st, now, out)
  {
    var a := ReduceBus(AddrPins(q[0]));
    StepOnAtBegin(st, now, q[0], a);
    var r := Step(st, now, q[0]);
    RunStep(st, acc, q, now);
    st', out := r.state, r.out;
  }

  /** A run across a cycle end that does not raise. */
  lemma RunAtEnd(st: State, acc: seq<Span<Ann>>, q: seq<seq<PinValue>>, now: int)
    returns (st': State, out: seq<Span<Ann>>)
    requires Wf(st) && AllSized(q) && |q| > 0 && Ends(st, q[0])
    requires st.annData.Some? ==> st.pendData.Some?
    ensures Wf(st') && AllSized(q[1..])
    ensures Run(st, acc, q, now) == Run(st', acc + out, q[1..], now + 1)
    ensures Ended(st, now, st') && FlushesData(st, now, out)
  {
    var a := ReduceBus(AddrPins(q[0]));
    StepOnAtEnd(st, now, q[0], a);
    var r := Step(st, now, q[0]);
    RunStep(st, acc, q, now);
    st', out := r.state, r.out;
  }

  /** A run across a direct read/write switch. */
  lemma RunAtSwitch(st: State, acc: seq<Span<Ann>>, q: seq<seq<PinValue>>, now: int)
    returns (st': State)
    requires Wf(st) && AllSized(q) && |q| > 0 && Switches(st, q[0])
    ensures Wf(st') && AllSized(q[1..])
    ensures Run(st, acc, q, now)
         == Run(st', acc + [Span(now - 1, now, Warn, IllegalTransitionText)], q[1..], now + 1)
    ensures st'.prevCycle == Classify(q[0]) && st'.pendAddr.None? && st'.annData.None?
  {
    var a := ReduceBus(AddrPins(q[0]));
    StepOnAtSwitch(st, now, q[0], a);
    var r := Step(st, now, q[0]);
    RunStep(st, acc, q, now);
    st' := r.state;
  }

  /** `st'` is what a whole memory cycle on `pins`, begun at `now` and ended
      at `now + 1`, leaves behind: its address pending from the begin, its
      byte pending from the end under its category. */
  predicate Cycled(now: int, pins: seq<PinValue>, st': State)
    requires Sized(pins) && Classify(pins) != NoCycle
  {
    && st'.prevCycle == NoCycle
    && st'.addrStart == Some(now) && st'.pendAddr == ReduceBus(AddrPins(pins))
    && st'.dataStart == Some(now + 1) && st'.pendData == ReduceBus(DataPins(pins))
    && st'.annData == Some(DataAnn(Classify(pins)))
  }

  /** A whole memory cycle: its begin sample, then the idle sample ending it.
      The spans still pending from the previous cycle come out, the address
      span before the data span, and the cycle's own address and data become
      pending. */
  lemma RunCycle(st: State, acc: seq<Span<Ann>>, q: seq<seq<PinValue>>, now: int)
    returns (st': State, addrOut: seq<Span<Ann>>, dataOut: seq<Span<Ann>>)
    requires Wf(st) && AllSized(q) && |q| >= 2 && st.prevCycle == NoCycle
    requires Classify(q[0]) != NoCycle && Classify(q[1]) == NoCycle
    requires st.annData.Some? ==> st.pendData.Some?
    ensures Wf(st') && AllSized(q[2..])
    ensures Run(st, acc, q, now) == Run(st', acc + addrOut + dataOut, q[2..], now + 2)
    ensures Cycled(now, q[0], st')
    ensures FlushesAddr(st, now, addrOut) && FlushesData(st, now + 1, dataOut)
  {
    var s1, o1 := RunAtBegin(st, acc, q, now);
    var q' := q[1..];
    assert q'[0] == q[1] && q'[1..] == q[2..];
    st', dataOut := RunAtEnd(s1, acc + o1, q', now + 1);
    addrOut := o1;
  }

  /** Appending at most one span and then at most one more. */
  lemma AppendPair<T>(acc: seq<T>, a: seq<T>, d: seq<T>)
    requires |a| <= 1 && |d| <= 1
    ensures |a| == 0 && |d| == 0 ==> acc + a + d == acc
    ensures |a| == 1 && |d| == 1 && |acc| == 0 ==> acc + a + d == [a[0], d[0]]
    ensures |a| == 1 && |d| == 1 && |acc| == 2 ==> acc + a + d == [acc[0], acc[1], a[0], d[0]]
  {
  }

  /** idle, read, idle, write, idle: the read's address and data have come
      out, the write's are pending. */
  lemma ReadThenWrite(p: seq<seq<PinValue>>, first: int)
    returns (st: State, x: Span<Ann>, y: Span<Ann>)
    requires |p| >= 5 && AllSized(p)
    requires Classify(p[0]) == NoCycle && Classify(p[1]) == ReadCycle
    requires Classify(p[2]) == NoCycle && Classify(p[3]) == WriteCycle
    requires Classify(p[4]) == NoCycle
    requires BusWired(p[1])
    ensures Wf(st) && AllSized(p[5..])
    ensures Decode(p, first) == Run(st, [x, y], p[5..], first + 5)
    ensures Cycled(first + 3, p[3], st)
    ensures Shows(x, first + 1, first + 3, Addr, AddrValue(p[1]), 4)
    ensures Shows(y, first + 2, first + 4, MemRd, DataValue(p[1]), 2)
  {
    Pow2Constants();
    var s0 := Start();
    RunAtIdle(s0, [], p, first);
    var q1 := p[1..];
    assert q1[0] == p[1] && q1[1] == p[2];
    var s1, a1, d1 := RunCycle(s0, [], q1, first + 1);
    AppendPair([], a1, d1);
    var q2 := q1[2..];
    assert q2[0] == p[3] && q2[1] == p[4] && q2[2..] == p[5..];
    var s2, a2, d2 := RunCycle(s1, [], q2, first + 3);
    AppendPair([], a2, d2);
    st, x, y := s2, a2[0], d2[0];
  }

  /** idle, read, idle, write, idle, read, idle: the address and data of the
      read, then those of the write, each over the samples from its latch to
      the latch that superseded it, and no warning. */
  lemma ReadWriteSequence(p: seq<seq<PinValue>>, first: int)
    requires |p| == 7 && AllSized(p)
    requires Classify(p[0]) == NoCycle && Classify(p[1]) == ReadCycle
    requires Classify(p[2]) == NoCycle && Classify(p[3]) == WriteCycle
    requires Classify(p[4]) == NoCycle && Classify(p[5]) == ReadCycle
    requires Classify(p[6]) == NoCycle
    requires BusWired(p[1]) && BusWired(p[3])
    ensures Decode(p, first).fault.None?
    ensures |Decode(p, first).out| == 4
    ensures Shows(Decode(p, first).out[0], first + 1, first + 3, Addr, AddrValue(p[1]), 4)
    ensures Shows(Decode(p, first).out[1], first + 2, first + 4, MemRd, DataValue(p[1]), 2)
    ensures Shows(Decode(p, first).out[2], first + 3, first + 5, Addr, AddrValue(p[3]), 4)
    ensures Shows(Decode(p, first).out[3], first + 4, first + 6, MemWr, DataValue(p[3]), 2)
  {
    Pow2Constants();
    var s2, x, y := ReadThenWrite(p, first);
    var q := p[5..];
    assert q[0] == p[5] && q[1] == p[6] && q[2..] == [];
    var s3, a3, d3 := RunCycle(s2, [x, y], q, first + 5);
    AppendPair([x, y], a3, d3);
    assert Decode(p, first) == Trace(s3, [x, y, a3[0], d3[0]], None);
  }

  /** idle, read, write, idle: exactly one warning, over the sample before
      the switch, and no data span for the discarded cycle. */
  lemma ReadThenWriteViolation(p: seq<seq<PinValue>>, first: int)
    requires |p| == 4 && AllSized(p)
    requires Classify(p[0]) == NoCycle && Classify(p[1]) == ReadCycle
    requires Classify(p[2]) == WriteCycle && Classify(p[3]) == NoCycle
    ensures Decode(p, first).fault.None?
    ensures Decode(p, first).out == [Span(first + 1, first + 2, Warn, IllegalTransitionText)]
    ensures Decode(p, first).state.pendAddr.None?
  {
    var warn := Span(first + 1, first + 2, Warn, IllegalTransitionText);
    var s0 := Start();
    RunAtIdle(s0, [], p, first);
    var q1 := p[1..];
    var s1, o1 := RunAtBegin(s0, [], q1, first + 1);
    AppendPair([], o1, []);
    var q2 := q1[1..];
    assert q2[0] == p[2];
    var s2 := RunAtSwitch(s1, [], q2, first + 2);
    var q3 := q2[1..];
    assert q3[0] == p[3] && q3[1..] == [];
    var s3, o3 := RunAtEnd(s2, [] + [warn], q3, first + 3);
    AppendPair([] + [warn], o3, []);
    assert Decode(p, first) == Trace(s3, [] + [warn], None);
  }
}
