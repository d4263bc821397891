/** Contiguity of the MC6809 address and data rows. In a run without a
    read/write violation, on a bus whose address and data lines are wired
    during every memory cycle, each address span starts exactly where the
    previous address span ended, each data span where the previous data
    span ended, and no cycle end raises. A violation breaks the chain on
    purpose: it drops the pending spans, so the next span starts later. */
module Mc6809Rows {
  import opened Options
  import opened Bits
  import opened Spans
  import opened Mc6809
  import opened Mc6809Trace

  /** The last span of a row, if any, ends at `bound`. */
  predicate EndsAt(row: seq<Span<Ann>>, bound: Option<int>) {
    row != [] ==> bound.Some? && row[|row| - 1].end == bound.value
  }

  /** What a clean run keeps true: inside a cycle the data byte is latched,
      a pending data category has its byte, a row stays empty until its
      first pending span, and each row is contiguous up to the start of the
      span now pending on it. */
  predicate Settled(st: State, acc: seq<Span<Ann>>) {
    && Wf(st)
    && (st.prevCycle != NoCycle ==> st.busData.Some?)
    && (st.annData.Some? ==> st.pendData.Some?)
    && (st.pendAddr.None? ==> Select(acc, AddrRow) == [])
    && (st.annData.None? ==> Select(acc, DataRow) == [])
    && Contiguous(Select(acc, AddrRow)) && EndsAt(Select(acc, AddrRow), st.addrStart)
    && Contiguous(Select(acc, DataRow)) && EndsAt(Select(acc, DataRow), st.dataStart)
  }

  /** The state `start` sets up is settled. */
  lemma StartSettled()
    ensures Settled(Start(), [])
  {
    assert Select<Ann>([], AddrRow) == [] && Select<Ann>([], DataRow) == [];
  }

  /** Appending at most one span of a row that continues from the row's
      current end, and a new bound at the appended span's end. With nothing
      appended the bound may move only while the row is still empty. */
  lemma RowGrows(acc: seq<Span<Ann>>, out: seq<Span<Ann>>, row: set<Ann>,
                 bound: Option<int>, bound': Option<int>)
    requires Contiguous(Select(acc, row)) && EndsAt(Select(acc, row), bound)
    requires |out| <= 1
    requires out == [] ==> bound' == bound || Select(acc, row) == []
    requires out != [] ==>
      && out[0].category in row && bound.Some? && out[0].start == bound.value
      && bound' == Some(out[0].end)
    ensures Contiguous(Select(acc + out, row)) && EndsAt(Select(acc + out, row), bound')
  {
    if out == [] {
      assert acc + out == acc;
    } else {
      assert out == [out[0]];
      SelectSnocSame(acc, out[0], row);
      ContiguousSnoc(Select(acc, row), out[0]);
    }
  }

  /** Appending at most one span of another row leaves a row alone. */
  lemma RowStays(acc: seq<Span<Ann>>, out: seq<Span<Ann>>, row: set<Ann>)
    requires |out| <= 1
    requires out != [] ==> out[0].category !in row
    ensures Select(acc + out, row) == Select(acc, row)
  {
    if out == [] {
      assert acc + out == acc;
    } else {
      assert out == [out[0]];
      SelectSnocOther(acc, out[0], row);
    }
  }

  /** A cycle begin on a wired address bus keeps a run settled. */
  lemma SettledAtBegin(st: State, acc: seq<Span<Ann>>, now: int,
                       pins: seq<PinValue>, busAddr: Option<nat>)
    requires Settled(st, acc) && Sized(pins) && Begins(st, pins) && busAddr.Some?
    requires Unassigned !in DataPins(pins)
    ensures StepOn(st, now, pins, busAddr).Stepped?
    ensures Settled(StepOn(st, now, pins, busAddr).state, acc + StepOn(st, now, pins, busAddr).out)
  {
    var r := StepOn(st, now, pins, busAddr);
    StepOnAtBegin(st, now, pins, busAddr);
    RowGrows(acc, r.out, AddrRow, st.addrStart, r.state.addrStart);
    RowStays(acc, r.out, DataRow);
  }

  /** A cycle end keeps a run settled, and does not raise. */
  lemma SettledAtEnd(st: State, acc: seq<Span<Ann>>, now: int,
                     pins: seq<PinValue>, busAddr: Option<nat>)
    requires Settled(st, acc) && Sized(pins) && Ends(st, pins)
    ensures StepOn(st, now, pins, busAddr).Stepped?
    ensures Settled(StepOn(st, now, pins, busAddr).state, acc + StepOn(st, now, pins, busAddr).out)
  {
    var r := StepOn(st, now, pins, busAddr);
    StepOnAtEnd(st, now, pins, busAddr);
    RowGrows(acc, r.out, DataRow, st.dataStart, r.state.dataStart);
    RowStays(acc, r.out, AddrRow);
  }

  /** A sample in the same phase as the previous one keeps a run settled. */
  lemma SettledInPhase(st: State, acc: seq<Span<Ann>>, now: int,
                       pins: seq<PinValue>, busAddr: Option<nat>)
    requires Settled(st, acc) && Sized(pins) && Classify(pins) == st.prevCycle
    requires Classify(pins) != NoCycle ==> Unassigned !in DataPins(pins)
    ensures StepOn(st, now, pins, busAddr).Stepped?
    ensures Settled(StepOn(st, now, pins, busAddr).state, acc + StepOn(st, now, pins, busAddr).out)
  {
    var r := StepOn(st, now, pins, busAddr);
    assert acc + r.out == acc;
  }

  /** The phase before sample i of a run whose phase before sample 0 is
      `prev`. */
  function PhaseBefore(prev: Cycle, samples: seq<seq<PinValue>>, i: nat): Cycle
    requires AllSized(samples) && i < |samples|
  {
    if i == 0 then prev else Classify(samples[i - 1])
  }

  /** No sample switches directly between a read and a write cycle, and in
      every memory cycle the address and data lines are wired. */
  predicate Clean(prev: Cycle, samples: seq<seq<PinValue>>)
    requires AllSized(samples)
  {
    forall i :: 0 <= i < |samples| ==>
      && (PhaseBefore(prev, samples, i) != NoCycle && Classify(samples[i]) != NoCycle
          ==> Classify(samples[i]) == PhaseBefore(prev, samples, i))
      && (Classify(samples[i]) != NoCycle ==> BusWired(samples[i]))
  }

  /** A clean run stays clean after its first sample. */
  lemma CleanTail(prev: Cycle, samples: seq<seq<PinValue>>)
    requires AllSized(samples) && |samples| > 0 && Clean(prev, samples)
    ensures AllSized(samples[1..]) && Clean(Classify(samples[0]), samples[1..])
  {
    var rest := samples[1..];
    forall i | 0 <= i < |rest|
      ensures && (PhaseBefore(Classify(samples[0]), rest, i) != NoCycle && Classify(rest[i]) != NoCycle
                  ==> Classify(rest[i]) == PhaseBefore(Classify(samples[0]), rest, i))
              && (Classify(rest[i]) != NoCycle ==> BusWired(rest[i]))
    {
      assert rest[i] == samples[i + 1];
      assert PhaseBefore(Classify(samples[0]), rest, i) == PhaseBefore(prev, samples, i + 1);
    }
  }

  /** One step of a clean run keeps it settled and does not raise. */
  lemma StepSettled(st: State, acc: seq<Span<Ann>>, now: int, pins: seq<PinValue>)
    requires Settled(st, acc) && Sized(pins)
    requires st.prevCycle != NoCycle && Classify(pins) != NoCycle ==> Classify(pins) == st.prevCycle
    requires Classify(pins) != NoCycle ==> BusWired(pins)
    ensures Step(st, now, pins).Stepped?
    ensures Settled(Step(st, now, pins).state, acc + Step(st, now, pins).out)
  {
    var a := ReduceBus(AddrPins(pins));
    if Classify(pins) == st.prevCycle {
      SettledInPhase(st, acc, now, pins, a);
    } else if Begins(st, pins) {
      SettledAtBegin(st, acc, now, pins, a);
    } else {
      SettledAtEnd(st, acc, now, pins, a);
    }
  }

  /** A clean run never raises, and keeps both rows contiguous. */
  lemma {:induction false} RunSettled(st: State, acc: seq<Span<Ann>>,
                                      samples: seq<seq<PinValue>>, now: int)
    requires Settled(st, acc) && AllSized(samples) && Clean(st.prevCycle, samples)
    ensures Run(st, acc, samples, now).fault.None?
    ensures Settled(Run(st, acc, samples, now).state, Run(st, acc, samples, now).out)
    decreases |samples|
  {
    if |samples| > 0 {
      var pins := samples[0];
      assert PhaseBefore(st.prevCycle, samples, 0) == st.prevCycle;
      StepSettled(st, acc, now, pins);
      var r := Step(st, now, pins);
      CleanTail(st.prevCycle, samples);
      RunSettled(r.state, acc + r.out, samples[1..], now + 1);
    }
  }

  /** From the state `start` sets up, a run with no read/write violation
      and wired buses during memory cycles never raises; consecutive address
      spans are contiguous (each starts at the sample the previous one
      ended), and so are consecutive data spans. */
  lemma DecodeRowsContiguous(samples: seq<seq<PinValue>>, first: int)
    requires AllSized(samples) && Clean(NoCycle, samples)
    ensures Decode(samples, first).fault.None?
    ensures Contiguous(Select(Decode(samples, first).out, AddrRow))
    ensures Contiguous(Select(Decode(samples, first).out, DataRow))
  {
    StartSettled();
    RunSettled(Start(), [], samples, first);
  }
}
