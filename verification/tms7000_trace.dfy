/** Properties of whole TMS7000 runs: each row is a chain of spans from the
    boundary reset leaves, one address span per ALE fall and one data span
    per EN rise, together with two single-step examples: an address latch
    and a byte read. */
module Tms7000Trace {
  import opened Bits
  import opened HexText
  import opened Spans
  import opened Tms7000

  /** The host delivers events at strictly increasing sample numbers. */
  predicate Increasing(events: seq<Event>) {
    forall i, j :: 0 <= i < j < |events| ==> events[i].sample < events[j].sample
  }

  /** No event comes before either boundary of the state. */
  predicate NotBefore(st: State, events: seq<Event>) {
    forall i :: 0 <= i < |events| ==>
      st.prevAddrSample <= events[i].sample && st.prevDataSample <= events[i].sample
  }

  function CountAle(events: seq<Event>): nat {
    if |events| == 0 then 0 else (if events[0].aleFall then 1 else 0) + CountAle(events[1..])
  }

  function CountEn(events: seq<Event>): nat {
    if |events| == 0 then 0 else (if events[0].enRise then 1 else 0) + CountEn(events[1..])
  }

  /** At most one address span followed by at most one data span: the
      address row gets the first, the data row the second. */
  lemma RowsOfPair(a: seq<Span<Ann>>, d: seq<Span<Ann>>)
    requires |a| <= 1 && |d| <= 1
    requires forall i :: 0 <= i < |a| ==> a[i].category == Addr
    requires forall i :: 0 <= i < |d| ==> d[i].category in DataRow
    ensures Select(a + d, AddrRow) == a
    ensures Select(a + d, DataRow) == d
  {
    SelectSplit(a, d, AddrRow, DataRow);
  }

  /** One pass puts the address span, when ALE fell, on the address row and
      the data span, when EN rose, on the data row. */
  lemma StepRows(st: State, e: Event)
    requires Sized(e)
    ensures Select(Step(st, e).out, AddrRow) == AddrOut(st, e)
    ensures Select(Step(st, e).out, DataRow) == DataOut(st, e)
  {
    var a, d := AddrOut(st, e), DataOut(st, e);
    assert |a| <= 1 && forall i :: 0 <= i < |a| ==> a[i].category == Addr;
    assert |d| <= 1 && forall i :: 0 <= i < |d| ==> d[i].category in DataRow;
    RowsOfPair(a, d);
  }

  /** A row extended by what one pass put on it: nothing, leaving the
      boundary where it was, or one span from the boundary to the new one. */
  lemma RowExtends(acc: seq<Span<Ann>>, out: seq<Span<Ann>>, row: set<Ann>,
                   from: int, bound: int, bound': int)
    requires Chain(Select(acc, row), from, bound)
    requires |Select(out, row)| <= 1
    requires |Select(out, row)| == 0 ==> bound' == bound
    requires |Select(out, row)| == 1 ==>
      Select(out, row)[0].start == bound && Select(out, row)[0].end == bound' && bound <= bound'
    ensures Chain(Select(acc + out, row), from, bound')
    ensures |Select(acc + out, row)| == |Select(acc, row)| + |Select(out, row)|
  {
    SelectAppend(acc, out, row);
    var mine := Select(out, row);
    if |mine| == 1 {
      assert mine == [mine[0]];
      ChainSnoc(Select(acc, row), from, mine[0]);
    } else {
      assert Select(acc, row) + mine == Select(acc, row);
    }
  }

  /** One pass extends the address row to the new address boundary, by one
      span when ALE fell. */
  lemma StepExtendsAddrRow(st: State, acc: seq<Span<Ann>>, e: Event, from: int)
    requires Sized(e) && st.prevAddrSample <= e.sample
    requires Chain(Select(acc, AddrRow), from, st.prevAddrSample)
    ensures Chain(Select(acc + Step(st, e).out, AddrRow), from, Step(st, e).state.prevAddrSample)
    ensures |Select(acc + Step(st, e).out, AddrRow)| == |Select(acc, AddrRow)| + (if e.aleFall then 1 else 0)
  {
    var r := Step(st, e);
    StepRows(st, e);
    RowExtends(acc, r.out, AddrRow, from, st.prevAddrSample, r.state.prevAddrSample);
  }

  /** One pass extends the data row to the new data boundary, by one span
      when EN rose. */
  lemma StepExtendsDataRow(st: State, acc: seq<Span<Ann>>, e: Event, dfrom: int)
    requires Sized(e) && st.prevDataSample <= e.sample
    requires Chain(Select(acc, DataRow), dfrom, st.prevDataSample)
    ensures Chain(Select(acc + Step(st, e).out, DataRow), dfrom, Step(st, e).state.prevDataSample)
    ensures |Select(acc + Step(st, e).out, DataRow)| == |Select(acc, DataRow)| + (if e.enRise then 1 else 0)
  {
    var r := Step(st, e);
    StepRows(st, e);
    RowExtends(acc, r.out, DataRow, dfrom, st.prevDataSample, r.state.prevDataSample);
  }

  /** After the first event, the rest of the events are still increasing
      and none comes before a boundary no later than the first event. */
  lemma TailOrdered(st: State, events: seq<Event>)
    requires Increasing(events) && |events| > 0
    requires st.prevAddrSample <= events[0].sample && st.prevDataSample <= events[0].sample
    ensures Increasing(events[1..]) && NotBefore(st, events[1..])
  {
    var rest := events[1..];
    forall i | 0 <= i < |rest|
      ensures st.prevAddrSample <= rest[i].sample && st.prevDataSample <= rest[i].sample
    {
      assert rest[i] == events[i + 1];
    }
    forall i, j | 0 <= i < j < |rest| ensures rest[i].sample < rest[j].sample {
      assert rest[i] == events[i + 1] && rest[j] == events[j + 1];
    }
  }

  /** Over a run, the address row stays a chain from `from` to the current
      address boundary, the data row one from `dfrom` to the data boundary,
      and each row gains one span per matching edge. */
  lemma RunExtendsRows(st: State, acc: seq<Span<Ann>>, events: seq<Event>,
                       from: int, dfrom: int)
    requires AllSized(events) && Increasing(events) && NotBefore(st, events)
    requires Chain(Select(acc, AddrRow), from, st.prevAddrSample)
    requires Chain(Select(acc, DataRow), dfrom, st.prevDataSample)
    ensures Chain(Select(Run(st, acc, events).out, AddrRow), from, Run(st, acc, events).state.prevAddrSample)
    ensures Chain(Select(Run(st, acc, events).out, DataRow), dfrom, Run(st, acc, events).state.prevDataSample)
    ensures |Select(Run(st, acc, events).out, AddrRow)| == |Select(acc, AddrRow)| + CountAle(events)
    ensures |Select(Run(st, acc, events).out, DataRow)| == |Select(acc, DataRow)| + CountEn(events)
  {
    RunExtendsAddrRow(st, acc, events, from);
    RunExtendsDataRow(st, acc, events, dfrom);
  }

  /** The address half of RunExtendsRows, by induction over the events. */
  lemma {:induction false} RunExtendsAddrRow(st: State, acc: seq<Span<Ann>>, events: seq<Event>, from: int)
    requires AllSized(events) && Increasing(events) && NotBefore(st, events)
    requires Chain(Select(acc, AddrRow), from, st.prevAddrSample)
    ensures Chain(Select(Run(st, acc, events).out, AddrRow), from, Run(st, acc, events).state.prevAddrSample)
    ensures |Select(Run(st, acc, events).out, AddrRow)| == |Select(acc, AddrRow)| + CountAle(events)
    decreases |events|
  {
    if |events| > 0 {
      var s := Step(st, events[0]);
      StepExtendsAddrRow(st, acc, events[0], from);
      TailOrdered(s.state, events);
      RunExtendsAddrRow(s.state, acc + s.out, events[1..], from);
    }
  }

  /** The data half of RunExtendsRows, by induction over the events. */
  lemma {:induction false} RunExtendsDataRow(st: State, acc: seq<Span<Ann>>, events: seq<Event>, dfrom: int)
    requires AllSized(events) && Increasing(events) && NotBefore(st, events)
    requires Chain(Select(acc, DataRow), dfrom, st.prevDataSample)
    ensures Chain(Select(Run(st, acc, events).out, DataRow), dfrom, Run(st, acc, events).state.prevDataSample)
    ensures |Select(Run(st, acc, events).out, DataRow)| == |Select(acc, DataRow)| + CountEn(events)
    decreases |events|
  {
    if |events| > 0 {
      var s := Step(st, events[0]);
      StepExtendsDataRow(st, acc, events[0], dfrom);
      TailOrdered(s.state, events);
      RunExtendsDataRow(s.state, acc + s.out, events[1..], dfrom);
    }
  }

  /** A decoding run from reset: the address spans form a chain from sample
      0, each starting where the previous one ended, one per ALE fall; the
      data spans likewise, one per EN rise; neither row overlaps itself. */
  lemma DecodeRows(prior: State, events: seq<Event>)
    requires AllSized(events) && Increasing(events)
    requires forall i :: 0 <= i < |events| ==> events[i].sample >= 0
    ensures Chain(Select(Decode(prior, events).out, AddrRow), 0, Decode(prior, events).state.prevAddrSample)
    ensures Chain(Select(Decode(prior, events).out, DataRow), 0, Decode(prior, events).state.prevDataSample)
    ensures |Select(Decode(prior, events).out, AddrRow)| == CountAle(events)
    ensures |Select(Decode(prior, events).out, DataRow)| == CountEn(events)
    ensures NonOverlapping(Select(Decode(prior, events).out, AddrRow))
    ensures NonOverlapping(Select(Decode(prior, events).out, DataRow))
  {
    var st := Reset(prior);
    var r := Decode(prior, events);
    assert Select<Ann>([], AddrRow) == [] && Select<Ann>([], DataRow) == [];
    RunExtendsRows(st, [], events, 0, 0);
    ChainNonOverlapping(Select(r.out, AddrRow), 0, r.state.prevAddrSample);
    ChainNonOverlapping(Select(r.out, DataRow), 0, r.state.prevDataSample);
  }

  /** A reset forgets the prior state: a run's output does not depend on it. */
  lemma DecodeForgetsPrior(prior: State, other: State, events: seq<Event>)
    requires AllSized(events)
    ensures Decode(prior, events) == Decode(other, events)
  {
    ResetIdempotent(prior, other);
  }

  /** A8..A15 at 00000001 with the shared lines at 00000000 latch address
      0x0100. */
  lemma AddressExample(st: State, e: Event)
    requires Sized(e) && e.aleFall
    requires AddrPins(e) == [1, 0, 0, 0, 0, 0, 0, 0] && DataPins(e) == [0, 0, 0, 0, 0, 0, 0, 0]
    ensures Step(st, e).out[0] == Span(st.prevAddrSample, e.sample, Addr, "0100")
  {
    WeightedSumOneHotLow(AddrPins(e));
    WeightedSumZero(DataPins(e));
    assert Address(e) == 256;
    HexExample256();
  }

  /** The shared lines all high with RW high on an EN rise: a read of 0xFF. */
  lemma ReadByteExample(st: State, e: Event)
    requires Sized(e) && e.enRise && !e.aleFall
    requires DataPins(e) == [1, 1, 1, 1, 1, 1, 1, 1] && e.pins[OffRw] == 1
    ensures Step(st, e).out == [Span(st.prevDataSample, e.sample, MemRd, "FF")]
  {
    WeightedSumAllOnes(DataPins(e));
    Pow2Constants();
    assert DataByte(e) == 255;
    HexExample255();
  }

  lemma WeightedSumOneHotLow(bus: seq<int>)
    requires bus == [1, 0, 0, 0, 0, 0, 0, 0]
    ensures WeightedSum(bus) == 1
  {
    WeightedSumLsbFirst(bus);
    WeightedSumZero(bus[1..]);
  }

  lemma {:induction false} WeightedSumZero(bus: seq<int>)
    requires forall i :: 0 <= i < |bus| ==> bus[i] == 0
    ensures WeightedSum(bus) == 0
  {
    if |bus| > 0 {
      WeightedSumZero(bus[..|bus| - 1]);
    }
  }

  lemma {:induction false} WeightedSumAllOnes(bus: seq<int>)
    requires forall i :: 0 <= i < |bus| ==> bus[i] == 1
    ensures WeightedSum(bus) == Pow2(|bus|) - 1
  {
    if |bus| > 0 {
      WeightedSumAllOnes(bus[..|bus| - 1]);
    }
  }

  lemma HexExample256()
    ensures Hex(256, 4) == "0100"
  {
    assert Digits(1) == "1";
    assert Digits(16) == "10";
    assert Digits(256) == "100";
    assert Zeros(1) == "0";
  }

  lemma HexExample255()
    ensures Hex(255, 2) == "FF"
  {
    assert Digits(15) == "F";
    assert Digits(255) == "FF";
  }
}
