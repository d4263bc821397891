/** The TMS7000 decoder (microcontroller mode): a demultiplexer driven by two
    strobes. The host wakes the decoder on a falling edge of ALE or a rising
    edge of EN, and hands over the sample number, which of the two edges
    matched, and the pin levels. On ALE falling the 16-bit address is latched
    (high byte from A8..A15, low byte from the shared AD0..AD7 lines); on EN
    rising the data byte on AD0..AD7 is latched and tagged read or write from
    RW. Each span runs from the previous boundary of its kind to the current
    sample. */
module Tms7000 {
  import opened Bits
  import opened HexText
  import opened Spans

  /** Channel offsets as `decode` uses them: RW, EN, ALE, then AD0..AD7,
      then A8..A15. */
  const OffRw: nat := 0
  const OffEn: nat := 1
  const OffAle: nat := 2
  const OffDataBot: nat := 3
  const OffDataTop: nat := 10
  const OffAddrBot: nat := 11
  const OffAddrTop: nat := 18

  /** 19 mandatory channels, then CLK, /RESET, /INT1, /INT3, MC, AP0..AP7
      and BP0..BP3 as optional ones. */
  const ChannelCount: nat := 36

  /** The annotation classes. Warn is declared but never emitted. */
  datatype Ann = Addr | MemRd | MemWr | Warn

  /** The two rows: the address row and the data row. */
  const AddrRow: set<Ann> := {Addr}
  const DataRow: set<Ann> := {MemRd, MemWr}

  /** The last latched address and data byte, and the sample at which each
      kind of span last ended. */
  datatype State = State(addr: nat, prevAddrSample: int, data: nat, prevDataSample: int)

  /** What one `wait` hands back: the sample number, which of the two edge
      conditions matched, and the pin levels. */
  datatype Event = Event(sample: int, aleFall: bool, enRise: bool, pins: seq<PinValue>)

  predicate Sized(e: Event) {
    |e.pins| == ChannelCount
  }

  predicate AllSized(events: seq<Event>) {
    forall i :: 0 <= i < |events| ==> Sized(events[i])
  }

  /** A8..A15, least significant first. */
  function AddrPins(e: Event): (bus: seq<PinValue>)
    requires Sized(e)
    ensures |bus| == 8
    ensures forall i :: 0 <= i < 8 ==> bus[i] == e.pins[OffAddrBot + i]
  {
    e.pins[OffAddrBot..OffAddrTop + 1]
  }

  /** AD0..AD7, least significant first. */
  function DataPins(e: Event): (bus: seq<PinValue>)
    requires Sized(e)
    ensures |bus| == 8
    ensures forall i :: 0 <= i < 8 ==> bus[i] == e.pins[OffDataBot + i]
  {
    e.pins[OffDataBot..OffDataTop + 1]
  }

  /** The mandatory address and data channels carry logic levels. */
  predicate BusLevels(e: Event)
    requires Sized(e)
  {
    IsBits(AddrPins(e)) && IsBits(DataPins(e))
  }

  /** `sum(bit << i for i, bit in enumerate(bus))`, folded from the least
      significant line. */
  function LinesValue(bus: seq<PinValue>): (v: nat)
    ensures v == WeightedSum(bus)
    ensures IsBits(bus) ==> v < Pow2(|bus|)
  {
    if |bus| == 0 then 0
    else
      WeightedSumLsbFirst(bus);
      if IsBits(bus) then WeightedSumBounds(bus); bus[0] + 2 * LinesValue(bus[1..])
      else bus[0] + 2 * LinesValue(bus[1..])
  }

  /** The address latched on an ALE fall: A8..A15 as the high byte and
      AD0..AD7 as the low byte. */
  function Address(e: Event): (a: nat)
    requires Sized(e)
    ensures a == WeightedSum(AddrPins(e)) * 256 + WeightedSum(DataPins(e))
    ensures BusLevels(e) ==> a < 65536
  {
    Pow2Constants();
    LinesValue(AddrPins(e)) * 256 + LinesValue(DataPins(e))
  }

  /** The byte latched on an EN rise. */
  function DataByte(e: Event): (d: nat)
    requires Sized(e)
    ensures d == WeightedSum(DataPins(e))
    ensures IsBits(DataPins(e)) ==> d < 256
  {
    Pow2Constants();
    LinesValue(DataPins(e))
  }

  /** Read when RW is high, write otherwise. */
  function DataAnn(e: Event): (a: Ann)
    requires Sized(e)
    ensures a in DataRow
    ensures a == MemRd <==> e.pins[OffRw] == 1
  {
    if e.pins[OffRw] == 1 then MemRd else MemWr
  }

  /** `reset`: every field is set, whatever it held. */
  function Reset(st: State): (r: State)
    ensures r.addr == 0 && r.data == 0
    ensures r.prevAddrSample == 0 && r.prevDataSample == 0
  {
    st.(addr := 0, prevAddrSample := 0, data := 0, prevDataSample := 0)
  }

  /** Resetting twice is resetting once, and a reset forgets the state it
      was applied to. */
  lemma ResetIdempotent(st: State, other: State)
    ensures Reset(Reset(st)) == Reset(st)
    ensures Reset(st) == Reset(other)
  {
  }

  /** The result of one pass through the loop body. */
  datatype Stepped = Stepped(state: State, out: seq<Span<Ann>>)

  /** The address branch: latch the address and emit it over
      [previous address boundary, sample). */
  function LatchAddress(st: State, e: Event): (r: Stepped)
    requires Sized(e)
    ensures |r.out| == 1
    ensures r.out[0].start == st.prevAddrSample && r.out[0].end == e.sample
    ensures r.out[0].category == Addr
    ensures Formats(r.out[0].text, Address(e), 4)
    ensures BusLevels(e) ==> |r.out[0].text| == 4
    ensures r.state.addr == Address(e) && r.state.prevAddrSample == e.sample
    ensures r.state.data == st.data && r.state.prevDataSample == st.prevDataSample
  {
    var a := Address(e);
    assert Pow16(4) == 65536;
    Stepped(st.(addr := a, prevAddrSample := e.sample),
            [Span(st.prevAddrSample, e.sample, Addr, Hex(a, 4))])
  }

  /** The data branch: latch the byte and emit it, tagged by RW, over
      [previous data boundary, sample). */
  function LatchData(st: State, e: Event): (r: Stepped)
    requires Sized(e)
    ensures |r.out| == 1
    ensures r.out[0].start == st.prevDataSample && r.out[0].end == e.sample
    ensures r.out[0].category == DataAnn(e)
    ensures Formats(r.out[0].text, DataByte(e), 2)
    ensures IsBits(DataPins(e)) ==> |r.out[0].text| == 2
    ensures r.state.data == DataByte(e) && r.state.prevDataSample == e.sample
    ensures r.state.addr == st.addr && r.state.prevAddrSample == st.prevAddrSample
  {
    var d := DataByte(e);
    assert Pow16(2) == 256;
    Stepped(st.(data := d, prevDataSample := e.sample),
            [Span(st.prevDataSample, e.sample, DataAnn(e), Hex(d, 2))])
  }

  /** The guard in front of the address branch, `OFF_EN == 0`, compares two
      constants. */
  const SkipGuard: bool := OffEn == 0

  /** The address span of a pass: one when ALE fell, none otherwise. */
  function AddrOut(st: State, e: Event): seq<Span<Ann>>
    requires Sized(e)
  {
    if e.aleFall then LatchAddress(st, e).out else []
  }

  /** The data span of a pass: one when EN rose, none otherwise. */
  function DataOut(st: State, e: Event): seq<Span<Ann>>
    requires Sized(e)
  {
    if e.enRise then LatchData(st, e).out else []
  }

  /** One pass of the `decode` loop. A matched ALE fall with the guard set
      would skip the rest of the pass, data branch included. Otherwise the
      address branch runs when ALE fell, then the data branch when EN rose.
      Since the guard never holds, every ALE fall yields its address span,
      before the data span of the same pass, and the data span does not
      depend on the address branch having run. */
  function Step(st: State, e: Event): (r: Stepped)
    requires Sized(e)
    ensures r.out == AddrOut(st, e) + DataOut(st, e)
    ensures r.state.addr == (if e.aleFall then Address(e) else st.addr)
    ensures r.state.prevAddrSample == (if e.aleFall then e.sample else st.prevAddrSample)
    ensures r.state.data == (if e.enRise then DataByte(e) else st.data)
    ensures r.state.prevDataSample == (if e.enRise then e.sample else st.prevDataSample)
  {
    if e.aleFall && SkipGuard then Stepped(st, [])
    else
      var a := if e.aleFall then LatchAddress(st, e) else Stepped(st, []);
      var d := if e.enRise then LatchData(a.state, e) else Stepped(a.state, []);
      Stepped(d.state, a.out + d.out)
  }

  /** The `decode` loop folded over the events the host delivers. */
  function Run(st: State, acc: seq<Span<Ann>>, events: seq<Event>): (r: Stepped)
    requires AllSized(events)
    ensures |r.out| == |acc| + CountEdges(events)
    ensures acc <= r.out
    decreases |events|
  {
    if |events| == 0 then Stepped(st, acc)
    else
      var s := Step(st, events[0]);
      Run(s.state, acc + s.out, events[1..])
  }

  /** How many edges the events carry: ALE falls plus EN rises. */
  function CountEdges(events: seq<Event>): nat {
    if |events| == 0 then 0
    else
      (if events[0].aleFall then 1 else 0) + (if events[0].enRise then 1 else 0)
      + CountEdges(events[1..])
  }

  /** A whole run: `__init__` resets whatever state the object held, then the
      loop runs. */
  function Decode(prior: State, events: seq<Event>): (r: Stepped)
    requires AllSized(events)
    ensures |r.out| == CountEdges(events)
  {
    Run(Reset(prior), [], events)
  }
}
