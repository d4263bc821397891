/** The Motorola MC6809 clock-qualified bus decoder.

    Every sample is classified into a bus phase from the Q and E clocks and
    the R/W pin. A change of phase drives a small machine that keeps at most
    one pending address span and one pending data span open; a pending span
    is emitted only when a newer one supersedes it. A direct read/write
    switch is a protocol violation: it emits a warning and drops what is
    pending. */
module Mc6809 {
  import opened Options
  import opened Bits
  import opened HexText
  import opened Spans

  /** Annotation categories, in the order that fixes their numeric index. */
  datatype Ann = Addr | MemRd | MemWr | Instr | ROp | WOp | Warn

  /** The categories listed by index: the `range(7)` unpacking order. */
  const AnnOrder: seq<Ann> := [Addr, MemRd, MemWr, Instr, ROp, WOp, Warn]

  /** The numeric category index the host receives: the category's position
      in the `range(7)` unpacking. */
  function AnnIndex(a: Ann): (k: nat)
    ensures k < |AnnOrder| && AnnOrder[k] == a
  {
    match a
    case Addr => 0
    case MemRd => 1
    case MemWr => 2
    case Instr => 3
    case ROp => 4
    case WOp => 5
    case Warn => 6
  }

  /** Distinct categories are emitted under distinct indices. */
  lemma AnnIndexInjective(a: Ann, b: Ann)
    ensures AnnIndex(a) == AnnIndex(b) ==> a == b
  {
  }

  /** The bus phase of one sample. */
  datatype Cycle = NoCycle | ReadCycle | WriteCycle

  /** Display rows: categories whose spans share one resource. */
  const AddrRow: set<Ann> := {Addr}
  const DataRow: set<Ann> := {MemRd, MemWr}
  const WarnRow: set<Ann> := {Warn}

  /** Channel layout: R/W, E, Q, D0..D7, A0..A15 (27 mandatory channels),
      then the 9 optional ones, BA first. */
  const RwPin: nat := 0
  const EPin: nat := 1
  const QPin: nat := 2
  const D0: nat := 3
  const D7: nat := 10
  const A0: nat := 11
  const BaPin: nat := 27
  const ChannelCount: nat := 36

  /** The last address offset as the source writes it; A15 is channel 26. */
  const A15AsWritten: nat := 27

  const IllegalTransitionText: string := "Illegal transition between control states"

  /** One value per declared channel, as the host delivers a sample. */
  predicate Sized(pins: seq<PinValue>) {
    |pins| == ChannelCount
  }

  predicate AllSized(samples: seq<seq<PinValue>>) {
    forall i :: 0 <= i < |samples| ==> Sized(samples[i])
  }

  /** D0..D7, least significant first. */
  function DataPins(pins: seq<PinValue>): (bus: seq<PinValue>)
    requires Sized(pins)
    ensures |bus| == 8
    ensures forall i :: 0 <= i < 8 ==> bus[i] == pins[D0 + i]
  {
    pins[D0..D7 + 1]
  }

  /** A0..A15, least significant first. */
  function AddrPins(pins: seq<PinValue>): (bus: seq<PinValue>)
    requires Sized(pins)
    ensures |bus| == 16
    ensures forall i :: 0 <= i < 16 ==> bus[i] == pins[A0 + i]
  {
    pins[A0..A0 + 16]
  }

  /** The address slice as written, `pins[Pin.A0:Pin.A15+1]` with A15 = 27:
      it takes a seventeenth channel, the optional BA line. */
  function AddrPinsAsWritten(pins: seq<PinValue>): (bus: seq<PinValue>)
    requires Sized(pins)
    ensures |bus| == 17
    ensures bus[..16] == AddrPins(pins)
    ensures bus[16] == pins[BaPin]
  {
    pins[A0..A15AsWritten + 1]
  }

  /** `reduce(lambda a, b: (a << 1) | b, reversed(bus))`: the most significant
      line enters first and every step shifts left and ors in the next line.
      On a logic level b, `(a << 1) | b` is 2 * a + b. */
  function FoldMsbFirst(bus: seq<PinValue>): (r: int)
    requires |bus| > 0 && Unassigned !in bus
    ensures r == WeightedSum(bus)
  {
    if |bus| == 1 then
      assert bus[..0] == [];
      bus[0]
    else
      assert forall x :: x in bus[1..] ==> x in bus;
      WeightedSumLsbFirst(bus);
      2 * FoldMsbFirst(bus[1..]) + bus[0]
  }

  /** `reduce_bus`: unassigned exactly when some line carries the unassigned
      marker, otherwise the little-endian value of the lines. The empty bus
      is excluded because `reduce` without an initial value rejects it. */
  function ReduceBus(bus: seq<PinValue>): (r: Option<nat>)
    requires |bus| > 0
    ensures r.None? <==> Unassigned in bus
    ensures r.Some? ==> r.value == WeightedSum(bus) && r.value < Pow2(|bus|)
  {
    if Unassigned in bus then None
    else
      AssignedAreBits(bus);
      WeightedSumBounds(bus);
      Some(FoldMsbFirst(bus))
  }

  /** A sample is a memory cycle only while Q is high and E is low; R/W low
      makes it a write, any other R/W level a read. */
  function Classify(pins: seq<PinValue>): (c: Cycle)
    requires Sized(pins)
    ensures c != NoCycle <==> pins[QPin] == 1 && pins[EPin] == 0
    ensures c == WriteCycle <==> pins[QPin] == 1 && pins[EPin] == 0 && pins[RwPin] == 0
  {
    if pins[QPin] == 1 && pins[EPin] == 0 then
      if pins[RwPin] == 0 then WriteCycle else ReadCycle
    else
      NoCycle
  }

  /** `ann_data_cycle_map`: the data category of a memory cycle. The map has
      no entry for the idle phase. */
  function DataAnn(c: Cycle): (a: Ann)
    requires c != NoCycle
    ensures a in DataRow
    ensures a == MemRd <==> c == ReadCycle
  {
    if c == ReadCycle then MemRd else MemWr
  }

  /** The decoder's fields. Start sample numbers and pending values are
      `None` until first set; `annDasm` belongs to the instruction
      sub-machine, which never sets it. */
  datatype State = State(
    busData: Option<nat>,
    addrStart: Option<int>,
    dataStart: Option<int>,
    pendAddr: Option<nat>,
    pendData: Option<nat>,
    annData: Option<Ann>,
    annDasm: Option<Ann>,
    prevCycle: Cycle,
    instrLen: nat)

  /** The state `start` sets up before decoding begins. */
  function Start(): (st: State)
    ensures Wf(st)
    ensures st.prevCycle == NoCycle && st.instrLen == 0
    ensures st.pendAddr.None? && st.annData.None? && st.busData.None?
  {
    State(None, None, None, None, None, None, None, NoCycle, 0)
  }

  /** `reset` returns the machine to the idle phase and touches nothing else. */
  function Reset(st: State): (r: State)
    ensures r.prevCycle == NoCycle
    ensures r.(prevCycle := st.prevCycle) == st
    ensures Wf(st) ==> Wf(r)
  {
    st.(prevCycle := NoCycle)
  }

  /** Resetting twice is the same as resetting once. */
  lemma ResetIdempotent(st: State)
    ensures Reset(Reset(st)) == Reset(st)
  {
  }

  /** Invariant of every reachable state: a pending span always has a start,
      a pending data category is a data category, and no disassembly text is
      ever pending. */
  predicate Wf(st: State) {
    && (st.pendAddr.Some? ==> st.addrStart.Some?)
    && (st.annData.Some? ==> st.dataStart.Some? && st.annData.value in DataRow)
    && st.annDasm.None?
  }

  /** Why a decoder step raises instead of continuing. */
  datatype Fault =
    | UnassignedDataText   // `'{:02X}'.format(None)` on an unassigned data byte
    | FormatterUndefined   // `put_disasm` refers to an undefined `formatter`

  datatype StepResult =
    | Stepped(state: State, out: seq<Span<Ann>>)
    | Faulted(fault: Fault)

  /** `on_cycle_begin`: a pending address is emitted over
      [addrStart, now) as `'{:04X}'` text; an unassigned one is
      never emitted. The new address becomes pending from `now`. */
  function Begin(st: State, now: int, busAddr: Option<nat>): (r: (State, seq<Span<Ann>>))
    requires Wf(st)
    ensures |r.1| == (if st.pendAddr.Some? then 1 else 0)
    ensures forall s :: s in r.1 ==>
      && s.category == Addr && s.start == st.addrStart.value && s.end == now
      && Formats(s.text, st.pendAddr.value, 4)
      && (st.pendAddr.value < 65536 ==> |s.text| == 4)
    ensures r.0 == st.(addrStart := Some(now), pendAddr := busAddr)
    ensures Wf(r.0)
  {
    assert Pow16(4) == 65536;
    var out :=
      if st.pendAddr.Some? then [Span(st.addrStart.value, now, Addr, Hex(st.pendAddr.value, 4))]
      else [];
    (st.(addrStart := Some(now), pendAddr := busAddr), out)
  }

  /** `on_cycle_end`: counts the cycle, emits the pending data span (under
      the category of the cycle that latched it) over [dataStart, now), then
      makes the last latched data byte pending from `now` under the category
      of the cycle just ended. Formatting an unassigned pending byte raises. */
  function End(st: State, now: int): (r: StepResult)
    requires Wf(st) && st.prevCycle != NoCycle
    ensures r.Faulted? <==> st.annData.Some? && st.pendData.None?
    ensures r.Stepped? ==>
      && r.state == st.(instrLen := st.instrLen + 1, dataStart := Some(now),
                        pendData := st.busData, annData := Some(DataAnn(st.prevCycle)))
      && |r.out| == (if st.annData.Some? then 1 else 0)
      && Wf(r.state)
    ensures r.Stepped? ==> forall s :: s in r.out ==>
      && s.category == st.annData.value && s.start == st.dataStart.value && s.end == now
      && Formats(s.text, st.pendData.value, 2)
      && (st.pendData.value < 256 ==> |s.text| == 2)
  {
    if st.annDasm.Some? then
      Faulted(FormatterUndefined)
    else if st.annData.Some? && st.pendData.None? then
      Faulted(UnassignedDataText)
    else
      assert Pow16(2) == 256;
      var out :=
        if st.annData.Some? then [Span(st.dataStart.value, now, st.annData.value, Hex(st.pendData.value, 2))]
        else [];
      Stepped(st.(instrLen := st.instrLen + 1, dataStart := Some(now),
                  pendData := st.busData, annData := Some(DataAnn(st.prevCycle))), out)
  }

  /** `on_cycle_trans`: one warning over the single preceding sample; the
      pending address, data category and disassembly are dropped unemitted,
      while both start samples, the pending data byte and the counters stay. */
  function Trans(st: State, now: int): (r: (State, seq<Span<Ann>>))
    requires Wf(st)
    ensures r.1 == [Span(now - 1, now, Warn, IllegalTransitionText)]
    ensures r.0.pendAddr.None? && r.0.annData.None? && r.0.annDasm.None?
    ensures && r.0.addrStart == st.addrStart && r.0.dataStart == st.dataStart
            && r.0.pendData == st.pendData && r.0.busData == st.busData
            && r.0.prevCycle == st.prevCycle && r.0.instrLen == st.instrLen
    ensures Wf(r.0)
  {
    (st.(pendAddr := None, annData := None, annDasm := None),
     [Span(now - 1, now, Warn, IllegalTransitionText)])
  }

  /** Line 139: the data lines are latched on every in-cycle sample. */
  function Latch(st: State, pins: seq<PinValue>): State
    requires Sized(pins)
  {
    if Classify(pins) != NoCycle then st.(busData := ReduceBus(DataPins(pins))) else st
  }

  /** A phase change from idle into a memory cycle. */
  predicate Begins(st: State, pins: seq<PinValue>)
    requires Sized(pins)
  {
    st.prevCycle == NoCycle && Classify(pins) != NoCycle
  }

  /** A phase change from a memory cycle back to idle. */
  predicate Ends(st: State, pins: seq<PinValue>)
    requires Sized(pins)
  {
    st.prevCycle != NoCycle && Classify(pins) == NoCycle
  }

  /** A direct switch between a read and a write cycle. */
  predicate Switches(st: State, pins: seq<PinValue>)
    requires Sized(pins)
  {
    st.prevCycle != NoCycle && Classify(pins) != NoCycle && Classify(pins) != st.prevCycle
  }

  /** One pass of the `decode` loop at sample `now`, with `busAddr` the value
      handed to `on_cycle_begin`. The data byte is latched on every in-cycle
      sample; a handler runs only when the phase changed, and when it did not
      nothing but the latched byte changes and nothing is emitted; the phase
      is remembered afterwards. At most one span is emitted, and it ends at
      `now`. Only a cycle end can raise. */
  function StepOn(st: State, now: int, pins: seq<PinValue>, busAddr: Option<nat>): (r: StepResult)
    requires Wf(st) && Sized(pins)
    ensures r.Faulted? ==> Ends(st, pins)
    ensures Classify(pins) == st.prevCycle ==> r.Stepped? && r.out == []
    ensures r.Stepped? ==>
      && Wf(r.state)
      && r.state.prevCycle == Classify(pins)
      && r.state.busData == (if Classify(pins) != NoCycle then ReduceBus(DataPins(pins)) else st.busData)
      && r.state.instrLen == st.instrLen + (if Ends(st, pins) then 1 else 0)
      && |r.out| <= 1
      && (forall s :: s in r.out ==> s.end == now)
    ensures Classify(pins) == st.prevCycle ==>
      r.state == st.(busData := r.state.busData)
  {
    var cycle := Classify(pins);
    var st1 := Latch(st, pins);
    if cycle == st.prevCycle then
      Stepped(st1.(prevCycle := cycle), [])
    else if st.prevCycle == NoCycle then
      var (st2, out) := Begin(st1, now, busAddr);
      Stepped(st2.(prevCycle := cycle), out)
    else if cycle == NoCycle then
      match End(st1, now)
      case Faulted(f) => Faulted(f)
      case Stepped(st2, out) => Stepped(st2.(prevCycle := cycle), out)
    else
      var (st2, out) := Trans(st1, now);
      Stepped(st2.(prevCycle := cycle), out)
  }

  /** A step at a cycle begin emits the pending address, if there is one,
      over [addrStart, now), its text reading back as that address (four hex
      digits when it fits in sixteen bits); the handed-over address becomes
      pending from `now`. The data side is untouched. */
  lemma StepOnAtBegin(st: State, now: int, pins: seq<PinValue>, busAddr: Option<nat>)
    requires Wf(st) && Sized(pins) && Begins(st, pins)
    ensures var r := StepOn(st, now, pins, busAddr);
      && r.Stepped?
      && |r.out| == (if st.pendAddr.Some? then 1 else 0)
      && r.state.addrStart == Some(now) && r.state.pendAddr == busAddr
      && r.state.dataStart == st.dataStart && r.state.annData == st.annData
      && r.state.pendData == st.pendData
    ensures var r := StepOn(st, now, pins, busAddr);
      r.Stepped? && r.out != [] ==>
      && r.out[0].category == Addr && r.out[0].start == st.addrStart.value && r.out[0].end == now
      && Formats(r.out[0].text, st.pendAddr.value, 4)
      && (st.pendAddr.value < 65536 ==> |r.out[0].text| == 4)
  {
    var b := Begin(Latch(st, pins), now, busAddr);
    assert StepOn(st, now, pins, busAddr) == Stepped(b.0.(prevCycle := Classify(pins)), b.1);
    if b.1 != [] {
      assert b.1[0] in b.1;
    }
  }

  /** A step at a cycle end raises exactly when a data category is pending
      but the pending byte is unassigned. Otherwise it emits the pending data
      span, if there is one, over [dataStart, now) under the pending category,
      its text reading back as the byte (two hex digits when it fits in eight
      bits); the byte latched on the last in-cycle sample becomes pending
      from `now` under the category of the cycle just ended. The address
      side is untouched. */
  lemma StepOnAtEnd(st: State, now: int, pins: seq<PinValue>, busAddr: Option<nat>)
    requires Wf(st) && Sized(pins) && Ends(st, pins)
    ensures var r := StepOn(st, now, pins, busAddr);
      r.Faulted? <==> st.annData.Some? && st.pendData.None?
    ensures var r := StepOn(st, now, pins, busAddr);
      r.Stepped? ==>
      && |r.out| == (if st.annData.Some? then 1 else 0)
      && r.state.dataStart == Some(now) && r.state.pendData == st.busData
      && r.state.annData == Some(DataAnn(st.prevCycle))
      && r.state.addrStart == st.addrStart && r.state.pendAddr == st.pendAddr
    ensures var r := StepOn(st, now, pins, busAddr);
      r.Stepped? && r.out != [] ==>
      && r.out[0].category == st.annData.value && r.out[0].start == st.dataStart.value
      && r.out[0].end == now
      && st.pendData.Some? && Formats(r.out[0].text, st.pendData.value, 2)
      && (st.pendData.value < 256 ==> |r.out[0].text| == 2)
  {
    assert Latch(st, pins) == st;
    var e := End(st, now);
    if e.Stepped? {
      assert StepOn(st, now, pins, busAddr) == Stepped(e.state.(prevCycle := NoCycle), e.out);
      if e.out != [] {
        assert e.out[0] in e.out;
      }
    }
  }

  /** A step at a direct read/write switch emits exactly one warning, over
      the sample before it, and drops the pending address and data category;
      both start samples and the pending byte stay. */
  lemma StepOnAtSwitch(st: State, now: int, pins: seq<PinValue>, busAddr: Option<nat>)
    requires Wf(st) && Sized(pins) && Switches(st, pins)
    ensures var r := StepOn(st, now, pins, busAddr);
      && r.Stepped?
      && r.out == [Span(now - 1, now, Warn, IllegalTransitionText)]
      && r.state.pendAddr.None? && r.state.annData.None?
      && r.state.addrStart == st.addrStart && r.state.dataStart == st.dataStart
      && r.state.pendData == st.pendData
  {
  }

  /** The decoder step with the sixteen address lines A0..A15. */
  function Step(st: State, now: int, pins: seq<PinValue>): (r: StepResult)
    requires Wf(st) && Sized(pins)
    ensures r.Stepped? && Begins(st, pins) ==>
      r.state.pendAddr == ReduceBus(AddrPins(pins))
      && (r.state.pendAddr.Some? ==> r.state.pendAddr.value < 65536)
  {
    Pow2Constants();
    if Begins(st, pins) then
      StepOnAtBegin(st, now, pins, ReduceBus(AddrPins(pins)));
      StepOn(st, now, pins, ReduceBus(AddrPins(pins)))
    else
      StepOn(st, now, pins, ReduceBus(AddrPins(pins)))
  }

  /** The decoder step as written, reducing the seventeen channels from A0
      through BA. */
  function StepAsWritten(st: State, now: int, pins: seq<PinValue>): (r: StepResult)
    requires Wf(st) && Sized(pins)
    ensures r.Stepped? && Begins(st, pins) ==>
      r.state.pendAddr == ReduceBus(AddrPinsAsWritten(pins))
  {
    if Begins(st, pins) then
      StepOnAtBegin(st, now, pins, ReduceBus(AddrPinsAsWritten(pins)));
      StepOn(st, now, pins, ReduceBus(AddrPinsAsWritten(pins)))
    else
      StepOn(st, now, pins, ReduceBus(AddrPinsAsWritten(pins)))
  }

  /** What a run of the decode loop leaves behind: the last state, every
      annotation put so far, and the fault that stopped it, if any. */
  datatype Trace = Trace(state: State, out: seq<Span<Ann>>, fault: Option<Fault>)

  /** The `decode` loop folded over consecutive samples numbered from `now`,
      `acc` holding what was already emitted. Emission only ever appends. */
  function Run(st: State, acc: seq<Span<Ann>>, samples: seq<seq<PinValue>>, now: int): (t: Trace)
    requires Wf(st) && AllSized(samples)
    ensures Wf(t.state)
    ensures acc <= t.out
    ensures |samples| == 0 ==> t == Trace(st, acc, None)
    decreases |samples|
  {
    if |samples| == 0 then Trace(st, acc, None)
    else
      match Step(st, now, samples[0])
      case Faulted(f) => Trace(st, acc, Some(f))
      case Stepped(st', out) => Run(st', acc + out, samples[1..], now + 1)
  }

  /** A whole decoding run from the state `start` sets up. */
  function Decode(samples: seq<seq<PinValue>>, first: int): (t: Trace)
    requires AllSized(samples)
    ensures |samples| == 0 ==> t.out == [] && t.fault.None?
  {
    Run(Start(), [], samples, first)
  }
}
