/** The MC6809 address slice as written ends at offset 27, one past A15, and
    so reads the optional BA channel as a seventeenth address bit. This
    module runs the decoder both ways: as written, an unwired BA makes every
    address unassigned, so no address span is ever emitted, and a wired BA
    that is high pushes the address past sixteen bits; with the sixteen
    address lines every address span carries exactly four hex digits. */
module Mc6809Findings {
  import opened Options
  import opened Bits
  import opened HexText
  import opened Spans
  import opened Mc6809
  import opened Mc6809Trace

  /** The `decode` loop as written, folded over consecutive samples. */
  function RunAsWritten(st: State, acc: seq<Span<Ann>>, samples: seq<seq<PinValue>>, now: int): (t: Trace)
    requires Wf(st) && AllSized(samples)
    ensures Wf(t.state)
    ensures acc <= t.out
    decreases |samples|
  {
    if |samples| == 0 then Trace(st, acc, None)
    else
      match StepAsWritten(st, now, samples[0])
      case Faulted(f) => Trace(st, acc, Some(f))
      case Stepped(st', out) => RunAsWritten(st', acc + out, samples[1..], now + 1)
  }

  /** The row invariant does not depend on the address width: the loop as
      written also keeps each row's spans from overlapping, and never emits
      a span that ends after the sample that emitted it. */
  lemma {:induction false} RunAsWrittenKeepsInv(st: State, acc: seq<Span<Ann>>,
                                                samples: seq<seq<PinValue>>, now: int)
    requires Inv(st, acc, now) && AllSized(samples)
    ensures Ordered(RunAsWritten(st, acc, samples, now).out, now + |samples|)
    decreases |samples|
  {
    if |samples| == 0 {
      InvOrdered(st, acc, now, now);
    } else {
      match StepAsWritten(st, now, samples[0])
      case Faulted(_) =>
        InvOrdered(st, acc, now, now + |samples|);
      case Stepped(st', out) =>
        StepKeepsInv(st, acc, now, samples[0], ReduceBus(AddrPinsAsWritten(samples[0])));
        RunAsWrittenKeepsInv(st', acc + out, samples[1..], now + 1);
    }
  }

  /** From the state `start` sets up, the decoder as written keeps the
      address, data and warning rows free of overlap. */
  lemma AsWrittenSpansOrdered(samples: seq<seq<PinValue>>, first: int)
    requires AllSized(samples)
    ensures NonOverlapping(Select(RunAsWritten(Start(), [], samples, first).out, AddrRow))
    ensures NonOverlapping(Select(RunAsWritten(Start(), [], samples, first).out, DataRow))
    ensures NonOverlapping(Select(RunAsWritten(Start(), [], samples, first).out, WarnRow))
    ensures forall s :: s in RunAsWritten(Start(), [], samples, first).out ==> s.end < first + |samples|
  {
    RunAsWrittenKeepsInv(Start(), [], samples, first);
  }

  predicate BaUnwired(samples: seq<seq<PinValue>>)
    requires AllSized(samples)
  {
    forall i :: 0 <= i < |samples| ==> samples[i][BaPin] == Unassigned
  }

  predicate NoAddrSpan(out: seq<Span<Ann>>) {
    forall s :: s in out ==> s.category != Addr
  }

  /** As written, with BA unwired a cycle begin latches an unassigned
      address even though all sixteen address lines carry levels; the
      sixteen-line step latches their value. */
  lemma AsWrittenLosesAddress(st: State, now: int, pins: seq<PinValue>)
    requires Wf(st) && Sized(pins) && Begins(st, pins)
    requires pins[BaPin] == Unassigned && Unassigned !in AddrPins(pins)
    ensures StepAsWritten(st, now, pins).Stepped?
    ensures StepAsWritten(st, now, pins).state.pendAddr.None?
    ensures Step(st, now, pins).state.pendAddr == Some(WeightedSum(AddrPins(pins)))
  {
    assert AddrPinsAsWritten(pins)[16] == Unassigned;
  }

  /** As written, one sample with BA unwired keeps the address unassigned
      and emits no address span. */
  lemma AsWrittenStepNoAddress(st: State, now: int, pins: seq<PinValue>)
    requires Wf(st) && Sized(pins) && pins[BaPin] == Unassigned && st.pendAddr.None?
    ensures StepAsWritten(st, now, pins).Stepped? ==>
      StepAsWritten(st, now, pins).state.pendAddr.None? && NoAddrSpan(StepAsWritten(st, now, pins).out)
  {
    assert AddrPinsAsWritten(pins)[16] == Unassigned;
    var a := ReduceBus(AddrPinsAsWritten(pins));
    if Begins(st, pins) {
      StepOnAtBegin(st, now, pins, a);
    } else if Ends(st, pins) {
      StepOnAtEnd(st, now, pins, a);
    } else if Switches(st, pins) {
      StepOnAtSwitch(st, now, pins, a);
    }
  }

  /** As written, with BA unwired on every sample, a run that starts with no
      address pending never emits an address span. */
  lemma {:induction false} AsWrittenNeverEmitsAddress(st: State, acc: seq<Span<Ann>>,
                                                      samples: seq<seq<PinValue>>, now: int)
    requires Wf(st) && AllSized(samples) && BaUnwired(samples)
    requires st.pendAddr.None? && NoAddrSpan(acc)
    ensures NoAddrSpan(RunAsWritten(st, acc, samples, now).out)
    decreases |samples|
  {
    if |samples| > 0 {
      AsWrittenStepNoAddress(st, now, samples[0]);
      match StepAsWritten(st, now, samples[0])
      case Faulted(_) =>
      case Stepped(st', out) =>
        assert forall s :: s in acc + out ==> s in acc || s in out;
        assert BaUnwired(samples[1..]) by {
          forall i | 0 <= i < |samples[1..]| ensures samples[1..][i][BaPin] == Unassigned {
            assert samples[1..][i] == samples[i + 1];
          }
        }
        AsWrittenNeverEmitsAddress(st', acc + out, samples[1..], now + 1);
    }
  }

  /** From the state `start` sets up, the decoder as written emits no address
      span at all when BA is not wired. */
  lemma AsWrittenDecodeHasNoAddress(samples: seq<seq<PinValue>>, first: int)
    requires AllSized(samples) && BaUnwired(samples)
    ensures NoAddrSpan(RunAsWritten(Start(), [], samples, first).out)
  {
    AsWrittenNeverEmitsAddress(Start(), [], samples, first);
  }

  /** As written, a wired BA that is high adds 2^16 to the latched address,
      so its text needs five hex digits. */
  lemma AsWrittenAddressOverflows(st: State, now: int, pins: seq<PinValue>)
    requires Wf(st) && Sized(pins) && Begins(st, pins)
    requires pins[BaPin] == 1 && Unassigned !in AddrPins(pins)
    ensures StepAsWritten(st, now, pins).Stepped?
    ensures StepAsWritten(st, now, pins).state.pendAddr == Some(WeightedSum(AddrPins(pins)) + 65536)
    ensures |Hex(StepAsWritten(st, now, pins).state.pendAddr.value, 4)| == 5
  {
    AsWrittenBusValue(pins);
    WeightedSumBounds(AddrPins(pins));
    assert Pow2(16) == 65536 by { Pow2Constants(); }
    HexOfFiveDigitValue(WeightedSum(AddrPins(pins)) + 65536);
  }

  /** The seventeen channels as written, with BA high, read as the sixteen
      address lines plus 2^16. */
  lemma AsWrittenBusValue(pins: seq<PinValue>)
    requires Sized(pins) && pins[BaPin] == 1 && Unassigned !in AddrPins(pins)
    ensures ReduceBus(AddrPinsAsWritten(pins)) == Some(WeightedSum(AddrPins(pins)) + 65536)
  {
    var bus := AddrPinsAsWritten(pins);
    assert bus[..16] == AddrPins(pins);
    assert Unassigned !in bus by {
      forall i | 0 <= i < 17 ensures bus[i] != Unassigned {
        if i < 16 { assert bus[i] == AddrPins(pins)[i]; }
      }
    }
    assert Pow2(16) == 65536 by { Pow2Constants(); }
  }

  /** The next cycle begin emits such an overflowed pending address as five
      hex digits: the text `Begin` promises is `Hex`'s, whose length is fixed. */
  lemma BeginOverflowText(st: State, now: int, busAddr: Option<nat>)
    requires Wf(st) && st.pendAddr.Some?
    requires 65536 <= st.pendAddr.value < 1048576
    ensures |Begin(st, now, busAddr).1| == 1
    ensures |Begin(st, now, busAddr).1[0].text| == 5
  {
    var out := Begin(st, now, busAddr).1;
    assert out[0] in out;
    HexUnique(out[0].text, st.pendAddr.value, 4);
    HexOfFiveDigitValue(st.pendAddr.value);
  }

  /** A value in [16^4, 16^5) is written with exactly five hex digits: four
      would read below 16^4, and six or more, with no leading '0', would
      read at least 16^5. */
  lemma HexOfFiveDigitValue(v: nat)
    requires 65536 <= v < 1048576
    ensures |Hex(v, 4)| == 5
  {
    var s := Hex(v, 4);
    assert Pow16(4) == 65536 && Pow16(5) == 1048576;
    ParseBelow(s);
    if |s| == 4 {
      assert false;
    }
    ParseAtLeast(s);
    if |s| > 5 {
      PowMonotone(5, |s| - 1);
      assert false;
    }
  }

  /** Every address span in `out` carries four hex digits. */
  predicate FourDigitAddrs(out: seq<Span<Ann>>) {
    forall s :: s in out && s.category == Addr ==> IsHexText(s.text) && |s.text| == 4
  }

  /** One sample, whatever address it latches, as long as that address and
      the pending one are below 2^16: the pending address stays below 2^16
      and an address span emitted carries four hex digits. */
  lemma StepOnAddrTexts(st: State, now: int, pins: seq<PinValue>, busAddr: Option<nat>)
    requires Wf(st) && Sized(pins)
    requires st.pendAddr.Some? ==> st.pendAddr.value < 65536
    requires busAddr.Some? ==> busAddr.value < 65536
    ensures var r := StepOn(st, now, pins, busAddr);
      r.Stepped? ==>
      && (r.state.pendAddr.Some? ==> r.state.pendAddr.value < 65536)
      && FourDigitAddrs(r.out)
  {
    var r := StepOn(st, now, pins, busAddr);
    if Begins(st, pins) {
      StepOnAtBegin(st, now, pins, busAddr);
      if r.out != [] {
        assert r.out == [r.out[0]];
      }
    } else if Ends(st, pins) {
      StepOnAtEnd(st, now, pins, busAddr);
      if r.Stepped? && r.out != [] {
        assert r.out == [r.out[0]];
        assert r.out[0].category in DataRow;
      }
    } else if Switches(st, pins) {
      StepOnAtSwitch(st, now, pins, busAddr);
    }
  }

  /** With the sixteen address lines, one sample keeps the pending address
      below 2^16, and an address span it emits carries four hex digits. */
  lemma StepAddrTextFourDigits(st: State, now: int, pins: seq<PinValue>)
    requires Wf(st) && Sized(pins)
    requires st.pendAddr.Some? ==> st.pendAddr.value < 65536
    ensures Step(st, now, pins).Stepped? ==>
      && (Step(st, now, pins).state.pendAddr.Some? ==> Step(st, now, pins).state.pendAddr.value < 65536)
      && FourDigitAddrs(Step(st, now, pins).out)
  {
    var a := ReduceBus(AddrPins(pins));
    Pow2Constants();
    StepOnAddrTexts(st, now, pins, a);
  }

  /** With the sixteen address lines, every address span a run emits carries
      exactly four hex digits. */
  lemma {:induction false} AddrTextsFourDigits(st: State, acc: seq<Span<Ann>>,
                                               samples: seq<seq<PinValue>>, now: int)
    requires Wf(st) && AllSized(samples)
    requires st.pendAddr.Some? ==> st.pendAddr.value < 65536
    requires FourDigitAddrs(acc)
    ensures FourDigitAddrs(Run(st, acc, samples, now).out)
    decreases |samples|
  {
    if |samples| > 0 {
      StepAddrTextFourDigits(st, now, samples[0]);
      match Step(st, now, samples[0])
      case Faulted(_) =>
      case Stepped(st', out) =>
        assert forall s :: s in acc + out ==> s in acc || s in out;
        AddrTextsFourDigits(st', acc + out, samples[1..], now + 1);
    }
  }

  /** From the state `start` sets up, every address span is four hex digits. */
  lemma DecodeAddrTextsFourDigits(samples: seq<seq<PinValue>>, first: int)
    requires AllSized(samples)
    ensures forall s :: s in Decode(samples, first).out && s.category == Addr ==>
      IsHexText(s.text) && |s.text| == 4
  {
    AddrTextsFourDigits(Start(), [], samples, first);
  }
}
