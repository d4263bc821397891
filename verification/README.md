# MC6809 and TMS7000 bus decoders in Dafny

This project models two logic-analyser protocol decoders for 8-bit CPU buses
and proves properties of the models. Each decoder turns a stream of pin
samples into timed annotations `(start, end, category, text)`.

- **MC6809** (`decoders/mc6809/pd.py`) is clock-qualified. Every sample gets
  a bus phase (idle, read or write) from Q, E and R/W. When the phase
  changes, a small machine runs. It keeps at most one address span and one
  data span pending, and emits a pending span only when a newer one
  replaces it. A direct read/write switch emits a warning and drops what is
  pending. `reduce_bus` turns a slice of pins into a value, or into
  "unassigned" when a channel carries the host's `0xFF` marker.
- **TMS7000** (`decoders/tms7000/pd.py`) is strobe-qualified. On an ALE
  falling edge it latches a 16-bit address: A8..A15 give the high byte and
  the shared AD0..AD7 lines give the low byte. On an EN rising edge it
  latches a data byte and tags it read or write from RW. Each kind of span
  runs from the previous boundary of that kind to the current sample.

Both decoders are modelled the same way. A `State` datatype holds the
decoder's fields, a pure `Step` function models one pass of the `decode`
loop, and `Run` folds `Step` over the input while collecting the emitted
spans. The host's `wait` becomes an input sequence:

- for the MC6809, one 36-value pin vector per sample;
- for the TMS7000, an `Event` per wake-up carrying the sample number, which
  edges matched, and the pins.

For the MC6809 there are two versions of the loop body.

- `Mc6809.StepAsWritten` and `Mc6809Findings.RunAsWritten` reduce the address
  slice exactly as the code does. That slice has 17 channels, the 17th
  being the optional BA channel (`decoders/mc6809/pd.py:41`, `142`).
- `Mc6809.Step`, `Mc6809.Run` and `Mc6809.Decode` reduce the 16 address
  lines A0..A15 that the channel table declares. This corrected step is the
  one the whole-run lemmas in `Mc6809Trace` and `Mc6809Rows` are about.

The defect is recorded under "## Findings". The row invariant does not
depend on the address width, and it is also proved for the loop as written
(`Mc6809Findings.RunAsWrittenKeepsInv`).

`put` becomes the output list. A pin value is 0, 1, or the unassigned marker
`0xFF`. Text is upper-case hexadecimal as `'{:04X}'` and `'{:02X}'` produce
it (`HexText.Hex`), and `HexText.ParseHex` reads it back.

Files:

- `options.dfy`: `Option`.
- `bits.dfy`: pin values, powers of two, and the little-endian value of a bus.
- `hex.dfy`: hex formatting and parsing.
- `spans.dfy`: spans, row selection, non-overlap, contiguity and chains.
- `mc6809.dfy`: the MC6809 decoder.
- `mc6809_trace.dfy`: whole-run properties and worked scenarios.
- `mc6809_rows.dfy`: contiguity of rows in clean runs.
- `mc6809_findings.dfy`: the address-slice defect.
- `tms7000.dfy`: the TMS7000 decoder.
- `tms7000_trace.dfy`: whole-run properties and two single-step examples
  (an address latch and a byte read).

Two behaviours of the code worth noting:

- **Data span category at a cycle end (MC6809).** The data span emitted at a
  cycle end carries the category that was pending, which belongs to the
  cycle that latched the byte. It is not the category of the cycle that is
  just ending. That category becomes pending instead
  (`decoders/mc6809/pd.py:183-188`).
- **Skip guard (TMS7000).** The guard in front of the address branch
  compares the constant `OFF_EN` (1) with 0, so it never fires. Every
  matched ALE fall emits an address span (`decoders/tms7000/pd.py:92`,
  `116-117`).

## Model

| member | source | states |
|---|---|---|
| Bits.WeightedSumLsbFirst | decoders/mc6809/pd.py:47 | The value of a bus is its line 0 plus twice the value of the remaining lines, so line 0 is the least significant bit. |
| Bits.WeightedSumBounds | decoders/mc6809/pd.py:43-47 | A bus of n logic levels has a value in [0, 2^n). |
| HexText.Hex | decoders/mc6809/pd.py:171-172 | `'{:0wX}'` text is hex digits that read back as the number. It has at least one digit and at least w of them, with no leading '0' beyond the padding to w, and is exactly w digits when the number is below 16^w. |
| HexText.HexUnique | decoders/mc6809/pd.py:171-172 | Any text with those properties is `Hex`'s text, so the contract fixes the formatted text completely, for numbers wider than w as well. |
| Mc6809.AnnIndex | decoders/mc6809/pd.py:24-25 | A category's index is its position in the `range(7)` unpacking ADDR, MEMRD, MEMWR, INSTR, ROP, WOP, WARN (`AnnOrder`). |
| Mc6809.AnnIndexInjective | decoders/mc6809/pd.py:24-25 | Distinct categories have distinct indices. |
| Mc6809.DataPins | decoders/mc6809/pd.py:139 | The data slice is the 8 channels D0..D7, in order. |
| Mc6809.AddrPins | decoders/mc6809/pd.py:71-75 | The corrected address slice is the 16 channels A0..A15 (11..26), in order. |
| Mc6809.AddrPinsAsWritten | decoders/mc6809/pd.py:41 | The slice as written has 17 channels: A0..A15, then the optional BA channel. |
| Mc6809.FoldMsbFirst | decoders/mc6809/pd.py:47 | Folding shift-left-and-or over the reversed bus gives the bus's little-endian value. |
| Mc6809.ReduceBus | decoders/mc6809/pd.py:43-47 | None exactly when 0xFF is on the bus. Otherwise the value is the sum of bus[i]·2^i and is below 2^|bus|. |
| Mc6809.Classify | decoders/mc6809/pd.py:131-136 | A sample is a cycle exactly when Q==1 and E==0. It is a write exactly when, in addition, RW==0. Otherwise it is a read. |
| Mc6809.DataAnn | decoders/mc6809/pd.py:33-36 | The map gives a data category, and gives MemRd exactly for a read cycle. |
| Mc6809.Start | decoders/mc6809/pd.py:113-126 | `start` leaves the machine idle, with nothing pending, no byte latched and a zero instruction length. The state satisfies the invariant. |
| Mc6809.Reset | decoders/mc6809/pd.py:109-111 | `reset` sets the phase to idle and changes no other field. |
| Mc6809.ResetIdempotent | decoders/mc6809/pd.py:109-111 | Resetting twice equals resetting once. |
| Mc6809.Begin | decoders/mc6809/pd.py:169-174 | Emits exactly one span, the pending address, when one is pending, over [addr_start, now). Its text is `'{:04X}'` of that address (it `Formats` the address at width 4, which `HexUnique` shows fixes it): 4 digits when below 2^16, more with no leading zero otherwise. Then addr_start := now and pend_addr := the new address. Nothing else changes. |
| Mc6809.End | decoders/mc6809/pd.py:176-188 | Raises exactly when a data category is pending with an unassigned byte. Otherwise the instruction length goes up by 1. At most one data span is emitted, over [data_start, now), under the pending category, with the `'{:02X}'` text of the pending byte (it `Formats` the byte at width 2). The latched byte and the ending cycle's category then become pending from `now`. |
| Mc6809.Trans | decoders/mc6809/pd.py:190-195 | Emits exactly the warning over [now-1, now). Clears pend_addr, ann_data and ann_dasm. Both start samples, pend_data, the latch and the counters stay. |
| Mc6809.StepOn | decoders/mc6809/pd.py:128-147 | In-cycle samples latch the data byte; idle samples keep it. An unchanged phase emits nothing and changes nothing else. prev_cycle becomes the current phase. At most one span is emitted, and it ends at `now`. Only a cycle end can raise. |
| Mc6809.StepOnAtBegin | decoders/mc6809/pd.py:141-142 | At idle→cycle, the loop's one emission and state change are those of `on_cycle_begin` with the given address. The data side is untouched. |
| Mc6809.StepOnAtEnd | decoders/mc6809/pd.py:143-144 | At cycle→idle, the loop raises or emits exactly as `on_cycle_end` does. The address side is untouched. |
| Mc6809.StepOnAtSwitch | decoders/mc6809/pd.py:145-146 | At read↔write, the loop emits only the warning and drops the pending address and data category. |
| Mc6809.Step | decoders/mc6809/pd.py:138-147 | The loop body with the 16 address lines: a cycle begin makes the assigned address pending, and it is below 2^16. |
| Mc6809.StepAsWritten | decoders/mc6809/pd.py:142 | The loop body as written: a cycle begin makes the 17-channel reduction pending. |
| Mc6809.Run | decoders/mc6809/pd.py:129-147 | Folding the loop keeps the state invariant and only appends to the output. |
| Mc6809.Decode | decoders/mc6809/pd.py:113-130 | A run from `start` over no samples emits nothing and does not raise. |
| Mc6809Trace.StepKeepsInv | decoders/mc6809/pd.py:200-201 | One loop pass keeps the run invariant: every span ends before the next sample, no row overlaps itself, and the pending starts are not before the last span of their row. |
| Mc6809Trace.RunKeepsInv | decoders/mc6809/pd.py:128-147 | Over a run, the address, data and warning rows each stay non-overlapping, and every span ends before the sample after the last one processed. |
| Mc6809Trace.DecodeSpansOrdered | decoders/mc6809/pd.py:171-173 | From `start`, every row is non-overlapping and no span ends after the last sample. |
| Mc6809Trace.EndLatchesLastInCycleData | decoders/mc6809/pd.py:186-187 | The byte made pending at a cycle end is the one on the data lines at the last in-cycle sample, under that cycle's category. |
| Mc6809Trace.ViolationDropsPending | decoders/mc6809/pd.py:190-195 | After a read/write switch, the next cycle begin, whatever address it latches, emits no address, and the next cycle end emits no data. |
| Mc6809Trace.RunAtIdle | decoders/mc6809/pd.py:140 | An idle sample after an idle sample changes nothing and emits nothing. |
| Mc6809Trace.RunAtBegin | decoders/mc6809/pd.py:169-174 | Over a run, a cycle-begin sample emits the pending address, if any, over [addr_start, now), and makes the sample's address pending from now. |
| Mc6809Trace.RunAtEnd | decoders/mc6809/pd.py:183-188 | Over a run, a non-raising cycle-end sample emits the pending data, if any, over [data_start, now), and makes the latched byte pending from now. |
| Mc6809Trace.RunAtSwitch | decoders/mc6809/pd.py:191-194 | Over a run, a read↔write sample appends only the warning over [now-1, now) and drops the pending address and data category. |
| Mc6809Trace.RunCycle | decoders/mc6809/pd.py:138-147 | A whole cycle (begin, then end) emits the old address span, then the old data span. It leaves the cycle's address pending from the begin sample and its byte pending from the end sample. |
| Mc6809Trace.ReadThenWrite | decoders/mc6809/pd.py:169-188 | After idle, read, idle, write, idle, the read's address and data spans have been emitted with 4 and 2 digits. The write's address and byte are pending. |
| Mc6809Trace.ReadWriteSequence | decoders/mc6809/pd.py:128-188 | For idle, read, idle, write, idle, read, idle there is no fault. Exactly four spans come out: read address, read data, write address, write data. Each runs from its latch to its supersession and carries the bus value in 4 or 2 digits. |
| Mc6809Trace.ReadThenWriteViolation | decoders/mc6809/pd.py:190-195 | For idle, read, write, idle the only output is one warning over the sample before the switch, and no address stays pending. |
| Mc6809Rows.StartSettled | decoders/mc6809/pd.py:113-126 | The `start` state satisfies the contiguity invariant. |
| Mc6809Rows.SettledAtBegin | decoders/mc6809/pd.py:169-174 | A cycle begin on wired lines keeps the address row contiguous up to the new addr_start. |
| Mc6809Rows.SettledAtEnd | decoders/mc6809/pd.py:176-188 | A cycle end does not raise when the latched byte is assigned. It keeps the data row contiguous up to the new data_start. |
| Mc6809Rows.SettledInPhase | decoders/mc6809/pd.py:138-140 | A sample in an unchanged phase keeps both rows as they were. |
| Mc6809Rows.StepSettled | decoders/mc6809/pd.py:138-147 | A loop pass without a read↔write switch, on wired lines, does not raise and keeps the invariant. |
| Mc6809Rows.RunSettled | decoders/mc6809/pd.py:128-147 | A run without a read↔write switch, on wired lines, never raises and keeps both rows contiguous. |
| Mc6809Rows.DecodeRowsContiguous | decoders/mc6809/pd.py:171-174 | From `start`, with no read↔write switch and wired lines, consecutive address spans are contiguous, consecutive data spans too, and nothing raises. |
| Mc6809Findings.RunAsWritten | decoders/mc6809/pd.py:128-147 | The loop as written, folded, keeps the invariant and only appends. |
| Mc6809Findings.RunAsWrittenKeepsInv | decoders/mc6809/pd.py:128-147 | The loop as written, with the 17-channel address slice, still keeps each row's spans in order without overlap, and never emits a span that ends after the sample that emitted it. |
| Mc6809Findings.AsWrittenSpansOrdered | decoders/mc6809/pd.py:128-147 | From `start`, the loop as written keeps the address, data and warning rows free of overlap, and every span ends before the last sample. |
| Mc6809Findings.AsWrittenLosesAddress | decoders/mc6809/pd.py:142 | As written, with BA unwired, a cycle begin latches None although all 16 address lines carry levels. The 16-line step latches their value. |
| Mc6809Findings.AsWrittenStepNoAddress | decoders/mc6809/pd.py:141-142 | As written, with BA unwired, one pass emits no address span and keeps the address unassigned. |
| Mc6809Findings.AsWrittenNeverEmitsAddress | decoders/mc6809/pd.py:169-174 | As written, with BA unwired on every sample, a run with no address pending never emits an address span. |
| Mc6809Findings.AsWrittenDecodeHasNoAddress | decoders/mc6809/pd.py:41 | As written, from `start`, with BA unwired, the decoder emits no address span at all. |
| Mc6809Findings.AsWrittenAddressOverflows | decoders/mc6809/pd.py:142 | As written, with BA wired and high, the latched address is the 16-line value plus 65536, and its `'{:04X}'` text has 5 digits. |
| Mc6809Findings.StepOnAddrTexts | decoders/mc6809/pd.py:169-174 | When both the given and the pending address are below 2^16, a pass keeps the pending one below 2^16 and every address span it emits has 4 digits. |
| Mc6809Findings.StepAddrTextFourDigits | decoders/mc6809/pd.py:138-147 | With 16 address lines, a pass keeps the pending address below 2^16 and emits only 4-digit address text. |
| Mc6809Findings.AddrTextsFourDigits | decoders/mc6809/pd.py:171-172 | With 16 address lines, every address span a run emits has exactly 4 hex digits. |
| Mc6809Findings.BeginOverflowText | decoders/mc6809/pd.py:171-172 | A pending address in [2^16, 2^20), as the code as written latches with BA high, is emitted by the next cycle begin as exactly 5 hex digits. |
| Mc6809Findings.DecodeAddrTextsFourDigits | decoders/mc6809/pd.py:171-172 | From `start`, every address span has exactly 4 hex digits. |
| Tms7000.AddrPins | decoders/tms7000/pd.py:118 | The address slice is channels 11..18 (A8..A15), in order. |
| Tms7000.DataPins | decoders/tms7000/pd.py:119 | The data slice is channels 3..10 (AD0..AD7), in order. |
| Tms7000.LinesValue | decoders/tms7000/pd.py:120 | `sum(bit << i)` is the little-endian value of the lines, and is below 2^n for n logic levels. |
| Tms7000.Address | decoders/tms7000/pd.py:118-122 | The address is the A8..A15 value times 256 plus the AD0..AD7 value, and is below 65536 for logic levels. |
| Tms7000.DataByte | decoders/tms7000/pd.py:127-129 | The data is the AD0..AD7 value, and is below 256 for logic levels. |
| Tms7000.DataAnn | decoders/tms7000/pd.py:131-134 | The category is a data category, and is MemRd exactly when RW is 1. |
| Tms7000.Reset | decoders/tms7000/pd.py:99-103 | `reset` zeroes the address, the data and both boundaries. |
| Tms7000.ResetIdempotent | decoders/tms7000/pd.py:99-103 | Resetting twice equals resetting once, and reset forgets the prior state. |
| Tms7000.LatchAddress | decoders/tms7000/pd.py:118-125 | Emits exactly one Addr span over [prev_addr_samplenum, samplenum). Its text is `'{:04X}'` of the new address (it `Formats` it at width 4) and has 4 digits for logic levels. The address boundary moves to the sample; data and its boundary are untouched. |
| Tms7000.LatchData | decoders/tms7000/pd.py:127-135 | Emits exactly one data span over [prev_data_samplenum, samplenum), tagged by RW. Its text is `'{:02X}'` of the byte (it `Formats` it at width 2) and has 2 digits for logic levels. The data boundary moves to the sample; the address side is untouched. |
| Tms7000.Step | decoders/tms7000/pd.py:112-135 | The output is the address span (when ALE fell) followed by the data span (when EN rose). The guard never skips. Each field changes only when its own edge matched. |
| Tms7000.Run | decoders/tms7000/pd.py:112-135 | A run only appends, one span per matched edge. |
| Tms7000.Decode | decoders/tms7000/pd.py:96-114 | A run from reset emits one span per matched edge. |
| Tms7000Trace.StepRows | decoders/tms7000/pd.py:115-135 | A pass puts its address span on the address row and its data span on the data row. |
| Tms7000Trace.StepExtendsAddrRow | decoders/tms7000/pd.py:122-125 | A pass extends the address row's chain to the new address boundary, by one span exactly when ALE fell. |
| Tms7000Trace.StepExtendsDataRow | decoders/tms7000/pd.py:132-135 | A pass extends the data row's chain to the new data boundary, by one span exactly when EN rose. |
| Tms7000Trace.RunExtendsRows | decoders/tms7000/pd.py:112-135 | Over increasing sample numbers, both rows stay chains: well-formed, contiguous, and ending at the current boundary. The address row has one span per ALE fall and the data row one per EN rise. |
| Tms7000Trace.RunExtendsAddrRow | decoders/tms7000/pd.py:112-125 | Over increasing sample numbers, the address row stays a chain ending at the current address boundary, with one span per ALE fall. |
| Tms7000Trace.RunExtendsDataRow | decoders/tms7000/pd.py:112-135 | Over increasing sample numbers, the data row stays a chain ending at the current data boundary, with one span per EN rise. |
| Tms7000Trace.DecodeRows | decoders/tms7000/pd.py:99-103 | From reset, the address spans chain from sample 0, contiguous and non-overlapping, one per ALE fall. The data spans do the same, one per EN rise. |
| Tms7000Trace.DecodeForgetsPrior | decoders/tms7000/pd.py:96-103 | The decoder's output does not depend on the state before `reset`. |
| Tms7000Trace.AddressExample | decoders/tms7000/pd.py:118-124 | A8..A15 = 00000001 and AD0..AD7 = 00000000 give the address span "0100". |
| Tms7000Trace.ReadByteExample | decoders/tms7000/pd.py:127-132 | AD0..AD7 all high with RW high give exactly one MemRd span "FF". |

## Left out

- **Host framework.** Edge matching in `wait`, the upkeep of `samplenum`, and
  `register` all belong to the host. The samples or events and their
  numbers are inputs, and `put` is the output list.
- **Metadata tables.** The `channels`, `optional_channels`, `annotations` and
  `annotation_rows` tables, the `Row` classes and the unused `ChannelError`
  classes are left out; the rows appear only as category sets.
- **MC6809 instruction sub-machine.** `state_IDLE`, `state_RESTART`,
  `put_disasm`, `op_state` and `dasm_start` (`decoders/mc6809/pd.py:149-167`,
  `197-209`) are not modelled. In the code `ann_dasm` is never set, so the
  field is kept but always None. The `put_disasm` branch is modelled only as
  the fault `FormatterUndefined`, because `formatter` is undefined.
- **Raised exceptions.** `'{:02X}'.format(None)` raises. It is modelled as the
  fault `UnassignedDataText`, and a run stops at its first fault.
- **TMS7000 `Pin` class.** It is unused (`decoders/tms7000/pd.py:30-33`) and
  its offsets disagree with the channel order. `decode` uses the `OFF_*`
  constants, which are modelled.
- **Console output.** The `print` calls in TMS7000 `reset` and `start` are
  left out.
- **End of stream.** `decode` never returns, and nothing is flushed at the
  end. A run simply stops after its last sample.
- **Sample counts.** Every sample carries the declared 36 channel values;
  the host guarantees this.
- Mc6809.ReduceBus: requires a non-empty bus. The source calls it only on
  slices of 8 and 17 channels, and `reduce` without an initial value would
  raise on an empty one.
- Mc6809.Reset: does not model `op_state`, which belongs to the left-out
  sub-machine.
- Mc6809.Step: reduces the 16 address lines A0..A15, not the 17-channel
  slice `pins[Pin.A0:Pin.A15+1]` of `decoders/mc6809/pd.py:142`.
  `Mc6809.StepAsWritten` is the loop body as written.
- Mc6809.Run: folds the corrected 16-line step `Mc6809.Step`, not the
  17-channel slice of `decoders/mc6809/pd.py:142`. `Mc6809Findings.RunAsWritten`
  folds the step as written, and the Findings lemmas state how the two differ.
- Mc6809.Decode: its own contract states only the empty-input case. The
  properties of decoding runs are the lemmas in `Mc6809Trace`, `Mc6809Rows`
  and `Mc6809Findings`. Like `Mc6809.Run`, it folds the corrected 16-line
  step. So the whole-run lemmas about it describe the decoder with the
  address slice fixed, except for the row invariant, which
  `Mc6809Findings.RunAsWrittenKeepsInv` also proves for the code as written.
- Mc6809Rows.DecodeRowsContiguous: proves contiguity only for runs with no
  read↔write switch and with address and data lines wired during cycles.
  In the source itself, a switch, or a begin that latches an unassigned
  address, leaves a gap before the next span of the row.
- Tms7000Trace.DecodeRows: assumes strictly increasing, non-negative
  sample numbers, which the host guarantees.
- Tms7000.Address: computes `sum(bit << i)` also when a line carries
  `0xFF`, but states the 16-bit bound only for logic levels. The address
  and data channels are mandatory, so the host always delivers levels on
  them.

## Findings

| source | as written | input that shows it | evidently intended | confidence | as-written member | corrected member |
|---|---|---|---|---|---|---|
| decoders/mc6809/pd.py:41 | `A15 = 27`, so the address slice `pins[Pin.A0:Pin.A15+1]` on line 142 takes 17 channels; the 17th is the optional BA channel (index 27) | BA not wired (host delivers 0xFF): every cycle begin latches None, so no address span is ever emitted. BA wired and high: the address gains 0x10000 and prints as 5 hex digits | `A15 = 26` (the channel comment lists A0..A15 as 11..26): a 16-channel slice | high, not executed | Mc6809Findings.AsWrittenDecodeHasNoAddress | Mc6809Findings.DecodeAddrTextsFourDigits |
