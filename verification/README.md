# A model of a voice call: codec, transport and call protocol

The modules model the parts of a VoIP client that decide whether two peers understand each
other, and prove what those parts promise.

**The MLow entropy codec.** A range coder after sections 4.1 and 5.1 of RFC 6716 turns symbols
into nested intervals (`RangeSpec`), written by a class that delays carries (`RangeEncoding`) and
read by a class that works on any bytes (`RangeDecoding`). On it sit the blocks of a frame: line
spectra (`Lsf`), pulses (`PulseSpec` to `PulseBlock`, at the low rate `PulseLow`), gains (`Gains`)
and pitch (`Ltp`, `PitchSpec` to `PitchBlock`). Encoder and decoder are modelled separately, as
they are written, and meet in three facts per block: the encoder appends the block's symbols, the
decoder on any bytes advances by the symbols of some well-formed block, and no bytes hold two
blocks. Which table each of these symbols is in is stated on the fields of the tables
(`Lsf.LsfWire`, `PulseWire`, `Gains.ResidualWire`, `Ltp.LtpWire`, `PitchBlock.PitchWire`). The
decoder reads its pitch tables through a byte window at computed addresses; `PitchMem` proves that
every such read finds the table entry that the encoder used. `Frame` chains three internal frames,
and `FrameRoundTrip` concludes that a transmitted frame comes back from any state of the decoder;
`LowFrame` is the decoder of low-rate frames. The seeds of the tables are parameters; `CdfTables`,
`CcBuild` and `PitchBuild` prove that the builders make well-formed tables of them, `PulseWeights`
and `RunWeights` that the weights computed in fixed point are never without sum.

**Signal processing.**  The mixed-radix transform against the discrete Fourier transform (`Fft`);
the fixed-point voice activity detector with every 32-bit operation proved not to wrap
(`VadSpec` to `Vad`); the stabilizer of line spectra (`Nlsf`); the unrolled filters (`Filters`);
the resampler (`Resampler`).

**Transport and call.**  RTP headers (`Rtp`), SRTP indices and protection (`Srtp`), STUN messages
(`Stun`), the transitions of a call (`CallStates`), the steps under the call manager's lock
(`CallManagement`) and their interleavings (`CallProtocol`), and the playback queue (`Playback`).

Where the code does not meet a property, the exact condition under which it does is proved,
with an input outside it: a packet that is late over the wrap (`Srtp.NotBridged`), a STUN body
over its length field (`Stun.TooLong`), an accept that overtakes the offer's acknowledgement
(`CallProtocol.EarlyAcceptIsLost`), a rejection after accepting (`CallProtocol.RejectAfterAccept`),
speech shorter than a frame (`Playback.ShortSpeechStays`), the two points where the sigmoid steps
down (`FixedPoint.SigmStep`).

Floating-point numbers are real numbers here.  Arithmetic that the code does in 16 or 32 bits is
written out with its wrap-around, or shown not to need it.

## Model

| member | source | states |
|---|---|---|
| RangeSpec.EstimateLocates | internal/voip/media/mlow/rangecoder.go:97-112 | The value that the decoder estimates from its code value falls in [fl, fh) exactly when the code point lies in the interval that the symbol narrows to, also where the total does not divide the range |
| RangeSpec.StepInCode | internal/voip/media/mlow/rangecoder.go:83-93 | A code point in the interval after a symbol was in the interval before it, renormalization included: intervals nest |
| RangeSpec.NarrowTiles | internal/voip/media/mlow/rangecoder.go:385-399 | The symbols of one total tile the interval: the first starts at its low end, each next one where the one before ends, the last ends at its high end; all but the first get the same whole part of the range for each unit of their weight, the first gets the rest |
| RangeSpec.CdfTiles | internal/voip/media/mlow/rangecoder.go:431-445 | The symbols of a table adjoin, from zero to its total, each as wide as the step of the table |
| RangeSpec.AdaptiveUnique | internal/voip/media/mlow/rangecoder.go:197-221 | A byte string whose code point is read through tables that depend on the values before determines all the values: two admissible sequences read from the same bytes are equal |
| RangeEncoding.CarryRipple | internal/voip/media/mlow/rangecoder.go:351-372 | A carry into a pending digit followed by n digits 255 is the number that the digit plus one and n zeros spell: what the delayed digits stand for |
| RangeEncoding.RangeEncoder.CarryOut | internal/voip/media/mlow/rangecoder.go:351-372 | The digits written and pending after a carry-out spell the old number times 256 plus the new digit, and no byte over 255 is ever written |
| RangeEncoding.RangeEncoder.Normalize | internal/voip/media/mlow/rangecoder.go:374-382 | Ends with a range above 2^23 and at most 2^31, and keeps the carry invariant: val + rng at most 2^32, and at most 2^31 where no pending digit can take a carry |
| RangeEncoding.RangeEncoder.Encode | internal/voip/media/mlow/rangecoder.go:385-399 | For every symbol fl < fh <= ft <= 2^23 the state becomes that of the interval narrowed by it, exactly, whatever bytes are pending; a zero total only sets the error |
| RangeEncoding.RangeEncoder.EncodeCDF | internal/voip/media/mlow/rangecoder.go:431-445 | Encodes the slot of the table as a symbol, or sets the error for an index outside it |
| RangeEncoding.RangeEncoder.EncodeRawSymbol | internal/voip/media/mlow/rangecoder.go:485-488 | A field of up to fifteen bits is one uniform symbol |
| RangeEncoding.FlushPointInside | internal/voip/media/mlow/rangecoder.go:498-535 | The end chosen by the flush lies in [val, val + rng) with all its low bits free, in 32-bit arithmetic that wraps |
| RangeEncoding.RangeEncoder.Done | internal/voip/media/mlow/rangecoder.go:498-535 | After the flush every continuation of the bytes, zeros in particular, lies in the interval of all symbols encoded; the error is set exactly on misuse or when the bytes do not fit; the rest of the buffer is zero; the length is that of the interval within two bytes |
| RangeDecoding.RangeDecoder.Normalize | internal/voip/media/mlow/rangecoder.go:83-93 | On any buffer ends with 2^23 < rng <= 2^31 and val < rng, at the interval renormalized |
| RangeDecoding.RangeDecoder.Decode | internal/voip/media/mlow/rangecoder.go:97-112 | On any bytes returns a value below the total; the one value range that contains it is that of the interval the code point is in; no error is set |
| RangeDecoding.RangeDecoder.Update | internal/voip/media/mlow/rangecoder.go:136-146 | The decoder moves to the interval narrowed by the symbol and renormalized |
| RangeDecoding.RangeDecoder.DecodeCDF | internal/voip/media/mlow/rangecoder.go:197-221 | On any bytes and any well-formed table returns an index inside it, the one whose interval the code point is in, and advances by that symbol |
| RangeDecoding.RangeDecoder.DecodeRawSymbol | internal/voip/media/mlow/rangecoder.go:128-133 | On any bytes returns the field of the given width whose interval the code point is in |
| RangeDecoding.RangeDecoder.Decode64FineSym | internal/voip/media/mlow/rangecoder.go:270-287 | Reads the six bits written as one uniform symbol of 64 |
| RangeRoundTrip.InStep | internal/voip/media/mlow/rangecoder.go:290-293 | A valid encoder and decoder that have passed the same symbols have the same range and bit count |
| RangeRoundTrip.Transmit | internal/voip/media/mlow/rangecoder.go:498-548 | Every finite list of admissible symbols, encoded into a buffer of any size that does not overflow and read back by a decoder over the bytes with anything behind them, gives values that fall in the symbols one by one |
| CdfTables.DcmfIsCdf | internal/voip/media/mlow/celp_enc.go:250-266 | The table expanded from any non-empty admissible weights is a strictly increasing distribution from zero with total at most 32767 |
| CdfTables.DcmfShares | internal/voip/media/mlow/celp_enc.go:250-266 | Each symbol gets one part and its share, cut to a whole number, of the 32767 less one for each symbol: its weight is the square of its delta and one, at most 65535, out of the sum of all |
| CdfTables.CelpDcmfToCmf | internal/voip/media/mlow/celp_enc.go:250-266 | The in-place expansion fills the caller's slice with that table, without 32-bit overflow |
| CdfTables.LsfDcmfToCmf | internal/voip/media/mlow/lsf_seed.go:328-349 | The second way of expanding gives the same table |
| CdfTables.PitchDcmfToCmf | internal/voip/media/mlow/pitch_seed.go:149-170 | The third way, which overwrites its weights, gives the same table |
| CdfTables.PdfIsCdf | internal/voip/media/mlow/cc_tables.go:99-113 | Any weights that are not negative and not all zero give a strictly increasing table |
| CdfTables.PdfToCmf | internal/voip/media/mlow/cc_tables.go:99-113 | The loop computes that table in 32-bit range |
| CdfTables.WindowIsCdf | internal/voip/media/mlow/cc_tables.go:479-487 | A window of a table, shifted to start at zero, is a table again, so each of its symbols has a width |
| PulseWeights.SplitLogNegative | internal/voip/media/mlow/cc_tables.go:121-140 | The approximate logarithm of the odds of k pulses of n in one half is never positive, for all k <= n <= 159, in spite of the error of every logarithm in it: the quotient behind a split weight never has a zero divisor |
| PulseWeights.AllInOneHalf | internal/voip/media/mlow/cc_tables.go:121-140 | That one half gets all of n pulses, or none, is weighted with exactly one in 2^n, for n up to 30 |
| PulseWeights.SplitPdfWeighs | internal/voip/media/mlow/cc_tables.go:142-157 | The weights of every split table have a positive sum, since an even split is never rarer than one in 2^30 |
| PulseWeights.CreateSplitCmfs | internal/voip/media/mlow/cc_tables.go:142-157 | The loops over totals and splits build the tables of those weights, each a table with one entry more than there are splits |
| RunWeights.RunConserves | internal/voip/media/mlow/cc_tables.go:165-207 | For every number of pulses and positions the weights given to the first k positions and what is left for longer runs add up to 2^31, less at most one for each position |
| RunWeights.HitRises | internal/voip/media/mlow/cc_tables.go:171-200 | The fewer positions are left, the greater the odds that the next one holds a pulse |
| RunWeights.SharpnessFalls | internal/voip/media/mlow/cc_tables.go:184-196 | The more pulses there are for the positions, the less the odds are sharpened, but for what the steps of the sigmoid cost |
| RunWeights.RunPdfWeighs | internal/voip/media/mlow/cc_tables.go:165-207 | So every run-length table has weight |
| RunWeights.CreateRunlenTable | internal/voip/media/mlow/cc_tables.go:165-207 | The three nested loops build the tables of those weights |
| CcBuild.BuildIsWf | internal/voip/media/mlow/cc_tables.go:362-391 | Whatever the seed's contents, every table the codec can index after a build, for both rates, is well formed, and every split, run-length, offset and gain window is in bounds; the split and run-length tables are the computed ones |
| CcBuild.BuiltFrom | internal/voip/media/mlow/cc_tables.go:362-391 | Every table is built from its own part of the seed, the pulse counts in their order, the split tables by total and the run-length tables by multiples of eight samples |
| CcBuild.BuiltRows | internal/voip/media/mlow/cc_tables.go:372-379 | Row r of the offsets and of the gains of either rate is the table of the r-th chunk of its deltas |
| CcBuild.TwosComplement | internal/voip/media/mlow/cc_tables.go:383-385 | Two bytes are a number in two's complement, the low byte first |
| CcBuild.BuildTables | internal/voip/media/mlow/cc_tables.go:335-391 | The loops over chunks, rows and windows build those tables |
| CcTables.Tables.RunSizes | internal/voip/media/mlow/cc_tables.go:165-222 | Every run-length window asked for lies in its table and has one entry more than there are positions |
| Lsf.LsfUnique | internal/voip/media/mlow/lsf.go:93-155 | No byte string holds two different line-spectrum blocks for one predictor state |
| Lsf.LsfWire | internal/voip/media/mlow/lsf.go:93-155 | Nineteen symbols, and the table of each: the selector's by what came before, the grid's by selector and whether it repeats, the sixteen residuals' by selector, rate and grid, the extra one's |
| Lsf.EncodeLsf | internal/voip/media/mlow/encoder.go:311-355 | Writes selector, grid, coefficients and extra bit in the order of the layout and leaves the predictor that goes with them |
| Lsf.DecodeLsf | internal/voip/media/mlow/lsf.go:93-155 | On any bytes returns a well-formed block whose symbols lead from the interval before to the one after, and the predictor that goes with it |
| Lsf.AdvanceState | internal/voip/media/mlow/lsf.go:57-71 | Replaying the state of an internal frame sets what decoding it would have set |
| PulseSpec.TriIsTri | internal/voip/media/mlow/pulse.go:62-66 | The 16-bit triangular prior with its wrapping factor equals (k+2)(L+1) - (k-1)(k-2)/2 |
| PulseSpec.TriIncreases | internal/voip/media/mlow/pulse.go:62-91 | The prior is strictly increasing, so the intervals of the counts are disjoint and none is empty |
| PulseCoding.FindCount | internal/voip/media/mlow/pulse.go:67-92 | The search hits the one count whose interval holds the value |
| PulseCoding.DecodeCounts | internal/voip/media/mlow/pulse.go:94-133 | On any bytes the split tree gives four counts of at most forty that add up to the total, and refuses none that the total allows |
| PulseSpec.PulseUnique | internal/voip/media/mlow/pulse.go:34-210 | No byte string holds two different excitation blocks |
| PulseWire.BlockWire | internal/voip/media/mlow/pulse.go:34-210 | Count, splits, runs and signs follow each other |
| PulseWire.CountLaw | internal/voip/media/mlow/pulse.go:55-92 | Out of 13521 parts a count of k pulses has 163 - k, and no pulse at all has 321 |
| PulseWire.SplitWire | internal/voip/media/mlow/pulse.go:94-133 | Up to three symbols: how many of all pulses are in the first half, in the table of their number, and how many of each half in its first subframe, in the middle of the table of that number; a choice of one is not sent |
| PulseWire.RunWire | internal/voip/media/mlow/pulse.go:137-174 | A run is sent in the table for the pulses still to come and the samples left, rounded up to eight, from the entry on that leaves as many |
| PulseWire.SignWire | internal/voip/media/mlow/pulse.go:176-208 | Signs are sent fifteen to a symbol of equally likely values, the rest in the last |
| PulseWire.SignMeaning | internal/voip/media/mlow/analysis.go:580-608 | The first pulse of a symbol has its highest bit, and a set bit is a positive pulse |
| PulseVector.WalkConserves | internal/voip/media/mlow/pulse.go:137-174 | Walking the run lengths of a subframe, the magnitudes add up to the number of runs |
| PulseVector.SpotsAscend | internal/voip/media/mlow/pulse.go:137-174 | The positions are distinct, ascending, and each stays in its own subframe |
| PulseVector.VectorRoundTrip | internal/voip/media/mlow/analysis.go:528-608 | Reconstructing the parameters of any 320-sample vector gives that vector back, whatever the signs, magnitudes and repeats |
| PulseVector.ParamsAreWf | internal/voip/media/mlow/analysis.go:528-608 | The parameters of every vector with at most forty units a subframe can be written |
| PulseVector.BlockRoundTrip | internal/voip/media/mlow/pulse.go:137-208 | Every well-formed block, as `PulseBlock.DecodePulses` and `PulseLow.DecodeLowPulses` return it, stands for a vector whose absolute sums in the subframes are the counts read, and analysing that vector gives back the block: blocks and sparse vectors correspond one to one |
| Pulses.BuildPulseParams | internal/voip/media/mlow/analysis.go:528-608 | The loops over runs and sign batches build exactly those parameters |
| PulseBlock.EncodePulses | internal/voip/media/mlow/encoder.go:360-446 | Writes count, splits, run lengths and sign batches of the block in order |
| PulseBlock.DecodePulses | internal/voip/media/mlow/pulse.go:34-210 | On any bytes, at the high rate: returns a well-formed block whose symbols lead from the interval before to the one after, never an error, and the array in place is the vector of that block |
| PulseLow.LowConserves | internal/voip/media/mlow/pulse.go:55-133 | At the low rate four counts of at most eight add up to the total read, unless the split is refused, which leaves none; totals up to sixteen are never refused, totals above thirty-two always |
| PulseLow.Refusable | internal/voip/media/mlow/pulse.go:97-116 | The upper end of the first half is that of the high rate: some first half makes the decoder refuse the split exactly when the total is above sixteen |
| PulseLow.DecodeLowPulses | internal/voip/media/mlow/pulse.go:34-210 | On any bytes, at the low rate: the block is well formed, its symbols lead from the interval before to the one after, and in every subframe the absolute values of the vector add up to the count read |
| Gains.EncodeGains | internal/voip/media/mlow/encoder.go:469-508 | Writes main and shape gain and one residual for every subframe with pulses, none for the others, whatever placeholder the analysis left there |
| Gains.DecodeGains | internal/voip/media/mlow/gains.go:18-65 | On any bytes reads that layout back: well-formed indices, zero residuals where there are no pulses, and the dequantized gains of the indices read, in 32 bits |
| Gains.GainRange | internal/voip/media/mlow/gains.go:30-41 | Every dequantized gain of well-formed indices fits 32 bits, as the table's 16-bit entries allow |
| Gains.ResidualInside | internal/voip/media/mlow/gains.go:43-62 | The window of the residual table chosen by the gain and the pulse count is in bounds for every gain |
| Gains.GainHead | internal/voip/media/mlow/gains.go:18-29 | The main gain, the shape, and then one symbol for each subframe with pulses |
| Gains.GainLaw | internal/voip/media/mlow/gains.go:30-41 | The log-gain is the main index in steps, above a floor of -85, and the shape's entry for the subframe |
| Gains.ResidualWire | internal/voip/media/mlow/gains.go:43-62 | A residual is sent in one of rows 8 to 11 of the offset tables by pulse count in tens, all from thirty on in the last, from its start for gains from -8192 up and one entry further for every 16384 below, at most 85 |
| Ltp.EncodeLtp | internal/voip/media/mlow/encoder.go:520-546 | With the tables of either rate: writes a gain for each subframe, conditioned on the one before, and a filter for those with pulses; its predictor is that of the values |
| Ltp.DecodeLtp | internal/voip/media/mlow/pitch.go:45-77 | On any bytes and with the tables of either rate reads that layout back, with the same predictor and the weighted gain, in 32 bits, from which the lag mode follows |
| Ltp.LtpWire | internal/voip/media/mlow/pitch.go:45-77 | The gain of a subframe is in the row that belongs to the gain before it, the first row after none; its filter in the table of first filters or in the window that belongs to the last filter sent |
| Ltp.ModeLaw | internal/voip/media/mlow/pitch.go:66-77 | The lags are read in the first delta table when the weights of the four gains sum to less than 40028, in the third from 56340 on, in the second between, with the truncating division of the code |
| PitchSpec.IndexOnto | internal/voip/media/mlow/pitch_seed.go:219-255 | An injective index map between equally many contours is onto: the decoder's search always finds the contour |
| PitchSpec.LagUnique | internal/voip/media/mlow/pitch.go:79-202 | No byte string holds two different lag contours for one predictor |
| PitchSpec.ContourWire | internal/voip/media/mlow/pitch.go:79-118 | Without a previous lag the contour's number is sent whole, with one its first block in the row of the previous block and then the number among those of that block |
| PitchSpec.LagWire | internal/voip/media/mlow/pitch.go:120-200 | The first lag is sent as six equally likely bits when the contour does not start within one block below and two above the previous lag; any other in the 64 entries of the delta table that belong to the distance from the lag before |
| PitchMem.MapAt | internal/voip/media/mlow/mem.go:166-189 | The address of an index map entry resolves in the byte window to that entry |
| PitchMem.TransitionCdfAt | internal/voip/media/mlow/mem.go:182-189 | The address of a contour transition row resolves to that table |
| PitchMem.FracCdfAt | internal/voip/media/mlow/mem.go:182-189 | The address of an initial-lag row resolves to that table |
| PitchMem.LagCdfAt | internal/voip/media/mlow/mem.go:182-189 | The address of a lag-difference window, computed in wrapping 32-bit arithmetic, resolves to the window of the table |
| PitchMem.RecordFields | internal/voip/media/mlow/mem.go:54-113 | The record of a contour, its padded blocks and segment lengths and its count, is found where the decoder looks for it |
| PitchBuild.BuildSmplMem | internal/voip/media/mlow/mem.go:54-113 | Appending the regions one after the other builds the byte window that those readings are proved of |
| PitchMem.SmplMem.RegionFor | internal/voip/media/mlow/mem.go:131-139 | The search through the regions returns the first one that covers the address range, or none when none does |
| PitchBuild.DecodeBlockseg | internal/voip/media/mlow/pitch_seed.go:107-117 | On any bytes reads a length from one to six and then that many pairs of block and segment length |
| PitchBuild.SameContours | internal/voip/media/mlow/pitch_seed.go:219-255 | The encoder's contours and those behind the decoder's window, read from one seed by separate code, are the same |
| PitchBuild.BuildPitchTables | internal/voip/media/mlow/pitch_seed.go:219-255 | The tables built from the seed are those the window's record layout is proved for, and are well formed exactly when the contours are, the index map is one to one and the ranges by first block are in order and hold their contours |
| PitchBuild.BuiltFrom | internal/voip/media/mlow/pitch_seed.go:219-255 | Every pitch table is built from its own part of the seed, delta table m and transition row f from the m-th and f-th piece |
| PitchEncoding.EncodeLagsWire | internal/voip/media/mlow/pitch.go:284-333 | Writes the contour in one or two symbols and the lag of each segment in the table that follows from the lags before |
| PitchEncoding.PredictorIsLast | internal/voip/media/mlow/pitch.go:337-342 | The predictor looked up in the tables is the block and the fraction of the last lag written |
| PitchDecoding.DecodedSnoc | internal/voip/media/mlow/pitch.go:120-200 | One more segment: what the decoder has read so far, and its fractions, follow the encoder's model |
| PitchBlock.DecodeLags | internal/voip/media/mlow/pitch.go:79-202 | On any bytes, through the byte window only, reads a contour and lags whose symbols are those of the tables, fills the eight slots with the lag of their segment, and ends in the predictor that the encoder computes |
| PitchBlock.EncodePitch | internal/voip/media/mlow/encoder.go:513-564 | Writes gains, filters, contour and lags; its predictor is that of the block |
| PitchBlock.DecodePitch | internal/voip/media/mlow/pitch.go:33-202 | On any bytes reads gains, filters, contour and lags of a well-formed block and ends in the predictor of that block |
| PitchBlock.PitchUnique | internal/voip/media/mlow/pitch.go:33-202 | No byte string holds two different pitch blocks for one predictor |
| PitchBlock.PitchWire | internal/voip/media/mlow/pitch.go:33-202 | The lags follow gains and filters, and each is sent in the delta table that the sum of the gains' weights selects |
| PitchBlock.AfterLaw | internal/voip/media/mlow/pitch.go:337-342 | The next internal frame is coded against the last gain, the last filter sent, and the block and lag of the last segment |
| FrameSpec.FrameUnique | internal/voip/media/mlow/decoder.go:105-146 | No byte string holds two different frames of three chained internal frames |
| FrameSpec.FrameResets | internal/voip/media/mlow/lsf.go:57-71 | A frame has the same symbols and the same predictors after it whatever the predictor before it: the state carried between packets does not matter |
| FrameSpec.InternalWire | internal/voip/media/mlow/decoder.go:105-146 | An internal frame is its line spectrum, its pulses, and the gains of an unvoiced or the pitch of a voiced one |
| FrameSpec.StartsAfresh | internal/voip/media/mlow/lsf.go:57-71 | The first voiced frame of a packet, and each one after an unvoiced one, is coded as after nothing |
| FrameSpec.FirstGain | internal/voip/media/mlow/pitch.go:45-58 | After nothing the first gain is in the first row |
| Frame.EncodeSmplFrame | internal/voip/media/mlow/encoder.go:568-602 | The frame is the byte in front and a body that lies in the interval of all its symbols; it fails only when the body does not fit the buffer, and the length is within two bytes of that of the interval |
| Frame.DecodeActiveFrame | internal/voip/media/mlow/decoder.go:105-146 | Any non-empty high-rate frame is read as three well-formed internal frames, from any predictor state |
| LowFrame.DecodeLowFrame | internal/voip/media/mlow/decoder.go:105-146 | Any non-empty low-rate frame is read as three internal frames of that rate, each under the predictor the one before leaves, from any predictor state |
| LowFrame.LowTables | internal/voip/media/mlow/cc_tables.go:415-434 | Only the gains and the weights of the long-term prediction differ between the rates |
| FrameRoundTrip.FrameRecovered | internal/voip/media/mlow/encoder.go:568-602 | A decoder in any predictor state that reads the body of a frame reads that frame and ends in the encoder's predictor |
| FrameRoundTrip.Transmit | internal/voip/media/mlow/decoder.go:105-146 | Encoding a frame and decoding the result returns every line-spectrum index, pulse vector, gain, residual or filter of a subframe with pulses, contour and block lag, from any state of the decoder, and leaves the two predictors equal |
| FrameRoundTrip.VectorArrives | internal/voip/media/mlow/analysis.go:528-608 | In particular the pulse vector that was analysed is the one synthesized from |
| Fft.SmallestFactor | internal/voip/media/mlow/fft.go:24-37 | Returns the least factor above one |
| Fft.ImaginaryUnit | internal/voip/media/mlow/fft.go:41-76 | The pairs multiply as complex numbers: reals as such, and the square of (0, 1) is minus one |
| Fft.FftRec | internal/voip/media/mlow/fft.go:41-76 | For every length, stride and root w with w^n = 1 the array holds the discrete Fourier transform of the strided input, prime lengths and mixed factors alike |
| Fft.InverseTransform | internal/voip/media/mlow/fft.go:80-83 | With the inverse of a primitive root the transform of the transform is n times the input |
| VadSpec.EvenBounds | internal/voip/media/mlow/vad.go:188-206 | From any 16-bit sample and a state below 2^27 the all-pass state stays below 2^27 and no sum on the way leaves 32 bits |
| VadSpec.Passes | internal/voip/media/mlow/vad.go:188-206 | A constant signal, settled, goes into the low band as it is and leaves the high band silent; one that alternates goes into the high band with its sign turned and leaves the low band silent |
| VadSpec.Sat16Nearest | internal/voip/media/mlow/vad.go:21-29 | Saturation gives the nearest 16-bit number |
| VadSpec.FirstPair | internal/voip/media/mlow/vad.go:188-206 | Of one pair of samples into an empty filter the low band gets 7788 and 36214 parts in 2^17 of the odd and the even one, the high band their difference |
| VadSpec.ConstantBlocked | internal/voip/media/mlow/vad.go:177-184 | Settled, the high-pass filter answers a constant with silence |
| VadSpec.EnergyIs | internal/voip/media/mlow/vad.go:287-314 | The energy is the rest of the frame before, the squares of the first three quarters and half those of the last, as far as 31 bits hold |
| VadSpec.SmoothingLaw | internal/voip/media/mlow/vad.go:238-252 | The coefficient is 1024 times the ratio of the noise level to the energy, short of that by at most ten, from level to eight times the level; 1024 below and 128 above |
| VadSpec.LevelLaw | internal/voip/media/mlow/vad.go:253-260 | A level and its inverse multiply to the greatest 31-bit number, but for less than the inverse, unless the level is at its limit |
| VadSpec.TargetLaw | internal/voip/media/mlow/vad.go:238-242 | The inverse moved to is that of energy and bias |
| VadSpec.NoiseBetween | internal/voip/media/mlow/vad.go:231-261 | The smoothed inverse level lies between the one before and that of the energy now |
| VadRun.RunSafe | internal/voip/media/mlow/vad.go:264-349 | Over runs of frames of any length the state keeps its ranges (levels from 1 to 0xFFFFFF, inverses at least 1, filters below 2^27), every probability is in 0..255, and the inverse levels stay between the bounds of what came in |
| VadRun.BanksRun | internal/voip/media/mlow/vad.go:188-228 | Over any run the three splits and the high-pass filter are in the state they would be in after the whole signal at once: cutting it into frames changes nothing |
| VadRun.RestIs | internal/voip/media/mlow/vad.go:300-313 | What a band carries over to the next frame is the energy of its last quarter |
| VadFilters.AnaFiltBank1Inplace | internal/voip/media/mlow/vad.go:210-228 | Splitting in place gives the bands and the state of splitting into separate arrays, and leaves the rest of the array alone |
| VadFilters.FiltHp | internal/voip/media/mlow/vad.go:177-184 | The filter in place gives the samples and the state of the recursion, in 32 bits |
| VadFilters.EnergyOfBand | internal/voip/media/mlow/vad.go:287-314 | The energy is the saturated sum of the rest of the frame before, three subframes and half the last, and no sum of squares wraps |
| Vad.NoiseLevel | internal/voip/media/mlow/vad.go:238-260 | Level and inverse of a band, with every shift, product and difference proved to fit 32 bits and no divisor zero |
| Vad.BandSnr | internal/voip/media/mlow/vad.go:317-336 | The squared ratio added up and the tilt, with every shift, product and quotient proved to fit |
| FixedPoint.SigmStep | internal/voip/media/mlow/vad.go:85-102 | The sigmoid does not fall from one point to the next except at 159 and -160, where its pieces do not meet |
| FixedPoint.SigmMonotone | internal/voip/media/mlow/vad.go:85-102 | In the eight bits kept of it, the sigmoid never falls |
| FixedPoint.SigmSymmetric | internal/voip/media/mlow/vad.go:85-102 | The sigmoid is a half at zero, nothing and one at its ends, and its values at two points at the same distance from zero add up to one, less at most one part in 2^15 |
| FixedPoint.LogLaw | internal/voip/media/mlow/vad.go:50-67 | The logarithm is 128 times the exponent and the seven bits below the leading one, exactly at a power of two and at most eleven above it elsewhere |
| FixedPoint.LogMonotone | internal/voip/media/mlow/vad.go:63-67 | It never falls |
| FixedPoint.AntilogLaw | internal/voip/media/mlow/cc_tables.go:57-74 | The inverse is at most the power of two and its 128ths, at least eleven of these less, and exact at a power of two |
| VadSnr.SqrtLaw | internal/voip/media/mlow/vad.go:69-83 | The square of the root is at most a sixteenth above its argument, and that of the root and two at most a sixteenth below, for every positive argument |
| VadSnr.AboveSilence | internal/voip/media/mlow/vad.go:335-349 | A probability is above the threshold of a silent frame exactly from a mean square of 296 on |
| VadSnr.RatioLaw | internal/voip/media/mlow/vad.go:319-328 | The ratio is that of 256 energies to the noise level, whichever of the two quotients is taken |
| VadRun.ActiveIff | internal/voip/media/mlow/vad.go:317-349 | A frame is active exactly when the squared ratios of its bands add up to 1184 or more |
| VadRun.InitialNoise | internal/voip/media/mlow/vad.go:162-174 | A new detector's biases are 50 over the number of the band, its levels a hundred times these, its inverses theirs |
| VadRun.CounterAfter | internal/voip/media/mlow/vad.go:231-261 | Frames are counted up to a thousand, and the biases stay |
| Vad.SmplVadState.GetSaQ8 | internal/voip/media/mlow/vad.go:264-349 | One frame takes the state to the model's next state and returns the model's probability |
| VadRun.VoicedIff | internal/voip/media/mlow/vad.go:379-389 | Over every run a frame is voiced exactly when it or one of the three before it was active, or it is one of the first three |
| Vad.SmplVadState.ProcessPacket | internal/voip/media/mlow/vad.go:352-392 | A packet of three frames changes the state and reports as the model does, and is voiced exactly when one of its frames is active or within three frames of an active one; a short packet is answered with nothing and changes nothing |
| Nlsf.StabilizedMargins | internal/voip/media/mlow/synth.go:116-167 | The margins of the result are those the rounds end with, the sum of all seventeen kept throughout; the frequencies keep all spacings, the one below pi included, exactly when none is negative, and whenever fewer than all 1000 rounds were run |
| Nlsf.SpacedUnchanged | internal/voip/media/mlow/synth.go:137-139 | Frequencies that keep their spacings are returned unchanged |
| Nlsf.RoundMoves | internal/voip/media/mlow/synth.go:138-159 | A round sets the least margin to one step for every round before it; what it gains its neighbours lose, two of them the same, and the others stay |
| Nlsf.IsolatedSpaced | internal/voip/media/mlow/synth.go:116-167 | Where no two margins next to each other are negative and every other one can pay for those at its sides, the result keeps all spacings, after at most one round for each negative margin |
| Nlsf.RoundsNeedRoom | internal/voip/media/mlow/synth.go:138-159 | Each further round needs one more step of room: frequencies that fill all the room are set right by the first round or not at all |
| Nlsf.NoRoom | internal/voip/media/mlow/synth.go:138-159 | Where the spacings ask for more room than there is, all rounds are run and the result is not spaced |
| Nlsf.StabilizeNlsf | internal/voip/media/mlow/synth.go:116-167 | The loop in place computes that result |
| Filters.PfFiltAr2 | internal/voip/media/mlow/postfilter.go:101-139 | The filter four samples at a time, with its remainder loop, gives the samples and the state of the recursion one sample at a time, also over its own input |
| Filters.PfFiltAr1 | internal/voip/media/mlow/postfilter.go:142-170 | The filter five samples at a time does so too |
| Filters.EmphasisUndone | internal/voip/media/mlow/postfilter.go:173-182 | The first-order average takes back the first-order recursion from a common past, and the pasts stay common |
| Filters.Ma1Chunks | internal/voip/media/mlow/postfilter.go:173-182 | The average of a signal in chunks, with the last input carried along, is the average of the whole |
| Filters.PfFiltMa1 | internal/voip/media/mlow/postfilter.go:173-182 | The average computed from the end, also over its own input; the state carried on is the last input as it stands after the call |
| Filters.AnyChunks | internal/voip/media/mlow/postfilter.go:198-209 | Filtering a signal in any chunks, empty ones and single samples included, with the state carried along, gives the output and the state of filtering it whole |
| Filters.SmplFiltArma2 | internal/voip/media/mlow/postfilter.go:198-209 | The two stages through a buffer compute that filter |
| Filters.ArmaAt | internal/voip/media/mlow/postfilter.go:198-209 | Input and output meet one difference equation, c0 x[n] + c1 x[n-1] + c2 x[n-2] - a1 y[n-1] - a2 y[n-2], from the two pasts |
| Rtp.RoundTrip | internal/voip/media/rtp.go:49-124 | Decoding an encoded header with anything behind it returns the header exactly when every field fits the bits it has, the count field is that of the sources and the extension is in whole words |
| Rtp.Reencode | internal/voip/media/rtp.go:49-124 | Encoding a decoded header gives back the bytes it was read from exactly when nothing was cut short in it |
| Rtp.FlagLayout | internal/voip/media/rtp.go:49-60 | The first two bytes hold version, padding, extension and count, marker and type, in the bits of section 5.1 of RFC 3550 |
| Rtp.NumberLayout | internal/voip/media/rtp.go:60-78 | Number, time and source follow, most significant byte first, and behind the list the profile, the length in words and the data of the extension |
| Rtp.CsrcLayout | internal/voip/media/rtp.go:64-67 | Source i of the list is spelled by the four bytes from 12 + 4i on |
| Rtp.EncodeHeader | internal/voip/media/rtp.go:49-78 | Writes those bytes to the front of the buffer, also where the count field is not that of the sources, or nothing when there is no room for the size computed from the field |
| Srtp.ReceiverIff | internal/voip/media/srtp.go:124-140 | A receiver numbers every packet of an increasing run rightly exactly when the run starts in the first period and each step stays in the period or crosses into the next by less than half a period |
| Srtp.SenderIndex | internal/voip/media/srtp.go:124-140 | The sender's packet n has index seq0 + n up to 2^48 |
| Srtp.NotBridged | internal/voip/media/srtp.go:124-136 | Two inputs outside that condition: a gap of a period and a half, and a packet that is late over the wrap |
| Srtp.IvInjective | internal/voip/media/srtp.go:142-159 | Two packets start from the same counter block only when source and index are the same |
| Srtp.IvBytes | internal/voip/media/srtp.go:142-159 | The counter block is the salt with the four bytes of the source and the six of the index exclusive-ored in from byte 4 on, and two zeros |
| Srtp.ProtectedLayout | internal/voip/media/srtp.go:72-95 | A protected packet is its header, the payload exclusive-ored with the key stream of its counter block, and the first bytes of the code of both and the rollover counter |
| Octets.XorBit | internal/voip/media/srtp.go:142-159 | Each bit of an exclusive or is set exactly when one of the two is |
| Srtp.ProtectRoundTrip | internal/voip/media/srtp.go:72-122 | With one index on both sides, unprotecting returns header and payload exactly when there is a payload, and otherwise refuses and changes nothing |
| Srtp.StreamRoundTrip | internal/voip/media/srtp.go:72-122 | Of a sender's consecutive packets a receiver reads back every one it gets, from the first, whatever it missed in between |
| Srtp.SrtpContext.Protect | internal/voip/media/srtp.go:72-95 | Writes header, masked payload and tag of the model and advances the counter |
| Srtp.SrtpContext.Unprotect | internal/voip/media/srtp.go:97-122 | Returns the model's answer; the counter moves only when a packet is accepted |
| Srtp.RtpSession.CreatePacketWithDuration | internal/voip/media/rtp.go:182-190 | The packet has the old number and time, both of which then wrap around |
| CallStates.CallInfo.ApplyTransition | internal/voip/call/callstate.go:119-215 | A transition changes state, times and flags as the table of transitions says, or is refused and changes nothing |
| CallStates.RunConsistent | internal/voip/call/callstate.go:119-215 | Over any sequence of transitions the times are set in order and agree with the state, and the duration of an ended call is the time from connection to end, nothing for one never connected |
| CallStates.ApplyMoves | internal/voip/call/callstate.go:119-215 | A transition moves between two different states exactly along the edges of the state diagram |
| CallStates.ApplyRecords | internal/voip/call/callstate.go:119-215 | The times recorded are those of the moves into Connecting, from Connecting into Active and into Ended, the reason that of the end; nothing else changes them |
| CallStates.ApplyFlags | internal/voip/call/callstate.go:119-215 | The flags change only as asked while the call is active, and when it starts |
| CallStates.EndRecorded | internal/voip/call/callstate.go:145-183 | Over any run that ends, time and reason are those of the transition that ended the call |
| CallProtocol.AcceptedAndConnectedIsActive | internal/voip/call/callmanager_relay.go:24-50 | Over every interleaving: when the call has been accepted, accepting threads are done, an open relay has called back and nothing has ended the call, it is active, and is being sent when there is a codec |
| CallProtocol.ActiveOnce | internal/voip/call/callmanager.go:151-247 | Over every interleaving Active is entered at most once, and only after acceptance |
| CallProtocol.EndedAbsorbs | internal/voip/call/callmanager_signaling.go:364-407 | After the call has ended no event changes its state, reason or times |
| CallProtocol.CleanedForGood | internal/voip/call/callmanager_relay.go:105-127 | The codec once gone stays gone, and with it the sender |
| CallProtocol.RemoteAcceptTakes | internal/voip/call/callmanager_signaling.go:181-259 | The peer's accept takes effect exactly when it finds the call in Ringing |
| CallProtocol.EarlyAcceptIsLost | internal/voip/call/callmanager_signaling.go:205-258 | A run in which the peer's accept comes before the acknowledgement of the offer: it is refused, and the call rings on with a relay open |
| CallProtocol.RejectEnds | internal/voip/call/callmanager.go:280-296 | Rejecting drops the call and tears its media down, but ends it exactly when it is ringing here |
| CallProtocol.RejectAfterAccept | internal/voip/call/callmanager.go:280-296 | A run in which a call is accepted, rejected, dropped and never ended |
| Stun.BuildStunMessage | internal/voip/transport/stun.go:60-101 | The message is its header and the attributes given, followed by integrity code and fingerprint when asked for, each over the header that was right at its place |
| Stun.ParseStunResponse | internal/voip/transport/stun.go:225-330 | The loop over the offset returns the attributes, error and connection id that a reading one attribute at a time gives; nothing for a message without cookie that is neither ping nor pong |
| Stun.RoundTrip | internal/voip/transport/stun.go:60-330 | Parsing a built message returns type, transaction and all attributes in order with the trailing ones exactly when the last one starts within the length the field can hold, and so for every body below 65536 bytes; otherwise those that start in time |
| Stun.TooLong | internal/voip/transport/stun.go:60-330 | Two attributes of the greatest length are more than that, and the second is lost |
| Stun.HeaderLength | internal/voip/transport/stun.go:94-100 | The length field is a multiple of four, and below the limit the length of the body |
| Stun.FingerprintCovers | internal/voip/transport/stun.go:78-92 | The fingerprint is the checksum of everything in front of it as it is sent |
| Stun.IntegrityCovers | internal/voip/transport/stun.go:63-76 | The integrity code covers everything in front of it with a length that ends at the code itself |
| Stun.HeaderLayout | internal/voip/transport/stun.go:94-100 | Type, length, the bytes of the cookie, the transaction |
| Stun.AttributeLayout | internal/voip/transport/stun.go:40-58 | Kind and length, most significant byte first, the value, and at most three zeros up to a multiple of four |
| Stun.ErrorNoted | internal/voip/transport/stun.go:310-318 | An error attribute is noted with the code whose hundreds are its class and whose rest is its number, and its text |
| Stun.RoutingNoted | internal/voip/transport/stun.go:319-321 | Eight bytes of a routing identifier are noted as the number they spell, in a success only; no other attribute changes the notes |
| Stun.TypeThere | internal/voip/transport/stun.go:253-263 | Every type with its two top bits clear is the one made of the method and class bits read from it |
| Stun.TypeBack | internal/voip/transport/stun.go:253-263 | The method and class bits read from a type are those it was made of |
| Stun.ClassBits | internal/voip/transport/stun.go:253-263 | The class is in bits 4 and 8 of the type, the method in the others, in order |
| Playback.Conserved | internal/voip/call/callmanager_media.go:22-186 | Over every interleaving of feeding, flushing and ticking, the speech handed to the codec since the last flush followed by the queue is what was fed, in order |
| Playback.OneFrameATick | internal/voip/call/callmanager_media.go:119-186 | Every live tick hands over one frame of 960 samples, and nothing else does |
| Playback.PaddedOnlyAtTheEnd | internal/voip/call/callmanager_media.go:155-175 | A frame padded with zeros empties the queue and is made only after nothing was fed for more than 400 ms |
| Playback.Emptied | internal/voip/call/callmanager_media.go:119-186 | After a turn enough ticks, at any times that do not decrease, empty the queue exactly when it was playing, held a frame or was empty |
| Playback.ShortSpeechStays | internal/voip/call/callmanager_media.go:127-146 | Less than a frame fed to an idle queue is never heard, however often and whenever it ticks |
| Playback.SilentIff | internal/voip/call/callmanager_media.go:119-186 | Over every run, from the first live tick or flush on, the queue is silent exactly when it is not playing |
| Playback.LastHeardOf | internal/voip/call/callmanager_media.go:22-186 | Speech fed or handed over is the latest heard of, a flush forgets it, silence while nothing plays leaves it; only feeding sets the time of capture |
| Playback.CallAudio.DispatchAudioFrame | internal/voip/call/callmanager_media.go:119-186 | The step under the lock is that of the model; the codec is given what the reused buffer holds at the time |
| Resampler.AnyChunks | internal/voip/media/pcm.go:53-88 | However a signal is cut, the outputs join to that of the whole, and at most two samples are held back |
| Resampler.SampleAt | internal/voip/media/pcm.go:53-88 | Of three samples the first is kept and the mean of the other two follows, each brought to the nearest value in range |
| Resampler.Resampler24kTo16k.Process | internal/voip/media/pcm.go:53-88 | A call puts out what the chunk adds to the output of all chunks so far |

## Left out

- A round trip of low-rate frames: the encoder has no code that writes their pulse counts. `LowFrame` and `PulseLow` model what their decoder does with any bytes.
- The contents of the embedded seeds and the parsing of their containers: the packed deltas, contours and maps are parameters.
- Frame.EncodeSmplFrame: takes parameters that the tables can express; the code sets the coder's error for a symbol outside its table, which only `RangeEncoding.RangeEncoder.EncodeCDF` states.
- The synthesis that follows the parameters in the decoder, and the analysis and search that choose them in the encoder.
- Raw bits at the end of the buffer (`BitsN`, `EncodeUint`, `DecodeUint`), `BitLogp` and the ICDF paths: frames do not use them.
- The lags in quarter samples and in samples derived from the block lags.
- Rounding and order of floating-point operations.
- Fft.FftRec: the rounded twiddle factors are any number with w^n = 1; the sign argument is the choice of that number.
- Nlsf.IsolatedSpaced: a condition that guarantees all spacings within 1000 rounds, `Nlsf.RoundsNeedRoom` one that they require; for inputs between the two only the rounds themselves tell.
- VadFilters.EnergyOfBand: the four energies are measured one after the other with the frame length of 320 samples that the detector is used with.
- Vad.SmplVadState.GetSaQ8: frames of 320 samples only, the length that packets are cut into; and the sensitivity, speed and sharpness settings, which nothing changes, are constants at zero.
- Vad.SmplVadState.ProcessPacket: packets of three frames of 320 samples, the only ones it is given.
- AES in counter mode, HMAC, CRC and key derivation are uninterpreted; the tag of a packet received is not checked by the code, and no property of it is stated.
- Reordering of SRTP packets: `Srtp.ReceiverIff` is about increasing runs, as the code provides.
- Attribute names, the textual form of a transaction identifier and the builders of particular requests.
- What call handlers do outside the lock: stanzas, keys, relay addresses, logging and callbacks. A relay opens, calls back and closes at any time.
- CallProtocol.AcceptedAndConnectedIsActive: on the outgoing side a call is accepted only after the offer was acknowledged, as `CallProtocol.EarlyAcceptIsLost` shows to be needed.
- A codec that fails to encode a frame: the samples of that frame count as handed to it.
- Network, storage, web and user interface code.
