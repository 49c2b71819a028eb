# Verified kernels of RTcmix

RTcmix is a real-time audio synthesis engine. This project models its self-contained numeric and
state-machine kernels in Dafny and proves what each is for. `float` and `double` are `real`. Code that
updates arrays or fields stays imperative here; each such method is proved against a function on values,
and the laws are proved about that function, over every input, every run or every reachable state.

| file | what it models |
|---|---|
| `Powers`, `Modular`, `Rotation`, `Blending` | arithmetic shared by the rest |
| `BitReversal` | the bit-reversal table of FFTReal and the in-place swaps of `utils/fft.c` |
| `Circle`, `Butterfly`, `Transform`, `RealDft` | the passes of the transform on values: both round trips, and equality with the real DFT |
| `FftPasses`, `FFTReal`, `Offt` | the passes over arrays, the packed tables, the ping-pong buffers, and Offt's reordering in place |
| `PortRing`, `ApplePort`, `RenderProtocol` | the Apple device's ring buffers, and its callbacks, lock, semaphore and render thread as interleaved steps |
| `Recirculation`, `Odelay`, `FlatFilters`, `Reverberation` | delay lines that grow, combs and allpasses as classes and as sections of one flat array, the reverberator and what it computes over runs |
| `AllPole`, `SetLine`, `Ooscili` | the doubled history ring, the breakpoint rasteriser, the 16.16 oscillator |
| `Limiter`, `Averages`, `Pcm24`, `PeakStats` | limiting and peak tracking, averages, 24-bit packing and what is found on reading it back, the peak statistics in a file's comment |

The trigonometric functions enter as a parameter, `Circle.Turn`: two functions on the points of a grid of
which only the angle-addition laws, the unit circle and the quarter turn are assumed. The round trips need
less: each table entry and its mirror image on the unit circle.

## Model

| member | source | states |
|---|---|---|
| `BitReversal.RevReversesDigits` | genlib/FFTReal.cpp:500-523 | what the table holds: digit k of entry i is digit b-1-k of i |
| `BitReversal.RevIsInvolution` | genlib/FFTReal.cpp:500-523 | reversing twice gives the index back |
| `BitReversal.RevIsBijection` | genlib/FFTReal.cpp:500-523 | the table is one-to-one and onto [0, 2^b) |
| `BitReversal.BitReversedLUT` | genlib/FFTReal.cpp:500-523 | the counting loop fills every entry with the reversal of its index |
| `BitReversal.ReversedIncrement` | genlib/FFTReal.cpp:514-519 | toggling digits from the top until one is set ends, and takes rev(i) to rev(i+1) |
| `BitReversal.NextReversed` | utils/fft.c:22-27 | the differently written subtracting loop also takes rev(i) to rev(i+1), and ends for n >= 2 |
| `BitReversal.CounterStuckForOnePoint` | utils/fft.c:22-26 | for n = 1 that loop's guard still holds after any number of rounds |
| `BitReversal.BitReverseInPlace` | utils/fft.c:14-28 | swapping when i < j leaves, in place, exactly the permutation of FFTReal's table |
| `Circle.LastTerm` | genlib/FFTReal.cpp:62-83 | the sums that stand for the spectrum are what they say: sample j enters with the cosine or sine of a + j w |
| `Circle.Decimate` | genlib/FFTReal.cpp:193-209 | decimation in time: the sums at a frequency and at its mirror image, from the even samples plus or minus the turned sums of the odd ones |
| `Circle.Eighth` | genlib/FFTReal.cpp:48-48 | an eighth of a turn has equal cosine and sine whose square is 1/2, as `_sqrt2_2` must |
| `Butterfly.PartUndoesJoin` | genlib/FFTReal.cpp:187-209 | an inverse butterfly block takes a scaled forward block apart into its inputs, doubled |
| `Butterfly.JoinUndoesPart` | genlib/FFTReal.cpp:325-346 | a forward block joins the scaled outputs of an inverse block into its input, doubled |
| `Transform.UnpassOfPass` | genlib/FFTReal.cpp:309-350 | each inverse pass over the whole buffer undoes the forward pass of its level, up to 2 |
| `Transform.PassOfUnpass` | genlib/FFTReal.cpp:171-213 | and each forward pass undoes the inverse pass, up to 2 |
| `Transform.UnstageOfStage` | genlib/FFTReal.cpp:301-364 | after the inverse passes down to p of a transform, the buffer is the forward buffer after p passes, times 2^(b-p) |
| `Transform.InverseOfTransform` | genlib/FFTReal.cpp:260-272 | the inverse of a scaled transform is the samples times the scale and the length |
| `Transform.ForwardAndBack` | genlib/FFTReal.cpp:260-264 | IFFT(FFT(x)) = x * length(x), for every power-of-two length |
| `Transform.TransformOfInverse` | genlib/FFTReal.cpp:260-264 | and FFT(IFFT(f)) = f * length(f) |
| `RealDft.JoinIsPacked` | genlib/FFTReal.cpp:179-213 | one block turns the packed DFTs of the even and the odd samples into the packed DFT of all |
| `RealDft.PermuteIsBlocks` | genlib/FFTReal.cpp:119-143 | the bit-reversed order read by the first pass is the order repeated decimation leaves |
| `RealDft.PassAdvances` | genlib/FFTReal.cpp:171-221 | pass p takes the DFTs of length 2^p to those of length 2^(p+1) |
| `RealDft.FftIsDft` | genlib/FFTReal.cpp:62-86 | for every n = 2^b the result is the real DFT: cosine sums for 0..n/2, then sine sums for 1..n/2-1 |
| `RealDft.SampledTablesAreUnit` | genlib/FFTReal.cpp:198-199 | sampled tables have each cosine and mirrored sine on the unit circle, as the round trips need |
| `FftPasses.JoinBlock` | genlib/FFTReal.cpp:179-211 | the loop over coefficients from both ends writes exactly one joined block and nothing else |
| `FftPasses.PartBlock` | genlib/FFTReal.cpp:317-348 | the inverse loop writes exactly one parted block and nothing else |
| `FftPasses.ForwardPass` | genlib/FFTReal.cpp:171-213 | the destination buffer is the forward pass of the source buffer |
| `FftPasses.InversePass` | genlib/FFTReal.cpp:309-350 | the destination buffer is the inverse pass of the source buffer |
| `FftPasses.FirstTwoPasses` | genlib/FFTReal.cpp:119-143 | the fused first two passes are the permutation and two general passes |
| `FftPasses.ThirdPass` | genlib/FFTReal.cpp:145-169 | the unrolled third pass is a general pass whose cosine and sine are both `_sqrt2_2` |
| `FftPasses.AntepenultimatePass` | genlib/FFTReal.cpp:366-389 | the unrolled inverse third pass is a general inverse pass |
| `FftPasses.LastTwoPasses` | genlib/FFTReal.cpp:391-426 | the fused last two inverse passes, scattered through the table, are two general ones and the permutation |
| `FFTReal.TrigoLevelsTile` | genlib/FFTReal.h:75-78 | the levels of the packed table start at 0, follow without gap or overlap, and end at its end |
| `FFTReal.TrigoLUT` | genlib/FFTReal.cpp:547-570 | every level holds the cosines of its own angles, later levels leaving earlier ones alone |
| `FFTReal.FFTReal.constructor` | genlib/FFTReal.cpp:43-57 | the tables of all passes are sampled from the given circle |
| `FFTReal.FFTReal.DoFft` | genlib/FFTReal.cpp:86-256 | f becomes the transform of x for every length, the special cases of 4, 2 and 1 points included; x and the tables stay |
| `FFTReal.FFTReal.DoFftGeneral` | genlib/FFTReal.cpp:95-223 | the parity of the pass count makes the alternating buffers end in f |
| `FFTReal.FFTReal.DoIfft` | genlib/FFTReal.cpp:275-460 | x becomes the inverse transform of f, which is never written though its const is cast away |
| `FFTReal.FFTReal.DoIfftGeneral` | genlib/FFTReal.cpp:284-428 | the alternation makes the permuting last pass read the scratch buffer while it writes x |
| `Offt.ReordersInvert` | genlib/Offt.cpp:90-94 | the two orders of a spectrum are related by mutually inverse permutations |
| `Offt.PackScaled` | genlib/Offt.cpp:96-112 | the walk down from both ends writes the scaled, interleaved spectrum for every even length |
| `Offt.Unpack` | genlib/Offt.cpp:123-138 | the walk back writes the de-interleaved spectrum |
| `Offt.Offt.constructor` | genlib/Offt.cpp:12-29 | buffers of the transform's length and an FFTReal of it |
| `Offt.Offt.R2c` | genlib/Offt.cpp:86-114 | buf becomes the interleaved transform of buf, divided by the length |
| `Offt.Offt.C2r` | genlib/Offt.cpp:116-144 | buf becomes the inverse transform of the de-interleaved buf |
| `Offt.R2cIsDft` | genlib/Offt.cpp:86-114 | the values of r2c are those of the DFT over the length, real and imaginary part side by side for each frequency, with that of half the rate second |
| `Offt.ComplexAndBack` | genlib/Offt.cpp:86-144 | r2c then c2r restores the samples exactly |
| `Offt.RealAndBack` | genlib/Offt.cpp:86-144 | c2r then r2c restores the spectrum exactly |
| `PortRing.WrapIsMod` | src/audio/AppleAudioDevice.cpp:239-243 | wrapping by subtraction is the remainder |
| `PortRing.AfterStep` | src/audio/AppleAudioDevice.cpp:200-204 | one step of the wrap-before-use walk reads the slot k frames on, and leaves the location after k + 1 |
| `PortRing.SendIsEnqueue` | src/audio/AppleAudioDevice.cpp:232-255 | without overflow sending appends to every stream's queue, across any wrap; a stream without a channel gets silence |
| `PortRing.GetIsDequeue` | src/audio/AppleAudioDevice.cpp:192-212 | getting hands over the oldest frames and leaves the rest queued; a channel without a stream gets silence |
| `PortRing.NoChannelsKeepsPlaceExactlyWhen` | src/audio/AppleAudioDevice.cpp:175-212 | asked for no channels, the port loses its place unless the next location is a multiple of the buffer length |
| `PortRing.PlayIsDequeue` | src/audio/AppleAudioDevice.cpp:534-555 | without underflow the callback takes the oldest frames off every queue |
| `PortRing.UnderflowIsSilence` | src/audio/AppleAudioDevice.cpp:499-512 | on underflow every stream delivers silence and the fill count ends where it was |
| `PortRing.RecordIsEnqueue` | src/audio/AppleAudioDevice.cpp:329-339 | the hardware's contiguous write through setBufferList appends to every queue |
| `ApplePort.Port.constructor` | src/audio/AppleAudioDevice.cpp:1325-1352 | zeroed streams, both locations 0, the record port counted as full |
| `ApplePort.Port.SendFrames` | src/audio/AppleAudioDevice.cpp:221-262 | on the flat array, the ring's send: no stream writes into another |
| `ApplePort.Port.GetFrames` | src/audio/AppleAudioDevice.cpp:171-219 | on the flat array, the ring's get, with channels beyond the streams zeroed |
| `ApplePort.Port.PlayFrames` | src/audio/AppleAudioDevice.cpp:489-561 | the callback's playback section, underflow included, is the ring's play |
| `ApplePort.Port.RecordFrames` | src/audio/AppleAudioDevice.cpp:425-426 | a hardware write at setBufferList's offsets, and the location's step, are the ring's record |
| `RenderProtocol.StartHolds` | src/audio/AppleAudioDevice.cpp:1325-1362 | the state doSetQueueSize leaves satisfies the invariant |
| `RenderProtocol.StepKeeps` | src/audio/AppleAudioDevice.cpp:349-385 | every step of the thread and both callbacks, in any interleaving, keeps it |
| `RenderProtocol.CountsAlways` | src/audio/AppleAudioDevice.cpp:464-572 | in every reachable state rendered but undelivered slices, tokens, slices under way, posts to come and preroll slices add up to the buffer count (in duplex, plus the lead of input over output); until the first underflow the play port's fill count is those undelivered slices; and no port is copied by two at once |
| `RenderProtocol.InputAlwaysCovers` | src/audio/AppleAudioDevice.cpp:182-183 | the assertion in getFrames cannot fail, in the render thread or in doStart's preroll |
| `RenderProtocol.FillAlways` | src/audio/AppleAudioDevice.cpp:499-512 | on every run, underflows included, the play port's fill count is the undelivered slices and one more for each underflow so far |
| `RenderProtocol.RunBalances` | src/audio/AppleAudioDevice.cpp:480-485 | on every run each callback tried was skipped because of the lock, failed, or went through |
| `RenderProtocol.OverwritesOnRunsExactlyWhen` | src/audio/AppleAudioDevice.cpp:232-255 | on every run, in both modes and after any underflows, a slice about to be sent overwrites undelivered audio if and only if the underflows and, in duplex, the output callbacks skipped beyond the input callbacks skipped, failed or still to come, outnumber the wake-ups left |
| `RenderProtocol.OverwritesExactlyWhen` | src/audio/AppleAudioDevice.cpp:232-255 | the same condition read off a single state before the first underflow |
| `RenderProtocol.NothingOverwrittenInTurn` | src/audio/AppleAudioDevice.cpp:480-485 | in both modes, on every run whose output callback comes first and is never skipped, nothing is overwritten until the first underflow |
| `RenderProtocol.PlaybackOverwrites` | src/audio/AppleAudioDevice.cpp:499-512 | in every playback-only configuration some run overwrites after one underflow |
| `RenderProtocol.DuplexOverwrites` | src/audio/AppleAudioDevice.cpp:480-485 | in every full-duplex configuration some run with the output callback first overwrites without an underflow, one output callback having found the lock held |
| `RenderProtocol.OverrunsExactlyWhen` | src/audio/AppleAudioDevice.cpp:403-426 | a slice about to be recorded covers unread input if and only if the wake-ups still to be served number at least the buffers |
| `RenderProtocol.DuplexOverruns` | src/audio/AppleAudioDevice.cpp:403-426 | in every full-duplex configuration some run with the output callback first gets there, the render thread being late |
| `RenderProtocol.NothingOverwritten` | src/audio/AppleAudioDevice.cpp:221-262 | playback only: on every run until the first underflow nothing undelivered is overwritten |
| `RenderProtocol.HistoryIsEvents` | src/audio/AppleAudioDevice.cpp:349-385 | on every run the slices sent, and then the one still under way, are exactly those that the preroll and the render callback produced, in order; and the slices recorded are exactly those the hardware filled |
| `RenderProtocol.FinishedExactlyWhen` | src/audio/AppleAudioDevice.cpp:372-384 | the render thread has ended if and only if its run callback returned false, and from then on nothing is rendered |
| `RenderProtocol.DeliversWhatWasRendered` | src/audio/AppleAudioDevice.cpp:528-555 | in both modes, on every run until the first underflow or overwriting, each stream's delivered frames, its queue and the slice under way are together exactly the frames that the run's preroll and render events produced, in order |
| `RenderProtocol.PlaybackDeliversWhatWasRendered` | src/audio/AppleAudioDevice.cpp:528-555 | in playback-only mode that holds until the first underflow |
| `RenderProtocol.PullsWhatWasRecorded` | src/audio/AppleAudioDevice.cpp:192-212 | full duplex: until recording laps rendering, the frames read, then the queue, are the initial silence and then the frames the run's hardware callbacks filled, in order |
| `RenderProtocol.LeakedExactlyWhen` | src/audio/AppleAudioDevice.cpp:403-433 | over every run the record lock is left held by an idle input callback if and only if some hardware pull failed on the way |
| `RenderProtocol.DuplexLeaks` | src/audio/AppleAudioDevice.cpp:413-420 | in every full-duplex configuration some run with the output callback first gets there |
| `RenderProtocol.LeakStalls` | src/audio/AppleAudioDevice.cpp:403-420 | from then on, on every continuation, nothing is recorded and at most one more slice is sent |
| `Recirculation.DelayIsExact` | genlib/Odelay.cpp:71-80 | over any run of inputs, call n gives the input of call n-d, or the history from before the run |
| `Recirculation.StoreShifts` | genlib/Odelay.cpp:39-44 | storing at the circular input slot shifts the window of samples by age |
| `Recirculation.CombRecurrence` | genlib/comb.c:3-12 | y[n] = x[n-N] + g y[n-N], after the N samples the buffer started with |
| `Recirculation.CombIsEchoSum` | genlib/comb.c:3-12 | from a cleared buffer the output is the sum over k >= 1 of g^(k-1) x[n-kN] |
| `Recirculation.CombIsBounded` | genlib/comb.c:3-12 | with \|g\| < 1, inputs within M give outputs within M / (1 - \|g\|) |
| `Recirculation.AllpassRecurrence` | genlib/allpass.c:4-13 | y[n] = x[n-N] - g x[n] + g y[n-N], and before that the N samples the buffer started with, times 1 - g^2, less g x[n] |
| `Recirculation.AllpassConservesEnergy` | genlib/allpass.c:4-13 | over every run and from every window, input energy = output energy + (1 - g^2) * energy gained by the window |
| `Recirculation.AllpassNeverAmplifies` | genlib/allpass.c:4-13 | from a cleared buffer and for \|g\| <= 1 output energy never exceeds input energy |
| `Odelay.Odelay.constructor` | genlib/Odelay.cpp:11-18 | a cleared line with the input slot last |
| `Odelay.Odelay.Clear` | genlib/Odelay.cpp:25-30 | every sample of the line, whatever its age, is 0 |
| `Odelay.Odelay.Putsamp` | genlib/Odelay.cpp:39-44 | the samples by age are shifted by one |
| `Odelay.Odelay.Next` | genlib/Odelay.cpp:71-80 | the output is the sample Delay() calls old, and the delay stays, across wraps of both slots |
| `Odelay.Odelay.Setdelay` | genlib/Odelay.cpp:60-69 | the delay becomes floor(lag) inside the line; when it grows, if and only if floor(lag) <= inpoint + length, and then every old sample keeps its age |
| `Odelay.Odelay.Resize` | genlib/Odelay.cpp:104-120 | new length, cleared new part, the move of the tail to the new end from a range it cannot overlap, and the output slot |
| `Odelay.Odelay.Getsamp` | genlib/Odelay.cpp:46-56 | the sample of that lag, counting the newest as 1, also when the line grows for a lag of at most one trip |
| `Odelay.GrowthKeepsAges` | genlib/Odelay.cpp:104-120 | after growth every old sample has its old age, and the ages up to the new lag repeat the newest samples |
| `Odelay.GrownDelay` | genlib/Odelay.cpp:110-118 | the delay growth leaves is short by the old length for each trip beyond the first |
| `Odelay.LongLagMissesDelay` | genlib/Odelay.cpp:104-120 | a line of one sample asked for a delay of two gets a delay of one |
| `Odelay.Odelayi.Setdelay` | genlib/Odelayi.cpp:32-36 | the whole part delays the line and the rest becomes the fraction |
| `Odelay.Odelayi.Next` | genlib/Odelayi.cpp:38-43 | for a delay d >= 1, the point between the samples of d-1 and d calls ago; for a delay of 0, between the oldest sample of the line and the input |
| `Odelay.InterpolationIsConvex` | genlib/Odelayi.cpp:42-42 | the source's expression is the weighted mean of the two samples and never outside them |
| `Odelay.Ocomb.constructor` | genlib/Ocomb.cpp:11-38 | the line is long enough for the loop time, which becomes its delay, and is silent |
| `Odelay.Ocomb.Next` | genlib/Ocomb.cpp:57-62 | the live samples and the last output take one comb step |
| `Odelay.OcombRecurrence` | genlib/Ocomb.cpp:57-62 | y[n] = x[n-L] + g y[n-L-1] |
| `Odelay.Oallpass.constructor` | genlib/Oallpass.cpp:11-38 | as for the comb |
| `Odelay.Oallpass.Next` | genlib/Oallpass.cpp:57-65 | the live samples and the last output take one comb step, and the output is that of the energy law |
| `FlatFilters.Comb` | genlib/comb.c:3-12 | on a section of a flat array: the oldest sample comes out and one recirculation happens |
| `FlatFilters.Allpass` | include/macros.h:15-22 | the same with the allpass output |
| `FlatFilters.RecirculatedIsStep` | include/macros.h:7-13 | a recirculation is a comb step of the section's window, keeps its header valid, and changes nothing outside it |
| `FlatFilters.OthersKept` | genlib/reverb.c:7-20 | running one of six adjoining sections disturbs neither the header nor the samples of another |
| `FlatFilters.Reverb` | genlib/reverb.c:3-21 | the walk over one array is exactly the network of six separate filters |
| `Reverberation.NetworkIsAllpassesOfCombs` | genlib/reverb.c:3-21 | over any run from any state the outputs are the second allpass of a quarter of the first allpass of the pointwise sum of the four combs, each filter run by itself |
| `Reverberation.BusIsEchoes` | genlib/reverb.c:8-16 | from silence what enters the first allpass is the sum of four decaying sums of echoes of the input |
| `Reverberation.SilentUntilFirstEcho` | genlib/reverb.c:8-19 | from silence nothing comes out until the shortest comb has come round |
| `Reverberation.EnergyIsBounded` | genlib/reverb.c:16-19 | from silence, with allpass gains of at most 1, the output energy is at most a sixteenth of that of the sum of the combs |
| `FlatFilters.Combset` | genlib/combset.c:5-16 | one section sized and given its gain, and with init 0 silenced, down to a section of no samples; nothing outside it touched, and otherwise nothing but its length and gain |
| `FlatFilters.Rvbset` | genlib/rvbset.c:11-23 | with init 0 six silent sections back to back, with the gains of their decay times; else the same lengths and gains and every other value as it was |
| `FlatFilters.RvbsetSuitsReverb` | genlib/rvbset.c:11-23 | what rvbset lays out is the layout reverb walks |
| `Reverberation.LaidOutIsSilent` | genlib/rvbset.c:11-23 | so after rvbset with init 0 the laws from silence apply, with loops of the six times in samples |
| `FlatFilters.RetuningKeepsSamples` | genlib/rvbset.c:11-23 | calling it again with init 1 at the same rate changes the six gains and keeps what the six filters hold |
| `FlatFilters.StorageNeeded` | genlib/rvbset.c:5-8 | at most .1583*SR + 21 values are used, whatever the rate |
| `FlatFilters.StorageNoteSufficesExactlyWhen` | genlib/rvbset.c:8-8 | the noted .1583*SR + 18 is enough if and only if rounding the six loop times at that rate drops at least three samples in all |
| `FlatFilters.StorageNoteFallsShort` | genlib/rvbset.c:8-8 | it is not at 44100 |
| `AllPole.AllPoleRecurrence` | genlib/allpole.c:2-10 | over a run, output i is its input plus the sum over t of weight t times the t-th of the npoles outputs before it, oldest first |
| `AllPole.OutputExtends` | genlib/allpole.c:5-6 | one more pole adds the product of its weight and the newest output, starting from the input alone |
| `AllPole.WindowIsHistory` | genlib/allpole.c:5-8 | the window always lists the last npoles outputs |
| `AllPole.WriteSlides` | genlib/allpole.c:7-8 | writing both halves keeps them equal and slides the window that starts at the new index |
| `AllPole.Allpole` | genlib/allpole.c:2-10 | one output, the input plus the weights times the window at jcount, place by place, and the window after it |
| `AllPole.Ballpole` | genlib/ballpole.c:2-16 | a block gives the outputs and the final state of that many single calls |
| `SetLine.Setline` | genlib/setline.c:12-68 | ordered times are always accepted; every slot from the first time's on then holds the value of a segment that covers it, between its two amplitudes, or past the last time repeats its neighbour; earlier slots stay; a last time before the first is refused with nothing written; and ordered times lead to an access out of range if and only if the first time's slot is not in [0, length] or the last time falls on slot 0 |
| `SetLine.DrawSegment` | genlib/setline.c:38-48 | one segment's slots, up to the end of the array |
| `SetLine.SegmentsAreLines` | genlib/setline.c:37-46 | in the array setline leaves of ordered times, a segment's first slot holds its first amplitude, and neighbouring slots of it differ by the difference of its amplitudes over its rounded length |
| `SetLine.ExactRamp` | genlib/setline.c:37-46 | one segment from time 0 fills slot k of n with the first amplitude plus k/n of the way to the second |
| `SetLine.SegmentFits` | genlib/setline.c:28-43 | rounding makes a segment at most one slot longer than its points |
| `SetLine.EndSlots` | genlib/setline.c:25-41 | the last time falls past the array, so that the closing loop never runs, exactly when the first comes no earlier than half a slot before 0; otherwise it leaves one slot |
| `SetLine.FillRest` | genlib/setline.c:49-51 | the closing loop repeats the value before it |
| `SetLine.LongSegment` | genlib/setline.c:33-36 | a segment longer than the array occurs only when a later time goes back |
| `Ooscili.PhaseIsExact` | genlib/Ooscili.cpp:77-82 | after n calls the phase is the first phase plus n increments, modulo the period, in either direction |
| `Ooscili.Ooscili.Next` | genlib/Ooscili.cpp:67-85 | the phase stays in the period, both indices in the table, and no 32-bit operation overflows |
| `Ooscili.BlendIsBetween` | genlib/Ooscili.cpp:74-74 | the output lies between the two table values |
| `Ooscili.BlendIsLinear` | genlib/Ooscili.cpp:73-74 | it starts at the first and rises with the fraction by equal parts of the way to the second |
| `Limiter.TrackedOverBlocks` | src/audio/AudioDeviceImpl.cpp:559-565 | tracking block after block is tracking the whole run |
| `Limiter.PeakIsFirstMaximum` | src/audio/AudioDeviceImpl.cpp:559-565 | the peak is the largest magnitude of the run and its location the first frame that has it |
| `Limiter.Device.LimitFrame` | src/audio/AudioDeviceImpl.cpp:522-594 | every sample is limited, or zeroed exactly when muting is on and an excess reaches the threshold; the peaks are tracked over the limited samples |
| `Limiter.Limited` | src/audio/AudioDeviceImpl.cpp:543-556 | the value in range that is nearest to the sample |
| `Limiter.KeptExactlyWhen` | src/audio/AudioDeviceImpl.h:194-206 | a sample keeps its value if and only if it is in range, or muting is off and the frame is not of unlimited floats for a device with a limited format |
| `Limiter.ClippedFits` | src/audio/AudioDeviceImpl.cpp:676-721 | what limiting leaves fits a short |
| `Limiter.DualSendFrames` | src/audio/DualOutputAudioDevice.cpp:24-35 | a file that needs no limiting gets the samples as they came; one that does gets what the hardware got, in range; the hardware always gets samples in range |
| `Pcm24.SurvivesExactlyWhen` | src/audio/sndlibsupport.c:1165-1171 | a packed sample is recovered if and only if it has 24 bits |
| `Pcm24.BytesInOrder` | src/audio/sndlibsupport.c:1165-1171 | three bytes are read as a two's complement number of 24 bits, most or least significant byte first |
| `Pcm24.FloatSurvivesExactlyWhen` | src/audio/AudioDeviceImpl.cpp:634-668 | a float is recovered as 256x rounded toward zero if and only if -8388609 < 256x < 8388608 |
| `Pcm24.CrossedExactlyWhen` | src/audio/AudioDeviceImpl.cpp:775-781 | read in the other byte order a sample is recovered if and only if its outer bytes agree |
| `Pcm24.FileReadsBack` | src/audio/AudioDeviceImpl.cpp:883-889 | with the converters the device picks, non-interleaved frames always read back, and interleaved ones exactly for such samples |
| `Pcm24.ConvertNFloatToI24Bit` | src/audio/AudioDeviceImpl.cpp:634-668 | the strided walk packs every channel's every sample at its frame and channel, none over another |
| `Pcm24.ConvertIToI24Bit` | src/audio/AudioDeviceImpl.cpp:602-632 | every interleaved sample is packed in its place |
| `Pcm24.Findings.constructor` | src/audio/sndlibsupport.c:1101-1107 | nothing found yet on any channel |
| `Pcm24.Findings.FindPeak` | src/audio/sndlibsupport.c:1161-1204 | each channel's peak, location and three sums are those of its decoded samples, the channels kept apart |
| `Pcm24.Findings.Denormalize` | src/audio/sndlibsupport.c:1240-1244 | every channel's sums are scaled back once |
| `Pcm24.Findings.Find` | src/audio/sndlibsupport.c:1101-1244 | the whole function: each channel's peak, location and averages are those of the frames read, which are whole buffers until the window is covered or the file ends |
| `Averages.SummedOverBlocks` | src/audio/sndlibsupport.c:1128-1139 | summing buffer after buffer is summing all that was read |
| `Averages.FramesReadAre` | src/audio/sndlibsupport.c:1128-1138 | the reading loop reads the window rounded up to whole buffers, or to the end of the file |
| `Averages.FramesReadExactlyWhen` | src/audio/sndlibsupport.c:1128-1138 | that is no more than was asked for if and only if the window ends where a buffer does or not before the file, and just as much if and only if it is also all there |
| `Averages.PeakIsOfWindowExactlyWhen` | src/audio/sndlibsupport.c:1042-1045 | the peak is that of the window, whatever the samples, if and only if the window ends where a buffer does or not before the file |
| `Averages.ResultsAre` | src/audio/sndlibsupport.c:1197-1244 | the averages are the totals over the frames read, divided by the frames asked for |
| `Averages.AveragesAreMeansExactlyWhen` | src/audio/sndlibsupport.c:1240-1244 | they are the means of the magnitudes, of the samples and, under the root, of the squares, whatever the samples, if and only if the window is all there and ends where a buffer or the file does |
| `Averages.OffsetWithinAverage` | src/audio/sndlibsupport.c:1193-1244 | the offset never exceeds the average, whatever the window |
| `Averages.BoundedExactlyWhen` | src/audio/sndlibsupport.c:1240-1244 | average within peak and offset within root mean square, whatever the samples, if and only if no more is read than was asked for |
| `Averages.AverageWithinPeak` | src/audio/sndlibsupport.c:1193-1244 | then the average never exceeds the peak |
| `Averages.OffsetWithinRms` | src/audio/sndlibsupport.c:1193-1244 | then the offset never exceeds the root mean square, for any root that obeys the law of the square root |
| `Averages.TwiceThePeak` | src/audio/sndlibsupport.c:1128-1244 | a window of one frame before a second of the same level gives an average and an offset of twice the peak |
| `Pcm24.ReadsWhatWasWritten` | src/audio/sndlibsupport.c:1161-1204 | of packed, limited frames the unpacker sees each sample, at its frame and channel, rounded toward zero to a 256th |
| `PeakStats.SearchEndsExactlyWhen` | src/audio/sndlibsupport.c:573-585 | the backward search ends if and only if the last bracket is missing, starts the tag or starts the string |
| `PeakStats.BracketInComment` | src/audio/sndlibsupport.c:573-585 | it does not on a comment with a bracket in its middle |
| `PeakStats.SFComment.FindTag` | src/audio/sndlibsupport.c:573-585 | when it ends, it has found the tag at the last bracket, or there is none there |
| `PeakStats.SFComment.FormatRawComment` | src/audio/sndlibsupport.c:726-768 | the comment, a newline between, and the statistics, or an error when these are too long |
| `PeakStats.SFComment.ReadChannels` | src/audio/sndlibsupport.c:611-651 | the loop accepts exactly the channel lists of the grammar and stores what they say |
| `PeakStats.SFComment.GetComment` | src/audio/sndlibsupport.c:546-690 | all branches of the reader: no comment, empty mark, no tag, each parse error, truncation, the newline chopped, and the byte of the time that is cleared in its place when there is no comment |
| `PeakStats.NatOfDec` | src/audio/sndlibsupport.c:741-746 | a printed integer converts back |
| `PeakStats.ReadTaggedIn` | src/audio/sndlibsupport.c:599-670 | printed statistics parse back to the same peaks, locations and time wherever they stand |
| `PeakStats.TagIsLast` | src/audio/sndlibsupport.c:573-585 | the search finds the printed tag even after a comment that holds brackets or the tag itself |
| `PeakStats.ReadsBackExactlyWhen` | src/audio/sndlibsupport.c:726-768 | in either byte order, a printed comment reads back whole, with its statistics and time, if and only if it is not 510 characters long, does not start with the empty-comment mark, and is not empty with a time whose last stored byte is a newline |
| `PeakStats.ReadsBackAs` | src/audio/sndlibsupport.c:665-678 | what is read in every case, the failing ones included |
| `PeakStats.TimesLost` | src/audio/sndlibsupport.c:673-677 | in either byte order there is a time that comes back as 0 |
| `PeakStats.NewlineByteCleared` | src/audio/sndlibsupport.c:673-677 | in either byte order, what is left of a time before an empty comment is what its eight bytes stand for once a newline in the last one is cleared |
| `PeakStats.PlainComment` | src/audio/sndlibsupport.c:565-690 | any text that does not start with the empty-comment mark is read without statistics if and only if none that parse follow its last bracket; the comment is then the whole text if and only if that has fewer than 512 characters, and else its first 511 |
| `PeakStats.PlainReadsBackExactlyWhen` | src/audio/sndlibsupport.c:726-768 | a comment printed without statistics reads back if and only if it neither starts with the mark nor ends in statistics |
| `PeakStats.ReadingInRange` | src/audio/sndlibsupport.c:611-670 | every peak, location and time that is read was in the range of its conversion |
| `PeakStats.PrintedExample` | src/audio/sndlibsupport.c:737-765 | the text printed for two channels |

## Where the code and its own text differ

- The comment above the reader calls the tag `[peakamp:` and FFTReal's header comment leaves the sign of the
  imaginary parts open; the code uses `[maxamp:` and sums with positive sines, and so does the model.
- `genlib/rvbset.c` notes a storage need of .1583*SR + 18; `FlatFilters.StorageNoteSufficesExactlyWhen`.
- The comment above `sndlib_findpeak` says that it looks at the window asked for; it reads whole buffers, and divides by
  the length of the window; `Averages.PeakIsOfWindowExactlyWhen`, `Averages.AveragesAreMeansExactlyWhen`.
- An interleaved frame's 24-bit converters are crossed (src/audio/AudioDeviceImpl.cpp:775-781);
  `Pcm24.FileReadsBack`.

## Left out

- Rounding of `float` and `double`, denormal offsets, and the values of `cos`, `log`, `pow` and `sqrt`: values are reals, and tables and gains are parameters.
- FFTReal.FFTReal.DoFft: requires that f, x and the scratch buffer are different arrays, as they are in Offt, and so does `DoIfft`.
- Offt.PackScaled: does not cover length 1, for which the source writes before its buffer.
- BitReversal.BitReverseInPlace: does not cover n = 1, where the source does not end; the butterflies of `utils/fft.c` are left out.
- BitReversal.ReversedIncrement: models `^=` of a single bit as adding or subtracting it.
- RenderProtocol.NothingOverwritten: covers a first run in playback-only mode, until the first underflow; a stop and restart is left out.
- RenderProtocol.DeliversWhatWasRendered: callbacks and slices have the size of one device buffer, as the queue setup arranges; nothing is said of the frames after an underflow or an overwriting.
- RenderProtocol.LeakStalls: is about full duplex; record-only mode and the inline rendering of the iOS build are left out, as are priorities and the stop callback.
- ApplePort.Port.RecordFrames: requires the slice to lie inside the buffer, as device-sized slices do; the hardware's write is one assignment per stream.
- Odelay.Odelay.Setdelay: requires a lag that is not negative, and takes as a parameter whether memory was found.
- Odelay.Odelay.Getsamp: its lag of 0 reads the oldest sample; `delay()`, `fill` and Odelayi's `getsamp` are left out.
- Odelay.Ocomb.Next: models the call without a delay argument; a line handed in by the caller is left out.
- FlatFilters.Combset: requires an array that holds the section, which the source does not check; `comb` and `allpass` on a section without samples are left out, as they use a value beyond it.
- SetLine.Setline: leaves out lists whose first and last times are equal, for which the source divides by zero. Times out of order may be drawn, when the array is full before they go back, or refused, or lead out of range before they do.
- Ooscili.Ooscili.Next: `setPhaseRadians`, `next(nsample)` and the table's own construction are left out.
- Limiter.Device.LimitFrame: the frame is a two-dimensional array, so the interleaved and the separate layouts are one; the count of clipped samples and its report are left out.
- Limiter.DualSendFrames: the formats the two devices are opened with, and whether the first device took all frames, are parameters.
- Pcm24.Findings.Find: models the loops over 24-bit samples of a file of whole frames whose reads are short only at its end; the float and 16-bit loops, errors of reading, and the copy to an output file are left out.
- PeakStats.SFComment.GetComment: requires that the tag search ends; text after a terminator in the field is not modelled; a long has 64 bits, so that the comment follows the time without a gap.
- PeakStats.ReadsBackExactlyWhen: peaks are decimal numerals, so hexadecimal, infinite and not-a-number forms of `strtod` are left out; which numerals overflow is a parameter; the header's own layout on disk is not part of this model.
- Device drivers, CoreAudio property calls, queue-size negotiation, FFTW, the Minc, Python and Perl front ends, OSC and the instruments.
