# Probe synchronisation and ephys file naming, modelled in Dafny

This project models two parts of the IBL ephys pipeline and proves properties of them.

**Probe synchronisation** (`ibllib/ephys/sync_probes.py`). Each Neuropixels probe, and the
nidq unit on 3B rigs, records sync fronts on its own clock. The pipeline turns these
fronts into a per-probe control-point table that maps probe time onto the session's
reference time. It checks each table against the fronts within a tolerance in samples and
writes two files per probe: the table itself, and a "timestamps" copy whose first column
is scaled by the sampling rate. `apply_sync` later interpolates arbitrary times through a
table, in either direction.

- version3A picks the frame2ttl channel, falling back to right_camera. It truncates every
  probe's fronts to the shortest stream, takes the probe with most sync events as
  reference, and fits every other probe against it.
- version3B removes the nidq unit from the probe list and fits every probe's imec_sync
  fronts against the nidq's.

**Naming and path logic** (`ibllib/pipes/misc.py`):

- the SpikeGLX-to-Alyx file rename `get_new_filename`;
- the prompt construction and answer validation of `cli_ask_options`;
- the listing comparison of `check_transfer`;
- the session-path rewrite of `rename_session`, and the remote session path built in the
  transfer loop.

Modules:

- `Wrappers`: `Option` and `Result`.
- `Interp1d`: `scipy.interpolate.interp1d(..., fill_value='extrapolate')` on strictly
  increasing abscissas. It finds the segment with a `searchsorted`, clipped to the first and
  last segments, so points outside the table are extrapolated along the outermost
  segments. Times are exact reals.
- `SyncProbes`: `apply_sync`, `sync_probe_front_times`, the padding arithmetic and
  `_save_timestamps_npy`. The least-squares fit and the low-pass-smoothed residual are
  the opaque functions of a `Numerics` value.
- `SyncSessions`: `get_sync_fronts`, the channel choice, truncation, reference choice, and
  the per-probe loops of `version3A` and `version3B`.
  - A session is modelled as a `Run`: the verdict or the error raised, plus the list of
    tables written before it. This list is what the files on disk hold when an error
    aborts the loop half way.
  - Each method is proved equal to a specification function. The lemmas about that
    function state what is written and when the verdict holds.
- `Strings`: Python's `p in s` and `sep.join(xs)`, with the lemmas that decide containment
  on names built from dot-separated fields.
- `Misc`: the `ibllib/pipes/misc.py` operations. `get_new_filename`, `cli_ask_options` and
  `check_transfer` are methods, each proved against a specification function. Input lines
  for the prompts are a parameter: each `input()` call consumes one line, and running out
  of lines stands for end of input.

Two places where the code differs from its own docstrings or comments. The model follows
the code in both:

- `version3A` reads the sampling rate of the **reference** probe (`sync_probes.py:97`). It
  uses that rate for every probe's tolerance check and timestamps table, although the
  docstring of `sync_probe_front_times` calls `sr` the rate of the probe being
  synchronised.
- `get_new_filename` has the comment `# gt = '_g0_t0' or 'error`, which suggests a single
  tag. A name can hold several tags, and the nested loops overwrite `gt` on every match,
  so the code keeps the **last** `_g<g>_t<t>` in g-major, t-minor order. Its
  `for ... else` branch always runs, because the loops contain no `break`.

## Model

| member | source | states |
|---|---|---|
| Interp1d.Line | ibllib/ephys/sync_probes.py:202 | the segment line through two points with distinct abscissas takes the first point's ordinate at its abscissa; LineAtEnds states both ends |
| Interp1d.Interp | ibllib/ephys/sync_probes.py:202 | `interp1d(..., fill_value='extrapolate')` evaluated at v is the line of one of the table's segments at v; which segment is stated by Segment, SegmentUnique and the lemmas below |
| Interp1d.Swap | ibllib/ephys/sync_probes.py:30-31 | the backward table has each point's abscissa and ordinate exchanged, point by point |
| Interp1d.SearchSorted | ibllib/ephys/sync_probes.py:202 | the returned index is the first from `from` whose abscissa is at least the queried value: every earlier abscissa is below it |
| Interp1d.Segment | ibllib/ephys/sync_probes.py:202 | the interpolation segment k lies in [1, n-1]; the value is above the left knot unless k is the first segment, and at most the right knot unless k is the last |
| Interp1d.SegmentUnique | ibllib/ephys/sync_probes.py:202 | any segment satisfying those bracketing conditions is the one chosen, so the choice is unique |
| Interp1d.SearchTransfer | ibllib/ephys/sync_probes.py:202 | two tables that answer every comparison with the query alike lead searchsorted to the same index |
| Interp1d.SegmentTransfer | ibllib/ephys/sync_probes.py:202 | two increasing tables that answer every comparison with the query alike use the same segment |
| Interp1d.InterpAll | ibllib/ephys/sync_probes.py:32 | evaluating at a vector of times gives as many results, the i-th being the interpolant at the i-th time |
| Interp1d.LineAtEnds | ibllib/ephys/sync_probes.py:202 | the line through two points passes through both of them |
| Interp1d.InterpAtKnot | ibllib/ephys/sync_probes.py:202 | at every control-point abscissa the interpolant is exactly that point's ordinate |
| Interp1d.ExtrapolateLow | ibllib/ephys/sync_probes.py:27-28 | at or left of the first knot the value lies on the line through the first two points (extrapolation, not clamping) |
| Interp1d.ExtrapolateHigh | ibllib/ephys/sync_probes.py:27-28 | at or right of the last knot the value lies on the line through the last two points |
| Interp1d.TwoPointIsLine | ibllib/ephys/sync_probes.py:196-202 | a two-point table interpolates as the single line through its points, everywhere |
| Interp1d.KnotRoundTrip | ibllib/ephys/sync_probes.py:26-31 | when both coordinates increase, interpolating backward the forward image of a knot returns the knot's abscissa |
| Interp1d.LineMonotone | ibllib/ephys/sync_probes.py:202 | a segment with non-decreasing ordinates maps ordered inputs to ordered outputs |
| Interp1d.InterpMonotone | ibllib/ephys/sync_probes.py:202 | a table with non-decreasing ordinates gives a monotone interpolant, extrapolation included |
| SyncProbes.ApplySync | ibllib/ephys/sync_probes.py:17-32 | fails exactly when the table has fewer than two points, as interp1d does; otherwise returns one value per input time, the i-th being the interpolant of the table (forward) or of the swapped table (backward) at the i-th time |
| SyncProbes.ApplySyncAtKnots | ibllib/ephys/sync_probes.py:26-31 | forward maps each knot's abscissa to its ordinate, backward maps the ordinate back, and forward-then-backward is the identity at the knots |
| SyncProbes.ApplySyncExtrapolates | ibllib/ephys/sync_probes.py:27-28 | forward values outside the outermost knots lie on the line through the two nearest end points |
| SyncProbes.CeilNat | ibllib/ephys/sync_probes.py:172-183 | the length of an `np.arange`: 0 for a non-positive span, otherwise the least whole number at least the span |
| SyncProbes.Grid | ibllib/ephys/sync_probes.py:183 | the smoothed-mode abscissas are 0, 20, 40, ..., all strictly below the stop value, and the next multiple of 20 is not |
| SyncProbes.Pow2 | ibllib/ephys/sync_probes.py:177 | every power of two is at least 1 |
| SyncProbes.CeilLog2 | ibllib/ephys/sync_probes.py:177 | `ceil(log2(n))` is the least k with 2^k >= n |
| SyncProbes.Pow2Monotone | ibllib/ephys/sync_probes.py:177 | powers of two grow with the exponent |
| SyncProbes.PowersBelowAreSmaller | ibllib/ephys/sync_probes.py:177 | the least exponent reaching n gives the smallest power of two that is at least n |
| SyncProbes.PaddingFor | ibllib/ephys/sync_probes.py:176-178 | size plus left and right pads is the smallest power of two at least size + 18000; the left pad equals the right pad or exceeds it by one; each pad is at least 9000 |
| SyncProbes.UpsampledSize | ibllib/ephys/sync_probes.py:172 | the length of `np.arange(tref[0], tref[-1], 1/300)` is zero exactly when the last reference time is not after the first |
| SyncProbes.Max | ibllib/ephys/sync_probes.py:183 | `np.max` is an element of the vector and bounds every element |
| SyncProbes.ControlPoints | ibllib/ephys/sync_probes.py:161-196 | the control points have strictly increasing abscissas, in both modes |
| SyncProbes.ExceedsTolerance | ibllib/ephys/sync_probes.py:203 | `np.any(abs((tref - fcn(t)) * sr) > tol)`: some matched pair misses the interpolant by more than tol samples, which needs at least one pair |
| SyncProbes.WithinTolerance | ibllib/ephys/sync_probes.py:203-205 | every matched pair is within tol samples, exactly when ExceedsTolerance is false |
| SyncProbes.SyncProbeFrontTimes | ibllib/ephys/sync_probes.py:146-207 | empty fronts fail; linear mode always succeeds; in smoothed mode an empty `np.arange` upsampling (last reference time not after the first) fails the median padding, and otherwise the call succeeds iff max(tref) > 0; on success the points are the control points, whatever the verdict, and the verdict holds iff every matched pair is within tol samples of the interpolant |
| SyncProbes.FitThroughUnitPoints | ibllib/ephys/sync_probes.py:196-202 | the line through the fit evaluated at 0 and 1 is the fitted line itself |
| SyncProbes.LinearModeIsFit | ibllib/ephys/sync_probes.py:161-202 | in linear mode the points are [0, intercept] and [1, slope + intercept], and the interpolant equals the fitted line at every time |
| SyncProbes.SmoothedKnot | ibllib/ephys/sync_probes.py:183-184 | the k-th smoothed control point is (20k, fit(20k) + residual(20k)) |
| SyncProbes.SmoothedPointAt | ibllib/ephys/sync_probes.py:183-202 | at the k-th smoothed control point, at 20k s, the interpolant equals the fitted line plus the smoothed residual |
| SyncProbes.SmoothedModeAtGrid | ibllib/ephys/sync_probes.py:183-202 | in smoothed mode the k-th point is at 20k s, and the interpolant there is the fitted line plus the smoothed residual |
| SyncProbes.SaveTimestamps | ibllib/ephys/sync_probes.py:215-225 | the sync table is persisted unchanged; the timestamps table has the same rows, column 0 multiplied by sr and column 1 unchanged |
| SyncProbes.StampsAt | ibllib/ephys/sync_probes.py:223-224 | row k of the timestamps table is row k of the sync table with its first coordinate scaled by sr |
| SyncProbes.StampsCompare | ibllib/ephys/sync_probes.py:223-224 | a sample index u·sr lies at or below a row of the timestamps table iff u lies at or below that row of the sync table |
| SyncProbes.StampsAscending | ibllib/ephys/sync_probes.py:223-224 | for a positive rate, scaling keeps the abscissas strictly increasing |
| SyncProbes.LineScaled | ibllib/ephys/sync_probes.py:223-224 | a segment with scaled abscissas maps the scaled time to the same value as the original segment |
| SyncProbes.ScaledSlope | ibllib/ephys/sync_probes.py:223-224 | scaling both the run of a segment and the offset along it by the same positive rate leaves slope times offset unchanged |
| SyncProbes.ScaleOrder | ibllib/ephys/sync_probes.py:223-224 | multiplying by a positive rate preserves strict and non-strict order |
| SyncProbes.SegmentScaled | ibllib/ephys/sync_probes.py:223-224 | the timestamps table picks, for a sample index, the same segment the sync table picks for the corresponding time |
| SyncProbes.LineOfStamps | ibllib/ephys/sync_probes.py:223-224 | on a given segment, the timestamps table at sample index u*sr gives what the sync table gives at time u |
| SyncProbes.StampsSameMap | ibllib/ephys/sync_probes.py:223-224 | interpolating the timestamps table at sample index u*sr gives the same reference time as interpolating the sync table at time u |
| SyncSessions.Where | ibllib/ephys/sync_probes.py:79 | the indices where a boolean mask is set, from a start index on: strictly increasing, each set, and every set index among them |
| SyncSessions.Pick | ibllib/ephys/sync_probes.py:79 | fancy indexing: one element per index, the j-th being the element at the j-th index |
| SyncSessions.PickWhere | ibllib/ephys/sync_probes.py:79 | boolean-mask indexing keeps every element whose mask entry is set, and nothing else |
| SyncSessions.WhereEmpty | ibllib/ephys/sync_probes.py:79 | no index is selected iff the mask is nowhere set |
| SyncSessions.OnChannel | ibllib/ephys/sync_probes.py:79 | `np.in1d(channels, [ch])`: one entry per event, set iff the event is on ch |
| SyncSessions.FrontTimes | ibllib/ephys/sync_probes.py:74-79 | the fronts on a channel are at most all events, and empty iff the channel never occurs |
| SyncSessions.FrontTimesInOrder | ibllib/ephys/sync_probes.py:79 | the fronts are the times of the events at strictly increasing indices, each on the channel, and every event on the channel has its index among them: all of them, each once, in recording order |
| SyncSessions.SyncFrontsOf | ibllib/ephys/sync_probes.py:65-80 | nothing is returned iff some probe lacks the label or has no front on it; otherwise, per probe, its fronts on the label and the count of all its sync events |
| SyncSessions.NoFronts | ibllib/ephys/sync_probes.py:72-77 | one probe without the label or without fronts on it makes get_sync_fronts return nothing |
| SyncSessions.AllFronts | ibllib/ephys/sync_probes.py:78-80 | fronts and counts that agree with every probe are exactly what get_sync_fronts returns |
| SyncSessions.GatherNext | ibllib/ephys/sync_probes.py:78-79 | appending the next probe's fronts keeps the gathered list equal, probe by probe, to each probe's fronts |
| SyncSessions.GetSyncFronts | ibllib/ephys/sync_probes.py:65-80 | the loop that fills the count array in place and appends fronts returns exactly what SyncFrontsOf describes |
| SyncSessions.MinFirst | ibllib/ephys/sync_probes.py:85 | the minimum first front time is at most every stream's first time, and equals one of them |
| SyncSessions.LateCameras | ibllib/ephys/sync_probes.py:85 | the earliest first camera front is after 0.2 s iff every probe's first camera front is |
| SyncSessions.SelectFronts | ibllib/ephys/sync_probes.py:81-86 | frame2ttl is used when every probe has fronts on it; otherwise right_camera, failing when some probe has no camera fronts or some probe's first camera front is at or before 0.2 s |
| SyncSessions.MinLength | ibllib/ephys/sync_probes.py:88-91 | the common length is at most every stream's length, and equals one of them |
| SyncSessions.Column | ibllib/ephys/sync_probes.py:104 | `timestamps[:, i]` has one entry per row, the r-th being row r's entry i |
| SyncSessions.Truncate | ibllib/ephys/sync_probes.py:88-91 | the matrix has min(nsyncs) rows and one column per probe, and column i is the prefix of probe i's stream |
| SyncSessions.ArgMax | ibllib/ephys/sync_probes.py:94 | the reference index has the maximum count, and every earlier index has a strictly smaller count, so it is the first maximum |
| SyncSessions.RunUpTo | ibllib/ephys/sync_probes.py:98-108 | the run over the first k probes writes at most k tables, and exactly k when it completes; its other properties are in RunStaysFailed, RunSucceeds and RunFails |
| SyncSessions.RunStaysFailed | ibllib/ephys/sync_probes.py:100-108 | once a probe has raised, the later probes change neither the error nor the files written |
| SyncSessions.RunSucceeds | ibllib/ephys/sync_probes.py:98-108 | a run completes iff every probe's fit succeeds; its verdict is then the AND of all probe verdicts and probe i's tables are the i-th written |
| SyncSessions.RunFails | ibllib/ephys/sync_probes.py:100-108 | the first failing probe's error is the outcome, and exactly the tables of the probes before it are written |
| SyncSessions.WriteTables | ibllib/ephys/sync_probes.py:98-108 | the loop accumulating `qc_all &= qc` and saving each table is the run RunUpTo describes |
| SyncSessions.Fits3A | ibllib/ephys/sync_probes.py:100-106 | there is one fit per probe |
| SyncSessions.Fits3AAt | ibllib/ephys/sync_probes.py:104-106 | a successful non-reference fit has at least two increasing control points, and its verdict is the tolerance test against the reference column |
| SyncSessions.Fits3AAll | ibllib/ephys/sync_probes.py:104-106 | the same holds at once for every successful non-reference fit |
| SyncSessions.VerdictSkipsReference | ibllib/ephys/sync_probes.py:98-108 | when the reference probe passes by construction, a completed run writes each probe's points as its sync table and its verdict is the AND over the other probes |
| SyncSessions.Fits3AVerdict | ibllib/ephys/sync_probes.py:98-108 | a completed loop over the truncated matrix returns True iff every non-reference column is within tolerance; the reference identity never lowers the verdict |
| SyncSessions.Session3A | ibllib/ephys/sync_probes.py:88-108 | a version3A session on chosen fronts writes at most one table pair per probe; its contents and verdict are stated by Session3ATables, Session3AVerdict and Session3AAbortsSmoothed |
| SyncSessions.Version3ASpec | ibllib/ephys/sync_probes.py:50-108 | one probe or none gives True with nothing written; with two or more, a failed channel choice is the outcome with nothing written; never more table pairs than probes |
| SyncSessions.Version3A | ibllib/ephys/sync_probes.py:50-108 | one probe or none returns True and writes nothing; otherwise the method is the specification: fronts selection, truncation, reference, per-probe fits and writes |
| SyncSessions.Version3AIsSession | ibllib/ephys/sync_probes.py:81-108 | with two probes or more and chosen fronts, every stream is non-empty and version3A is the session built on the chosen fronts |
| SyncSessions.Session3ATables | ibllib/ephys/sync_probes.py:94-107 | a successful session writes one pair per probe, in order: the identity [[0,0],[1,1]] for the reference probe, the control points fitted against the reference column for every other probe, and timestamps scaled by the reference sampling rate |
| SyncSessions.Session3AVerdict | ibllib/ephys/sync_probes.py:98-108 | the result is True iff every non-reference probe's table is within tolerance of its column against the reference column |
| SyncSessions.Session3AAbortsSmoothed | ibllib/ephys/sync_probes.py:100-107 | in smoothed mode a reference column whose last time is not after its first (empty upsampling, the median padding raises) or that is never above 0 s (a single control point, interp1d raises) aborts at the first non-reference probe with that error; only the reference identity table is written, and only if it came first |
| SyncSessions.Session3ALinearCompletes | ibllib/ephys/sync_probes.py:100-108 | in linear mode a session on chosen fronts always completes |
| SyncSessions.Flagged | ibllib/ephys/sync_probes.py:124-125 | one entry per recording, set iff its nidq flag is the given one |
| SyncSessions.Select | ibllib/ephys/sync_probes.py:124-125 | the filtered list is the recordings at the strictly increasing indices whose nidq flag is the given one, and every such recording's index is among them: each such recording once per occurrence, in order, nothing else; it keeps their well-formedness |
| SyncSessions.ProbeFit3B | ibllib/ephys/sync_probes.py:136-139 | a probe without imec_sync fails with the missing label; a probe whose front count differs from the nidq's fails the count assertion |
| SyncSessions.Fits3B | ibllib/ephys/sync_probes.py:135-141 | there is one fit per probe |
| SyncSessions.Session3B | ibllib/ephys/sync_probes.py:134-143 | a version3B session writes at most one table pair per probe; its contents and verdict are stated by Session3BTables, Session3BVerdict and Session3BAborts |
| SyncSessions.Version3BSpec | ibllib/ephys/sync_probes.py:111-143 | one probe or none left after removing nidq units gives True with nothing written; with two or more, a nidq count other than one fails with nothing written; never more table pairs than probes |
| SyncSessions.Version3B | ibllib/ephys/sync_probes.py:111-143 | one probe or none after removing nidq units returns True and writes nothing; otherwise a nidq count other than one, then a nidq without imec_sync, fail before any write; otherwise the method is the specification |
| SyncSessions.Session3BTables | ibllib/ephys/sync_probes.py:135-142 | a successful session writes, for every probe in order, its control points fitted against the nidq fronts (equal in number), with timestamps scaled by the probe's own sampling rate |
| SyncSessions.Session3BVerdict | ibllib/ephys/sync_probes.py:134-143 | the result is True iff every probe's table is within tolerance of its fronts, at its own sampling rate |
| SyncSessions.Session3BAborts | ibllib/ephys/sync_probes.py:135-142 | the first probe lacking imec_sync or with a different front count reports that error, with exactly the earlier probes' tables written |
| SyncSessions.Session3BAbortsSmoothed | ibllib/ephys/sync_probes.py:134-142 | in smoothed mode nidq fronts whose last time is not after their first make the first probe abort, with its missing label, its count mismatch or otherwise the empty-upsampling error, and nothing is written |
| Strings.Contains | ibllib/pipes/misc.py:315 | Python's `p in s`: a pattern that occurs is no longer than the name, and a prefix always occurs |
| Strings.ContainsAt | ibllib/pipes/misc.py:315 | Python's `p in s` holds iff p occurs at some offset of s |
| Strings.JoinWith | ibllib/pipes/misc.py:328-344 | `sep.join` of one element is that element; of more, the first, the separator and the join of the rest |
| Strings.LeadingDotPattern | ibllib/pipes/misc.py:322-325 | in a dot-led join of dot-free fields, `.w` occurs iff w starts some field |
| Strings.FieldPattern | ibllib/pipes/misc.py:327-341 | in a dot-led join of dot-free fields, `.w.` occurs iff w is a whole field followed by another |
| Misc.Digit | ibllib/pipes/misc.py:315 | the decimal digit of d is the character '0' + d |
| Misc.TagAt | ibllib/pipes/misc.py:315 | the tag of search position 10g + t is `_g<g>_t<t>`, six characters long |
| Misc.TagAtInjective | ibllib/pipes/misc.py:313-316 | different search positions have different tags |
| Misc.StepTag | ibllib/pipes/misc.py:313-316 | the tag at position 10g + t is the one the nested loops build at g, t |
| Misc.LastTagStep | ibllib/pipes/misc.py:315-316 | one more search step replaces the tag found so far iff its own tag occurs in the name |
| Misc.LastTag | ibllib/pipes/misc.py:312-319 | the result is a position below k whose tag occurs, with no later position's tag occurring; none iff no tag below k occurs |
| Misc.FindTag | ibllib/pipes/misc.py:312-316 | the nested for-loops leave in `gt` the tag of the last matching position in g-major, t-minor order |
| Misc.ExtOf | ibllib/pipes/misc.py:322-325 | `bin` iff the name contains `.bin`; `meta` iff it contains `.meta` but not `.bin`; unset otherwise |
| Misc.ProbeOf | ibllib/pipes/misc.py:331-336 | `imec0` beats `imec1`, which beats `imec`; unset when no marker occurs |
| Misc.BandOf | ibllib/pipes/misc.py:339-342 | `ap` beats `lf`; unset when neither occurs |
| Misc.NewFilename | ibllib/pipes/misc.py:301-344 | NotImplementedError is the result iff the tag search finds no tag; its other properties are in NewFilenameTag, NewFilenameNidq, NewFilenameProbe and NewFilenameIdempotent |
| Misc.GetNewFilename | ibllib/pipes/misc.py:301-344 | the method's result, name or raised error, is the specification NewFilename |
| Misc.NewFilenameTag | ibllib/pipes/misc.py:310-344 | NotImplementedError is raised iff no single-digit tag occurs; a result begins with `_spikeglx_ephysData` immediately followed by the last tag found |
| Misc.NewFilenameNidq | ibllib/pipes/misc.py:322-328 | a name containing `.nidq.` maps to exactly root+tag, `nidq` and the extension dot-joined, whatever probe or band markers it has; with no extension the local `ext` is unbound |
| Misc.NewFilenameProbe | ibllib/pipes/misc.py:330-344 | otherwise the result is root+tag, probe, band and extension dot-joined; a missing probe, band or extension raises the unbound-local error for that name, in that order |
| Misc.JoinThree | ibllib/pipes/misc.py:328 | a three-field dot-join is the fields separated by dots |
| Misc.JoinFour | ibllib/pipes/misc.py:344 | a four-field dot-join is the fields separated by dots |
| Misc.OutputTag | ibllib/pipes/misc.py:310-316 | in a produced name, the tag search finds exactly its own tag |
| Misc.RootSkip | ibllib/pipes/misc.py:310-315 | no tag can start inside the root `_spikeglx_ephysData`, so searching root + y is searching y |
| Misc.SkipWord | ibllib/pipes/misc.py:310-315 | an underscore followed by an underscore-free word not starting with `g` contains no place where a `_g` tag can start |
| Misc.TagOnly | ibllib/pipes/misc.py:315 | after a tag, an underscore-free tail holds no tag but that one |
| Misc.OutputLastTag | ibllib/pipes/misc.py:312-319 | the tag search on a produced name returns the tag the name was built with |
| Misc.OutputPatterns | ibllib/pipes/misc.py:322-341 | in a produced name, `.w` occurs iff w starts a field, and `.w.` iff w is a field other than the last |
| Misc.ProducedExt | ibllib/pipes/misc.py:322-325 | a produced name ending in `bin` or `meta` yields that extension again |
| Misc.ExtensionOccurs | ibllib/pipes/misc.py:322-325 | in a produced name, `.bin` (`.meta`) occurs iff `bin` (`meta`) is one of its fields |
| Misc.ProducedMarker | ibllib/pipes/misc.py:327-341 | in a produced name, a dotted marker occurs iff it is a field other than the last |
| Misc.IdempotentNidq | ibllib/pipes/misc.py:327-328 | renaming a produced nidq name returns it unchanged |
| Misc.ProducedProbe | ibllib/pipes/misc.py:331-336 | a produced probe name yields its own probe field again |
| Misc.ProducedBand | ibllib/pipes/misc.py:339-342 | a produced probe name yields its own band field again |
| Misc.IdempotentProbe | ibllib/pipes/misc.py:331-344 | renaming a produced probe name returns it unchanged |
| Misc.NewFilenameIdempotent | ibllib/pipes/misc.py:301-344 | applying get_new_filename to its own output returns that output unchanged |
| Misc.FieldChars | ibllib/pipes/misc.py:328-344 | the fields of a produced name contain neither dots nor underscores |
| Misc.ExtensionPrefix | ibllib/pipes/misc.py:322-325 | among the fields of a produced name, only `bin` itself starts with `bin`, and only `meta` with `meta` |
| Misc.HeadHasNoDot | ibllib/pipes/misc.py:328-344 | root+tag contains no dot |
| Misc.NormIndex | ibllib/pipes/misc.py:20-22 | a Python list index is valid iff -n <= idx < n, and then denotes idx or idx + n |
| Misc.Marked | ibllib/pipes/misc.py:18-20 | only the default entry is wrapped in brackets; every other entry is unchanged |
| Misc.PromptText | ibllib/pipes/misc.py:17-21 | an out-of-range default raises IndexError; otherwise the prompt is the entries, with the default bracketed, joined by a space-padded vertical bar inside ` (` ... `)> ` |
| Misc.BuildPrompt | ibllib/pipes/misc.py:18-21 | overwriting the default entry of the parsed list in place gives exactly PromptText |
| Misc.Resolve | ibllib/pipes/misc.py:22 | `input(...) or str(options[default_idx])`: a non-empty line is the answer itself; an empty line gives no answer without a default (Ask turns that into the TypeError of `options[None]`) and one of the options with a default |
| Misc.Ask | ibllib/pipes/misc.py:17-25 | an accepted answer is one of the options; IndexError is raised before any prompt iff the default is out of range; otherwise the prompt is shown at least once and at most once per line plus once |
| Misc.AskOptions | ibllib/pipes/misc.py:17-25 | the recursive method returns Ask's outcome and shows the prompt text once per `input()` call, Ask's count of times |
| Misc.AskFirstAcceptable | ibllib/pipes/misc.py:22-25 | an accepted answer is the first line that is an option, or empty with a default; every earlier line was non-empty and not an option |
| Misc.AskEndOfInput | ibllib/pipes/misc.py:22-24 | input runs out iff every line is non-empty and not an option; the prompt is then shown once per line plus once |
| Misc.AskDefault | ibllib/pipes/misc.py:22 | an empty first line returns the default option after one prompt |
| Misc.AskNoDefault | ibllib/pipes/misc.py:22 | without a default, the first empty line raises TypeError, unless an option came before it |
| Misc.CheckTransfer | ibllib/pipes/misc.py:36-45 | the check passes iff both listings have the same length and agree pairwise on name and size |
| Misc.TransferCheckIsEquality | ibllib/pipes/misc.py:41-44 | agreeing pairwise on name and size with equal lengths is the same as having equal listings |
| Misc.RenamedPath | ibllib/pipes/misc.py:52-61 | fewer than three parts raises before any prompt; fewer than three lines means end of input; otherwise every part but the last three is kept, then mouse, date and number, each empty answer keeping the current part |
| Misc.RenameKeepsPath | ibllib/pipes/misc.py:55-61 | three empty answers give back the original path |
| Misc.RemoteSessionPath | ibllib/pipes/misc.py:186-194 | the remote path ends with the session's last three parts (all of them when it has fewer); when the first of them is an anchor (starts with `/`), pathlib's `/` drops the remote root and the path is just those parts, otherwise it is the remote root followed by them |
| Misc.RemoteOfRenamed | ibllib/pipes/misc.py:192-194 | the remote path of a renamed session is the remote root (dropped when the new mouse part is an anchor) followed by the new mouse, date and number |

## Left out

- File loads and saves and metadata reads are abstract data sources:
  - `np.load`/`np.save`, `alf.io.load_object`, `get_ibl_sync_map`, `spikeglx.glob_ephys_files` and `_get_sr` become the fields of `EphysFile` (sync events, sync map, sampling rate, nidq flag);
  - the writes are the `written` list of a `Run`;
  - file paths and the `.ap.` to `.sync.`/`.timestamps.` name rewrites are not modelled.
- The `sync` dispatcher, which chooses version3A or version3B from the folder's Neuropixels version, is not modelled: that choice is a metadata read.
- `_get_sync_fronts` of the FPGA extractor is modelled as a channel filter on the sync events (`FrontTimes`). Its polarity handling is not part of this model.
- The least-squares fit, the median padding, the `np.interp` upsampling and `dsp.lp` are floating-point signal processing. They are opaque functions (`Numerics.polyfit`, `Numerics.lowpass`). The padding arithmetic that feeds them is modelled.
- Matplotlib display branches and logging calls are left out (they do not affect results).
- SyncProbes.ApplySync: requires strictly increasing abscissas (ordinates when backward). scipy sorts an unsorted table first and yields non-finite values on repeated abscissas; neither behaviour is modelled.
- SyncProbes.CeilLog2: exact integer `ceil(log2(n))`. Floating-point rounding of `np.log2` at large sizes is not modelled.
- SyncProbes.UpsampledSize: the length of `np.arange(tref[0], tref[-1], 1/300)` computed exactly. Float rounding of the step count is not modelled.
- SyncSessions.SelectFronts: when right_camera is missing on some probe, the code subscripts `None` (a TypeError); the model names this `NoCameraFronts`.
- SyncSessions.Truncate: the float `nsync` array and numpy's stacking are modelled as sequences of counts and rows.
- Times are exact reals. Float64 rounding in the tolerance test and in the fit is not modelled.
- SyncSessions.Version3B: the nidq's front count is compared with each probe's inside the loop, as the code does. Probes that fail after earlier probes were written leave those files, as modelled by `Run.written`.
- Misc.PromptText: options are taken as strings already, so `str(x)` for non-string options is the identity here.
- Misc.Ask: the Python recursion limit reached after many rejected lines is not modelled; the dialogue runs to the end of the given lines.
- Misc.CheckTransfer: enumerating the files (`rglob`, `is_file`, `stat`) and sorting them are left out. The two sorted listings are inputs, and the raised AssertionError is a `false` result.
- Misc.RemoteSessionPath: paths are sequences of pathlib parts. Only POSIX anchors are modelled, as a part starting with `/`. Windows drive anchors and `Path` normalisation of the parts are not modelled.
- Misc.RenamedPath: the `folders.session_path` lookup, `Path` normalisation of anchors and separators inside answers, the prompt texts of the three questions and the `shutil.move` are left out. The `if session_path is None` branch is not modelled: it is dead code, because `Path(...)` never returns None.
- Misc.GetNewFilename: names whose tag or markers are missing raise the unbound-local error (`UnboundLocal`) of the first unset variable, in the order Python evaluates them.
- In `misc.py`, the interactive transfer loops, `shutil` copies, params JSON, wiring-file and flag-file handling are operational I/O and are not modelled. Only the remote-path construction inside them is.
- `ibllib/ephys/ephysqc.py` and `ibllib/ephys/spikes.py` are not part of this model: they are spectral QC over binary reads and output-format wrappers around `apply_sync`.
