# nmeq — data window, attenuation controller and loader helpers in Dafny

This project models the computational core of *nmeq*, a browser dashboard
for a noise monitor that also drives a graphic equaliser (GEQ) to keep
sound levels under their limits. The model has three parts.

- **The data window** (`NMDataWindow`). It turns the monitor's
  per-second, tab-separated sample lines into samples. It holds the
  samples of a rolling or fixed time window. For every visible band it
  keeps floating 10-second, 5-minute and 1-hour energy sums, and from them
  it derives the mean levels. It classifies each sample of each band with
  a traffic-light colour against the band's 1-hour threshold. Runs of
  equal colour are merged into threshold intervals. The window moves
  forward as samples arrive, and samples that fell out of it are dropped.
  It also keeps the minimum and maximum of each shown field.
- **The attenuation controller** (`Attenuation`). For each configured band
  it compares how fast the 10-second level rises with an allowed slope.
  When the level rises too fast, it lowers the band's GEQ level in 0.5 dB
  or 1 dB steps, down to −12 dB. It eases the band off again by 0.5 dB
  steps once the decrease delay has passed. It asks the device to change
  a band only when the device's level differs from the target.
- **The helpers of the NMEQ component.** These are:
  - the one-decimal text formatting;
  - the hourly blob file names `YYYY/MM/DD/HH.csv`;
  - the loader's walk over the hours of a window;
  - the 2-hour bound on rolling windows;
  - the thresholds handed to a new data window.

JavaScript `Date` arithmetic is modelled by an explicit UTC calendar:
- `Calendar.FromMillis` and `Calendar.ToMillis`;
- `toISOString`;
- the `Date` constructor on ISO text.

String operations are modelled on `seq<char>`:
- `split`, `substring`, `indexOf`;
- global `replace` with a literal pattern;
- `parseFloat` on decimals.

Floating-point energy and dB conversions are kept abstract: they are passed
in as the `Samples.Numerics` functions. Energy sums are exact `real` sums.

Modules, one per file: `Optional`, `Text`, `Numerals`, `Calendar`
(JavaScript runtime behaviour); `Samples`, `Classification`, `Spans`,
`Aggregation`, `Extremes`, `DataWindow` (the data window);
`Attenuation`; `Nmeq`.

## Model

| member | source | states |
|---|---|---|
| Samples.FieldAt | src/components/NMDataWindow.js:80-88 | Reading field `i` of a split line gives a value exactly when the line has more than `i` fields; otherwise it is `undefined`. |
| Samples.BassFields | src/components/NMDataWindow.js:96 | The bass band is computed from exactly the six fields 11 to 16 of the line. These hold the 20 Hz to 63 Hz third octaves; the comment on that line names 31.5 Hz to 100 Hz. |
| Samples.Levels | src/components/NMDataWindow.js:82-88 | The levels map holds exactly the measured labels, and the last label reads the field just after the labels before it (its own position plus two). |
| Samples.LevelsAt | src/components/NMDataWindow.js:82-88 | A measured band label at position `j` that is not repeated later reads field `j+2` of the line (time and receive time come first). |
| Samples.LineEvent | src/components/NMDataWindow.js:79-102 | The sample is at the line's time. Its bands are exactly the labels plus the bass band, and each measured band holds the level the line's fields give it (`Levels`). Every band it holds, the computed bass band included, has as energy the energy of its level. The bass level is computed from fields 11 to 16. |
| Samples.LineEventField | src/components/NMDataWindow.js:82-88 | A measured band whose label is not repeated later holds the level parsed from field `j + 2` of the line, two places after its label's index. |
| Samples.ApplyDataLine | src/components/NMDataWindow.js:105-111 | Exactly one sample is appended after those already held, even when its time does not follow them (that case is only logged). |
| Samples.NonEmpty | src/components/NMDataWindow.js:57 | The filter keeps exactly the non-empty parts, and each kept part comes from the input. |
| Samples.NonEmptyAppend | src/components/NMDataWindow.js:57 | The filter works part by part: filtering a concatenation concatenates the filtered halves. With the membership facts this fixes the kept parts, in input order and with repeats. |
| Samples.DataLines | src/components/NMDataWindow.js:57-59 | The lines are the non-empty parts of the CR LF split, in order. The first of them is dropped exactly when it starts with `I` (the header). Every line is non-empty and holds no CR LF. |
| Samples.SecondFloor | src/components/NMDataWindow.js:164 | The start of a sample's UTC second is at most the sample time and less than a second before it. |
| Samples.LineTimeOf | src/components/NMDataWindow.js:63-65 | A line whose slot time is written as the monitor writes it reads back, through `indexOf("\t")`, `substring` and `new Date(... + ".000Z")`, as that second. |
| Samples.SecondOfTime | src/components/NMDataWindow.js:440 | The first 19 characters of `toISOString`, read back with `.000Z`, give the start of the UTC second. |
| Samples.Cut | src/components/NMDataWindow.js:62-67 | The loop looks at exactly the lines before the first one that ends it. A line ends it only in a fixed window, when its time is valid and after the window end. |
| Samples.Kept | src/components/NMDataWindow.js:62-73 | A line is taken exactly when the loop reaches it and its time is valid and no earlier than the window start. Each taken line comes with its own time, and in a fixed window that time is no later than the end. No line after the loop stops is taken. |
| Samples.KeptAppend | src/components/NMDataWindow.js:62-73 | Lines are taken in chunk order. From a concatenation, the first part's lines are taken, and then the second part's unless the first part ended the loop. |
| Samples.AddDataToEvents | src/components/NMDataWindow.js:56-74 | The samples already collected stay as a prefix. After them comes exactly one sample per taken line, in line order, each the sample its line describes. Each appended sample lies within the window bounds (and before the end only for a fixed window). |
| Samples.Ingest | src/components/NMDataWindow.js:62-73 | Each kept line appends exactly the sample that line describes, in order. |
| Samples.OneEventPerLine | src/components/NMDataWindow.js:56-74 | Each kept line becomes exactly one sample, at the time parsed from that line, in line order. |
| Classification.Threshold | src/components/NMDataWindow.js:124-125 | A band's threshold is the configured one. A missing or zero threshold (both falsy) gives 999. |
| Classification.GetColor | src/components/NMDataWindow.js:123-140 | Each colour holds exactly when its condition holds: black iff the 1 h level exceeds the threshold; red iff not black, the 5 min level exceeds it by 3 dB and the 1 h level is within 3 dB of it; orange iff the 5 min level exceeds it by 3 dB and the 1 h level is not within 3 dB of it; yellow iff neither 1 h nor the +3 dB condition holds but the 5 min level exceeds it; green iff neither level exceeds it. |
| Classification.ColorMonotone | src/components/NMDataWindow.js:123-140 | Higher 5 min and 1 h levels never give a less alarming colour. |
| Classification.Merge | src/components/NMDataWindow.js:314-324 | A sample either extends the last interval (same colour: end moved, the sample's level added to the total) or opens a new one-second interval ending at the sample. Earlier intervals are unchanged, and neighbours keep different colours. |
| Classification.MergeAllRuns | src/components/NMDataWindow.js:314-324 | Starting from no intervals, the intervals' colours are the samples' colours with each run of equal neighbours written once. |
| Classification.Prune | src/components/NMDataWindow.js:382-390 | Pruning as intended drops exactly the leading intervals that ended by the window start and keeps the rest unchanged. |
| Classification.PruneOrdered | src/components/NMDataWindow.js:382-390 | On ordered intervals, every interval kept ends after the window start, and the result stays ordered without equal neighbours. |
| Classification.PruneAsWritten | src/components/NMDataWindow.js:382-385 | The loop as written, whose condition tests `i`: with `i` at or past the list's length nothing is dropped. |
| Classification.PruneAsWrittenAgrees | src/components/NMDataWindow.js:382-390 | When `i` is inside the list and some interval ends after the start, the written loop drops what was intended. |
| Classification.PruneAsWrittenDiffers | src/components/NMDataWindow.js:383 | For one stale interval, the written loop keeps it (`i` past the list) or throws (`i` inside the list), where nothing should remain. |
| Spans.Slide | src/components/NMDataWindow.js:226-280 | A span's oldest sample moves to the first sample within the span length of the current one. Every sample passed over is older than that, and each band's sum loses exactly the energies of the samples that left. |
| Spans.TrackStep | src/components/NMDataWindow.js:226-293 | After the slide and the addition of the current sample's energy, the span covers exactly the samples within its length and its sums are their energy sums. |
| Spans.TrackShift | src/components/NMDataWindow.js:360-368 | Discarding front samples that lie in no span, and shifting the indices by their number, keeps every span's sums right. |
| Spans.SumSplit | src/components/NMDataWindow.js:226-293 | The energy sum over a range is the sum over its two parts, so subtracting the leavers and adding the newcomer keeps the floating sum. |
| Aggregation.Field | src/components/NMDataWindow.js:288 | A sample field is its stored value, or `undefined` when it is missing. |
| Aggregation.BandStepLevels | src/components/NMDataWindow.js:287-324 | A band step writes the 10 s, 5 min and 1 h levels as the dB of the span sums divided by 10, 300 and 3600 seconds. It merges the sample into the band's intervals with the colour of those levels. |
| Aggregation.BandStepAdded | src/components/NMDataWindow.js:291-293 | One band step adds the sample's energy to all three sums of its band and changes no other band's sums. |
| Aggregation.BandsStep | src/components/NMDataWindow.js:287-326 | After the loop over the visible bands, each listed band (if none is listed twice) took the sample once, and every band not listed is untouched. |
| Aggregation.BandsStepKeeps | src/components/NMDataWindow.js:287-326 | The steps of the visible bands never write a field of another band. |
| Aggregation.BandsStepShows | src/components/NMDataWindow.js:287-326 | After the loop, each visible band's fields show the levels of its current sums, whatever the other bands wrote. |
| Aggregation.AggregateOne | src/components/NMDataWindow.js:220-333 | Aggregating a sample advances the cursor by one and rewrites only that sample's fields: times, energies and every other sample are unchanged. |
| Aggregation.AggregateOneSums | src/components/NMDataWindow.js:226-293 | The sums of each visible band are the slid sums plus the sample's energy. |
| Aggregation.AggregateOneRight | src/components/NMDataWindow.js:220-333 | One aggregation keeps the loop invariant: spans cover the right samples with the right sums, and intervals stay ordered and end at the last aggregated sample. |
| Aggregation.AggregateOneMeans | src/components/NMDataWindow.js:220-333 | The sample just aggregated shows, for each visible band, the levels of the energy sums over the samples of the last 10 s, 5 min and 1 h. |
| Aggregation.AggregateAll | src/components/NMDataWindow.js:217-333 | The loop aggregates every sample from the cursor to the end and leaves the samples before the cursor unchanged. |
| Aggregation.AggregateAllTimes | src/components/NMDataWindow.js:217-333 | The loop changes no sample's time or energies. |
| Aggregation.AggregateAllRight | src/components/NMDataWindow.js:217-333 | The loop invariant holds after all samples are aggregated. |
| Aggregation.AggregateAllMeans | src/components/NMDataWindow.js:217-333 | After the loop, the newest sample shows the mean levels of its three spans for every visible band. |
| Aggregation.DiscardStop | src/components/NMDataWindow.js:338-358 | The discard scan stops at the first sample that is not before the window start or that is a span's oldest sample, and every sample it passed is before the start. |
| Aggregation.DiscardCount | src/components/NMDataWindow.js:338-369 | The number discarded is exactly one less than the index where the scan (`DiscardStop`) stopped. It is 0 when the scan ran to the end (the caught error) or stopped at once. Only samples before the window start that no span still holds are discarded. |
| Aggregation.Compact | src/components/NMDataWindow.js:360-368 | Compaction drops exactly `DiscardCount` samples at the front, all before the window start. The next-sample index and every span's cursor move down by that same count. It keeps every span's sums and the intervals. |
| Aggregation.CompactRight | src/components/NMDataWindow.js:338-369 | Compaction keeps the loop invariant for the remaining samples. |
| Aggregation.CompactMeans | src/components/NMDataWindow.js:360-368 | After compaction, the newest sample still shows the mean levels of the samples in its spans. |
| Extremes.Pick | src/components/NMDataWindow.js:405-410 | A missing running extreme takes the value, a present one only a value that beats it; the result is always one of the two. |
| Extremes.PickIdempotent | src/components/NMDataWindow.js:405-410 | Picking the same value twice is picking it once. |
| Extremes.Extreme | src/components/NMDataWindow.js:397-413 | The extreme of a column is missing exactly when every value is. Otherwise it is a value of the column that no present value beats. |
| Extremes.PickRowAt | src/components/NMDataWindow.js:399-411 | A sample updates each listed field once, however often it is listed, and leaves the other fields alone. |
| Extremes.ExtremesColumn | src/components/NMDataWindow.js:397-413 | The running minimum or maximum kept for a field is the extreme of that field's column over the samples. |
| Extremes.MinMaxOfField | src/components/NMDataWindow.js:393-419 | For each field of each visible band, the minimum and the maximum are values of its column that no present value goes below or above. |
| DataWindow.NewWindow | src/components/NMDataWindow.js:18-49 | A window is rolling exactly when it has no start time. A rolling window ends now; a fixed one starts at its start time. Either way it is `length` seconds long, initializing, and empty. |
| DataWindow.NewWindowValid | src/components/NMDataWindow.js:18-49 | A new window whose visible bands are distinct satisfies the window invariant. |
| DataWindow.Init | src/components/NMDataWindow.js:190-203 | The first aggregation sets up zero sums and empty interval lists for exactly the visible bands. It keeps the samples, the span indices, the bounds and the configuration. |
| DataWindow.InitRight | src/components/NMDataWindow.js:190-203 | The set-up satisfies the aggregation invariant. |
| DataWindow.NewEnd | src/components/NMDataWindow.js:161-168 | The new end is after the newest sample. It is at most a second after it, unless a stale rolling window moves to now, and otherwise it is a whole second. |
| DataWindow.NewEndAt | src/components/NMDataWindow.js:161-168 | Take `s`, the whole second just after the newest sample (`s - 1000 <= newest < s`). The new end is `s`, unless the window is rolling and `s + 1000 < now`; then it is `now`. |
| DataWindow.PruneAllAt | src/components/NMDataWindow.js:376-391 | Each visible band is pruned once, however often it is listed. The empty band name is skipped (`find` returns a falsy match), and the bands not listed are unchanged. |
| DataWindow.PruneIdempotent | src/components/NMDataWindow.js:382-390 | Pruning twice by the same start is pruning once. |
| DataWindow.AddEvents | src/components/NMDataWindow.js:151-431 | A missing input changes nothing. A returned state is loaded, and every outcome that changes the window keeps its configuration. A throw leaves the samples, the cursor, the span indices and the bounds as they were, since they are assigned only at the end. |
| DataWindow.AddEventsThrows | src/components/NMDataWindow.js:205-213 | `addEvents` throws exactly when it takes the input and the samples held followed by the new ones are not in strictly increasing time order. When it throws, the samples, the cursor, the span indices and the bounds are those held before. |
| DataWindow.AddEventsEmpty | src/components/NMDataWindow.js:153-156 | An empty input changes nothing, except that a rolling window not aggregating the past is marked loaded (lines 179-183). |
| DataWindow.AddEventsReturns | src/components/NMDataWindow.js:153-160 | A taken, chronological input always gives a new state. A non-empty input that a fixed window ignores gives none. |
| DataWindow.AddEventsValid | src/components/NMDataWindow.js:151-431 | `addEvents` keeps the window invariant, whether it returns or throws. |
| DataWindow.AddEventsTaken | src/components/NMDataWindow.js:161-430 | A taken, chronological input ends the window at the new end. The invariant holds; the newest samples are kept with their times and energies, and only samples before the new start are dropped. The extremes are those of the samples held, and the newest sample shows its mean levels. |
| DataWindow.Take | src/components/NMDataWindow.js:161-430 | The pass keeps the configuration and sets the new end. It keeps the newest samples and shows the extremes, and, for a chronological input, it keeps the invariant and the mean levels. |
| DataWindow.Commit | src/components/NMDataWindow.js:393-428 | The window is loaded, takes the new bounds and keeps its configuration. It holds the compacted samples, the cursor and the three spans, and intervals for the same bands. The intervals are pruned by the start in force before the update, since line 383 reads it before line 423 sets it. |
| DataWindow.CommitExtremes | src/components/NMDataWindow.js:393-419 | After the commit, each field's minimum and maximum are the extremes of its column over the samples held. |
| DataWindow.CommitValid | src/components/NMDataWindow.js:393-428 | Committing a right, compacted state keeps the window invariant. |
| DataWindow.NewestDateStr | src/components/NMDataWindow.js:437-441 | The text exists exactly when the newest time lies within the years 0000 to 9999, and it is 19 characters long. |
| DataWindow.NewestDateStrRoundTrip | src/components/NMDataWindow.js:437-441 | Read back with `.000Z`, as sample lines are, the reported text gives the start of the newest sample's second. |
| Attenuation.AlgorithmOf | src/attenuation.js:44-45 | Only the names `noop` and `slope` choose an algorithm, and `slope` chooses the slope-based one. |
| Attenuation.NewController | src/attenuation.js:43-60 | The bands are the configuration's keys, in order. Every band starts at level 0 with no last update, and the controller is valid. |
| Attenuation.UpdateBandConfig | src/attenuation.js:62-70 | Each configured band named in the new configuration takes its new settings. Bands not named keep theirs, and no band is added. |
| Attenuation.UpdateBandConfigStable | src/attenuation.js:62-70 | An update keeps the controller valid, and applying the same update twice is applying it once. |
| Attenuation.BandId | src/attenuation.js:165 | The data label of a band is `Leq` and the key with every `.` replaced by `_`. |
| Attenuation.BandNameToFrequency | src/attenuation.js:117-131 | The frequency is defined exactly when `parseFloat` reads a number from the stripped label, and it is never negative. |
| Attenuation.FrequencyOfLabel | src/attenuation.js:117-131 | For a standard band label such as `1_25kHz`, the frequency read back is the one the label names (1250 Hz). |
| Attenuation.FindBand | src/attenuation.js:173-175 | The GEQ entry found is the first one at the band's frequency. None is found when no entry has it. |
| Attenuation.DeviceLevel | src/attenuation.js:173-176 | The device level of a band is that of the first matching GEQ entry, or 0 when none matches. |
| Attenuation.SlopeExceeds | src/attenuation.js:185-199 | Without a previous update the slope is 0, so it exceeds exactly when the 10 s level is over the limit. A missing level never exceeds. A zero time difference compares the level with the target. |
| Attenuation.IncreaseStep | src/attenuation.js:211-219 | The increase is 1 dB exactly when the excess over the limit is more than 2 dB, and 0.5 dB otherwise. The 3 dB branch is never taken. |
| Attenuation.StepBand | src/attenuation.js:178-237 | A band is skipped exactly while a delay runs. The attenuation deepens by 0.5 or 1 dB, never below −12 dB, or eases by 0.5 dB, never above 0. A band whose device level has not yet reached its target, or one with neither an increase nor an easing due, keeps its state exactly. An increase, also one already at −12 dB, or an easing stamps the band with the current time. A request is sent exactly when the device level differs from the target. |
| Attenuation.SweepPointwise | src/attenuation.js:164-242 | The bands of a pass do not influence each other: each ends where its own step puts it, and bands outside the loop are unchanged. |
| Attenuation.SweepRequests | src/attenuation.js:238-241 | Every request of a pass names a band of the loop whose step asked for it, and carries that band's new target level. Conversely, every band whose step asks gets its request. |
| Attenuation.AskedHas | src/attenuation.js:238-241 | The independent request list holds a request for every band whose own step asks for one. |
| Attenuation.AskedFrame | src/attenuation.js:164-242 | Which requests a band asks for depends only on the swept bands' own states. |
| Attenuation.SweepAsked | src/attenuation.js:164-242 | The pass makes exactly the independently defined requests, one per band that asks, in band order. The state written for one band never changes another band's request. |
| Attenuation.PassValid | src/attenuation.js:164-242 | A pass keeps the controller valid and every target level within [−12 dB, 0]. |
| Attenuation.PassRequests | src/attenuation.js:238-241 | A request is made for a band exactly when the device level differs from its new target, and it carries that target. The requests come in band order. |
| Attenuation.UpdateEqAsWritten | src/attenuation.js:247-252 | `updateEQ` as written ignores exactly the bands A, B, C and D. It sets channel 0 to the level, at the frequency read after replacing `Hz` and `k`. |
| Attenuation.UpdateEq | src/attenuation.js:247-256 | The corrected `updateEQ` sends, for every band but A to D, the frequency the controller looked the band up at. |
| Attenuation.UpdateEqAgrees | src/attenuation.js:252 | For whole-kilohertz labels and hertz labels, the written and the corrected `updateEQ` send the same request. |
| Attenuation.UpdateEqAsWrittenKilo | src/attenuation.js:252 | For a label with a fractional kilohertz part, the written `updateEQ` sends a frequency a thousand times too low. |
| Attenuation.UpdateEqExample | src/attenuation.js:252 | The `1.25kHz` band is set at 1.25 Hz as written and at 1250 Hz when corrected. |
| Attenuation.LabelFrequencyKilo | src/attenuation.js:129 | A `k` in a label scales its frequency by a thousand. |
| Attenuation.Requests | src/attenuation.js:238-251 | A pass issues at most one device update per request. When no request names band A to D, the k-th update is the one `updateEQ` makes of the k-th request. When every request names one of them, nothing is issued. |
| Attenuation.RequestsAppend | src/attenuation.js:238-251 | The updates follow the requests in order: those of a concatenation are the first part's updates followed by the second part's. |
| Attenuation.UpdateAttenuation | src/attenuation.js:104-161 | No pass completes exactly when no algorithm was chosen (the call rejects) or the GEQ query fails (the pass is abandoned unchanged). The noop algorithm changes nothing. A slope pass changes only the bands' states, which stay valid. Each band's state is the one its own step gives, and the device updates are those of the bands that ask for one, in band order. |
| Nmeq.FormatFloat | src/components/NMEQ.js:47-60 | The text always has a point. A text without one gets `.0`. A text with one is cut after the first decimal and keeps its point where it was. |
| Nmeq.FormatFloatIdempotent | src/components/NMEQ.js:47-60 | Formatting formatted text changes nothing. |
| Nmeq.FormatWhole | src/components/NMEQ.js:56-58 | A whole number is written with one zero decimal. |
| Numerals.ZeroPad | src/components/NMEQ.js:104-110 | The padded text is the original preceded only by zeros and is `max(length, digits)` long. |
| Numerals.ZeroPadKeepsValue | src/components/NMEQ.js:104-110 | Padding a numeral with zeros keeps its value. |
| Numerals.FixedIsZeroPad | src/components/NMEQ.js:104-110 | Padding the numeral of a field to its width gives the fixed-width digits `toISOString` writes. |
| Nmeq.Pad2 | src/components/NMEQ.js:104-110 | `zeroPad(n, 2)` of a month, day or hour is the two-digit field of the ISO text. |
| Nmeq.GetFileName | src/components/NMEQ.js:172-174 | A file name exists exactly when the time lies within the years 0000 to 9999. It is the UTC year, month, day and hour of the time, each padded. |
| Nmeq.FileNameShape | src/components/NMEQ.js:172-174 | File names are 17 characters, `YYYY/MM/DD/HH.csv`, with slashes at fixed places. |
| Nmeq.FileNameRoundTrip | src/components/NMEQ.js:582 | Reading a file name back as the loader does gives the start of the hour of the time it was made from. |
| Nmeq.SameHourSameFile | src/components/NMEQ.js:172-174 | Times in the same UTC hour have the same file. |
| Nmeq.OtherHourOtherFile | src/components/NMEQ.js:172-174 | Times in different UTC hours have different files. |
| Nmeq.NextHour | src/components/NMEQ.js:593 | The loader's step goes to the first whole hour after the time, which is in the next hour. |
| Nmeq.HourSteps | src/components/NMEQ.js:586-595 | The loop opens files exactly when the start is before the end: first at the start, and every time it opens is in `[start, end)`. |
| Nmeq.HourStepsCover | src/components/NMEQ.js:586-595 | Every hour between the start and the window end is opened. |
| Nmeq.HourStepsIncreasing | src/components/NMEQ.js:586-595 | Each time opened is in a later hour than the one before, so no hour is opened twice. |
| Nmeq.FileDownload | src/components/NMEQ.js:588-590 | The download of a time reads the file of that time's hour. |
| Nmeq.Downloads | src/components/NMEQ.js:576-595 | Nothing is downloaded unless the window is fixed or aggregates the past. Otherwise there is one download per hour step, when every step has a file name. |
| Nmeq.DownloadsCover | src/components/NMEQ.js:576-595 | Each hour from the loader start up to the window end has its file downloaded. |
| Nmeq.DownloadsDistinct | src/components/NMEQ.js:576-595 | No file is downloaded twice in one update. |
| Nmeq.DownloadsResume | src/components/NMEQ.js:579-595 | Resuming after a file, that file is downloaded first from the bytes already read, and every later file from the beginning. |
| Nmeq.DownloadsFresh | src/components/NMEQ.js:579-595 | Without a last file, the loader starts at the file of the window start and reads every file from the beginning. |
| Nmeq.SetWindowDuration | src/components/NMEQ.js:185-211 | No value or an unchanged one does nothing. A rolling window longer than two hours is cut to two hours, and nothing happens when it was already at that request. Otherwise the requested length is loaded for the same date. |
| Nmeq.SetTimeRange | src/components/NMEQ.js:213-242 | An unchanged date does nothing. A new date keeps the length. Switching to rolling cuts a length over two hours to two hours. |
| Nmeq.RollingStaysBounded | src/components/NMEQ.js:196-201 | A rolling view never becomes longer than two hours, through either setting. |
| Nmeq.ThresholdKey | src/components/NMEQ.js:511 | A threshold key has the band key's length and no point. |
| Nmeq.Thresholds | src/components/NMEQ.js:510-511 | The thresholds are keyed by exactly the band keys with points made underscores. |
| Nmeq.ThresholdOfBand | src/components/NMEQ.js:510-511 | With distinct band keys and no underscores in them, each band's threshold is its 1-hour limit. |
| Nmeq.InitializeDataWindow | src/components/NMEQ.js:505-513 | The bounds are `lengthMillis` apart, from the start date or ending now. The window gets the length in whole seconds, the thresholds of the configuration, and is rolling exactly without a start date. |
| Calendar.FromToMillis | src/components/NMEQ.js:173 | The UTC fields of a date's time are that date's fields (`getUTCMonth` and the other getters invert `Date.UTC`). |
| Calendar.ParseToIsoString | src/components/NMEQ.js:582 | The `Date` constructor on the ISO text of a time gives that time back. |
| Calendar.ParseIsoText | src/components/NMDataWindow.js:65 | Writing a date in ISO form and reading it back gives its time. |
| Text.JoinSplit | src/components/NMDataWindow.js:57 | Splitting loses nothing: joining the parts with the separator gives back the string. |
| Text.SplitPartsAreFree | src/components/NMDataWindow.js:57 | No part of a split contains the separator. |
| Text.IndexOf | src/components/NMDataWindow.js:63 | `indexOf` of a character gives its first position, or −1 exactly when it does not occur. |
| Text.Substring | src/components/NMDataWindow.js:63 | `substring` gives the slice between its ends when they are in order within the string, the slice in between when they are swapped, and the rest of the string when the end lies past it. |
| Text.SubstringClamps | src/components/NMDataWindow.js:63 | `substring` clamps both ends to `[0, length]` and swaps them when the first exceeds the second. |
| Numerals.ParseFloat | src/attenuation.js:128 | `parseFloat` gives a number exactly when the text starts with a digit, or with a point and a digit, and that number is never negative. |

## Left out

- Floating point: energies (`10^(L/10)`), dB levels (`10·log10`) and the bass level computed from the raw fields 11 to 16 are the abstract functions of `Samples.Numerics`. `parseFloat` of a level field is modelled, by `Numerals.ParseFloat`, and the energy function is applied to its result. Sums are exact reals, so rounding drift in the floating sums is not modelled. A missing energy counts as 0, and `NaN`/`-Infinity` are `None`.
- The `_a5m`, `_a1h` and `_attn` fields of a sample and the dB arithmetic of the bass band's 5 min and 1 h values: nothing in the core reads them.
- The floating sums are kept only for the visible bands. The source subtracts from every label when a span slides, which leaves `NaN` entries for the others that are never read.
- The initial `this.min`/`this.max` values (0 and 100) set at NMDataWindow.js:196-197: they are overwritten before anything reads them.
- Console logging, timing (`pt`/`pte`) and the `stop` flag, which is never set.
- I/O: blob clients and downloads, `Promise.all`, `FileReader`, the device protocol (`dsp206`), React `setState` and rendering. `updateDataWindow` is modelled up to the list of downloads it starts (`Nmeq.Downloads`). The wiring of new data to `updateAttenuation` in NMEQ.js is not part of this model.
- Attenuation.UpdateAttenuation: passes do not overlap in the model. In the program they can: `algorithm(...)` is not awaited (attenuation.js:110) and the `updAttn` check (attenuation.js:134-136) only logs, so a new pass can start while an earlier one waits on the GEQ query or on a device update, and both write the band states. The model runs each pass in one piece from one controller state. The `updAttn` re-entrancy flag is not modelled, since it only logs. The client clock is one `now` per pass. `Failed` stands for two outcomes. With no algorithm the call itself rejects. With a failed `getGeqSetting` the call resolves, because it does not wait for the algorithm, and the pass is abandoned without a change. `await this.updateEQ(...)` at attenuation.js:238-241 has no catch, and `setGeqLevel` rejects on a timeout (NMEQ.js:138-140). So a failing setter abandons the remaining bands after the earlier bands' states were written, while the model's pass always finishes every band. The `dsp206` branches are not modelled.
- Attenuation.SlopeExceeds: the slope compares reals; a zero time difference is modelled through the comparison of the level with the target and not through `±Infinity`.
- DataWindow.Commit: prunes with the corrected loop (see Findings), not with the written one that can throw a `TypeError`.
- Aggregation.DiscardCount: keeps one sample before the window start, because the source discards `i - 1` samples. This is modelled as written.
- Aggregation.AggregateAllMeans and DataWindow.Take: the mean-level results require band names that do not themselves end like a written field (`Aggregation.BandNames`), as the data labels do.
- Attenuation.Requests: the updates are built with the corrected `updateEQ` (`Attenuation.UpdateEq`, see Findings). As written, a band such as `1.25kHz` is sent at frequency 1.25 rather than 1250; `Attenuation.UpdateEqAsWritten` models that.
- Classification.Interval: the `leq` field (`10·log10` of the interval's running total) is not kept. It is floating point, and nothing in the core reads it; the total it is computed from is kept.
- Nmeq.GetFileName: times outside years 0000–9999 give `None`, and so do the downloads of `Nmeq.Downloads` that need such a name. JavaScript writes extended years there and throws only beyond ±8.64e15 ms.
- DataWindow.NewestDateStr: times outside years 0000–9999 give `None`. JavaScript writes extended years there and throws only beyond ±8.64e15 ms.
- Calendar.ParseIso: accepts only the exact `YYYY-MM-DDTHH:mm:ss.sssZ` shape and rejects hour 24. JavaScript accepts more forms.
- Numerals.ParseFloat: unsigned decimals only. It reads the longest prefix of the form digits, optionally followed by `.` and digits, so an exponent is ignored: `1e2` reads as 1, where JavaScript gives 100. A leading sign, leading white space and `Infinity` are read as `NaN`.
- The `lastBytesRead` update at NMEQ.js:615 is not modelled. `data` is `null` throughout `updateDataWindow` (NMEQ.js:583), so by operator precedence the expression is `((cond ? bytesRead : 0) + null) ? null.length : 0`. It stores 0 when that sum is 0 or `NaN`, and throws a `TypeError` on `null.length` when it is not. It never stores the bytes read. The initial state spells the key `lastFileBytesRead` (NMEQ.js:79), so the first call passes `undefined`. The model takes `bytesRead` as a parameter instead.
- Nmeq.SetWindowDuration: the loose comparison `value == this.state.windowLengthMillis` of an object with a number is the parameter `sameAsCurrent`.
- Nmeq.RollingStaysBounded: takes the window to be rolling exactly when the component has no date, as the component sets them together.
- Nmeq.InitializeDataWindow: the window length is `lengthMillis / 1000` rounded down, whereas JavaScript keeps a fractional length. The bounds agree only for whole seconds.
- Nmeq.Thresholds: `Object.keys` puts integer-like keys first; the model takes the configuration as a list already in key order.

## Findings

| source | as written | input that shows it | evidently intended | confidence | as-written member | corrected member |
|---|---|---|---|---|---|---|
| src/components/NMDataWindow.js:383 | The interval-pruning loop tests `i < length` (the discard index) instead of `k < length`. | One interval ending at 1000, window start 5000. With `i` = 1 the stale interval stays; with `i` = 0 the loop reads past the list and throws a `TypeError`. | Drop the leading intervals that ended by the window start. | not executed | Classification.PruneAsWritten, Classification.PruneAsWrittenDiffers | Classification.Prune, Classification.PruneOrdered |
| src/attenuation.js:252 | `updateEQ` reads the frequency as `parseFloat(band.replace(/Hz/g,"").replace(/k/g,"000"))`, so `1.25kHz` becomes `1.25000`. | Band `1.25kHz` (also `2.5kHz`, `3.15kHz`, `6.3kHz`, `12.5kHz`). | The device is set at 1250 Hz, the frequency the controller looked the band up at. | not executed | Attenuation.UpdateEqAsWritten, Attenuation.UpdateEqAsWrittenKilo, Attenuation.UpdateEqExample | Attenuation.UpdateEq, Attenuation.FrequencyOfLabel |
