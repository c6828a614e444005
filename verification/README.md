# Strategy engine: models and proofs

Dafny models of the hard parts of the strategy engine, with proofs of what they promise. `dafny verify dfyconfig.toml` checks the whole project.

The model takes prices as reals and timestamps, minutes and indexes as unbounded integers. Loops that update state stay loops: each one is a method proved equal to a definition that looks at its input directly, and the theorems are about that definition.

**Clock-range breakout** (`ClockSchedule`, `TradingDays`, `ClockDay`, `ClockRun`, `ClockRangeBroker`, `ClockTheorems`, `ClockOutcomes`, `ClockCausality`). `ClockDay.Evaluate` says what becomes of one day on its own: the range, the gates, the pending stop orders, the position, the trade. `ClockRangeBroker.Broker` is the run loop, with its pending pair, position, audit list and day pointer changed in place. The central proof is that the loop equals the independent evaluation of consecutive days. It rests on the bar grid: a day noticed late has lost its final bar, and a range that ends with a bar finds every earlier close already due. The rejection "broker-blocked" is therefore unreachable, trades are at most one a day and never overlap, and nothing depends on later bars. `ClockOutcomes` says of every day, from the bars alone, when it is placed, where it enters, and where and at what price it leaves.

**Adaptive flag** (`AdaptiveBracket`, `AdaptiveSignals`, `AdaptiveFlag`, `AdaptivePortfolio`, `AdaptiveTheorems`, `AdaptiveOutcomes`, `AdaptiveSetups`, `AdaptiveAverages`, `AdaptiveRun`). The portfolio is stated without its state machine: an order's course is found by searching the rows after its signal, and the next order is armed at the first eligible row once that course has ended. The state machine, its order records and its append-only event log are proved equal to that. Ages, opportunities, hold limits, the shape of every order's event list and the absence of look-ahead follow. The bracket is proved to be the first barrier on the assumed price path of the bar, the path being a journey through moments. Valid setups are characterised by pivots, pole and flag, the averages as weighted sums.

**Strict JSON and exact decimals** (`Utf8`, `JsonText`, `JsonParse`, `JsonReader`, `JsonTheorems`, `JsonPrint`, `JsonForms`, `Digits`, `Decimal`, `DecimalReader`, `DecimalOrder`). `JsonText` says which bytes are a text of which value, after RFC 8259. The hand-written reader returns a value exactly when the bytes are a text of it within the limits, and reads back every document in whatever form its characters and its white space take. The decimal comparisons are proved against exact real values without a float or a power of ten.

**Numeric kernels** (`LeastSquares`, `ParabolicSar`, `RegimeTrend`, `Seasonality`, `DaySegments`, `LevelColumns`, `LevelMeanings`). Least squares, the parabolic stop, trend hysteresis, seasonal counters and the level columns: extremal, monotone or history-free facts, and incremental forms equal to recounting.

**Shared broker and scheduler** (`OrderBroker`, `OrderLife`, `DeferredExits`, `EntryScheduler`). Three order queues changed while they are walked, and a position, refine a ledger with one live slot, for any sequence of decisions, moved stops and time exits among them; every trade can show how it was entered and left and which decision asked for it, a limit rests exactly as long as it should, and cash is conserved. A one-pass merge is proved equal to a search.

Where the code does not do what its name suggests, the model follows the code and the exact condition is proved:

- `DecimalOrder.NormalisedEquality`: parts of two zeros written with different scales stay unequal; `ZeroSpellings` is an instance.
- `DeferredExits.Drain`: the walk over deferred exits indexes past its list exactly under the condition `Overruns`; the families of the repository keep at most one exit per position, which is safe.
- `LevelColumns.RunningDay`: the day before the epoch is numbered -1, the marker for "no day yet", so a series that starts on it keeps zero as its first open, high and low. Every other day is right.
- `EntryScheduler.SearchedExactlyWhen`, `OutOfOrderDiffers` and `OutOfOrderLoses`: a decision out of order lands on the bar of the latest close so far, or is lost when no such bar is left; it gets what its own search gives exactly when no decision before it waits longer.

## Model

| member | source | states |
|---|---|---|
| `ClockRangeBroker.Broker.Run` | engine/family_clock_range_breakout.go:344-407 | The whole run loop: its audit rows, trades and open position are those of the days with T[0] < range end <= T[end] + timeframe, each day evaluated on its own, in consecutive order; no row is broker-blocked and the trades are strictly in order; all loops terminate |
| `ClockRangeBroker.Broker.RunBars` | engine/family_clock_range_breakout.go:369-399 | One pass over the bars keeps the state in step with the days evaluated so far: place what has ended, exit, expire or fill, place what ends with the bar |
| `ClockRangeBroker.Broker.PlaceOrders` | engine/family_clock_range_breakout.go:418-479 | Placement of a day appends exactly the audit row of its evaluation, with every rejection reason in the code's order, and leaves its orders pending or not |
| `ClockRangeBroker.Broker.RangeExtremes` | engine/family_clock_range_breakout.go:446-450 | The range high and low are the extremes of the range bars |
| `ClockRangeBroker.Broker.FillOrders` | engine/family_clock_range_breakout.go:516-540 | The first touch uses the day up: the nearer trigger wins, a tie is long, an opposite trigger cancels, a worse open is taken |
| `ClockRangeBroker.Broker.OpenPosition` | engine/family_clock_range_breakout.go:542-606 | A fill opens the position or rejects the day, and the entry bar is already held against the stop |
| `ClockRangeBroker.Broker.ExitOnBar` | engine/family_clock_range_breakout.go:375-384 | Clock close first, then stop gap, stop touch and target touch |
| `ClockRangeBroker.Broker.WorkOrders` | engine/family_clock_range_breakout.go:385-392 | Pending orders expire, or are filled only on a bar that has not closed a position |
| `ClockRangeBroker.Broker.Finish` | engine/family_clock_range_breakout.go:400-406 | End of data: optional liquidation at the last close, live orders stay pending in the audit |
| `ClockRangeBroker.Broker.FirstRangeDay` | engine/family_clock_range_breakout.go:365-368 | The starting day is the first whose range ends after the first bar opens |
| `ClockDay.FirstBadBar` | engine/family_clock_range_breakout.go:289-302 | The series loop accepts exactly the valid series and otherwise names the first bad bar |
| `ClockDay.SearchTime` | engine/family_clock_range_breakout.go:432 | The sorted search: first index among the known bars that opens at or after the instant |
| `ClockDay.BookRows` | engine/family_clock_range_breakout.go:344-407 | Exactly one audit row per day of the run, in consecutive day order, each from that day's own evaluation |
| `ClockDay.LateDayIsRefused` | engine/family_clock_range_breakout.go:371-374 | A day placed by the loop before the bar always lacks its final slot or its bars: it is refused |
| `ClockDay.EarlierDaysAreDue` | engine/family_clock_range_breakout.go:395-398 | When a range ends with a bar, every earlier day's expiry and close are due by that bar's open |
| `ClockDay.StopIsDistanceAway` | engine/family_clock_range_breakout.go:551-559 | In both stop modes the stop lies the stated distance away on the losing side |
| `ClockRun.StartSynced` | engine/family_clock_range_breakout.go:365-368 | The loop invariant holds before the first bar |
| `ClockRun.NothingLive` | engine/family_clock_range_breakout.go:395-398 | When the loop after the bar places a day, no orders and no position of an earlier day are left |
| `ClockRun.PlaceLate` | engine/family_clock_range_breakout.go:371-374 | The loop before the bar keeps the state in step: the late day is refused, older orders expire |
| `ClockRun.PlaceClosing` | engine/family_clock_range_breakout.go:395-398 | The loop after the bar keeps the state in step: the day's orders become the pending ones |
| `ClockRun.ExitKeeps` | engine/family_clock_range_breakout.go:375-384 | The exit phase keeps the state in step with the evaluated days |
| `ClockRun.OrdersKeeps` | engine/family_clock_range_breakout.go:385-392 | The expiry and fill phase keeps the state in step with the evaluated days |
| `ClockRun.SyncedFinal` | engine/family_clock_range_breakout.go:400-406 | The final state is the book of all days placed |
| `ClockTheorems.NeverBrokerBlocked` | engine/family_clock_range_breakout.go:471-474 | On valid input no day is ever recorded as broker-blocked, although the code has that branch |
| `ClockTheorems.DayTimesHold` | engine/family_clock_range_breakout.go:375-392 | At most one entry per day, in [range end, expiry), left no later than the first bar at or after its close |
| `ClockTheorems.EntryAfterCloses` | engine/family_clock_range_breakout.go:442-444 | A day that enters does so after every earlier close was due |
| `ClockTheorems.NoOverlap` | engine/family_clock_range_breakout.go:344-407 | Trades of different days never overlap; nothing is entered after a position that stays open |
| `ClockTheorems.TradesInOrder` | engine/family_clock_range_breakout.go:344-407 | The recorded trades are in order, each left before the next is entered |
| `ClockTheorems.FillIsAdverse` | engine/family_clock_range_breakout.go:535-545 | A stop entry never fills better than its trigger or the open |
| `ClockTheorems.RiskIsStated` | engine/family_clock_range_breakout.go:551-574 | Size times stop distance is the stated risk; an R target lies targetR distances away on the winning side |
| `ClockOutcomes.ExitsShown` | engine/family_clock_range_breakout.go:375-384 | Every trade is left on the first bar that stops it, reaches its target or is due for the clock close, in that order of precedence and at its price: the open, the stop or a worse open, the target, the last close, with slippage and fee in full; a position still open has met none of them |
| `ClockOutcomes.EntriesShown` | engine/family_clock_range_breakout.go:516-606 | A placed day is entered on its first touch, the nearer trigger and the long side on a tie, at the worse of trigger and open with slippage, with stop, size and target as stated; or ended by that touch for the stated reason; or expired or pending without a touch |
| `ClockOutcomes.PlacedExactlyWhen` | engine/family_clock_range_breakout.go:418-479 | A day is placed exactly when its range is covered, holds its final slot, is open, passes the gates and has positive triggers; the first failure is the recorded reason, and the sides are those of the prior day's colour |
| `ClockOutcomes.AuditShown` | engine/family_clock_range_breakout.go:418-434 | The audit row names its range, the slots of it, and the number of executed bars that opened in it |
| `ClockOutcomes.SeriesExactlyWhen` | engine/family_clock_range_breakout.go:289-302 | A series is admitted exactly when every bar is on the grid of the bar duration, later than the one before, within the timestamp limits and in price order |
| `ClockOutcomes.SlotsFillRange` | engine/family_clock_range_breakout.go:426-430 | The slots that coverage is measured by fill the range without a rest |
| `ClockOutcomes.TrueRangeSpansGap` | engine/family_clock_range_breakout.go:191-201 | A day's true range spans its own range and the close before it, the gap included |
| `ClockCausality.RangeBarsExact` | engine/family_clock_range_breakout.go:426-445 | The range bars are exactly the executed bars that open inside the range |
| `ClockCausality.NoExtraSlots` | engine/family_clock_range_breakout.go:426-445 | No range holds more bars than its slots |
| `ClockCausality.PlacedRange` | engine/family_clock_range_breakout.go:432-454 | A placed day had at least nine tenths of its slots, the final one among them, and a range of positive width whose high and low are attained by range bars and bound them all |
| `ClockCausality.GatesCut` | engine/family_clock_range_breakout.go:484-513 | The gates give the same answer on any prefix that holds the range |
| `ClockCausality.CutRunnable` | engine/family_clock_range_breakout.go:271-301 | A run that stops at an earlier bar is admitted whenever the longer one is |
| `ClockCausality.NoLookAhead` | engine/family_clock_range_breakout.go:344-407 | The admitted run on the bars up to e places the same orders for every day that ended by then and already shows its final row, trade and levels; a position or orders still live are exactly what the longer run goes on with from bar e + 1 |
| `TradingDays.BuildTradingDays` | engine/family_clock_range_breakout.go:154-183 | The carrying loop builds exactly the blocks of bars between filed dates, short dates joining the next one |
| `TradingDays.DayIsBlock` | engine/family_clock_range_breakout.go:130-183 | A trading day is a block of whole clock dates, each shorter than four hours but the last: first open, last close, attained extremes, filed under the last date |
| `TradingDays.DailyATRStaysInBand` | engine/family_clock_range_breakout.go:191-201 | The mean true range lies between any bounds of the ranges it is taken over |
| `TradingDays.PriorIndex` | engine/family_clock_range_breakout.go:185-189 | The last trading day filed before a clock day, or -1 |
| `TradingDays.ComputeDailyATR` | engine/family_clock_range_breakout.go:191-201 | The mean true range over the days ending at an index, absent when a day is missing |
| `TradingDays.FiledKeys` | engine/family_clock_range_breakout.go:154-183 | Trading days are filed under strictly increasing dates |
| `TradingDays.PriorDaysAreCausal` | engine/family_clock_range_breakout.go:185-201 | Once a prefix holds a bar of the day or later, its prior day and every ATR read there are those of the whole series |
| `ClockSchedule.TimeframeMinutes` | dsl/clock_range_breakout.go:188-215 | Count times unit minutes, accepted exactly when a positive number of such bars makes up one day |
| `ClockSchedule.DayOrder` | dsl/clock_range_breakout.go:80-96 | On every day range end < expiry <= close < the next day's range end, for every valid specification |
| `ClockSchedule.WallClock` | engine/family_clock_range_breakout.go:213-228 | On a clock set to the declared offset the four instants of a range day show their stated minutes, those before the range end on the next date |
| `ClockSchedule.DayIsShown` | engine/family_clock_range_breakout.go:226-228 | The clock day of an instant is the date that clock shows |
| `ClockSchedule.DayOfSpan` | engine/family_clock_range_breakout.go:226-228 | The clock day of an instant is the one whose span holds it, also for negative instants |
| `ClockSchedule.AlignmentIsDateFree` | dsl/clock_range_breakout.go:230-244 | The minute arithmetic of the alignment check accepts exactly the specifications whose four instants lie on the bar grid on every day, and names a boundary that is off it on every day |
| `Common.FloorDivIsFloor` | engine/calendar_helpers.go:15-22 | The corrected truncating division is the floor of the quotient, for divisors of either sign |
| `AdaptivePortfolio.Portfolio.Run` | engine/adaptive_flag_reference.go:94-215 | The one-pass portfolio with its in-place orders, event log and live variables equals the searches: every order, every event and every row state |
| `AdaptivePortfolio.Portfolio.Row` | engine/adaptive_flag_reference.go:137-212 | One row keeps orders, log, pending, position and queued exit equal to what the searches over the rows so far say |
| `AdaptivePortfolio.Portfolio.ExitPhase` | engine/adaptive_flag_reference.go:138-146 | A queued exit fills at its open, otherwise an established bracket may close the position |
| `AdaptivePortfolio.Portfolio.EntryPhase` | engine/adaptive_flag_reference.go:147-175 | A pending stop gets one opportunity and may fill |
| `AdaptivePortfolio.Portfolio.HoldPhase` | engine/adaptive_flag_reference.go:176-191 | On the entry row the bracket appears; a passed stop or the hold limit queues the exit |
| `AdaptivePortfolio.Portfolio.AgePhase` | engine/adaptive_flag_reference.go:192-200 | A pending order ages and expires after its last opportunity |
| `AdaptivePortfolio.Portfolio.Arm` | engine/adaptive_flag_reference.go:201-205 | A flat portfolio turns the candidate into the next order |
| `AdaptivePortfolio.Portfolio.Observe` | engine/adaptive_flag_reference.go:207-211 | The state sampled after the close |
| `AdaptiveFlag.CourseAdvances` | engine/adaptive_flag_reference.go:137-206 | The searched course of an order changes from row to row as the state machine does |
| `AdaptiveFlag.ArmsAdvance` | engine/adaptive_flag_reference.go:201-205 | The list of armed signals grows exactly at eligible rows with nothing live |
| `AdaptiveFlag.FirstFill` | engine/adaptive_flag_reference.go:154-155 | The first row in a stretch that fills the entry |
| `AdaptiveFlag.FirstHit` | engine/adaptive_flag_reference.go:141-146 | The first row in a stretch whose path meets a barrier |
| `AdaptiveTheorems.EntryCounts` | engine/adaptive_flag_reference.go:147-200 | Expired orders had exactly validBars + 1 opportunities; a filled one has fill row - signal row = opportunities <= validBars + 1, on the first triggering row |
| `AdaptiveTheorems.ExitRules` | engine/adaptive_flag_reference.go:138-191 | A closed order left after its fill row and no later than fill + maxHold + 1, by the first barrier met or by the queued exit, with the price that goes with it |
| `AdaptiveTheorems.OnlyLastUnfinished` | engine/adaptive_flag_reference.go:94-215 | Only the last order can be unfinished |
| `AdaptiveTheorems.LogIsIndexed` | engine/adaptive_flag_reference.go:106-110 | EventIDs list exactly the order's events in log order, and these are armed, opportunities, then expiry, or fill, bracket, at most one queued exit, close |
| `AdaptiveTheorems.ArmsExactlyWhenFlat` | engine/adaptive_flag_reference.go:201-205 | A row arms an order if and only if its candidate is eligible and every earlier order has ended |
| `AdaptiveTheorems.OrdersInTurn` | engine/adaptive_flag_reference.go:94-215 | Orders never overlap |
| `AdaptiveOutcomes.ArmedExactlyWhen` | engine/adaptive_flag_reference.go:191-196 | A row arms an order exactly when it opens in the trading window, has a candidate, and every order armed before has been closed or has expired by its close |
| `AdaptiveOutcomes.EventsShown` | engine/adaptive_flag_reference.go:94-215 | Every event of every run fits its order: its row, its moment or interval, its price |
| `AdaptiveOutcomes.StatesShown` | engine/adaptive_flag_reference.go:197-211 | The state of every row is what its orders say is live: the pending order and its age, the position, the queued exit and its reason |
| `AdaptiveTheorems.LogGrows` | engine/adaptive_flag_reference.go:106-110 | The event log after fewer rows is a prefix of the log after more |
| `AdaptiveTheorems.NoLookAhead` | engine/adaptive_flag_reference.go:94-215 | Running the first m rows gives the first m states and the orders and events the full run has by then |
| `AdaptiveBracket.Bracket` | engine/adaptive_flag_reference.go:43-88 | The bracket loop, its gaps and its tie rule |
| `AdaptiveBracket.EntryMeaning` | engine/adaptive_flag_reference.go:21-38 | On a valid bar a stop entry fills exactly when its trigger trades, at the worse of trigger and open |
| `AdaptiveBracket.HitIffReached` | engine/adaptive_flag_reference.go:43-88 | A hit exactly when the bar reaches stop or target, for longs and shorts |
| `AdaptiveBracket.FirstBarrierWins` | engine/adaptive_flag_reference.go:60-87 | Apart from opening gaps the hit is the first barrier along open, nearer extreme, other extreme, close; the stop wins ties |
| `AdaptiveBracket.LongBracketShown` | engine/adaptive_flag_reference.go:43-88 | The whole bracket of a long position, said of the bar: gaps, a barrier at the open, the barrier reached, and of two the one toward the nearer extreme, the high on a tie |
| `AdaptiveBracket.ShortBracketShown` | engine/adaptive_flag_reference.go:43-88 | The whole bracket of a short position |
| `AdaptiveSignals.EMA` | engine/adaptive_flag_signals.go:81-93 | The recursive average, one pass |
| `AdaptiveSignals.EmaStaysInBand` | engine/adaptive_flag_signals.go:81-93 | The average never leaves the band of its closes |
| `AdaptiveSignals.ATR` | engine/adaptive_flag_signals.go:95-116 | True ranges, their plain mean over the first rows, then the Wilder recurrence |
| `AdaptiveSignals.VolumeSMA` | engine/adaptive_flag_signals.go:118-131 | The running total always equals the sum recounted over the window, absent until it is full |
| `AdaptiveSignals.ConfirmedPivot` | engine/adaptive_flag_signals.go:133-150 | A pivot exactly when the bar strictly beats every other bar of its window |
| `AdaptiveSignals.LastPivotIsLatest` | engine/adaptive_flag_signals.go:179-193 | The remembered pivot is the latest confirmed one |
| `AdaptiveSignals.PivotsApart` | engine/adaptive_flag_signals.go:133-150 | Two pivots of one kind are never within reach of each other |
| `AdaptiveSignals.Snapshots` | engine/adaptive_flag_signals.go:179-231 | Every snapshot of the one-pass loop equals the one recounted from the bars |
| `AdaptiveSignals.CandidateIsOrdered` | engine/adaptive_flag_signals.go:158-177 | A candidate exists exactly on a valid side, long first; stop, flag, trigger and target are in order |
| `AdaptiveSignals.SnapshotPrefix` | engine/adaptive_flag_signals.go:179-231 | A snapshot depends on the bars up to its own row only |
| `AdaptiveSetups.ValidExactlyWhen` | engine/adaptive_flag_signals.go:196-228 | A row is a valid long exactly when its latest trough lies before its latest peak, the pole is recent and at least minPoleATR average ranges high, every flag bar stays inside the retrace and the width, and the average and volume filters pass; shorts mirrored |
| `AdaptiveSetups.SnapshotShown` | engine/adaptive_flag_signals.go:179-231 | The pivots a snapshot confirms are the peak and trough its row first sees whole; its heights are the two poles while recent, else nothing |
| `AdaptiveSetups.StricterIsRarer` | engine/adaptive_flag_signals.go:198-228 | A larger minPoleATR or a smaller maxFlagRetrace never makes a row valid |
| `AdaptiveSetups.OrderIsStated` | engine/adaptive_flag_signals.go:158-177 | The order of a valid row lies entryATR average ranges beyond the flag, its stop stopATR ranges beyond the other side, its target targetR stop distances from the trigger |
| `AdaptiveAverages.EmaIsWeighted` | engine/adaptive_flag_signals.go:81-93 | The exponential average as a weighted sum: each close weighs 2/(n+1), less by one factor for every later bar |
| `AdaptiveAverages.WilderIsWeighted` | engine/adaptive_flag_signals.go:95-116 | Wilder's average as a weighted sum of the true ranges after the mean of the first n |
| `AdaptiveAverages.TrueRangeSpansGap` | engine/adaptive_flag_signals.go:99-103 | A true range spans the bar and the close before it, the gap included |
| `AdaptiveAverages.RangeSumInBand` | engine/adaptive_flag_signals.go:104-110 | The seed sum of the average range lies between any bounds of its ranges |
| `AdaptiveAverages.VolumeStaysInBand` | engine/adaptive_flag_signals.go:118-131 | The mean volume lies between any bounds of the volumes it is taken over |
| `AdaptiveRun.WindowPrefix` | engine/adaptive_flag_signals.go:16-43 | The window is checked and the series cut at the first open at or after its end |
| `AdaptiveRun.Source` | engine/adaptive_flag_signals.go:45-74 | Rows are admitted exactly when all are valid, and the first bad row is named |
| `AdaptiveRun.AdmittedExactlyWhen` | engine/adaptive_flag_signals.go:60-75 | A row is admitted exactly when it lies on the grid, after the row before, within the safe range, positive and in price order; its bar lasts one step |
| `AdaptiveRun.Evaluate` | engine/adaptive_flag_reference.go:241-331 | Cut, admission, snapshots and portfolio together: refusals and the whole outcome |
| `AdaptiveRun.CutIsHarmless` | engine/adaptive_flag_signals.go:13-43 | Cutting the series at any row gives what the uncut series leads to by that row: snapshots, orders, events, states |
| `AdaptiveRun.SuffixIsIgnored` | engine/adaptive_flag_signals.go:13-43 | Two series that agree up to the window end are cut alike |
| `JsonReader.StrictJSON` | dsl/frozen_level_json.go:34-51 | The reader terminates on every byte string and returns what the reading functions return |
| `JsonReader.Reader.NextValue` | dsl/frozen_level_json.go:98-148 | One value at a depth: it moves forward and agrees with the specification |
| `JsonReader.Reader.NextObject` | dsl/frozen_level_json.go:150-182 | An object with distinct decoded keys only |
| `JsonReader.Reader.NextArray` | dsl/frozen_level_json.go:184-204 | An array without trailing comma |
| `JsonReader.Reader.Quoted` | dsl/frozen_level_json.go:206-264 | A string with its escapes and surrogate pairs, decoded to bytes |
| `JsonReader.Reader.HexRune` | dsl/frozen_level_json.go:266-287 | Four hex digits as one unit |
| `JsonReader.Reader.NumberToken` | dsl/frozen_level_json.go:98-148 | A number token of at most 1024 bytes |
| `JsonTheorems.DocumentExact` | dsl/frozen_level_json.go:34-51 | The reader returns v if and only if the bytes are a JSON text of v (RFC 8259) within the size and nesting limits with distinct keys |
| `JsonTheorems.DocumentUnique` | dsl/frozen_level_json.go:34-51 | A document denotes one value only |
| `JsonParse.QuotedExact` | dsl/frozen_level_json.go:206-264 | A string is read exactly when the bytes are a string text of it |
| `JsonPrint.PrintIsText` | dsl/frozen_level_json.go:34-51 | A printed value is a text of that value, with or without ASCII escapes |
| `JsonPrint.RoundTrip` | dsl/frozen_level_json.go:34-51 | What either printer writes within the limits is read back unchanged, surrogate pairs included |
| `JsonForms.AnyFormReads` | dsl/frozen_level_json.go:34-51 | Whatever legal form each character takes (as it is, one of the eight escape letters, escaped units in either hex case) and whatever white space fills the gaps, the document is read back as the value it was written for |
| `JsonForms.EscapesExact` | dsl/frozen_level_json.go:225-261 | After a backslash each of the eight letters gives its byte, u begins a unit, every other byte is refused |
| `JsonForms.NumeralReads` | dsl/frozen_level_json.go:297-366 | Every legal numeral, its sign, digits, fraction and exponent in bytes, is accepted and read as parts of exactly its number |
| `JsonForms.AcceptedExactlyWhen` | dsl/frozen_level_json.go:297-366 | Exactly the legal numerals are accepted: no leading zero, digits on both sides of the point, at most 1024 bytes, an exponent of at most 10000, no negative zero |
| `JsonForms.LimitsHold` | dsl/frozen_level_json.go:34-51 | Nothing is read that is larger than 1 MiB, nested deeper than 64, not UTF-8, or repeats a decoded key |
| `JsonForms.SkipsBlank` | dsl/frozen_level_json.go:79-88 | White space is skipped over exactly the longest stretch of spaces, tabs, line feeds and carriage returns |
| `JsonPrint.PairDenotes` | dsl/frozen_level_json.go:232-256 | A pair of \u escapes denotes the scalar above U+FFFF it stands for (section 7 of RFC 8259) |
| `Utf8.DecodeEncodeAll` | dsl/frozen_level_json.go:34-51 | Decoding inverts UTF-8 encoding |
| `Utf8.EncodeDecode` | dsl/frozen_level_json.go:34-51 | Encoding inverts decoding on every valid byte string |
| `DecimalReader.NumberParts` | dsl/frozen_level_json.go:297-366 | The one-pass scanner accepts and reads what the grammar says, building no power of ten |
| `Decimal.ReadPartsExact` | dsl/frozen_level_json.go:297-366 | Accepted exactly when the token is a number of section 6 of RFC 8259 within the length and exponent limits and not a negative zero; digits * 10^scale is its exact value, without leading zero |
| `Decimal.ParseSound` | dsl/frozen_level_json.go:297-366 | A token that parses is the rendering of its shape |
| `Decimal.ParseRender` | dsl/frozen_level_json.go:297-366 | Every rendered shape parses back to itself |
| `Decimal.PartsExact` | dsl/frozen_level_json.go:297-366 | The parts of a shape have exactly its value |
| `DecimalOrder.ExactInteger` | dsl/frozen_level_json.go:368-400 | Succeeds exactly on accepted tokens whose value is an integer of magnitude at most 2^53 - 1, and returns it |
| `DecimalOrder.SafeIs` | dsl/frozen_level_json.go:368-400 | A safe integer is a whole number of magnitude at most 2^53 - 1 |
| `DecimalOrder.DecimalAfter` | dsl/frozen_level_input_json.go:109-131 | For positive parts the digit walk holds exactly when the first value exceeds the second |
| `DecimalOrder.StripZeros` | dsl/regime_engine_config.go:195-214 | The loop that strips trailing zeros |
| `DecimalOrder.NormalisedEquality` | dsl/regime_engine_config.go:180-214 | Normalised parts are equal if and only if the values are and, for zero, the scales are too |
| `DecimalOrder.ZeroSpellings` | dsl/regime_engine_config.go:180-214 | 0 and 0.0 have one value and compare as different |
| `Digits.NatLess` | dsl/frozen_level_input_json.go:109-131 | Digit strings of one length compare at their first difference |
| `LeastSquares.FitLine` | contextcols/channels.go:344-361 | The one-pass sums give the fitted line |
| `LeastSquares.DenominatorIsPositive` | contextcols/channels.go:354-355 | n*Sxx - Sx^2 is a natural number, at least one exactly when two indexes differ |
| `LeastSquares.SlopeBranch` | contextcols/channels.go:355-359 | The slope branch is taken exactly when two indexes differ |
| `LeastSquares.FitCancels` | contextcols/channels.go:354-360 | The residuals of the fit cancel, plainly and weighted by index |
| `LeastSquares.FitIsLeastSquares` | contextcols/channels.go:344-361 | No slope and intercept has a smaller sum of squared residuals; with two distinct indexes the fit is the only minimiser |
| `LeastSquares.FitRecoversLine` | contextcols/channels.go:344-364 | Pivots on one line are fitted exactly |
| `ParabolicSar.Compute` | contextcols/parabolic_sar.go:39-104 | The loop publishes the fold over the bars, nothing from the first invalid bar on, and a flip exactly where published trends differ |
| `ParabolicSar.Row` | contextcols/parabolic_sar.go:64-97 | The loop body: move, turn on strict penetration, extend, keep out of the last two bars |
| `ParabolicSar.PublishedIsSound` | contextcols/parabolic_sar.go:58-102 | A rising stop is at or below the current and last two lows, a falling one mirrored; ep is the exact extreme since the trend began; the factor is start + k*step capped, k the new extremes |
| `ParabolicSar.StopNeverRetreats` | contextcols/parabolic_sar.go:58-102 | The trend holds exactly when the moved stop does not strictly penetrate the bar, and while it holds the stop never moves against it |
| `ParabolicSar.SarIs` | contextcols/parabolic_sar.go:64-97 | Every published value from the one before: the stop goes its factor's part of the way to the exact extreme, never into the last two bars, and turns to the extreme when the bar is penetrated |
| `ParabolicSar.FirstSarIs` | contextcols/parabolic_sar.go:51-97 | The first value: up exactly when the second close is above the first, the stop from the first bar's low or high, unless already penetrated |
| `ParabolicSar.FlipShown` | contextcols/parabolic_sar.go:98-102 | A flip is 1 where a falling trend turned up, -1 where a rising one turned down, else 0 |
| `ParabolicSar.PublishedExactlyWhen` | contextcols/parabolic_sar.go:17-50 | A value is published for every bar but the first, up to the first bar out of order, under sound options |
| `ParabolicSar.SarPrefix` | contextcols/parabolic_sar.go:39-104 | Later bars do not change what is published |
| `RegimeTrend.TrendState.Classify` | contextcols/ranges.go:373-403 | One call keeps the two variables equal to their history-free meaning and returns the regime they mean |
| `RegimeTrend.Regimes` | contextcols/ranges.go:373-403 | For any settings, a bar is trending exactly when some earlier bar ends enough consecutive strong bars and every bar since holds |
| `RegimeTrend.TrendingStep` | contextcols/ranges.go:373-403 | How trending at a bar follows from the bar before |
| `RegimeTrend.RegimesShown` | contextcols/ranges.go:373-403 | Up is trending with a close at or above the one erLen bars back, down is trending below it, choppy is neither ranging nor trending |
| `RegimeTrend.TrendingIsStrong` | contextcols/ranges.go:373-403 | A trending bar keeps the exit efficiency since a run of persistence bars at the entry efficiency |
| `RegimeTrend.RegimePrefix` | contextcols/ranges.go:373-403 | The regime at a bar depends on the bars up to it only |
| `RegimeTrend.MemorylessCase` | contextcols/ranges.go:356-371 | With one bar of persistence and equal thresholds it is the stateless rule |
| `RegimeTrend.Settings.Normalized` | contextcols/options.go:44-52 | Normalised settings have exit <= enter and persistence >= 1; each field is kept when sound and otherwise takes its stated default |
| `Seasonality.Compute` | contextcols/seasonality.go:64-128 | For nondecreasing times every row equals a recount of the earlier bars of its bucket inside the lookback, and of its next bucket |
| `Seasonality.SeasonState.Prune` | contextcols/seasonality.go:159-181 | Pruning drops the old front and keeps the counters equal to the queue |
| `Seasonality.SeasonState.Read` | contextcols/seasonality.go:82-102 | Reading a row before its bar is added |
| `Seasonality.SeasonState.Add` | contextcols/seasonality.go:104-126 | Adding a bar keeps every bucket in step |
| `Seasonality.PruneMatches` | contextcols/seasonality.go:159-181 | Lazy pruning leaves exactly the observations inside the lookback |
| `Seasonality.StatCounts` | contextcols/seasonality.go:183-214 | The three counts are numbers of earlier bars in the bucket and lookback |
| `Seasonality.StatsShown` | contextcols/seasonality.go:183-214 | The counts are the earlier bars that closed above, below and at their open; the class is the share of the first among the first two, by the bands of 76, 56, 45 and 26 percent |
| `Seasonality.NextHourNeedsEarlierBar` | contextcols/seasonality.go:90-100 | An intraday projection is present exactly when an earlier bar fell in the next hour |
| `DaySegments.SummaryMeans` | contextcols/columns.go:484-500 | A day summary is first open, extremes, last close and index span of its bars |
| `DaySegments.RunMeans` | contextcols/levels.go:154-181 | A run is first open, extremes and last close of the bars inside its segment |
| `DaySegments.KeysAscend` | contextcols/levels.go:86-93 | The days of a sorted series are its sorted keys |
| `DaySegments.LastRunIsCausal` | contextcols/levels.go:190-202 | The last run over by T[i] is the same from bars 0..i and from any more |
| `LevelColumns.SummarizeDays` | contextcols/columns.go:484-500 | The map update loop summarises every day |
| `LevelColumns.PreviousDays` | contextcols/levels.go:95-102 | Every listed day but the first gets the summary before it |
| `LevelColumns.PriorDayRangeAverages` | contextcols/levels.go:113-132 | The sliding sum gives the mean range of the last lookback earlier days |
| `LevelColumns.CollectSessionRuns` | contextcols/levels.go:154-181 | The scan of each day's own bars finds its session run |
| `LevelColumns.BuildOvernightRuns` | contextcols/levels.go:204-231 | The single advancing pointer finds every overnight run across midnight |
| `LevelColumns.AdvancePointer` | contextcols/levels.go:190-202 | The pointer stands on the last run that is over and never moves back |
| `LevelColumns.SortedDayKeys` | contextcols/levels.go:86-93 | The keys of a map, which come in no order, as the ascending list of exactly those keys |
| `LevelColumns.Build` | contextcols/columns.go:274-377 | All level columns of the build loop equal the recount over the whole series |
| `LevelMeanings.SessionsShown` | contextcols/levels.go:144-231 | At every bar the session levels are the candles of the latest finished session from 0 to 8, 7 to 16 and 12 to 21 UTC, and overnight from 20 to 8 |
| `LevelMeanings.PriorDayShown` | contextcols/levels.go:95-102 | The prior day is the whole candle of the last date with a bar before the bar's own |
| `LevelMeanings.AverageShown` | contextcols/levels.go:113-132 | The average is the mean of highest high less lowest low over the last lookback dates before the bar's own |
| `LevelColumns.RowIsCausal` | contextcols/columns.go:328-377 | Every level at bar i from n bars is what the first i+1 bars say |
| `LevelColumns.NoLookAhead` | contextcols/columns.go:328-377 | Built from bars 0..i alone, row i is the same as built from the whole series |
| `LevelColumns.RunningDay` | contextcols/columns.go:311-346 | The running open, high and low are the day's so far, except on the day before the epoch at the start of a series |
| `OrderBroker.Broker.Run` | engine/broker.go:294-354 | Over every run the queues, the position and the trades are those of a ledger with a single live slot, for any decisions, moved stops, time exits and directly queued orders among them; pending orders, limit orders and position together at most one; entries are trades plus the open position; every trade shows a justified entry and exit, the stop never having moved away from the price; cash when flat is gross less two fees per unit |
| `OrderBroker.Broker.OpenPosition` | engine/broker.go:561-619 | Opening happens only with no position open, and takes one entry fee |
| `OrderBroker.Broker.ClosePosition` | engine/broker.go:624-673 | One trade with its points and profit; the position's deferred exits go with it |
| `OrderBroker.Broker.FillPending` | engine/broker.go:412-422 | A queued market order fills at the open of the bar after its signal |
| `OrderBroker.Broker.FillLimits` | engine/broker.go:424-448 | A limit fills on the first touching bar after placement, at the open when gapped, or is dropped at its expiry |
| `OrderBroker.Broker.ResolveIntrabarExit` | engine/broker_deferred_exits.go:31-61 | Carried stop gap, then a target passed at the open where the policy asks for it, then stop, then target; otherwise the position survives the bar |
| `OrderBroker.Broker.FillPendingExits` | engine/broker_deferred_exits.go:18-29 | With at most one deferred exit it stays in bounds and leaves at the open |
| `OrderBroker.Broker.Decide` | engine/broker.go:450-555 | Every family decision, behind its guard, does what it does to the single slot |
| `OrderBroker.Broker.DecideHeld` | engine/broker.go:624-688 | What a held position is asked to do: a deferred exit once, an exit at this close, a stop moved toward the price |
| `OrderBroker.Broker.TightenStop` | engine/broker.go:675-688 | The stop only ever moves toward the price, and what is on record about the position stays true |
| `OrderBroker.Broker.WorkBar` | engine/broker.go:303-346 | One bar: the queue walks and the decisions do to the lists what one step does to the single slot |
| `OrderBroker.SlippageIsAdverse` | engine/broker.go:568-631 | Slippage works against the trade on entry and exit, and points are signed by side |
| `OrderBroker.RiskIsSized` | engine/broker.go:573-590 | Size times stop distance is the stated risk, and a stop distance is kept from the fill |
| `OrderBroker.LimitNeverWorse` | engine/broker.go:430-438 | A touched limit fills inside the bar and never worse than the limit |
| `OrderBroker.ExitMeaning` | engine/broker_deferred_exits.go:31-61 | On a valid bar a position leaves exactly when stop or target trades, the stop first and at the worse open when gapped, except that a policy with opening targets takes a target passed at the open before a stop not yet passed |
| `OrderBroker.FlatCash` | engine/broker.go:607-637 | Summed profits less entry fees are gross less two fees per traded unit |
| `OrderLife.LimitLife` | engine/broker.go:424-448 | A limit rests after every bar before its last chance that does not meet it; the first bar to meet it, up to its expiry, fills it at the limit or a better open; when none does it is gone before that bar's decisions |
| `OrderLife.EveryOrderCaused` | engine/broker.go:450-555 | Over every run the live order or position and every trade carry an order that a decision on an earlier bar asked for, with that decision's side, stop, target and risk |
| `OrderLife.EveryExitAsked` | engine/broker_deferred_exits.go:18-29 | Over every run each rule exit was told on the bar before and each time exit on its own bar |
| `OrderLife.DecisionTaken` | engine/broker.go:450-555 | From an idle broker every order decision is taken, and what becomes live is exactly the order it asks for |
| `OrderLife.HeldDecisionTaken` | engine/flag.go:383-393 | A held position is told to leave once, closed at this close, or has its stop moved |
| `OrderLife.QueuedFillsNext` | engine/broker.go:412-422 | A queued order becomes a position at the next open |
| `OrderLife.ToldToLeaveGoes` | engine/broker_deferred_exits.go:18-29 | A position told to leave is closed at the next open under its rule |
| `OrderLife.HeldThroughBar` | engine/broker_deferred_exits.go:31-61 | A held position goes through a bar unchanged unless the bar trades at its stop or its target, which closes it |
| `OrderLife.PricesInFull` | engine/broker.go:561-637 | Fills and exits with the exact slippage, a fixed part and basis points of the price, and profit per unit less one fee |
| `OrderLife.LevelsInFull` | engine/broker.go:568-590 | A stated stop or target distance is measured from the fill on its own side, otherwise the stated level stands; size given, by risk or one unit |
| `OrderLife.TightenTakesBetter` | engine/broker.go:675-688 | A tightened stop is the better of the old and the new |
| `DeferredExits.Drain` | engine/broker_deferred_exits.go:18-29 | On any list: the walk indexes past the end if and only if closing drops more entries before the closing one than stay behind it; otherwise exactly the entries not due stay, less the closed position's |
| `DeferredExits.DropOwn` | engine/broker.go:660-664 | The closing loop drops exactly the closed position's entries and keeps the others in order |
| `DeferredExits.OneEachIsSafe` | engine/broker_deferred_exits.go:18-29 | At most one deferred exit per position keeps the walk in bounds |
| `DeferredExits.TwoExitsOverrun` | engine/broker_deferred_exits.go:18-29 | Two due exits for the open position run past the end |
| `EntryScheduler.InferredDuration` | engine/entry_scheduler.go:94-103 | The one-pass duration |
| `EntryScheduler.DurationIsLeastGap` | engine/entry_scheduler.go:94-103 | It is the least positive step between neighbours, zero when there is none |
| `EntryScheduler.ScheduleSourceEvents` | engine/entry_scheduler.go:109-139 | The merge equals the plan of searches, for every list of decisions |
| `EntryScheduler.PassIsSearch` | engine/entry_scheduler.go:109-139 | For decisions in order: one that is first of its index and whose bar closes at or after the chart's first open gets what its own search gives, the least chart bar closing strictly after it or nothing; any other gets nothing |
| `EntryScheduler.PlanIsOrderly` | engine/entry_scheduler.go:109-139 | Each index at most once, chart indexes nondecreasing, whatever the order |
| `EntryScheduler.SearchedExactlyWhen` | engine/entry_scheduler.go:130-137 | In any order a decision looked at for the first time gets what its own search gives, an entry or nothing, if and only if no decision considered before it waits for a later chart bar |
| `EntryScheduler.OutOfOrderDiffers` | engine/entry_scheduler.go:130-137 | A list out of order where a decision is sent to a later bar than its search finds |
| `EntryScheduler.OutOfOrderLoses` | engine/entry_scheduler.go:130-137 | A list out of order where a decision is lost although its search finds a bar |

## Left out

- IEEE rounding, NaN and infinities: prices are exact reals, so finiteness tests of the code hold trivially and their rejection reasons for non-finite results are not reached.
- Integer width: timestamps, indexes and counts are unbounded; the ranges the code checks are modelled where it checks them.
- Error texts and byte positions of errors: only the fact and kind of a refusal are kept.
- ClockRangeBroker.Broker.Run: takes an admitted configuration and series; the empty result for a run that skipped validation, the pip table and the risk field of the configuration are not modelled.
- ClockSchedule.TimeframeMinutes: takes the label already split into count and unit; trimming and matching of label text are library calls.
- ClockDay.SearchTime: the library's binary search is modelled by its result on sorted times.
- Day keys as text and trade metadata: days are numbers, and only the fields that the properties mention are kept.
- Other setup families and their windows, partial exits and sequential or paper accounting: the broker is the unwindowed run without them; what a trailing or breakeven rule does to a stop is a decision, the rule itself is not modelled.
- OrderBroker.Broker.Run: family decisions are inputs, so admission gates appear as absent decisions; the windowed close and partial exits are not modelled.
- The scheduled variant of the run loop (engine/broker.go:372-410): its dispatch of captured orders is one of the decisions of the ordinary loop.
- Adaptive-flag identity hashes, assumption texts, the reported gap list, the research overlay, the planned and actual stop distances: bookkeeping beside the orders.
- AdaptivePortfolio.Portfolio.ClosePosition: the shared broker records behind the adaptive orders carry zero costs and are dropped by the code; prices pass through unchanged.
- JsonReader.StrictJSON: an object is its list of members with distinct keys in source order; the code stores the same members in a map.
- UTF-8 decoding is a library routine in the code and a function here.
- LeastSquares.FitLine: the empty list, where the code divides by zero, is excluded.
- Seasonality.Compute: bucket names other than the hour come from a calendar library and are inputs; one requested series at a time.
- LevelColumns.Build: the prior-prior day, Camarilla levels, VWAP and the remaining columns are not modelled; the library sort of the day keys is an insertion.
- LevelColumns.AdvancePointer: three sessions and the overnight segment share it; overnight widths and their ATR ratio are arithmetic on its run.
- Range detection, channel detection beyond the line fit, volume profiles and swing columns: local predicates that add easy members.
- Configuration decoding, SHA identities, files, WASM and command line.
