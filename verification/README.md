# ZapLab: verified models

Dafny models of the self-contained algorithms and small concurrent protocols inside ZapLab, each
proved against an independent, simpler description of what it is for. `dafny verify dfyconfig.toml`
checks the whole project.

| module | models |
|---|---|
| `Calendar` | the proleptic Gregorian calendar behind `time.Time`, and `time.Date`'s normalisation |
| `GoStrings`, `CronField`, `CronSearch`, `CronMeaning`, `CronCoverage`, `CronRegistry` | the cron scheduler: field matching, the skip-ahead search for the next run, what an expression means from its text to the instant, which expressions always have a next run, the table of schedules |
| `Identity`, `ChatList`, `GroupStats` | LID → phone-number identity: table migration, read-time merge of the chat list, per-member statistics |
| `ProbeProtocol`, `TrackerRegistry`, `DeviceState` | the device activity tracker: probes and receipts, the registry and its sessions, round-trip windows and classification |
| `Pcap`, `Csv` | the PCAP writer and the CSV export, each with a reader |
| `Routing`, `Simulation` | positions along a GPX route, the update loop, the registry of running simulations |
| `RingBuffer`, `SseBroker`, `NetworkGraph` | the in-memory log ring, the event broker, the contact graph |
| `Common` | options, sequence helpers, the text order and arithmetic facts shared by the others |

## Reading the model

* **Time.** An instant is an integer number of nanoseconds since Go's zero time, and a zone is a fixed
  offset of whole minutes. The search works on wall-clock minute numbers. A zero `time.Time` is `None`.
* **Naive scan.** `CronSearch.FirstSuch` tries one minute after another. The skipping loop `Search`
  is proved to return the same minute for every schedule and every start. Day of month and weekday
  are both required, as the code has it (POSIX crontab would take either).
* **Folded predicates.** Lemmas about a schedule take a function `p` with `Decides(p, s)`, which says
  that `p` is the test "minute matches `s`"; `Matcher(s)` is such a function. `Simulation.Describes` and
  `RingBuffer.Decides` are used in the same way.
* **Generic lemmas.** Where a proof only compares JIDs it is stated for any type `K` of JIDs.
* **Concurrency.** `ProbeProtocol`, `SseBroker` and the first half of `TrackerRegistry` are state
  machines whose steps are critical sections, channel operations and returns from calls. A run is any
  sequence of enabled steps; the theorems hold for every run.
* **Reals.** Distances, times in a simulation and round-trip times are mathematical reals. The
  great-circle distance is any non-negative function of two points, the bearing any function.

## Results that bound what the code does

* `CronCoverage.NeverZeroIff`: an expression has a next run from every start exactly when it has five
  fields, some time of day matches, and each of the 146097 days of the calendar's 400-year cycle has a
  matching day among the 366 after it. With weekday `*` that is: some date other than 29 February matches.
  `CronCoverage.LeapDayScheduleMissed` and `CronCoverage.FridayThirteenthMissed` show the valid expressions
  `0 0 29 2 *` and `0 0 13 * 5` coming back empty, which `registerCron` reports as invalid and drops.
* `Identity.MigrationNormalizesIff`: the migration applies a LID's first mapping and the read-time map
  its last; they agree on all events exactly when those give the same number (the table's primary key
  makes LIDs distinct).
* `GroupStats.IdentitySumsIff`: the two loops give every device-free JID the total of its identity, for all
  rows the query can return, exactly when no two LIDs share a phone number (LIDs and numbers in the map have
  no device part, as the code says). `GroupStats.SharedNumberLosesCounts` shows the counts when two do.
* `Pcap.PcapRoundTrip`: a file reads back exactly when every payload has at most 65493 bytes (the frame
  then fits the snapshot length of 65535 that the header announces) and every time is in [0, 2^32) seconds.
* `Csv.CsvRoundTrip`: a table reads back exactly when it has a record and each record has a field, by a
  reader for which CRLF always separates two records. Section 2 of RFC 4180 also lets a final CRLF just end
  the last record; a reader that does so (`Csv.CsvRoundTripTerminated`) loses one more shape, a last record
  of a single empty field. The exports have five or more columns, so they read back either way.
* `Simulation.Manager.Finish`: the list of running simulations stays exact exactly when no other running
  simulation was given the same random ID.

## Model

| member | source | states |
|---|---|---|
| `Calendar.DateOfDayNumber` | internal/api/cronmanager.go:237-247 | every day number has a valid date that numbers back to it |
| `Calendar.DayNumberDateOf` | internal/api/cronmanager.go:237-247 | every valid date is the date of its own day number |
| `Calendar.DateOfIsGregorian` | internal/api/cronmanager.go:237-247 | the date of the next day is the next date of the Gregorian calendar, leap years included |
| `Calendar.DayZero` | internal/api/cronmanager.go:247 | day 0, Go's zero time, is Monday, 1 January of year 1 |
| `Calendar.MinuteAtReadsBack` | internal/api/cronmanager.go:239-251 | `time.Date` on an in-range wall-clock reading reads back as that reading |
| `Calendar.SameMonthUntilNextFirst` | internal/api/cronmanager.go:237-240 | every minute jumped over by the month skip lies in the month that did not match, across year ends |
| `Calendar.NextMidnight` | internal/api/cronmanager.go:242-248 | `t.Day()+1` is normalised to the next midnight, also at month and year ends |
| `Calendar.NextFullHour` | internal/api/cronmanager.go:250-252 | `t.Hour()+1` is normalised to the next full hour, also at midnight |
| `GoStrings.FieldsOfSpaced` | internal/api/cronmanager.go:225-229 | the fields of words with any white space before, between and after them are the words |
| `GoStrings.SpacedFields` | internal/api/cronmanager.go:225-229 | every text is its fields with white space around them, so no character is lost |
| `GoStrings.SplitOfJoin` | internal/api/cronmanager.go:288 | splitting a list undoes joining parts that hold no separator |
| `GoStrings.AtoiOfNumeral` | internal/api/cronmanager.go:271-299 | a decimal numeral, with or without sign and leading zeros, parses to its value if a 64-bit int holds it, and fails otherwise |
| `GoStrings.AtoiOnlyNumerals` | internal/api/cronmanager.go:271-299 | every text that parses is such a numeral, of the value returned |
| `CronField.MatchField` | internal/api/cronmanager.go:264-308 | the early returns decide exactly: `*`, or the step form, or some list part that matches |
| `CronField.MatchStep` | internal/api/cronmanager.go:269-286 | the step form, with its parse failures, the lower bound, and the 64-bit difference |
| `CronField.MatchList` | internal/api/cronmanager.go:287-303 | the loop over list parts finds a match if and only if some part matches |
| `CronField.ShownFieldMeaning` | internal/api/cronmanager.go:217-220 | each documented form (`*`, `*/n`, `a/n`, lists of values and ranges) matches exactly the progression or the intervals it denotes |
| `CronField.WrapIsTwosComplement` | internal/api/cronmanager.go:284 | the difference in the step form is the 64-bit integer congruent to it |
| `CronField.BadListMatchesNothing` | internal/api/cronmanager.go:287-303 | a list none of whose parts is a number or a range of numbers matches no value |
| `CronField.BadStepMatchesNothing` | internal/api/cronmanager.go:269-283 | a step form whose step is no number, or whose start is neither a star nor a number, matches no value |
| `CronField.UnsupportedForms` | internal/api/cronmanager.go:264-308 | `MON-FRI` and `1-5/2` match no value |
| `CronSearch.Search` | internal/api/cronmanager.go:231-260 | the skipping loop terminates and returns what the minute-by-minute scan of 366 days returns |
| `CronSearch.Step` | internal/api/cronmanager.go:236-258 | one iteration either stops at the scan's answer or moves strictly forward over minutes that do not match |
| `CronSearch.NextCronTime` | internal/api/cronmanager.go:224-261 | for every expression, start and offset: the instant found by the minute scan, none unless there are five fields |
| `CronSearch.NextIsFirst` | internal/api/cronmanager.go:222-261 | a result is a whole minute strictly after `from` matching all five fields, with none between; no result means no match in the 366 days |
| `CronSearch.NextIsMonotone` | internal/api/cronmanager.go:222-261 | a later start never gives an earlier run, and gives the same run until that run is due |
| `CronMeaning.NextRunMeaning` | internal/api/cronmanager.go:217-261 | for five fields written in the documented syntax, in the order minute, hour, day, month, weekday, with any white space around them: the result is the first whole minute after `from` whose wall-clock reading all five denote, or none of the 366 days has one |
| `CronCoverage.NeverZeroIff` | internal/api/cronmanager.go:224-260 | for every expression: the result is never zero if and only if there are five fields, some time of day matches, and every day of the 400-year cycle has a day matching date and weekday among the 366 after it |
| `Calendar.CalendarRepeats` | internal/api/cronmanager.go:237-247 | dates and weekdays repeat every 146097 days, which makes that condition a finite one |
| `CronCoverage.WildcardWeekdayNeverZeroIff` | internal/api/cronmanager.go:234-260 | with weekday `*`, the result is never zero if and only if some time of day and some date other than 29 February match |
| `CronCoverage.WildcardDateNeverZeroIff` | internal/api/cronmanager.go:234-260 | with day and month `*`, the result is never zero if and only if some time of day and some weekday match |
| `CronCoverage.LeapDayScheduleMissed` | internal/api/cronmanager.go:224-260 | `0 0 29 2 *` matches every 29 February midnight, yet nextCronTime gives zero from New Year of a common year followed by another |
| `CronCoverage.FridayThirteenthMissed` | internal/api/cronmanager.go:224-260 | `0 0 13 * 5` matches every Friday the 13th midnight, yet nextCronTime gives zero right after Friday 13 July of a common year followed by another |
| `CronRegistry.Registry.Register` | internal/api/cronmanager.go:87-127 | replaces the entry, closing its stop channel once; an empty, malformed or never-matching expression only removes it |
| `CronRegistry.Registry.Unregister` | internal/api/cronmanager.go:129-136 | removes the entry and closes its stop channel; every channel stays closed once or owned by one entry |
| `CronRegistry.Registry.RunEnded` | internal/api/cronmanager.go:53-59 | a finished run gets its previous and next run times, unless the script was unregistered meanwhile |
| `CronRegistry.AddKeepsChannels` | internal/api/cronmanager.go:107-115 | a new entry's channel is its own, and every channel made is still closed or owned |
| `CronRegistry.RemoveKeepsChannels` | internal/api/cronmanager.go:92-95 | removing an entry turns its channel from owned to closed and touches no other |
| `CronRegistry.DueMeansMatched` | internal/api/cronmanager.go:48-56 | a due script's matching minute has passed and follows its last run; after the run it is not due again before another matching minute has passed |
| `CronRegistry.MatchedMeansDue` | internal/api/cronmanager.go:46-48 | an entry is due as soon as the clock has passed any matching minute of the 366 days after its run time was computed |
| `Identity.LoadLIDMap` | internal/api/lidmigration.go:16-34 | a JID is in the map if and only if it is the `@lid` JID of a row with both users, and it gets the `@s.whatsapp.net` JID of the last such row |
| `Identity.MapOfRows` | internal/api/lidmigration.go:27-32 | the same of the mappings both functions read, for every LID |
| `Identity.MapOfLookup` | internal/api/lidmigration.go:27-32 | a LID is in the map if and only if some row maps it, and it gets its last row's number |
| `Identity.NormalizeIsCanonical` | internal/api/lidmigration.go:36-45 | a normalised JID is never a mapped LID; normalising is idempotent |
| `Identity.EventTable.UpdateSender` | internal/api/lidmigration.go:96-106 | the UPDATE rewrites exactly the rows whose sender is the LID, and counts them |
| `Identity.EventTable.UpdateChat` | internal/api/lidmigration.go:108-118 | the UPDATE rewrites exactly the rows whose chat is the LID, and counts them |
| `Identity.RunLIDMigration` | internal/api/lidmigration.go:59-124 | over the mappings that `MapOfRows` ties to the rows, the loop of updates, each of which may fail, leaves every event as its own sequence of replacements, and reports the sum of affected rows |
| `Identity.MigrationNormalizesIff` | internal/api/lidmigration.go:36-45 | sequential updates equal per-event normalisation on all events if and only if each LID's first and last mapping agree |
| `Identity.MigratedTableIsNormalized` | internal/api/lidmigration.go:47-58 | a run without failures normalises the sender and chat of every event, and leaves no mapped LID |
| `Identity.MigratedTableByRows` | internal/api/lidmigration.go:73-119 | for distinct LID users: after a run without failures a sender or chat that was a row's LID is that row's number, and every other one is as before |
| `Identity.MigrateWithoutFailures` | internal/api/lidmigration.go:59-124 | the loop of updates does that to the table |
| `Identity.MapOfOrderIndependent` | internal/api/lidmigration.go:16-34 | the read-time map does not depend on the order or repetition of the mappings |
| `Identity.MigrationOrderIndependent` | internal/api/lidmigration.go:73-119 | neither does the migrated table |
| `Identity.RetryCompletes` | internal/api/lidmigration.go:56-58 | whatever statements failed in one run, the next run without failures completes the normalisation |
| `Identity.UpdatedCountIsMappedFields` | internal/api/lidmigration.go:92-123 | the reported count is the number of fields that held a mapped LID: none rewritten twice, none missed |
| `ChatList.MergeChats` | internal/api/conversation.go:80-107 | the `seen`/`order` loop folds each row into its canonical chat in order of first appearance |
| `ChatList.ReadIsCanonical` | internal/api/conversation.go:80-107 | chats come out distinct and canonical, message counts add up to the same total, newest-first order is kept |
| `ChatList.MergedRows` | internal/api/conversation.go:90-101 | each merged row sums exactly the rows of its identity and has the latest of their times; no identity is lost |
| `ChatList.ReadIsGroupingOfMigrated` | internal/api/conversation.go:60-107 | merging the query's rows gives a correct grouping of the migrated events |
| `ChatList.GroupingUnique` | internal/api/conversation.go:60-70 | the grouping query's rows are determined by the events, up to order |
| `ChatList.ChatListUnchangedByMigration` | internal/api/conversation.go:60-107 | the chat list answered before the migration, the one answered after it, and the plain grouping of the migrated table have the same rows |
| `GroupStats.StripIdempotent` | internal/api/groupoverview.go:145-152 | device stripping is idempotent |
| `GroupStats.StripsDevice` | internal/api/groupoverview.go:147-151 | `user:device@server` becomes `user@server` |
| `GroupStats.StripsOnlyDevices` | internal/api/groupoverview.go:147-151 | a JID that changes has that form |
| `GroupStats.CountSenders` | internal/api/groupoverview.go:143-159 | a stripped sender gets the sum of its rows; an unstripped one the running sum as of its own row |
| `GroupStats.AddAliases` | internal/api/groupoverview.go:160-174 | the loop over the LID map, in any iteration order, as a sequence of alias steps |
| `GroupStats.AliasesCombine` | internal/api/groupoverview.go:162-174 | both keys of each pair end with the sum of what either had, whatever the iteration order |
| `GroupStats.AliasesLeave` | internal/api/groupoverview.go:162-174 | keys outside the LID map keep their counts |
| `GroupStats.GroupStatsAreIdentitySums` | internal/api/groupoverview.go:142-174 | every device-free JID shows the total of all rows whose stripped sender normalises to the same identity |
| `GroupStats.LookupShowsTotals` | internal/api/groupoverview.go:142-174 | with rows given by user, device and server: a JID without device shows the messages and media of all devices of its account and of the account it is paired with |
| `GroupStats.MemberStats` | internal/api/groupoverview.go:142-174 | both loops together compute that |
| `GroupStats.IdentitySumsIff` | internal/api/groupoverview.go:162-174 | that holds for all rows the query can return if and only if no two LIDs share a number |
| `GroupStats.SharedNumberLosesCounts` | internal/api/groupoverview.go:162-174 | two LIDs of one number with one message each: after both loops the LID iterated first shows one message, its identity sent two |
| `ProbeProtocol.EveryRunSafe` | internal/whatsapp/activitytracker.go:65-80 | in every interleaving: at most one send per channel, none dropped, an ended probe is out of the waiter map, no wake-up is lost |
| `ProbeProtocol.AllEndedNoWaiters` | internal/whatsapp/activitytracker.go:198-231 | when all probes have ended the waiter map is empty |
| `ProbeProtocol.ReceivedWasDelivered` | internal/whatsapp/activitytracker.go:65-80 | a probe reports a round-trip time only if that value was sent to it after a receipt with its ID |
| `ProbeProtocol.EndsOnce` | internal/whatsapp/activitytracker.go:198-231 | no later step, late or duplicate receipts included, changes how a probe ended |
| `ProbeProtocol.EndedForItsReason` | internal/whatsapp/activitytracker.go:207-231 | a probe that failed to send, timed out or was cancelled had that happen to it |
| `ProbeProtocol.StepKeepsInv` | internal/whatsapp/activitytracker.go:64-80 | each critical section and channel operation keeps the one-token-per-probe invariant |
| `TrackerRegistry.SessionsClosedOnce` | internal/whatsapp/activitytracker.go:82-141 | in every interleaving a session is closed at most once and never while live; with no close pending, exactly those of removed trackers are closed |
| `TrackerRegistry.StepKeepsInv` | internal/whatsapp/activitytracker.go:82-141 | each step keeps every created session at exactly one of live, removed, closed |
| `TrackerRegistry.ErrorsToldApart` | internal/whatsapp/activitytracker.go:91-97 | the text test of isAlreadyTracking tells StartTracker's two errors apart |
| `TrackerRegistry.Registry.StartTracker` | internal/whatsapp/activitytracker.go:84-109 | the three outcomes, and the map after each |
| `TrackerRegistry.MethodForMeaning` | internal/whatsapp/activitytracker.go:85-87 | the probe method is "delete" unless "reaction" was asked for |
| `TrackerRegistry.Registry.StopTracker` | internal/whatsapp/activitytracker.go:112-126 | removes the tracker and closes its session, or reports that there is none |
| `TrackerRegistry.Registry.StopAllTrackers` | internal/whatsapp/activitytracker.go:129-141 | empties the map and closes each removed tracker's session exactly once |
| `TrackerRegistry.Registry.StartTrackersBulk` | internal/whatsapp/activitytracker.go:145-159 | each counter counts exactly its JIDs: started and failed those not tracked at their turn whose session is created or refused, skipped the rest; the map grows by `started` |
| `TrackerRegistry.BulkStartAdds` | internal/whatsapp/activitytracker.go:145-159 | a bulk start keeps every tracker and adds, per new JID, that of its first successful session |
| `DeviceState.Tracker.Classify` | internal/whatsapp/activitytracker.go:242-268 | after any history the windows are exactly its last 2000 and last 3 times, and the state is the one they give |
| `DeviceState.Tracker.EndProbe` | internal/whatsapp/activitytracker.go:215-237 | a timeout sets Offline and changes neither window; a received time sets Online while there are fewer than five, and then exactly when ten times the last three are below 27 times the median of the last 2000, else Standby |
| `DeviceState.AtMedian` | internal/whatsapp/activitytracker.go:270-282 | computes the middle of the sorted copy |
| `DeviceState.AtMovingAvg` | internal/whatsapp/activitytracker.go:284-293 | the summing loop computes the average |
| `DeviceState.SortSorts` | internal/whatsapp/activitytracker.go:274-276 | the sorted copy is sorted and a permutation |
| `DeviceState.MedianOfPermutation` | internal/whatsapp/activitytracker.go:270-282 | the median does not depend on the order of the samples |
| `DeviceState.MedianHalves` | internal/whatsapp/activitytracker.go:270-282 | at least half the samples are at most the median and at least half are at least it |
| `DeviceState.MedianIsMiddle` | internal/whatsapp/activitytracker.go:270-282 | half the sum of the one or two middle values of the samples in order |
| `DeviceState.StateScaleInvariant` | internal/whatsapp/activitytracker.go:256-267 | scaling all round-trip times by a positive factor leaves the state unchanged |
| `DeviceState.FasterIsOnline` | internal/whatsapp/activitytracker.go:252-267 | three times below 9/10 of the median mean Online, three that are not mean Standby, and faster answers against the same median never turn Online into Standby |
| `Pcap.MakeUdpHeader` | internal/api/pcap.go:136-141 | the bytes of the UDP header |
| `Pcap.MakeIpHeader` | internal/api/pcap.go:144-151 | the bytes of the IPv4 header |
| `Pcap.MakeEthernetHeader` | internal/api/pcap.go:154-157 | the bytes of the Ethernet header |
| `Pcap.WriteGlobalHeader` | internal/api/pcap.go:121-130 | appends the 24-byte file header |
| `Pcap.WritePacket` | internal/api/pcap.go:132-174 | appends the record header and frame, with 16-bit lengths and truncated, wrapped time fields |
| `Pcap.WriteFile` | internal/api/pcap.go:81-94 | the file is the global header and one record per row |
| `Pcap.PcapRoundTrip` | internal/api/pcap.go:121-174 | a reader following the headers, which rejects records that announce more than was captured, recovers exactly the times and payloads, if and only if all fit |
| `Pcap.ReadPacketBound` | internal/api/pcap.go:128 | whatever a record says, at most 65493 payload bytes survive the snapshot length |
| `Pcap.FileSize` | internal/api/pcap.go:121-174 | the size is 24 plus, per record, 58 and its payload |
| `Pcap.FrameHeaders` | internal/api/pcap.go:134-157 | stations, hosts, hop limit, ports and the zero fields of every frame |
| `Pcap.LengthsWrap` | internal/api/pcap.go:136-147 | the length fields of any payload are the true lengths modulo 65536 |
| `Pcap.UnsignedMeaning` | internal/api/pcap.go:136-172 | a conversion to 16 or 32 unsigned bits keeps the number up to multiples of the range |
| `Pcap.TruncMeaning` | internal/api/pcap.go:169-170 | the time's quotient and remainder make up the time, and the remainder has its sign |
| `Csv.CsvRoundTrip` | pb_public/js/sections/eventbrowser.js:211-234 | an RFC 4180 reader recovers exactly the fields, if and only if there is a record and each has a field |
| `Csv.CsvRoundTripTerminated` | pb_public/js/sections/errorbrowser.js:140-154 | the same for a reader that lets a final CRLF end the last record: one more shape, a last record of one empty field, is lost |
| `Csv.ReadField` | pb_public/js/sections/errorbrowser.js:140-145 | an escaped cell reads back as its text before any comma, CRLF or the end, lone carriage returns included |
| `Csv.EscOnlyWhenNeeded` | pb_public/js/sections/errorbrowser.js:140-145 | a cell is printed as it is if and only if it has no comma, quote or line feed |
| `Csv.FetchAll` | pb_public/js/sections/eventbrowser.js:200-209 | the paging loop collects exactly the first 1000 items of a listing, or all of a shorter one |
| `Csv.ExportCsv` | pb_public/js/sections/errorbrowser.js:131-154 | the exported text reads back as the header row and one row per item |
| `Routing.Route.constructor` | internal/simulation/route.go:43-51 | the prefix distances and the total |
| `Routing.Route.FindSegment` | internal/simulation/route.go:65-74 | the binary search ends at the last index whose distance is at most `d`, as a linear scan would |
| `Routing.Route.PointAt` | internal/simulation/route.go:55-91 | the position by scan and interpolation, with both end cases |
| `Routing.PositionIsAtDistance` | internal/simulation/route.go:76-83 | the segment has positive length, the fraction is in [0, 1), and the distance travelled is exactly `d` |
| `Routing.PointIsOnSegment` | internal/simulation/route.go:65-91 | the point is as far along its segment's latitudes and longitudes as `d` is along its length, with the segment's bearing and the speed in metres per second |
| `Routing.PointAtStart` | internal/simulation/route.go:56-59 | at a distance of zero or less: the first point, heading for the second |
| `Routing.PositionNeverGoesBack` | internal/simulation/route.go:65-83 | a larger distance is never an earlier segment, nor a smaller fraction of the same one |
| `Simulation.Run` | internal/simulation/manager.go:100-155 | the loop terminates within the bound of rounds and sends round after round until the end or a cancellation |
| `Simulation.RunArrives` | internal/simulation/manager.go:102-148 | never stopped: numbers 1, 2, 3, …, distances never fall, the last update and only it is the arrival |
| `Simulation.UpdateSays` | internal/simulation/manager.go:100-122 | each update has its number, the elapsed time, the distance covered at the trip's speed by then, and the route's point there |
| `Simulation.StoppedRunIsPrefix` | internal/simulation/manager.go:150-154 | a cancelled run is a prefix of the full one |
| `Simulation.ArrivalMatchesEstimate` | internal/simulation/manager.go:78-106 | the arrival is the first update at or after the estimated duration |
| `Simulation.Manager.Start` | internal/simulation/manager.go:54-87 | refusal of a route of zero length; otherwise an entry with the speed and interval asked for, or 60 km/h and 5 s, and the route's length, travel time and waypoints |
| `Simulation.Manager.Stop` | internal/simulation/manager.go:162-171 | cancels but keeps the entry |
| `Simulation.Manager.Finish` | internal/simulation/manager.go:90-94 | the listing stays exact if and only if no other running simulation has the same ID |
| `RingBuffer.Ring.Push` | internal/whatsapp/capturelog.go:37-45 | appends to the history, and leaves every slot alone except that of the entry 2000 pushes back |
| `RingBuffer.Ring.Snapshot` | internal/whatsapp/capturelog.go:49-73 | the last `limit` (or all) of the accepted entries among the last 2000 pushed, in push order, through every wrap-around |
| `RingBuffer.SnapshotMeaning` | internal/whatsapp/capturelog.go:49-73 | that is: the entries of the module and level asked for among the last 2000, in increasing position, or the last `limit` of them |
| `SseBroker.EveryRunSafe` | internal/whatsapp/sse.go:25-56 | in every interleaving no send hits a closed channel; a channel holds only events published between its subscription and its deregistration, each at most once, and each of those is accepted, missed or still to be offered |
| `SseBroker.MissedExactlyWhenFull` | internal/whatsapp/sse.go:50-55 | in every run the events a subscriber missed are exactly those whose send to it found 64 unread |
| `SseBroker.SubscriberSeesSubsequence` | internal/whatsapp/sse.go:42-56 | with serialised publications a subscriber sees an in-order subsequence of what was published while it was subscribed |
| `SseBroker.NothingMissedAllSeen` | internal/whatsapp/sse.go:42-56 | with serialised publications, a subscriber that missed nothing was handed exactly the events published during its subscription, in order |
| `SseBroker.SendKeepsLock` | internal/whatsapp/sse.go:48-51 | the read lock keeps every channel of the publishing loop open |
| `NetworkGraph.BuildGraph` | internal/api/network.go:177-246 | each node counts the filtered events in which it is chat or sending member; the edges are those of the events' links |
| `NetworkGraph.EdgesFromCount` | internal/api/network.go:151-169 | each edge's weight is the number of its links, and is sent plus received |
| `NetworkGraph.StringKeysTellEnds` | internal/api/network.go:153-157 | for JIDs without a bar an edge key stands for one unordered pair |
| `NetworkGraph.GraphConserves` | internal/api/network.go:194-246 | the weights at self sum to the filtered events; a group that is no sender weighs on its edge to self what its node counts |
| `NetworkGraph.NodesSay` | internal/api/network.go:193-238 | in terms of the stored events: a node's count is the shown events to it as a chat and by it as a group member; its type follows from its JID, or is contact for a member; without groups no node is one |
| `NetworkGraph.SelfEdgesSay` | internal/api/network.go:206-246 | in terms of the stored events: the edge between the device and a chat weighs the chat's shown events and splits into those sent and received; a graph of one direction has nothing of the other there |
| `NetworkGraph.DirectionsAddUp` | internal/api/network.go:206-212 | the events shown for sent and for received add up to those shown for both |
| `NetworkGraph.EdgesInOrder` | internal/api/network.go:151-161 | every edge has its ends in order and is stored under them joined by a bar |
| `NetworkGraph.Trim` | internal/api/network.go:267-281 | the first 100 ranked nodes, and exactly the edges between kept nodes |
| `NetworkGraph.TrimKeepsHeaviest` | internal/api/network.go:250-269 | self is kept, at most 100 nodes are, all others kept pass the filter, and no dropped node that passes it is heavier than a kept one other than self |

## Left out

- Zones with daylight saving and offsets that are not whole minutes, in the cron search.
- A cron match at Go's zero time itself, which the code would read as "no match".
- Overlapping runs of a slow script: the tick loop does not prevent them, so none is excluded.
- Writing `next_run_at` and script results to the database, and reading the schedules from it.
- Rows of whatsmeow_lid_map that fail to scan; the SQL engine itself (an UPDATE and a grouping query are modelled by what they select).
- The chat list when the query's LIMIT cuts it: the merge then sees a part of the rows only.
- The content of events beyond sender, chat, creation time and whether the list's filter accepts them.
- Member names, admin flags and the top-sender lists of the group overview.
- Probe scheduling, jitter and message sending; duplicate probe IDs, which the library makes unlikely.
- How long the ten-second timeout takes: a timeout may happen at any moment of waiting.
- Float rounding of round-trip times and route positions; NaN.
- DeviceState.AtMedian: `sort.Float64s` is modelled by an insertion sort on values, because the library's code is not part of the repository.
- ProbeProtocol.EveryRunSafe: the shared maps are fields of a state value, because what matters is the order of steps; fairness of Go's select is not modelled.
- SseBroker.EveryRunSafe: each handler unsubscribes its channel once, as `getSSEStream` does; a second unsubscribe would close a closed channel.
- SseBroker.SubscriberSeesSubsequence: with overlapping publications the code promises no order, and none is stated.
- PCAP timestamp parsing and the JSON of the payload: any instant and any bytes are allowed.
- The great-circle and bearing formulas, GPX parsing, and tickers with an interval below a nanosecond.
- The log's sequence numbers, its mutex, and the channel that persists entries.
- Labels of graph nodes, the SQL of the event query, and the order in which ties of `sort.Slice` fall (`NetworkGraph.IsRanking` allows any).
- The preview texts and filters of the two browsers; a listing that changes while it is paged.
