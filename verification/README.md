# Verified model of the EcoFlow Prometheus exporter

A Dafny 4.11 model of the exporter's own logic: the supervisor of the MQTT connection, the way of a sparse
parameter message to exposed series, the protobuf decoder with its naming chain, and the exporter's loops.
`dafny verify dfyconfig.toml` checks everything.

## What is modelled

**The connection supervisor** (`Supervision.dfy`, `Backoff.dfy`, `Outages.dfy`, `StatusTracker.dfy`).
The message callback, the monitor and the session loop share one small state under a mutex, and a one-slot
channel carries re-login requests. `Supervision` defines runs: sequences of timed steps, one per critical
section or channel operation, so that a message may land between any two sections of a monitor tick. Time is
an integer that is read once per section and never decreases. `StatusTracker` is the class with the real
fields, one method per section, and `MonitorTick` is the loop body: its methods have exactly the effects of
the steps, and what a tick does, together with whatever other goroutines do between its sections, is a legal
continuation of any run. `Backoff` and `Outages` prove the rest over all runs. Where a property needs a tick
to be free of messages, the run is required to be `Undisturbed`; `EarlySecondReport` and
`CallsOvertakeAttempts` are runs that show the need, and `EarlyReportExactly` and `ReportedThoughHeard` say
exactly when a report comes too early.

**From messages to series** (`DeviceCache.dfy`, `DeviceUpdates.dfy`, `MetricStore.dfy`, `SeriesKeys.dfy`,
`Pipeline.dfy`, `Clashes.dfy`). The cache is modelled on the heap, because the copies it hands out must not change later.
`MetricStore` has the exporter's string-keyed index as a class, and proves that it stands for a map from
(serial number, metric name), series by series: all that is needed for one series is that no metric of another
device is stored under its key. `Pipeline` puts both together over all runs in which merges, updates and
offline updates interleave. It assumes that the MQTT client runs one message callback at a time. `Clashes`
proves which conditions its results need: for each series, for each device's online series, and for the order
of samples in each run.

**The whole exporter** (`Exporter.dfy`). One step relation joins the supervisor with the pipeline: the
callback's sign of life, merge and update, and the monitor's record and its dispatch of offline updates. Every
run contains a run of each, so both sets of results hold of it, and the online series is compared with the
supervisor's record.

**The decoder and the names** (`Flatten.dfy`, `LeafKeys.dfy`, `FieldPaths.dfy`, `Battery.dfy`, `Decoder.dfy`,
`Naming.dfy`).
Messages are trees whose fields come in some visiting order. Decoding starts from a list of headers; the JSON
and protobuf parsers are parameters. Sequence numbers are 32-bit vectors. `EndToEnd.dfy` follows a field from
its header to its series.

**Loops and protocols** (`Scraping.dfy`, `Watchdog.dfy`, `Retry.dfy`, `Pinging.dfy`). A REST scrape is a
transition system over its workers, the semaphore, the result slots, cancellation and the dispatch loop.
The other three are methods over what the environment does tick by tick; a context that ends is the end of
that list.

## Findings

- The repository's `README.md:79-81` says that three reconnects come before a login. In the code the third
  attempt is itself the re-login, after two reconnects (`ThirdAttemptIsTheLogin`).
- The comment at `mqtt_exporter.go:391-394` promises one offline update per threshold. In the code an offline
  decision can be overtaken by a message. Two reports of a device are closer than the threshold exactly when
  it was silent at the snapshot of the later tick and sent something before that tick recorded it
  (`EarlyReportExactly`, an example is `EarlySecondReport`). No report is missed (`SilentStandsReported`). A
  device is reported although it was heard of within the threshold exactly when such a message is that recent
  (`ReportedThoughHeard`).
- The online series need not agree with the supervisor's record. Once a device's offline updates are passed
  on, there are exactly four cases in which it does not: its update came only after the dispatch, its message
  came between record and dispatch, its last message was discarded because it was empty or could not be
  decoded, or that message is still being handled (`OfflineIsShownExactly`). All four occur
  (`UpdateComesLate`, `UpdateIsWipedOut`, `MessageIsDiscarded`). In the second one a device that has just sent data has no series but online, and is not
  recorded as offline (`DroppedSeriesStayAway`).
- The string keys of two devices can coincide, exactly when one serial number shadows the other in the sense
  of `SeriesKeys.Shadows` (`KeysClash`); serial numbers without underscores never do. A series follows its
  device's history in all runs exactly when no metric of another configured device has its key
  (`SeriesKeptExactly`), and the online series exactly when no configured serial number shadows the device's
  own (`OnlineKeptExactly`): the device that shadows is itself shown correctly, unless a third one shadows it.
- Two parameters of a device with one metric name make the exposed number depend on Go's map order. In a given
  run that happens exactly when the numbers under the name differ in the one update that decides, the last one
  to carry the name since the device's last offline update (`OrderDecidesExactly`).
- A field name comes back from its JSON name exactly when it has no uppercase letter and a lowercase letter
  follows every underscore (`RoundTrip`). Names such as `flow_info_12v` do not: it is exported as
  `flow_info12v`. Still, two fields of one message share a metric name exactly when their JSON names are the
  same but for the case of the first letter (`FieldsShareNameExactly`), and protobuf gives them different ones.
  Fields at different depths can share one: a field `b` of a nested message `a` and a field `a_b` beside it
  (`NestedFieldMeetsFlatOne`, and `PathsShareNameExactly` for the exact condition).
- Encryption needs no care for a zero sequence number, only for source 32 (`EncryptionIsUndone`).

## Model

| member | source | states |
|---|---|---|
| StatusTracking.StatusTracker.MarkReceived | mqtt_exporter.go:240-253 | tells whether the device had been reported offline; afterwards it is not, its time is now, and the backoff and the count are as new |
| StatusTracking.StatusTracker.MessageArrived | mqtt_exporter.go:255-278 | messages of unconfigured devices change nothing; any message of a configured one is a sign of life and asks for the full state exactly when an outage had been reported |
| StatusTracking.StatusTracker.InitDeviceStatuses | mqtt_exporter.go:513-527 | starts tracking every configured device that was not tracked, and changes no time already known |
| StatusTracking.StatusTracker.OfflineDevices | mqtt_exporter.go:429-439 | lists exactly the tracked devices silent for longer than the threshold, each once |
| StatusTracking.StatusTracker.OfflineUpdatesDue | mqtt_exporter.go:443-458 | returns and stamps exactly the offline devices whose last report is missing or a threshold old |
| StatusTracking.StatusTracker.ReconnectDue | mqtt_exporter.go:462-473 | refuses before the scheduled time without any change; otherwise doubles the pause within its bounds and schedules the next attempt |
| StatusTracking.StatusTracker.ReloginDue | mqtt_exporter.go:477-486 | counts, and on the third call answers true and starts over |
| StatusTracking.StatusTracker.SendRelogin | mqtt_exporter.go:202-207 | never blocks, and a request is pending afterwards |
| StatusTracking.StatusTracker.MonitorTick | mqtt_exporter.go:395-426 | the loop body, with any messages, connections and received re-logins between its sections, is a legal continuation of every run that has reached its state, with the step relation's end state |
| Supervision.Continue | mqtt_exporter.go:395-426 | continuing a run by legal steps gives a run, so results on runs apply to the methods |
| Backoff.BackoffState | mqtt_exporter.go:462-473 | in every interleaving delay and next reconnect time are functions of the granted attempts since the last message |
| Backoff.AttemptGranted | mqtt_exporter.go:462-473 | an attempt is granted exactly when it is the first since the last message or the pause is over, and the k-th sets the pause to min(2^(k-1)·T, 10 min) for every T > 0 |
| Backoff.AttemptsSpaced | mqtt_exporter.go:462-473 | the n-th attempt of a data-free stretch comes at least the pauses of attempts k to n-1 after the k-th, re-logins included |
| Backoff.StretchFromFirstAttempt | mqtt_exporter.go:240-253 | the same counted from the first attempt after a message |
| Backoff.CounterState | mqtt_exporter.go:477-486 | the counter is the number of calls since the last message modulo 3; calls and granted attempts differ by at most one in every interleaving |
| Backoff.EveryThirdCallAsks | mqtt_exporter.go:477-486 | every third call since the last message asks for a re-login and no other does |
| Backoff.CallsMatchAttempts | mqtt_exporter.go:417-423 | without messages inside ticks the two numbers are equal |
| Backoff.ThirdAttemptIsTheLogin | mqtt_exporter.go:417-423 | without messages inside ticks a re-login takes the place of exactly every third attempt |
| Backoff.ChannelConservation | mqtt_exporter.go:201-207 | every re-login request was served, is pending, or met a pending one; none is served twice |
| Outages.MessagesCount | mqtt_exporter.go:255-278 | every message of a configured device is a sign of life that ends its outage and the backoff; any other message changes nothing |
| Outages.Tracking | mqtt_exporter.go:513-527 | tracked serial numbers are configured ones, and each recorded time is that of the last message or of the first connection |
| Outages.TickState | mqtt_exporter.go:429-439 | what the monitor's local list means until the tick ends |
| Outages.DecisionNeedsSilence | mqtt_exporter.go:415-424 | a reconnect or re-login is decided only if every configured device was silent for longer than the threshold at the tick's snapshot: no message in that window |
| Outages.TickDecidesExactlyOnSilence | mqtt_exporter.go:417 | and every tick with such a snapshot goes on to an attempt |
| Outages.OfflineSentState | mqtt_exporter.go:443-458 | a device is recorded as offline exactly when its latest event is an offline report and not a message, with the time of that report |
| Outages.OneRequestPerOutage | mqtt_exporter.go:270-278 | reported outages and full-state requests match one to one, but for an outage still going on |
| Outages.ReportsSpaced | mqtt_exporter.go:443-458 | two offline reports of a device are at least a threshold apart unless one of its messages fell between snapshot and recording of the later tick |
| Outages.ReportedExactly | mqtt_exporter.go:443-458 | a recording section reports a device exactly when the tick's snapshot found it silent and it does not stand reported, or was reported at least a threshold ago |
| Outages.SilentStandsReported | mqtt_exporter.go:391-394 | after it every device silent at the snapshot stands reported, by a report less than a threshold old |
| Outages.EarlyReportExactly | mqtt_exporter.go:391-394 | within a threshold of a report of a device, it is reported again exactly when the tick's snapshot found it silent and it sent something between snapshot and recording |
| Outages.ReportedThoughHeard | mqtt_exporter.go:409-413 | a device is reported although it was heard of within the threshold exactly when a message that recent came between snapshot and recording |
| Outages.ReportsSpacedWhenUndisturbed | mqtt_exporter.go:391-394 | with ticks free of messages any two reports of a device are at least a threshold apart |
| Outages.EarlySecondReport | mqtt_exporter.go:409-413 | a run in which they are not, and a device that has just sent data is recorded as offline |
| Outages.CallsOvertakeAttempts | mqtt_exporter.go:417-418 | a run in which the bound of one between calls and attempts is reached |
| DeviceCaching.DeviceCache.Merge | mqtt_exporter.go:336-346 | merges into the cached map of one device in place, changes no other device, and hands out a fresh copy of the whole state that no later merge can change |
| DeviceCaching.MergeMany | mqtt_exporter.go:335-361 | after any messages of any devices each cache is the later-wins merge of the device's own messages, and every copy handed out still is what it was |
| DeviceCaching.MessageCallback.MessageHandler | mqtt_exporter.go:255-362 | an update goes out exactly for a decodable, non-empty message of a configured device and holds its full state; undecodable ones still count as a sign of life |
| DeviceUpdates.DeviceUpdate.Samples | metric.go:48-69 | every parameter with a name gets exactly one sample, in some order, with its raw value and the number it stands for, 1 or 0 for a flag; a second call with the prefix returns the same list |
| MetricStore.PrometheusExporter.Handle | prometheus.go:84-116 | the whole effect of an update on series and descriptors, for any order of the samples |
| MetricStore.PrometheusExporter.SetLocked | prometheus.go:118-132 | a new series gets labels, name and, if needed, a descriptor; a known one only a new value |
| MetricStore.PrometheusExporter.Collect | prometheus.go:138-149 | every series is emitted once, with the stored name, serial number, display name and value and the help text of its name; the value is that of the map from (serial number, name), and no two have the same labels |
| MetricStore.HandledKeeps | prometheus.go:84-132 | every update of any device keeps the index well kept: keys are made of the sample's own labels, every name has a descriptor, and that speaks of a parameter of this name |
| MetricStore.HandledRefines | prometheus.go:84-132 | on the map from (serial number, name): an online update sets what it carries as numbers, an offline one leaves only the online series, which always takes the status; no other device changes. All this for every series whose key no other device shares |
| SeriesKeys.KeysClash | prometheus.go:119 | keys of two devices can coincide exactly when one serial number shadows the other |
| SeriesKeys.KeysDetermineSeries | metric.go:116-118 | otherwise a key determines serial number and metric name |
| SeriesKeys.PlainSerialsAreApart | metric.go:116-118 | serial numbers without underscores never clash, for any prefix |
| SeriesKeys.PrefixedSerialClashes | metric.go:116-118 | a serial number that is another one followed by an underscore and the prefix does |
| Pipeline.SeriesIsCarried | mqtt_exporter.go:335-361 | after every run a series other than online exists exactly when an update since the device's last offline update carried a number under its name, and holds one that the last such update carried, each update being the later-wins merge of all the device ever sent |
| Pipeline.SeriesIsLastCarried | mqtt_exporter.go:335-361 | and holds a value exactly when it is the last number carried under its name since then, if the numbers of the deciding update agree |
| Pipeline.OnlineIsLastStatus | prometheus.go:92-114 | the online series of an unshadowed device is the status of its last update, also if it sends a parameter of that name, and is absent before its first update |
| Pipeline.OfflineLeavesOnlyStatus | prometheus.go:93-103 | while a device's last update is an offline one it has no other series than online, in every run |
| EndToEnd.UpdateExposes | metric.go:159-190 | a parameter that has its metric name for itself: an update exposes a number as it is and a flag as 1 or 0, and a string, array, object or null leaves the series as it was |
| EndToEnd.FlagsAgree | internal/protobuf/messages.go:82-87 | a flag in JSON and the same flag as a protobuf field export one number |
| EndToEnd.UploadedField | internal/protobuf/messages.go:68-102 | the scalar that a path of JSON names leads to is the parameter under the dotted path, with its value |
| EndToEnd.ParameterIsField | internal/protobuf/messages.go:64-102 | every parameter of a property upload is a scalar field under its dotted path, so repeated fields and bytes become none |
| EndToEnd.FieldReachesSeries | mqtt_exporter.go:302-361 | a field of a property upload, from the header that carries it: decoding, merge and update expose its number under the dotted path, a bool as 1 or 0; a string leaves the series as it was |
| Pipeline.SentIsLaterWins | mqtt_exporter.go:343-345 | that merge holds a parameter exactly when some message did, with the value of the last one |
| Pipeline.CacheIsHistory | mqtt_exporter.go:335-346 | in every run the cache and the full state on its way are that merge |
| Pipeline.OwnMessagesDecide | mqtt_exporter.go:335-346 | two runs with the same messages of a device give it the same cache, however other devices interleave |
| Pipeline.SeriesAreConfigured | prometheus.go:118-132 | every exposed series is one of a configured device under its display name |
| Pipeline.SamplesCarryNumeric | metric.go:48-69 | in any order of the samples the number under a name is the one its parameters agree on |
| Pipeline.OrderIrrelevantExactly | metric.go:48-69 | the order of samples does not matter exactly when all parameters with a number under a name agree on it |
| Pipeline.NamesApartAgree | metric.go:55-63 | they do in every deciding update if no two parameters the device ever sent share a name |
| SeriesKeys.PlainTailOwnsKey | prometheus.go:119 | the key of a metric without underscores, as online, is shared with another device exactly when the serial number is shadowed |
| Clashes.OrderDecidesExactly | prometheus.go:84-116 | a series is the same in all runs that differ in the orders of samples only exactly when the numbers under its name agree in the deciding update |
| Clashes.UpdateIsDeterminedExactly | prometheus.go:84-116 | the next update sets a series to one certain value, for all orders of its samples, exactly when the numbers under the name agree |
| Clashes.ClashingKeysOverwrite | prometheus.go:119-131 | for every two metrics of different configured devices with one key, a run after which the series of one holds the other one's number |
| Clashes.ClashingSerialsShowOnline | prometheus.go:113-131 | for every shadowed device, a run after which its online series holds a measured value of the other one while it is offline |
| Clashes.SeriesKeptExactly | prometheus.go:119 | a series of a configured device follows its history in all runs exactly when no other configured device has a metric with its key |
| Clashes.OnlineKeptExactly | prometheus.go:113-119 | the online series of a configured device follows its status in all runs exactly when no configured serial number shadows its own |
| Clashes.SerialsApartExactly | prometheus.go:119 | all series of all devices do exactly when no configured serial number shadows another one |
| Exporter.PartsAreRuns | mqtt_exporter.go:409-413 | every run of the whole exporter contains a run of the supervisor and one of the pipeline with the same end states |
| Exporter.ReportsArePassedOn | mqtt_exporter.go:410-413 | an offline update of a device is on its way exactly while its last record is later than its last dispatch; nothing is passed on that was not recorded |
| Exporter.OfflineIsShownExactly | mqtt_exporter.go:409-413 | when no offline update of a device is on its way, its online series is 0 exactly if it is recorded as offline, except in four cases told by the order of its last message, record, dispatch, update and discarded message |
| Exporter.MessagesComeFirst | mqtt_exporter.go:330-361 | a message that is not being handled any more has led to an update or was discarded |
| Exporter.DroppedSeriesStayAway | prometheus.go:93-103 | a device whose last dispatch came after its last update has no series other than online |
| Exporter.SeparateRunsShowRecords | mqtt_exporter.go:335-361 | when messages and reports of a device do not overlap and all messages bring parameters, online is 0 for a recorded outage, 1 for a device heard of since, and absent before either |
| Exporter.UpdateIsWipedOut | mqtt_exporter.go:409-413 | a run in which the dispatch of a report wipes out a later update: at rest the device is shown as offline and not recorded |
| Exporter.UpdateComesLate | mqtt_exporter.go:409-413 | a run in which the update of a message before the report comes after the dispatch: at rest the device is shown as online and recorded as offline |
| Exporter.MessageIsDiscarded | mqtt_exporter.go:302-333 | a run in which a message after the dispatch brings no parameters: before and after it is discarded the device is shown as offline and not recorded |
| Naming.EcoflowParamToPrometheusMetric | metric.go:126-153 | only the empty name cannot be converted; the result holds lowercase letters, digits, colons and underscores, so that it matches the Prometheus data model behind a prefix |
| Naming.NameTailsAreFixed | metric.go:126-153 | converting a converted name changes nothing, and every string of allowed characters is some parameter's name |
| Naming.OthersBecomeUnderscores | metric.go:126-157 | without uppercase letters a name keeps its length, lowercase letters, digits, underscores and colons stay and every other character becomes an underscore |
| Naming.CapitalBecomesUnderscored | metric.go:135-140 | an uppercase letter anywhere reads as its lowercase one behind an underscore, which is left out at the start and after an underscore |
| Naming.RoundTrip | metric.go:126-153 | conversion undoes protobuf's camel case exactly for names without uppercase letters in which a lowercase letter follows every underscore and none comes first |
| Naming.SnakeNamesStayApart | metric.go:126-153 | conversion is one to one on the JSON names of such fields |
| Naming.FieldsShareNameExactly | metric.go:126-153 | two fields at the same place share a metric name exactly when they differ only in underscores that get lost, and exactly when their JSON names are the same but for the case of the first letter |
| FieldPaths.PathMetricName | internal/protobuf/messages.go:73-76 | the metric name of a nested field is the canonical names along its path, joined by underscores |
| FieldPaths.PathsShareNameExactly | metric.go:126-153 | so two fields at any depths share a metric name exactly when those joined names are the same |
| FieldPaths.NestedFieldMeetsFlatOne | metric.go:126-153 | for any two snake-case names a nested field and a flat one that share a metric name, though not a key |
| Naming.DigitAfterUnderscore | metric.go:126-153 | an underscore before a digit is always lost, wherever it stands in the field name |
| Flatten.FlattenMessage | internal/protobuf/messages.go:68-102 | the traversal in place has the effect of its list of assignments, whatever was in the output map before |
| Flatten.OrderIrrelevant | internal/protobuf/messages.go:64-69 | the flattened map is the same for every visiting order at every level exactly when no key is written with two values |
| LeafKeys.OneEntryPerLeaf | internal/protobuf/messages.go:64-102 | with distinct dot-free names there is one entry per set scalar, under its own path |
| LeafKeys.OneEntryPerInlinedLeaf | internal/protobuf/messages.go:55-57 | the same with inlined wrappers when the names left are distinct across them |
| Decoder.CmsWrappersVanish | internal/protobuf/messages.go:55-57 | the CMS report of two wrappers has the parameters of a flat message of all their fields: the wrapper names leave no trace |
| LeafKeys.DottedIsInjective | internal/protobuf/messages.go:73-76 | dot-free paths and their dotted keys are one to one |
| Battery.DecimalDenotes | internal/protobuf/messages.go:54 | the digits denote the pack number, without leading zeros |
| Battery.DecimalIsInjective | internal/protobuf/messages.go:54 | the decimal rendering of pack numbers is one to one |
| Battery.PackKeysDiffer | internal/protobuf/messages.go:52-54 | different pack numbers or names below the prefix give different keys |
| Battery.PackFieldsStayApart | internal/protobuf/messages.go:52-54 | two (pack, field) pairs share a key exactly when pack and JSON name are the same, and a metric name exactly when the pack is the same and the fields differ only in underscores that get lost; never for different snake-case fields, for every pack number |
| Decoder.PackReportsStayApart | internal/protobuf/messages.go:52-54 | no parameter of one pack's report shares a key or a metric name with one of another pack |
| Decoder.DecodeProtobufPdata | internal/protobuf/messages.go:41-62 | unsupported exactly outside the command pairs of the three kinds; for a pair of a kind decoded exactly when that kind's parser answers, with the parameters of that kind |
| Decoder.ParamsAreLeaves | internal/protobuf/messages.go:50-60 | a property upload becomes its leaves under their full paths, a CMS report those without wrapper names, a battery report those behind `bms`, pack number and dot; nothing else |
| Decoder.VisitingOrderIrrelevant | internal/protobuf/messages.go:50-60 | the parameters of every kind of message are independent of the visiting order, one per set scalar |
| Decoder.XorDecrypt | internal/protobuf/decoder.go:90-103 | the length stays, and every byte is combined with the lowest byte of the sequence number |
| Decoder.PlainBytes | internal/protobuf/decoder.go:174-190 | the parsers get the bytes as sent, or under encryption type 1 and a source other than 32 each byte combined with that byte |
| Decoder.OneHeaderDecodes | internal/protobuf/decoder.go:192-225 | a JSON object is the result whatever the command; otherwise the command pair selects the kind, and a pair of no kind or a message that does not parse is an error |
| Decoder.SeqByteIsLowByte | internal/protobuf/decoder.go:97 | the key is what remains of the sequence number beyond a multiple of 256; that of a negated number is the negated key |
| Decoder.EncryptionIsUndone | internal/protobuf/decoder.go:174-178 | an encrypted header is read as the plain one exactly when its source is not 32 or encryption changed nothing |
| Decoder.EncryptionInvisible | internal/protobuf/decoder.go:157-261 | encrypting any plain headers with a source other than 32 leaves the decoded message unchanged, for every sequence number |
| Decoder.DecodeProtobufMessage | internal/protobuf/decoder.go:157-261 | the loop computes the merge; parsed is the number of headers that decode and parsed plus failed is their number |
| Decoder.LaterHeadersWin | internal/protobuf/decoder.go:157-261 | the result holds exactly what decodable headers carry, with the value of the last; it is an error exactly when none decodes |
| Scraping.SequentialReports | rest_exporter.go:114-136 | fetching one by one reports exactly the devices whose parameters could be read and the offline ones, those with their status alone if they could not |
| Scraping.SequentialInOrder | rest_exporter.go:105-109 | each of them once and in the order of the device list |
| Scraping.Reachable | rest_exporter.go:88-109 | the invariant of the protocol in every interleaving |
| Scraping.AtMostFourFetches | rest_exporter.go:90-103 | running fetches hold tokens, and there are never more than four |
| Scraping.WrittenOnce | rest_exporter.go:89-103 | a result slot is written exactly once by the time its worker has stored, and never before |
| Scraping.SlotHoldsOwnStore | rest_exporter.go:100 | in every run a slot holds what its own worker stored from its own request, and nothing before that |
| Scraping.NeverStuck | rest_exporter.go:92-109 | until everything is dispatched some step other than a cancellation is possible |
| Scraping.RunsEnd | rest_exporter.go:92-109 | every step uses up a measure, so runs are no longer than four steps a device and a cancellation |
| Scraping.DispatchIsSequential | rest_exporter.go:88-109 | what is dispatched is always a prefix of fetching one device after the other, and all of it without a cancellation |
| Scraping.CancelledStaysSilent | rest_exporter.go:105-109 | nothing is dispatched after a cancellation, and nothing at all if it comes during the fetches |
| Scraping.Scrape | rest_exporter.go:73-110 | a scrape under any schedule gives the handlers the sequential updates in list order |
| Watchdog.Watch | main.go:103-128 | remembering one time only, it stops exactly at the first check for which some streak of failures has lasted longer than the limit |
| Watchdog.OverdueFromAnyStart | main.go:103-128 | for limits that are not negative the streak may be counted from the check itself |
| Watchdog.EvenlySpaced | main.go:103-128 | with evenly spaced checks the stop comes floor(limit/interval)+1 checks after the streak began |
| Retry.RetryWithBackoff | retry.go:12-31 | calls exactly up to the first success, the attempt limit or a cancellation, with the k-th pause in closed form, each twice the one before up to the maximum; without a limit it never gives up by itself |
| Retry.ClosedForm | retry.go:12-31 | every pause is min(initial·2^(k-1), max) exactly when the initial one is not above the maximum |
| Pinging.PingRoutine | mqtt_exporter.go:728-771 | a connected tick sends each device one request and another tick none; every N-th connected one sends state refreshes, the others keepalives; over n connected ticks every device gets floor(n/N) state refreshes and n - floor(n/N) keepalives, other devices none |
| Pinging.RefreshSpacing | mqtt_exporter.go:733-749 | from one refresh tick to the next there are exactly N connected ticks; when pings are not slower than refreshes, that is at most the interval and less than one ping interval sooner |
| Pinging.OnlyRefreshes | mqtt_exporter.go:733-749 | keepalives are never sent exactly when the refresh interval is below two ping intervals |

## Left out

- Login, publishing, subscribing and the broker calls of a forced reconnect: network clients; only "attempt made" and "re-login requested" remain.
- The connectivity test at the start of a monitor tick: ticks start whenever the environment likes, which allows more runs than the code has.
- Clock readings of merges and updates: in `Exporter` only the supervisor's sections carry times.
- Clock readings within one critical section: `offlineDevices` reads the clock once per device, the model once per section.
- JSON parsing, protobuf unmarshalling, the trimming before the JSON test and format detection: parameters of the decoder, or their results.
- The generated schema: messages are abstract trees; that their field names are distinct and dot-free is a hypothesis.
- Unknown field numbers, unknown command counts and all logging: diagnostics.
- Non-ASCII letters: every non-ASCII character becomes one underscore, while the code puts another one before an uppercase letter that is not ASCII.
- Naming.RoundTrip: is about protobuf identifiers, that is, ASCII letters, digits and underscores.
- Floating-point rounding and special values: numbers are reals.
- Overflow of durations: pauses never exceed ten minutes or the configured maximum, so that doubling them stays far within 64 bits; times are unbounded. Negative pauses, which no caller passes, may double without bound.
- Handler panics and the order of several handlers: one handler is modelled.
- A device list that cannot be fetched, `lastSuccess` and the health checks of both exporters: one-branch claims.
- The Prometheus registry, the HTTP server, telemetry and configuration: thin wrappers.
- Pipeline.SeriesIsLastCarried: speaks of series whose key no other device shares and whose deciding update has one number under the name; `SeriesKeptExactly` and `OrderDecidesExactly` show that for any other series some run fails it and in any other run the order of samples decides, and `SeriesIsCarried` says what holds without the second condition.
