# Vellum Shell: verified models of the daemon's protocols

Vellum Shell is a desktop shell for Hyprland: a Rust daemon with topic modules, a QML
client that talks to it over a socket, and a greeter. This project models the parts of
it whose promises span several functions or whole runs, and proves those promises.

* **The daemon** (`Hub`, `Server`, `Daemon`). Modules push states; one publisher turns
  them into snapshots and a bounded broadcast ring; every connection has a forwarder
  with its own cursor, a subscription set, a bounded output queue and a share in the
  refcounted module loops. The daemon runs on one thread, so a step is what happens
  between two awaits, and a run is any interleaving of steps. `Delivery` proves that a
  quiet client was last sent exactly the hub's snapshots, whatever the ring dropped;
  `Conservation` that subscriber counts are exactly the shares held and that a loop runs
  iff somebody wants it; `Requests` and `Answers` what a request does under interleaving
  and what a client is never sent; `Progress` that publisher, forwarders and cleanups come
  to their end, so that every accepted push arrives.
* **The line reader** (`LineReader`): what a connection reads does not depend on how the
  bytes were cut on the way.
* **The QML client** (`Backend`, `AnsweredOnce`, `Unwinding`, `Reconnect`): callbacks may
  issue calls, disconnect and reconnect while a loop is suspended below them. Every call
  is answered exactly once, with no reply at all if need be, and the daemon's
  subscriptions agree with the shell's after any reconnects.
* **The clipboard store** (`Clipboard`, `ClipboardLists`, `ClipboardInvariant`,
  `ClipboardMeaning`, `Fingerprints`, `ClipboardCrash`, `ClipboardSessions`,
  `ClipboardLru`, `ClipboardStore`): a bounded most-recent-first list with pins, and its
  files, written step by step. The bounded history is a window on the unbounded one, and
  after any number of crashes, each at any file step, the store opens soundly. Contents
  that differ in one byte are never taken for each other.
* **Calendar arithmetic and timestamps** (`Text`, `Calendar`, `CalendarText`,
  `CalendarReading`): the closed forms against a day-by-day Gregorian calendar, the
  RFC 3339 printer against the parser (section 5.6 of RFC 3339), and exactly what the
  parser takes.
* **Displays** (`Hypr`, `HyprLayout`, `HyprModes`, `HyprPreview`): the geometric
  validator, the text forms of settings, and the preview transaction with its timers,
  rollback and store.
  The compositor is a relation: an accepted call shows every concrete field asked for,
  a failed one may have done anything short of adding or removing displays.
* **The greeter's layout file** (`Greeter`, `GreeterConfig`, `GreeterPatterns`,
  `GreeterReading`, `GreeterRuns`): a text file that acts as a map from displays to lines
  over any number of sessions, and the Lua program that reads it with its own patterns.
* **Brightness** (`Brightness`): rounding with exact bounds for every number of levels.

Components that the source updates in place are classes whose methods are proved equal
to functions on values; the functions are what the lemmas about runs speak of.

## What the code does not promise

The proofs turned up places where a natural claim is false. Each is
stated with its exact condition; only the first is one-way.

* Between inserting a topic and sending its snapshot, a subscribed client can be quiet
  and know nothing of the topic (`Delivery.ShowingWindowIsReal`). Coherence is proved
  outside that window; inside it a topic that was sent before may or may not be up to
  date, which depends on what was published since and not on the state of the client.
* A crash before the first save of a session can bring a dropped clipboard entry back with
  another entry's content: iff the index lists the next id and the new blob is in place
  before the new index, but for a lost entry that equals the added one
  (`ClipboardCrash.CrashRecovery`, `ClipboardCrash.LostEntryIsWrong`,
  `ClipboardSessions.EveryCrashRecovers`; `ClipboardCrash.SecondCrashFails`).
* Unpinning drops the very entry when the cap is already filled by entries before it
  (`ClipboardInvariant.UnpinningMayDrop`).
* A printed date parses back iff its year is not negative and the shift of the epoch does
  not wrap, and a timestamp iff its milliseconds fit 64 bits besides
  (`CalendarText.ParseOfFormatDate`, `CalendarText.ParseOfFormatRfc3339`).
* The timestamp parser takes more than calendar dates: a day past the end of its month
  counts on into the next (`CalendarReading.DaysRunOver`), and of a fraction only three
  characters are looked at (`CalendarReading.ParseMillisMeans`).
  `CalendarReading.ParseRfc3339Means` says exactly what it takes.
* The history takes two contents for the same iff they have the same length and hash
  (`ClipboardMeaning.AddMeans`), which contents that differ in one byte never do
  (`Fingerprints.OneByteShows`).
* A brightness step down goes up from below the one percent level (`Brightness.StepDown`),
  and setting a percent reads back as that percent iff there are at least 100 levels
  (`Brightness.RoundTripNeedsLevels`).
* Coordinates near the ends of 64 bits wrap in the overlap test: it reports some displays
  that are far apart, exactly those that raise a false alarm, though it never misses an
  overlap (`HyprLayout.OverlapIsFound`, `HyprLayout.ClashIsOverlap`,
  `HyprLayout.FarDisplaysAreRefused`).
* The validator trims output names and the compositor is given them as they are: an
  accepted request with a space before a name can switch every display off
  (`HyprLayout.SpacedNameCanGoDark`). It is safe iff the validator also accepts the request
  without its spaced entries (`HyprLayout.AcceptedIsSafe`).
* A snapshot of a display resolves to the same place iff the display has a positive scale,
  or both its sides are 0 or at an end of the 64-bit range
  (`HyprLayout.SnapshotOneResolves`).
* `backend/src/greeter.rs` says that its recognisers and the greeter's patterns are the
  same. They differ for one kind of mode, a rate that ends in its decimal point
  (`GreeterPatterns.ModeAgrees`, `GreeterPatterns.DanglingModeExists`).
* Rendering a layout file twice changes nothing iff no carried line ends in a carriage
  return (`GreeterRuns.RepeatedRendering`, `GreeterRuns.CarriageReturnIsLost`).

## Model

| member | source | states |
|---|---|---|
| HubModel.Receive | backend/src/ipc/server.rs:273-281 | the next event in order, or nothing when there is none; a receiver that fell out of the ring is told how much it lost and resumes with the whole ring before it |
| HubModel.DrainIsTail | backend/src/ipc/server.rs:273-281 | reading until nothing is left yields exactly the unread events, but for the oldest that did not fit the ring |
| HubModel.Hub.constructor | backend/src/ipc/hub.rs:73-105 | a new hub has no snapshot, no event and no loop |
| HubModel.Hub.Push | backend/src/module.rs:125-131 | a push is queued unless the queue is full, and then dropped without any other effect |
| HubModel.Hub.Snapshot | backend/src/ipc/hub.rs:119-121 | the current snapshot of a topic, if there is one |
| HubModel.Hub.Acquire | backend/src/ipc/hub.rs:145-165 | an unknown topic is refused and changes nothing; otherwise one more subscriber, and a loop for the first |
| HubModel.Hub.Release | backend/src/ipc/hub.rs:231-249 | one subscriber less, and the last one aborts the loop; unknown topics change nothing |
| HubModel.Hub.Boot | backend/src/main.rs:184-190 | the daemon starts with one share in every always-on module |
| ServerModel.SendLine | backend/src/ipc/server.rs:176-192 | a line is queued at the end or refused; a refusal closes the output for good |
| ServerModel.WriteLine | backend/src/ipc/server.rs:253-261 | a line written moves from the queue to the socket and is neither lost nor doubled |
| ServerModel.HandleProgress | backend/src/ipc/server.rs:378-415 | every step of handling a request keeps the set of subscriptions it is heading for, and comes closer to its end |
| ServerModel.HandleReplies | backend/src/ipc/server.rs:378-415 | every step of a request keeps the answer it is heading for, and the last one gives it: a subscription succeeds iff all its topics are known |
| ServerModel.HandleShows | backend/src/ipc/server.rs:390-397 | a topic that a subscription is through with was sent the snapshot of the hub last |
| ServerModel.ForwardProgress | backend/src/ipc/server.rs:271-298 | every step of a forwarder that is not quiet takes events out of the ring, or leaves it with less in hand |
| ServerModel.ClientOut.Send | backend/src/ipc/server.rs:176-192 | queues a line, or closes on a full queue or a gone writer |
| ServerModel.ClientOut.Write | backend/src/ipc/server.rs:253-261 | one turn of the writer task |
| ServerModel.Session.constructor | backend/src/ipc/server.rs:240-266 | a new connection has no subscription and a receiver with nothing to read |
| ServerModel.Session.Start | backend/src/ipc/server.rs:342-380 | a request is dispatched to its handler or answered at once |
| ServerModel.Session.Handle | backend/src/ipc/server.rs:378-415 | one step between awaits of subscribe and unsubscribe, on the hub and the connection |
| ServerModel.Session.HandleRequest | backend/src/ipc/server.rs:377-415 | undisturbed, a subscribe request adds exactly the known topics it lists and an unsubscribe request removes exactly those it lists; it is answered once, with success iff all topics are known, and each topic asked for was last sent its snapshot |
| ServerModel.Session.Forward | backend/src/ipc/server.rs:271-298 | one step of the forwarder: receive, deliver if subscribed, or resend every snapshot after a lag |
| ServerModel.Session.ForwardAll | backend/src/ipc/server.rs:271-298 | left to itself the forwarder reads everything and comes to rest, or stops at an output that refuses a line |
| Delivery.LastReadIsCurrent | backend/src/ipc/hub.rs:97-101 | with no unread event of a topic, the last one read is the hub's snapshot |
| Delivery.SubscribeKeeps | backend/src/ipc/server.rs:378-406 | every step of a subscription keeps the client coherent with the hub |
| Delivery.UnsubscribeKeeps | backend/src/ipc/server.rs:408-415 | so does every step of an unsubscription |
| Delivery.ReadKeeps | backend/src/ipc/server.rs:273-285 | so does receiving an event or learning of a lag |
| Delivery.DeliverKeeps | backend/src/ipc/server.rs:274-280 | so does passing on the event in hand, even when newer ones wait |
| Delivery.ResendKeeps | backend/src/ipc/server.rs:281-294 | so does each resent snapshot, with subscriptions changing in between |
| Delivery.PublishKeeps | backend/src/ipc/hub.rs:97-101 | so does publishing a new state |
| Delivery.StepInv | backend/src/ipc/server.rs:240-340 | every step of any task keeps every client coherent, and every accepted push is published in order |
| Delivery.PublishedInOrder | backend/src/ipc/hub.rs:94-102 | in every reachable state the accepted pushes are the published, the taken and the queued ones in order, and the snapshots are what remains of the published |
| Delivery.DeliveryCoherence | backend/src/ipc/server.rs:263-299 | in every reachable state an open client with nothing in flight was last sent exactly the hub's snapshot of each topic it subscribes to |
| Delivery.EndToEnd | backend/src/ipc/hub.rs:94-102 | once queue and publisher are empty too, that is the last state the module got through |
| Progress.PublisherCatchesUp | backend/src/ipc/hub.rs:94-102 | from every state the publisher, by its own steps, publishes everything that was accepted |
| Progress.ForwarderCatchesUp | backend/src/ipc/server.rs:271-298 | a forwarder that is not cleaned up comes to rest by finitely many steps of its own |
| Progress.ClientIsBroughtUpToDate | backend/src/ipc/server.rs:263-299 | from every reachable state an open client is brought, by its forwarder alone, to where it was last sent the snapshots of its topics, or it is closed |
| Progress.EveryPushArrives | backend/src/ipc/hub.rs:94-102 | from every reachable state publisher and forwarder bring it to the last accepted state of each of its topics, or it is closed |
| Progress.CleanupEnds | backend/src/ipc/server.rs:325-339 | a connection that hung up gives everything back and frees its slot by its own steps |
| Delivery.ShowingWindowIsReal | backend/src/ipc/server.rs:390-397 | a reachable state in which a subscribed, quiet client was not yet sent its first snapshot |
| Conservation.AcquireCounts | backend/src/ipc/hub.rs:145-165 | acquire adds one to one topic's count and keeps loops and counts in agreement |
| Conservation.ReleaseCounts | backend/src/ipc/hub.rs:231-249 | release takes one from one topic's count and keeps loops and counts in agreement |
| Conservation.StepInv | backend/src/ipc/server.rs:325-328 | every step of any task keeps counts equal to shares, cleanup included |
| Conservation.SubscribersConserved | backend/src/ipc/hub.rs:224-228 | a topic's subscribers are the connections holding a share, inserted or not, plus one if it is always on |
| Conservation.LoopRunsIffWanted | backend/src/ipc/hub.rs:156-162 | exactly one loop that was not aborted runs for a wanted topic and none for another |
| Conservation.NeverSaturates | backend/src/ipc/hub.rs:241-241 | no release meets a zero count |
| Requests.RequestCompletes | backend/src/ipc/server.rs:377-415 | whatever the other tasks do meanwhile, a finished request left exactly the subscriptions it asked for |
| Answers.RequestIsAnsweredOnce | backend/src/ipc/server.rs:342-415 | whatever runs in between, a request that is through was answered exactly once, with the right verdict, and the only other answers are those of calls |
| Answers.UnfollowedIsSilent | backend/src/ipc/server.rs:273-280 | in every run a client is sent nothing of a topic that it does not follow and does not ask for |
| Answers.NewIsSilent | backend/src/ipc/server.rs:263-266 | a new connection starts that way for every topic, with nothing old to read |
| Answers.CleanedUpIsSilent | backend/src/ipc/server.rs:325-331 | once its subscriptions are given back no event is sent to a connection |
| LineReader.SplitOfEncode | backend/src/ipc/server.rs:211-237 | lines without newlines, written one after the other, are read back |
| LineReader.EncodeOfSplit | backend/src/ipc/server.rs:211-237 | splitting loses nothing: the lines give the stream back, up to a missing last newline |
| LineReader.LinesHoldNoNewline | backend/src/ipc/server.rs:217-226 | no line contains a newline |
| LineReader.BoundedMeaning | backend/src/ipc/server.rs:218-230 | reading stops exactly at the first line over the limit |
| LineReader.BufferedReader.constructor | backend/src/ipc/server.rs:241-242 | the stream is the chunks put together |
| LineReader.BufferedReader.FillBuf | backend/src/ipc/server.rs:212-216 | the next chunk, empty only at the end of the stream |
| LineReader.BufferedReader.Consume | backend/src/ipc/server.rs:236-236 | the rest of the stream after the consumed bytes |
| LineReader.BufferedReader.ReadLine | backend/src/ipc/server.rs:204-238 | the first line of what is left however it is cut into chunks, or an error iff that line is over the limit |
| LineReader.BufferedReader.Position | backend/src/ipc/server.rs:217-217 | the first newline |
| LineReader.BufferedReader.ReadAll | backend/src/ipc/server.rs:304-323 | for every cutting into chunks, exactly the newline split up to the first line over the limit |
| BackendModel.Backend.constructor | core/Backend.qml:72-77 | nothing pending, nothing wanted |
| BackendModel.Backend.SendLine | core/Backend.qml:120-128 | a line goes out iff there is a connection |
| BackendModel.Backend.Call | core/Backend.qml:102-118 | a call with a callback is entered with its deadline and the sweep started, or answered at once without a connection |
| BackendModel.Backend.OnReply | core/Backend.qml:148-154 | a reply takes its call out of both tables and runs its callback; no other entry is touched, and other replies change nothing |
| BackendModel.Backend.Resume | core/Backend.qml:182-184 | a suspended loop goes on where it was, with whatever the callback changed |
| BackendModel.Backend.OnSweep | core/Backend.qml:254-268 | collects exactly the calls that are due and stops the timer iff none is left waiting |
| BackendModel.Backend.OnConnected | core/Backend.qml:157-173 | one line subscribes to exactly the topics with a positive count |
| BackendModel.Backend.OnDisconnected | core/Backend.qml:175-184 | both tables are emptied before any callback runs |
| BackendModel.Backend.Subscribe | core/Backend.qml:81-85 | only the first interest is sent |
| BackendModel.Backend.Unsubscribe | core/Backend.qml:87-92 | only the end of the last interest is sent, and a count never goes below zero |
| AnsweredOnce.StepInv | core/Backend.qml:102-187 | every step, re-entrant ones included, keeps each call in one place |
| AnsweredOnce.AnsweredExactlyOnce | core/Backend.qml:102-187 | a call is pending, in the hands of one disconnect loop, or answered, once in all; the tables have the same keys; pending calls keep the timer on |
| AnsweredOnce.ReplyAnswers | core/Backend.qml:148-154 | in every reachable state the reply to a pending call runs its callback for the only time and leaves every other call alone |
| AnsweredOnce.SweepAnswersDueCalls | core/Backend.qml:250-270 | a call due at a sweep is answered once by the time the sweep returns, whatever its callbacks do |
| AnsweredOnce.DisconnectAnswersAll | core/Backend.qml:175-187 | a call pending at a disconnect is answered once by the time the handler returns |
| Unwinding.StackUnwinds | core/Backend.qml:182-184 | from every state loops that go on and callbacks that return come to an empty stack |
| Unwinding.EveryCallIsAnswered | core/Backend.qml:250-270 | from every reachable state a pending call is answered exactly once by the next sweep past its deadline, with no reply at all |
| Reconnect.ReconnectAgreement | core/Backend.qml:81-92 | with no line in flight the daemon's subscriptions of this connection are the known topics the shell wants |
| Unwinding.CountIsInterest | core/Backend.qml:81-92 | in every run the count of a topic is the interest in it, and nothing but the two calls touches it |
| Unwinding.PairedInterest | core/Backend.qml:87-92 | if nobody ends an interest that did not begin, interest is subscriptions minus ends |
| ClipboardLists.TrimDropsExactly | backend/src/modules/clipboard/store.rs:168-184 | an entry survives iff it is pinned or fewer than MAX_HISTORY unpinned ones stand before it |
| ClipboardLists.TrimmedIsKept | backend/src/modules/clipboard/store.rs:180-183 | with distinct ids, removing by id leaves exactly the entries within the cap, in order |
| ClipboardLists.PinnedOnlyMeans | backend/src/modules/clipboard/store.rs:213-213 | clearing keeps exactly the pinned entries |
| ClipboardInvariant.OperationsKeepSound | backend/src/modules/clipboard/store.rs:107-236 | every operation keeps ids distinct and below the next one, contents distinct, and both caps |
| ClipboardInvariant.AddKeeps | backend/src/modules/clipboard/store.rs:107-165 | an accepted content is listed first afterwards and no pinned entry is lost |
| ClipboardInvariant.UnpinningMayDrop | backend/src/modules/clipboard/store.rs:229-233 | unpinning keeps the entry iff fewer than MAX_HISTORY unpinned ones stand before it |
| ClipboardMeaning.AddMeans | backend/src/modules/clipboard/store.rs:107-165 | an addition is skipped iff its content is refused, moves up the entry of the same hash and size iff one is listed, and otherwise lists exactly that content first, within the cap |
| ClipboardMeaning.DeleteMeans | backend/src/modules/clipboard/store.rs:195-204 | a deletion takes out one entry and nothing else |
| ClipboardMeaning.PinMeans | backend/src/modules/clipboard/store.rs:219-236 | when pinning finds no entry, has nothing to do, has no room, and what it changes otherwise |
| ClipboardCrash.CrashRecovery | backend/src/modules/clipboard/store.rs:79-92 | for every disk, operation and file step: a crash there is recovered from iff no lost entry of the index owns the new blob, or it comes back as the new entry |
| ClipboardCrash.CoveredRecovery | backend/src/modules/clipboard/store.rs:79-92 | with the index up to date, opening after any crash finds the new list or a sublist of the old one with all that both share, each entry with its own content |
| ClipboardCrash.LostEntryIsWrong | backend/src/modules/clipboard/store.rs:86-90 | what comes back is an entry that opening had given up; unless it equals the added one, the crash is not recovered from |
| ClipboardCrash.SavingCovers | backend/src/modules/clipboard/store.rs:255-258 | one operation that saves brings a reopened disk up to date |
| ClipboardCrash.OperationsKeepAgreement | backend/src/modules/clipboard/store.rs:107-258 | a finished operation leaves the index equal to the list and the blobs exactly those of the listed ids |
| ClipboardCrash.ReopenIsIdentity | backend/src/modules/clipboard/store.rs:79-92 | opening an agreeing disk gives the same list |
| ClipboardCrash.SecondCrashCanHappen | backend/src/modules/clipboard/store.rs:195-204 | one crash inside a deletion leads to a disk whose index lists the next id |
| ClipboardCrash.SecondCrashFails | backend/src/modules/clipboard/store.rs:130-134 | on that disk a crash while any other content is added is not recovered from |
| ClipboardSessions.AlwaysOpensSound | backend/src/modules/clipboard/store.rs:79-92 | after any number of sessions, each ended at any file step, opening gives a list that satisfies the invariant |
| ClipboardSessions.EveryCrashRecovers | backend/src/modules/clipboard/store.rs:107-258 | each of those crashes is recovered from, except where nothing was saved since opening, the index lists the next id and the new blob is there before the new index |
| ClipboardLru.RecentDistinct | backend/src/modules/clipboard/store.rs:117-128 | the unbounded history lists every content once |
| ClipboardLru.RecentIsByLastUse | backend/src/modules/clipboard/store.rs:122-125 | it is ordered by last use, latest first |
| ClipboardLru.WindowMoves | backend/src/modules/clipboard/store.rs:168-184 | moving to the front and cutting commute |
| ClipboardLru.HistoryIsMostRecent | backend/src/modules/clipboard/store.rs:107-184 | after any accepted additions the list is the first MAX_HISTORY of the unbounded history |
| ClipboardStore.Store.constructor | backend/src/modules/clipboard/store.rs:79-92 | opening lists the indexed entries whose blob exists and counts on from the highest id |
| ClipboardStore.Store.Hash | backend/src/modules/clipboard/store.rs:306-313 | the byte loop computes FNV-1a modulo 2^64, the hash of which the rows of `Fingerprints` speak |
| Fingerprints.MixIsInjective | backend/src/modules/clipboard/store.rs:308-311 | one step loses neither the hash nor the byte, because the prime has an inverse modulo 2^64 |
| Fingerprints.SameTail | backend/src/modules/clipboard/store.rs:306-313 | what follows two contents does not change whether their hashes are equal |
| Fingerprints.OneByteShows | backend/src/modules/clipboard/store.rs:306-313 | contents of one length that differ in one byte have different hashes |
| Fingerprints.BothAreListed | backend/src/modules/clipboard/store.rs:116-128 | of two contents added to an empty history the second is listed on its own unless the two collide, and contents one byte apart do not |
| Fingerprints.OneByteApartIsNew | backend/src/modules/clipboard/store.rs:116-128 | in any history a content one byte apart from every listed content of its size is new and listed first |
| Fingerprints.ReferenceValue | backend/src/modules/clipboard/store.rs:306-313 | the hash of "a" is the reference value of FNV-1a |
| ClipboardStore.Store.Position | backend/src/modules/clipboard/store.rs:117-121 | the first entry with the content's key |
| ClipboardStore.Store.Trim | backend/src/modules/clipboard/store.rs:168-184 | the two loops drop every entry with a surplus id, whatever ids repeat, and remove exactly those ids' files |
| ClipboardStore.Store.Add | backend/src/modules/clipboard/store.rs:107-165 | skips, moves or inserts; list and file steps are those of the specification, in order |
| ClipboardStore.Store.Delete | backend/src/modules/clipboard/store.rs:195-204 | one entry and its files, and an unknown id changes nothing |
| ClipboardStore.Store.Clear | backend/src/modules/clipboard/store.rs:207-216 | all unpinned entries and their files, and their number |
| ClipboardStore.Store.SetPinned | backend/src/modules/clipboard/store.rs:219-236 | pins within the cap, unpins and trims, or reports why not |
| Text.ParseOfIntText | backend/src/modules/hypr.rs:879-883 | printing and parsing a 64-bit integer is a round trip |
| Text.ParseI64Means | backend/src/modules/hypr.rs:879-883 | exactly an optional sign and digits whose value fits are a number, and it is that value |
| Civil.DaysFromCivilCounts | backend/src/modules/calendar.rs:1127-1135 | the closed form counts the days since 1970-01-01 as the Gregorian calendar does, year by year and month by month |
| Civil.CivilFromDaysIsValid | backend/src/modules/calendar.rs:1137-1147 | every day number gives a month in 1..12, a day within it, and the same day number back |
| Civil.CivilRoundTrip | backend/src/modules/calendar.rs:1127-1147 | every valid date comes back from its day number |
| Civil.DatesAreDistinct | backend/src/modules/calendar.rs:1127-1135 | two valid dates have the same day number only if they are the same |
| CalendarText.PrintedDate | backend/src/modules/calendar.rs:1137-1139 | every 64-bit day number is printed with its own date but for the last 719468, where shifting the epoch wraps |
| CalendarText.ParseOfFormatDate | backend/src/modules/calendar.rs:1157-1171 | a printed date parses back iff it lies between the first day of the year 0 and the day where the shift wraps |
| CalendarText.ParseOfInstant | backend/src/modules/calendar.rs:1186-1217 | an instant written with any offset, letter case and fraction parses to its UTC milliseconds iff they fit 64 bits, and to their wrapped value otherwise |
| CalendarText.ParseOfFormatRfc3339 | backend/src/modules/calendar.rs:1173-1183 | the daemon's own timestamps parse back to their second iff it lies in the year 0 or later and its milliseconds fit 64 bits |
| CalendarText.FractionIsTruncated | backend/src/modules/calendar.rs:1200-1205 | a fraction of any length is cut, not rounded, to milliseconds |
| CalendarReading.ParseDateMeans | backend/src/modules/calendar.rs:1157-1165 | exactly three numbers with a month of 1 to 12 and a day of 1 to 31 are a date |
| CalendarReading.DaysRunOver | backend/src/modules/calendar.rs:1127-1135 | a day past the end of its month is counted on from the first of the month, so it lies in the next |
| CalendarReading.ParseTimeMeans | backend/src/modules/calendar.rs:1190-1217 | exactly a clock, a fraction and from the first zone mark on a zone are a time |
| CalendarReading.ParseMillisMeans | backend/src/modules/calendar.rs:1200-1205 | only the first three characters of a fraction are looked at, and they must be digits |
| CalendarReading.ParseRfc3339Means | backend/src/modules/calendar.rs:1186-1217 | exactly the texts of that form parse, and to the instant they say; everything else is refused |
| Brightness.StepUp | backend/src/modules/brightness.rs:107-114 | a step up from below the top strictly increases and stays within the panel |
| Brightness.StepDown | backend/src/modules/brightness.rs:107-114 | a step down stays at one or more, and strictly decreases iff the panel is not below its one percent level |
| Brightness.StepStaysOn | backend/src/modules/brightness.rs:107-114 | no step, however large, switches the panel off or leaves its range |
| Brightness.StepSetsPercent | backend/src/modules/brightness.rs:107-114 | with at least 100 levels a step of some percents that stays within 1 and 100 is read back as exactly that many more or less |
| Brightness.PercentIsClamped | backend/src/modules/brightness.rs:99-102 | a percent outside 1 to 100 sets the level of the nearest one inside |
| Brightness.PercentRoundTrip | backend/src/modules/brightness.rs:92-102 | with at least 100 levels every percent set is the percent read |
| Brightness.RoundTripNeedsLevels | backend/src/modules/brightness.rs:92-102 | with fewer levels some percent is not |
| HyprModel.ParseOfSizeText | backend/src/modules/hypr.rs:879-884 | a printed size parses back iff both sides are positive |
| HyprModel.ParseOfPointText | backend/src/modules/hypr.rs:886-894 | a printed position parses back, negative coordinates included |
| HyprModes.SizeMeans | backend/src/modules/hypr.rs:879-884 | a size is exactly two positive numbers at the first x |
| HyprModes.PointMeans | backend/src/modules/hypr.rs:886-894 | a position is exactly two numbers at the first x after the first character |
| HyprModes.HertzIsTakenOff | backend/src/modules/hypr.rs:839-839 | the unit of a rate is taken off however often it is written, and nothing else is |
| HyprModes.LivePlace | backend/src/modules/hypr.rs:912-931 | a display covers its pixels divided by its scale, to the nearest whole number, and a quarter turn swaps its sides |
| HyprModel.SettingFor | backend/src/modules/hypr.rs:901-901 | a display's request is one whose trimmed name is the display's, and is found if there is one |
| HyprLayout.OverlapIsFound | backend/src/modules/hypr.rs:943-951 | displays that share a square of two pixels are reported, wherever they are |
| HyprLayout.SharedExactly | backend/src/modules/hypr.rs:944-947 | on one axis the computed overlap exceeds a pixel iff the real one does or the arithmetic wraps round to it |
| HyprLayout.ClashIsOverlap | backend/src/modules/hypr.rs:943-951 | the test is right about a pair of displays iff the pair raises no such false alarm |
| HyprLayout.InRangeIsExact | backend/src/modules/hypr.rs:943-951 | displays in the middle half of the 64-bit range raise none |
| HyprLayout.FarDisplaysAreRefused | backend/src/modules/hypr.rs:944-947 | a pair of enabled displays at the far end that is reported and does not overlap |
| HyprLayout.FirstOverlap | backend/src/modules/hypr.rs:938-954 | none iff no two enabled displays clash, and otherwise the first clashing pair in order |
| HyprLayout.ValidateLayout | backend/src/modules/hypr.rs:762-823 | accepts iff every request is sound and for a display of its own, some display stays on and none clash; otherwise names a real fault |
| HyprModes.AcceptedMeans | backend/src/modules/hypr.rs:762-865 | what the validator accepts, said without its checks: keywords or listed sizes with a good rate, positions, bounds, names of live displays given once, a display on and no clash |
| HyprModes.AcceptedSizesAreListed | backend/src/modules/hypr.rs:853-862 | a display that is given a size in an accepted request is given one that its panel lists, and is placed with it |
| HyprModes.SnapshotIsAccepted | backend/src/modules/hypr.rs:589-606 | the validator accepts the live state as it prints it iff some display is on, each that is on has a listed size and rate, scale and transform within bounds, and none clash |
| HyprLayout.SpacedNameCanGoDark | backend/src/modules/hypr.rs:766-777 | an accepted request whose part without spaced names is not accepted, and which leaves every display off |
| HyprLayout.LoneDisplayIsAccepted | backend/src/modules/hypr.rs:810-815 | a request that only switches the one display on is accepted, whatever its state |
| HyprLayout.SentIsSetting | backend/src/modules/hypr.rs:574-584 | for plain names given once, the request the compositor applies is the one that was validated |
| HyprLayout.ResolvePredicts | backend/src/modules/hypr.rs:898-934 | the validated picture is the layout the request leads to |
| HyprLayout.AcceptedIsSafe | backend/src/modules/hypr.rs:762-823 | an accepted request, carried out by exact names, leaves a display on and no clash iff its part without spaced names is accepted too |
| HyprLayout.AcceptedHasNoOverlap | backend/src/modules/hypr.rs:762-823 | the same in pixels: a display on, no overlap of more than a pixel both ways, no false alarm |
| HyprLayout.SnapshotOneResolves | backend/src/modules/hypr.rs:589-606 | resolving a display's printed state gives its geometry back iff it has a positive scale or sides that no scale changes |
| HyprLayout.SnapshotIsFixedPoint | backend/src/modules/hypr.rs:589-606 | resolving the printed live state gives the geometry of no request at all iff that holds for every display |
| HyprPreview.SnapshotPinsLayout | backend/src/modules/hypr.rs:586-606 | displays show a snapshot's settings iff they look as they did when it was taken |
| HyprPreview.StepInv | backend/src/modules/hypr.rs:242-328 | every step keeps stored outputs unique and exactly the pending preview's guard armed |
| HyprPreview.PendingHoldsSnapshot | backend/src/modules/hypr.rs:254-262 | in every run a pending preview's `previous` is the snapshot of the last state without one |
| HyprPreview.PreviewIsTakenBack | backend/src/modules/hypr.rs:266-271 | after a revert, an expiry or a failed preview whose restoring call succeeds, the layout looks as in that state and nothing is pending |
| HyprPreview.TokensDiffer | backend/src/modules/hypr.rs:638-642 | every preview gets a token of its own |
| HyprPreview.SpentForever | backend/src/modules/hypr.rs:644-653 | a preview that was settled or replaced never becomes pending again |
| HyprPreview.SettledOnce | backend/src/modules/hypr.rs:292-321 | confirm, revert and expiry together settle a token at most once |
| HyprPreview.PreviewEndsOnlyWhenSettled | backend/src/modules/hypr.rs:242-322 | in every run a pending preview ends iff its own token settles it or another valid request fails to apply, and is begun or replaced iff a valid request is applied; a refused request leaves it alone |
| HyprPreview.PreviewIsGuarded | backend/src/modules/hypr.rs:273-286 | in every run the armed timers are exactly the pending preview's own |
| HyprPreview.StaleTokenIsIgnored | backend/src/modules/hypr.rs:310-314 | a call or timer with another token changes nothing |
| HyprPreview.UpsertAllStored | backend/src/modules/hypr.rs:561-569 | the last setting for an output wins and other outputs keep theirs |
| HyprPreview.StoreIsLog | backend/src/modules/hypr.rs:561-569 | in every run the store is the fold of upsert over what was confirmed or directly set since the last reset, in order |
| HyprPreview.StoreIsLastCommitted | backend/src/modules/hypr.rs:166-171 | so each output is stored at most once, as it was committed last |
| HyprPreview.ConfirmedIsShown | backend/src/modules/hypr.rs:291-297 | in runs of previews, a display named in the confirmed list shows what is stored for it |
| HyprPreview.AcceptedIsShownSafe | backend/src/modules/hypr.rs:762-823 | whatever a compositor makes of an accepted request that spells out every display, if it shows it some display is on and none overlap |
| HyprPreview.BegunIsSafe | backend/src/modules/hypr.rs:242-289 | in every run the displays are safe after such a preview is applied |
| HyprPreview.TakenBackIsSafe | backend/src/modules/hypr.rs:300-321 | in every run, taking a preview back leads to safe displays iff they were safe before it |
| HyprPreview.AcceptedCanBeShown | backend/src/modules/hypr.rs:762-823 | what the validator accepts a compositor can show, so the assumption on it can be met |
| HyprPreview.Store.UpsertMonitor | backend/src/modules/hypr.rs:166-171 | replaces the output's setting or appends it |
| HyprPreview.Hypr.NextToken | backend/src/modules/hypr.rs:638-642 | the token of the current serial, which is then used up |
| HyprPreview.Hypr.TakePreview | backend/src/modules/hypr.rs:644-653 | hands out the pending preview iff the token is its own, and disarms its guard |
| HyprPreview.Hypr.PersistMonitors | backend/src/modules/hypr.rs:561-569 | the loop stores the whole list, or nothing when saving fails |
| HyprPreview.Hypr.BeginPreview | backend/src/modules/hypr.rs:242-289 | applies and arms, rolls back, or refuses and then changes nothing at all; and which of them |
| HyprPreview.Hypr.ConfirmPreview | backend/src/modules/hypr.rs:292-297 | stores the requested list of the pending preview and ends it |
| HyprPreview.Hypr.RevertPreview | backend/src/modules/hypr.rs:300-306 | applies the snapshot and ends the preview |
| HyprPreview.Hypr.ExpirePreview | backend/src/modules/hypr.rs:310-322 | the same for the timer, which does nothing to another preview |
| HyprPreview.Hypr.SetMonitors | backend/src/modules/hypr.rs:539-557 | stores only what was applied, or unchecked without a compositor, and never touches a pending preview |
| GreeterLayout.RenderLayout | backend/src/greeter.rs:76-105 | the three loops write head, new lines and carried lines |
| GreeterConfig.Greeter.ReadLayout | greeter/hyprland.lua:73-103 | the reading loop registers displays in order and overrides the keyboard table |
| GreeterPatterns.OutputAgrees | greeter/hyprland.lua:31-33 | both sides accept the same output names |
| GreeterPatterns.KeyboardAgrees | greeter/hyprland.lua:35-35 | both sides accept the same keyboard values |
| GreeterPatterns.ModeAgrees | greeter/hyprland.lua:82-82 | the greeter accepts the daemon's modes and those that end in a decimal point |
| GreeterPatterns.DanglingModeExists | greeter/hyprland.lua:82-82 | a mode that only the greeter accepts |
| GreeterPatterns.PositionAgrees | greeter/hyprland.lua:83-83 | both sides accept the same positions |
| GreeterPatterns.ScaleAgrees | greeter/hyprland.lua:84-84 | the greeter accepts digits with or without a point and any digits after it |
| GreeterPatterns.TransformAgrees | greeter/hyprland.lua:85-85 | the greeter accepts the printed transforms 0 to 7 and no other |
| GreeterReading.OnMeans | greeter/hyprland.lua:76-93 | a display is switched on by exactly the lines of five fields that pass the patterns |
| GreeterReading.OffMeans | greeter/hyprland.lua:95-96 | and off by exactly the marked names that pass theirs |
| GreeterReading.SetMeans | greeter/hyprland.lua:97-99 | a keyboard setting is overridden by exactly the lines with its key and a value that is not empty and passes |
| GreeterReading.LineOutputMeans | backend/src/greeter.rs:124-131 | an earlier line is about a display iff it is marked as on or off and an output name follows |
| GreeterReading.HasLineMeans | backend/src/greeter.rs:107-121 | a setting gets a line iff the patterns of the greeter take its parts, but for the rate that ends in a decimal point |
| GreeterReading.UnendedLine | backend/src/greeter.rs:96-96 | both ends take what follows the last newline for a line |
| GreeterRuns.LineReadsBack | backend/src/greeter.rs:107-121 | every line the daemon makes is accepted and says what the setting said |
| GreeterRuns.LineNamesOutput | backend/src/greeter.rs:124-131 | the daemon finds the display of its own lines again |
| GreeterRuns.RenderedLines | backend/src/greeter.rs:88-102 | whatever the old file, a display has its new line if its setting is valid and else the first line it had |
| GreeterRuns.FileIsKnown | backend/src/greeter.rs:96-102 | every line of a file written since an empty one is one the daemon makes, and both ends cut the file alike |
| GreeterRuns.FileIsLatest | backend/src/greeter.rs:65-105 | after any calls a display has at most one line, from the latest call with a valid setting for it |
| GreeterRuns.GreeterSeesLatest | greeter/hyprland.lua:73-103 | the greeter registers each display once, exactly as that setting says, and no other display |
| GreeterRuns.EveryLineIsAccepted | greeter/hyprland.lua:76-96 | no line about a display is lost on the greeter |
| GreeterRuns.GreeterSeesKeyboard | greeter/hyprland.lua:97-99 | the keyboard is that of the last session, and the system's own where a value is empty or invalid |
| GreeterRuns.RepeatedRendering | backend/src/greeter.rs:96-102 | rendering twice changes nothing iff no carried line ends in a carriage return |
| GreeterRuns.CarriageReturnIsLost | backend/src/greeter.rs:96-102 | a file that a second rendering changes |
| GreeterRuns.RepeatedCallChangesNothing | backend/src/greeter.rs:65-105 | repeating the last call never changes a file the daemon wrote |

## Left out

- D-Bus, Wayland, HTTP, OAuth, the keyring and child processes: calls into other programs. Where a protocol depends on one, its answer is a parameter.
- JSON and the protocol's text: requests, events and index files are values. Replies carry only whether they succeeded.
- Theme generators, palettes and localisation: table filling that would only add easy members.
- Restart with backoff and the health topic: a module loop runs until it is aborted. A module whose loop ends by itself keeps its finished task in the source, so "runs" means "was started and not aborted".
- The number of calls in flight and the drain timeout of a closing connection: a call's reply may arrive at any time, and draining ends at any time.
- Fairness: `Progress` and `Unwinding` show that a task left to its own steps comes to rest, each step lowering a measure; that the runtime gives every task its turn is not modelled.
- Blank lines and invalid UTF-8 between the line reader and the request parser.
- Call, client and preview counters are unbounded; the source's wrap after 2^64 (`_nextId`: 2^31) values.
- JavaScript exceptions thrown by callbacks.
- Previews and thumbnails of the clipboard, and errors of its files other than a crash between two of its steps: a removal or a rename happens at once or not at all.
- Floating point: refresh rates, scales and logical sizes are reals, rounded where the source rounds. Not-a-number cannot come out of the JSON that carries them.
- ValidateLayout: the parser of refresh rates is a parameter, since only whether it accepts a text matters.
- Integer overflow is that of a release build: 64-bit arithmetic wraps where a sum can leave the range, and a debug build would stop there.
- AcceptedIsSafe: carries a request out to the letter, keeping whatever is not given in numbers, which is the validator's own picture. `HyprPreview.AcceptedIsShownSafe` speaks of every compositor instead, for requests that name each display with a size, a position, a scale and a transform; the keywords (`preferred`, `auto`) place displays by rules that are not part of this model. Both suppose that the displays' own names have no white space around them.
- ShowsOne: a rate that is not a whole number may be rounded either way by the compositor.
- PreviewIsTakenBack: displays do not come or go during a run, and those that are on report a size and a scale. Disabled displays are compared by their flag only.
- PrintsDecimals: that a positive finite f64 prints as a plain decimal is a fact about the standard library, taken as a precondition.
- The greeter's keyboard before the file is read, its `input-screen` file and the rest of its configuration.
- A layout file cut short by a crash inside its write; a file that cannot be read or written is covered (`GreeterRuns.Call`).
- `parse_wifi_networks`, the VPN cache, sleep cycles, popup coordination, colours and EDID: small, and independent of the properties above.
