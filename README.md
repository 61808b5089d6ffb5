# Heat-map and vehicle-replay WebSocket server, modelled in Dafny

The server pushes two feeds to browser clients over WebSocket.

- **Lab1, the heat-map feed.** The server subscribes a queue of its own to the supplier's topic. A callback reads the queue asynchronously and re-arms itself after every batch. Each batch's message bodies are split into lines, and the lines go onto a hot stream. Every connected client receives each line as `m1,<line>`. Connecting a client also puts `start` on the supplier's command queue.
- **Lab2, the vehicle replay.** The location file is loaded once. Lines are trimmed and empty lines are dropped. Only the lines of the first `maxVehicles` distinct vehicles are kept. Each client replays these lines, cut into time windows: a window runs from its first record (the delimiter) while the record times are before the delimiter plus `refreshRate` minutes. Each client receives the first `maxVehicles` records of every window, as `m2,<vehicle>,<lat>,<lon>`.
- **The application.** The first command-line argument selects `1`, `2` or `both`. A connecting client is first sent the map key as `m0,<key>`. If that fails, the handler stops. Otherwise the client is attached to Lab1 and then to Lab2, as selected. If the Lab1 singleton cannot be created, the process exits with status 1.
- **WsPacket.send.** It sends nothing to a closed session and answers false. An open session gets exactly one frame and the answer is true, even when the transport throws.

Modules:

- `Wrappers`, `Seqs`: Option, and concatenation of sequences.
- `Strings`: the Java string operations the code depends on: `String.trim`, `String.split`, `Pattern.splitAsStream` with a one-character separator, and `Integer.parseInt`.
- `LocalTime`: a time of day in seconds, `plusMinutes` (which wraps at midnight), `isBefore`, and `parse`.
- `Transport`: the WebSocket session, which is open or closed, may throw IOException, and keeps a log of attempted frames. Also the subscription handle.
- `WsPacket`, `Lab1`, `Lab2`, `Application`: one module per source file.

Behaviour of the code worth knowing; the model follows it:

- The window span is `plusMinutes(refreshRate)`, so `refreshRate` counts minutes (`Lab2.java:146`). The cadence delay counts seconds.
- Each window is truncated by position to its first `maxVehicles` records (`Lab2.java:160-162`), whichever vehicles they belong to.
- A malformed line is not dropped. Every loaded line is split for its vehicle (`split(",")[1]`, `Lab2.java:105` and `111`), so a line without a second field ends the loading stream with an exception. Only the lines of tracked vehicles reach the windower, which parses their times (`Lab2.java:146`) and splits fields 2 and 3 of the records it emits (`Lab2.java:167-170`); a bad time there, or too few fields in an emitted record, ends that client's stream with the exception. A line of an untracked vehicle needs nothing beyond its second field. The model requires every loaded line to have a vehicle and every tracked line to be well formed; see "Left out".
- Lab2 frames carry an `m2,` tag in front of the vehicle, latitude and longitude.
- `Pattern.splitAsStream` is modelled as in Java 9 and later: an empty message body becomes one empty record, because the library returns the input itself when the separator does not occur (`Lab1.DecodeEmptyBody`). Java 8 gives an empty stream there. SQS does not accept an empty message body, so the case does not arise from the queue.
- `Application.java:88` calls `new Lab2(session, args, file)`, which does not compile: `Lab2` has only a private constructor. The model attaches a client with `subscribeClient` on the Lab2 singleton, which the caller obtains from `getInstance`.

## Model

| member | source | states |
|---|---|---|
| WsPacket.Send | src/main/java/map/WsPacket.java:10-24 | The answer is true exactly when the session was open. A closed session gets no frame. An open one gets exactly one frame with the message, and the swallowed IOException still answers true. Nothing else about the session changes. |
| Strings.Trim | src/main/java/map/Lab2.java:101 | Defines String.trim: the leading white space is dropped, then the trailing white space of what is left. TrimInfix states what it keeps. |
| Strings.TrimInfix | src/main/java/map/Lab2.java:101 | trim keeps the infix from the first to the last character above U+0020. Everything outside it is white space. The result is empty exactly when the whole line is white space. |
| Strings.TrimIdempotent | src/main/java/map/Lab2.java:101 | Trimming a trimmed line changes nothing. |
| Strings.Split | src/main/java/map/Lab1.java:141 | Splitting the empty string gives the empty string alone. |
| Strings.SplitWhole | src/main/java/map/Lab1.java:141 | A string without the separator splits into itself. |
| Strings.SplitPieces | src/main/java/map/Lab2.java:105 | split returns a prefix of the pieces between separators; no field holds the separator; only empty trailing pieces are dropped. |
| Strings.SplitJoin | src/main/java/map/Lab2.java:167-170 | Splitting the join of separator-free fields whose last field is non-empty gives back the fields. |
| Strings.ParseInt | src/main/java/map/Lab2.java:58 | parseInt yields only values in the 32-bit range. An accepted string is all digits, or a sign followed by at least one character, all of them digits. |
| Strings.ParseIntToString | src/main/java/map/Lab2.java:58 | parseInt of the decimal rendering of any 32-bit integer gives that integer back. |
| LocalTime.PlusMinutes | src/main/java/map/Lab2.java:146 | The java.time algorithm: minute-of-day modulo a day with Java's truncating remainder, second kept. It equals adding the minutes and wrapping at midnight. |
| LocalTime.PlusMinutesFields | src/main/java/map/Lab2.java:146 | The new minute of the day is the old one plus the minutes, modulo a day, with Java's remainder normalised. The second of the minute is kept. |
| LocalTime.PlusMinutesNoWrap | src/main/java/map/Lab2.java:146 | Without a wrap, plusMinutes is plain addition. |
| LocalTime.PlusMinutesWraps | src/main/java/map/Lab2.java:146 | When less than a day of minutes wraps past midnight, the limit lies below the start, so no later time of the day is before it. |
| LocalTime.ParseTime | src/main/java/map/Lab2.java:146 | parse accepts only the HH:mm and HH:mm:ss lengths. |
| LocalTime.ParseTimeToString | src/main/java/map/Lab2.java:146 | parse of a time written as HH:mm:ss gives that time back. |
| Lab2.Configure | src/main/java/map/Lab2.java:56-77 | The vehicle count comes from argument 1 and the refresh rate from argument 2. Each is the default (10, 60) when absent or not an integer. The file name comes from argument 3, with the default path otherwise. Both numbers are 32-bit. |
| Lab2.ConfigureReadsIntegers | src/main/java/map/Lab2.java:58-68 | Integers written on the command line are the settings used. |
| Lab2.Normalise | src/main/java/map/Lab2.java:101-102 | Defines the loaded lines: every file line trimmed, those empty after trimming dropped, in file order. The Normalise lemmas state its properties, and TrimLines computes it. |
| Lab2.NormaliseTrimmed | src/main/java/map/Lab2.java:101-102 | Every loaded line is non-empty and trimmed. |
| Lab2.NormaliseFrom | src/main/java/map/Lab2.java:101-102 | Every loaded line is some file line, trimmed. |
| Lab2.NormaliseKeeps | src/main/java/map/Lab2.java:101-102 | Every file line that is non-empty after trimming is loaded, trimmed. |
| Lab2.NormalisePrefix | src/main/java/map/Lab2.java:99-102 | Loading a prefix of the file gives a prefix of the loaded lines. |
| Lab2.NormaliseStep | src/main/java/map/Lab2.java:101-102 | One more file line adds that line trimmed, or nothing when it is empty after trimming. |
| Lab2.TrimLines | src/main/java/map/Lab2.java:99-102 | The map/filter pass yields exactly the loaded lines. |
| Lab2.Distinct | src/main/java/map/Lab2.java:104-108 | The distinct vehicles are the same vehicles, without duplicates. |
| Lab2.DistinctOrder | src/main/java/map/Lab2.java:104-108 | The distinct vehicles are ordered by first appearance. |
| Lab2.WorkingSet | src/main/java/map/Lab2.java:96-108 | The working set holds at most maxVehicles vehicles. It is a prefix of the distinct vehicles, and all of them when it is not full. |
| Lab2.Track | src/main/java/map/Lab2.java:104-108 | Defines the doOnNext update: the vehicle is appended when the list is below maxVehicles and does not hold it yet. |
| Lab2.TrackWorkingSet | src/main/java/map/Lab2.java:104-108 | The doOnNext step turns the working set of a prefix into the working set of the next prefix. The list grows only while below maxVehicles, and only by a new vehicle. |
| Lab2.DistinctPrefix | src/main/java/map/Lab2.java:104-108 | Distinct vehicles of a prefix are a prefix of the distinct vehicles. |
| Lab2.SeenIffFinal | src/main/java/map/Lab2.java:104-113 | A vehicle is in the list when its line is filtered iff it is among the first maxVehicles distinct vehicles of the whole file. |
| Lab2.KeepTracked | src/main/java/map/Lab2.java:110-113 | Defines the second filter: the lines whose vehicle is in a given list, in their order. It never lengthens the input. |
| Lab2.KeepTrackedMembers | src/main/java/map/Lab2.java:110-113 | A line is kept iff it is an input line whose vehicle is in the working set. |
| Lab2.KeepTrackedAppend | src/main/java/map/Lab2.java:110-113 | Filtering distributes over concatenation, so kept lines stay in file order. |
| Lab2.TrackStep | src/main/java/map/Lab2.java:104-113 | One line updates the list as doOnNext does. It is kept iff its vehicle is in the final working set. |
| Lab2.TrackAndKeep | src/main/java/map/Lab2.java:104-113 | The fused doOnNext/filter pass keeps exactly the lines whose vehicle is in the final working set. |
| Lab2.Located | src/main/java/map/Lab2.java:104-113 | Defines what openLocationsFile keeps: the loaded lines whose vehicle is among the first maxVehicles distinct vehicles of the whole file. |
| Lab2.OpenLocations | src/main/java/map/Lab2.java:93-113 | A negative vehicle count is the ArrayList capacity exception. Otherwise the located lines are the loaded lines of the working set's vehicles. |
| Lab2.ParseRecord | src/main/java/map/Lab2.java:167-170 | A record's vehicle is field 1 of its line. Vehicle, latitude and longitude hold no comma. |
| Lab2.RunBefore | src/main/java/map/Lab2.java:146 | The longest run of records before the limit: every record in it is before the limit, and the next one is not. |
| Lab2.Windows | src/main/java/map/Lab2.java:139-155 | Defines the windows of a record stream: each opens at its first record and holds the following run before that record's time plus refreshRate minutes. WindowsPartition states what they are. |
| Lab2.FirstWindow | src/main/java/map/Lab2.java:139-155 | The first window's length: its delimiter and the run before its limit, at least one record and at most all of them. |
| Lab2.WindowsPartition | src/main/java/map/Lab2.java:139-155 | The windows concatenate to the records and none is empty. Each window's records are before its delimiter plus refreshRate minutes. Each later window's first record is not before the previous delimiter plus refreshRate minutes. |
| Lab2.WindowsConcat | src/main/java/map/Lab2.java:139-155 | The windows concatenate back to the record stream, so no record is lost or repeated. |
| Lab2.WindowsDelimited | src/main/java/map/Lab2.java:146-149 | Every window is non-empty, and its records are before its delimiter plus refreshRate minutes. |
| Lab2.WindowsCut | src/main/java/map/Lab2.java:150-154 | Each later window opens at a record that is not before the previous delimiter plus refreshRate minutes. |
| Lab2.NextWindowStart | src/main/java/map/Lab2.java:150-154 | The record after the first window opens the second window, and it is not before the first limit. |
| Lab2.WindowsAfterCut | src/main/java/map/Lab2.java:146-154 | A run before the limit, followed by a record that is not, is a whole window. The boundary record opens the next window. |
| Lab2.StayStep | src/main/java/map/Lab2.java:146-149 | A record before the limit joins the open window and leaves the windows to come unchanged. |
| Lab2.CutStep | src/main/java/map/Lab2.java:150-154 | A record not before the limit closes the open window. |
| Lab2.WindowUntil | src/main/java/map/Lab2.java:139-155 | Three cases with the per-client cursor. An empty cursor takes the record's time and the record stays. A record before the delimiter plus refreshRate minutes stays. Any other record becomes the delimiter and cuts before itself. The windows produced are exactly the maximal windows. |
| Lab2.WrappedLimitCuts | src/main/java/map/Lab2.java:146 | When the limit wraps past midnight, the next later record of the same day opens a new window. |
| Lab2.Format | src/main/java/map/Lab2.java:167-171 | Defines a Lab2 frame: `m2,` and the vehicle, latitude and longitude joined by commas. FormatSplits inverts it. |
| Lab2.Truncate | src/main/java/map/Lab2.java:160-162 | Only records at index below maxVehicles are kept, in window order. |
| Lab2.Emit | src/main/java/map/Lab2.java:158-173 | Defines what a client receives: window after window, the first maxVehicles records of each, formatted. EmitFromRecords, EmitWhole and EmitCount state its properties. |
| Lab2.EmitFromRecords | src/main/java/map/Lab2.java:158-173 | Every frame sent formats a record of the windows. |
| Lab2.EmitWhole | src/main/java/map/Lab2.java:158-173 | Windows no longer than maxVehicles are sent whole and in order. |
| Lab2.EmitCount | src/main/java/map/Lab2.java:158-173 | Each further window adds exactly its truncated, formatted records at the end. |
| Lab2.FormatSplits | src/main/java/map/Lab2.java:167-171 | A frame splits back into m2 and the vehicle, latitude and longitude of its record. |
| Lab2.LocatedTracked | src/main/java/map/Lab2.java:99-113 | Every located line is a loaded line whose vehicle is in the working set. When all loaded lines are well formed, so are the located ones. |
| Lab2.RecordsTracked | src/main/java/map/Lab2.java:167-171 | The records of those lines carry only working-set vehicles. |
| Lab2.FramesFromRecords | src/main/java/map/Lab2.java:138-173 | Every frame a client receives formats one of the records it replays. |
| Lab2.ReplayedVehiclesAreTracked | src/main/java/map/Lab2.java:99-173 | Every frame a client receives formats a located record whose vehicle is in the working set. |
| Lab2.Replay.constructor | src/main/java/map/Lab2.java:30-43 | The singleton starts with empty SUBSCRIPTIONS and TIME_DELIMITER and the given settings. |
| Lab2.Replay.GetInstance | src/main/java/map/Lab2.java:50-86 | Requires a vehicle field on every loaded line and well-formed tracked lines. None exactly when the vehicle count is negative. Otherwise the settings come from the command line, the locations are the located lines of the file, and the registry is empty. |
| Lab2.Replay.SubscribeClient | src/main/java/map/Lab2.java:130-215 | The client's cursor is seeded empty. Its fresh subscription is recorded under its id. Other ids are unchanged. |
| Lab2.Replay.OnNext | src/main/java/map/Lab2.java:177-193 | The frame is sent. A failed send disposes the subscription and removes the id from both maps. Other ids are unchanged. |
| Lab2.Replay.OnError | src/main/java/map/Lab2.java:194-212 | The session is closed with SERVER_ERROR unless close throws. The id leaves both maps. Nothing is disposed. |
| Lab2.Replay.SendAll | src/main/java/map/Lab2.java:177-193 | Frames before the peer's close are sent in order. The first failed send ends the subscription and removes the client. If the client stays open, the registry is unchanged. |
| Lab2.Replay.Deliver | src/main/java/map/Lab2.java:138-212 | A client's replay is the truncated, formatted windows of the locations, sent as SendAll states. |
| Lab1.Decode | src/main/java/map/Lab1.java:139-145 | Defines the records of a batch: each message body split at line breaks as splitAsStream splits it, bodies in message order. DecodeAppend, DecodeLines and DecodeEncode state its properties. |
| Lab1.DecodeAppend | src/main/java/map/Lab1.java:139-145 | Two batches decode one after the other. |
| Lab1.DecodeLines | src/main/java/map/Lab1.java:141 | No record holds a line break. |
| Lab1.Encode | src/main/java/map/Lab1.java:139-141 | One message body per run of lines. |
| Lab1.DecodeEncode | src/main/java/map/Lab1.java:139-145 | Decoding gives back every line of every body, in message order and line order. |
| Lab1.DecodeTwoLines | src/main/java/map/Lab1.java:139-145 | A body holding two coordinate lines becomes two records, in order. |
| Lab1.DecodeEmptyBody | src/main/java/map/Lab1.java:141 | An empty message body becomes one empty record. |
| Lab1.DecodeOnlyBreaks | src/main/java/map/Lab1.java:141 | A body of line breaks only yields no record. |
| Lab1.DecodeTrailingBreak | src/main/java/map/Lab1.java:141 | A trailing line break adds no empty record. |
| Lab1.Bridge.constructor | src/main/java/map/Lab1.java:134-160 | Flux.create arms the first read: polling, one read outstanding, nothing pushed. |
| Lab1.Bridge.OnComplete | src/main/java/map/Lab1.java:136-156 | A batch, even empty and even with an error beside it, is decoded onto the stream and re-arms exactly one read. With no batch, an error fails the sink and nothing is re-armed. With neither, nothing happens and nothing is re-armed. |
| Lab1.Bridge.Poll | src/main/java/map/Lab1.java:137-149 | Batches are pushed in arrival order, and each re-arms once. |
| Lab1.DecodeRunReceived | src/main/java/map/Lab1.java:137-149 | What the re-arming callback pushes over a run of batches is the flatMap of all their messages, in arrival order. |
| Lab1.Bridge.Drain | src/main/java/map/Lab1.java:134-160 | Pushed records are the decoded batches up to the first completion without a batch. Fetches grow by one per batch. The bridge ends failed with that error, stalled, or still polling. |
| Lab1.FirstStop | src/main/java/map/Lab1.java:137-151 | Every completion before the stopping one carries a batch, and the stopping one does not. |
| Lab1.Outcome | src/main/java/map/Lab1.java:151-155 | The bridge still polls exactly when no completion lacked a batch. |
| Lab1.BatchBeatsError | src/main/java/map/Lab1.java:137-151 | A batch that arrives with an error keeps polling. |
| Lab1.Tagged | src/main/java/map/Lab1.java:224 | Every record is sent as `m1,` followed by the record. |
| Lab1.TaggedSplits | src/main/java/map/Lab1.java:224 | Splitting a frame on commas gives `m1` followed by the comma-separated fields of the record, for every record. An empty record gives `m1` alone. |
| Lab1.Feed.constructor | src/main/java/map/Lab1.java:45 | CLIENTS starts empty. |
| Lab1.Feed.SubscribeClient | src/main/java/map/Lab1.java:208-265 | `start` is put on every call. Then exactly one entry is added under the session id, with a fresh subscription. When the put throws, nothing is registered. |
| Lab1.Feed.OnNext | src/main/java/map/Lab1.java:220-235 | The record is sent tagged. A failed send disposes the subscription and removes the id. Other ids are unchanged. |
| Lab1.Feed.OnError | src/main/java/map/Lab1.java:236-253 | The session is closed with SERVER_ERROR unless close throws, and the id is removed. |
| Application.SelectLab | src/main/java/map/Application.java:44-55 | Defines the lab selection: the first argument, or `both` when absent; anything but `1` and `2` becomes `both`. SelectLabChoices states its cases. |
| Application.SelectLabChoices | src/main/java/map/Application.java:40-56 | No argument selects both. 1 and 2 are kept. Anything else becomes both. Selection is stable. |
| Application.Application.CommandLineRunner | src/main/java/map/Application.java:40-56 | Keeps the arguments and selects the lab. |
| Application.Plan | src/main/java/map/Application.java:75-89 | Defines the handler's decisions: nothing after a failed key send, an exit when Lab1 is selected and cannot be obtained, otherwise the selected feeds in order. PlanDecisions states its cases. |
| Application.PlanDecisions | src/main/java/map/Application.java:71-90 | A failed key send attaches nothing. Lab1 is attached iff it is selected and obtainable. The process exits with status 1 iff Lab1 is selected and not obtainable, and nothing follows the exit. Lab2 is attached iff it is selected and the handler did not exit. Lab1 comes before Lab2. |
| Application.SomeFeedAttached | src/main/java/map/Application.java:79-89 | Once the key is sent, a client of the selected labs is attached to something, or the process exits. |
| Application.Application.constructor | src/main/java/map/Application.java:29-30 | The lab and the arguments are unset until commandLineRunner. |
| Application.Application.AfterConnectionEstablished | src/main/java/map/Application.java:71-90 | The key frame `m0,<key>` is the first and only frame the handler attempts. Decisions follow PlanDecisions. Attaching Lab1 puts `start` and maps the client to a fresh subscription, or changes nothing when the put throws. Attaching Lab2 maps the client to a fresh subscription and an empty cursor. Other clients' entries are kept, nothing is disposed, and a feed not reached is unchanged. |

## Left out

- Lab2.OpenLocations, Lab2.ParseRecord, Lab2.Replay.GetInstance: OpenLocations and GetInstance require every loaded line to have a vehicle field; without one, `split(",")[1]` (`Lab2.java:105`) throws inside the loading stream. GetInstance and ParseRecord also require every tracked line to have four fields and a parseable time. The code needs less: it parses a time only in the windower and splits fields 2 and 3 only of the records it emits, so a tracked line cut off by truncation may lack them. The failures these requires exclude, and the error they raise on the replay stream, are not modelled.
- Lab2.Replay.Deliver: the delimiter cursor is a local variable of WindowUntil. TIME_DELIMITER is modelled only as seeded empty at subscription and removed at cleanup. Its updates during the replay are not modelled.
- Lab2.Replay.OnNext, Lab2.Replay.SendAll: require the session's id to be in SUBSCRIPTIONS. The race in which a send fails before `SUBSCRIPTIONS.put` (`Lab2.java:177` vs `215`), so that `SUBSCRIPTIONS.get` finds no entry, is not modelled.
- Lab1.Feed.OnNext: requires the session's id to be in CLIENTS. The race in which an event arrives before `CLIENTS.put` (`Lab1.java:228` vs `255`) is not modelled.
- Application.Application.AfterConnectionEstablished: requires commandLineRunner to have set the lab. A connection before that would dereference a null lab.
- Concurrency is not modelled: the double-checked singletons, `synchronized`, `subscribeOn(Schedulers.parallel())`, the ConcurrentHashMaps, and the shutdown hook. These are thread scheduling, not logic of the feeds.
- Reactor timing is not modelled: `delayElements(ofSeconds(refreshRate))`, and whether `flatMap` could interleave windows. A client's frames are the truncated windows in window order.
- The hot `publish()/connect()` fan-out and the cold `replay()` are library behaviour. Each client is modelled alone, and the frames it sees are given.
- AWS calls are not modelled: queue and topic creation, subscribe, unsubscribe, the delete queue, and `getAsync`. Each read's completion is an input (`Completion`); whether the `start` put throws is an input (`putFails`); whether Lab1's getInstance threw is a null Lab1.
- Reading the file (`Files.lines`) is not modelled. Its content is a parameter of getInstance, and the IOException of opening it is not modelled.
- `LocalTime.parse` of fractional seconds is not modelled, and neither is `Integer.parseInt` of non-ASCII digits. Only the ASCII forms are accepted.
- The byte encoding of `BinaryMessage(msg.getBytes())` is not modelled: a frame carries the string.
- The `MAP_KEY` environment variable is a parameter. Console logging and stack traces are left out.
- After a `getInstance` whose vehicle count is negative, the Java singleton stays half-built. The model returns null and does not model later calls.
