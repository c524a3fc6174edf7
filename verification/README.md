# The VR administration service in Dafny

The vrserver process answers text queries about the VR SDKs installed on a headset, a binder service gives Java
clients a few privileged calls, and an Android service counts its monitors and reports firmware progress. This project
models the parts of these programs whose correctness depends on more than one function, and proves what they promise.

- **The query server** (`CStrings`, `SdkDatabase`, `XmlDatabase`, `ClientProtocol`, `Kernel`, `ClientConnector`,
  `ServerRounds`, `ServerListener`, `ServerRuns`, `ClientView`, `VrServer`). The database is a first-wins fold over XML
  documents.
  The connector objects, the list they are kept in and the select loop are classes that change in place. The operating
  system is a class driven by a script: what select reports, which descriptor accept hands out (any one not open,
  reused or new), what each read delivers, which writes fail. A script may say anything, and the kernel's rules are
  imposed on it, so theorems about all scripts are theorems about all environments. Connections carry an identity
  that no code can see; descriptors do not, and are reused. `ServerListener` is proved, iteration by iteration, to do
  what `ServerRounds.Round` says in terms of identities, `ServerRuns` proves the rest of all runs of rounds, and
  `ClientView` says what clients experience in the characters sent and the documents alone.
- **The start gate of Thread** (`Runs`, `StartGate`): two mutexes shared by any number of objects, creators and OS
  threads, one atomic step at a time.
- **Binder marshalling** (`Parcels`, `NativeServiceRpc`, `PostEventRpc`): proxies and stubs over parcels of bytes with
  a read cursor, around a service with any state and any behaviour.
- **Firmware progress** (`FlashProgress`, `TwosComplement`): frame decoding on bit-vectors, 32-bit arithmetic, and the
  whole sequence of broadcasts.
- **The native service and the monitor registry** (`NativeService`, `MonitorRegistry`): the whitelists, the loop that
  collects a command's output, and the counted registry that restores display settings.

Properties that do not hold in general are stated with the exact condition under which they do:

- A registered version can be asked for only without a dot and within 52 characters (`FeatureReachableIff`, `AskableIff`);
  a version response can be mistaken for a refusal or be cut (`VersionToldIff`); the type list survives only up to 64
  characters (`TypeListRoundTrip`); a feature number only below 2^63 (`FeatureRoundTrip`).
- accept returning 0 loses a descriptor for good, which can happen exactly when 0 is free (`NothingLostIff`, `ZeroIsLost`).
- A start() out of turn opens the gate early exactly when the mutex is held (`StrayStartOpensGateIff`). A creator that
  constructs a Thread inside the constructor of another, or before starting another, waits for ever, and with it every
  thread at the gate (`ReleasableIff`, `RunnableIff`). gThreads misses objects exactly when a thread id is reused while
  an earlier object still has it (`CompleteIff`).
- The proxy is transparent only to callers whose result string is empty (`TransparentIff`), the calls in point being
  systemCall, which appends, and any that fails, which leaves the string alone (`EffectIff`); the scheduler arguments
  survive only the order of evaluation as written (`OrderIff`); a missing event text is heard as "null"
  (`HeardAlikeIff`).
- Progress is right up to 21474836 bytes and no further (`PercentExactIff`).
- A command's output is collected exactly when it holds no NUL (`CollectedIff`).
- After one failed linkToDeath no death restores the settings any more (`RestorableIff`, `AllLinkedIff`); only
  activityLeave still writes them. The autorefresh path the Java service writes is on no whitelist
  (`AutorefreshNotListed`), so the registry records those writes as requests.

`dafny verify dfyconfig.toml` checks the whole project.

## Model

| member | source | states |
|---|---|---|
| `VrServer.ServeDocuments` | jni/main/ServerListener.cpp:17-164 | The program, for any two documents and any environment: no call ever used a dead descriptor; each accepted connection's transcript is a story told by its reads and the documents (as in `ClientView.EveryStory`), equal to the sequential session of its own reads; it has been closed, and is open no longer, exactly when a read brought end of stream or data beginning with "quit"; nobody is accepted without an SDK loaded; all open descriptors are listed exactly when no executed iteration accepts a free descriptor 0, so always when 0 is taken beforehand |
| `VrServer.TypesAlwaysListed` | jni/main/ServerListener.cpp:75-78 | A running server answers every "support_sdks" with the type list cut to 64 characters, never with -2, and the list splits back into the types when it fits |
| `ClientView.EveryStory` | jni/main/ClientConnector.cpp:30-54 | For every run, connection and sequence of documents, in the characters read and sent alone: the connection is opened; a read that brings data is answered at once with what its request asks of the documents, unless it begins with "quit"; a failed read has no consequence; end of stream and "quit" are followed by the closing and nothing else; and it is closed and no longer open exactly when there was such a read |
| `ClientView.ResponseMeans` | jni/main/ClientConnector.cpp:56-103 | For all documents and requests, with the commands written out: "suppor" ignoring case gets the names of the documents, each once, joined and cut to 64 characters, or -2; "lvr_sdk_version" and "svr_sdk_version" the version, cut to 64, of the earliest document named lvr or svr ignoring case, -3 without one, -2 if empty; "lvr_feature:" and "svr_feature:" the digits of the number registered first, by documents of exactly that document's name, for what stands before the first dot, 0 if there is none, -3 without a document; everything else -1 |
| `ServerRuns.EveryRun` | jni/main/ServerListener.cpp:108-161 | Interleaving independence: for any clients, ready sets, reads and descriptor reuse, each connection's transcript is the one a server with that one client would produce from its reads, and no call uses a descriptor that is not open |
| `ServerRuns.SameReadsSameSession` | jni/main/ServerListener.cpp:108-161 | Two connections of any two runs over the same database that read the same saw the same replies and the same end |
| `ServerRuns.SessionAnswers` | jni/main/ClientConnector.cpp:44-53 | In a session every request that is not a quit is followed at once by its response |
| `ServerRuns.SessionCloses` | jni/main/ServerListener.cpp:152-160 | A session closes its connection at most once, as its last act, and does so exactly when a read brought end of stream or data beginning with "quit" |
| `ServerRuns.FeatureServed` | jni/main/ClientConnector.cpp:86-101 | End to end over whole runs: what is sent right after a feature request for a dot-free version is the decimal number first registered for it by the SDK of the earliest document of the family, exactly if that is below 2^63, and 2^63 - 1 otherwise |
| `ServerRuns.Conservation` | jni/main/ServerListener.cpp:105-161 | At the head of every iteration the listed descriptors are positive, distinct, open and each stands for its own connection; they are all the open ones exactly when no executed iteration of the script has the listener ready and accept returning a free descriptor 0 |
| `ServerRuns.NothingLostIff` | jni/main/ServerListener.cpp:136-139 | No run of a server ever loses a descriptor exactly when descriptor 0 is taken throughout |
| `ServerRuns.ZeroOpenIff` | jni/main/ServerListener.cpp:136-139 | From any reachable state, descriptor 0 ends up open exactly when it was or when such an iteration is executed |
| `ServerRuns.SessionIsSingleClient` | jni/main/ServerListener.cpp:108-161 | For any reads, a server that accepts one client and then serves it alone has exactly the session of those reads as that client's transcript |
| `ServerRuns.ZeroStays` | jni/main/ServerListener.cpp:136-139 | Descriptor 0, once accepted, stays open for the rest of the run |
| `ServerRuns.ZeroIsLost` | jni/main/ServerListener.cpp:136-139 | A server with an SDK, descriptor 0 closed since its pipe was made: one iteration in which accept returns 0 leaves it open and unlisted |
| `ServerRuns.RunTells` | jni/main/ServerListener.cpp:108-161 | The invariant of all runs: conservation, events stamped with accepted connections only, every transcript a sequential session |
| `ServerRuns.RoundTells` | jni/main/ServerListener.cpp:109-160 | One iteration keeps that invariant |
| `ServerRounds.RoundKeepsConserved` | jni/main/ServerListener.cpp:109-160 | One iteration keeps list and open descriptors in step, whatever is accepted, read or dropped |
| `ServerRounds.RoundIdle` | jni/main/ServerListener.cpp:121-131 | An iteration in which neither the listening socket nor any client is ready changes nothing |
| `ServerRounds.RoundAcceptsOnly` | jni/main/ServerListener.cpp:132-142 | With only the listening socket ready the full iteration is the accept and nothing else |
| `ServerRounds.RoundCases` | jni/main/ServerListener.cpp:126-160 | Both nfds == 1 shortcuts and the full body give the same state, reads, writes and closes |
| `ServerRounds.NewcomerNotReady` | jni/main/ServerListener.cpp:132-151 | A descriptor accepted in an iteration is never in that iteration's ready set, so the connection is not read before the next select |
| `ServerRounds.RoundServesNewList` | jni/main/ServerListener.cpp:144-151 | Serving the list that already holds the newcomer is serving the old list |
| `ServerRounds.EraseFirstIsWithout` | jni/main/ServerListener.cpp:50-62 | On distinct descriptors, search and erase the first match is the filter that drops it, order kept |
| `ServerListener.DropNext` | jni/main/ServerListener.cpp:152-160 | One more quitter: its own entry goes, its own connection is closed on a descriptor that is still its own, in step with the filter of all quitters |
| `ServerListener.ServerListener.constructor` | jni/main/ServerListener.cpp:17-26 | The listener starts with no connectors and the database of svrinfo.xml followed by lvrinfo.xml |
| `ServerListener.ServerListener.AddConnector` | jni/main/ServerListener.cpp:32-47 | A descriptor already listed is refused with -1 and no change, any other is appended |
| `ServerListener.ServerListener.DelConnector` | jni/main/ServerListener.cpp:49-62 | Exactly the first entry with the descriptor is removed; the result is always 0 |
| `ServerListener.ServerListener.Prepare` | jni/main/ServerListener.cpp:109-118 | The watch set is the wakeup, the listening and all connector descriptors, and maxfd is its largest member |
| `ServerListener.ServerListener.SelectReady` | jni/main/ServerListener.cpp:109-125 | select(maxfd + 1) misses no watched descriptor: the ready set is all watched ones the environment reports, nfds its size |
| `ServerListener.ServerListener.Serve` | jni/main/ServerListener.cpp:144-151 | One read for each ready connector in list order; quitConns holds exactly the descriptors of those that quit, in order, and rQuit says whether there are any |
| `ServerListener.ServerListener.Drop` | jni/main/ServerListener.cpp:153-157 | Collect-then-erase: list and open descriptors lose exactly the quitters, each closed once, the others in the same order |
| `ServerListener.ServerListener.AcceptOne` | jni/main/ServerListener.cpp:133-139 | A positive accepted descriptor becomes one new connector at the end; addConnector does not refuse here |
| `ServerListener.ServerListener.Iterate` | jni/main/ServerListener.cpp:109-160 | Every pass through the loop body is one Round, ends with quitConns empty and rQuit false, and returns from run exactly on a select error other than EINTR |
| `ServerListener.ServerListener.Run` | jni/main/ServerListener.cpp:71-164 | run does nothing without an SDK, a pipe or a listening socket, and otherwise all rounds of the script |
| `ClientConnector.ClientConnector.PreSelect` | jni/main/ClientConnector.cpp:22-28 | Marks the connector's descriptor if positive and returns it |
| `ClientConnector.ClientConnector.PostSelect` | jni/main/ClientConnector.cpp:30-54 | One read when ready and none otherwise; the reply is the protocol's response to the text up to the first NUL; RESULT_QUIT exactly on end of stream or data beginning with "quit" |
| `ClientConnector.QuitsIff` | jni/main/ClientConnector.cpp:41-45 | What ends a connection is end of stream, or at least four bytes of data of which the first four are "quit" |
| `ClientConnector.ClientConnector.ProcessMessage` | jni/main/ClientConnector.cpp:56-103 | The five branches as written leave the protocol's answer in the buffer, or return its error code |
| `ClientConnector.ClientConnector.ReplyFeature` | jni/main/ClientConnector.cpp:86-93 | The version looked up is the rest of the request buffer after the prefix; the number goes to the buffer in decimal |
| `ClientConnector.StrNCpy` | jni/main/ClientConnector.cpp:63 | Copying at most 64 characters into the cleared 65-byte buffer leaves the text cut to 64, terminated |
| `ClientProtocol.GuardsExclusive` | jni/main/ClientConnector.cpp:44-101 | No text satisfies two of the five prefix guards, nor one of them and the quit guard |
| `ClientProtocol.DispatchOrderFree` | jni/main/ClientConnector.cpp:59-102 | The branches may be tried in any order |
| `ClientProtocol.AnsweredCases` | jni/main/ClientConnector.cpp:59-102 | The table of commands is the chain of branches with their words, lengths and families spelled out |
| `ClientProtocol.CaseOfCommandIrrelevant` | jni/main/ClientConnector.cpp:59-94 | Requests whose commands are the same letters, in either case, and whose arguments are equal get the same response |
| `ClientProtocol.ResponseFits` | jni/main/ClientConnector.cpp:46-49 | Every response has 1 to 64 characters and so fits the buffer with its terminator |
| `ClientProtocol.FeatureNegativeIffAbsent` | jni/main/ClientConnector.cpp:86-101 | A feature response starts with a minus sign exactly when the SDK is absent, and is a number otherwise |
| `ClientProtocol.TypeListRoundTrip` | jni/main/ClientConnector.cpp:59-65 | "support_sdks" is refused exactly on an empty database; otherwise splitting the response at '^' gives the types exactly when the joined list fits in 64 characters |
| `ClientProtocol.FeatureRoundTrip` | jni/main/ClientConnector.cpp:86-101 | From documents to response: the number a client reads for a dot-free version, with or without a dotted suffix, is the one first registered by the earliest SDK of the family exactly when it is below 2^63, and 2^63 - 1 otherwise |
| `ClientProtocol.VersionRoundTrip` | jni/main/ClientConnector.cpp:66-85 | The version response is the version of the earliest document of the family cut to 64 characters, -3 without one, -2 for an empty one |
| `ClientProtocol.VersionToldIff` | jni/main/ClientConnector.cpp:46-85 | A client that takes "-3" for no SDK and "-2" for an empty version is right about an absent SDK always, and about a present one exactly when its version has at most 64 characters and is neither of these texts |
| `ClientProtocol.AskableIff` | jni/main/ClientConnector.cpp:86-101 | Some request gets whatever is registered for a version exactly when the version holds no dot and has at most 52 characters, which is what the 64 leave behind the command |
| `SdkDatabase.BuildIsFirstWins` | jni/main/XmlDatabase.cpp:60-121 | After any documents: types distinct and in order of first mention, an entry for exactly the types mentioned, its version from the first mention, each feature from its first registration |
| `SdkDatabase.ParseAgainIdle` | jni/main/XmlDatabase.cpp:77-121 | Parsing a document again, at any later time, changes nothing |
| `SdkDatabase.FindIsEarliest` | jni/main/XmlDatabase.cpp:48-58 | The lookup finds the type of the earliest document whose name is the same letters, in either case |
| `SdkDatabase.FirstRegistrationAt` | jni/main/XmlDatabase.cpp:107-118 | The registration that wins is the one at the first place, by document and then by node, of an "ExternalSDK" node with this Version and a content under a document of exactly this name with a version, if there is any |
| `SdkDatabase.TypesAreNames` | jni/main/XmlDatabase.cpp:60-75 | The types are the names of the documents with a version, each once, in order of first appearance |
| `SdkDatabase.JoinNext` | jni/main/XmlDatabase.cpp:39-44 | One more name is appended after a '^', the first one without |
| `SdkDatabase.AddItemsFirstWins` | jni/main/VrSDK.cpp:40-52 | Inserting items only if absent gives each version its earlier value, else the first registered one |
| `SdkDatabase.FeatureReachableIff` | jni/main/VrSDK.cpp:54-69 | A registered version can be asked for exactly when it holds no dot |
| `SdkDatabase.UpToDotOf` | jni/main/VrSDK.cpp:59-62 | A suffix that starts with a dot is ignored |
| `SdkDatabase.SplitJoin` | jni/main/XmlDatabase.cpp:35-46 | Cutting the joined type list at '^' gives the names back in order |
| `SdkDatabase.JoinSplit` | jni/main/XmlDatabase.cpp:35-46 | Joining the parts of any cut list gives it back |
| `XmlDatabase.XmlDatabase.GetAllSDKTypes` | jni/main/XmlDatabase.cpp:35-46 | The loop returns the types joined by '^' |
| `XmlDatabase.XmlDatabase.GetSDK` | jni/main/XmlDatabase.cpp:48-58 | Null exactly when no stored type is the same letters in either case, else the stored object of the earliest that is |
| `XmlDatabase.XmlDatabase.GenerateSDK` | jni/main/XmlDatabase.cpp:60-75 | Null for a missing name or version; else the stored object of exactly that name, appended if new, no other changed |
| `XmlDatabase.XmlDatabase.Parser` | jni/main/XmlDatabase.cpp:77-121 | The database becomes that of one more document; -1 exactly for a null path, an unreadable or empty document, or a root without Version |
| `XmlDatabase.VrSDK.AddExternalSDKItem` | jni/main/VrSDK.cpp:40-52 | Inserts if absent; -1 for null, 1 for a present key, 0 otherwise |
| `XmlDatabase.VrSDK.GetFeature` | jni/main/VrSDK.cpp:54-69 | 0 for null or absent, else the value stored for the text before the first dot |
| `CStrings.StrCaseEqIff` | jni/main/XmlDatabase.cpp:53 | strcasecmp finds equal exactly the texts of equal length that agree at each place or differ there by 32 between 'a'..'z' and its capital |
| `CStrings.StrNCaseEqIff` | jni/main/ClientConnector.cpp:59-94 | strncasecmp does so on the first n characters, and on the whole of shorter texts |
| `CStrings.AtollReads` | jni/main/XmlDatabase.cpp:113 | atoll of every text: white space, a sign or none, the digits as far as they go and whatever follows give the signed number, cut off at -2^63 and 2^63 - 1 |
| `CStrings.DigitsValueNext` | jni/main/XmlDatabase.cpp:113 | No digits denote 0, and one more digit counts ten times those before it plus itself |
| `CStrings.AtollOfDecimal` | jni/main/XmlDatabase.cpp:113 | atoll of the decimal of a number is the number below 2^63, and 2^63 - 1 from there on |
| `CStrings.DecimalDenotes` | jni/main/ClientConnector.cpp:91 | The decimal text of a number denotes it |
| `StartGate.RunAfterStart` | jni/main/Thread.cpp:12-52 | The gate: in every interleaving, run() of an object begins only after its own start(), which came after its derived constructor returned, as long as start() is called out of turn at most while the mutex is free |
| `StartGate.RunKeepsInv` | jni/main/Thread.cpp:7-52 | In every reachable state each mutex is held by exactly the creator or thread between its lock and unlock, threads past the gate belong to started objects, and no entry of gThreads dangles |
| `StartGate.StrayStartOpensGateIff` | jni/main/Thread.cpp:36-52 | At the end of any such run, a start() out of turn on any object makes it possible that some run() begins before its own start(), with every later start() in turn, exactly when the mutex is held then, by a constructor, an unstarted object or a thread in the gate |
| `StartGate.ReleaseEnabledIff` | jni/main/Thread.cpp:12-46 | While the startup mutex is held the next step towards releasing it can be taken, unless a construction is nested, and only then |
| `StartGate.ReleasableIff` | jni/main/Thread.cpp:12-46 | Deadlock over runs: after any run the startup mutex can still come free exactly when no creator in it constructed an object while another one of its own was in its constructor or not yet started |
| `StartGate.CanRelease` | jni/main/Thread.cpp:12-46 | From every reachable state without a nested construction some continuation frees the startup mutex |
| `StartGate.NestingIsByConstruct` | jni/main/Thread.cpp:12-24 | A nested construction arises exactly when a creator constructs an object while another of its own holds the startup mutex, whether from inside that one's derived constructor or after it |
| `StartGate.NestedForEver` | jni/main/Thread.cpp:12-24 | No step by anyone undoes a nested construction |
| `StartGate.NestingHappens` | jni/main/Thread.cpp:12-24 | Both kinds are reached by one creator with two objects |
| `StartGate.RunnableIff` | jni/main/Thread.cpp:12-52 | After any proper run, a thread waiting at the gate can still come to its run() exactly when no construction in the run was nested |
| `StartGate.StrayHappens` | jni/main/Thread.cpp:36-52 | A proper run at whose end a start() out of turn is possible with the mutex held, and a continuation in which a run() does begin early |
| `StartGate.CompleteIff` | jni/main/Thread.cpp:20-34 | Throughout a run gThreads holds every object between its insertion and its erasure exactly when no object was inserted under the thread id of another one that had outlived its thread and was not yet erased |
| `StartGate.ReuseHappens` | jni/main/Thread.cpp:20-34 | A run in which that does happen |
| `Parcels.IntRoundTrip` | jni/binder/IVRNativeService.cpp:85-87 | Reading back the four bytes of any 32-bit integer gives the integer |
| `Parcels.BytesRoundTrip` | jni/binder/IVRNativeService.cpp:160 | Writing the integer read from any four bytes gives the bytes |
| `Parcels.IntAt` | jni/binder/IVRNativeService.cpp:93-104 | An integer written anywhere in a parcel is read there, the cursor ending right after it |
| `Parcels.IntLayout` | jni/binder/IVRNativeService.cpp:85-87 | An integer is four bytes, low byte first, in two's complement |
| `Parcels.StringAt` | jni/binder/IVRNativeService.cpp:25-31 | A string written anywhere in a parcel, padding included, is read there, the cursor ending right after it |
| `Parcels.StringLayout` | jni/binder/IVRNativeService.cpp:25-31 | A string is its length, its bytes and one to four zeros up to a multiple of four; an empty one is its length alone |
| `NativeServiceRpc.ParseRequest` | jni/binder/IVRNativeService.cpp:110-176 | For every call the stub's argument reads, left to right, give the call back with an empty result string and consume the parcel entirely |
| `NativeServiceRpc.BnVRNativeService.OnTransact` | jni/binder/IVRNativeService.cpp:110-176 | For any parcel whatsoever: unknown code and wrong token leave service and reply alone; else exactly the parsed call is performed once and the reply holds its outcome |
| `NativeServiceRpc.BpVRNativeService.GetSystemNode` | jni/binder/IVRNativeService.cpp:22-33 | A failed transaction changes nothing and returns its status; otherwise state, string and code are the implementation's |
| `NativeServiceRpc.BpVRNativeService.SetSystemNode` | jni/binder/IVRNativeService.cpp:34-45 | The same for two argument strings |
| `NativeServiceRpc.BpVRNativeService.SystemCall` | jni/binder/IVRNativeService.cpp:46-57 | The same for a command and its output |
| `NativeServiceRpc.BpVRNativeService.GetProperty` | jni/binder/IVRNativeService.cpp:58-69 | The same for a property read |
| `NativeServiceRpc.BpVRNativeService.SetProperty` | jni/binder/IVRNativeService.cpp:70-81 | The same for a property write |
| `NativeServiceRpc.BpVRNativeService.SetThreadScheduler` | jni/binder/IVRNativeService.cpp:82-94 | The same for three integers |
| `NativeServiceRpc.BpVRNativeService.SetPostEventObj` | jni/binder/IVRNativeService.cpp:95-105 | The same for a binder handle |
| `NativeServiceRpc.BpVRNativeService.InvokeAll` | jni/binder/IVRNativeService.cpp:22-176 | Any sequence of calls through proxy, parcels and stub gives the state, strings and codes of the same calls made on the implementation with empty result strings |
| `NativeServiceRpc.TransparentIff` | jni/binder/IVRNativeService.cpp:132-140 | A sequence of calls is the same through the proxy as made locally, for every implementation, exactly when every result string starts empty |
| `NativeServiceRpc.EffectIff` | jni/main/VRNativeService.cpp:86-181 | For every service that, by its state and the arguments, assigns a result string (a successful read), appends to it (systemCall) or leaves it alone (every refusal or failure): a sequence of calls is the same through the proxy as made locally exactly when each call assigns or was given an empty string, and the state is the same in any case |
| `NativeServiceRpc.OrderIff` | jni/binder/IVRNativeService.cpp:160 | Of the six orders in which the three argument reads may be evaluated, only the one as written gets every call right |
| `NativeServiceRpc.AllOrdersIff` | jni/binder/IVRNativeService.cpp:160 | A call comes out right in all six orders exactly when its three arguments are equal |
| `NativeServiceRpc.BackwardsIff` | jni/binder/IVRNativeService.cpp:160 | Evaluated right to left, a call comes out right exactly when tid and pri are equal |
| `PostEventRpc.ParseRequest` | jni/binder/IVRPostEvent.cpp:38-53 | For every posting the stub's reads give it back, a missing text as "null", and consume the parcel entirely |
| `PostEventRpc.BnVRPostEvent.OnTransact` | jni/binder/IVRPostEvent.cpp:38-57 | For any parcel: unknown code and wrong token change nothing, else exactly what was parsed is posted and its code returned |
| `PostEventRpc.BpVRPostEvent.Post` | jni/binder/IVRPostEvent.cpp:15-33 | A failed transaction changes nothing; otherwise the receiver's post is performed on the same values, and its code returned |
| `PostEventRpc.HeardMeans` | jni/binder/IVRPostEvent.cpp:45-49 | The receiver hears each value as posted, and for a missing text the four letters of "null" |
| `PostEventRpc.HeardAlikeIff` | jni/binder/IVRPostEvent.cpp:49 | Two postings are heard alike exactly when they agree, a missing text and "null" counting as one |
| `FlashProgress.AssembleSplit` | src/com/android/VRAdmin/TalkToDfuUtil.java:42-43 | Decoding the four bytes of any 32-bit value, low byte first, gives the value |
| `FlashProgress.SplitAssemble` | src/com/android/VRAdmin/TalkToDfuUtil.java:42-43 | Encoding the value of any frame gives the frame |
| `FlashProgress.FrameValue` | src/com/android/VRAdmin/TalkToDfuUtil.java:42-43 | What the shift-and-or expression gives is the integer the four bytes spell, low byte first, the top one with its sign |
| `FlashProgress.SpelledOnce` | src/com/android/VRAdmin/TalkToDfuUtil.java:33-59 | The decoded sizes are the integers the frames spell, and no others |
| `FlashProgress.DecodeEncoded` | src/com/android/VRAdmin/TalkToDfuUtil.java:33-59 | Decoding the bytes of any list of 32-bit integers, low byte first, gives the list |
| `FlashProgress.JavaDivTruncates` | src/com/android/VRAdmin/TalkToDfuUtil.java:60 | Division rounds towards zero for all signs |
| `TwosComplement.WrapCongruent` | src/com/android/VRAdmin/TalkToDfuUtil.java:60 | 32-bit arithmetic is exact modulo 2^32 |
| `FlashProgress.PercentExactIff` | src/com/android/VRAdmin/TalkToDfuUtil.java:60 | The 32-bit percentage is right for all written sizes exactly for files of at most 21474836 bytes |
| `FlashProgress.BroadcastSequence` | src/com/android/VRAdmin/TalkToDfuUtil.java:24-74 | For frames whose bytes spell a file size of at most 21474836 and sizes within it: broadcasts are 0, then the whole percentage of each size, 100 only for the whole file, non-decreasing if the sizes are, and a last -1 exactly when the final size is not the file's |
| `FlashProgress.VerdictAnySize` | src/com/android/VRAdmin/TalkToDfuUtil.java:24-74 | For any file size but 0 and -1 and any sizes written: one broadcast a frame, the first 0, and a last -1 exactly when the final size is not the file's |
| `FlashProgress.MinusOneStartsOver` | src/com/android/VRAdmin/TalkToDfuUtil.java:55-59 | A first frame of -1 broadcasts 0 and leaves the rest as if it had not come |
| `FlashProgress.EmptyFileIsSilent` | src/com/android/VRAdmin/TalkToDfuUtil.java:55-74 | A first frame of 0 ends the conversation with no broadcast at all |
| `FlashProgress.TalkWithSocket` | src/com/android/VRAdmin/TalkToDfuUtil.java:23-89 | The loop and the final verdict produce the broadcasts of the integers the frames spell |
| `NativeService.CheckAccessNodePerm` | jni/main/VRNativeService.cpp:33-55 | The nested loops accept exactly the 30 CPU and 4 display paths |
| `NativeService.ListedIff` | jni/main/VRNativeService.cpp:19-53 | Those paths written out, with a digit 0 to 9 or 0 to 3 |
| `NativeService.AutorefreshNotListed` | src/com/android/VRAdmin/VRAdminService.java:51 | The autorefresh path of the Java service is not among them |
| `NativeService.CheckSyscallPerm` | jni/main/VRNativeService.cpp:57-75 | Accepts exactly the commands that begin with "dfu-util" or "service call" |
| `NativeService.SystemCall` | jni/main/VRNativeService.cpp:145-167 | -1 and no change without permission or pipe; otherwise the collected output is appended, its length modulo 2^32 returned, and it is the whole output exactly when that holds no NUL |
| `NativeService.Collect` | jni/main/VRNativeService.cpp:158-163 | The fgets loop ends and appends what every chunk of at most 1023 characters holds before a NUL |
| `NativeService.CollectedIff` | jni/main/VRNativeService.cpp:158-163 | Chunk by chunk the output comes out whole, whatever its line lengths, exactly when it holds no NUL |
| `NativeService.CollectedPiece` | jni/main/VRNativeService.cpp:158-163 | What is kept of any output, piece by piece: of a line of up to 1022 characters with its newline, of each 1023 characters of a longer one and of what follows the last newline, the part before any NUL |
| `MonitorRegistry.RunKeepsInv` | src/com/android/VRAdmin/VRAdminService.java:153-181 | In every run the monitors are distinct, the count is their number and only counted monitors are linked |
| `MonitorRegistry.CountsThePresent` | src/com/android/VRAdmin/VRAdminService.java:153-181 | The list holds exactly the monitors whose last registration no death has followed |
| `MonitorRegistry.RequestsAsCalledFor` | src/com/android/VRAdmin/VRAdminService.java:170-173 | The requests of any run are the ones its history calls for: gralloc then autorefresh, to "1" for each enter and to "0" for each leave, and to "0" for exactly the deaths that leave nobody |
| `MonitorRegistry.GrallocAsWritten` | src/com/android/VRAdmin/VRAdminService.java:170-173 | In every run the gralloc property holds what the history wrote last: "1" by an enter, "0" by a leave or by a death that leaves nobody, if the write landed |
| `MonitorRegistry.LastOneRestores` | src/com/android/VRAdmin/VRAdminService.java:169-173 | Right after the last monitor dies the gralloc property is "0" if the write landed |
| `MonitorRegistry.RestorableIff` | src/com/android/VRAdmin/VRAdminService.java:161-169 | Some continuation restores the settings by a death exactly while every counted monitor is linked |
| `MonitorRegistry.AllLinkedIff` | src/com/android/VRAdmin/VRAdminService.java:161-164 | That is so exactly until a registration counts its monitor and then fails to link it |
| `MonitorRegistry.Binder.RegisterMonitor` | src/com/android/VRAdmin/VRAdminService.java:154-181 | Null and known monitors are ignored; others are counted and listed before linkToDeath is tried, and stay so when it throws |
| `MonitorRegistry.Binder.BinderDied` | src/com/android/VRAdmin/VRAdminService.java:165-178 | Removes the monitor, counts down, and asks for the restore at zero |
| `MonitorRegistry.Binder.ActivityEnter` | src/com/android/VRAdmin/VRAdminService.java:220-224 | Asks for both settings to be "1" and returns 0 |
| `MonitorRegistry.Binder.ActivityLeave` | src/com/android/VRAdmin/VRAdminService.java:226-230 | Asks for both settings to be "0" and returns 0 |

## Left out

The query server:

- A read that fills all 65 bytes of the request buffer without a NUL: jni/main/ClientConnector.cpp:38 then leaves no terminator, and what follows has no defined meaning in C. `Kernel.Packet` holds every other read.
- libxml2: a document is a null path, an unreadable or empty file, or a root with a name, an optional Version and its child nodes. Names follow section 2.3 of XML 1.0. The Version strings that are never freed are not modelled.
- The property that the VrSDK constructor sets, logging and debugShow.
- Socket, pipe and fcntl set-up beyond whether the pipe and listen calls fail, the client address, and the byte read from the wakeup pipe. `Startup` and `Kernel` hold what is kept.
- fd_set is a mathematical set: descriptors at or above FD_SETSIZE are not treated apart.
- `%lu` prints the whole 64-bit value, and atoll saturates outside 64 bits as strtoll does.
- delete of a connector object: the model drops the reference. A short or failed write is only seen in the return code, as in the code. A write to a client that has gone raises SIGPIPE, which by default ends the process; in the model it is a failed write and the server goes on.
- The kernel's rule that a new descriptor is the lowest free one: accept may hand out any free descriptor, so all environments are covered and more. With descriptor 0 free from the beginning the pipe of run() would take it; accept can return it only if 0 was closed after that.
- The list iterator is an index into a sequence.

The start gate:

- pthread_create does not fail. An object is started, after its construction, and destroyed by its creator, and no earlier than started; its creator may be doing anything else it likes in between, also inside a derived constructor. Any other start(), from inside the object's own derived constructor or once more, is the step `Stray`. A first start() by another thread than the creator is not modelled.
- A thread that reaches the call of run() after its object is destroyed is not told apart from one that does so before: the gate orders starts, not destruction.

Binder:

- Parcel itself is not part of the repository. Its layout is the library's: four-byte integers low byte first, strings with their length, a NUL and padding. The interface token is one string, without the strict-mode word before it, and which non-empty string it is plays no part.
- Binder objects are opaque handles written as one integer; kernel, reference counts, service lookup and the transaction codes of BBinder are not modelled.
- The arguments at jni/binder/IVRNativeService.cpp:160 are read left to right; C++ leaves the order open. `OrderIff`, `AllOrdersIff` and `BackwardsIff` say what the other five orders would do.

Firmware progress:

- Reads that deliver fewer than four bytes, a null service and a null client socket: frames arrive whole, and the stream's end, error and IOException are the end of the list.

The native service and the registry:

- access, open, read, write, popen, properties, locks and sched_setscheduler. popen failing is a parameter.
- The registry's steps are atomic. The Java code runs binderDied outside the lock, and checks and sets its download flag without one; the download path is not modelled.
- Monitors are Java references. Where the generated binder code hands the service a new proxy for each call, two registrations by one client are two monitors here, as in the code.
- The client count is a mathematical integer: it is bounded by the size of the list.
- The proximity sensor, wake locks, USB receiver, callback lists, JNI layer and VRManager: forwarding and two-state facts.
