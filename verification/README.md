# The gateway's cores, proved

A Dafny model of the parts of the OpenWiFi controller gateway that keep state: the RADIUS packet
editor and session tracker, the serial number index, the connection registry, the table of requests
to devices with its scheduler, the synchronisation of configurations, telemetry, and the assembly of
WebSocket messages. Each is written in the form of the program, as classes, arrays and loops, and
tied to functions on values; the lemmas are about whole runs of those functions.

| file | what it holds |
|---|---|
| Common.dfy | shared types |
| RadiusWire.dfy | attribute areas, their strict reading, and the parser |
| RadiusPacket.dfy | the in-place editor over a 4096-octet array, and Message-Authenticators |
| RadiusOutput.dfy | status messages and their replies |
| RadiusReading.dfy | what the session tracker reads from a message |
| RadiusStops.dfy | the packets that stop accounting, and which of them say so |
| RadiusSessions.dfy | the session table, Disconnect-Requests |
| SerialNumberCache.dfy | base-16 arithmetic, the two sorted vectors, prefix and suffix queries |
| ConnectionTables.dfy | the flat tables, the cleanup queue, the zombie pass |
| ConnectionServer.dfy | hashing, and the sharded tables refining the flat ones |
| ConnectionRuns.dfy | every interleaving of half-done operations |
| CommandTable.dfy | outstanding requests and the script states |
| CommandRuns.dfy | the ledger of requests and promises over every run |
| Filters.dfy | filtered sequences: order, contents, what a change does to them |
| CommandScheduler.dfy | the stored commands, the sweeps, paging |
| SchedulerRuns.dfy | nothing sent twice, one command per device, nothing lost |
| SchedulerEffects.dfy | what a pass closes and sends |
| SchedulerCoverage.dfy | exactly which ready commands a pass misses |
| ConfigurationSync.dfy | LookForUpgrade, the cache and the store |
| ConfigurationRuns.dfy | the protocol with a device behind two queues |
| Telemetry.dfy | reference counts, intervals, expiries |
| TelemetryStream.dfy | the two-way index of listeners |
| FrameAssembly.dfy | messages from frames |

MD5 and HMAC-MD5 are arbitrary functions that give 16 octets. Time, connectivity, whether a frame
gets through, and how a message is handled are parameters. What happens under one lock is one step.
`dafny verify dfyconfig.toml` checks everything.

## Where the code parts from its documentation or from a standard

Each of these is proved: at a concrete input, with the exact condition, for all runs, or in the contract named.

- The parser's bound check leaves out the two header octets, so a value may end up to two octets
  behind the area (`RadiusWire.OvershootIsAccepted`); and a length octet of 1 behind the first
  attribute is recorded as 2^32 - 1 octets (`RadiusWire.LengthOneIsAccepted`). The session tracker
  drops a message exactly if a text that it copies has such a length
  (`RadiusReading.ParsedIsReadable`). `RadiusWire.RecordedBounds` and
  `RadiusWire.AcceptedIsWellFormed` give the exact extent. After 25 attributes the parser stops
  without a word (`RadiusWire.ParseRoundTrip`).
- Values of 254 and 255 octets get a wrapped length octet and spoil the packet
  (`RadiusWire.WrittenIsAttribute`).
- What is sent to stop the accounting of a session need not be a Stop. No status is added where the
  stored packet has none (`RadiusSessions.AnnouncedGetsNoStop`, `RadiusSessions.SilentMessageIsHeld`),
  and of several only the first is edited (`RadiusStops.SecondStatusStays`); exactly when it reads as
  one: `RadiusStops.StopReads`, `RadiusSessions.SessionsThatStop`. A number written over a value that
  is too short spoils the packet (`RadiusPacket.ShortNumberSpoils`).
- An answer to a deferred script with a bad status and a compressed result, which PROTOCOL.md:842-852
  allows, is dropped while it is read: the request stays and the caller gets nothing
  (`CommandRuns.BadStatusWithoutTextIsDropped`; exactly when: `CommandRuns.PromisesSettleOnce`,
  `CommandRuns.LeavesForCause`).
- A connection that ends and is cleaned up between the two locks of its own start is put into the
  device table all the same, with nothing queued for it, until a zombie pass finds it
  (`ConnectionRuns.OneSlipsIn`; exactly when: `ConnectionRuns.StartMaySlip`).
- A promise can be set twice by a device that answers a deferred script twice without a status
  (`CommandRuns.PromisesSettleOnce`, `CommandRuns.UndecidedAnswersSettleTwice`).
- The scheduler raises its offset by the commands it looked at, but the store counts from the first
  command that is ready by then. Commands for absent devices are not counted in the one and are in
  the other; commands that were sent or closed are counted in the one and no longer in the other. So
  a pass can miss ready commands of connected devices, which wait for a later pass
  (`SchedulerCoverage.LastOf201IsMissed`, `SchedulerCoverage.OneBehind200OfflineIsMissed`; exactly
  when: `SchedulerCoverage.PassMissesIfSteppingOver`, `SchedulerCoverage.PassMissesIfOneLeavesEarly`;
  never with up to 200 ready ones: `SchedulerCoverage.SmallStoreIsCovered`).
- The record of a device may keep a pending version after everything has converged
  (`ConfigurationRuns.PendingVersionIsKept`, `ConfigurationRuns.PromptDeviceConverges`); near 2^64 the
  version sent is not newer (`ConfigurationRuns.OlderVersionIsSent`,
  `ConfigurationRuns.FirstConfigureIsNewer`).
- A configuration that waits is installed over another one that was sent meanwhile, under the version
  of that (`ConfigurationRuns.WaitingTakesThePlace`; exactly when:
  `ConfigurationRuns.UpgradeIsKeptIfNothingWaits`).
- An answer to a configuration completes or rolls back the device it names, not the one that sent it
  (`ConfigurationSync.Connection.ConfigureAnswered`).
- A lower telemetry interval asked for while telemetry is on is never told to the device
  (`Telemetry.LowerIntervalIsNotTold`, `Telemetry.LowestIsToldIfFirst`).
- The payload of pings, pongs, binary and unknown frames is kept as part of the message
  (`FrameAssembly.PingPayloadIsKept`, `FrameAssembly.FollowsTheStandard`). The mark that a binary frame
  sets, to close the connection, is lost on return (`FrameAssembly.BinaryIsKept`). An empty
  continuation that is not final, which section 5.4 of RFC 6455 allows, is taken for a disconnection
  (`FrameAssembly.EmptyPartIsTakenForADisconnect`, `FrameAssembly.DiesOfDisconnects`).
- A server whose name has a colon is not recognised in its replies (`RadiusOutput.ReplyIsRecognised`).
- The count of output packets of a session is stored over its output octets, and the field for output
  packets is never set (`RadiusSessions.OutputOctetsArePackets`).

## Model

| member | source | states |
|---|---|---|
| RadiusWire.ParseRadius | src/RADIUS_helpers.h:309-334 | the loop over positions, with its 25-attribute limit, unsigned lengths and wrap-round, is the recursive parser that the lemmas are about |
| RadiusWire.ParseRoundTrip | src/RADIUS_helpers.h:309-334 | serialise, then parse: the first 25 attributes come back, with their places; the strict reading of section 5 of RFC 2865 gives back the whole list |
| RadiusWire.DecodeSerialize | src/RADIUS_helpers.h:1039-1044 | laying out a list and reading it strictly is the identity |
| RadiusWire.SerializeDecode | src/RADIUS_helpers.h:309-334 | whatever the strict reading accepts is laid out again to the same octets |
| RadiusWire.LayoutTiles | src/RADIUS_helpers.h:313-331 | the recorded values hold the values of the list, and tile the area apart from the two-octet headers |
| RadiusWire.ParseWellFormed | src/RADIUS_helpers.h:309-334 | from any position and with any number still allowed, the parser accepts well-formed octets and records as many as allowed |
| RadiusWire.AcceptedIsWellFormed | src/RADIUS_helpers.h:315-330 | what the parser accepts is well formed if and only if every recorded value ends inside the area and, where it stopped at its limit, the octets behind the last value can be read strictly |
| RadiusWire.RecordedBounds | src/RADIUS_helpers.h:313-329 | from any octets: every recorded value ends inside the area, or at most two octets behind it, or has a wrapped length |
| RadiusWire.OvershootIsAccepted | src/RADIUS_helpers.h:318-319 | three octets that claim an attribute of four are accepted |
| RadiusWire.LengthOneIsAccepted | src/RADIUS_helpers.h:315-318 | a length octet of 1 behind the first attribute is accepted and recorded as 2^32 - 1 octets |
| RadiusWire.WrittenIsAttribute | src/RADIUS_helpers.h:883-891 | spliced octets of a value read back as that attribute if the value has at most 253 octets, and spoil the whole area at 254 and 255 |
| RadiusPacket.Packet.constructor | src/RADIUS_helpers.h:394-397 | an empty packet of 20 octets, well formed, without attributes |
| RadiusPacket.Packet.ReParse | src/RADIUS_helpers.h:381-384 | the header length becomes the size; where the live area holds the octets of a list, the packet stands for that list |
| RadiusPacket.Packet.AppendAttribute | src/RADIUS_helpers.h:883-891 | up to 253 octets, the list grows by one attribute at the end; with 254 or 255, the octets written spoil the area; the header length is the size |
| RadiusPacket.Packet.AppendNumber | src/RADIUS_helpers.h:870-881 | the same for a number in four octets, most significant first |
| RadiusPacket.Packet.Lookup | src/RADIUS_helpers.h:808-830 | the first recorded descriptor of a kind is the first attribute of that kind among the first 25 |
| RadiusPacket.SpotIsFirst | src/RADIUS_helpers.h:808-810 | there is one to be found if and only if one of the first 25 has the kind, and what is found is the first |
| RadiusPacket.Packet.Overwrite | src/RADIUS_helpers.h:811-812 | a value of the same length is written over, no other octet of the live area moves |
| RadiusPacket.Packet.Shrink | src/RADIUS_helpers.h:813-819 | the tail moves down behind a shorter value, with a count that reaches past the live area |
| RadiusPacket.Packet.Grow | src/RADIUS_helpers.h:820-827 | the tail moves up before a longer value, with a count that reaches past the live area |
| RadiusPacket.Packet.ReplaceAttribute | src/RADIUS_helpers.h:808-831 | equal, shorter or longer: the first attribute of the kind gets the value, and the list is otherwise the same |
| RadiusPacket.ReplacedIsLocal | src/RADIUS_helpers.h:808-831 | that attribute has the value, and every other is what it was |
| RadiusPacket.BigEndian | src/RADIUS_helpers.h:796-806 | the four octets of a number, weighted by 2^24, 2^16, 2^8 and 1, add up to it |
| RadiusPacket.Packet.ReplaceNumber | src/RADIUS_helpers.h:796-806 | four octets are written where the first value of the kind starts; where it has as many, the list is otherwise the same |
| RadiusPacket.ShortNumberSpoils | src/RADIUS_helpers.h:796-806 | a status of one octet: the number goes over the header of the next attribute, and the area cannot be read |
| RadiusPacket.Packet.RemoveAttribute | src/RADIUS_helpers.h:837-847 | the first attribute of the kind is gone, the rest of the list is the same |
| RadiusPacket.RemovedIsLocal | src/RADIUS_helpers.h:837-847 | those in front of it stay, those behind move up by one |
| RadiusPacket.Packet.Open | src/RADIUS_helpers.h:951-957 | room is made at a place of the live area and an attribute written there |
| RadiusPacket.Packet.AddAttribute | src/RADIUS_helpers.h:948-962 | the attribute comes right after the first one of the location kind, or nothing changes |
| RadiusPacket.InsertedIsLocal | src/RADIUS_helpers.h:948-962 | it comes right behind the first of the location kind, and those behind move down by one |
| RadiusPacket.Packet.ReplaceOrAddNumber | src/RADIUS_helpers.h:986-991 | replaced where there is one to be seen, likewise, and appended otherwise |
| RadiusPacket.Packet.Copy | src/RADIUS_helpers.h:374-379 | a copy has its own buffer with the same octets and descriptors |
| RadiusPacket.Packet.Received | src/RADIUS_helpers.h:338-348 | octets in, the same octets in the packet, which is valid exactly if the header length and the parser agree, and then stands for the list in the octets; one shorter than its header is never valid |
| RadiusPacket.Packet.ComputeMessageAuthenticator | src/RADIUS_helpers.h:483-514 | only an Access-Request changes; where its Message-Authenticators have 16 octets, each gets the HMAC of the header followed by the list with all of them zero, unless the last has it already, and the list is otherwise the same |
| RadiusPacket.Packet.VerifyMessageAuthenticator | src/RADIUS_helpers.h:531-551 | true for anything but an Access-Request, and for that exactly if the last Message-Authenticator is the HMAC of the header followed by the list with all of them zero |
| RadiusPacket.Packet.RecomputeAuthenticator | src/RADIUS_helpers.h:519-529 | section 3 of RFC 2866: the digest of the packet with a zero authenticator, followed by the secret |
| RadiusPacket.ShrinkOctets | src/RADIUS_helpers.h:816-818 | none of the octets moved from behind the live area shows in it |
| RadiusPacket.GrowOctets | src/RADIUS_helpers.h:821-824 | the same when the value grows |
| RadiusPacket.CutOctets | src/RADIUS_helpers.h:840-842 | the same when an attribute is cut out |
| RadiusPacket.OpenOctets | src/RADIUS_helpers.h:952-957 | making room and writing gives what was before, the attribute, and what was behind |
| RadiusPacket.LookupIsFirst | src/RADIUS_helpers.h:809-810 | searching descriptors is searching attributes |
| RadiusPacket.ReplacedInPlace | src/RADIUS_helpers.h:811-812 | where lengths do not change, the old descriptors are those of the new list, so no parse is needed |
| RadiusPacket.Blank | src/RADIUS_helpers.h:486-493 | the first loop of both computations: all Message-Authenticators zeroed, the last one remembered |
| RadiusPacket.StampedElsewhere | src/RADIUS_helpers.h:505-511 | nothing outside the 16 octets of a Message-Authenticator moves |
| RadiusPacket.ComputeThenVerify | src/RADIUS_helpers.h:483-551 | after computing with a secret, verifying with it is true, if and only if the packet is no Access-Request, has a Message-Authenticator, or had a zero digest |
| RadiusPacket.ComputeTwice | src/RADIUS_helpers.h:483-514 | computing again changes nothing, and computing never moves an octet outside the Message-Authenticators |
| RadiusPacket.StampedIsSealed | src/RADIUS_helpers.h:505-511 | where all Message-Authenticators have 16 octets, writing over them is replacing their values in the list |
| RadiusOutput.OutputPacket.AddAttribute | src/RADIUS_helpers.h:1039-1044 | the attribute is appended to the octets |
| RadiusOutput.OutputPacket.MakeStatusMessage | src/RADIUS_helpers.h:1018-1037 | Proxy-State and a Message-Authenticator that is the digest of the packet with that value zero (section 5.14 of RFC 2869) |
| RadiusOutput.StatusMessageParses | src/RADIUS_helpers.h:1018-1037 | whoever parses a status message finds its two attributes |
| RadiusOutput.IsStatusMessageReply | src/RADIUS_helpers.h:441-459 | what the first Proxy-State among the attributes the parser kept names, if it has two tokens of which the first says status |
| RadiusOutput.ReplyIsRecognised | src/RADIUS_helpers.h:441-459 | a packet whose first Proxy-State is that of a status message gives back the name of the server if and only if there is no colon in it, whatever else is in the packet |
| RadiusReading.ReadAttributes | src/RADIUSSessionTracker.cpp:102-149 | each of the two loops: the last attribute of a kind counts, numbers from four octets, the interface from the last Proxy-State with four tokens; a text that ends before it begins ends the loop, and the message is dropped |
| RadiusReading.ReadingSpells | src/RADIUSSessionTracker.cpp:102-138 | what a loop makes of a well-formed packet: each text is the value of the last attribute of its kind |
| RadiusReading.ReadingCounts | src/RADIUSSessionTracker.cpp:232-255 | and each number is the one that the last attribute of its kind stands for, most significant octet first |
| RadiusReading.InterfaceIsLast | src/RADIUSSessionTracker.cpp:139-148 | the interface is that of the last Proxy-State that names one |
| RadiusReading.WellFormedIsReadable | src/RADIUS_helpers.h:309-334 | whatever a loop reads of a well-formed packet is in the buffer, if the packet is four octets short of it or its numbers have four octets; and it is not dropped |
| RadiusReading.ParsedIsReadable | src/RADIUSSessionTracker.cpp:192-269 | whatever octets the parser was given, what a loop reads is in the buffer, and the message is dropped if and only if a text has a wrapped length |
| RadiusSessions.SessionTracker.ProcessAccountingSession | src/RADIUSSessionTracker.cpp:192-343 | the whole new table: Start and Interim create or refresh, Stop removes, anything else refreshes what is known and creates nothing |
| RadiusSessions.SessionTracker.ProcessAuthenticationSession | src/RADIUSSessionTracker.cpp:98-180 | the whole new table: an unknown session is created, a known one refreshed |
| RadiusSessions.SessionTracker.DropExpired | src/RADIUSSessionTracker.cpp:45-55 | erasing while iterating leaves exactly the sessions in time |
| RadiusSessions.SessionTracker.GarbageCollection | src/RADIUSSessionTracker.cpp:37-64 | exactly the sessions in time stay, under their devices |
| RadiusSessions.CollectionIsExact | src/RADIUSSessionTracker.cpp:37-64 | no device is left without sessions; a session stays if and only if it is within the timeout, and unchanged |
| RadiusSessions.TableIsItsSessions | src/RADIUSSessionTracker.cpp:37-334 | over every run, each session with all its fields - stored packet, destination, counters, times - is exactly what it would be alone: made by its own messages, the disconnections of its device, and time |
| RadiusSessions.SessionRemembers | src/RADIUSSessionTracker.cpp:154-325 | over every run, from the messages alone: the time of a session is that of its last message of either kind; its start, secret, names and interface are of the message that made it |
| RadiusSessions.UnheardAreDropped | src/RADIUSSessionTracker.cpp:45-55 | over every run: a collection drops a session if and only if its last message is more than 600 seconds away or in the future |
| RadiusSessions.TrackedAfter | src/RADIUSSessionTracker.cpp:283-343 | over every run: status 1 or 3, or an authentication, makes a session, status 2, a disconnection of the device, or time ends it, and nothing else does |
| RadiusSessions.SessionIsOfLastMessage | src/RADIUSSessionTracker.cpp:293-342 | over every run: packet, destination and counters of a session are those of its last accounting message, which was no Stop, or it has only been announced |
| RadiusSessions.OutputOctetsArePackets | src/RADIUSSessionTracker.cpp:309-341 | over every run: the output packets of a session stay 0, and its output octets are the output packets of its last accounting message |
| RadiusSessions.AlwaysFiled | src/RADIUSSessionTracker.cpp:154-179 | over every run, each session sits under its own serial number, and under session id followed by multi-session id |
| RadiusSessions.SessionsCanStop | src/RADIUSSessionTracker.cpp:299-323 | over every run of messages whose packets leave room for three edits, so do those of all tracked sessions |
| RadiusSessions.SessionsThatStop | src/RADIUSSessionTracker.cpp:426-437 | over every run: what is built for a tracked session reads as a Stop if and only if the packet it holds has exactly one visible Acct-Status-Type |
| RadiusSessions.AnnouncedGetsNoStop | src/RADIUSSessionTracker.cpp:154-171 | any session made by an authentication alone: what is built has code 0 and no status |
| RadiusSessions.SilentMessageIsHeld | src/RADIUSSessionTracker.cpp:326-334 | a Start and then a message without status: the session holds the second, which cannot be made a Stop |
| RadiusStops.EditStop | src/RADIUSSessionTracker.cpp:433-435 | the three edits of a stored packet, as one operation on its list |
| RadiusStops.BuildStop | src/RADIUSSessionTracker.cpp:430-436 | identifier one higher modulo 256, the list edited, authenticator recomputed where the pool is not generic; read as a Stop exactly if the stored list can be made to say so |
| RadiusStops.StopReads | src/RADIUSSessionTracker.cpp:430-436 | for every stored list: what is built reads as a Stop if and only if there is a visible Acct-Status-Type and it is the only one or the fourth octet of the last one is 2 |
| RadiusStops.StopReadsIfItCan | src/RADIUSSessionTracker.cpp:430-436 | where the last status has its four octets, the stored list alone decides |
| RadiusStops.SecondStatusStays | src/RADIUSSessionTracker.cpp:433 | statuses 1 and 3: the first is edited, the second is what is read |
| RadiusStops.StopIsEdited | src/RADIUSSessionTracker.cpp:433-435 | with at most 23 attributes and a status of four octets, everything is seen by the next parser: first status 2, fresh timestamp, Acct-Terminate-Cause 2 last, and the rest, later statuses among it, as stored |
| RadiusSessions.SessionTracker.DisconnectSession | src/RADIUSSessionTracker.cpp:416-440 | one packet is built for each session of the device, a Stop exactly where the packet held can be made to say so; and the device is forgotten |
| RadiusSessions.BuildDisconnect | src/RADIUSSessionTracker.cpp:356-382 | a Disconnect-Request that reads back as the identity of the session, with the authenticator of section 3 of RFC 2866 |
| RadiusSessions.DisconnectReadsBack | src/RADIUSSessionTracker.cpp:356-379 | read by the loop of the tracker itself, a Disconnect-Request gives back every value of the session that it carries, and the name the session is filed under |
| RadiusSessions.ProxyStateTokens | src/RADIUSSessionTracker.cpp:374 | the tokens of its Proxy-State: serial number, any address, port 3799, interface |
| RadiusSessions.DisconnectNamesSession | src/RADIUSSessionTracker.cpp:377-379 | over every run: the values of a session fit a Disconnect-Request if and only if serial number and interface have at most 239 octets together, and its Proxy-State is read back as the interface of the session if and only if there is no colon in the serial number |
| SerialNumberCache.IntToSerialNumber | src/framework/utils.cpp:340-352 | twelve lower-case digits, most significant first |
| SerialNumberCache.ReverseSerialNumber | src/SerialNumberCache.h:27-31 | the text from back to front |
| SerialNumberCache.Reverse | src/SerialNumberCache.cpp:58-67 | below 2^48, sixteen shifts and a correction are the reversal of the twelve digits |
| SerialNumberCache.BackwardsTwice | src/SerialNumberCache.cpp:58-67 | reversing a number twice gives it back |
| SerialNumberCache.HexOfValue | src/SerialNumberCache.cpp:44-50 | writing what was read gives the same digits |
| SerialNumberCache.ValueOfHex | src/framework/utils.cpp:340-352 | reading what was written gives the same number |
| SerialNumberCache.PrefixIsRange | src/SerialNumberCache.cpp:81-97 | a serial number starts with a pattern if and only if it lies between the pattern filled up with zeros and the next pattern |
| SerialNumberCache.ScanBlock | src/SerialNumberCache.cpp:84-102 | in a sorted vector the matches are one block |
| SerialNumberCache.CollectMatching | src/SerialNumberCache.cpp:81-104 | binary search and walking on until the first mismatch is a linear scan, cut off after the wanted number |
| SerialNumberCache.Cache.AddSerialNumber | src/SerialNumberCache.cpp:26-39 | both vectors get the number, sorted, once |
| SerialNumberCache.Cache.DeleteSerialNumber | src/SerialNumberCache.cpp:41-56 | both vectors lose the number |
| SerialNumberCache.Cache.ReturnNumbers | src/SerialNumberCache.cpp:69-106 | a full number is looked up, a shorter pattern gives the first matches of the vector, a longer one nothing |
| SerialNumberCache.Cache.FindNumbers | src/SerialNumberCache.cpp:108-122 | appends exactly the first matches of the set: in ascending order for a prefix, in ascending order of the reversed numbers for a suffix |
| SerialNumberCache.PrefixAnswer | src/SerialNumberCache.cpp:84-104 | the scan gives only matches, in order, none skipped while fewer than wanted were found |
| SerialNumberCache.SuffixAnswer | src/SerialNumberCache.cpp:86-94 | the same for suffixes, through the reversed vector |
| SerialNumberCache.ExactSuffix | src/SerialNumberCache.cpp:74-79 | twelve digits after a star name the same number as without it |
| SerialNumberCache.RunIsConsistent | src/SerialNumberCache.cpp:26-56 | after any adds and deletes both vectors are strictly sorted, the second holds exactly the reversals of the first, and the numbers are those added and not deleted since |
| ConnectionServer.HashMac | src/AP_WS_Server.h:38-46 | the loop folds six octets, each plus one, into one octet |
| ConnectionServer.HashOfOctets | src/AP_WS_Server.h:38-46 | the hash takes the six octets from the lowest on |
| ConnectionServer.HashSamples | src/AP_WS_Server.h:38-46 | five numbers and their shards: octets are raised by one, within an octet, and put together by exclusive or |
| ConnectionServer.MacHashIsOfSixOctets | src/AP_WS_Server.h:38-46 | the six octets of a serial number alone decide its shard |
| ConnectionServer.RefinesLookup | src/AP_WS_Server.h:104-110 | looking a key up in its shard is looking it up in the flat table |
| ConnectionServer.Server.AddConnection | src/AP_WS_Server.h:104-110 | the flat session table gets the connection unless its session is known |
| ConnectionServer.Server.Introduce | src/AP_WS_Process_connect.cpp:69-70 | the connect message gives the connection its serial number where it is |
| ConnectionServer.Server.EndConnection | src/AP_WS_Connection.cpp:103-131 | the first time only: dead, and exactly one entry more, of this session and serial number, at the end of the cleanup queue |
| ConnectionServer.Server.StartSession | src/AP_WS_Server.cpp:526-542 | the session moves from one flat table to the other; what it replaces is dead, and queued for cleanup unless it was dead before |
| ConnectionServer.Server.EndSession | src/AP_WS_Server.cpp:544-570 | out of the session table, and out of the device table only if that holds this session, which is what it reports |
| ConnectionServer.Server.Disconnect | src/AP_WS_Server.cpp:231-251 | known exactly if in the device table, and then out of both |
| ConnectionServer.Server.CleanupSessions | src/AP_WS_Server.cpp:253-269 | the drain ends, with an empty queue and exactly the connections no entry named |
| ConnectionServer.Server.ZombiePass | src/AP_WS_Server.cpp:295-386 | the entries added are those of the dead and idle connections of either table, shard by shard, where it got the lock |
| ConnectionServer.Server.PassAndDrain | src/AP_WS_Server.cpp:253-386 | what the pass found in the shards it got the locks of, and what was queued before, is in neither table; all others are where they were |
| ConnectionTables.TurnWorks | src/AP_WS_Server.cpp:258-267 | queue length plus twice the connections not yet dead goes down with every turn, although dropping a live one queues an entry |
| ConnectionTables.TurnKeeps | src/AP_WS_Server.cpp:258-267 | a turn does not change what will be left in the end |
| ConnectionTables.PassThenDrain | src/AP_WS_Server.cpp:289-386 | what will be left after a pass, connection by connection, in both directions |
| ConnectionTables.WhomAPassFinds | src/AP_WS_Server.cpp:308-372 | exactly those who have ended, or were last heard of more than 600 seconds ago, among the shards it got the locks of |
| ConnectionRuns.StepsCompose | src/AP_WS_Server.cpp:526-570 | two steps with nothing in between are the operation |
| ConnectionRuns.RunKeeps | src/AP_WS_Server.cpp:231-570 | the invariant of every interleaving of half-done operations |
| ConnectionRuns.LatestSessionWins | src/AP_WS_Server.cpp:526-570 | the session started last for a serial number is the one in the device table unless it ended, was reported or was disconnected; nothing else is there; no session is in both tables |
| ConnectionRuns.EndsAreQueued | src/AP_WS_Connection.cpp:103-131 | in every reachable state: a connection that ends is queued under its session and serial number, once |
| ConnectionRuns.EndedAreCleaned | src/AP_WS_Server.cpp:253-269 | in every reachable state: a dead connection is queued while it waits for its connect message, and is queued or half cleaned while in the device table, unless it slipped in dead; a full drain removes it |
| ConnectionRuns.StartMaySlip | src/AP_WS_Server.cpp:526-542 | a start puts a dead connection in place with no cleanup to come if and only if it had ended before and its cleanup had come and gone |
| ConnectionRuns.OneSlipsIn | src/AP_WS_Server.cpp:526-542 | ended and cleaned between the two halves of its start, a connection stays in the device table, dead |
| ConnectionRuns.LateCleanupIsHarmless | src/AP_WS_Server.cpp:560-566 | however late, cleaning up an earlier session leaves the newer one alone |
| CommandTable.CommandManager.NextRpcId | src/CommandManager.h:120 | one above the last number given out |
| CommandTable.CommandManager.CompleteScriptCommand | src/CommandManager.cpp:153-201 | the script states 2, 1 and 0, when the promise is given the answer, and the answers at which reading raises an error and nothing changes |
| CommandTable.CommandManager.CompleteConfigureCommand | src/CommandManager.cpp:115-151 | taken out and settled, unless reading the result raises an error |
| CommandTable.CommandManager.ProcessReply | src/CommandManager.cpp:37-84 | only the request with that identifier and that serial number is completed |
| CommandTable.CommandManager.InsertRequest | src/CommandManager.cpp:415-442 | the request is in the table before the frame goes out |
| CommandTable.CommandManager.FinishPost | src/CommandManager.cpp:443-453 | withdrawn again if the frame did not go out |
| CommandTable.CommandManager.OnJanitorTimer | src/CommandManager.cpp:244-270 | erasing while iterating takes out exactly what is older than ten minutes |
| CommandTable.CommandManager.ClearQueue | src/CommandManager.h:141-150 | exactly the requests of one device are taken out |
| CommandTable.CommandManager.RemovePendingCommand | src/CommandManager.h:122-125 | exactly that request is taken out |
| CommandTable.CommandManager.RemoveCommand | src/CommandManager.h:152-160 | the first request with the UUID is taken out, and no other |
| CommandTable.CommandManager.IsCommandRunning | src/CommandManager.cpp:272-277 | the search finds a request with the UUID exactly if there is one |
| CommandTable.CommandManager.CommandRunningForDevice | src/CommandManager.h:127-139 | the UUID and the command of the first request for the device, or nothing exactly if there is none |
| CommandRuns.LedgerBalances | src/CommandManager.cpp:405-454 | over every run: keys are identifiers, never above the counter; a posted request is outstanding or has left, never both; nothing of it changes but the state of a script |
| CommandRuns.PostedAsAsked | src/CommandManager.cpp:405-442 | a request is posted as asked for, in state 2 exactly for a deferred script, with a promise of its own exactly if the caller waits |
| CommandRuns.LeavesOnce | src/CommandManager.h:120-160 | a request leaves once, for one reason, for good, and its identifier is not used again |
| CommandRuns.LeavesForCause | src/CommandManager.cpp:37-270 | a step takes a request out if and only if it is one of the causes: a final answer of its own that can be read, failed send, timeout, reconnection, removal |
| CommandRuns.AnswerTouchesItsOwn | src/CommandManager.cpp:46-59 | an answer from another device changes nothing at all, and one from its own touches no other request |
| CommandRuns.AnswerBeforeSendResult | src/CommandManager.cpp:437-450 | an answer between insertion and the result of sending is passed on if it can be read, and completes the request whatever the sender then learns, unless the request waits for another answer |
| CommandRuns.PromisesSettleOnce | src/CommandManager.cpp:74-201 | over every run: a promise has a value if and only if some answer to its request, while it was outstanding, could be read - for a deferred script, any but a broken one or a bad status without text; a completed request has one; no promise is set twice if and only if no script is answered so again after a result without a status |
| CommandRuns.DecidedAnswersSettleOnce | src/CommandManager.cpp:162-198 | so it is enough that scripts are answered with a status or with no result |
| CommandRuns.UndecidedAnswersSettleTwice | src/CommandManager.cpp:162-198 | two results without a status set the promise of a deferred script twice |
| CommandRuns.BadStatusWithoutTextIsDropped | src/CommandManager.cpp:174-179 | a deferred script fails and its output comes compressed, as PROTOCOL.md:842-852 allows: the request stays, the caller gets nothing |
| CommandScheduler.PageHolds | src/storage/storage_command.cpp:483-514 | at most 200 commands, all ready and for connected devices, in the order of the store, and every such one ranked from the offset on, up to 200 of them |
| CommandScheduler.Scheduler.GetReadyToExecuteCommands | src/storage/storage_command.cpp:483-514 | the two loops, one that ranks ready commands and cuts out the range, one that leaves out unconnected devices, give exactly that page |
| CommandScheduler.Scheduler.ProcessCommand | src/CommandManager.cpp:310-387 | what becomes of one command: skipped, closed, put off, or posted |
| CommandScheduler.Scheduler.Sweep | src/storage/storage_command.cpp:334-392 | two sweeps close what was submitted before the window |
| CommandScheduler.Scheduler.PostCommandDisk | src/CommandManager.cpp:405-454 | inserted, and withdrawn again if the frame did not go out |
| CommandScheduler.Scheduler.ProcessPage | src/CommandManager.cpp:301-388 | the loop over the commands of a page, one after the other |
| CommandScheduler.Scheduler.OnCommandRunnerTimer | src/CommandManager.cpp:279-403 | the paging loop ends, as each page that is not empty raises the offset, and is the recursive pass the lemmas are about |
| SchedulerRuns.OneCommandPerDevice | src/CommandManager.cpp:327-365 | each request goes to a connected device; a second one goes to the same device only after the first has left the table; at most one per device if nothing leaves during the pass; and what is in the table for it is its own request |
| SchedulerRuns.CommandsAreSentOnce | src/CommandManager.cpp:357-372 | over any passes, with any answers, failures and submissions in between, no command is sent twice |
| SchedulerRuns.NoCommandIsLost | src/CommandManager.cpp:316-387 | a pass closes an open command only at a moment of its own, at which it was sent or was too old, or because its parameters cannot be read; never because its device is away or busy or the frame did not get through |
| SchedulerEffects.OldCommandsAreClosed | src/storage/storage_command.cpp:334-392 | the other half, whatever is connected: after a pass every command submitted before the window is closed, at a moment of the pass if it was open or is not completed |
| SchedulerEffects.CommandIsDealtWith | src/CommandManager.cpp:310-387 | what becomes of the row of a command that is looked at, in terms of the requests left, its age, the devices connected and the frame |
| SchedulerEffects.CommandsAreSent | src/CommandManager.cpp:357-372 | whatever a pass sends is a command of the store, to its own device |
| SchedulerRuns.PageKeepsOnce | src/CommandManager.cpp:301-388 | what a page sends is from the page, and new |
| SchedulerRuns.PageIsFresh | src/storage/storage_command.cpp:490-508 | the store hands out nothing that was sent, and nothing twice |
| SchedulerCoverage.PassMissesIfSteppingOver | src/CommandManager.cpp:290-394 | where nothing else interferes, a pass misses a ready command of a connected device if and only if a page steps over one or the last page is empty with one behind it |
| SchedulerCoverage.PassMissesIfOneLeavesEarly | src/CommandManager.cpp:290-394 | where also all devices are connected: if and only if another page lies behind one with a command that is neither running nor for a busy device, a condition on the ready commands before the first page |
| SchedulerCoverage.SmallStoreIsCovered | src/storage/storage_command.cpp:490-508 | whatever interferes, up to 200 ready commands are all looked at where their devices are connected |
| SchedulerCoverage.OfflinePageEndsPass | src/CommandManager.cpp:294-298 | a first page of commands for unconnected devices ends the pass, whatever comes behind |
| SchedulerCoverage.LastOf201IsMissed | src/CommandManager.cpp:389 | 201 commands for one connected device: the last is missed |
| SchedulerCoverage.OneBehind200OfflineIsMissed | src/CommandManager.cpp:294-298 | one command for a connected device behind 200 for another one is missed |
| ConfigurationSync.ConfigurationCache.GetCurrentConfig | src/ConfigurationCache.h:19-25 | the cached version, or zero |
| ConfigurationSync.ConfigurationCache.SetCurrentConfig | src/ConfigurationCache.h:27-30 | one entry changes |
| ConfigurationSync.Storage.CompleteDeviceConfigurationChange | src/storage/storage_device.cpp:323-366 | what was pending becomes current, in the record and in the cache; a record without a version takes that of its configuration |
| ConfigurationSync.Storage.RollbackDeviceConfigurationChange | src/storage/storage_device.cpp:283-311 | what was pending is given up |
| ConfigurationSync.Storage.SetPendingDeviceConfiguration | src/storage/storage_device.cpp:368-418 | a document that names a version waits, under the version asked for or a new one |
| ConfigurationRuns.AwaitedIsInstalled | src/storage/storage_device.cpp:323-366 | a configuration that waits and is confirmed becomes the stored one, under its version; nothing else changes, and the cache agrees |
| ConfigurationRuns.AwaitedIsDropped | src/storage/storage_device.cpp:283-311 | one that is given up leaves the record as it was |
| ConfigurationRuns.AnswerSettles | src/storage/storage_device.cpp:283-366 | either way nothing waits, the cache agrees, and doing it again changes nothing |
| ConfigurationRuns.UpgradeIsKeptIfNothingWaits | src/AP_WS_LookForUpgrade.cpp:58-73 | an upgrade that was sent and is confirmed is what the record holds if and only if no other configuration waited |
| ConfigurationRuns.WaitingTakesThePlace | src/AP_WS_LookForUpgrade.cpp:58-73 | 5 stored, 9 waiting, 3 reported: version 5 with the configuration that says 9 |
| ConfigurationSync.Connection.LookForUpgrade | src/AP_WS_LookForUpgrade.cpp:8-109 | every branch, with the whole new state of the device and nothing of any other |
| ConfigurationRuns.LookForUpgradeDecides | src/AP_WS_LookForUpgrade.cpp:8-109 | what each case leaves alone, sends and returns: version zero, a version in the cache, an unknown device, a completed upgrade, a switch without a real configuration, agreement, a newer configuration, and a text that is no document |
| ConfigurationSync.Connection.ConfigureAnswered | src/CommandManager.cpp:127-140 | error 2 rolls back, anything else completes, for the device that the answer names, whoever sent it; no other device changes |
| ConfigurationRuns.OneVersionIsSent | src/AP_WS_LookForUpgrade.cpp:58-97 | however messages are delayed or lost: all that is sent is the stored configuration stamped with one version, newer than the one the device began with; nothing is sent to a device that runs what is stored |
| ConfigurationRuns.HearingSettles | src/AP_WS_LookForUpgrade.cpp:14-56 | once the gateway hears of that version, device, store and cache agree and the connection waits for nothing |
| ConfigurationRuns.SettledForGood | src/AP_WS_LookForUpgrade.cpp:14-19 | and so it stays, and nothing more is sent |
| ConfigurationRuns.PromptDeviceConverges | src/AP_WS_LookForUpgrade.cpp:8-109 | a device that installs before it reports again: settled from its second report on, with one configuration sent or none; and exactly when the record keeps a pending version all the same |
| ConfigurationRuns.PendingVersionIsKept | src/AP_WS_LookForUpgrade.cpp:14-56 | version 3 against 5, answer dropped: all agree on 5, and it is pending still |
| ConfigurationRuns.FirstConfigureIsNewer | src/AP_WS_LookForUpgrade.cpp:58-68 | what is sent first is newer if and only if two more fits in 64 bits or the stored version is ahead |
| ConfigurationRuns.OlderVersionIsSent | src/AP_WS_LookForUpgrade.cpp:58-68 | a device at version 2^64 - 1 is sent version 1 |
| Telemetry.Connection.SetWebSocketTelemetryReporting | src/AP_WS_Connection.cpp:504-523 | counters, lowest interval, latest expiry, and a start message if it was off |
| Telemetry.Connection.SetKafkaTelemetryReporting | src/AP_WS_Connection.cpp:525-542 | the same on the other side |
| Telemetry.Connection.StopWebSocketTelemetry | src/AP_WS_Connection.cpp:544-554 | one less, and a stop when nobody is left |
| Telemetry.Connection.StopKafkaTelemetry | src/AP_WS_Connection.cpp:556-566 | the same on the other side |
| Telemetry.Connection.StopTelemetry | src/AP_WS_Connection.cpp:481-497 | a stop message and a clean slate |
| Telemetry.Connection.ProcessTelemetry | src/AP_WS_Process_telemetry.cpp:13-65 | an error for a device that has not connected; otherwise packets passed on in time, requests that ran out released, telemetry that nobody asked for stopped |
| Telemetry.ReportingIsCounted | src/AP_WS_Connection.cpp:499-566 | over every run: on exactly while somebody counts; timers, packet counts and shown copies are those of the history |
| Telemetry.RequestsAreCounted | src/AP_WS_Connection.cpp:504-566 | over every run without data, each count is the number of requests that stand |
| Telemetry.CountsFollow | src/AP_WS_Connection.cpp:504-566 | in every reachable state, one more for a request, noted with its expiry in 64 bits, and one less for a release |
| Telemetry.PacketsAreShown | src/AP_WS_Process_telemetry.cpp:39-57 | over every run, the number of packets shown is that of the last one passed on |
| Telemetry.IntervalIsTheLowestAsked | src/AP_WS_Connection.cpp:504-542 | over every run of requests for positive intervals, all that the REST handler lets through, the interval is the lowest asked for since telemetry was last stopped |
| Telemetry.LowestIsToldIfFirst | src/AP_WS_Connection.cpp:517-521 | over every such run, while telemetry is on: the device was last told the lowest interval if and only if it is the one asked for first |
| Telemetry.LowerIntervalIsNotTold | src/AP_WS_Connection.cpp:509-521 | asked for 60 and then 10: the device goes on with 60 |
| Telemetry.StartsWhenCountLeavesZero | src/AP_WS_Connection.cpp:517-521 | one start message exactly when the total leaves zero, with the interval of that request; the last thing told is stop once nobody counts |
| Telemetry.DataIsPassedOnInTime | src/AP_WS_Process_telemetry.cpp:23-65 | in every reachable state: data goes to the clients, and to the bus, exactly while a request counts and its time has not run out, to the bus alone when nobody asked; a side that has run out has one less to count |
| TelemetryStream.Stream.IsValidEndPoint | src/TelemetryStream.cpp:36-48 | membership in both indexes |
| TelemetryStream.Stream.CreateEndpoint | src/TelemetryStream.cpp:50-69 | registered, not attached |
| TelemetryStream.Stream.NewClient | src/TelemetryStream.cpp:141-161 | registered and attached, or no trace |
| TelemetryStream.Stream.Send | src/TelemetryStream.cpp:79-112 | the attached listeners of the device, each once |
| TelemetryStream.Stream.UnregisterClient | src/TelemetryStream.cpp:113-130 | the loop with erase takes the client out of every set and drops the sets that become empty |
| TelemetryStream.Stream.ProcessNotification | src/TelemetryStream.cpp:71-139 | one turn of the loop |
| TelemetryStream.RunKeeps | src/TelemetryStream.cpp:50-161 | over every run the clients are the union of the sets and no set is empty |
| TelemetryStream.UnregisterTouchesOne | src/TelemetryStream.cpp:113-130 | no other pair and no other client changes |
| TelemetryStream.IndexesFollowHistory | src/TelemetryStream.cpp:36-161 | listening is having joined since the last removal, being attached is having got a socket since then |
| TelemetryStream.ClientsJoined | src/TelemetryStream.cpp:66-68 | the known clients are those that joined some device |
| TelemetryStream.RecipientsFollowHistory | src/TelemetryStream.cpp:36-111 | an end point is valid exactly for those who joined, and data is offered to exactly the attached among them |
| FrameAssembly.Connection.ProcessFinalPayload | src/AP_WS_Connection.cpp:609-656 | the message is handed over and the buffer emptied, unless it is empty or handling it throws |
| FrameAssembly.Connection.ProcessIncomingFrame | src/AP_WS_Connection.cpp:658-836 | every branch of one read, a pong that cannot be sent included |
| FrameAssembly.OneMorePart | src/AP_WS_Connection.cpp:681-756 | one more part goes to the message that is not complete, by the definition of section 5.4 of RFC 6455 |
| FrameAssembly.PongsAnswerPings | src/AP_WS_Connection.cpp:692-696 | one pong for each ping, while the connection is alive |
| FrameAssembly.MessagesAreInOrder | src/AP_WS_Connection.cpp:658-836 | for any frames, and any handling that may depend on all messages before: the messages handled are the first of those the parts make, and all of them while the connection is alive |
| FrameAssembly.AliveIfSurviving | src/AP_WS_Connection.cpp:658-836 | for any reads, and any handling that may depend on all messages before: the connection is alive if and only if it outlived each read, in terms of the reads alone |
| FrameAssembly.AliveFollows | src/AP_WS_Connection.cpp:681-756 | a living connection follows section 5.4 of RFC 6455 after every frame if and only if no ping, pong, binary or unknown frame had a payload |
| FrameAssembly.FollowsTheStandard | src/AP_WS_Connection.cpp:658-836 | for any reads, and any handling that may depend on all messages before: alive and following the standard after every frame, if and only if each read is outlived and no ping, pong, binary or unknown frame had a payload |
| FrameAssembly.DiesOfDisconnects | src/AP_WS_Connection.cpp:674-679 | among data frames, answered pings and pongs, handled without a fault, the connection dies exactly of an empty continuation that is not final |
| FrameAssembly.EmptyPartIsTakenForADisconnect | src/AP_WS_Connection.cpp:674-679 | a text in three parts of which the second is empty: dead before the third |
| FrameAssembly.PingPayloadIsKept | src/AP_WS_Connection.cpp:692-705 | a ping of one octet inside a text: its octet becomes part of the message |
| FrameAssembly.BinaryIsKept | src/AP_WS_Connection.cpp:726-730 | a binary frame does not end the connection, and its payload joins the next message |

## Left out

- RadiusPacket.Packet.ReplaceNumber: the overloads for one and two octets write fewer octets in the same way; the sessions use the one for four.
- RadiusPacket.Packet.AppendAttribute: a text longer than 255 octets is cut by the caller's 8-bit length.
- RadiusPacket.Packet.ReplaceAttribute: asks that the range moved lies in the array, as the count includes the 20 octets of the header; what a move outside the array does is undefined.
- RadiusPacket.Packet.ComputeMessageAuthenticator: asks that the 16 octets at each recorded place are in the buffer.
- RadiusWire.ParseRadius: asks for one octet behind the area, which the buffer always has, as the length octet of a last lone octet is read there.
- RadiusOutput.OutputPacket.MakeStatusMessage: asks for a fresh packet and a name of at most 246 octets; the offset of the digest counts on the first, the length octet on the second.
- RadiusReading.ReadAttributes: asks that what it reads is in the buffer, which RadiusReading.ParsedIsReadable proves of all that the parser makes of up to 4091 octets. Functions that copy a wrapped length as it is, for the routing of packets, are not part of this model.
- RadiusOutput.IsStatusMessageReply: asks for a well-formed packet, as it copies a length as it is.
- RadiusSessions.SessionTracker.DisconnectSession: asks that stored packets are well formed, with room for twelve octets more, and that the first status and timestamp have four octets; what is written otherwise is in the contract of RadiusPacket.Packet.ReplaceNumber. Routing to a destination is a map, sending is not modelled.
- RadiusSessions.BuildDisconnect: asks that serial number and interface have at most 239 octets together, as a longer Proxy-State would get a wrapped length octet.
- RadiusSessions: which authentication messages reach the tracker, the listings for the REST interface, and vendor attributes.
- SerialNumberCache.Cache.FindNumbers: patterns are lower-case digits, after a star at most. In upper case a full number is found as well and a shorter pattern with a letter matches nothing; a character that is no digit ends the number or raises an error.
- SerialNumberCache.Cache.AddSerialNumber: takes serial numbers of twelve lower-case digits, which is how the store spells them.
- ConnectionServer.Server.ZombiePass: the locks it gets are two sets of shards; entries without a connection are never in the tables here.
- ConnectionRuns: a second connect message with another serial number on one session, and several garbage collector threads.
- ConnectionServer: connection statistics and the reports of the garbage collector.
- CommandTable.CommandManager.CompleteConfigureCommand: a serial number that is JSON null, which raises an error as well.
- CommandTable: calls into the store and uploads that wait for a file; 64-bit wrap-round of identifiers.
- CommandRuns: two threads posting under one lock while others hold another is not told apart from steps in some order.
- CommandScheduler.Scheduler.ProcessCommand: looks at the table, at connectivity and at the frame in one moment; the program looks at them one after the other. Other posters at work during a pass are not modelled, only requests that go.
- CommandScheduler: rows are held in the order in which the store returns them; the texts of statuses and results, and stopping the service within a pass.
- ConfigurationSync.Connection.LookForUpgrade: times of change, notifications, the command record and whether the frame got through; failing storage calls.
- ConfigurationRuns.PromptDeviceConverges: configurations set through the REST interface meanwhile, and devices that refuse what they are sent.
- Telemetry.Connection.ProcessTelemetry: checks and stops in one step; 64-bit wrap-round of reference and packet counts.
- TelemetryStream.Stream.CreateEndpoint: the address of the end point; the order in which listeners are served; errors when sending.
- FrameAssembly.Connection.ProcessIncomingFrame: octet and message counters, and what handling a message does besides failing, counting errors or ending the connection.
- Sockets, TLS, certificates, threads and timers, HTTP, Kafka, JSON texts, REST handlers, logging.
- Wi-Fi scan parsing, firmware revision checks, the automatic configuration upgrader, OUI, country, regulatory, dashboard, signature and upload services.
