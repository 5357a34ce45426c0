# Netify Agent: a verified model of its stateful cores

The agent captures packets, keeps one record per network flow, and hands the records to detection
threads. This project models the parts of it whose correctness depends on state kept over many calls,
and proves what they keep over every input, every run or every interleaving. `dafny verify
dfyconfig.toml` checks all of it.

| file | what it models |
|---|---|
| `FlowMap.dfy`, `CaptureProtocol.dfy` | the sharded flow table with one mutex per bucket; any number of threads running the lookup/limit/insert/release protocol on it, step by step |
| `FlowIdentity.dfy` | how a packet's two ends are ordered, and the bytes that the flow table and the connection tracker hash |
| `FlowHashCache.dfy` | the cache of flow hashes: a list in order of use, a map of iterators into it, purge, save and load |
| `Radix.dfy`, `AddrTypes.dfy`, `AddrRanges.dfy` | bit arithmetic on network prefixes; adding and classifying addresses by longest prefix, and what that means for the addresses as numbers; the built-in ranges |
| `FlowExpr.dfy`, `FlowGrammar.dfy`, `FlowMachine.dfy`, `FlowPrecedence.dfy`, `FlowParser.dfy` | the shift/reduce machine that evaluates flow expressions, with its tables; the grammar and its meaning; the machine against the grammar; its grouping compared with the usual precedence; the parser object |
| `Detection.dfy`, `DetectionThread.dfy` | a flow's detection flags, packet counter and nDPI state, over queued packets, expiry notices and resets; the detection thread's objects |
| `DetectionRuns.dfy`, `DetectionFaults.dfy` | the detection, capture and main threads that share a flow, step by step; the exact conditions under which the counter keeps to its limit and no missing nDPI state is used |
| `Conntrack.dfy` | the connection tracker's map of ids and its map of owned flow objects |
| `Base64.dfy` | the base64 codec |
| `PacketRing.dfy`, `VlanTags.dfy` | the ring of packet blocks shared with the kernel; VLAN tags put back into a frame and taken off again |
| `Domains.dfy` | applications looked up by the suffixes of a domain name |
| `Prelude.dfy` | bytes, little-endian numbers, `memcmp` |

Where the source changes objects, the model has classes whose methods are proved against functions of the
old state; what is promised is then proved about those functions, over whole runs. A SHA-1 digest is
modelled by the bytes that are hashed, the radix tree by a map with a longest-match lookup, and whatever
nDPI, the soft dissectors, the filters and the domain transforms answer by arbitrary input.

## Where the code does not do what one might expect

Each of these is proved, with the exact condition where one exists.

- **Flow limit.** `max_flows` can be overshot, by at most `min(capture threads, buckets) - 1`, and that bound
  is reached (`FlowLimit`, `FlowLimitReached`). Threads that only walk the table do not add to it.
- **Flow hash cache.** The cache keeps to its capacity if and only if the purge divisor is at most the
  capacity; otherwise nothing is dropped and it grows without end (`CapacityKept`). A load after a save
  reverses the order of use (`SaveLoad`).
- **Two hashes.** A packet finds the tracked connection of its own tuple exactly when the two hashes order
  its ends alike (`TrackerFindsExactly`). Between equal addresses they do not if the destination port as
  loaded is the higher one (`TrackerAgrees`). Connections of protocols for which the capture path has no
  ports, such as SCTP, are never found if their entries have ports (`TrackerMissesSctp`).
- **Tunnelled IPv6.** Between equal addresses only the ports tell the ends of an inner packet apart, and the
  sign of the outer header's comparison, which is still in use then, decides about them. A frame and its mirror
  image agree at any depth (`MirroredFrame`); but one inner flow gets two keys inside tunnels of opposite
  directions (`TunnelSplits`). The exact condition for any two frames is in `SameFrameEnds`.
- **Flow expressions.** AND and OR have the same precedence and group to the right; `false AND false OR
  true` is false (`AndDoesNotBindTighter`). An expression has its usual value for all values of its tests if
  and only if no AND stands before an OR in one chain (`UsualPrecedence`). A flat chain of more than 4998
  operators exhausts the parser's stack (`FlatChain`).
- **Address types.** An all-ones MAC address is classified as multicast: the broadcast branch is never
  reached (`Classify`). A prefix length of zero stands for a host.
- **Detection.** The notice of an expiring flow uses an nDPI state that has been freed if the flow has been
  completed in the meantime and stands at the packet limit or is still expiring (`EntryFaults`). All runs of
  the modelled steps are free of this if and only if the limit is not one, no DNS query resets a complete
  flow, the main thread never expires the flow while a detection thread has an entry of it in hands, and no two
  capture threads can give the flow to two detection threads (`FaultFree`). Nothing in the source keeps the main
  thread from doing so: `FaultAtTheLimit` and `FaultBelowTheLimit` are runs without any reset.
- **Two detection threads for one flow.** A flow gets its detection thread without a lock, after its bucket has been
  released. Of the capture threads that share a flow, as the instances of a fan-out do, two can find it without one
  and queue its first packets to different detection threads. Then even a run without expiry uses a freed nDPI state,
  at every limit the counter can reach (`FaultWithoutExpiry`), and the counter passes its limit (`CounterPasses`). It
  keeps to a limit below 255 if and only if that is positive and there is one such capture thread or one detection
  thread (`CounterWithin`); without expiry the same threads decide about faults (`FaultFreeUnexpired`).
- **Updates.** An update that meets a soft match broadcasts completion twice (`UpdateBroadcasts`).
- **Connection tracking.** An update that moves a flow onto a digest in use overwrites the other flow's
  pointer without deleting it. The two maps stay a bijection exactly as long as events are fresh
  (`StepBijective`). An update that throws leaves the mutex locked for good (`ProcessUpdate`).
- **Base64.** Of an input whose last group has a single character, decoding also reads the byte beyond it
  (`Decode`).
- **VLAN.** A tag that is put back under a protocol other than 802.1Q stops the packet walk at the tag
  (`RestoredWalk`). A tag beyond the captured bytes is counted as a discard and read all the same (`WalkTags`).

## Model

| member | source | states |
|---|---|---|
| FlowTable.FlowMap.constructor | src/nd-flow-map.cpp:28-42 | every bucket starts empty and unlocked |
| FlowTable.HashToBucket | include/nd-flow-map.hpp:77-81 | every digest has a bucket of the table, the same on every call |
| FlowTable.BucketOf | include/nd-flow-map.hpp:77-81 | that bucket is the number made by the digest's first eight bytes, lowest first, modulo the number of buckets |
| FlowTable.FindMeans | src/nd-flow-map.cpp:55-68 | a flow is found under a digest exactly when some bucket stores it there |
| FlowTable.ChangesOne | src/nd-flow-map.cpp:70-99 | after an insert or an erase every other digest finds what it found before; an insert stores only under a new digest |
| FlowTable.FlowMap.Lookup | src/nd-flow-map.cpp:55-68 | returns the stored flow or none; changes no bucket; the mutex stays taken only on request |
| FlowTable.FlowMap.Insert | src/nd-flow-map.cpp:70-85 | stores only a new digest, tells whether it did, and leaves all mutexes as they were |
| FlowTable.FlowMap.Delete | src/nd-flow-map.cpp:87-99 | erases exactly the digest, tells whether it was there, and leaves all mutexes as they were |
| FlowTable.FlowMap.Acquire | src/nd-flow-map.cpp:101-109 | takes the bucket's mutex, or fails for a bucket that does not exist |
| FlowTable.FlowMap.Release | src/nd-flow-map.cpp:121-127 | gives the bucket's mutex up, or fails for a bucket that does not exist |
| CaptureProtocol.StepMoves | src/nd-flow-map.cpp:55-131 | a step of one thread keeps, takes or gives up one mutex of that thread and changes no bucket but the one whose mutex it holds |
| CaptureProtocol.MoveKeepsExclusive | src/nd-flow-map.cpp:55-131 | mutual exclusion survives every such step: holders and owners stay in one-to-one agreement |
| CaptureProtocol.MoverKnowledge | src/nd-capture.cpp:949-1030 | an insert after a locked miss cannot fail, so the exception branch is never entered |
| CaptureProtocol.StepAccounting | src/nd-capture.cpp:1023-1030 | every step keeps the balance between stored flows, counted flows, threads in flight, unsettled purges and direct calls |
| CaptureProtocol.WindowMoves | src/nd-capture.cpp:983-1030 | only the limit test lets a thread into the window up to the increment, and only with room left; only the increment raises the count |
| CaptureProtocol.StepInv | src/nd-capture.cpp:945-1087 | every step of every thread keeps exclusion, knowledge, balance and limit together |
| CaptureProtocol.RunInv | src/nd-capture.cpp:945-1087 | so does every schedule, for any number of threads and buckets |
| CaptureProtocol.FlowTableSafe | src/nd-capture.cpp:949-1028 | after every schedule: no two threads in one bucket, at most one flow for a digest, the "Impossible!" exception never raised |
| CaptureProtocol.BucketGuarded | src/nd-flow-map.cpp:55-131 | in every run a bucket changes only in a step of the thread that holds its mutex |
| CaptureProtocol.FlowsCounted | src/nd-capture.cpp:1030 | after every schedule the flow count is the table's size up to threads between insert and increment, unsettled purges and direct calls; a settlement never takes it below zero |
| CaptureProtocol.FlowLimit | src/nd-capture.cpp:983-997 | after every schedule the flow count and the table's size exceed the limit by at most min(capture threads, buckets) - 1, whatever other threads walk, purge or delete meanwhile |
| CaptureProtocol.FlowLimitReached | src/nd-capture.cpp:983-997 | for every limit and every number of capture threads, other threads and buckets some schedule reaches that bound |
| CaptureProtocol.NeverDeadlocks | src/nd-flow-map.cpp:55-131 | from every reachable state at most five more steps per thread leave every mutex free |
| CaptureProtocol.AdmitPacket | src/nd-capture.cpp:949-1087 | one uninterrupted packet gets the flow that is stored under its digest, or nothing at the limit or as a scan, or the new flow, which is then stored and counted; every other entry and all mutexes end as they were |
| CaptureProtocol.AdmitMeans | src/nd-capture.cpp:949-1030 | the answer is what the table finds under the digest afterwards: the flow found before, or the new one exactly when there was none, the limit leaves room and it is no scan |
| CaptureProtocol.Uninterrupted | src/nd-capture.cpp:949-1087 | the six machine steps of one thread, run without interruption, have the same effect as that method |
| CaptureProtocol.WalkCounts | src/nd-instance.cpp:2426-2505 | walks that purge, and direct inserts and deletes, keep the balance |
| FlowIdentity.OrderedEnds | src/nd-capture.cpp:627-733 | two packets, each under the sign it finds, get the same ordered ends if and only if they belong to one flow in either direction and, where only the ports tell the ends apart, the signs agree |
| FlowIdentity.CanonicalForm | src/nd-capture.cpp:627-733 | on a first pass two packets get the same ordered ends if and only if their ends are the same or mirrored |
| FlowIdentity.SameFrameEnds | src/nd-capture.cpp:761-793 | two frames with any number of GTP headers get the same ordered ends if and only if their inner packets belong to one flow and, where only the ports tell the ends apart, the signs left by the outer headers agree |
| FlowIdentity.MirroredFrame | src/nd-capture.cpp:761-793 | a frame and its mirror image get the same ordered ends at any depth |
| FlowIdentity.TunnelSplits | src/nd-capture.cpp:761-793 | inside tunnels of opposite directions an inner packet gets the same ends if and only if it is not the ports alone that tell them apart; the same for its two directions inside one tunnel |
| FlowIdentity.TunnelSplitsExample | src/nd-capture.cpp:693-704 | such a packet: one datagram with two keys |
| FlowIdentity.Flow.OrderFrame | src/nd-capture.cpp:549-793 | going through the layers of a frame with one variable for the sign gives the frame's key |
| FlowIdentity.NextWord | src/nd-capture.cpp:693-704 | one round of the word comparison either passes an equal word or yields the sign of the 16-byte comparison |
| FlowIdentity.Flow.CompareWords | src/nd-capture.cpp:693-704 | the word loop ends within four rounds with the sign of the 16-byte comparison |
| FlowIdentity.Flow.OrderEnds | src/nd-capture.cpp:627-914 | addresses, ports and MAC addresses of the flow are those of the canonical form, field by field; the higher MAC address is the other one |
| FlowIdentity.EndsMean | src/nd-capture.cpp:627-733 | the lower end is the one with the lower byte where the addresses first differ, with its own MAC address and port; between equal addresses the sign of an outer header or the ports decide |
| FlowIdentity.Flow.Hash | src/nd-flow.cpp:123-175 | the bytes fed to SHA-1 are those of the flow's key |
| FlowIdentity.PreimageInjective | src/nd-flow.cpp:123-175 | for one device two keys are hashed from the same bytes if and only if they agree in version, protocol, VLAN, both ends and, for limited broadcasts, the lower MAC address |
| FlowIdentity.PreimageBytes | src/nd-flow.cpp:123-175 | what stands where in the hashed bytes |
| FlowIdentity.ClientsToldApart | src/nd-flow.cpp:144-155 | two DHCPv4 clients that broadcast from the unspecified address are one flow exactly if their own MAC addresses are the same |
| FlowIdentity.PortsMatter | src/nd-capture.cpp:880-914 | another source port makes another flow of TCP and UDP, and of no other protocol |
| FlowIdentity.SameHashSameFrame | src/nd-flow.cpp:123-175 | two frames are hashed from the same bytes if and only if their inner packets belong to one flow under agreeing signs and, for limited broadcasts, the ends without an address have one MAC address |
| FlowIdentity.SameHashSameFlow | src/nd-flow.cpp:123-175 | two packets without a tunnel are hashed from the same bytes if and only if they belong to one flow in either direction and, for limited broadcasts, the ends without an address have one MAC address |
| FlowIdentity.HashEntry | src/nd-conntrack.cpp:751-825 | the bytes hashed for a tracked connection, reply tuple first, original tuple where the reply is missing |
| FlowIdentity.FlowPreimageInjective | src/nd-conntrack.cpp:486-517 | the bytes by which a flow looks its connection up determine everything of its key but VLAN and MAC |
| FlowIdentity.TrackerFindsExactly | src/nd-conntrack.cpp:486-528 | for every entry and every packet under any sign: the entry is found if and only if it has both reply addresses, the packet belongs to its tuple in either direction, and the two hashes order the ends alike |
| FlowIdentity.TrackerAgrees | src/nd-conntrack.cpp:751-825 | on a first pass a packet of the tuple finds a complete entry if and only if, with ports, the addresses differ or the destination port as loaded is not the higher one, and, without, the entry has none |
| FlowIdentity.TrackerMissesSctp | src/nd-conntrack.cpp:721-726 | an SCTP entry with a port is found by no packet |
| FlowHashCache.Cache.Push | src/nd-fhc.cpp:33-76 | the recency list is unchanged for a present key; otherwise the pair goes in front, after capacity / divisor entries have been cut off the end of a full cache; with a divisor of at most the capacity the capacity is kept; list and iterators stay linked |
| FlowHashCache.PushMeans | src/nd-fhc.cpp:38-69 | the list after a push, element by element, and its length |
| FlowHashCache.PopMeans | src/nd-fhc.cpp:78-97 | the list after a pop of a known key, element by element, and the answer |
| FlowHashCache.PopMisses | src/nd-fhc.cpp:78-97 | a pop of an unknown key finds nothing and changes nothing |
| FlowHashCache.Cache.PurgeBack | src/nd-fhc.cpp:44-58 | exactly the last n entries and their iterators go |
| FlowHashCache.Cache.Pop | src/nd-fhc.cpp:78-97 | returns the value pushed under the key and moves the entry to the front, or finds nothing and changes nothing |
| FlowHashCache.LinkedMeans | src/nd-fhc.cpp:33-97 | linked list and map: keys are distinct, map and list have the same size and keys, an iterator points at its key's node |
| FlowHashCache.OlderCount | src/nd-fhc.cpp:44-58 | an entry's distance from the end of the list is the number of entries used less recently |
| FlowHashCache.EvictKeepsFront | src/nd-fhc.cpp:44-58 | cutting the end off drops exactly the least recently used entries |
| FlowHashCache.PushRepresents | src/nd-fhc.cpp:33-76 | a push on the list is a push on a map of time-stamped entries |
| FlowHashCache.PopRepresents | src/nd-fhc.cpp:78-97 | a pop on the list is a pop on that map, with the same answer |
| FlowHashCache.RunRepresents | src/nd-fhc.cpp:33-97 | after any run of pushes and pops the cache is that map in order of last use |
| FlowHashCache.CapacityKept | src/nd-fhc.cpp:44-58 | no run exceeds the capacity if and only if the divisor is at most the capacity |
| FlowHashCache.RunGrows | src/nd-fhc.cpp:44-58 | with nothing to drop, some run reaches every size |
| FlowHashCache.Cache.Load | src/nd-fhc.cpp:99-137 | every complete record of forty bytes is pushed in file order, an incomplete one ends the load; with a divisor of at most the capacity the capacity is kept |
| FlowHashCache.Cache.Save | src/nd-fhc.cpp:139-169 | forty bytes per entry, most recently used first |
| FlowHashCache.LoadSaved | src/nd-fhc.cpp:99-169 | loading a saved list on top of other entries puts it in front, reversed, as long as all fit |
| FlowHashCache.SaveLoad | src/nd-fhc.cpp:99-169 | one save and load keeps the mapping and reverses the order of use, a second one restores it |
| Radix.SubtractInPlace | include/nd-addr.hpp:597-626 | the borrow loop is subtraction modulo 2^N at every width N |
| Radix.BorrowStep | include/nd-addr.hpp:597-626 | one place with its borrow extends a correct difference by one bit |
| Radix.LessLoop | include/nd-addr.hpp:454-461 | the loop from the top finds the first difference |
| Radix.LessIsNumeric | include/nd-addr.hpp:454-461 | that order is the order of the numbers |
| Radix.EntryOrder | include/nd-addr.hpp:564-572 | entries are ordered by their numbers and then by prefix length: strictly, totally and in agreement with equality |
| Radix.MaskValue | include/nd-addr.hpp:633-652 | one less than 2^k is a mask of k ones, also when 2^k does not fit |
| Radix.Substr | include/nd-addr.hpp:633-652 | selects exactly the bits from offset on, in the number given, and clears all others |
| Radix.SelectsUnique | include/nd-addr.hpp:633-652 | a substring is determined by the bits it selects |
| Radix.SubstrOfSubstr | include/nd-addr.hpp:633-652 | a substring of a substring is the substring at the summed offset |
| Radix.Join | include/nd-addr.hpp:654-664 | the first prefix stays; behind it come the second's bits, exactly these if the first was clear there; the lengths add up |
| Radix.JoinAdjacent | include/nd-addr.hpp:633-664 | any join of adjacent substrings is the larger substring |
| AddrTypes.Create | include/nd-addr.hpp:472-520 | the entry of an address: its leading bits, all others clear; none for a prefix longer than the address |
| AddrTypes.CreateQuery | include/nd-addr.hpp:527-558 | the query has the address's bits, words shifted in most significant first |
| AddrTypes.HostValue | include/nd-addr.hpp:527-558 | those bits make the number that the address is: the word, or the four words in base 2^32, most significant first |
| AddrTypes.PackStep | include/nd-addr.hpp:503-514 | shifting by a word and or-ing appends the word to those packed before |
| AddrTypes.ExtractWords | include/nd-addr.hpp:581-590 | the words taken out bit by bit pack to the same bits again |
| AddrTypes.PackingInjective | include/nd-addr.hpp:503-514 | different words pack to different bits, so extraction undoes packing |
| AddrTypes.CoversMeans | src/nd-addr.cpp:645-730 | the entries that cover one address are its own prefixes, one for each length |
| AddrTypes.ContainsMeans | include/nd-addr.hpp:472-520 | the bits of an added network contain an address exactly when the two numbers agree once divided by 2^(width - prefix length), a missing prefix length standing for a host |
| AddrTypes.LongestMatchIsLongest | src/nd-addr.cpp:645-730 | the lookup finds a covering entry if there is one, and none is longer (as in section 5.1 of RFC 4632) |
| AddrTypes.LongestAfterStore | src/nd-addr.cpp:459-504 | a stored entry becomes the longest match exactly of the addresses it covers at least as long as before |
| AddrTypes.AddrType.constructor | src/nd-addr.cpp:409-429 | the object starts with the built-in networks, added in order, and no interface table |
| AddrTypes.AddrType.AddAddress | src/nd-addr.cpp:431-504 | the new tables: first type wins for a MAC address, last type for a prefix, a local network is told from a local host, other tables unchanged; all additions join the history, and each table is what the additions to it have stored |
| AddrTypes.AddrType.Classify | src/nd-addr.cpp:578-731 | every branch by its condition: multicast before all other MAC types, the two fixed IPv4 addresses, then the tables; whatever the interfaces, the object's own history of additions decides |
| AddrTypes.AddrType.ClassifyIp | src/nd-addr.cpp:645-730 | an interface table that matches decides, the global one only when none does, else OTHER |
| AddrTypes.WinnerStored | src/nd-addr.cpp:459-469 | after any additions the longest match of each table is the last addition to it of the longest containing prefix, under the type stored for it |
| AddrTypes.WinnerMeans | src/nd-addr.cpp:459-469 | the winner for a table is an addition to it that contains the host, no other that does has a longer prefix, and all later ones have shorter prefixes; there is none only if no addition contains the host |
| AddrTypes.ClassifiedByHistory | src/nd-addr.cpp:645-730 | on the numbers of the addresses: an interface with an addition that contains the address decides, else the global additions; in each the last of the longest counts; a host is never shown as LOCALNET; OTHER where nothing contains the address |
| AddrTypes.ShownMeans | src/nd-addr.cpp:668-725 | what is shown of an addition: LOCAL and LOCALNET by whether network and address are given as networks, every other type as it is |
| AddrRanges.FreshIpv4 | src/nd-addr.cpp:409-429 | a new object classifies every IPv4 address by the built-in ranges, written out |
| AddrRanges.FreshIpv6 | src/nd-addr.cpp:409-429 | and every IPv6 address |
| FlowExpr.RightHandSide | src/nd-flow-expr.cpp:1719-1902 | a viable stack holds the whole right-hand side of the rule that is reduced |
| FlowExpr.PopsEnough | src/nd-flow-expr.cpp:1719-1902 | a reduction keeps the stack viable and the measure falls, so the machine never underflows and always stops |
| FlowGrammar.ReadExprComplete | src/nd-flow-expr.cpp:1825-1847 | every expression of the grammar is read back from its tokens |
| FlowMachine.MachinePrim | src/nd-flow-expr.cpp:1825-1847 | on any stack that expects an expression the machine pushes the value of the next primary if the stack can hold it, or stops |
| FlowMachine.MachineExpr | src/nd-flow-expr.cpp:1825-1847 | on any such stack it pushes the value of the right-nested expression if the stack can hold it, and otherwise or without an expression stops with an error |
| FlowMachine.MachineAll | src/nd-flow-expr.cpp:1641-1902 | from between two semicolons it computes the last expression's value, keeps the result when there is none, or fails on a syntax error or a full stack |
| FlowMachine.ParseMeaning | src/nd-flow-expr.cpp:4088-4167 | the machine accepts with a value if and only if the input is a list of expressions that its stack can hold, the last of which has this value |
| FlowMachine.RightNestedTokens | src/nd-flow-expr.cpp:1825-1847 | every derivation of the grammar has the tokens of one right-nested expression |
| FlowMachine.ParseTree | src/nd-flow-expr.cpp:1825-1847 | whatever derivation is meant, the right-nested one is computed, or rejected for its height |
| FlowPrecedence.FlatChain | src/nd-flow-expr.cpp:1505-1507 | a flat chain of tests is evaluated if and only if it has at most 4998 operators |
| FlowPrecedence.UsualPrecedence | src/nd-flow-expr.cpp:1825-1847 | for every expression that the stack can hold the machine agrees with AND before OR for all values of the tests if and only if no AND stands before an OR in one chain, at any depth of parentheses; for any other it never does |
| FlowPrecedence.Differs | src/nd-flow-expr.cpp:1825-1847 | values of the tests that show the difference, for every expression with an AND before an OR |
| FlowPrecedence.UsualIsAndFirst | src/nd-flow-expr.cpp:1825-1847 | the usual value of a chain is the meaning of every derivation that puts no OR directly below an AND |
| FlowPrecedence.AndDoesNotBindTighter | src/nd-flow-expr.cpp:1825-1847 | one input on which the usual precedence would give another value |
| FlowPrecedence.Connectives | src/nd-flow-expr.cpp:1825-1852 | for all values of the tests: AND, OR, parentheses, and the last of two expressions |
| FlowParsing.FlowParser.YyParse | src/nd-flow-expr.cpp:1641-1902 | the driver loop on its two stacks, with the guard on their height, follows the machine and leaves its value in the result |
| FlowParsing.FlowParser.Reduce | src/nd-flow-expr.cpp:1825-1902 | rules 34 to 36 compute or, and, inner value; both stacks lose the right-hand side and gain one element |
| FlowParsing.FlowParser.Parse | src/nd-flow-expr.cpp:4088-4167 | false without parsing when the lower side is unknown; otherwise the value of the last expression, or an error exactly for other inputs and for expressions too high for the stack |
| Detection.CompletesOnce | src/nd-detection.cpp:1029-1039 | a completion that takes effect broadcasts exactly one event, DPI_COMPLETE; any other broadcasts none; nothing else of the state changes |
| Detection.UpdateBroadcasts | src/nd-detection.cpp:1041-1102 | which events an update broadcasts, in each case; after completion only DPI_COMPLETE |
| Detection.PacketStep | src/nd-detection.cpp:246-483 | a packet allocates the nDPI state if it is missing, so it never uses a missing one, and keeps completion and the phases of events |
| Detection.PacketBroadcasts | src/nd-detection.cpp:314-483 | for every state and answer the events of a packet: none while the protocol is unknown, those of an update when the flow is initialised or its metadata have changed, then DPI_COMPLETE when nothing more is wanted and it was not sent |
| Detection.UpdateLearns | src/nd-detection.cpp:1041-1102 | how often an update asks the soft dissectors, and what is known of the protocol afterwards |
| Detection.ConcludeBroadcasts | src/nd-detection.cpp:205-214 | a conclusion initialises the flow, guesses a protocol exactly if none is known, and broadcasts DPI_COMPLETE once if it was not sent |
| Detection.ConcludeStep | src/nd-detection.cpp:189-229 | the concluding branch ends complete and not expiring, expired if it was expiring, and faults exactly without packet and nDPI state |
| Detection.EntryKeepsInv | src/nd-detection.cpp:175-243 | every entry taken without interruption keeps: count at most a positive limit, complete at the limit, complete without nDPI state, counted and incomplete with it; and completion |
| Detection.EntryFaults | src/nd-detection.cpp:175-229 | an entry taken without interruption uses a missing nDPI state if and only if it is a notice for a completed flow that stands at the limit or is expiring and not expired |
| Detection.ExpiryConcludes | src/nd-detection.cpp:189-229 | an entry that sees a flow expiring leaves it expired, complete and without nDPI state |
| Detection.EntryBySteps | src/nd-detection.cpp:189-225 | the nine steps of the detection thread add up to the entry |
| DetectionRuns.RunPlaced | src/nd-capture.cpp:1182-1205 | in every run, of any threads, the detection thread that a flow names exists: the exception for a missing one is never thrown and every entry gets into a queue |
| DetectionRuns.PacketDropped | src/nd-capture.cpp:1177-1180 | a packet of a flow that is complete, expired or beyond the limit is dropped at the test that tells so, and changes nothing |
| DetectionRuns.ResetAlone | src/nd-capture.cpp:1165-1171 | the three writes of a reset, without interruption, are a full reset; they happen exactly for a complete flow |
| DetectionRuns.ExpiryAlone | src/nd-instance.cpp:2328-2347 | expiring a flow without interruption, in each of its five cases |
| DetectionRuns.RunSound | src/nd-detection.cpp:175-243 | every interleaving of the steps of detection threads, main thread and capture threads, resets included, in which all entries go to one detection thread keeps the invariant in its form for each point of the code |
| DetectionRuns.RunInvariant | src/nd-detection.cpp:175-243 | so with one capture thread or one detection thread, in every interleaving and for every limit: the counter stays within a positive limit, and between entries, unless a reset is halfway, counter, completion and nDPI state agree |
| DetectionRuns.StepFaults | src/nd-detection.cpp:209-214 | in any state a step uses a missing nDPI state if and only if it concludes an entry without one; in a state of such an interleaving that entry is a notice |
| DetectionRuns.CompletionStays | src/nd-flow.cpp:197-213 | in every interleaving without resets a complete flow stays complete, and with one detection thread per flow nothing but DPI_COMPLETE follows DPI_COMPLETE |
| DetectionRuns.ActQuiet | src/nd-instance.cpp:2328-2347 | with one detection thread per flow at most one notice is queued, and no entry leaves the flow so that it would meet it complete at the limit or still expiring, as long as nothing is reset and expiry and entries do not overlap |
| DetectionRuns.ApartNoFault | src/nd-instance.cpp:2328-2347 | with any limit but one, no resets, no expiry during an entry, and one capture thread or one detection thread, no run uses a missing nDPI state |
| DetectionRuns.UnexpiredNoFault | src/nd-detection.cpp:200-225 | with one capture thread or one detection thread no run without expiry uses a missing nDPI state, at any limit and with any resets |
| DetectionRuns.RunEndless | src/nd-detection.cpp:200-203 | with a limit above 255 and no expiry, no run of any threads concludes the flow or uses a missing nDPI state |
| DetectionFaults.FaultAtLimitOne | src/nd-detection.cpp:175-229 | a run that does, at a limit of one, without reset or overlap |
| DetectionFaults.FaultAtTheLimit | src/nd-instance.cpp:2331-2336 | a run that does, at every limit that can be reached, without reset: expiry between the count of the last packet and its conclusion |
| DetectionFaults.FaultBelowTheLimit | src/nd-instance.cpp:2329-2336 | a run that does below the limit, without reset: completion between the main thread's test and its mark |
| DetectionFaults.FaultAfterReset | src/nd-flow.cpp:197-213 | a run that does, at every limit from 2 to 255, after a reset, without overlap |
| DetectionFaults.FaultAtHalfReset | src/nd-capture.cpp:1165-1171 | a run that does, at every limit but one, without overlap: a packet is counted while a reset is halfway |
| DetectionFaults.TwoHomes | src/nd-capture.cpp:1182-1198 | two capture threads and two detection threads reach a state in which the flow's first two packets are queued to different ones |
| DetectionFaults.FaultByTwoThreads | src/nd-capture.cpp:1182-1198 | a run of two capture and two detection threads that uses a missing nDPI state, at every limit but one, without reset or overlap |
| DetectionFaults.FaultWithoutExpiry | src/nd-capture.cpp:1182-1198 | such a run without any expiry, at every limit that can be reached: one detection thread concludes and releases the flow that the other is about to conclude |
| DetectionFaults.CounterPasses | src/nd-detection.cpp:189-197 | a run of two detection threads that takes the counter beyond the limit, at every limit from 1 to 254: both test it before either increments it |
| DetectionFaults.CounterWithin | src/nd-detection.cpp:189-197 | for any limit and any threads no run takes the counter beyond the limit if and only if that is at least 255, or positive with one capture thread or one detection thread |
| DetectionFaults.FaultFree | src/nd-detection.cpp:175-229 | for any limit and any threads, with expiry, all runs are free of a missing nDPI state's use if and only if the limit is not one, there are no resets, expiry never overlaps an entry, and there is one capture thread or one detection thread |
| DetectionFaults.FaultFreeUnexpired | src/nd-detection.cpp:175-229 | without expiry and with a positive limit, all runs are free of it if and only if the limit is above 255 or there is one capture thread or one detection thread, resets or not |
| DetectionThread.Flow.Reset | src/nd-flow.cpp:197-213 | a full reset clears counter and flags, completion among them, but not the nDPI state, the known protocol and what was broadcast; a partial one touches none of them |
| DetectionThread.Flow.Release | src/nd-flow.cpp:215-220 | frees the nDPI state and nothing else |
| DetectionThread.DetectionThread.FlowUpdate | src/nd-detection.cpp:1041-1102 | on the flow object, the update of the state machine; ends although it and completion call each other |
| DetectionThread.DetectionThread.SetDetectionComplete | src/nd-detection.cpp:1029-1039 | on the flow object, the completion of the state machine |
| DetectionThread.DetectionThread.ProcessPacket | src/nd-detection.cpp:231-483 | on the flow object, the packet step of the state machine |
| DetectionThread.DetectionThread.ProcessEntry | src/nd-detection.cpp:175-229 | on the flow object, one entry of the state machine |
| DetectionThread.DetectionThread.ProcessPacketQueue | src/nd-detection.cpp:175-229 | the queue is drained; every flow has gone through its own entries, in order, whatever other flows' entries lay between |
| Conntrack.RunOwned | src/nd-conntrack.cpp:218-325 | every run keeps ownership: flows stored under their own digests, alive and different; none freed twice; stored, freed and lost objects add up to the allocated ones |
| Conntrack.NeverFreedTwice | src/nd-conntrack.cpp:218-325 | so it is after any events from the start |
| Conntrack.UpdateOwned | src/nd-conntrack.cpp:263-292 | an update, also one that moves the flow to another digest, keeps ownership |
| Conntrack.PurgeOwned | src/nd-conntrack.cpp:589-604 | a purge frees each expired object once |
| Conntrack.StepBijective | src/nd-conntrack.cpp:229-306 | from indexes in step an event keeps them in step if and only if it brings no digest or id of another connection |
| Conntrack.RunBijective | src/nd-conntrack.cpp:229-306 | with fresh events the two maps stay a bijection with matching ids, and no object is lost |
| Conntrack.PurgeExact | src/nd-conntrack.cpp:589-604 | a purge keeps exactly the unexpired flows and, of maps in step, exactly their ids |
| Conntrack.FlowAfter | src/nd-conntrack.cpp:218-325 | the flow stored under a digest after any event: its object, its id and the time of its last refresh |
| Conntrack.DigestAfter | src/nd-conntrack.cpp:218-325 | which digests are in use after any event |
| Conntrack.IdAfter | src/nd-conntrack.cpp:218-325 | the digest under an id after any event |
| Conntrack.StuckAfter | src/nd-conntrack.cpp:263-292 | only an update that throws at a stored connection loses the mutex, and then nothing changes any more |
| Conntrack.Survives | include/nd-conntrack.hpp:74-78 | a flow that an event has refreshed survives the purges of the next 900 seconds and no later one |
| Conntrack.ConntrackThread.ProcessNew | src/nd-conntrack.cpp:229-261 | on the maps and objects, the NEW step; a failed construction changes nothing |
| Conntrack.ConntrackThread.ProcessUpdate | src/nd-conntrack.cpp:263-292 | on the maps and objects, the UPDATE step; one that throws sets the time and keeps the mutex |
| Conntrack.ConntrackThread.ProcessDestroy | src/nd-conntrack.cpp:294-306 | on the maps and objects, the DESTROY step |
| Conntrack.ConntrackThread.PurgeFlows | src/nd-conntrack.cpp:589-604 | erasing while walking, in any order, is the purge step |
| Conntrack.PurgeOne | src/nd-conntrack.cpp:592-601 | one round of the walk erases the flow it passes exactly when it has expired |
| Base64.EncodeLength | src/nd-base64.cpp:34-40 | four characters for every three bytes begun |
| Base64.SymbolsMean | src/nd-base64.cpp:22-24 | the alphabet of section 4 of RFC 4648 in its order; decoding inverts it and knows two more symbols each for 62 and 63 |
| Base64.SixesMean | src/nd-base64.cpp:51-57 | the four groups of six bits make the number that the three bytes make |
| Base64.PadsMean | src/nd-base64.cpp:59-71 | the length, and one pad after a last group of two bytes, two after one byte, none after three |
| Base64.Vectors | src/nd-base64.cpp:34-74 | the first three test vectors of section 10 of RFC 4648 |
| Base64.Encode | src/nd-base64.cpp:34-74 | the output buffer is the encoding of the input, padded to full groups |
| Base64.Decode | src/nd-base64.cpp:85-110 | the loops over full groups and the rest decode every input group by group, a last group of one character with the byte beyond it |
| Base64.TripleMeans | src/nd-base64.cpp:85-98 | the bits of a full group's bytes, out of those of its symbols |
| Base64.TailMeans | src/nd-base64.cpp:99-110 | the bytes of a last group, also of a single character, with the byte beyond it |
| Base64.TripleOfQuad | src/nd-base64.cpp:76-110 | a full group gives its three bytes back, in either alphabet |
| Base64.TailOfQuad | src/nd-base64.cpp:76-110 | a last group gives its one or two bytes back, padded or not |
| Base64.RoundTrip | src/nd-base64.cpp:34-110 | decoding gives every byte string back, also with pads stripped and with the symbols of the alphabet safe in URLs (section 5.2 of RFC 1341, sections 4 and 5 of RFC 4648) |
| PacketRing.FillInv | src/nd-capture-tpv3.cpp:405-411 | a kernel that fills its own blocks in cyclic order touches no block of the thread's and extends the interval of pending blocks |
| PacketRing.ReleaseInv | src/nd-capture-tpv3.cpp:64-66 | giving a block back shortens the interval at its oldest end |
| PacketRing.StepInv | src/nd-capture-tpv3.cpp:478-490 | every step of kernel and thread keeps interval, contents and progress |
| PacketRing.ReadsInOrder | src/nd-capture-tpv3.cpp:618-665 | in every run, for any ring size, what was read begins what was filled: each block once, in order, whole when given back |
| PacketRing.UserInterval | src/nd-capture-tpv3.cpp:478-490 | in every run the user's blocks are the cyclic interval at the iterator, a block being consumed just before it |
| PacketRing.NothingOverlooked | src/nd-capture-tpv3.cpp:478-490 | the thread finds a block if and only if one is pending, and the kernel is stopped if and only if the ring is full |
| PacketRing.RoundConsumes | src/nd-capture-tpv3.cpp:618-665 | one round of the loop consumes the oldest pending block and changes nothing else |
| PacketRing.Drained | src/nd-capture-tpv3.cpp:618-665 | when the kernel pauses, as many rounds as there are pending blocks read all that was ever filled |
| PacketRing.RingBlock.ProcessPackets | src/nd-capture-tpv3.cpp:132-159 | the packets on the block's chain of offsets, in order, without those dropped by the filter; the number dropped |
| PacketRing.ChainMeans | src/nd-capture-tpv3.cpp:132-159 | the packets of a block are those at offsets of which each is as far behind the one before as its entry says |
| PacketRing.KeptMeans | src/nd-capture-tpv3.cpp:140-150 | all copies of a packet are kept, or none if the filter drops it |
| PacketRing.RingBlock.Release | src/nd-capture-tpv3.cpp:64-66 | the status becomes the kernel's, the rest stays |
| PacketRing.Ring.Next | src/nd-capture-tpv3.cpp:478-490 | the iterator's block if one is pending, and then the iterator one further round the ring |
| PacketRing.Ring.Consume | src/nd-capture-tpv3.cpp:618-665 | on the objects, one round of the loop; the queue holds what the filter leaves of the batch filled earliest |
| VlanTags.MoveDown | src/nd-capture-tpv3.cpp:533-534 | an overlapping move to lower addresses copies the old bytes |
| VlanTags.CopyPacket | src/nd-capture-tpv3.cpp:492-569 | the packet is the frame with its tag between addresses and type, or nothing if the filter drops it; the ring's memory changes only where the tag and the addresses go |
| VlanTags.TagRestored | src/nd-capture-tpv3.cpp:532-543 | the two writes in place amount to the tag inserted after twelve bytes |
| VlanTags.RestoredBytes | src/nd-capture-tpv3.cpp:521-549 | the restored frame byte by byte, with protocol and control information in network byte order, and when there is a tag |
| VlanTags.WalkTags | src/nd-capture.cpp:420-444 | the loop over tags is the walk, with the flow's earlier VLAN id where there is no tag, and a discard counted for every tag beyond the captured bytes |
| VlanTags.WalkMeans | src/nd-capture.cpp:411-444 | what any walk's result says: truncated below fourteen captured bytes; the number of discards by the lengths alone; the earlier VLAN id exactly without a tag |
| VlanTags.FrameBytes | src/nd-capture.cpp:420-444 | the frames of the next statement byte by byte |
| VlanTags.RestoredWalk | src/nd-capture.cpp:420-444 | the walk over a restored frame finds the kernel's VLAN id, then all that the walk over the stripped frame finds, if the tag is 802.1Q; otherwise it ends at the tag |
| VlanTags.WalkReadsTags | src/nd-capture.cpp:420-444 | any stack of 802.1Q tags is read off; the innermost id stays |
| VlanTags.StripRestore | src/nd-capture-tpv3.cpp:521-549 | what the kernel strips off a tagged frame is put back |
| Domains.Applications.AddDomain | src/nd-apps.cpp:442-447 | a known domain keeps its id; a domain without a dot enters the index of last labels |
| Domains.Applications.Reset | src/nd-apps.cpp:405-409 | the domains go, the index of last labels stays and stays sufficient |
| Domains.RunIndexed | src/nd-apps.cpp:442-447 | after any additions and resets every known domain without a dot is in the index |
| Domains.KnownByHistory | src/nd-apps.cpp:442-447 | a domain is known if and only if it was added since the last reset, and its first addition since then decides its id |
| Domains.Applications.FindOne | src/nd-apps.cpp:270-284 | the id of the longest suffix of whole labels that is known, if there is one; the early exit loses none |
| Domains.Applications.Find | src/nd-apps.cpp:255-287 | none for an empty name; the name's answer if no transform yields anything; else that of the first transform with one, of those that yield something |
| Domains.AnswerUnique | src/nd-apps.cpp:255-287 | that answer is unique |

## Left out

- Plugin callbacks, which run while a bucket is locked, and exceptions under a lock (out of memory, `EINVAL`).
- CaptureProtocol: `lock()` is granted in some order; fairness and the time a thread waits are not modelled. A step is one access between two scheduling points; the atomic flow counter is an unbounded number.
- FlowLimitReached: for limits and bucket counts below 2^32, because the run that reaches the bound numbers its digests with 32 bits.
- FlowIdentity.Flow.OrderEnds: Ethernet frames only; other link types leave the MAC addresses alone. SYN, ICMP and the walk over IPv6 extension headers are not modelled.
- FlowIdentity.Flow.Hash: the variant with `hash_mdata`, which appends metadata, is not modelled.
- VLAN ids kept from earlier packets (`vlan_id` is only set at src/nd-capture.cpp:438) count as part of a packet in the statements on identity.
- FlowHashCache.Cache.Load: opening, reading and replacing the file are not modelled, and keys have twenty bytes.
- FlowHashCache.Cache.constructor: the purge divisor is positive; the configuration also accepts zero, with which the push onto a full cache divides by zero.
- FlowHashCache.RunGrows: up to 2^32 entries, because the pushed keys are numbered with 32 bits.
- `RemoveAddress`: its guard at src/nd-addr.cpp:548 tests for an empty interface name twice, so that IPv4 interface addresses are never removed.
- AddrTypes.AddrType.ClassifyIp: interface tables are visited in any order; the source's order is that of an unordered map. The radix tree is a map with longest match.
- The textual form of addresses, of which only the extraction of words is modelled.
- FlowParsing.FlowParser.YyParse: the lexer, the field tests and flex tables are taken as tokens with a value. The atoms `risks ==` and `risks !=`, whose actions never set a value, are excluded. Error recovery is not reached, since `yyerror` throws; a syntax error and an exhausted stack have one outcome. How many states a field test stacks up is a number of at least one that its token carries.
- DetectionRuns.RunSound: a detection thread can be interrupted at the points between its nine steps, the main thread and the capture threads at every flag that they test or set on their own; ProcessPacket, SetDetectionComplete and the clearing of the flags of a reset are one step each. So what two detection threads do to each other inside such a step, a second release of the nDPI state among it, is not modelled; what is proved of all runs of two is only what does not depend on it. Names, risks and metadata are left out but for what steers the flags.
- DetectionRuns.RunInvariant: stated for one capture thread or one detection thread; `CounterWithin` and `FaultFree` say what fails beyond. "Capture threads" are those whose flows share digests, the instances of one interface's fan-out.
- A capture thread's own counter of detection threads (src/nd-capture.cpp:228, 1184) is an arbitrary choice at each assignment. Where a fault needs two detection threads, the two counters differ.
- DetectionFaults.FaultFreeUnexpired: a limit of zero, which a counter that has counted meets only by a reset or by wrapping round, is left out there; for one detection thread `UnexpiredNoFault` covers it.
- DetectionThread.DetectionThread.ProcessFlow: of its effects only the use of the nDPI state and the flag are modelled.
- Conntrack.ConntrackThread.PurgeFlows: stated for states reached by runs, in which no two stored objects are the same; the clock is one number per purge.
- Base64.Encode: output lengths are unbounded.
- PacketRing: what the kernel does is an assumption: it fills blocks it owns in cyclic order, with chains that stay on packets. Filtered packets still count as read. `select`, statistics other than the number filtered, and an exception in the packet handler are not modelled.
- VlanTags.CopyPacket: the filter is any predicate on bytes and length; lengths do not wrap at 2^32; a failed allocation is not modelled.
- VlanTags.WalkTags: the model stops where no memory can be read. MPLS, PPPoE and the test for STP are left out.
- Domains.Applications.Find: regular expressions are not modelled; what the transforms yield is a parameter.
- Sockets, netlink, select loops, logging, serialisation, configuration, statistics and sample rates.
