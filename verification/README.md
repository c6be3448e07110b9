# Devourer: verified models of its hash table, its flow tracker, its DNS module and its option parser

Devourer watches packets. It keeps flows, DNS queries and resolved names in `LRUHash`, a timing wheel fused with a
chained hash table over shared nodes. This project models that structure, the two modules built on it, and the
command-line option parser, in Dafny, and proves what they promise over whole runs.

Check everything with `dafny verify dfyconfig.toml`.

## How it is arranged

Each stateful component has three layers.

1. A state machine over values: what one call does to the abstract state.
2. Laws: theorems about that machine over every run.
3. Classes: the pointer-level code, whose methods are proved to step that machine. Each class holds the machine's state
   in a ghost field and `Valid()` ties it to the real fields, so a law about runs is a law about the program:
   `Sessions.Session` runs both modules from construction to shutdown and ends where the machines end.

| file | contents |
|---|---|
| TimingWheel.dfy | the abstract state of an LRUHash, its operations slot by slot, and their meaning on an absolute time line |
| LruHash.dfy | `Node` and `LRUHash`: the pointer surgery, proved against TimingWheel |
| FlowModel.dfy | the flow tracker as a state machine |
| FlowLaws.dfy, FlowLives.dfy, FlowLeases.dfy | conservation; the life of a flow and its messages; leases |
| Flows.dfy | `Flow` and `ModFlow`, proved against FlowModel |
| DnsModel.dfy | the DNS module as a state machine |
| DnsLeases.dfy, DnsNames.dfy | matching and the caches as a timestamped machine; the CNAME graph |
| DnsLifetimes.dfy | one query, its response and what it told, in plain numbers |
| DnsAccounts.dfy, DnsTimeouts.dfy | query accounting; which queries time out, told from the packets alone |
| DnsTables.dfy, DnsModule.dfy | the three tables and `ModDns`, proved against DnsModel |
| Sessions.dfy | both modules fed a stream of events and shut down |
| OptModel.dfy, OptLaws.dfy, OptMeaning.dfy, OptParser.dfy | how tokens are parsed; rewriting them; what a command line means; the consuming loop |
| Basics.dfy | shared small types |

In the abstract wheel the live list is newest first and every item carries its absolute deadline and a serial number
(how many items were put before it). The bucket lists and slot chains of the program are sublists of that one list,
which is how the two indexes are shown to agree (`IndexesAgree`).

## Conventions

- Ticks, counters and lengths are unbounded integers; times are whole seconds or whole microseconds.
- A node's virtual `hash` and `match` are a stored hash and equality with a stored key: all four node classes compare
  key bytes for equality and never change them. A node carries its subclass object (`Flow`, `Query`) as `item`.
- `detach` and the other list operations take the chains they work on as ghost arguments.
- Emitted messages are appended to a `log` field. Deleting an object is its node leaving the table.
- Methods that the source writes as one long body are split at their comments; loop tests that assign are written as a
  round that reports whether there was anything to do.
- Packet times carry no precondition: `recv` is modelled on any clock. Laws that need a clock that does not go back, or
  not far, say so (`Monotone`, `Within`). That no flow is lost holds exactly for clocks less than 3000 seconds behind
  the latest time and never at second 0: `NoFlowLostIff`, with the losing inputs in `ClockBackLosesFlow` and
  `ZeroTimeLosesFlow`. That the DNS module reports what its simple machine does holds exactly for positive times that
  never go back: `ReportsAgreeIff`, with `ClockBackForgetsQuery` and `ZeroTimeKeepsQuery`.
- Packet direction is left-to-right or right-to-left.
- The `Query` constructor leaves `has_reply_` unset (src/modules/dns.cc:49); `fill` is the value it happens to have.
- The code and its comments differ in one place worth knowing: the comment in flow.cc says a flow is put back "if it
  updated", but the new lease is only as long as the flow was active in the old one, so leases shrink.
- An unset reply flag, a name that names itself, a long option hidden by a longer name and "--=value" are inputs on which
  the code does not do what a reader would expect. Each has its input (`FilledQueryUnreported`, `SelfAnswerCycles`,
  `HiddenByLongerName`, `EmptyNameDiffers`) and the exact condition (`EveryTimeoutIff`, `AcyclicUnlessSelfNaming`,
  `FullNameResolves`, `EqualsValue`).

The machines that the laws compare the modules with (`RefStep`, `Unresponded`, `Past`, `AdvanceSettles`, `Announces`,
`Does`, `Written`) are written in plain numbers and fields and share no function or constant with the models, so that a wrong
constant or a swapped field in a model has a law that fails.

## Model

| member | source | states |
|---|---|---|
| TimingWheel.SlotIsOneTick | src/lru-hash.cc:47-59 | within one turn of the wheel, two ticks share a slot only if they are the same tick |
| TimingWheel.ProgExact | src/lru-hash.cc:57-69 | for any step, also one of several turns, what is due later stays live in order and the rest is stacked up batch by batch, latest deadline on top |
| TimingWheel.ExpiresInThatProg | src/lru-hash.cc:57-69 | an item leaves in exactly the `prog` call that passes its deadline, and is then on the expired stack |
| TimingWheel.LiveExactlyUntilDue | src/lru-hash.cc:39-72 | over every run of put, prog and pop: an item is live exactly while the tick has not passed its deadline, and otherwise expired or popped |
| TimingWheel.LiveIsUnexpiredPast | src/lru-hash.cc:39-80 | over every run of a new wheel, with purges: what is live is exactly what was put since the last purge and is not past its deadline, newest first |
| TimingWheel.GoneStaysGone | src/lru-hash.cc:57-72 | what has expired never becomes live again |
| TimingWheel.ProgKeepsInv | src/lru-hash.cc:57-69 | every resident's deadline stays in the window of one turn from the current tick, newest first |
| TimingWheel.RunKeepsInv | src/lru-hash.cc:39-80 | the same over every run of all four operations |
| TimingWheel.ProgKeepsOrder | src/lru-hash.cc:57-72 | the expired stack stays sorted by falling deadline, equal deadlines in put order |
| TimingWheel.RunOrdered | src/lru-hash.cc:57-72 | the same at every point of every run of a new wheel without purge |
| TimingWheel.ProgAdd | src/lru-hash.cc:57-69 | advancing by a and then by b is advancing by a+b: same residents, same expired order, same tick |
| TimingWheel.RunAccounted | src/lru-hash.cc:39-80 | over every run of a new wheel each item ever put is in exactly one of: live, expired, popped |
| TimingWheel.PurgeExpiresAll | src/lru-hash.cc:73-80 | purge leaves nothing live and loses nothing |
| TimingWheel.PurgeAndDrain | src/lru-hash.cc:70-80 | however a new wheel has been used, purge and popping until empty hand out what was not popped before, so each item ever put is handed out exactly once |
| TimingWheel.ExpireNewestFirst | src/lru-hash.cc:61-66 | popping a slot's nodes one by one and stacking them is moving the slot as a whole |
| TimingWheel.MapCommutes | src/lru-hash.cc:39-80 | timing does not depend on what the nodes carry |
| LruHash.Node.Attach | src/lru-hash.cc:118-128 | the node becomes the head of an acyclic list whose prev pointers invert its next pointers |
| LruHash.Node.Detach | src/lru-hash.cc:129-139 | a node anywhere in a list is taken out and the rest stays threaded both ways |
| LruHash.Node.PushLink | src/lru-hash.cc:140-144 | the chain grows by the node in front, whatever its stale link was |
| LruHash.Node.PopLink | src/lru-hash.cc:145-152 | returns the first node, or null for an empty chain, and leaves the rest |
| LruHash.Node.Search | src/lru-hash.cc:159-167 | returns the first node of the list with this hash and key, or null |
| LruHash.PushOn | src/lru-hash.cc:88-90 | pushing on one chain leaves all other chains as they are and all chains disjoint |
| LruHash.PopFrom | src/lru-hash.cc:92-94 | popping from one chain leaves all other chains as they are |
| LruHash.AttachTo | src/lru-hash.cc:103-105 | attaching to one bucket leaves the other buckets as they are |
| LruHash.DetachFrom | src/lru-hash.cc:129-139 | detaching a node leaves the other buckets as they are |
| LruHash.MatchInBucket | src/lru-hash.cc:52-55 | for every number of buckets, searching one bucket finds what a scan of everything live finds |
| LruHash.MatchIsNewest | src/lru-hash.cc:118-167 | that is the match put last, and if there is none nothing live matches |
| LruHash.FoundIsNewestUnexpired | src/lru-hash.cc:39-80 | over every run of a new table a lookup finds the node put last, since any purge, that matches and is not past its deadline, and nothing if there is none |
| LruHash.PutLinkChains | src/lru-hash.cc:47-48 | a put lengthens one slot chain at its head and no other |
| LruHash.PutBucketChains | src/lru-hash.cc:44-45 | and one bucket list at its head and no other |
| LruHash.ExpireLinkChains | src/lru-hash.cc:62-64 | expiring the newest node of a slot shortens that chain and lengthens the expired chain by the same node |
| LruHash.ExpireBucketChains | src/lru-hash.cc:63 | and takes that node, and nothing else, out of its bucket |
| LruHash.LRUHash.IndexesAgree | src/lru-hash.cc:39-80 | in every state of a table, the nodes on the slot chains are exactly those in the bucket lists |
| LruHash.LRUHash.OnExactlyOneChain | src/lru-hash.cc:39-80 | in every state of a table, the nodes put and not yet popped are those on a link chain, each on exactly one slot or expired chain, and no node is in two buckets |
| LruHash.LRUHash.constructor | src/lru-hash.cc:31-36 | an empty table, with 1031 buckets if none are asked for |
| LruHash.LRUHash.Get | src/lru-hash.cc:52-55 | the newest live node with this hash and key, or null |
| LruHash.LRUHash.Put | src/lru-hash.cc:39-51 | refuses a tick beyond the wheel and then changes nothing; otherwise the node is live, newest, and the heap stays whole |
| LruHash.LRUHash.ExpireNewest | src/lru-hash.cc:61-65 | one round of the expiry loop moves one node between three chains and keeps the heap whole |
| LruHash.LRUHash.DrainSlot | src/lru-hash.cc:62-65 | the inner loop empties its slot and ends |
| LruHash.LRUHash.Prog | src/lru-hash.cc:57-69 | the pointer code advances the abstract wheel by any number of ticks and keeps the heap whole |
| LruHash.LRUHash.Purge | src/lru-hash.cc:73-80 | the pointer code expires every slot and keeps the heap whole |
| LruHash.LRUHash.Pop | src/lru-hash.cc:70-72 | returns the top of the expired chain, and its node is no longer the table's |
| FlowLaws.TrafficConserved | src/modules/flow.cc:72-160 | on any clock, any measure of the packets summed over all flows ever is that measure of the packets received |
| FlowLaws.PacketsPartitioned | src/modules/flow.cc:107-151 | each packet received is accounted to exactly one flow, as often as it was received |
| FlowLaws.CountersConserved | src/modules/flow.cc:237-246 | packet and byte counters over live, logged and lost flows add up to what was received |
| FlowLaws.UpdateMapExact | src/modules/flow.cc:153-158 | after every stream the byte map holds for each hash the bytes of all flows ever created with it |
| FlowLives.RunFaithful | src/modules/flow.cc:182-246 | after every stream every flow carries the totals of its own packets per direction, and the time and direction of the first |
| FlowLives.RunKeepsAll | src/modules/flow.cc:72-160 | any property of flows that updates and renewals keep, and that all flows start with, holds of every flow of every run |
| FlowLives.LogCountsByDirection | src/modules/flow.cc:248-292 | in every flow.log message of every run the client is the sender of the flow's first packet, by address, port and name, the names being what its ends resolved to as it arrived; the message is of the time of that packet; c_* are the totals in its direction, s_* those of the other, and c_pkt is at least 1 |
| FlowLives.RunLogExact | src/modules/flow.cc:86-149 | after every stream flow.log messages are those of the flows deleted, in order; flow.new messages announce the flows created, in order, with every field of the arrival that created each |
| FlowLives.NewsTell | src/modules/flow.cc:113-149 | the i-th flow.new message of every run tells of the IP arrival of the stream that created the i-th flow: its time, addresses, hash, protocol, names if known, and ports if it has them |
| FlowLives.AdvanceSettles | src/modules/flow.cc:79-104 | when the clock moves on, of the flows whose lease is over the ones not seen since their refresh are logged and deleted, latest deadline first; the others are refreshed and due again after as long as they were active, or lost if that is a turn of the wheel; the rest stay as they are |
| FlowLives.RunOneFlow | src/modules/flow.cc:86-149 | after every stream no two live flows share hash and label, and nothing waits on the expired chain |
| FlowLives.NewEqualsLoggedPlusLive | src/modules/flow.cc:98-149 | flow.new messages = flow.log messages + live flows + lost flows |
| FlowLives.TrafficReported | src/modules/flow.cc:86-159 | after every stream, on any clock: packets and bytes told by the flow.log messages, of the live flows and of the lost ones add up to what was received |
| FlowLeases.RenewalNeverLonger | src/modules/flow.cc:89-94 | a renewed lease is exactly the time the flow was active in its lease and at most the lease before it, hence at most 600 plus the skew of the clock, so the wheel takes it |
| FlowLeases.NoFlowLost | src/modules/flow.cc:79-104 | with positive times that never decrease, no flow is ever refused by `put` and lost, and no lease exceeds 600 |
| FlowLeases.SmallSkewKeepsFlows | src/modules/flow.cc:79-104 | the same on any clock with positive times fewer than 3000 seconds behind the latest |
| FlowLeases.NoFlowLostIff | src/modules/flow.cc:79-104 | for every lower bound on times and every bound on how far they go back: no stream within the bounds loses a flow if and only if the first is positive and the second below 3000 |
| FlowLeases.NoEarlyRebirth | src/modules/flow.cc:113-149 | no (hash, label) is created, hence announced, again within 600 seconds, less the skew of the clock |
| FlowLeases.FlowsAccountedFor | src/modules/flow.cc:72-160 | from the start on such a clock: every flow announced is live or logged, one per key, announcements spaced |
| FlowLeases.NothingUnreported | src/modules/flow.cc:86-159 | on such a clock: packets and bytes told by the flow.log messages and of the live flows are all that was received |
| FlowLeases.ClockBackLosesFlow | src/modules/flow.cc:79-104 | for every skew of 3000 seconds or more, the stream within it that makes the wheel refuse a renewal and lose the flow |
| FlowLeases.ZeroTimeLosesFlow | src/modules/flow.cc:79-104 | the stream of times that never decrease that loses a flow because it starts at second 0, taken for no packet yet |
| Flows.Flow.constructor | src/modules/flow.cc:182-231 | a new flow from its first packet, ends placed by direction |
| Flows.Flow.Update | src/modules/flow.cc:237-246 | counts the packet in its direction only and moves the time of last activity |
| Flows.Flow.Remain | src/modules/flow.hpp:74-80 | 0 unless a packet came after the last refresh, and else how long after it the last one came |
| Flows.Flow.BuildMessage | src/modules/flow.cc:248-292 | the client is the sender of the flow's first packet, with the totals of the packets in its direction; the server has those of the other; times are those of the first and last packet |
| Flows.ModFlow.Settle | src/modules/flow.cc:89-103 | a popped flow is put back for what remains and refreshed in place, or reported and left out; no other flow changes |
| Flows.FindSeen | src/modules/flow.cc:111-112 | the table lookup by hash and label finds the newest flow of that key |
| Flows.ModFlow.DrainOne | src/modules/flow.cc:89-103 | one round of the drain loop renews or logs and deletes the top expired flow |
| Flows.ModFlow.DrainAll | src/modules/flow.cc:88-103 | the drain loop ends: what it puts back does not return to the chain it empties |
| Flows.ModFlow.Advance | src/modules/flow.cc:79-104 | the clock half of `recv`, on any clock |
| Flows.ModFlow.Recv | src/modules/flow.cc:72-160 | the heap code handles a packet as the state machine does, a new flow's ends named by the DNS module with its default of 32 hops |
| Flows.ModFlow.Close | src/modules/flow.cc:56-63 | the destructor's loop ends with an empty table and reports nothing |
| DnsLeases.LookupAgrees | src/modules/dns.cc:223-224 | a live record is found exactly when the timestamped map has a fresh entry, with the same value |
| DnsLeases.ProgMirrors | src/modules/dns.cc:213-219 | time passing ages table and map alike |
| DnsLeases.PutMirrors | src/modules/dns.cc:229-239 | recording an absent key is recording it in the map at this second |
| DnsLeases.AnswersAgree | src/modules/dns.cc:264-291 | filing the answers of a response is filing each address that is not fresh, in order |
| DnsLeases.AnswersList | src/modules/dns.cc:292-308 | and each canonical name whose owner is not itself a fresh alias |
| DnsLeases.ProgLists | src/modules/dns.cc:213-219 | a canonical name lives exactly 600 seconds from its filing |
| DnsLeases.ChaseAgrees | src/modules/dns.cc:336-347 | following the table's records is following the newest fresh aliases |
| DnsLeases.AnswersLogged | src/modules/dns.cc:264-272 | one dns.log message for each answer, whatever its type |
| DnsLeases.StepAgrees | src/modules/dns.cc:203-322 | one packet takes the module and the simple timestamped machine the same way |
| DnsLeases.RunAgrees | src/modules/dns.cc:203-322 | so does every stream whose seconds never decrease |
| DnsLeases.MatchesTimestampedMaps | src/modules/dns.cc:203-357 | from the start: the messages are those of the simple machine, that is, success exactly when a query with that flow hash and transaction id was recorded at most 120 s before and miss otherwise; an address (answers of type 1 and 28) is known exactly while its first name is at most 600 s old, and resolves along the newest aliases (type 5) at most 600 s old |
| DnsLeases.ResolveAgrees | src/modules/dns.cc:325-357 | resolving an address is resolving it in the simple machine |
| DnsLeases.ReportsAgreeIff | src/modules/dns.cc:211-261 | for every lower bound on times and every bound on how far they go back: the module reports what the simple machine does on every stream within the bounds if and only if the first is positive and the second 0 |
| DnsLeases.ZeroTimeKeepsQuery | src/modules/dns.cc:211-219 | the stream starting at second 0 whose query is matched 200 s later |
| DnsLeases.ClockBackForgetsQuery | src/modules/dns.cc:211-219 | the stream going back one second whose query is missed 120 s later |
| DnsLifetimes.ResponseMatches | src/modules/dns.cc:223-260 | the message about a response is the success of the query, with the time between them, if both have one flow hash and one transaction id and it comes within 120 s, and else a miss |
| DnsLifetimes.AnswersReported | src/modules/dns.cc:263-272 | each answer of a matched response has its message, in order, of the second of the query |
| DnsLifetimes.AnswerLifetime | src/modules/dns.cc:275-308 | an answer of type 1 or 28 names its address, and one of type 5 leads from its text to its name, through 600 s after the response and not 601 |
| DnsLifetimes.NothingElseFiled | src/modules/dns.cc:275-308 | answers of other types file nothing |
| DnsLeases.FirstNameStays | src/modules/dns.cc:275-291 | no packet within 600 s changes the name or the time recorded for an address |
| DnsLeases.LatencyInTime | src/modules/dns.cc:248-260 | in the simple machine every latency lies in [0, 121) seconds when full-precision times never decrease |
| DnsLeases.ReportedLatencies | src/modules/dns.cc:248-260 | so does every latency the module reports |
| DnsNames.RunGuarded | src/modules/dns.cc:292-307 | after every mix of inserts and expiries, on any clock, no older CNAME record continues a newer one |
| DnsNames.WalksGetNewer | src/modules/dns.cc:292-307 | every walk along live CNAME records goes to records put later, or stays on one that names itself |
| DnsNames.AcyclicUnlessSelfNaming | src/modules/dns.cc:292-307 | CNAME records so guarded have a cycle if and only if one of them names itself |
| DnsNames.RunCyclicIffSelfNaming | src/modules/dns.cc:292-307 | after every run, on any clock, the live CNAME records have a cycle if and only if one of them names itself |
| DnsNames.NeverCyclic | src/modules/dns.cc:162-165 | if no answer names itself they never have one |
| DnsNames.SelfAnswerCycles | src/modules/dns.cc:292-307 | the query and response, for any name, after which it is its own canonical name |
| DnsNames.ChaseEnds | src/modules/dns.cc:336-347 | with as many hops as live records, resolution stops at a name with no live record |
| DnsNames.ChaseAdd | src/modules/dns.cc:336-347 | resolving in two goes is resolving in one |
| DnsNames.ResolutionComplete | src/modules/dns.cc:325-357 | after every run without self-naming answers, an address resolves to the end of its chain |
| DnsAccounts.RunKeepsAll | src/modules/dns.cc:211-243 | after every run every query ever made is in the table exactly once, live or expired, and its flag is set exactly if it had a response (or was filled) |
| DnsAccounts.CloseReportsUnanswered | src/modules/dns.cc:179-200 | shutdown visits each query exactly once and reports exactly those whose flag is still unset |
| DnsAccounts.TimeoutsCompleteUnlessFilled | src/modules/dns.cc:49-52 | every query without a response is reported if and only if none of those had its unset flag filled with true |
| DnsAccounts.FilledQueryUnreported | src/modules/dns.cc:49 | the input on which an unanswered query goes unreported |
| DnsTimeouts.StepBalances | src/modules/dns.cc:203-261 | each packet keeps the account: what shutdown will report is what it would have reported and the query the packet adds, unless a later packet answers it within 120 s |
| DnsTimeouts.TimeoutsAreUnresponded | src/modules/dns.cc:179-261 | on a clock that does not go back, the timeouts reported at shutdown are, as a multiset, those of the queries recorded and not answered within 120 s by any later packet, except the filled ones |
| DnsTimeouts.EveryTimeoutIff | src/modules/dns.cc:49-52 | they are all of them if and only if none of those queries had its unset flag filled with true |
| DnsTables.FindMapped | src/modules/dns.cc:282-300 | since equal keys have equal hashes, a lookup by hash and key is a lookup by key |
| DnsTables.Cache.Find | src/modules/dns.cc:282-300 | the newest live record of a key |
| DnsTables.Cache.Add | src/modules/dns.cc:288-306 | files a record for a time to live |
| DnsTables.QueryTable.Find | src/modules/dns.cc:223-224 | the newest live query of a (flow hash, id) |
| DnsTables.QueryTable.SetReply | src/modules/dns.cc:261 | marks one query in place; deadlines and all other queries stay |
| DnsTables.QueryTable.PopExpired | src/modules/dns.cc:185-198 | takes the top expired query out of the table |
| DnsModule.ModDns.Progress | src/modules/dns.cc:211-221 | all three tables move by the seconds passed; a clock set back moves nothing but is remembered |
| DnsModule.ModDns.FileAnswer | src/modules/dns.cc:263-308 | logs an answer and files addresses and canonical names unless the guard finds one |
| DnsModule.ModDns.Recv | src/modules/dns.cc:203-322 | the heap code handles a packet as the state machine does |
| DnsModule.ModDns.ResolvAddr | src/modules/dns.cc:325-357 | the name reached from the address record by following live CNAME records, at most recur_max of them; empty if the address is unknown |
| DnsModule.ModDns.FlushQuery | src/modules/dns.cc:183-200 | the flush loop ends and reports each expired query without a reply |
| DnsModule.ModDns.Close | src/modules/dns.cc:179-182 | the destructor's purge and flush |
| OptLaws.PrefixFindsFullName | apps/optparse.cc:226-242 | a unique prefix finds the option that its full name finds |
| OptLaws.FullNameResolves | apps/optparse.cc:226-242 | a full name finds its option if and only if no other option's name starts with it; otherwise it is ambiguous |
| OptLaws.HiddenByLongerName | apps/optparse.cc:226-242 | with options "ver" and "version" the first cannot be named: every prefix of it and its full name are ambiguous |
| OptLaws.NormalParsesSame | apps/optparse.cc:290-314 | for every configuration, spelling out a whole command line changes neither values, nor leftovers, nor why the program ends |
| OptLaws.NormalIsNormal | apps/optparse.cc:204-268 | a spelled-out command line spelled out is itself |
| OptLaws.BundleSplits | apps/optparse.cc:218-221 | "-abc" spelled out is "-a" "-b" "-c" |
| OptLaws.AttachedValue | apps/optparse.cc:210-217 | "-ovalue" parses as "-o" "value" |
| OptLaws.EqualsValue | apps/optparse.cc:248-268 | "--opt=value" parses as "--opt" "value" for an option that takes a value, also when that is an error, if and only if there is a name before the "=" |
| OptModel.ProcessDoes | apps/optparse.cc:331-372 | each action gives its destination the value it should, and no other: store the accepted value, store_true "1", store_false "0", store_const the constant; append and append_const also lengthen its list, count advances it; a rejected value, help and version end the program with nothing changed |
| OptModel.DefaultsFill | apps/optparse.cc:316-326 | a default is used only where no value was given, the parser's before those of its options, and of those the first |
| OptMeaning.CommandLineMeans | apps/optparse.cc:290-314 | a command line of any flags, options with values and plain arguments, by letter or full name, then "--" and anything: the options take effect in order, the plain arguments and what follows "--" are left over in order |
| OptMeaning.PlainFirst | apps/optparse.cc:302-307 | a plain argument is left over, and without interspersed arguments everything after it too |
| OptMeaning.NothingLeft | apps/optparse.cc:310-328 | when the tokens are used up, the leftovers stand and defaults fill what has no value |
| OptMeaning.LetterRefused | apps/optparse.cc:197-216 | an unknown letter and a missing value end the program |
| OptMeaning.NameRefused | apps/optparse.cc:226-266 | an unknown name, an ambiguous one and a missing or empty value end the program |
| OptModel.TakeShrinks | apps/optparse.cc:204-224 | taking an option lowers the sum of (length + 1) of the tokens although a token may be pushed back |
| OptParser.OptionParser.LookupLongOpt | apps/optparse.cc:226-242 | the only long option with this prefix, or ambiguous, or none |
| OptParser.OptionParser.ProcessOpt | apps/optparse.cc:331-372 | does to the values in place what the action should, destination by destination |
| OptParser.OptionParser.HandleShortOpt | apps/optparse.cc:204-224 | takes one short option, its value, or pushes the rest of the bundle back |
| OptParser.OptionParser.HandleLongOpt | apps/optparse.cc:244-268 | takes one long option with an attached or following value |
| OptParser.OptionParser.ApplyDefaults | apps/optparse.cc:316-326 | fills in defaults in place, only where there is no value |
| OptParser.OptionParser.ParseArgs | apps/optparse.cc:276-329 | the loop ends and yields the meaning of the token list |
| Sessions.DeliverAll | src/devourer.cc:92-105 | the heap code of both modules, fed any interleaving of their events, ends where the two state machines end, each new flow named by what the DNS module knew at that moment |
| Sessions.Session | src/devourer.cc:38-58 | a whole session from construction to shutdown yields the messages and the byte map of the two machines |
| Sessions.SessionReports | src/modules/dns.cc:179-320 | on a DNS clock that does not go back, its DNS messages are those of the simple machine followed by a timeout for each unanswered query |
| Sessions.NamesAgree | src/modules/flow.cc:113-121 | on a DNS clock that does not go back, every packet of the flow module is named as the simple machine names its ends at that moment |
| Sessions.SessionFlows | src/modules/flow.cc:72-160 | on such a DNS clock and a flow clock less than 3000 s behind: no flow is lost, announcements of a key are spaced, all bytes received are in a message or a live flow, and the names in each flow.log message are those the simple machine gave the flow's first packet |

## Left out

- Capture, event registration and periodic tasks, which do nothing (src/devourer.cc, src/module.hpp, src/modules/local.cc, apps/cli.cc): input and output; `Sessions` takes the events as given.
- Memory release.
- Packets with neither direction, which the source asserts never start a flow that is logged.
- Wrap-around of counters and ticks, and rounding of floating-point times.
- `Node::pop_all`, which nothing calls.
- The record timestamps and `Query::ts_`, which are stored and never read; `set_last_ts` writes the latter, so latency is measured from the first sighting of a query.
- Which bytes a 32- or 64-bit load yields is fixed to little-endian in the address hash; no law depends on it.
- The question types of a query, and text of error, help and usage messages; printing a message and exiting is one outcome.
- The stream parsing of `check_type` and of counted values: an option carries its check and the parser its successor function as parameters.
- A long name that is empty or contains "=" cannot be written out in full; spelling out leaves such an option as it is.
- Option callbacks do nothing here; the help and version options that `parse_args` adds are part of the configuration.
