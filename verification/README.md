# qd: a verified model of its hard parts

qd is a VPN fleet.  Clients race several transports to a node; nodes lease addresses,
stand IPv4 addresses in for IPv6-only sites, answer DNS, route flows by name and network,
and decide who is let in.  This project models the parts of qd that have invariants worth
proving, and proves them in Dafny 4.11.  `dafny verify dfyconfig.toml` checks everything.

How the model is built:

- Where several goroutines meet (the dial race, the session table, single flight, UDP
  outlets), every critical section is one atomic action, and a theorem speaks about every
  legal sequence of actions.  Steps a goroutine takes outside a lock (`over.Store`, `give`,
  `sock.Close`, closing a channel) are actions of their own.
- Where the source changes fields, slices or maps in a loop, the model is a class or a
  method with the same loop, proved against a specification; the theorems are about that
  specification.  Iteration over a Go map takes its keys in any order.
- Clock readings are inputs.  Hashes and `strings.ToLower` are unknown functions, with "no
  collision" stated where it is needed.  An IP address is a family and a value.  Rows of a table are a map.

What the main results say:

- **The dial race** (`Roads`, `RoadRuns`).  On every schedule no opened road is lost or dropped twice and
  neither the race nor its drain can wait with nothing running; once `Climb` has returned,
  whatever happens next happens finitely often and can only end with every road accounted for.
  A try is started only by its head start, by memory, or for want of anything better.
- **Sessions and leases** (`Pool`, `Sessions`).  On every interleaving the leases counted by
  the pool are exactly the carries that hold an address; `held` never names a session whose
  closer has passed its lock; the `under` chain that Forget walks is well founded; a returning
  seat gets its latest address back exactly when nobody else has it; a carry that closes hands
  its seat back to the live carry it sat down on.
- **Stand-ins** (`Nat46`, `StandIns`, `Slots`).  The two maps stay inverse on every run, a free address is
  found whenever there is one, an address changes hands only five minutes after the last call
  that answered with it if clock readings come in order, slots of stored nodes never clash, so
  two nodes never mint the same stand-in.
- **DNS** (`DnsAge`, `DnsWire`, `DnsMessage`, `DnsReaders`, `DnsCache`, `DnsRuns`, `DnsTtl`, `DnsOnce`).
  Ageing any bytes at all changes only TTLs and adds up; ageing a message laid out by RFC 1035 is
  laying out the same message with older records; answers read back as what was put in; map and
  list of the cache agree on every run and evict in true order of use, and a hit serves what was
  last stored under its key; a fresh answer cached again by
  whoever asked expires less than a second after the own time of every record that bounded it,
  as long as the minimum configured here is no longer than that time, and the asker's no longer
  than a second; concurrent questions share one trip.
- **Routing** (`Spans`, `RouteTable`, `RouteAnswers`).  Sorting, merging and bisecting prefixes agrees with
  scanning them; after a Load and a Learn an address follows the longest rule given that has a
  role of its own; through any run of Learn a user rule is never overruled by a bundle while its
  answer lasts, nor through any Learns that follow a Load whose kept answers agree.
- **Packets** (`Checksums`, `Fragments`, `Refusals`).  Every checksum written verifies,
  fragments reassemble in any order, and refusals go back where the packet came from.
- **Outlets and admission** (`Outlets`, `Admission`).  One socket per slot, closed once; the
  gate and `whoami` give a client the same answer, and it is the one its rows give.

Where a property holds only under a condition:

- `Pool.FullMeansBusyIff`: a refusal means a full pool exactly when at most 2^20 - 1 addresses
  lie above the one the pool is written with; on any larger pool `Pool.WideMayRefuse` runs to a
  refusal with the first address free.
- `Sessions.ApartIsNeeded`: leases and open carries agree on every run exactly when the pool
  keeps its stream addresses apart.  A pool narrower than /24 that can lease 10.7.255.254, such
  as the one of `Pool.NarrowPool`, can lose a lease to the `give` inside Forget.
- `RouteTable.LoadGuardsIff`: whatever order a Load goes in, user rules hold at a later moment
  exactly when the remembered answers of user-ruled names that share an address agree on
  lasting that long; `RouteTable.LoadMayYield` runs a Load where they do not.
- `Nat46.RestIsExact`: over all runs in which no clock reading acted on is older than an
  earlier one by more than a lag, a stand-in rests five minutes less that lag and not a second more; the
  full five minutes are promised exactly when readings come in order.
- `DnsTtl.ReadsAllButBare`: a record fails to bound how long an answer is cached exactly when
  it ends the message without data and its name is the single root byte.
- `RoadRuns.RemembersBestUnlessAllThree`: the rung remembered is the best that worked on every
  schedule, exactly when the tries do not have all three rungs; with all three, a relay may win,
  a TCP road climb and a QUIC road then come in unremembered.
- `Fragments.AllPlacedIff`: the pieces state their places rightly exactly when the 13-bit offset
  can count to the start of the last one; every datagram of at most 65535 bytes satisfies this,
  and `Fragments.MisplacedPiece` is a packet that does not.
- `Spans.Classify`: the entry found is the entry of a network that holds the address if rule and
  role run together tell the entries apart, which the five roles of a client guarantee
  (`Spans.RolesTell`).
- `Admission.GateAgreesIff`: the gate and `whoami` agree after a sync exactly unless the node is
  on and neither an ingress nor an egress.

## Model

| member | source | states |
|---|---|---|
| Roads.Race.Running | internal/roads/roads.go:111-119 | counts exactly the tries begun and not over |
| Roads.Race.AboveEnded | internal/roads/roads.go:120-127 | true exactly when every try on a better rung is over |
| Roads.Race.Launch | internal/roads/roads.go:130-151 | starts exactly the tries that `LaunchBegins` names; the wait returned is the shortest of those held back, attained by one of them, and negative exactly when there is none |
| Roads.LaunchBegins | internal/roads/roads.go:80-141 | a launch begins a try exactly when it is QUIC, or a rung no worse is remembered, or it is TCP after a second or the relay after two, or no better try is left |
| Roads.RunningCountsOwed | internal/roads/roads.go:111-119 | what `running` counts is exactly the results nobody has read yet |
| Roads.BestOpen | internal/roads/roads.go:120-141 | while a try is left, some try has nothing better left, so a launch must start it |
| Roads.StepKeepsInv | internal/roads/roads.go:156-225 | every action of the main loop, the tries, the caller's context and the drain keeps the race's invariant |
| RoadRuns.NeverStuck | internal/roads/roads.go:156-219 | on every schedule, while the race or its drain waits, some try is dialling or has answered |
| RoadRuns.EveryStartHasReason | internal/roads/roads.go:80-141 | on every schedule each try that was started was started by a launch at a moment when it had one of those reasons |
| RoadRuns.ContextReachesTheRace | internal/roads/roads.go:99-102 | the caller's context cancels the tries exactly while the race is on; the timer after a win cancels whatever still dials |
| RoadRuns.DrainRuns | internal/roads/roads.go:165-172 | once all started tries have ended, the drain alone can bring the race to rest |
| RoadRuns.EveryScheduleEnds | internal/roads/roads.go:156-225 | once Climb has returned, every schedule is finite, by a count of what is left to happen, and only the caller's context can still change when the race is quiet |
| RoadRuns.NoLeak | internal/roads/roads.go:156-225 | in a race at rest every opened road is either the one returned or has been dropped exactly once, and everything has been cancelled |
| RoadRuns.EveryRoadEnds | internal/roads/roads.go:156-225 | from any reachable moment after Climb has returned, whatever schedule follows, some try or the drain can go on until the race is quiet, and then every opened road is returned or dropped once |
| RoadRuns.Outcomes | internal/roads/roads.go:173-224 | Climb fails only if every try failed or the context ended; `better` fires at most once, only for a rung strictly above the winner; the rung remembered is the first better one to come in, or the winner's |
| RoadRuns.RemembersBestIff | internal/roads/roads.go:189-214 | a quiet race remembers the best rung on which a road was opened, exactly unless the relay won, TCP climbed first and QUIC came in too |
| RoadRuns.MayClimbShort | internal/roads/roads.go:206-208 | a schedule on which that happens, for every plan with all three rungs |
| RoadRuns.RemembersBestUnlessAllThree | internal/roads/roads.go:189-214 | every quiet race that was won remembers the best rung that worked, on every schedule, exactly for plans that lack one of the three rungs |
| RoadRuns.WinSpares | internal/roads/roads.go:182-188 | a win stops exactly the tries that cannot beat the winner |
| Pool.AddressPool.Own | internal/qsrv/pool.go:65-82 | a seat gets its former address back exactly when no other seat holds it, and the lease count grows by one |
| Pool.AddressPool.Take | internal/qsrv/pool.go:84-112 | the former address if it can be had, else the first free address the cursor meets, and refusal only if all probes found none |
| Pool.AddressPool.Give | internal/qsrv/pool.go:114-122 | the count goes down by one and the lease goes when it reaches zero; an unknown address changes nothing |
| Pool.CursorMeets | internal/qsrv/pool.go:92-98 | one turn of the cursor meets every leasable address, wherever it starts |
| Pool.FullMeansBusy | internal/qsrv/pool.go:92-111 | on a pool with fewer than 2^20 addresses above its first a refusal means that every leasable address is busy |
| Pool.FullMeansBusyIff | internal/qsrv/pool.go:92-111 | on every run of takes and gives, exactly on such pools |
| Pool.WideMayRefuse | internal/qsrv/pool.go:92-111 | on any larger pool a run of takes and gives ends in a refusal with the first address free |
| Pool.StreamAddrNeverLeased | internal/qsrv/pool.go:35-57 | stream addresses are never leasable exactly when the pool keeps a tail or does not cover 10.7.255.254 |
| Pool.TailIsLastBlock | internal/qsrv/pool.go:35-57 | the tail is the last 256 addresses of an IPv4 pool of /24 or wider, and stream sessions show 254 of them in turn by seat; any other pool shows 10.7.255.254 to all |
| Pool.NarrowPool | internal/qsrv/pool.go:35-57 | 10.7.255.128/25 does not keep them apart |
| Sessions.StepKeepsTable | internal/qsrv/serve.go:123-149 | every action keeps `held` naming live sessions of their own seat, stacked in the order they sat down |
| Sessions.StepConserves | internal/qsrv/serve.go:90-149 | every action keeps the lease counts equal to the open carries |
| Sessions.RunKeepsInv | internal/qsrv/serve.go:90-149 | every state of every run has the whole invariant |
| Sessions.LeasesAreOpenCarries | internal/qsrv/serve.go:90-149 | on every interleaving an address is leased exactly while a carry has it, the count is the number of those carries, all of one seat, and it is off the stream tail |
| Sessions.NothingLeaks | internal/qsrv/serve.go:131-148 | when every carry has closed, no lease is left |
| Sessions.HeldIsLive | internal/qsrv/serve.go:131-143 | on every run, whatever the pool, `held` never names a carry whose closer has passed its critical section |
| Sessions.ForgetGivesNothing | internal/qsrv/node.go:353-355 | the give inside Forget names an address that no carry can hold |
| Sessions.ApartIsNeeded | internal/qsrv/node.go:353-355 | leases and open carries agree on every run exactly for pools that keep their stream addresses apart; otherwise carries that fill the pool up to that address, a stream session and a Forget part them |
| Sessions.MineIsLastGrant | internal/qsrv/pool.go:65-111 | on every run what the pool remembers for a seat is the address of its latest grant |
| Sessions.ReturningSeat | internal/qsrv/pool.go:65-90 | on every run a returning seat gets that address exactly when no other seat has it leased |
| Sessions.ChainStaysOnSeat | internal/qsrv/node.go:338-351 | walking `under`, Forget ends sessions of one seat only |
| Sessions.CloserGivesBack | internal/qsrv/serve.go:123-143 | on every run a carry that closes while on top hands its seat back to the session it found there, if that is a carry not yet over, and else leaves the seat empty; one that is not on top changes nothing |
| Sessions.SitAndClose | internal/qsrv/serve.go:123-143 | sitting down on a live carry and closing again leaves `held` as it was |
| Sessions.HeldShrinks | internal/qsrv/node.go:321-336 | Forget, the sweep and a dropped transit take exactly the sessions they name out of `held` |
| Sessions.Node.SeatsOf | internal/qsrv/node.go:321-336 | returns each matching held session once and, if asked, removes exactly those |
| Sessions.Node.SweepStreams | internal/qsrv/session.go:244-261 | exactly the stream sessions last seen before the cut leave `held`, and exactly those are returned |
| Sessions.Node.Ends | internal/qsrv/node.go:344-351 | the walk down `under` ends, and collects the whole chain |
| Sessions.Node.Sit | internal/qsrv/serve.go:123-129 | a session sits on top of whatever its seat held |
| Sessions.Node.Unseat | internal/qsrv/serve.go:133-143 | the session below comes back exactly if this one is on top and that one is a carry not yet over; on top of anything else it leaves the seat empty, and below the top it changes nothing |
| Nat46.SlotRoundTrip | internal/qsrv/nat46.go:49-57 | SlotOf undoes NATSlot on every slot |
| Nat46.SlotsPartition | internal/qsrv/nat46.go:267-273 | the 32 slots cut 198.18.0.0/15 into disjoint pieces that cover it |
| Nat46.Nat.Known | internal/qsrv/nat46.go:65-76 | the read-locked half: a known site is found and marked used, an unknown one changes nothing |
| Nat46.Nat.Stand | internal/qsrv/nat46.go:78-106 | the write-locked half: bijection kept, refusal only if every address was used in five minutes, an address evicted only if it is the oldest and idle |
| Nat46.Nat.FindFree | internal/qsrv/nat46.go:89-99 | the cyclic cursor finds a free usable address within one turn whenever there is one |
| Nat46.Nat.ForgetOldest | internal/qsrv/nat46.go:122-140 | removes the least recently used pair from both maps if it is old enough, else all are newer and nothing changes |
| Nat46.Nat.Real | internal/qsrv/nat46.go:108-120 | returns and marks the site behind a stand-in |
| Nat46.Nat.Sweep | internal/qsrv/nat46.go:142-161 | removes exactly the pairs idle for an hour from both maps and counts them |
| Nat46.FullIffRoom | internal/qsrv/nat46.go:84-87 | the size test is exact: the table is at 4094 exactly when every usable address is taken |
| Nat46.StandMeans | internal/qsrv/nat46.go:78-106 | what stand promises: when it refuses, what the answer stands for, and that it lets go of nothing while an address is free |
| Nat46.RunKeepsInv | internal/qsrv/nat46.go:59-161 | on every run the two maps are mutual inverses inside the slot's usable range |
| Nat46.ReuseNeedsRest | internal/qsrv/nat46.go:59-161 | on every run, when a stand-in changes its site every earlier call that answered with it lies five minutes back, less the lag of clock readings |
| Nat46.RestIsExact | internal/qsrv/nat46.go:59-161 | for every lag, five minutes less the lag is the longest rest promised on all runs; the bound is attained |
| Nat46.LateStampLosesOne | internal/qsrv/nat46.go:78-106 | a full table in which a call that reads the clock early loses an address its bound allows, to the second |
| Nat46.LateStampForgets | internal/qsrv/nat46.go:63-73 | a sweep, too, can take a stand-in that has just answered, after a stamp late by more than the hour allows |
| Nat46.Nat.Load | internal/qsrv/nat46.go:192-216 | every saved pair inside the slot is taken, in any order, and nothing else |
| Nat46.Nat.Restart | internal/qsrv/nat46.go:192-231 | a saved table of the same slot comes back whole |
| Nat46.NodesNeverCollide | internal/qsrv/nat46.go:49-57 | tables of different slots have no stand-in in common |
| StandIns.SlotPlaces | internal/qsrv/nat46.go:49-57 | slot k is the 4096 addresses from 198.18.0.0 + 4096 k, any address in it names it, and a slot that does not exist stands for the first |
| StandIns.NoSlot | internal/qsrv/nat46.go:267-273 | a prefix names no slot exactly when it is not a /20 of 198.18.0.0/15 |
| StandIns.StandExactly | internal/qsrv/nat46.go:78-106 | a known site keeps its stand-in; a new one is refused exactly when all 4094 addresses were used in 300 seconds, else gets a free one, or with none free the one used longest ago, and nobody else's changes |
| StandIns.SweepsAfterAnHour | internal/qsrv/nat46.go:142-161 | a sweep leaves in both maps exactly the pairs used in the last 3600 seconds |
| StandIns.AskingStamps | internal/qsrv/nat46.go:65-120 | a question for a site or a stand-in stamps that pair alone, and moves nothing |
| StandIns.FiveMinutes | internal/qsrv/nat46.go:59-161 | on every run with clock readings in order, 300 seconds lie between the last answer of a stand-in and its next site |
| Slots.Store.SlotFor | internal/store/config.go:713-739 | the row's own slot, else the wanted one if free, else the lowest free one, else none |
| Slots.Store.SaveNode | internal/store/config.go:136-172 | a save stores that slot under the row's id, or fails and changes nothing |
| Slots.SaveGives | internal/store/config.go:136-172 | a row that has a slot is left alone; one that has none gets the slot it asks for if that is free, else the lowest free of 0..31, else nothing changes |
| Slots.Store.InsertNodeAt | internal/store/config.go:191-203 | an insert stores that slot unless the id is taken |
| Slots.Store.SettleSlots | internal/store/config.go:741-764 | gives every unassigned row a slot of its own while slots last, leaving no lower one free, and touches no other |
| Slots.RunKeepsInv | internal/store/config.go:136-203 | on every run of saves, inserts, deletes and settlings assigned slots stay within 0..31 and pairwise distinct |
| Slots.SlotsStick | internal/store/config.go:719-725 | a stored node keeps its slot, whatever later saves ask for |
| Slots.FleetNeverCollides | internal/store/config.go:713-764 | on every run no two stored nodes can mint the same stand-in |
| Spans.Last | internal/domainroute/domainroute.go:38-45 | setting the bits after the prefix gives its top address |
| Spans.Has | internal/domainroute/domainroute.go:47-50 | bisection finds an address exactly when some span covers it |
| Spans.Merge | internal/domainroute/domainroute.go:67-82 | the merged spans are disjoint, in order, and cover exactly the addresses of the prefixes |
| Spans.SortNets | internal/domainroute/domainroute.go:52-85 | every net is listed or its group has become a span set holding exactly the group's addresses |
| Spans.Lookup | internal/domainroute/domainroute.go:211-221 | the first listed net that holds the address, else the first span set that covers it, and none exactly when neither does |
| Spans.Classify | internal/domainroute/domainroute.go:52-85 | sorting, merging and bisecting agree with a linear scan of any mixed list of prefixes, and the entry found is that of a prefix that holds the address if keys tell entries apart |
| Spans.FoundFirst | internal/domainroute/domainroute.go:54-117 | of all networks that hold an address those of the rule and role found are searched first: groups of up to 64 networks before bigger ones, each kind in order of appearance |
| Spans.ContainsSameBits | internal/domainroute/domainroute.go:211-215 | a prefix holds exactly the addresses of its family that begin with its bits |
| Spans.RolesTell | internal/clientstate/rules.go:8-14 | with the five roles of a client they do |
| RouteTable.FirstTailIsLongest | internal/domainroute/domainroute.go:162-192 | the suffix chosen is the longest whole-label suffix with a rule |
| RouteTable.FindTail | internal/domainroute/domainroute.go:162-173 | the loop over the dots chooses that suffix |
| RouteTable.RuleOf | internal/domainroute/domainroute.go:175-192 | a name with a user rule is never given a bundle rule |
| RouteAnswers.UserRule | internal/domainroute/domainroute.go:175-184 | a name with a user rule of its own role is given that rule and role, at its longest whole-label suffix |
| RouteAnswers.BundleRule | internal/domainroute/domainroute.go:185-192 | one without is given the bundle's rule and role at its longest such suffix, or nothing |
| RouteTable.Table.Place | internal/domainroute/domainroute.go:263-285 | every address of an answer follows the found rule, but for a bundle rule against a user entry that is still good |
| RouteTable.Table.Held | internal/domainroute/domainroute.go:204-222 | a learned rule that lasts outranks every network; else the first network that holds the address answers, and nothing exactly when none does |
| RouteTable.Table.Learn | internal/domainroute/domainroute.go:298-326 | an answer is remembered for an hour and placed; purging drops only what has expired |
| RouteTable.Table.Load | internal/domainroute/domainroute.go:125-158 | exactly the rules and networks with a role of their own are kept, and an address is found among the networks exactly when one of those holds it; expired answers go, the others are placed in some order on a clock that does not go back; user rules then hold at every moment on which answers that share an address agree |
| RouteTable.LoadGuardsIff | internal/domainroute/domainroute.go:149-155 | over all orders and readings, user rules hold at a moment after Load exactly when those answers agree on lasting that long |
| RouteTable.UserRuleWins | internal/domainroute/domainroute.go:263-326 | through any run of Learn and at any later moment, an address in an unexpired answer of a user-ruled name is held by a user rule |
| RouteTable.UserRuleWinsAfterLoad | internal/domainroute/domainroute.go:125-326 | in any life of loads and learning, the same after a Load whose kept answers agree, through any Learns up to that moment |
| RouteTable.LoadMayYield | internal/domainroute/domainroute.go:149-155 | a Load after which a bundle rule has an address that an unexpired answer of a user-ruled name names |
| RouteAnswers.LearnFollows | internal/domainroute/domainroute.go:175-192 | from what Load was given: an address an answer names is held for an hour under the longest whole-label suffix with a user rule of its own role; failing one under the longest such bundle rule, unless a live user entry has it; failing both it stays as it was |
| RouteAnswers.LearnLeaves | internal/domainroute/domainroute.go:298-326 | addresses an answer does not name keep what they had |
| RouteAnswers.LearnRemembers | internal/domainroute/domainroute.go:298-326 | a name is remembered for an hour, and none is forgotten before its time |
| RouteAnswers.LoadLearnAsk | internal/domainroute/domainroute.go:125-326 | the same through a Load, a Learn and a question on one table |
| RouteAnswers.MappedAlike | internal/domainroute/domainroute.go:205-205 | an IPv4 address is looked up alike plain or mapped into IPv6, and no other address changes |
| RouteTable.NetworksFind | internal/domainroute/domainroute.go:138-222 | the networks kept find something exactly for the addresses one with a role of its own holds, and then the rule and role of such a network |
| Checksums.Checksum | internal/ippkt/ippkt.go:225-237 | the loop computes the folded complement of the word sum, 32-bit wrap-around included |
| Checksums.SumParts | internal/ippkt/ippkt.go:225-232 | the sum is that of the 16-bit words in network order |
| Checksums.OddIsPadded | internal/ippkt/ippkt.go:230-232 | an odd last byte counts as if a zero followed |
| Checksums.Rfc1071Example | internal/ippkt/ippkt.go:225-237 | the worked example of section 3 of RFC 1071 comes to 0x220D |
| Checksums.FoldTakesOff | internal/ippkt/ippkt.go:233-235 | folding takes off multiples of 65535 and never reaches zero from above it |
| Checksums.VerifiesIff | internal/ippkt/ippkt.go:225-237 | a buffer of at most 131072 bytes verifies exactly when its sum is a nonzero multiple of 65535 |
| Checksums.Closes | internal/ippkt/ippkt.go:225-237 | storing the checksum in a zeroed even field makes the buffer verify |
| Checksums.OneWordErrorShows | internal/ippkt/ippkt.go:225-237 | changing one word of a verified buffer goes unnoticed exactly between 0x0000 and 0xFFFF, in a buffer that is not all zero |
| Fragments.Fragments4 | internal/ippkt/ippkt.go:264-294 | nothing for a packet that may not or need not be cut, else pieces that carry the body in order |
| Fragments.PieceIsValid | internal/ippkt/ippkt.go:278-291 | every piece fits the size, states its length, keeps the rest of the header and verifies |
| Fragments.WhenCut | internal/ippkt/ippkt.go:264-272 | cut are exactly option-less IPv4 packets without the flag against it that are all there, longer than the size, at a size of 28 or more |
| Fragments.PiecesCarry | internal/ippkt/ippkt.go:273-281 | the payloads are the packet's own bytes in order, and every piece but the last is as long as whole units of eight allow |
| Fragments.PiecesSay | internal/ippkt/ippkt.go:284-288 | read off the raw bytes: the 13-bit field is where the payload lies and bit 0x2000 whether more follows, while the field can count that far |
| Fragments.PieceTellsItsPlace | internal/ippkt/ippkt.go:284-288 | a piece's offset field is right exactly when it can count that far; more-fragments is set on all but the last piece, which inherits it |
| Fragments.AllPlacedIff | internal/ippkt/ippkt.go:278-288 | all of them are right exactly when the field can count to where the last piece starts, told from the packet and the size |
| Fragments.MisplacedPiece | internal/ippkt/ippkt.go:284-284 | a packet for which it cannot |
| Fragments.Reassembles | internal/ippkt/ippkt.go:273-293 | whenever the offset field can count to the last piece, every byte of the body is in exactly one piece, at the place that piece states |
| Refusals.Reset4 | internal/ippkt/ippkt.go:15-54 | answers exactly the resettable packets, with a reset whose addresses, ports, numbers and both checksums are right |
| Refusals.Refuse | internal/ippkt/ippkt.go:56-78 | every packet gets the refusal its kind calls for, or none, and says which |
| Refusals.RefusedExactly | internal/ippkt/ippkt.go:15-117 | which packets are turned away, byte by byte |
| Refusals.ResetSays | internal/ippkt/ippkt.go:31-46 | a reset exchanges the ports and acknowledges all the payload, with one more for SYN or FIN |
| Refusals.RefusalBytes4 | internal/ippkt/ippkt.go:15-78 | the bytes of a refusal over IPv4: lifetime, length, addresses exchanged, and a reset or port unreachable quoting as much of the packet as fits |
| Refusals.RefusalBytes6 | internal/ippkt/ippkt.go:80-117 | the same over IPv6, with address unreachable |
| Refusals.NeverAnswersItself | internal/ippkt/ippkt.go:15-117 | no refusal is itself refused |
| Refusals.PseudoSums | internal/ippkt/ippkt.go:48-52 | the checksums cover both addresses, the protocol, the length and the message |
| Refusals.PortUnreachable4 | internal/ippkt/ippkt.go:67-77 | an ICMP error of at most 576 bytes quoting the packet, both checksums verified |
| Refusals.Refuse6 | internal/ippkt/ippkt.go:80-117 | the same over IPv6, within 1280 bytes |
| Refusals.Checksum6 | internal/ippkt/ippkt.go:239-246 | sums the pseudo-header of section 8.1 of RFC 8200 and the message |
| Refusals.Icmp6 | internal/ippkt/ippkt.go:248-262 | the message under an IPv6 header with a checksum that verifies; the length field is exact below 65536 |
| DnsAge.SkipNameLoop | internal/dnsproxy/dnsproxy.go:365-376 | the loop computes where a name ends, over any bytes |
| DnsAge.AfterQuestionsLoop | internal/dnsproxy/dnsproxy.go:694-700 | the loop computes where the records begin |
| DnsAge.Age | internal/dnsproxy/dnsproxy.go:334-363 | the walk in place rewrites the buffer to the aged message |
| DnsAge.WalkStable | internal/dnsproxy/dnsproxy.go:344-361 | the walk depends on no TTL byte |
| DnsAge.AgeTouchesOnlyTtls | internal/dnsproxy/dnsproxy.go:334-363 | for any bytes, only TTLs of visited records other than OPT change, and the output is walked the same way |
| DnsAge.AgedTtl | internal/dnsproxy/dnsproxy.go:350-358 | each such TTL is less by the seconds given, never below one |
| DnsAge.AgeingAdds | internal/dnsproxy/dnsproxy.go:334-363 | ageing by a and then by b is ageing by a + b |
| DnsWire.VisitsEncoded | internal/dnsproxy/dnsproxy.go:344-361 | in any message laid out by section 4.1 of RFC 1035 the walk visits exactly the records, each where its fixed part lies |
| DnsWire.AgesEncoded | internal/dnsproxy/dnsproxy.go:334-363 | ageing such a message is laying out the same message with every record older: its TTL less by the seconds, at least one, OPT records untouched |
| DnsReaders.OneQuestion | internal/dnsproxy/dnsproxy.go:694-752 | over any bytes with one question, `afterQuestions` and `questionEnd` agree |
| DnsReaders.QuestionEncoded | internal/dnsproxy/dnsproxy.go:662-692 | from a laid-out message the name read is the labels of its first question with dots between them; a name with a pointer, or no question, is refused |
| DnsReaders.FirstAddrEncoded | internal/dnsproxy/dnsproxy.go:804-838 | from a laid-out reply the address read is that of its first answer record of the type and size |
| DnsReaders.AddrsEncoded | internal/dnsproxy/dnsproxy.go:840-870 | the addresses read are those of its A and AAAA answer records, in order, mapped ones as IPv4 |
| DnsReaders.TtlWithoutRecords | internal/dnsproxy/dnsproxy.go:702-713 | a failed answer is not kept, one without records for the longer of two configured times |
| DnsReaders.TtlEncoded | internal/dnsproxy/dnsproxy.go:702-730 | the time a laid-out answer is kept reaches a value exactly when the maximum does and the minimum or every answer record read does |
| DnsMessage.QuestionEndLoop | internal/dnsproxy/dnsproxy.go:732-752 | the loop computes where the question ends, or -1 |
| DnsMessage.Question | internal/dnsproxy/dnsproxy.go:662-692 | accepts exactly the messages whose question ends and is announced, and reads its name, put through `strings.ToLower`, and type |
| DnsMessage.AskForChangesType | internal/dnsproxy/dnsproxy.go:872-883 | AskFor repeats the question and changes nothing in it but the type |
| DnsMessage.AnswerLayout | internal/dnsproxy/dnsproxy.go:754-802 | the bytes of an answer: id and question repeated, one record pointing at the name |
| DnsMessage.FirstAddr | internal/dnsproxy/dnsproxy.go:804-838 | the first record of the wanted type and size |
| DnsMessage.Addrs | internal/dnsproxy/dnsproxy.go:840-870 | every A and AAAA address in order, mapped addresses taken for IPv4 |
| DnsMessage.AnswerReadsBack | internal/dnsproxy/dnsproxy.go:776-870 | FirstAddr and Addrs read back from Answer the address put in, and the question is the query's |
| DnsCache.Resolver.EvictAbove | internal/dnsproxy/dnsproxy.go:401-411 | keeps exactly the most recently used keys that fit, in map and list alike, and counts the rest |
| DnsCache.Resolver.Reconfigure | internal/dnsproxy/dnsproxy.go:102-157 | the new size, at least one, holds at once, and the most recently used keys stay |
| DnsCache.Resolver.Store | internal/dnsproxy/dnsproxy.go:378-399 | a worthwhile answer replaces what the key had and goes in front, evicting only for a new key |
| DnsCache.Resolver.Lookup | internal/dnsproxy/dnsproxy.go:290-330 | serves a usable entry aged under the query's id, drops an unusable one, and asks for one refresh |
| DnsCache.RunKeepsInv | internal/dnsproxy/dnsproxy.go:290-418 | on every run map and list hold the same keys one for one, within the size |
| DnsCache.OrderIsHistory | internal/dnsproxy/dnsproxy.go:309-411 | on every run the list is in order of the run's own hits and stores |
| DnsCache.EvictsLeastRecent | internal/dnsproxy/dnsproxy.go:401-411 | whatever is evicted was last used before anything kept |
| DnsCache.FreshHitServes | internal/dnsproxy/dnsproxy.go:317-329 | a fresh hit serves each TTL as stored less the seconds elapsed, floored at one, under the query's id |
| DnsRuns.HoldsLastPut | internal/dnsproxy/dnsproxy.go:378-399 | on every run an entry is the answer last stored under its key, with that store's time and expiry |
| DnsRuns.PutTakes | internal/dnsproxy/dnsproxy.go:378-399 | on every run a store with time to live is there at once and in front |
| DnsRuns.LosesExactly | internal/dnsproxy/dnsproxy.go:290-418 | on every run a key is lost exactly by a flush, a lookup past its grace, or a new key or a resizing that leaves no room that far back in the order of use |
| DnsRuns.ResizeKeeps | internal/dnsproxy/dnsproxy.go:102-157 | a resizing keeps as many entries as fit, and there is room for one at least |
| DnsRuns.HitServesLastPut | internal/dnsproxy/dnsproxy.go:290-330 | on every run a hit serves the message last stored under its key, every record older by the seconds since, or left one second when stale, under the id of the query |
| DnsRuns.RenewedOnce | internal/dnsproxy/dnsproxy.go:311-315 | on every run no renewal is asked for while one is under way |
| DnsTtl.AnswerTtlLoop | internal/dnsproxy/dnsproxy.go:702-730 | the loop computes the shortest TTL it reads, within the configured bounds; nothing for a short message or an error other than a missing name |
| DnsTtl.ShortestIsLeast | internal/dnsproxy/dnsproxy.go:714-729 | nothing read is shorter, and something read, or the maximum, is as short |
| DnsTtl.ReadsAllButBare | internal/dnsproxy/dnsproxy.go:714-729 | of the records that `age` visits, one is not read exactly when it ends the message without data under the single root byte |
| DnsTtl.LastWithoutDataIsMissed | internal/dnsproxy/dnsproxy.go:716-716 | such a record can be missed |
| DnsTtl.NeverOutlives | internal/dnsproxy/dnsproxy.go:702-730 | an answer is cached no longer than any answer record read lives, the minimum aside, nor than the maximum |
| DnsTtl.FreshNeverFloors | internal/dnsproxy/dnsproxy.go:317-363 | while an entry is fresh, each answer TTL is served as exactly what is left of it |
| DnsTtl.CachedTwice | internal/dnsproxy/dnsproxy.go:290-399 | an answer served from this cache and cached again by the asker expires less than a second after the record's own time |
| DnsOnce.StepKeepsInv | internal/dnsproxy/dnsproxy.go:202-229 | every step of every caller keeps calls, leaders and joiners consistent |
| DnsOnce.OneLeader | internal/dnsproxy/dnsproxy.go:202-229 | in every interleaving at most one leader per key has its call listed |
| DnsOnce.JoinersShare | internal/dnsproxy/dnsproxy.go:204-213 | a joiner gets its leader's failure, or its answer with only the two id bytes replaced |
| DnsOnce.OnlyAnswersStored | internal/dnsproxy/dnsproxy.go:218-222 | whatever is stored is an answer some call got, never a failure |
| DnsOnce.JoinerIsAnswered | internal/dnsproxy/dnsproxy.go:206-228 | nobody waits on a call that no one leads and that is not done |
| DnsOnce.EnterJoinsOrLeads | internal/dnsproxy/dnsproxy.go:202-217 | on every run whoever asks joins the trip under way for its key, or makes one if there is none |
| DnsOnce.StoredWhenHeard | internal/dnsproxy/dnsproxy.go:218-222 | an answer is stored when it is heard, and nothing else stores |
| DnsOnce.OutcomeIsHeard | internal/dnsproxy/dnsproxy.go:216-228 | the outcome of a call is what its leader heard upstream |
| DnsOnce.LeaderReturnsHeard | internal/dnsproxy/dnsproxy.go:216-229 | a caller that led returns what it heard |
| Outlets.FlowTable.Drop | internal/qsrv/outlet.go:128-141 | the flow goes and the others keep their order |
| Outlets.StepKeepsInv | internal/qsrv/outlet.go:85-141 | every open, leave and close keeps outlets and flows consistent |
| Outlets.OneSocketPerSlot | internal/qsrv/outlet.go:85-126 | in every interleaving all open flows of a slot share one socket that is not closed |
| Outlets.ClosedOnceAfterLast | internal/qsrv/outlet.go:107-120 | a socket closes at most once, exactly when its last flow has left, and is off the table by then |
| Outlets.HeardIffOpen | internal/qsrv/outlet.go:152-160 | a datagram finds a flow exactly when one towards its sender is open on the outlet |
| Outlets.NewestFlowHears | internal/qsrv/outlet.go:152-157 | it goes to the newest such flow |
| Outlets.ReachOpens | internal/qsrv/outlet.go:85-105 | on every run reaching out opens one flow, on the socket the slot's open flows have or a new one, and datagrams from there come to it |
| Outlets.LeaveEnds | internal/qsrv/outlet.go:107-141 | leaving ends one flow, and its socket is to be closed exactly if that was the last open one |
| Admission.ClientsReaching | internal/netstate/project.go:46-77 | projects exactly the enabled, named clients whose group has an enabled entrypoint here, with their exit permission |
| Admission.PeersFor | internal/netstate/project.go:79-93 | exactly the enabled nodes of the role |
| Admission.Project | internal/netstate/project.go:9-26 | dispatch on a missing, disabled, ingress, egress or unknown node |
| Admission.Wanted | cmd/qd-node/sessions.go:47-65 | the sessions wanted are the unexpired clients with their exit flags, and the ingress peers without |
| Admission.Gate.Drive | cmd/qd-node/sessions.go:70-87 | the loops of additions and deletions leave the gate holding exactly what is wanted |
| Admission.Gate.SyncSessions | cmd/qd-node/sessions.go:25-87 | after a sync the gate holds the projection; a disabled node carries nobody, an unknown one is left as it was |
| Admission.Carries | cmd/qd-node/control.go:505-517 | the nested search agrees with the projection's test |
| Admission.GateFromRows | cmd/qd-node/sessions.go:25-87 | after a sync of an ingress that is on, a client's session is in the gate exactly when its row is enabled, has not run out, and its group has an enabled entrypoint here; it may exit exactly when its own word, or failing one its group's, allows it |
| Admission.StrangersStayOut | cmd/qd-node/sessions.go:25-87 | a token of no client opens nothing there |
| Admission.GateOfOthers | cmd/qd-node/sessions.go:25-87 | an egress carries exactly the ingresses that are on, none with an exit; a node that is off carries nobody |
| Admission.GateAgreesWithWhoami | cmd/qd-node/control.go:519-548 | right after a sync the gate admits a token exactly when whoami calls it carried, with the same exit permission |
| Admission.GateAgreesIff | cmd/qd-node/control.go:459-461 | this is so exactly unless the node is on and of neither role, when a sync leaves the gate as it was |

## Left out

- Real sockets, QUIC, HTTP, TLS, relays and netlink: only open, closed and cancelled are modelled.
- SQLite, JSON and file formats: rows and saved pairs are maps; each save, insert or delete of a
  node is atomic, so two processes saving at once are not modelled.
- The desktop, Android, panel and installer code, and fleet replication: user interface, OS calls,
  and agreement the code does not promise.
- Roads: `ReachTCP`, and how long timers take; timers and clock readings may come at any moment,
  results may be received in any order.
- RoadRuns.WinSpares: cancelling a try is modelled as telling it so; what a dialler does then is its own affair.
- Sessions: links, traffic counters, and the `end` functions Forget calls; their effect, carries
  ending, may happen at any moment.
- Nat46.Nat.Stand: the atomic marks counter, which only schedules saving.
- DnsCache: the stale window is an input of each lookup; `fromRecords` and the counters but
  `evicted` are not modelled.
- DnsOnce: a forwarder that answers with fewer than 2 bytes is not modelled.
- RouteTable: names are taken lower-case and trimmed; `Replay`, the quiet (inherit) labels, and the
  `Placed` callback are not modelled.
- Spans.SortNets: `sort.Slice` stands for any sorted arrangement; an insertion sort is used for it.
- Admission.ClientsReaching: neither the order of the result nor how often an entry is in it is stated,
  since the gate depends on neither; device and version checks, and the network key, are not modelled.
- Admission.PeersFor: nor are they here, nor the node ids, for the same reason.
- Upstream query ids, link reference counts, block lists, telemetry and settings: they would only add
  easy members.
