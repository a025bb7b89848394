# relay-tunnel, verified

This project models the protocols of relay-tunnel and proves what they keep, in Dafny 4.11. Check
everything with `dafny verify dfyconfig.toml`.

- The **rendezvous and relay server** is a state machine whose steps are the critical sections of its
  mutex with the messages they send (`Rendezvous`); invariants of all steps (`RendezvousInvariants`,
  `PairingInvariants`, `MessageInvariants`, `TrafficInvariants`) give safety over all runs
  (`RendezvousRuns`). `Server` has the program itself, with its maps of session objects and routes
  changed in place, each method proved to take one step of the machine. Fields under `past` and in
  `offers` are history that no step reads.
- `RouteLifetimes` is what renews and removes a relay route over time, `Reports` who may join and how what
  a peer reported gets to its partner, both in terms of the steps of a run. `Handshakes` is what a peer has
  been told in any run, `Latecomers` who is introduced and who is not, `RelaySymmetry` when the two sides of
  a relayed pair point at each other; `PairedRun` is a concrete run for their examples. `Dial` is the peer's
  side of the handshake and its choice of a path. `Punch` is the punch loop, `PunchNetwork` any number of
  them on a lossy network, `RelayPath` the packet connection that goes through the server.
- `Regexp` gives the emitted part of Go's regular expressions a parser and a meaning, `Glob` a glob its
  own meaning and the compiler between them. `Ignore`, `RulePrecedence`, `Walk`, `Manifests` and
  `RuleScope` are the rules, which of them decides, the walk, and what the manifest contains. `Plan` and
  `Mirror` are the planner and the loop that applies a plan to a tree of files, of which a listing may hide
  some; `Trees` connects the directories that are walked with such trees, and `SyncExamples` has
  directories on which a pass does not do what one might expect.
- `Reconnect` hands a connection to waiters, `Retry` bounds the retries, `Admin`, `AdminSessions` and
  `AdminServer` are the account, its config file and its sessions, `Socks` the proxy's parser.
- `Text` has byte strings, what sorting promises, and durations; `Wire` the datagram format.

## Findings

Where a property one would expect does not hold of the code, the model keeps the code; the condition
under which it does hold is proved to be exact, and an example is given.

- A relay pair need not stay symmetric: a sweep can reclaim one side, and a datagram then brings it back
  without its pairing. Of all steps exactly this one ends the symmetry (`SymmetryKeptIff`), and it
  happens (`HalfAPair`).
- The clean-up of a peer whose session was deleted unregisters whatever session its code names by then,
  which is right exactly if that is its own (`LeaveRegistered`), and it happens (`DeleteCanSplitACode`);
  an identity check is enough to repair it (`AfterChecked`).
- A session that has paired never pairs again: a peer is introduced exactly if the session had not paired
  when it joined (`IntroducedIff`), so one that comes back while its partner stayed waits for ever
  (`WaitingForEver`).
- `**` is compiled to an expression that stops at newlines, which its comment does not say: the
  expression is right about all paths exactly if there is no `**` (`NewlinesMatter`, and
  `DoubleStarMissesNewline` for an example).
- Copies come before deletes, so a pass gets through exactly if no source path is a directory of the
  receiver or below one of its files (`GetsThroughIff`), even with deletes that would clear the way
  (`DirectoryInTheWay`).
- An interrupted pass resumes exactly if what it copied was dated and the receiver's listing still shows
  the same of what matters (`Resumes`). The first fails for a file whose time is not positive, which is
  copied again by every pass (`UndatedNeverDone`), the second for a .gitignore file that arrives
  (`IgnoreFileArrives`).
- SaveAdmin's comment says that only two keys are touched. That holds exactly if nothing but objects is in
  the place of the two sections (`SurvivesIff`, `SaveCanLose`). A config file that holds only `null` makes
  it panic.
- The check against the default password in an account change never decides, since that password is too
  short anyway (`ReviewExact`).

## Assumptions

- A new relay token has never been issued before. Passwords are verified against the hash made from
  them, a hash is not empty, and folding case and blanks leaves valid names alone.
- A network may do anything to datagrams except forge them: a datagram shows an address of its sender
  and arrives only at an owner of the address it was sent to.
- Clocks do not run backwards; the receiving side's clock is positive. During a sync pass nobody else
  changes either side.

## Model

| member | source | states |
|---|---|---|
| Wire.ParseInvertsFrame | internal/signal/server.go:510-539 | a datagram parses to a token and a payload exactly when it is the frame of a 16-byte token and that payload |
| RendezvousInvariants.NextLinked | internal/signal/server.go:335-374 | registry, session members and peers refer to each other consistently after every step; a registered session always has a member |
| RendezvousInvariants.LeaveRegistered | internal/signal/server.go:360-368 | unregistering by code when the last member leaves keeps every connected peer in its code's registered session if and only if the leave is not stale, that is, the code does not name another session by then |
| RendezvousInvariants.NextRegistered | internal/signal/server.go:335-374 | every step keeps the registry right except exactly the stale leave |
| PairingInvariants.NextPairing | internal/signal/server.go:400-448 | tokens stay distinct and 16 bytes long, the partner relation stays symmetric and irreflexive, introduced members of one session are each other's partners, and two present and ready peers are paired or about to be, across every step |
| PairingInvariants.PairPartners | internal/signal/server.go:404-420 | the two sides of an unpaired session never had a partner before, so pairing them gives nobody a second one |
| MessageInvariants.NextMessages | internal/signal/server.go:353-358 | across every step each peer's messages stay a prefix of Reflected, Paired, Go, apart from the error that ends a closed socket |
| TrafficInvariants.NextTraffic | internal/signal/server.go:531-603 | across every step routes lead nowhere or to the one partner, carry the latest address, and the counters balance |
| TrafficInvariants.TotalSplit | internal/signal/server.go:597-601 | the traffic shown on all routes is that of the routes kept plus that of the routes reclaimed, whichever set is reclaimed |
| RendezvousRuns.ReachedSound | internal/signal/server.go:307-604 | all these invariants hold in every state a run can reach, whatever order joins, readies, leaves, datagrams, sweeps, prunes and deletes come in |
| RendezvousRuns.PartnersForever | internal/signal/server.go:412-420 | a token's partner never changes |
| RendezvousRuns.RouteTargets | internal/signal/server.go:541-559 | in every run a route's peer is empty or the token's one partner, partners are symmetric and never oneself, a route that is pointed at points back or nowhere, and the empty peer is never a key |
| RendezvousRuns.Forwarding | internal/signal/server.go:533-585 | in every run a datagram with a payload is forwarded if and only if the sender's route leads to a route with an address; then unchanged, under the sender's token, to the address the partner was last heard from; a datagram without payload is answered with the observed address |
| RendezvousRuns.InvalidIgnored | internal/signal/server.go:533-537 | a datagram that is not a frame changes two counters and nothing else |
| RendezvousRuns.Conservation | internal/signal/server.go:531-585 | every datagram is counted in exactly one of four ways, and packets and bytes on live routes plus those of reclaimed routes equal relayed plus dropped, in every run; pairs equals the number of paired sessions |
| RendezvousRuns.SilenceBound | internal/signal/server.go:591-604 | with a sweep every minute no live route has been silent for more than four minutes |
| RendezvousRuns.RegistryExact | internal/signal/server.go:336-348 | in every run without a session delete a code is registered if and only if somebody is connected under it, and everybody connected under it is in that session |
| RendezvousRuns.RegisteredHasPeer | internal/signal/server.go:360-367 | a registered code always has a connected peer in its session, deletes included |
| RendezvousRuns.DeleteCanSplitACode | internal/signal/api.go:334-350 | a run with one session delete after which an open host and an open client wait under the same code in different sessions |
| RendezvousRuns.LeaveCheckedRegistered | internal/signal/server.go:362-367 | with an identity check before unregistering, every leave keeps the registry right, and other leaves are as before |
| RendezvousRuns.AfterChecked | internal/signal/server.go:362-367 | with that check the registry is right in every run, deletes included |
| RendezvousRuns.PairsAtMostOnce | internal/signal/server.go:404-413 | a session object pairs at most once in any run |
| RendezvousRuns.PresentPeers | internal/signal/server.go:400-420 | two present, ready and settled members of a session: it is paired, and if both were introduced it was to each other |
| Latecomers.IntroducedIff | internal/signal/server.go:404-412 | in every run whoever is still present in a session that has paired has a partner if and only if the session had not paired when it joined; a latecomer never gets one and, while its socket is open, nothing but its token |
| Latecomers.WaitingForEver | internal/signal/server.go:360-412 | a run after which a host and a client are ready in one session and the host will never be introduced |
| RelaySymmetry.SymmetryKeptIff | internal/signal/server.go:541-559 | if routes that are pointed at point back, a step keeps it so if and only if it is not a datagram that brings back a reclaimed route to which another still points |
| RelaySymmetry.SymmetricUnlessRevived | internal/signal/server.go:437-604 | so pairs are symmetric throughout every run without such a datagram, whatever is swept, pruned or deleted |
| RelaySymmetry.HalfAPair | internal/signal/server.go:543-602 | a run after which one side of a pair points at the other and the other at nobody |
| Handshakes.NextPartnersKnown | internal/signal/server.go:412-420 | every token that was ever paired belongs to a peer, across every step |
| Handshakes.Handshake | internal/signal/server.go:353-433 | in every run each peer has been sent its own token, then the introduction and Go together; it has a partner if and only if there is a peer to which it was introduced, with addresses that peer itself reported and, for the client, the fingerprint that came with them |
| RouteLifetimes.Renewed | internal/signal/server.go:539-551 | in every run any datagram of a token, whatever it carries, sets its route's address and time; where the route leads and every other route stay as they were |
| RouteLifetimes.DatagramCounted | internal/signal/server.go:531-585 | an empty payload counts as a reflection, another one as relayed if it is sent on and as dropped if not, and every one on the sender's route |
| RouteLifetimes.NextUntouched | internal/signal/server.go:437-604 | no step but a datagram of its own token changes a route's address, times and counts, and besides it only a pairing changes a route that stays |
| RouteLifetimes.RemovedIff | internal/signal/server.go:591-604 | a step removes a route if and only if it is a sweep after more than three minutes of silence, a prune after more than the 1, 5, 15, 60, 360 or 1440 minutes it names, a delete of the route or of one that leads to it, or a delete of the session its peer is in |
| RouteLifetimes.MadeIff | internal/signal/server.go:437-549 | a route comes into being exactly with its token's first datagram or when its token gets a partner |
| RouteLifetimes.RouteKept | internal/signal/server.go:550-602 | in every run a route is kept as long as at most three minutes have passed by the waits since its token's latest datagram, whatever that carried, unless a prune or delete removes it |
| RouteLifetimes.SilentRouteSwept | internal/signal/server.go:595-602 | and the next sweep removes it if and only if they add up to more, a prune if and only if they add up to more than the time it names |
| Reports.JoinsIff | internal/signal/server.go:314-358 | a connection joins if and only if its first frame is a hello with a code and a role that is free in that code's session; otherwise nothing changes and it is told what was wrong |
| Reports.Greeted | internal/signal/server.go:353-358 | in every run everybody was first told the token and relay address of the step in which it joined |
| Reports.ReadyStored | internal/signal/server.go:383-391 | in every run what is on record of a peer is its latest Ready message, and its history all of them |
| Reports.PairsIff | internal/signal/server.go:400-421 | in every run tryPair introduces two peers if and only if both sides of the session are there and have reported and it never introduced anybody; their routes then lead to each other |
| Reports.PairedCarries | internal/signal/server.go:424-433 | in every run a peer that was introduced was so in one step, to a peer of the other role in its session, and was told exactly the addresses, and as a client the fingerprint, of that peer's latest Ready message before that step |
| Reports.Left | internal/signal/server.go:360-368 | who leaves gives up its place and nothing else; its code is forgotten if and only if nobody is left in its session |
| Reports.SessionDeleted | internal/signal/api.go:325-350 | a delete forgets the code, tells exactly the session's members and closes their sockets |
| Server.RendezvousServer.constructor | internal/signal/server.go:188-204 | a new server represents the initial state |
| Server.RendezvousServer.Register | internal/signal/server.go:314-358 | registering a connection takes the join step, with the error for a malformed first frame, a missing code or role, or a taken role |
| Server.RendezvousServer.StoreReady | internal/signal/server.go:383-392 | a Ready message is stored as the ready step says: the connection has exactly that offer |
| Server.RendezvousServer.ReadyToPair | internal/signal/server.go:402-411 | the test before pairing is that both sides are present and ready and the session has not paired |
| Server.RendezvousServer.WireRoute | internal/signal/server.go:439-448 | a route is pointed at its partner; address, times and counts it has are kept, and all other routes are untouched |
| Server.RendezvousServer.TellBoth | internal/signal/server.go:424-433 | both peers get the other's addresses and Go, only the client a fingerprint |
| Server.RendezvousServer.TryPair | internal/signal/server.go:400-435 | at any later time the whole critical section takes the pairing step |
| Server.RendezvousServer.HandlerLeaves | internal/signal/server.go:360-368 | the deferred clean-up takes the leave step |
| Server.RendezvousServer.ServeDatagram | internal/signal/server.go:527-585 | at any later time one turn of the UDP loop takes the datagram step; whatever a framed datagram carries, its token was last heard at that address and time, and no other route changes |
| Server.RendezvousServer.GcRelay | internal/signal/server.go:595-602 | at any later time a sweep removes exactly the routes silent longer than the TTL and leaves the rest untouched |
| Server.RendezvousServer.PruneRelays | internal/signal/api.go:416-450 | a prune accepts six windows, removes exactly the routes silent longer than the window, and lists them in sorted order |
| Server.RendezvousServer.DropRelay | internal/signal/api.go:371-384 | deleting a relay removes the route and the one it points at, or reports that there is none |
| Server.RendezvousServer.DropSession | internal/signal/api.go:325-350 | deleting a session reclaims its members' routes, forgets the code, and sends its members the error before closing them |
| Dial.Negotiate | internal/signal/client.go:75-136 | what Dial makes of the messages it gets before the connection ends, of the reflection and of a failing Ready: the first Go or Error decides, the latest introduction counts |
| Dial.NegotiatedIff | internal/signal/client.go:75-136 | Dial gets to the punching if and only if the greeting has a token and a relay address, the reflection and Ready succeed, and Go comes before any error with an address in the latest introduction before it; it then has the greeting's token and relay and that introduction's addresses and fingerprint |
| Dial.DialAfterHandshake | internal/signal/client.go:109-133 | together with the server's messages: Dial gets to the punching only for a peer that was introduced, with its own token and the addresses its one partner reported; it lacks an address only if the partner reported none; if nothing else fails that is all that stops it |
| Dial.DialAfterRun | internal/signal/client.go:83-133 | over the steps of every run: with its own token, the relay address from its join, and exactly the addresses, and for a client the fingerprint, of the latest Ready message its partner sent before the step that introduced the two |
| Dial.Establish | internal/signal/client.go:138-164 | the first candidate that answers is the path, unless the relay is forced; otherwise the relay at the address the server gave, under the peer's token, if that address resolves and the token has 16 bytes |
| Punch.ResolvedOnce | internal/nat/nat.go:123-145 | the candidates tried are exactly the usable addresses offered, each once |
| Punch.ResolvedInOrder | internal/nat/nat.go:126-140 | addresses offered first are tried first |
| Punch.ResolveCandidates | internal/nat/nat.go:123-145 | the loop computes that list, or fails if it is empty |
| Punch.MatchCandidate | internal/nat/nat.go:148-155 | a sender is matched if and only if it is a candidate |
| Punch.SendProbes | internal/nat/nat.go:79-84 | each round sends every candidate a hello, and an ack to those heard from |
| Punch.WonStays | internal/nat/nat.go:102-110 | once a candidate has answered nothing that arrives later matters |
| Punch.Race | internal/nat/nat.go:78-112 | the loop returns the first candidate an ack arrives from, and none if and only if no ack from a candidate arrives; everything it sends is that of the rounds |
| Punch.WonIff | internal/nat/nat.go:88-110 | whatever else has arrived, the rounds end with the sender of the first ack that comes from a candidate, and without a winner if and only if there is no such ack |
| Punch.SentExactly | internal/nat/nat.go:79-109 | a candidate is sent one hello in each round that is begun, an ack for every hello from it, one more in every later round, and three if it is the one that answered |
| Punch.OnlyCandidates | internal/nat/nat.go:79-109 | nobody but candidates is sent anything, and nothing but hellos and acks |
| Punch.Punch | internal/nat/nat.go:64-115 | it succeeds if and only if an ack from a candidate arrives, with the sender of the first one |
| PunchNetwork.AckGrounded | internal/nat/nat.go:96-110 | an ack from a party that runs the loop means that a hello got through between the two |
| PunchNetwork.NextNetOk | internal/nat/nat.go:78-112 | across every probe, arrival and stray datagram, everything received was sent and every ack between two loops goes back to a hello |
| PunchNetwork.RunNetOk | internal/nat/nat.go:78-112 | so in every run of any number of loops on a network that loses, repeats and reorders |
| PunchNetwork.AcksAnswer | internal/nat/nat.go:96-109 | in every run every ack ever sent answers a hello or ack received from that address |
| PunchNetwork.SuccessIsMutual | internal/nat/nat.go:90-110 | in every run success at an address means it was offered, an ack from it was received, and its owner, if it runs the loop, had received a hello or ack from this peer |
| RelayPath.PayloadsConcat | internal/nat/nat.go:239-253 | what a reader gets from a stream of datagrams is what it gets from its parts, in order |
| RelayPath.FrameFits | internal/nat/nat.go:246-252 | a frame is delivered whole if and only if the payload fits the buffer, and cut to the buffer otherwise |
| RelayPath.StraysIgnored | internal/nat/nat.go:246-248 | reflection replies, hellos and acks are never delivered, whatever the buffer |
| RelayPath.OnlyFrames | internal/nat/nat.go:246-248 | a datagram is delivered if and only if it is a frame with a whole token |
| RelayPath.RelayConn.ReadFrom | internal/nat/nat.go:239-253 | a read returns the first payload among the datagrams waiting and leaves exactly the later ones, or fails with none left |
| RelayPath.RelayConn.WriteTo | internal/nat/nat.go:256-265 | a write sends the server one frame of the connection's token and the payload |
| RelayPath.NewRelayConn | internal/nat/nat.go:226-235 | a connection is made if and only if the server resolves and the token has 16 bytes |
| RelayPath.Relayed | internal/signal/server.go:573-585 | in every run a payload written by one peer is forwarded to where its partner was last heard from, and a reader there with room for it gets exactly that payload between what came before and after |
| RelayPath.Reflect | internal/nat/nat.go:27-49 | the first reply that is an address is returned, after one probe for each read, or a failing write is reported |
| RelayPath.ReflectionNamesSender | internal/signal/server.go:561-566 | the server's answer to such a probe names the address it came from |
| Glob.PathsRead | examples/relay-sync/gitignore.go:100-105 | ** with a slash behind it stands for nothing or anything that ends in a slash |
| Glob.AnythingRead | examples/relay-sync/gitignore.go:106-108 | any other ** stands for anything |
| Glob.ManyRead | examples/relay-sync/gitignore.go:110-111 | * stands for anything without slashes |
| Glob.OneRead | examples/relay-sync/gitignore.go:112-124 | ? stands for one character that is no slash, and every other character for itself |
| Glob.CompilesToSyntax | examples/relay-sync/gitignore.go:93-128 | for every glob the text written parses, and as the intended expression |
| Glob.CompiledMeans | examples/relay-sync/gitignore.go:87-128 | for every glob and text the expression finds a match exactly when the glob matches with ** stopping at newlines |
| Glob.MeansTheSame | examples/relay-sync/gitignore.go:91-128 | in a text without newlines the expression matches exactly what the glob means |
| Glob.NewlinesMatter | examples/relay-sync/gitignore.go:100-107 | the expression is right about every text if and only if the glob has no ** |
| Glob.DoubleStarMissesNewline | examples/relay-sync/gitignore.go:106-107 | the glob ** matches a path that is a newline, its expression does not |
| Glob.GlobToRegex | examples/relay-sync/gitignore.go:93-128 | the loop's output is always well formed and has these two properties |
| Glob.BaseNameSuffices | examples/relay-sync/gitignore.go:143-147 | for a pattern without / and ** testing the base name is testing the whole path against **/ and the pattern |
| Ignore.CompileIgnoreLine | examples/relay-sync/gitignore.go:56-89 | the steps over a line give the rule its parts describe, and none exactly for comments and for lines without a pattern |
| Ignore.NoRule | examples/relay-sync/gitignore.go:57-86 | a line gives no rule if and only if it begins with #, or is at most one exclamation mark and two slashes followed by blanks and then carriage returns |
| Ignore.ReadsAs | examples/relay-sync/gitignore.go:56-89 | a line that spells its parts - a negation, a protecting backslash, a leading slash, a pattern, a trailing slash, blanks - reads as the rule they describe |
| Ignore.EveryRuleSpelled | examples/relay-sync/gitignore.go:56-89 | every line that gives a rule spells such parts, so nothing else gives one |
| Ignore.ReadsBack | examples/relay-sync/gitignore.go:56-89 | a rule written as a line, with any blanks behind it, reads back as that rule |
| Ignore.LineMeans | examples/relay-sync/gitignore.go:132-148 | a pattern with a slash is matched below the rule's directory, one without slash and ** at every depth, one without slash but with ** against the base name, and one with a trailing slash only for directories |
| Ignore.SpelledMeans | examples/relay-sync/gitignore.go:130-148 | such a line matches a path below its directory if and only if the glob does, over the whole path if there is a slash and at every depth if there is none and no **, and only directories if a slash ends it |
| Ignore.BelowIff | examples/relay-sync/gitignore.go:134-142 | a path is below a rule's directory if and only if it is that directory, a slash and the rest |
| Ignore.IsIgnored | examples/relay-sync/gitignore.go:152-160 | a path is ignored if and only if the last rule that matches it is not negated |
| Ignore.LaterRulesDecide | examples/relay-sync/gitignore.go:150-160 | of two groups of rules the later decides if any of its rules matches |
| RulePrecedence.LastLineDecides | examples/relay-sync/gitignore.go:46-53 | within one file the last line that matches decides |
| RulePrecedence.DeepestLineDecides | examples/relay-sync/proto.go:116-142 | by the rules the walk carries down, a path is ignored if and only if in the deepest .gitignore on the way that has a matching line the last such line is not negated |
| Walk.LoadIgnoreRules | examples/relay-sync/gitignore.go:46-53 | the rules of a file are those of its lines, in order |
| Walk.WalkTree | examples/relay-sync/proto.go:116-158 | the walk appends what the recursive specification finds, or fails with its error |
| Walk.BuildManifest | examples/relay-sync/proto.go:107-114 | the manifest is that list, sorted |
| Manifests.FoundIsListed | examples/relay-sync/proto.go:133-156 | every entry found is a regular file with no .git component that is not ignored and whose directories are not |
| Manifests.ListedIsFound | examples/relay-sync/proto.go:133-156 | every such file is found |
| Manifests.ManifestLists | examples/relay-sync/proto.go:103-158 | the manifest lists exactly the regular files for which neither they nor any directory above them is called .git or ignored by the rules from the root to its parent |
| Manifests.ManifestSorted | examples/relay-sync/proto.go:112-113 | it is sorted by path and lists no path twice |
| Manifests.ManifestFails | examples/relay-sync/proto.go:118-131 | it fails if and only if something unreadable lies where the walk goes |
| Manifests.OrderDoesNotMatter | examples/relay-sync/proto.go:103-114 | neither failure nor result depends on the order in which directories list their entries |
| Manifests.ManifestFlat | examples/relay-sync/proto.go:145-154 | no listed path is a directory of another one |
| RuleScope.SilentOutside | examples/relay-sync/gitignore.go:137-142 | a rule never matches a path that is not below its own directory |
| RuleScope.EveryRuleFile | examples/relay-sync/proto.go:117-126 | deciding by all .gitignore files of the tree ignores the same paths as the rules the walk carries along |
| RuleScope.ManifestByAllRules | examples/relay-sync/proto.go:103-158 | so the manifest lists exactly what the rules of all .gitignore files in the tree leave |
| Text.LeqIff | examples/relay-sync/proto.go:112 | paths are in order if one is a prefix of the other or has the smaller byte where they first differ |
| Sorting.SortUnique | examples/relay-sync/proto.go:112 | when keys are distinct any sort of the same entries gives the same list |
| Plan.BuildIndex | examples/relay-sync/client.go:113-119 | the index maps each path to its last entry |
| Plan.PlanSync | examples/relay-sync/proto.go:170-195 | for listings without repeated paths: copies before deletes, each sorted and without repetition, a copy exactly for every missing or different file, a delete exactly for every extra one if asked |
| Plan.PlanMirrors | examples/relay-sync/proto.go:166-195 | the plan as a function of the two listings has this property |
| Plan.PlanOnEntries | examples/relay-sync/proto.go:166-195 | a file is copied if and only if the other listing does not have it with the same size and time, and deleted if and only if that is asked for and only the other listing has it |
| Plan.MirrorUnique | examples/relay-sync/proto.go:166-169 | two trees leave only one such plan |
| Mirror.Replica.Put | examples/relay-sync/host.go:147-169 | a file is written unless a directory is in its place or a file above it, with its own time if that is positive |
| Mirror.Replica.RemoveAll | examples/relay-sync/client.go:103-105 | a delete leaves nothing at or below the path and everything else as it was, and the tree stays valid |
| Mirror.ManifestsAreSources | examples/relay-sync/proto.go:107-114 | manifests meet what the planner's results ask of a source |
| Mirror.ProgressAfter | examples/relay-sync/client.go:63-77 | after any number of actions the copied files are the source's, up to a time that was not set, the deleted ones gone, all others as they were |
| Mirror.RestMirrorsIff | examples/relay-sync/proto.go:170-195 | what a listing asks for after k actions is the rest of the plan if and only if what was copied is dated and the listing shows the same of what matters |
| Mirror.Resumes | examples/relay-sync/client.go:63-77 | after any prefix of the actions the next plan is exactly the rest, if and only if every file copied so far had a positive time and the receiver's listing, whatever it hides, shows the same of what matters as before |
| Mirror.SteadyView | examples/relay-sync/client.go:63-77 | the second condition holds whenever what is shown does not change and shows all the source has |
| Mirror.ResumesAfterCut | examples/relay-sync/client.go:95-102 | after a copy cut short the next plan repeats that copy and goes on, unless the part is shown and cannot be told from the whole |
| Mirror.Converges | examples/relay-sync/client.go:58-77 | a whole pass over dated files leaves the source's files and those of the receiver that it is to keep, shown or hidden; the next plan is empty if and only if the listing still shows what matters |
| Mirror.GetsThroughIff | examples/relay-sync/client.go:63-77 | no copy of a pass fails if and only if no source path is a directory on the other side or below a file there |
| Mirror.Apply | examples/relay-sync/client.go:63-77 | the loop does all actions, or stops at the first copy that is obstructed with the ones before it done |
| Mirror.RunPass | examples/relay-sync/client.go:48-109 | a pass completes if and only if the two sides are compatible, and a dry run changes nothing |
| Trees.DepictedIsValid | examples/relay-sync/proto.go:116-158 | what a directory looks like is a valid tree: no path is both file and directory, and everything lies in directories |
| Trees.ManifestDescribes | examples/relay-sync/proto.go:107-114 | the manifest of a directory is a listing, in the sense of these results, of the tree the directory looks like, showing what its rules leave |
| Trees.ResumesPlain | examples/relay-sync/client.go:48-109 | from one walk to the next, without -gitignore and whatever the receiver has under .git, an interrupted pass resumes exactly if and only if what it had copied was dated |
| SyncExamples.DirectoryInTheWay | examples/relay-sync/client.go:63-77 | two directories for which the plan has the delete that would clear the way for a copy, and the copy fails first |
| SyncExamples.UndatedNeverDone | examples/relay-sync/host.go:166-169 | two directories for which a whole pass copies a file and the next one copies it again |
| SyncExamples.IgnoreFileArrives | examples/relay-sync/proto.go:117-142 | two directories for which an interrupted pass with -gitignore does not resume: the copied .gitignore hides a file that was to be deleted |
| Reconnect.ConnManager.Set | internal/app/connmanager.go:84-89 | handing over a connection closes the current channel, which has to be open |
| Reconnect.ConnManager.Clear | internal/app/connmanager.go:91-96 | losing it makes a new open channel the current one and leaves the others as they are |
| Reconnect.ConnManager.Run | internal/app/connmanager.go:48-82 | Run never closes a closed channel, leaves no connection behind, and its waits follow from how the dials went and when it was cancelled |
| Reconnect.SleepsTurn | internal/app/connmanager.go:49-68 | turn by turn: a failed dial that is not cancelled is waited out for the time that belongs to the failures since the last connection, and nothing else is |
| Reconnect.SleepsEnd | internal/app/connmanager.go:48-82 | nothing is waited for after the turn that is cancelled |
| Reconnect.SleepsFrom | internal/app/connmanager.go:49-68 | consecutive failures wait 1, 2, 4, 8 and then 15 seconds each |
| Reconnect.SleepsBounded | internal/app/connmanager.go:49-68 | every wait is between the two bounds, and there is one for each failed dial of a run that is not cancelled |
| Reconnect.NextOk | internal/app/connmanager.go:48-114 | every step of Run and of any number of waiters keeps the current channel closed exactly while there is a connection |
| Reconnect.WaitsFollow | internal/app/connmanager.go:48-82 | in every interleaving with waiters the waits are exactly those of the failed dials, each for the failures since the last connection |
| Reconnect.NeverPanics | internal/app/connmanager.go:84-89 | no interleaving closes a channel twice |
| Reconnect.NoLostWakeUp | internal/app/connmanager.go:100-114 | in every interleaving a waiter's channel is the current one or closed, closed exactly if a connection was handed over since it looked, and so never open while there is one |
| Reconnect.HandOff | internal/app/connmanager.go:84-114 | waiters only get connections that were handed over, and every wait lies within the bounds |
| Retry.EarliestMeans | examples/relay-sync/main.go:281-303 | the least time before an attempt follows from the waits before it |
| Retry.AttemptsBounded | examples/relay-sync/main.go:283-303 | for a window of at least 15 seconds there is time for floor(window/15s) + 5 attempts and no further one |
| Retry.RunWithRetry | examples/relay-sync/main.go:279-305 | the loop ends whatever the environment does, within that bound, after one attempt for a zero window, and no wait begins after the deadline; it goes on exactly behind attempts that failed within the window without a cancellation, gives up exactly if time is up, and is cancelled exactly if the environment cancelled during the last attempt or wait; each wait has its time and length |
| Admin.Disk.SaveAdmin | internal/config/save.go:24-95 | the two fields are overridden by what is not empty; it panics if and only if the file holds just null; a refusal or panic leaves the file alone |
| Admin.SurvivesIff | internal/config/save.go:20-60 | every value outside the two fields survives a save if and only if server is absent or an object and admin in it is absent or an object |
| Admin.SaveCanLose | internal/config/save.go:47-60 | a document whose server is a string, which a successful save loses |
| Admin.NextSecure | internal/signal/admin.go:69-126 | across every login, logout, lookup, expiry, account change and restart: unrestricted sessions only with a password, all sessions for the account's name, the file equal to the account; and no step unsets a password |
| Admin.AccountSafety | internal/signal/admin.go:255-258 | so in every run from a matching file: whoever is authorized is so on an account with a password, a password once set stays set, and a restart restores the account |
| Admin.ReviewExact | internal/signal/admin.go:379-421 | a change passes if and only if the current password is right, the new name valid, the new password long enough, and something changes, which includes the password if there is none |
| Admin.ChangeTakesEffect | internal/signal/admin.go:433-457 | an accepted change leaves one unrestricted session, the new credentials work, and a retired name does not |
| Admin.LoginExact | internal/signal/admin.go:220-241 | a login opens a session if and only if name and password match, and an authorized one only if a password is set |
| Admin.AcceptedExactly | internal/signal/admin.go:362-432 | a change is accepted if and only if it comes from a session that has not expired, passes that review, and can be hashed and written |
| AdminSessions.SigningIn | internal/signal/admin.go:69-82 | a login opens a session for the configured time, and leaves no session that has expired |
| AdminSessions.SessionLasts | internal/signal/admin.go:84-126 | in every run a session can be used if and only if the waits since its login add up to at most the configured time and no sign-out, change of the account from another session or restart has ended it; it authorizes exactly if there was a password at the login or one was chosen from it since |
| AdminSessions.SignedInBefore | internal/signal/admin.go:84-93 | whoever is signed in did sign in with that token, at most the configured time ago |
| AdminServer.AuthServer.constructor | internal/signal/admin.go:62-67 | sessions last twelve hours unless another time is configured |
| AdminServer.AuthServer.Reap | internal/signal/admin.go:119-126 | the sessions whose time has passed are removed, no others |
| AdminServer.AuthServer.Issue | internal/signal/admin.go:69-82 | a session is added after expired ones are removed |
| AdminServer.AuthServer.Lookup | internal/signal/admin.go:84-93 | a token is found if and only if it stands for a session whose time has not passed, and forgotten if its time has passed |
| AdminServer.AuthServer.Revoke | internal/signal/admin.go:95-99 | the token stands for no session any more, and every other session is as it was |
| AdminServer.AuthServer.Rename | internal/signal/admin.go:105-117 | only the given session is kept, under the new name and without restriction |
| AdminServer.AuthServer.AuthSession | internal/signal/admin.go:244-250 | a request's session is that of its cookie, if the cookie is not empty and the session's time has not passed |
| AdminServer.AuthServer.IsAuthorized | internal/signal/admin.go:255-258 | authorized means signed in and not restricted |
| AdminServer.AuthServer.HandleLogin | internal/signal/admin.go:329-336 | a login takes the login step |
| AdminServer.AuthServer.HandleLogout | internal/signal/admin.go:346-349 | a logout takes the logout step |
| AdminServer.AuthServer.HandleAccount | internal/signal/admin.go:362-457 | a change of the account takes the account step: file, memory and sessions change together or not at all |
| Socks.RequestsAccepted | internal/app/socks.go:54-110 | every greeting and CONNECT request is accepted with its address and port, for every address form, and what follows is left unread |
| Socks.OnlyRequestsAccepted | internal/app/socks.go:54-110 | nothing else is accepted: what was consumed is the encoding of the request returned, offered methods, request version and reserved byte being arbitrary |
| Socks.OneReading | internal/app/socks.go:54-110 | no stream begins with two different requests |
| Socks.Stream.ReadFull | internal/app/socks.go:57-59 | the wanted number of bytes goes into the buffer, or the read fails |
| Socks.ReadHost | internal/app/socks.go:80-102 | the address is read by its form through the one buffer, without overrunning it |
| Socks.Handshake | internal/app/socks.go:54-110 | the handshake's result, its replies and what it leaves unread are those of the parse, whichever writes succeed; only a failing first reply makes it fail; the replies are 5 0 and then code 0 if the request is granted, 7 if its command is not supported |

## Left out

- QUIC, TLS, certificates and fingerprints are opaque values; WebSocket, HTTP, JSON and cookies are left out: messages are datatypes, and a handler's response is its result.
- Server.RendezvousServer.DropSession: the sign-in check in front of the three admin handlers is not repeated there; `AuthServer.IsAuthorized` is that check.
- Rendezvous: a critical section and the messages it sends are one step, so another handler's message cannot come between the section and its sends; counters are unbounded and do not wrap around at 64 bits; UDP writes succeed.
- RendezvousRuns.SilenceBound: the ticker is a step of its own, so the bound speaks of states less than a minute after the latest sweep.
- Session views, relay and status snapshots, names of peers and time stamps for display only read the state or concern rendering.
- Addresses are compared by their canonical text; resolving a name is a parameter. IPv6 zones and listing the local interfaces are not modelled.
- Punch.Punch: arrivals and time-outs are a parameter, so nothing is said about how long a round takes or that two peers will agree on a path; the code promises neither.
- Globs are sequences of characters: for text that is not valid UTF-8 the library refuses the expression. Globs compile to the emitted part of the syntax only.
- Trees.ManifestDescribes: the tree has no symbolic links, devices or other special files, which the walk passes over but which can be in the way of a copy.
- Walk.WalkTree: a tree does not change during the walk, and reading a .gitignore gives its lines or an error; the scanner's line length limit is such an error.
- Mirror.RunPass: file contents and modes are not modelled, only sizes and times; resolving a path below the root is taken as given.
- Retry.RunWithRetry: durations are parameters of the environment; the clock is monotone and a wait lasts at least as long as asked.
- Socks.Handshake: the address is returned in its parts, not as host:port text.
- Admin.Disk.SaveAdmin: numbers in the rest of the document are kept as they are, while the library reads them as floating point; the temporary file and its renaming are one write.
- verifyPassword, hashPassword, sanitizeName, confine, the framing of control messages, configuration flags, self-update, tunnels and the web interface are not part of this model.
