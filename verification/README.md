# A verified model of the norn-rs mesh protocols

norn-rs is a mesh routing daemon. This Dafny project models the parts of it whose correctness is a
matter of protocol or of algebra rather than of library code, and proves what they are meant to
keep over every input and every run:

- the Sphinx-style onion cell: built back to front with a precomputed filler, peeled hop by hop;
- the session layer: packet keys, the one-way ratchet, the replay window, crossing handshakes, the
  rate limit on Inits and the retransmit backoff that has to stay below it;
- the cuckoo filter with its random kicks, as a multiset of entries;
- the router's protocols: flooded announcements, root election, parent choice with hysteresis,
  transit forwarding, consensus trust and the onion replay cache;
- the obfuscated byte stream under any chunking, stall or failure of the transport;
- the wire codec: integers, paths, Traffic packets and frames.

Run `dafny verify dfyconfig.toml` to check it.

## How it is modelled

Code that changes things step by step is a class or a method with loops, proved against a function
or a predicate; what the source promises is then proved about that function or about every run.

- Keystreams, hashes, MACs, key agreement, key encapsulation and AEAD are arbitrary function values
  (`Lioness.Suite`, `Session.Crypto`, `Handshake.Kem`, `Cuckoo.Hashes`, `Obfs.Blocks`) of which only
  the laws written down as predicates are assumed: both ends of a Diffie-Hellman exchange agree,
  decapsulation inverts encapsulation, an AEAD opens what it sealed.
- Random draws are parameters or nondeterministic choices, so every theorem holds for all of them.
  A clock reading is a number of milliseconds since the clock's start. Floats are reals. Widths,
  wrap-around, saturation and truncation of machine integers are written out.
- What a handshake message decodes to and the answers of the signature checks and of the rate
  limiter arrive as parameters, and so does whether an announcement is authentic.
- A hash map is iterated by picking keys in any order.

## What is not as promised

Where a promise turned out to hold only under a condition, the model keeps the code as it is, and a
lemma gives the exact condition.

- The limit on Inits holds exactly on clocks of at least 10 s less a millisecond
  (`RateLimit.LimitHoldsIff`): on a younger one the cutoff falls back to the present instant.
- The same fallback makes consensus leave out all but the newest reports on a clock younger than an
  hour (`Consensus.ValidityHonouredIff`).
- The trimmed mean resists exactly a quarter of the observers, by number (`Consensus.ResistsIff`).
  src/router/mod.rs:153-158 and src/router/reputation.rs:204-206 promise a quarter of the voting
  weight; that fails for every number of observers (`ConsensusShare.QuarterOfWeightFails`), and
  `ConsensusShare.ResistsShareIff` gives the far smaller share of weight that is resisted.
- Which of several equal scores are trimmed depends on the iteration order of a hash map, and so can
  the consensus (`ConsensusOrder.OrderMatters`). It is a function of the table exactly when only one
  score is kept, or neither cut separates equal scores of unequal weight
  (`ConsensusOrder.ConsensusDeterminedIff`).
- Crossing handshakes do not always converge. At any time, whatever the network does to Inits and
  Acks and however sessions are lost, and with all secrets distinct, two peers have converged exactly
  when each has the other's current key and both go by the same Ack (`HandshakeNet.ConvergedIff`):
  the smaller peer by the last Ack it took in its session, or else its first answer, the larger one
  by its last answer, or else the first Ack it took. As long as sessions are kept this is one
  condition on the Acks (`HandshakeNet.KeptConvergedIff`), which Acks that all arrive in order meet
  (`HandshakeNet.CrossingInitsConverge`) and a lost or overtaken one can miss.
- A session lost on one side alone and set up anew by that side converges exactly when it was the
  smaller peer's (`HandshakeNet.LossRepairedIff`). The larger peer takes the new secret while the
  smaller one keeps the old, and neither sends an Init any more (`HandshakeNet.LargeLossDiverges`).
- The retransmit backoff stays below the receiver's limit exactly with less than 5 s of jitter
  (`RateLimit.BackoffSafeIff`).
- The next copy of an announcement is not always dropped. It is, whichever strangers a full table
  evicts in between, exactly when the first copy could be recorded and its entry was never at risk:
  no new topic met a full table while the owner was not a peer (`FloodCopies.SecondCopyDropped`).
  With unchanging peers this can be read off the topics that come up
  (`FloodCopies.HeldCopyDroppedIff`). Both hold for announcements and for reputation reports.
- The tables do not keep their caps. A table of announcements passes its cap by one, for the node's
  own entry, and never by more (`FloodCaps.AnnouncementCap`, `FloodCaps.OwnPassesCap`). Reports about
  a node already observed are never turned away (`FloodCaps.ReputationCap`), so their number has no
  bound (`FloodCaps.ReputationUnbounded`).
- A flood stops at a node whose clock finds the item stale or too far ahead: exactly the nodes that
  some path of nodes finding it fresh connects to the owner end up with it
  (`Flood.QuiescentMeansDelivered`).
- Costs and depths of the tree never settle where there are links: the root takes a parent as soon as
  a peer echoes its identity back (src/router/mod.rs:646-653 tolerates this). In a settled network every
  cost is 2^64 - 1 except of nodes without peers (`TreeCost.SettledCostFiniteIff`), following parents
  ends for those only (`TreeCost.AncestorsEndIff`), and depths fit only where nobody has a peer
  (`TreeCost.DepthsSettleIff`).
- A session's packets decrypt in order exactly until its counter wraps (`Ratchet.InOrderDeliversIff`).
- A path survives encoding exactly when it has at most 1024 hops, none of them 2^64 - 1
  (`Codec.PathRoundTrip`). The model wraps `hop + 1`, as a build without overflow checks does.
- The hop counter lets every packet through that geometry can route exactly in networks of at most
  34 nodes, the sender included (`JourneyBound.DeliversIff`).
- `poll_write` of the obfuscated writer can report an error after it took the bytes over, so that a
  caller that writes them again has them sent twice. It did so exactly when the transport took all
  that was pending before (`Obfs.CipherWriter.PollWrite`, `Obfs.FailedWriteIsKept`).
- src/obfs.rs:75-78 calls the keystream infinite for practical purposes; it repeats exactly every
  2^70 bytes (`Obfs.StreamRepeats`).

## Model

| member | source | states |
|---|---|---|
| Lioness.Suite.RoundsCancel | src/sphinx.rs:163-181 | each of the four rounds is its own inverse for every keystream and hash |
| Lioness.Suite.FourRounds | src/sphinx.rs:144-170 | whatever satisfies the four equations of the cipher byte by byte, each round under a key of its own, is the encrypted block |
| Lioness.Suite.DecryptUndoesEncrypt | src/sphinx.rs:163-181 | decrypting an encrypted block gives it back, for every key and length |
| Lioness.Suite.EncryptUndoesDecrypt | src/sphinx.rs:163-181 | and the other way round: the cipher is a permutation of blocks |
| Lioness.XorInto | src/sphinx.rs:144-148 | XORs into just the given stretch of the buffer and leaves the rest |
| Lioness.LionessEncrypt | src/sphinx.rs:163-170 | works in place and leaves exactly the encrypted block |
| Lioness.LionessDecrypt | src/sphinx.rs:173-181 | works in place and leaves exactly the decrypted block |
| Sphinx.FillerLastBlock | src/sphinx.rs:210-219 | the last block of each filler is what a relay's zero extension unmasks to |
| Sphinx.BetaEndsInFiller | src/sphinx.rs:210-249 | the header made for hop k ends in the first k filler blocks |
| Sphinx.UnmaskedAtRelay | src/sphinx.rs:300-311 | what a relay unmasks is its routing block, the next MAC and, byte for byte, the header the builder made for the next hop |
| Sphinx.UnmaskedAtExit | src/sphinx.rs:236-249 | the filler overwrite does not touch the exit's own slot |
| Sphinx.HopFindsSecret | src/sphinx.rs:289-298 | the MAC check accepts at every hop and yields the secret the sender used |
| Sphinx.RelayForwards | src/sphinx.rs:277-334 | a relay turns the cell of hop i into exactly the cell the builder would have made for hop i + 1 |
| Sphinx.ExitDelivers | src/sphinx.rs:313-324 | the exit delivers exactly the traffic |
| Sphinx.SphinxDelivers | src/sphinx.rs:192-338 | end to end, for every path of one to five hops and all traffic that fits: constant cell size, each node's own tag, and the original traffic at the end |
| Sphinx.ComputeFiller | src/sphinx.rs:210-219 | the filler loop computes the filler of the specification |
| Sphinx.ComputeHeader | src/sphinx.rs:221-249 | the back-to-front loop computes header and MAC of the first hop |
| Sphinx.ComputePayload | src/sphinx.rs:251-258 | the payload loop computes the layered payload of the first hop |
| Sphinx.BuildSphinx | src/sphinx.rs:192-269 | the cell is the first hop's, and exactly which inputs are refused with which error |
| Sphinx.FindSecret | src/sphinx.rs:289-298 | finds the secret of the first key that authenticates; which keys those are is `SphinxRefusal.RefusedIff` |
| Sphinx.ProcessSphinx | src/sphinx.rs:277-338 | works as `Sphinx.Process`: RelayForwards and ExitDelivers say when it succeeds, SphinxRefusal when it refuses |
| SphinxRefusal.RefusedIff | src/sphinx.rs:277-298 | a cell is refused as not for us exactly if it is well formed and every key of the ring computes a MAC that differs in at least one of its 16 bytes |
| SphinxRefusal.RefusedAtHopIff | src/sphinx.rs:289-298 | with the hop's ephemeral key in it: exactly if its MAC is not that of its header under the sender's secret |
| SphinxRefusal.ChangedMacRefused | src/sphinx.rs:289-298 | so any change of the MAC is refused by the hop the cell was built for |
| SphinxRefusal.ChangedHeaderRefusedIff | src/sphinx.rs:289-298 | and a change of the header exactly unless the two headers collide under the MAC |
| SphinxRefusal.MatchedOutcome | src/sphinx.rs:300-338 | a cell that a key matches is forwarded, delivered or refused by its flag byte, and at the exit by its length, with the error of each |
| SphinxRefusal.ExitSees | src/sphinx.rs:221-249 | under the keystream the exit finds its flag, the random fill of its slot, no MAC and the random fill of the header |
| SphinxRefusal.ExitReads | src/sphinx.rs:251-258 | and under the payload's cipher the length, low byte first, the traffic and the random padding |
| Session.Window.RefusesExactly | src/session.rs:482-498 | the mask refuses a number exactly if it was accepted or is 64 or more behind, with the error of each |
| Session.Window.AcceptTracks | src/session.rs:536-548 | after the shift and the set bit, bit i is set exactly if high - i was accepted |
| Session.DhSharedIsFresh | src/session.rs:389-401 | the memoised secret always equals a fresh Diffie-Hellman, whatever keys have rotated, and is kept under the keys it belongs to |
| Session.DecryptKeeps | src/session.rs:459-554 | every packet keeps the cache sound, and a refused one changes nothing but the cache |
| Session.DecryptMovesWindow | src/session.rs:482-548 | the window moves exactly on acceptance and by that packet's number |
| Session.ClaimsOfPacket | src/session.rs:415-443 | the packet layout gives key, number and ciphertext back |
| Session.ApplyKeepsCache | src/session.rs:389-450 | whatever happens to a session, the memoised secret stays sound |
| Session.ApplyMovesWindow | src/session.rs:1131-1145 | only an accepted packet moves the window; further handshakes do not reset it |
| Session.WindowRefinesSet | src/session.rs:459-554 | over every run of packets, sends, key rotations and further handshakes the mask refines the set of accepted numbers |
| Session.AcceptedIffNew | src/session.rs:459-554 | after any such run a packet is accepted exactly if it is authentic, its number is new and less than 64 behind |
| Session.RefusedWhy | src/session.rs:459-531 | and which error a refused packet gives: too short, too old, already seen or not authentic, each exactly when |
| Session.NeverAcceptedTwice | src/session.rs:482-498 | no number is accepted twice in such a run, however keys and secrets change in it |
| Session.EncryptOpens | src/session.rs:415-443 | what is encrypted opens under the receiver's own secret |
| Session.EmittedOpen | src/session.rs:415-450 | whatever a session goes through, each packet it sends opens for the holder of the key it was sent to |
| Session.RatchetDelivers | src/session.rs:415-554 | for any history of both ends and any delivery order: a packet sent to the receiver's present key and secret decrypts to its plaintext exactly if its number is new and in the window |
| Session.FallbackPromotes | src/session.rs:500-548 | a packet under the retired secret still decrypts, and the session settles on that secret and the sender's key |
| Session.SessionInfo.constructor | src/session.rs:344-367 | starts with an empty window and no secret |
| Session.SessionInfo.Shared | src/session.rs:389-401 | returns and stores the memoised secret as specified |
| Session.SessionInfo.Seal | src/session.rs:415-443 | packet and new state are those of `Session.Encrypt`, whose packets `Ratchet.PacketsNumbered` and `Session.EmittedOpen` are about |
| Session.SessionInfo.RotateLocalKey | src/session.rs:446-450 | changes the key pair and nothing else |
| Session.SessionInfo.Open | src/session.rs:459-554 | result and new state are those of `Session.Decrypt` on every path; see `Session.RefusedWhy` and `Ratchet.FollowsSender` |
| Ratchet.PacketsNumbered | src/session.rs:415-443 | over every run the i-th packet sent carries the starting number plus i, modulo 2^64 |
| Ratchet.NumbersDiffer | src/session.rs:440-440 | so no two packets fewer than 2^64 sends apart share a number, and with it a nonce |
| Ratchet.SentUnderLatestKey | src/session.rs:415-450 | every packet is sent under the last key rotated to |
| Ratchet.FollowsSender | src/session.rs:550-551 | an accepted packet makes its first 32 bytes the key to answer to; a refused one leaves that key |
| Ratchet.InOrderDeliversIff | src/session.rs:415-554 | all that a session sends, handed in order to a fresh receiver with the key and the secret it is for, decrypts in full exactly if the counter does not wrap |
| Ratchet.AnswerDelivers | src/session.rs:446-554 | once a packet sent under the present key is taken, the answer decrypts to its plaintext exactly if its number is new and in the window; nothing is assumed about the key held before |
| Ratchet.ConversationDelivers | src/session.rs:446-554 | two sides in step stay in step through every conversation, with any order of turns and any rotations, and hear all that is said |
| HandshakeNet.StepKeepsInv | src/session.rs:1082-1270 | every step, with messages late, repeated, reordered or lost and sessions forgotten, keeps which Ack each peer's secret comes from |
| HandshakeNet.RunKeepsInv | src/session.rs:1082-1307 | and so does every run |
| HandshakeNet.ConvergedIff | src/session.rs:1112-1200 | at any time of any run, with secrets distinct: converged exactly if both have the other's current key and go by the same Ack, made for its receiver's present key |
| HandshakeNet.StepKeepsKeys | src/session.rs:1082-1203 | as long as sessions are kept, every message carries its sender's one key |
| HandshakeNet.KeptConvergedIff | src/session.rs:1112-1200 | then: converged exactly if the right Ack was taken |
| HandshakeNet.CrossingInitsConverge | src/session.rs:1131-1200 | so they converge once all Acks were taken in order and some Init was answered, however Inits cross, repeat or get lost |
| HandshakeNet.ConvergedPeersTalk | src/session.rs:1131-1200 | converged peers derive the same packet key, and each decrypts what the other sends |
| HandshakeNet.ConvergedPeersConverse | src/session.rs:446-554 | and everything they say to each other from then on is heard, however often they rotate keys |
| HandshakeNet.LossRepairedIff | src/router/mod.rs:1312-1323 | after the loss of one session, set up anew in order by the loser: converged again exactly if the smaller peer lost it |
| HandshakeNet.LargeLossDiverges | src/router/mod.rs:582-600 | a run with all Acks in order that settles apart after the larger peer lost its session |
| HandshakeNet.ReorderedAcksDiverge | src/session.rs:1182-1200 | a run in which Acks overtake one another settles on different secrets |
| HandshakeNet.LostAckDiverges | src/session.rs:1182-1200 | and so does a run in which an Ack is lost |
| Handshake.HandshakeIsOp | src/session.rs:1131-1200 | a further handshake is a step of the session's run |
| Handshake.RetiredKeyAckDelivers | src/session.rs:1174-1200 | an Ack made for the retired key, adopted by both: the peer's first packet decrypts by the fallback, and leaves one secret and the right keys on both sides |
| Handshake.AnsweredNeverResends | src/session.rs:1283-1307 | an answered handshake is never resent; an unanswered one is due after 1, 2, 4, 8, 16 and then every 30 s |
| Handshake.SessionManager.constructor | src/session.rs:957-970 | starts without sessions |
| Handshake.SessionManager.HandleInit | src/session.rs:1082-1160 | answers and updates exactly the one session by the tie-break rule, or refuses with the error of the first check that fails and changes nothing |
| Handshake.SessionManager.HandleAck | src/session.rs:1166-1203 | refuses with the error of the first check that fails, or as unsolicited, else updates exactly the one session |
| Handshake.SessionManager.GetOrInitiate | src/session.rs:1265-1270 | starts a session only if there is none |
| Handshake.SessionManager.Remove | src/session.rs:1256-1258 | forgets the one session and no other |
| Handshake.SessionManager.PendingHandshakeInits | src/session.rs:1283-1307 | resends exactly the pending Inits that are due, each with its session's own key, and none of an established session |
| RateLimit.RateLimiter.RateLimited | src/session.rs:1019-1047 | one call prunes, evicts a stale entry if full, refuses or records |
| RateLimit.LogBounded | src/session.rs:1019-1047 | the log never outgrows its cap |
| RateLimit.TraceKeepsInv | src/session.rs:1019-1047 | over every run the log lacks only accepted times older than the window |
| RateLimit.LimitHoldsOnTrace | src/session.rs:1019-1047 | at most four accepted Inits of a source in any closed 10 s interval |
| RateLimit.YoungClockFails | src/session.rs:1021-1023 | on a younger clock five are accepted within a millisecond |
| RateLimit.LimitHoldsIff | src/session.rs:1019-1047 | exactly on which clocks the limit holds |
| RateLimit.BackoffGaps | src/session.rs:1283-1307 | two Inits of a session are at least the backoff interval apart, whenever it is polled |
| RateLimit.FiveInitsSpan | src/session.rs:66-67 | any five Inits of one pending session span at least 15 s |
| RateLimit.BackoffNeverLimited | src/session.rs:945-951 | with less than 5 s of jitter and room in the log, no Init of the session is ever refused |
| RateLimit.BackoffSafeIff | src/session.rs:945-951 | and 5 s is exact: with more, the fifth Init can be refused |
| Cuckoo.Fingerprint | src/cuckoo.rs:33-39 | a fingerprint is never the mark of a free slot |
| Cuckoo.Bucket2Involutive | src/cuckoo.rs:50-60 | the two buckets of a fingerprint point at each other |
| Cuckoo.BucketsApart | src/cuckoo.rs:50-60 | they differ by an offset that depends on the fingerprint alone |
| Cuckoo.SameEntryIff | src/cuckoo.rs:33-60 | exactly which keys cannot be told apart, by their hashes |
| Cuckoo.SlotUpdate | src/cuckoo.rs:62-80 | overwriting a slot exchanges what it stood for and nothing else |
| Cuckoo.EntryPresent | src/cuckoo.rs:132-138 | an entry is in the multiset exactly if its fingerprint is in one of its two buckets |
| Cuckoo.DecodeUndoesEncode | src/cuckoo.rs:141-165 | decoding an encoded table gives it back |
| Cuckoo.EncodeUndoesDecode | src/cuckoo.rs:141-165 | and encoding a decoded one gives the bytes back |
| Cuckoo.CuckooFilter.constructor | src/cuckoo.rs:25-31 | an empty filter |
| Cuckoo.CuckooFilter.InsertSlot | src/cuckoo.rs:62-70 | fills the first free slot, or fails exactly if there is none |
| Cuckoo.CuckooFilter.RemoveSlot | src/cuckoo.rs:72-80 | frees the first slot with the fingerprint, or fails exactly if there is none |
| Cuckoo.CuckooFilter.Cascade | src/cuckoo.rs:98-114 | for every sequence of random kicks: nothing is lost, or exactly one entry after a walk of that many kicks through full buckets |
| Cuckoo.CuckooFilter.Add | src/cuckoo.rs:86-115 | inserts exactly one entry, or inserts it and loses one, with the count to match; that only after a walk of 500 kicks through full buckets |
| Cuckoo.CuckooFilter.Remove | src/cuckoo.rs:117-130 | removes one copy exactly if there is one, else changes nothing |
| Cuckoo.CuckooFilter.Contains | src/cuckoo.rs:132-138 | holds exactly if the key's entry is present |
| Cuckoo.CuckooFilter.MergeSlot | src/cuckoo.rs:176-213 | takes over one entry unless present; an exhausted cascade loses exactly one, after 32 kicks through full buckets |
| Cuckoo.CuckooFilter.Merge | src/cuckoo.rs:176-213 | set union up to one entry lost per exhausted cascade, exactly union if there was none, with the count to match |
| Cuckoo.CuckooFilter.Encode | src/cuckoo.rs:141-150 | writes every slot, low byte first |
| Cuckoo.CuckooFilter.Decode | src/cuckoo.rs:152-165 | reads the table back and counts its occupied slots |
| Flood.AnnounceTable.Broadcast | src/router/mod.rs:1111-1138 | announces under the next number to every peer |
| Flood.AnnounceTable.Record | src/router/mod.rs:1272-1288 | at the cap, evicts a stranger or does not record |
| Flood.RecordSpares | src/router/mod.rs:1272-1288 | no peer and not the node itself ever loses its entry to another |
| Flood.AnnounceTable.Handle | src/router/mod.rs:1142-1195 | accepts and forwards exactly a fresh, authentic and newer announcement of someone else |
| Flood.FreshSpan | src/router/mod.rs:1159-1175 | an item is fresh from a minute ahead until it is too old, and never again |
| Flood.ReputationTable.constructor | src/router/reputation.rs:153-180 | no reports |
| Flood.ReputationTable.Total | src/router/reputation.rs:164-164 | adds up all reports |
| Flood.ReputationTable.Record | src/router/reputation.rs:153-180 | changes exactly the one report, or drops all reports about one stranger for it, or does not record |
| Flood.ReportSpares | src/router/reputation.rs:161-180 | no report about a peer or the node itself is ever dropped for another |
| Flood.ReputationTable.Report | src/router/reputation.rs:9-40 | records the own view by the same rule and sends it to every peer |
| Flood.ReputationTable.Handle | src/router/reputation.rs:43-89 | accepts, records and forwards exactly a fresh, authentic and newer report of someone else about a third |
| FloodCopies.HeldCopyDropped | src/router/mod.rs:1142-1195 | a node that holds an item drops the next copy, for all choices of victims and changes of peers, exactly if no history puts its entry at risk |
| FloodCopies.SecondCopyDropped | src/router/mod.rs:1142-1195 | and from the first copy on: exactly if that could be recorded and is never put at risk |
| FloodCopies.HeldCopyDroppedIff | src/router/mod.rs:1272-1288 | with unchanging peers: exactly if its node is a peer or the topics that come up do not overflow the table |
| FloodCaps.AnnouncementCap | src/router/mod.rs:1127-1132 | a table of announcements passes its cap exactly by a new own entry, and never by more than one |
| FloodCaps.AnnouncementsBounded | src/router/mod.rs:1272-1288 | over every history: at most one entry above the cap, the own one |
| FloodCaps.OwnPassesCap | src/router/mod.rs:1127-1132 | and a history that gets there |
| FloodCaps.ReputationCap | src/router/reputation.rs:161-180 | reports outgrow the cap exactly by a new one about a node already observed |
| FloodCaps.ReputationUnbounded | src/router/reputation.rs:161-180 | so there are histories with any number of reports |
| FloodCopies.TopicsSoFar | src/router/mod.rs:1272-1288 | until the table overflows, all histories hold the same topics |
| Flood.PublishKeepsInv | src/router/mod.rs:1111-1138 | announcing keeps, on every edge: a neighbour that finds the item fresh is as new, or the item is on its way |
| Flood.DeliverKeepsInv | src/router/mod.rs:1142-1195 | delivering keeps it too |
| Flood.RunKeepsInv | src/router/mod.rs:1111-1195 | so it holds in every run on any finite network |
| Flood.HeldOnlyRises | src/router/capabilities.rs:37-99 | what a node holds only gets newer |
| Flood.AcceptedAtMostOnce | src/router/capabilities.rs:37-79 | no node accepts and forwards the same announcement twice |
| Flood.DeliveryShrinksWork | src/router/mod.rs:1142-1195 | every delivery of any message leaves strictly less work |
| Flood.FloodTerminates | src/router/mod.rs:1142-1195 | so every flood ends after at most that many deliveries |
| Flood.StepKeepsFed | src/router/mod.rs:1159-1175 | whatever is held or on its way came along nodes that found it fresh |
| Flood.QuiescentMeansDelivered | src/router/mod.rs:1111-1195 | and then exactly the nodes so connected to the owner hold the owner's newest item |
| Flood.AllConnectedHold | src/router/mod.rs:1111-1195 | all connected nodes, if all find it fresh |
| TreeMath.MetricLessIsNumeric | src/router/treemath.rs:76-78 | byte-wise comparison is comparison as numbers, and a total order |
| TreeMath.TreeMetricAt | src/router/treemath.rs:60-73 | the metric is the key XOR the epoch's salt |
| TreeMath.RankInjective | src/router/treemath.rs:60-78 | within an epoch no two keys tie |
| TreeMath.MetricsDoNotTie | src/router/treemath.rs:60-78 | so the metric ranks all keys strictly |
| FixTree.ParentNearCheapest | src/router/mod.rs:685-726 | a parent costs at most the margin more than the cheapest announcer of its root |
| FixTree.ParentCostIsSum | src/router/mod.rs:654-726 | the cost recorded is what the parent announced plus the link to it; a new parent is no dearer than any fresh announcer, a kept one by at most the margin |
| FixTree.IncumbentKeptIff | src/router/mod.rs:685-697 | a live incumbent is kept exactly if no announcer saves more than the margin |
| FixTree.ExpiredIgnored | src/router/mod.rs:640-644 | announcements older than 30 s are as if never made |
| FixTree.OrderIrrelevant | src/router/mod.rs:628-684 | the iteration order changes neither the root nor whether there is a parent |
| FixTree.RerunKeepsParent | src/router/mod.rs:623-734 | running again on the same table keeps root, parent and cost, and renews the number of an own root |
| FixTree.TreeRouter.HandleAnnounce | src/router/handlers.rs:85-128 | replaces the peer's last announcement and ignores strangers |
| FixTree.TreeRouter.FixTree | src/router/mod.rs:623-734 | the root is the best on offer; the parent is the cheapest fresh announcer or an incumbent within the margin; depth follows; for the cost see `FixTree.ParentCostIsSum` |
| FixTree.TreeRouter.Settle | src/router/mod.rs:685-726 | hysteresis and the choice of being one's own root, given the scan |
| TreeCost.ChainCostIsSum | src/router/mod.rs:623-765 | along a chain of parents the cost at the end is the cost at the start plus all the links between, up to 2^64 - 1 |
| TreeCost.SettledCostFiniteIff | src/router/mod.rs:646-653 | in a settled network the cost of a node is below 2^64 - 1 exactly if it has no peers |
| TreeCost.ExhaustedSettles | src/router/mod.rs:646-653 | two peers that have counted all the way up do settle |
| TreeCost.AncestorsEndIff | src/router/mod.rs:646-653 | in a settled network following parents ends exactly from a node without peers |
| TreeCost.DepthsSettleIff | src/router/mod.rs:713-719 | depths settle exactly in a network without links |
| Election.FixTreePicksLeast | src/router/mod.rs:623-734 | the root picked is the best of one's own and the peers' |
| Election.RoundsReachBall | src/router/mod.rs:623-765 | after r rounds each node holds the best node at most r hops away |
| Election.ElectionConverges | src/router/mod.rs:623-765 | after as many rounds as nodes everybody connected holds the best node of all |
| Election.StepKeepsInv | src/router/mod.rs:623-765 | in any interleaving, what a link carries only improves |
| Election.RootOnlyImproves | src/router/mod.rs:623-765 | every root ever held is a real node, and a node's root only gets better |
| Election.FixpointAgrees | src/router/mod.rs:623-765 | any fixpoint of any run agrees on the best node |
| Consensus.ValidityHonouredIff | src/router/reputation.rs:215-223 | exactly on which clocks a report counts for its whole validity |
| Consensus.SortSorted | src/router/reputation.rs:239-239 | the votes are sorted by trust |
| Consensus.CountSort | src/router/reputation.rs:239-239 | sorting keeps how many votes have any property |
| Consensus.SortPermutes | src/router/reputation.rs:239-239 | sorting only rearranges the votes |
| Consensus.KeptWithin | src/router/reputation.rs:239-245 | with at most a quarter bad, all votes kept lie in the honest range |
| Consensus.ByzantineBound | src/router/reputation.rs:213-252 | so does the weighted mean, whatever the weights; it exists, as the weight kept is positive |
| Consensus.AttackSucceeds | src/router/reputation.rs:239-252 | one bad vote more than a quarter, of the least weight, moves the mean out of it |
| Consensus.ResistsIff | src/router/reputation.rs:239-252 | exactly how many bad votes are resisted |
| ConsensusShare.LightBadAreFew | src/router/reputation.rs:224-232 | below the least share, bad observers are too few |
| ConsensusShare.ResistsShareIff | src/router/reputation.rs:204-206 | exactly which share of the weight is resisted, for every number of observers |
| ConsensusShare.QuarterOfWeightFails | src/router/mod.rs:153-158 | a quarter of the weight never is, and the votes that show it weigh no more than that |
| ConsensusOrder.SumsPermute | src/router/reputation.rs:246-250 | the sums depend on the votes kept, not on their order |
| ConsensusOrder.PrefixDetermined | src/router/reputation.rs:239-242 | what lies before a cut that separates no unlike votes of one score is determined |
| ConsensusOrder.SwapMovesMean | src/router/reputation.rs:239-252 | exchanging a kept vote for a trimmed one of its score but another weight moves the mean |
| ConsensusOrder.OrderFreeIff | src/router/reputation.rs:239-252 | exactly when the mean is the same for every order of the votes |
| ConsensusOrder.ConsensusDeterminedIff | src/router/reputation.rs:218-252 | exactly when the consensus is the same for every order in which the hash map hands out the fresh reports |
| ConsensusOrder.OrderMatters | src/router/reputation.rs:239-242 | an input on which it is not |
| Consensus.SortByTrust | src/router/reputation.rs:239-239 | a stable sort by trust |
| Consensus.Average | src/router/reputation.rs:234-251 | quorum, sort, trim and the two sums compute the trimmed mean |
| Consensus.ConsensusTrust | src/router/reputation.rs:213-252 | the result is the trimmed mean of exactly the fresh reports, in some order; what that is of the scores and the work says `Consensus.ConsensusFollowsScores` and `ConsensusWeight.WorkDraws` |
| Consensus.ConsensusResistsByzantine | src/router/reputation.rs:213-252 | for a whole table and any order: quorum decides whether there is a consensus, and it lies in the honest range |
| Consensus.ConsensusFollowsScores | src/router/reputation.rs:213-252 | on the scores: from three observers on, the consensus lies where the honest scores lie between 0.01 for score 0 and 4 for score 1 |
| Consensus.UnanimousConsensus | src/router/reputation.rs:224-224 | agreed scores 0 and 1 give the least and the most trust, and a higher agreed score a strictly higher consensus |
| Consensus.WeightRises | src/router/reputation.rs:225-231 | more proof of work counts for more exactly between one bit and sixteen |
| ConsensusWeight.WorkDraws | src/router/reputation.rs:225-251 | among three observers, more proof of work draws the consensus strictly towards the observer's own score |
| Consensus.ConsensusInRange | src/router/reputation.rs:213-252 | the consensus is a trust a peer can have |
| Consensus.CombinedTrustBounded | src/router/reputation.rs:188-193 | bad observers move the combined trust at most half way to the honest extremes |
| Transit.NearerAndTrustedWins | src/router/handlers.rs:494-500 | nearer and more trusted scores better |
| Transit.TrustDecides | src/router/handlers.rs:494-500 | at equal distance higher trust within the limits scores strictly better, and beyond them it makes no difference |
| Transit.GreedyNextHop | src/router/handlers.rs:482-505 | a strictly closer neighbour of least score other than the sender, and none exactly if none is closer |
| Transit.LookupByTagExcluding | src/router/onion.rs:140-177 | the cheapest undenied claimer, else the cheapest denied one, and none exactly if no other peer claims the tag |
| Transit.TagChoiceMeans | src/router/onion.rs:140-177 | the neighbour chosen claims the tag; it lately denied it only if all claimers did, and is the cheapest of its likes |
| Transit.HandleTransit | src/router/handlers.rs:365-436 | expiry, greedy, fallback, restamping and when a PathNegative goes back |
| Journey.HopTaken | src/router/handlers.rs:365-436 | every hop goes to a peer other than the sender that claims the tag or is strictly closer |
| Journey.JourneyKeeps | src/router/handlers.rs:365-436 | over any tables: tag and coordinate stay, the counter counts, the sender field names the node before |
| Journey.HopsBounded | src/router/handlers.rs:374-381 | at most 32 forwards, and never straight back |
| JourneyBound.BoundReached | src/router/handlers.rs:371-373 | in a network of mutual peers, filters that disagree can use up all of them |
| Journey.DistanceFalls | src/router/handlers.rs:482-505 | over agreed coordinates greedy hops strictly approach the destination |
| Journey.GreedyNeverLoops | src/router/handlers.rs:465-468 | so they visit no node twice |
| Journey.GreedyDelivers | src/router/handlers.rs:365-436 | in a network that geometry can route, of at most 33 nodes besides the sender, every journey ends at its destination |
| JourneyBound.DeliversIff | src/router/mod.rs:95-95 | exactly how large such a network of mutual peers may be |
| ReplayCache.OnionSeen.constructor | src/router/mod.rs:378-385 | an empty cache |
| ReplayCache.OnionSeen.DigestSeen | src/router/onion.rs:77-87 | set and queue stay equal and free of duplicates; seen exactly if among the last 4096 let through |
| ReplayCache.RepeatsFarApart | src/router/onion.rs:77-87 | no digest is let through twice within 4096 others |
| ReplayCache.SeenIffRecent | src/router/onion.rs:77-87 | and exactly when it is let through again |
| Obfs.StreamRepeats | src/obfs.rs:75-103 | two places of the stream agree under every key exactly if they are a multiple of 2^70 bytes apart, counter wrap included |
| Obfs.KeyStream.constructor | src/obfs.rs:90-94 | a stream of which nothing is used |
| Obfs.KeyStream.Refill | src/obfs.rs:96-102 | the next block, without using a byte |
| Obfs.KeyStream.Apply | src/obfs.rs:104-114 | XORs exactly the next bytes of the stream into the given stretch, across refills |
| Obfs.CipherWriter.Drain | src/obfs.rs:253-274 | keeps what was sent plus what is pending equal to the accepted bytes XOR the stream; done only if all is sent |
| Obfs.CipherWriter.Obfuscate | src/obfs.rs:292-298 | takes a buffer over under the next stretch of the stream |
| Obfs.CipherWriter.PollWrite | src/obfs.rs:277-304 | accepts all or nothing of a buffer; an error leaves it accepted exactly if the transport took all that was pending before |
| Obfs.FailedWriteIsKept | src/obfs.rs:292-303 | such an error occurs, and a second write of the buffer makes it accepted twice |
| Obfs.CipherReader.PollRead | src/obfs.rs:200-222 | hands out exactly the bytes that arrived, XORed with their stretch of the stream |
| Obfs.Link.constructor | src/obfs.rs:155-176 | both ends of a direction start in step |
| Obfs.Link.Write | src/obfs.rs:277-304 | a write keeps both ends in step, whether it succeeds, stalls or fails |
| Obfs.Link.Flush | src/obfs.rs:306-318 | so does a flush, which leaves nothing pending when it succeeds |
| Obfs.Link.Read | src/obfs.rs:200-222 | and a read |
| Obfs.Link.Transparent | src/obfs.rs:194-298 | so after any calls what was delivered is a prefix of what was accepted, and all of it once nothing is under way |
| Codec.EncodeUvarint | src/packet.rs:49-60 | appends exactly the groups of the value |
| Codec.DecodeUvarint | src/packet.rs:63-77 | the value modulo 2^64 of at most ten groups, and exactly when it overflows or is truncated |
| Codec.GroupFits | src/packet.rs:69-73 | no bit is lost below the tenth group, and of the tenth all but the lowest |
| Codec.UvarintRoundTrip | src/packet.rs:49-77 | every 64-bit value comes back, whatever follows it, with its exact length |
| Codec.ReencodedIffCanonical | src/packet.rs:49-77 | a decoded value encodes to its own bytes exactly if these were canonical |
| Codec.EncodePath | src/packet.rs:158-165 | writes the specified bytes |
| Codec.DecodePath | src/packet.rs:167-191 | reads hops up to the terminator, with the limit and the errors of the specification |
| Codec.PathRoundTrip | src/packet.rs:158-191 | a path comes back exactly if it fits, otherwise it fails or loses hops |
| Codec.DecodedPathFits | src/packet.rs:167-191 | every decoded path can be encoded again |
| Codec.EncodeTraffic | src/packet.rs:574-592 | writes the specified bytes |
| Codec.TrafficRoundTrip | src/packet.rs:574-643 | a packet comes back, whatever follows it, exactly if its path fits |
| Codec.ForwardedDecodes | src/packet.rs:574-643 | a decoded packet restamped with any sender and counter decodes to just that packet |
| Codec.ReadFrame | src/packet.rs:80-103 | one frame, or exactly which error |
| Codec.WriteFramesBatched | src/packet.rs:130-152 | one write puts the same bytes on the wire as one write per frame |
| Codec.FrameRoundTrip | src/packet.rs:80-112 | a frame comes back whatever follows it, or is refused if over 1 MiB |
| Codec.FramesRoundTrip | src/packet.rs:80-152 | any batch is read back frame by frame exactly if none is over the limit |

## Left out

- Sockets, tasks, discovery, metrics, the admin interface and the command line: input and output only.
- The TUN device, configuration files and the peer cache: device and file input and output.
- The primitives themselves (X25519, Ed25519, ML-KEM, ML-DSA, ChaCha20, BLAKE2b): arbitrary functions under the laws above.
- Confidentiality, unlinkability and what an adversary may learn: outside a functional model.
- The nested AEAD format of the older onion: the same shape as the Sphinx cell without the filler.
- Hyperbolic coordinates: a distance is any function of two coordinates, and a coordinate's 16 bytes are not decoded.
- Cover traffic, jitter, counters and timing of the worker pool.
- Signature formats, post-quantum key pinning and the rotation of ML-KEM keys over time: their outcomes are parameters; a retired decapsulation key is modelled in the Ack path.
- The idle timers of sessions: a session may be forgotten at any time.
- HandshakeNet.ConvergedIff: does not cover rotation of a peer's X25519 or ML-KEM key within a session; a new decapsulation key after a restart is covered.
- HandshakeNet.LossRepairedIff: is about one loss followed by an orderly set-up; all other cases are decided by `HandshakeNet.ConvergedIff`.
- Handshake.SessionManager.HandleInit: takes what the bytes decode to and the answers of the rate limiter and of the signature checks as given; the rate limiter is `RateLimit.RateLimiter.RateLimited`.
- Handshake.SessionManager.HandleAck: takes what the bytes decode to and the answers of the signature checks as given.
- Flood.QuiescentMeansDelivered: assumes links without loss, tables below their caps, and that a node's clock gives every copy of an item the same verdict; what happens at the cap is `FloodCopies.SecondCopyDropped`.
- FixTree.TreeRouter.FixTree: models the tree whose depth the node tracks, without the counters of parent changes.
- Election.RoundsReachBall: assumes one epoch, a static network and announcements that do not expire between rounds.
- TreeCost.SettledCostFiniteIff: assumes mutual peering and that no link is free.
- ConsensusWeight.WorkDraws: is about the smallest quorum; with more observers a heavier vote may be trimmed.
- Consensus.ConsensusTrust: computes in reals, without float rounding.
- Transit.LookupByTagExcluding: takes a peer's trust-adjusted cost and the answers of its filters as given.
- Obfs.Link.constructor: takes the stream of a direction as one function of shared key and nonce; the nonce exchange itself is not modelled.
- `effective_cost` and `write_frame` on its own: one expression, and one case of `Codec.WriteFramesBatched`.
