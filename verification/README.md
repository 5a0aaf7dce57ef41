# Verification of a proxy-node agent

This project models the stateful protocols of a proxy-node agent in Dafny and proves what they are for.
The agent runs one or more proxy nodes for a control panel: it carries user traffic over Shadowsocks-2022
and AnyTLS connections, counts it, reports it, opens the host's firewall for it, and starts and stops the
kernels that do the work. Ciphers, operating-system commands, panels and kernels are nondeterministic
environments; everything the agent itself decides is modelled step by step.

| file | protocol |
|---|---|
| `ReplayWindow.dfy`, `UdpReplay.dfy`, `ReplaySafety.dfy`, `UdpDelivery.dfy` | the replay filter of Shadowsocks-2022 UDP (section 3.2.4 of SIP022): a ring of bits (section 2 of RFC 6479), two sessions, a freshness and a rotation rule |
| `SkipList.dfy`, `IdlePool.dfy`, `StreamLifecycle.dfy` | the AnyTLS session pool on top of a skip list of linked nodes |
| `Connections.dfy`, `Frames.dfy`, `AnyTls.dfy`, `Pipe.dfy` | AnyTLS frames, the multiplexer with its padding, and the synchronous pipe behind a stream |
| `ChunkStream.dfy`, `Aead.dfy` | the AEAD chunk stream of Shadowsocks TCP |
| `Settlement.dfy`, `Reporting.dfy`, `EndToEnd.dfy` | traffic accounting from kernel counters over restarts to report batches on the panel |
| `PortSet.dfy`, `PortText.dfy`, `NodePlan.dfy`, `Plans.dfy` | port lists, the firewall plan of a node, and the combination of all plans |
| `FirewallWorld.dfy`, `Firewall.dfy`, `FirewallManager.dfy`, `FirewallRuns.dfy` | crash-safe reconciliation of the host's firewall |
| `Mailbox.dfy`, `Runtime.dfy`, `RelayUsers.dfy`, `Machine.dfy` | the control plane: event mailbox, node runtime, relay-user updates, node lifecycles |
| `Options.dfy`, `Strings.dfy` | shared vocabulary |

Objects whose methods change their fields are classes, loops that update variables are methods with
invariants, and both are proved against specification functions; what the protocol promises is proved about
those functions, over all inputs, all runs and, where threads interleave, all interleavings. Where a step may
be the last one before a crash, the environment keeps the list of all states it has been in, and the
contracts speak of every one of them.

## Main results

- **Replay.** `ReplaySafety.ReplaySafeExactly`: in every run with a clock that does not go back no packet is
  recorded twice, exactly when session id 0 does not occur beside others and no call takes a minute (or fewer
  than three sessions exist). Outside that setting there are concrete runs that record a packet twice.
  `UdpDelivery.DeliversIff` says in every reachable state exactly which packets are recorded and delivered.
- **Skip list.** Every operation refines a map, with all levels linked; the drawn level stays in the
  list's 40 levels below 2^38 elements and can be 41 from there on.
- **Session pool.** An idle session never has a live stream; it is closed exactly when its die hook is on its way
  or a stream's hook came after it (`StreamLifecycle.ClosedInPoolIff`).
- **Accounting.** `EndToEnd.CountedBytesAreAccountedFor`: in every run each counted byte is in exactly one
  place between the kernel instances and the panel; `EndToEnd.ShutdownSettlesEverything`.
- **Firewall.** Every state that a reconciliation passes through, also when commands fail with or without
  effect and when it returns early, keeps the record of our rules complete, redirects covered by allow rules,
  and other people's rules in place, but for firewalld rules that the record lists and no gate wants; the plans
  of all nodes are served exactly (`FirewallManager.Serves`).
  Completeness needs a save that fails to leave the file alone; otherwise the record stays complete exactly if
  no rule is inserted whose forgetting failed after the file was replaced, with no save or restart since
  (`FirewallRuns.AlwaysRecordedIff`).
- **Wires.** What AnyTLS streams in both directions and AEAD connections deliver is what was written, under any
  buffering, padding, splitting and reading. A frame survives exactly when its data fits 16 bits, a padding
  exactly when the part cut off its length is a multiple of seven lengths of 65536. Records have the sizes of
  the padding scheme (`AnyTls.CutAt`).
- **Control plane.** A consumer of the mailbox holds the fold of all events; a running kernel serves what the
  panel wants, and a kernel that is needed runs unless something has gone wrong; relay identities always have
  their own route; a node never has two services. Four promises fail in the code, and each is proved to fail
  exactly when a checkable condition holds: a list fetched from the panel never reaches the mailbox, so a later
  change can undo it (`Mailbox.RightAfterDrainIff`); a kernel that stops because its last user is removed is
  taken for one that has died (`Runtime.FailsUntroubledIff`); a stop that works for an older handle takes the
  mailbox of a newer service (`Machine.LacksMailboxIff`); and a rollback admits new relay identities without
  routes for a moment (`RelayUsers.SingBox.ReloadRelayUsers`).

## Model

| member | source | states |
|---|---|---|
| ReplayWindow.SlidingWindow.Reset | compat/sing-shadowsocks/shadowaead_2022/slidingwindow.go:19-23 | only block 0 is cleared and the mark set to 0; together with `ResetIsExact` this is a filter that has seen nothing |
| ReplayWindow.SlidingWindow.Check | compat/sing-shadowsocks/shadowaead_2022/slidingwindow.go:25-38 | the answer is `Accepts` of the window's value, over 64-bit words and a 128-word ring |
| ReplayWindow.SlidingWindow.Add | compat/sing-shadowsocks/shadowaead_2022/slidingwindow.go:41-63 | the new value is `Added`: blocks that come into the window are cleared, the bit is set, the mark moves |
| ReplayWindow.AddKeepsSound | compat/sing-shadowsocks/shadowaead_2022/slidingwindow.go:41-63 | after any Add, checked or not, every counter added before and now is refused |
| ReplayWindow.AddKeepsExact | compat/sing-shadowsocks/shadowaead_2022/slidingwindow.go:41-63 | a checked Add keeps the ring exact: within the window a bit is set if and only if its counter was added |
| ReplayWindow.ResetIsExact | compat/sing-shadowsocks/shadowaead_2022/slidingwindow.go:19-23 | whatever other blocks still hold, a reset window answers as one that has seen nothing |
| ReplayWindow.CheckDecides | compat/sing-shadowsocks/shadowaead_2022/slidingwindow.go:25-38 | an exact window accepts a counter if and only if it is above the mark, or within 8128 of it and never added |
| ReplayWindow.RingRefinesReference | compat/sing-shadowsocks/shadowaead_2022/slidingwindow.go:19-63 | on every sequence of offered counters and resets the ring gives the verdicts of a filter that remembers the whole set |
| UdpReplay.UdpSession.ReadPacket | compat/sing-shadowsocks/shadowaead_2022/protocol.go:552-682 | for every state, packet and three clock readings the new state and outcome are `Receive`: session match, window, authentication, freshness, rotation, recording, late errors, and the crash on a missing cipher |
| UdpDelivery.DeliversIff | compat/sing-shadowsocks/shadowaead_2022/protocol.go:552-682 | in every state that any deliveries lead to, a packet is recorded if and only if it is complete, of type 1, sealed for its session, at most 30 s off, and new for a known session or of a new one that may take a place; it is delivered if and only if it is also complete to the end and addressed to this client |
| UdpDelivery.ReceiveAll | compat/sing-shadowsocks/shadowaead_2022/protocol.go:552-682 | the session in place delivers, of any packets, exactly those |
| UdpDelivery.NearIsPlain | compat/sing-shadowsocks/shadowaead_2022/protocol.go:634-642 | for readings below 2^62 that is a plain difference of at most 30 s |
| ReplaySafety.RemembersKept | compat/sing-shadowsocks/shadowaead_2022/protocol.go:588-658 | after a packet was recorded, every later delivery leaves it refused by the current window, the previous window, or its age |
| ReplaySafety.NeverAgain | compat/sing-shadowsocks/shadowaead_2022/protocol.go:588-658 | in a safe setting no later delivery of a run records a copy of a recorded packet |
| ReplaySafety.NoPacketRecordedTwice | compat/sing-shadowsocks/shadowaead_2022/protocol.go:588-658 | with non-zero session ids and calls shorter than a minute no run records the same session, packet id and epoch twice |
| ReplaySafety.ReplaySafeExactly | compat/sing-shadowsocks/shadowaead_2022/protocol.go:552-658 | all runs are free of double recording if and only if the set of session ids and the longest call meet a checkable condition |
| ReplaySafety.StalledRunRecordsTwice | compat/sing-shadowsocks/shadowaead_2022/protocol.go:588-658 | a call stalled for a minute and three sessions: a legal run that records a packet twice |
| ReplaySafety.ZeroRunRecordsTwice | compat/sing-shadowsocks/shadowaead_2022/protocol.go:588-600 | session id 0 beside another, one key: a legal run that records a packet twice |
| ReplaySafety.ZeroRotationRecordsTwice | compat/sing-shadowsocks/shadowaead_2022/protocol.go:644-658 | session id 0 counts as no session, so the rotation rule is skipped: a legal run that records a packet twice |
| SkipLists.LinkInKeepsWellLinked | compat/sing-anytls/skiplist/skiplist.go:91-122 | relinking the predecessors of every level keeps all levels sorted sublists of level 0 |
| SkipLists.LinkOutKeepsWellLinked | compat/sing-anytls/skiplist/skiplist.go:158-172 | unlinking at the levels of the removed node keeps them so |
| SkipLists.SkipList.Insert | compat/sing-anytls/skiplist/skiplist.go:91-122 | the map gains or overwrites exactly the one key, on real linked nodes; a new node gets the drawn level |
| SkipLists.SkipList.Remove | compat/sing-anytls/skiplist/skiplist.go:158-172 | the map loses exactly the key, the answer says whether it was there, and `level` goes down past empty levels |
| SkipLists.SkipList.Find | compat/sing-anytls/skiplist/skiplist.go:124-131 | returns the map's value of the key, or nothing if the key is absent |
| SkipLists.SkipList.DoFindNode | compat/sing-anytls/skiplist/skiplist.go:282-304 | finds the key's node, or else (for a lower bound) the first node with a greater key |
| SkipLists.SkipList.FindInsertPoint | compat/sing-anytls/skiplist/skiplist.go:320-341 | finds the node, or the predecessors of its place at every level |
| SkipLists.SkipList.FindPrevNodes | compat/sing-anytls/skiplist/skiplist.go:352-365 | finds the predecessors of the key's place at every level: each is below the key, and its link at that level leads to nothing or to a key not below it |
| SkipLists.SkipList.ForEach | compat/sing-anytls/skiplist/skiplist.go:174-179 | visits every key once, in ascending order, with its value |
| SkipLists.SkipList.RandomLevel | compat/sing-anytls/skiplist/skiplist.go:258-269 | for every draw the loop ends at the level that the specification function gives |
| SkipLists.LevelInRange | compat/sing-anytls/skiplist/skiplist.go:258-269 | the level lies in 1..40 for fewer than 2^38 elements, and is 41 exactly for a draw that is 0 modulo 2^40-1 with at least that many |
| SkipLists.LevelOfDraw | compat/sing-anytls/skiplist/skiplist.go:258-269 | a draw between two powers of two gives its own level if and only if the list is long enough for it, and else the highest level, at least 3, that it is long enough for |
| SkipLists.SkipList.LenIsSize | compat/sing-anytls/skiplist/skiplist.go:66-73 | `len` is the number of keys of the map |
| SkipLists.SkipList.FirstIsLeast | compat/sing-anytls/skiplist/skiplist.go:85-89 | the first node holds the least key; there is none exactly for the empty map |
| IdlePool.Client.GetIdleSession | compat/sing-anytls/session/client.go:118-127 | takes the idle session with the largest number out of the pool, or nothing if and only if the pool is empty |
| IdlePool.Client.PutIdle | compat/sing-anytls/session/client.go:107-110 | puts the session under its own key with a new idle time, in place of whatever is there |
| IdlePool.Client.IdleCleanupExpTime | compat/sing-anytls/session/client.go:177-207 | the pool afterwards, the sessions to close and the renewed idle times are those of `Sweep` over the sessions newest first |
| IdlePool.SweepClosesOnlyExpired | compat/sing-anytls/session/client.go:177-207 | a session is closed if and only if it has expired and enough newer ones are kept |
| IdlePool.SweepKeepsMinimum | compat/sing-anytls/session/client.go:177-207 | at least the smaller of the minimum and the number of idle sessions is kept |
| StreamLifecycle.Stream.SetDieHook | compat/sing-anytls/session/stream.go:91-101 | the registered hook is stored, or due at once when the stream has closed before |
| StreamLifecycle.Stream.CloseState | compat/sing-anytls/session/stream.go:103-120 | closes once and hands out the hook at most once |
| StreamLifecycle.SessionsAreExclusive | compat/sing-anytls/session/client.go:74-127 | in every interleaving of opening, registering, closing, pooling and session ends an idle session has no live stream, two live streams never share a session, and a hook runs exactly once |
| StreamLifecycle.PooledIff | compat/sing-anytls/session/client.go:74-127 | in every interleaving a session is in the pool if and only if a stream's hook has put it in and it was not taken out since |
| StreamLifecycle.ClosedInPoolIff | compat/sing-anytls/session/client.go:97-113 | in every interleaving a pooled session is closed if and only if its own die hook has still to take it out, or a stream's hook has put it in after that die hook had been there |
| StreamLifecycle.LateInsertionHappens | compat/sing-anytls/session/client.go:97-113 | such an interleaving: the stream's hook looks at the session, the session is closed and takes itself out, and the hook puts it in |
| Frames.FrameRoundTripIff | compat/sing-anytls/session/frame.go:24-49 | a frame is read back as itself if and only if its data is below 65536 bytes and its command's data is read at all |
| Frames.HeaderLayout | compat/sing-anytls/session/frame.go:24-49 | seven bytes: command, stream id and length, highest byte first |
| Frames.ParseJoin | compat/sing-anytls/session/session.go:170-359 | reading well-formed frames followed by anything gives those frames and then the rest |
| Frames.PrefixParses | compat/sing-anytls/session/session.go:170-359 | cutting the stream anywhere loses frames from its end only |
| Frames.WasteIsWholeIff | compat/sing-anytls/session/session.go:450-470 | a padding of any length reads as whole waste frames if and only if the part cut off its 16-bit length is a multiple of seven times 65536 |
| AnyTls.GenerateRecordPayloadSizes | compat/sing-anytls/padding/padding.go:60-92 | one size for each usable piece of the packet, in order: a check mark, or a size within the piece's bounds; none for a packet the scheme does not name |
| AnyTls.Session.WriteConn | compat/sing-anytls/session/session.go:412-486 | wire, buffer and submitted frames stay related: the wire is a beginning of the frames on their way with whole paddings between them, stripping the paddings and adding the buffer gives the submitted frames; a buffering session writes nothing; a working connection is given the records that sizes of the scheme cut, or one write once the packet number has reached the scheme's stop; it fails only when the connection breaks |
| AnyTls.CutAt | compat/sing-anytls/session/session.go:425-482 | each used size takes one write where the sizes before it end: so many bytes while more is left, the last ones filled up to exactly that size if it exceeds them by more than seven, then seven more of padding alone; what the sizes leave goes out in one write, and a check mark at which nothing is left ends it |
| AnyTls.Session.SendRecord | compat/sing-anytls/session/session.go:445-472 | a record of payload, of payload and padding, or of padding keeps that relation, also when the write fails in the middle |
| AnyTls.Session.WriteDataFrame | compat/sing-anytls/session/session.go:372-387 | submits one data frame of any length; buffer, wire and submitted frames stay related, it is written as `WriteConn` says, and it fails only when the connection breaks (`ReadsBackIff` says what its length costs) |
| AnyTls.Session.Run | compat/sing-anytls/session/session.go:80-98 | a client's settings frame is submitted and stays in the buffer |
| AnyTls.Session.OpenStream | compat/sing-anytls/session/session.go:134-168 | takes the next id modulo 2^32, submits its open frame, ends buffering and registers the stream; a session that is closed before or dies meanwhile refuses and has no streams |
| AnyTls.Session.StreamClosed | compat/sing-anytls/session/session.go:361-370 | submits the stream's end frame and takes the stream out of the map, unless the session is closed; a failing write closes the session |
| AnyTls.Session.RecvLoop | compat/sing-anytls/session/session.go:170-359 | reading any bytes leaves the session where handling the parsed frames one by one leaves it, with every reply submitted in order; if a reply cannot be written or another thread has closed the session it stops at that frame with all streams ended |
| AnyTls.HeartbeatsAreAnswered | compat/sing-anytls/session/session.go:170-359 | until the reader stops every heartbeat request is answered once, in order and under its own number, and no alert is written |
| AnyTls.ArrivesAsSubmitted | compat/sing-anytls/session/session.go:170-486 | whatever part of the bytes has arrived, the reader has done exactly what the first of the submitted frames say; with all bytes and an empty buffer, what all of them say |
| AnyTls.ReadsBackIff | compat/sing-anytls/session/session.go:372-486 | with whole paddings a complete wire reads back as the submitted frames if and only if every one of them has data below 65536 bytes and a command that carries it |
| AnyTls.StreamReceivesItsData | compat/sing-anytls/session/session.go:181-204 | between its open frame and its end a stream receives the concatenation of its own data frames, whatever other streams do |
| AnyTls.EndsWithItsData | compat/sing-anytls/session/session.go:247-254 | the other side's end frame ends its own open stream with all bytes received so far, and no other; a second one does nothing |
| AnyTls.Converse | compat/sing-anytls/session/session.go:80-168 | a new client session used in any way submits its settings and then one frame for each use, with stream ids counting modulo 2^32 |
| AnyTls.ServerHasStream | compat/sing-anytls/session/session.go:170-486 | once all of it has arrived at a new server session, each stream that was opened and not ended holds exactly the data written to it |
| AnyTls.ClientHasStream | compat/sing-anytls/session/session.go:170-486 | in the other direction, a stream that the client has open receives exactly what the server submits for it |
| Pipe.ReadsAreWrites | compat/sing-anytls/pipe/io_pipe.go:52-115 | in every interleaving of writers, readers of any size, closes and deadlines, what the readers return, in the order in which they are served, is the first bytes of each write in the order of turns, as many as the write returns, and all of them if it returns no error |
| Pipe.GetsWhatFits | compat/sing-anytls/pipe/io_pipe.go:52-115 | in every reachable state a reader that meets a writer gets the next bytes of that write, as many as the smaller of its size and what is left, and the write goes on if and only if some are left |
| ChunkStream.IncreaseNonce | compat/sing-shadowsocks/shadowaead/aead.go:459-466 | the loop with carry in the array is `Increased` |
| ChunkStream.IncreasedAddsOne | compat/sing-shadowsocks/shadowaead/aead.go:459-466 | read little-endian, that is plus one, wrapping at 256^n |
| ChunkStream.StepCounts | compat/sing-shadowsocks/shadowaead/aead.go:459-466 | k steps from zero spell k modulo 256^n |
| Aead.Writer.SealChunk | compat/sing-shadowsocks/shadowaead/aead.go:343-349 | sealing in place puts the sealed length and the sealed data behind each other in the buffer, changes nothing else in it, and uses two nonces |
| Aead.Writer.Write | compat/sing-shadowsocks/shadowaead/aead.go:327-358 | the payload is cut into non-empty chunks within the limit; the wire is the prelude and the sealed chunks, or on an error a beginning of it, and the count returned was sealed |
| Aead.BufferedWriter.Write | compat/sing-shadowsocks/shadowaead/aead.go:421-435 | sealed and collected bytes together are everything written, in order, across flushes and an initial header |
| Aead.BufferedWriter.Flush | compat/sing-shadowsocks/shadowaead/aead.go:437-457 | the reserved header and the collected bytes go out as one header and at most one chunk; nothing written is lost |
| Aead.Reader.ReadInternal | compat/sing-shadowsocks/shadowaead/aead.go:94-119 | succeeds if and only if the next chunk has arrived in full, and caches exactly it |
| Aead.Reader.ReadByte | compat/sing-shadowsocks/shadowaead/aead.go:121-132 | hands out a byte if and only if bytes are cached or a chunk has arrived; it is the next byte of the stream, with the reader in order, if and only if bytes are cached or the chunk has any; otherwise it is none of the stream and the cached count is -1 |
| Aead.Reader.Read | compat/sing-shadowsocks/shadowaead/aead.go:134-181 | hands out the next bytes of the stream, from the cache, straight into a large destination, or by way of the cache; succeeds if and only if bytes are cached or a chunk has arrived, and hands out nothing if and only if there is no room or the chunk is empty |
| Aead.Reader.Discard | compat/sing-shadowsocks/shadowaead/aead.go:183-199 | skips exactly n bytes of the stream, over any number of chunks; succeeds if and only if the chunks that have arrived in full hold so many |
| Aead.ReadsWhatWasWritten | compat/sing-shadowsocks/shadowaead/aead.go:94-199 | any beginning of what a writer sent reads back as a beginning of what was written, all of it when all was read, with both nonces equal to twice the chunk count modulo 256^n |
| Settlement.Kernel.CollectInstanceStats | internal/kernel/xray/traffic.go:21-90 | reading and zeroing every counter adds to the totals what `Settle` says and leaves the counters that `Clear` says |
| Settlement.CreditedIff | internal/kernel/xray/traffic.go:52-85 | a counter is credited to a key if and only if it belongs to it: a user's own counter, an outbound's by the node of its tag, a user's route by the node of the route, in the instance's own configuration |
| Settlement.ClearedIff | internal/kernel/xray/traffic.go:52-90 | a counter is read and cleared if and only if it belongs to somebody; one of a non-positive user or of an unmapped route or tag keeps its value and adds to no total |
| Settlement.SettleReads | internal/kernel/xray/traffic.go:21-90 | one sampling adds to each total exactly what was unread under the counters that belong to it in the instance's own configuration |
| Settlement.StepConserves | internal/kernel/xray/lifecycle.go:23-98 | start, failed start, reload, stop, sampling and recycling each conserve totals plus unread counters |
| Settlement.EveryByteSettledOnce | internal/kernel/xray/xray.go:124-250 | in every run totals plus unread counters of current, starting and retired instances are the sum of everything counted under counters that belong to the key, less what an instance counted that then failed to start |
| Settlement.FinalSampleIsComplete | internal/kernel/xray/traffic.go:14-19 | after a sampling with nothing starting the totals alone are that sum |
| Settlement.TotalsGrow | internal/kernel/xray/traffic.go:14-90 | the totals that the tracker reads never go down |
| Reporting.Tracker.Process | internal/tracker/tracker.go:84-137 | every account that is sampled gains the difference to its last value, or the whole value after a restart; also for relay and relay-user counters (internal/tracker/relay.go) |
| Reporting.Tracker.Flush | internal/tracker/tracker.go:139-146 | hands out everything pending and keeps nothing |
| Reporting.Service.TakeReportBatch | internal/service/service.go:1145-1180 | the failed batch again under its own id, or everything pending under the next id |
| Reporting.Service.BeginPush | internal/service/service.go:1073-1097 | starts a push only when none is running, none is being shut down and no back-off is due |
| Reporting.Service.FinishPush | internal/service/service.go:1097-1109 | an unacknowledged batch is remembered, an acknowledged one forgotten, whether or not the panel received it |
| Reporting.Service.PushReportSync | internal/service/service.go:1111-1143 | conserves every account; if it delivers, the panel's totals are the whole accounts; it fails to deliver only when the panel has refused a report |
| Reporting.NothingLostNothingTwice | internal/service/service.go:1073-1229 | in every run with ambiguous failures panel total, the one uncounted batch and what is pending add up to what the counters have counted: the last value before each fall and the last one |
| Reporting.FinalPushDelivers | internal/service/service.go:1111-1143 | one batch, or the failed one and a last one, put the whole account on the panel |
| EndToEnd.CountedBytesAreAccountedFor | internal/service/service.go:1062-1229 | from kernel counters to the panel every byte counted under a counter that belongs to the key is in exactly one place, in every run |
| EndToEnd.ShutdownSettlesEverything | internal/service/service.go:1111-1143 | a last sampling and a push that gets through put everything counted for the key on the panel |
| PortSet.Merge | internal/portset/ports.go:73-90 | covers the same ports in sorted, disjoint, non-adjacent form |
| PortSet.CanonicalUnique | internal/portset/ports.go:73-90 | that form is determined by the ports it covers |
| PortSet.MergeOrderIrrelevant | internal/portset/ports.go:73-90 | permuting the input does not change the result |
| PortSet.Without | internal/portset/ports.go:92-107 | covers exactly the other ports |
| PortText.Parse | internal/portset/ports.go:30-71 | accepts a text if and only if every item is a port or an ascending range, and then covers exactly the listed ports in normal form |
| PortText.TextReads | internal/portset/ports.go:16-21 | a printed range reads back as itself |
| PortText.PrintAndParse | internal/portset/ports.go:16-54 | a list in normal form, printed and parsed, is the same list |
| NodePlan.PlanForNode | internal/firewall/plan.go:49-151 | succeeds exactly for plannable nodes; listeners admit exactly the packets of the protocols the node uses at its addresses and port, redirects send exactly the UDP packets of the other hopping ports to its port, and the plan does not clash with itself |
| Plans.MergeRules | internal/firewall/plan.go:181-204 | each group keeps exactly its ports, in separated ranges |
| Plans.MergeUnique | internal/firewall/plan.go:181-204 | there is only one such set of rules |
| Plans.CombinePlans | internal/firewall/plan.go:153-179 | fails if and only if some packet is claimed for two targets, and otherwise merges all allows and all redirects |
| Plans.MergeMeansTheSame | internal/firewall/plan.go:181-204 | merged rules treat every packet as the unmerged ones do |
| Plans.RedirectsAreExactAndAllowed | internal/firewall/plan.go:153-179 | every packet is redirected as some plan asks and not otherwise, to one target, and is let in |
| Plans.CombineOrderIrrelevant | internal/firewall/plan.go:153-204 | the outcome does not depend on the order in which plans are visited |
| Firewall.SystemBackend.Remember | internal/firewall/state.go:131-141 | on success memory and file are those of `Remembering`: nothing is saved if memory claims the rule already; on an error memory is as before and the file either old or new |
| Firewall.SystemBackend.Forget | internal/firewall/state.go:143-156 | on success memory and file are those of `Forgetting`: the rule is off the record and every other entry stays; on an error memory is as before |
| Firewall.SystemBackend.EnsureUfw | internal/firewall/ufw.go:83-107 | records before inserting, adopts its own rule, releases a manual one, refuses conflicting and foreign ones; if it inserts, with or without an error, the record is complete if and only if memory did not claim the rule or the complete file listed it |
| Firewall.SystemBackend.EnsureFirewalld | internal/firewall/firewalld.go:36-54 | leaves listed rules alone, records before inserting, and takes the record back when somebody else has inserted the rule; the same exact condition for a complete record |
| Firewall.SystemBackend.RemoveUfw | internal/firewall/ufw.go:109-127 | deletes at most this rule, only if it is tagged as ours, and takes it off the record |
| Firewall.SystemBackend.RemoveRichRule | internal/firewall/system.go:117-130 | deletes at most this rule, only if the zone lists it, and takes it off the record |
| Firewall.SystemBackend.SyncTable | internal/firewall/nftables.go:54-79 | on success the table holds exactly the rules; it is replaced at once or not at all |
| Firewall.SystemBackend.SyncChain | internal/firewall/iptables.go:33-123 | on success the family's chain holds exactly the rules and is jumped to if and only if there are any; in between it never redirects anything but old or new rules |
| Firewall.SystemBackend.ApplyRedirects | internal/firewall/redirect.go:9-60 | the old driver is emptied, the new one recorded and only then filled; on success exactly the wanted redirects are in force |
| Firewall.SystemBackend.Recycle | internal/firewall/system.go:104-136 | on success the record lists wanted rules only, and no wanted rule was touched |
| Firewall.SystemBackend.Apply | internal/firewall/system.go:10-137 | the states passed through lead from the first to the last by single saves and commands, and each keeps the record complete, drivers named, redirects covered, wanted and unrecorded rules of others in place; on success redirects, allow rules and record are exactly the wanted ones, a rule of somebody else is gone if and only if it is a firewalld rule that the record lists and no gate wants, and nothing is left when nothing is wanted; when no installed command fails, it fails if and only if something is in the way that the code refuses to touch or a command that is needed is not installed |
| Firewall.GatesAre | internal/firewall/system.go:23-75 | UFW is managed if and only if it runs and is not ruled out, and of a running firewalld that is not ruled out the configured zone, or all zones |
| FirewallWorld.InsertKeeps | internal/firewall/ufw.go:101-106 | inserting a rule is safe once the record on disk lists it and nothing of others is in its place |
| FirewallWorld.DeleteKeeps | internal/firewall/ufw.go:119-126 | deleting a rule of the record is safe once no installed redirect needs it |
| FirewallWorld.UnwantedIsUnneeded | internal/firewall/system.go:104-107 | once all wanted rules are in place no redirect needs any other rule |
| FirewallManager.Manager.Apply | internal/firewall/manager.go:100-129 | refuses a node without a plan, before touching anything; on success the node's own plan is in force and the host serves all plans exactly; a plannable node fails only on a clash, a failing or missing command, or an obstruction by somebody else |
| FirewallManager.Manager.ApplyPlan | internal/firewall/manager.go:119-128 | refuses a plan that clashes with another, before touching anything; any other plan is in force afterwards unless a command fails or something obstructs it |
| FirewallManager.Manager.Reconcile | internal/firewall/manager.go:147-159 | on success every packet is redirected and let through exactly as the plans ask, and our rules let in nothing else; in every case redirects stay covered; it fails only when an installed command fails, a needed one is missing, a UFW rule of others is in the way, or recorded firewalld rules cannot be reached |
| FirewallManager.Manager.Release | internal/firewall/manager.go:131-145 | drops one owner's plan; on success the host serves the remaining plans exactly |
| FirewallManager.Manager.Close | internal/firewall/manager.go:161-192 | on success no rule, redirect or record of ours remains |
| FirewallManager.AmbiguityIsClashing | internal/firewall/plan.go:170-177 | a conflict found in any listing of the plans is a packet with two destinations |
| FirewallManager.ClashingIff | internal/firewall/plan.go:153-179 | plans clash if and only if some UDP packet is meant for two ports: redirected to one, or for a listener on one |
| FirewallRuns.Live | internal/firewall/system.go:10-137 | any sequence of reconciliations, stops at any step, restarts with another configuration and changes by others is one chain of single steps in the order of the events, and in every state all our rules are on record and the driver in use is named |
| FirewallRuns.RestartIsSound | internal/firewall/state.go:35-63 | an instance that stops anywhere can start again from the file alone |
| FirewallRuns.OthersAreUntouched | internal/firewall/system.go:104-136 | no state of a reconciliation changes or misses a wanted rule that somebody else inserted, nor any such rule while the record lists none of them |
| FirewallRuns.StaysHonest | internal/firewall/system.go:104-136 | in every life the record comes to list a rule of others only when others insert a rule that it lists |
| FirewallWorld.InsertionRecordedIff | internal/firewall/state.go:131-141 | an insertion after remembering leaves a complete record if and only if memory did not claim the rule before, or the record was complete and the file listed it |
| FirewallRuns.MissesExactly | internal/firewall/state.go:93-156 | in every run of remembering, inserting, deleting, forgetting, naming drivers and restarting, with saves that fail with and without effect, the file misses an entry of memory if and only if forgetting it failed after the file was replaced, and the file was neither replaced nor read since |
| FirewallRuns.AlwaysRecordedIff | internal/firewall/state.go:93-156 | in every such run the record stays complete if and only if no rule in that position is inserted |
| FirewallRuns.AtomicSavesKeepRecord | internal/firewall/state.go:93-156 | when a failing save leaves the file alone, the record is complete in every such run |
| FirewallRuns.HalfFailedSaveLosesARule | internal/firewall/state.go:93-120 | such a run from an empty host: insert, delete, a forgetting that fails after the file was replaced, and an insertion that finds nothing to save |
| Mailbox.AddAll | internal/controlplane/mailbox.go:225-244 | folding additions into the list is overriding by id, and keeps ids unique |
| Mailbox.RemoveAll | internal/controlplane/mailbox.go:245-256 | folding removals is removing by id, and keeps ids unique |
| Mailbox.NodeMailbox.SeedBaseline | internal/controlplane/mailbox.go:51-61 | a baseline, first or repeated, fills in what events have not brought, and nothing else |
| Mailbox.NodeMailbox.Apply | internal/controlplane/mailbox.go:63-106 | the state asked for becomes the fold with the event; a change that cannot be folded is counted as unresolved, and a change leads to a notification |
| Mailbox.NodeMailbox.DrainIfReady | internal/controlplane/mailbox.go:117-141 | a consumer that takes over the result holds the fold of all events, and is told to reconcile if and only if a change was unresolved; before readiness nothing is handed out |
| Mailbox.NodeMailbox.Notify | internal/controlplane/mailbox.go:108-113 | no wake-up is lost: a ready mailbox with something to hand out has a token, a notification under way or a consumer that is awake |
| Mailbox.Follow | internal/controlplane/mailbox.go:63-141 | after any number of events one drain leaves the consumer with all of them folded |
| Mailbox.LastSnapshotWins | internal/controlplane/mailbox.go:63-106 | after any events the configuration asked for is the last full one (and `LastDevicesWin` the same of device states) |
| Mailbox.LastMentionWins | internal/controlplane/mailbox.go:63-106 | after any events the last one that mentions a user decides about it: there with that event's last entry, or removed |
| Mailbox.FollowFetching | internal/service/service.go:452-525 | a consumer that drains and fetches in any order holds what `RunOf` says, and is asked to fetch only because of changes that could not be folded |
| Mailbox.ChangedAlikeIff | internal/controlplane/mailbox.go:225-262 | a change makes two lists the same if and only if they agree outside the changed users |
| Mailbox.RightAfterDrainIff | internal/controlplane/mailbox.go:63-141 | in every run of events, drains and fetches a drain leaves the consumer with the right list if and only if it still holds the fetched one, or the mailbox's list and the fetched one differed, when it was fetched, only in users named since |
| Mailbox.ChangeBeforeBaseline | internal/controlplane/mailbox.go:51-98 | after a change before the baseline, a fetch and a later change of any kind the consumer has the right list if and only if baseline and fetched list differ in no user but the later changed ones; no second fetch is asked for |
| Runtime.Service.FailRuntime | internal/service/runtime_failure.go:32-45 | stops the kernel and leaves exactly this attempt on record as failed |
| Runtime.Service.PrepareRuntime | internal/service/runtime_failure.go:49-69 | never lets an attempt through that has just failed, and records every other one |
| Runtime.Service.ApplyChanges | internal/service/service.go:1004-1039 | afterwards a running kernel serves exactly the wanted configuration and users with no failure on record, and no attempt was repeated; it reports success if and only if no failure is on record; when nothing goes wrong, kernel and record are those of `AppliedTo` |
| Runtime.Service.ApplyConfigUpdate | internal/service/service.go:770-786 | the newest configuration stays the wish whether or not it can be applied; success if and only if no failure is on record |
| Runtime.Service.EnsureRunning | internal/service/service.go:827-836 | leaves a running kernel alone and otherwise applies the wishes |
| Runtime.Service.ApplyUserUpdate | internal/service/service.go:841-870 | a running kernel serves the new users afterwards, or is stopped with the failure on record; when nothing goes wrong a running kernel goes on and a stopped one is started if and only if it is needed and the attempt has not failed before |
| Runtime.Service.ApplyUserDelta | internal/service/service.go:875-939 | hot updates, fallbacks and restarts all end with a running kernel serving the changed users; when nothing goes wrong, a running kernel goes on unless the change removes the last users of a node that needs some and the kernel is of the kind that stops then, and it stays recorded as applied |
| Runtime.Service.ApplyPullResult | internal/service/service.go:707-742 | configuration and users of a poll are both wishes before either is applied |
| Runtime.Service.Track | internal/service/service.go:1041-1045 | records as failed every stopped kernel that is recorded as applied, whether it died or stopped because the last user left; nothing stays recorded as applied without a running kernel |
| Runtime.Service.HandleAll | internal/service/service.go:700-1045 | any sequence of events keeps the invariant, and when nothing goes wrong leads where `CalmRun` says |
| Runtime.StrandedIff | internal/service/service.go:907-939 | in every run without trouble a stopped kernel is recorded as applied if and only if the last event that was not idle is a removal of the last users that made the kernel stop |
| Runtime.FailsUntroubledIff | internal/service/service.go:1041-1045 | in every such run an event makes the service record a failure if and only if it is a look at the kernel in that position |
| Runtime.UntroubledFailure | internal/service/service.go:907-939 | such a run: a configuration and one user arrive, the user is removed, and the service looks at the kernel |
| Runtime.NeededRuns | internal/service/service.go:1004-1039 | in every run without trouble the kernel of a node with users, or of a landing node, runs |
| Runtime.RunsExactly | internal/service/service.go:1004-1039 | in every run without trouble a new configuration leaves the kernel running if and only if the node has users or is a landing node, and so does a new list of users while it does not run |
| RelayUsers.ValidateRelayUsers | internal/kernel/singbox/relay.go:49-70 | accepts exactly the lists of valid users without a shared number or, but for case and route digits, identifier |
| RelayUsers.CredentialsTellApart | internal/kernel/singbox/relay.go:29-34 | among accepted users equal credentials, even up to case, mean the same user and route |
| RelayUsers.RulesRoute | internal/kernel/singbox/relay.go:95-112 | rules built for some users send each of their identities to its own route's outbound |
| RelayUsers.RoutedIff | internal/kernel/singbox/relay.go:95-112 | a name has a rule if and only if it is an identity of one of the users |
| RelayUsers.SingBox.ReloadRelayUsers | internal/kernel/singbox/relay_users.go:29-95 | ends all-new when no call fails, all-old when one fails, and stopped when undoing fails too; the states between are one call apart; until a rollback every authenticated and every admitted identity has its own route, in a rollback that restores the inbounds every authenticated one has, and every admitted one has throughout if and only if the old rules did not go back in or no new identity is new |
| RelayUsers.SingBox.Rollback | internal/kernel/singbox/relay_users.go:72-82 | restores inbounds, rules and tracker in this order; an admitted identity is without a route on the way if and only if the router takes the old rules and the tracker admits an identity that is not an old one |
| Machine.StepKeeps | internal/machine/machine.go:194-336 | every step of every thread keeps: a live handle is its node's map entry, and is launched by one thread |
| Machine.OneServiceANode | internal/machine/machine.go:194-392 | in every interleaving of starts, restarts, stops and services ending by themselves a running service is its node's entry, so a node has at most one |
| Machine.DropMailboxKeepsIff | internal/machine/machine.go:314-326 | a stop that removes the mailbox of a node leaves the running service reachable if and only if it stops that very handle or another stop already does |
| Machine.LacksMailboxIff | internal/machine/machine.go:314-336 | a running service lacks its mailbox, with nobody stopping it, if and only if a stop that works for an older handle of its node has removed the mailbox since it was placed and nobody stops the service now |
| Machine.LateRemovalLosesMailbox | internal/machine/machine.go:314-336 | such a run: the looked-up service ends by itself, the node starts again, and the stop then removes the new mailbox |
| Machine.StartDecides | internal/machine/machine.go:194-212 | a start of a node that has an entry leaves it alone if the kernel is the wanted one, and restarts it otherwise |
| Machine.StopSteps | internal/machine/machine.go:314-329 | a stop removes the mailbox, cancels the handle it has looked up, and waits for its end |
| Machine.StopEnds | internal/machine/machine.go:329-336 | once that has come, the entry goes if it is still this handle's |

## Left out

- Real ciphers, key derivation, random sources and time services; handshake and address parsing of Shadowsocks. Ciphers are functions with an open-after-seal law.
- UdpReplay.UdpSession.ReadPacket: the timestamp difference goes through Go's float64 and back to an integer; that is exact for the differences the rules can accept and left out where it would overflow near 2^63. The window that Go copies when sessions rotate is moved by reference.
- The replay filter, session cache and UDP relay behind the Shadowsocks server services are not part of this model.
- SkipLists.SkipList.FindInsertPoint: the predecessors are returned as a value; the reuse of one cache slice between calls is left out. The variant with a comparison function, range iterators and `Clear` are left out as well.
- SkipLists.SkipList.DoFindNode: the contract names the node by its place in the ghost list of nodes; `Find` states the result without it.
- Session timers and `synDone` watchdogs of an AnyTLS session; the texts of settings and of the answers to them are parameters, and the padding scheme does not change during a session.
- AnyTls.Session.WriteDataFrame: after a failing write the connection is taken to stay broken, as a TLS connection does.
- `Reader.WriteTo`, `Writer.ReadFrom`, `WriteVectorised` and the readers of single external chunks.
- Aead.Reader.ReadByte: what later calls do once the cached count is negative, which takes a chunk without bytes; `WriteVectorised` with an empty buffer and `ReadFrom` after an empty read seal one, `Write` and `BufferedWriter` do not.
- Aead.BufferedWriter.Write: writing to the underlying writer while bytes are collected would overwrite them; the contracts cover a buffered writer that is flushed first.
- Settlement.EveryByteSettledOnce: byte counters are unbounded integers, so a wrap of a 64-bit counter is left out; the three totals by user, relay node and both are one map under tagged keys, and counter names are parsed already.
- Alive addresses, online counts, connection counts, live snapshots and the restoring of flushed traffic in the tracker; HTTP transport and back-off growth of reports.
- Plans.MergeRules: the source sorts the merged rules by a key that differs for different rules; the model returns the set that determines this list.
- NodePlan.PlanForNode: the listening address is given parsed.
- Text of firewall commands and their output. UFW holds one entry a rule, and nobody else writes this instance's comment; both are assumptions of the model.
- FirewallWorld: a rule of others that the record lists is told apart from ours by who inserted it, which the code cannot see.
- Firewall.SystemBackend.Apply: nobody else changes the firewall during a call, except that a firewalld rule may be inserted between listing and insertion. A same-named table or chain of somebody else is an inspection that fails. Commands that are killed have taken effect by then or not at all.
- Machine: statuses, intervals, and events for unknown nodes; a rediscovery is any collection of starts and stops.
- Mailbox.RightAfterDrainIff: the right list is the one fetched last with all later changes; a fetch that answers with a state older than changes taken in meanwhile is not told apart.
- Mailbox.NodeMailbox.Apply: copies are values, so sharing between the stored and the given lists is left out.
- Runtime.Service.ApplyUserDelta: a user's entry stands for its credentials; speed and device limits are left out.
- Runtime.Service.PrepareRuntime: certificates do not change, fingerprints are taken to tell attempts apart, and an attempt counts from the point where it is not blocked, so the same start can be repeated after another attempt has failed in between.
- RelayUsers.SingBox.ReloadRelayUsers: a router update that fails leaves the old rules in force; administrators' rules in front of the relay rules and a missing tracker are left out.
- Device limits, configuration generation, validators, certificate management, DNS providers, logging, the health endpoint, command-line tools and probes.
