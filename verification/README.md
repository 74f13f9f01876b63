# A verified model of MeshWhisper

MeshWhisper is an encrypted messaging SDK with a federated relay. This project models its protocol cores in Dafny and
proves what they promise over whole runs: that sessions survive any reordering, that gossip settles, that packets stop,
that archives converge, that locked storage loses no update, that one-time pre-keys are never handed out without their
private half. `dafny verify dfyconfig.toml` checks everything.

How the parts fit:

- `Crypto`, `Ratchet`, `RatchetRuns`, `Sessions`, `SessionRuns`: the Double Ratchet (sections 3.3 to 3.5 of Signal's
  "The Double Ratchet Algorithm") and trial decryption over a session table.
- `X3dh`, `OneTimePreKeys`, `OpkRuns`: the key exchange (sections 3.3 and 3.4 of Signal's X3DH specification) and the
  pre-key pool as a three-party protocol with crashes. Its last result puts the two parts together: after any such run
  the messages of the new session open as `RatchetRuns` says.
- `Gossip`, `GossipRuns`, `GossipFrames`, `Bridge`, `Onion`, `Federation`, `ForwardLaws`, `Overlay`: the relay
  federation, in which some relays may be hostile.
- `MessageStore`, `Archive`, `ArchiveLaws`, `ArchiveRuns`, `ContactEvents`, `KeyedMutex`, `ConversationRuns`: stored
  conversations, archive merging and the events that feed it, the promise chains that serialise both, and what a
  conversation comes to under them.
- `RelayTree`, `Group`, `GroupLaws`, `RelayStore`, `DedupFilters`, `FloodDedup`, `RateLimiter`: structures in memory.

Objects whose methods update fields are classes with those fields; every method is proved to compute a function, and
the laws are proved about the functions. Runs are sequences of events in which everything the outside world decides
(delivery order, loss, repetition, crashes, random values, clock readings) is chosen freely.

What is assumed:

- Cryptography is symbolic. Keys are terms, a DH agreement is a commutative term, an AEAD box opens only under its own
  key, fresh keys come from a counter, and only the owner of a key signs with it. An identity key pair stands for its
  Ed25519 and its X25519 form.
- A ratchet header travels unmodified with its ciphertext: the source authenticates no header, so a changed header is
  outside the claims about sessions. The claim that a packet opens only in its own session does not need this.
- Gossip links are established in one step at both ends, and are reliable and ordered while they are up. Each relay
  starts with a signed record of its own. Hostile relays follow the protocol or not as they like, and can send any
  record that carries a signature of their own or one that was issued; they cannot make those of others.
- Deletes and revivals in the archive runs meet `MayDelete` and `MayRevive`, which are exactly what keeps a state
  well-formed (`DeleteKeepsWellFormed`, `ReviveKeepsWellFormed`). The SDK's own revivals always do, and its deletes do
  when the clock is past the last revival (`RecordedRevivalsQualify`). Contact ids and group ids do not overlap.
- A contact list and the revival that goes with it are written in one step, and the permission manager's contacts are
  the stored ones.
- Each shared secret is agreed with one peer, and the secrets drawn for a new session differ (`Drawn`).
- A record's JSON text is at most as long as `JsonLaw` says, and a timestamp is a finite number, so that it prints in at
  most 309 digits.
- The pre-key runs start after the one-shot migration, with one device per identity, and each upload request reaches the
  relay at most once. A key is only used by whoever claimed it.
- JSON is the value it encodes, and peer ids are lower-case hexadecimal, on which `localeCompare` is lexicographic.

Where the code and its documentation part, the model follows the code:

- The ranking of a group puts the admin first whatever the activity; the comment calls this a tie-break
  (`RankingPutsRootFirst`).
- A group relay sends a message to its parent whenever the parent is not the sender, although its comment says only if
  the message came from a child (`RelayEchoesUpward`).
- `seen_ids` pairs are never deduplicated by the `Set` they go through: the list grows, and only its map converges
  (`SeenIdsMergeAsMaps`).
- Merging an archive with itself is the identity only on states that list no deleted peer (`JoinIdempotent`), and the
  join associates exactly when the state at either end lists every peer that it alone brings back to life and that
  another state lists (`JoinAssociatesExactly`); `JoinNeedsSupply` is an input on which it does not.
- A delete stamped at or before the last revival leaves a peer revived but unlisted (`DeleteKeepsWellFormed`).
- Two devices that always pull before the other pushes never converge: an upload overwrites the archive without merging
  (`ExchangesAgreeExactly`, `OverlappingRoundsStarve`).
- A gossip batch limit of zero sends nothing at all (`ZeroBatchSendsNothing`), and a rate limit of zero still accepts the
  first request of a window (`AtMostTwiceTheLimit`).
- The signature of an address record leaves out the order of its anchors, so with a hostile relay about two relays may
  hold one record with its anchors in different orders (`SameContent` in `GossipAgreesAtRest`).
- An unblocked peer is blocked again by the next pull of an archive that still blocks it
  (`UnblockStandsIffArchiveAgrees`).
- A repeated `x3dh_init` is not detected by the handshake itself: it silently derives another secret
  (`RepeatedInitDiverges`, `DeletedKeysStayGone`).

## Model

| member | source | states |
|---|---|---|
| Crypto.DhAgreement | src/ratchet/index.ts:53-55 | both ends of an agreement compute one value, and no other partner key gives it |
| Ratchet.SkipMessageKeys | src/ratchet/index.ts:104-137 | the loop stores the key of every message it passes, in a copy, and throws before storing anything when asked to skip more than `MAX_SKIP` |
| Ratchet.RatchetDecrypt | src/ratchet/index.ts:304-356 | skipped-key lookup, DH step and skips in the source's order; on any error the caller's state is untouched |
| RatchetRuns.MessageKeysDiffer | src/ratchet/index.ts:63-89 | two messages share a key only if they are the same message of the same chain |
| RatchetRuns.SkipKeepsReceiving | src/ratchet/index.ts:104-137 | skipping turns exactly the passed-over messages into skipped entries holding their right keys |
| RatchetRuns.StepKeepsReceiving | src/ratchet/index.ts:145-177 | a DH step closes the peer's old chain, opens its new one with the same root and chain key the peer has, and keeps every skipped entry right |
| RatchetRuns.ReceiveNext | src/ratchet/index.ts:336-356 | taking the next message of the open chain keeps the receiver's invariant |
| RatchetRuns.ReceiveSkipped | src/ratchet/index.ts:310-322 | taking a message whose key was kept deletes that entry and nothing else |
| RatchetRuns.OldChainPacket | src/ratchet/index.ts:304-356 | a packet of an epoch already left opens with its skipped key or with nothing |
| RatchetRuns.NextChainPacket | src/ratchet/index.ts:304-356 | a packet of the peer's next epoch opens exactly when both skips it asks for are within the bound |
| RatchetRuns.DecryptOutcome | src/ratchet/index.ts:304-356 | in any reachable state a packet decrypts, to its own plaintext, exactly when it is new and its skips are within `MAX_SKIP` |
| RatchetRuns.RunKeepsInv | src/ratchet/index.ts:213-356 | the two sides are never more than one DH step apart, matching epochs have matching keys, and each skipped entry is the key of an undelivered message, in every run |
| RatchetRuns.PendingMessageDecrypts | src/ratchet/index.ts:104-177 | however messages were reordered, lost or repeated, a packet ever sent opens, to the plaintext it was sealed with, if and only if it was not opened before and its skips are within `MAX_SKIP` |
| RatchetRuns.NoMessageDecryptsTwice | src/ratchet/index.ts:304-356 | after one success the same packet throws in every later state, also when replayed from an old epoch |
| Sessions.SessionTable.HandleDataPacket | src/sdk/message-handler.ts:147-206 | the indexed session is tried first, then all in order; only the first that decrypts changes, and a packet none can decrypt changes nothing |
| Sessions.FirstMatchDecrypts | src/sdk/message-handler.ts:165-190 | the order of trial gives the first session that decrypts, and none exactly when none does |
| Sessions.InitFromSecret | src/ratchet/index.ts:213-262 | both initial states hold only keys grown from the shared secret |
| Sessions.EncryptKeepsOrigin | src/ratchet/index.ts:265-295 | what a session seals is sealed under a key grown from its own secret |
| Sessions.DecryptKeepsOrigin | src/ratchet/index.ts:304-356 | a session opens only what was sealed under its own secret, whatever the header says, and stays on it |
| SessionRuns.RunStaysApart | src/sdk/session-manager.ts:757-790 | whatever is opened, replaced, sealed, received or removed, every session holds only keys grown from the secret it was opened with, and no two sessions share one |
| SessionRuns.PacketsFindTheirSessions | src/sdk/message-handler.ts:147-206 | in every run of a session table a packet is matched to the session under whose secret it was sealed or to none, independently of order, index and other sessions, and a packet of no session to none |
| SessionRuns.RunsSealUnderOwnSecret | src/sdk/index.ts:1027-1036 | what a run seals for a peer is sealed under the secret agreed with that peer |
| SessionRuns.SealMovesOn | src/sdk/index.ts:1027-1036 | the next message a session seals gets the next number and another key |
| SessionRuns.RemoveForgets | src/sdk/session-manager.ts:777-788 | a removed peer leaves no session, index entry or place in the order, and nothing of another peer changes |
| X3dh.SecretsAgree | src/x3dh/index.ts:151-226 | an initiator accepts exactly a signed bundle, and both sides then derive one secret if and only if the responder holds the private key of everything the initiator used |
| X3dh.SecretBindsEnvelope | src/x3dh/index.ts:151-226 | a responder holding the keys the bundle names derives the initiator's secret from exactly the identity key, ephemeral key and ciphertext the initiator sent |
| OneTimePreKeys.OpkPool.Load | src/sdk/session-manager.ts:259-271 | start-up brings every stored pre-key into memory |
| OneTimePreKeys.OpkPool.PersistAll | src/sdk/session-manager.ts:338-344 | the refill loop brings every generated pair into memory and onto the disk, and touches no other pair |
| OpkRuns.RefillPersistsAll | src/sdk/session-manager.ts:338-344 | taken step by step as in the runs, an undisturbed refill ends in the state that loop computes |
| OneTimePreKeys.OpkPool.Take | src/sdk/session-manager.ts:979-987 | the key an `x3dh_init` names is found and dropped from memory in one piece |
| OneTimePreKeys.OpkDirectory.Store | node/src/index.ts:1394-1412 | an upload stores the part of its batch that both caps leave, ignoring keys already there |
| OneTimePreKeys.OpkDirectory.Claim | node/src/index.ts:325-332 | a claim removes exactly the row it hands out, and hands out nothing only from an empty pool |
| OneTimePreKeys.StoreAdds | node/src/index.ts:1403-1411 | storing puts each new key of the batch in once, however often it is in it, and keeps the older rows as they are, in place |
| OneTimePreKeys.StoresLongestPrefix | node/src/index.ts:1394-1408 | of a batch the longest prefix within both caps is stored |
| OneTimePreKeys.RelayStaysBounded | node/src/index.ts:1394-1408 | the relay never holds more than 100 keys of an identity, and drops no key of a small batch below that cap |
| OpkRuns.PlacesKept | src/sdk/session-manager.ts:259-344 | no step of owner, relay or network puts a key in a second place |
| OpkRuns.RunKeepsInv | src/sdk/session-manager.ts:259-344 | the durability invariant holds in every run with crashes, failed writes and lost uploads |
| OpkRuns.RefillTopsUp | src/sdk/session-manager.ts:324-343 | a refill generates exactly the keys missing to the target size, none seen before |
| OpkRuns.RefillReachesRelay | src/sdk/session-manager.ts:324-344 | a refill that nothing disturbs and whose upload arrives ends with all its keys on disk, in memory and on offer |
| OpkRuns.UseReplenishes | src/sdk/session-manager.ts:979-987 | a used key leaves memory, its deletion from the disk is pending, and a pool that has run low starts a refill to its target |
| OpkRuns.OutstandingIsDurable | src/sdk/session-manager.ts:324-344 | every pre-key that is uploaded, offered, or claimed and unused is on its owner's disk, and in its memory whenever the owner runs |
| OpkRuns.ClaimedOnce | node/src/index.ts:323-332 | no pre-key is claimed twice, nor still offered or on its way to the relay once claimed |
| OpkRuns.AgreeIffHeld | src/sdk/session-manager.ts:960-1010 | an `x3dh_init` gives both sides one secret exactly when it used no one-time pre-key or the owner still holds it |
| OpkRuns.CompleteIncomingHandshake | src/sdk/session-manager.ts:960-1010 | the responder's secret is derived with the pair the envelope names if memory holds it, else without one, and the pair is gone from memory afterwards |
| OpkRuns.InitiateUsesItsClaim | src/sdk/session-manager.ts:875-902 | an `x3dh_init` names its sender and exactly the key its sender claimed, or none if none was claimed |
| OpkRuns.FirstInitAgrees | src/sdk/session-manager.ts:875-1010 | an `x3dh_init` whose key is unused agrees, and leaves initiator and responder in the two halves of a start state of the ratchet runs |
| OpkRuns.FirstDeliveryAgrees | src/sdk/session-manager.ts:875-1010 | in every run no two handshakes name one key, and the first delivery of every handshake agrees while the owner is up, whatever was delivered before |
| OpkRuns.MessagesAfterFirstInit | src/sdk/session-manager.ts:875-1010 | after any run of the key protocol, any packet the two sides then exchange opens, to its own plaintext, if and only if it was not opened before and its skips are within `MAX_SKIP` |
| OpkRuns.RepeatedInitDiverges | src/sdk/session-manager.ts:989-993 | a repeat of it right afterwards derives a different secret |
| OpkRuns.DeletedKeysStayGone | src/sdk/session-manager.ts:979-993 | once the deletion of a used key has reached the disk it never comes back, and from the next restart on every repeat of its handshake derives a different secret |
| Gossip.AddrBook.Ingest | node/src/federation.ts:1207-1267 | the verification loop: the book becomes the merge, every record it changes or passes on carries its owner's signature, and exactly the records that were new are passed on |
| Gossip.MergeAdmitsOnlySigned | node/src/federation.ts:1216-1242 | whatever a frame holds, a record that enters the book or is passed on came with it, is signed by its owner over exactly its fields, keeps to every format limit and offers a way to reach its owner |
| Gossip.MergeTakesNewest | node/src/federation.ts:1227-1250 | per owner the newest record wins, and only strictly newer ones change the book |
| GossipRuns.RunKeepsInv | node/src/federation.ts:1014-1267 | in every run, with hostile relays sending what they like, every record held passes the checks, and over a link between honest relays is held as new at the other end or in flight to it |
| GossipRuns.HeldRecordsAreSigned | node/src/federation.ts:1207-1242 | in every such run a record that any book holds for k was signed by k, and if k is honest k issued it with just this content |
| GossipRuns.GossipAgreesAtRest | node/src/federation.ts:1014-1046 | with no frame in flight, honest relays joined by a chain of links agree whatever hostile ones sent: on all owners and times, on all signed content of honest owners, and on each other's newest record; without hostile relays their books are equal |
| GossipRuns.PeriodicSendsBook | node/src/federation.ts:1014-1046 | a periodic round sends exactly the book, behind what is in flight on that link |
| GossipRuns.TimestampsNeverDecrease | node/src/federation.ts:1207-1267 | only a relay's own restart makes its book forget an owner or step back in time |
| GossipRuns.DeliveryMakesProgress | node/src/federation.ts:1252-1267 | a delivery, of any frame whatever, either shrinks what books are missing or sends nothing on |
| GossipRuns.DeliveryCirculates | node/src/federation.ts:1252-1267 | a delivery brings no new record into circulation and sends nothing back on its link |
| GossipRuns.RegossipDiesOut | node/src/federation.ts:1252-1267 | event-driven re-gossip comes to rest in any delivery order |
| GossipFrames.SendAddrGossip | node/src/federation.ts:1053-1072 | the pagination loop sends exactly the frames of `Paginate` |
| GossipFrames.PaginationDropsNothingFitting | node/src/federation.ts:1053-1072 | the frames carry, in order and without repeats, a part of the book that leaves out no record fitting `MAX_FRAME_BODY - 16` alone, every frame within both limits |
| GossipFrames.ZeroBatchSendsNothing | node/src/federation.ts:1053-1072 | with a batch limit of zero nothing is sent |
| GossipFrames.WellFormedFits | node/src/federation.ts:1217-1267 | a record that passes the format checks takes at most 3262 bytes of JSON and so fits a frame |
| GossipFrames.PaginationIsComplete | node/src/federation.ts:1053-1072 | with a batch limit of at least one, the frames hold exactly the records of the book, so they are a framing the gossip runs accept |
| GossipFrames.PagedGossipAgreesAtRest | node/src/federation.ts:1014-1072 | that agreement holds of gossip sent in these frames |
| Bridge.Expand | node/src/federation.ts:742-752 | the inner loop queues exactly the unvisited neighbours of the front relay |
| Bridge.RoundKeepsSearch | node/src/federation.ts:736-754 | one round of the search keeps every queued path a shortest chain, in order of length |
| Bridge.ExhaustedSearch | node/src/federation.ts:736-754 | with the queue empty, every relay at the end of a chain within the bound was taken |
| Bridge.FindBridge | node/src/federation.ts:717-754 | returns a duplicate-free chain from a directly reachable onion relay to the anchor, of minimum length; null exactly when no chain within max(1, `MAX_TRANSIT_HOPS`) exists |
| Onion.SealOnion | node/src/onion.ts:83-92 | the backward loop builds the layered onion of its path |
| Onion.PeelShrinks | node/src/onion.ts:98-117 | whatever a relay is given, a successful peel returns a strictly shorter blob |
| Onion.LayeredLength | node/src/onion.ts:67-92 | k hops cost 93k - 32 bytes over the packet |
| Onion.PeelOneLayer | node/src/onion.ts:98-117 | a hop's own key opens its layer to the next hop and the onion for it, or at the last hop to the packet |
| Onion.OnionFollowsItsPath | node/src/onion.ts:83-117 | peeled hop by hop, an onion visits exactly its path and yields the packet only at the end; every later frame fits if the first did |
| Federation.TransitTakesFirst | node/src/federation.ts:651-668 | transit goes through the first usable anchor, over its link if there is one, one hop further |
| Federation.TransitFails | node/src/federation.ts:651-669 | transit drops a packet if and only if no anchor is usable |
| Federation.FanOutReachesEachOnce | node/src/federation.ts:844-858 | a fan-out reaches exactly the open peers other than the excluded one, each once |
| Federation.FederationManager.QueueAndDial | node/src/federation.ts:785-803 | the entry is queued behind earlier ones up to the bound, with the source's drop rule |
| Federation.FederationManager.SendOnionTo | node/src/federation.ts:768-780 | an onion goes to an open peer, else is queued for a dialable one, else is dropped |
| Federation.FederationManager.ForwardToRelay | node/src/federation.ts:615-669 | direct, else dial, else onion, else cleartext transit, in this order and never two of them |
| Federation.FederationManager.ForwardInTransit | node/src/federation.ts:651-668 | the transit loop takes the first anchor that is open or dialable |
| Federation.FederationManager.FanOut | node/src/federation.ts:844-858 | every open peer but the excluded one gets one copy |
| Federation.FederationManager.ForwardFromLocal | node/src/federation.ts:594-602 | a client's packet goes to every open peer with count 0, unless it cannot fit a frame |
| Federation.FederationManager.HandleFlood | node/src/federation.ts:1102-1140 | a duplicate, an exhausted count and a local outcome each end a flood frame; otherwise it goes on with the count one higher, not back |
| Federation.FederationManager.HandleRoutedForward | node/src/federation.ts:1163-1181 | a routed frame for this relay ends here, one over the hop limit is dropped, any other is forwarded with its hop count |
| Federation.FederationManager.HandleOnion | node/src/federation.ts:1183-1198 | a peeled onion goes to the hop it names, a packet is delivered, anything else is dropped |
| Federation.FederationManager.FlushPending | node/src/federation.ts:1075-1088 | a dialed peer's queue is emptied and sent to it, entry by entry in order |
| ForwardLaws.FlushAsIfLinked | node/src/federation.ts:1075-1088 | what forwarding queued behind a dial leaves, once the link is up, exactly as it would have left had the link been open from the start |
| ForwardLaws.OnionFlushAsIfLinked | node/src/federation.ts:768-780 | the same of an onion passed on, which keeps its blob and is dropped exactly without link and address |
| ForwardLaws.ForwardCarries | node/src/federation.ts:615-669 | whatever leaves, at once or by the flush, carries the packet: itself to its relay, with the target's name and one hop more to an anchor, or the onion for the chosen path to its first hop; and restricted egress never dials |
| ForwardLaws.ForwardPrefers | node/src/federation.ts:615-669 | the order of preference is exact: an open link, a dial, an onion whenever one can leave, and cleartext transit only when nothing else is possible |
| ForwardLaws.TransitArrives | node/src/federation.ts:1163-1181 | an anchor linked to the target passes a routed packet to it, while hops are left |
| ForwardLaws.OnionHopPassesOn | node/src/federation.ts:1183-1198 | each hop of an onion passes the rest of it to the relay named next, and the last has the packet |
| ForwardLaws.HexRoundTrip | node/src/onion.ts:98-117 | the name a layer gives its next hop is two digits a byte, and the key can be read back from it |
| ForwardLaws.PathStartsWhereOnionsLeave | node/src/federation.ts:717-754 | the bridge search starts paths at exactly the relays an onion can be sent to |
| ForwardLaws.PathGoesWhereOnionsPass | node/src/federation.ts:742-752 | and extends them by exactly the relays an onion can be passed to, by a hop linked as the address book says |
| Overlay.HandlingLosesWeight | node/src/federation.ts:1090-1198 | one measure over flood, routed and onion frames and queued forwards drops with every handling, whatever peers, books and caches a relay has |
| Overlay.JourneysEnd | node/src/federation.ts:594-858 | no run of the overlay is longer than the weight it starts with |
| Overlay.ItemsEverBounded | node/src/federation.ts:844-858 | the frames ever produced are bounded by the initial weight |
| Overlay.FloodFramesBounded | node/src/federation.ts:844-858 | with at most D peers per relay a flood sends at most the sum of D^(k+1) for k = 0..`MAX_HOPS` frames |
| Overlay.HandlingKeepsLimits | node/src/federation.ts:1102-1181 | counters stay within their limits, and only a routed frame begets a routed frame, one, a hop further |
| Overlay.HopCountsStayBounded | node/src/federation.ts:1090-1181 | in any run flood counts stay within `MAX_HOPS`, hop counts within `MAX_TRANSIT_HOPS`, and handled routed frames never exceed the hops their chains had left |
| Overlay.RoutedChainIsShort | node/src/federation.ts:615-669 | a client's packet passes through at most `MAX_TRANSIT_HOPS` routed frames |
| Overlay.RoutedForwardCrosses | node/src/federation.ts:1075-1181 | a queued routed forward, once flushed and handled by an anchor linked to its target, is in two steps the packet on its way to the target |
| MessageStore.RetentionKeepsNewest | src/sdk/message-handler.ts:423-441 | retention drops from the front only, down to the newest `max` or to the first message young enough |
| MessageStore.UpdateTouchesOneMessage | src/sdk/message-handler.ts:484-583 | a reaction, status or receipt changes the one copy with the id in its place, and is refused only if there is nothing to change |
| MessageStore.StatusIsSet | src/sdk/message-handler.ts:524-546 | a status update sets the status of the message it names and of no other |
| MessageStore.SaveThenFind | src/sdk/message-handler.ts:443-459 | a save replaces the one copy with its id in place, or else puts the message behind all the stored ones, of which retention may then drop the oldest |
| MessageStore.RemoveTakesOut | src/sdk/message-handler.ts:461-474 | a removal takes out exactly the message with the id, keeps the order, and writes only if there was one |
| MessageStore.WithoutElements | src/sdk/message-handler.ts:461-474 | removing an id removes its messages and no others |
| MessageStore.ReactionIsSet | src/sdk/message-handler.ts:484-522 | a reaction ends in the requested state on the message it names, touches no other message, peer, emoji or field, stores no empty list, and writes exactly when there was something to change |
| MessageStore.ReceiptIsRecorded | src/sdk/message-handler.ts:556-583 | a group receipt is recorded for its peer on the outbound message it names, never from read back to delivered, and touches no other message, peer or field |
| MessageStore.EffectKeepsDistinctIds | src/sdk/message-handler.ts:443-583 | no locked operation gives two stored messages one id |
| KeyedMutex.Mutex.Enqueue | src/sdk/keyed-mutex.ts:25-29 | a call waits for the old tail of its key's chain and becomes the tail |
| KeyedMutex.Mutex.Release | src/sdk/keyed-mutex.ts:31-34 | clean-up deletes a key's chain only while the finishing call is its tail |
| KeyedMutex.ChainsKept | src/sdk/keyed-mutex.ts:25-36 | every step keeps each call waiting for the call just before it on its key, and a cleaned-up key without anything left to wait for |
| KeyedMutex.LockedRunsAreSequential | src/sdk/keyed-mutex.ts:25-36 | in every interleaving, with failures and clean-ups anywhere, operations on a key run one at a time in call order, and the stored list is what those that took effect make of it one after another |
| KeyedMutex.NoUpdateLost | src/sdk/message-handler.ts:443-583 | once every call on a key has succeeded, its list is all calls of the run applied in the order called |
| KeyedMutex.KeyNeverStuck | src/sdk/keyed-mutex.ts:27-28 | while a call on a key is unsettled, some call on that key can take a step |
| KeyedMutex.StoredIdsStayDistinct | src/sdk/archive.ts:289-296 | however saves, removals, reactions, receipts and archive merges interleave, no stored list holds an id twice |
| ConversationRuns.EffectRefines | src/sdk/message-handler.ts:443-583 | with unbounded retention a stored list is a map from ids to messages, and each operation, archive merges included, is the obvious change of that map |
| ConversationRuns.ConversationsAreMaps | src/sdk/keyed-mutex.ts:25-36 | in every interleaving a stored conversation is what the operations that took effect, in call order, make of the map it started as |
| ConversationRuns.SavedMessageStays | src/sdk/message-handler.ts:443-459 | a message whose save took effect is in the final list, with its time, direction and payload, unless an operation called later removed or replaced it |
| Archive.MergeTimes | src/sdk/archive.ts:205-212 | tombstones or revivals become the newest of both sides |
| Archive.MergeMessages | src/sdk/archive.ts:244-256 | local messages by id, then remote ones with unknown ids, sorted by time |
| Archive.MergeAccounts | src/sdk/archive.ts:262-279 | one entry per live account with its devices united |
| ContactEvents.DeleteConversation | src/sdk/index.ts:2179-2196 | a delete makes of the replicated state what `Deleted` says, wipes the conversation's messages and routing data, and touches no other key |
| ContactEvents.RecordRevival | src/sdk/index.ts:2223-2233 | whatever the clock says, a revival lifts the peer's delete, moves its time never back, and changes the standing of no other peer |
| ContactEvents.AddContact | src/sdk/index.ts:1651-1676 | adding a contact makes of the replicated state what `RevivedAt` says, and reports whether a delete was lifted |
| ContactEvents.ReviveGroup | src/sdk/index.ts:1423-1423 | creating or joining a group makes of it what `GroupRevivedAt` says: a revival without a listing |
| ContactEvents.BlockPeer | src/sdk/index.ts:1780-1784 | blocking makes of the replicated state what `BlockedBy` says and touches no other key |
| ContactEvents.UnblockPeer | src/sdk/index.ts:1787-1791 | and unblocking what `UnblockedBy` says |
| Archive.ArchiveStorage.MergeKey | src/sdk/archive.ts:237-287 | one key is merged by the kind of value both sides hold, or copied |
| Archive.ArchiveStorage.MergeKv | src/sdk/archive.ts:195-323 | the whole merge equals its fold over the entries followed by both contact filters |
| ArchiveLaws.MergedMessagesOk | src/sdk/archive.ts:241-256 | two well-formed lists merge to each id once, the id union, in timestamp order, the local copy on conflict, and merging again changes nothing |
| ArchiveLaws.MergedIdsDistinct | src/sdk/archive.ts:241-256 | a merged list holds each id once even if a list it came from does not |
| ArchiveLaws.MergeStoreAt | src/sdk/archive.ts:289-296 | key by key: a deleted peer's keys keep their local state, any other key is merged or copied |
| ArchiveLaws.ConversationsAfterMerge | src/sdk/archive.ts:217-296 | for a tombstoned peer no message, routing key or identity key is added or changed; a live conversation is merged message by message |
| ArchiveLaws.BlockedAfterMerge | src/sdk/archive.ts:281-281 | the blocked peers after a merge are those of both sides |
| ArchiveLaws.KeysAfterMerge | src/sdk/archive.ts:285-287 | of routing and identity keys the remote copy wins, unless their peer is deleted |
| ArchiveLaws.DevicesAfterMerge | src/sdk/archive.ts:262-279 | a live account has the devices of both sides after a merge, a deleted one none |
| ArchiveLaws.MergedElements | src/sdk/archive.ts:241-256 | of lists without repeated ids the merge holds every local message that has an id and each remote one whose id is not local, and nothing else |
| ArchiveLaws.MergeIsJoin | src/sdk/archive.ts:195-323 | on tombstones, revivals, contacts, account keys and blocked peers the merge is one join, whatever order the entries come in |
| ArchiveLaws.JoinCommutes | src/sdk/archive.ts:195-323 | the join is commutative |
| ArchiveLaws.JoinIdempotent | src/sdk/archive.ts:195-323 | joining a state with itself changes nothing if and only if it lists no deleted peer |
| ArchiveLaws.JoinKeepsWellFormed | src/sdk/archive.ts:298-323 | the join of well-formed states is well-formed |
| ArchiveLaws.JoinAssociatesExactly | src/sdk/archive.ts:195-323 | for all states whatever, the join associates if and only if the last one joined, either way round, lists every peer it brings back that another lists |
| ArchiveLaws.JoinAssociates | src/sdk/archive.ts:195-323 | between well-formed states, with or without revived groups, the join associates, whatever the middle one, provided it lists no group |
| ArchiveLaws.JoinNeedsSupply | src/sdk/archive.ts:195-323 | three concrete states, one reviving a peer it does not list, on which it does not |
| ArchiveLaws.JoinAllInClosedForm | src/sdk/archive.ts:195-323 | joining any number of well-formed states, revived groups included, gives the newest times and the live members of all |
| ArchiveLaws.AnyOrderAgrees | src/sdk/archive.ts:195-323 | devices that merged the same states agree, whatever the order and repetition |
| ArchiveRuns.RunsStayWellFormed | src/sdk/archive.ts:393-408 | every state that adding, deleting, reviving contacts and groups, pulling and pushing can reach is well-formed |
| ArchiveRuns.DeleteKeepsWellFormed | src/sdk/index.ts:2179-2196 | a delete keeps a well-formed state well-formed if and only if it is stamped later than the last revival, or is a group's |
| ArchiveRuns.ReviveKeepsWellFormed | src/sdk/index.ts:2223-2233 | listing a peer with a revival does if and only if no tombstone is later |
| ArchiveRuns.AddKeepsWellFormed | src/sdk/index.ts:1651-1676 | listing a peer without one does if and only if it is not deleted |
| ArchiveRuns.RecordedRevivalsQualify | src/sdk/index.ts:2223-2233 | the stamp the SDK makes always qualifies, and a delete afterwards does exactly when it is later than that stamp |
| ArchiveRuns.TwoRoundsAgree | src/sdk/archive.ts:195-323 | after two rounds in which every device pulls and pushes, in any orders, all devices hold the same state |
| ArchiveRuns.StatesFollowFlows | src/sdk/archive.ts:195-323 | with pulls and pushes of all devices interleaved at will, each device and the archive hold exactly the join of the starting states that flowed to them |
| ArchiveRuns.ExchangesAgreeExactly | src/sdk/archive.ts:195-323 | a schedule of pulls and pushes makes two devices agree from every well-formed start if and only if the same starting states flowed to both |
| ArchiveRuns.OverlappingRoundsStarve | src/sdk/archive.ts:195-323 | two devices that both pull before either pushes never converge in this way, however often they repeat it |
| ArchiveRuns.ExchangesKeepBlocks | src/sdk/archive.ts:281-281 | however pulls and pushes interleave, a device blocks a peer afterwards if and only if a state that flowed to it did at the start, its own among them |
| ArchiveRuns.UnblockStandsIffArchiveAgrees | src/sdk/archive.ts:281-281 | an unblocking stands after a pull if and only if the archive does not block the peer |
| ArchiveRuns.SeenIdsMergeAsMaps | src/sdk/archive.ts:281-281 | seen ids merge as a map and idempotently so, while their list grows by the whole remote list each time |
| RelayTree.FindNodeAt | src/group/index.ts:752-760 | the search finds the subtree of exactly the members below its start |
| RelayTree.FindParentAt | src/group/index.ts:762-770 | the parent of the j-th ranked member is the one ranked (j - 1) / 2 |
| RelayTree.InSubtreeAt | src/group/index.ts:772-776 | a member is in a subtree exactly when its chain of parents meets the subtree's root |
| RelayTree.PositionsOnce | src/group/index.ts:600-627 | a subtree holds each member under its root once, and no other |
| RelayTree.TreeIsShallow | src/group/index.ts:604-627 | a chain of d links needs at least 2^d members |
| Group.RecentKeepsWindow | src/group/index.ts:529-541 | activity counts exactly the entries within the window |
| Group.UsedKeepsRecent | src/group/index.ts:529-541 | of a member's entries those within the window stay, and the new one is among them |
| Group.RankingPutsRootFirst | src/group/index.ts:568-590 | the ranking lists each member once, the tree root first if it is one, the others by falling activity |
| Group.RankingIgnoresJoinOrder | src/group/index.ts:580-590 | members and activity alone determine the ranking, not the order of joining |
| Group.InsertAll | src/group/index.ts:591-627 | breadth-first insertion gives node i the parent (i - 1) / 2 |
| Group.GroupState.constructor | src/group/index.ts:108-165 | a new group has no cached tree |
| Group.GroupState.AddMember | src/group/index.ts:268-290 | a new member joins at the end and drops the cached tree; a known one changes nothing |
| Group.GroupState.RemoveMember | src/group/index.ts:311-325 | removing a member drops the cached tree; a stranger changes nothing |
| Group.GroupState.SetAdmin | src/group/index.ts:435-443 | only a member or nobody becomes admin, and then the cached tree is dropped |
| Group.GroupState.UpdateActivity | src/group/index.ts:529-541 | a known member's activity gains one entry and loses those outside the window |
| Group.GroupState.BuildRelayTree | src/group/index.ts:550-633 | a young cached tree is returned, else one is built, or an empty group refused; whatever is returned spans the current roster |
| Group.ParentByBreadth | src/group/index.ts:640-661 | the breadth-first search returns the parent that the depth-first one finds, and nothing for the root or a stranger |
| Group.GroupState.GetRelayTarget | src/group/index.ts:640-661 | the relay target is the parent in the current tree |
| Group.GroupState.GetRelayChildren | src/group/index.ts:667-672 | the relay children are the local peer's children in the current tree |
| Group.GroupState.RouteGroupMessage | src/group/index.ts:690-730 | the targets are those of `Routed` on the current tree |
| GroupLaws.TreeHoldsRoster | src/group/index.ts:550-633 | the tree holds each member exactly once, is rooted at the admin if a member, and depth d implies 2^d at most the number of members |
| GroupLaws.TreeFollowsActivity | src/group/index.ts:550-633 | a newly built tree holds the members breadth first by falling recorded activity, ties by id, after the admin |
| GroupLaws.TargetIsParent | src/group/index.ts:640-661 | the relay target of the j-th ranked member is the one ranked (j - 1) / 2 |
| GroupLaws.TargetAndChildrenInverse | src/group/index.ts:640-672 | a peer is among a relay's children if and only if that relay is its target |
| GroupLaws.SenderReachesDescendants | src/group/index.ts:690-715 | a sender delivers to exactly its proper descendants, each once, hence from the root to every other member |
| GroupLaws.RelayTargets | src/group/index.ts:716-728 | a relay forwards to each child not towards the sender, and to its parent unless that is the sender |
| GroupLaws.RelayEchoesUpward | src/group/index.ts:723-728 | a message from above is sent back up exactly when the parent is not the sender itself |
| RelayStore.Store.RemoveBlob | src/relay/index.ts:151-167 | one blob leaves all three views and the byte count together |
| RelayStore.Store.StoreBlob | src/relay/index.ts:101-135 | fails exactly when the blob alone exceeds the capacity, leaving the store empty; else evicts, drops an older copy and appends |
| RelayStore.EvictionsAreShortest | src/relay/index.ts:104-115 | the evicted blobs are the shortest oldest prefix that makes room |
| RelayStore.StoreKeepsNewest | src/relay/index.ts:101-135 | a stored blob goes last, and of the older ones exactly those survive that were not evicted and have another id |
| RelayStore.Store.GetBlobs | src/relay/index.ts:138-148 | returns exactly the blobs bound for the destination, in storing order |
| RelayStore.Store.RemoveBlobsForDest | src/relay/index.ts:170-178 | removes exactly the blobs bound for the destination |
| RelayStore.Store.PruneExpired | src/relay/index.ts:183-195 | the backward loop removes exactly the expired blobs and counts them |
| RelayStore.Store.HandlePresenceAnnouncement | src/relay/index.ts:243-268 | delivers everything stored under either epoch's hash and keeps exactly the rest |
| RelayStore.DeliveryConserves | src/relay/index.ts:243-268 | delivered and kept blobs together are the stored ones, each once |
| RelayStore.RemovalKeepsViews | src/relay/index.ts:151-167 | after a removal the insertion order is still a duplicate-free listing of the blobs, the index partitions them without empty buckets, and the byte count is their sum |
| RelayStore.AddedToViews | src/relay/index.ts:122-132 | and likewise after an insertion |
| DedupFilters.CacheMeetsHistory | node/src/federation.ts:277-296 | the bounded map answers seen exactly for an id among the 1024 most recently inserted distinct ids and younger than the time to live |
| DedupFilters.TrimNext | node/src/federation.ts:287-293 | delete, insert and evict on the bounded map is the bound of the unbounded one |
| DedupFilters.PacketIdCache.CheckAndInsert | node/src/federation.ts:281-295 | over any call sequence the cache answers as its history says |
| DedupFilters.NextRing | src/routing/index.ts:223-228 | overwriting the cursor's slot turns the ring into the next window |
| DedupFilters.SeenPacketSet.TestAndAdd | src/routing/index.ts:216-229 | true exactly for one of the last `capacity` additions; a fingerprint is added again only after more than `capacity` additions |
| DedupFilters.SeenPacketSet.ShouldRelay | src/routing/index.ts:482-488 | relays exactly a live packet whose fingerprint is not in the window, so a fingerprint at most once per window |
| FloodDedup.FirstCopyDecides | node/src/federation.ts:1114-1125 | within the cache's window a relay acts on a flooded packet exactly when the first copy to arrive has a count below `MAX_HOPS`, and never on a later copy, however short its way |
| RateLimiter.Limiter.CheckRateLimit | node/src/index.ts:355-370 | accepts as the window counter says, and tells a rejected caller the least whole number of seconds until the window has rolled over |
| RateLimiter.Limiter.PruneRateLimitState | node/src/index.ts:404-409 | drops exactly the windows that ended before |
| RateLimiter.PruningIsInvisible | node/src/index.ts:404-409 | with a monotone clock, pruning at any moments changes no answer of any run |
| RateLimiter.RejectedOnlyAtTheLimit | node/src/index.ts:355-370 | a request is rejected only if the limit was reached within the window that ends with it |
| RateLimiter.AtMostTwiceTheLimit | node/src/index.ts:355-370 | no half-open window of `RATE_WINDOW_MS`, wherever it starts, holds more than twice the limit of accepted requests of a bucket and address |

## Left out

- Real cryptography, secrecy and unlinkability: symbolic terms stand for X25519, Ed25519, ML-KEM, AES-GCM, BLAKE3 and HKDF.
- Sockets, HTTP, SQLite, timers, reconnect backoff and the handshake bytes: they are steps and parameters of the runs.
- That a flood reaches every relay within `MAX_HOPS`: it does not, since an exhausted copy that arrives first shuts out a shorter one (`FloodDedup.FirstCopyDecides`); what a whole flood reaches is not modelled.
- Overlay.JourneysEnd: handlers may drop frames for reasons the model leaves open, such as per-peer frame limits and failed sends, which only shortens runs.
- GossipRuns.GossipAgreesAtRest: the age filter and the cap of 4096 address records are left out, since agreement fails once records are dropped for age or space.
- GossipFrames.SendAddrGossip: the JSON length of a record is a parameter of the framing, bounded by `JsonLaw`, because no JSON text is modelled.
- The random choice of `selectOnionPath`: the path is a parameter of `ForwardToRelay`, and only `findBridge` is modelled.
- ContactEvents.AddContact: the new contact has one device, under its own key; other devices of a contact, which `contacts` also lists, are learned later.
- ContactEvents.DeleteConversation: the in-memory caches it also clears are left out, and a failed write between the wipes and the tombstone is no event of the archive runs.
- SessionRuns.PacketsFindTheirSessions: a secret agreed with two peers is outside the runs, since the two sessions could then open each other's packets.
- ArchiveLaws.DevicesAfterMerge: one merge only; the device sets inside `contacts_v2` do not associate across a delete and a revival, so no join is claimed of them.
- OpkRuns.OutstandingIsDurable: the one-shot migration, which uploads keys again that may already be claimed, is outside the runs.
- The scalar message status: `updateMessageStatus` moves it freely, and only group receipts are guarded.
- `purgeExpiredMessages` takes no lock and is outside the claim of the keyed mutex.
- KeyedMutex.NoUpdateLost: the archive merge of a list is given to the event loop by its result, and what it computes is `Archive.MergedMessages`.
- RelayTree.FindNodeAt: tree nodes are values; that the source links mutable node objects is modelled by lists of child ranks in `Group.InsertAll`.
- DedupFilters.SeenPacketSet.TestAndAdd: asks for a non-empty fingerprint and a capacity of at least one, which every packet and every caller gives; the empty string marks a free slot.
- Group sender keys and their distribution, roles other than the admin, and group names.
- The proximity table, the permission manager, chaff, reputation, compliance, push and all user interfaces: single steps or no core.
