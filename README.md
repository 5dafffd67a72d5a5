# Concord replica bookkeeping, state-transfer records and reconfiguration decisions in Dafny

This project models three parts of the Concord BFT replica and proves properties of them.

- **The clients manager** (`ClientsManager`, module `Clients`). It holds:
  - the fixed set of valid client ids: proxy, external, client services and internal clients;
  - per client, the in-process request records, each with a time, a correlation id and a committed flag (module `RequestLedger`);
  - per client, the two-way index between reply sequence numbers and batch slots (module `ReplyCache`);
  - per client, the public key;
  - the reserved pages that persist keys and replies, laid out by client rank (module `PageLayout`).

  The manager is a class whose methods update its maps in place. Each method is specified by a pure function of the old state, and the properties are proved about those functions.
- **The state-transfer wire records** (module `BcstMessages`):
  - the message type tags;
  - checkpoint summaries with their trailing data, `create` and the two `equivalent` comparisons;
  - item data with `alloc` and `size`;
  - the zero-initialised fixed-size requests.

  Buffers are filled by loops over `array<byte>`, and the results are datatypes.
- **The decisions of the key-value reconfiguration handlers** (module `Reconfiguration`):
  - the wedge point;
  - the unwedge quorum and signature count;
  - who may sign internal commands or publish a TLS key;
  - noop-wedge acceptance;
  - the prune-status response;
  - the latest-or-versioned read;
  - the targets and updates of a client key exchange;
  - which states a client reconfiguration state request returns.

Sources:
- `ClientsManager.cpp` is not part of this model. The clients manager is modelled from the contracts in its header.
- `canBecomePending` follows the header comment (`ClientsManager.hpp:136-138`): a request can become pending while the client's request count is not exactly equal to the per-client bound.

Modelling choices:
- Fixed-width integers are the subset types `uint8` … `uint64` of `Common`. Wrap-around is written out with `% 2^k` where the source's arithmetic can wrap:
  - page ids;
  - the per-client page count;
  - `ItemDataMsg::size`;
  - the 32-bit signature counter;
  - the 16-bit quorum and first client id;
  - the 64-bit wedge point.
- The "oldest" reply record is the one with the smallest sequence number, since request sequence numbers are time-based (`ClientsManager.hpp:86-87`).
- A reply recorded at a batch slot replaces any record with the same sequence number and any record at the same slot. This keeps one reply per slot and one slot per reply.
- A client's slot in the reserved-page region is its rank among the valid ids in ascending order, the order of the `std::set` it is built from.
- The reply page of batch slot `i` is `replyFirstPage + i * reservedPagesPerRequest`.
- Signature checks, storage reads and configuration values enter as parameters: functions for the verifier and the state readers, numbers for the replica counts, epoch and checkpoint window.

## Model

| member | source | states |
|---|---|---|
| RequestLedger.Emplace | bftengine/src/bftengine/ClientsManager.hpp:148-150 | adds an uncommitted record with the given time and cid only when none exists for s; every existing record, committed or not, is kept unchanged |
| RequestLedger.MarkCommitted | bftengine/src/bftengine/ClientsManager.hpp:152-155 | sets the committed flag of the record for s and keeps its time and cid; no record is added or removed, and without a record nothing changes |
| RequestLedger.Remove | bftengine/src/bftengine/ClientsManager.hpp:167-169 | the record for s is gone and every other record is kept |
| RequestLedger.RemoveOldPending | bftengine/src/bftengine/ClientsManager.hpp:75-77 | exactly the records with a sequence number above s remain, unchanged |
| RequestLedger.RemoveOutOfBatchBounds | bftengine/src/bftengine/ClientsManager.hpp:157-165 | when the count equals the global batch bound, s is absent and the greatest number exceeds s, exactly that greatest record goes and all others stay; otherwise the map is unchanged |
| RequestLedger.EarliestPendingIn | bftengine/src/bftengine/ClientsManager.hpp:174-178 | the scan returns a time no later than every uncommitted record's time; a lowered time is that of an uncommitted record, returned with its info, and among equal times the lowest sequence number wins |
| RequestLedger.AddKeepsBound | bftengine/src/bftengine/ClientsManager.hpp:133-142 | emplace adds exactly one record for a new request and none for a known one, so from a count below the per-client bound (what canBecomePending's "not exactly equal" test admits while the bound holds) the count stays within the bound |
| RequestLedger.CommittedIsNotRepended | bftengine/src/bftengine/ClientsManager.hpp:148-155 | adding a request whose record is committed keeps that record committed, with its time and cid |
| RequestLedger.EvictionScenario | bftengine/src/bftengine/ClientsManager.hpp:157-165 | with records {5, 7} and a global bound of 2, request 3 evicts 7, the newest |
| ReplyCache.OneReplyPerSlot | bftengine/src/bftengine/ClientsManager.hpp:267-270 | two reply records at the same batch slot are the same record |
| ReplyCache.EraseBySeq | bftengine/src/bftengine/ClientsManager.hpp:267-270 | removes exactly the record for s from both views, keeps the other records at their slots, and keeps the views consistent |
| ReplyCache.EraseByIndex | bftengine/src/bftengine/ClientsManager.hpp:185-188 | removes exactly the record at slot i, if any: every other record keeps its slot; with no record at i the map is unchanged; the size drops by at most one |
| ReplyCache.InsertOrAssign | bftengine/src/bftengine/ClientsManager.hpp:259 | afterwards s is recorded at slot i in both views, the views stay consistent, and the size grows by at most one |
| ReplyCache.InsertOrAssignKeepsOthers | bftengine/src/bftengine/ClientsManager.hpp:95-97 | the insertion displaces only the records for s and at slot i; no record appears except s's |
| ReplyCache.EraseOldest | bftengine/src/bftengine/ClientsManager.hpp:92-94 | removes exactly one record when there is one, keeping the views consistent |
| ReplyCache.EraseOldestTakesOldest | bftengine/src/bftengine/ClientsManager.hpp:92-94 | the removed record is older than every remaining one, and the remaining ones keep their slots |
| ReplyCache.AddReply | bftengine/src/bftengine/ClientsManager.hpp:92-101 | after allocation s is recorded at its slot, the views are consistent, and a count at or below a positive bound stays at or below it |
| ReplyCache.AllocateSlot | bftengine/src/bftengine/ClientsManager.hpp:92-97 | evicting the first entry of the ordered sequence view computes AddReply |
| ReplyCache.BoundOneScenario | bftengine/src/bftengine/ClientsManager.hpp:92-97 | with a bound of one, allocating replies 10 then 11 keeps 11 and evicts 10 |
| PageLayout.RankBelowCount | bftengine/src/bftengine/ClientsManager.hpp:284 | every valid client's slot is below the number of clients |
| PageLayout.RankStrictlyMonotone | bftengine/src/bftengine/ClientsManager.hpp:284 | distinct clients have distinct slots, in the order of their ids |
| PageLayout.ReservedPagesPerRequest | bftengine/src/bftengine/ClientsManager.hpp:197 | the fewest pages of the given size that hold a reply of maxReplySize bytes |
| PageLayout.ReservedPagesPerClient | bftengine/src/bftengine/ClientsManager.hpp:198-200 | one key page plus the reply pages of every batch slot, when that fits in 32 bits; it takes the per-request page count that `ReservedPagesPerRequest` computes from `sizeOfReservedPage` and `maxReplySize`, not those two sizes |
| PageLayout.ClientPages | bftengine/src/bftengine/ClientsManager.hpp:207-209 | a count of clients times the pages per client, exact when that fits in 32 bits; the region size and each client's key page are this product |
| PageLayout.ReplyFirstPageId | bftengine/src/bftengine/ClientsManager.hpp:205 | the page after the key page, when that fits in 32 bits |
| PageLayout.ReplyPageInRun | bftengine/src/bftengine/ClientsManager.hpp:205-209 | when the region fits in 32 bits, each batch slot's reply page lies after its client's key page and inside that client's run, and the run lies inside the region |
| PageLayout.ReplyPagesDisjoint | bftengine/src/bftengine/ClientsManager.hpp:95-96 | two (client, batch slot) pairs share a reply page exactly when they are equal, and no reply page is a key page |
| Clients.LoadRequestsKeepsNewer | bftengine/src/bftengine/ClientsManager.hpp:75-77 | after loading, exactly the request records newer than every saved reply remain, unchanged |
| Clients.LoadFromEmpty | bftengine/src/bftengine/ClientsManager.hpp:69-76 | loading at most bound saved replies into empty records evicts nothing: s has a record exactly when some slot saved it |
| Clients.RestartFindsSavedReply | bftengine/src/bftengine/ClientsManager.hpp:69-76 | a reply written to the page of batch slot idx is found by the records a restarted manager loads |
| Clients.LoadKeepsBound | bftengine/src/bftengine/ClientsManager.hpp:71-73 | loading saved replies into records within a bound of at least one keeps them within it, because each load evicts the oldest record at the bound |
| Clients.LoadedWithinBound | bftengine/src/bftengine/ClientsManager.hpp:71-73 | after every client's saved replies are loaded, every client's records are consistent, and a bound that held for every client still holds |
| Clients.RestartKeepsReply | bftengine/src/bftengine/ClientsManager.hpp:69-111 | restart round trip over the class: a reply allocated by one manager is found by hasReply on a manager constructed over the same reserved pages after it loads them |
| Clients.NumberClients | bftengine/src/bftengine/ClientsManager.hpp:284 | every valid id gets its rank as its reserved-page slot |
| Clients.LoadSavedReplies | bftengine/src/bftengine/ClientsManager.hpp:69-77 | the batch-slot loop computes LoadReplies and LoadRequests for one client |
| Clients.ClearRecords | bftengine/src/bftengine/ClientsManager.hpp:171-172 | every client's request records are emptied and no client is added or dropped |
| Clients.ReadKeyPages | bftengine/src/bftengine/ClientsManager.hpp:69-71 | returns a key exactly for each client whose key page holds one, with that key |
| Clients.LoadAllClients | bftengine/src/bftengine/ClientsManager.hpp:69-80 | every client's records become LoadReplies and LoadRequests of its saved slots |
| Clients.StoreReply | bftengine/src/bftengine/ClientsManager.hpp:92-101 | only client c's records change, to AddReply; all records stay consistent, s is held at its slot, and a bound that held for every client still holds |
| Clients.ClientsManager.constructor | bftengine/src/bftengine/ClientsManager.hpp:43-65 | the valid ids are the union of the four categories; the per-client bound is the batch size or 1; the per-request and per-client page counts are as laid out; every client starts with no requests and no replies; slots are by rank |
| Clients.ClientsManager.NumberOfRequiredReservedPages | bftengine/src/bftengine/ClientsManager.hpp:67 | the clients' count times reservedPagesPerClient, when that fits in 32 bits |
| Clients.ClientsManager.GetKeyPageId | bftengine/src/bftengine/ClientsManager.hpp:207-209 | the client's rank times reservedPagesPerClient, when that fits in 32 bits |
| Clients.ClientsManager.GetReplyFirstPageId | bftengine/src/bftengine/ClientsManager.hpp:205 | the key page id plus one, when that fits in 32 bits |
| Clients.ClientsManager.IsValidClient | bftengine/src/bftengine/ClientsManager.hpp:90 | true exactly for ids in one of the four client categories |
| Clients.ClientsManager.IsInternal | bftengine/src/bftengine/ClientsManager.hpp:202 | true exactly for internal clients, which are valid clients |
| Clients.ClientsManager.HasReply | bftengine/src/bftengine/ClientsManager.hpp:84-88 | true exactly when the client is valid and has a reply record for s |
| Clients.ClientsManager.IsClientRequestInProcess | bftengine/src/bftengine/ClientsManager.hpp:129-131 | true exactly when the client is valid and has a request record for s |
| Clients.ClientsManager.IsPending | bftengine/src/bftengine/ClientsManager.hpp:144-146 | true exactly when the client is valid and has an uncommitted record for s |
| Clients.ClientsManager.CanBecomePending | bftengine/src/bftengine/ClientsManager.hpp:133-142 | true exactly when the client is valid, its request count is not exactly the per-client bound, and s has neither a request nor a reply |
| Clients.ClientsManager.AddPendingRequest | bftengine/src/bftengine/ClientsManager.hpp:148-150 | the client's records become Emplace of the old ones; nothing else changes; s is in process afterwards; a request canBecomePending admitted keeps the count within the bound |
| Clients.ClientsManager.MarkRequestAsCommitted | bftengine/src/bftengine/ClientsManager.hpp:152-155 | the client's records become MarkCommitted; s is not pending afterwards and is in process exactly when it was before |
| Clients.ClientsManager.RemoveRequestsOutOfBatchBounds | bftengine/src/bftengine/ClientsManager.hpp:157-165 | the client's records become RemoveOutOfBatchBounds with the global batch bound; nothing else changes |
| Clients.ClientsManager.RemovePendingForExecutionRequest | bftengine/src/bftengine/ClientsManager.hpp:167-169 | a valid client loses its record for s and nothing else changes; an invalid id changes nothing |
| Clients.ClientsManager.ClearAllPendingRequests | bftengine/src/bftengine/ClientsManager.hpp:171-172 | every client's request records are empty; replies, keys and pages are unchanged |
| Clients.ClientsManager.InfoOfEarliestPendingRequest | bftengine/src/bftengine/ClientsManager.hpp:174-178 | returns a time no later than any uncommitted record of any client, with the cid of an uncommitted record at that time; with none, MaxTime and the empty cid |
| Clients.ClientsManager.DeleteReplyIfNeeded | bftengine/src/bftengine/ClientsManager.hpp:185-188 | the client's reply records become EraseByIndex at the slot; nothing else changes and the per-client bound is kept |
| Clients.ClientsManager.SetClientPublicKey | bftengine/src/bftengine/ClientsManager.hpp:190-194 | the key is stored in memory and on the client's key page; requests and replies are unchanged |
| Clients.ClientsManager.AllocateNewReplyMsgAndWriteToStorage | bftengine/src/bftengine/ClientsManager.hpp:92-111 | the client's reply records become AddReply (evict the oldest at the bound, then record s); the reply is written to the page of its batch slot and no other page changes; with the region laid out that page lies inside the client's own run; hasReply(c, s) holds at that slot; the per-client bound is kept |
| Clients.ClientsManager.ReplyPageInOwnRun | bftengine/src/bftengine/ClientsManager.hpp:95-96 | when the region is laid out and fits in 32 bits, the page of a batch slot below the bound lies after the client's key page and inside its run |
| Clients.ClientsManager.AllocateReplyFromSavedOne | bftengine/src/bftengine/ClientsManager.hpp:113-125 | returns the saved reply with the current primary when its sequence number is s, and nothing exactly when it is another request's |
| Clients.ClientsManager.LoadInfoFromReservedPages | bftengine/src/bftengine/ClientsManager.hpp:69-80 | returns the keys found on key pages; each client's replies and requests become LoadReplies and LoadRequests of its saved reply pages; pages and in-memory keys are unchanged; with a bound of at least one, the per-client bound is kept |
| BcstMessages.Code | bftengine/src/bcstatetransfer/Messages.hpp:28-39 | the wire tags are 0 to 6 |
| BcstMessages.TypeOfCode | bftengine/src/bcstatetransfer/Messages.hpp:28-39 | a tag names a message type exactly when it is at most 6 |
| BcstMessages.CodeRoundTrip | bftengine/src/bcstatetransfer/Messages.hpp:28-39 | decoding a type's tag gives the type back |
| BcstMessages.TypeOfCodeRoundTrip | bftengine/src/bcstatetransfer/Messages.hpp:28-39 | encoding a decoded tag gives the tag back |
| BcstMessages.CodeInjective | bftengine/src/bcstatetransfer/Messages.hpp:28-39 | distinct types have distinct tags |
| BcstMessages.SizeOf | bftengine/src/bcstatetransfer/Messages.hpp:83 | sizeOf never exceeds the allocated buffer of a record whose buffer holds its rvbDataSize bytes, and equals the whole buffer exactly when the buffer holds just those bytes |
| BcstMessages.Create | bftengine/src/bcstatetransfer/Messages.hpp:58-65 | a checkpoint summary of type CheckpointsSummary with all fields zero, rvbDataSize the requested size in 32 bits, zeroed data, and an allocation that matches sizeOf when the size fits |
| BcstMessages.CreateCopy | bftengine/src/bcstatetransfer/Messages.hpp:66-76 | copies every header field and rvbDataSize, and the first rvbDataSize data bytes, into a buffer of the source's sizeOf whose tail is zero |
| BcstMessages.Equivalent | bftengine/src/bcstatetransfer/Messages.hpp:97-109 | the two-argument equivalent(): the compared header fields agree, rvbDataSize is positive and the RVB data bytes agree; characterised by EquivalentIffEquivalentFromWithData, EquivalentFromMeans and NoRvbDataNotSelfEquivalent |
| BcstMessages.EquivalentFrom | bftengine/src/bcstatetransfer/Messages.hpp:111-135 | the four-argument equivalent(): false as soon as a compared field or an RVB data byte differs; characterised by EquivalentFromMeans and EquivalenceIgnoresRequestSeqNum |
| BcstMessages.EquivalentIffEquivalentFromWithData | bftengine/src/bcstatetransfer/Messages.hpp:97-135 | the two-argument comparison holds exactly when the four-argument one does and rvbDataSize is positive |
| BcstMessages.EquivalentFromMeans | bftengine/src/bcstatetransfer/Messages.hpp:111-135 | the four-argument comparison holds exactly when the compared header fields and the trailing data agree |
| BcstMessages.EquivalenceSymmetric | bftengine/src/bcstatetransfer/Messages.hpp:97-135 | both comparisons are symmetric |
| BcstMessages.EquivalenceIgnoresRequestSeqNum | bftengine/src/bcstatetransfer/Messages.hpp:100-117 | neither comparison depends on requestMsgSeqNum |
| BcstMessages.NoRvbDataNotSelfEquivalent | bftengine/src/bcstatetransfer/Messages.hpp:104-117 | a message without data is not two-argument equivalent to itself but is four-argument equivalent |
| BcstMessages.CopyIsEquivalent | bftengine/src/bcstatetransfer/Messages.hpp:66-135 | a copy is four-argument equivalent to its source, and two-argument equivalent exactly when there is data |
| BcstMessages.Size | bftengine/src/bcstatetransfer/Messages.hpp:199 | the 32-bit size is exactly the header without the placeholder plus dataSize below 2^32 - 31 bytes of data, and wraps to less than the header above that |
| BcstMessages.Alloc | bftengine/src/bcstatetransfer/Messages.hpp:173-182 | an item data message of type ItemData with all fields zero, dataSize the request and zeroed data, whose size matches the allocation when it does not wrap |
| BcstMessages.RvbDigests | bftengine/src/bcstatetransfer/Messages.hpp:195-196 | the first rvbDigestsSize bytes of the data |
| BcstMessages.BlockData | bftengine/src/bcstatetransfer/Messages.hpp:195-196 | the data bytes after the digests, up to dataSize |
| BcstMessages.ItemDataSplit | bftengine/src/bcstatetransfer/Messages.hpp:195-196 | digests followed by block data are the message's data; its second clause, non-empty digests leave non-empty block data, restates the well-formedness condition |
| BcstMessages.NewAskForCheckpointSummaries | bftengine/src/bcstatetransfer/Messages.hpp:45-53 | its own type tag and all fields zero |
| BcstMessages.NewFetchBlocks | bftengine/src/bcstatetransfer/Messages.hpp:138-149 | its own type tag and all fields zero, rvbGroupid included |
| BcstMessages.NewFetchResPages | bftengine/src/bcstatetransfer/Messages.hpp:151-161 | its own type tag and all fields zero |
| BcstMessages.NewRejectFetching | bftengine/src/bcstatetransfer/Messages.hpp:163-170 | its own type tag and all fields zero |
| Reconfiguration.WedgePoint | kvbc/src/reconfiguration_kvbc_handler.cpp:718-719 | the sequence number plus two checkpoint windows, in 64 bits, rounded down to a window boundary; characterised by WedgePointIsNextButOneCheckpoint |
| Reconfiguration.WedgePointIsNextButOneCheckpoint | kvbc/src/reconfiguration_kvbc_handler.cpp:718-719 | the wedge point is a multiple of the window and, without 64-bit wrap, lies more than one window and at most two windows past the sequence number |
| Reconfiguration.QuorumSize | kvbc/src/reconfiguration_kvbc_handler.cpp:1007-1008 | every replica, or 2f + c + 1 in 16 bits with BFT support; characterised by BftQuorumsIntersect and FullQuorumIsEveryReplica |
| Reconfiguration.BftQuorumsIntersect | kvbc/src/reconfiguration_kvbc_handler.cpp:1007-1008 | with 3f + 2c + 1 replicas, two quorums of 2f + c + 1 share at least f + 1 replicas |
| Reconfiguration.FullQuorumIsEveryReplica | kvbc/src/reconfiguration_kvbc_handler.cpp:1007 | without BFT support a quorum is every replica |
| Common.DecimalString | kvbc/src/reconfiguration_kvbc_handler.cpp:1012 | the rendering std::to_string gives: decimal digits only, no leading zero, and the digits denote n |
| Reconfiguration.SigData | kvbc/src/reconfiguration_kvbc_handler.cpp:1012 | the signed text has at least two characters, all decimal digits (each number gives at least one) |
| Reconfiguration.CountValid | kvbc/src/reconfiguration_kvbc_handler.cpp:1010-1017 | the unbounded number of entries of the current epoch or later whose signature verifies; characterised by CountValidIsCardinality and StaleEntryIgnored, and computed in 32 bits by CountValidUnwedges |
| Reconfiguration.CountValidIsCardinality | kvbc/src/reconfiguration_kvbc_handler.cpp:1010-1017 | the count is the number of entry positions of the current epoch or later with a valid signature |
| Reconfiguration.StaleEntryIgnored | kvbc/src/reconfiguration_kvbc_handler.cpp:1011 | replacing an entry by one from an earlier epoch never raises the count, and keeps it when the entry did not count |
| Reconfiguration.CountValidUnwedges | kvbc/src/reconfiguration_kvbc_handler.cpp:1009-1017 | the loop's 32-bit counter is the count modulo 2^32 |
| Reconfiguration.HandleUnwedge | kvbc/src/reconfiguration_kvbc_handler.cpp:1001-1033 | a replica that is not wedged accepts with no action; a wedged one accepts exactly when the counter reaches the quorum, then unwedges in a new epoch or restarts as the command asks |
| Reconfiguration.AcceptedUnwedgeHasQuorum | kvbc/src/reconfiguration_kvbc_handler.cpp:1007-1019 | an accepted unwedge has at least a quorum of counting positions, all of the current epoch or later |
| Reconfiguration.IdsOfPositions | kvbc/src/reconfiguration_kvbc_handler.cpp:1009-1011 | when the unwedge map has distinct replica ids, a set of entry positions carries exactly as many distinct ids |
| Reconfiguration.AcceptedUnwedgeHasSigners | kvbc/src/reconfiguration_kvbc_handler.cpp:1007-1019 | an accepted unwedge with distinct ids has at least a quorum of distinct signing replicas |
| Reconfiguration.AcceptedUnwedgesShareHonestSigner | kvbc/src/reconfiguration_kvbc_handler.cpp:1007-1019 | with BFT support, two accepted unwedge commands whose signers are replicas share at least f + 1 signers, so at least one honest replica signed both |
| Reconfiguration.VerifySignature | kvbc/src/reconfiguration_kvbc_handler.cpp:1077-1082 | the signature check of internal commands: false for a sender that is not a replica, otherwise the signature manager's answer; characterised by VerifySignatureOnlyReplicas |
| Reconfiguration.VerifySignatureOnlyReplicas | kvbc/src/reconfiguration_kvbc_handler.cpp:1077-1082 | a signature is accepted exactly when the sender is a replica and the verifier accepts it; for a non-replica no verifier helps |
| Reconfiguration.HandleTlsExchangeKey | kvbc/src/reconfiguration_kvbc_handler.cpp:1124-1145 | the TLS key exchange handler's outcome: accepted flag, error message and written keys; characterised by TlsKeyOnlyForRealSender |
| Reconfiguration.TlsKeyOnlyForRealSender | kvbc/src/reconfiguration_kvbc_handler.cpp:1124-1145 | accepted exactly when the command's sender is the real sender; a mismatch sets the error message and persists nothing; only the sender's own TLS key is written |
| Reconfiguration.HandleInternalWedge | kvbc/src/reconfiguration_kvbc_handler.cpp:1103-1122 | the internal wedge handler: the wedge key to write, or none when the command is refused; characterised by InternalWedgeAcceptance |
| Reconfiguration.InternalWedgeAcceptance | kvbc/src/reconfiguration_kvbc_handler.cpp:1103-1122 | accepted exactly for a noop at or before a set stop checkpoint, and then only the noop wedge key is written |
| Reconfiguration.HandlePruneStatus | kvbc/src/reconfiguration_kvbc_handler.cpp:1065-1075 | the prune status handler's success flag and response; characterised by PruneStatusSettles |
| Reconfiguration.PruneStatusSettles | kvbc/src/reconfiguration_kvbc_handler.cpp:1065-1075 | an error stays with the request's success flag; anything else becomes or stays a prune status and succeeds; applying the handler twice is applying it once |
| Reconfiguration.ReadAt | kvbc/src/reconfiguration_kvbc_handler.cpp:47-55 | the explicit versioned read of a key at a block, the reference the latest-first read is proved against in Get |
| Reconfiguration.Get | kvbc/src/reconfiguration_kvbc_handler.cpp:47-55 | trying the latest version first gives the same value as the explicit read at the block |
| Reconfiguration.InAllClients | kvbc/src/reconfiguration_kvbc_handler.cpp:849-853 | a client is among all clients exactly when some group lists it |
| Reconfiguration.ExpandTargets | kvbc/src/reconfiguration_kvbc_handler.cpp:841-854 | named targets are kept as given; an empty list becomes every client of every group, in group order |
| Reconfiguration.BuildKeyExchangeUpdates | kvbc/src/reconfiguration_kvbc_handler.cpp:864-869 | the updates are exactly an epoch key and a data key per target, holding the epoch and the command |
| Reconfiguration.HandleClientKeyExchange | kvbc/src/reconfiguration_kvbc_handler.cpp:836-874 | the update keys are those of the named targets, or of every group client when none is named, and each such client's two keys hold the epoch and the command |
| Reconfiguration.TwoKeysPerTarget | kvbc/src/reconfiguration_kvbc_handler.cpp:864-869 | the update set has exactly two keys per distinct target |
| Reconfiguration.ClientBranchStates | kvbc/src/reconfiguration_kvbc_handler.cpp:468-478 | the written client commands of the sender, in kind order, followed by the written main keys of every replica |
| Reconfiguration.OneReplicaStates | kvbc/src/reconfiguration_kvbc_handler.cpp:485-496 | as written: one replica's written TLS key, then its written scaling command, then, when its scaling status is written, its scaling command again (written or not) |
| Reconfiguration.ReplicaBranchStates | kvbc/src/reconfiguration_kvbc_handler.cpp:479-497 | as written: the states of every replica below the first client id except the sender, in id order, each collected as `OneReplicaStates` does |
| Reconfiguration.HandleClientStateRequest | kvbc/src/reconfiguration_kvbc_handler.cpp:461-501 | as written: a sender above the first client id gets the client branch, any other sender the replica branch |
| Reconfiguration.ReplicaStatesAsWritten | kvbc/src/reconfiguration_kvbc_handler.cpp:485-496 | one replica's block as written: its TLS key if written, its scaling command if written, and the scaling command again when the scaling status is written; characterised by InReplicaStatesAsWritten and computed by OneReplicaStates |
| Reconfiguration.InReplicaStatesAsWritten | kvbc/src/reconfiguration_kvbc_handler.cpp:485-496 | as written: a state is in one replica's block exactly when it is its written TLS key, or its scaling command when that command or its scaling status is written |
| Reconfiguration.OtherReplicaStatesAsWrittenContents | kvbc/src/reconfiguration_kvbc_handler.cpp:483-497 | as written: a state is sent to a replica-branch sender exactly when it is another replica's written TLS key, or its scaling command when that command or its scaling status is written |
| Reconfiguration.ScalingStatusNotSent | kvbc/src/reconfiguration_kvbc_handler.cpp:492-496 | as written: a scaling status equal to no other replica's TLS key or scaling command is never sent, whether or not it is written |
| Reconfiguration.InReplicaStates | kvbc/src/reconfiguration_kvbc_handler.cpp:496 | corrected reply (status pushed at line 496): one replica's states are exactly its written non-main-key states |
| Reconfiguration.OtherReplicaStatesContents | kvbc/src/reconfiguration_kvbc_handler.cpp:496 | corrected reply (status pushed at line 496): a state is sent to a replica-branch sender exactly when it is a written TLS key, scaling command or scaling status of another replica |
| Reconfiguration.OwnStatesIgnored | kvbc/src/reconfiguration_kvbc_handler.cpp:483-484 | the reply never depends on the sender's own replica states |
| Reconfiguration.FirstClientAnsweredAsReplica | kvbc/src/reconfiguration_kvbc_handler.cpp:467-468 | the sender whose id equals the first client id is answered by the replica branch, as written and corrected alike |
| Reconfiguration.ScalingStatusPushesScalingCommand | kvbc/src/reconfiguration_kvbc_handler.cpp:492-496 | as written, a written scaling status with no scaling command sends an unwritten state and loses the status; the corrected reply sends the status |
| Reconfiguration.RepliesAreWritten | kvbc/src/reconfiguration_kvbc_handler.cpp:496 | corrected reply (status pushed at line 496): every state sent in the replica branch is written (block id above 0) |

## Left out

- I/O and collaborators are not modelled:
  - Reserved pages are a map from page id to a structured key page or reply page. The byte serialisation of keys and reply messages is not modelled, and neither is page I/O or its failure.
  - `ReplicaSpecificInfoManager` (the RSI data of a reply) is not modelled.
  - `KeyExchangeManager` is not modelled: `LoadInfoFromReservedPages` returns the keys it would be given.
  - Metrics, logging and `logAllPendingRequestsExceedingThreshold` are not modelled.
- The mutexes and the two-thread access pattern of the clients manager are not modelled: calls are sequential.
- Only one of the two clients-manager constructors is modelled: the persisted pages enter as a parameter, in place of `PersistentStorage`. The `ReplicaConfig` values enter as parameters.
- Clients.ClientsManager.AllocateReplyFromSavedOne: which reply page to read is taken from the client's reply record for s, or batch slot 0 without one. The header does not say how the slot is found.
- Clients.ClientsManager.LoadInfoFromReservedPages: a reply page contributes only the sequence number it holds. Reply payloads are not re-read.
- Clients.ClientsManager.AllocateNewReplyMsgAndWriteToStorage: the model requires `reqIndexInBatch` to be below the per-client bound. The header does not list this among its undefined cases. Without it the reply page would fall into the next client's run: with one page per request and two per client, slot 1 of the client at slot 0 is page 2, the key page of the client at slot 1.
- Clients.ClientsManager.AllocateNewReplyMsgAndWriteToStorage: `replyLength` is the length of `reply`. The precondition that the record count is at most one above the bound is stated as the header's undefined-behaviour case, not checked after eviction.
- Clients.ClientsManager.constructor: metrics and the logger are dropped.
- Clients.ClientsManager.DeleteReplyIfNeeded: the `newReqSeqNum` argument (`ClientsManager.hpp:188`) is accepted and not used. The header gives it no effect on which record is deleted.
- PageLayout.ReservedPagesPerClient: takes the per-request page count rather than `sizeOfReservedPage` and `maxReplySize` (`ClientsManager.hpp:198-200`). The constructor derives that count with `ReservedPagesPerRequest`.
- Raw memory in the state-transfer records is not modelled:
  - messages are datatypes with a `seq<byte>` tail;
  - `reinterpret_cast`, the packed layout, `free` and the struct-size `static_assert` are not modelled;
  - the warning log of the four-argument `equivalent` is not modelled.
- BcstMessages.Create: `size_t` is unbounded here. Only the store into the 32-bit `rvbDataSize` truncates.
- Reconfiguration handlers:
  - Block persistence is not modelled. Key-exchange updates are a map from a structured key to a value, not the byte keys and big-endian values of the source.
  - CMF serialisation is not modelled.
  - The `EpochManager`, `ControlStateManager` and `ReplicaConfig` singletons become parameters.
  - The signature manager becomes a verifier function.
- Reconfiguration.HandleUnwedge: the command's unwedge map becomes a sequence of (id, status) pairs in the map's iteration order. The control-state effects become the returned action.
- Reconfiguration.HandleClientStateRequest: the state readers become functions of (key kind, replica) and (command kind, client). The client command range is given by its two bounds.
- Reconfiguration.HandleClientStateRequest: the handler and its loops compute the reply as written, including line 496 (see Findings). The corrected reply is the function `OtherReplicaStates(…, false)`, and its properties are the lemmas marked "corrected" in the table. No method computes the corrected reply.
- Reconfiguration.HandleClientKeyExchange: the client groups are a sequence of groups in the configuration's iteration order.
- Reconfiguration.WedgePointIsNextButOneCheckpoint: the bounds hold only when `sequence_number + 2 * checkpointWindowSize` does not wrap in 64 bits. With wrap-around the wedge point can fall below the sequence number.
- The remaining handlers of the reconfiguration file are outside this model, as are its database-checkpoint, snapshot and secrets-manager code and the `IStorage` interface.

## Findings

| source | as written | input that shows it | evidently intended | confidence | as-written member | corrected member |
|---|---|---|---|---|---|---|
| kvbc/src/reconfiguration_kvbc_handler.cpp:496 | when a replica's scaling status is written, the scaling command reply `scale_csrep` is pushed in its place | sender 0, two replicas, no read-only replicas; replica 1 has a scaling status at block 5 and no scaling command: the reply is one state with block 0 | push `scale_status_csrep`, so the reply carries the written status (block 5) | high, not executed | Reconfiguration.ScalingStatusPushesScalingCommand | Reconfiguration.RepliesAreWritten |
