/** The decisions the key-value reconfiguration handlers take before they
    write anything: where a replica wedges, how many unwedge signatures are
    needed, who may sign or rotate a TLS key, when a noop wedge is accepted,
    which clients a key exchange targets and which states a client or
    replica is sent.  Storage, the signature manager and the replica
    configuration enter as parameters. */
module Reconfiguration {
  import opened Common

  // ---------------------------------------------------------------------
  // Wedge point of an add/remove-with-wedge command

  /** The wedge point: two checkpoint windows past the command's sequence
      number, rounded down to a window boundary, in 64-bit arithmetic. */
  function WedgePoint(seqNum: uint64, window: uint64): uint64
    requires window > 0
  {
    var p := (seqNum + 2 * window) % U64;
    p - p % window
  }

  /** The wedge point is a checkpoint (a multiple of the window) and, when
      the addition does not wrap, lies more than one window and at most two
      windows past the command. */
  lemma WedgePointIsNextButOneCheckpoint(seqNum: uint64, window: uint64)
    requires window > 0
    ensures WedgePoint(seqNum, window) % window == 0
    ensures seqNum + 2 * window < U64 ==>
              seqNum + window < WedgePoint(seqNum, window) <= seqNum + 2 * window
  {
    RoundedDownIsMultiple((seqNum + 2 * window) % U64, window);
  }

  lemma RoundedDownIsMultiple(p: nat, w: nat)
    requires w > 0
    ensures (p - p % w) % w == 0
  {
    var q := p / w;
    assert p - p % w == q * w;
    MultipleHasNoRemainder(q, w);
  }

  lemma MultipleHasNoRemainder(q: nat, w: nat)
    requires w > 0
    ensures (q * w) % w == 0
  {
    var r := (q * w) % w;
    var d := (q * w) / w;
    assert q * w == d * w + r;
    assert (q - d) * w == r;
    if q > d {
      AtLeastOnce(q - d, w);
    } else if q < d {
      AtLeastOnce(d - q, w);
    }
  }

  lemma AtLeastOnce(k: nat, w: nat)
    requires k >= 1
    ensures k * w >= w
  {
    assert k * w == (k - 1) * w + w;
  }

  // ---------------------------------------------------------------------
  // Unwedge quorum

  /** The number of valid unwedge signatures required: every replica, or
      2f + c + 1 when the command asks for BFT support; stored in the 16-bit
      type of the replica count. */
  function QuorumSize(numReplicas: uint16, f: uint16, c: uint16, bftSupport: bool): uint16 {
    if bftSupport then (2 * f + c + 1) % U16 else numReplicas
  }

  /** With n = 3f + 2c + 1 replicas, two BFT-support quorums share at least
      f + 1 replicas, so at least one honest replica. */
  lemma BftQuorumsIntersect(replicas: set<nat>, a: set<nat>, b: set<nat>, f: uint16, c: uint16)
    requires |replicas| == 3 * f + 2 * c + 1 && |replicas| < U16
    requires a <= replicas && b <= replicas
    requires |a| >= QuorumSize(|replicas|, f, c, true) && |b| >= QuorumSize(|replicas|, f, c, true)
    ensures |a * b| >= f + 1
  {
    SubsetCardinality(a + b, replicas);
    assert |a + b| + |a * b| == |a| + |b|;
  }

  /** Without BFT support the quorum is every replica. */
  lemma FullQuorumIsEveryReplica(replicas: set<nat>, a: set<nat>, f: uint16, c: uint16)
    requires |replicas| < U16
    requires a <= replicas && |a| >= QuorumSize(|replicas|, f, c, false)
    ensures a == replicas
  {
    if y :| y in replicas && y !in a {
      StrictSubsetCardinality(a, replicas, y);
    }
  }

  // ---------------------------------------------------------------------
  // Counting unwedge signatures

  /** One replica's unwedge status: the epoch it signed and its signature. */
  datatype UnwedgeStat = UnwedgeStat(currEpoch: uint64, signature: seq<byte>)

  /** The signed text: the replica id followed by the epoch, in decimal. */
  function SigData(id: uint64, epoch: uint64): (s: string)
    ensures |s| >= 2 && AllDigits(s)
  {
    DecimalString(id) + DecimalString(epoch)
  }

  /** An entry counts when it is not from an earlier epoch and the
      signature manager accepts its signature. */
  predicate Counts(entry: (uint64, UnwedgeStat), currEpoch: uint64,
                   verifySig: (uint64, string, seq<byte>) -> bool)
  {
    entry.1.currEpoch >= currEpoch && verifySig(entry.0, SigData(entry.0, entry.1.currEpoch), entry.1.signature)
  }

  /** The number of elements satisfying p, walking the list in order. */
  function CountWhere<E>(xs: seq<E>, p: E -> bool): (n: nat)
    ensures n <= |xs|
  {
    if |xs| == 0 then 0
    else CountWhere(xs[..|xs| - 1], p) + (if p(xs[|xs| - 1]) then 1 else 0)
  }

  /** The positions of the elements satisfying p. */
  ghost function PositionsWhere<E>(xs: seq<E>, p: E -> bool): set<nat> {
    set i: nat | i < |xs| && p(xs[i])
  }

  /** The count is the number of positions whose element satisfies p. */
  lemma {:induction false} CountWhereIsCardinality<E>(xs: seq<E>, p: E -> bool)
    ensures CountWhere(xs, p) == |PositionsWhere(xs, p)|
  {
    if |xs| > 0 {
      var n := |xs| - 1;
      var front := xs[..n];
      CountWhereIsCardinality(front, p);
      var before := PositionsWhere(front, p);
      var last: set<nat> := if p(xs[n]) then {n} else {};
      forall i | i in PositionsWhere(xs, p)
        ensures i in before + last
      {
        if i < n {
          assert front[i] == xs[i];
        }
      }
      forall i | i in before + last
        ensures i in PositionsWhere(xs, p)
      {
        if i < n {
          assert front[i] == xs[i];
        }
      }
      assert PositionsWhere(xs, p) == before + last;
    }
  }

  /** The entry test of the unwedge loop, for one epoch and verifier. */
  function CountsFor(currEpoch: uint64, verifySig: (uint64, string, seq<byte>) -> bool)
    : ((uint64, UnwedgeStat)) -> bool
  {
    entry => Counts(entry, currEpoch, verifySig)
  }

  /** The number of entries that count. */
  function CountValid(unwedges: seq<(uint64, UnwedgeStat)>, currEpoch: uint64,
                      verifySig: (uint64, string, seq<byte>) -> bool): nat
  {
    CountWhere(unwedges, CountsFor(currEpoch, verifySig))
  }

  /** The positions of the counting entries. */
  ghost function CountingPositions(unwedges: seq<(uint64, UnwedgeStat)>, currEpoch: uint64,
                                   verifySig: (uint64, string, seq<byte>) -> bool): set<nat>
  {
    PositionsWhere(unwedges, CountsFor(currEpoch, verifySig))
  }

  /** The count is the number of positions whose entry counts, so never
      more than the number of entries. */
  lemma CountValidIsCardinality(unwedges: seq<(uint64, UnwedgeStat)>, currEpoch: uint64,
                                verifySig: (uint64, string, seq<byte>) -> bool)
    ensures CountValid(unwedges, currEpoch, verifySig) == |CountingPositions(unwedges, currEpoch, verifySig)|
    ensures CountValid(unwedges, currEpoch, verifySig) <= |unwedges|
  {
    CountWhereIsCardinality(unwedges, CountsFor(currEpoch, verifySig));
  }

  /** An entry from an earlier epoch never changes the count. */
  lemma {:induction false} StaleEntryIgnored(unwedges: seq<(uint64, UnwedgeStat)>, k: nat, currEpoch: uint64,
                                             verifySig: (uint64, string, seq<byte>) -> bool,
                                             stale: (uint64, UnwedgeStat))
    requires k < |unwedges| && stale.1.currEpoch < currEpoch
    ensures CountValid(unwedges[k := stale], currEpoch, verifySig)
            <= CountValid(unwedges, currEpoch, verifySig)
    ensures !Counts(unwedges[k], currEpoch, verifySig) ==>
              CountValid(unwedges[k := stale], currEpoch, verifySig) == CountValid(unwedges, currEpoch, verifySig)
  {
    var changed := unwedges[k := stale];
    CountValidIsCardinality(unwedges, currEpoch, verifySig);
    CountValidIsCardinality(changed, currEpoch, verifySig);
    var before := CountingPositions(unwedges, currEpoch, verifySig);
    var after := CountingPositions(changed, currEpoch, verifySig);
    assert after == before - {k};
  }

  /** Counting one more element of a prefix adds one exactly when it passes. */
  lemma CountWhereStep<E>(xs: seq<E>, i: nat, p: E -> bool)
    requires i < |xs|
    ensures CountWhere(xs[..i + 1], p) == CountWhere(xs[..i], p) + (if p(xs[i]) then 1 else 0)
  {
    assert xs[..i + 1][..i] == xs[..i];
  }

  /** The handler's loop: count the entries, incrementing a 32-bit counter. */
  method CountValidUnwedges(unwedges: seq<(uint64, UnwedgeStat)>, currEpoch: uint64,
                            verifySig: (uint64, string, seq<byte>) -> bool)
    returns (validSigs: uint32)
    ensures validSigs == CountValid(unwedges, currEpoch, verifySig) % U32
  {
    hide SigData;
    validSigs := 0;
    for i := 0 to |unwedges|
      invariant validSigs == CountWhere(unwedges[..i], CountsFor(currEpoch, verifySig)) % U32
    {
      CountWhereStep(unwedges, i, CountsFor(currEpoch, verifySig));
      if unwedges[i].1.currEpoch < currEpoch {
        continue;
      }
      var valid := verifySig(unwedges[i].0, SigData(unwedges[i].0, unwedges[i].1.currEpoch), unwedges[i].1.signature);
      if valid {
        validSigs := (validSigs + 1) % U32;
      }
    }
    assert unwedges[..|unwedges|] == unwedges;
  }

  /** What the handler does to the replica's control state. */
  datatype UnwedgeAction = NoAction | PersistNewEpochAndUnwedge | FlagNewEpochAndRestart

  datatype UnwedgeOutcome = UnwedgeOutcome(accepted: bool, action: UnwedgeAction)

  /** The UnwedgeCommand handler: a replica that is not wedged accepts at
      once; otherwise the command is accepted when enough signatures count,
      and then either unwedges in a new epoch or restarts. */
  method HandleUnwedge(isWedged: bool, currEpoch: uint64, numReplicas: uint16, f: uint16, c: uint16,
                       bftSupport: bool, restart: bool, unwedges: seq<(uint64, UnwedgeStat)>,
                       verifySig: (uint64, string, seq<byte>) -> bool)
    returns (o: UnwedgeOutcome)
    ensures !isWedged ==> o == UnwedgeOutcome(true, NoAction)
    ensures isWedged ==>
              o.accepted == (CountValid(unwedges, currEpoch, verifySig) % U32 >= QuorumSize(numReplicas, f, c, bftSupport))
    ensures o.action == PersistNewEpochAndUnwedge <==> isWedged && o.accepted && !restart
    ensures o.action == FlagNewEpochAndRestart <==> isWedged && o.accepted && restart
  {
    if !isWedged {
      return UnwedgeOutcome(true, NoAction);
    }
    var quorumSize := QuorumSize(numReplicas, f, c, bftSupport);
    var validSigs := CountValidUnwedges(unwedges, currEpoch, verifySig);
    var canUnwedge := validSigs >= quorumSize;
    var action := NoAction;
    if canUnwedge {
      action := if restart then FlagNewEpochAndRestart else PersistNewEpochAndUnwedge;
    }
    o := UnwedgeOutcome(canUnwedge, action);
  }

  /** A wedged replica accepts an unwedge (with fewer than 2^32 entries)
      only when at least a quorum of entry positions are of the current
      epoch or later and carry valid signatures. */
  lemma AcceptedUnwedgeHasQuorum(unwedges: seq<(uint64, UnwedgeStat)>, currEpoch: uint64, q: uint16,
                                 verifySig: (uint64, string, seq<byte>) -> bool)
    requires |unwedges| < U32
    requires CountValid(unwedges, currEpoch, verifySig) % U32 >= q
    ensures |CountingPositions(unwedges, currEpoch, verifySig)| >= q
    ensures forall i :: i in CountingPositions(unwedges, currEpoch, verifySig) ==>
              0 <= i < |unwedges| && unwedges[i].1.currEpoch >= currEpoch
  {
    CountValidIsCardinality(unwedges, currEpoch, verifySig);
  }

  /** The ids of the replicas whose unwedge entries count. */
  ghost function Signers(unwedges: seq<(uint64, UnwedgeStat)>, currEpoch: uint64,
                         verifySig: (uint64, string, seq<byte>) -> bool): set<nat>
  {
    set i | i in CountingPositions(unwedges, currEpoch, verifySig) :: unwedges[i].0
  }

  /** No replica id appears twice, as in the command's map from id to
      unwedge status. */
  ghost predicate DistinctIds(unwedges: seq<(uint64, UnwedgeStat)>) {
    forall i, j :: 0 <= i < j < |unwedges| ==> unwedges[i].0 != unwedges[j].0
  }

  /** With distinct ids, a set of entry positions has as many ids as
      positions. */
  lemma {:induction false} IdsOfPositions(unwedges: seq<(uint64, UnwedgeStat)>, ps: set<nat>)
    requires DistinctIds(unwedges) && forall i :: i in ps ==> i < |unwedges|
    ensures |(set i | i in ps :: unwedges[i].0)| == |ps|
    decreases |ps|
  {
    if ps != {} {
      var k :| k in ps;
      var rest := ps - {k};
      IdsOfPositions(unwedges, rest);
      var restIds := set i | i in rest :: unwedges[i].0;
      forall j | j in rest
        ensures unwedges[j].0 != unwedges[k].0
      {
        if j < k {
          assert unwedges[j].0 != unwedges[k].0;
        } else {
          assert unwedges[k].0 != unwedges[j].0;
        }
      }
      assert (set i | i in ps :: unwedges[i].0) == restIds + {unwedges[k].0};
    }
  }

  /** With distinct ids, an accepted unwedge has a quorum of distinct
      signers, not just of entry positions. */
  lemma AcceptedUnwedgeHasSigners(unwedges: seq<(uint64, UnwedgeStat)>, currEpoch: uint64, q: uint16,
                                  verifySig: (uint64, string, seq<byte>) -> bool)
    requires |unwedges| < U32 && DistinctIds(unwedges)
    requires CountValid(unwedges, currEpoch, verifySig) % U32 >= q
    ensures |Signers(unwedges, currEpoch, verifySig)| >= q
  {
    AcceptedUnwedgeHasQuorum(unwedges, currEpoch, q, verifySig);
    IdsOfPositions(unwedges, CountingPositions(unwedges, currEpoch, verifySig));
  }

  /** Two unwedge commands a BFT-support quorum accepts, signed by replicas
      only, share at least f + 1 signers, so at least one honest replica. */
  lemma AcceptedUnwedgesShareHonestSigner(replicas: set<nat>, u1: seq<(uint64, UnwedgeStat)>,
                                          u2: seq<(uint64, UnwedgeStat)>, currEpoch: uint64,
                                          verifySig: (uint64, string, seq<byte>) -> bool, f: uint16, c: uint16)
    requires |replicas| == 3 * f + 2 * c + 1 && |replicas| < U16
    requires |u1| < U32 && DistinctIds(u1) && |u2| < U32 && DistinctIds(u2)
    requires Signers(u1, currEpoch, verifySig) <= replicas && Signers(u2, currEpoch, verifySig) <= replicas
    requires CountValid(u1, currEpoch, verifySig) % U32 >= QuorumSize(|replicas|, f, c, true)
    requires CountValid(u2, currEpoch, verifySig) % U32 >= QuorumSize(|replicas|, f, c, true)
    ensures |Signers(u1, currEpoch, verifySig) * Signers(u2, currEpoch, verifySig)| >= f + 1
  {
    var q := QuorumSize(|replicas|, f, c, true);
    AcceptedUnwedgeHasSigners(u1, currEpoch, q, verifySig);
    AcceptedUnwedgeHasSigners(u2, currEpoch, q, verifySig);
    BftQuorumsIntersect(replicas, Signers(u1, currEpoch, verifySig), Signers(u2, currEpoch, verifySig), f, c);
  }

  // ---------------------------------------------------------------------
  // Signatures of internal commands

  /** Only a replica (an id below the replica count) may sign an internal
      command; for others the signature manager is not consulted. */
  function VerifySignature(senderId: uint32, numReplicas: uint16, data: string, signature: string,
                           verifySig: (uint32, string, string) -> bool): (ok: bool)
  {
    if senderId >= numReplicas then false else verifySig(senderId, data, signature)
  }

  /** A signature is accepted exactly when it comes from a replica and the
      signature manager accepts it. */
  lemma VerifySignatureOnlyReplicas(senderId: uint32, numReplicas: uint16, data: string, signature: string,
                                    verifySig: (uint32, string, string) -> bool)
    ensures VerifySignature(senderId, numReplicas, data, signature, verifySig)
            <==> senderId < numReplicas && verifySig(senderId, data, signature)
    ensures senderId >= numReplicas ==>
              forall other: (uint32, string, string) -> bool ::
                !VerifySignature(senderId, numReplicas, data, signature, other)
  {
  }

  // ---------------------------------------------------------------------
  // Responses and persisted keys

  /** The prune status record, kept as its serialised fields. */
  datatype PruneStatus = PruneStatus(fields: seq<byte>)

  /** The response slot of a reconfiguration request: an error, a prune
      status, or any other reply. */
  datatype Response =
    | ErrorMsg(error: string)
    | PruneStatusResponse(status: PruneStatus)
    | OtherResponse(payload: seq<byte>)

  /** The keys these handlers write. */
  datatype Key =
    | TlsExchangeKey(replica: uint32)
    | NoopWedgeKey
    | ClientDataKey(client: uint32)
    | ClientEpochKey(client: uint32)

  const SenderMismatch: string := "sender_id of the message does not match the real sender id"

  datatype Outcome = Outcome(accepted: bool, response: Response, persisted: Option<Key>)

  /** ReplicaTlsExchangeKey: a replica may only publish its own TLS key; a
      mismatch sets the error message and writes nothing. */
  function HandleTlsExchangeKey(commandSenderId: uint32, senderId: uint32, response: Response): Outcome {
    if commandSenderId != senderId then Outcome(false, ErrorMsg(SenderMismatch), None)
    else Outcome(true, response, Some(TlsExchangeKey(senderId)))
  }

  /** The TLS key written is always the real sender's, a mismatch is
      reported as an error, and an accepted command leaves the response
      alone. */
  lemma TlsKeyOnlyForRealSender(commandSenderId: uint32, senderId: uint32, response: Response)
    ensures HandleTlsExchangeKey(commandSenderId, senderId, response).accepted <==> commandSenderId == senderId
    ensures forall k :: HandleTlsExchangeKey(commandSenderId, senderId, response).persisted == Some(k) ==>
              k == TlsExchangeKey(senderId) && k == TlsExchangeKey(commandSenderId)
    ensures !HandleTlsExchangeKey(commandSenderId, senderId, response).accepted ==>
              HandleTlsExchangeKey(commandSenderId, senderId, response).response == ErrorMsg(SenderMismatch)
              && HandleTlsExchangeKey(commandSenderId, senderId, response).persisted == None
    ensures HandleTlsExchangeKey(commandSenderId, senderId, response).accepted ==>
              HandleTlsExchangeKey(commandSenderId, senderId, response).response == response
  {
  }

  /** The internal WedgeCommand handler: a noop wedge is written only when a
      stop checkpoint is set and the command does not come after it; any
      other wedge is refused. */
  function HandleInternalWedge(noop: bool, bftSeqNum: uint64, checkpointToStopAt: Option<uint64>): (r: Option<Key>) {
    if noop then
      if checkpointToStopAt.None? || bftSeqNum > checkpointToStopAt.value then None
      else Some(NoopWedgeKey)
    else None
  }

  /** A wedge command is accepted exactly when it is a noop at or before the
      stop checkpoint. */
  lemma InternalWedgeAcceptance(noop: bool, bftSeqNum: uint64, checkpointToStopAt: Option<uint64>)
    ensures HandleInternalWedge(noop, bftSeqNum, checkpointToStopAt).Some?
            <==> noop && checkpointToStopAt.Some? && bftSeqNum <= checkpointToStopAt.value
    ensures forall k :: HandleInternalWedge(noop, bftSeqNum, checkpointToStopAt) == Some(k) ==> k == NoopWedgeKey
  {
  }

  /** PruneStatusRequest: an error already in the response is kept, with
      the request's success flag; otherwise the response becomes a prune
      status (a default one unless it is one already). */
  function HandlePruneStatus(success: bool, response: Response): (bool, Response) {
    if response.ErrorMsg? then (success, response)
    else if !response.PruneStatusResponse? then (true, PruneStatusResponse(PruneStatus([])))
    else (true, response)
  }

  /** The handler leaves an error or a prune status in the slot, keeps an
      existing one, and applying it twice is applying it once. */
  lemma PruneStatusSettles(success: bool, response: Response)
    ensures HandlePruneStatus(success, response).1.ErrorMsg? || HandlePruneStatus(success, response).1.PruneStatusResponse?
    ensures !response.OtherResponse? ==> HandlePruneStatus(success, response).1 == response
    ensures response.ErrorMsg? <==> HandlePruneStatus(success, response).1.ErrorMsg?
    ensures !response.ErrorMsg? ==> HandlePruneStatus(success, response).0
    ensures HandlePruneStatus(success, HandlePruneStatus(success, response).1) == HandlePruneStatus(success, response)
  {
  }

  // ---------------------------------------------------------------------
  // Reading a reconfiguration key at a block

  /** A value of a versioned key together with the block that wrote it. */
  datatype VersionedValue = VersionedValue(blockId: uint64, data: seq<byte>)

  /** The explicit read at a block: the value the key was given in exactly
      that block, if any. */
  function ReadAt(versions: map<uint64, seq<byte>>, id: uint64): Option<VersionedValue> {
    if id in versions then Some(VersionedValue(id, versions[id])) else None
  }

  /** The get helper: try the latest version first and fall back to the
      explicit read when there is none or it is of another block. */
  method Get(versions: map<uint64, seq<byte>>, id: uint64) returns (v: Option<VersionedValue>)
    ensures v == ReadAt(versions, id)
  {
    var latest: Option<VersionedValue> := None;
    if versions.Keys != {} {
      var last := Highest(versions.Keys);
      latest := Some(VersionedValue(last, versions[last]));
    }
    if latest.None? || latest.value.blockId != id {
      return ReadAt(versions, id);
    }
    v := latest;
  }

  // ---------------------------------------------------------------------
  // Client key exchange targets

  /** Every client of every group, in group order. */
  function AllClients(clientGroups: seq<seq<uint32>>): seq<uint32> {
    if |clientGroups| == 0 then []
    else AllClients(clientGroups[..|clientGroups| - 1]) + clientGroups[|clientGroups| - 1]
  }

  /** A client is among all clients exactly when some group lists it. */
  lemma {:induction false} InAllClients(clientGroups: seq<seq<uint32>>, client: uint32)
    ensures client in AllClients(clientGroups) <==> exists g :: 0 <= g < |clientGroups| && client in clientGroups[g]
  {
    if |clientGroups| > 0 {
      var n := |clientGroups| - 1;
      InAllClients(clientGroups[..n], client);
      assert forall g :: 0 <= g < n ==> clientGroups[..n][g] == clientGroups[g];
    }
  }

  /** The command's targets, or every client of every group when the
      command names none. */
  method ExpandTargets(targetClients: seq<uint32>, clientGroups: seq<seq<uint32>>) returns (targets: seq<uint32>)
    ensures |targetClients| > 0 ==> targets == targetClients
    ensures |targetClients| == 0 ==> targets == AllClients(clientGroups)
  {
    targets := [];
    for i := 0 to |targetClients|
      invariant targets == targetClients[..i]
    {
      targets := targets + [targetClients[i]];
    }
    if |targets| == 0 {
      for g := 0 to |clientGroups|
        invariant targets == AllClients(clientGroups[..g])
      {
        assert clientGroups[..g + 1][..g] == clientGroups[..g];
        for j := 0 to |clientGroups[g]|
          invariant targets == AllClients(clientGroups[..g]) + clientGroups[g][..j]
        {
          targets := targets + [clientGroups[g][j]];
        }
      }
      assert clientGroups[..|clientGroups|] == clientGroups;
    }
  }

  /** A versioned update value: an epoch number or a serialised command. */
  datatype Value = EpochValue(epoch: uint64) | CommandValue(command: seq<byte>)

  /** The keys a key exchange writes: an epoch key and a data key per
      target. */
  ghost function KeyExchangeKeys(targets: seq<uint32>): set<Key> {
    (set c | c in targets :: ClientEpochKey(c)) + (set c | c in targets :: ClientDataKey(c))
  }

  /** The update loop: for each target, its epoch key gets the current
      epoch and its data key the serialised command. */
  method BuildKeyExchangeUpdates(targets: seq<uint32>, epoch: uint64, command: seq<byte>)
    returns (updates: map<Key, Value>)
    ensures updates.Keys == KeyExchangeKeys(targets)
    ensures forall c :: c in targets ==>
              updates[ClientEpochKey(c)] == EpochValue(epoch) && updates[ClientDataKey(c)] == CommandValue(command)
  {
    updates := map[];
    for i := 0 to |targets|
      invariant updates.Keys == KeyExchangeKeys(targets[..i])
      invariant forall c :: c in targets[..i] ==>
                  updates[ClientEpochKey(c)] == EpochValue(epoch) && updates[ClientDataKey(c)] == CommandValue(command)
    {
      assert targets[..i + 1] == targets[..i] + [targets[i]];
      updates := updates[ClientEpochKey(targets[i]) := EpochValue(epoch)];
      updates := updates[ClientDataKey(targets[i]) := CommandValue(command)];
    }
    assert targets[..|targets|] == targets;
  }

  /** The ClientKeyExchangeCommand handler's updates: both keys of every
      named target, or of every client of every group when none is named. */
  method HandleClientKeyExchange(targetClients: seq<uint32>, clientGroups: seq<seq<uint32>>,
                                 epoch: uint64, command: seq<byte>)
    returns (updates: map<Key, Value>)
    ensures |targetClients| > 0 ==> updates.Keys == KeyExchangeKeys(targetClients)
    ensures |targetClients| == 0 ==> updates.Keys == KeyExchangeKeys(AllClients(clientGroups))
    ensures forall c :: c in targetClients ==>
              updates[ClientEpochKey(c)] == EpochValue(epoch) && updates[ClientDataKey(c)] == CommandValue(command)
    ensures |targetClients| == 0 ==>
              forall g, c :: 0 <= g < |clientGroups| && c in clientGroups[g] ==>
                ClientEpochKey(c) in updates && updates[ClientEpochKey(c)] == EpochValue(epoch)
                && ClientDataKey(c) in updates && updates[ClientDataKey(c)] == CommandValue(command)
  {
    var targets := ExpandTargets(targetClients, clientGroups);
    updates := BuildKeyExchangeUpdates(targets, epoch, command);
    if |targetClients| == 0 {
      forall g, c | 0 <= g < |clientGroups| && c in clientGroups[g]
        ensures c in targets
      {
        InAllClients(clientGroups, c);
      }
    }
  }

  /** The distinct targets. */
  ghost function Distinct(targets: seq<uint32>): set<uint32> {
    set c | c in targets
  }

  /** The last target adds its two keys and itself to those of the others. */
  lemma KeysOfLast(targets: seq<uint32>)
    requires |targets| > 0
    ensures var front, c := targets[..|targets| - 1], targets[|targets| - 1];
            && KeyExchangeKeys(targets) == KeyExchangeKeys(front) + {ClientEpochKey(c)} + {ClientDataKey(c)}
            && Distinct(targets) == Distinct(front) + {c}
            && (c in front <==> ClientEpochKey(c) in KeyExchangeKeys(front))
            && (c in front <==> ClientDataKey(c) in KeyExchangeKeys(front))
            && (c in front <==> c in Distinct(front))
  {
    assert targets == targets[..|targets| - 1] + [targets[|targets| - 1]];
  }

  /** Each distinct target accounts for exactly two keys: one epoch key and
      one data key. */
  lemma {:induction false} TwoKeysPerTarget(targets: seq<uint32>)
    ensures |KeyExchangeKeys(targets)| == 2 * |Distinct(targets)|
  {
    if |targets| > 0 {
      var front, c := targets[..|targets| - 1], targets[|targets| - 1];
      TwoKeysPerTarget(front);
      KeysOfLast(targets);
      if c !in front {
        NewTargetAddsTwoKeys(KeyExchangeKeys(front), Distinct(front), c);
      } else {
        OldTargetAddsNothing(KeyExchangeKeys(front), Distinct(front), c);
      }
    }
  }

  lemma OldTargetAddsNothing(keys: set<Key>, ids: set<uint32>, c: uint32)
    requires ClientEpochKey(c) in keys && ClientDataKey(c) in keys && c in ids
    ensures keys + {ClientEpochKey(c)} + {ClientDataKey(c)} == keys && ids + {c} == ids
  {
  }

  lemma NewTargetAddsTwoKeys(keys: set<Key>, ids: set<uint32>, c: uint32)
    requires ClientEpochKey(c) !in keys && ClientDataKey(c) !in keys && c !in ids
    requires |keys| == 2 * |ids|
    ensures |keys + {ClientEpochKey(c)} + {ClientDataKey(c)}| == 2 * |ids + {c}|
  {
    var withEpoch := keys + {ClientEpochKey(c)};
    assert |withEpoch| == |keys| + 1;
    assert ClientDataKey(c) !in withEpoch;
  }

  // ---------------------------------------------------------------------
  // Client reconfiguration state request

  /** A state reply as the reply builders return it; block 0 means the key
      was never written. */
  datatype StateReply = StateReply(blockId: uint64, payload: seq<byte>)

  /** The per-replica keys whose states are reported. */
  datatype ReplicaKey = MainKey | TlsExchange | ScalingExecute | ScalingStatus

  /** A reply kept in the list: only when its block is not 0. */
  function Kept(r: StateReply): seq<StateReply> {
    if r.blockId > 0 then [r] else []
  }

  /** The first client id: replicas and read-only replicas come first; the
      sum is kept in 16 bits. */
  function FirstClientId(numReplicas: uint16, numRoReplicas: uint16): uint16 {
    (numReplicas + numRoReplicas) % U16
  }

  /** The client command kinds from index lo + 1 up to k, each kept when
      written for the sender. */
  function ClientCommandStates(clientState: (nat, uint32) -> StateReply, sender: uint32, lo: nat, k: nat)
    : seq<StateReply>
  {
    if k == 0 then [] else ClientCommandStates(clientState, sender, lo, k - 1) + Kept(clientState(lo + k, sender))
  }

  /** The main-key states of the first n replicas, each kept when written. */
  function MainKeyStates(replicaState: (ReplicaKey, uint16) -> StateReply, n: nat): seq<StateReply>
    requires n <= U16
  {
    if n == 0 then [] else MainKeyStates(replicaState, n - 1) + Kept(replicaState(MainKey, n - 1))
  }

  /** The states of one other replica as evidently intended (the corrected
      reply): TLS key, scaling command and scaling status, each kept when
      written. */
  function ReplicaStates(replicaState: (ReplicaKey, uint16) -> StateReply, i: uint16): seq<StateReply> {
    Kept(replicaState(TlsExchange, i)) + Kept(replicaState(ScalingExecute, i)) + Kept(replicaState(ScalingStatus, i))
  }

  /** The same, as written: when the scaling status is written, the scaling
      command reply is pushed in its place, whether or not that command is
      written. */
  function ReplicaStatesAsWritten(replicaState: (ReplicaKey, uint16) -> StateReply, i: uint16): seq<StateReply> {
    Kept(replicaState(TlsExchange, i)) + Kept(replicaState(ScalingExecute, i))
    + (if replicaState(ScalingStatus, i).blockId > 0 then [replicaState(ScalingExecute, i)] else [])
  }

  /** The states of the first n replicas other than the sender. */
  function OtherReplicaStates(replicaState: (ReplicaKey, uint16) -> StateReply, sender: uint32, n: nat,
                              asWritten: bool): seq<StateReply>
    requires n <= U16
  {
    if n == 0 then []
    else
      OtherReplicaStates(replicaState, sender, n - 1, asWritten)
      + (if n - 1 == sender then []
         else if asWritten then ReplicaStatesAsWritten(replicaState, n - 1)
         else ReplicaStates(replicaState, n - 1))
  }

  /** The reply to a client reconfiguration state request: a sender above
      the first client id gets its written client commands and the replicas'
      main keys; any other sender gets the other replicas' states. */
  function ClientStateReply(senderId: uint32, numReplicas: uint16, numRoReplicas: uint16,
                            commandStart: uint8, commandEnd: uint8,
                            clientState: (nat, uint32) -> StateReply,
                            replicaState: (ReplicaKey, uint16) -> StateReply, asWritten: bool)
    : seq<StateReply>
  {
    var first := FirstClientId(numReplicas, numRoReplicas);
    if senderId > first then
      ClientCommandStates(clientState, senderId, commandStart,
                          if commandEnd > commandStart + 1 then commandEnd - commandStart - 1 else 0)
      + MainKeyStates(replicaState, first)
    else OtherReplicaStates(replicaState, senderId, first, asWritten)
  }

  /** The client branch: the client command kinds between start and end
      written for the sender, then the replicas' main keys. */
  method ClientBranchStates(senderId: uint32, first: uint16, commandStart: uint8, commandEnd: uint8,
                            clientState: (nat, uint32) -> StateReply,
                            replicaState: (ReplicaKey, uint16) -> StateReply)
    returns (states: seq<StateReply>)
    ensures states == ClientCommandStates(clientState, senderId, commandStart,
                                          if commandEnd > commandStart + 1 then commandEnd - commandStart - 1 else 0)
                      + MainKeyStates(replicaState, first)
  {
    states := [];
    var kind: nat := commandStart + 1;
    while kind < commandEnd
      invariant commandStart + 1 <= kind
      invariant kind <= commandEnd || kind == commandStart + 1
      invariant states == ClientCommandStates(clientState, senderId, commandStart, kind - commandStart - 1)
      decreases commandEnd - kind
    {
      var csrep := clientState(kind, senderId);
      if csrep.blockId != 0 {
        states := states + [csrep];
      }
      kind := kind + 1;
    }
    var commands := states;
    for i := 0 to first
      invariant states == commands + MainKeyStates(replicaState, i)
    {
      var keCsrep := replicaState(MainKey, i);
      if keCsrep.blockId > 0 {
        states := states + [keCsrep];
      }
    }
  }

  /** One other replica's states as the handler collects them: its written
      TLS key, its written scaling command, and then, when its scaling status
      is written, its scaling command once more. */
  method OneReplicaStates(replicaState: (ReplicaKey, uint16) -> StateReply, i: uint16)
    returns (block: seq<StateReply>)
    ensures block == ReplicaStatesAsWritten(replicaState, i)
  {
    block := [];
    var keCsrep := replicaState(TlsExchange, i);
    if keCsrep.blockId > 0 {
      block := block + [keCsrep];
    }
    var scaleCsrep := replicaState(ScalingExecute, i);
    if scaleCsrep.blockId > 0 {
      block := block + [scaleCsrep];
    }
    var scaleStatusCsrep := replicaState(ScalingStatus, i);
    if scaleStatusCsrep.blockId > 0 {
      block := block + [scaleCsrep];
    }
  }

  /** The replica branch: the states of every replica below the first
      client id except the sender. */
  method ReplicaBranchStates(senderId: uint32, first: uint16, replicaState: (ReplicaKey, uint16) -> StateReply)
    returns (states: seq<StateReply>)
    ensures states == OtherReplicaStates(replicaState, senderId, first, true)
  {
    states := [];
    for i := 0 to first
      invariant states == OtherReplicaStates(replicaState, senderId, i, true)
    {
      if i == senderId {
        continue;
      }
      var block := OneReplicaStates(replicaState, i);
      states := states + block;
    }
  }

  /** The handler: a sender above the first client id is answered by the
      client branch, any other by the replica branch. */
  method HandleClientStateRequest(senderId: uint32, numReplicas: uint16, numRoReplicas: uint16,
                                  commandStart: uint8, commandEnd: uint8,
                                  clientState: (nat, uint32) -> StateReply,
                                  replicaState: (ReplicaKey, uint16) -> StateReply)
    returns (states: seq<StateReply>)
    ensures states == ClientStateReply(senderId, numReplicas, numRoReplicas, commandStart, commandEnd,
                                       clientState, replicaState, true)
  {
    var first := FirstClientId(numReplicas, numRoReplicas);
    if senderId > first {
      states := ClientBranchStates(senderId, first, commandStart, commandEnd, clientState, replicaState);
    } else {
      states := ReplicaBranchStates(senderId, first, replicaState);
    }
  }

  /** r is a written TLS key, scaling command or scaling status of one of
      the first n replicas other than the sender. */
  ghost predicate WrittenOtherState(replicaState: (ReplicaKey, uint16) -> StateReply, sender: uint32, n: nat,
                                    r: StateReply)
  {
    r.blockId > 0 && exists i: uint16, k: ReplicaKey :: i < n && i != sender && k != MainKey && r == replicaState(k, i)
  }

  /** Corrected reply: one replica's states are its written TLS key,
      scaling command and scaling status. */
  lemma InReplicaStates(replicaState: (ReplicaKey, uint16) -> StateReply, i: uint16, r: StateReply)
    ensures r in ReplicaStates(replicaState, i) <==>
              r.blockId > 0 && exists k: ReplicaKey :: k != MainKey && r == replicaState(k, i)
  {
    if r.blockId > 0 && exists k: ReplicaKey :: k != MainKey && r == replicaState(k, i) {
      var k: ReplicaKey :| k != MainKey && r == replicaState(k, i);
      assert r in Kept(replicaState(k, i));
    }
  }

  /** Corrected reply: every reply sent to a replica-branch sender is a
      written state of one of the other replicas (its TLS key, scaling
      command or scaling status), and every such written state is sent. */
  lemma {:induction false} OtherReplicaStatesContents(replicaState: (ReplicaKey, uint16) -> StateReply,
                                                      sender: uint32, n: nat, r: StateReply)
    requires n <= U16
    ensures r in OtherReplicaStates(replicaState, sender, n, false) <==> WrittenOtherState(replicaState, sender, n, r)
  {
    if n > 0 {
      OtherReplicaStatesContents(replicaState, sender, n - 1, r);
      var i: uint16 := n - 1;
      var prev := OtherReplicaStates(replicaState, sender, n - 1, false);
      var tail := if i == sender then [] else ReplicaStates(replicaState, i);
      assert OtherReplicaStates(replicaState, sender, n, false) == prev + tail;
      InReplicaStates(replicaState, i, r);
      if r in prev + tail && r !in prev {
        var k: ReplicaKey :| k != MainKey && r == replicaState(k, i);
        assert WrittenOtherState(replicaState, sender, n, r);
      }
      if WrittenOtherState(replicaState, sender, n, r) {
        var j: uint16, k: ReplicaKey :| j < n && j != sender && k != MainKey && r == replicaState(k, j);
        if j < i {
          assert WrittenOtherState(replicaState, sender, n - 1, r);
        } else {
          assert j == i && i != sender;
          assert r == replicaState(k, i);
          assert tail == ReplicaStates(replicaState, i);
        }
      }
    }
  }

  /** r is sent, as written, for one of the first n replicas other than the
      sender: its written TLS key, or its scaling command when that command
      or the replica's scaling status is written. */
  ghost predicate SentOtherState(replicaState: (ReplicaKey, uint16) -> StateReply, sender: uint32, n: nat,
                                 r: StateReply)
  {
    exists i: uint16 :: i < n && i != sender && SentFor(replicaState, i, r)
  }

  /** r is sent, as written, for replica i. */
  predicate SentFor(replicaState: (ReplicaKey, uint16) -> StateReply, i: uint16, r: StateReply) {
    (r.blockId > 0 && r == replicaState(TlsExchange, i))
    || (r == replicaState(ScalingExecute, i) && (r.blockId > 0 || replicaState(ScalingStatus, i).blockId > 0))
  }

  /** As written, one replica's states are its written TLS key and its
      scaling command, the latter also when only its scaling status is
      written. */
  lemma InReplicaStatesAsWritten(replicaState: (ReplicaKey, uint16) -> StateReply, i: uint16, r: StateReply)
    ensures r in ReplicaStatesAsWritten(replicaState, i) <==> SentFor(replicaState, i, r)
  {
  }

  /** As written, every reply sent to a replica-branch sender is another
      replica's written TLS key or its scaling command (unwritten when only
      the status is written), and every such state is sent. */
  lemma {:induction false} OtherReplicaStatesAsWrittenContents(replicaState: (ReplicaKey, uint16) -> StateReply,
                                                               sender: uint32, n: nat, r: StateReply)
    requires n <= U16
    ensures r in OtherReplicaStates(replicaState, sender, n, true) <==> SentOtherState(replicaState, sender, n, r)
  {
    if n > 0 {
      OtherReplicaStatesAsWrittenContents(replicaState, sender, n - 1, r);
      var i: uint16 := n - 1;
      var prev := OtherReplicaStates(replicaState, sender, n - 1, true);
      var tail := if i == sender then [] else ReplicaStatesAsWritten(replicaState, i);
      assert OtherReplicaStates(replicaState, sender, n, true) == prev + tail;
      InReplicaStatesAsWritten(replicaState, i, r);
      if SentOtherState(replicaState, sender, n, r) {
        var j: uint16 :| j < n && j != sender && SentFor(replicaState, j, r);
        if j < i {
          assert SentOtherState(replicaState, sender, n - 1, r);
        } else {
          assert tail == ReplicaStatesAsWritten(replicaState, j);
        }
      }
    }
  }

  /** As written, a scaling status is never sent as itself: a status that
      equals no other replica's TLS key or scaling command is absent from
      the reply, however it is written. */
  lemma ScalingStatusNotSent(replicaState: (ReplicaKey, uint16) -> StateReply, sender: uint32, n: nat, i: uint16)
    requires n <= U16
    requires forall j: uint16 :: j < n && j != sender ==>
               replicaState(ScalingStatus, i) != replicaState(TlsExchange, j)
               && replicaState(ScalingStatus, i) != replicaState(ScalingExecute, j)
    ensures replicaState(ScalingStatus, i) !in OtherReplicaStates(replicaState, sender, n, true)
  {
    OtherReplicaStatesAsWrittenContents(replicaState, sender, n, replicaState(ScalingStatus, i));
  }

  /** A sender's reply never depends on its own replica states. */
  lemma {:induction false} OwnStatesIgnored(s1: (ReplicaKey, uint16) -> StateReply, s2: (ReplicaKey, uint16) -> StateReply,
                                            sender: uint32, n: nat, asWritten: bool)
    requires n <= U16
    requires forall k, i: uint16 :: i != sender ==> s1(k, i) == s2(k, i)
    ensures OtherReplicaStates(s1, sender, n, asWritten) == OtherReplicaStates(s2, sender, n, asWritten)
  {
    if n > 0 {
      OwnStatesIgnored(s1, s2, sender, n - 1, asWritten);
    }
  }

  /** The first client itself (id equal to the number of replicas and
      read-only replicas) is answered as a replica: with every replica's
      states and none of its client commands. */
  lemma FirstClientAnsweredAsReplica(numReplicas: uint16, numRoReplicas: uint16, commandStart: uint8, commandEnd: uint8,
                                     clientState: (nat, uint32) -> StateReply,
                                     replicaState: (ReplicaKey, uint16) -> StateReply, asWritten: bool)
    requires numReplicas + numRoReplicas < U16
    ensures ClientStateReply(numReplicas + numRoReplicas, numReplicas, numRoReplicas, commandStart, commandEnd,
                             clientState, replicaState, asWritten)
            == OtherReplicaStates(replicaState, numReplicas + numRoReplicas, numReplicas + numRoReplicas, asWritten)
  {
  }

  /** As written, a replica whose scaling status is written but whose
      scaling command is not makes the reply carry an unwritten (block 0)
      state and lose the status. */
  lemma ScalingStatusPushesScalingCommand()
    ensures ClientStateReply(0, 2, 0, 0, 0, (k, c) => StateReply(0, []),
                             (k, i) => if k == ScalingStatus then StateReply(5, []) else StateReply(0, []), true)
            == [StateReply(0, [])]
    ensures ClientStateReply(0, 2, 0, 0, 0, (k, c) => StateReply(0, []),
                             (k, i) => if k == ScalingStatus then StateReply(5, []) else StateReply(0, []), false)
            == [StateReply(5, [])]
  {
    var st := (k, i) => if k == ScalingStatus then StateReply(5, []) else StateReply(0, []);
    assert OtherReplicaStates(st, 0, 1, true) == [];
    assert OtherReplicaStates(st, 0, 1, false) == [];
  }

  /** Corrected reply: every reply sent carries a written state. */
  lemma {:induction false} RepliesAreWritten(replicaState: (ReplicaKey, uint16) -> StateReply, sender: uint32, n: nat)
    requires n <= U16
    ensures forall r :: r in OtherReplicaStates(replicaState, sender, n, false) ==> r.blockId > 0
  {
    forall r | r in OtherReplicaStates(replicaState, sender, n, false) {
      OtherReplicaStatesContents(replicaState, sender, n, r);
    }
  }
}
