/** The packed wire records of block-chain state transfer.  Each record is a
    value: its fixed fields, and for the two tail-array records the bytes of
    the trailing buffer.  Fresh records are built as the source builds them,
    by zero-filling a buffer and then storing fields and copying bytes. */
module BcstMessages {
  import opened Common

  /** The message type tags, numbered from 0 in declaration order. */
  datatype MsgType =
    | NoType
    | AskForCheckpointSummaries
    | CheckpointsSummary
    | FetchBlocks
    | FetchResPages
    | RejectFetching
    | ItemData

  function Code(t: MsgType): (c: uint16)
    ensures c <= 6
  {
    match t
    case NoType => 0
    case AskForCheckpointSummaries => 1
    case CheckpointsSummary => 2
    case FetchBlocks => 3
    case FetchResPages => 4
    case RejectFetching => 5
    case ItemData => 6
  }

  /** The type named by a tag on the wire, if any. */
  function TypeOfCode(c: uint16): (t: Option<MsgType>)
    ensures t.None? <==> c > 6
  {
    if c == 0 then Some(NoType)
    else if c == 1 then Some(AskForCheckpointSummaries)
    else if c == 2 then Some(CheckpointsSummary)
    else if c == 3 then Some(FetchBlocks)
    else if c == 4 then Some(FetchResPages)
    else if c == 5 then Some(RejectFetching)
    else if c == 6 then Some(ItemData)
    else None
  }

  /** Every type has its own tag, and the tag names the type back. */
  lemma CodeRoundTrip(t: MsgType)
    ensures TypeOfCode(Code(t)) == Some(t)
  {
  }

  /** Every tag from 0 to 6 is the tag of the type it names. */
  lemma TypeOfCodeRoundTrip(c: uint16)
    requires c <= 6
    ensures TypeOfCode(c).Some? && Code(TypeOfCode(c).value) == c
  {
  }

  /** Distinct types have distinct tags. */
  lemma CodeInjective(t: MsgType, u: MsgType)
    requires Code(t) == Code(u)
    ensures t == u
  {
    CodeRoundTrip(t);
    CodeRoundTrip(u);
  }

  /** The width of a block digest in bytes. */
  const DigestSize: nat := 32

  datatype Digest = Digest(bytes: seq<byte>)

  const ZeroDigest: Digest := Digest(Zeros(DigestSize))

  /** n zero bytes: what memset(·, 0, n) leaves. */
  function Zeros(n: nat): (z: seq<byte>)
    ensures |z| == n && forall i :: 0 <= i < n ==> z[i] == 0
  {
    seq(n, _ => 0)
  }

  /** The packed size of CheckpointSummaryMsg, counting the one-byte data
      placeholder: type, checkpointNum, maxBlockId, two digests,
      requestMsgSeqNum, rvbDataSize, data[1]. */
  const CheckpointSummaryStructSize: nat := 2 + 8 + 8 + DigestSize + DigestSize + 8 + 4 + 1

  /** The packed size of ItemDataMsg, counting the one-byte data placeholder:
      type, requestMsgSeqNum, blockNumber, totalNumberOfChunksInBlock,
      chunkNumber, dataSize, lastInBatch, rvbDigestsSize, data[1]. */
  const ItemDataStructSize: nat := 2 + 8 + 8 + 2 + 2 + 4 + 1 + 4 + 1

  /** A checkpoint summary; data is the whole trailing buffer as allocated,
      of which the first rvbDataSize bytes are the RVB data. */
  datatype CheckpointSummaryMsg = CheckpointSummaryMsg(
    msgType: uint16,
    checkpointNum: uint64,
    maxBlockId: uint64,
    digestOfMaxBlockId: Digest,
    digestOfResPagesDescriptor: Digest,
    requestMsgSeqNum: uint64,
    rvbDataSize: uint32,
    data: seq<byte>)

  /** The trailing buffer holds at least the rvbDataSize bytes the record
      claims. */
  predicate WellFormed(m: CheckpointSummaryMsg) {
    m.rvbDataSize <= |m.data|
  }

  /** The RVB data bytes of a record. */
  function RvbData(m: CheckpointSummaryMsg): (d: seq<byte>)
    requires WellFormed(m)
    ensures |d| == m.rvbDataSize
  {
    m.data[..m.rvbDataSize]
  }

  /** The number of bytes a record's buffer occupies. */
  function AllocatedSize(m: CheckpointSummaryMsg): nat {
    CheckpointSummaryStructSize - 1 + |m.data|
  }

  /** sizeOf: the header plus the RVB data, without the placeholder byte.
      It never exceeds the buffer of a well-formed record, and it is the
      whole buffer exactly when the buffer holds just the RVB data. */
  function SizeOf(m: CheckpointSummaryMsg): (r: nat)
    ensures WellFormed(m) ==> r <= AllocatedSize(m)
    ensures r == AllocatedSize(m) <==> |m.data| == m.rvbDataSize
  {
    CheckpointSummaryStructSize + m.rvbDataSize - 1
  }

  /** create(n): a zero-filled record of type CheckpointsSummary with an
      n-byte trailing buffer; the 32-bit rvbDataSize field keeps n modulo
      2^32. */
  method Create(n: uint64) returns (m: CheckpointSummaryMsg)
    ensures m.msgType == Code(CheckpointsSummary)
    ensures m.checkpointNum == 0 && m.maxBlockId == 0 && m.requestMsgSeqNum == 0
    ensures m.digestOfMaxBlockId == ZeroDigest && m.digestOfResPagesDescriptor == ZeroDigest
    ensures m.rvbDataSize == n % U32
    ensures m.data == Zeros(n)
    ensures AllocatedSize(m) == CheckpointSummaryStructSize + n - 1
    ensures n < U32 ==> WellFormed(m) && SizeOf(m) == AllocatedSize(m)
  {
    var buffer := new byte[n];
    for i := 0 to n
      invariant forall j :: 0 <= j < i ==> buffer[j] == 0
    {
      buffer[i] := 0;
    }
    m := CheckpointSummaryMsg(Code(CheckpointsSummary), 0, 0, ZeroDigest, ZeroDigest, 0, n % U32, buffer[..]);
  }

  /** create(rMsg): a copy of r made by create(r.sizeOf()) followed by field
      stores and a copy of the RVB data.  The copy's buffer is sizeOf(r)
      bytes long: longer than the RVB data it holds. */
  method CreateCopy(r: CheckpointSummaryMsg) returns (m: CheckpointSummaryMsg)
    requires WellFormed(r)
    ensures m.msgType == Code(CheckpointsSummary)
    ensures m.checkpointNum == r.checkpointNum && m.maxBlockId == r.maxBlockId
    ensures m.digestOfMaxBlockId == r.digestOfMaxBlockId
    ensures m.digestOfResPagesDescriptor == r.digestOfResPagesDescriptor
    ensures m.requestMsgSeqNum == r.requestMsgSeqNum && m.rvbDataSize == r.rvbDataSize
    ensures |m.data| == SizeOf(r)
    ensures m.data == RvbData(r) + Zeros(SizeOf(r) - r.rvbDataSize)
    ensures WellFormed(m) && RvbData(m) == RvbData(r) && SizeOf(m) == SizeOf(r)
  {
    var blank := Create(SizeOf(r));
    var buffer := new byte[|blank.data|](i => if 0 <= i < |blank.data| then blank.data[i] else 0);
    for i := 0 to r.rvbDataSize
      invariant buffer[..i] == r.data[..i]
      invariant forall j :: i <= j < buffer.Length ==> buffer[j] == 0
    {
      buffer[i] := r.data[i];
    }
    m := blank.(checkpointNum := r.checkpointNum, maxBlockId := r.maxBlockId,
                digestOfMaxBlockId := r.digestOfMaxBlockId,
                digestOfResPagesDescriptor := r.digestOfResPagesDescriptor,
                requestMsgSeqNum := r.requestMsgSeqNum, rvbDataSize := r.rvbDataSize,
                data := buffer[..]);
    assert m.data == RvbData(r) + Zeros(SizeOf(r) - r.rvbDataSize);
  }

  /** The fields both equivalences compare: everything but the type and
      requestMsgSeqNum. */
  predicate SameHeader(a: CheckpointSummaryMsg, b: CheckpointSummaryMsg) {
    a.maxBlockId == b.maxBlockId && a.checkpointNum == b.checkpointNum
    && a.digestOfMaxBlockId == b.digestOfMaxBlockId
    && a.digestOfResPagesDescriptor == b.digestOfResPagesDescriptor
    && a.rvbDataSize == b.rvbDataSize
  }

  /** memcmp(a, b, n) == 0. */
  predicate SameBytes(a: seq<byte>, b: seq<byte>, n: nat)
    requires n <= |a| && n <= |b|
  {
    a[..n] == b[..n]
  }

  /** equivalent(a, b): the compared fields agree and, only when there is
      RVB data, so do its bytes; a pair without RVB data is never
      equivalent. */
  predicate Equivalent(a: CheckpointSummaryMsg, b: CheckpointSummaryMsg)
    requires WellFormed(a) && WellFormed(b)
  {
    var cmp1 := SameHeader(a, b);
    var cmp2 := cmp1 && a.rvbDataSize > 0 && SameBytes(a.data, b.data, a.rvbDataSize);
    cmp1 && cmp2
  }

  /** equivalent(a, aId, b, bId): false as soon as a compared field or an
      RVB data byte differs, true otherwise; the replica ids only label the
      warning. */
  predicate EquivalentFrom(a: CheckpointSummaryMsg, aId: uint16, b: CheckpointSummaryMsg, bId: uint16)
    requires WellFormed(a) && WellFormed(b)
  {
    if a.maxBlockId != b.maxBlockId || a.checkpointNum != b.checkpointNum
       || a.digestOfMaxBlockId != b.digestOfMaxBlockId
       || a.digestOfResPagesDescriptor != b.digestOfResPagesDescriptor
       || a.rvbDataSize != b.rvbDataSize
       || !SameBytes(a.data, b.data, a.rvbDataSize)
    then false
    else true
  }

  /** The two equivalences differ exactly on records without RVB data. */
  lemma EquivalentIffEquivalentFromWithData(a: CheckpointSummaryMsg, aId: uint16, b: CheckpointSummaryMsg, bId: uint16)
    requires WellFormed(a) && WellFormed(b)
    ensures Equivalent(a, b) <==> EquivalentFrom(a, aId, b, bId) && a.rvbDataSize > 0
  {
  }

  /** Both equivalences hold exactly when the compared fields and the RVB
      data agree (the second one with no condition on the size). */
  lemma EquivalentFromMeans(a: CheckpointSummaryMsg, aId: uint16, b: CheckpointSummaryMsg, bId: uint16)
    requires WellFormed(a) && WellFormed(b)
    ensures EquivalentFrom(a, aId, b, bId) <==> SameHeader(a, b) && RvbData(a) == RvbData(b)
  {
    if SameHeader(a, b) && RvbData(a) == RvbData(b) {
      assert SameBytes(a.data, b.data, a.rvbDataSize);
    }
  }

  /** Both equivalences are symmetric. */
  lemma EquivalenceSymmetric(a: CheckpointSummaryMsg, aId: uint16, b: CheckpointSummaryMsg, bId: uint16)
    requires WellFormed(a) && WellFormed(b)
    ensures Equivalent(a, b) == Equivalent(b, a)
    ensures EquivalentFrom(a, aId, b, bId) == EquivalentFrom(b, bId, a, aId)
  {
    EquivalentFromMeans(a, aId, b, bId);
    EquivalentFromMeans(b, bId, a, aId);
  }

  /** Neither equivalence looks at requestMsgSeqNum. */
  lemma EquivalenceIgnoresRequestSeqNum(a: CheckpointSummaryMsg, aId: uint16, b: CheckpointSummaryMsg, bId: uint16,
                                        x: uint64)
    requires WellFormed(a) && WellFormed(b)
    ensures Equivalent(a.(requestMsgSeqNum := x), b) == Equivalent(a, b)
    ensures EquivalentFrom(a.(requestMsgSeqNum := x), aId, b, bId) == EquivalentFrom(a, aId, b, bId)
  {
  }

  /** A record without RVB data is not equivalent to itself under the
      two-argument check, but is under the four-argument one. */
  lemma NoRvbDataNotSelfEquivalent(a: CheckpointSummaryMsg, aId: uint16)
    requires WellFormed(a) && a.rvbDataSize == 0
    ensures !Equivalent(a, a)
    ensures EquivalentFrom(a, aId, a, aId)
  {
  }

  /** A copy agrees with its original under the four-argument check, and
      under the two-argument one exactly when there is RVB data. */
  method CopyIsEquivalent(r: CheckpointSummaryMsg, rId: uint16) returns (m: CheckpointSummaryMsg)
    requires WellFormed(r)
    ensures WellFormed(m) && EquivalentFrom(m, rId, r, rId)
    ensures Equivalent(m, r) <==> r.rvbDataSize > 0
  {
    m := CreateCopy(r);
    EquivalentFromMeans(m, rId, r, rId);
  }

  /** An item of block or RVB data; data is the whole trailing buffer. */
  datatype ItemDataMsg = ItemDataMsg(
    msgType: uint16,
    requestMsgSeqNum: uint64,
    blockNumber: uint64,
    totalNumberOfChunksInBlock: uint16,
    chunkNumber: uint16,
    dataSize: uint32,
    lastInBatch: uint8,
    rvbDigestsSize: uint32,
    data: seq<byte>)

  /** size(): the header without the placeholder byte plus the data,
      computed in 32 bits: exact below 2^32 - 31 bytes of data, and
      wrapped to less than the header above that. */
  function Size(m: ItemDataMsg): (r: uint32)
    ensures m.dataSize < U32 - (ItemDataStructSize - 1) ==> r == ItemDataStructSize - 1 + m.dataSize
    ensures m.dataSize >= U32 - (ItemDataStructSize - 1) ==> r < ItemDataStructSize - 1
  {
    (ItemDataStructSize - 1 + m.dataSize) % U32
  }

  /** alloc(n): a zero-filled record of type ItemData with an n-byte data
      buffer. */
  method Alloc(n: uint32) returns (m: ItemDataMsg)
    ensures m.msgType == Code(ItemData) && m.dataSize == n
    ensures m.requestMsgSeqNum == 0 && m.blockNumber == 0 && m.totalNumberOfChunksInBlock == 0
    ensures m.chunkNumber == 0 && m.lastInBatch == 0 && m.rvbDigestsSize == 0
    ensures m.data == Zeros(n)
    ensures n < U32 - (ItemDataStructSize - 1) ==> Size(m) == ItemDataStructSize - 1 + |m.data|
  {
    var buffer := new byte[n];
    for i := 0 to n
      invariant forall j :: 0 <= j < i ==> buffer[j] == 0
    {
      buffer[i] := 0;
    }
    m := ItemDataMsg(Code(ItemData), 0, 0, 0, 0, n, 0, 0, buffer[..]);
  }

  /** The buffer holds dataSize bytes, and a nonzero RVB digest part is a
      strict prefix of them. */
  predicate ItemWellFormed(m: ItemDataMsg) {
    m.dataSize <= |m.data| && (m.rvbDigestsSize == 0 || m.rvbDigestsSize < m.dataSize)
  }

  /** The RVB digest part: the first rvbDigestsSize data bytes. */
  function RvbDigests(m: ItemDataMsg): (d: seq<byte>)
    requires ItemWellFormed(m)
    ensures |d| == m.rvbDigestsSize
  {
    m.data[..m.rvbDigestsSize]
  }

  /** The block data: it starts at offset rvbDigestsSize. */
  function BlockData(m: ItemDataMsg): (d: seq<byte>)
    requires ItemWellFormed(m)
    ensures |d| == m.dataSize - m.rvbDigestsSize
  {
    m.data[m.rvbDigestsSize..m.dataSize]
  }

  /** The two parts split the data exactly, and a record with RVB digests
      still carries at least one byte of block data. */
  lemma ItemDataSplit(m: ItemDataMsg)
    requires ItemWellFormed(m)
    ensures RvbDigests(m) + BlockData(m) == m.data[..m.dataSize]
    ensures m.rvbDigestsSize > 0 ==> |BlockData(m)| > 0
  {
    assert m.data[..m.dataSize] == m.data[..m.rvbDigestsSize] + m.data[m.rvbDigestsSize..m.dataSize];
  }

  datatype AskForCheckpointSummariesMsg = AskForCheckpointSummariesMsg(
    msgType: uint16, msgSeqNum: uint64, minRelevantCheckpointNum: uint64)

  datatype FetchBlocksMsg = FetchBlocksMsg(
    msgType: uint16, msgSeqNum: uint64, minBlockId: uint64, maxBlockId: uint64,
    lastKnownChunkInLastRequiredBlock: uint16, rvbGroupid: uint64)

  datatype FetchResPagesMsg = FetchResPagesMsg(
    msgType: uint16, msgSeqNum: uint64, lastCheckpointKnownToRequester: uint64,
    requiredCheckpointNum: uint64, lastKnownChunk: uint16)

  datatype RejectFetchingMsg = RejectFetchingMsg(msgType: uint16, requestMsgSeqNum: uint64)

  /** The default constructor: all fields zero, its own type tag. */
  function NewAskForCheckpointSummaries(): (m: AskForCheckpointSummariesMsg)
    ensures TypeOfCode(m.msgType) == Some(AskForCheckpointSummaries)
    ensures m.msgSeqNum == 0 && m.minRelevantCheckpointNum == 0
  {
    AskForCheckpointSummariesMsg(Code(AskForCheckpointSummaries), 0, 0)
  }

  /** The default constructor: all fields zero, its own type tag; a zero
      rvbGroupid requests no RVB data. */
  function NewFetchBlocks(): (m: FetchBlocksMsg)
    ensures TypeOfCode(m.msgType) == Some(FetchBlocks)
    ensures m.msgSeqNum == 0 && m.minBlockId == 0 && m.maxBlockId == 0
    ensures m.lastKnownChunkInLastRequiredBlock == 0 && m.rvbGroupid == 0
  {
    FetchBlocksMsg(Code(FetchBlocks), 0, 0, 0, 0, 0)
  }

  /** The default constructor: all fields zero, its own type tag. */
  function NewFetchResPages(): (m: FetchResPagesMsg)
    ensures TypeOfCode(m.msgType) == Some(FetchResPages)
    ensures m.msgSeqNum == 0 && m.lastCheckpointKnownToRequester == 0
    ensures m.requiredCheckpointNum == 0 && m.lastKnownChunk == 0
  {
    FetchResPagesMsg(Code(FetchResPages), 0, 0, 0, 0)
  }

  /** The default constructor: all fields zero, its own type tag. */
  function NewRejectFetching(): (m: RejectFetchingMsg)
    ensures TypeOfCode(m.msgType) == Some(RejectFetching)
    ensures m.requestMsgSeqNum == 0
  {
    RejectFetchingMsg(Code(RejectFetching), 0)
  }
}
