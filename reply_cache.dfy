/** The per-client reply records of the clients manager: a two-way index
    between reply sequence numbers and batch-slot indices.  The sequence view
    answers hasReply and gives the slot (and so the reserved page) of a saved
    reply; the slot view finds the reply a new one at the same slot replaces.
    Both views are kept as maps and every update changes them together. */
module ReplyCache {
  import opened Common
  import opened RequestLedger

  datatype RepliesBiMap = RepliesBiMap(bySeq: map<ReqId, uint16>, byIndex: map<uint16, ReqId>)

  /** The two views describe the same set of (sequence number, slot) pairs. */
  ghost predicate Consistent(b: RepliesBiMap) {
    (forall s :: s in b.bySeq ==> b.bySeq[s] in b.byIndex && b.byIndex[b.bySeq[s]] == s)
    && (forall i :: i in b.byIndex ==> b.byIndex[i] in b.bySeq && b.bySeq[b.byIndex[i]] == i)
  }

  /** Records the pair (s, i) in both views of b. */
  ghost predicate Holds(b: RepliesBiMap, s: ReqId, i: uint16) {
    s in b.bySeq && b.bySeq[s] == i && i in b.byIndex && b.byIndex[i] == s
  }

  const Empty: RepliesBiMap := RepliesBiMap(map[], map[])

  /** The number of reply records. */
  function Size(b: RepliesBiMap): nat {
    |b.bySeq|
  }

  /** The pairs of a valid index are exactly the sequence view's entries, and
      no slot holds two replies. */
  lemma {:induction false} OneReplyPerSlot(b: RepliesBiMap, s1: ReqId, s2: ReqId)
    requires Consistent(b) && s1 in b.bySeq && s2 in b.bySeq && b.bySeq[s1] == b.bySeq[s2]
    ensures s1 == s2
  {
    assert b.byIndex[b.bySeq[s1]] == s1;
  }

  /** Removes the reply with sequence number s, if any. */
  function EraseBySeq(b: RepliesBiMap, s: ReqId): (r: RepliesBiMap)
    requires Consistent(b)
    ensures Consistent(r)
    ensures r.bySeq.Keys == b.bySeq.Keys - {s}
    ensures forall t :: t in r.bySeq ==> t in b.bySeq && r.bySeq[t] == b.bySeq[t]
  {
    if s in b.bySeq then RepliesBiMap(b.bySeq - {s}, b.byIndex - {b.bySeq[s]}) else b
  }

  /** Removes the reply at slot i, if any: at most that one reply goes, and
      every other reply keeps its slot. */
  function EraseByIndex(b: RepliesBiMap, i: uint16): (r: RepliesBiMap)
    requires Consistent(b)
    ensures Consistent(r)
    ensures i !in r.byIndex
    ensures forall t :: t in b.bySeq ==> (t in r.bySeq <==> b.bySeq[t] != i)
    ensures forall t :: t in r.bySeq ==> t in b.bySeq && r.bySeq[t] == b.bySeq[t]
    ensures i !in b.byIndex ==> r == b
    ensures Size(r) + 1 >= Size(b)
  {
    if i in b.byIndex then
      var s := b.byIndex[i];
      var r := RepliesBiMap(b.bySeq - {s}, b.byIndex - {i});
      assert r.bySeq.Keys == b.bySeq.Keys - {s};
      r
    else b
  }

  /** Records s at slot i, replacing any reply with the same sequence number
      and any reply at the same slot. */
  function InsertOrAssign(b: RepliesBiMap, s: ReqId, i: uint16): (r: RepliesBiMap)
    requires Consistent(b)
    ensures Consistent(r) && Holds(r, s, i)
    ensures Size(r) <= Size(b) + 1
  {
    var c := EraseByIndex(EraseBySeq(b, s), i);
    assert s !in c.bySeq;
    var r := RepliesBiMap(c.bySeq[s := i], c.byIndex[i := s]);
    assert r.bySeq.Keys == c.bySeq.Keys + {s};
    r
  }

  /** InsertOrAssign displaces only the replies for s and at slot i: every
      other reply stays at its slot, and no reply appears but s's. */
  lemma InsertOrAssignKeepsOthers(b: RepliesBiMap, s: ReqId, i: uint16)
    requires Consistent(b)
    ensures var r := InsertOrAssign(b, s, i);
            (forall t :: t in r.bySeq && t != s ==> t in b.bySeq && r.bySeq[t] == b.bySeq[t])
            && forall t :: t in b.bySeq && t != s && b.bySeq[t] != i ==> t in r.bySeq
  {
  }

  /** Removes the oldest reply, the one with the smallest sequence number
      (sequence numbers are issued in time order). */
  ghost function EraseOldest(b: RepliesBiMap): (r: RepliesBiMap)
    requires Consistent(b)
    ensures Consistent(r)
    ensures b.bySeq != map[] ==> Size(r) + 1 == Size(b)
  {
    if b.bySeq == map[] then b else EraseBySeq(b, MinOf(b.bySeq.Keys))
  }

  /** EraseOldest keeps every other reply at its slot, and the reply it
      removes is older than every reply that remains. */
  lemma EraseOldestTakesOldest(b: RepliesBiMap)
    requires Consistent(b)
    ensures var r := EraseOldest(b);
            (forall t :: t in r.bySeq ==> t in b.bySeq && r.bySeq[t] == b.bySeq[t])
            && forall t, u :: t in r.bySeq && u in b.bySeq && u !in r.bySeq ==> u < t
  {
  }

  /** The effect of allocating a reply for s at slot i with a per-client bound:
      evict the oldest reply when the count is at or above the bound, then
      record (s, i). */
  ghost function AddReply(b: RepliesBiMap, s: ReqId, i: uint16, bound: nat): (r: RepliesBiMap)
    requires Consistent(b)
    ensures Consistent(r) && Holds(r, s, i)
    ensures 1 <= bound && Size(b) <= bound ==> Size(r) <= bound
  {
    InsertOrAssign(if Size(b) >= bound then EraseOldest(b) else b, s, i)
  }

  /** Computes AddReply: the oldest reply is found as the first entry of the
      sequence view, which is ordered. */
  method AllocateSlot(b: RepliesBiMap, s: ReqId, i: uint16, bound: nat) returns (r: RepliesBiMap)
    requires Consistent(b)
    ensures r == AddReply(b, s, i, bound)
  {
    r := b;
    if Size(b) >= bound && b.bySeq != map[] {
      var oldest: ReqId := Lowest(b.bySeq.Keys);
      assert oldest == MinOf(b.bySeq.Keys);
      r := EraseBySeq(b, oldest);
    }
    r := InsertOrAssign(r, s, i);
  }

  /** With a bound of one, allocating the reply for 10 and then the reply for
      11 leaves only the reply for 11. */
  lemma {:induction false} BoundOneScenario(b: RepliesBiMap, i: uint16, j: uint16)
    requires b == Empty
    ensures var r := AddReply(AddReply(b, 10, i, 1), 11, j, 1);
            11 in r.bySeq && 10 !in r.bySeq
  {
    var first := AddReply(b, 10, i, 1);
    assert first.bySeq.Keys == {10};
    assert MinOf(first.bySeq.Keys) == 10;
  }
}
