/** The per-client request records of the clients manager: a map from request
    sequence number to (arrival time, correlation id, committed flag), kept in
    ascending sequence order as a std::map keeps it.  The functions here are the
    specification of the in-place updates the clients manager performs. */
module RequestLedger {
  import opened Common

  type ReqId = nat

  /** The smallest and greatest representable times (signed 64-bit ticks). */
  const MinTime: int := -0x8000_0000_0000_0000
  const MaxTime: int := 0x7FFF_FFFF_FFFF_FFFF

  type Time = t: int | MinTime <= t <= MaxTime

  datatype RequestInfo = RequestInfo(time: Time, cid: string, committed: bool)

  /** The value of a default-constructed record: minimal time, empty cid. */
  const DefaultRequestInfo: RequestInfo := RequestInfo(MinTime, "", false)

  type Requests = map<ReqId, RequestInfo>

  /** A record exists for s and it has not been committed. */
  predicate IsPending(m: Requests, s: ReqId) {
    s in m && !m[s].committed
  }

  /** Adds a fresh, uncommitted record for s, unless a record for s exists. */
  function Emplace(m: Requests, s: ReqId, now: Time, cid: string): (r: Requests)
    ensures r.Keys == m.Keys + {s}
    ensures forall k :: k in m ==> r[k] == m[k]
    ensures s !in m ==> r[s].time == now && r[s].cid == cid && !r[s].committed
  {
    if s in m then m else m[s := RequestInfo(now, cid, false)]
  }

  /** Sets the committed flag of the record for s, if there is one. */
  function MarkCommitted(m: Requests, s: ReqId): (r: Requests)
    ensures r.Keys == m.Keys
    ensures forall k :: k in m && k != s ==> r[k] == m[k]
    ensures s in m ==> r[s] == RequestInfo(m[s].time, m[s].cid, true)
  {
    if s in m then m[s := m[s].(committed := true)] else m
  }

  /** Removes the record for s, if there is one. */
  function Remove(m: Requests, s: ReqId): (r: Requests)
    ensures r.Keys == m.Keys - {s}
    ensures forall k :: k in r ==> r[k] == m[k]
  {
    m - {s}
  }

  /** Removes every record whose sequence number is at most s (a persisted
      reply for s proves that those requests were completed). */
  function RemoveOldPending(m: Requests, s: ReqId): (r: Requests)
    ensures forall k :: k in r <==> k in m && s < k
    ensures forall k :: k in r ==> r[k] == m[k]
  {
    map k | k in m && s < k :: m[k]
  }

  /** The condition under which the record with the greatest sequence number
      is evicted: the count is exactly the global batch bound, s itself has no
      record, and the greatest recorded sequence number exceeds s. */
  ghost predicate EvictsNewest(m: Requests, s: ReqId, maxInBatch: nat) {
    |m| == maxInBatch && s !in m && m != map[] && MaxOf(m.Keys) > s
  }

  /** The map left by removeRequestsOutOfBatchBounds. */
  ghost function RemoveOutOfBatchBounds(m: Requests, s: ReqId, maxInBatch: nat): (r: Requests)
    ensures !EvictsNewest(m, s, maxInBatch) ==> r == m
    ensures EvictsNewest(m, s, maxInBatch) ==>
              exists top :: top in m && s < top && r.Keys == m.Keys - {top}
                && forall k :: k in r ==> k < top && r[k] == m[k]
  {
    if EvictsNewest(m, s, maxInBatch) then m - {MaxOf(m.Keys)} else m
  }

  /** The running minimum kept by the earliest-pending scan: every pending
      record of m is no earlier than t. */
  ghost predicate NoEarlierPending(m: Requests, t: int) {
    NoEarlierPendingAmong(m, m.Keys, t)
  }

  /** No pending record whose sequence number is in ks is earlier than t. */
  ghost predicate NoEarlierPendingAmong(m: Requests, ks: set<ReqId>, t: int) {
    forall k :: k in ks && k in m && !m[k].committed ==> t <= m[k].time
  }

  /** The record for k is pending, has time t, and every pending record with a
      smaller sequence number is strictly later. */
  ghost predicate FirstAt(m: Requests, k: ReqId, t: int) {
    k in m && !m[k].committed && m[k].time == t
    && forall j :: j in m && j < k && !m[j].committed ==> t < m[j].time
  }

  /** Continues the scan for the earliest pending request over m, starting from
      the running minimum (t0, info0).  Records are visited in ascending
      sequence order and only a strictly earlier time replaces the running
      minimum, so among equally early records the first one wins. */
  method EarliestPendingIn(m: Requests, t0: Time, info0: RequestInfo) returns (t: Time, info: RequestInfo)
    ensures t <= t0 && NoEarlierPending(m, t)
    ensures t == t0 ==> info == info0
    ensures t < t0 ==> exists k :: FirstAt(m, k, t) && m[k] == info
  {
    t, info := t0, info0;
    var todo := m.Keys;
    ghost var done: set<ReqId> := {};
    while todo != {}
      invariant todo <= m.Keys && done == m.Keys - todo
      invariant forall j, k :: j in done && k in todo ==> j < k
      invariant t <= t0
      invariant NoEarlierPendingAmong(m, done, t)
      invariant t == t0 ==> info == info0
      invariant t < t0 ==> exists k :: k in done && FirstAt(m, k, t) && m[k] == info
      decreases |todo|
    {
      var next: ReqId := Lowest(todo);
      if !m[next].committed && m[next].time < t {
        assert FirstAt(m, next, m[next].time) by {
          forall j | j in m && j < next && !m[j].committed
            ensures m[next].time < m[j].time
          {
            assert j in done;
          }
        }
        t, info := m[next].time, m[next];
      }
      todo := todo - {next};
      done := done + {next};
    }
  }

  /** At most N pending: emplace adds one record for a new request and none
      for a known one, so a count below the bound, the only count
      canBecomePending admits while the bound holds, stays within it. */
  lemma AddKeepsBound(m: Requests, s: ReqId, now: Time, cid: string, bound: nat)
    requires |m| < bound
    ensures |Emplace(m, s, now, cid)| == if s in m then |m| else |m| + 1
    ensures |Emplace(m, s, now, cid)| <= bound
  {
  }

  /** Commit implies no re-pending: adding a request that was committed keeps
      the one existing record, still committed. */
  lemma CommittedIsNotRepended(m: Requests, s: ReqId, now: Time, cid: string)
    requires s in m
    ensures var r := Emplace(MarkCommitted(m, s), s, now, cid);
            r.Keys == m.Keys && r[s].committed && !IsPending(r, s)
            && r[s].time == m[s].time && r[s].cid == m[s].cid
  {
  }

  /** Eviction ordering: with a global batch bound of 2 and records {5, 7},
      an incoming request 3 evicts 7, the newest, and leaves {5}. */
  lemma {:induction false} EvictionScenario(m: Requests)
    requires m.Keys == {5, 7}
    ensures RemoveOutOfBatchBounds(m, 3, 2).Keys == {5}
  {
    assert |m.Keys| == 2;
    var top := MaxOf(m.Keys);
    assert top == 7 by {
      assert 7 in m.Keys;
    }
    assert EvictsNewest(m, 3, 2);
  }
}
