/** The clients manager of a replica: the fixed set of valid client ids, and
    per client the in-process request records, the saved reply records and the
    public key, together with the reserved pages that persist keys and replies
    across a restart. */
module Clients {
  import opened Common
  import opened RequestLedger
  import opened ReplyCache
  import opened PageLayout

  datatype KeyFormat = HexaDecimalStrippedFormat | PemFormat

  datatype PublicKey = PublicKey(key: string, format: KeyFormat)

  /** The fields of a client reply that the clients manager sets. */
  datatype ClientReplyMsg = ClientReplyMsg(clientId: NodeId, reqSeqNum: ReqId, currentPrimaryId: uint16,
                                           reply: seq<byte>, rsiLength: uint32, executionResult: uint32)

  /** What a reserved page of the clients manager holds. */
  datatype ReservedPage = KeyPage(pubKey: PublicKey) | ReplyPage(msg: ClientReplyMsg)

  type Pages = map<nat, ReservedPage>

  /** The sequence number of the reply saved at page p, if p holds a reply. */
  function SavedSeq(pages: Pages, p: nat): Option<ReqId> {
    if p in pages && pages[p].ReplyPage? then Some(pages[p].msg.reqSeqNum) else None
  }

  /** What the reply pages of the client at `slot` hold, batch slot by batch
      slot, for the first `bound` batch slots. */
  function SavedSeqs(pages: Pages, slot: nat, perClient: uint32, perRequest: uint32, bound: nat): seq<Option<ReqId>> {
    seq(bound, j requires 0 <= j < bound => SavedSeq(pages, ReplyPageId(slot, perClient, perRequest, j)))
  }

  /** The reply records after loading the saved replies `slots` in batch-slot
      order, each as allocation does it: evict the oldest at the bound, then
      record the reply at its slot. */
  ghost function LoadReplies(b: RepliesBiMap, slots: seq<Option<ReqId>>, bound: nat): (r: RepliesBiMap)
    requires Consistent(b) && |slots| <= U16
    ensures Consistent(r)
    decreases |slots|
  {
    if slots == [] then b
    else
      var prev := LoadReplies(b, slots[..|slots| - 1], bound);
      match slots[|slots| - 1]
      case None => prev
      case Some(s) => AddReply(prev, s, |slots| - 1, bound)
  }

  /** The request records after loading the saved replies `slots`: a saved
      reply removes every request record with a sequence number at or below
      its own. */
  function LoadRequests(rq: Requests, slots: seq<Option<ReqId>>): Requests
    decreases |slots|
  {
    if slots == [] then rq
    else
      var prev := LoadRequests(rq, slots[..|slots| - 1]);
      match slots[|slots| - 1]
      case None => prev
      case Some(s) => RemoveOldPending(prev, s)
  }

  /** After loading, exactly the request records newer than every saved reply
      remain, unchanged. */
  lemma {:induction false} LoadRequestsKeepsNewer(rq: Requests, slots: seq<Option<ReqId>>)
    ensures var r := LoadRequests(rq, slots);
            (forall k :: k in r <==> k in rq && forall j :: 0 <= j < |slots| && slots[j].Some? ==> slots[j].value < k)
            && forall k :: k in r ==> r[k] == rq[k]
  {
    if slots != [] {
      var n := |slots| - 1;
      LoadRequestsKeepsNewer(rq, slots[..n]);
      assert forall j :: 0 <= j < n ==> slots[..n][j] == slots[j];
    }
  }

  /** Loading one more batch slot: the reply records after slots[..i+1] are
      those after slots[..i], updated by slot i alone. */
  lemma LoadOneMoreReply(b0: RepliesBiMap, slots: seq<Option<ReqId>>, i: nat, bound: nat)
    requires Consistent(b0) && i < |slots| <= U16
    ensures var prev := LoadReplies(b0, slots[..i], bound);
            LoadReplies(b0, slots[..i + 1], bound)
              == if slots[i].Some? then AddReply(prev, slots[i].value, i, bound) else prev
  {
    assert slots[..i + 1][..i] == slots[..i];
  }

  /** The same step for the request records. */
  lemma LoadOneMoreRequest(rq0: Requests, slots: seq<Option<ReqId>>, i: nat)
    requires i < |slots|
    ensures var prev := LoadRequests(rq0, slots[..i]);
            LoadRequests(rq0, slots[..i + 1])
              == if slots[i].Some? then RemoveOldPending(prev, slots[i].value) else prev
  {
    assert slots[..i + 1][..i] == slots[..i];
  }

  /** Some batch slot of `slots` holds the reply for s. */
  ghost predicate SavedIn(slots: seq<Option<ReqId>>, s: ReqId) {
    exists j :: 0 <= j < |slots| && slots[j] == Some(s)
  }

  lemma SavedInLast(slots: seq<Option<ReqId>>, s: ReqId)
    requires slots != []
    ensures SavedIn(slots, s) <==> SavedIn(slots[..|slots| - 1], s) || slots[|slots| - 1] == Some(s)
  {
    var n := |slots| - 1;
    if SavedIn(slots, s) && slots[n] != Some(s) {
      var j :| 0 <= j < |slots| && slots[j] == Some(s);
      assert slots[..n][j] == Some(s);
    }
    if SavedIn(slots[..n], s) {
      var j :| 0 <= j < n && slots[..n][j] == Some(s);
      assert slots[j] == Some(s);
    }
  }

  /** Adding a reply at a slot that no record uses, below the bound, evicts
      nothing and displaces nothing. */
  lemma AddReplyBelowBound(prev: RepliesBiMap, s: ReqId, n: uint16, bound: nat)
    requires Consistent(prev) && Size(prev) <= n < bound
    requires forall i :: i in prev.byIndex ==> i < n
    ensures var r := AddReply(prev, s, n, bound);
            Size(r) <= n + 1
            && (forall i :: i in r.byIndex ==> i <= n)
            && forall t :: t in r.bySeq <==> t in prev.bySeq || t == s
  {
    var r := AddReply(prev, s, n, bound);
    assert r == InsertOrAssign(prev, s, n);
    InsertOrAssignKeepsOthers(prev, s, n);
    forall t | t in prev.bySeq
      ensures t in r.bySeq
    {
      assert prev.bySeq[t] in prev.byIndex;
    }
    forall i | i in r.byIndex
      ensures i <= n
    {
      var t := r.byIndex[i];
      assert t in r.bySeq && r.bySeq[t] == i;
      if t != s {
        assert prev.bySeq[t] == i && i in prev.byIndex;
      }
    }
  }

  /** Loading into empty reply records evicts nothing while there are at most
      `bound` slots: afterwards there is a reply record for s exactly when s
      was saved in some slot. */
  lemma {:induction false} LoadFromEmpty(slots: seq<Option<ReqId>>, bound: nat)
    requires |slots| <= bound && |slots| <= U16
    ensures var r := LoadReplies(Empty, slots, bound);
            Size(r) <= |slots|
            && (forall i :: i in r.byIndex ==> i < |slots|)
            && forall s :: s in r.bySeq <==> SavedIn(slots, s)
  {
    if slots != [] {
      var n := |slots| - 1;
      LoadFromEmpty(slots[..n], bound);
      var prev := LoadReplies(Empty, slots[..n], bound);
      var r := LoadReplies(Empty, slots, bound);
      if slots[n].Some? {
        AddReplyBelowBound(prev, slots[n].value, n, bound);
      }
      forall t
        ensures t in r.bySeq <==> SavedIn(slots, t)
      {
        SavedInLast(slots, t);
      }
    }
  }

  /** Round-trip persistence: a reply saved at batch slot idx of a client is
      found again when a restarted clients manager loads that client's
      pages. */
  lemma RestartFindsSavedReply(pages: Pages, slot: nat, perClient: uint32, perRequest: uint32,
                               bound: uint16, idx: uint16, msg: ClientReplyMsg)
    requires idx < bound
    requires ReplyPageId(slot, perClient, perRequest, idx) in pages
    requires pages[ReplyPageId(slot, perClient, perRequest, idx)] == ReplyPage(msg)
    ensures msg.reqSeqNum in LoadReplies(Empty, SavedSeqs(pages, slot, perClient, perRequest, bound), bound).bySeq
  {
    var slots := SavedSeqs(pages, slot, perClient, perRequest, bound);
    LoadFromEmpty(slots, bound);
    assert slots[idx] == Some(msg.reqSeqNum);
  }

  /** Loading saved replies into records within a bound of at least one
      keeps them within it: each load evicts the oldest at the bound. */
  lemma {:induction false} LoadKeepsBound(b: RepliesBiMap, slots: seq<Option<ReqId>>, bound: nat)
    requires Consistent(b) && |slots| <= U16 && 1 <= bound && Size(b) <= bound
    ensures Size(LoadReplies(b, slots, bound)) <= bound
    decreases |slots|
  {
    if slots != [] {
      LoadKeepsBound(b, slots[..|slots| - 1], bound);
    }
  }

  /** Every element of a is below every element of b. */
  ghost predicate AllBelow(a: set<NodeId>, b: set<NodeId>) {
    forall j, k :: j in a && k in b ==> j < k
  }

  /** Every numbered id has its rank as its slot. */
  ghost predicate RankedSlots(ids: set<NodeId>, slots: map<NodeId, nat>) {
    forall c :: c in slots ==> slots[c] == Rank(ids, c)
  }

  /** The lowest id still to number ranks after exactly the ids numbered so
      far. */
  lemma RankOfLowest(ids: set<NodeId>, todo: set<NodeId>, c: NodeId)
    requires todo <= ids && c in todo && AllBelow(ids - todo, todo)
    requires forall k :: k in todo ==> c <= k
    ensures Rank(ids, c) == |ids - todo|
  {
    assert (set x | x in ids && x < c) == ids - todo;
  }

  /** Numbering the lowest id keeps the numbered ids below the rest. */
  lemma LowestKeepsOrder(ids: set<NodeId>, todo: set<NodeId>, c: NodeId)
    requires todo <= ids && c in todo && AllBelow(ids - todo, todo)
    requires forall k :: k in todo ==> c <= k
    ensures AllBelow(ids - (todo - {c}), todo - {c})
  {
    forall j, k | j in ids - (todo - {c}) && k in todo - {c}
      ensures j < k
    {
      if j != c {
        assert j in ids - todo;
      }
    }
  }

  /** Numbering ids in ascending order: the lowest id still to number takes
      the next rank, which is the count of ids numbered so far. */
  lemma NumberLowest(ids: set<NodeId>, todo: set<NodeId>, slots: map<NodeId, nat>, c: NodeId)
    requires todo <= ids && c in todo && AllBelow(ids - todo, todo)
    requires forall k :: k in todo ==> c <= k
    requires slots.Keys == ids - todo && RankedSlots(ids, slots)
    ensures slots[c := |slots|].Keys == ids - (todo - {c})
    ensures RankedSlots(ids, slots[c := |slots|])
  {
    RankOfLowest(ids, todo, c);
    assert ids - (todo - {c}) == (ids - todo) + {c};
  }

  /** The slot of every id: its rank in ascending order, as the ids are
      numbered one after the other. */
  method NumberClients(ids: set<NodeId>) returns (slots: map<NodeId, nat>)
    ensures slots.Keys == ids
    ensures forall c :: c in ids ==> slots[c] == Rank(ids, c)
  {
    slots := map[];
    var todo := ids;
    while todo != {}
      invariant todo <= ids && AllBelow(ids - todo, todo)
      invariant slots.Keys == ids - todo && RankedSlots(ids, slots)
      decreases |todo|
    {
      var c: NodeId := Lowest(todo);
      NumberLowest(ids, todo, slots, c);
      LowestKeepsOrder(ids, todo, c);
      slots := slots[c := |slots|];
      todo := todo - {c};
    }
  }

  /** Loads the saved replies of one client, batch slot by batch slot, into
      its reply and request records. */
  method LoadSavedReplies(b0: RepliesBiMap, rq0: Requests, slots: seq<Option<ReqId>>, bound: uint16)
    returns (b: RepliesBiMap, rq: Requests)
    requires Consistent(b0) && |slots| <= bound
    ensures b == LoadReplies(b0, slots, bound)
    ensures rq == LoadRequests(rq0, slots)
  {
    b, rq := b0, rq0;
    var i := 0;
    while i < |slots|
      invariant 0 <= i <= |slots| && Consistent(b)
      invariant b == LoadReplies(b0, slots[..i], bound)
      invariant rq == LoadRequests(rq0, slots[..i])
    {
      LoadOneMoreReply(b0, slots, i, bound);
      LoadOneMoreRequest(rq0, slots, i);
      if slots[i].Some? {
        b := AllocateSlot(b, slots[i].value, i, bound);
        rq := RemoveOldPending(rq, slots[i].value);
      }
      i := i + 1;
    }
    assert slots[..i] == slots;
  }

  /** Empties the request records of every client, one client after the
      other. */
  method ClearRecords(requests: map<NodeId, Requests>) returns (cleared: map<NodeId, Requests>)
    ensures cleared.Keys == requests.Keys && forall c :: c in cleared ==> cleared[c] == map[]
  {
    cleared := requests;
    var todo := requests.Keys;
    while todo != {}
      invariant todo <= requests.Keys && cleared.Keys == requests.Keys
      invariant forall c :: c in requests.Keys - todo ==> cleared[c] == map[]
      decreases |todo|
    {
      var c: NodeId := Lowest(todo);
      cleared := cleared[c := map[]];
      todo := todo - {c};
    }
  }

  /** The public keys found on the clients' key pages; slotOf gives each
      client's slot in the reserved-page region. */
  method ReadKeyPages(slotOf: map<NodeId, nat>, pages: Pages, perClient: uint32)
    returns (keys: map<NodeId, PublicKey>)
    ensures forall c :: c in keys <==>
              c in slotOf && KeyPageId(slotOf[c], perClient) in pages
              && pages[KeyPageId(slotOf[c], perClient)].KeyPage?
    ensures forall c :: c in keys ==> keys[c] == pages[KeyPageId(slotOf[c], perClient)].pubKey
  {
    keys := map[];
    var todo := slotOf.Keys;
    while todo != {}
      invariant todo <= slotOf.Keys
      invariant forall c :: c in keys <==>
                  c in slotOf.Keys - todo && KeyPageId(slotOf[c], perClient) in pages
                  && pages[KeyPageId(slotOf[c], perClient)].KeyPage?
      invariant forall c :: c in keys ==> keys[c] == pages[KeyPageId(slotOf[c], perClient)].pubKey
      decreases |todo|
    {
      var c: NodeId := Lowest(todo);
      var keyPage := KeyPageId(slotOf[c], perClient);
      if keyPage in pages && pages[keyPage].KeyPage? {
        keys := keys[c := pages[keyPage].pubKey];
      }
      todo := todo - {c};
    }
  }

  /** The clients outside todo have their saved replies loaded into lr and
      lq. */
  ghost predicate LoadedExcept(saved: map<NodeId, seq<Option<ReqId>>>, bound: uint16,
                               replies: map<NodeId, RepliesBiMap>, requests: map<NodeId, Requests>,
                               lr: map<NodeId, RepliesBiMap>, lq: map<NodeId, Requests>, todo: set<NodeId>)
  {
    lr.Keys == saved.Keys && lq.Keys == saved.Keys
    && forall c :: c in saved && c !in todo && c in replies && c in requests
                   && |saved[c]| <= bound && Consistent(replies[c]) ==>
         lr[c] == LoadReplies(replies[c], saved[c], bound) && lq[c] == LoadRequests(requests[c], saved[c])
  }

  /** Loading one more client keeps LoadedExcept. */
  lemma LoadedExceptStep(saved: map<NodeId, seq<Option<ReqId>>>, bound: uint16,
                         replies: map<NodeId, RepliesBiMap>, requests: map<NodeId, Requests>,
                         lr: map<NodeId, RepliesBiMap>, lq: map<NodeId, Requests>, todo: set<NodeId>, c: NodeId)
    requires LoadedExcept(saved, bound, replies, requests, lr, lq, todo)
    requires c in saved && c in replies && c in requests && |saved[c]| <= bound && Consistent(replies[c])
    ensures LoadedExcept(saved, bound, replies, requests,
                         lr[c := LoadReplies(replies[c], saved[c], bound)],
                         lq[c := LoadRequests(requests[c], saved[c])], todo - {c})
  {
  }

  /** Every client of m holds at most bound reply records. */
  ghost predicate Bounded(m: map<NodeId, RepliesBiMap>, bound: nat) {
    forall c :: c in m ==> Size(m[c]) <= bound
  }

  /** Loading every client's saved replies keeps each client within a bound
      of at least one. */
  lemma LoadedWithinBound(saved: map<NodeId, seq<Option<ReqId>>>, bound: uint16,
                          replies: map<NodeId, RepliesBiMap>, loaded: map<NodeId, RepliesBiMap>)
    requires replies.Keys == saved.Keys && loaded.Keys == saved.Keys
    requires forall c :: c in saved ==>
               |saved[c]| <= bound && Consistent(replies[c]) && loaded[c] == LoadReplies(replies[c], saved[c], bound)
    ensures forall c :: c in loaded ==> Consistent(loaded[c])
    ensures bound >= 1 && Bounded(replies, bound) ==> Bounded(loaded, bound)
  {
    if bound >= 1 && Bounded(replies, bound) {
      forall c | c in loaded
        ensures Size(loaded[c]) <= bound
      {
        LoadKeepsBound(replies[c], saved[c], bound);
      }
    }
  }

  /** Loads the saved replies of every client, one client after the other;
      saved gives the batch slots read from each client's reply pages. */
  method LoadAllClients(saved: map<NodeId, seq<Option<ReqId>>>, bound: uint16,
                        replies: map<NodeId, RepliesBiMap>, requests: map<NodeId, Requests>)
    returns (loadedReplies: map<NodeId, RepliesBiMap>, loadedRequests: map<NodeId, Requests>)
    requires replies.Keys == saved.Keys && requests.Keys == saved.Keys
    requires forall c :: c in saved ==> |saved[c]| <= bound && c in replies && Consistent(replies[c])
    ensures loadedReplies.Keys == saved.Keys && loadedRequests.Keys == saved.Keys
    ensures forall c :: c in saved ==>
              loadedReplies[c] == LoadReplies(replies[c], saved[c], bound)
              && loadedRequests[c] == LoadRequests(requests[c], saved[c])
  {
    loadedReplies, loadedRequests := replies, requests;
    var todo := saved.Keys;
    while todo != {}
      invariant todo <= saved.Keys
      invariant LoadedExcept(saved, bound, replies, requests, loadedReplies, loadedRequests, todo)
      decreases |todo|
    {
      var c: NodeId := Lowest(todo);
      var b, rq := LoadSavedReplies(replies[c], requests[c], saved[c], bound);
      LoadedExceptStep(saved, bound, replies, requests, loadedReplies, loadedRequests, todo, c);
      loadedReplies, loadedRequests := loadedReplies[c := b], loadedRequests[c := rq];
      todo := todo - {c};
    }
  }

  /** Allocates the reply for s at batch slot idx in client c's reply
      records, leaving the other clients' records as they are. */
  method StoreReply(replies: map<NodeId, RepliesBiMap>, c: NodeId, s: ReqId, idx: uint16, bound: uint16)
    returns (r: map<NodeId, RepliesBiMap>)
    requires c in replies && forall d :: d in replies ==> Consistent(replies[d])
    ensures r == replies[c := AddReply(replies[c], s, idx, bound)]
    ensures forall d :: d in r ==> Consistent(r[d])
    ensures Holds(r[c], s, idx)
    ensures bound >= 1 && Bounded(replies, bound) ==> Bounded(r, bound)
  {
    var b := AllocateSlot(replies[c], s, idx, bound);
    r := replies[c := b];
  }

  /** A record map whose every client has no request records is the
      cleared map of those clients. */
  lemma EmptyEverywhere(m: map<NodeId, Requests>, ids: set<NodeId>)
    requires m.Keys == ids && forall c :: c in m ==> m[c] == map[]
    ensures m == map c | c in ids :: map[]
  {
  }

  class ClientsManager {
    const proxyClients: set<NodeId>
    const externalClients: set<NodeId>
    const clientServices: set<NodeId>
    const internalClients: set<NodeId>
    const clientIds: set<NodeId>
    /** The slot of each client in the reserved-page region. */
    const clientIdsToReservedPages: map<NodeId, nat>
    const maxReplySize: uint32
    /** The per-client bound: the client batch size, or 1 without batching. */
    const maxNumOfReqsPerClient: uint16
    /** The system-wide bound on the requests of one batch. */
    const maxNumOfRequestsInBatch: nat
    const reservedPagesPerRequest: uint32
    const reservedPagesPerClient: uint32

    var requests: map<NodeId, Requests>
    var replies: map<NodeId, RepliesBiMap>
    var pubKeys: map<NodeId, PublicKey>
    /** The reserved pages of this component, by page id. */
    var pages: Pages

    ghost predicate Valid()
      reads this
    {
      clientIds == proxyClients + externalClients + clientServices + internalClients
      && clientIdsToReservedPages.Keys == clientIds
      && requests.Keys == clientIds && replies.Keys == clientIds && pubKeys.Keys <= clientIds
      && forall c :: c in replies ==> Consistent(replies[c])
    }

    /** Each client's slot in the reserved-page region is its rank among the
        valid ids. */
    ghost predicate SlotsByRank() {
      forall c :: c in clientIdsToReservedPages ==> clientIdsToReservedPages[c] == Rank(clientIds, c)
    }

    /** The region is laid out as the constructor sets it up, has at least
        one page per reply and fits in the 32-bit page-id space. */
    ghost predicate LaidOut() {
      SlotsByRank()
      && reservedPagesPerClient == ReservedPagesPerClient(reservedPagesPerRequest, maxNumOfReqsPerClient)
      && reservedPagesPerRequest >= 1
      && LayoutFits(|clientIds|, reservedPagesPerRequest, maxNumOfReqsPerClient)
    }

    /** page lies inside client c's run, after its key page. */
    ghost predicate InRunOf(c: NodeId, page: nat)
      requires c in clientIdsToReservedPages
    {
      var key := KeyPageId(clientIdsToReservedPages[c], reservedPagesPerClient);
      key < page < key + reservedPagesPerClient
    }

    /** Every client holds at most the per-client bound of reply records. */
    ghost predicate RepliesBounded()
      reads this
    {
      Bounded(replies, maxNumOfReqsPerClient)
    }

    constructor (proxy: set<NodeId>, external: set<NodeId>, services: set<NodeId>, internal: set<NodeId>,
                 maxReplySize: uint32, sizeOfReservedPage: uint32, clientBatchingEnabled: bool,
                 clientBatchingMaxMsgsNbr: uint16, maxNumOfRequestsInBatch: nat, persisted: Pages)
      requires proxy != {} || external != {} || internal != {}
      requires sizeOfReservedPage > 0
      ensures Valid() && RepliesBounded() && SlotsByRank()
      ensures clientIds == proxy + external + services + internal
      ensures internalClients == internal
      ensures this.maxReplySize == maxReplySize
      ensures maxNumOfReqsPerClient == if clientBatchingEnabled then clientBatchingMaxMsgsNbr else 1
      ensures this.maxNumOfRequestsInBatch == maxNumOfRequestsInBatch
      ensures reservedPagesPerRequest == ReservedPagesPerRequest(sizeOfReservedPage, maxReplySize)
      ensures reservedPagesPerClient == ReservedPagesPerClient(reservedPagesPerRequest, maxNumOfReqsPerClient)
      ensures requests == (map c | c in clientIds :: map[])
      ensures replies == (map c | c in clientIds :: Empty)
      ensures pubKeys == map[] && pages == persisted
    {
      var ids := proxy + external + services + internal;
      var bound: uint16 := if clientBatchingEnabled then clientBatchingMaxMsgsNbr else 1;
      var perRequest := ReservedPagesPerRequest(sizeOfReservedPage, maxReplySize);
      var slots := NumberClients(ids);
      proxyClients, externalClients, clientServices, internalClients := proxy, external, services, internal;
      clientIds := ids;
      clientIdsToReservedPages := slots;
      this.maxReplySize := maxReplySize;
      maxNumOfReqsPerClient := bound;
      this.maxNumOfRequestsInBatch := maxNumOfRequestsInBatch;
      reservedPagesPerRequest := perRequest;
      reservedPagesPerClient := ReservedPagesPerClient(perRequest, bound);
      requests := map c | c in ids :: map[];
      replies := map c | c in ids :: Empty;
      pubKeys := map[];
      pages := persisted;
    }

    /** numberOfRequiredReservedPages. */
    function NumberOfRequiredReservedPages(): (r: uint32)
      ensures |clientIds| * reservedPagesPerClient < U32 ==> r == |clientIds| * reservedPagesPerClient
    {
      PageLayout.NumberOfRequiredReservedPages(|clientIds|, reservedPagesPerClient)
    }

    /** getKeyPageId: the first page of the client's run. */
    function GetKeyPageId(c: NodeId): (r: uint32)
      requires c in clientIdsToReservedPages
      ensures SlotsByRank() && Rank(clientIds, c) * reservedPagesPerClient < U32 ==>
                r == Rank(clientIds, c) * reservedPagesPerClient
    {
      KeyPageId(clientIdsToReservedPages[c], reservedPagesPerClient)
    }

    /** getReplyFirstPageId: the page after the key page. */
    function GetReplyFirstPageId(c: NodeId): (r: uint32)
      requires c in clientIdsToReservedPages
      ensures SlotsByRank() && Rank(clientIds, c) * reservedPagesPerClient + 1 < U32 ==> r == GetKeyPageId(c) + 1
    {
      ReplyFirstPageId(clientIdsToReservedPages[c], reservedPagesPerClient)
    }

    /** The first page of batch slot idx of client c. */
    function ReplyPageOf(c: NodeId, idx: nat): uint32
      requires c in clientIdsToReservedPages
    {
      ReplyPageId(clientIdsToReservedPages[c], reservedPagesPerClient, reservedPagesPerRequest, idx)
    }

    /** What the reply pages of client c hold. */
    function SavedSeqsOf(c: NodeId): seq<Option<ReqId>>
      requires c in clientIdsToReservedPages
      reads this`pages
    {
      SavedSeqs(pages, clientIdsToReservedPages[c], reservedPagesPerClient, reservedPagesPerRequest,
                maxNumOfReqsPerClient)
    }

    /** isValidClient: c is in one of the four client categories. */
    function IsValidClient(c: NodeId): (r: bool)
      requires Valid()
      reads this
      ensures r <==> c in proxyClients || c in externalClients || c in clientServices || c in internalClients
    {
      c in clientIds
    }

    /** isInternal: internal clients are valid clients. */
    function IsInternal(c: NodeId): (r: bool)
      requires Valid()
      reads this
      ensures r ==> IsValidClient(c)
      ensures r <==> c in internalClients
    {
      c in internalClients
    }

    /** hasReply: a valid client with a reply record for s. */
    function HasReply(c: NodeId, s: ReqId): (r: bool)
      requires Valid()
      reads this
      ensures r <==> IsValidClient(c) && s in replies[c].bySeq
    {
      c in clientIds && s in replies[c].bySeq
    }

    /** isClientRequestInProcess: a valid client with a request record for s,
        committed or not. */
    function IsClientRequestInProcess(c: NodeId, s: ReqId): (r: bool)
      requires Valid()
      reads this
      ensures r <==> IsValidClient(c) && s in requests[c]
    {
      c in clientIds && s in requests[c]
    }

    /** isPending: a request in process that is not committed. */
    function IsPending(c: NodeId, s: ReqId): (r: bool)
      requires Valid()
      reads this
      ensures r ==> IsClientRequestInProcess(c, s)
      ensures r <==> IsValidClient(c) && s in requests[c] && !requests[c][s].committed
    {
      c in clientIds && RequestLedger.IsPending(requests[c], s)
    }

    /** canBecomePending: a valid client whose request count is not exactly
        the per-client bound and that has neither a request nor a reply for s. */
    function CanBecomePending(c: NodeId, s: ReqId): (r: bool)
      requires Valid()
      reads this
      ensures r ==> !IsClientRequestInProcess(c, s) && !HasReply(c, s)
      ensures r <==> IsValidClient(c) && |requests[c]| != maxNumOfReqsPerClient
                     && s !in requests[c] && s !in replies[c].bySeq
    {
      c in clientIds && |requests[c]| != maxNumOfReqsPerClient
      && s !in requests[c] && s !in replies[c].bySeq
    }

    /** addPendingRequest, with the current time as a parameter. */
    method AddPendingRequest(c: NodeId, s: ReqId, cid: string, now: Time)
      requires Valid() && IsValidClient(c)
      modifies this
      ensures Valid()
      ensures requests == old(requests)[c := Emplace(old(requests[c]), s, now, cid)]
      ensures replies == old(replies) && pubKeys == old(pubKeys) && pages == old(pages)
      ensures IsClientRequestInProcess(c, s)
      ensures old(CanBecomePending(c, s)) && old(|requests[c]|) <= maxNumOfReqsPerClient ==>
                |requests[c]| <= maxNumOfReqsPerClient
    {
      requests := requests[c := Emplace(requests[c], s, now, cid)];
    }

    /** markRequestAsCommitted. */
    method MarkRequestAsCommitted(c: NodeId, s: ReqId)
      requires Valid() && IsValidClient(c)
      modifies this
      ensures Valid()
      ensures requests == old(requests)[c := MarkCommitted(old(requests[c]), s)]
      ensures replies == old(replies) && pubKeys == old(pubKeys) && pages == old(pages)
      ensures IsClientRequestInProcess(c, s) == old(IsClientRequestInProcess(c, s))
      ensures !IsPending(c, s)
    {
      requests := requests[c := MarkCommitted(requests[c], s)];
    }

    /** removeRequestsOutOfBatchBounds: evicts the newest record when the
        client's count is exactly the batch bound, s has no record and the
        newest record is newer than s. */
    method RemoveRequestsOutOfBatchBounds(c: NodeId, s: ReqId)
      requires Valid() && IsValidClient(c)
      modifies this
      ensures Valid()
      ensures requests == old(requests)[c := RemoveOutOfBatchBounds(old(requests[c]), s, maxNumOfRequestsInBatch)]
      ensures replies == old(replies) && pubKeys == old(pubKeys) && pages == old(pages)
    {
      var m := requests[c];
      if |m| == maxNumOfRequestsInBatch && s !in m && m != map[] {
        var top: ReqId := Highest(m.Keys);
        assert top == MaxOf(m.Keys);
        if top > s {
          requests := requests[c := m - {top}];
        }
      }
    }

    /** removePendingForExecutionRequest: removes the record for s if c is a
        valid client and has one; does nothing otherwise. */
    method RemovePendingForExecutionRequest(c: NodeId, s: ReqId)
      requires Valid()
      modifies this
      ensures Valid()
      ensures requests == if c in clientIds then old(requests)[c := Remove(old(requests[c]), s)] else old(requests)
      ensures replies == old(replies) && pubKeys == old(pubKeys) && pages == old(pages)
      ensures !IsClientRequestInProcess(c, s)
    {
      if c in clientIds {
        requests := requests[c := Remove(requests[c], s)];
      }
    }

    /** clearAllPendingRequests. */
    method ClearAllPendingRequests()
      requires Valid()
      modifies this
      ensures Valid()
      ensures requests == (map c | c in clientIds :: map[])
      ensures replies == old(replies) && pubKeys == old(pubKeys) && pages == old(pages)
    {
      var cleared := ClearRecords(requests);
      EmptyEverywhere(cleared, clientIds);
      requests := cleared;
    }

    /** infoOfEarliestPendingRequest: the earliest time over all uncommitted
        records with that record's cid, or MaxTime and an empty cid. */
    method InfoOfEarliestPendingRequest() returns (t: Time, cid: string)
      requires Valid()
      ensures forall c :: c in requests ==> NoEarlierPending(requests[c], t)
      ensures t == MaxTime ==> cid == ""
      ensures t < MaxTime ==>
                exists c, k :: c in requests && FirstAt(requests[c], k, t) && requests[c][k].cid == cid
    {
      t := MaxTime;
      var info := DefaultRequestInfo;
      var todo := requests.Keys;
      while todo != {}
        invariant todo <= requests.Keys
        invariant forall c :: c in requests.Keys - todo ==> NoEarlierPending(requests[c], t)
        invariant t == MaxTime ==> info == DefaultRequestInfo
        invariant t < MaxTime ==>
                    exists c, k :: c in requests && FirstAt(requests[c], k, t) && requests[c][k] == info
        decreases |todo|
      {
        var c :| c in todo;
        ghost var before := t;
        t, info := EarliestPendingIn(requests[c], t, info);
        forall d | d in requests.Keys - (todo - {c})
          ensures NoEarlierPending(requests[d], t)
        {
          if d != c {
            assert NoEarlierPending(requests[d], before);
          }
        }
        todo := todo - {c};
      }
      cid := info.cid;
    }

    /** deleteReplyIfNeeded: removes the reply at batch slot idx, if any. */
    method DeleteReplyIfNeeded(c: NodeId, idx: uint16, newReqSeqNum: ReqId)
      requires Valid() && IsValidClient(c)
      modifies this
      ensures Valid()
      ensures replies == old(replies)[c := EraseByIndex(old(replies[c]), idx)]
      ensures requests == old(requests) && pubKeys == old(pubKeys) && pages == old(pages)
      ensures old(RepliesBounded()) ==> RepliesBounded()
    {
      replies := replies[c := EraseByIndex(replies[c], idx)];
    }

    /** setClientPublicKey: keeps the key in memory and on the client's key
        page. */
    method SetClientPublicKey(c: NodeId, key: string, format: KeyFormat)
      requires Valid() && IsValidClient(c)
      modifies this
      ensures Valid()
      ensures pubKeys == old(pubKeys)[c := PublicKey(key, format)]
      ensures pages == old(pages)[GetKeyPageId(c) := KeyPage(PublicKey(key, format))]
      ensures requests == old(requests) && replies == old(replies)
    {
      pubKeys := pubKeys[c := PublicKey(key, format)];
      pages := pages[GetKeyPageId(c) := KeyPage(PublicKey(key, format))];
    }

    /** The batch slot whose page holds the saved reply for s: the slot of its
        reply record, or slot 0 without one. */
    function SavedIndex(c: NodeId, s: ReqId): uint16
      requires Valid() && c in clientIds
      reads this
    {
      if s in replies[c].bySeq then replies[c].bySeq[s] else 0
    }

    /** allocateNewReplyMsgAndWriteToStorage. */
    method AllocateNewReplyMsgAndWriteToStorage(c: NodeId, s: ReqId, currentPrimaryId: uint16, reply: seq<byte>,
                                                reqIndexInBatch: uint16, rsiLength: uint32, executionResult: uint32)
      returns (msg: ClientReplyMsg)
      requires Valid() && IsValidClient(c) && reqIndexInBatch < maxNumOfReqsPerClient
      requires Size(replies[c]) <= maxNumOfReqsPerClient + 1
      requires |reply| <= maxReplySize
      modifies this
      ensures Valid()
      ensures msg == ClientReplyMsg(c, s, currentPrimaryId, reply, rsiLength, executionResult)
      ensures replies == old(replies)[c := AddReply(old(replies[c]), s, reqIndexInBatch, maxNumOfReqsPerClient)]
      ensures pages == old(pages)[ReplyPageOf(c, reqIndexInBatch) := ReplyPage(msg)]
      ensures requests == old(requests) && pubKeys == old(pubKeys)
      ensures HasReply(c, s) && SavedIndex(c, s) == reqIndexInBatch
      ensures old(RepliesBounded()) && maxNumOfReqsPerClient >= 1 ==> RepliesBounded()
      ensures LaidOut() ==> InRunOf(c, ReplyPageOf(c, reqIndexInBatch))
    {
      // The contracts of StoreReply and of the lemma carry all this method
      // needs about these functions.
      hide AddReply, Consistent, Size, ReplyPageOf, InRunOf, LaidOut;
      if LaidOut() {
        ReplyPageInOwnRun(c, reqIndexInBatch);
      }
      var stored := StoreReply(replies, c, s, reqIndexInBatch, maxNumOfReqsPerClient);
      msg := ClientReplyMsg(c, s, currentPrimaryId, reply, rsiLength, executionResult);
      pages := pages[ReplyPageOf(c, reqIndexInBatch) := ReplyPage(msg)];
      replies := stored;
    }

    /** allocateReplyFromSavedOne: the reply saved at the batch slot of s, with
        the current primary; nothing when it is the reply to another request,
        which can only happen with a per-client bound above 1. */
    method AllocateReplyFromSavedOne(c: NodeId, s: ReqId, currentPrimaryId: uint16) returns (r: Option<ClientReplyMsg>)
      requires Valid() && IsValidClient(c)
      requires ReplyPageOf(c, SavedIndex(c, s)) in pages && pages[ReplyPageOf(c, SavedIndex(c, s))].ReplyPage?
      requires maxNumOfReqsPerClient <= 1 ==> pages[ReplyPageOf(c, SavedIndex(c, s))].msg.reqSeqNum == s
      ensures var saved := pages[ReplyPageOf(c, SavedIndex(c, s))].msg;
              (r == None <==> saved.reqSeqNum != s)
              && (r != None ==> r.value == saved.(currentPrimaryId := currentPrimaryId))
    {
      var saved := pages[ReplyPageOf(c, SavedIndex(c, s))].msg;
      if saved.reqSeqNum != s {
        return None;
      }
      r := Some(saved.(currentPrimaryId := currentPrimaryId));
    }

    /** With the region laid out, the page of batch slot idx of client c lies
        inside c's run, after its key page. */
    lemma ReplyPageInOwnRun(c: NodeId, idx: uint16)
      requires Valid() && LaidOut() && c in clientIds && idx < maxNumOfReqsPerClient
      ensures InRunOf(c, ReplyPageOf(c, idx))
    {
      RankBelowCount(clientIds, c);
      ReplyPageInRun(|clientIds|, reservedPagesPerRequest, maxNumOfReqsPerClient, Rank(clientIds, c), idx);
    }

    /** loadInfoFromReservedPages: returns the public keys found on the key
        pages (for the key exchange) and loads every saved reply. */
    method LoadInfoFromReservedPages() returns (loadedKeys: map<NodeId, PublicKey>)
      requires Valid()
      modifies this
      ensures Valid()
      ensures forall c :: c in loadedKeys <==>
                c in clientIds && GetKeyPageId(c) in pages && pages[GetKeyPageId(c)].KeyPage?
      ensures forall c :: c in loadedKeys ==> loadedKeys[c] == pages[GetKeyPageId(c)].pubKey
      ensures forall c :: c in clientIds ==>
                replies[c] == LoadReplies(old(replies[c]), SavedSeqsOf(c), maxNumOfReqsPerClient)
                && requests[c] == LoadRequests(old(requests[c]), SavedSeqsOf(c))
      ensures pages == old(pages) && pubKeys == old(pubKeys)
      ensures old(RepliesBounded()) && maxNumOfReqsPerClient >= 1 ==> RepliesBounded()
    {
      loadedKeys := ReadKeyPages(clientIdsToReservedPages, pages, reservedPagesPerClient);
      var saved := map c | c in clientIds :: SavedSeqsOf(c);
      var loadedReplies, loadedRequests := LoadAllClients(saved, maxNumOfReqsPerClient, replies, requests);
      LoadedWithinBound(saved, maxNumOfReqsPerClient, replies, loadedReplies);
      replies, requests := loadedReplies, loadedRequests;
    }
  }

  /** Restart round trip: a reply that one manager allocates is found by a
      manager constructed over the same reserved pages once that manager has
      loaded them. */
  method RestartKeepsReply(proxy: set<NodeId>, external: set<NodeId>, services: set<NodeId>, internal: set<NodeId>,
                           maxReplySize: uint32, sizeOfReservedPage: uint32, clientBatchingEnabled: bool,
                           clientBatchingMaxMsgsNbr: uint16, maxNumOfRequestsInBatch: nat, persisted: Pages,
                           c: NodeId, s: ReqId, currentPrimaryId: uint16, reply: seq<byte>, reqIndexInBatch: uint16,
                           rsiLength: uint32, executionResult: uint32)
    returns (found: bool)
    requires proxy != {} || external != {} || internal != {}
    requires sizeOfReservedPage > 0
    requires c in proxy + external + services + internal
    requires |reply| <= maxReplySize
    requires reqIndexInBatch < if clientBatchingEnabled then clientBatchingMaxMsgsNbr else 1
    ensures found
  {
    // The callees' contracts carry all this method needs about these.
    hide ClientsManager.Valid, ClientsManager.RepliesBounded, ClientsManager.LaidOut, ClientsManager.InRunOf,
         AddReply, LoadReplies, LoadRequests, Consistent, Holds;
    var before := new ClientsManager(proxy, external, services, internal, maxReplySize, sizeOfReservedPage,
                                     clientBatchingEnabled, clientBatchingMaxMsgsNbr, maxNumOfRequestsInBatch,
                                     persisted);
    var msg := before.AllocateNewReplyMsgAndWriteToStorage(c, s, currentPrimaryId, reply, reqIndexInBatch,
                                                           rsiLength, executionResult);
    var after := new ClientsManager(proxy, external, services, internal, maxReplySize, sizeOfReservedPage,
                                    clientBatchingEnabled, clientBatchingMaxMsgsNbr, maxNumOfRequestsInBatch,
                                    before.pages);
    var keys := after.LoadInfoFromReservedPages();
    RestartFindsSavedReply(before.pages, Rank(after.clientIds, c), after.reservedPagesPerClient,
                           after.reservedPagesPerRequest, after.maxNumOfReqsPerClient, reqIndexInBatch, msg);
    found := after.HasReply(c, s);
  }
}
