/** The reserved-page region of the clients manager.  Every valid client owns a
    run of reservedPagesPerClient consecutive pages, placed by the client's rank
    among the valid ids: the first page of the run holds the client's public
    key, and batch slot i owns the reservedPagesPerRequest pages that start at
    offset 1 + i * reservedPagesPerRequest.  Page ids are 32-bit unsigned
    values, so the arithmetic wraps modulo 2^32. */
module PageLayout {
  import opened Common

  type NodeId = uint16

  /** The number of valid ids below c: the slot of c in the region, as ids are
      numbered in ascending order. */
  function Rank(ids: set<NodeId>, c: NodeId): nat {
    |set x | x in ids && x < c|
  }

  lemma RankBelowCount(ids: set<NodeId>, c: NodeId)
    requires c in ids
    ensures Rank(ids, c) < |ids|
  {
    StrictSubsetCardinality((set x | x in ids && x < c), ids, c);
  }

  /** Distinct valid ids have distinct slots, in the order of the ids. */
  lemma RankStrictlyMonotone(ids: set<NodeId>, c1: NodeId, c2: NodeId)
    requires c1 in ids && c2 in ids && c1 < c2
    ensures Rank(ids, c1) < Rank(ids, c2)
  {
    StrictSubsetCardinality((set x | x in ids && x < c1), (set x | x in ids && x < c2), c1);
  }

  /** The number of pages that hold a reply of at most maxReplySize bytes. */
  function ReservedPagesPerRequest(sizeOfReservedPage: uint32, maxReplySize: uint32): (r: uint32)
    requires sizeOfReservedPage > 0
    ensures maxReplySize <= r * sizeOfReservedPage
    ensures r == 0 || (r - 1) * sizeOfReservedPage < maxReplySize
  {
    var q := maxReplySize / sizeOfReservedPage;
    if maxReplySize % sizeOfReservedPage != 0 then q + 1 else q
  }

  /** One key page plus the reply pages of every batch slot, in uint32. */
  function ReservedPagesPerClient(pagesPerRequest: uint32, maxNumReqPerClient: uint16): (r: uint32)
    ensures maxNumReqPerClient * pagesPerRequest + 1 < U32 ==>
              r == maxNumReqPerClient * pagesPerRequest + 1
  {
    (maxNumReqPerClient * pagesPerRequest + 1) % U32
  }

  /** A count of clients times the pages per client, as a uint32 product. */
  function ClientPages(clients: nat, pagesPerClient: uint32): (r: uint32)
    ensures clients * pagesPerClient < U32 ==> r == clients * pagesPerClient
  {
    (clients * pagesPerClient) % U32
  }

  /** numberOfRequiredReservedPages: the size of the whole region. */
  function NumberOfRequiredReservedPages(numClients: nat, pagesPerClient: uint32): uint32 {
    ClientPages(numClients, pagesPerClient)
  }

  /** getKeyPageId: the first page of the client's run, which starts after
      the runs of the clients at lower slots. */
  function KeyPageId(slot: nat, pagesPerClient: uint32): uint32 {
    ClientPages(slot, pagesPerClient)
  }

  /** getReplyFirstPageId: the page after the key page. */
  function ReplyFirstPageId(slot: nat, pagesPerClient: uint32): (r: uint32)
    ensures slot * pagesPerClient + 1 < U32 ==> r == KeyPageId(slot, pagesPerClient) + 1
  {
    (KeyPageId(slot, pagesPerClient) + 1) % U32
  }

  /** The first page of batch slot index. */
  function ReplyPageId(slot: nat, pagesPerClient: uint32, pagesPerRequest: uint32, index: nat): (r: uint32)
  {
    (ReplyFirstPageId(slot, pagesPerClient) + index * pagesPerRequest) % U32
  }

  /** The region fits in the 32-bit page-id space and every client run holds
      the key page and maxReqs reply runs. */
  ghost predicate LayoutFits(numClients: nat, pagesPerRequest: uint32, maxReqs: uint16) {
    numClients * (1 + maxReqs * pagesPerRequest) < U32
  }

  /** Where the page of batch slot `index` of the client at `slot` lies: after
      its key page and inside its own run. */
  lemma {:induction false} ReplyPageInRun(numClients: nat, pagesPerRequest: uint32, maxReqs: uint16,
                                          slot: nat, index: nat)
    requires LayoutFits(numClients, pagesPerRequest, maxReqs) && pagesPerRequest >= 1
    requires slot < numClients && index < maxReqs
    ensures var perClient := ReservedPagesPerClient(pagesPerRequest, maxReqs);
            var key := KeyPageId(slot, perClient);
            var page := ReplyPageId(slot, perClient, pagesPerRequest, index);
            key == slot * perClient
            && page == key + 1 + index * pagesPerRequest
            && key < page < key + perClient
            && key + perClient <= NumberOfRequiredReservedPages(numClients, perClient)
  {
    // The contracts of the page-id functions carry what this proof needs.
    hide ClientPages, ReservedPagesPerClient, ReplyFirstPageId;
    var perClient := 1 + maxReqs * pagesPerRequest;
    RunBounds(numClients, pagesPerRequest, maxReqs, slot, index);
    assert ReservedPagesPerClient(pagesPerRequest, maxReqs) == perClient;
    assert ReplyFirstPageId(slot, perClient) == slot * perClient + 1;
  }

  /** The arithmetic of ReplyPageInRun: a run ends inside the region, and
      a batch slot's pages end inside its run. */
  lemma RunBounds(numClients: nat, pagesPerRequest: uint32, maxReqs: uint16, slot: nat, index: nat)
    requires LayoutFits(numClients, pagesPerRequest, maxReqs) && pagesPerRequest >= 1
    requires slot < numClients && index < maxReqs
    ensures var perClient := 1 + maxReqs * pagesPerRequest;
            slot * perClient + perClient <= numClients * perClient < U32
            && index * pagesPerRequest + 1 < perClient
  {
    MulBelow(slot, numClients, 1 + maxReqs * pagesPerRequest);
    MulBelow(index, maxReqs, pagesPerRequest);
  }

  /** a * c + c <= b * c whenever a < b. */
  lemma MulBelow(a: nat, b: nat, c: nat)
    requires a < b
    ensures a * c + c <= b * c
  {
    MulMonotone(a + 1, b, c);
    MulSucc(a, c);
  }

  lemma MulSucc(a: nat, c: nat)
    ensures (a + 1) * c == a * c + c
  {
  }

  lemma MulMonotone(a: nat, b: nat, c: nat)
    requires a <= b
    ensures a * c <= b * c
  {
  }

  /** No two (client, batch slot) pairs share a reply page, and no reply page
      is a key page, as long as each reply takes at least one page. */
  lemma {:induction false} ReplyPagesDisjoint(numClients: nat, pagesPerRequest: uint32, maxReqs: uint16,
                                              slot1: nat, index1: nat, slot2: nat, index2: nat)
    requires LayoutFits(numClients, pagesPerRequest, maxReqs) && pagesPerRequest >= 1
    requires slot1 < numClients && index1 < maxReqs && slot2 < numClients && index2 < maxReqs
    ensures var perClient := ReservedPagesPerClient(pagesPerRequest, maxReqs);
            (ReplyPageId(slot1, perClient, pagesPerRequest, index1)
               == ReplyPageId(slot2, perClient, pagesPerRequest, index2)
             <==> slot1 == slot2 && index1 == index2)
            && ReplyPageId(slot1, perClient, pagesPerRequest, index1) != KeyPageId(slot2, perClient)
  {
    var perClient := ReservedPagesPerClient(pagesPerRequest, maxReqs);
    ReplyPageInRun(numClients, pagesPerRequest, maxReqs, slot1, index1);
    ReplyPageInRun(numClients, pagesPerRequest, maxReqs, slot2, index2);
    var key1, key2 := KeyPageId(slot1, perClient), KeyPageId(slot2, perClient);
    var page1 := ReplyPageId(slot1, perClient, pagesPerRequest, index1);
    var page2 := ReplyPageId(slot2, perClient, pagesPerRequest, index2);
    if slot1 < slot2 {
      MulBelow(slot1, slot2, perClient);
      assert page1 < key1 + perClient <= key2 < page2;
    } else if slot2 < slot1 {
      MulBelow(slot2, slot1, perClient);
      assert page2 < key2 + perClient <= key1 < page1;
    } else if index1 < index2 {
      MulBelow(index1, index2, pagesPerRequest);
      assert page1 < page2;
    } else if index2 < index1 {
      MulBelow(index2, index1, pagesPerRequest);
      assert page2 < page1;
    }
  }
}
