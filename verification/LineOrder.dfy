/** The replacement order of the lines, against the history of what befell them (src/index/cacheline_index.cpp and
    src/include/cache_policy.h as src/cd_cache.cpp uses them). */
module LineOrders {
  import opened Cachelines
  import opened CachePolicies
  import opened FlushSteps
  import opened StoreRuns

  /** A line is added by a flush, used by a hit or by a block that refers to it, and goes when evicted. */
  datatype Event = Added(id: Id) | Used(id: Id) | Gone(id: Id)

  function Order(events: seq<Event>): seq<Id> {
    if events == [] then []
    else
      var keys := Order(events[..|events| - 1]);
      match events[|events| - 1]
      case Added(id) => Inserted(keys, id)
      case Used(id) => Promoted(keys, id)
      case Gone(id) => Without(keys, id)
  }

  /** Where a line stands: by the time of its last use, counting from one; before its first use, by minus the time it
      was added. Zero if it is not there. */
  function Rank(events: seq<Event>, id: Id): (r: int)
    ensures -|events| <= r <= |events|
    ensures r < 0 ==> events[-r - 1] == Added(id)
    ensures r > 0 ==> events[r - 1] == Used(id)
  {
    if events == [] then 0
    else
      var before := Rank(events[..|events| - 1], id);
      match events[|events| - 1]
      case Added(u) => if u == id && before == 0 then -|events| else before
      case Used(u) => if u == id && before != 0 then |events| else before
      case Gone(u) => if u == id then 0 else before
  }

  ghost predicate Descending(events: seq<Event>, keys: seq<Id>) {
    forall i, j | 0 <= i < j < |keys| :: Rank(events, keys[i]) > Rank(events, keys[j])
  }

  lemma {:induction false} OneMoreEvent(events: seq<Event>, e: Event)
    ensures Order(events + [e]) ==
            match e
            case Added(id) => Inserted(Order(events), id)
            case Used(id) => Promoted(Order(events), id)
            case Gone(id) => Without(Order(events), id)
    ensures forall id: Id :: Rank(events + [e], id) ==
              if e.id != id then Rank(events, id)
              else
                match e
                case Added(_) => if Rank(events, id) == 0 then -(|events| + 1) else Rank(events, id)
                case Used(_) => if Rank(events, id) != 0 then |events| + 1 else 0
                case Gone(_) => 0
  {
    assert (events + [e])[..|events|] == events;
  }

  /** The order lists exactly the lines that are there: the used ones in front, the latest use first, and behind them
      the ones not used yet, in the order they came. */
  lemma {:induction false} OrderIsByRank(events: seq<Event>)
    ensures forall id: Id :: id in Order(events) <==> Rank(events, id) != 0
    ensures Descending(events, Order(events))
    decreases |events|
  {
    hide Order, Rank, Without, Descending;
    if events == [] {
      NoEvents();
    } else {
      var front, e := events[..|events| - 1], events[|events| - 1];
      assert events == front + [e];
      OrderIsByRank(front);
      OneMoreEvent(front, e);
      OrderStaysSorted(front, e);
    }
  }

  lemma {:induction false} NoEvents()
    ensures Order([]) == [] && Descending([], []) && forall id: Id :: Rank([], id) == 0
  {
  }

  lemma {:induction false} OrderStaysSorted(events: seq<Event>, e: Event)
    requires Descending(events, Order(events))
    requires forall id: Id :: id in Order(events) <==> Rank(events, id) != 0
    ensures Descending(events + [e], Order(events + [e]))
  {
    hide Order, Rank, Without, Descending, Inserted, Promoted;
    OneMoreEvent(events, e);
    var keys := Order(events);
    match e
    case Added(id) => BackStaysSorted(events, keys, id);
    case Used(id) => FrontStaysSorted(events, keys, id);
    case Gone(id) => RestStaysSorted(events, events + [e], keys, id);
  }

  lemma {:induction false} BackStaysSorted(events: seq<Event>, keys: seq<Id>, id: Id)
    requires Descending(events, keys) && forall u: Id :: u in keys <==> Rank(events, u) != 0
    ensures Descending(events + [Added(id)], Inserted(keys, id))
  {
    hide Rank;
    var events' := events + [Added(id)];
    OneMoreEvent(events, Added(id));
    assert forall u: Id | u in keys :: Rank(events', u) == Rank(events, u) >= -|events|;
    SameRanks(events, events', keys);
    if id !in keys {
      assert Rank(events', id) == -(|events| + 1);
      LastIsLeast(events', keys, id);
    }
  }

  lemma {:induction false} SameRanks(events: seq<Event>, events': seq<Event>, keys: seq<Id>)
    requires Descending(events, keys) && forall u: Id | u in keys :: Rank(events', u) == Rank(events, u)
    ensures Descending(events', keys)
  {
    hide Rank;
  }

  lemma {:induction false} LastIsLeast(events: seq<Event>, keys: seq<Id>, id: Id)
    requires Descending(events, keys) && forall u: Id | u in keys :: Rank(events, u) > Rank(events, id)
    ensures Descending(events, keys + [id])
  {
    hide Rank;
  }

  /** Taking a line out leaves the others in order, as long as their ranks are what they were. */
  lemma {:induction false} RestStaysSorted(events: seq<Event>, events': seq<Event>, keys: seq<Id>, id: Id)
    requires Descending(events, keys)
    requires forall u: Id | u != id :: Rank(events', u) == Rank(events, u)
    ensures Descending(events', Without(keys, id))
  {
    hide Rank, Without;
    var rest := Without(keys, id);
    forall i, j | 0 <= i < j < |rest| ensures Rank(events', rest[i]) > Rank(events', rest[j]) {
      assert rest[i] in rest && rest[j] in rest;
      var i', j' := PlacesBefore(keys, id, i, j);
    }
  }

  lemma {:induction false} FrontStaysSorted(events: seq<Event>, keys: seq<Id>, id: Id)
    requires Descending(events, keys) && forall u: Id :: u in keys <==> Rank(events, u) != 0
    ensures Descending(events + [Used(id)], Promoted(keys, id))
  {
    hide Rank, Without;
    var events', rest := events + [Used(id)], Without(keys, id);
    OneMoreEvent(events, Used(id));
    if id in keys {
      RestStaysSorted(events, events', keys, id);
      forall j | 0 <= j < |rest| ensures Rank(events', rest[j]) <= |events| {
        assert rest[j] in rest;
      }
    }
  }

  // ----- the youngest line -------------------------------------------------------------------

  /** Lines are added under ascending ids, `last` being the last. */
  ghost predicate InTurn(events: seq<Event>, last: Id) {
    && (forall k | 0 <= k < |events| && events[k].Added? :: events[k].id <= last)
    && (forall j, k | 0 <= j < k < |events| && events[j].Added? && events[k].Added? :: events[j].id < events[k].id)
  }

  lemma {:induction false} YoungestIsLeast(events: seq<Event>, last: Id, id: Id)
    requires InTurn(events, last) && Rank(events, last) < 0 && Rank(events, id) != 0 && id != last
    ensures Rank(events, id) > Rank(events, last)
  {
    hide Rank;
  }

  /** As long as the youngest line was not used it stands at the very end: the next one to go. */
  lemma {:induction false} YoungestIsLast(events: seq<Event>, last: Id)
    requires InTurn(events, last) && Rank(events, last) < 0
    ensures Order(events) != [] && Order(events)[|Order(events)| - 1] == last
  {
    hide Order, Rank, InTurn;
    OrderIsByRank(events);
    var keys := Order(events);
    var at :| 0 <= at < |keys| && keys[at] == last;
    var id := keys[|keys| - 1];
    if id != last {
      YoungestIsLeast(events, last, id);
    }
  }

  // ----- flushes -----------------------------------------------------------------------------

  function UsesOf(blocks: seq<DataBlock>): seq<Event> {
    if blocks == [] then []
    else
      var b := blocks[|blocks| - 1];
      UsesOf(blocks[..|blocks| - 1]) + if b.compDuplicated then [Used(b.external)] else []
  }

  /** What a flush does to the lines: the new one is added, and then those are used that its duplicates refer to. */
  function FlushEvents(id: Id, blocks: seq<DataBlock>): seq<Event> {
    [Added(id)] + UsesOf(blocks)
  }

  /** Nothing but evictions. */
  ghost predicate OnlyGone(events: seq<Event>) {
    forall k | 0 <= k < |events| :: events[k].Gone?
  }

  lemma {:induction false} AfterUses(events: seq<Event>, blocks: seq<DataBlock>, last: Id)
    ensures Order(events + UsesOf(blocks)) == PromotedAll(Order(events), blocks)
    ensures InTurn(events, last) ==> InTurn(events + UsesOf(blocks), last)
    ensures !UsesLine(blocks, last) ==> Rank(events + UsesOf(blocks), last) == Rank(events, last)
    decreases |blocks|
  {
    hide Order, Rank, Promoted, UsesLine;
    if blocks == [] {
      assert events + UsesOf(blocks) == events;
    } else {
      var front, b := blocks[..|blocks| - 1], blocks[|blocks| - 1];
      assert blocks == front + [b];
      AfterUses(events, front, last);
      UsesLineOneMore(front, b, last);
      var all := events + UsesOf(front);
      if b.compDuplicated {
        OneMoreEvent(all, Used(b.external));
        assert events + UsesOf(blocks) == all + [Used(b.external)];
      } else {
        assert events + UsesOf(blocks) == all;
      }
    }
  }

  /** The last use of a line in the batch is by block `i`. */
  predicate LastUse(blocks: seq<DataBlock>, u: Id, i: nat) {
    && i < |blocks| && blocks[i].compDuplicated && blocks[i].external == u
    && forall k | i < k < |blocks| && blocks[k].compDuplicated :: blocks[k].external != u
  }

  /** Lines the batch uses come before those it does not, and the later their last use the nearer to the front. */
  lemma {:induction false} UsesAreRanked(events: seq<Event>, blocks: seq<DataBlock>, u: Id, w: Id)
    requires Rank(events, u) != 0 && Rank(events, w) != 0 && UsesLine(blocks, w)
    ensures !UsesLine(blocks, u) ==> Rank(events + UsesOf(blocks), u) < Rank(events + UsesOf(blocks), w)
    ensures forall i, j | LastUse(blocks, u, i) && LastUse(blocks, w, j) && i < j ::
              Rank(events + UsesOf(blocks), u) < Rank(events + UsesOf(blocks), w)
    decreases |blocks|
  {
    hide Rank, LastUse, UsesOf;
    var front, b := blocks[..|blocks| - 1], blocks[|blocks| - 1];
    assert blocks == front + [b];
    var all := events + UsesOf(front);
    UsesLineOneMore(front, b, u);
    UsesLineOneMore(front, b, w);
    OneMoreUse(events, front, b);
    StaysThere(events, front, u);
    StaysThere(events, front, w);
    if b.compDuplicated { OneMoreEvent(all, Used(b.external)); }
    if UsesLine(front, w) {
      UsesAreRanked(events, front, u, w);
    }
    forall i, j | LastUse(blocks, u, i) && LastUse(blocks, w, j) && i < j
      ensures Rank(events + UsesOf(blocks), u) < Rank(events + UsesOf(blocks), w)
    {
      LastUseInFront(front, b, u, i);
      LastUseInFront(front, b, w, j);
    }
  }

  lemma {:induction false} LastUseInFront(front: seq<DataBlock>, b: DataBlock, u: Id, i: nat)
    requires LastUse(front + [b], u, i)
    ensures i <= |front|
    ensures i == |front| ==> b.compDuplicated && b.external == u
    ensures i < |front| ==> LastUse(front, u, i) && UsesLine(front, u) && !(b.compDuplicated && b.external == u)
  {
    var all := front + [b];
    assert all[|front|] == b;
    if i < |front| {
      forall k | i < k < |front| && front[k].compDuplicated ensures front[k].external != u {
        assert all[k] == front[k];
      }
      assert all[i] == front[i];
    }
  }

  lemma {:induction false} OneMoreUse(events: seq<Event>, front: seq<DataBlock>, b: DataBlock)
    ensures events + UsesOf(front + [b]) ==
            if b.compDuplicated then (events + UsesOf(front)) + [Used(b.external)] else events + UsesOf(front)
  {
    assert (front + [b])[..|front|] == front;
  }

  /** Uses take no line away. */
  lemma {:induction false} StaysThere(events: seq<Event>, blocks: seq<DataBlock>, u: Id)
    ensures Rank(events + UsesOf(blocks), u) != 0 <==> Rank(events, u) != 0
    decreases |blocks|
  {
    hide Rank;
    if blocks == [] {
      assert events + UsesOf(blocks) == events;
    } else {
      var front, b := blocks[..|blocks| - 1], blocks[|blocks| - 1];
      assert blocks == front + [b];
      StaysThere(events, front, u);
      OneMoreUse(events, front, b);
      if b.compDuplicated { OneMoreEvent(events + UsesOf(front), Used(b.external)); }
    }
  }

  /** The order after a flush, in which the new line is at the end again. */
  lemma {:induction false} AfterFlush(events: seq<Event>, last: Id, id: Id, blocks: seq<DataBlock>)
    requires InTurn(events, last) && last < id && id !in Order(events) && !UsesLine(blocks, id)
    ensures Order(events + FlushEvents(id, blocks)) == PromotedAll(Inserted(Order(events), id), blocks)
    ensures InTurn(events + FlushEvents(id, blocks), id) && Rank(events + FlushEvents(id, blocks), id) < 0
  {
    hide Order, Rank, UsesLine, PromotedAll;
    OrderIsByRank(events);
    OneMoreEvent(events, Added(id));
    assert InTurn(events + [Added(id)], id);
    AfterUses(events + [Added(id)], blocks, id);
    assert events + FlushEvents(id, blocks) == (events + [Added(id)]) + UsesOf(blocks);
  }

  lemma {:induction false} AfterEvent(events: seq<Event>, last: Id, e: Event)
    requires InTurn(events, last) && !e.Added?
    ensures InTurn(events + [e], last)
  {
  }
}
