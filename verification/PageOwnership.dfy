/** Who owns which page: free pages and the pages of live lines share out the device. */
module PageOwnership {
  import opened Bits
  import opened Cachelines
  import opened PageManagers
  import opened Pages
  import opened Sets
  import opened Stores

  /** Free pages and line pages are disjoint, without repetition, and together all `size` pages. */
  ghost predicate Shared(free: set<nat>, meta: map<Id, IndexData>, size: nat) {
    && free <= Interval(0, size)
    && (forall id | id in meta ::
          Distinct(meta[id].pages) && Elements(meta[id].pages) !! free && Elements(meta[id].pages) <= Interval(0, size))
    && (forall a, b | a in meta && b in meta && a != b :: Elements(meta[a].pages) !! Elements(meta[b].pages))
    && (forall p | p in Interval(0, size) :: p in free || Taken(meta, p))
  }

  ghost predicate Taken(meta: map<Id, IndexData>, p: nat) {
    exists id :: id in meta && p in Elements(meta[id].pages)
  }

  /** The pages of every line hold that line. */
  ghost predicate AllHeld(disk: seq<Byte>, pg: nat, meta: map<Id, IndexData>, lines: map<Id, Cacheline>) {
    forall id | id in meta && id in lines :: Holds(disk, pg, meta[id].pages, lines[id])
  }

  lemma {:induction false} ShareReleased(free: set<nat>, meta: map<Id, IndexData>, size: nat, u: Id)
    requires Shared(free, meta, size) && u in meta
    ensures Shared(free + Elements(meta[u].pages), meta - {u}, size)
  {
    hide Interval, Elements, Distinct;
    var rest := meta - {u};
    var free' := free + Elements(meta[u].pages);
    forall p | p in Interval(0, size) ensures p in free' || Taken(rest, p) {
      if p !in free {
        var id :| id in meta && p in Elements(meta[id].pages);
        if id != u { assert id in rest && p in Elements(rest[id].pages); }
      }
    }
  }

  lemma {:induction false} ShareTaken(free: set<nat>, meta: map<Id, IndexData>, size: nat, u: Id, data: IndexData)
    requires Shared(free, meta, size) && u !in meta
    requires Distinct(data.pages) && Elements(data.pages) <= free
    ensures Shared(free - Elements(data.pages), meta[u := data], size)
  {
    hide Interval, Elements, Distinct;
    var more := meta[u := data];
    var free' := free - Elements(data.pages);
    forall p | p in Interval(0, size) ensures p in free' || Taken(more, p) {
      if p !in free {
        var id :| id in meta && p in Elements(meta[id].pages);
        assert id in more && p in Elements(more[id].pages);
      } else if p in Elements(data.pages) {
        assert u in more && p in Elements(more[u].pages);
      }
    }
  }

  /** New page lists apart, the entries of a line do not matter. */
  lemma {:induction false} SharePagesOnly(free: set<nat>, meta: map<Id, IndexData>, meta': map<Id, IndexData>,
                                          size: nat)
    requires Shared(free, meta, size) && meta'.Keys == meta.Keys
    requires forall id | id in meta :: meta'[id].pages == meta[id].pages
    ensures Shared(free, meta', size)
  {
    hide Interval, Elements, Distinct;
    forall p | p in Interval(0, size) ensures p in free || Taken(meta', p) {
      if p !in free {
        var id :| id in meta && p in Elements(meta[id].pages);
        assert id in meta' && p in Elements(meta'[id].pages);
      }
    }
  }

  /** Writes to free pages and to the pages of `u` leave all other lines in place. */
  lemma {:induction false} OthersHeld(disk: seq<Byte>, disk': seq<Byte>, pg: nat, free: set<nat>,
                                      meta: map<Id, IndexData>, lines: map<Id, Cacheline>, size: nat, u: Id)
    requires Shared(free, meta, size) && AllHeld(disk, pg, meta, lines) && |disk'| == |disk|
    requires forall q: nat | q !in free && OnDevice(|disk|, pg, q) && (u in meta ==> q !in Elements(meta[u].pages)) ::
               PageOf(disk', pg, q) == PageOf(disk, pg, q)
    ensures AllHeld(disk', pg, meta - {u}, lines)
  {
    hide Interval, Distinct, Elements, PageOf, OnDevice;
    forall id | id in meta && id != u && id in lines ensures Holds(disk', pg, meta[id].pages, lines[id]) {
      var pages := meta[id].pages;
      assert Holds(disk, pg, pages, lines[id]);
      forall p | p in pages ensures PageOf(disk', pg, p) == PageOf(disk, pg, p) {
        assert p in Elements(pages);
      }
      HoldsStays(disk, disk', pg, pages, lines[id]);
    }
  }

  lemma {:induction false} PagesBelow(free: set<nat>, meta: map<Id, IndexData>, size: nat, u: Id)
    requires Shared(free, meta, size) && u in meta
    ensures Distinct(meta[u].pages) && Elements(meta[u].pages) !! free
    ensures forall p | p in meta[u].pages :: p < size
  {
    hide Distinct;
    forall p | p in meta[u].pages ensures p < size {
      assert p in Elements(meta[u].pages);
    }
  }

  /** Without lines all pages are free. */
  lemma {:induction false} NoLinesAllFree(free: set<nat>, meta: map<Id, IndexData>, size: nat)
    requires Shared(free, meta, size) && meta == map[]
    ensures free == Interval(0, size) && |free| == size
  {
    hide Distinct, Elements;
    forall p | p in Interval(0, size) ensures p in free {
      assert !Taken(meta, p);
    }
  }

  /** The pages no line owns. */
  ghost function FreePages(meta: map<Id, IndexData>, size: nat): set<nat> {
    set p | p in Interval(0, size) && !Taken(meta, p)
  }

  lemma {:induction false} FreeArePages(free: set<nat>, meta: map<Id, IndexData>, size: nat)
    requires Shared(free, meta, size)
    ensures free == FreePages(meta, size)
  {
    hide Interval, Elements, Distinct;
    forall p | p in free ensures !Taken(meta, p) {
    }
  }

  /** Lines with at least a page each are no more than the pages that are not free. */
  lemma {:induction false} LinesFit(free: set<nat>, meta: map<Id, IndexData>, size: nat)
    requires Shared(free, meta, size) && forall id | id in meta :: meta[id].pages != []
    ensures |meta.Keys| + |free| <= size
    decreases meta.Keys
  {
    hide Shared, Elements, Interval;
    if meta == map[] {
      NoLinesAllFree(free, meta, size);
    } else {
      var u :| u in meta;
      var rest := meta - {u};
      ShareReleased(free, meta, size, u);
      LinesFit(free + Elements(meta[u].pages), rest, size);
      OnePageMore(free, meta, size, u);
      assert meta.Keys == rest.Keys + {u};
    }
  }

  lemma {:induction false} OnePageMore(free: set<nat>, meta: map<Id, IndexData>, size: nat, u: Id)
    requires Shared(free, meta, size) && u in meta && meta[u].pages != []
    ensures |free + Elements(meta[u].pages)| > |free|
  {
    hide Distinct, Interval;
    var p := meta[u].pages[0];
    assert p in Elements(meta[u].pages) && p !in free;
    var more := free + Elements(meta[u].pages);
    assert free <= more - {p};
    SubsetSize(free, more - {p});
  }
}
