/** The page allocator: a bump range, then a stack of recycled pages (src/page_manager.cpp). */
module PageManagers {
  import opened Sets

  /** No page twice. */
  predicate Distinct(pages: seq<nat>) {
    forall i, j | 0 <= i < j < |pages| :: pages[i] != pages[j]
  }

  /** The pages `from .. till`. */
  function Interval(from: nat, till: nat): (r: set<nat>)
    requires from <= till
    ensures forall p: nat :: p in r <==> from <= p < till
    ensures |r| == till - from
    decreases till - from
  {
    if from == till then {} else Interval(from + 1, till) + {from}
  }

  lemma {:induction false} FirstPage(from: nat, till: nat)
    requires from < till
    ensures Interval(from, till) == Interval(from + 1, till) + {from} && from !in Interval(from + 1, till)
  {
  }

  lemma {:induction false} NoInterval(from: nat)
    ensures Interval(from, from) == {}
  {
  }

  function Elements(pages: seq<nat>): (r: set<nat>)
    ensures forall p: nat :: p in r <==> p in pages
  {
    Members(pages)
  }

  lemma {:induction false} DistinctCount(pages: seq<nat>)
    requires Distinct(pages)
    ensures |Elements(pages)| == |pages|
  {
    MemberCount(pages);
  }

  lemma {:induction false} NoPages()
    ensures Distinct([]) && Elements([]) == {}
  {
  }

  lemma {:induction false} OneMorePage(pages: seq<nat>, p: nat)
    ensures Elements(pages + [p]) == Elements(pages) + {p}
    ensures Distinct(pages + [p]) <==> Distinct(pages) && p !in Elements(pages)
  {
    var all := pages + [p];
    if Distinct(all) {
      forall i, j | 0 <= i < j < |pages| ensures pages[i] != pages[j] {
        assert all[i] != all[j];
      }
      forall i | 0 <= i < |pages| ensures pages[i] != p {
        assert all[i] != all[|pages|];
      }
    }
  }

  function Ascending(from: nat, till: nat): (r: seq<nat>)
    ensures |r| == if from <= till then till - from else 0
    ensures forall i | 0 <= i < |r| :: r[i] == from + i
  {
    if from <= till then seq(till - from, i requires 0 <= i => from + i) else []
  }

  function Downwards(stack: seq<nat>): (r: seq<nat>)
    ensures |r| == |stack| && forall i | 0 <= i < |r| :: r[i] == stack[|stack| - 1 - i]
  {
    seq(|stack|, i requires 0 <= i < |stack| => stack[|stack| - 1 - i])
  }

  /** The free pages in the order they will be handed out: the range upwards, then the stack from its top. */
  function Queue(begin: nat, end: nat, stack: seq<nat>): seq<nat> {
    Ascending(begin, end) + Downwards(stack)
  }

  /** Only pages that were handed out are on the stack. */
  predicate HandedOut(begin: nat, stack: seq<nat>) {
    forall r | r in stack :: r < begin
  }

  function FreeOf(begin: nat, end: nat, stack: seq<nat>): set<nat> {
    (if begin <= end then Interval(begin, end) else {}) + Elements(stack)
  }

  /** Taking the first page of the range. */
  lemma {:induction false} RangeGives(begin: nat, end: nat, stack: seq<nat>)
    requires begin < end && HandedOut(begin, stack)
    ensures FreeOf(begin, end, stack) == FreeOf(begin + 1, end, stack) + {begin}
    ensures begin !in FreeOf(begin + 1, end, stack) && HandedOut(begin + 1, stack)
    ensures Queue(begin, end, stack) == [begin] + Queue(begin + 1, end, stack)
  {
    hide Interval, Elements;
    FirstPage(begin, end);
    assert Ascending(begin, end) == [begin] + Ascending(begin + 1, end);
  }

  /** Taking the top of the stack. */
  lemma {:induction false} StackGives(end: nat, stack: seq<nat>)
    requires stack != [] && HandedOut(end, stack)
    ensures var rest, top := stack[..|stack| - 1], stack[|stack| - 1];
            && FreeOf(end, end, stack) == FreeOf(end, end, rest) + {top} && HandedOut(end, rest) && top < end
            && (Distinct(stack) ==> Distinct(rest) && top !in FreeOf(end, end, rest))
            && Queue(end, end, stack) == [top] + Queue(end, end, rest)
  {
    hide Interval, Elements, Distinct;
    var rest, top := stack[..|stack| - 1], stack[|stack| - 1];
    assert stack == rest + [top] && top in stack;
    OneMorePage(rest, top);
    NoInterval(end);
    assert forall r | r in rest :: r in stack;
    assert Downwards(stack) == [top] + Downwards(rest);
  }

  lemma {:induction false} Stacked(begin: nat, end: nat, stack: seq<nat>, p: nat)
    requires HandedOut(begin, stack) && p < begin
    ensures Downwards(stack + [p]) == [p] + Downwards(stack) && HandedOut(begin, stack + [p])
    ensures FreeOf(begin, end, stack + [p]) == FreeOf(begin, end, stack) + {p}
    ensures Distinct(stack) && p !in FreeOf(begin, end, stack) ==> Distinct(stack + [p])
  {
    hide Interval, Distinct;
    OneMorePage(stack, p);
  }

  class StackedDiscretePageManager {
    const size: nat
    const end: nat
    var begin: nat
    var freeBlocks: nat
    var recycled: seq<nat>

    /** The counter is right, and only pages that were handed out are on the stack. */
    ghost predicate Valid()
      reads this
    {
      && begin <= end == size && freeBlocks == (end - begin) + |recycled|
      && HandedOut(begin, recycled)
    }

    /** The pages that can still be handed out. */
    ghost function Free(): set<nat>
      reads this
    {
      FreeOf(begin, end, recycled)
    }

    /** What the next allocations will hand out. */
    ghost function Upcoming(): seq<nat>
      reads this
    {
      Queue(begin, end, recycled)
    }

    constructor (size: nat)
      ensures Valid() && this.size == size && freeBlocks == size && recycled == []
      ensures Free() == Interval(0, size) && Upcoming() == Ascending(0, size)
    {
      this.size, end := size, size;
      begin, freeBlocks, recycled := 0, size, [];
    }

    /** Takes the next page of the range, or the top of the stack when the range is used up. */
    method AllocateOne() returns (ok: bool, addr: nat)
      requires Valid()
      modifies this
      ensures Valid() && ok == (old(freeBlocks) > 0)
      ensures ok ==> Free() <= old(Free()) && addr in old(Free()) && addr < size && freeBlocks == old(freeBlocks) - 1
      ensures ok && old(Distinct(recycled)) ==> Distinct(recycled) && Free() == old(Free()) - {addr}
      ensures ok ==> old(Upcoming()) == [addr] + Upcoming()
      ensures !ok ==> freeBlocks == old(freeBlocks) && recycled == old(recycled) && begin == old(begin)
    {
      hide Distinct, FreeOf, Queue, HandedOut;
      if begin != end {
        RangeGives(begin, end, recycled);
        addr := begin;
        begin := begin + 1;
        freeBlocks := freeBlocks - 1;
        return true, addr;
      } else if recycled != [] {
        StackGives(end, recycled);
        addr := recycled[|recycled| - 1];
        recycled := recycled[..|recycled| - 1];
        freeBlocks := freeBlocks - 1;
        return true, addr;
      }
      return false, 0;
    }

    /** All or nothing: `len` pages if that many are free. */
    method Allocate(len: nat) returns (ok: bool, blocks: seq<nat>)
      requires Valid()
      modifies this
      ensures Valid() && ok == (len <= old(freeBlocks))
      ensures !ok ==> blocks == [] && freeBlocks == old(freeBlocks) && recycled == old(recycled) && begin == old(begin)
      ensures ok ==> |blocks| == len && freeBlocks == old(freeBlocks) - len
      ensures ok ==> forall b | b in blocks :: b in old(Free()) && b < size
      ensures ok && old(Distinct(recycled)) ==>
                Distinct(recycled) && Distinct(blocks) && Free() == old(Free()) - Elements(blocks)
      ensures ok ==> old(Upcoming()) == blocks + Upcoming()
    {
      hide Distinct, Valid, Elements, Free, Upcoming;
      blocks := [];
      assert [] + Upcoming() == Upcoming();
      NoPages();
      if freeBlocks < len { return false, blocks; }
      var i := 0;
      while i < len
        invariant 0 <= i <= len && Valid() && |blocks| == i && freeBlocks == old(freeBlocks) - i
        invariant forall b | b in blocks :: b in old(Free()) && b < size
        invariant Free() <= old(Free()) && old(Upcoming()) == blocks + Upcoming()
        invariant old(Distinct(recycled)) ==>
                    Distinct(recycled) && Distinct(blocks) && Free() == old(Free()) - Elements(blocks)
      {
        var one, addr := AllocateOne();
        assert one;
        OneMorePage(blocks, addr);
        assert forall b | b in blocks + [addr] :: b in blocks || b == addr;
        assert blocks + ([addr] + Upcoming()) == (blocks + [addr]) + Upcoming();
        blocks := blocks + [addr];
        i := i + 1;
      }
      return true, blocks;
    }

    /** Puts a page on the stack; the two assertions of the source are the precondition. */
    method Reclaim(addr: nat)
      requires Valid() && addr < size && addr < begin
      modifies this
      ensures Valid() && freeBlocks == old(freeBlocks) + 1 && recycled == old(recycled) + [addr] && begin == old(begin)
      ensures Free() == old(Free()) + {addr}
      ensures old(Distinct(recycled)) && addr !in old(Free()) ==> Distinct(recycled)
      ensures Upcoming() == Ascending(begin, end) + [addr] + Downwards(old(recycled))
    {
      hide Distinct, Ascending, Downwards, HandedOut, FreeOf;
      Stacked(begin, end, recycled, addr);
      recycled := recycled + [addr];
      freeBlocks := freeBlocks + 1;
    }

    /** Without double frees the counter is the number of free pages. */
    lemma {:induction false} FreeCount()
      requires Valid() && Distinct(recycled)
      ensures |Free()| == freeBlocks && Free() <= Interval(0, size)
    {
      DistinctCount(recycled);
      assert Interval(begin, end) !! Elements(recycled);
    }
  }
}
