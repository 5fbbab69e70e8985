/** The allocator object: every frame of conventional memory is with one owner, returned, or not yet visited. */
module FrameAllocator {
  import opened Numbers
  import opened Options
  import opened Frames

  datatype DeallocationError = InvalidMemoryMap | FrameReclaimCapacityExceeded

  datatype Outcome = Done | Failed(error: DeallocationError)

  ghost function Reversed(s: seq<nat>): (r: seq<nat>)
    ensures |r| == |s|
  {
    seq(|s|, (i: nat) requires i < |s| => s[|s| - 1 - i])
  }

  lemma ReversedPop(s: seq<nat>, x: nat)
    ensures Reversed(s + [x]) == [x] + Reversed(s)
  {
  }

  // ---------- The cursor ----------

  /** One page further in a region of conventional memory. */
  lemma RestStep(r: Region, reserved: seq<Range>, j: nat)
    requires r.kind == CONVENTIONAL && j < r.pages
    ensures Rest(r, reserved, j) == (if Reserved(reserved, First(r) + j) then [] else [First(r) + j]) + Rest(r, reserved, j + 1)
  {
  }

  lemma RestDone(r: Region, reserved: seq<Range>, j: nat)
    requires r.kind != CONVENTIONAL || j >= r.pages
    ensures Rest(r, reserved, j) == []
  {
  }

  /** A frame of a good map lies below the limit. */
  lemma BelowLimit(r: Region, limit: nat, f: nat)
    requires GoodRegion(r, limit) && Inside(r, f)
    ensures f * PAGE < limit
  {
  }

  lemma {:induction false} UpcomingBelow(regions: seq<Region>, reserved: seq<Range>, limit: nat, i: nat, j: nat, f: nat)
    requires GoodMap(regions, limit) && i <= |regions| && f in Upcoming(regions, reserved, i, j)
    ensures f < limit / PAGE + 1
    decreases |regions| - i
  {
    hide Rest;
    if i < |regions| {
      if f in Rest(regions[i], reserved, j) {
        RestInside(regions[i], reserved, j);
        BelowLimit(regions[i], limit, f);
      } else {
        UpcomingBelow(regions, reserved, limit, i + 1, 0, f);
      }
    }
  }

  lemma UpcomingFits(regions: seq<Region>, reserved: seq<Range>, limit: nat, i: nat, j: nat)
    requires GoodMap(regions, limit) && i <= |regions|
    ensures |Upcoming(regions, reserved, i, j)| <= limit / PAGE + 1
  {
    var s := Upcoming(regions, reserved, i, j);
    hide GoodMap, Upcoming;
    UpcomingDistinct(regions, reserved, limit, i, j);
    forall k | 0 <= k < |s| ensures s[k] < limit / PAGE + 1 {
      UpcomingBelow(regions, reserved, limit, i, j, s[k]);
    }
    Pigeonhole(s, limit / PAGE + 1);
  }

  // ---------- The object ----------

  class FrameAllocator {
    const regions: seq<Region>
    const reserved: seq<Range>
    const limit: nat
    var index: nat
    var page: nat
    const reclaimed: array<nat>
    var count: nat
    /** The frames handed out and not returned. */
    ghost var owned: set<nat>

    ghost predicate Shape()
      reads this`index, this`count
    {
      GoodMap(regions, limit) && limit <= U64_LIMIT / PAGE && index <= |regions| && reclaimed.Length == RECLAIM_CAPACITY && count <= RECLAIM_CAPACITY
    }

    /** The frames that calls of `next_usable_frame` will return, in order. */
    ghost function Supply(): seq<nat>
      requires Shape()
      reads this`index, this`page, this`count, reclaimed
    {
      Reversed(reclaimed[..count]) + Upcoming(regions, reserved, index, page)
    }

    predicate Allocatable(f: nat) {
      Conventional(regions, f, 0) && !Reserved(reserved, f)
    }

    /** Owned, returned and unvisited frames are apart, and together they are the allocatable ones. */
    ghost predicate Valid()
      reads this, reclaimed
    {
      Shape() && Parted(Supply(), owned) && forall f: nat :: Allocatable(f) <==> f in owned || f in Supply()
    }

    constructor (regions: seq<Region>, reserved: seq<Range>, limit: nat)
      requires GoodMap(regions, limit) && limit <= U64_LIMIT / PAGE
      ensures Valid() && fresh(reclaimed) && owned == {}
      ensures this.regions == regions && this.reserved == reserved && this.limit == limit
    {
      this.regions, this.reserved, this.limit := regions, reserved, limit;
      index, page, count, owned := 0, 0, 0, {};
      reclaimed := new nat[RECLAIM_CAPACITY](i => 0);
      new;
      UpcomingDistinct(regions, reserved, limit, 0, 0);
      assert Supply() == Upcoming(regions, reserved, 0, 0);
      forall f: nat ensures Allocatable(f) <==> f in owned || f in Supply() {
        UpcomingIs(regions, reserved, 0, f);
      }
    }

    /** Takes a returned frame if there is one, else the next unvisited one. */
    method NextUsableFrame() returns (r: Option<nat>)
      requires Valid()
      modifies this`index, this`page, this`count, this`owned
      ensures Valid()
      ensures r.None? ==> old(Supply()) == [] && Supply() == [] && owned == old(owned)
      ensures r.Some? ==> old(Supply()) == [r.value] + Supply() && owned == old(owned) + {r.value} && r.value !in old(owned)
    {
      hide GoodMap, Upcoming, Reversed;
      if count != 0 {
        count := count - 1;
        ReversedPop(reclaimed[..count], reclaimed[count]);
        assert reclaimed[..count] + [reclaimed[count]] == old(reclaimed[..count]);
        r := Some(reclaimed[count]);
        assert old(Supply()) == [r.value] + Supply();
      } else {
        r := Advance();
      }
      if r.Some? {
        Handed(old(Supply()), Supply(), r.value, owned);
        owned := owned + {r.value};
      }
    }

    method Advance() returns (r: Option<nat>)
      requires Shape() && count == 0
      modifies this`index, this`page
      ensures Shape()
      ensures r.None? ==> old(Supply()) == [] == Supply()
      ensures r.Some? ==> old(Supply()) == [r.value] + Supply()
    {
      hide Rest, Reserved;
      assert Reversed(reclaimed[..count]) == [];
      while index < |regions|
        invariant Shape() && count == 0 && old(Upcoming(regions, reserved, index, page)) == Upcoming(regions, reserved, index, page)
        decreases |regions| - index, if index < |regions| then regions[index].pages - page else 0
      {
        var region := regions[index];
        if region.kind != CONVENTIONAL || page >= region.pages {
          RestDone(region, reserved, page);
          index := index + 1;
          page := 0;
          continue;
        }
        var frame := First(region) + page;
        RestStep(region, reserved, page);
        BelowLimit(region, limit, frame);
        page := page + 1;
        if frame * PAGE >= limit || Reserved(reserved, frame) {
          continue;
        }
        return Some(frame);
      }
      r := None;
    }

    method ReclaimFrame(f: nat) returns (ok: bool)
      requires Shape()
      modifies this`count, reclaimed
      ensures Shape() && ok == (old(count) < RECLAIM_CAPACITY)
      ensures Supply() == if ok then [f] + old(Supply()) else old(Supply())
    {
      hide GoodMap, Upcoming, Reversed;
      ok := count < RECLAIM_CAPACITY;
      if ok {
        reclaimed[count] := f;
        count := count + 1;
        assert reclaimed[..count] == old(reclaimed[..count]) + [f];
        ReversedPop(old(reclaimed[..count]), f);
        assert [f] + Reversed(old(reclaimed[..count])) + Upcoming(regions, reserved, index, page) == [f] + old(Supply());
      }
    }

    method IsAllocatableFrame(f: nat) returns (ok: bool)
      requires GoodMap(regions, limit)
      ensures ok <==> Allocatable(f)
    {
      if f * PAGE >= limit || Reserved(reserved, f) {
        Outside(regions, limit, f);
        return false;
      }
      for k := 0 to |regions|
        invariant forall j :: 0 <= j < k ==> !Inside(regions[j], f)
      {
        if Inside(regions[k], f) {
          return true;
        }
      }
      ok := false;
    }

    /** Returns a frame. The caller must own it; it is refused only when the stack is full. */
    method DeallocateFrame(f: nat) returns (r: Outcome)
      requires Valid() && f in owned
      modifies this`count, this`owned, reclaimed
      ensures Valid()
      ensures r == (if old(count) < RECLAIM_CAPACITY then Done else Failed(FrameReclaimCapacityExceeded))
      ensures owned == if r.Done? then old(owned) - {f} else old(owned)
      ensures Supply() == if r.Done? then [f] + old(Supply()) else old(Supply())
    {
      hide GoodMap, Upcoming, Reversed;
      assert Allocatable(f);
      var allocatable := IsAllocatableFrame(f);
      if !allocatable {
        return Failed(InvalidMemoryMap);
      }
      var ok := ReclaimFrame(f);
      if !ok {
        return Failed(FrameReclaimCapacityExceeded);
      }
      Returned(old(Supply()), f, owned);
      owned := owned - {f};
      r := Done;
    }

    /** The number of frames left, computed per region instead of per frame. */
    method AvailableFrameCount() returns (total: nat)
      requires Valid()
      ensures total == |Supply()|
    {
      hide GoodMap, Rest;
      total := count;
      var sorted := SortByStart(reserved);
      UpcomingFits(regions, reserved, limit, index, page);
      for k := index to |regions|
        invariant total + |Upcoming(regions, reserved, k, if k == index then page else 0)| == |Supply()|
        invariant |Supply()| < U64_LIMIT - 1
      {
        var region := regions[k];
        var first := if k == index then page else 0;
        var pages := CountRegion(region, reserved, sorted, first);
        total := SaturatingAdd(total, pages);
      }
    }
  }

  function SaturatingAdd(a: nat, b: nat): nat {
    if a + b >= U64_LIMIT then U64_LIMIT - 1 else a + b
  }

  /** The usable frames of one region from page `first` on. */
  method CountRegion(region: Region, ghost reserved: seq<Range>, sorted: seq<Range>, first: nat) returns (pages: nat)
    requires SortedByStart(sorted) && multiset(sorted) == multiset(reserved)
    ensures pages == |Rest(region, reserved, first)|
  {
    if region.kind != CONVENTIONAL || first >= region.pages {
      RestDone(region, reserved, first);
      return 0;
    }
    var lo, hi := First(region) + first, First(region) + region.pages;
    pages := CountUncovered(lo, hi, sorted);
    UncoveredPermuted(lo, hi, sorted, reserved);
    FramesCounted(lo, hi, reserved);
  }

  ghost predicate Parted(supply: seq<nat>, owned: set<nat>) {
    Distinct(supply) && forall f :: f in supply ==> f !in owned
  }

  lemma Handed(before: seq<nat>, after: seq<nat>, f: nat, owned: set<nat>)
    requires Parted(before, owned) && before == [f] + after
    ensures Parted(after, owned + {f}) && f !in owned
    ensures forall g :: g in before <==> g == f || g in after
  {
    assert before[0] == f && forall i :: 0 <= i < |after| ==> after[i] == before[i + 1];
  }

  lemma Returned(before: seq<nat>, f: nat, owned: set<nat>)
    requires Parted(before, owned) && f in owned
    ensures Parted([f] + before, owned - {f})
    ensures forall g :: g in [f] + before <==> g == f || g in before
  {
  }

  lemma Outside(regions: seq<Region>, limit: nat, f: nat)
    requires GoodMap(regions, limit)
    ensures f * PAGE >= limit ==> !Conventional(regions, f, 0)
  {
    forall k | 0 <= k < |regions| && Inside(regions[k], f) ensures f * PAGE < limit {
      BelowLimit(regions[k], limit, f);
    }
  }
}
