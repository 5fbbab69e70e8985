/** The physical frame allocator: a cursor over the memory map and a stack of returned frames. */
module Frames {
  import opened Numbers
  import opened Options

  const PAGE := 4096
  const CONVENTIONAL := 7
  const RECLAIM_CAPACITY := 260

  /** A descriptor of the memory map: its type, its first byte and its length in pages. */
  datatype Region = Region(kind: nat, start: nat, pages: nat)

  /** A reserved range, in pages. */
  datatype Range = Range(start: nat, end: nat)

  predicate Contains(r: Range, f: nat) {
    r.start <= f < r.end
  }

  predicate Reserved(rs: seq<Range>, f: nat) {
    exists i :: 0 <= i < |rs| && Contains(rs[i], f)
  }

  function First(r: Region): nat {
    r.start / PAGE
  }

  // ---------- The memory map ----------

  predicate Overlaps(a: Region, b: Region) {
    a.start < b.start + b.pages * PAGE && b.start < a.start + a.pages * PAGE
  }

  predicate GoodRegion(r: Region, limit: nat) {
    r.pages != 0 && r.start % PAGE == 0 && r.start + r.pages * PAGE <= limit
  }

  /** Aligned, not empty, below the limit, and no two regions share a byte. */
  predicate GoodMap(regions: seq<Region>, limit: nat) {
    && regions != []
    && (forall i :: 0 <= i < |regions| ==> GoodRegion(regions[i], limit))
    && (forall i, j :: 0 <= j < i < |regions| ==> !Overlaps(regions[i], regions[j]))
  }

  method CheckRegion(r: Region, limit: nat) returns (ok: bool)
    requires limit <= U64_LIMIT / PAGE
    ensures ok <==> GoodRegion(r, limit)
  {
    if r.pages * PAGE >= U64_LIMIT {
      return false;
    }
    if r.start + r.pages * PAGE >= U64_LIMIT {
      return false;
    }
    ok := !(r.pages == 0 || r.start % PAGE != 0 || r.start >= limit || r.start + r.pages * PAGE > limit);
  }

  /** Accepts exactly the good maps. */
  method ValidateMemoryMap(regions: seq<Region>, limit: nat) returns (ok: bool)
    requires PAGE < limit <= U64_LIMIT / PAGE
    ensures ok <==> GoodMap(regions, limit)
  {
    if regions == [] {
      return false;
    }
    for index := 0 to |regions|
      invariant forall i :: 0 <= i < index ==> GoodRegion(regions[i], limit)
      invariant forall i, j :: 0 <= j < i < index ==> !Overlaps(regions[i], regions[j])
    {
      var good := CheckRegion(regions[index], limit);
      if !good {
        return false;
      }
      for other := 0 to index
        invariant forall j :: 0 <= j < other ==> !Overlaps(regions[index], regions[j])
      {
        if Overlaps(regions[index], regions[other]) {
          return false;
        }
      }
    }
    ok := true;
  }

  /** The pages that hold any byte of an object; none for an empty object. */
  function PageCoveringRange(address: nat, size: nat, limit: nat): (r: Option<Range>)
    requires limit % PAGE == 0 && address < U64_LIMIT && size < U64_LIMIT && limit < U64_LIMIT
    ensures r.Some? ==> forall b: nat :: address <= b < address + size ==> Contains(r.value, b / PAGE)
    ensures r.Some? ==> forall f: nat :: Contains(r.value, f) ==> exists b: nat :: address <= b < address + size && b / PAGE == f
    ensures r.None? <==> size != 0 && address + size > limit
  {
    if size == 0 then Some(Range(0, 0))
    else if address + size >= U64_LIMIT || address + size + (PAGE - 1) >= U64_LIMIT then None
    else
      var r := Range(address / PAGE, (address + size + (PAGE - 1)) / PAGE);
      if r.end * PAGE > limit then None
      else
        Covering(address, size);
        Some(r)
  }

  lemma Covering(address: nat, size: nat)
    requires size > 0
    ensures var r := Range(address / PAGE, (address + size + (PAGE - 1)) / PAGE);
            && (forall b: nat :: address <= b < address + size ==> Contains(r, b / PAGE))
            && (forall f: nat :: Contains(r, f) ==> exists b: nat :: address <= b < address + size && b / PAGE == f)
  {
    var r := Range(address / PAGE, (address + size + (PAGE - 1)) / PAGE);
    forall f: nat | Contains(r, f) ensures exists b: nat :: address <= b < address + size && b / PAGE == f {
      var b := if f * PAGE < address then address else f * PAGE;
      assert b / PAGE == f;
    }
  }

  // ---------- What the cursor will hand out ----------

  /** The frames of `[lo, hi)` that are not reserved, in order. */
  ghost function FramesIn(lo: nat, hi: nat, reserved: seq<Range>): (s: seq<nat>)
    ensures forall f :: f in s <==> lo <= f < hi && !Reserved(reserved, f)
    ensures forall i :: 0 <= i < |s| ==> lo <= s[i] < hi
    ensures forall i, j :: 0 <= i < j < |s| ==> s[i] < s[j]
    decreases hi - lo
  {
    if lo >= hi then []
    else if Reserved(reserved, lo) then FramesIn(lo + 1, hi, reserved)
    else [lo] + FramesIn(lo + 1, hi, reserved)
  }

  /** The frames of region `i` from page `j` on, then those of the regions after it. */
  ghost function Upcoming(regions: seq<Region>, reserved: seq<Range>, i: nat, j: nat): seq<nat>
    requires i <= |regions|
    decreases |regions| - i
  {
    if i == |regions| then []
    else Rest(regions[i], reserved, j) + Upcoming(regions, reserved, i + 1, 0)
  }

  /** The frames of one region from page `j` on; only conventional memory has any. */
  ghost function Rest(r: Region, reserved: seq<Range>, j: nat): seq<nat> {
    if r.kind == CONVENTIONAL then FramesIn(First(r) + j, First(r) + r.pages, reserved) else []
  }

  lemma RestInside(r: Region, reserved: seq<Range>, j: nat)
    ensures Distinct(Rest(r, reserved, j)) && forall f :: f in Rest(r, reserved, j) ==> Inside(r, f)
  {
    hide Reserved;
  }

  /** Frame `f` belongs to region `r`, which is conventional memory. */
  predicate Inside(r: Region, f: nat) {
    r.kind == CONVENTIONAL && First(r) <= f < First(r) + r.pages
  }

  predicate Conventional(regions: seq<Region>, f: nat, from: nat) {
    exists k :: from <= k < |regions| && Inside(regions[k], f)
  }

  lemma {:induction false} UpcomingIs(regions: seq<Region>, reserved: seq<Range>, i: nat, f: nat)
    requires i <= |regions|
    ensures f in Upcoming(regions, reserved, i, 0) <==> Conventional(regions, f, i) && !Reserved(reserved, f)
    decreases |regions| - i
  {
    if i < |regions| {
      UpcomingIs(regions, reserved, i + 1, f);
      assert Conventional(regions, f, i) <==> Inside(regions[i], f) || Conventional(regions, f, i + 1);
    }
  }

  predicate Distinct(s: seq<nat>) {
    forall i, j :: 0 <= i < j < |s| ==> s[i] != s[j]
  }

  lemma DistinctConcat(a: seq<nat>, b: seq<nat>)
    requires Distinct(a) && Distinct(b) && forall f :: f in a ==> f !in b
    ensures Distinct(a + b)
  {
    var s := a + b;
    forall i, j | 0 <= i < j < |s| ensures s[i] != s[j] {
      if i < |a| <= j {
        assert a[i] in a && b[j - |a|] in b;
      }
    }
  }

  /** Regions of a good map share no frame. */
  lemma RegionsApart(regions: seq<Region>, limit: nat, i: nat, k: nat, f: nat)
    requires GoodMap(regions, limit) && i < k < |regions| && Inside(regions[i], f)
    ensures !Inside(regions[k], f)
  {
    assert GoodRegion(regions[i], limit) && GoodRegion(regions[k], limit) && !Overlaps(regions[k], regions[i]);
  }

  lemma {:induction false} UpcomingDistinct(regions: seq<Region>, reserved: seq<Range>, limit: nat, i: nat, j: nat)
    requires GoodMap(regions, limit) && i <= |regions|
    ensures Distinct(Upcoming(regions, reserved, i, j))
    decreases |regions| - i
  {
    if i == |regions| {
      assert Distinct([]);
    } else {
      hide GoodMap, Rest, Inside, Distinct;
      var here, rest := Rest(regions[i], reserved, j), Upcoming(regions, reserved, i + 1, 0);
      UpcomingDistinct(regions, reserved, limit, i + 1, 0);
      RestInside(regions[i], reserved, j);
      forall f | f in here ensures f !in rest {
        NotLater(regions, reserved, limit, i, f);
      }
      DistinctConcat(here, rest);
    }
  }

  lemma NotLater(regions: seq<Region>, reserved: seq<Range>, limit: nat, i: nat, f: nat)
    requires GoodMap(regions, limit) && i < |regions| && Inside(regions[i], f)
    ensures f !in Upcoming(regions, reserved, i + 1, 0)
  {
    hide GoodMap, Upcoming;
    UpcomingIs(regions, reserved, i + 1, f);
    if Conventional(regions, f, i + 1) {
      var k :| i + 1 <= k < |regions| && Inside(regions[k], f);
      RegionsApart(regions, limit, i, k, f);
    }
  }

  /** Distinct numbers below a bound are no more than the bound. */
  lemma {:induction false} Pigeonhole(s: seq<nat>, bound: nat)
    requires Distinct(s) && forall i :: 0 <= i < |s| ==> s[i] < bound
    ensures |s| <= bound
    decreases bound
  {
    if s != [] {
      assert s[0] < bound;
      if k :| 0 <= k < |s| && s[k] == bound - 1 {
        var t := s[..k] + s[k + 1..];
        assert forall i :: 0 <= i < |t| ==> t[i] == if i < k then s[i] else s[i + 1];
        Pigeonhole(t, bound - 1);
      } else {
        Pigeonhole(s, bound - 1);
      }
    }
  }

  // ---------- Counting without visiting ----------

  /** How many pages of `[lo, hi)` no range in `rs` contains. */
  function Uncovered(lo: nat, hi: nat, rs: seq<Range>): nat
    decreases hi
  {
    if hi <= lo then 0 else Uncovered(lo, hi - 1, rs) + (if Reserved(rs, hi - 1) then 0 else 1)
  }

  lemma {:induction false} UncoveredNone(lo: nat, hi: nat)
    requires lo <= hi
    ensures Uncovered(lo, hi, []) == hi - lo
    decreases hi
  {
    if lo < hi {
      UncoveredNone(lo, hi - 1);
    }
  }

  /** One more range takes away exactly the pages `[a, b)`, if they are the ones it is the first to cover. */
  lemma {:induction false} UncoveredStep(lo: nat, hi: nat, rs: seq<Range>, r: Range, a: nat, b: nat)
    requires lo <= a <= b <= hi
    requires forall f: nat :: lo <= f < hi && Contains(r, f) ==> a <= f < b || Reserved(rs, f)
    requires forall f: nat :: a <= f < b ==> Contains(r, f) && !Reserved(rs, f)
    ensures Uncovered(lo, hi, rs + [r]) == Uncovered(lo, hi, rs) - (b - a)
    decreases hi
  {
    if lo < hi {
      var f := hi - 1;
      ReservedMore(rs, r, f);
      UncoveredStep(lo, f, rs, r, if a < hi then a else f, if b < hi then b else f);
    }
  }

  lemma ReservedMore(rs: seq<Range>, r: Range, f: nat)
    ensures Reserved(rs + [r], f) <==> Reserved(rs, f) || Contains(r, f)
  {
    if Reserved(rs, f) {
      var i :| 0 <= i < |rs| && Contains(rs[i], f);
      assert (rs + [r])[i] == rs[i];
    }
    if Contains(r, f) {
      assert (rs + [r])[|rs|] == r;
    }
  }

  lemma {:induction false} FramesCounted(lo: nat, hi: nat, rs: seq<Range>)
    ensures |FramesIn(lo, hi, rs)| == Uncovered(lo, hi, rs)
    decreases hi - lo
  {
    if lo < hi {
      FramesCounted(lo + 1, hi, rs);
      UncoveredFromBelow(lo, hi, rs);
    }
  }

  lemma {:induction false} UncoveredFromBelow(lo: nat, hi: nat, rs: seq<Range>)
    requires lo < hi
    ensures Uncovered(lo, hi, rs) == Uncovered(lo + 1, hi, rs) + (if Reserved(rs, lo) then 0 else 1)
    decreases hi
  {
    if lo + 1 < hi {
      UncoveredFromBelow(lo, hi - 1, rs);
    }
  }

  /** Which ranges are reserved does not depend on their order. */
  lemma {:induction false} UncoveredPermuted(lo: nat, hi: nat, a: seq<Range>, b: seq<Range>)
    requires multiset(a) == multiset(b)
    ensures Uncovered(lo, hi, a) == Uncovered(lo, hi, b)
    decreases hi
  {
    if lo < hi {
      ReservedPermuted(a, b, hi - 1);
      ReservedPermuted(b, a, hi - 1);
      UncoveredPermuted(lo, hi - 1, a, b);
    }
  }

  lemma ReservedPermuted(a: seq<Range>, b: seq<Range>, f: nat)
    requires multiset(a) == multiset(b)
    ensures Reserved(a, f) ==> Reserved(b, f)
  {
    if Reserved(a, f) {
      var i :| 0 <= i < |a| && Contains(a[i], f);
      assert a[i] in multiset(b);
    }
  }

  predicate SortedByStart(rs: seq<Range>) {
    forall i, j :: 0 <= i < j < |rs| ==> rs[i].start <= rs[j].start
  }

  lemma InsertSorted(rs: seq<Range>, k: nat, r: Range)
    requires SortedByStart(rs) && k <= |rs|
    requires (forall j :: 0 <= j < k ==> rs[j].start <= r.start) && (forall j :: k <= j < |rs| ==> r.start <= rs[j].start)
    ensures SortedByStart(rs[..k] + [r] + rs[k..])
  {
    var t := rs[..k] + [r] + rs[k..];
    forall i, j | 0 <= i < j < |t| ensures t[i].start <= t[j].start {
      assert t[i] == if i < k then rs[i] else if i == k then r else rs[i - 1];
      assert t[j] == if j < k then rs[j] else if j == k then r else rs[j - 1];
    }
  }

  method InsertByStart(rs: seq<Range>, r: Range) returns (t: seq<Range>)
    requires SortedByStart(rs)
    ensures SortedByStart(t) && multiset(t) == multiset(rs) + multiset{r}
  {
    var k := 0;
    while k < |rs| && rs[k].start <= r.start
      invariant k <= |rs| && forall j :: 0 <= j < k ==> rs[j].start <= r.start
    {
      k := k + 1;
    }
    InsertSorted(rs, k, r);
    t := rs[..k] + [r] + rs[k..];
    assert rs == rs[..k] + rs[k..];
  }

  method SortByStart(rs: seq<Range>) returns (sorted: seq<Range>)
    ensures SortedByStart(sorted) && multiset(sorted) == multiset(rs)
  {
    sorted := [];
    for i := 0 to |rs|
      invariant SortedByStart(sorted) && multiset(sorted) == multiset(rs[..i])
    {
      assert rs[..i + 1] == rs[..i] + [rs[i]];
      sorted := InsertByStart(sorted, rs[i]);
    }
    assert rs[..|rs|] == rs;
  }

  /** Where the sweep stands: from `cursor` on nothing is covered, and from the last start up to it everything is. */
  ghost predicate Swept(lo: nat, hi: nat, done: seq<Range>, cursor: nat, last: nat) {
    && lo <= cursor
    && (forall f: nat :: cursor <= f < hi ==> !Reserved(done, f))
    && (forall f: nat :: lo <= f < hi && last <= f < cursor ==> Reserved(done, f))
  }

  /** One sorted pass over the ranges counts the pages of `[lo, hi)` outside all of them. */
  method CountUncovered(lo: nat, hi: nat, sorted: seq<Range>) returns (pages: nat)
    requires lo <= hi && SortedByStart(sorted)
    ensures pages == Uncovered(lo, hi, sorted)
  {
    pages := hi - lo;
    UncoveredNone(lo, hi);
    var cursor := lo;
    ghost var last: nat := 0;
    for k := 0 to |sorted|
      invariant pages == Uncovered(lo, hi, sorted[..k])
      invariant Swept(lo, hi, sorted[..k], cursor, last)
      invariant forall j :: k <= j < |sorted| ==> last <= sorted[j].start
    {
      var r := sorted[k];
      assert sorted[..k + 1] == sorted[..k] + [r];
      var from, to := Max(lo, r.start), Min(hi, r.end);
      var unique := Max(from, cursor);
      SweepStep(lo, hi, sorted[..k], cursor, last, r);
      if from < to {
        if unique < to {
          pages := Less(pages, to - unique);
        }
        cursor := Max(cursor, to);
      }
      last := r.start;
    }
    assert sorted[..|sorted|] == sorted;
  }

  lemma SweepStep(lo: nat, hi: nat, done: seq<Range>, cursor: nat, last: nat, r: Range)
    requires lo <= hi && Swept(lo, hi, done, cursor, last) && last <= r.start
    ensures var from, to := Max(lo, r.start), Min(hi, r.end);
            var unique := Max(from, cursor);
            && Swept(lo, hi, done + [r], if from < to then Max(cursor, to) else cursor, r.start)
            && Uncovered(lo, hi, done + [r]) == Uncovered(lo, hi, done) - (if from < to && unique < to then to - unique else 0)
  {
    var from, to := Max(lo, r.start), Min(hi, r.end);
    var unique := Max(from, cursor);
    forall f: nat ensures Reserved(done + [r], f) <==> Reserved(done, f) || Contains(r, f) {
      ReservedMore(done, r, f);
    }
    if from < to && unique < to {
      UncoveredStep(lo, hi, done, r, unique, to);
    } else {
      UncoveredStep(lo, hi, done, r, hi, hi);
    }
  }
}
