/** Building the direct map, and what the processor then finds in it. */
module DirectMapBuild {
  import opened Numbers
  import opened Options
  import opened PageTables
  import opened DirectMap

  const PAGE := 4096
  const WINDOW := 0x80_0000_0000

  /** Tables may have been added, pages have not. */
  predicate SameMap(g: Layout, g': Layout) {
    g'.blocks == g.blocks && g'.singles == g.singles && SameBase(g, g')
  }

  predicate SameBase(g: Layout, g': Layout) {
    g'.base == g.base && g'.reserve == g.reserve
  }

  lemma Digit2(p: nat)
    requires p < WINDOW_PAGES
    ensures p / 0x4_0000 == p / 512 / 512 < ENTRIES
  {
  }

  // ---------- Finding or making tables ----------

  method EnsureLevel3(m: Memory, w: Window, ghost g: Layout) returns (s: Status, ghost g': Layout)
    requires m.Valid() && Built(m.pages, m.free, w, g)
    modifies m
    ensures m.Valid() && Built(m.pages, m.free, w, g') && SameMap(g, g') && g'.l1 == g.l1
    ensures s == Success || s == OutOfResources
    ensures s == Success ==> g'.l3.Some? && w.root in m.pages && m.pages[w.root][w.slot] == TableEntry(g'.l3.value) && g'.l3.value in m.pages
  {
    hide Nested, Separate, Owned, Taken, Framed;
    g' := g;
    if !m.pages[w.root][w.slot].present {
      ghost var before, free := m.pages, m.free;
      RootOwned(free, w, g);
      var page := m.AllocateZeroed();
      if page.None? {
        return OutOfResources, g;
      }
      AddLevel3(before, free, w, g, page.value);
      g' := g.(l3 := page);
      m.Store(w.root, w.slot, TableEntry(page.value));
    }
    s := Success;
  }

  lemma RootOwned(free: set<nat>, w: Window, g: Layout)
    requires Owned(free, w, g)
    ensures w.root !in free && (g.l3.Some? ==> g.l3.value !in free)
    ensures forall i :: i in g.l2 ==> g.l2[i] !in free
  {
  }

  /** The level 2 table for a page of the window. A level 3 entry is never a huge page here. */
  method EnsurePhysicalPageDirectory(m: Memory, w: Window, p: nat, ghost g: Layout) returns (s: Status, t: nat, ghost g': Layout)
    requires m.Valid() && p < WINDOW_PAGES && Built(m.pages, m.free, w, g)
    modifies m
    ensures m.Valid() && Built(m.pages, m.free, w, g') && SameMap(g, g') && g'.l1 == g.l1
    ensures s == Success || s == OutOfResources
    ensures s == Success ==> p / 512 / 512 in g'.l2 && t == g'.l2[p / 512 / 512] && t in m.pages
  {
    hide Nested, Separate, Owned, Taken, Framed;
    t := 0;
    Digit2(p);
    var i := p / 0x4_0000;
    s, g' := EnsureLevel3(m, w, g);
    if s != Success {
      return;
    }
    var level3 := m.pages[w.root][w.slot].addr;
    if !m.pages[level3][i].present {
      ghost var before, free, mid := m.pages, m.free, g';
      RootOwned(free, w, mid);
      var page := m.AllocateZeroed();
      if page.None? {
        s := OutOfResources;
        return;
      }
      AddLevel2(before, free, w, mid, i, page.value);
      g' := mid.(l2 := mid.l2[i := page.value]);
      m.Store(level3, i, TableEntry(page.value));
    }
    if m.pages[level3][i].huge {
      s := AccessDenied;
      return;
    }
    t := m.pages[level3][i].addr;
    assert Level2Holds(m.pages, g', i);
  }

  /** The level 1 table for a page, unless its block is one huge page. */
  method EnsurePhysicalPageTable(m: Memory, w: Window, p: nat, ghost g: Layout) returns (s: Status, t: nat, ghost g': Layout)
    requires m.Valid() && p < WINDOW_PAGES && Built(m.pages, m.free, w, g)
    modifies m
    ensures m.Valid() && Built(m.pages, m.free, w, g') && SameMap(g, g')
    ensures s == Success || s == OutOfResources || (s == AccessDenied && p / 512 in g.blocks)
    ensures s == Success ==> p / 512 !in g.blocks && p / 512 in g'.l1 && t == g'.l1[p / 512] && t in m.pages
  {
    hide Separate, Owned, Taken, Framed;
    var directory;
    ghost var g1;
    s, directory, g1 := EnsurePhysicalPageDirectory(m, w, p, g);
    t, g' := 0, g1;
    if s != Success {
      return;
    }
    var k := p / 512;
    assert Level2Holds(m.pages, g1, k / 512);
    AtDigits(m.pages[directory], g1, k);
    if !m.pages[directory][k % 512].present {
      ghost var before, free := m.pages, m.free;
      RootOwned(free, w, g1);
      var page := m.AllocateZeroed();
      if page.None? {
        s := OutOfResources;
        return;
      }
      hide Nested;
      AddLevel1(before, free, w, g1, k, page.value);
      g' := g1.(l1 := g1.l1[k := page.value]);
      m.Store(directory, k % 512, TableEntry(page.value));
    }
    if m.pages[directory][k % 512].huge {
      s := AccessDenied;
      return;
    }
    t := m.pages[directory][k % 512].addr;
    assert Level1Holds(m.pages, g', k);
  }

  lemma AtDigits(table: PageTable, g: Layout, k: nat)
    requires forall j: Index :: table[j] == DirectoryEntry(g, 512 * (k / 512) + j)
    ensures table[k % 512] == DirectoryEntry(g, k)
  {
    assert 512 * (k / 512) + k % 512 == k;
  }

  lemma AtPage(table: PageTable, g: Layout, p: nat)
    requires forall j: Index :: table[j] == PageEntry(g, 512 * (p / 512) + j)
    ensures table[p % 512] == PageEntry(g, p)
  {
    assert 512 * (p / 512) + p % 512 == p;
  }

  // ---------- Mapping ----------

  /** Refused exactly when the page is mapped already; otherwise maps it and nothing else. */
  method MapPhysicalPage4KiB(m: Memory, w: Window, p: nat, ghost g: Layout) returns (s: Status, ghost g': Layout)
    requires m.Valid() && p < WINDOW_PAGES && Built(m.pages, m.free, w, g)
    modifies m
    ensures m.Valid() && Built(m.pages, m.free, w, g') && SameBase(g, g')
    ensures s == Success || s == OutOfResources || (s == AccessDenied && Maps(g, p))
    ensures s == Success ==> !Maps(g, p) && g'.blocks == g.blocks && g'.singles == g.singles + {p}
    ensures s != Success ==> SameMap(g, g')
  {
    hide Nested, Separate, Owned, Taken, Framed;
    var table;
    ghost var g1;
    s, table, g1 := EnsurePhysicalPageTable(m, w, p, g);
    g' := g1;
    if s != Success {
      return;
    }
    assert Level1Holds(m.pages, g1, p / 512);
    AtPage(m.pages[table], g1, p);
    if m.pages[table][p % 512].present {
      s := AccessDenied;
      return;
    }
    AddSingle(m.pages, m.free, w, g1, p);
    m.Store(table, p % 512, SmallEntry(p));
    g' := g1.(singles := g1.singles + {p});
  }

  /** Maps a page of a block that has a level 1 table, if it is not mapped yet. */
  method FillPage(m: Memory, w: Window, p: nat, ghost g: Layout) returns (s: Status, ghost g': Layout)
    requires m.Valid() && p < WINDOW_PAGES && Built(m.pages, m.free, w, g) && p / 512 !in g.blocks
    modifies m
    ensures m.Valid() && Built(m.pages, m.free, w, g') && SameBase(g, g') && g'.blocks == g.blocks
    ensures s == Success || s == OutOfResources
    ensures g'.singles == if s == Success then g.singles + {p} else g.singles
  {
    hide Nested, Separate, Owned, Taken, Framed;
    var table;
    s, table, g' := EnsurePhysicalPageTable(m, w, p, g);
    if s != Success {
      return;
    }
    assert Level1Holds(m.pages, g', p / 512);
    AtPage(m.pages[table], g', p);
    if !m.pages[table][p % 512].present {
      AddSingle(m.pages, m.free, w, g', p);
      m.Store(table, p % 512, SmallEntry(p));
      g' := g'.(singles := g'.singles + {p});
    }
  }

  /** Fills the existing level 1 table of a block. */
  method FillBlock(m: Memory, w: Window, k: nat, ghost g: Layout) returns (s: Status, ghost g': Layout)
    requires m.Valid() && 512 * k + 512 <= WINDOW_PAGES && Built(m.pages, m.free, w, g) && k !in g.blocks
    modifies m
    ensures m.Valid() && Built(m.pages, m.free, w, g') && SameBase(g, g')
    ensures s == Success || s == OutOfResources
    ensures g'.blocks == g.blocks && g.singles <= g'.singles
    ensures forall q :: q in g'.singles ==> q in g.singles || q / 512 == k
    ensures s == Success ==> forall q :: 512 * k <= q < 512 * k + 512 ==> q in g'.singles
  {
    hide Built;
    g' := g;
    for index := 0 to 512
      invariant m.Valid() && Built(m.pages, m.free, w, g') && SameBase(g, g')
      invariant g'.blocks == g.blocks && g.singles <= g'.singles
      invariant forall q :: q in g'.singles ==> q in g.singles || q / 512 == k
      invariant forall q :: 512 * k <= q < 512 * k + index ==> q in g'.singles
    {
      Digits(k, index);
      s, g' := FillPage(m, w, 512 * k + index, g');
      if s != Success {
        return;
      }
    }
    s := Success;
  }

  lemma NotBlock(g: Layout, k: nat)
    requires Nested(g) && k in g.l1
    ensures k !in g.blocks
  {
  }

  /** Refused exactly when the block is one huge page already; otherwise maps the whole block. */
  method MapPhysicalPage2MiB(m: Memory, w: Window, k: nat, ghost g: Layout) returns (s: Status, ghost g': Layout)
    requires m.Valid() && 512 * k + 512 <= WINDOW_PAGES && Built(m.pages, m.free, w, g)
    modifies m
    ensures m.Valid() && Built(m.pages, m.free, w, g') && SameBase(g, g')
    ensures s == Success || s == OutOfResources || (s == AccessDenied && k in g.blocks)
    ensures s == Success ==> k !in g.blocks && forall q: nat :: Maps(g', q) <==> Maps(g, q) || q / 512 == k
  {
    hide Separate, Owned, Taken, Framed;
    var directory;
    ghost var g1;
    Digits(k, 0);
    s, directory, g1 := EnsurePhysicalPageDirectory(m, w, 512 * k, g);
    g' := g1;
    if s != Success {
      return;
    }
    assert Level2Holds(m.pages, g1, k / 512);
    AtDigits(m.pages[directory], g1, k);
    if m.pages[directory][k % 512].present {
      if m.pages[directory][k % 512].huge {
        s := AccessDenied;
        return;
      }
      NotBlock(g1, k);
      s, g' := FillBlock(m, w, k, g1);
      return;
    }
    hide Nested;
    AddBlock(m.pages, m.free, w, g1, k);
    m.Store(directory, k % 512, HugeEntry(k));
    g' := g1.(blocks := g1.blocks + {k});
  }

  predicate InRange(first: nat, count: nat, q: nat) {
    first <= q < first + count
  }

  /** The map has grown by exactly these pages. */
  ghost predicate Added(g: Layout, g': Layout, first: nat, count: nat) {
    forall q: nat :: Maps(g', q) <==> Maps(g, q) || InRange(first, count, q)
  }

  /** Maps a page-aligned range of bytes; refused only when some page of it is mapped already. */
  method MapPhysicalMemoryRange(m: Memory, w: Window, start: nat, count: nat, ghost g: Layout) returns (s: Status, ghost g': Layout)
    requires m.Valid() && Built(m.pages, m.free, w, g) && start < U64_LIMIT && count < U64_LIMIT && start % PAGE == 0
    modifies m
    ensures m.Valid() && Built(m.pages, m.free, w, g') && SameBase(g, g')
    ensures s == Success ==> start / PAGE + count <= WINDOW_PAGES && Added(g, g', start / PAGE, count)
    ensures s == AccessDenied ==> exists q: nat :: InRange(start / PAGE, count, q) && Maps(g, q)
    ensures s == Unsupported ==> start / PAGE + count > WINDOW_PAGES
    ensures s == InvalidParameter ==> start + PAGE * count >= U64_LIMIT
  {
    hide Built;
    g' := g;
    if count > (U64_LIMIT - 1) / PAGE {
      return InvalidParameter, g;
    }
    var size := count * PAGE;
    if start > U64_LIMIT - 1 - size {
      return InvalidParameter, g;
    }
    if start + size > WINDOW {
      return Unsupported, g;
    }
    var first, end := start / PAGE, (start + size) / PAGE;
    var address := first;
    while address < end
      invariant first <= address <= end == first + count <= WINDOW_PAGES
      invariant m.Valid() && Built(m.pages, m.free, w, g') && SameBase(g, g')
      invariant Added(g, g', first, address - first)
    {
      ghost var before := g';
      if address % 512 == 0 && end - address >= 512 {
        s, g' := MapPhysicalPage2MiB(m, w, address / 512, before);
        if s != Success {
          assert s == AccessDenied ==> Maps(before, address);
          assert s == AccessDenied ==> InRange(first, count, address) && Maps(g, address);
          return;
        }
        BlockAdded(g, before, g', first, address);
        address := address + 512;
      } else {
        s, g' := MapPhysicalPage4KiB(m, w, address, before);
        if s != Success {
          assert s == AccessDenied ==> InRange(first, count, address) && Maps(g, address);
          return;
        }
        SingleAdded(g, before, g', first, address);
        address := address + 1;
      }
    }
    s := Success;
  }

  lemma BlockAdded(g: Layout, before: Layout, after: Layout, first: nat, address: nat)
    requires first <= address && address % 512 == 0 && Added(g, before, first, address - first)
    requires forall q: nat :: Maps(after, q) <==> Maps(before, q) || q / 512 == address / 512
    ensures Added(g, after, first, address + 512 - first)
  {
    hide Maps;
    forall q: nat ensures Maps(after, q) <==> Maps(g, q) || InRange(first, address + 512 - first, q) {
      SameBlock(q, address);
      assert Maps(before, q) <==> Maps(g, q) || InRange(first, address - first, q);
    }
  }

  lemma SameBlock(q: nat, address: nat)
    requires address % 512 == 0
    ensures q / 512 == address / 512 <==> address <= q < address + 512
  {
    assert address == 512 * (address / 512);
  }

  lemma SingleAdded(g: Layout, before: Layout, after: Layout, first: nat, address: nat)
    requires first <= address && Added(g, before, first, address - first)
    requires after.blocks == before.blocks && after.singles == before.singles + {address}
    ensures Added(g, after, first, address + 1 - first)
  {
    forall q: nat ensures Maps(after, q) <==> Maps(g, q) || InRange(first, address + 1 - first, q) {
      assert Maps(after, q) <==> Maps(before, q) || q == address;
      assert InRange(first, address + 1 - first, q) <==> InRange(first, address - first, q) || q == address;
    }
  }

  // ---------- Many ranges ----------

  /** A page-aligned range of RAM, in pages. */
  datatype Extent = Extent(first: nat, count: nat)

  ghost predicate Disjoint(ranges: seq<Extent>) {
    forall i, j, q: nat :: 0 <= i < j < |ranges| && InRange(ranges[i].first, ranges[i].count, q) ==> !InRange(ranges[j].first, ranges[j].count, q)
  }

  ghost predicate Covered(ranges: seq<Extent>, q: nat) {
    exists i :: 0 <= i < |ranges| && InRange(ranges[i].first, ranges[i].count, q)
  }

  /** Maps disjoint ranges in the order given. None is refused, and exactly their pages end up mapped. */
  method MapAll(m: Memory, w: Window, ranges: seq<Extent>) returns (s: Status, ghost g: Layout)
    requires m.Valid() && w.root in m.pages && w.root !in m.free && !m.pages[w.root][w.slot].present
    requires Disjoint(ranges) && forall i :: 0 <= i < |ranges| ==> ranges[i].first + ranges[i].count <= WINDOW_PAGES
    modifies m
    ensures m.Valid() && Built(m.pages, m.free, w, g) && g.base == old(m.pages) && g.reserve == old(m.free)
    ensures s == Success || s == OutOfResources
    ensures s == Success ==> Agrees(g, ranges)
  {
    hide Built, Maps, Covered, InRange, Disjoint;
    g := Nothing(m.pages, m.free);
    NothingBuilt(m.pages, m.free, w);
    for i := 0 to |ranges|
      invariant m.Valid() && Built(m.pages, m.free, w, g) && g.base == old(m.pages) && g.reserve == old(m.free)
      invariant Agrees(g, ranges[..i])
    {
      ghost var before := g;
      s, g := MapPhysicalMemoryRange(m, w, ranges[i].first * PAGE, ranges[i].count, before);
      NotYet(ranges, i, before);
      if s != Success {
        return;
      }
      CoveredMore(ranges, i, before, g);
    }
    assert ranges[..|ranges|] == ranges;
    s := Success;
  }

  /** Exactly the pages of these ranges are mapped. */
  ghost predicate Agrees(g: Layout, ranges: seq<Extent>) {
    forall q: nat :: Maps(g, q) <==> Covered(ranges, q)
  }

  lemma NothingBuilt(pages: Pages, free: set<nat>, w: Window)
    requires w.root in pages && w.root !in free && free <= pages.Keys && !pages[w.root][w.slot].present
    ensures Built(pages, free, w, Nothing(pages, free)) && Agrees(Nothing(pages, free), [])
  {
  }

  lemma NotYet(ranges: seq<Extent>, i: nat, g: Layout)
    requires i < |ranges| && Disjoint(ranges) && Agrees(g, ranges[..i])
    ensures !exists q: nat :: InRange(ranges[i].first, ranges[i].count, q) && Maps(g, q)
  {
    hide Maps;
    forall q: nat | InRange(ranges[i].first, ranges[i].count, q) ensures !Maps(g, q) {
      assert !Covered(ranges[..i], q);
    }
  }

  lemma CoveredMore(ranges: seq<Extent>, i: nat, before: Layout, after: Layout)
    requires i < |ranges| && Agrees(before, ranges[..i]) && Added(before, after, ranges[i].first, ranges[i].count)
    ensures Agrees(after, ranges[..i + 1])
  {
    hide Maps;
    forall q: nat ensures Maps(after, q) <==> Covered(ranges[..i + 1], q) {
      assert forall k :: 0 <= k < i ==> ranges[..i + 1][k] == ranges[..i][k];
      assert ranges[..i + 1][i] == ranges[i];
      assert Maps(before, q) <==> Covered(ranges[..i], q);
    }
  }

  // ---------- What the processor finds ----------

  /** The table indices of a virtual address, highest level first. */
  function Indices(va: nat): (idx: seq<Index>)
    ensures |idx| == 4
  {
    [va / 0x80_0000_0000 % 512, va / 0x4000_0000 % 512, va / 0x20_0000 % 512, va / 0x1000 % 512]
  }

  /** The physical byte behind a virtual one. */
  function Translate(pages: Pages, root: nat, va: nat): Option<nat> {
    match Walk(pages, root, 4, Indices(va))
    case Fault => None
    case Mapped(_, leaf, level) =>
      var inside := if level == 1 then va % 0x1000 else if level == 2 then va % 0x20_0000 else if level == 3 then va % 0x4000_0000 else va % 0x80_0000_0000;
      Some(PAGE * leaf.addr + inside)
  }

  /** The mapping is for reading and writing data: every table on the way lets writes through, and nothing is fetched or left to users. */
  predicate DataOnly(t: Translation) {
    t.Mapped? && t.leaf.writable && t.leaf.noExecute && t.leaf.rest == 0 && forall i :: 0 <= i < |t.above| ==> t.above[i].writable
  }

  function Offset(slot: Index): nat {
    0xFFFF_0000_0000_0000 + slot * 0x80_0000_0000
  }

  lemma WindowIndices(slot: Index, b: nat)
    requires 256 <= slot && b < WINDOW
    ensures Indices(Offset(slot) + b) == [slot, b / 0x4000_0000, b / 0x20_0000 % 512, b / 0x1000 % 512]
    ensures (Offset(slot) + b) % 0x1000 == b % 0x1000 && (Offset(slot) + b) % 0x20_0000 == b % 0x20_0000
  {
    var c := 512 * 0xFFFF + slot;
    var va := Offset(slot) + b;
    assert va == 0x80_0000_0000 * c + b;
    assert va / 0x80_0000_0000 == c && c % 512 == slot;
    assert va / 0x4000_0000 == 512 * c + b / 0x4000_0000;
    assert va / 0x20_0000 == 512 * (512 * c) + b / 0x20_0000;
    assert va / 0x1000 == 512 * (262144 * c) + b / 0x1000;
    DropHigh(c, b / 0x4000_0000);
    DropHigh(512 * c, b / 0x20_0000);
    DropHigh(262144 * c, b / 0x1000);
  }

  lemma DropHigh(high: nat, low: nat)
    ensures (512 * high + low) % 512 == low % 512
  {
  }

  lemma Level1Walk(pages: Pages, g: Layout, p: nat)
    requires Level1Holds(pages, g, p / 512) && p / 512 in g.l1
    ensures Walk(pages, g.l1[p / 512], 1, [p % 512]) == if p in g.singles then Mapped([], SmallEntry(p), 1) else Fault
  {
    AtPage(pages[g.l1[p / 512]], g, p);
  }

  lemma Level2Walk(pages: Pages, g: Layout, p: nat)
    requires Level2Holds(pages, g, p / 512 / 512) && p / 512 / 512 in g.l2
    ensures var k := p / 512;
            Walk(pages, g.l2[k / 512], 2, [k % 512, p % 512]) ==
            if k in g.l1 then Under(TableEntry(g.l1[k]), Walk(pages, g.l1[k], 1, [p % 512]))
            else if k in g.blocks then Mapped([], HugeEntry(k), 2)
            else Fault
  {
    var k := p / 512;
    AtDigits(pages[g.l2[k / 512]], g, k);
    assert [k % 512, p % 512][1..] == [p % 512];
  }

  lemma Level4Walk(pages: Pages, w: Window, g: Layout, i: Index, idx: seq<Index>)
    requires RootHolds(pages, w, g) && Level3Holds(pages, g) && |idx| == 2
    ensures Walk(pages, w.root, 4, [w.slot, i] + idx) ==
            if g.l3.Some? && i in g.l2 then Under(TableEntry(g.l3.value), Under(TableEntry(g.l2[i]), Walk(pages, g.l2[i], 2, idx))) else Fault
  {
    assert ([w.slot, i] + idx)[1..] == [i] + idx && ([i] + idx)[1..] == idx;
    assert g.l3.Some? ==> Walk(pages, g.l3.value, 3, [i] + idx) == if i in g.l2 then Under(TableEntry(g.l2[i]), Walk(pages, g.l2[i], 2, idx)) else Fault;
  }

  /** The walk for a page of the window. */
  lemma WalkFinds(pages: Pages, free: set<nat>, w: Window, g: Layout, p: nat)
    requires Built(pages, free, w, g) && p < WINDOW_PAGES
    ensures p / 0x4_0000 < ENTRIES
    ensures var t := Walk(pages, w.root, 4, [w.slot, p / 0x4_0000, p / 512 % 512, p % 512]);
            && (Maps(g, p) ==> DataOnly(t))
            && if p in g.singles then t.Mapped? && t.level == 1 && t.leaf == SmallEntry(p)
               else if p / 512 in g.blocks then t.Mapped? && t.level == 2 && t.leaf == HugeEntry(p / 512)
               else t.Fault?
  {
    Digit2(p);
    var i, k := p / 0x4_0000, p / 512;
    assert Level2Holds(pages, g, i) && Level1Holds(pages, g, k);
    hide Walk, Level2Holds, Level1Holds, RootHolds, Level3Holds, Separate, Owned, Taken, Framed;
    assert [w.slot, i, k % 512, p % 512] == [w.slot, i] + [k % 512, p % 512];
    Level4Walk(pages, w, g, i, [k % 512, p % 512]);
    if i in g.l2 {
      Level2Walk(pages, g, p);
    }
    if k in g.l1 {
      Level1Walk(pages, g, p);
    }
  }

  /** At the offset of the window, every mapped byte is found at itself, and nothing else is found. */
  lemma DirectMapTheorem(pages: Pages, free: set<nat>, w: Window, g: Layout, b: nat)
    requires Built(pages, free, w, g) && 256 <= w.slot && b < WINDOW
    ensures Translate(pages, w.root, Offset(w.slot) + b) == if Maps(g, b / PAGE) then Some(b) else None
    ensures Maps(g, b / PAGE) ==> DataOnly(Walk(pages, w.root, 4, Indices(Offset(w.slot) + b)))
  {
    hide Built, Walk, Indices, Offset, DataOnly;
    WindowIndices(w.slot, b);
    PageDigits(b);
    WalkFinds(pages, free, w, g, b / PAGE);
  }

  lemma PageDigits(b: nat)
    requires b < WINDOW
    ensures var p := b / PAGE;
            && b / 0x4000_0000 == p / 0x4_0000 < ENTRIES && b / 0x20_0000 == p / 512 && p < WINDOW_PAGES
            && b == PAGE * p + b % 0x1000 && b == PAGE * (512 * (p / 512)) + b % 0x20_0000
  {
  }

  /** The lowest free slot of the upper half. */
  method ChooseSlot(m: Memory, root: nat) returns (r: Option<Index>)
    requires root in m.pages
    ensures r.Some? ==> 256 <= r.value && !m.pages[root][r.value].present
                        && forall i: Index :: 256 <= i < r.value ==> m.pages[root][i].present
    ensures r.None? ==> forall i: Index :: 256 <= i ==> m.pages[root][i].present
  {
    for slot := 256 to ENTRIES
      invariant forall i: Index :: 256 <= i < slot ==> m.pages[root][i].present
    {
      if !m.pages[root][slot].present {
        return Some(slot);
      }
    }
    r := None;
  }

  lemma BuiltFrames(pages: Pages, free: set<nat>, w: Window, g: Layout)
    requires Built(pages, free, w, g)
    ensures free <= g.reserve && Framed(g.base, pages, g.reserve, w)
  {
  }

  /**
   * The direct map of disjoint ranges of RAM: it is never refused, and once built, reading at the offset
   * plus any physical address in the ranges reads that address, and anywhere else in the window faults.
   * Nothing changes but pages that were free and one slot of the root, which was not in use.
   */
  method BuildPhysicalMemoryMapping(m: Memory, root: nat, ranges: seq<Extent>) returns (s: Status, slot: Index, offset: nat)
    requires m.Valid() && root in m.pages && root !in m.free
    requires Disjoint(ranges) && forall i :: 0 <= i < |ranges| ==> ranges[i].first + ranges[i].count <= WINDOW_PAGES
    modifies m
    ensures m.Valid() && m.free <= old(m.free) && (s == Success || s == OutOfResources)
    ensures Framed(old(m.pages), m.pages, old(m.free), Window(root, slot))
    ensures s == Success ==> 256 <= slot && offset == Offset(slot) && !old(m.pages)[root][slot].present
    ensures s == Success ==> forall b: nat :: b < WINDOW ==>
              && Translate(m.pages, root, offset + b) == (if Covered(ranges, b / PAGE) then Some(b) else None)
              && (Covered(ranges, b / PAGE) ==> DataOnly(Walk(m.pages, root, 4, Indices(offset + b))))
  {
    hide Built, Maps, Covered, Disjoint, Translate, Offset, DataOnly, Indices;
    var chosen := ChooseSlot(m, root);
    if chosen.None? {
      return OutOfResources, 0, 0;
    }
    slot := chosen.value;
    var w := Window(root, slot);
    offset := Offset(slot);
    ghost var g;
    s, g := MapAll(m, w, ranges);
    BuiltFrames(m.pages, m.free, w, g);
    if s == Success {
      forall b: nat | b < WINDOW
        ensures Translate(m.pages, root, offset + b) == if Covered(ranges, b / PAGE) then Some(b) else None
        ensures Covered(ranges, b / PAGE) ==> DataOnly(Walk(m.pages, root, 4, Indices(offset + b)))
      {
        DirectMapTheorem(m.pages, m.free, w, g, b);
      }
    }
  }
}
