/** Growing the kernel heap: the frames it will need are known exactly before anything is mapped. */
module Heap {
  import opened Numbers
  import opened Options

  const PAGE := 4096
  const GROWTH_PAGES := 256
  const SLOT_PAGES := 0x800_0000
  const SLOT_SIZE := 0x80_0000_0000
  const PER_TABLE := 512
  const PER_DIRECTORY := 0x4_0000
  const MIN_HOLE := 16
  const USER_SLOT := 255
  const USIZE_LIMIT := 0x1_0000_0000_0000_0000

  // ---------- What mapping a page costs ----------

  /** The tables present in the slot: of level 3, of level 2 by gigabyte, of level 1 by block of 2 MiB. */
  datatype Tables = Tables(l3: bool, l2: set<nat>, l1: set<nat>)

  /** Mapping page `p` takes a frame for it and one for each table on its way that is missing. */
  function Cost(t: Tables, p: nat): nat {
    1 + (if t.l3 then 0 else 1) + (if p / PER_DIRECTORY in t.l2 then 0 else 1) + (if p / PER_TABLE in t.l1 then 0 else 1)
  }

  function With(t: Tables, p: nat): Tables {
    Tables(true, t.l2 + {p / PER_DIRECTORY}, t.l1 + {p / PER_TABLE})
  }

  /** The tables under the first `n` pages of the slot. */
  function TablesFor(n: nat): Tables {
    if n == 0 then Tables(false, {}, {}) else With(TablesFor(n - 1), n - 1)
  }

  lemma {:induction false} TablesForMembers(n: nat, i: nat)
    ensures TablesFor(n).l3 == (n > 0)
    ensures i in TablesFor(n).l2 <==> i * PER_DIRECTORY < n
    ensures i in TablesFor(n).l1 <==> i * PER_TABLE < n
  {
    if n > 0 {
      TablesForMembers(n - 1, i);
    }
  }

  /** A new table is needed just at the multiples of what one covers. */
  lemma NextCost(n: nat)
    ensures Cost(TablesFor(n), n) ==
            1 + (if n == 0 then 1 else 0) + (if n % PER_DIRECTORY == 0 then 1 else 0) + (if n % PER_TABLE == 0 then 1 else 0)
  {
    hide TablesFor;
    TablesForMembers(n, n / PER_DIRECTORY);
    TablesForMembers(n, n / PER_TABLE);
  }

  /** The frames that mapping pages `n` to `n + g` takes, page by page. */
  function FramesFor(n: nat, g: nat): nat {
    if g == 0 then 0 else FramesFor(n, g - 1) + Cost(TablesFor(n + g - 1), n + g - 1)
  }

  lemma {:induction false} FramesAdd(n: nat, g: nat, h: nat)
    ensures FramesFor(n, g + h) == FramesFor(n, g) + FramesFor(n + g, h)
  {
    hide Cost;
    if h > 0 {
      FramesAdd(n, g, h - 1);
      assert n + (g + h) - 1 == (n + g) + h - 1;
    }
  }

  lemma {:induction false} FramesGrow(n: nat, g: nat, k: nat)
    requires k <= g
    ensures FramesFor(n, k) <= FramesFor(n, g)
  {
    FramesAdd(n, k, g - k);
  }

  // ---------- The preflight ----------

  function CheckedAdd(a: nat, b: nat): Option<nat> {
    if a + b >= USIZE_LIMIT then None else Some(a + b)
  }

  function CeilDiv(value: nat, divisor: nat): Option<nat>
    requires divisor == PER_TABLE || divisor == PER_DIRECTORY
  {
    var sum := CheckedAdd(value, divisor - 1);
    if sum.None? then None else Some(Quotient(sum.value, divisor))
  }

  function Quotient(value: nat, divisor: nat): nat
    requires divisor == PER_TABLE || divisor == PER_DIRECTORY
  {
    if divisor == PER_TABLE then value / PER_TABLE else value / PER_DIRECTORY
  }

  function AddedTablePages(previous: nat, growth: nat, divisor: nat): Option<nat>
    requires divisor == PER_TABLE || divisor == PER_DIRECTORY
  {
    var end := CheckedAdd(previous, growth);
    if end.None? then None
    else
      var after, before := CeilDiv(end.value, divisor), CeilDiv(previous, divisor);
      if after.None? || before.None? || after.value < before.value then None else Some(after.value - before.value)
  }

  function RequiredFrames(previous: nat, growth: nat): Option<nat> {
    if growth == 0 then None
    else
      var tables := AddedTablePages(previous, growth, PER_TABLE);
      var directories := AddedTablePages(previous, growth, PER_DIRECTORY);
      if tables.None? then None
      else
        var leaves := CheckedAdd(growth, tables.value);
        if leaves.None? || directories.None? then None
        else
          var sum := CheckedAdd(leaves.value, directories.value);
          if sum.None? then None else CheckedAdd(sum.value, if previous == 0 then 1 else 0)
  }

  /** Rounding up grows by one just when a multiple is passed. */
  lemma CeilStep(n: nat)
    ensures (n + PER_TABLE) / PER_TABLE == (n + (PER_TABLE - 1)) / PER_TABLE + (if n % PER_TABLE == 0 then 1 else 0)
    ensures (n + PER_DIRECTORY) / PER_DIRECTORY == (n + (PER_DIRECTORY - 1)) / PER_DIRECTORY + (if n % PER_DIRECTORY == 0 then 1 else 0)
  {
    TableStep(n);
    DirectoryStep(n);
  }

  lemma TableStep(n: nat)
    ensures (n + PER_TABLE) / PER_TABLE == n / PER_TABLE + 1
    ensures (n + (PER_TABLE - 1)) / PER_TABLE == n / PER_TABLE + (if n % PER_TABLE == 0 then 0 else 1)
  {
    var q, r := n / PER_TABLE, n % PER_TABLE;
    assert n == PER_TABLE * q + r;
  }

  lemma DirectoryStep(n: nat)
    ensures (n + PER_DIRECTORY) / PER_DIRECTORY == n / PER_DIRECTORY + 1
    ensures (n + (PER_DIRECTORY - 1)) / PER_DIRECTORY == n / PER_DIRECTORY + (if n % PER_DIRECTORY == 0 then 0 else 1)
  {
    var q, r := n / PER_DIRECTORY, n % PER_DIRECTORY;
    assert n == PER_DIRECTORY * q + r;
  }

  function Rounded(n: nat): int {
    (n + (PER_TABLE - 1)) / PER_TABLE + (n + (PER_DIRECTORY - 1)) / PER_DIRECTORY
  }

  lemma {:induction false} FramesClosed(n: nat, g: nat)
    ensures FramesFor(n, g) == g + (Rounded(n + g) - Rounded(n)) + (if n == 0 && g > 0 then 1 else 0)
  {
    hide Cost, TablesFor;
    if g > 0 {
      FramesClosed(n, g - 1);
      NextCost(n + g - 1);
      CeilStep(n + g - 1);
    }
  }

  /** The preflight is exact: it is the number of frames the mapping loop will take. */
  lemma RequiredIsExact(n: nat, g: nat)
    requires g > 0 && n + g <= SLOT_PAGES
    ensures RequiredFrames(n, g) == Some(FramesFor(n, g))
  {
    hide FramesFor, AddedTablePages;
    FramesClosed(n, g);
    AddedTables(n, g);
    AddedDirectories(n, g);
  }

  lemma AddedTables(n: nat, g: nat)
    requires g > 0 && n + g <= SLOT_PAGES
    ensures var added := (n + g + (PER_TABLE - 1)) / PER_TABLE - (n + (PER_TABLE - 1)) / PER_TABLE;
            0 <= added <= SLOT_PAGES && AddedTablePages(n, g, PER_TABLE) == Some(added)
  {
    assert (n + g + (PER_TABLE - 1)) / PER_TABLE >= (n + (PER_TABLE - 1)) / PER_TABLE;
  }

  lemma AddedDirectories(n: nat, g: nat)
    requires g > 0 && n + g <= SLOT_PAGES
    ensures var added := (n + g + (PER_DIRECTORY - 1)) / PER_DIRECTORY - (n + (PER_DIRECTORY - 1)) / PER_DIRECTORY;
            0 <= added <= SLOT_PAGES && AddedTablePages(n, g, PER_DIRECTORY) == Some(added)
  {
    assert (n + g + (PER_DIRECTORY - 1)) / PER_DIRECTORY >= (n + (PER_DIRECTORY - 1)) / PER_DIRECTORY;
  }

  /** Growing in two steps needs what growing at once needs. */
  lemma RequiredAdds(n: nat, g: nat, h: nat)
    requires g > 0 && h > 0 && n + g + h <= SLOT_PAGES
    ensures RequiredFrames(n, g + h).value == RequiredFrames(n, g).value + RequiredFrames(n + g, h).value
  {
    hide RequiredFrames, FramesFor;
    RequiredIsExact(n, g + h);
    RequiredIsExact(n, g);
    RequiredIsExact(n + g, h);
    FramesAdd(n, g, h);
  }

  // ---------- Sizing ----------

  /** The pages an allocation needs at least, and with room for its alignment. */
  function GrowthPagesForLayout(size: nat, align: nat): (r: Option<(nat, nat)>)
    requires 1 <= align < USIZE_LIMIT && size < USIZE_LIMIT
    ensures r.Some? ==> 1 <= r.value.0 <= r.value.1
    ensures r.Some? ==> PAGE * (r.value.0 - 1) < Max(size, MIN_HOLE) <= PAGE * r.value.0
    ensures r.Some? ==> PAGE * (r.value.1 - 1) < Max(size, MIN_HOLE) + align - 1 <= PAGE * r.value.1
    ensures r.None? <==> Max(size, MIN_HOLE) + (align - 1) + (PAGE - 1) >= USIZE_LIMIT
  {
    var bytes := Max(size, MIN_HOLE);
    if bytes + (PAGE - 1) >= USIZE_LIMIT || bytes + (align - 1) + (PAGE - 1) >= USIZE_LIMIT then None
    else Some(((bytes + (PAGE - 1)) / PAGE, (bytes + (align - 1) + (PAGE - 1)) / PAGE))
  }

  function GrowthChunkPages(target: nat, mapped: nat, available: nat): (pages: nat)
    ensures pages <= GROWTH_PAGES && pages <= available
    ensures target > mapped ==> mapped + pages <= target
    ensures available > 0 ==> pages > 0
  {
    Min(Min(if target > mapped then target - mapped else GROWTH_PAGES, GROWTH_PAGES), available)
  }

  function AvailablePagesInSlot(start: nat, mapped: nat): Option<nat> {
    if start % SLOT_SIZE != 0 || start / SLOT_SIZE == 0 || start / SLOT_SIZE >= 256 || mapped > SLOT_PAGES then None
    else Some(SLOT_PAGES - mapped)
  }

  /** Where the growth begins, if the whole heap stays in its slot of the lower half. */
  function CheckedGrowthStart(start: nat, mapped: nat, additional: nat): (r: Option<nat>)
    ensures r.Some? <==> additional > 0 && start % SLOT_SIZE == 0 && 1 <= start / SLOT_SIZE < 256 && mapped + additional <= SLOT_PAGES
    ensures r.Some? ==> r.value == start + mapped * PAGE
    ensures r.Some? ==> forall b: nat :: r.value <= b < r.value + additional * PAGE ==> b / SLOT_SIZE == start / SLOT_SIZE
  {
    if additional == 0 || start % SLOT_SIZE != 0 || start / SLOT_SIZE == 0 || start / SLOT_SIZE >= 256 then None
    else if start + (mapped + additional) * PAGE > (start / SLOT_SIZE + 1) * SLOT_SIZE then None
    else Some(start + mapped * PAGE)
  }

  /** The lowest unused slot of the lower half, never the first one and never the one for user tasks. */
  method FirstUnusedLowHalfSlot(used: seq<bool>) returns (r: Option<nat>)
    requires |used| == 512
    ensures r.Some? ==> 1 <= r.value < 256 && r.value != USER_SLOT && !used[r.value]
    ensures r.Some? ==> forall i :: 1 <= i < r.value && i != USER_SLOT ==> used[i]
    ensures r.None? ==> forall i :: 1 <= i < 256 && i != USER_SLOT ==> used[i]
  {
    for i := 1 to 256
      invariant forall j :: 1 <= j < i && j != USER_SLOT ==> used[j]
    {
      if i != USER_SLOT && !used[i] {
        return Some(i);
      }
    }
    r := None;
  }
}
