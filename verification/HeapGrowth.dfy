/** The heap object: growth that cannot run out of frames half way, and a retry loop that ends. */
module HeapGrowth {
  import opened Numbers
  import opened Options
  import opened Heap
  import Frames

  datatype HeapError = NoVirtualRange | InsufficientPhysicalMemory | OutOfFrames | Refused | RollbackFailed | AlreadyInitialized

  datatype Result<+T> = Ok(value: T) | Err(error: HeapError)

  /** Room on the stack of returned frames, and what must be left of it before a page is unmapped. */
  const STACK: nat := Frames.RECLAIM_CAPACITY
  const PER_UNMAP := 4

  /**
   * The memory manager as the heap sees it: the frames to be had, how many of them are on the stack of
   * returned frames, and the pages and tables of the heap's slot.
   */
  class Manager {
    var available: nat
    var stack: nat
    var pages: nat
    var tables: Tables
    var used: seq<bool>

    /** How often the mapper has refused a page for reasons of its own. */
    ghost var refusals: nat

    /** The pages mapped in the slot are the first `pages`, with exactly the tables they need. */
    ghost predicate Valid()
      reads this
    {
      |used| == 512 && stack <= available && stack <= STACK && tables == TablesFor(pages)
    }

    /**
     * Maps the next page. The mapper takes one frame per missing level, from the stack first, and may
     * refuse for reasons of its own after taking some; these then come back on the stack.
     */
    method AllocateAndMap() returns (r: Result<()>, ghost took: nat)
      requires Valid()
      modifies this`available, this`stack, this`pages, this`tables, this`refusals
      ensures Valid()
      ensures r.Ok? ==> pages == old(pages) + 1 && took == Cost(TablesFor(old(pages)), old(pages))
                        && available + took == old(available) && stack == Less(old(stack), took)
      ensures r.Err? ==> pages == old(pages) && available == old(available) && (r.error == Refused || r.error == OutOfFrames)
      ensures r == Err(Refused) ==> 1 <= took <= Cost(TablesFor(pages), pages) && stack == Max(old(stack), took)
      ensures refusals == old(refusals) + if r == Err(Refused) then 1 else 0
      ensures r == Err(OutOfFrames) ==> available < Cost(TablesFor(pages), pages)
    {
      var refusedAfter: nat := *;
      if 1 <= refusedAfter <= Cost(tables, pages) && refusedAfter <= available {
        stack := Max(stack, refusedAfter);
        refusals := refusals + 1;
        return Err(Refused), refusedAfter;
      }
      if available < Cost(tables, pages) {
        stack := available;
        return Err(OutOfFrames), available;
      }
      took := Cost(tables, pages);
      available := available - Cost(tables, pages);
      stack := Less(stack, Cost(tables, pages));
      tables := With(tables, pages);
      pages := pages + 1;
      r := Ok(());
    }

    /**
     * Unmaps a page of the heap and gives back its frame and every table left empty. It is refused when
     * the stack might not hold them all, and only then: the page is mapped, to a frame of the allocator.
     */
    method UnmapAndDeallocate(page: nat) returns (ok: bool)
      requires Valid() && page < pages && (stack <= STACK - PER_UNMAP ==> page == pages - 1)
      modifies this`available, this`stack, this`pages, this`tables
      ensures Valid() && ok == (old(stack) <= STACK - PER_UNMAP)
      ensures ok ==> pages == page && available == old(available) + Cost(TablesFor(page), page) && stack == old(stack) + Cost(TablesFor(page), page)
      ensures !ok ==> pages == old(pages) && available == old(available) && stack == old(stack)
    {
      if stack > STACK - PER_UNMAP {
        return false;
      }
      pages := page;
      tables := TablesFor(page);
      available := available + Cost(tables, page);
      stack := stack + Cost(tables, page);
      ok := true;
    }
  }

  /** Unmapping `count` pages from `base` on, last first, with `stack` frames on the stack, is never refused. */
  predicate Fits(base: nat, count: nat, stack: nat) {
    count == 0 || stack + FramesFor(base + 1, count - 1) <= STACK - PER_UNMAP
  }

  /**
   * The mapping loop of `grow`, entered once the frames have been counted. When a page is refused, after
   * `done` pages and having cost `took` frames for a moment, the rollback succeeds just if the stack has room.
   */
  method MapChunk(m: Manager, count: nat) returns (r: Result<()>, ghost done: nat, ghost took: nat)
    requires m.Valid() && m.available >= FramesFor(m.pages, count)
    modifies m`available, m`stack, m`pages, m`tables, m`refusals
    ensures m.Valid() && done <= count && (r.Err? ==> done < count && 1 <= took <= Cost(TablesFor(old(m.pages) + done), old(m.pages) + done))
    ensures old(m.pages) <= m.pages && m.available + FramesFor(old(m.pages), m.pages - old(m.pages)) == old(m.available)
    ensures r.Ok? ==> m.pages == old(m.pages) + count
    ensures m.refusals == old(m.refusals) + if r.Ok? then 0 else 1
    ensures r.Err? ==> r.error == if Recovers(old(m.pages), done, took, old(m.stack)) then Refused else RollbackFailed
    ensures r == Err(Refused) ==> m.pages == old(m.pages)
    ensures r == Err(RollbackFailed) ==> m.pages > old(m.pages)
  {
    hide Cost, TablesFor, FramesFor, Recovers;
    var base := m.pages;
    var mapped := 0;
    FramesNone(base);
    while mapped < count
      invariant m.Valid() && mapped <= count && m.pages == base + mapped
      invariant m.available + FramesFor(base, mapped) == old(m.available)
      invariant m.stack == Less(old(m.stack), FramesFor(base, mapped)) && m.refusals == old(m.refusals)
    {
      FramesGrow(base, count, mapped + 1);
      FramesStep(base, mapped);
      var step;
      step, took := m.AllocateAndMap();
      if step.Err? {
        done := mapped;
        RecoversIff(base, mapped, took, old(m.stack));
        r := Rollback(m, base, mapped);
        return;
      }
      mapped := mapped + 1;
    }
    done, took := count, 0;
    r := Ok(());
  }

  /** Unmaps the pages mapped so far, last first. */
  method Rollback(m: Manager, base: nat, count: nat) returns (r: Result<()>)
    requires m.Valid() && m.pages == base + count
    modifies m`available, m`stack, m`pages, m`tables
    ensures m.Valid() && r == Err(if Fits(base, count, old(m.stack)) then Refused else RollbackFailed)
    ensures base <= m.pages && m.available + FramesFor(base, m.pages - base) == old(m.available) + FramesFor(base, count)
    ensures m.pages == base <==> r == Err(Refused)
  {
    hide Cost, TablesFor, FramesFor;
    var mapped: nat, failed := count, false;
    while mapped != 0
      invariant m.Valid() && mapped <= count
      invariant !failed ==> m.pages == base + mapped && (Fits(base, count, old(m.stack)) <==> Fits(base, mapped, m.stack))
      invariant failed ==> base + mapped < m.pages && m.stack > STACK - PER_UNMAP && !Fits(base, count, old(m.stack))
      invariant m.available + FramesFor(base, m.pages - base) == old(m.available) + FramesFor(base, count)
    {
      mapped := mapped - 1;
      FitsStep(base, mapped, m.stack);
      FramesStep(base, mapped);
      var ok := m.UnmapAndDeallocate(base + mapped);
      if !ok {
        failed := true;
      }
    }
    r := Err(if failed then RollbackFailed else Refused);
  }

  lemma FramesNone(n: nat)
    ensures FramesFor(n, 0) == 0
  {
  }

  lemma FramesStep(n: nat, g: nat)
    ensures FramesFor(n, g + 1) == FramesFor(n, g) + Cost(TablesFor(n + g), n + g)
  {
    hide Cost, TablesFor;
  }

  /** Unmapping starts with the last page, whose own frames count against the pages below it. */
  lemma FitsStep(base: nat, count: nat, stack: nat)
    ensures Fits(base, count + 1, stack) <==> stack <= STACK - PER_UNMAP && Fits(base, count, stack + Cost(TablesFor(base + count), base + count))
  {
    hide Cost, TablesFor, FramesFor;
    FramesNone(base + 1);
    if count > 0 {
      FramesStep(base + 1, count - 1);
      assert base + 1 + (count - 1) == base + count;
    }
  }

  // ---------- When a rollback fits ----------

  /**
   * Whether a growth from `base` on that is refused after `done` pages can be undone, told at its start:
   * by the frames on the stack then, the pages mapped, and the frames the refused page took for a moment.
   */
  predicate Recovers(base: nat, done: nat, took: nat, stack: nat) {
    done == 0 || (stack <= STACK - PER_UNMAP + Cost(TablesFor(base), base) && took + FramesFor(base + 1, done - 1) <= STACK - PER_UNMAP)
  }

  lemma RecoversIff(base: nat, done: nat, took: nat, stack: nat)
    ensures Recovers(base, done, took, stack) <==> Fits(base, done, Max(Less(stack, FramesFor(base, done)), took))
  {
    hide Cost, TablesFor, FramesFor;
    if done > 0 {
      FramesAdd(base, 1, done - 1);
      FramesStep(base, 0);
      FramesNone(base);
    }
  }

  /** At most two tables begin within a chunk that follows its first page. */
  lemma ChunkFrames(base: nat, done: nat)
    requires done <= GROWTH_PAGES
    ensures FramesFor(base + 1, done) <= done + 2
  {
    hide FramesFor;
    FramesClosed(base + 1, done);
    TableCeil(base + 1, done);
    DirectoryCeil(base + 1, done);
  }

  lemma TableCeil(n: nat, g: nat)
    requires g <= GROWTH_PAGES
    ensures (n + g + (PER_TABLE - 1)) / PER_TABLE <= (n + (PER_TABLE - 1)) / PER_TABLE + 1
  {
  }

  lemma DirectoryCeil(n: nat, g: nat)
    requires g <= GROWTH_PAGES
    ensures (n + g + (PER_DIRECTORY - 1)) / PER_DIRECTORY <= (n + (PER_DIRECTORY - 1)) / PER_DIRECTORY + 1
  {
  }

  /** A chunk that stops a little short of the largest recovers from any refusal, unless the stack was all but full. */
  lemma ShortChunksRecover(base: nat, done: nat, took: nat, stack: nat)
    requires done + took <= GROWTH_PAGES - 1 && stack <= STACK - PER_UNMAP + 1
    ensures Recovers(base, done, took, stack)
  {
    hide FramesFor, TablesFor;
    if done > 0 {
      ChunkFrames(base, done - 1);
    }
  }

  /** With a full stack, a growth refused after its first page cannot be undone, unless that page began a run of tables. */
  lemma FullStackSticks(base: nat, took: nat)
    requires base % PER_TABLE != 0
    ensures !Recovers(base, 1, took, STACK)
  {
    hide TablesFor, FramesFor, Cost;
    NextCost(base);
    assert base % PER_DIRECTORY != 0 by { Divides(base); }
  }

  lemma Divides(n: nat)
    ensures n % PER_DIRECTORY == 0 ==> n % PER_TABLE == 0
  {
    if n % PER_DIRECTORY == 0 {
      var q := n / PER_DIRECTORY;
      assert n == PER_TABLE * (512 * q);
    }
  }

  /** Even with an empty stack, a largest chunk across a gigabyte that is refused at its last page cannot be undone. */
  lemma LargestChunkSticks()
    ensures !Recovers(PER_DIRECTORY - 2, GROWTH_PAGES - 1, 1, 0)
  {
    hide FramesFor, TablesFor;
    FramesClosed(PER_DIRECTORY - 1, GROWTH_PAGES - 2);
  }

  // ---------- The heap ----------

  /** A chunk of `n` pages is allowed: not too large, within the slot, and not past a target that is still ahead. */
  predicate Allowed(mapped: nat, target: nat, n: nat) {
    n <= GROWTH_PAGES && mapped + n <= SLOT_PAGES && (target > mapped ==> mapped + n <= target)
  }

  /** The largest chunk allowed. */
  ghost function Chunk(mapped: nat, target: nat): (n: nat)
    requires mapped <= SLOT_PAGES
    ensures Allowed(mapped, target, n) && !Allowed(mapped, target, n + 1)
  {
    if target > mapped && target <= SLOT_PAGES && target - mapped <= GROWTH_PAGES then target - mapped
    else if SLOT_PAGES - mapped <= GROWTH_PAGES then SLOT_PAGES - mapped
    else GROWTH_PAGES
  }

  /** The lowest slot of the lower half that nothing uses, leaving out the first and the user tasks'. */
  ghost predicate LowestUnused(used: seq<bool>, slot: nat) {
    && |used| == 512 && 1 <= slot < 256 && slot != USER_SLOT && !used[slot]
    && forall i :: 1 <= i < slot && i != USER_SLOT ==> used[i]
  }

  class KernelHeap {
    const manager: Manager
    var initialized: bool
    var poisoned: bool
    var start: Option<nat>
    var mapped: nat

    /** The heap is in one slot of the lower half that is not the user tasks', and is all that is mapped there unless poisoned. */
    ghost predicate Valid()
      reads this, manager
    {
      && manager.Valid()
      && mapped <= manager.pages && (poisoned <==> mapped < manager.pages)
      && mapped <= SLOT_PAGES
      && (start.None? ==> mapped == 0)
      && (start.Some? ==> start.value % SLOT_SIZE == 0 && 1 <= start.value / SLOT_SIZE < 256 && start.value / SLOT_SIZE != USER_SLOT)
    }

    constructor (manager: Manager)
      requires manager.Valid() && manager.pages == 0
      ensures Valid() && this.manager == manager && !poisoned && !initialized && start == None && mapped == 0
    {
      this.manager := manager;
      initialized, poisoned, start, mapped := false, false, None, 0;
    }

    /** There is a slot for the heap, its own or one that nothing uses, and it has room. */
    ghost predicate HasRoom()
      reads this, manager
    {
      mapped < SLOT_PAGES && (start.Some? || exists i :: 1 <= i < 256 && i != USER_SLOT && |manager.used| == 512 && !manager.used[i])
    }

    /** What stands in the way of growing towards `target`, apart from the mapper. */
    ghost function Obstacle(target: nat): Option<HeapError>
      requires mapped <= SLOT_PAGES
      reads this, manager
    {
      if !HasRoom() then Some(NoVirtualRange)
      else if manager.available < FramesFor(mapped, Chunk(mapped, target)) then Some(InsufficientPhysicalMemory)
      else None
    }

    /** Where the heap begins, or will begin. */
    ghost predicate Begins(at: nat)
      reads this, manager
    {
      if start.Some? then at == start.value else at % SLOT_SIZE == 0 && LowestUnused(manager.used, at / SLOT_SIZE)
    }

    /** Where the next chunk goes and how many pages it has, once the frames for it have been counted. */
    method Preflight(target: nat) returns (r: Result<(nat, nat)>)
      requires Valid() && !poisoned
      ensures Obstacle(target).Some? ==> r == Err(Obstacle(target).value)
      ensures Obstacle(target).None? ==> r.Ok? && r.value.1 == Chunk(mapped, target) && r.value.0 >= mapped * PAGE && Begins(r.value.0 - mapped * PAGE)
    {
      hide FramesFor, TablesFor, RequiredFrames;
      var base := start;
      if base.None? {
        var slot := FirstUnusedLowHalfSlot(manager.used);
        if slot.None? {
          return Err(NoVirtualRange);
        }
        base := Some(slot.value * SLOT_SIZE);
      }
      var room := AvailablePagesInSlot(base.value, mapped);
      if room.None? {
        return Err(NoVirtualRange);
      }
      var pages := GrowthChunkPages(target, mapped, room.value);
      if pages == 0 {
        return Err(NoVirtualRange);
      }
      var from := CheckedGrowthStart(base.value, mapped, pages);
      if from.None? {
        return Err(NoVirtualRange);
      }
      var required := RequiredFrames(mapped, pages);
      RequiredIsExact(mapped, pages);
      if required.None? || manager.available < required.value {
        return Err(InsufficientPhysicalMemory);
      }
      r := Ok((from.value, pages));
    }

    /**
     * Grows the heap by one chunk. Once the frame check has passed, frames cannot run out; a failure
     * that is rolled back leaves everything as it was.
     */
    method Grow(target: nat) returns (r: Result<()>)
      requires Valid()
      modifies this`start, this`mapped, this`poisoned, manager`available, manager`stack, manager`pages, manager`tables, manager`refusals
      ensures Valid() && (old(poisoned) ==> poisoned)
      ensures old(poisoned) ==> r == Err(RollbackFailed) && manager.refusals == old(manager.refusals)
      ensures !old(poisoned) && old(Obstacle(target)).Some? ==> r == Err(old(Obstacle(target)).value) && !poisoned && manager.refusals == old(manager.refusals)
      ensures !old(poisoned) && old(Obstacle(target)).None? ==>
                if manager.refusals == old(manager.refusals)
                then r.Ok? && mapped == old(mapped) + Chunk(old(mapped), target) && start.Some? && (var at := start.value; old(Begins(at)))
                else r == Err(if poisoned then RollbackFailed else Refused)
      ensures r.Err? ==> r.error != OutOfFrames && mapped == old(mapped) && start == old(start)
      ensures r.Ok? ==> !poisoned && old(mapped) < mapped <= old(mapped) + GROWTH_PAGES && start.Some?
      ensures r.Ok? && old(start).Some? ==> start == old(start)
      ensures r.Ok? && target > old(mapped) ==> mapped <= target
      ensures r.Ok? ==> manager.available + FramesFor(old(mapped), mapped - old(mapped)) == old(manager.available)
      ensures r.Err? && !poisoned ==> manager.available == old(manager.available)
      ensures old(manager.pages) <= manager.pages && manager.available + FramesFor(old(manager.pages), manager.pages - old(manager.pages)) == old(manager.available)
      ensures !old(poisoned) && old(mapped) < target < old(mapped) + GROWTH_PAGES - PER_UNMAP && old(manager.stack) <= STACK - PER_UNMAP + 1 ==> !poisoned
      ensures old(manager.refusals) <= manager.refusals
    {
      hide FramesFor, TablesFor, Recovers;
      FramesNone(manager.pages);
      if poisoned {
        return Err(RollbackFailed);
      }
      var chunk := Preflight(target);
      if chunk.Err? {
        return Err(chunk.error);
      }
      var (from, pages) := chunk.value;
      ghost var done, took;
      r, done, took := MapChunk(manager, pages);
      if r.Err? {
        if done + took < GROWTH_PAGES && old(manager.stack) <= STACK - PER_UNMAP + 1 {
          ShortChunksRecover(old(mapped), done, took, old(manager.stack));
        }
        if r.error == RollbackFailed {
          poisoned := true;
        }
        return;
      }
      if start.None? {
        start := Some(from);
      }
      mapped := mapped + pages;
    }

    method Initialize() returns (r: Result<()>)
      requires Valid()
      modifies this, manager`available, manager`stack, manager`pages, manager`tables, manager`refusals
      ensures Valid()
      ensures initialized <==> old(initialized) || r.Ok?
      ensures r.Ok? ==> 1 <= mapped
      ensures old(initialized) ==> r == Err(AlreadyInitialized)
      ensures !old(initialized) && old(poisoned) ==> r == Err(RollbackFailed)
      ensures old(initialized) || old(poisoned) ==> mapped == old(mapped) && start == old(start) && poisoned == old(poisoned)
      ensures !old(initialized) && !old(poisoned) ==>
                if old(Obstacle(GROWTH_PAGES)).Some? then r == Err(old(Obstacle(GROWTH_PAGES)).value) && !poisoned && mapped == old(mapped)
                else if manager.refusals == old(manager.refusals)
                then r.Ok? && mapped == old(mapped) + Chunk(old(mapped), GROWTH_PAGES) && start.Some? && (var at := start.value; old(Begins(at)))
                else r == Err(if poisoned then RollbackFailed else Refused) && mapped == old(mapped)
    {
      if initialized {
        return Err(AlreadyInitialized);
      }
      if poisoned {
        return Err(RollbackFailed);
      }
      hide FramesFor, TablesFor;
      r := Grow(GROWTH_PAGES);
      if r.Err? {
        return;
      }
      initialized := true;
    }

    /** The free-list allocator is not modelled: whether it finds room is left open each time it is asked. */
    method AllocateFirstFit() returns (found: bool)
    {
      found := *;
    }

    /** The heap is in use, the request fits the slot, and there are frames for what it needs at least. */
    ghost predicate MayGrowFor(size: nat, align: nat)
      requires 1 <= align < USIZE_LIMIT && size < USIZE_LIMIT
      reads this, manager
    {
      && initialized && !poisoned && mapped <= SLOT_PAGES
      && var pages := GrowthPagesForLayout(size, align);
      && pages.Some? && pages.value.1 <= SLOT_PAGES
      && (pages.value.0 > mapped ==> manager.available >= FramesFor(mapped, pages.value.0 - mapped))
    }

    /**
     * Allocates, growing the heap as long as that can help. The loop ends, because every round maps
     * pages of a slot of fixed size, and an allocation that asked for growth never grows past its target.
     */
    method Alloc(size: nat, align: nat) returns (found: bool)
      requires Valid() && 1 <= align < USIZE_LIMIT && size < USIZE_LIMIT
      modifies this`start, this`mapped, this`poisoned, manager`available, manager`stack, manager`pages, manager`tables, manager`refusals
      ensures Valid() && old(mapped) <= mapped
      ensures var pages := GrowthPagesForLayout(size, align);
              pages.Some? && pages.value.1 > old(mapped) ==> mapped <= pages.value.1
      ensures GrowthPagesForLayout(size, align).None? ==> mapped == old(mapped)
      ensures old(MayGrowFor(size, align)) && !found ==>
                var target := GrowthPagesForLayout(size, align).value.1;
                (target > old(mapped) && mapped == target) || Obstacle(target).Some? || manager.refusals > old(manager.refusals)
    {
      hide FramesFor, TablesFor, RequiredFrames;
      if !initialized || poisoned {
        return false;
      }
      found := AllocateFirstFit();
      if found {
        return;
      }
      var sizes := GrowthPagesForLayout(size, align);
      if sizes.None? {
        return false;
      }
      var (minimum, target) := sizes.value;
      if target > SLOT_PAGES {
        return false;
      }
      if minimum > mapped {
        var required := RequiredFrames(mapped, minimum - mapped);
        RequiredIsExact(mapped, minimum - mapped);
        if required.None? || manager.available < required.value {
          return false;
        }
      }
      var growing := target > mapped;
      while true
        invariant Valid() && old(mapped) <= mapped
        invariant (growing ==> mapped < target) && !poisoned && manager.refusals == old(manager.refusals)
        decreases SLOT_PAGES - mapped
      {
        var grown := Grow(target);
        if grown.Err? {
          return false;
        }
        found := AllocateFirstFit();
        if found {
          return;
        }
        if growing && mapped >= target {
          return false;
        }
      }
    }
  }

  /** Every byte of the heap is in the slot it started in. */
  lemma StaysInSlot(start: nat, mapped: nat, b: nat)
    requires start % SLOT_SIZE == 0 && mapped <= SLOT_PAGES && start <= b < start + mapped * PAGE
    ensures b / SLOT_SIZE == start / SLOT_SIZE
  {
    assert start == SLOT_SIZE * (start / SLOT_SIZE);
  }
}
