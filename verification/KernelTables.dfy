/** The page tables the kernel starts with: a copy of the firmware's, and the direct map in a free slot of it. */
module KernelTables {
  import opened Options
  import opened PageTables
  import opened PageClone
  import opened DirectMap
  import opened DirectMapBuild

  /** The walk comes to the root, at once or as a lower table, and uses its slot `slot`. */
  predicate EntersSlot(pages: Pages, t: nat, level: nat, idx: seq<Index>, original: nat, slot: Index)
    requires |idx| == level && level >= 1
    decreases level
  {
    t in pages &&
    ((t == original && idx[0] == slot) ||
     (pages[t][idx[0]].present && !IsLeaf(pages[t][idx[0]], level) && EntersSlot(pages, pages[t][idx[0]].addr, level - 1, idx[1..], original, slot)))
  }

  /** Such a walk found nothing while the slot was not in use. */
  lemma {:induction false} EntersNothing(pages: Pages, t: nat, level: nat, idx: seq<Index>, original: nat, slot: Index)
    requires |idx| == level && level >= 1 && EntersSlot(pages, t, level, idx, original, slot)
    requires original in pages && !pages[original][slot].present
    ensures Walk(pages, t, level, idx).Fault?
    decreases level
  {
    if !(t == original && idx[0] == slot) {
      EntersNothing(pages, pages[t][idx[0]].addr, level - 1, idx[1..], original, slot);
    }
  }

  /** Filling one slot of the new root, with tables that are not of the copy, leaves every other walk alone. */
  lemma {:induction false} CopyKeepsWalks(a: Pages, b: Pages, src: nat, dst: nat, tree: nat, level: nat, roots: Roots, own: set<nat>,
                                          reserve: set<nat>, slot: Index, idx: seq<Index>)
    requires |idx| == level && 1 <= level <= tree <= 4 && CopiedTree(a, src, dst, tree, roots, own)
    requires own !! reserve && roots.kernel !in own && (if src == roots.original then dst == roots.kernel else dst in own)
    requires Framed(a, b, reserve, Window(roots.kernel, slot)) && roots.kernel !in reserve
    requires !EntersSlot(a, src, level, idx, roots.original, slot)
    ensures Walk(b, dst, level, idx) == Walk(a, dst, level, idx)
    decreases level
  {
    assert CopyAt(a, src, dst, tree, roots, own, idx[0]);
    assert b[dst][idx[0]] == a[dst][idx[0]];
    var e := a[src][idx[0]];
    if e.present && !IsLeaf(e, level) {
      if e.addr == roots.original {
        CopyKeepsWalks(a, b, roots.original, roots.kernel, 4, level - 1, roots, own, reserve, slot, idx[1..]);
      } else {
        CopyKeepsWalks(a, b, e.addr, a[dst][idx[0]].addr, tree - 1, level - 1, roots, own, reserve, slot, idx[1..]);
      }
    }
  }

  lemma {:induction false} EntersKept(a: Pages, b: Pages, t: nat, tree: nat, level: nat, original: nat, banned: set<nat>, slot: Index, idx: seq<Index>)
    requires |idx| == level && 1 <= level <= tree <= 4 && Same(a, b, banned)
    requires Clear(a, t, tree, original, banned) && Clear(a, original, 4, original, banned)
    ensures EntersSlot(b, t, level, idx, original, slot) <==> EntersSlot(a, t, level, idx, original, slot)
    decreases level
  {
    var e := a[t][idx[0]];
    if e.present && !IsLeaf(e, level) {
      EntersKept(a, b, e.addr, if e.addr == original then 4 else tree - 1, level - 1, original, banned, slot, idx[1..]);
    }
  }

  lemma SlotWasFree(a: Pages, b: Pages, roots: Roots, own: set<nat>, banned: set<nat>, slot: Index)
    requires Clear(a, roots.original, 4, roots.original, banned) && Same(a, b, banned)
    requires CopiedTree(b, roots.original, roots.kernel, 4, roots, own) && !b[roots.kernel][slot].present
    ensures !a[roots.original][slot].present
  {
    assert CopyAt(b, roots.original, roots.kernel, 4, roots, own, slot);
  }

  /**
   * Copies the tables and builds the direct map in the copy. Under the new root, the window finds every byte
   * of RAM at itself and nothing else, and every walk that does not come to the window's slot ends as it did
   * under the old root, up to entries that name a copied table; a walk that does come there found nothing before.
   */
  method CloneActivePageTables(m: Memory, original: nat, ranges: seq<Extent>) returns (s: Status, root: nat, slot: Index, offset: nat, ghost own: set<nat>)
    requires m.Valid() && original in m.pages && Clear(m.pages, original, 4, original, m.free)
    requires Disjoint(ranges) && forall i :: 0 <= i < |ranges| ==> ranges[i].first + ranges[i].count <= WINDOW_PAGES
    modifies m
    ensures m.Valid() && (s == Success || s == OutOfResources)
    ensures forall f :: f in old(m.pages) && f !in old(m.free) ==> f in m.pages && m.pages[f] == old(m.pages)[f]
    ensures s == Success ==> forall b: nat :: b < WINDOW ==>
              Translate(m.pages, root, offset + b) == if Covered(ranges, b / PAGE) then Some(b) else None
    ensures s == Success ==> own <= old(m.free) && forall idx: seq<Index> :: |idx| == 4 ==>
              if EntersSlot(old(m.pages), original, 4, idx, original, slot) then Walk(old(m.pages), original, 4, idx).Fault?
              else Alike(Walk(old(m.pages), original, 4, idx), Walk(m.pages, root, 4, idx), EndMoved(old(m.pages), original, 4, 4, idx, original), own)
  {
    hide Clear, Copy, Walk, EndMoved, EntersSlot, CopiedTree, Translate, Covered, Disjoint, Alike;
    ghost var banned, before := m.free, m.pages;
    var copied;
    ghost var tables;
    copied, tables := CloneRoot(m, original);
    own := {};
    if copied.None? {
      return OutOfResources, 0, 0, 0, own;
    }
    root := copied.value;
    own := tables + {root};
    ghost var mid, free := m.pages, m.free;
    s, slot, offset := BuildPhysicalMemoryMapping(m, root, ranges);
    if s != Success {
      return;
    }
    ghost var roots := Roots(original, root);
    SlotWasFree(before, mid, roots, tables, banned, slot);
    forall idx: seq<Index> | |idx| == 4
      ensures if EntersSlot(before, original, 4, idx, original, slot) then Walk(before, original, 4, idx).Fault?
              else Alike(Walk(before, original, 4, idx), Walk(m.pages, root, 4, idx), EndMoved(before, original, 4, 4, idx, original), own)
    {
      EntersKept(before, mid, original, 4, 4, original, banned, slot, idx);
      if EntersSlot(before, original, 4, idx, original, slot) {
        EntersNothing(before, original, 4, idx, original, slot);
      } else {
        CopyKeepsWalks(mid, m.pages, original, root, 4, 4, roots, tables, free, slot, idx);
      }
    }
  }
}
