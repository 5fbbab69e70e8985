/** Copying a page-table tree: the copy translates as the original does. */
module PageClone {
  import opened Options
  import opened PageTables

  /** The root being copied and the root of the copy. */
  datatype Roots = Roots(original: nat, kernel: nat)

  /** An entry the copy treats as a table to descend into. */
  predicate Descends(e: Entry, level: nat, original: nat) {
    e.present && level > 1 && e.addr != original && !e.huge
  }

  /** No table of the tree below `t` is a page in `banned`. */
  ghost predicate Clear(pages: Pages, t: nat, level: nat, original: nat, banned: set<nat>)
    decreases level
  {
    && t in pages && t !in banned
    && (forall i: Index :: level > 0 && Descends(pages[t][i], level, original) ==>
          Clear(pages, pages[t][i].addr, level - 1, original, banned))
  }

  /** What the copy holds for an entry it does not descend into. */
  function Copied(e: Entry, level: nat, roots: Roots): Entry {
    if e.present && level > 1 && e.addr == roots.original then e.(addr := roots.kernel) else e
  }

  /** `dst` is a copy of `src`, with every table below it in `own`. */
  ghost predicate Copy(pages: Pages, src: nat, dst: nat, level: nat, roots: Roots, own: set<nat>)
    decreases level, 1
  {
    src in pages && dst in pages && forall i: Index :: CopyAt(pages, src, dst, level, roots, own, i)
  }

  ghost predicate CopyAt(pages: Pages, src: nat, dst: nat, level: nat, roots: Roots, own: set<nat>, i: Index)
    requires src in pages && dst in pages
    decreases level, 0
  {
    var e, e' := pages[src][i], pages[dst][i];
    if level > 0 && Descends(e, level, roots.original)
    then e' == e.(addr := e'.addr) && e'.addr in own && Copy(pages, e.addr, e'.addr, level - 1, roots, own)
    else e' == Copied(e, level, roots)
  }

  /** Nothing outside `written` has changed. */
  ghost predicate Same(a: Pages, b: Pages, written: set<nat>) {
    a.Keys == b.Keys && forall f :: f in a && f !in written ==> b[f] == a[f]
  }

  lemma {:induction false} ClearKept(a: Pages, b: Pages, t: nat, level: nat, roots: Roots, banned: set<nat>)
    requires Clear(a, t, level, roots.original, banned) && Same(a, b, banned)
    ensures Clear(b, t, level, roots.original, banned)
    decreases level
  {
    forall i: Index | level > 0 && Descends(b[t][i], level, roots.original) ensures Clear(b, b[t][i].addr, level - 1, roots.original, banned) {
      ClearKept(a, b, a[t][i].addr, level - 1, roots, banned);
    }
  }

  /** A finished copy stays one while nothing of it, and nothing of its source, is written. */
  lemma {:induction false} CopyKept(a: Pages, b: Pages, src: nat, dst: nat, level: nat, roots: Roots, own: set<nat>, own': set<nat>,
                                    banned: set<nat>, written: set<nat>)
    requires Copy(a, src, dst, level, roots, own) && Clear(a, src, level, roots.original, banned)
    requires Same(a, b, written) && written <= banned && written !! own && own <= own' && dst !in written
    ensures Copy(b, src, dst, level, roots, own')
    decreases level
  {
    forall i: Index ensures CopyAt(b, src, dst, level, roots, own', i) {
      CopyAtKept(a, b, src, dst, level, roots, own, own', banned, written, i);
    }
  }

  lemma {:induction false} CopyAtKept(a: Pages, b: Pages, src: nat, dst: nat, level: nat, roots: Roots, own: set<nat>, own': set<nat>,
                                      banned: set<nat>, written: set<nat>, i: Index)
    requires src in a && dst in a && CopyAt(a, src, dst, level, roots, own, i) && Clear(a, src, level, roots.original, banned)
    requires Same(a, b, written) && written <= banned && written !! own && own <= own' && b[dst][i] == a[dst][i]
    ensures CopyAt(b, src, dst, level, roots, own', i)
    decreases level, 0
  {
    var e := a[src][i];
    if level > 0 && Descends(e, level, roots.original) {
      CopyKept(a, b, e.addr, a[dst][i].addr, level - 1, roots, own, own', banned, written);
    }
  }

  // ---------- The copying ----------

  /** The first `n` entries of `dst` have been copied. */
  ghost predicate CopyBelow(pages: Pages, src: nat, dst: nat, level: nat, roots: Roots, own: set<nat>, n: nat)
    requires n <= ENTRIES
  {
    src in pages && dst in pages && forall i: Index :: i < n ==> CopyAt(pages, src, dst, level, roots, own, i)
  }

  /** One more entry: the ones before it are untouched. */
  lemma CopyMore(a: Pages, b: Pages, src: nat, dst: nat, level: nat, roots: Roots, own: set<nat>, own': set<nat>,
                 banned: set<nat>, written: set<nat>, i: Index)
    requires CopyBelow(a, src, dst, level, roots, own, i) && Clear(a, src, level, roots.original, banned)
    requires Same(a, b, written) && written <= banned && written !! own && own <= own'
    requires forall k: Index :: k < i ==> b[dst][k] == a[dst][k]
    requires dst in b && src in b && CopyAt(b, src, dst, level, roots, own', i)
    ensures CopyBelow(b, src, dst, level, roots, own', i + 1)
  {
    forall k: Index | k < i + 1 ensures CopyAt(b, src, dst, level, roots, own', k) {
      if k < i {
        CopyAtKept(a, b, src, dst, level, roots, own, own', banned, written, k);
      }
    }
  }

  /** An entry without a table below it, stored as it should be. */
  lemma CopyPlain(a: Pages, b: Pages, src: nat, dst: nat, level: nat, roots: Roots, own: set<nat>, banned: set<nat>, i: Index)
    requires CopyBelow(a, src, dst, level, roots, own, i) && Clear(a, src, level, roots.original, banned) && dst in banned && dst !in own
    requires !Descends(a[src][i], level, roots.original) && b == a[dst := a[dst][i := Copied(a[src][i], level, roots)]]
    ensures CopyBelow(b, src, dst, level, roots, own, i + 1) && Clear(b, src, level, roots.original, banned)
  {
    ClearKept(a, b, src, level, roots, banned);
    assert CopyAt(b, src, dst, level, roots, own, i);
    CopyMore(a, b, src, dst, level, roots, own, own, banned, {dst}, i);
  }

  /** An entry with a table below it, which has been copied to `child`. */
  lemma CopyDescended(a: Pages, mid: Pages, b: Pages, src: nat, dst: nat, level: nat, roots: Roots, own: set<nat>, below: set<nat>,
                      banned: set<nat>, written: set<nat>, i: Index, child: nat)
    requires CopyBelow(a, src, dst, level, roots, own, i) && Clear(a, src, level, roots.original, banned) && level > 1
    requires Same(a, mid, written) && written <= banned && written !! own && dst in written && dst !in below && dst != child
    requires forall k: Index :: k < i ==> mid[dst][k] == a[dst][k]
    requires dst in mid && Descends(a[src][i], level, roots.original) && Copy(mid, a[src][i].addr, child, level - 1, roots, below)
    requires b == mid[dst := mid[dst][i := a[src][i].(addr := child)]]
    ensures CopyBelow(b, src, dst, level, roots, own + below + {child}, i + 1) && Clear(b, src, level, roots.original, banned)
  {
    var own' := own + below + {child};
    var e := a[src][i];
    ClearKept(a, b, src, level, roots, banned);
    ClearKept(a, mid, e.addr, level - 1, roots, banned);
    CopyKept(mid, b, e.addr, child, level - 1, roots, below, own', banned, {dst});
    assert CopyAt(b, src, dst, level, roots, own', i);
    CopyMore(a, b, src, dst, level, roots, own, own', banned, written, i);
  }

  lemma CopyWhole(pages: Pages, src: nat, dst: nat, level: nat, roots: Roots, own: set<nat>)
    requires CopyBelow(pages, src, dst, level, roots, own, ENTRIES)
    ensures Copy(pages, src, dst, level, roots, own)
  {
  }

  lemma CopyKnown(pages: Pages, src: nat, dst: nat, level: nat, roots: Roots, own: set<nat>, n: nat)
    requires n <= ENTRIES && CopyBelow(pages, src, dst, level, roots, own, n)
    ensures src in pages && dst in pages
  {
  }

  lemma CopyStart(pages: Pages, src: nat, dst: nat, level: nat, roots: Roots, banned: set<nat>)
    requires Clear(pages, src, level, roots.original, banned) && dst in pages
    ensures src in pages && src !in banned && CopyBelow(pages, src, dst, level, roots, {}, 0)
  {
  }

  lemma ChildClear(a: Pages, b: Pages, src: nat, dst: nat, level: nat, roots: Roots, banned: set<nat>, i: Index)
    requires Clear(a, src, level, roots.original, banned) && dst in banned && Same(a, b, {dst}) && level > 1 && Descends(a[src][i], level, roots.original)
    ensures Clear(b, a[src][i].addr, level - 1, roots.original, banned)
  {
    ClearKept(a, b, a[src][i].addr, level - 1, roots, banned);
  }

  /** Copies the table at `src` into the page `dst`, and everything below it into new pages. */
  method CloneLevel(m: Memory, roots: Roots, src: nat, dst: nat, level: nat, ghost banned: set<nat>)
    returns (ok: bool, ghost own: set<nat>)
    requires m.Valid() && 1 <= level && Clear(m.pages, src, level, roots.original, banned)
    requires dst in m.pages && dst !in m.free && dst in banned && m.free <= banned
    modifies m
    ensures m.Valid() && m.free <= old(m.free) && own == old(m.free) - m.free
    ensures Same(old(m.pages), m.pages, own + {dst})
    ensures ok ==> Copy(m.pages, src, dst, level, roots, own)
    decreases level, 1
  {
    hide Clear, CopyBelow, Copy;
    own := {};
    CopyStart(m.pages, src, dst, level, roots, banned);
    for index := 0 to ENTRIES
      invariant m.Valid() && m.free <= old(m.free) && own == old(m.free) - m.free
      invariant Same(old(m.pages), m.pages, own + {dst})
      invariant Clear(m.pages, src, level, roots.original, banned)
      invariant CopyBelow(m.pages, src, dst, level, roots, own, index)
    {
      CopyKnown(m.pages, src, dst, level, roots, own, index);
      ghost var more;
      ok, more := CloneEntry(m, roots, src, dst, level, index, banned, own);
      own := own + more;
      if !ok {
        return;
      }
    }
    ok := true;
    CopyWhole(m.pages, src, dst, level, roots, own);
  }

  /** One round of the loop: copies entry `index`, and the table below it if there is one. */
  method CloneEntry(m: Memory, roots: Roots, src: nat, dst: nat, level: nat, index: Index, ghost banned: set<nat>, ghost own: set<nat>)
    returns (ok: bool, ghost more: set<nat>)
    requires m.Valid() && 1 <= level && Clear(m.pages, src, level, roots.original, banned)
    requires src in m.pages && dst in m.pages && dst !in m.free && dst in banned && m.free <= banned && dst !in own && own !! m.free
    requires CopyBelow(m.pages, src, dst, level, roots, own, index)
    modifies m
    ensures m.Valid() && m.free <= old(m.free) && more == old(m.free) - m.free
    ensures Same(old(m.pages), m.pages, more + {dst})
    ensures ok ==> Clear(m.pages, src, level, roots.original, banned) && CopyBelow(m.pages, src, dst, level, roots, own + more, index + 1)
    decreases level, 0
  {
    hide Clear, CopyBelow, Copy;
    more := {};
    assert own + more == own;
    ghost var before := m.pages;
    var entry := m.pages[src][index];
    m.Store(dst, index, entry);
    if entry.present && level != 1 {
      if entry.addr == roots.original {
        m.Store(dst, index, entry.(addr := roots.kernel));
      } else if !entry.huge {
        var page := m.Allocate();
        if page.None? {
          return false, {};
        }
        ChildClear(before, m.pages, src, dst, level, roots, banned, index);
        ghost var below: set<nat>;
        ok, below := CloneLevel(m, roots, entry.addr, page.value, level - 1, banned);
        more := below + {page.value};
        if ok {
          ghost var mid := m.pages;
          m.Store(dst, index, entry.(addr := page.value));
          CopyDescended(before, mid, m.pages, src, dst, level, roots, own, below, banned, more + {dst}, index, page.value);
          assert own + below + {page.value} == own + more;
        }
        return;
      }
    }
    assert m.pages[dst] == before[dst][index := Copied(entry, level, roots)];
    CopyPlain(before, m.pages, src, dst, level, roots, own, banned, index);
    ok := true;
  }

  // ---------- Translation is preserved ----------

  /** An entry that the copy, at this level of the tree, gives another address: a table, or anything at the original root. */
  predicate Moved(e: Entry, level: nat, original: nat) {
    e.present && level > 1 && (e.addr == original || !e.huge)
  }

  /**
   * The level in the tree of the table a walk ends in. It is the walk's own level until the walk enters
   * the original root as a lower table, since the root is copied as the top of the tree only.
   */
  function EndLevel(pages: Pages, t: nat, tree: nat, level: nat, idx: seq<Index>, original: nat): nat
    requires |idx| == level && 1 <= level <= tree <= 4
    decreases level
  {
    if t !in pages then tree
    else
      var e := pages[t][idx[0]];
      if !e.present || IsLeaf(e, level) then tree
      else EndLevel(pages, e.addr, if e.addr == original then 4 else tree - 1, level - 1, idx[1..], original)
  }

  /** The walk ends with an entry the copy moves. */
  predicate EndMoved(pages: Pages, t: nat, tree: nat, level: nat, idx: seq<Index>, original: nat)
    requires |idx| == level && 1 <= level <= tree <= 4
  {
    var end := Walk(pages, t, level, idx);
    end.Mapped? && Moved(end.leaf, EndLevel(pages, t, tree, level, idx, original), original)
  }

  /** The same faults, levels and flags; the same address unless it moved, and then that of a page of the copy. */
  ghost predicate Alike(a: Translation, b: Translation, moved: bool, copies: set<nat>) {
    if a.Fault? then b.Fault?
    else
      && b.Mapped? && b.above == a.above && b.level == a.level && Flags(b.leaf) == Flags(a.leaf)
      && (if moved then b.leaf.addr != a.leaf.addr && b.leaf.addr in copies else b.leaf.addr == a.leaf.addr)
  }

  /** The copy of a tree, and of the whole tree from the root, whose tables are none of the copy's. */
  ghost predicate CopiedTree(pages: Pages, src: nat, dst: nat, tree: nat, roots: Roots, own: set<nat>) {
    && Copy(pages, src, dst, tree, roots, own) && Copy(pages, roots.original, roots.kernel, 4, roots, own)
    && Clear(pages, src, tree, roots.original, own) && Clear(pages, roots.original, 4, roots.original, own)
    && roots.original != roots.kernel
  }

  /** Every walk, even through the root as a lower table, ends alike; the address changes just if the entry is one the copy moves. */
  lemma {:induction false} CopyTranslates(pages: Pages, src: nat, dst: nat, tree: nat, level: nat, roots: Roots, own: set<nat>, idx: seq<Index>)
    requires |idx| == level && 1 <= level <= tree <= 4 && CopiedTree(pages, src, dst, tree, roots, own)
    ensures Alike(Walk(pages, src, level, idx), Walk(pages, dst, level, idx), EndMoved(pages, src, tree, level, idx, roots.original), own + {roots.kernel})
    decreases level
  {
    assert CopyAt(pages, src, dst, tree, roots, own, idx[0]);
    var e := pages[src][idx[0]];
    assert Descends(e, tree, roots.original) ==> Clear(pages, e.addr, tree - 1, roots.original, own);
    if e.present && !IsLeaf(e, level) {
      if e.addr == roots.original {
        CopyTranslates(pages, roots.original, roots.kernel, 4, level - 1, roots, own, idx[1..]);
      } else {
        CopyTranslates(pages, e.addr, pages[dst][idx[0]].addr, tree - 1, level - 1, roots, own, idx[1..]);
      }
    }
  }

  /** The walk meets an entry that names the original root as a table, or a huge page at its address. */
  predicate MeetsRoot(pages: Pages, t: nat, level: nat, idx: seq<Index>, original: nat)
    requires |idx| == level && level >= 1
    decreases level
  {
    t in pages && level > 1 && pages[t][idx[0]].present &&
    (pages[t][idx[0]].addr == original ||
     (!pages[t][idx[0]].huge && MeetsRoot(pages, pages[t][idx[0]].addr, level - 1, idx[1..], original)))
  }

  /** A walk that stays away from the original root ends with an entry the copy keeps. */
  lemma {:induction false} AwayFromRoot(pages: Pages, t: nat, level: nat, idx: seq<Index>, original: nat)
    requires |idx| == level && 1 <= level <= 4 && !MeetsRoot(pages, t, level, idx, original)
    ensures !EndMoved(pages, t, level, level, idx, original)
    decreases level
  {
    if t in pages && pages[t][idx[0]].present && !IsLeaf(pages[t][idx[0]], level) {
      AwayFromRoot(pages, pages[t][idx[0]].addr, level - 1, idx[1..], original);
    }
  }

  /** A present entry of the root that the copy descends into, read through the root at all four levels, has moved. */
  lemma RecursiveWalkMoves(pages: Pages, original: nat, self: Index, i: Index)
    requires original in pages && pages[original][self].present && !pages[original][self].huge && pages[original][self].addr == original
    requires pages[original][i].present && !pages[original][i].huge
    ensures EndMoved(pages, original, 4, 4, [self, self, self, i], original)
  {
    var idx: seq<Index> := [self, self, self, i];
    assert idx[1..] == [self, self, i] && idx[1..][1..] == [self, i] && idx[1..][1..][1..] == [i];
  }

  /** Source tables are left as they were, so their walks are too. */
  lemma {:induction false} WalkKept(a: Pages, b: Pages, t: nat, tree: nat, level: nat, original: nat, banned: set<nat>, idx: seq<Index>)
    requires |idx| == level && 1 <= level <= tree <= 4 && Same(a, b, banned)
    requires Clear(a, t, tree, original, banned) && Clear(a, original, 4, original, banned)
    ensures Walk(b, t, level, idx) == Walk(a, t, level, idx)
    ensures EndLevel(b, t, tree, level, idx, original) == EndLevel(a, t, tree, level, idx, original)
    decreases level
  {
    var e := a[t][idx[0]];
    if e.present && !IsLeaf(e, level) {
      WalkKept(a, b, e.addr, if e.addr == original then 4 else tree - 1, level - 1, original, banned, idx[1..]);
    }
  }

  /**
   * The new root translates every address as the old one did before the call, up to the entries that name
   * a table the copy has its own of; the old tables are untouched and every table below the new root is a new page.
   */
  method CloneRoot(m: Memory, original: nat) returns (root: Option<nat>, ghost own: set<nat>)
    requires m.Valid() && original in m.pages
    requires Clear(m.pages, original, 4, original, m.free)
    modifies m
    ensures m.Valid() && m.free <= old(m.free)
    ensures Same(old(m.pages), m.pages, old(m.free) - m.free)
    ensures root.Some? ==> root.value in old(m.free) - m.free && own == old(m.free) - m.free - {root.value}
    ensures root.Some? ==> CopiedTree(m.pages, original, root.value, 4, Roots(original, root.value), own)
    ensures root.Some? ==> forall idx: seq<Index> :: |idx| == 4 ==>
              Alike(Walk(old(m.pages), original, 4, idx), Walk(m.pages, root.value, 4, idx), EndMoved(old(m.pages), original, 4, 4, idx, original), own + {root.value})
  {
    hide Clear, Copy, Walk, EndLevel, Moved;
    ghost var banned, before := m.free, m.pages;
    own := {};
    root := m.Allocate();
    if root.None? {
      return;
    }
    var roots := Roots(original, root.value);
    var ok;
    ok, own := CloneLevel(m, roots, original, root.value, 4, banned);
    if !ok {
      return None, own;
    }
    ClearRoot(before, original, banned);
    ClearKept(before, m.pages, original, 4, roots, banned);
    ClearLess(m.pages, original, 4, original, banned, own);
    hide CopiedTree;
    assert CopiedTree(m.pages, original, root.value, 4, roots, own) by { WholeTree(m.pages, roots, own); }
    forall idx: seq<Index> | |idx| == 4
      ensures Alike(Walk(before, original, 4, idx), Walk(m.pages, root.value, 4, idx), EndMoved(before, original, 4, 4, idx, original), own + {root.value})
    {
      WalkKept(before, m.pages, original, 4, 4, original, banned, idx);
      CopyTranslates(m.pages, original, root.value, 4, 4, roots, own, idx);
    }
  }

  lemma WholeTree(pages: Pages, roots: Roots, own: set<nat>)
    requires Copy(pages, roots.original, roots.kernel, 4, roots, own) && Clear(pages, roots.original, 4, roots.original, own)
    requires roots.original != roots.kernel
    ensures CopiedTree(pages, roots.original, roots.kernel, 4, roots, own)
  {
  }

  lemma ClearRoot(pages: Pages, original: nat, banned: set<nat>)
    requires Clear(pages, original, 4, original, banned)
    ensures original !in banned
  {
  }

  lemma {:induction false} ClearLess(pages: Pages, t: nat, level: nat, original: nat, banned: set<nat>, fewer: set<nat>)
    requires Clear(pages, t, level, original, banned) && fewer <= banned
    ensures Clear(pages, t, level, original, fewer)
    decreases level
  {
    forall i: Index | level > 0 && Descends(pages[t][i], level, original) ensures Clear(pages, pages[t][i].addr, level - 1, original, fewer) {
      ClearLess(pages, pages[t][i].addr, level - 1, original, banned, fewer);
    }
  }
}
