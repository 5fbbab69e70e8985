/** The direct map: every page of RAM at a fixed offset, in pages of 2 MiB where possible and of 4 KiB elsewhere. */
module DirectMap {
  import opened Options
  import opened PageTables

  const WINDOW_PAGES := 0x800_0000

  datatype Status = Success | AccessDenied | OutOfResources | Unsupported | InvalidParameter

  function TableEntry(f: nat): Entry { Entry(f, true, true, false, false, 0) }

  function SmallEntry(p: nat): Entry { Entry(p, true, true, false, true, 0) }

  function HugeEntry(k: nat): Entry { Entry(512 * k, true, true, true, true, 0) }

  /** The root table and the slot of it that holds the window. */
  datatype Window = Window(root: nat, slot: Index)

  /**
   * The tables of the window: one of level 3, of level 2 by gigabyte, of level 1 by block of 2 MiB;
   * and what they map: whole blocks, and single pages. Also the memory and the free pages at the start.
   */
  datatype Layout = Layout(l3: Option<nat>, l2: map<nat, nat>, l1: map<nat, nat>, blocks: set<nat>, singles: set<nat>,
                           base: Pages, reserve: set<nat>)

  function Nothing(pages: Pages, free: set<nat>): Layout {
    Layout(None, map[], map[], {}, {}, pages, free)
  }

  predicate Maps(g: Layout, p: nat) {
    p in g.singles || p / 512 in g.blocks
  }

  // ---------- What the tables hold ----------

  function DirectoryEntry(g: Layout, k: nat): Entry {
    if k in g.l1 then TableEntry(g.l1[k]) else if k in g.blocks then HugeEntry(k) else ABSENT
  }

  function PageEntry(g: Layout, p: nat): Entry {
    if p in g.singles then SmallEntry(p) else ABSENT
  }

  ghost predicate RootHolds(pages: Pages, w: Window, g: Layout) {
    w.root in pages && if g.l3.Some? then pages[w.root][w.slot] == TableEntry(g.l3.value) else !pages[w.root][w.slot].present
  }

  ghost predicate Level3Holds(pages: Pages, g: Layout) {
    g.l3.Some? ==>
      g.l3.value in pages && forall i: Index :: pages[g.l3.value][i] == if i in g.l2 then TableEntry(g.l2[i]) else ABSENT
  }

  ghost predicate Level2Holds(pages: Pages, g: Layout, i: nat) {
    i in g.l2 ==> g.l2[i] in pages && forall j: Index :: pages[g.l2[i]][j] == DirectoryEntry(g, 512 * i + j)
  }

  ghost predicate Level1Holds(pages: Pages, g: Layout, k: nat) {
    k in g.l1 ==> g.l1[k] in pages && forall j: Index :: pages[g.l1[k]][j] == PageEntry(g, 512 * k + j)
  }

  /** Each part has the table above it, and a block is not also a table. */
  ghost predicate Nested(g: Layout) {
    && (g.l3.None? ==> g.l2 == map[])
    && (forall i :: i in g.l2 ==> i < ENTRIES)
    && (forall k :: k in g.l1 ==> k / 512 in g.l2)
    && (forall k :: k in g.blocks ==> k / 512 in g.l2 && k !in g.l1)
    && (forall p :: p in g.singles ==> p / 512 in g.l1)
  }

  /** No page is two tables. */
  ghost predicate Separate(w: Window, g: Layout) {
    && (g.l3.Some? ==> g.l3.value != w.root)
    && (forall i :: i in g.l2 ==> g.l2[i] != w.root && Some(g.l2[i]) != g.l3)
    && (forall k :: k in g.l1 ==> g.l1[k] != w.root && Some(g.l1[k]) != g.l3)
    && (forall i, j :: i in g.l2 && j in g.l2 && g.l2[i] == g.l2[j] ==> i == j)
    && (forall k, j :: k in g.l1 && j in g.l1 && g.l1[k] == g.l1[j] ==> k == j)
    && (forall i, k :: i in g.l2 && k in g.l1 ==> g.l2[i] != g.l1[k])
  }

  /** None of the tables is a page the allocator may give out. */
  ghost predicate Owned(free: set<nat>, w: Window, g: Layout) {
    && w.root !in free && (g.l3.Some? ==> g.l3.value !in free)
    && (forall i :: i in g.l2 ==> g.l2[i] !in free)
    && (forall k :: k in g.l1 ==> g.l1[k] !in free)
  }

  ghost predicate Holds(pages: Pages, w: Window, g: Layout) {
    && RootHolds(pages, w, g) && Level3Holds(pages, g)
    && (forall i: nat :: Level2Holds(pages, g, i))
    && (forall k: nat :: Level1Holds(pages, g, k))
  }

  /** The tables are pages that were free at the start. */
  ghost predicate Taken(free: set<nat>, w: Window, g: Layout) {
    && free <= g.reserve <= g.base.Keys && w.root in g.base && w.root !in g.reserve && (g.l3.Some? ==> g.l3.value in g.reserve)
    && (forall i :: i in g.l2 ==> g.l2[i] in g.reserve)
    && (forall k :: k in g.l1 ==> g.l1[k] in g.reserve)
  }

  /** Apart from pages that were free and one slot of the root, memory is as at the start. */
  ghost predicate Framed(a: Pages, b: Pages, reserve: set<nat>, w: Window) {
    && a.Keys == b.Keys && w.root in a
    && (forall f :: f in a && f !in reserve && f != w.root ==> b[f] == a[f])
    && (forall i: Index :: i != w.slot ==> b[w.root][i] == a[w.root][i])
  }

  ghost predicate Built(pages: Pages, free: set<nat>, w: Window, g: Layout) {
    Nested(g) && Separate(w, g) && Owned(free, w, g) && Holds(pages, w, g) && Taken(free, w, g) && Framed(g.base, pages, g.reserve, w)
  }

  // ---------- Adding tables ----------

  const ZEROED: PageTable := seq(ENTRIES, (i: nat) => ABSENT)

  lemma AddLevel3(pages: Pages, free: set<nat>, w: Window, g: Layout, f: nat)
    requires Built(pages, free, w, g) && g.l3.None? && f in free
    ensures Built(pages[f := ZEROED][w.root := pages[w.root][w.slot := TableEntry(f)]], free - {f}, w, g.(l3 := Some(f)))
  {
    var pages' := pages[f := ZEROED][w.root := pages[w.root][w.slot := TableEntry(f)]];
    var g' := g.(l3 := Some(f));
    forall i: nat ensures Level2Holds(pages', g', i) { }
    forall k: nat ensures Level1Holds(pages', g', k) { }
  }

  lemma AddLevel2(pages: Pages, free: set<nat>, w: Window, g: Layout, i: Index, f: nat)
    requires Built(pages, free, w, g) && g.l3.Some? && i !in g.l2 && f in free
    ensures Built(pages[f := ZEROED][g.l3.value := pages[g.l3.value][i := TableEntry(f)]], free - {f}, w, g.(l2 := g.l2[i := f]))
  {
    assert f != w.root && Some(f) != g.l3 && (forall n :: n in g.l2 ==> g.l2[n] != f) && (forall k :: k in g.l1 ==> g.l1[k] != f);
    Level2Rows(pages, w, g, i, f);
  }

  lemma Level2Rows(pages: Pages, w: Window, g: Layout, i: Index, f: nat)
    requires Nested(g) && Separate(w, g) && Holds(pages, w, g) && g.l3.Some? && i !in g.l2
    requires f != w.root && Some(f) != g.l3 && (forall n :: n in g.l2 ==> g.l2[n] != f) && (forall k :: k in g.l1 ==> g.l1[k] != f)
    ensures Holds(pages[f := ZEROED][g.l3.value := pages[g.l3.value][i := TableEntry(f)]], w, g.(l2 := g.l2[i := f]))
  {
    var pages' := pages[f := ZEROED][g.l3.value := pages[g.l3.value][i := TableEntry(f)]];
    var g' := g.(l2 := g.l2[i := f]);
    forall n: nat ensures Level2Holds(pages', g', n) {
      assert Level2Holds(pages, g, n);
      if n == i {
        forall j: Index ensures pages'[f][j] == DirectoryEntry(g', 512 * i + j) {
          Digits(i, j);
        }
      }
    }
    forall k: nat ensures Level1Holds(pages', g', k) {
      assert Level1Holds(pages, g, k);
    }
  }

  lemma AddLevel1(pages: Pages, free: set<nat>, w: Window, g: Layout, k: nat, f: nat)
    requires Built(pages, free, w, g) && k / 512 in g.l2 && k !in g.l1 && k !in g.blocks && f in free
    ensures g.l2[k / 512] in pages
    ensures Built(pages[f := ZEROED][g.l2[k / 512] := pages[g.l2[k / 512]][k % 512 := TableEntry(f)]], free - {f}, w, g.(l1 := g.l1[k := f]))
  {
    assert f != w.root && Some(f) != g.l3 && (forall n :: n in g.l2 ==> g.l2[n] != f) && (forall n :: n in g.l1 ==> g.l1[n] != f);
    assert Level2Holds(pages, g, k / 512);
    Level1Rows(pages, w, g, k, f);
    hide Holds;
  }

  lemma Level1Rows(pages: Pages, w: Window, g: Layout, k: nat, f: nat)
    requires Nested(g) && Separate(w, g) && Holds(pages, w, g) && k / 512 in g.l2 && k !in g.l1 && k !in g.blocks && g.l2[k / 512] in pages
    requires f != w.root && Some(f) != g.l3 && (forall n :: n in g.l2 ==> g.l2[n] != f) && (forall n :: n in g.l1 ==> g.l1[n] != f)
    ensures Holds(pages[f := ZEROED][g.l2[k / 512] := pages[g.l2[k / 512]][k % 512 := TableEntry(f)]], w, g.(l1 := g.l1[k := f]))
  {
    var pages' := pages[f := ZEROED][g.l2[k / 512] := pages[g.l2[k / 512]][k % 512 := TableEntry(f)]];
    var g' := g.(l1 := g.l1[k := f]);
    forall n: nat ensures Level2Holds(pages', g', n) {
      Level1InDirectory(pages, w, g, k, f, n);
    }
    forall n: nat ensures Level1Holds(pages', g', n) {
      assert Level1Holds(pages, g, n);
      if n == k {
        NewLevel1(pages', g, k, f);
      }
    }
  }

  lemma Level1InDirectory(pages: Pages, w: Window, g: Layout, k: nat, f: nat, n: nat)
    requires Separate(w, g) && Level2Holds(pages, g, n) && k / 512 in g.l2 && k !in g.l1 && g.l2[k / 512] in pages
    requires forall n :: n in g.l2 ==> g.l2[n] != f
    ensures Level2Holds(pages[f := ZEROED][g.l2[k / 512] := pages[g.l2[k / 512]][k % 512 := TableEntry(f)]], g.(l1 := g.l1[k := f]), n)
  {
    var pages' := pages[f := ZEROED][g.l2[k / 512] := pages[g.l2[k / 512]][k % 512 := TableEntry(f)]];
    if n in g.l2 {
      forall j: Index ensures pages'[g.l2[n]][j] == DirectoryEntry(g.(l1 := g.l1[k := f]), 512 * n + j) {
        Where(k, n, j);
      }
    }
  }

  lemma NewLevel1(pages: Pages, g: Layout, k: nat, f: nat)
    requires Nested(g) && k !in g.l1 && f in pages && pages[f] == ZEROED
    ensures Level1Holds(pages, g.(l1 := g.l1[k := f]), k)
  {
    forall j: Index ensures pages[f][j] == PageEntry(g, 512 * k + j) {
      NoSingle(g, k, j);
    }
  }

  /** A block without a table of its own has no single pages. */
  lemma NoSingle(g: Layout, k: nat, j: Index)
    requires Nested(g) && k !in g.l1
    ensures 512 * k + j !in g.singles
  {
    Digits(k, j);
  }

  lemma Where(k: nat, n: nat, j: Index)
    ensures 512 * n + j == k <==> n == k / 512 && j == k % 512
  {
  }

  lemma Digits(n: nat, j: Index)
    ensures (512 * n + j) / 512 == n && (512 * n + j) % 512 == j
  {
  }

  // ---------- Adding pages ----------

  lemma AddBlock(pages: Pages, free: set<nat>, w: Window, g: Layout, k: nat)
    requires Built(pages, free, w, g) && k / 512 in g.l2 && k !in g.l1
    ensures g.l2[k / 512] in pages
    ensures Built(pages[g.l2[k / 512] := pages[g.l2[k / 512]][k % 512 := HugeEntry(k)]], free, w, g.(blocks := g.blocks + {k}))
  {
    var i := k / 512;
    assert Level2Holds(pages, g, i);
    var pages' := pages[g.l2[i] := pages[g.l2[i]][k % 512 := HugeEntry(k)]];
    var g' := g.(blocks := g.blocks + {k});
    forall n: nat ensures Level2Holds(pages', g', n) {
      assert Level2Holds(pages, g, n);
      if n in g.l2 {
        forall j: Index ensures pages'[g.l2[n]][j] == DirectoryEntry(g', 512 * n + j) {
          Where(k, n, j);
        }
      }
    }
    forall n: nat ensures Level1Holds(pages', g', n) {
      assert Level1Holds(pages, g, n);
    }
  }

  lemma AddSingle(pages: Pages, free: set<nat>, w: Window, g: Layout, p: nat)
    requires Built(pages, free, w, g) && p / 512 in g.l1
    ensures g.l1[p / 512] in pages
    ensures Built(pages[g.l1[p / 512] := pages[g.l1[p / 512]][p % 512 := SmallEntry(p)]], free, w, g.(singles := g.singles + {p}))
  {
    assert Level1Holds(pages, g, p / 512);
    SingleRows(pages, w, g, p);
    hide Holds;
  }

  lemma SingleRows(pages: Pages, w: Window, g: Layout, p: nat)
    requires Separate(w, g) && Holds(pages, w, g) && p / 512 in g.l1 && g.l1[p / 512] in pages
    ensures Holds(pages[g.l1[p / 512] := pages[g.l1[p / 512]][p % 512 := SmallEntry(p)]], w, g.(singles := g.singles + {p}))
  {
    var pages' := pages[g.l1[p / 512] := pages[g.l1[p / 512]][p % 512 := SmallEntry(p)]];
    var g' := g.(singles := g.singles + {p});
    forall n: nat ensures Level2Holds(pages', g', n) {
      assert Level2Holds(pages, g, n);
    }
    forall n: nat ensures Level1Holds(pages', g', n) {
      assert Level1Holds(pages, g, n);
      if n in g.l1 {
        forall j: Index ensures pages'[g.l1[n]][j] == PageEntry(g', 512 * n + j) {
          Where(p, n, j);
        }
      }
    }
  }
}
