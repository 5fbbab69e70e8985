/** Physical memory holding four-level page tables, and the walk the processor does through them. */
module PageTables {
  import opened Options

  const ENTRIES := 512

  /** One entry, field by field: the frame it names and its flag bits. */
  datatype Entry = Entry(addr: nat, present: bool, writable: bool, huge: bool, noExecute: bool, rest: nat)

  const ABSENT := Entry(0, false, false, false, false, 0)

  type PageTable = s: seq<Entry> | |s| == ENTRIES witness seq(ENTRIES, (i: nat) => ABSENT)

  type Pages = map<nat, PageTable>

  type Index = i: int | 0 <= i < ENTRIES

  /** Physical pages by frame number; a page that is not free belongs to someone. */
  class Memory {
    var pages: Pages
    var free: set<nat>

    ghost predicate Valid()
      reads this
    {
      free <= pages.Keys
    }

    /** A page nobody uses, with unknown contents, unless the firmware has none to give. */
    method Allocate() returns (r: Option<nat>)
      requires Valid()
      modifies this`free
      ensures Valid()
      ensures r.None? ==> free == old(free)
      ensures r.Some? ==> r.value in old(free) && free == old(free) - {r.value}
    {
      var refused: bool := *;
      if refused || free == {} {
        return None;
      }
      var f :| f in free;
      free := free - {f};
      r := Some(f);
    }

    method Store(f: nat, i: Index, e: Entry)
      requires f in pages
      modifies this`pages
      ensures pages == old(pages)[f := old(pages)[f][i := e]]
    {
      pages := pages[f := pages[f][i := e]];
    }

    method AllocateZeroed() returns (r: Option<nat>)
      requires Valid()
      modifies this
      ensures Valid()
      ensures r.None? ==> free == old(free) && pages == old(pages)
      ensures r.Some? ==> r.value in old(free) && free == old(free) - {r.value}
                          && pages == old(pages)[r.value := seq(ENTRIES, (i: nat) => ABSENT)]
    {
      r := Allocate();
      if r.Some? {
        pages := pages[r.value := seq(ENTRIES, (i: nat) => ABSENT)];
      }
    }
  }

  // ---------- Translation ----------

  /** The flags of the tables on the way, and the last entry with its level; or a page fault. */
  datatype Translation = Fault | Mapped(above: seq<Entry>, leaf: Entry, level: nat)

  function Flags(e: Entry): Entry {
    e.(addr := 0)
  }

  function Under(e: Entry, t: Translation): Translation {
    if t.Fault? then Fault else t.(above := [Flags(e)] + t.above)
  }

  /** The entry a walk at `level` ends with: always at the lowest level, and at a huge page. */
  predicate IsLeaf(e: Entry, level: nat) {
    level == 1 || e.huge
  }

  /** The walk from table `t`, for the table indices `idx`, highest level first. */
  function Walk(pages: Pages, t: nat, level: nat, idx: seq<Index>): Translation
    requires |idx| == level && level >= 1
    decreases level
  {
    if t !in pages then Fault
    else
      var e := pages[t][idx[0]];
      if !e.present then Fault
      else if IsLeaf(e, level) then Mapped([], e, level)
      else Under(e, Walk(pages, e.addr, level - 1, idx[1..]))
  }
}
