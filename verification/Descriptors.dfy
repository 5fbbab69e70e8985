/** Descriptor tables, one per task slot, and the reference counts of the pipes they hold. */
module Descriptors {
  import opened Bytes
  import opened Options
  import opened Pipes

  const MAX_FDS := 16
  const SLOTS := 16

  /** File descriptors carry no counts, so one constructor stands for both kinds. */
  datatype Descriptor = Stdin | Console | File | PipeRead(pipe: Pipe) | PipeWrite(pipe: Pipe)

  type Table = s: seq<Option<Descriptor>> | |s| == MAX_FDS
    witness [None, None, None, None, None, None, None, None, None, None, None, None, None, None, None, None]

  datatype FdMapping = FdMapping(source: nat, target: nat)

  datatype FdError = InvalidFd | WouldBlock | BrokenPipe | NotStarted | Full

  datatype Result<+T> = Ok(value: T) | Err(error: FdError)

  function EmptyTable(): Table {
    [None, None, None, None, None, None, None, None, None, None, None, None, None, None, None, None]
  }

  function InitialTable(): Table {
    [Some(Stdin), Some(Console), Some(Console), None, None, None, None, None, None, None, None, None, None, None, None, None]
  }

  function SaturatingPredecessor(n: nat): nat {
    if n == 0 then 0 else n - 1
  }

  predicate IsEnd(e: Option<Descriptor>) {
    e.Some? && (e.value.PipeRead? || e.value.PipeWrite?)
  }

  type Held = multiset<Option<Descriptor>>

  /** Every descriptor of every table, with multiplicity. */
  ghost function Holdings(tables: seq<Table>): Held {
    if tables == [] then multiset{} else multiset(tables[0]) + Holdings(tables[1..])
  }

  lemma {:induction false} HoldingsUpdate(tables: seq<Table>, i: nat, t: Table)
    requires i < |tables|
    ensures multiset(tables[i]) <= Holdings(tables)
    ensures Holdings(tables[i := t]) == Holdings(tables) - multiset(tables[i]) + multiset(t)
  {
    if i == 0 {
      assert tables[0 := t][1..] == tables[1..];
    } else {
      HoldingsUpdate(tables[1..], i - 1, t);
      assert tables[i := t][1..] == tables[1..][i - 1 := t];
    }
  }

  lemma HoldingsMember(tables: seq<Table>, i: nat, n: nat)
    requires i < |tables| && n < MAX_FDS
    ensures tables[i][n] in Holdings(tables)
  {
    HoldingsUpdate(tables, i, EmptyTable());
    assert tables[i][n] in multiset(tables[i]);
  }

  // ---------- The table a child starts with ----------

  /** The mappings, one after the other: each puts a copy of its source at its target. */
  function Mapped(t: Table, mappings: seq<FdMapping>): Option<Table> {
    if mappings == [] then Some(t)
    else
      var before := Mapped(t, mappings[..|mappings| - 1]);
      var m := mappings[|mappings| - 1];
      if before.None? || m.source >= MAX_FDS || m.target >= MAX_FDS || before.value[m.source].None? then None
      else Some(before.value[m.target := before.value[m.source]])
  }

  /** Sources that were moved elsewhere are closed. */
  function WithoutSources(t: Table, mappings: seq<FdMapping>): Table {
    if mappings == [] then t
    else
      var before := WithoutSources(t, mappings[..|mappings| - 1]);
      var m := mappings[|mappings| - 1];
      if m.source != m.target && m.source < MAX_FDS then before[m.source := None] else before
  }

  function WithoutNumbers(t: Table, closes: seq<nat>): Option<Table> {
    if closes == [] then Some(t)
    else
      var before := WithoutNumbers(t, closes[..|closes| - 1]);
      var n := closes[|closes| - 1];
      if before.None? || n >= MAX_FDS then None else Some(before.value[n := None])
  }

  function ChildTable(t: Table, mappings: seq<FdMapping>, closes: seq<nat>): Option<Table> {
    var mapped := Mapped(t, mappings);
    if mapped.None? then None else WithoutNumbers(WithoutSources(mapped.value, mappings), closes)
  }

  lemma {:induction false} MappedStops(t: Table, mappings: seq<FdMapping>, k: nat)
    requires k <= |mappings| && Mapped(t, mappings[..k]).None?
    ensures Mapped(t, mappings).None?
    decreases |mappings| - k
  {
    if k == |mappings| {
      assert mappings[..k] == mappings;
    } else {
      assert mappings[..k + 1][..k] == mappings[..k];
      MappedStops(t, mappings, k + 1);
    }
  }

  lemma {:induction false} NumbersStop(t: Table, closes: seq<nat>, k: nat)
    requires k <= |closes| && WithoutNumbers(t, closes[..k]).None?
    ensures WithoutNumbers(t, closes).None?
    decreases |closes| - k
  {
    if k == |closes| {
      assert closes[..k] == closes;
    } else {
      assert closes[..k + 1][..k] == closes[..k];
      NumbersStop(t, closes, k + 1);
    }
  }

  /** Everything a child holds, its parent held: inheritance makes no new kind of end. */
  lemma ChildHoldsNoMore(t: Table, mappings: seq<FdMapping>, closes: seq<nat>)
    ensures var child := ChildTable(t, mappings, closes);
            child.Some? ==> forall n :: 0 <= n < MAX_FDS && child.value[n].Some? ==> child.value[n] in t
  {
    var mapped := Mapped(t, mappings);
    if mapped.Some? {
      MappedFrom(t, mappings);
      SourcesFrom(mapped.value, mappings);
      NumbersFrom(WithoutSources(mapped.value, mappings), closes);
    }
  }

  predicate Within(a: Table, b: Table) {
    forall n :: 0 <= n < MAX_FDS && a[n].Some? ==> a[n] in b
  }

  lemma {:induction false} MappedFrom(t: Table, mappings: seq<FdMapping>)
    ensures Mapped(t, mappings).Some? ==> Within(Mapped(t, mappings).value, t)
  {
    if mappings != [] {
      MappedFrom(t, mappings[..|mappings| - 1]);
    }
  }

  lemma {:induction false} SourcesFrom(t: Table, mappings: seq<FdMapping>)
    ensures Within(WithoutSources(t, mappings), t)
  {
    if mappings != [] {
      SourcesFrom(t, mappings[..|mappings| - 1]);
    }
  }

  lemma {:induction false} NumbersFrom(t: Table, closes: seq<nat>)
    ensures WithoutNumbers(t, closes).Some? ==> Within(WithoutNumbers(t, closes).value, t)
  {
    if closes != [] {
      NumbersFrom(t, closes[..|closes| - 1]);
    }
  }

  // ---------- The tables ----------

  class Descriptors {
    var tables: seq<Table>
    ghost var pipes: set<Pipe>

    ghost predicate Rings()
      reads this`pipes, pipes, set p: Pipe | p in pipes :: p.bytes
    {
      && (forall p :: p in pipes ==> p.Valid())
      && (forall p, q :: p in pipes && q in pipes && p != q ==> p.bytes != q.bytes)
    }

    /** Every pipe end in `held` is known, and each count is the number of ends in `held`. */
    ghost predicate Counted(held: Held)
      reads this`pipes, pipes
    {
      && (forall e :: e in held && IsEnd(e) ==> e.value.pipe in pipes)
      && (forall p :: p in pipes ==> p.readers == held[Some(PipeRead(p))] && p.writers == held[Some(PipeWrite(p))])
    }

    /** The counts include the descriptors in `loose`, which are in no table yet, or no longer. */
    ghost predicate Balanced(loose: Held)
      reads this, pipes, set p: Pipe | p in pipes :: p.bytes
    {
      |tables| == SLOTS && Rings() && Counted(Holdings(tables) + loose)
    }

    ghost predicate Valid()
      reads this, pipes, set p: Pipe | p in pipes :: p.bytes
    {
      Balanced(multiset{})
    }

    constructor ()
      ensures Valid() && pipes == {} && tables == seq(SLOTS, (i: nat) => EmptyTable())
    {
      tables := seq(SLOTS, (i: nat) => EmptyTable());
      pipes := {};
      new;
      NothingHeld(tables);
    }

    // ---------- Copying and dropping one descriptor ----------

    method Clone(d: Descriptor, ghost loose: Held)
      requires Balanced(loose) && Some(d) in Holdings(tables) + loose
      modifies pipes`readers, pipes`writers
      ensures Balanced(loose + multiset{Some(d)})
    {
      assert d.PipeRead? || d.PipeWrite? ==> d.pipe in pipes;
      match d {
        case PipeRead(pipe) => pipe.readers := pipe.readers + 1;
        case PipeWrite(pipe) => pipe.writers := pipe.writers + 1;
        case _ =>
      }
    }

    /** The counts never need to saturate: what is dropped was counted. */
    method Drop(d: Descriptor, ghost loose: Held)
      requires Balanced(loose + multiset{Some(d)})
      modifies pipes`readers, pipes`writers
      ensures Balanced(loose)
      ensures d.PipeRead? ==> d.pipe in pipes && old(d.pipe.readers) > 0 && d.pipe.readers == old(d.pipe.readers) - 1
      ensures d.PipeWrite? ==> d.pipe in pipes && old(d.pipe.writers) > 0 && d.pipe.writers == old(d.pipe.writers) - 1
    {
      assert Some(d) in Holdings(tables) + (loose + multiset{Some(d)});
      match d {
        case PipeRead(pipe) => pipe.readers := SaturatingPredecessor(pipe.readers);
        case PipeWrite(pipe) => pipe.writers := SaturatingPredecessor(pipe.writers);
        case _ =>
      }
    }

    method DropAll(t: Table, ghost loose: Held)
      requires Balanced(loose + multiset(t))
      modifies pipes`readers, pipes`writers
      ensures Balanced(loose)
    {
      hide Holdings, Rings, Counted;
      assert t[0..] == t;
      for i := 0 to MAX_FDS
        invariant Balanced(loose + multiset(t[i..]))
      {
        ghost var rest := multiset(t[i + 1..]);
        assert t[i..] == [t[i]] + t[i + 1..];
        assert loose + multiset(t[i..]) == (loose + rest) + multiset{t[i]};
        if t[i].Some? {
          Drop(t[i].value, loose + rest);
        } else {
          Ignore(loose + rest);
        }
      }
      assert t[MAX_FDS..] == [];
      assert loose + multiset(t[MAX_FDS..]) == loose;
    }

    lemma Ignore(loose: Held)
      requires Balanced(loose + multiset{None})
      ensures Balanced(loose)
    {
      SameWeight(Holdings(tables) + (loose + multiset{None}), Holdings(tables) + loose);
    }

    // ---------- System calls ----------

    /** A new pipe, with a loose end of each kind. */
    method NewPipe() returns (pipe: Pipe)
      requires Valid()
      modifies this`pipes
      ensures fresh(pipe) && pipes == old(pipes) + {pipe}
      ensures Balanced(multiset{Some(PipeWrite(pipe))} + multiset{Some(PipeRead(pipe))})
    {
      hide Holdings;
      pipe := new Pipe();
      NewEnds(pipe);
      pipes := pipes + {pipe};
      assert Rings();
      hide Rings;
      assert Counted(Holdings(tables) + (multiset{Some(PipeWrite(pipe))} + multiset{Some(PipeRead(pipe))}));
    }

    /** A pipe with one end of each kind, at the two lowest free numbers. */
    method CreatePipe(slot: Option<nat>) returns (r: Result<(nat, nat)>)
      requires Valid() && (slot.Some? ==> slot.value < SLOTS)
      modifies this, pipes`readers, pipes`writers
      ensures Valid() && pipes >= old(pipes) && fresh(pipes - old(pipes))
      ensures r.Err? <==> slot.None? || forall i, j :: 0 <= i < j < MAX_FDS ==> old(tables)[slot.value][i].Some? || old(tables)[slot.value][j].Some?
      ensures r.Err? ==> tables == old(tables) && r.error == if slot.None? then NotStarted else Full
      ensures r.Ok? ==> slot.Some? && r.value.0 < r.value.1 < MAX_FDS
                        && old(tables)[slot.value][r.value.0].None? && old(tables)[slot.value][r.value.1].None?
                        && (forall k :: 0 <= k < r.value.1 && k != r.value.0 ==> old(tables)[slot.value][k].Some?)
                        && exists p :: p in pipes - old(pipes) &&
                             tables == old(tables)[slot.value := old(tables)[slot.value][r.value.0 := Some(PipeRead(p))][r.value.1 := Some(PipeWrite(p))]]
    {
      hide Holdings, Rings, Counted;
      var pipe := NewPipe();
      var pair: Option<(nat, nat)> := None;
      if slot.Some? {
        pair := FreePair(tables[slot.value]);
      }
      if pair.None? {
        Drop(PipeRead(pipe), multiset{Some(PipeWrite(pipe))});
        assert multiset{Some(PipeWrite(pipe))} == multiset{} + multiset{Some(PipeWrite(pipe))};
        Drop(PipeWrite(pipe), multiset{});
        return Err(if slot.None? then NotStarted else Full);
      }
      var (a, b) := pair.value;
      Put(slot.value, a, Some(PipeRead(pipe)), multiset{Some(PipeWrite(pipe))});
      tables := tables[slot.value := tables[slot.value][a := Some(PipeRead(pipe))]];
      assert multiset{Some(PipeWrite(pipe))} + multiset{None} == multiset{None} + multiset{Some(PipeWrite(pipe))};
      Put(slot.value, b, Some(PipeWrite(pipe)), multiset{None});
      tables := tables[slot.value := tables[slot.value][b := Some(PipeWrite(pipe))]];
      Ignore(multiset{None});
      ghost var nothing: Held := multiset{};
      assert multiset{None} == nothing + multiset{None};
      Ignore(nothing);
      r := Ok((a, b));
    }

    /** A pipe nobody holds yet is in no table. */
    lemma NewEnds(pipe: Pipe)
      requires Valid() && pipe !in pipes
      ensures Holdings(tables)[Some(PipeRead(pipe))] == 0 && Holdings(tables)[Some(PipeWrite(pipe))] == 0
    {
      assert Some(PipeRead(pipe)) !in Holdings(tables) + multiset{};
      assert Some(PipeWrite(pipe)) !in Holdings(tables) + multiset{};
    }

    /** Replacing one entry of one table by another, whose place in the counts is already paid for. */
    lemma Put(slot: nat, n: nat, e: Option<Descriptor>, loose: Held)
      requires slot < SLOTS && n < MAX_FDS && Balanced(loose + multiset{e})
      ensures Counted(Holdings(tables[slot := tables[slot][n := e]]) + (loose + multiset{tables[slot][n]}))
    {
      var t := tables[slot];
      HoldingsUpdate(tables, slot, t[n := e]);
      assert t[n] in multiset(t);
      assert multiset(t[n := e]) == multiset(t) - multiset{t[n]} + multiset{e};
      assert Holdings(tables[slot := t[n := e]]) + (loose + multiset{t[n]}) == Holdings(tables) + (loose + multiset{e});
    }

    method Close(slot: nat, n: nat) returns (r: Result<()>)
      requires Valid() && slot < SLOTS
      modifies this`tables, pipes`readers, pipes`writers
      ensures Valid()
      ensures r.Ok? <==> n < MAX_FDS && old(tables)[slot][n].Some?
      ensures tables == if r.Ok? then old(tables)[slot := old(tables)[slot][n := None]] else old(tables)
    {
      hide Rings, Counted, Holdings;
      if n >= MAX_FDS || tables[slot][n].None? {
        return Err(InvalidFd);
      }
      var d := tables[slot][n].value;
      Owed(multiset{});
      Put(slot, n, None, multiset{});
      tables := tables[slot := tables[slot][n := None]];
      Drop(d, multiset{});
      r := Ok(());
    }

    lemma Owed(loose: Held)
      requires Balanced(loose)
      ensures Balanced(loose + multiset{None})
    {
      SameWeight(Holdings(tables) + loose, Holdings(tables) + (loose + multiset{None}));
    }

    method Duplicate(slot: nat, source: nat, target: nat) returns (r: Result<()>)
      requires Valid() && slot < SLOTS
      modifies this`tables, pipes`readers, pipes`writers
      ensures Valid()
      ensures r.Ok? <==> source < MAX_FDS && target < MAX_FDS && old(tables)[slot][source].Some?
      ensures tables == if r.Ok? then old(tables)[slot := old(tables)[slot][target := old(tables)[slot][source]]] else old(tables)
    {
      hide Rings, Counted, Holdings;
      if source >= MAX_FDS || target >= MAX_FDS || tables[slot][source].None? {
        return Err(InvalidFd);
      }
      if source == target {
        assert tables[slot][target := tables[slot][source]] == tables[slot];
        return Ok(());
      }
      var d := tables[slot][source].value;
      HoldingsMember(tables, slot, source);
      Clone(d, multiset{});
      var previous := tables[slot][target];
      Put(slot, target, Some(d), multiset{});
      tables := tables[slot := tables[slot][target := Some(d)]];
      if previous.Some? {
        Drop(previous.value, multiset{});
      } else {
        Ignore(multiset{});
      }
      r := Ok(());
    }

    lemma Rebalance(a: Held, b: Held)
      requires Balanced(a) && forall e: Option<Descriptor> :: IsEnd(e) ==> a[e] == b[e]
      ensures Balanced(b)
    {
      SameWeight(Holdings(tables) + a, Holdings(tables) + b);
    }

    // ---------- Inheritance ----------

    /** A copy of the parent's table, or the three standard descriptors. */
    method CopyTable(parent: Option<nat>) returns (t: Table)
      requires Valid() && (parent.Some? ==> parent.value < SLOTS)
      modifies pipes`readers, pipes`writers
      ensures Balanced(multiset(t))
      ensures t == if parent.Some? then tables[parent.value] else InitialTable()
    {
      hide Balanced, Holdings, EmptyTable, InitialTable;
      PlainTables();
      if parent.None? {
        return InitialTable();
      }
      SizeOf();
      var source := tables[parent.value];
      t := EmptyTable();
      for i := 0 to MAX_FDS
        invariant Balanced(multiset(t))
        invariant forall j :: 0 <= j < MAX_FDS ==> t[j] == if j < i then source[j] else None
      {
        if source[i].Some? {
          HoldingsMember(tables, parent.value, i);
          t := CloneInto(t, i, source[i].value);
        }
      }
      assert t == source;
    }

    /** Tables without pipe ends weigh nothing. */
    lemma PlainTables()
      requires Valid()
      ensures Balanced(multiset(EmptyTable())) && Balanced(multiset(InitialTable()))
      ensures forall j :: 0 <= j < MAX_FDS ==> EmptyTable()[j] == None
    {
      EmptyIsNone();
      PlainWeight();
      EmptyEntries();
      hide Balanced, EmptyTable, InitialTable;
      Rebalance(multiset{}, multiset(EmptyTable()));
      Rebalance(multiset{}, multiset(InitialTable()));
    }

    method CloneInto(t: Table, i: nat, d: Descriptor) returns (t': Table)
      requires Balanced(multiset(t)) && i < MAX_FDS && t[i].None? && Some(d) in Holdings(tables)
      modifies pipes`readers, pipes`writers
      ensures t' == t[i := Some(d)] && Balanced(multiset(t'))
    {
      hide Holdings, Rings, Counted;
      Clone(d, multiset(t));
      Swapped(t, i, Some(d));
      t' := t[i := Some(d)];
      Rebalance(multiset(t) + multiset{Some(d)}, multiset(t'));
    }

    method ApplyMappings(t: Table, mappings: seq<FdMapping>) returns (r: Option<Table>)
      requires Balanced(multiset(t))
      modifies pipes`readers, pipes`writers
      ensures r == Mapped(t, mappings)
      ensures if r.Some? then Balanced(multiset(r.value)) else Valid()
    {
      hide Holdings, Rings, Counted;
      var now := t;
      for k := 0 to |mappings|
        invariant Balanced(multiset(now)) && Mapped(t, mappings[..k]) == Some(now)
      {
        var m := mappings[k];
        assert mappings[..k + 1][..k] == mappings[..k];
        if m.source >= MAX_FDS || m.target >= MAX_FDS || now[m.source].None? {
          MappedStops(t, mappings, k + 1);
          ghost var nothing: Held := multiset{};
          assert multiset(now) == nothing + multiset(now);
          DropAll(now, nothing);
          return None;
        }
        var d, previous := now[m.source].value, now[m.target];
        assert Some(d) in multiset(now);
        Clone(d, multiset(now));
        Swapped(now, m.target, Some(d));
        now := now[m.target := Some(d)];
        if previous.Some? {
          Drop(previous.value, multiset(now));
        } else {
          Ignore(multiset(now));
        }
      }
      assert mappings[..|mappings|] == mappings;
      r := Some(now);
    }

    /** Empties one entry of a loose table. */
    method Take(t: Table, n: nat) returns (t': Table)
      requires Balanced(multiset(t)) && n < MAX_FDS
      modifies pipes`readers, pipes`writers
      ensures t' == t[n := None] && Balanced(multiset(t'))
    {
      hide Holdings, Rings, Counted;
      t' := t[n := None];
      if t[n].Some? {
        Swapped(t, n, None);
        Rebalance(multiset(t), multiset(t') + multiset{t[n]});
        Drop(t[n].value, multiset(t'));
      } else {
        assert t' == t;
      }
    }

    method CloseSources(t: Table, mappings: seq<FdMapping>) returns (t': Table)
      requires Balanced(multiset(t)) && forall k :: 0 <= k < |mappings| ==> mappings[k].source < MAX_FDS
      modifies pipes`readers, pipes`writers
      ensures t' == WithoutSources(t, mappings) && Balanced(multiset(t'))
    {
      hide Holdings, Rings, Counted;
      t' := t;
      for k := 0 to |mappings|
        invariant Balanced(multiset(t')) && t' == WithoutSources(t, mappings[..k])
      {
        assert mappings[..k + 1][..k] == mappings[..k];
        if mappings[k].source != mappings[k].target {
          t' := Take(t', mappings[k].source);
        }
      }
      assert mappings[..|mappings|] == mappings;
    }

    method CloseNumbers(t: Table, closes: seq<nat>) returns (r: Option<Table>)
      requires Balanced(multiset(t))
      modifies pipes`readers, pipes`writers
      ensures r == WithoutNumbers(t, closes)
      ensures if r.Some? then Balanced(multiset(r.value)) else Valid()
    {
      hide Holdings, Rings, Counted;
      var now := t;
      for k := 0 to |closes|
        invariant Balanced(multiset(now)) && WithoutNumbers(t, closes[..k]) == Some(now)
      {
        assert closes[..k + 1][..k] == closes[..k];
        if closes[k] >= MAX_FDS {
          NumbersStop(t, closes, k + 1);
          ghost var nothing: Held := multiset{};
          assert multiset(now) == nothing + multiset(now);
          DropAll(now, nothing);
          return None;
        }
        now := Take(now, closes[k]);
      }
      assert closes[..|closes|] == closes;
      r := Some(now);
    }

    /** The copied table after mappings and closings; when a number is invalid the copy has been dropped. */
    method PrepareTable(t: Table, mappings: seq<FdMapping>, closes: seq<nat>) returns (r: Option<Table>)
      requires Balanced(multiset(t))
      modifies pipes`readers, pipes`writers
      ensures r == ChildTable(t, mappings, closes)
      ensures if r.Some? then Balanced(multiset(r.value)) else Valid()
    {
      hide Balanced, Mapped, WithoutSources, WithoutNumbers;
      r := ApplyMappings(t, mappings);
      if r.Some? {
        MappedInRange(t, mappings);
        var closed := CloseSources(r.value, mappings);
        r := CloseNumbers(closed, closes);
      }
    }

    /** The descriptors of a new task. When a number is invalid the copy is dropped and nothing has changed. */
    method Inherit(parent: Option<nat>, child: nat, mappings: seq<FdMapping>, closes: seq<nat>) returns (r: Result<()>)
      requires Valid() && child < SLOTS && tables[child] == EmptyTable() && (parent.Some? ==> parent.value < SLOTS)
      modifies this`tables, pipes`readers, pipes`writers
      ensures Valid()
      ensures var result := ChildTable(if parent.Some? then old(tables)[parent.value] else InitialTable(), mappings, closes);
              && (r.Ok? <==> result.Some?)
              && tables == if result.Some? then old(tables)[child := result.value] else old(tables)
    {
      hide Balanced, ChildTable, EmptyTable, InitialTable;
      SizeOf();
      var t := CopyTable(parent);
      var last := PrepareTable(t, mappings, closes);
      if last.None? {
        return Err(InvalidFd);
      }
      Store(child, last.value);
      r := Ok(());
    }

    lemma SizeOf()
      requires Valid()
      ensures |tables| == SLOTS
    {
    }

    method Store(child: nat, t: Table)
      requires child < SLOTS && Balanced(multiset(t)) && tables[child] == EmptyTable()
      modifies this`tables
      ensures Valid() && tables == old(tables)[child := t]
    {
      hide Holdings, Rings, Counted, EmptyTable;
      Adopt(child, t);
      tables := tables[child := t];
    }

    lemma Adopt(child: nat, t: Table)
      requires child < SLOTS && Balanced(multiset(t)) && tables[child] == EmptyTable()
      ensures Counted(Holdings(tables[child := t]) + multiset{})
    {
      hide Holdings, Rings, EmptyTable, Counted;
      AdoptedWeight(tables, child, t);
      SameWeight(Holdings(tables) + multiset(t), Holdings(tables[child := t]) + multiset{});
    }

    // ---------- Reading and writing ----------

    /** `outside` is what the keyboard or a file would give. */
    method Read(slot: nat, n: nat, room: nat, outside: Result<seq<byte>>) returns (r: Result<seq<byte>>)
      requires Valid() && slot < SLOTS
      modifies pipes`head, pipes`length, pipes`delivered
      ensures Valid()
      ensures n < MAX_FDS && tables[slot][n].Some? && tables[slot][n].value.PipeRead? ==>
                var p, writers := tables[slot][n].value.pipe, Holdings(tables)[Some(PipeWrite(tables[slot][n].value.pipe))];
                && p in pipes
                && (r.Err? <==> old(p.length) == 0 && writers > 0) && (r.Err? ==> r.error == WouldBlock)
                && (r.Ok? ==> |r.value| == if room < old(p.length) then room else old(p.length))
                && p.delivered == old(p.delivered) + (if r.Ok? then r.value else [])
                && (forall q :: q in pipes && q != p ==> q.delivered == old(q.delivered))
      ensures n >= MAX_FDS || tables[slot][n].None? || tables[slot][n].value.Console? || tables[slot][n].value.PipeWrite? ==>
                r == Err(InvalidFd) && forall q :: q in pipes ==> q.delivered == old(q.delivered)
    {
      hide Holdings;
      if n >= MAX_FDS || tables[slot][n].None? {
        return Err(InvalidFd);
      }
      HoldingsMember(tables, slot, n);
      assert tables[slot][n] in Holdings(tables) + multiset{};
      match tables[slot][n].value {
        case Stdin => r := outside;
        case File => r := outside;
        case PipeRead(pipe) =>
          if pipe.length == 0 && pipe.writers != 0 {
            return Err(WouldBlock);
          }
          var bytes := pipe.Read(room);
          r := Ok(bytes);
        case _ => r := Err(InvalidFd);
      }
    }

    method Write(slot: nat, n: nat, input: seq<byte>, outside: Result<nat>) returns (r: Result<nat>)
      requires Valid() && slot < SLOTS
      modifies pipes`length, pipes`accepted, set p: Pipe | p in pipes :: p.bytes
      ensures Valid()
      ensures n < MAX_FDS && tables[slot][n].Some? && tables[slot][n].value.PipeWrite? ==>
                var p, readers := tables[slot][n].value.pipe, Holdings(tables)[Some(PipeRead(tables[slot][n].value.pipe))];
                && p in pipes
                && (r == Err(BrokenPipe) <==> readers == 0)
                && (r == Err(WouldBlock) <==> readers > 0 && old(p.length) == PIPE_CAPACITY && input != [])
                && (r.Ok? ==> r.value == if |input| < PIPE_CAPACITY - old(p.length) then |input| else PIPE_CAPACITY - old(p.length))
                && (r.Err? ==> r.error == BrokenPipe || r.error == WouldBlock)
                && p.accepted == old(p.accepted) + (if r.Ok? then input[..r.value] else [])
                && (forall q :: q in pipes && q != p ==> q.accepted == old(q.accepted))
      ensures n >= MAX_FDS || tables[slot][n].None? || tables[slot][n].value.Stdin? || tables[slot][n].value.PipeRead? ==>
                r == Err(InvalidFd) && forall q :: q in pipes ==> q.accepted == old(q.accepted)
    {
      hide Holdings;
      if n >= MAX_FDS || tables[slot][n].None? {
        return Err(InvalidFd);
      }
      HoldingsMember(tables, slot, n);
      assert tables[slot][n] in Holdings(tables) + multiset{};
      match tables[slot][n].value {
        case Console => r := Ok(|input|);
        case File => r := outside;
        case PipeWrite(pipe) =>
          if pipe.readers == 0 {
            return Err(BrokenPipe);
          }
          var count := pipe.Write(input);
          r := if count == 0 && input != [] then Err(WouldBlock) else Ok(count);
        case _ => r := Err(InvalidFd);
      }
    }

    /** A finished task gives up everything it held. */
    method Reap(slot: nat)
      requires Valid() && slot < SLOTS
      modifies this`tables, pipes`readers, pipes`writers
      ensures Valid() && tables == old(tables)[slot := EmptyTable()]
    {
      hide Rings, Counted, Holdings;
      var t := tables[slot];
      Vacate(slot);
      tables := tables[slot := EmptyTable()];
      DropAll(t, multiset{});
    }

    /** Emptying a table makes all it held loose. */
    lemma Vacate(slot: nat)
      requires Valid() && slot < SLOTS
      ensures Counted(Holdings(tables[slot := EmptyTable()]) + (multiset{} + multiset(tables[slot])))
    {
      hide Holdings, Rings, EmptyTable, Counted;
      VacatedWeight(tables, slot);
      SameWeight(Holdings(tables) + multiset{}, Holdings(tables[slot := EmptyTable()]) + (multiset{} + multiset(tables[slot])));
    }

    /** Empty entries do not matter to the counts. */
    lemma SameWeight(a: Held, b: Held)
      requires Counted(a) && forall e: Option<Descriptor> :: IsEnd(e) ==> a[e] == b[e]
      ensures Counted(b)
    {
      assert forall e: Option<Descriptor> :: IsEnd(e) && e in b ==> e in a;
    }
  }

  lemma VacatedWeight(tables: seq<Table>, slot: nat)
    requires slot < |tables|
    ensures forall e: Option<Descriptor> :: e.Some? ==>
              (Holdings(tables[slot := EmptyTable()]) + (multiset{} + multiset(tables[slot])))[e] == (Holdings(tables) + multiset{})[e]
  {
    hide EmptyTable, Holdings;
    HoldingsUpdate(tables, slot, EmptyTable());
    EmptyIsNone();
  }

  lemma AdoptedWeight(tables: seq<Table>, child: nat, t: Table)
    requires child < |tables| && tables[child] == EmptyTable()
    ensures forall e: Option<Descriptor> :: IsEnd(e) ==>
              (Holdings(tables[child := t]) + multiset{})[e] == (Holdings(tables) + multiset(t))[e]
  {
    hide EmptyTable, Holdings;
    HoldingsUpdate(tables, child, t);
    EmptyIsNone();
  }

  lemma EmptyEntries()
    ensures forall j :: 0 <= j < MAX_FDS ==> EmptyTable()[j] == None
  {
  }

  lemma Swapped(t: Table, n: nat, e: Option<Descriptor>)
    requires n < MAX_FDS
    ensures multiset(t) + multiset{e} == multiset(t[n := e]) + multiset{t[n]}
  {
    assert t[n] in multiset(t);
  }

  lemma {:induction false} MappedInRange(t: Table, mappings: seq<FdMapping>)
    requires Mapped(t, mappings).Some?
    ensures forall k :: 0 <= k < |mappings| ==> mappings[k].source < MAX_FDS
  {
    if mappings != [] {
      var front := mappings[..|mappings| - 1];
      MappedInRange(t, front);
      assert forall k :: 0 <= k < |front| ==> front[k] == mappings[k];
    }
  }

  lemma PlainWeight()
    ensures forall e: Option<Descriptor> :: IsEnd(e) ==> multiset(InitialTable())[e] == 0
  {
    assert forall e: Option<Descriptor> :: IsEnd(e) ==> e !in InitialTable();
  }

  lemma EmptyIsNone()
    ensures forall e: Option<Descriptor> :: e.Some? ==> multiset(EmptyTable())[e] == 0
  {
    assert forall e: Option<Descriptor> :: e.Some? ==> e !in EmptyTable();
  }

  lemma {:induction false} NothingHeld(tables: seq<Table>)
    requires forall i :: 0 <= i < |tables| ==> tables[i] == EmptyTable()
    ensures forall e: Option<Descriptor> :: e.Some? ==> e !in Holdings(tables)
  {
    EmptyIsNone();
    if tables != [] {
      NothingHeld(tables[1..]);
    }
  }

  method FreePair(t: Table) returns (r: Option<(nat, nat)>)
    ensures r.Some? ==> r.value.0 < r.value.1 < MAX_FDS && t[r.value.0].None? && t[r.value.1].None?
    ensures r.Some? ==> forall k :: 0 <= k < r.value.1 && k != r.value.0 ==> t[k].Some?
    ensures r.None? ==> forall i, j :: 0 <= i < j < MAX_FDS ==> t[i].Some? || t[j].Some?
  {
    var first: Option<nat> := None;
    for i := 0 to MAX_FDS
      invariant first.None? ==> forall k :: 0 <= k < i ==> t[k].Some?
      invariant first.Some? ==> first.value < i && t[first.value].None? && forall k :: 0 <= k < i && k != first.value ==> t[k].Some?
    {
      if t[i].None? {
        if first.Some? {
          return Some((first.value, i));
        }
        first := Some(i);
      }
    }
    r := None;
  }
}
