/** What a child's descriptor table holds, number by number, for every list of mappings and closings. */
module Inheritance {
  import opened Options
  import opened Descriptors

  /** The number in the parent's table that the mappings leave at `n`, read from the last mapping back to the first. */
  function Origin(mappings: seq<FdMapping>, n: nat): nat {
    if mappings == [] then n
    else
      var m := mappings[|mappings| - 1];
      Origin(mappings[..|mappings| - 1], if m.target == n then m.source else n)
  }

  predicate InRange(mappings: seq<FdMapping>) {
    forall k :: 0 <= k < |mappings| ==> mappings[k].source < MAX_FDS && mappings[k].target < MAX_FDS
  }

  /** Mapping `k` finds a descriptor at its source when its turn comes. */
  predicate Finds(t: Table, mappings: seq<FdMapping>, k: nat)
    requires k < |mappings|
  {
    var from := Origin(mappings[..k], mappings[k].source);
    from < MAX_FDS && t[from].Some?
  }

  predicate AllFind(t: Table, mappings: seq<FdMapping>) {
    forall k :: 0 <= k < |mappings| ==> Finds(t, mappings, k)
  }

  /** Some mapping moves what is at `n` to another number. */
  predicate MovedAway(mappings: seq<FdMapping>, n: nat) {
    exists k :: 0 <= k < |mappings| && mappings[k].source == n && mappings[k].target != n
  }

  lemma FindsFront(t: Table, mappings: seq<FdMapping>)
    requires mappings != []
    ensures var front := mappings[..|mappings| - 1];
            && (InRange(mappings) <==> InRange(front) && mappings[|mappings| - 1].source < MAX_FDS && mappings[|mappings| - 1].target < MAX_FDS)
            && (AllFind(t, mappings) <==> AllFind(t, front) && Finds(t, mappings, |mappings| - 1))
  {
    hide Origin;
    var front := mappings[..|mappings| - 1];
    assert forall k :: 0 <= k < |front| ==> mappings[..k] == front[..k];
    assert forall k :: 0 <= k < |front| ==> Finds(t, front, k) == Finds(t, mappings, k);
  }

  /** The mappings succeed exactly when every number is one and every source is held in turn; then each number holds its origin. */
  lemma {:induction false} MappedTraces(t: Table, mappings: seq<FdMapping>)
    ensures Mapped(t, mappings).Some? <==> InRange(mappings) && AllFind(t, mappings)
    ensures Mapped(t, mappings).Some? ==> forall n :: 0 <= n < MAX_FDS ==> Origin(mappings, n) < MAX_FDS && Mapped(t, mappings).value[n] == t[Origin(mappings, n)]
  {
    if mappings != [] {
      var front := mappings[..|mappings| - 1];
      MappedTraces(t, front);
      FindsFront(t, mappings);
      hide InRange, AllFind;
    }
  }

  lemma {:induction false} SourcesGone(t: Table, mappings: seq<FdMapping>, n: nat)
    requires n < MAX_FDS
    ensures WithoutSources(t, mappings)[n] == if MovedAway(mappings, n) then None else t[n]
  {
    if mappings != [] {
      SourcesGone(t, mappings[..|mappings| - 1], n);
    }
  }

  lemma {:induction false} NumbersGone(t: Table, closes: seq<nat>)
    ensures WithoutNumbers(t, closes).Some? <==> forall n :: n in closes ==> n < MAX_FDS
    ensures WithoutNumbers(t, closes).Some? ==>
              forall n :: 0 <= n < MAX_FDS ==> WithoutNumbers(t, closes).value[n] == if n in closes then None else t[n]
  {
    if closes != [] {
      var front, last := closes[..|closes| - 1], closes[|closes| - 1];
      NumbersGone(t, front);
      assert closes == front + [last];
      assert last in closes && forall n :: n in front ==> n in closes;
      assert forall n :: n in closes ==> n in front || n == last;
    }
  }

  /** When a child gets a table at all, and exactly what it holds at every number. */
  lemma ChildTraces(t: Table, mappings: seq<FdMapping>, closes: seq<nat>)
    ensures ChildTable(t, mappings, closes).Some? <==>
            InRange(mappings) && AllFind(t, mappings) && forall n :: n in closes ==> n < MAX_FDS
    ensures ChildTable(t, mappings, closes).Some? ==>
              forall n :: 0 <= n < MAX_FDS ==>
                && Origin(mappings, n) < MAX_FDS
                && ChildTable(t, mappings, closes).value[n] ==
                   if n in closes || MovedAway(mappings, n) then None else t[Origin(mappings, n)]
  {
    hide InRange, AllFind, MovedAway, Origin;
    MappedTraces(t, mappings);
    var mapped := Mapped(t, mappings);
    if mapped.Some? {
      NumbersGone(WithoutSources(mapped.value, mappings), closes);
      forall n | 0 <= n < MAX_FDS
        ensures WithoutSources(mapped.value, mappings)[n] == if MovedAway(mappings, n) then None else mapped.value[n]
      {
        SourcesGone(mapped.value, mappings, n);
      }
    }
  }

  // ---------- Mappings that do not interfere ----------

  /** No two mappings have one target, and none has another's target as its source. */
  predicate Separate(mappings: seq<FdMapping>) {
    forall j, k :: 0 <= j < |mappings| && 0 <= k < |mappings| && j != k ==>
      mappings[j].target != mappings[k].target && mappings[j].source != mappings[k].target
  }

  lemma {:induction false} UntargetedOrigin(mappings: seq<FdMapping>, n: nat)
    requires forall k :: 0 <= k < |mappings| ==> mappings[k].target != n
    ensures Origin(mappings, n) == n
  {
    if mappings != [] {
      UntargetedOrigin(mappings[..|mappings| - 1], n);
    }
  }

  lemma {:induction false} TargetOrigin(mappings: seq<FdMapping>, k: nat)
    requires Separate(mappings) && k < |mappings|
    ensures Origin(mappings, mappings[k].target) == mappings[k].source
  {
    var front := mappings[..|mappings| - 1];
    if k == |front| {
      UntargetedOrigin(front, mappings[k].source);
    } else {
      TargetOrigin(front, k);
    }
  }

  /** What a shell relies on: targets hold what the parent had at the sources, moved and closed numbers are empty, the rest is inherited. */
  lemma SeparateMappings(t: Table, mappings: seq<FdMapping>, closes: seq<nat>)
    requires Separate(mappings)
    ensures ChildTable(t, mappings, closes).Some? <==>
            && InRange(mappings) && (forall k :: 0 <= k < |mappings| ==> t[mappings[k].source].Some?)
            && forall n :: n in closes ==> n < MAX_FDS
    ensures ChildTable(t, mappings, closes).Some? ==>
              var child := ChildTable(t, mappings, closes).value;
              && InRange(mappings)
              && (forall k :: 0 <= k < |mappings| && mappings[k].target !in closes ==> child[mappings[k].target] == t[mappings[k].source])
              && (forall k :: 0 <= k < |mappings| && mappings[k].source != mappings[k].target ==> child[mappings[k].source].None?)
              && (forall n :: n in closes ==> n < MAX_FDS && child[n].None?)
              && (forall n :: 0 <= n < MAX_FDS && n !in closes && Unmentioned(mappings, n) ==> child[n] == t[n])
              && (forall n :: 0 <= n < MAX_FDS && t[n].None? && child[n].Some? ==> exists k :: 0 <= k < |mappings| && mappings[k].target == n)
  {
    ChildTraces(t, mappings, closes);
    if InRange(mappings) {
      SourcesAsTheyWere(t, mappings);
    }
    if ChildTable(t, mappings, closes).Some? {
      forall n | 0 <= n < MAX_FDS && forall k :: 0 <= k < |mappings| ==> mappings[k].target != n
        ensures Origin(mappings, n) == n
      {
        UntargetedOrigin(mappings, n);
      }
      forall k | 0 <= k < |mappings| ensures Origin(mappings, mappings[k].target) == mappings[k].source && !MovedAway(mappings, mappings[k].target)
      {
        TargetOrigin(mappings, k);
      }
    }
  }

  predicate Unmentioned(mappings: seq<FdMapping>, n: nat) {
    forall k :: 0 <= k < |mappings| ==> mappings[k].source != n && mappings[k].target != n
  }

  lemma SourcesAsTheyWere(t: Table, mappings: seq<FdMapping>)
    requires Separate(mappings) && InRange(mappings)
    ensures forall k :: 0 <= k < |mappings| ==> Finds(t, mappings, k) == t[mappings[k].source].Some?
  {
    forall k | 0 <= k < |mappings| ensures Origin(mappings[..k], mappings[k].source) == mappings[k].source {
      UntargetedOrigin(mappings[..k], mappings[k].source);
    }
  }

  // ---------- Mappings that do ----------

  lemma {:induction false} OriginOfTarget(mappings: seq<FdMapping>, k: nat)
    requires k < |mappings| && forall j :: k < j < |mappings| ==> mappings[j].target != mappings[k].target
    ensures Origin(mappings, mappings[k].target) == Origin(mappings[..k], mappings[k].source)
  {
    var front := mappings[..|mappings| - 1];
    if k < |front| {
      OriginOfTarget(front, k);
      assert front[..k] == mappings[..k];
    }
  }

  lemma MappedBefore(t: Table, mappings: seq<FdMapping>, k: nat)
    requires k <= |mappings| && InRange(mappings) && AllFind(t, mappings)
    ensures InRange(mappings[..k]) && AllFind(t, mappings[..k])
  {
    hide Origin;
    forall j | 0 <= j < k ensures Finds(t, mappings[..k], j) {
      assert mappings[..k][..j] == mappings[..j];
      assert Finds(t, mappings, j);
    }
  }

  /** In general the last mapping to a target puts there what the mappings before it left at its source; it stays exactly when the number is neither closed nor moved away. */
  lemma TargetKept(t: Table, mappings: seq<FdMapping>, closes: seq<nat>, k: nat)
    requires k < |mappings| && ChildTable(t, mappings, closes).Some?
    requires forall j :: k < j < |mappings| ==> mappings[j].target != mappings[k].target
    ensures mappings[k].target < MAX_FDS
    ensures ChildTable(t, mappings, closes).value[mappings[k].target].Some? <==>
            mappings[k].target !in closes && !MovedAway(mappings, mappings[k].target)
    ensures ChildTable(t, mappings, closes).value[mappings[k].target].Some? ==>
              Mapped(t, mappings[..k]).Some? && mappings[k].source < MAX_FDS
              && ChildTable(t, mappings, closes).value[mappings[k].target] == Mapped(t, mappings[..k]).value[mappings[k].source]
  {
    hide ChildTable, MovedAway, Mapped;
    ChildTraces(t, mappings, closes);
    MappedBefore(t, mappings, k);
    MappedTraces(t, mappings[..k]);
    OriginOfTarget(mappings, k);
    assert Finds(t, mappings, k);
  }

  /** So a swap through a spare number loses both: every number that was copied from is closed, even when it is a target too. */
  lemma SwapLosesBoth(t: Table, a: nat, b: nat, spare: nat)
    requires a < MAX_FDS && b < MAX_FDS && spare < MAX_FDS && a != b && a != spare && b != spare
    requires t[a].Some? && t[b].Some?
    ensures var child := ChildTable(t, [FdMapping(a, spare), FdMapping(b, a), FdMapping(spare, b)], []);
            child.Some? && child.value[a].None? && child.value[b].None? && child.value[spare].None?
  {
    hide ChildTable;
    var mappings := [FdMapping(a, spare), FdMapping(b, a), FdMapping(spare, b)];
    ChildTraces(t, mappings, []);
    assert mappings[..0] == [] && mappings[..1] == [FdMapping(a, spare)] && mappings[..2] == [FdMapping(a, spare), FdMapping(b, a)];
    assert mappings[..1][..0] == [] && mappings[..2][..1] == mappings[..1];
    assert Origin(mappings[..1], b) == b && Origin(mappings[..1], spare) == a && Origin(mappings[..2], spare) == a;
    assert Finds(t, mappings, 0) && Finds(t, mappings, 1) && Finds(t, mappings, 2);
    assert mappings[0].source == a && mappings[1].source == b && mappings[2].source == spare;
    assert MovedAway(mappings, a) && MovedAway(mappings, b) && MovedAway(mappings, spare);
  }
}
