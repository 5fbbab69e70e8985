/** What the edits of a directory block do to the list of names it defines. */
module Ext2RecordProofs {
  import opened Bytes
  import opened Options
  import opened Ext2Disk
  import opened Ext2Records

  /** `after` is `before` with `e` put in at one place and nothing else changed. */
  ghost predicate Inserted(before: seq<Entry>, after: seq<Entry>, e: Entry) {
    exists k :: 0 <= k <= |before| && after == before[..k] + [e] + before[k..]
  }

  /** `after` is `before` without its first entry called `name`, and nothing else changed. */
  ghost predicate RemovedFirst(before: seq<Entry>, after: seq<Entry>, name: seq<byte>) {
    exists k: nat :: IsFirst(before, k, name) && after == before[..k] + before[k + 1..]
  }

  predicate IsFirst(es: seq<Entry>, k: nat, name: seq<byte>) {
    k < |es| && es[k].name == name && forall j :: 0 <= j < k ==> es[j].name != name
  }

  /** A record depends on its own bytes only. */
  lemma RecordLocal(md: Metadata, block: Block, block': Block, o: nat, valid: nat)
    requires o + 8 <= valid <= |block| && valid <= |block'|
    requires RecordAt(md, block, o, valid).Ok?
    requires forall i :: o <= i < o + RecordAt(md, block, o, valid).value.len ==> block[i] == block'[i]
    ensures RecordAt(md, block', o, valid) == RecordAt(md, block, o, valid)
  {
    var r := RecordAt(md, block, o, valid).value;
    assert block[o + 8..o + 8 + |r.name|] == block'[o + 8..o + 8 + |r.name|];
  }

  lemma {:induction false} RecordsLocal(md: Metadata, block: Block, block': Block, o: nat, valid: nat)
    requires o <= valid <= |block| && valid <= |block'|
    requires Records(md, block, o, valid).Ok?
    requires forall i :: o <= i < valid ==> block[i] == block'[i]
    ensures Records(md, block', o, valid) == Records(md, block, o, valid)
    decreases valid - o
  {
    hide RecordAt;
    if o + 8 <= valid {
      RecordLocal(md, block, block', o, valid);
      RecordsLocal(md, block, block', o + RecordAt(md, block, o, valid).value.len, valid);
    }
  }

  lemma RecordsUnfold(md: Metadata, block: Block, o: nat)
    requires o + 8 <= |block| && Records(md, block, o, |block|).Ok?
    ensures RecordAt(md, block, o, |block|).Ok?
    ensures var r := RecordAt(md, block, o, |block|).value;
            && Records(md, block, o + r.len, |block|).Ok?
            && Records(md, block, o, |block|).value == [r] + Records(md, block, o + r.len, |block|).value
  {
  }

  lemma LiveCons(r: Record, rs: seq<Record>)
    ensures Live([r] + rs) == LiveOne(r) + Live(rs)
    ensures r.inode == 0 ==> Live([r] + rs) == Live(rs)
  {
    assert ([r] + rs)[1..] == rs;
    assert r.inode == 0 ==> LiveOne(r) + Live(rs) == Live(rs);
  }

  function LiveOne(r: Record): seq<Entry> {
    if r.inode == 0 then [] else [Entry(r.name, r.inode, r.kind)]
  }

  // ---------- Adding ----------

  /** The record written by `EntryBytes` reads back as the new entry. */
  lemma EntryReadsBack(md: Metadata, block: Block, o: nat, len: nat, name: seq<byte>, inode: u32, kind: byte)
    requires 8 + |name| <= len && len % 4 == 0 && o + len <= |block| < U16_LIMIT && |name| < 256
    ensures RecordAt(md, Splice(block, o, EntryBytes(md, len, name, inode, kind)), o, |block|)
         == Ok(Record(inode, len, name, KeptKind(md, kind)))
  {
    var e := EntryBytes(md, len, name, inode, kind);
    var s := Splice(block, o, e);
    assert forall i :: 0 <= i < 4 ==> e[i] == Enc32(inode)[i];
    assert s[o] == e[0] && s[o + 1] == e[1] && s[o + 2] == e[2] && s[o + 3] == e[3];
    assert Le32(s, o) == Le32(Enc32(inode), 0);
    assert e[4] == Enc16(len)[0] && e[5] == Enc16(len)[1];
    assert s[o + 4] == e[4] && s[o + 5] == e[5];
    assert Le16(s, o + 4) == Le16(Enc16(len), 0);
    HeaderTail(md, s, o, e, len, name, inode, kind);
  }

  lemma HeaderTail(md: Metadata, s: Block, o: nat, e: seq<byte>, len: nat, name: seq<byte>, inode: u32, kind: byte)
    requires 8 + |name| <= len < U16_LIMIT && |name| < 256 && o + len <= |s|
    requires e == EntryBytes(md, len, name, inode, kind)
    requires forall i :: 0 <= i < len ==> s[o + i] == e[i]
    ensures NameLength(md, s, o) == |name|
    ensures s[o + 8..o + 8 + |name|] == name && KeptKind(md, s[o + 7]) == KeptKind(md, kind)
  {
    assert s[o + 6] == e[6] && s[o + 7] == e[7];
    forall i | 0 <= i < |name| ensures s[o + 8 + i] == name[i] {
      assert s[o + (8 + i)] == e[8 + i];
    }
    if !md.fileType {
      assert e[6] == Enc16(|name|)[0] && e[7] == Enc16(|name|)[1];
      assert Le16(s, o + 6) == Le16(Enc16(|name|), 0);
    }
  }

  /** Placing an entry in a record adds it there and leaves the rest of the chain as it was. */
  lemma PlaceCorrect(md: Metadata, block: Block, o: nat, name: seq<byte>, inode: u32, kind: byte)
    requires o + 8 <= |block| < U16_LIMIT && |name| < 256 && inode != 0
    requires Records(md, block, o, |block|).Ok?
    requires RecordAt(md, block, o, |block|).Ok? && HasRoom(RecordAt(md, block, o, |block|).value, Align4(8 + |name|))
    ensures var r := RecordAt(md, block, o, |block|).value;
            var s := PlaceIn(md, block, o, r, name, inode, kind);
            && (forall i :: 0 <= i < o ==> s[i] == block[i])
            && Records(md, s, o, |block|).Ok?
            && Inserted(Live(Records(md, block, o, |block|).value), Live(Records(md, s, o, |block|).value), Entry(name, inode, KeptKind(md, kind)))
  {
    hide Live, Records, RecordAt;
    var r := RecordAt(md, block, o, |block|).value;
    RecordsUnfold(md, block, o);
    if r.inode == 0 {
      PlaceInDead(md, block, o, r, name, inode, kind);
    } else {
      PlaceInLive(md, block, o, r, name, inode, kind);
    }
  }

  lemma InsertFront(e: Entry, tail: seq<Entry>)
    ensures Inserted(tail, [e] + tail, e)
  {
    assert [e] + tail == tail[..0] + [e] + tail[0..];
  }

  lemma InsertSecond(first: Entry, e: Entry, tail: seq<Entry>)
    ensures Inserted([first] + tail, [first] + ([e] + tail), e)
  {
    var before := [first] + tail;
    assert before[..1] == [first] && before[1..] == tail;
    assert [first] + ([e] + tail) == before[..1] + [e] + before[1..];
  }

  lemma PlaceInDead(md: Metadata, block: Block, o: nat, r: Record, name: seq<byte>, inode: u32, kind: byte)
    requires o + 8 <= |block| < U16_LIMIT && |name| < 256 && inode != 0
    requires RecordAt(md, block, o, |block|) == Ok(r) && r.inode == 0 && HasRoom(r, Align4(8 + |name|))
    requires Records(md, block, o + r.len, |block|).Ok?
    ensures var s := PlaceIn(md, block, o, r, name, inode, kind);
            var tail := Records(md, block, o + r.len, |block|).value;
            && (forall i :: 0 <= i < o ==> s[i] == block[i])
            && Records(md, s, o, |block|).Ok?
            && Inserted(Live([r] + tail), Live(Records(md, s, o, |block|).value), Entry(name, inode, KeptKind(md, kind)))
  {
    hide Live, RecordAt, EntryBytes;
    var s := PlaceIn(md, block, o, r, name, inode, kind);
    var tail := Records(md, block, o + r.len, |block|).value;
    assert r.len % 4 == 0;
    EntryReadsBack(md, block, o, r.len, name, inode, kind);
    RecordsLocal(md, block, s, o + r.len, |block|);
    LiveCons(r, tail);
    LiveCons(Record(inode, r.len, name, KeptKind(md, kind)), tail);
    InsertFront(Entry(name, inode, KeptKind(md, kind)), Live(tail));
  }

  lemma SplitSizes(r: Record, name: seq<byte>)
    requires r.inode != 0 && r.len % 4 == 0 && HasRoom(r, Align4(8 + |name|))
    ensures var used := Align4(8 + |r.name|);
            8 + |r.name| <= used && used + 8 + |name| <= r.len && (r.len - used) % 4 == 0 && used % 4 == 0
  {
    hide Align4;
  }

  /** Splitting a live record: the old one shrinks to what it uses, the new one takes the rest. */
  lemma SplitReadsBack(md: Metadata, block: Block, o: nat, r: Record, name: seq<byte>, inode: u32, kind: byte)
    requires o + 8 <= |block| < U16_LIMIT && |name| < 256
    requires RecordAt(md, block, o, |block|) == Ok(r) && r.inode != 0 && HasRoom(r, Align4(8 + |name|))
    ensures var s := PlaceIn(md, block, o, r, name, inode, kind);
            var used := Align4(8 + |r.name|);
            && RecordAt(md, s, o, |block|) == Ok(r.(len := used))
            && o + used + 8 <= |block|
            && RecordAt(md, s, o + used, |block|) == Ok(Record(inode, r.len - used, name, KeptKind(md, kind)))
            && (forall i :: 0 <= i < o ==> s[i] == block[i])
            && (forall i :: o + r.len <= i < |block| ==> s[i] == block[i])
  {
    hide EntryBytes, RecordAt, Align4, Enc16, HasRoom, Splice;
    SplitSizes(r, name);
    SplitAt(md, block, o, r, Align4(8 + |r.name|), name, inode, kind);
  }

  lemma SplitAt(md: Metadata, block: Block, o: nat, r: Record, used: nat, name: seq<byte>, inode: u32, kind: byte)
    requires o + 8 <= |block| < U16_LIMIT && |name| < 256 && RecordAt(md, block, o, |block|) == Ok(r)
    requires 8 + |r.name| <= used && used + 8 + |name| <= r.len && (r.len - used) % 4 == 0 && used % 4 == 0
    ensures var s := Splice(Splice(block, o + 4, Enc16(used)), o + used, EntryBytes(md, r.len - used, name, inode, kind));
            && |s| == |block|
            && RecordAt(md, s, o, |block|) == Ok(r.(len := used))
            && RecordAt(md, s, o + used, |block|) == Ok(Record(inode, r.len - used, name, KeptKind(md, kind)))
            && (forall i :: 0 <= i < o ==> s[i] == block[i])
            && (forall i :: o + r.len <= i < |block| ==> s[i] == block[i])
  {
    hide EntryBytes, RecordAt, Enc16;
    var shrunk := Splice(block, o + 4, Enc16(used));
    EntryReadsBack(md, shrunk, o + used, r.len - used, name, inode, kind);
    SpliceRead16(block, o + 4, used);
    var s := Splice(shrunk, o + used, EntryBytes(md, r.len - used, name, inode, kind));
    assert s[o + 4] == shrunk[o + 4] && s[o + 5] == shrunk[o + 5];
    LengthReadsBack(md, block, s, o, used);
  }

  lemma PlaceInLive(md: Metadata, block: Block, o: nat, r: Record, name: seq<byte>, inode: u32, kind: byte)
    requires o + 8 <= |block| < U16_LIMIT && |name| < 256 && inode != 0
    requires RecordAt(md, block, o, |block|) == Ok(r) && r.inode != 0 && HasRoom(r, Align4(8 + |name|))
    requires Records(md, block, o + r.len, |block|).Ok?
    ensures var s := PlaceIn(md, block, o, r, name, inode, kind);
            var tail := Records(md, block, o + r.len, |block|).value;
            && (forall i :: 0 <= i < o ==> s[i] == block[i])
            && Records(md, s, o, |block|).Ok?
            && Inserted(Live([r] + tail), Live(Records(md, s, o, |block|).value), Entry(name, inode, KeptKind(md, kind)))
  {
    hide Live, RecordAt, Align4, Inserted, PlaceIn;
    var s := PlaceIn(md, block, o, r, name, inode, kind);
    var tail := Records(md, block, o + r.len, |block|).value;
    var used := Align4(8 + |r.name|);
    SplitReadsBack(md, block, o, r, name, inode, kind);
    RecordsLocal(md, block, s, o + r.len, |block|);
    var kept, added := r.(len := used), Record(inode, r.len - used, name, KeptKind(md, kind));
    assert Records(md, s, o + used, |block|) == Ok([added] + tail);
    assert Records(md, s, o, |block|) == Ok([kept] + ([added] + tail));
    LiveCons(r, tail);
    LiveCons(added, tail);
    LiveCons(kept, [added] + tail);
    InsertSecond(Entry(r.name, r.inode, r.kind), Entry(name, inode, KeptKind(md, kind)), Live(tail));
  }

  /** Adding a name to a well-formed chain inserts exactly that entry and keeps the chain well formed. */
  lemma {:induction false} AddInserts(md: Metadata, block: Block, o: nat, name: seq<byte>, inode: u32, kind: byte)
    requires o <= |block| < U16_LIMIT && |name| < 256 && inode != 0
    requires Records(md, block, o, |block|).Ok?
    requires AddFrom(md, block, o, name, inode, kind).Ok?
    ensures var s := AddFrom(md, block, o, name, inode, kind).value;
            && (forall i :: 0 <= i < o ==> s[i] == block[i])
            && Records(md, s, o, |block|).Ok?
            && Inserted(Live(Records(md, block, o, |block|).value), Live(Records(md, s, o, |block|).value), Entry(name, inode, KeptKind(md, kind)))
    decreases |block| - o
  {
    hide Live, RecordAt, PlaceIn, Inserted, HasRoom;
    assert o + 8 <= |block|;
    var r := RecordAt(md, block, o, |block|).value;
    if HasRoom(r, Align4(8 + |name|)) {
      PlaceCorrect(md, block, o, name, inode, kind);
    } else {
      AddInserts(md, block, o + r.len, name, inode, kind);
      var s := AddFrom(md, block, o, name, inode, kind).value;
      RecordLocal(md, block, s, o, |block|);
      var tail, tail' := Records(md, block, o + r.len, |block|).value, Records(md, s, o + r.len, |block|).value;
      LiveCons(r, tail);
      LiveCons(r, tail');
      InsertedUnder(LiveOne(r), Live(tail), Live(tail'), Entry(name, inode, KeptKind(md, kind)));
    }
  }

  lemma InsertedUnder(head: seq<Entry>, before: seq<Entry>, after: seq<Entry>, e: Entry)
    requires Inserted(before, after, e)
    ensures Inserted(head + before, head + after, e)
  {
    var k :| 0 <= k <= |before| && after == before[..k] + [e] + before[k..];
    var n := |head| + k;
    assert (head + before)[..n] == head + before[..k] && (head + before)[n..] == before[k..];
    assert head + after == (head + before)[..n] + [e] + (head + before)[n..];
  }

  // ---------- Removing ----------

  lemma RemovedUnder(head: seq<Entry>, before: seq<Entry>, after: seq<Entry>, name: seq<byte>)
    requires RemovedFirst(before, after, name)
    requires forall j :: 0 <= j < |head| ==> head[j].name != name
    ensures RemovedFirst(head + before, head + after, name)
  {
    var k: nat :| IsFirst(before, k, name) && after == before[..k] + before[k + 1..];
    var n := |head| + k;
    assert IsFirst(head + before, n, name);
    assert (head + before)[..n] == head + before[..k] && (head + before)[n + 1..] == before[k + 1..];
    assert head + after == (head + before)[..n] + (head + before)[n + 1..];
  }

  lemma RemovedFront(e: Entry, tail: seq<Entry>)
    ensures RemovedFirst([e] + tail, tail, e.name)
  {
    assert IsFirst([e] + tail, 0, e.name);
    assert tail == ([e] + tail)[..0] + ([e] + tail)[1..];
  }

  /** The predecessor of the removed record, with the merged length. */
  lemma AbsorbReadsBack(md: Metadata, block: Block, p: nat, len: nat)
    requires p + 8 <= |block| < U16_LIMIT && RecordAt(md, block, p, |block|).Ok?
    requires len % 4 == 0 && p + RecordAt(md, block, p, |block|).value.len + len <= |block|
    ensures var r := RecordAt(md, block, p, |block|).value;
            var s := Absorb(block, p, len);
            && s.Ok?
            && (forall i :: 0 <= i < |block| && i != p + 4 && i != p + 5 ==> s.value[i] == block[i])
            && RecordAt(md, s.value, p, |block|) == Ok(r.(len := r.len + len))
  {
    var r := RecordAt(md, block, p, |block|).value;
    var s := Splice(block, p + 4, Enc16(r.len + len));
    SpliceRead16(block, p + 4, r.len + len);
    assert Absorb(block, p, len) == Ok(s);
    hide Absorb, Enc16;
    LengthReadsBack(md, block, s, p, r.len + len);
  }

  /** Changing nothing of a record but its length field changes nothing of it but its length. */
  lemma LengthReadsBack(md: Metadata, block: Block, block': Block, o: nat, len: nat)
    requires o + 8 <= |block| == |block'| && RecordAt(md, block, o, |block|).Ok?
    requires var r := RecordAt(md, block, o, |block|).value;
             && 8 + |r.name| <= len && len % 4 == 0 && o + len <= |block| && Le16(block', o + 4) == len
             && forall i :: o <= i < o + 8 + |r.name| && i != o + 4 && i != o + 5 ==> block'[i] == block[i]
    ensures RecordAt(md, block', o, |block|) == Ok(RecordAt(md, block, o, |block|).value.(len := len))
  {
    var r := RecordAt(md, block, o, |block|).value;
    assert NameLength(md, block', o) == NameLength(md, block, o);
    assert Le32(block', o) == Le32(block, o);
    assert block'[o + 8..o + 8 + |r.name|] == block[o + 8..o + 8 + |r.name|];
  }

  /** Removal at or after `o`, whose record's predecessor is the record at `p`. */
  lemma {:induction false} RemoveAfter(md: Metadata, block: Block, p: nat, o: nat, name: seq<byte>)
    requires p + 8 <= o <= |block| < U16_LIMIT
    requires RecordAt(md, block, p, |block|).Ok? && o == p + RecordAt(md, block, p, |block|).value.len
    requires var rp := RecordAt(md, block, p, |block|).value; rp.inode == 0 || rp.name != name
    requires Records(md, block, o, |block|).Ok?
    requires RemoveFrom(md, block, o, Some(p), name).Ok?
    ensures var rp := RecordAt(md, block, p, |block|).value;
            var s := RemoveFrom(md, block, o, Some(p), name).value;
            && (forall i :: 0 <= i < p ==> s[i] == block[i])
            && Records(md, s, p, |block|).Ok?
            && RemovedFirst(Live([rp] + Records(md, block, o, |block|).value), Live(Records(md, s, p, |block|).value), name)
    decreases |block| - o
  {
    hide Live, RecordAt, RemovedFirst, Absorb;
    assert o + 8 <= |block|;
    RecordsUnfold(md, block, o);
    var rp, r := RecordAt(md, block, p, |block|).value, RecordAt(md, block, o, |block|).value;
    var s := RemoveFrom(md, block, o, Some(p), name).value;
    var tail := Records(md, block, o + r.len, |block|).value;
    if r.inode != 0 && r.name == name {
      AbsorbReadsBack(md, block, p, r.len);
      RecordsLocal(md, block, s, o + r.len, |block|);
      AbsorbedLive(rp, r, tail);
    } else {
      RemoveAfter(md, block, o, o + r.len, name);
      RecordLocal(md, block, s, p, |block|);
      var rest := Records(md, s, o, |block|).value;
      LiveCons(rp, [r] + tail);
      LiveCons(rp, rest);
      RemovedUnder(LiveOne(rp), Live([r] + tail), Live(rest), name);
    }
  }

  lemma AbsorbedLive(rp: Record, r: Record, tail: seq<Record>)
    requires r.inode != 0 && (rp.inode == 0 || rp.name != r.name)
    ensures RemovedFirst(Live([rp] + ([r] + tail)), Live([rp.(len := rp.len + r.len)] + tail), r.name)
  {
    hide Live, RemovedFirst;
    LiveCons(r, tail);
    LiveCons(rp, [r] + tail);
    LiveCons(rp.(len := rp.len + r.len), tail);
    RemovedFront(Entry(r.name, r.inode, r.kind), Live(tail));
    RemovedUnder(LiveOne(rp), [Entry(r.name, r.inode, r.kind)] + Live(tail), Live(tail), r.name);
  }

  lemma ClearReadsBack(md: Metadata, block: Block, o: nat)
    requires o + 8 <= |block| && RecordAt(md, block, o, |block|).Ok?
    ensures var r := RecordAt(md, block, o, |block|).value;
            var s := Clear(block, o, r.len);
            && (forall i :: o + r.len <= i < |block| ==> s[i] == block[i])
            && RecordAt(md, s, o, |block|) == Ok(Record(0, r.len, [], 0))
  {
    var r := RecordAt(md, block, o, |block|).value;
    var s := Clear(block, o, r.len);
    assert s[o + 4] == block[o + 4] && s[o + 5] == block[o + 5];
    assert s[o] == 0 && s[o + 1] == 0 && s[o + 2] == 0 && s[o + 3] == 0 && s[o + 6] == 0 && s[o + 7] == 0;
  }

  /** Removing a name from a well-formed chain deletes exactly its first entry and keeps the chain well formed. */
  lemma RemoveDeletes(md: Metadata, block: Block, name: seq<byte>)
    requires |block| < U16_LIMIT
    requires Records(md, block, 0, |block|).Ok?
    requires RemoveFrom(md, block, 0, None, name).Ok?
    ensures var s := RemoveFrom(md, block, 0, None, name).value;
            && Records(md, s, 0, |block|).Ok?
            && RemovedFirst(Live(Records(md, block, 0, |block|).value), Live(Records(md, s, 0, |block|).value), name)
  {
    hide Live, RecordAt, RemovedFirst, Clear;
    assert 8 <= |block|;
    RecordsUnfold(md, block, 0);
    var r := RecordAt(md, block, 0, |block|).value;
    var s := RemoveFrom(md, block, 0, None, name).value;
    var tail := Records(md, block, r.len, |block|).value;
    if r.inode != 0 && r.name == name {
      ClearReadsBack(md, block, 0);
      RecordsLocal(md, block, s, r.len, |block|);
      LiveCons(r, tail);
      LiveCons(Record(0, r.len, [], 0), tail);
      RemovedFront(Entry(r.name, r.inode, r.kind), Live(tail));
    } else {
      RemoveAfter(md, block, 0, r.len, name);
    }
  }

  predicate HasName(es: seq<Entry>, name: seq<byte>) {
    exists i :: 0 <= i < |es| && es[i].name == name
  }

  lemma HasNameConcat(a: seq<Entry>, b: seq<Entry>, name: seq<byte>)
    ensures HasName(a + b, name) <==> HasName(a, name) || HasName(b, name)
  {
    if HasName(a, name) {
      var i :| 0 <= i < |a| && a[i].name == name;
      assert (a + b)[i] == a[i];
    }
    if HasName(b, name) {
      var i :| 0 <= i < |b| && b[i].name == name;
      assert (a + b)[|a| + i] == b[i];
    }
  }

  /** On a well-formed chain a removal succeeds exactly when the name is there, and otherwise reports that it is not. */
  lemma {:induction false} RemoveFinds(md: Metadata, block: Block, o: nat, prev: Option<nat>, name: seq<byte>)
    requires o <= |block| < U16_LIMIT && Records(md, block, o, |block|).Ok?
    requires prev.Some? ==> prev.value + 8 <= o && RecordAt(md, block, prev.value, |block|).Ok?
                            && o == prev.value + RecordAt(md, block, prev.value, |block|).value.len
    ensures var r := RemoveFrom(md, block, o, prev, name);
            if HasName(Live(Records(md, block, o, |block|).value), name) then r.Ok? else r == Err(NotFound)
    decreases |block| - o
  {
    hide RecordAt, Live, Clear, Absorb, HasName;
    if o + 8 > |block| {
      NoName(name);
    } else {
      RecordsUnfold(md, block, o);
      var r := RecordAt(md, block, o, |block|).value;
      var tail := Records(md, block, o + r.len, |block|).value;
      LiveCons(r, tail);
      HasNameConcat(LiveOne(r), Live(tail), name);
      OneName(r, name);
      if r.inode != 0 && r.name == name {
        if prev.Some? {
          AbsorbFits(md, block, prev.value, r.len);
        }
      } else {
        RemoveFinds(md, block, o + r.len, Some(o), name);
      }
    }
  }

  lemma NoName(name: seq<byte>)
    ensures !HasName(Live([]), name)
  {
  }

  lemma OneName(r: Record, name: seq<byte>)
    ensures HasName(LiveOne(r), name) <==> r.inode != 0 && r.name == name
  {
    if r.inode != 0 {
      assert LiveOne(r)[0].name == r.name;
    }
  }

  lemma AbsorbFits(md: Metadata, block: Block, p: nat, len: nat)
    requires p + 8 <= |block| < U16_LIMIT && RecordAt(md, block, p, |block|).Ok?
    requires p + RecordAt(md, block, p, |block|).value.len + len <= |block|
    ensures Absorb(block, p, len).Ok?
  {
  }
}
