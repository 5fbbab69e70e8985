/** A writer of ustar archives, and the round trip: what it lays out is accepted and read back as it was given. */
module UstarWriter {
  import opened Bytes
  import opened Options
  import opened Ustar
  import opened UstarTree

  const FILE: byte := 48
  const OLD_FILE: byte := 0
  const DIRECTORY: byte := 53

  /** One entry to write: its name, split for the two name fields, its kind and data, and the fields nobody reads. */
  datatype Item = Item(prefix: seq<byte>, base: seq<byte>, slash: bool, kind: byte, data: seq<byte>, other: Unread)

  datatype Unread = Unread(owner: seq<byte>, time: seq<byte>, link: seq<byte>, group: seq<byte>, end: seq<byte>)

  function Name(item: Item): seq<byte> {
    if item.prefix == [] then item.base else item.prefix + [SLASH] + item.base
  }

  /** The name field: a directory may end in a slash there. */
  function Written(item: Item): seq<byte> {
    item.base + if item.slash then [SLASH] else []
  }

  /** The item can be written: a safe name that the fields have room for, and no data for a directory. */
  predicate Fits(item: Item) {
    && SafeComponents(Name(item)) && item.base != []
    && |Written(item)| <= 100 && |item.prefix| <= 155 && |Name(item)| + (if item.slash then 1 else 0) <= MAX_PATH
    && (item.kind == FILE || item.kind == OLD_FILE || item.kind == DIRECTORY)
    && (item.slash ==> item.kind == DIRECTORY) && (item.kind == DIRECTORY ==> item.data == [])
    && |item.data| < Power8(11)
    && |item.other.owner| == 24 && |item.other.time| == 12 && |item.other.link| == 100 && |item.other.group| == 83 && |item.other.end| == 12
  }

  // ---------- Laying out ----------

  function OctalDigits(n: nat, width: nat): (digits: seq<byte>)
    ensures |digits| == width && forall i :: 0 <= i < width ==> OctalDigit(digits[i])
  {
    if width == 0 then [] else OctalDigits(n / 8, width - 1) + [48 + n % 8]
  }

  function ByteSum(s: seq<byte>): nat {
    if s == [] then 0 else ByteSum(s[..|s| - 1]) + s[|s| - 1]
  }

  /** A field of the given width, filled up with zeros. */
  function Filled(s: seq<byte>, width: nat): (field: seq<byte>)
    requires |s| <= width
    ensures |field| == width
  {
    s + Zeros(width - |s|)
  }

  /** What stands before and after the checksum field. */
  function Head(item: Item): (s: seq<byte>)
    requires Fits(item)
    ensures |s| == 148
  {
    Filled(Written(item), 100) + item.other.owner + OctalDigits(|item.data|, 11) + [0] + item.other.time
  }

  function Tail(item: Item): (s: seq<byte>)
    requires Fits(item)
    ensures |s| == 356
  {
    [item.kind] + item.other.link + [117, 115, 116, 97, 114] + item.other.group + Filled(item.prefix, 155) + item.other.end
  }

  /** The checksum is the sum of the header's bytes as they are with blanks in its place. */
  function Header(item: Item): (s: seq<byte>)
    requires Fits(item)
    ensures |s| == BLOCK
  {
    var blank := [32, 32, 32, 32, 32, 32, 32, 32];
    Head(item) + (OctalDigits(ByteSum(Head(item) + blank + Tail(item)), 6) + [0, 32]) + Tail(item)
  }

  function Padding(size: nat): nat {
    (BLOCK - size % BLOCK) % BLOCK
  }

  /** Header and data, filled up to whole blocks. */
  function Image(item: Item): seq<byte>
    requires Fits(item)
  {
    Header(item) + item.data + Zeros(Padding(|item.data|))
  }

  predicate AllFit(items: seq<Item>) {
    forall k :: 0 <= k < |items| ==> Fits(items[k])
  }

  function Images(items: seq<Item>): seq<byte>
    requires AllFit(items)
  {
    if items == [] then [] else Image(items[0]) + Images(items[1..])
  }

  /** The whole archive: the items, and then blocks of zeros. */
  function Archive(items: seq<Item>, blocks: nat): seq<byte>
    requires AllFit(items)
  {
    Images(items) + Zeros(BLOCK * blocks)
  }

  // ---------- Fields read back ----------

  lemma {:induction false} DigitsBack(n: nat, width: nat)
    requires n < Power8(width)
    ensures Positional(OctalDigits(n, width)) == n
  {
    if width > 0 {
      DigitsBack(n / 8, width - 1);
      var digits := OctalDigits(n, width);
      assert digits[..width - 1] == OctalDigits(n / 8, width - 1);
    }
  }

  lemma OctalBack(n: nat, width: nat, end: seq<byte>)
    requires n < Power8(width) && end != [] && Blank(end[0]) && width > 0
    ensures Octal(OctalDigits(n, width) + end) == Some(n)
  {
    var digits := OctalDigits(n, width);
    var field := digits + end;
    DigitsBack(n, width);
    assert forall i :: 0 <= i < width ==> field[i] == digits[i];
    assert field[0..width] == digits && field[width] == end[0];
    OctalIs(field, 0, width);
  }

  lemma {:induction false} FieldBack(s: seq<byte>, width: nat)
    requires |s| <= width && 0 !in s
    ensures Field(Filled(s, width)) == s
  {
    if s == [] {
    } else {
      FieldBack(s[1..], width - 1);
      assert Filled(s, width)[1..] == Filled(s[1..], width - 1);
    }
  }

  lemma {:induction false} SafeBytes(path: seq<byte>)
    requires SafeComponents(path)
    ensures path != [] && 0 !in path && path[|path| - 1] != SLASH
    decreases |path|
  {
    var i := FirstSlash(path);
    assert forall j :: 0 <= j < i ==> path[j] == path[..i][j];
    if i < |path| {
      SafeBytes(path[i + 1..]);
      assert path == path[..i] + [SLASH] + path[i + 1..];
    }
  }

  // ---------- The checksum ----------

  lemma {:induction false} ByteSumSplit(a: seq<byte>, b: seq<byte>)
    ensures ByteSum(a + b) == ByteSum(a) + ByteSum(b)
  {
    if b == [] {
      assert a + b == a;
    } else {
      ByteSumSplit(a, b[..|b| - 1]);
      assert (a + b)[..|a + b| - 1] == a + b[..|b| - 1];
    }
  }

  lemma {:induction false} ByteSumBelow(s: seq<byte>)
    ensures ByteSum(s) <= 255 * |s|
  {
    if s != [] {
      ByteSumBelow(s[..|s| - 1]);
    }
  }

  /** The header as it is summed: its checksum field blank. */
  function Blanked(header: seq<byte>): (s: seq<byte>)
    requires |header| == BLOCK
    ensures |s| == BLOCK
  {
    header[..148] + [32, 32, 32, 32, 32, 32, 32, 32] + header[156..]
  }

  lemma {:induction false} ChecksumFrom(header: seq<byte>, i: nat)
    requires |header| == BLOCK && i <= BLOCK
    ensures Checksum(header, i) == ByteSum(Blanked(header)[i..])
    decreases BLOCK - i
  {
    var b := Blanked(header);
    if i < BLOCK {
      ChecksumFrom(header, i + 1);
      assert b[i..] == [b[i]] + b[i + 1..];
      ByteSumSplit([b[i]], b[i + 1..]);
      assert ByteSum([b[i]]) == b[i];
      assert b[i] == if 148 <= i < 156 then 32 else header[i];
    }
  }

  /** The reader's sum is the sum of the blanked header. */
  lemma ChecksumIs(header: seq<byte>)
    requires |header| == BLOCK
    ensures Checksum(header, 0) == ByteSum(Blanked(header)) < Power8(6)
  {
    ChecksumFrom(header, 0);
    assert Blanked(header)[0..] == Blanked(header);
    ByteSumBelow(Blanked(header));
    assert Power8(3) == 512;
  }

  // ---------- The header ----------

  lemma Middle(a: seq<byte>, b: seq<byte>, c: seq<byte>)
    ensures (a + b + c)[|a|..|a| + |b|] == b
  {
  }

  lemma HeadFields(item: Item)
    requires Fits(item)
    ensures Head(item)[..100] == Filled(Written(item), 100)
    ensures Head(item)[124..136] == OctalDigits(|item.data|, 11) + [0]
  {
    var name, size := Filled(Written(item), 100), OctalDigits(|item.data|, 11) + [0];
    assert Head(item) == (name + item.other.owner) + size + item.other.time;
    Middle(name + item.other.owner, size, item.other.time);
  }

  lemma TailFields(item: Item)
    requires Fits(item)
    ensures Tail(item)[0] == item.kind
    ensures Tail(item)[101..106] == [117, 115, 116, 97, 114]
    ensures Tail(item)[189..344] == Filled(item.prefix, 155)
  {
    var front, magic, prefix := [item.kind] + item.other.link, [117, 115, 116, 97, 114], Filled(item.prefix, 155);
    assert Tail(item) == front + magic + (item.other.group + prefix + item.other.end);
    Middle(front, magic, item.other.group + prefix + item.other.end);
    assert Tail(item) == (front + magic + item.other.group) + prefix + item.other.end;
    Middle(front + magic + item.other.group, prefix, item.other.end);
  }

  lemma HeaderFields(item: Item)
    requires Fits(item)
    ensures var h := Header(item);
            && h[..100] == Filled(Written(item), 100) && h[124..136] == OctalDigits(|item.data|, 11) + [0]
            && h[156] == item.kind && h[257..262] == [117, 115, 116, 97, 114] && h[345..500] == Filled(item.prefix, 155)
            && Octal(h[148..156]) == Some(Checksum(h, 0))
  {
    hide Octal, OctalDigits, ByteSum, Fits, Head, Tail, Checksum, Filled, Power8;
    var h := Header(item);
    HeadFields(item);
    TailFields(item);
    ChecksumIs(h);
    var sum := ByteSum(Blanked(h));
    var head, tail := Head(item), Tail(item);
    assert h[..148] == head && h[156..] == tail;
    assert h[148..156] == OctalDigits(sum, 6) + [0, 32];
    OctalBack(sum, 6, [0, 32]);
    assert h[..100] == head[..100] && h[124..136] == head[124..136];
    assert h[156] == tail[0] && h[257..262] == tail[101..106] && h[345..500] == tail[189..344];
  }

  lemma NamesBack(item: Item)
    requires Fits(item)
    ensures FullName(Header(item)) == Name(item) + (if item.slash then [SLASH] else [])
    ensures Field(Header(item)[..100]) == Written(item)
    ensures Trimmed(FullName(Header(item)), item.kind == DIRECTORY) == Some(Name(item))
  {
    hide Header, Filled, SafeComponents, Field;
    HeaderFields(item);
    var name, slash := Name(item), if item.slash then [SLASH] else [];
    SafeBytes(name);
    assert forall b :: b in item.base || b in item.prefix ==> b in name;
    assert 0 !in Written(item) && 0 !in item.prefix;
    FieldBack(Written(item), 100);
    FieldBack(item.prefix, 155);
    assert item.prefix + [SLASH] + (item.base + slash) == item.prefix + [SLASH] + item.base + slash;
    TrimBack(name, item.slash, item.kind == DIRECTORY);
  }

  lemma TrimBack(name: seq<byte>, slash: bool, isDir: bool)
    requires name != [] && name[|name| - 1] != SLASH && (slash ==> isDir)
    ensures Trimmed(name + (if slash then [SLASH] else []), isDir) == Some(name)
  {
    if slash {
      assert (name + [SLASH])[..|name|] == name;
    } else {
      assert name + [] == name;
    }
  }

  lemma HeaderGood(item: Item)
    requires Fits(item)
    ensures GoodHeader(Header(item)) && !AllZero(Header(item)) && Kind(Header(item)) == Some(item.kind == DIRECTORY)
    ensures Octal(Header(item)[124..136]) == Some(|item.data|)
  {
    hide Header, Octal, SafeComponents, Field, Checksum, Filled, FullName;
    HeaderFields(item);
    NamesBack(item);
    SafeBytes(Name(item));
    OctalBack(|item.data|, 11, [0]);
    var h := Header(item);
    assert h[257] == h[257..262][0];
  }

  lemma PaddingFills(size: nat)
    ensures Padded(size) == size + Padding(size)
  {
  }

  // ---------- The archive ----------

  /** What reading back an item gives, at the place where it ends. */
  function AsRead(item: Item, next: nat): TarEntry {
    TarEntry(Name(item), item.data, next, item.kind == DIRECTORY)
  }

  lemma ImageLength(item: Item)
    requires Fits(item)
    ensures |Image(item)| == BLOCK + Padded(|item.data|)
  {
    PaddingFills(|item.data|);
  }

  /** Wherever it stands in an archive, an item is read back as it was written. */
  lemma ItemBack(before: seq<byte>, item: Item, after: seq<byte>)
    requires Fits(item)
    ensures EntryAt(before + Image(item) + after, |before|) == Ok(Some(AsRead(item, |before| + |Image(item)|)))
  {
    hide Fits, Header, GoodHeader, Octal, Padded, Name, Trimmed, FullName, Kind, Padding, AllZero;
    var archive, at := before + Image(item) + after, |before|;
    ImageLength(item);
    HeaderGood(item);
    NamesBack(item);
    PaddingFills(|item.data|);
    assert archive[at..at + BLOCK] == Header(item);
    assert archive[at + BLOCK..at + BLOCK + |item.data|] == item.data;
  }

  /** The entries of an archive, each with the place where it ends. */
  function AllAsRead(items: seq<Item>, from: nat): seq<TarEntry>
    requires AllFit(items)
  {
    if items == [] then [] else
      var next := from + |Image(items[0])|;
      [AsRead(items[0], next)] + AllAsRead(items[1..], next)
  }

  lemma {:induction false} AllAsReadAt(items: seq<Item>, from: nat, k: nat)
    requires AllFit(items) && k < |items|
    ensures |AllAsRead(items, from)| == |items|
    ensures AllAsRead(items, from)[k] == AsRead(items[k], AllAsRead(items, from)[k].next)
  {
    hide Fits, Image;
    if |items| > 1 {
      AllAsReadAt(items[1..], from + |Image(items[0])|, if k == 0 then 0 else k - 1);
    }
  }

  lemma {:induction false} ItemsBack(before: seq<byte>, items: seq<Item>, blocks: nat)
    requires AllFit(items) && blocks >= 1
    ensures var archive := before + Archive(items, blocks);
            && EntriesFrom(archive, |before|) == Ok(AllAsRead(items, |before|))
            && EndFrom(archive, |before|) == |before| + |Images(items)|
    decreases |items|
  {
    hide Fits, Image, EntryAt;
    var archive := before + Archive(items, blocks);
    if items == [] {
      ZerosRead(before, blocks);
      assert Archive(items, blocks) == Zeros(BLOCK * blocks);
    } else {
      var image, rest := Image(items[0]), Archive(items[1..], blocks);
      assert archive == before + image + rest == (before + image) + rest;
      ItemBack(before, items[0], rest);
      ItemsBack(before + image, items[1..], blocks);
    }
  }

  lemma ZerosRead(before: seq<byte>, blocks: nat)
    requires blocks >= 1
    ensures EntryAt(before + Zeros(BLOCK * blocks), |before|) == Ok(None)
  {
    var archive := before + Zeros(BLOCK * blocks);
    assert AllZero(archive[|before|..|before| + BLOCK]);
  }

  predicate WrittenCompatible(a: Item, b: Item) {
    && Name(a) != Name(b)
    && (IsParent(Name(a), Name(b)) ==> a.kind == DIRECTORY) && (IsParent(Name(b), Name(a)) ==> b.kind == DIRECTORY)
  }

  /** The items make a tree: names are different, and nothing lies below a file. */
  predicate AllWrittenCompatible(items: seq<Item>) {
    forall i, j :: 0 <= i < j < |items| ==> WrittenCompatible(items[i], items[j])
  }

  /** These are the items, in order: the same names, kinds and data. */
  predicate ReadAs(es: seq<TarEntry>, items: seq<Item>) {
    && |es| == |items|
    && forall k :: 0 <= k < |items| ==>
         es[k].name == Name(items[k]) && es[k].data == items[k].data && (es[k].isDir <==> items[k].kind == DIRECTORY)
  }

  lemma AllReadAs(items: seq<Item>, from: nat)
    requires AllFit(items)
    ensures ReadAs(AllAsRead(items, from), items)
  {
    hide Fits, Name;
    if items != [] {
      AllAsReadAt(items, from, 0);
      var es := AllAsRead(items, from);
      forall k | 0 <= k < |items| ensures es[k] == AsRead(items[k], es[k].next) {
        AllAsReadAt(items, from, k);
      }
    }
  }

  lemma CompatibleAsWritten(es: seq<TarEntry>, items: seq<Item>)
    requires ReadAs(es, items)
    ensures AllCompatible(es) <==> AllWrittenCompatible(items)
  {
    hide IsParent, Name;
    assert forall i, j :: 0 <= i < j < |items| ==> Compatible(es[i], es[j]) == WrittenCompatible(items[i], items[j]);
  }

  lemma {:induction false} ImagesLength(items: seq<Item>)
    requires AllFit(items)
    ensures |Images(items)| % BLOCK == 0
  {
    hide Fits, Image;
    if items != [] {
      ImageLength(items[0]);
      ImagesLength(items[1..]);
    }
  }

  /** The round trip: what is written is accepted exactly when it makes a tree within the limits, and is read back as it was given. */
  lemma RoundTrip(items: seq<Item>, blocks: nat)
    requires AllFit(items) && blocks >= 1
    ensures var archive := Archive(items, blocks);
            && EntriesFrom(archive, 0).Ok? && ReadAs(EntriesFrom(archive, 0).value, items)
            && (Accepted(archive) <==> AllWrittenCompatible(items) && |items| <= MAX_FILES && |archive| <= MAX_ARCHIVE)
  {
    hide Fits, Image, EntryAt, EntriesFrom, EndFrom, ReadAs, AllCompatible, AllWrittenCompatible;
    var archive := Archive(items, blocks);
    assert [] + archive == archive;
    ItemsBack([], items, blocks);
    AllReadAs(items, 0);
    CompatibleAsWritten(EntriesFrom(archive, 0).value, items);
    ImagesLength(items);
    SameCount(EntriesFrom(archive, 0).value, items);
    assert archive[|Images(items)|..] == Zeros(BLOCK * blocks);
  }

  lemma SameCount(es: seq<TarEntry>, items: seq<Item>)
    requires ReadAs(es, items)
    ensures |es| == |items|
  {
  }

  /** Looking up a file in a written archive gives the data it was written with, and nothing else is found. */
  lemma FilesBack(items: seq<Item>, blocks: nat, name: seq<byte>, found: Option<seq<byte>>)
    requires AllFit(items) && blocks >= 1 && Accepted(Archive(items, blocks))
    requires Found(Entries(Archive(items, blocks)), name, found)
    ensures forall k :: 0 <= k < |items| && Name(items[k]) == name && items[k].kind != DIRECTORY ==> found == Some(items[k].data)
    ensures found.Some? ==> exists k :: 0 <= k < |items| && Name(items[k]) == name && items[k].kind != DIRECTORY && found.value == items[k].data
  {
    hide Fits, Name, Archive, EntriesFrom, Compatible, Accepted;
    RoundTrip(items, blocks);
    AcceptedTree(Archive(items, blocks));
    var es := Entries(Archive(items, blocks));
    forall k | 0 <= k < |items| && Name(items[k]) == name && items[k].kind != DIRECTORY ensures found == Some(items[k].data) {
      assert Found(es, name, Some(items[k].data)) by { assert es[k].name == name && !es[k].isDir; }
      FoundOnce(es, name, found, Some(items[k].data));
    }
  }

  lemma AcceptedTree(archive: seq<byte>)
    requires Accepted(archive)
    ensures AllCompatible(Entries(archive)) && EntriesFrom(archive, 0) == Ok(Entries(archive))
  {
  }

  // ---------- Damage ----------

  lemma {:induction false} ChecksumChanges(header: seq<byte>, i: nat, b: byte, from: nat)
    requires from <= |header| && i < |header| && !(148 <= i < 156)
    ensures Checksum(header[i := b], from) == Checksum(header, from) + if from <= i then b - header[i] else 0
    decreases |header| - from
  {
    if from < |header| {
      ChecksumChanges(header, i, b, from + 1);
    }
  }

  /** A header with one byte changed, outside the checksum field, is not accepted. */
  lemma DamageRefused(header: seq<byte>, i: nat, b: byte)
    requires |header| == BLOCK && GoodHeader(header) && i < BLOCK && !(148 <= i < 156) && b != header[i]
    ensures !GoodHeader(header[i := b])
  {
    hide SafeComponents, Field;
    ChecksumChanges(header, i, b, 0);
    assert header[i := b][148..156] == header[148..156];
  }
}
