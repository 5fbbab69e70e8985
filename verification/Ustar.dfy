/** The ustar archive format: one header at an offset, and the chain of headers that is the archive. */
module Ustar {
  import opened Bytes
  import opened Options

  const BLOCK := 512
  const MAX_ARCHIVE := 16 * 1024 * 1024
  const MAX_FILES := 256
  const MAX_PATH := 255
  const MAX_COMPONENT := 100
  const SLASH: byte := 47

  datatype FsError = InvalidArchive | TooManyFiles

  datatype Result<+T> = Ok(value: T) | Err(error: FsError) {
    predicate IsFailure() { Err? }
    function PropagateFailure<U>(): Result<U> requires Err? { Err(error) }
    function Extract(): T requires Ok? { value }
  }

  datatype TarEntry = TarEntry(name: seq<byte>, data: seq<byte>, next: nat, isDir: bool)

  // ---------- Fields ----------

  predicate Blank(b: byte) {
    b == 0 || b == 32
  }

  predicate OctalDigit(b: byte) {
    48 <= b <= 55
  }

  /** The field without its leading blanks. */
  function WithoutBlanks(field: seq<byte>): seq<byte> {
    if field != [] && Blank(field[0]) then WithoutBlanks(field[1..]) else field
  }

  /** How many octal digits the field starts with. */
  function DigitCount(field: seq<byte>): (n: nat)
    ensures n <= |field| && (forall i :: 0 <= i < n ==> OctalDigit(field[i])) && (n < |field| ==> !OctalDigit(field[n]))
  {
    if field == [] || !OctalDigit(field[0]) then 0 else 1 + DigitCount(field[1..])
  }

  /** The number written by octal digits, the last of which counts once. */
  function Positional(digits: seq<byte>): nat
    requires forall i :: 0 <= i < |digits| ==> OctalDigit(digits[i])
  {
    if digits == [] then 0
    else
      assert OctalDigit(digits[|digits| - 1]);
      8 * Positional(digits[..|digits| - 1]) + (digits[|digits| - 1] as nat - 48)
  }

  /** The number in a field: leading blanks, then digits, then the end or a blank and anything at all. */
  function Octal(field: seq<byte>): Option<nat> {
    var rest := WithoutBlanks(field);
    var n := DigitCount(rest);
    if n < |rest| && !Blank(rest[n]) then None else Some(Positional(rest[..n]))
  }

  function Power8(n: nat): nat {
    if n == 0 then 1 else 8 * Power8(n - 1)
  }

  lemma {:induction false} PositionalBelow(digits: seq<byte>)
    requires forall i :: 0 <= i < |digits| ==> OctalDigit(digits[i])
    ensures Positional(digits) < Power8(|digits|)
  {
    if digits != [] {
      PositionalBelow(digits[..|digits| - 1]);
    }
  }

  lemma {:induction false} Power8Grows(n: nat, m: nat)
    requires n <= m
    ensures Power8(n) <= Power8(m)
  {
    if n < m {
      Power8Grows(n, m - 1);
    }
  }

  /** The number of a header field fits a machine word, so the checked arithmetic does not fail. */
  lemma OctalFits(field: seq<byte>)
    ensures Octal(field).Some? && |field| <= 12 ==> Octal(field).value < 0x10_0000_0000
  {
    var rest := WithoutBlanks(field);
    var n := DigitCount(rest);
    PositionalBelow(rest[..n]);
    Shorter(field);
    if |field| <= 12 {
      Power8Grows(n, 12);
      assert Power8(4) == 4096 && Power8(8) == 4096 * 4096;
      assert Power8(12) == 0x10_0000_0000;
    }
  }

  lemma {:induction false} Shorter(field: seq<byte>)
    ensures |WithoutBlanks(field)| <= |field|
  {
    if field != [] {
      Shorter(field[1..]);
    }
  }

  lemma {:induction false} WithoutBlanksIs(field: seq<byte>, k: nat)
    requires k <= |field| && (forall i :: 0 <= i < k ==> Blank(field[i])) && (k < |field| ==> !Blank(field[k]))
    ensures WithoutBlanks(field) == field[k..]
  {
    if k > 0 {
      WithoutBlanksIs(field[1..], k - 1);
      assert field[1..][k - 1..] == field[k..];
    }
  }

  lemma {:induction false} DigitCountIs(field: seq<byte>, n: nat)
    requires n <= |field| && (forall i :: 0 <= i < n ==> OctalDigit(field[i])) && (n < |field| ==> !OctalDigit(field[n]))
    ensures DigitCount(field) == n
  {
    if n > 0 {
      DigitCountIs(field[1..], n - 1);
    }
  }

  /** A field of `k` blanks and then `n` digits, told by what follows them. */
  lemma OctalIs(field: seq<byte>, k: nat, n: nat)
    requires k + n <= |field| && (forall i :: 0 <= i < k ==> Blank(field[i])) && (forall i :: k <= i < k + n ==> OctalDigit(field[i]))
    requires k + n < |field| ==> !OctalDigit(field[k + n]) && (n == 0 ==> !Blank(field[k]))
    ensures Octal(field) == if k + n < |field| && !Blank(field[k + n]) then None else Some(Positional(field[k..k + n]))
  {
    WithoutBlanksIs(field, k);
    DigitCountIs(field[k..], n);
    assert field[k..][..n] == field[k..k + n];
  }

  method ParseOctal(field: seq<byte>) returns (r: Option<nat>)
    ensures r == Octal(field)
    ensures r.Some? && |field| <= 12 ==> r.value < 0x10_0000_0000
  {
    OctalFits(field);
    var value: nat, started := 0, false;
    ghost var k: nat := 0;
    for i := 0 to |field|
      invariant k <= i && (started <==> k < i)
      invariant (forall j :: 0 <= j < k ==> Blank(field[j])) && forall j :: k <= j < i ==> OctalDigit(field[j])
      invariant value == Positional(field[k..i])
    {
      if Blank(field[i]) && !started {
        k := i + 1;
        continue;
      }
      if OctalDigit(field[i]) {
        assert field[k..i + 1][..i - k] == field[k..i];
        started := true;
        var digit: nat := field[i] - 48;
        value := 8 * value + digit;
      } else if Blank(field[i]) {
        OctalIs(field, k, i - k);
        return Some(value);
      } else {
        OctalIs(field, k, i - k);
        return None;
      }
    }
    OctalIs(field, k, |field| - k);
    r := Some(value);
  }

  /** The bytes of a field up to the first zero. */
  function Field(field: seq<byte>): seq<byte> {
    if field == [] || field[0] == 0 then [] else [field[0]] + Field(field[1..])
  }

  predicate AllZero(s: seq<byte>) {
    forall i :: 0 <= i < |s| ==> s[i] == 0
  }

  /** The sum of the header bytes, with the checksum field counted as blanks. */
  function Checksum(header: seq<byte>, i: nat): nat
    requires i <= |header|
    decreases |header| - i
  {
    if i == |header| then 0
    else (if 148 <= i < 156 then 32 else header[i] as nat) + Checksum(header, i + 1)
  }

  method SumHeader(header: seq<byte>) returns (sum: nat)
    ensures sum == Checksum(header, 0)
  {
    sum := 0;
    for i := 0 to |header|
      invariant sum + Checksum(header, i) == Checksum(header, 0)
    {
      sum := sum + (if 148 <= i < 156 then 32 else header[i] as nat);
    }
  }

  // ---------- Paths ----------

  function FirstSlash(s: seq<byte>): (i: nat)
    ensures i <= |s| && (i < |s| ==> s[i] == SLASH) && forall j :: 0 <= j < i ==> s[j] != SLASH
  {
    if s == [] || s[0] == SLASH then 0 else 1 + FirstSlash(s[1..])
  }

  predicate NameByte(b: byte) {
    48 <= b <= 57 || 65 <= b <= 90 || 97 <= b <= 122 || b == 46 || b == 95 || b == 45
  }

  predicate GoodComponent(c: seq<byte>) {
    0 < |c| <= MAX_COMPONENT && c != [46] && c != [46, 46] && forall i :: 0 <= i < |c| ==> NameByte(c[i])
  }

  /** Every component between slashes is good. */
  predicate SafeComponents(path: seq<byte>)
    decreases |path|
  {
    var i := FirstSlash(path);
    GoodComponent(path[..i]) && (i < |path| ==> SafeComponents(path[i + 1..]))
  }

  predicate SafePath(path: seq<byte>, allowEmpty: bool) {
    if path == [] then allowEmpty else SafeComponents(path)
  }

  /** `parent` is a directory on the way to `path`. */
  predicate IsParent(parent: seq<byte>, path: seq<byte>) {
    |path| > |parent| && path[..|parent|] == parent && path[|parent|] == SLASH
  }

  lemma {:induction false} SafeParent(parent: seq<byte>, path: seq<byte>)
    requires SafeComponents(path) && IsParent(parent, path)
    ensures SafeComponents(parent)
    decreases |path|
  {
    var i := FirstSlash(path);
    if i < |parent| {
      assert path[i] == parent[i] && forall j :: 0 <= j < i ==> parent[j] == path[j];
      assert FirstSlash(parent) == i && parent[..i] == path[..i];
      assert path[i + 1..][..|parent| - i - 1] == parent[i + 1..];
      SafeParent(parent[i + 1..], path[i + 1..]);
    } else {
      assert forall j :: 0 <= j < |parent| ==> parent[j] == path[j];
      assert FirstSlash(parent) == |parent| && parent[..|parent|] == parent == path[..i];
    }
  }

  // ---------- One header ----------

  function FullName(header: seq<byte>): (n: seq<byte>)
    requires |header| == BLOCK
  {
    var name, prefix := Field(header[..100]), Field(header[345..500]);
    if prefix == [] then name else prefix + [SLASH] + name
  }

  /** The kind of entry: a file, a directory, or something this archive may not hold. */
  function Kind(header: seq<byte>): Option<bool>
    requires |header| == BLOCK
  {
    if header[156] == 0 || header[156] == 48 then Some(false) else if header[156] == 53 then Some(true) else None
  }

  function Padded(size: nat): (p: nat)
    ensures size <= p && p % BLOCK == 0
  {
    (size + (BLOCK - 1)) / BLOCK * BLOCK
  }

  /** The name without the slash a directory may end in. */
  function Trimmed(name: seq<byte>, isDir: bool): Option<seq<byte>> {
    if name == [] || name[|name| - 1] != SLASH then Some(name)
    else if isDir then Some(name[..|name| - 1]) else None
  }

  predicate GoodHeader(header: seq<byte>)
    requires |header| == BLOCK
  {
    && Octal(header[148..156]) == Some(Checksum(header, 0))
    && header[257..262] == [117, 115, 116, 97, 114]
    && Kind(header).Some?
    && Field(header[..100]) != []
    && |FullName(header)| <= MAX_PATH
    && Trimmed(FullName(header), Kind(header).value).Some?
    && SafePath(Trimmed(FullName(header), Kind(header).value).value, false)
    && Octal(header[124..136]).Some?
    && (Kind(header).value ==> Octal(header[124..136]).value == 0)
  }

  function EntryAt(archive: seq<byte>, offset: nat): (r: Result<Option<TarEntry>>)
    ensures r.Ok? ==> offset + BLOCK <= |archive|
    ensures r.Ok? && r.value.Some? ==> offset + BLOCK <= r.value.value.next <= |archive| && SafeComponents(r.value.value.name)
  {
    if offset + BLOCK > |archive| then Err(InvalidArchive)
    else
      var header := archive[offset..offset + BLOCK];
      if AllZero(header) then Ok(None)
      else if !GoodHeader(header) then Err(InvalidArchive)
      else
        var size := Octal(header[124..136]).value;
        var start, isDir := offset + BLOCK, Kind(header).value;
        if start + Padded(size) > |archive| then Err(InvalidArchive)
        else Ok(Some(TarEntry(Trimmed(FullName(header), isDir).value, archive[start..start + size], start + Padded(size), isDir)))
  }

  /** Reads the header at `offset`, check by check. */
  method ReadEntry(archive: seq<byte>, offset: nat) returns (r: Result<Option<TarEntry>>)
    ensures r == EntryAt(archive, offset)
  {
    hide Octal, Checksum, Field, SafeComponents, FirstSlash;
    if offset + BLOCK > |archive| {
      return Err(InvalidArchive);
    }
    var header := archive[offset..offset + BLOCK];
    var zero := true;
    for i := 0 to BLOCK
      invariant zero <==> forall j :: 0 <= j < i ==> header[j] == 0
    {
      if header[i] != 0 {
        zero := false;
      }
    }
    if zero {
      return Ok(None);
    }
    var expected := ParseOctal(header[148..156]);
    var checksum := SumHeader(header);
    if expected != Some(checksum) || header[257..262] != [117, 115, 116, 97, 114] {
      return Err(InvalidArchive);
    }
    var kind := Kind(header);
    var name := Field(header[..100]);
    if kind.None? || name == [] {
      return Err(InvalidArchive);
    }
    var full := FullName(header);
    if |full| > MAX_PATH {
      return Err(InvalidArchive);
    }
    var trimmed := Trimmed(full, kind.value);
    if trimmed.None? || !SafePath(trimmed.value, false) {
      return Err(InvalidArchive);
    }
    var size := ParseOctal(header[124..136]);
    if size.None? || (kind.value && size.value != 0) {
      return Err(InvalidArchive);
    }
    var start := offset + BLOCK;
    if start + size.value > |archive| || start + Padded(size.value) > |archive| {
      return Err(InvalidArchive);
    }
    r := Ok(Some(TarEntry(trimmed.value, archive[start..start + size.value], start + Padded(size.value), kind.value)));
  }

  // ---------- The chain of headers ----------

  /** The entries from `offset` to the first zero block. */
  function EntriesFrom(archive: seq<byte>, offset: nat): Result<seq<TarEntry>>
    decreases |archive| - offset
  {
    var e :- EntryAt(archive, offset);
    if e.None? then Ok([])
    else
      var rest :- EntriesFrom(archive, e.value.next);
      Ok([e.value] + rest)
  }

  /** The zero block the walk from `offset` ends at. */
  function EndFrom(archive: seq<byte>, offset: nat): nat
    requires EntriesFrom(archive, offset).Ok?
    decreases |archive| - offset
  {
    var e := EntryAt(archive, offset).value;
    if e.None? then offset else EndFrom(archive, e.value.next)
  }

  /** Reading from `from` gives these entries, and then the one at `to` is next. */
  ghost predicate Chain(archive: seq<byte>, from: nat, es: seq<TarEntry>, to: nat)
    decreases |es|
  {
    if es == [] then from == to
    else EntryAt(archive, from) == Ok(Some(es[0])) && Chain(archive, es[0].next, es[1..], to)
  }

  lemma {:induction false} ChainSnoc(archive: seq<byte>, from: nat, es: seq<TarEntry>, to: nat, e: TarEntry)
    requires Chain(archive, from, es, to) && EntryAt(archive, to) == Ok(Some(e))
    ensures Chain(archive, from, es + [e], e.next)
    decreases |es|
  {
    hide EntryAt;
    if es == [] {
      assert (es + [e])[1..] == [];
    } else {
      ChainSnoc(archive, es[0].next, es[1..], to, e);
      assert (es + [e])[1..] == es[1..] + [e];
    }
  }

  function After(front: seq<TarEntry>, rest: Result<seq<TarEntry>>): Result<seq<TarEntry>> {
    if rest.Ok? then Ok(front + rest.value) else rest
  }

  lemma {:induction false} ChainEntries(archive: seq<byte>, from: nat, es: seq<TarEntry>, to: nat)
    requires Chain(archive, from, es, to)
    ensures EntriesFrom(archive, from) == After(es, EntriesFrom(archive, to))
    ensures EntriesFrom(archive, from).Ok? ==> EndFrom(archive, from) == EndFrom(archive, to)
    ensures es != [] ==> from < to
    decreases |es|
  {
    hide EntryAt;
    if es == [] {
      var rest := EntriesFrom(archive, to);
      assert rest.Ok? ==> [] + rest.value == rest.value;
    } else {
      ChainEntries(archive, es[0].next, es[1..], to);
      var rest := EntriesFrom(archive, to);
      assert rest.Ok? ==> [es[0]] + (es[1..] + rest.value) == es + rest.value;
    }
  }
}
