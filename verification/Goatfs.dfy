/** The GOATFS on-disk format and the script that packs an image. */
module Goatfs {

  type Byte = b: int | 0 <= b < 256

  const NAME_LEN: int := 32
  const MAX_FILES: int := 8
  const MAX_FILE_SIZE: int := 4096
  const VERSION: int := 1

  /** "GOATFS01" */
  const MAGIC: seq<Byte> := [71, 79, 65, 84, 70, 83, 48, 49]

  datatype File = File(name: seq<Byte>, contents: seq<Byte>)

  // ---------- Little-endian words ----------

  function Le32(n: int): (bytes: seq<Byte>)
    requires 0 <= n < 0x1_0000_0000
    ensures |bytes| == 4
  {
    [n % 256, n / 256 % 256, n / 0x1_0000 % 256, n / 0x100_0000]
  }

  function FromLe32(bytes: seq<Byte>): (n: nat)
    requires |bytes| == 4
  {
    var a: int, b: int, c: int, d: int := bytes[0], bytes[1], bytes[2], bytes[3];
    a + 256 * b + 0x1_0000 * c + 0x100_0000 * d
  }

  /** The bytes are the base-256 digits of the word, least significant first, and read back as it. */
  lemma Le32RoundTrip(n: int)
    requires 0 <= n < 0x1_0000_0000
    ensures FromLe32(Le32(n)) == n
    ensures var b := Le32(n);
      var b0: int, b1: int, b2: int, b3: int := b[0], b[1], b[2], b[3];
      n == b0 + 0x100 * b1 + 0x1_0000 * b2 + 0x100_0000 * b3
  {
    var a, b := n / 256, n / 0x1_0000;
    assert a == 256 * b + a % 256;
    assert b == 256 * (n / 0x100_0000) + b % 256;
  }

  // ---------- Layout ----------

  lemma SliceOfSlice(s: seq<Byte>, a: int, b: int, c: int, d: int)
    requires 0 <= a <= b <= |s| && 0 <= c <= d <= b - a
    ensures s[a..b][c..d] == s[a + c..a + d]
  {
    var l, r := s[a..b][c..d], s[a + c..a + d];
    forall i | 0 <= i < d - c ensures l[i] == r[i] {
      assert l[i] == s[a..b][c + i];
    }
  }

  function Zeros(n: int): (z: seq<Byte>)
    requires 0 <= n
    ensures |z| == n && forall i :: 0 <= i < n ==> z[i] == 0
  {
    seq(n, _ => 0)
  }

  /** Sectors needed for `n` bytes. */
  function Sectors(n: int): int
    requires 0 <= n
  {
    (n + 511) / 512
  }

  lemma SectorsCover(n: int)
    requires 0 <= n
    ensures n <= 512 * Sectors(n) < n + 512 && (n <= 4096 ==> Sectors(n) <= 8)
  {
  }

  function Padded(contents: seq<Byte>): (blob: seq<Byte>)
    ensures |blob| == 512 * Sectors(|contents|) && contents <= blob
    ensures forall k :: |contents| <= k < |blob| ==> blob[k] == 0
  {
    SectorsCover(|contents|);
    contents + Zeros(512 * Sectors(|contents|) - |contents|)
  }

  function TotalSectors(files: seq<File>): (n: nat)
  {
    if files == [] then 0
    else
      SectorsCover(|files[|files| - 1].contents|);
      TotalSectors(files[..|files| - 1]) + Sectors(|files[|files| - 1].contents|)
  }

  /** One 64-byte directory entry. */
  function Entry(name: seq<Byte>, size: int, lba: int): (entry: seq<Byte>)
    requires |name| <= 32 && 0 <= size < 0x1_0000_0000 && 0 <= lba < 0x1_0000_0000
    ensures |entry| == 64
  {
    name + Zeros(32 - |name|) + Le32(size) + Le32(lba) + Zeros(24)
  }

  ghost predicate PackableFile(f: File) {
    1 <= |f.name| <= 31 && |f.contents| <= 4096 && forall i :: 0 <= i < |f.name| ==> f.name[i] < 128
  }

  /** The file lists `pack` accepts. */
  ghost predicate Packable(files: seq<File>) {
    |files| <= 8 && forall i :: 0 <= i < |files| ==> PackableFile(files[i])
  }

  lemma {:induction false} TotalBound(files: seq<File>)
    requires forall i :: 0 <= i < |files| ==> PackableFile(files[i])
    ensures TotalSectors(files) <= 8 * |files|
  {
    if files != [] {
      TotalBound(files[..|files| - 1]);
      SectorsCover(|files[|files| - 1].contents|);
    }
  }

  /** Where the data of the file after `files` begins, relative to the image. */
  function NextLba(files: seq<File>): int { 2 + TotalSectors(files) }

  ghost function Entries(files: seq<File>): (bytes: seq<Byte>)
    requires Packable(files)
    ensures |bytes| == 64 * |files|
  {
    if files == [] then []
    else
      var before, f := files[..|files| - 1], files[|files| - 1];
      TotalBound(before);
      Entries(before) + Entry(f.name, |f.contents|, NextLba(before))
  }

  ghost function Data(files: seq<File>): (bytes: seq<Byte>)
    ensures |bytes| == 512 * TotalSectors(files)
  {
    if files == [] then []
    else Data(files[..|files| - 1]) + Padded(files[|files| - 1].contents)
  }

  function Superblock(count: int): (sector: seq<Byte>)
    requires 0 <= count < 0x1_0000_0000
    ensures |sector| == 512
  {
    MAGIC + Le32(VERSION) + Le32(count) + Zeros(496)
  }

  /** The whole image: superblock, directory sector, data. */
  ghost function Image(files: seq<File>): (bytes: seq<Byte>)
    requires Packable(files)
    ensures |bytes| == 1024 + 512 * TotalSectors(files)
  {
    Superblock(|files|) + (Entries(files) + Zeros(512 - 64 * |files|)) + Data(files)
  }

  // ---------- The packer ----------

  datatype PackResult =
    | Packed(image: seq<Byte>)
    | TooManyFiles
    | NotAscii(index: nat)
    | BadName(index: nat)
    | FileTooLarge(index: nat)

  predicate IsAscii(name: seq<Byte>) {
    forall i :: 0 <= i < |name| ==> name[i] < 128
  }

  lemma PackNone(files: seq<File>)
    ensures Packable(files[..0]) && NextLba(files[..0]) == 2 && Data(files[..0]) == []
    ensures Entries(files[..0]) + Zeros(512) == Zeros(512)
  {
  }

  /** A directory sector holding `i` entries: the entries, then zeros also after the next one. */
  lemma FirstEntries(entries: seq<Byte>, i: int)
    requires 0 <= i < 8 && |entries| == 64 * i
    ensures var dir := entries + Zeros(512 - 64 * i);
      dir[..i * 64] == entries && dir[(i + 1) * 64..] == Zeros(512 - 64 * (i + 1))
  {
    var dir := entries + Zeros(512 - 64 * i);
    var rest := dir[(i + 1) * 64..];
    assert |rest| == 512 - 64 * (i + 1);
    assert forall k :: 0 <= k < |rest| ==> rest[k] == dir[(i + 1) * 64 + k] == Zeros(512 - 64 * i)[64 + k] == 0;
  }

  /** Writing entry `i` into the directory sector and appending its blob. */
  lemma PackStep(files: seq<File>, i: int)
    requires 0 <= i < |files| <= MAX_FILES && Packable(files[..i]) && PackableFile(files[i])
    ensures Packable(files[..i + 1]) && 0 <= NextLba(files[..i]) < 0x1_0000_0000
    ensures var f, dir := files[i], Entries(files[..i]) + Zeros(512 - 64 * i);
      dir[..i * 64] + Entry(f.name, |f.contents|, NextLba(files[..i])) + dir[(i + 1) * 64..] ==
      Entries(files[..i + 1]) + Zeros(512 - 64 * (i + 1))
    ensures Data(files[..i + 1]) == Data(files[..i]) + Padded(files[i].contents)
    ensures NextLba(files[..i + 1]) == NextLba(files[..i]) + Sectors(|files[i].contents|)
  {
    hide Entry, Padded;
    TotalBound(files[..i]);
    assert files[..i + 1][..i] == files[..i] && files[..i + 1][i] == files[i];
    FirstEntries(Entries(files[..i]), i);
  }

  /** Packs the files, or stops at the first one it cannot take. */
  method Pack(files: seq<File>) returns (r: PackResult)
    ensures r.Packed? <==> Packable(files)
    ensures r.Packed? ==> r.image == Image(files)
    ensures r.TooManyFiles? <==> |files| > 8
    ensures r.NotAscii? || r.BadName? || r.FileTooLarge? ==>
      && r.index < |files| && Packable(files[..r.index])
      && var f := files[r.index];
         && (r.NotAscii? <==> exists k :: 0 <= k < |f.name| && f.name[k] >= 128)
         && (r.BadName? <==> IsAscii(f.name) && (|f.name| == 0 || |f.name| > 31))
         && (r.FileTooLarge? <==> IsAscii(f.name) && 1 <= |f.name| <= 31 && |f.contents| > 4096)
  {
    hide Entries, Data, Entry, Padded, TotalSectors, Sectors, Superblock;
    if |files| > MAX_FILES {
      return TooManyFiles;
    }
    var dataLba := 2;
    var dirBytes := Zeros(512);
    var blobs: seq<Byte> := [];
    PackNone(files);
    for i := 0 to |files|
      invariant Packable(files[..i]) && dataLba == NextLba(files[..i])
      invariant dirBytes == Entries(files[..i]) + Zeros(512 - 64 * i)
      invariant blobs == Data(files[..i])
    {
      var f := files[i];
      if !IsAscii(f.name) {
        return NotAscii(i);
      }
      if |f.name| == 0 || |f.name| >= NAME_LEN {
        return BadName(i);
      }
      if |f.contents| > MAX_FILE_SIZE {
        return FileTooLarge(i);
      }
      PackStep(files, i);
      var entry := Entry(f.name, |f.contents|, dataLba);
      dirBytes := dirBytes[..i * 64] + entry + dirBytes[(i + 1) * 64..];
      blobs := blobs + Padded(f.contents);
      dataLba := dataLba + Sectors(|f.contents|);
    }
    assert files[..|files|] == files;
    return Packed(Superblock(|files|) + dirBytes + blobs);
  }
}
