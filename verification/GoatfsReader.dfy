/** Mounting a GOATFS disk and reading files from it. */
module GoatfsReader {
  import opened Machine
  import opened Goatfs
  import opened GoatfsFormat

  const FS_BASE_LBA: int := 2048

  datatype FsError = Ata | BadSuperblock | BadDirectory | NotMounted | NotFound | TooLarge

  /** A value, an error, or a panic of checked arithmetic. */
  datatype Result<+T> = Ok(value: T) | Err(error: FsError) | Panic

  datatype DirEntry = DirEntry(name: seq<Byte>, size: nat, lbaOff: nat)

  // ---------- Reading as functions of the disk ----------

  /** A 28-bit LBA read; anything beyond the disk is a drive error. */
  function ReadLba(disk: seq<Byte>, lba: int, sectors: int): (r: Option<seq<Byte>>)
    requires 0 <= lba
    ensures r.Some? <==> 1 <= sectors <= 256 && lba <= 0xfff_ffff && 512 * (lba + sectors) <= |disk|
    ensures r.Some? ==>
      |r.value| == 512 * sectors && forall k :: 0 <= k < 512 * sectors ==> r.value[k] == disk[512 * lba + k]
  {
    if sectors <= 0 || sectors > 256 || lba >= 0x1000_0000 || 512 * (lba + sectors) > |disk| then None
    else Some(disk[512 * lba..512 * (lba + sectors)])
  }

  /** Bytes before the first zero, or all of them. */
  function NameLength(bytes: seq<Byte>): (n: nat)
    ensures n <= |bytes| && (n < |bytes| ==> bytes[n] == 0) && forall i :: 0 <= i < n ==> bytes[i] != 0
  {
    if bytes == [] || bytes[0] == 0 then 0 else 1 + NameLength(bytes[1..])
  }

  function Visible(name: seq<Byte>): seq<Byte> { name[..NameLength(name)] }

  predicate Graphic(name: seq<Byte>) {
    forall i :: 0 <= i < |name| ==> 33 <= name[i] <= 126
  }

  function ParseEntry(raw: seq<Byte>): Option<DirEntry>
    requires |raw| == 64
  {
    var name := Visible(raw[..32]);
    var size, lbaOff := FromLe32(raw[32..36]), FromLe32(raw[36..40]);
    if name == [] || !Graphic(name) || size > MAX_FILE_SIZE || lbaOff < 2 then None
    else Some(DirEntry(name, size, lbaOff))
  }

  /** The first `count` entries of a directory sector, if all of them are well formed. */
  function ParseDirectory(sector: seq<Byte>, count: nat): (r: Option<seq<DirEntry>>)
    requires |sector| == 512 && count <= 8
    ensures r.Some? ==> |r.value| == count
  {
    if count == 0 then Some([])
    else
      var before := ParseDirectory(sector, count - 1);
      var entry := ParseEntry(sector[64 * (count - 1)..64 * count]);
      if before.None? || entry.None? then None else Some(before.value + [entry.value])
  }

  function MountDisk(disk: seq<Byte>): (r: Result<seq<DirEntry>>)
    ensures !r.Panic?
  {
    match ReadLba(disk, FS_BASE_LBA, 1)
    case None => Err(Ata)
    case Some(block) =>
      if block[..8] != MAGIC then Err(BadSuperblock)
      else
        var version, count := FromLe32(block[8..12]), FromLe32(block[12..16]);
        if version != VERSION || count > MAX_FILES then Err(BadSuperblock)
        else
          match ReadLba(disk, FS_BASE_LBA + 1, 1)
          case None => Err(Ata)
          case Some(sector) =>
            var entries := ParseDirectory(sector, count);
            if entries.None? then Err(BadDirectory) else Ok(entries.value)
  }

  /** Position of the first entry with this name, or the number of entries. */
  function FindEntry(entries: seq<DirEntry>, name: seq<Byte>): (k: nat)
    ensures k <= |entries| && (k < |entries| ==> entries[k].name == name)
    ensures forall i :: 0 <= i < k ==> entries[i].name != name
  {
    if entries == [] || entries[0].name == name then 0 else 1 + FindEntry(entries[1..], name)
  }

  // ---------- Mounting, on the bytes of the disk ----------

  /** What the table holds for the entry at `at`. */
  ghost predicate Listed(disk: seq<Byte>, at: int, entry: DirEntry)
    requires 0 <= at && at + 64 <= |disk|
  {
    && Printable(disk[at..at + 32], |entry.name|) && entry.name == disk[at..at + |entry.name|]
    && entry.size == WordAt(disk, at + 32) && entry.lbaOff == WordAt(disk, at + 36)
  }

  lemma WordRead(disk: seq<Byte>, at: int, word: seq<Byte>)
    requires 0 <= at && at + 4 <= |disk| && word == disk[at..at + 4]
    ensures FromLe32(word) == WordAt(disk, at)
  {
  }

  /** The reader's notion of a good name is the format's. */
  lemma NameExact(field: seq<Byte>)
    ensures Visible(field) != [] && Graphic(Visible(field)) <==> Named(field)
    ensures Named(field) ==> Printable(field, |Visible(field)|)
  {
    hide NameLength;
    var n := NameLength(field);
    if Visible(field) != [] && Graphic(Visible(field)) {
      assert forall i :: 0 <= i < n ==> field[i] == Visible(field)[i];
      assert Printable(field, n);
    }
    if m :| Printable(field, m) {
      assert m == n;
    }
  }

  lemma EntryExact(disk: seq<Byte>, at: int, raw: seq<Byte>)
    requires 0 <= at && at + 64 <= |disk| && raw == disk[at..at + 64]
    ensures ParseEntry(raw).Some? <==> EntryOk(disk, at)
    ensures ParseEntry(raw).Some? ==> Listed(disk, at, ParseEntry(raw).value)
  {
    hide Graphic, Named, Printable, FromLe32, WordAt, NameLength;
    assert raw[..32] == disk[at..at + 32];
    NameExact(raw[..32]);
    SliceOfSlice(disk, at, at + 64, 32, 36);
    SliceOfSlice(disk, at, at + 64, 36, 40);
    WordRead(disk, at + 32, raw[32..36]);
    WordRead(disk, at + 36, raw[36..40]);
    var n := NameLength(raw[..32]);
    assert raw[..32][..n] == disk[at..at + n];
  }

  lemma {:induction false} DirectoryExact(disk: seq<Byte>, at: int, sector: seq<Byte>, count: nat)
    requires 0 <= at && at + 512 <= |disk| && sector == disk[at..at + 512] && count <= 8
    ensures var r := ParseDirectory(sector, count);
      && (r.Some? <==> forall i :: 0 <= i < count ==> EntryOk(disk, at + 64 * i))
      && (r.Some? ==> forall i :: 0 <= i < count ==> Listed(disk, at + 64 * i, r.value[i]))
  {
    hide EntryOk, Listed, ParseEntry;
    if count > 0 {
      DirectoryExact(disk, at, sector, count - 1);
      var raw := sector[64 * (count - 1)..64 * count];
      SliceOfSlice(disk, at, at + 512, 64 * (count - 1), 64 * count);
      EntryExact(disk, at + 64 * (count - 1), raw);
    }
  }

  /** When mounting succeeds, which error each failure gives, and what the table then holds. */
  lemma MountExact(disk: seq<Byte>)
    ensures var r := MountDisk(disk);
      && (r == Err(Ata) <==> |disk| < 512 * 2049 || (SuperblockOk(disk) && |disk| < 512 * 2050))
      && (r == Err(BadSuperblock) <==> 512 * 2049 <= |disk| && !SuperblockOk(disk))
      && (r == Err(BadDirectory) <==> SuperblockOk(disk) && 512 * 2050 <= |disk| && !DirectoryOk(disk))
      && (r.Ok? <==> SuperblockOk(disk) && 512 * 2050 <= |disk| && DirectoryOk(disk))
      && (r.Ok? ==>
          && |r.value| == WordAt(disk, 512 * 2048 + 12)
          && forall i :: 0 <= i < |r.value| ==> Listed(disk, 512 * 2049 + 64 * i, r.value[i]))
  {
    hide ReadLba, ParseDirectory, FromLe32, WordAt, EntryOk, Listed;
    if 512 * 2049 <= |disk| {
      var block := ReadLba(disk, 2048, 1).value;
      assert block == disk[512 * 2048..512 * 2048 + 512];
      SliceOfSlice(disk, 512 * 2048, 512 * 2048 + 512, 8, 12);
      SliceOfSlice(disk, 512 * 2048, 512 * 2048 + 512, 12, 16);
      assert block[..8] == disk[512 * 2048..512 * 2048 + 8];
      WordRead(disk, 512 * 2048 + 8, block[8..12]);
      WordRead(disk, 512 * 2048 + 12, block[12..16]);
      if SuperblockOk(disk) && 512 * 2050 <= |disk| {
        var sector := ReadLba(disk, 2049, 1).value;
        assert sector == disk[512 * 2049..512 * 2049 + 512];
        DirectoryExact(disk, 512 * 2049, sector, WordAt(disk, 512 * 2048 + 12));
      }
    }
  }

  /** The bytes a read of `name` into a buffer of `room` bytes delivers. */
  function ReadNamed(disk: seq<Byte>, entries: seq<DirEntry>, name: seq<Byte>, room: nat): Result<seq<Byte>>
  {
    if name == [] || |name| > NAME_LEN then Err(NotFound)
    else
      var k := FindEntry(entries, name);
      if k == |entries| then Err(NotFound)
      else
        var size := entries[k].size;
        if size > room || size > MAX_FILE_SIZE then Err(TooLarge)
        else if size == 0 then Ok([])
        else if FS_BASE_LBA + entries[k].lbaOff >= 0x1_0000_0000 then Panic
        else
          match ReadLba(disk, FS_BASE_LBA + entries[k].lbaOff, Sectors(size))
          case None => Err(Ata)
          case Some(scratch) => SectorsCover(size); Ok(scratch[..size])
  }

  /** What reading a file delivers, from the first entry under that name: its bytes at
      sector 2048 plus its own, or the error the entry, the buffer or the disk calls for. */
  lemma ReadExact(disk: seq<Byte>, entries: seq<DirEntry>, name: seq<Byte>, room: nat, k: nat)
    requires k <= |entries| && (k < |entries| ==> entries[k].name == name)
    requires forall i :: 0 <= i < k ==> entries[i].name != name
    ensures var r := ReadNamed(disk, entries, name, room);
      if k == |entries| || |name| == 0 || |name| > 32 then r == Err(NotFound)
      else
        var size, first := entries[k].size, 2048 + entries[k].lbaOff;
        if size > room || size > 4096 then r == Err(TooLarge)
        else if size == 0 then r == Ok([])
        else if first > 0xffff_ffff then r == Panic
        else if first > 0xfff_ffff || 512 * first + (size + 511) / 512 * 512 > |disk| then r == Err(Ata)
        else r.Ok? && |r.value| == size && forall j :: 0 <= j < size ==> r.value[j] == disk[512 * first + j]
  {
    hide FindEntry, ReadLba;
    FoundFirst(entries, name, k);
    if k < |entries| { SectorsCover(entries[k].size); }
  }

  // ---------- The mounted file system ----------

  class FileSystem {
    const disk: seq<Byte>
    const table: array<DirEntry>
    var fileCount: int
    var mounted: bool

    ghost predicate Valid()
      reads this
    {
      table.Length == 8 && 0 <= fileCount <= 8
    }

    constructor (disk: seq<Byte>)
      ensures Valid() && this.disk == disk && !mounted && fileCount == 0 && fresh(table)
    {
      this.disk := disk;
      table := new DirEntry[8](_ => DirEntry([], 0, 0));
      fileCount, mounted := 0, false;
    }

    /** Fills the table from the directory sector; stops at the first malformed entry. */
    method FillTable(sector: seq<Byte>, count: nat) returns (ok: bool)
      requires Valid() && |sector| == 512 && count <= 8
      modifies this`fileCount, table
      ensures Valid() && ok == ParseDirectory(sector, count).Some?
      ensures ok ==> table[..fileCount] == ParseDirectory(sector, count).value
    {
      hide ParseEntry;
      fileCount := 0;
      for i := 0 to count
        invariant fileCount == i && Valid()
        invariant ParseDirectory(sector, i) == Some(table[..i])
      {
        var entry := ParseEntry(sector[64 * i..64 * (i + 1)]);
        if entry.None? {
          DirectoryStops(sector, i + 1, count);
          return false;
        }
        ghost var before := table[..i];
        table[i] := entry.value;
        assert table[..i] == before && table[..i + 1] == before + [entry.value];
        fileCount := fileCount + 1;
      }
      return true;
    }

    method Mount() returns (r: Result<int>)
      requires Valid()
      modifies this`fileCount, table
      ensures Valid()
      ensures MountDisk(disk).Err? ==> r == Err(MountDisk(disk).error)
      ensures MountDisk(disk).Ok? ==> r == Ok(fileCount) && table[..fileCount] == MountDisk(disk).value
      ensures r.Ok? <==> SuperblockOk(disk) && 512 * 2050 <= |disk| && DirectoryOk(disk)
      ensures r.Ok? ==>
        && fileCount == WordAt(disk, 512 * 2048 + 12)
        && forall i :: 0 <= i < fileCount ==> Listed(disk, 512 * 2049 + 64 * i, table[i])
    {
      hide ParseDirectory, FromLe32, EntryOk, DirectoryOk, SuperblockOk, WordAt, Listed;
      MountExact(disk);
      var block := ReadLba(disk, FS_BASE_LBA, 1);
      if block.None? {
        return Err(Ata);
      }
      if block.value[..8] != MAGIC {
        return Err(BadSuperblock);
      }
      var version, count := FromLe32(block.value[8..12]), FromLe32(block.value[12..16]);
      if version != VERSION || count > MAX_FILES {
        return Err(BadSuperblock);
      }
      var sector := ReadLba(disk, FS_BASE_LBA + 1, 1);
      if sector.None? {
        return Err(Ata);
      }
      var ok := FillTable(sector.value, count);
      return if ok then Ok(fileCount) else Err(BadDirectory);
    }

    /** Mounts at boot; failure leaves the file system unmounted. */
    method Init() returns (mountedNow: bool)
      requires Valid()
      modifies this, table
      ensures Valid() && mountedNow == mounted == MountDisk(disk).Ok?
      ensures mounted ==> table[..fileCount] == MountDisk(disk).value
    {
      hide MountDisk;
      mounted := false;
      var r := Mount();
      mounted := r.Ok?;
      return mounted;
    }

    /** Copies the named file into `buf` and returns its length; on error `buf` is untouched. */
    method ReadFile(name: seq<Byte>, buf: array<Byte>) returns (r: Result<int>)
      requires Valid()
      modifies buf
      ensures !mounted ==> r == Err(NotMounted)
      ensures mounted ==>
        match ReadNamed(disk, table[..fileCount], name, buf.Length)
        case Panic => r == Panic
        case Err(e) => r == Err(e)
        case Ok(bytes) => r == Ok(|bytes|) && |bytes| <= buf.Length && buf[..] == bytes + old(buf[..])[|bytes|..]
      ensures !r.Ok? ==> buf[..] == old(buf[..])
    {
      if !mounted {
        return Err(NotMounted);
      }
      if |name| == 0 || |name| > NAME_LEN {
        return Err(NotFound);
      }
      var k := 0;
      while k < fileCount && table[k].name != name
        invariant 0 <= k <= fileCount
        invariant forall i :: 0 <= i < k ==> table[i].name != name
      {
        k := k + 1;
      }
      FoundFirst(table[..fileCount], name, k);
      if k == fileCount {
        return Err(NotFound);
      }
      var size, lbaOff := table[k].size, table[k].lbaOff;
      if size > buf.Length || size > MAX_FILE_SIZE {
        return Err(TooLarge);
      }
      if size == 0 {
        assert old(buf[..])[0..] == buf[..];
        return Ok(0);
      }
      if FS_BASE_LBA + lbaOff >= 0x1_0000_0000 {
        return Panic;
      }
      var scratch := ReadLba(disk, FS_BASE_LBA + lbaOff, Sectors(size));
      if scratch.None? {
        return Err(Ata);
      }
      SectorsCover(size);
      Copy(scratch.value[..size], buf);
      return Ok(size);
    }
  }

  /** Copies `bytes` over the front of `buf`. */
  method Copy(bytes: seq<Byte>, buf: array<Byte>)
    requires |bytes| <= buf.Length
    modifies buf
    ensures buf[..] == bytes + old(buf[..])[|bytes|..]
  {
    for i := 0 to |bytes|
      invariant buf[..i] == bytes[..i] && buf[i..] == old(buf[..])[i..]
    {
      buf[i] := bytes[i];
    }
    assert buf[..] == buf[..|bytes|] + buf[|bytes|..];
  }

  /** One malformed entry spoils every longer directory. */
  lemma {:induction false} DirectoryStops(sector: seq<Byte>, bad: nat, count: nat)
    requires |sector| == 512 && 0 < bad <= count <= 8 && ParseDirectory(sector, bad).None?
    ensures ParseDirectory(sector, count).None?
    decreases count
  {
    if bad < count { DirectoryStops(sector, bad, count - 1); }
  }

  lemma FoundFirst(entries: seq<DirEntry>, name: seq<Byte>, k: nat)
    requires k <= |entries| && (k < |entries| ==> entries[k].name == name)
    requires forall i :: 0 <= i < k ==> entries[i].name != name
    ensures FindEntry(entries, name) == k
  {
    hide FindEntry;
  }
}
