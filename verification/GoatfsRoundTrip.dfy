/** Reading undoes packing: what mounting and reading a packed image yields, for
    every file list the packer accepts. */
module GoatfsRoundTrip {
  import opened Machine
  import opened Goatfs
  import opened GoatfsFormat
  import opened GoatfsReader

  /** The image sits at its fixed place on the disk. */
  ghost predicate Installed(disk: seq<Byte>, files: seq<File>)
    requires Packable(files)
  {
    var base, image := 512 * FS_BASE_LBA, Image(files);
    base + |image| <= |disk| && disk[base..base + |image|] == image
  }

  /** The directory the reader should see. */
  ghost function Table(files: seq<File>): (t: seq<DirEntry>)
    ensures |t| == |files|
  {
    seq(|files|, i requires 0 <= i < |files| =>
      DirEntry(Visible(files[i].name), |files[i].contents|, NextLba(files[..i])))
  }

  // ---------- Slices of the image ----------

  lemma SliceOfConcat(s: seq<Byte>, t: seq<Byte>, c: int, d: int)
    requires 0 <= c <= d <= |s|
    ensures (s + t)[c..d] == s[c..d]
  {
  }

  lemma {:induction false} EntrySlice(files: seq<File>, i: nat)
    requires Packable(files) && i < |files|
    ensures 0 <= NextLba(files[..i]) < 0x1_0000_0000
    ensures Entries(files)[64 * i..64 * (i + 1)] ==
      Entry(files[i].name, |files[i].contents|, NextLba(files[..i]))
  {
    hide Entry, NextLba;
    var n := |files| - 1;
    LbaBound(files, i);
    if i < n {
      EntrySlice(files[..n], i);
      assert files[..n][..i] == files[..i];
      assert Entries(files)[64 * i..64 * (i + 1)] == Entries(files[..n])[64 * i..64 * (i + 1)];
    }
  }

  lemma LbaBound(files: seq<File>, i: nat)
    requires Packable(files) && i <= |files|
    ensures 2 <= NextLba(files[..i]) <= 66
  {
    TotalBound(files[..i]);
  }

  lemma {:induction false} SectorsMonotone(files: seq<File>, i: nat)
    requires i < |files|
    ensures TotalSectors(files[..i + 1]) == TotalSectors(files[..i]) + Sectors(|files[i].contents|) <= TotalSectors(files)
  {
    assert files[..i + 1][..i] == files[..i];
    var n := |files| - 1;
    SectorsCover(|files[n].contents|);
    if i < n {
      SectorsMonotone(files[..n], i);
      assert files[..n][..i] == files[..i] && files[..n][..i + 1] == files[..i + 1];
    } else {
      assert files[..i + 1] == files;
    }
  }

  lemma {:induction false} DataSlice(files: seq<File>, i: nat)
    requires i < |files|
    ensures 512 * TotalSectors(files[..i + 1]) <= |Data(files)|
    ensures TotalSectors(files[..i + 1]) == TotalSectors(files[..i]) + Sectors(|files[i].contents|)
    ensures Data(files)[512 * TotalSectors(files[..i])..512 * TotalSectors(files[..i + 1])] == Padded(files[i].contents)
  {
    hide Padded, TotalSectors, Sectors;
    SectorsMonotone(files, i);
    var n := |files| - 1;
    var a, b := 512 * TotalSectors(files[..i]), 512 * TotalSectors(files[..i + 1]);
    if i < n {
      assert files[..n][..i] == files[..i] && files[..n][..i + 1] == files[..i + 1];
      DataSlice(files[..n], i);
      SliceOfConcat(Data(files[..n]), Padded(files[n].contents), a, b);
    } else {
      assert files[..i + 1] == files;
      assert Data(files)[a..b] == Padded(files[n].contents);
    }
  }

  /** A read inside the image is a slice of the image. */
  lemma ImageRead(disk: seq<Byte>, files: seq<File>, lba: nat, sectors: nat)
    requires Packable(files) && Installed(disk, files)
    requires 0 < sectors <= 256 && lba < 1000 && 512 * (lba + sectors) <= |Image(files)|
    ensures ReadLba(disk, FS_BASE_LBA + lba, sectors) == Some(Image(files)[512 * lba..512 * (lba + sectors)])
  {
    hide Image;
    var base, image := 512 * FS_BASE_LBA, Image(files);
    SliceOfSlice(disk, base, base + |image|, 512 * lba, 512 * (lba + sectors));
  }

  // ---------- Parsing what was packed ----------

  lemma {:induction false} VisiblePadded(name: seq<Byte>, n: nat)
    requires 0 < n
    ensures NameLength(name + Zeros(n)) == NameLength(name)
    ensures Visible(name + Zeros(n)) == Visible(name)
  {
    var padded := name + Zeros(n);
    if name == [] {
      assert padded[0] == 0;
    } else if name[0] != 0 {
      assert padded[1..] == name[1..] + Zeros(n);
      VisiblePadded(name[1..], n);
    }
  }

  lemma EntryParts(name: seq<Byte>, size: int, lba: int)
    requires |name| < 32 && 0 <= size < 0x1_0000_0000 && 0 <= lba < 0x1_0000_0000
    ensures var raw := Entry(name, size, lba);
      raw[..32] == name + Zeros(32 - |name|) && raw[32..36] == Le32(size) && raw[36..40] == Le32(lba)
  {
    hide Le32;
  }

  /** A packed entry parses back to the name up to its first zero, its size and its place. */
  lemma EntryParses(f: File, lba: int)
    requires PackableFile(f) && 2 <= lba < 0x1_0000_0000
    ensures ParseEntry(Entry(f.name, |f.contents|, lba)) ==
      if Named(f.name) then Some(DirEntry(Visible(f.name), |f.contents|, lba)) else None
  {
    hide Entry, Visible, FromLe32, Le32, Graphic, Named;
    NameExact(f.name);
    EntryParts(f.name, |f.contents|, lba);
    VisiblePadded(f.name, 32 - |f.name|);
    Le32RoundTrip(|f.contents|);
    Le32RoundTrip(lba);
  }

  lemma {:induction false} DirectoryParses(files: seq<File>, count: nat)
    requires Packable(files) && count <= |files|
    ensures var sector := Entries(files) + Zeros(512 - 64 * |files|);
      ParseDirectory(sector, count) ==
      if forall i :: 0 <= i < count ==> Named(files[i].name) then Some(Table(files)[..count]) else None
  {
    hide ParseEntry, Entry, Entries, Named, NextLba, Visible, PackableFile;
    if count > 0 {
      var sector := Entries(files) + Zeros(512 - 64 * |files|);
      DirectoryParses(files, count - 1);
      EntrySlice(files, count - 1);
      LbaBound(files, count - 1);
      SliceOfConcat(Entries(files), Zeros(512 - 64 * |files|), 64 * (count - 1), 64 * count);
      EntryParses(files[count - 1], NextLba(files[..count - 1]));
      assert Table(files)[..count] == Table(files)[..count - 1] + [Table(files)[count - 1]];
    }
  }

  lemma SuperblockParts(count: int)
    requires 0 <= count < 0x1_0000_0000
    ensures var block := Superblock(count);
      block[..8] == MAGIC && block[8..12] == Le32(VERSION) && block[12..16] == Le32(count)
  {
    hide Le32;
    assert |MAGIC| == 8;
  }

  lemma ImageParts(files: seq<File>)
    requires Packable(files)
    ensures Image(files)[..512] == Superblock(|files|)
    ensures Image(files)[512..1024] == Entries(files) + Zeros(512 - 64 * |files|)
    ensures Image(files)[1024..] == Data(files)
  {
    hide Superblock, Entries, Data;
  }

  /** Mounting a packed image succeeds if and only if every name is acceptable to the
      reader, and then the table lists exactly the packed files. */
  lemma MountsPacked(disk: seq<Byte>, files: seq<File>)
    requires Packable(files) && Installed(disk, files)
    ensures MountDisk(disk) ==
      if forall i :: 0 <= i < |files| ==> Named(files[i].name) then Ok(Table(files)) else Err(BadDirectory)
  {
    hide Image, Superblock, Le32, FromLe32, ParseDirectory, ReadLba, Installed, Entries, Named;
    ImageRead(disk, files, 0, 1);
    ImageRead(disk, files, 1, 1);
    ImageParts(files);
    SuperblockParts(|files|);
    Le32RoundTrip(VERSION);
    Le32RoundTrip(|files|);
    DirectoryParses(files, |files|);
    assert Table(files)[..|files|] == Table(files);
  }

  /** The packer accepts names the reader refuses: "a b" packs, and the image does not mount. */
  lemma PacksButDoesNotMount(disk: seq<Byte>)
    requires Packable([File([97, 32, 98], [])]) ==> Installed(disk, [File([97, 32, 98], [])])
    ensures Packable([File([97, 32, 98], [])]) && MountDisk(disk) == Err(BadDirectory)
  {
    var name: seq<Byte> := [97, 32, 98];
    var files := [File(name, [])];
    assert PackableFile(files[0]);
    assert Visible(name) == name by { GraphicPrefix(name); }
    assert !Graphic(name) by { assert name[1] == 32; }
    hide MountDisk, Installed;
    MountsPacked(disk, files);
    assert !Named(files[0].name);
  }

  /** Exactly when reading a file panics: a file is found and would be read, and its
      sector address does not fit 32 bits. */
  lemma PanicExact(disk: seq<Byte>, entries: seq<DirEntry>, name: seq<Byte>, room: nat)
    ensures ReadNamed(disk, entries, name, room) == Panic <==>
      && 1 <= |name| <= NAME_LEN && FindEntry(entries, name) < |entries|
      && var entry := entries[FindEntry(entries, name)];
         0 < entry.size <= room && entry.size <= MAX_FILE_SIZE && entry.lbaOff >= 0x1_0000_0000 - FS_BASE_LBA
  {
    hide FindEntry, ReadLba, Sectors;
  }

  /** A hand-made volume with one file of one byte, said to start at sector `lba`. */
  function HighVolume(lba: int): (image: seq<Byte>)
    requires 2 <= lba < 0x1_0000_0000
    ensures |image| == 1024
  {
    Superblock(1) + (Entry([97], 1, lba) + Zeros(448))
  }

  /** A directory entry near the end of the 32-bit sector range mounts, and reading the
      file panics on the sector address. */
  lemma MountsButPanics(disk: seq<Byte>, lba: int)
    requires 0x1_0000_0000 - FS_BASE_LBA <= lba < 0x1_0000_0000
    requires 512 * FS_BASE_LBA + 1024 <= |disk|
    requires disk[512 * FS_BASE_LBA..512 * FS_BASE_LBA + 1024] == HighVolume(lba)
    ensures MountDisk(disk) == Ok([DirEntry([97], 1, lba)])
    ensures ReadNamed(disk, [DirEntry([97], 1, lba)], [97], MAX_FILE_SIZE) == Panic
  {
    hide Superblock, Entry, Le32, FromLe32, ParseEntry, Zeros;
    var base, image := 512 * FS_BASE_LBA, HighVolume(lba);
    SliceOfSlice(disk, base, base + 1024, 0, 512);
    SliceOfSlice(disk, base, base + 1024, 512, 1024);
    assert image[0..512] == Superblock(1) && image[512..1024] == Entry([97], 1, lba) + Zeros(448);
    var sector := image[512..1024];
    assert ReadLba(disk, FS_BASE_LBA, 1) == Some(Superblock(1)) && ReadLba(disk, FS_BASE_LBA + 1, 1) == Some(sector);
    SuperblockParts(1);
    Le32RoundTrip(VERSION);
    Le32RoundTrip(1);
    assert sector[64 * 0..64 * 1] == Entry([97], 1, lba);
    EntryParses(File([97], [0]), lba);
    GraphicVisible([97]);
    assert ParseDirectory(sector, 0) == Some([]);
    assert ParseDirectory(sector, 1) == Some([] + [DirEntry([97], 1, lba)]);
    assert [] + [DirEntry([97], 1, lba)] == [DirEntry([97], 1, lba)];
  }

  lemma GraphicPrefix(name: seq<Byte>)
    requires forall i :: 0 <= i < |name| ==> name[i] != 0
    ensures Visible(name) == name
  {
    hide NameLength;
  }

  /** Position of the first file visible under `name`, or the number of files. */
  ghost function FirstNamed(files: seq<File>, name: seq<Byte>): (k: nat)
    ensures k <= |files| && (k < |files| ==> Visible(files[k].name) == name)
    ensures forall i :: 0 <= i < k ==> Visible(files[i].name) != name
  {
    if files == [] || Visible(files[0].name) == name then 0 else 1 + FirstNamed(files[1..], name)
  }

  /** The data sectors of file `k` are its padded contents. */
  lemma SectorsRead(disk: seq<Byte>, files: seq<File>, k: nat)
    requires Packable(files) && Installed(disk, files) && k < |files| && files[k].contents != []
    ensures ReadLba(disk, FS_BASE_LBA + NextLba(files[..k]), Sectors(|files[k].contents|)) ==
      Some(Padded(files[k].contents))
  {
    hide Image, ReadLba, Installed, Padded, Data, Sectors, TotalSectors;
    assert PackableFile(files[k]);
    var size, lba := |files[k].contents|, NextLba(files[..k]);
    LbaBound(files, k);
    SectorsCover(size);
    DataSlice(files, k);
    ImageParts(files);
    ImageRead(disk, files, lba, Sectors(size));
    var image, a, b := Image(files), 512 * (lba - 2), 512 * (lba - 2 + Sectors(size));
    SliceOfSlice(image, 1024, |image|, a, b);
    assert image[1024..|image|] == Data(files) && Data(files)[a..b] == Padded(files[k].contents);
    assert 1024 + a == 512 * lba && 1024 + b == 512 * (lba + Sectors(size));
  }

  /** Reading file `k` of a packed image delivers exactly its contents. */
  lemma ContentsRead(disk: seq<Byte>, files: seq<File>, k: nat)
    requires Packable(files) && Installed(disk, files) && k < |files| && files[k].contents != []
    ensures var size := |files[k].contents|;
      var r := ReadLba(disk, FS_BASE_LBA + NextLba(files[..k]), Sectors(size));
      r.Some? && size <= |r.value| && r.value[..size] == files[k].contents
  {
    hide ReadLba, Installed, Padded, Sectors, NextLba, Packable;
    SectorsRead(disk, files, k);
    PaddedPrefix(files[k].contents);
    LbaBound(files, k);
    SectorsCover(|files[k].contents|);
  }

  lemma PaddedPrefix(contents: seq<Byte>)
    ensures Padded(contents)[..|contents|] == contents
  {
  }

  /** Reading any name from a mounted packed image: the first file visible under it,
      in full, or NotFound. */
  lemma ReadsPacked(disk: seq<Byte>, files: seq<File>, name: seq<Byte>, room: nat)
    requires Packable(files) && Installed(disk, files)
    requires forall i :: 0 <= i < |files| ==> Named(files[i].name)
    ensures var k := FirstNamed(files, name);
      ReadNamed(disk, Table(files), name, room) ==
      if k == |files| then Err(NotFound)
      else if |files[k].contents| > room then Err(TooLarge)
      else Ok(files[k].contents)
  {
    hide Installed, ReadLba, FindEntry, FirstNamed, Sectors, NextLba;
    var k := FirstNamed(files, name);
    assert k < |files| ==> name != [] && |name| <= NAME_LEN;
    FoundFirst(Table(files), name, k);
    if k < |files| && files[k].contents != [] {
      ContentsRead(disk, files, k);
    }
  }

  /** For printable distinct names the round trip is exact: the image mounts, each
      file reads back as its contents, and every other name is not found. */
  lemma RoundTrip(disk: seq<Byte>, files: seq<File>, room: nat)
    requires Packable(files) && Installed(disk, files) && room >= MAX_FILE_SIZE
    requires forall i, j :: 0 <= i < |files| && 0 <= j < |files[i].name| ==> 33 <= files[i].name[j] <= 126
    requires forall i, j :: 0 <= i < j < |files| ==> files[i].name != files[j].name
    ensures MountDisk(disk) == Ok(Table(files))
    ensures forall i :: 0 <= i < |files| ==> ReadNamed(disk, Table(files), files[i].name, room) == Ok(files[i].contents)
    ensures forall name :: (forall i :: 0 <= i < |files| ==> files[i].name != name) ==>
      ReadNamed(disk, Table(files), name, room) == Err(NotFound)
  {
    hide Installed, MountDisk, ReadNamed, FirstNamed;
    forall i | 0 <= i < |files| ensures Visible(files[i].name) == files[i].name && Named(files[i].name) {
      assert PackableFile(files[i]);
      GraphicVisible(files[i].name);
    }
    MountsPacked(disk, files);
    forall i | 0 <= i < |files| ensures ReadNamed(disk, Table(files), files[i].name, room) == Ok(files[i].contents) {
      ReadsPacked(disk, files, files[i].name, room);
      var k := FirstNamed(files, files[i].name);
      assert k == i;
    }
    forall name | forall i :: 0 <= i < |files| ==> files[i].name != name
      ensures ReadNamed(disk, Table(files), name, room) == Err(NotFound)
    {
      ReadsPacked(disk, files, name, room);
    }
  }

  lemma GraphicVisible(name: seq<Byte>)
    requires Graphic(name) && name != []
    ensures Visible(name) == name && Named(name)
  {
    hide NameLength;
    assert Visible(name) == name;
    NameExact(name);
  }
}
