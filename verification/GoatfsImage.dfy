/** What the packer writes is the on-disk format, byte for byte. */
module GoatfsImage {
  import opened Goatfs
  import opened GoatfsFormat
  import opened GoatfsRoundTrip

  /** The packer's running sector number is where the format puts the next file. */
  lemma {:induction false} StartsAt(files: seq<File>, lba: seq<int>, i: nat)
    requires Starts(files, lba) && i <= |files|
    ensures lba[i] == NextLba(files[..i])
  {
    if i > 0 {
      StartsAt(files, lba, i - 1);
      assert files[..i][..i - 1] == files[..i - 1];
      SectorsCover(|files[i - 1].contents|);
    }
  }

  /** Every list of files has a placement; by `StartsAt` it has only one. */
  lemma StartsExist(files: seq<File>) returns (lba: seq<int>)
    ensures Starts(files, lba)
  {
    lba := seq(|files| + 1, i requires 0 <= i <= |files| => NextLba(files[..i]));
    forall i | 0 <= i < |files|
      ensures 512 * (lba[i + 1] - lba[i]) - 512 < |files[i].contents| <= 512 * (lba[i + 1] - lba[i])
    {
      assert files[..i + 1][..i] == files[..i];
      SectorsCover(|files[i].contents|);
    }
  }

  lemma StoredLe32(bytes: seq<Byte>, at: int, n: int)
    requires 0 <= n < 0x1_0000_0000 && 0 <= at && at + 4 <= |bytes| && bytes[at..at + 4] == Le32(n)
    ensures Stored32(bytes, at, n)
  {
    var word := bytes[at..at + 4];
    assert word[0] == bytes[at] && word[1] == bytes[at + 1] && word[2] == bytes[at + 2] && word[3] == bytes[at + 3];
  }

  lemma SuperblockStored(image: seq<Byte>, count: int)
    requires 0 <= count < 0x1_0000_0000 && 512 <= |image| && image[..512] == Superblock(count)
    ensures Text(image, 0, [71, 79, 65, 84, 70, 83, 48, 49]) && Stored32(image, 8, 1) && Stored32(image, 12, count)
    ensures Zero(image, 16, 512)
  {
    hide Le32, Stored32;
    SuperblockParts(count);
    var block := Superblock(count);
    assert forall k :: 0 <= k < 512 ==> image[k] == block[k];
    assert forall k :: 0 <= k < 8 ==> block[k] == block[..8][k];
    SliceOfSlice(image, 0, 512, 8, 12);
    SliceOfSlice(image, 0, 512, 12, 16);
    StoredLe32(image, 8, 1);
    StoredLe32(image, 12, count);
    assert forall k :: 16 <= k < 512 ==> block[k] == Zeros(496)[k - 16];
  }

  lemma EntryIsStored(image: seq<Byte>, at: int, f: File, lba: int)
    requires PackableFile(f) && 0 <= lba < 0x1_0000_0000 && 0 <= at && at + 64 <= |image|
    requires image[at..at + 64] == Entry(f.name, |f.contents|, lba)
    ensures EntryStored(image, at, f, lba)
  {
    hide Le32, Stored32;
    EntryParts(f.name, |f.contents|, lba);
    SliceOfSlice(image, at, at + 64, 32, 36);
    SliceOfSlice(image, at, at + 64, 36, 40);
    StoredLe32(image, at + 32, |f.contents|);
    StoredLe32(image, at + 36, lba);
    EntryText(image, at, f, lba);
  }

  lemma EntryText(image: seq<Byte>, at: int, f: File, lba: int)
    requires PackableFile(f) && 0 <= lba < 0x1_0000_0000 && 0 <= at && at + 64 <= |image|
    requires image[at..at + 64] == Entry(f.name, |f.contents|, lba)
    ensures Text(image, at, f.name) && Zero(image, at + |f.name|, at + 32) && Zero(image, at + 40, at + 64)
  {
    hide Le32;
    var entry := Entry(f.name, |f.contents|, lba);
    assert forall k :: at <= k < at + 64 ==> image[k] == entry[k - at];
    assert forall k :: 0 <= k < |f.name| ==> entry[k] == f.name[k];
  }

  lemma DirectoryIsStored(files: seq<File>, i: nat)
    requires Packable(files) && i < |files|
    ensures EntryStored(Image(files), 512 + 64 * i, files[i], NextLba(files[..i]))
  {
    hide Image, Entries, Entry, EntryStored, NextLba;
    var image := Image(files);
    ImageParts(files);
    EntrySlice(files, i);
    SliceOfConcat(Entries(files), Zeros(512 - 64 * |files|), 64 * i, 64 * (i + 1));
    SliceOfSlice(image, 512, 1024, 64 * i, 64 * (i + 1));
    EntryIsStored(image, 512 + 64 * i, files[i], NextLba(files[..i]));
  }

  lemma DirectoryEnds(files: seq<File>)
    requires Packable(files)
    ensures Zero(Image(files), 512 + 64 * |files|, 1024)
  {
    hide Image, Entries;
    ImageParts(files);
    var image, sector := Image(files), Entries(files) + Zeros(512 - 64 * |files|);
    assert forall k :: 512 <= k < 1024 ==> image[k] == image[512..1024][k - 512] == sector[k - 512];
  }

  lemma ContentsAreStored(files: seq<File>, i: nat)
    requires Packable(files) && i < |files|
    ensures FileStored(Image(files), files[i], NextLba(files[..i]), NextLba(files[..i + 1]))
  {
    hide Image, Data, TotalSectors, Sectors;
    var image, c := Image(files), files[i].contents;
    ImageParts(files);
    DataSlice(files, i);
    var from, to := 512 * TotalSectors(files[..i]), 512 * TotalSectors(files[..i + 1]);
    SliceOfSlice(image, 1024, |image|, from, to);
    assert image[1024..|image|] == image[1024..];
    SectorsCover(|c|);
    PlacedPadded(image, 1024 + from, c);
  }

  lemma PlacedPadded(image: seq<Byte>, at: int, c: seq<Byte>)
    requires 0 <= at && at + |Padded(c)| <= |image| && image[at..at + |Padded(c)|] == Padded(c)
    ensures Text(image, at, c) && Zero(image, at + |c|, at + |Padded(c)|)
  {
    hide Padded, Sectors;
    var n := |Padded(c)|;
    assert forall k :: at <= k < at + n ==> image[k] == Padded(c)[k - at];
  }

  /** Every byte of a packed image: the magic, the version and the count, the name, size
      and first sector of each file, its contents there, and zero everywhere else. */
  lemma ImageOnDisk(files: seq<File>, lba: seq<int>)
    requires Packable(files) && Starts(files, lba)
    ensures OnDisk(Image(files), files, lba)
  {
    hide Image, Starts, Text, Stored32, Zero, EntryStored, FileStored, NextLba;
    var image := Image(files);
    assert |lba| == |files| + 1 by { StartsLength(files, lba); }
    assert |image| == 512 * lba[|files|] by {
      StartsAt(files, lba, |files|);
      ImageEnd(files);
    }
    ImageParts(files);
    SuperblockStored(image, |files|);
    DirectoryEnds(files);
    forall i | 0 <= i < |files|
      ensures EntryStored(image, 512 + 64 * i, files[i], lba[i]) && FileStored(image, files[i], lba[i], lba[i + 1])
    {
      StartsAt(files, lba, i);
      StartsAt(files, lba, i + 1);
      DirectoryIsStored(files, i);
      ContentsAreStored(files, i);
    }
  }

  /** The packed image is the one and only sequence of bytes in the format. */
  lemma ImageExact(files: seq<File>, lba: seq<int>, image: seq<Byte>)
    requires Packable(files) && Starts(files, lba)
    ensures OnDisk(image, files, lba) <==> image == Image(files)
  {
    hide Image, OnDisk, Starts;
    ImageOnDisk(files, lba);
    if OnDisk(image, files, lba) { OnDiskUnique(image, Image(files), files, lba); }
  }

  lemma StartsLength(files: seq<File>, lba: seq<int>)
    requires Starts(files, lba)
    ensures |lba| == |files| + 1
  {
  }

  lemma ImageEnd(files: seq<File>)
    requires Packable(files)
    ensures |Image(files)| == 512 * NextLba(files[..|files|])
  {
    assert files[..|files|] == files;
  }
}
