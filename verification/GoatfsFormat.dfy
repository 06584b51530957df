/** The GOATFS on-disk format, byte by byte: what a volume must hold to be mounted,
    and what every byte of a packed image is. Nothing here packs or parses. */
module GoatfsFormat {
  import opened Goatfs

  /** The word at `at`, least significant byte first. */
  function WordAt(bytes: seq<Byte>, at: int): int
    requires 0 <= at && at + 4 <= |bytes|
  {
    var a: int, b: int, c: int, d: int := bytes[at], bytes[at + 1], bytes[at + 2], bytes[at + 3];
    a + 0x100 * b + 0x1_0000 * c + 0x100_0000 * d
  }

  // ---------- Volumes a reader accepts ----------

  /** `n` printable bytes, at least one, and then a zero or the end of the field. */
  ghost predicate Printable(field: seq<Byte>, n: int) {
    && 1 <= n <= |field| && (n < |field| ==> field[n] == 0)
    && forall i :: 0 <= i < n ==> 33 <= field[i] <= 126
  }

  /** The field starts with a non-empty printable name. */
  ghost predicate Named(field: seq<Byte>) {
    exists n :: Printable(field, n)
  }

  /** Sector 2048 exists and starts with "GOATFS01", version 1 and a count of at most 8. */
  ghost predicate SuperblockOk(disk: seq<Byte>) {
    && 512 * 2049 <= |disk|
    && disk[512 * 2048..512 * 2048 + 8] == [71, 79, 65, 84, 70, 83, 48, 49]
    && WordAt(disk, 512 * 2048 + 8) == 1 && WordAt(disk, 512 * 2048 + 12) <= 8
  }

  ghost predicate EntryOk(disk: seq<Byte>, at: int)
    requires 0 <= at && at + 64 <= |disk|
  {
    Named(disk[at..at + 32]) && WordAt(disk, at + 32) <= 4096 && WordAt(disk, at + 36) >= 2
  }

  /** Each of the entries in use in sector 2049 is well formed. */
  ghost predicate DirectoryOk(disk: seq<Byte>)
    requires SuperblockOk(disk) && 512 * 2050 <= |disk|
  {
    forall i :: 0 <= i < WordAt(disk, 512 * 2048 + 12) ==> EntryOk(disk, 512 * 2049 + 64 * i)
  }

  // ---------- Packed images ----------

  /** `n` is stored at `at`, least significant byte first. */
  ghost predicate Stored32(bytes: seq<Byte>, at: int, n: int) {
    && 0 <= at && at + 4 <= |bytes|
    && bytes[at] == n % 0x100 && bytes[at + 1] == n / 0x100 % 0x100
    && bytes[at + 2] == n / 0x1_0000 % 0x100 && bytes[at + 3] == n / 0x100_0000 % 0x100
  }

  ghost predicate Zero(bytes: seq<Byte>, from: int, to: int) {
    0 <= from <= to <= |bytes| && forall k :: from <= k < to ==> bytes[k] == 0
  }

  ghost predicate Text(bytes: seq<Byte>, at: int, text: seq<Byte>) {
    0 <= at && at + |text| <= |bytes| && forall k :: 0 <= k < |text| ==> bytes[at + k] == text[k]
  }

  /** Name, zeros, size, first sector, zeros. */
  ghost predicate EntryStored(bytes: seq<Byte>, at: int, f: File, lba: int) {
    && Text(bytes, at, f.name) && Zero(bytes, at + |f.name|, at + 32)
    && Stored32(bytes, at + 32, |f.contents|) && Stored32(bytes, at + 36, lba) && Zero(bytes, at + 40, at + 64)
  }

  /** The files' first sectors, and the end: back to back from sector 2, each file in
      as few sectors as hold it. */
  ghost predicate Starts(files: seq<File>, lba: seq<int>) {
    && |lba| == |files| + 1 && lba[0] == 2
    && forall i :: 0 <= i < |files| ==>
         512 * (lba[i + 1] - lba[i]) - 512 < |files[i].contents| <= 512 * (lba[i + 1] - lba[i])
  }

  /** The contents of one file, and zeros to the end of its last sector. */
  ghost predicate FileStored(bytes: seq<Byte>, f: File, from: int, to: int) {
    Text(bytes, 512 * from, f.contents) && Zero(bytes, 512 * from + |f.contents|, 512 * to)
  }

  ghost predicate OnDisk(image: seq<Byte>, files: seq<File>, lba: seq<int>)
    requires Starts(files, lba)
  {
    && |image| == 512 * lba[|files|]
    && Text(image, 0, [71, 79, 65, 84, 70, 83, 48, 49]) && Stored32(image, 8, 1) && Stored32(image, 12, |files|)
    && Zero(image, 16, 512)
    && (forall i :: 0 <= i < |files| ==> EntryStored(image, 512 + 64 * i, files[i], lba[i]))
    && Zero(image, 512 + 64 * |files|, 1024)
    && (forall i :: 0 <= i < |files| ==> FileStored(image, files[i], lba[i], lba[i + 1]))
  }

  // ---------- The format fixes every byte ----------

  lemma TextUnique(a: seq<Byte>, b: seq<Byte>, at: int, text: seq<Byte>, k: int)
    requires Text(a, at, text) && Text(b, at, text) && at <= k < at + |text|
    ensures a[k] == b[k]
  {
    assert a[at + (k - at)] == text[k - at] == b[at + (k - at)];
  }

  lemma EntryUnique(a: seq<Byte>, b: seq<Byte>, at: int, f: File, lba: int, k: int)
    requires EntryStored(a, at, f, lba) && EntryStored(b, at, f, lba) && at <= k < at + 64
    ensures a[k] == b[k]
  {
    if k < at + |f.name| { TextUnique(a, b, at, f.name, k); }
  }

  /** The sectors before file `n`'s first agree. */
  lemma {:induction false} DataUnique(a: seq<Byte>, b: seq<Byte>, files: seq<File>, lba: seq<int>, n: nat, k: int)
    requires Starts(files, lba) && OnDisk(a, files, lba) && OnDisk(b, files, lba)
    requires n <= |files| && 1024 <= k < 512 * lba[n]
    ensures k < |a| && k < |b| && a[k] == b[k]
    decreases n
  {
    if n > 0 {
      assert FileStored(a, files[n - 1], lba[n - 1], lba[n]) && FileStored(b, files[n - 1], lba[n - 1], lba[n]);
      if k < 512 * lba[n - 1] {
        DataUnique(a, b, files, lba, n - 1, k);
      } else if k < 512 * lba[n - 1] + |files[n - 1].contents| {
        TextUnique(a, b, 512 * lba[n - 1], files[n - 1].contents, k);
      }
    }
  }

  lemma HeaderUnique(a: seq<Byte>, b: seq<Byte>, files: seq<File>, lba: seq<int>, k: int)
    requires Starts(files, lba) && OnDisk(a, files, lba) && OnDisk(b, files, lba) && 0 <= k < 512
    ensures k < |a| && k < |b| && a[k] == b[k]
  {
    hide EntryStored, FileStored, Starts;
    if k < 8 { TextUnique(a, b, 0, [71, 79, 65, 84, 70, 83, 48, 49], k); }
  }

  lemma DirectoryUnique(a: seq<Byte>, b: seq<Byte>, files: seq<File>, lba: seq<int>, k: int)
    requires Starts(files, lba) && OnDisk(a, files, lba) && OnDisk(b, files, lba) && 512 <= k < 1024
    ensures k < |a| && k < |b| && a[k] == b[k]
  {
    hide Text, Stored32, FileStored, EntryStored;
    if k < 512 + 64 * |files| {
      var i := (k - 512) / 64;
      EntryUnique(a, b, 512 + 64 * i, files[i], lba[i], k);
    }
  }

  /** Two images that store the same files are the same, byte for byte. */
  lemma OnDiskUnique(a: seq<Byte>, b: seq<Byte>, files: seq<File>, lba: seq<int>)
    requires Starts(files, lba) && OnDisk(a, files, lba) && OnDisk(b, files, lba)
    ensures a == b
  {
    hide Text, Stored32, Zero, EntryStored, FileStored, Starts;
    forall k | 0 <= k < |a| ensures a[k] == b[k] {
      if k < 512 {
        HeaderUnique(a, b, files, lba, k);
      } else if k < 1024 {
        DirectoryUnique(a, b, files, lba, k);
      } else {
        DataUnique(a, b, files, lba, |files|, k);
      }
    }
  }
}
