/** A FAT12 volume as laid out on disk, and that the reader gets back from its
    image what was put there. */
module FatImage {
  import opened Bytes
  import opened Options
  import opened Arithmetic
  import opened Fat

  // ------------------------------------------------------------------ sectors

  /** Where no offset wraps, sectors are read byte by byte from where they are. */
  lemma SectorsAt(disk: seq<byte>, b: BootSector, lba: nat, count: nat)
    requires b.bytesPerSector > 0 && (lba + count) * b.bytesPerSector < LIMIT32
    ensures lba * b.bytesPerSector <= (lba + count) * b.bytesPerSector
    ensures Sectors(disk, b, lba, count).Some? <==> count == 0 || (lba + count) * b.bytesPerSector <= |disk|
    ensures (lba + count) * b.bytesPerSector <= |disk| ==>
      Sectors(disk, b, lba, count) == Some(disk[lba * b.bytesPerSector..(lba + count) * b.bytesPerSector])
  {
    var bps := b.bytesPerSector;
    assert (lba + count) * bps == lba * bps + count * bps;
  }

  /** Reading on is reading more. */
  lemma SectorsJoin(disk: seq<byte>, b: BootSector, lba: nat, m: nat, n: nat)
    requires b.bytesPerSector > 0 && (lba + m + n) * b.bytesPerSector <= |disk| < LIMIT32
    ensures var first, second := Sectors(disk, b, lba, m), Sectors(disk, b, lba + m, n);
      first.Some? && second.Some? && Sectors(disk, b, lba, m + n) == Some(first.value + second.value)
  {
    hide Sectors;
    var bps := b.bytesPerSector;
    assert lba + (m + n) == lba + m + n;
    Multiply(lba + m, lba + m + n, bps);
    SectorsAt(disk, b, lba, m);
    SectorsAt(disk, b, lba + m, n);
    SectorsAt(disk, b, lba, m + n);
    var i, j, k := lba * bps, (lba + m) * bps, (lba + m + n) * bps;
    assert disk[i..k] == disk[i..j] + disk[j..k];
  }

  /** What stands at a sector boundary of a concatenation is read as it is. */
  lemma SectorsOfPart(front: seq<byte>, part: seq<byte>, rest: seq<byte>, b: BootSector, lba: nat, count: nat)
    requires b.bytesPerSector > 0 && |front + part + rest| < LIMIT32
    requires |front| == lba * b.bytesPerSector && |part| == count * b.bytesPerSector
    ensures Sectors(front + part + rest, b, lba, count) == Some(part)
  {
    var disk := front + part + rest;
    assert (lba + count) * b.bytesPerSector == |front| + |part|;
    SectorsAt(disk, b, lba, count);
    assert disk[|front|..|front| + |part|] == part;
  }

  // ------------------------------------------------------------------- volume

  datatype Volume = Volume(
    boot: BootSector, reserved: seq<byte>, entries: seq<Entry>, table: seq<byte>,
    directory: seq<byte>, clusters: seq<seq<byte>>)

  function Copies(table: seq<byte>, n: nat): seq<byte> {
    if n == 0 then [] else table + Copies(table, n - 1)
  }

  /** The reserved sectors, the copies of the table, the directory, the data. */
  function Image(v: Volume): seq<byte> {
    v.reserved + Copies(v.table, v.boot.fatCount) + v.directory + Concat(v.clusters)
  }

  /** The table begins with the packed entries; the directory takes just enough
      whole sectors for entries of 32 bytes. */
  predicate WellFormed(v: Volume) {
    var bps := v.boot.bytesPerSector;
    && bps > 0 && v.boot.fatCount > 0 && |Image(v)| < LIMIT32
    && |v.reserved| == v.boot.reservedSectors * bps
    && |v.table| == v.boot.sectorsPerFat * bps && Pack(v.entries) <= v.table
    && |v.directory| % bps == 0 && 32 * v.boot.dirEntryCount <= |v.directory| < 32 * v.boot.dirEntryCount + bps
    && forall i :: 0 <= i < |v.clusters| ==> |v.clusters[i]| == v.boot.sectorsPerCluster * bps
  }

  lemma {:induction false} CopiesSize(table: seq<byte>, n: nat)
    ensures |Copies(table, n)| == n * |table|
    decreases n
  {
    if n > 0 {
      CopiesSize(table, n - 1);
      Successor(n - 1, |table|);
    }
  }

  lemma Associates(x: nat, y: nat, z: nat)
    ensures x * (y * z) == x * y * z
  {
  }

  /** How many whole sectors the directory has. */
  lemma RoundedUp(size: nat, bytes: nat, bps: nat)
    requires bps > 0 && bytes % bps == 0 && size <= bytes < size + bps
    ensures bytes == (size / bps + if size % bps > 0 then 1 else 0) * bps
  {
    var n := bytes / bps;
    assert bytes == n * bps + bytes % bps;
    var q, r := size / bps, size % bps;
    assert size == q * bps + r;
    Successor(q, bps);
    if n < q { Multiply(n + 1, q, bps); Successor(n, bps); }
    if n > q + 1 { Multiply(q + 2, n, bps); Successor(q + 1, bps); }
    if n == q && r > 0 { assert false; }
    if n == q + 1 && r == 0 { assert false; }
  }

  lemma DirectorySize(v: Volume)
    requires WellFormed(v)
    ensures |v.directory| == DirectorySectors(v.boot) * v.boot.bytesPerSector
  {
    RoundedUp(32 * v.boot.dirEntryCount, |v.directory|, v.boot.bytesPerSector);
  }

  lemma FrontSize(v: Volume)
    requires WellFormed(v)
    ensures |v.reserved + Copies(v.table, v.boot.fatCount)| == DirectoryStart(v.boot) * v.boot.bytesPerSector
  {
    var b := v.boot;
    CopiesSize(v.table, b.fatCount);
    Associates(b.fatCount, b.sectorsPerFat, b.bytesPerSector);
    Distributes(b.reservedSectors, b.fatCount * b.sectorsPerFat, b.bytesPerSector);
  }

  lemma Distributes(x: nat, y: nat, z: nat)
    ensures (x + y) * z == x * z + y * z
  {
  }

  /** Reading the FAT finds the table, and in it every entry. */
  lemma FatReadBack(v: Volume)
    requires WellFormed(v)
    ensures Sectors(Image(v), v.boot, v.boot.reservedSectors, v.boot.sectorsPerFat) == Some(v.table)
    ensures forall i :: 0 <= i < |v.entries| ==> InTable(v.table, i) && Successor12(v.table, i) == v.entries[i]
  {
    var others := Copies(v.table, v.boot.fatCount - 1);
    var rest := others + v.directory + Concat(v.clusters);
    assert Image(v) == v.reserved + v.table + rest;
    SectorsOfPart(v.reserved, v.table, rest, v.boot, v.boot.reservedSectors, v.boot.sectorsPerFat);
    forall i | 0 <= i < |v.entries|
      ensures InTable(v.table, i) && Successor12(v.table, i) == v.entries[i]
    {
      DecodesEntry(v.entries, i);
      SameWord(Pack(v.entries), v.table, i);
    }
  }

  lemma SameWord(fat: seq<byte>, fat': seq<byte>, i: nat)
    requires InTable(fat, i) && fat <= fat'
    ensures InTable(fat', i) && Successor12(fat', i) == Successor12(fat, i)
  {
  }

  /** Reading the root directory finds it. */
  lemma DirectoryReadBack(v: Volume)
    requires WellFormed(v)
    ensures Sectors(Image(v), v.boot, DirectoryStart(v.boot), DirectorySectors(v.boot)) == Some(v.directory)
  {
    hide DirectorySectors;
    hide DirectoryStart;
    hide Sectors;
    DirectorySize(v);
    FrontSize(v);
    SectorsOfPart(v.reserved + Copies(v.table, v.boot.fatCount), v.directory, Concat(v.clusters), v.boot,
                  DirectoryStart(v.boot), DirectorySectors(v.boot));
  }

  lemma {:induction false} ConcatSize(parts: seq<seq<byte>>, size: nat)
    requires forall i :: 0 <= i < |parts| ==> |parts[i]| == size
    ensures |Concat(parts)| == |parts| * size
    decreases |parts|
  {
    if parts != [] {
      ConcatSize(parts[1..], size);
      Successor(|parts| - 1, size);
    }
  }

  /** Everything on the volume before data cluster `k`. */
  function Before(v: Volume, k: nat): seq<byte>
    requires k <= |v.clusters|
  {
    v.reserved + Copies(v.table, v.boot.fatCount) + v.directory + Concat(v.clusters[..k])
  }

  lemma ImageAround(v: Volume, k: nat)
    requires k < |v.clusters|
    ensures Image(v) == Before(v, k) + v.clusters[k] + Concat(v.clusters[k + 1..])
  {
    ConcatMiddle(v.clusters, k);
  }

  lemma BeforeSize(v: Volume, k: nat)
    requires WellFormed(v) && k <= |v.clusters|
    ensures |Before(v, k)|
            == (DirectoryStart(v.boot) + DirectorySectors(v.boot) + k * v.boot.sectorsPerCluster) * v.boot.bytesPerSector
  {
    hide DirectorySectors;
    hide DirectoryStart;
    hide Image;
    var b := v.boot;
    DirectorySize(v);
    FrontSize(v);
    ConcatSize(v.clusters[..k], b.sectorsPerCluster * b.bytesPerSector);
    SumOfParts(DirectoryStart(b), DirectorySectors(b), k, b.sectorsPerCluster, b.bytesPerSector);
  }

  lemma SumOfParts(x: nat, y: nat, k: nat, spc: nat, bps: nat)
    ensures x * bps + y * bps + k * (spc * bps) == (x + y + k * spc) * bps
  {
    Associates(k, spc, bps);
    Distributes(x, y, bps);
    Distributes(x + y, k * spc, bps);
  }

  /** Reading a cluster finds it: the first data cluster has number 2. */
  lemma ClusterReadBack(v: Volume, cluster: nat)
    requires WellFormed(v) && 2 <= cluster < |v.clusters| + 2
    ensures Cluster(Image(v), v.boot, DirectoryStart(v.boot) + DirectorySectors(v.boot), cluster)
            == Some(v.clusters[cluster - 2])
  {
    hide DirectorySectors;
    hide DirectoryStart;
    hide Sectors;
    hide Image;
    hide Before;
    var b, k := v.boot, cluster - 2;
    var lba := DirectoryStart(b) + DirectorySectors(b) + k * b.sectorsPerCluster;
    ImageAround(v, k);
    BeforeSize(v, k);
    Multiply(1, b.bytesPerSector, lba);
    SectorsOfPart(Before(v, k), v.clusters[k], Concat(v.clusters[k + 1..]), b, lba, b.sectorsPerCluster);
  }

  lemma ConcatMiddle(parts: seq<seq<byte>>, k: nat)
    requires k < |parts|
    ensures Concat(parts) == Concat(parts[..k]) + parts[k] + Concat(parts[k + 1..])
  {
    ConcatSplit(parts, k);
    assert parts[k..][0] == parts[k] && parts[k..][1..] == parts[k + 1..];
  }

  /** The data clusters of a chain, in order. */
  function Chained(v: Volume, chain: seq<nat>): seq<seq<byte>>
    requires forall i :: 0 <= i < |chain| ==> 2 <= chain[i] < |v.clusters| + 2
  {
    seq(|chain|, i requires 0 <= i < |chain| => v.clusters[chain[i] - 2])
  }

  /** What `readFile` finds along a chain is what was stored in its clusters. */
  lemma {:induction false} FileReadBack(v: Volume, chain: seq<nat>)
    requires WellFormed(v) && forall i :: 0 <= i < |chain| ==> 2 <= chain[i] < |v.clusters| + 2
    ensures Contents(Image(v), v.boot, DirectoryStart(v.boot) + DirectorySectors(v.boot), chain)
            == Some(Concat(Chained(v, chain)))
    decreases |chain|
  {
    hide WellFormed;
    hide Cluster;
    hide DirectoryStart;
    hide DirectorySectors;
    hide Image;
    WellFormedSize(v);
    if chain != [] {
      var n := |chain| - 1;
      FileReadBack(v, chain[..n]);
      ClusterReadBack(v, chain[n]);
      assert Chained(v, chain) == Chained(v, chain[..n]) + [v.clusters[chain[n] - 2]];
      ConcatSnoc(Chained(v, chain[..n]), v.clusters[chain[n] - 2]);
    } else {
      assert Chained(v, chain) == [];
    }
  }

  lemma WellFormedSize(v: Volume)
    requires WellFormed(v)
    ensures v.boot.bytesPerSector > 0
  {
  }
}
