/** The FAT12 reader: packed entries, cluster chains, and `readFile`. */
module Fat {
  import opened Bytes
  import opened Options
  import opened Arithmetic

  const END_OF_CHAIN: nat := 0x0FF8
  const LIMIT16: nat := 0x1_0000
  const LIMIT32: nat := 0x1_0000_0000
  const DIRECTORY_ENTRY_SIZE: nat := 32

  type Entry = e: nat | e < 4096

  // ------------------------------------------------------------ packed entries

  function Word(fat: seq<byte>, i: nat): nat
    requires i + 1 < |fat|
  {
    fat[i] as int + 256 * fat[i + 1] as int
  }

  predicate InTable(fat: seq<byte>, cluster: nat) {
    cluster * 3 / 2 + 1 < |fat|
  }

  /** The entry `readFile` looks up for a cluster. */
  function Successor12(fat: seq<byte>, cluster: nat): (e: Entry)
    requires InTable(fat, cluster)
  {
    var word := Word(fat, cluster * 3 / 2);
    if cluster % 2 == 0 then word % 4096 else word / 16 % 4096
  }

  /** FAT12 layout: two 12-bit entries in three bytes, low bits first. */
  function Pack(es: seq<Entry>): seq<byte> {
    if es == [] then []
    else if |es| == 1 then [es[0] % 256, es[0] / 256]
    else [es[0] % 256, es[0] / 256 + es[1] % 16 * 16, es[1] / 16] + Pack(es[2..])
  }

  lemma {:induction false} PackedSize(es: seq<Entry>)
    ensures |Pack(es)| == (3 * |es| + 1) / 2
    decreases |es|
  {
    if |es| > 1 { PackedSize(es[2..]); }
  }

  /** Decoding at index `i` returns entry `i`. */
  lemma {:induction false} DecodesEntry(es: seq<Entry>, i: nat)
    requires i < |es|
    ensures InTable(Pack(es), i) && Successor12(Pack(es), i) == es[i]
    decreases |es|
  {
    hide Successor12;
    PackedSize(es);
    if i >= 2 {
      DecodesEntry(es[2..], i - 2);
      ShiftsByPair(Pack(es), Pack(es[2..]), i);
    } else {
      DecodesFirst(es, i);
    }
  }

  lemma DecodesFirst(es: seq<Entry>, i: nat)
    requires i < |es| && i < 2
    ensures InTable(Pack(es), i) && Successor12(Pack(es), i) == es[i]
  {
    hide Successor12;
    hide Pack;
    PackFront(es);
    if |es| == 1 {
      FirstOne(Pack(es), es[0]);
    } else {
      FirstTwo(Pack(es), es[0], es[1]);
    }
  }

  lemma PackFront(es: seq<Entry>)
    requires es != []
    ensures |es| == 1 ==> Pack(es) == [es[0] % 256, es[0] / 256]
    ensures |es| > 1 ==>
      var p := Pack(es);
      |p| >= 3 && p[0] == es[0] % 256 && p[1] == es[0] / 256 + es[1] % 16 * 16 && p[2] == es[1] / 16
  {
  }

  lemma FirstOne(p: seq<byte>, a: Entry)
    requires |p| >= 2 && p[0] == a % 256 && p[1] == a / 256
    ensures Successor12(p, 0) == a
  {
    assert Word(p, 0) == a;
  }

  lemma FirstTwo(p: seq<byte>, a: Entry, b: Entry)
    requires |p| >= 3 && p[0] == a % 256 && p[1] == a / 256 + b % 16 * 16 && p[2] == b / 16
    ensures Successor12(p, 0) == a && Successor12(p, 1) == b
  {
    assert Word(p, 0) == a % 256 + 256 * (a / 256 + b % 16 * 16);
    assert Word(p, 1) == a / 256 + b % 16 * 16 + 256 * (b / 16);
    DecodePair(a, b);
  }

  lemma ShiftsByPair(fat: seq<byte>, rest: seq<byte>, i: nat)
    requires i >= 2 && |fat| == |rest| + 3 && fat[3..] == rest && InTable(rest, i - 2)
    ensures InTable(fat, i) && Successor12(fat, i) == Successor12(rest, i - 2)
  {
    assert i * 3 / 2 == (i - 2) * 3 / 2 + 3;
    assert forall k :: 0 <= k < |rest| ==> fat[k + 3] == rest[k];
  }

  lemma DecodePair(a: Entry, b: Entry)
    ensures (a % 256 + 256 * (a / 256 + b % 16 * 16)) % 4096 == a
    ensures (a / 256 + b % 16 * 16 + 256 * (b / 16)) / 16 % 4096 == b
  {
  }

  function Unpack(fat: seq<byte>, n: nat): (es: seq<Entry>)
    requires |fat| >= (3 * n + 1) / 2
    ensures |es| == n
  {
    if n == 0 then [] else Unpack(fat, n - 1) + [Successor12(fat, n - 1)]
  }

  /** Every table of whole pairs is the packing of what is decoded from it. */
  lemma {:induction false} PackOfUnpack(fat: seq<byte>, n: nat)
    requires |fat| == 3 * n
    ensures Pack(Unpack(fat, 2 * n)) == fat
    decreases n
  {
    hide Successor12;
    hide Unpack;
    if n > 0 {
      var es, rest := Unpack(fat, 2 * n), fat[3..];
      PackOfUnpack(rest, n - 1);
      UnpackDrops(fat, n, 2 * (n - 1));
      assert es[2..] == Unpack(rest, 2 * (n - 1));
      UnpackAt(fat, 2 * n, 0);
      UnpackAt(fat, 2 * n, 1);
      FirstPair(fat);
    }
  }

  lemma PackPair(x: byte, y: byte, z: byte)
    ensures var a, b := (x as int + 256 * y as int) % 4096, (y as int + 256 * z as int) / 16 % 4096;
      a % 256 == x && a / 256 + b % 16 * 16 == y && b / 16 == z
  {
    var low, high := y as int % 16, y as int / 16;
    LowTwelve(x as int, low, high);
    HighTwelve(low, high, z as int);
  }

  lemma LowTwelve(x: nat, low: nat, high: nat)
    requires x < 256 && low < 16 && high < 16
    ensures (x + 256 * (16 * high + low)) % 4096 == x + 256 * low
  {
    assert x + 256 * (16 * high + low) == 4096 * high + (x + 256 * low);
  }

  lemma HighTwelve(low: nat, high: nat, z: nat)
    requires low < 16 && high < 16 && z < 256
    ensures (16 * high + low + 256 * z) / 16 % 4096 == high + 16 * z
  {
  }

  lemma FirstPair(fat: seq<byte>)
    requires |fat| >= 3
    ensures var a, b := Successor12(fat, 0), Successor12(fat, 1);
      a % 256 == fat[0] && a / 256 + b % 16 * 16 == fat[1] && b / 16 == fat[2]
  {
    PackPair(fat[0], fat[1], fat[2]);
    assert Word(fat, 0) == fat[0] as int + 256 * fat[1] as int;
    assert Word(fat, 1) == fat[1] as int + 256 * fat[2] as int;
  }

  lemma {:induction false} UnpackAt(fat: seq<byte>, n: nat, i: nat)
    requires i < n && |fat| >= (3 * n + 1) / 2
    ensures Unpack(fat, n)[i] == Successor12(fat, i)
    decreases n
  {
    if i < n - 1 { UnpackAt(fat, n - 1, i); }
  }

  lemma {:induction false} UnpackDrops(fat: seq<byte>, n: nat, k: nat)
    requires n > 0 && |fat| == 3 * n && k <= 2 * (n - 1)
    ensures Unpack(fat, k + 2)[2..] == Unpack(fat[3..], k)
    decreases k
  {
    hide Successor12;
    if k > 0 {
      UnpackDrops(fat, n, k - 1);
      ShiftsByPair(fat, fat[3..], k + 1);
    }
  }

  // ------------------------------------------------------------------ chains

  predicate IsData(cluster: nat) {
    2 <= cluster < END_OF_CHAIN
  }

  /** A chain of data clusters whose last entry marks the end. */
  predicate IsChain(fat: seq<byte>, chain: seq<nat>) {
    && chain != []
    && (forall i :: 0 <= i < |chain| ==> IsData(chain[i]) && InTable(fat, chain[i]))
    && (forall i :: 0 <= i < |chain| - 1 ==> Successor12(fat, chain[i]) == chain[i + 1])
    && Successor12(fat, chain[|chain| - 1]) >= END_OF_CHAIN
  }

  lemma ChainStep(fat: seq<byte>, chain: seq<nat>, k: nat)
    requires IsChain(fat, chain) && 0 < k <= |chain|
    ensures k < |chain| <==> Successor12(fat, chain[k - 1]) < END_OF_CHAIN
    ensures k < |chain| ==> chain[k] == Successor12(fat, chain[k - 1])
  {
    assert k < |chain| ==> Successor12(fat, chain[k - 1]) == chain[k] && IsData(chain[k]);
  }

  /** Where two positions of chains agree, the rest agrees, and so does the end. */
  lemma {:induction false} SameTail(fat: seq<byte>, a: seq<nat>, i: nat, b: seq<nat>, j: nat)
    requires IsChain(fat, a) && IsChain(fat, b) && i < |a| && j < |b| && a[i] == b[j]
    ensures a[i..] == b[j..]
    decreases |a| - i
  {
    assert j + 1 < |b| ==> Successor12(fat, b[j]) == b[j + 1] < END_OF_CHAIN;
    if i + 1 < |a| {
      assert a[i + 1] < END_OF_CHAIN;
      SameTail(fat, a, i + 1, b, j + 1);
      assert a[i..] == [a[i]] + a[i + 1..] && b[j..] == [b[j]] + b[j + 1..];
    }
  }

  /** A chain that ends visits no cluster twice, so it has at most 4086 clusters:
      the read loop stops after that many turns or never. */
  lemma ChainBounded(fat: seq<byte>, chain: seq<nat>)
    requires IsChain(fat, chain)
    ensures forall i, j :: 0 <= i < j < |chain| ==> chain[i] != chain[j]
    ensures |chain| <= END_OF_CHAIN - 2
  {
    forall i, j | 0 <= i < j < |chain| ensures chain[i] != chain[j] {
      if chain[i] == chain[j] {
        SameTail(fat, chain, i, chain, j);
        assert false;
      }
    }
    Pigeonhole(chain, END_OF_CHAIN);
  }

  lemma Pigeonhole(s: seq<nat>, limit: nat)
    requires limit >= 2 && forall i :: 0 <= i < |s| ==> 2 <= s[i] < limit
    requires forall i, j :: 0 <= i < j < |s| ==> s[i] != s[j]
    ensures |s| <= limit - 2
    decreases limit
  {
    if |s| > 0 {
      assert s[0] < limit;
      if i :| 0 <= i < |s| && s[i] == limit - 1 {
        var t := s[..i] + s[i + 1..];
        assert forall k :: 0 <= k < |t| ==> t[k] == s[if k < i then k else k + 1];
        Pigeonhole(t, limit - 1);
      } else {
        Pigeonhole(s, limit - 1);
      }
    }
  }

  /** The clusters visited in the first `n` turns, ended or not. */
  predicate IsWalk(fat: seq<byte>, walk: seq<nat>) {
    && walk != []
    && (forall i :: 0 <= i < |walk| ==> IsData(walk[i]) && InTable(fat, walk[i]))
    && (forall i :: 0 <= i < |walk| - 1 ==> Successor12(fat, walk[i]) == walk[i + 1])
  }

  /** If the loop returns to a cluster it has been at, it never ends. */
  lemma CycleNeverEnds(fat: seq<byte>, walk: seq<nat>, i: nat, j: nat, chain: seq<nat>)
    requires IsWalk(fat, walk) && i < j < |walk| && walk[i] == walk[j]
    requires IsChain(fat, chain)
    ensures chain[0] != walk[0]
  {
    if chain[0] == walk[0] {
      WalkFollowsChain(fat, walk, chain, j);
      ChainBounded(fat, chain);
      assert false;
    }
  }

  lemma {:induction false} WalkFollowsChain(fat: seq<byte>, walk: seq<nat>, chain: seq<nat>, k: nat)
    requires IsWalk(fat, walk) && IsChain(fat, chain) && chain[0] == walk[0] && k < |walk|
    ensures k < |chain| && forall m :: 0 <= m <= k ==> walk[m] == chain[m]
    decreases k
  {
    if k > 0 {
      WalkFollowsChain(fat, walk, chain, k - 1);
      assert Successor12(fat, walk[k - 1]) == walk[k] < END_OF_CHAIN;
    }
  }

  // ------------------------------------------------------------------- reader

  datatype BootSector = BootSector(
    bytesPerSector: nat, sectorsPerCluster: nat, reservedSectors: nat,
    fatCount: nat, dirEntryCount: nat, sectorsPerFat: nat)

  function DirectoryStart(b: BootSector): nat {
    b.reservedSectors + b.fatCount * b.sectorsPerFat
  }

  function DirectorySectors(b: BootSector): nat
    requires b.bytesPerSector > 0
  {
    var size := DIRECTORY_ENTRY_SIZE * b.dirEntryCount;
    size / b.bytesPerSector + if size % b.bytesPerSector > 0 then 1 else 0
  }

  /** The first sector of a cluster, in 32-bit arithmetic. */
  function ClusterStart(b: BootSector, rootEnd: nat, cluster: nat): nat {
    (rootEnd + (cluster - 2) * b.sectorsPerCluster) % LIMIT32
  }

  /** The bytes of `count` sectors from `lba`, if the image has them all. */
  function Sectors(disk: seq<byte>, b: BootSector, lba: nat, count: nat): (r: Option<seq<byte>>)
    requires b.bytesPerSector > 0
    ensures r.Some? ==> |r.value| == count * b.bytesPerSector
  {
    var offset := lba * b.bytesPerSector % LIMIT32;
    if count == 0 then Some([])
    else if offset + count * b.bytesPerSector <= |disk| then
      Some(disk[offset..offset + count * b.bytesPerSector])
    else None
  }

  function Cluster(disk: seq<byte>, b: BootSector, rootEnd: nat, cluster: nat): Option<seq<byte>>
    requires b.bytesPerSector > 0
  {
    Sectors(disk, b, ClusterStart(b, rootEnd, cluster), b.sectorsPerCluster)
  }

  /** The file's clusters one after another, if all can be read. */
  function Contents(disk: seq<byte>, b: BootSector, rootEnd: nat, chain: seq<nat>): (r: Option<seq<byte>>)
    requires b.bytesPerSector > 0
    ensures r.Some? ==> |r.value| == |chain| * (b.sectorsPerCluster * b.bytesPerSector)
    decreases |chain|
  {
    if chain == [] then Some([])
    else
      var n := |chain| - 1;
      var front, last := Contents(disk, b, rootEnd, chain[..n]), Cluster(disk, b, rootEnd, chain[n]);
      Successor(n, b.sectorsPerCluster * b.bytesPerSector);
      if front.Some? && last.Some? then Some(front.value + last.value) else None
  }

  class Reader {
    const disk: seq<byte>
    const boot: BootSector
    var fat: seq<byte>
    var rootEnd: nat

    constructor (disk: seq<byte>, boot: BootSector)
      ensures this.disk == disk && this.boot == boot && fat == [] && rootEnd == 0
    {
      this.disk, this.boot, fat, rootEnd := disk, boot, [], 0;
    }

    method ReadSectors(lba: nat, count: nat) returns (data: Option<seq<byte>>)
      requires boot.bytesPerSector > 0
      ensures data == Sectors(disk, boot, lba, count)
    {
      var offset := lba * boot.bytesPerSector % LIMIT32;
      if count == 0 {
        return Some([]);
      }
      if offset + count * boot.bytesPerSector > |disk| {
        return None;
      }
      return Some(disk[offset..offset + count * boot.bytesPerSector]);
    }

    method ReadFat() returns (ok: bool)
      requires boot.bytesPerSector > 0
      modifies this`fat
      ensures ok <==> Sectors(disk, boot, boot.reservedSectors, boot.sectorsPerFat).Some?
      ensures ok ==> Sectors(disk, boot, boot.reservedSectors, boot.sectorsPerFat) == Some(fat)
    {
      var data := ReadSectors(boot.reservedSectors, boot.sectorsPerFat);
      if data.Some? {
        fat := data.value;
      }
      return data.Some?;
    }

    method ReadRootDirectory() returns (directory: Option<seq<byte>>)
      requires boot.bytesPerSector > 0
      modifies this`rootEnd
      ensures rootEnd == DirectoryStart(boot) + DirectorySectors(boot)
      ensures directory == Sectors(disk, boot, DirectoryStart(boot), DirectorySectors(boot))
    {
      var lba := boot.reservedSectors + boot.fatCount * boot.sectorsPerFat;
      var size := DIRECTORY_ENTRY_SIZE * boot.dirEntryCount;
      var sectors := size / boot.bytesPerSector;
      if size % boot.bytesPerSector > 0 {
        sectors := sectors + 1;
      }
      rootEnd := lba + sectors;
      directory := ReadSectors(lba, sectors);
    }

    /** Reads one cluster to where the output has got to. */
    method ReadCluster(cluster: nat, out: array<byte>, pos: nat) returns (ok: bool)
      requires boot.bytesPerSector > 0
      requires pos + boot.sectorsPerCluster * boot.bytesPerSector <= out.Length
      modifies out
      ensures ok <==> Cluster(disk, boot, rootEnd, cluster).Some?
      ensures ok ==> var data := Cluster(disk, boot, rootEnd, cluster).value;
        out[..] == old(out[..])[..pos] + data + old(out[..])[pos + |data|..]
    {
      var data := ReadSectors(ClusterStart(boot, rootEnd, cluster), boot.sectorsPerCluster);
      if data.None? {
        return false;
      }
      forall i | 0 <= i < |data.value| { out[pos + i] := data.value[i]; }
      return true;
    }

    /** The first `k` clusters of the chain are in the buffer, the rest of it is as before. */
    ghost predicate Loaded(chain: seq<nat>, k: nat, before: seq<byte>, now: seq<byte>)
      requires boot.bytesPerSector > 0
      reads this
    {
      && k <= |chain|
      && Contents(disk, boot, rootEnd, chain[..k]).Some?
      && var data := Contents(disk, boot, rootEnd, chain[..k]).value;
         |data| <= |before| && now == data + before[|data|..]
    }

    lemma LoadedSize(chain: seq<nat>, k: nat, before: seq<byte>, now: seq<byte>)
      requires boot.bytesPerSector > 0 && Loaded(chain, k, before, now)
      ensures |Contents(disk, boot, rootEnd, chain[..k]).value|
              == k * (boot.sectorsPerCluster * boot.bytesPerSector)
      ensures |before| == |now|
    {
    }

    lemma LoadedNext(chain: seq<nat>, k: nat, before: seq<byte>, now: seq<byte>, now': seq<byte>, data: seq<byte>)
      requires boot.bytesPerSector > 0 && k < |chain| && Loaded(chain, k, before, now)
      requires Cluster(disk, boot, rootEnd, chain[k]) == Some(data)
      requires var pos := |Contents(disk, boot, rootEnd, chain[..k]).value|;
        pos + |data| <= |now| && now' == now[..pos] + data + now[pos + |data|..]
      ensures Loaded(chain, k + 1, before, now')
    {
      assert chain[..k + 1][..k] == chain[..k];
    }

    lemma NothingLoaded(chain: seq<nat>, before: seq<byte>)
      requires boot.bytesPerSector > 0
      ensures Loaded(chain, 0, before, before)
    {
      assert chain[..0] == [];
    }

    lemma Unreadable(chain: seq<nat>, k: nat)
      requires boot.bytesPerSector > 0 && k < |chain|
      requires Cluster(disk, boot, rootEnd, chain[k]).None?
      ensures Contents(disk, boot, rootEnd, chain).None?
    {
      assert chain[..k + 1][..k] == chain[..k];
      NoContents(disk, boot, rootEnd, chain, k + 1);
    }

    lemma AllLoaded(chain: seq<nat>, before: seq<byte>, now: seq<byte>)
      requires boot.bytesPerSector > 0 && Loaded(chain, |chain|, before, now)
      ensures Contents(disk, boot, rootEnd, chain).Some?
      ensures var data := Contents(disk, boot, rootEnd, chain).value;
        |data| <= |before| && now == data + before[|data|..]
    {
      assert chain[..|chain|] == chain;
    }

    /** Follows the chain from `first`.  It terminates, succeeds if and only if
        every cluster of the chain is on the disk, and then has put the clusters'
        sectors, in chain order and nothing else, at the front of the buffer. */
    method ReadFile(first: nat, out: array<byte>, ghost chain: seq<nat>) returns (ok: bool)
      requires boot.bytesPerSector > 0
      requires IsChain(fat, chain) && chain[0] == first
      requires out.Length >= |chain| * (boot.sectorsPerCluster * boot.bytesPerSector)
      modifies out
      ensures ok <==> Contents(disk, boot, rootEnd, chain).Some?
      ensures ok ==>
        var data := Contents(disk, boot, rootEnd, chain).value;
        |data| <= out.Length && out[..] == data + old(out[..])[|data|..]
    {
      var size := boot.sectorsPerCluster * boot.bytesPerSector;
      var current, pos := first, 0;
      ghost var k := 0;
      ok := true;
      NothingLoaded(chain, out[..]);
      hide Loaded;
      hide Contents;
      hide Sectors;
      while true
        invariant k < |chain| && current == chain[k] && pos == k * size
        invariant Loaded(chain, k, old(out[..]), out[..])
        decreases |chain| - k
      {
        Successor(k, size);
        Multiply(k + 1, |chain|, size);
        ghost var now := out[..];
        ok := ReadCluster(current, out, pos);
        var next := Successor12(fat, current);
        if !ok {
          Unreadable(chain, k);
          return;
        }
        LoadedSize(chain, k, old(out[..]), now);
        LoadedNext(chain, k, old(out[..]), now, out[..], Cluster(disk, boot, rootEnd, current).value);
        pos := pos + size;
        k := k + 1;
        current := next;
        ChainStep(fat, chain, k);
        if current >= END_OF_CHAIN {
          AllLoaded(chain, old(out[..]), out[..]);
          return;
        }
      }
    }
  }

  lemma {:induction false} NoContents(disk: seq<byte>, b: BootSector, rootEnd: nat, chain: seq<nat>, k: nat)
    requires b.bytesPerSector > 0 && k <= |chain|
    requires Contents(disk, b, rootEnd, chain[..k]).None?
    ensures Contents(disk, b, rootEnd, chain).None?
    decreases |chain|
  {
    if k < |chain| {
      var n := |chain| - 1;
      assert chain[..n][..k] == chain[..k];
      NoContents(disk, b, rootEnd, chain[..n], k);
    } else {
      assert chain[..k] == chain;
    }
  }

  /** The size of the output buffer, FileSize + BytesPerSector - 1 in 32 bits. */
  function BufferSize(fileSize: nat, bytesPerSector: nat): nat
    requires bytesPerSector > 0
  {
    (fileSize + bytesPerSector - 1) % LIMIT32
  }

  /** What is read fits the buffer if and only if the sum does not wrap and the
      chain has no more sectors than the file needs. */
  lemma OutputFitsExactly(b: BootSector, chain: seq<nat>, fileSize: nat)
    requires 0 < b.bytesPerSector < LIMIT16 && fileSize < LIMIT32
    ensures var bps, sectors := b.bytesPerSector, |chain| * b.sectorsPerCluster;
      var needed := fileSize / bps + if fileSize % bps == 0 then 0 else 1;
      sectors * bps <= BufferSize(fileSize, bps) <==>
        sectors == 0 || (fileSize + bps - 1 < LIMIT32 && sectors <= needed)
  {
    var bps, sectors := b.bytesPerSector, |chain| * b.sectorsPerCluster;
    if fileSize + bps - 1 < LIMIT32 {
      SectorsNeeded(fileSize, bps, sectors);
    } else if sectors > 0 {
      Multiply(1, sectors, bps);
    }
  }

  lemma SectorsNeeded(fileSize: nat, bps: nat, sectors: nat)
    requires bps > 0
    ensures sectors * bps <= fileSize + bps - 1 <==>
      sectors <= fileSize / bps + if fileSize % bps == 0 then 0 else 1
  {
    var q, r := fileSize / bps, fileSize % bps;
    assert fileSize == q * bps + r;
    var needed := q + if r == 0 then 0 else 1;
    Successor(q, bps);
    Successor(needed, bps);
    if sectors <= needed { Multiply(sectors, needed, bps); } else { Multiply(needed + 1, sectors, bps); }
  }

  /** The largest file size gets a buffer of 510 bytes, too small for its first sector. */
  lemma BufferWraps(b: BootSector, cluster: nat)
    requires b.bytesPerSector == 512 && b.sectorsPerCluster == 1
    ensures BufferSize(0xFFFF_FFFF, b.bytesPerSector) == 510
    ensures |[cluster]| * b.sectorsPerCluster * b.bytesPerSector > BufferSize(0xFFFF_FFFF, b.bytesPerSector)
  {
  }
}
