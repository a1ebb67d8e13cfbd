/** The boot loader's disk arithmetic and kernel loop, on 16-bit registers. */
module BootLoader {
  import opened Bytes
  import opened Options
  import opened Arithmetic
  import opened Fat

  const SECTOR: nat := 512
  const SEGMENT_SECTORS: nat := 128

  /** The geometry in the header of the image. */
  const HEADER := BootSector(512, 1, 1, 2, 0xE0, 9)

  // -------------------------------------------------------------- disk address

  /** What the BIOS is given: the sector in the low six bits of CX, the cylinder
      in CH and the top two bits of CL, the head in DH. */
  datatype Address = Address(cx: nat, dh: nat)

  function SectorOf(a: Address): nat {
    a.cx % 64
  }

  function CylinderOf(a: Address): nat {
    a.cx / 256 + a.cx / 64 % 4 * 256
  }

  /** The linear sector number an address stands for. */
  function Linear(a: Address, spt: nat, heads: nat): int {
    (CylinderOf(a) * heads + a.dh) * spt + SectorOf(a) - 1
  }

  predicate Geometry(spt: nat, heads: nat) {
    1 <= spt <= 63 && 1 <= heads < LIMIT16
  }

  function CylinderAt(lba: nat, spt: nat, heads: nat): nat
    requires spt > 0 && heads > 0
  {
    lba / spt / heads
  }

  function HeadAt(lba: nat, spt: nat, heads: nat): nat
    requires spt > 0 && heads > 0
  {
    lba / spt % heads
  }

  function SectorAt(lba: nat, spt: nat): nat
    requires spt > 0
  {
    lba % spt
  }

  /** The sector's cylinder fits ten bits and its head a byte.  With at most 256
      heads, as a BIOS reports, only the cylinder matters. */
  predicate InReach(lba: nat, spt: nat, heads: nat)
    requires Geometry(spt, heads)
  {
    CylinderAt(lba, spt, heads) < 1024 && HeadAt(lba, spt, heads) < 256
  }

  /** `lba_to_chs`.  The address stands for the sector asked for if and only if
      it is in reach, in spite of the way the cylinder is split. */
  method LbaToChs(lba: nat, spt: nat, heads: nat) returns (a: Address)
    requires lba < LIMIT16 && Geometry(spt, heads)
    ensures a == ChsOf(lba, spt, heads)
    ensures 1 <= SectorOf(a) <= spt && a.dh < heads
    ensures Linear(a, spt, heads) == lba <==> InReach(lba, spt, heads)
  {
    var ax := lba;
    var dx := ax % spt;
    ax := ax / spt;
    dx := dx + 1;
    var cx := dx;
    dx := ax % heads;
    ax := ax / heads;
    var dh := dx % 256;
    var ch := ax % 256;
    var ah := ax / 256 % 256 * 64 % 256;
    var cl := cx + ah; // the two occupy different bits
    a := Address(ch * 256 + cl, dh);
    RegistersHold(lba, spt, heads);
    AddressExact(lba, spt, heads);
    hide SectorOf;
    hide CylinderOf;
    hide Linear;
  }

  /** No intermediate value outgrows its register but the top of the cylinder. */
  lemma RegistersHold(lba: nat, spt: nat, heads: nat)
    requires lba < LIMIT16 && Geometry(spt, heads)
    ensures var c := lba / spt / heads;
      c / 256 % 256 * 64 % 256 == c / 256 % 4 * 64
  {
    QuotientSmall(lba, spt);
    QuotientSmall(lba / spt, heads);
    HighBits(lba / spt / heads);
  }

  function ChsOf(lba: nat, spt: nat, heads: nat): Address
    requires Geometry(spt, heads)
  {
    Packed(CylinderAt(lba, spt, heads), HeadAt(lba, spt, heads), SectorAt(lba, spt))
  }

  function Packed(cylinder: nat, head: nat, sector: nat): Address {
    Address(cylinder % 256 * 256 + (sector + 1) + cylinder / 256 % 4 * 64, head % 256)
  }

  lemma QuotientSmall(x: nat, d: nat)
    requires d > 0
    ensures x / d <= x
  {
    Quotient(x, d);
    Multiply(1, d, x / d);
  }

  lemma Decompose(x: nat, d: nat)
    requires d > 0
    ensures x == x / d * d + x % d && x % d < d && x / d <= x
  {
    Multiply(1, d, x / d);
  }

  /** Shifting AH left by six in a byte keeps two bits. */
  lemma HighBits(c: nat)
    requires c < LIMIT16
    ensures c / 256 % 256 * 64 % 256 == c / 256 % 4 * 64
  {
  }

  lemma SplitBits(s: nat, c: nat)
    requires 1 <= s <= 63
    ensures var cx := c % 256 * 256 + s + c / 256 % 4 * 64;
      cx % 64 == s && cx / 256 == c % 256 && cx / 64 % 4 == c / 256 % 4
    ensures c % 1024 == c % 256 + c / 256 % 4 * 256
  {
    var low, high, rest := c % 256, c / 256 % 4, c / 256 / 4;
    Pieces(low, high, s);
    TenBits(rest, high, low);
    assert c == 1024 * rest + (256 * high + low);
  }

  lemma TenBits(rest: nat, high: nat, low: nat)
    requires high < 4 && low < 256
    ensures (1024 * rest + (256 * high + low)) % 1024 == low + high * 256
  {
  }

  lemma Pieces(low: nat, high: nat, s: nat)
    requires low < 256 && high < 4 && 1 <= s <= 63
    ensures var cx := low * 256 + s + high * 64;
      cx % 64 == s && cx / 256 == low && cx / 64 % 4 == high
  {
    var cx := low * 256 + s + high * 64;
    assert cx / 64 == 4 * low + high;
  }

  /** Losing bits of the cylinder or of the head loses the sector. */
  lemma LostBitsMatter(c: nat, c': nat, h: nat, h': nat, s: nat, spt: nat, heads: nat)
    requires spt > 0 && heads > 0 && c' <= c && h' <= h
    ensures (c' * heads + h') * spt + s == (c * heads + h) * spt + s <==> c' == c && h' == h
  {
    var a, b := c' * heads + h', c * heads + h;
    Multiply(c', c, heads);
    if c' < c {
      Multiply(c' + 1, c, heads);
      Successor(c', heads);
    }
    if c' < c || h' < h {
      assert a < b;
      Multiply(a + 1, b, spt);
      Successor(a, spt);
    }
  }

  /** What unpacking finds in CX. */
  lemma FieldsOf(s: nat, c: nat, dh: nat)
    requires 1 <= s <= 63
    ensures var a := Address(c % 256 * 256 + s + c / 256 % 4 * 64, dh);
      SectorOf(a) == s && CylinderOf(a) == c % 1024
  {
    SplitBits(s, c);
  }

  function Combine(c: nat, h: nat, s: nat, spt: nat, heads: nat): nat {
    (c * heads + h) * spt + s
  }

  /** The packed address of cylinder, head and sector stands for them if and only
      if they fit their fields. */
  lemma PackedExact(c: nat, h: nat, s: nat, spt: nat, heads: nat)
    requires s < spt <= 63 && h < heads
    ensures var a := Packed(c, h, s);
      && SectorOf(a) == s + 1 && a.dh <= h
      && (Linear(a, spt, heads) == Combine(c, h, s, spt, heads) <==> c < 1024 && h < 256)
  {
    hide SectorOf;
    hide CylinderOf;
    FieldsOf(s + 1, c, h % 256);
    LostBitsMatter(c, c % 1024, h, h % 256, s, spt, heads);
  }

  lemma Rebuild(lba: nat, spt: nat, heads: nat)
    requires spt > 0 && heads > 0
    ensures Combine(CylinderAt(lba, spt, heads), HeadAt(lba, spt, heads), SectorAt(lba, spt), spt, heads) == lba
    ensures SectorAt(lba, spt) < spt && HeadAt(lba, spt, heads) < heads
  {
    Decompose(lba, spt);
    Decompose(lba / spt, heads);
  }

  lemma AddressExact(lba: nat, spt: nat, heads: nat)
    requires Geometry(spt, heads)
    ensures 1 <= SectorOf(ChsOf(lba, spt, heads)) <= spt && ChsOf(lba, spt, heads).dh < heads
    ensures Linear(ChsOf(lba, spt, heads), spt, heads) == lba <==> InReach(lba, spt, heads)
  {
    hide Packed;
    hide SectorOf;
    hide Linear;
    hide Combine;
    hide CylinderAt;
    hide HeadAt;
    hide SectorAt;
    Rebuild(lba, spt, heads);
    PackedExact(CylinderAt(lba, spt, heads), HeadAt(lba, spt, heads), SectorAt(lba, spt), spt, heads);
  }

  /** Different sectors within reach get different addresses. */
  lemma AddressesInjective(a: nat, b: nat, spt: nat, heads: nat)
    requires Geometry(spt, heads) && InReach(a, spt, heads) && InReach(b, spt, heads)
    requires ChsOf(a, spt, heads) == ChsOf(b, spt, heads)
    ensures a == b
  {
    AddressExact(a, spt, heads);
    AddressExact(b, spt, heads);
  }

  // --------------------------------------------------------------- chain step

  /** Multiplies by three, divides by two, and lets the remainder pick the half. */
  function NextCluster(fat: seq<byte>, cluster: nat): nat
    requires InTable(fat, cluster)
  {
    var product := cluster * 3;
    var word := Word(fat, product / 2);
    if product % 2 == 0 then word % 4096 else word / 16
  }

  /** The loader and the reader find the same successor for every cluster, and
      the hardcoded offset is the reader's address formula for this header. */
  lemma StepsAgree(fat: seq<byte>, cluster: nat)
    requires InTable(fat, cluster)
    ensures NextCluster(fat, cluster) == Successor12(fat, cluster)
    ensures DirectoryStart(HEADER) + DirectorySectors(HEADER) == 33
    ensures IsData(cluster) ==> ClusterStart(HEADER, 33, cluster) == (cluster + 31) % LIMIT16
  {
    SameHalf(fat, cluster);
    assert DirectoryStart(HEADER) == 19 && DirectorySectors(HEADER) == 14;
  }

  lemma Parity(n: nat)
    ensures n * 3 % 2 == n % 2
  {
    var q := n / 2;
    assert n * 3 == if n % 2 == 0 then 2 * (3 * q) else 2 * (3 * q + 1) + 1;
  }

  lemma WholeWord(w: nat)
    requires w < 65536
    ensures w / 16 % 4096 == w / 16
  {
  }

  lemma SameHalf(fat: seq<byte>, cluster: nat)
    requires InTable(fat, cluster)
    ensures NextCluster(fat, cluster) == Successor12(fat, cluster)
  {
    Parity(cluster);
    WholeWord(Word(fat, cluster * 3 / 2));
  }

  // -------------------------------------------------------------- kernel loop

  /** What the BIOS reads for an address, or nothing if the disk has no such sector. */
  function BiosRead(disk: seq<byte>, a: Address, spt: nat, heads: nat): (r: Option<seq<byte>>)
    ensures r.Some? ==> |r.value| == SECTOR
  {
    var lba := Linear(a, spt, heads);
    if 0 <= lba && (lba + 1) * SECTOR <= |disk| then Some(disk[lba * SECTOR..(lba + 1) * SECTOR]) else None
  }

  /** `disk_read` for one sector. */
  method DiskRead(disk: seq<byte>, lba: nat, spt: nat, heads: nat) returns (data: Option<seq<byte>>)
    requires lba < LIMIT16 && Geometry(spt, heads) && InReach(lba, spt, heads)
    ensures data == if (lba + 1) * SECTOR <= |disk| then Some(disk[lba * SECTOR..(lba + 1) * SECTOR]) else None
    ensures data.Some? ==> |data.value| == SECTOR
  {
    var a := LbaToChs(lba, spt, heads);
    data := BiosRead(disk, a, spt, heads);
  }

  lemma SameSector(disk: seq<byte>, cluster: nat)
    requires IsData(cluster)
    ensures Cluster(disk, HEADER, 33, cluster)
            == if (cluster + 32) * SECTOR <= |disk| then Some(disk[(cluster + 31) * SECTOR..(cluster + 32) * SECTOR]) else None
  {
    assert ClusterStart(HEADER, 33, cluster) == cluster + 31;
    assert (cluster + 31) * SECTOR % LIMIT32 == (cluster + 31) * SECTOR;
  }

  predicate Reaches(spt: nat, heads: nat, chain: seq<nat>) {
    Geometry(spt, heads) && forall i :: 0 <= i < |chain| ==> InReach(chain[i] + 31, spt, heads)
  }

  /** The last of the first `k` sectors loaded that lands in a slot: offsets wrap
      after 128 sectors. */
  function LastInSlot(k: nat, slot: nat): (j: nat)
    requires slot < SEGMENT_SECTORS && slot < k
    ensures j < k && j % SEGMENT_SECTORS == slot && k <= j + SEGMENT_SECTORS
  {
    (k - 1 - slot) / SEGMENT_SECTORS * SEGMENT_SECTORS + slot
  }

  /** Slot by slot, memory holds the last cluster loaded there. */
  ghost predicate Holds(memory: seq<byte>, disk: seq<byte>, chain: seq<nat>, k: nat)
    requires k <= |chain| && |memory| == LIMIT16
  {
    forall slot: nat :: slot < SEGMENT_SECTORS && slot < k ==>
      Cluster(disk, HEADER, 33, chain[LastInSlot(k, slot)])
        == Some(memory[slot * SECTOR..(slot + 1) * SECTOR])
  }

  lemma LastMovesOn(k: nat, slot: nat)
    requires slot < SEGMENT_SECTORS && slot <= k
    ensures slot == k % SEGMENT_SECTORS ==> LastInSlot(k + 1, slot) == k
    ensures slot != k % SEGMENT_SECTORS ==> slot < k && LastInSlot(k + 1, slot) == LastInSlot(k, slot)
  {
  }

  lemma HoldsNext(memory: seq<byte>, memory': seq<byte>, disk: seq<byte>, chain: seq<nat>, k: nat)
    requires k < |chain| && |memory| == |memory'| == LIMIT16 && Holds(memory, disk, chain, k)
    requires Cluster(disk, HEADER, 33, chain[k]).Some?
    requires var pos := k % SEGMENT_SECTORS * SECTOR;
      memory' == memory[..pos] + Cluster(disk, HEADER, 33, chain[k]).value + memory[pos + SECTOR..]
    ensures Holds(memory', disk, chain, k + 1)
  {
    var here := k % SEGMENT_SECTORS;
    var data := Cluster(disk, HEADER, 33, chain[k]).value;
    forall slot: nat | slot < SEGMENT_SECTORS && slot < k + 1
      ensures Cluster(disk, HEADER, 33, chain[LastInSlot(k + 1, slot)])
              == Some(memory'[slot * SECTOR..(slot + 1) * SECTOR])
    {
      LastMovesOn(k, slot);
      if slot == here {
        assert memory'[slot * SECTOR..(slot + 1) * SECTOR] == data;
      } else {
        assert memory'[slot * SECTOR..(slot + 1) * SECTOR] == memory[slot * SECTOR..(slot + 1) * SECTOR];
      }
    }
  }

  /** One turn's read: the cluster's only sector, to ES:BX. */
  method LoadSector(disk: seq<byte>, cluster: nat, spt: nat, heads: nat, memory: array<byte>, bx: nat)
    returns (ok: bool)
    requires IsData(cluster) && Geometry(spt, heads) && InReach(cluster + 31, spt, heads)
    requires bx + SECTOR <= memory.Length
    modifies memory
    ensures ok <==> Cluster(disk, HEADER, 33, cluster).Some?
    ensures ok ==> memory[..] == old(memory[..])[..bx] + Cluster(disk, HEADER, 33, cluster).value
                                 + old(memory[..])[bx + SECTOR..]
  {
    var data := DiskRead(disk, (cluster + 31) % LIMIT16, spt, heads);
    SameSector(disk, cluster);
    if data.None? {
      return false;
    }
    forall i | 0 <= i < SECTOR { memory[bx + i] := data.value[i]; }
    return true;
  }

  lemma OffsetMovesOn(k: nat)
    ensures (k % SEGMENT_SECTORS * SECTOR + SECTOR) % LIMIT16 == (k + 1) % SEGMENT_SECTORS * SECTOR
  {
  }

  /** `.load_kernel_loop`: follows the chain, reading each cluster's sector to
      ES:BX and moving BX on, which wraps within the segment. */
  method LoadKernel(disk: seq<byte>, fat: seq<byte>, first: nat, spt: nat, heads: nat,
                    memory: array<byte>, ghost chain: seq<nat>) returns (ok: bool)
    requires IsChain(fat, chain) && chain[0] == first && Reaches(spt, heads, chain)
    requires memory.Length == LIMIT16
    modifies memory
    ensures ok <==> forall i :: 0 <= i < |chain| ==> Cluster(disk, HEADER, 33, chain[i]).Some?
    ensures ok ==> Holds(memory[..], disk, chain, |chain|)
  {
    var cluster, bx := first, 0;
    ghost var k := 0;
    ok := true;
    while true
      invariant k < |chain| && cluster == chain[k] && bx == k % SEGMENT_SECTORS * SECTOR
      invariant Holds(memory[..], disk, chain, k)
      invariant forall i :: 0 <= i < k ==> Cluster(disk, HEADER, 33, chain[i]).Some?
      decreases |chain| - k
    {
      ghost var before := memory[..];
      ok := LoadSector(disk, cluster, spt, heads, memory, bx);
      if !ok {
        return;
      }
      HoldsNext(before, memory[..], disk, chain, k);
      OffsetMovesOn(k);
      bx := (bx + SECTOR) % LIMIT16;
      StepsAgree(fat, cluster);
      var next := NextCluster(fat, cluster);
      k := k + 1;
      ChainStep(fat, chain, k);
      if next >= END_OF_CHAIN {
        return;
      }
      cluster := next;
    }
  }

  /** A kernel of at most 128 sectors is loaded exactly as the reader reads it. */
  lemma {:induction false} SmallKernelIsFile(memory: seq<byte>, disk: seq<byte>, chain: seq<nat>, k: nat)
    requires |memory| == LIMIT16 && k <= |chain| <= SEGMENT_SECTORS
    requires Holds(memory, disk, chain, |chain|)
    ensures Contents(disk, HEADER, 33, chain[..k]) == Some(memory[..k * SECTOR])
    decreases k
  {
    if k > 0 {
      SmallKernelIsFile(memory, disk, chain, k - 1);
      assert LastInSlot(|chain|, k - 1) == k - 1;
      assert chain[..k][..k - 1] == chain[..k - 1];
      assert memory[..k * SECTOR] == memory[..(k - 1) * SECTOR] + memory[(k - 1) * SECTOR..k * SECTOR];
    }
  }

  /** A longer kernel loses its beginning: memory starts with the last sector
      that the wrapping offset put there, which is not the first of the chain. */
  lemma LargeKernelWraps(memory: seq<byte>, disk: seq<byte>, chain: seq<nat>)
    requires |memory| == LIMIT16 && |chain| > SEGMENT_SECTORS
    requires Holds(memory, disk, chain, |chain|)
    ensures var last := LastInSlot(|chain|, 0);
      && last >= SEGMENT_SECTORS && last % SEGMENT_SECTORS == 0
      && Cluster(disk, HEADER, 33, chain[last]) == Some(memory[..SECTOR])
  {
    assert memory[0 * SECTOR..1 * SECTOR] == memory[..SECTOR];
  }
}
