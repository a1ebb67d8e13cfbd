/** `receive_complete_json_response`: fills a buffer from a socket until the
    scanner sees a complete object, the buffer is full, or the peer stops. */
module Response {
  import opened Bytes
  import opened JsonText
  import opened Scanner

  /** What one successful read of the Unix socket yields: at most one byte less
      than the size it is given, itself one less than its 1024-byte buffer. */
  type Chunk = s: seq<byte> | 0 < |s| <= 1022 witness [0]

  function Take(data: seq<byte>, n: nat): (r: seq<byte>)
    ensures r <= data && |r| == if |data| <= n then |data| else n
  {
    if |data| <= n then data else data[..n]
  }

  /** What the buffer holds after `k` chunks, with room for `room` bytes. */
  function Filled(chunks: seq<Chunk>, room: nat, k: nat): seq<byte>
    requires k <= |chunks|
  {
    Take(Concat(chunks[..k]), room)
  }

  /** The scan is over after `k` chunks: the fold over all bytes so far, however
      they were split, has completed, or there is no room for more. */
  predicate Enough(chunks: seq<Chunk>, room: nat, k: nat)
    requires k <= |chunks|
  {
    Scan(INITIAL, Filled(chunks, room, k)).done || |Concat(chunks[..k])| >= room
  }

  /** The number of reads the call makes: up to the first that is enough. */
  predicate StopsAfter(chunks: seq<Chunk>, room: nat, k: nat) {
    && k <= |chunks|
    && (forall j :: 0 <= j < k ==> !Enough(chunks, room, j))
    && (k < |chunks| ==> Enough(chunks, room, k))
  }

  /** The loop's position: `data` is in the buffer and nothing so far was enough. */
  ghost predicate Reading(chunks: seq<Chunk>, room: nat, k: nat, data: seq<byte>) {
    && k <= |chunks|
    && data == Filled(chunks, room, k)
    && (|data| == 0 <==> k == 0 || room == 0)
    && (forall j :: 0 <= j < k ==> !Enough(chunks, room, j))
  }

  lemma ReadingStarts(chunks: seq<Chunk>, room: nat)
    ensures Reading(chunks, room, 0, [])
  {
    assert chunks[..0] == [];
  }

  lemma ReadingStops(chunks: seq<Chunk>, room: nat, k: nat, data: seq<byte>)
    requires Reading(chunks, room, k, data)
    requires k == |chunks| || |data| >= room || Scan(INITIAL, data).done
    ensures StopsAfter(chunks, room, k) && data == Filled(chunks, room, k)
    ensures data == [] <==> k == 0 || room == 0
  {
  }

  lemma ReadingNext(chunks: seq<Chunk>, room: nat, k: nat, data: seq<byte>)
    requires Reading(chunks, room, k, data) && k < |chunks| && |data| < room
    requires !Scan(INITIAL, data).done
    ensures Reading(chunks, room, k + 1, data + Take(chunks[k], room - |data|))
  {
    assert !Enough(chunks, room, k);
    FilledGrows(chunks, room, k);
    assert Take(chunks[k], room - |data|) != [];
  }

  lemma FilledGrows(chunks: seq<Chunk>, room: nat, k: nat)
    requires k < |chunks| && |Concat(chunks[..k])| < room
    ensures Filled(chunks, room, k) == Concat(chunks[..k])
    ensures Filled(chunks, room, k + 1)
            == Filled(chunks, room, k) + Take(chunks[k], room - |Filled(chunks, room, k)|)
  {
    ReadsGrow(chunks, k);
    TakeOfSum(Concat(chunks[..k]), chunks[k], room);
  }

  lemma TakeOfSum(a: seq<byte>, b: seq<byte>, room: nat)
    requires |a| < room
    ensures Take(a + b, room) == a + Take(b, room - |a|)
  {
  }

  lemma ReadsGrow(chunks: seq<Chunk>, k: nat)
    requires k < |chunks|
    ensures Concat(chunks[..k + 1]) == Concat(chunks[..k]) + chunks[k]
  {
    assert chunks[..k + 1] == chunks[..k] + [chunks[k]];
    ConcatSnoc(chunks[..k], chunks[k]);
  }

  /** The copy of one read into the buffer, cut off at the end of the room. */
  method Store(buffer: array<byte>, total: nat, chunk: Chunk) returns (total': nat)
    requires total < buffer.Length - 1
    modifies buffer
    ensures total <= total' < buffer.Length
    ensures buffer[..total] == old(buffer[..total])
    ensures buffer[..total'] == old(buffer[..total]) + Take(chunk, buffer.Length - 1 - total)
  {
    var size := |chunk|;
    if total + size >= buffer.Length {
      size := buffer.Length - total - 1;
    }
    forall i | 0 <= i < size { buffer[total + i] := chunk[i]; }
    total' := total + size;
    assert buffer[..total] == old(buffer[..total]);
    assert buffer[total..total'] == chunk[..size];
    assert buffer[..total'] == buffer[..total] + buffer[total..total'];
  }

  /** The inner loop: scans the bytes from `from` on, stopping at completion. */
  method ScanNew(buffer: array<byte>, from: nat, total: nat, state: State) returns (state': State)
    requires from <= total <= buffer.Length
    requires state == Scan(INITIAL, buffer[..from]) && !state.done
    ensures state' == Scan(INITIAL, buffer[..total])
  {
    state' := state;
    var i := from;
    while i < total
      invariant from <= i <= total
      invariant state' == Scan(INITIAL, buffer[..i]) && !state'.done
    {
      assert buffer[..i + 1] == buffer[..i] + [buffer[i]];
      ScanConcat(INITIAL, buffer[..i], [buffer[i]]);
      One(state', buffer[i]);
      state' := Step(state', buffer[i]);
      if state'.done {
        assert buffer[..total] == buffer[..i + 1] + buffer[i + 1..total];
        ScanConcat(INITIAL, buffer[..i + 1], buffer[i + 1..total]);
        DoneStays(state', buffer[i + 1..total]);
        return;
      }
      i := i + 1;
    }
  }

  /** `chunks` are the successful reads the peer's stream allows and `last <= 0` is
      what the read after them returns.  The result is the number of bytes, or
      the failure of a first read; `used` tells how many reads were made. */
  method Receive(buffer: array<byte>, chunks: seq<Chunk>, last: int) returns (n: int, used: nat)
    requires last <= 0
    modifies buffer
    ensures buffer.Length == 0 ==> n == -1
    ensures buffer.Length > 0 ==>
      && StopsAfter(chunks, buffer.Length - 1, used)
      && n == (if used == 0 && buffer.Length > 1 then last else |Filled(chunks, buffer.Length - 1, used)|)
      && n < buffer.Length
    ensures buffer.Length > 0 && n >= 0 ==>
      buffer[..n] == Filled(chunks, buffer.Length - 1, used) && buffer[n] == 0
  {
    used := 0;
    if buffer.Length == 0 {
      return -1, 0;
    }
    forall i | 0 <= i < buffer.Length { buffer[i] := 0; }
    var total: nat := 0;
    var state := INITIAL;
    ghost var room := buffer.Length - 1;
    ReadingStarts(chunks, room);
    assert buffer[..0] == [];
    hide Reading;
    hide Filled;
    hide StopsAfter;
    hide Scan;
    while total < buffer.Length - 1
      invariant total <= room && used <= |chunks|
      invariant Reading(chunks, room, used, buffer[..total])
      invariant state == Scan(INITIAL, buffer[..total]) && !state.done
      invariant total == 0 ==> buffer[0] == 0
      decreases room - total
    {
      if used == |chunks| {
        ReadingStops(chunks, room, used, buffer[..total]);
        if total > 0 {
          break;
        }
        return last, used;
      }
      ReadingNext(chunks, room, used, buffer[..total]);
      var from := total;
      total := Store(buffer, from, chunks[used]);
      used := used + 1;
      state := ScanNew(buffer, from, total, state);
      if state.done {
        break;
      }
    }
    ghost var whole := buffer[..total];
    ReadingStops(chunks, room, used, whole);
    buffer[total] := 0;
    assert buffer[..total] == whole;
    return total, used;
  }

  lemma ReadsAddUp(chunks: seq<Chunk>, k: nat)
    requires k <= |chunks|
    ensures |Concat(chunks[..k])| >= k
    ensures Concat(chunks[..k]) <= Concat(chunks)
    ensures k < |chunks| ==> |Concat(chunks[..k])| < |Concat(chunks)|
    decreases |chunks| - k, k
  {
    ConcatSplit(chunks, k);
    if k < |chunks| {
      assert chunks[k..][0] == chunks[k];
    }
    if k > 0 {
      LongEnough(chunks[..k]);
    }
  }

  lemma {:induction false} LongEnough(chunks: seq<Chunk>)
    ensures |Concat(chunks)| >= |chunks|
    decreases |chunks|
  {
    if chunks != [] { LongEnough(chunks[1..]); }
  }

  /** A response that is one JSON object and fits the buffer is received whole,
      into whatever chunks the socket breaks it, and by the very read that brings
      its last byte, whatever white space follows. */
  lemma ObjectReceivedWhole(chunks: seq<Chunk>, room: nat, used: nat, lead: Ws, v: Value, trail: Ws)
    requires v.Object? && Concat(chunks) == PrintText(lead, v, trail) && |lead + Print(v)| <= room
    requires StopsAfter(chunks, room, used)
    ensures lead + Print(v) <= Filled(chunks, room, used) <= PrintText(lead, v, trail)
    ensures used > 0 && |Concat(chunks[..used - 1])| < |lead + Print(v)| <= |Concat(chunks[..used])|
  {
    var body := lead + Print(v);
    ObjectCompletes(lead, v);
    ReadsAddUp(chunks, used);
    assert used == |chunks| ==> chunks[..used] == chunks;
    if |Concat(chunks[..used])| < |body| {
      BeginsWith(Concat(chunks[..used]), body, room, trail);
      TooFew(chunks, room, used, body);
      assert false;
    }
    BeginsWith(Concat(chunks[..used]), body, room, trail);
    if used > 0 {
      assert !Enough(chunks, room, used - 1);
      ReadsAddUp(chunks, used - 1);
      NotYet(chunks, room, used - 1, body, trail);
    }
    assert chunks[..0] == [];
  }

  /** Reads that have not brought the whole object are not enough. */
  lemma TooFew(chunks: seq<Chunk>, room: nat, k: nat, body: seq<byte>)
    requires k <= |chunks| && CompletesAtEnd(body) && |body| <= room
    requires |Concat(chunks[..k])| < |body| && Concat(chunks[..k]) <= body
    ensures !Enough(chunks, room, k)
  {
    var part := Concat(chunks[..k]);
    assert part == body[..|body| - 1][..|part|];
    NotDoneBefore(body[..|body| - 1], |part|);
  }

  /** If the reads are not enough, the object is not all there. */
  lemma NotYet(chunks: seq<Chunk>, room: nat, k: nat, body: seq<byte>, trail: seq<byte>)
    requires k <= |chunks| && Scan(INITIAL, body).done && |body| <= room
    requires Concat(chunks[..k]) <= body + trail && !Enough(chunks, room, k)
    ensures |Concat(chunks[..k])| < |body|
  {
    if |Concat(chunks[..k])| >= |body| {
      BeginsWith(Concat(chunks[..k]), body, room, trail);
      DoneWith(body, Filled(chunks, room, k));
    }
  }

  lemma BeginsWith(part: seq<byte>, body: seq<byte>, room: nat, trail: seq<byte>)
    requires part <= body + trail && |body| <= room
    ensures if |part| < |body| then part <= body else body <= Take(part, room) <= body + trail
  {
    if |part| < |body| {
      assert part == body[..|part|];
    } else {
      assert body == part[..|body|];
      assert Take(part, room)[..|body|] == body;
    }
  }

  lemma DoneWith(body: seq<byte>, data: seq<byte>)
    requires Scan(INITIAL, body).done && body <= data
    ensures Scan(INITIAL, data).done
  {
    assert data == body + data[|body|..];
    ScanConcat(INITIAL, body, data[|body|..]);
    DoneStays(Scan(INITIAL, body), data[|body|..]);
  }

  /** How the bytes were split never matters to the scan: after any number of
      reads its state is that of one pass over all bytes received. */
  lemma ChunkingIndependent(chunks: seq<Chunk>, other: seq<Chunk>, s: State)
    requires Concat(chunks) == Concat(other)
    ensures ScanChunks(s, chunks) == ScanChunks(s, other) == Scan(s, Concat(chunks))
  {
    ChunksFold(s, chunks);
    ChunksFold(s, other);
  }

  /** The scan as the loop performs it, read after read. */
  function ScanChunks(s: State, chunks: seq<Chunk>): State
    decreases |chunks|
  {
    if chunks == [] then s else ScanChunks(Scan(s, chunks[0]), chunks[1..])
  }

  lemma {:induction false} ChunksFold(s: State, chunks: seq<Chunk>)
    ensures ScanChunks(s, chunks) == Scan(s, Concat(chunks))
    decreases |chunks|
  {
    if chunks != [] {
      ChunksFold(Scan(s, chunks[0]), chunks[1..]);
      ScanConcat(s, chunks[0], Concat(chunks[1..]));
    }
  }
}
