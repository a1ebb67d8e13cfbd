/** Whole connections: what is sent on one side and accepted on the other. */
module Sessions {
  import opened Bytes
  import opened Options
  import opened Frames
  import opened Framing

  // ------------------------------------------------------------------ sending

  /** The sending end.  A send gets everything through or fails after some part;
      `faults` says which, one entry a call. */
  /** Every send between two states of `faults` got through. */
  predicate Through(before: seq<Option<nat>>, after: seq<Option<nat>>) {
    && |after| <= |before| && after == before[|before| - |after|..]
    && forall k :: 0 <= k < |before| - |after| ==> before[k].None?
  }

  /** The last one failed, and only that. */
  ghost predicate Broke(before: seq<Option<nat>>, after: seq<Option<nat>>) {
    exists mid: seq<Option<nat>> :: Through(before, mid) && mid != [] && mid[0].Some? && after == mid[1..]
  }

  lemma ThroughThen(a: seq<Option<nat>>, b: seq<Option<nat>>, c: seq<Option<nat>>)
    requires Through(a, b)
    ensures Through(b, c) ==> Through(a, c)
    ensures Broke(b, c) ==> Broke(a, c)
    ensures a == [] ==> !Broke(b, c)
  {
    if Through(b, c) { ThroughBoth(a, b, c); }
    if Broke(b, c) {
      var mid: seq<Option<nat>> :| Through(b, mid) && mid != [] && mid[0].Some? && c == mid[1..];
      ThroughBoth(a, b, mid);
    }
  }

  lemma NothingFailed(a: seq<Option<nat>>)
    ensures Through(a, a)
  {
  }

  lemma ThroughBoth(a: seq<Option<nat>>, b: seq<Option<nat>>, c: seq<Option<nat>>)
    requires Through(a, b) && Through(b, c)
    ensures Through(a, c)
  {
    var i := |a| - |b|;
    assert forall k :: i <= k < |a| ==> a[k] == b[k - i];
  }

  class Outgoing {
    var sent: seq<byte>
    var faults: seq<Option<nat>>

    constructor (faults: seq<Option<nat>>)
      ensures sent == [] && this.faults == faults
    {
      sent, this.faults := [], faults;
    }

    method Send(data: seq<byte>) returns (ok: bool)
      modifies this
      ensures ok ==> sent == old(sent) + data
      ensures old(sent) <= sent <= old(sent) + data
      ensures if ok then Through(old(faults), faults) else Broke(old(faults), faults)
    {
      assert Through(faults, faults);
      var fault := None;
      if faults != [] {
        fault := faults[0];
        faults := faults[1..];
      }
      match fault {
        case None =>
          sent := sent + data;
          return true;
        case Some(part) =>
          sent := sent + data[..if part < |data| then part else |data|];
          return false;
      }
    }
  }

  /** `send_json`. */
  method SendJson(o: Outgoing, meta: seq<byte>) returns (ok: bool)
    requires |meta| < LIMIT32
    modifies o
    ensures ok ==> o.sent == old(o.sent) + Frame(meta)
    ensures old(o.sent) <= o.sent <= old(o.sent) + Frame(meta)
    ensures if ok then Through(old(o.faults), o.faults) else Broke(old(o.faults), o.faults)
  {
    hide Through;
    hide Broke;
    ok := o.Send(ToNetwork(|meta|));
    PrefixOfPart(old(o.sent), o.sent, ToNetwork(|meta|), meta);
    if !ok {
      return;
    }
    ghost var mid, rest := o.sent, o.faults;
    ok := o.Send(meta);
    assert old(o.sent) + Frame(meta) == mid + meta;
    ThroughThen(old(o.faults), rest, o.faults);
  }

  lemma PrefixOfPart(before: seq<byte>, now: seq<byte>, a: seq<byte>, b: seq<byte>)
    requires before <= now <= before + a
    ensures now <= before + (a + b)
  {
    assert before + (a + b) == before + a + b;
  }

  /** A file, in blocks of at most 4096 bytes. */
  method SendBlocks(o: Outgoing, data: seq<byte>) returns (ok: bool)
    modifies o
    ensures ok ==> o.sent == old(o.sent) + data
    ensures old(o.sent) <= o.sent <= old(o.sent) + data
    ensures if ok then Through(old(o.faults), o.faults) else Broke(old(o.faults), o.faults)
  {
    hide Through;
    hide Broke;
    ghost var start := o.sent;
    var total := 0;
    NothingFailed(o.faults);
    while total < |data|
      invariant total <= |data| && o.sent == start + data[..total]
      invariant Through(old(o.faults), o.faults)
    {
      var size := 4096;
      if total + size > |data| {
        size := |data| - total;
      }
      ghost var sofar, block, rest := o.sent, data[total..total + size], data[total + size..];
      Blocks(start, data, total, size);
      ghost var left := o.faults;
      ok := o.Send(data[total..total + size]);
      ThroughThen(old(o.faults), left, o.faults);
      PrefixOfPart(sofar, o.sent, block, rest);
      if !ok {
        return false;
      }
      total := total + size;
    }
    return true;
  }

  lemma Blocks(start: seq<byte>, data: seq<byte>, i: nat, n: nat)
    requires i + n <= |data|
    ensures start + data[..i + n] == start + data[..i] + data[i..i + n]
    ensures start + data == start + data[..i] + (data[i..i + n] + data[i + n..])
  {
    assert data[..i + n] == data[..i] + data[i..i + n];
    assert data == data[..i + n] + data[i + n..];
  }

  /** `send_file_to_employee`, `send_initial_config` and `send_result_to_employer`:
      metadata, size, then the file in blocks.  The file may fail to open. */
  method SendMessage(o: Outgoing, m: Message, opens: bool) returns (ok: bool)
    requires Fits(m)
    modifies o
    ensures ok ==> o.sent == old(o.sent) + Encode(m)
    ensures old(o.sent) <= o.sent <= old(o.sent) + Encode(m)
    ensures ok ==> opens && Through(old(o.faults), o.faults)
    ensures !ok && opens ==> Broke(old(o.faults), o.faults)
  {
    hide Through;
    hide Broke;
    ghost var before, size := o.sent, ToNetwork(|m.payload|);
    assert before + Encode(m) == before + Frame(m.meta) + (size + m.payload);
    ok := SendJson(o, m.meta);
    PrefixOfPart(before, o.sent, Frame(m.meta), size + m.payload);
    if !ok || !opens {
      return false;
    }
    ghost var mid, rest := o.sent, o.faults;
    ok := o.Send(ToNetwork(|m.payload|));
    PrefixOfPart(mid, o.sent, size, m.payload);
    ThroughThen(old(o.faults), rest, o.faults);
    if !ok {
      return false;
    }
    assert mid + (size + m.payload) == o.sent + m.payload;
    rest := o.faults;
    ok := SendBlocks(o, m.payload);
    ThroughThen(old(o.faults), rest, o.faults);
  }

  /** A connection is used for one message after another until a send fails; it
      is then closed.  Whatever happens, its bytes begin the encoding of the
      messages, and cover those that were reported as sent; all are, unless a file
      does not open or a send fails. */
  method SendSession(o: Outgoing, ms: seq<Message>, opens: nat -> bool) returns (count: nat)
    requires o.sent == [] && AllFit(ms)
    modifies o
    ensures count <= |ms| && o.sent <= EncodeAll(ms)
    ensures EncodeAll(ms[..count]) <= o.sent
    ensures count == |ms| ==> o.sent == EncodeAll(ms)
    ensures count < |ms| ==> !opens(count) || Broke(old(o.faults), o.faults)
    ensures old(o.faults) == [] && (forall k :: opens(k)) ==> count == |ms| && o.sent == EncodeAll(ms)
  {
    hide Through;
    hide Broke;
    NothingFailed(o.faults);
    count := 0;
    while count < |ms|
      invariant count <= |ms| && o.sent == EncodeAll(ms[..count])
      invariant EncodeAll(ms[..count]) <= EncodeAll(ms)
      invariant Through(old(o.faults), o.faults)
    {
      EncodeAllSnoc(ms, count);
      ghost var left := o.faults;
      var ok := SendMessage(o, ms[count], opens(count));
      ThroughThen(old(o.faults), left, o.faults);
      if !ok {
        return;
      }
      count := count + 1;
    }
    assert ms[..count] == ms;
  }

  // ---------------------------------------------------------------- receiving

  /** The receiver has taken the first `k` messages and nothing else. */
  ghost predicate AtFrame(s: Socket, ms: seq<Message>, k: nat)
    requires AllFit(ms)
    reads s
  {
    k <= |ms| && s.pos == |EncodeAll(ms[..k])| && s.stream <= EncodeAll(ms)
  }

  /** The stream breaks off inside message `k`. */
  ghost predicate CutShort(s: Socket, ms: seq<Message>, k: nat)
    requires AllFit(ms)
    reads s
  {
    k < |ms| && |s.stream| < |EncodeAll(ms[..k + 1])|
  }

  /** Of the first `n` bytes of message `k`, some have arrived but not all. */
  ghost predicate Partial(s: Socket, ms: seq<Message>, k: nat, n: nat)
    requires AllFit(ms) && k <= |ms|
    reads s
  {
    k < |ms| && |EncodeAll(ms[..k])| < s.arrived < |EncodeAll(ms[..k])| + n
  }

  datatype Next = Accepted(message: Message) | Unusable | Closed

  lemma FrontMessage(s: Socket, ms: seq<Message>, k: nat)
    requires s.Valid() && AllFit(ms) && AtFrame(s, ms, k)
    ensures k == |ms| ==> s.pos == |s.stream|
    ensures k < |ms| ==>
      && Begins(s.stream, s.pos, ms[k])
      && EncodeAll(ms[..k + 1]) == EncodeAll(ms[..k]) + Encode(ms[k])
      && (forall data :: Carries(s.stream, s.pos, data) ==> data == ms[k].meta)
      && (|s.stream| == |EncodeAll(ms)| ==> Carries(s.stream, s.pos, ms[k].meta)
                                            && s.pos + |Encode(ms[k])| <= |s.stream|)
  {
    if k < |ms| {
      NextBegins(s.stream, ms, k);
      BeginsFrames(s.stream, s.pos, ms[k]);
      EncodeAllSnoc(ms, k);
    } else {
      assert ms[..k] == ms;
    }
  }

  lemma NothingSent(ms: seq<Message>)
    requires AllFit(ms)
    ensures ms[..0] == [] && EncodeAll(ms[..0]) == []
  {
  }

  /** The two ends together: a stream that covers the first `count` messages, as
      that of a sender who reported `count` as sent does, breaks off inside a
      message only after those. */
  lemma BreaksOffAfterReported(s: Socket, ms: seq<Message>, count: nat, k: nat)
    requires AllFit(ms) && count <= |ms| && EncodeAll(ms[..count]) <= s.stream
    requires CutShort(s, ms, k)
    ensures k >= count
  {
    if k < count {
      EncodeAllGrows(ms, k + 1, count);
    }
  }

  lemma {:induction false} EncodeAllGrows(ms: seq<Message>, i: nat, j: nat)
    requires AllFit(ms) && i <= j <= |ms|
    ensures |EncodeAll(ms[..i])| <= |EncodeAll(ms[..j])|
    decreases j
  {
    if i < j {
      EncodeAllGrows(ms, i, j - 1);
      EncodeAllSnoc(ms, j - 1);
    }
  }

  /** One readable event of `handle_persistent_connection`: peek, look at the
      message type, receive. */
  method ReceiveNext(s: Socket, parse: seq<byte> -> Parsed, ghost ms: seq<Message>, ghost k: nat)
    returns (next: Next)
    requires s.Valid() && parse([]).Malformed? && AllTasks(parse, ms)
    requires s.pos < |s.stream| ==> AtFrame(s, ms, k)
    modifies s`pos, s`arrived, s`arrivals
    ensures s.Valid() && old(s.pos) <= s.pos && old(s.arrived) <= s.arrived
    ensures next.Accepted? ==> k < |ms| && next.message == ms[k] && AtFrame(s, ms, k + 1) && old(s.pos) < s.pos
    ensures next.Unusable? ==> s.pos == |s.stream| && old(s.pos) < s.pos
    ensures old(AtFrame(s, ms, k)) && k < |ms| && old(s.pos) + |Encode(ms[k])| <= |s.stream| ==>
      || next.Accepted?
      || (next.Closed? && s.pos == old(s.pos) && s.pos < s.arrived < s.pos + 4 + |ms[k].meta|)
    ensures old(s.arrived) == |s.stream| == |EncodeAll(ms)| && old(AtFrame(s, ms, k)) && k < |ms| ==>
      next.Accepted?
  {
    ghost var m := if k < |ms| then ms[k] else Message([], []);
    if AtFrame(s, ms, k) {
      FrontMessage(s, ms, k);
    }
    var json := RecvJsonPeek(s, parse, m.meta);
    if json.None? {
      return Closed;
    }
    assert k < |ms| && json.value == m.meta;
    var kind := parse(json.value).kind;
    if kind == NoKind {
      return Closed;
    }
    if kind == InitialConfig || kind == DataChunk {
      var task := ReceiveTask(s, parse, m);
      if task.Some? {
        return Accepted(task.value);
      }
      return if kind == InitialConfig then Unusable else Closed;
    }
    var unknown := RecvJson(s, parse, json.value);
    return Unusable;
  }

  /** `handle_persistent_connection`, as far as it receives.  `ms` are the
      messages the employer set out to send on this connection.  Wherever the
      network cuts the reads, and wherever the stream breaks off, the accepted
      messages are the first ones sent, each ending at a frame boundary.  It stops
      only when all are accepted, when the stream breaks off inside the next one,
      or when the next one's metadata had arrived in part. */
  method EmployeeSession(s: Socket, parse: seq<byte> -> Parsed, ghost ms: seq<Message>)
    returns (accepted: seq<Message>, ends: seq<nat>)
    requires s.Valid() && s.pos == 0 && parse([]).Malformed? && AllTasks(parse, ms)
    requires s.stream <= EncodeAll(ms)
    modifies s`pos, s`arrived, s`arrivals
    ensures accepted <= ms
    ensures |ends| == |accepted| && forall k :: 0 <= k < |ends| ==> ends[k] == |EncodeAll(ms[..k + 1])|
    ensures accepted == ms || CutShort(s, ms, |accepted|)
            || Partial(s, ms, |accepted|, 4 + |ms[|accepted|].meta|)
    ensures old(s.arrived) == |s.stream| == |EncodeAll(ms)| ==> accepted == ms
  {
    hide Encode;
    hide EncodeAll;
    hide Begins;
    hide Carries;
    accepted, ends := [], [];
    ghost var whole := s.arrived == |s.stream| == |EncodeAll(ms)|;
    NothingSent(ms);
    while true
      invariant s.Valid() && accepted <= ms && |ends| == |accepted|
      invariant forall k :: 0 <= k < |ends| ==> ends[k] == |EncodeAll(ms[..k + 1])|
      invariant s.pos < |s.stream| || whole ==> AtFrame(s, ms, |accepted|)
      invariant AtFrame(s, ms, |accepted|) || CutShort(s, ms, |accepted|)
      invariant whole ==> s.arrived == |s.stream|
      decreases |s.stream| - s.pos
    {
      ghost var k := |accepted|;
      if AtFrame(s, ms, k) {
        FrontMessage(s, ms, k);
      }
      var next := ReceiveNext(s, parse, ms, k);
      match next {
        case Accepted(m) =>
          assert ms[..k + 1] == accepted + [m];
          accepted, ends := accepted + [m], ends + [s.pos];
        case Unusable =>
          assert !whole;
        case Closed =>
          return;
      }
    }
  }

  /** Takes a sized payload off the stream, saving it or throwing it away. */
  method TakePayload(s: Socket, canOpen: bool) returns (ok: bool, saved: Option<seq<byte>>)
    requires s.Valid()
    modifies s`pos, s`arrived, s`arrivals
    ensures s.Valid() && old(s.pos) <= s.pos && old(s.arrived) <= s.arrived
    ensures old(s.pos) + 4 > |s.stream| ==> !ok
    ensures old(s.pos) + 4 <= |s.stream| ==>
      var size := FromNetwork(s.stream[old(s.pos)..old(s.pos) + 4]);
      var end := old(s.pos) + 4 + size;
      && s.pos == (if end <= |s.stream| then end else |s.stream|)
      && (ok <==> !canOpen || end <= |s.stream|)
      && saved == if canOpen && ok then Some(s.stream[old(s.pos) + 4..end]) else None
    ensures !ok ==> saved == None
  {
    var header := s.RecvAll(4);
    if |header| != 4 {
      return false, None;
    }
    var size := FromNetwork(header);
    if !canOpen {
      var discarded := s.RecvLoop(size, 1024);
      return true, None;
    }
    var payload := s.RecvLoop(size, 4096);
    if |payload| < size {
      return false, None;
    }
    return true, Some(payload);
  }

  /** `receive_result_from_employee` up to the tables: saves the result, or throws
      it away when its file cannot be opened.  `ok` is a zero return. */
  method ReceiveResult(s: Socket, parse: seq<byte> -> Parsed, canOpen: bool, ghost m: Message)
    returns (ok: bool, saved: Option<Message>)
    requires s.Valid()
    modifies s`pos, s`arrived, s`arrivals
    ensures s.Valid() && old(s.arrived) <= s.arrived
    ensures old(s.pos) <= s.pos && (ok ==> old(s.pos) < s.pos)
    ensures saved.Some? ==> ok && canOpen
    ensures
      && IsResult(parse, m) && Begins(s.stream, old(s.pos), m)
      && |s.stream| - old(s.pos) >= |Encode(m)|
      ==> ok || old(s.pos) < s.pos == s.arrived < old(s.pos) + 4
    ensures IsResult(parse, m) && Begins(s.stream, old(s.pos), m) && ok ==>
      if |s.stream| - old(s.pos) >= |Encode(m)| then
        s.pos == old(s.pos) + |Encode(m)| && saved == if canOpen then Some(m) else None
      else
        s.pos == |s.stream| && saved == None
  {
    hide Begins;
    hide Encode;
    hide Carries;
    hide FromNetwork;
    hide Frame;
    ghost var start := s.pos;
    ghost var told := IsResult(parse, m) && Begins(s.stream, start, m);
    if told {
      BeginsFrames(s.stream, start, m);
      PayloadAt(s.stream, start, m);
    }
    var json := RecvJson(s, parse, m.meta);
    if json.None? {
      return false, None;
    }
    assert told ==> json.value == m.meta;
    var meta := parse(json.value);
    if meta.kind != TaskResult || !meta.complete {
      return true, None;
    }
    var payload;
    ok, payload := TakePayload(s, canOpen);
    saved := if payload.Some? then Some(Message(json.value, payload.value)) else None;
  }

  /** The messages whose file could be opened. */
  function Opened(ms: seq<Message>, opens: nat -> bool, k: nat): seq<Message>
    requires k <= |ms|
  {
    if k == 0 then [] else Opened(ms, opens, k - 1) + if opens(k - 1) then [ms[k - 1]] else []
  }

  /** How many of the first `i` files open. */
  function Rank(opens: nat -> bool, i: nat): nat {
    if i == 0 then 0 else Rank(opens, i - 1) + if opens(i - 1) then 1 else 0
  }

  /** Just those are among them, in the order of the messages. */
  lemma {:induction false} OpenedExactly(ms: seq<Message>, opens: nat -> bool, k: nat, i: nat)
    requires k <= |ms| && i < k
    ensures |Opened(ms, opens, k)| == Rank(opens, k)
    ensures opens(i) ==> Rank(opens, i) < Rank(opens, k) && Opened(ms, opens, k)[Rank(opens, i)] == ms[i]
    decreases k
  {
    if i < k - 1 {
      OpenedExactly(ms, opens, k - 1, i);
    } else if k > 1 {
      OpenedExactly(ms, opens, k - 1, k - 2);
    }
  }

  /** The receiver stands at result `k`, or at the end of a stream that breaks off inside it. */
  ghost predicate AtResult(s: Socket, ms: seq<Message>, k: nat)
    requires AllFit(ms)
    reads s
  {
    && k <= |ms| && |EncodeAll(ms[..k])| <= s.pos
    && (AtFrame(s, ms, k) || (s.pos == |s.stream| && CutShort(s, ms, k)))
  }

  /** One call for result `k`, if there is one: it is taken as a whole and the
      next one is looked for behind it, or that was the last call to succeed. */
  method NextResult(s: Socket, parse: seq<byte> -> Parsed, canOpen: bool, ghost ms: seq<Message>, ghost k: nat)
    returns (ok: bool, saved: Option<Message>, ghost next: nat)
    requires s.Valid() && AllResults(parse, ms) && AtResult(s, ms, k)
    modifies s`pos, s`arrived, s`arrivals
    ensures s.Valid() && old(s.arrived) <= s.arrived && old(s.pos) <= s.pos
    ensures ok ==> old(s.pos) < s.pos && AtResult(s, ms, next) && next <= k + 1
    ensures ok && next != k + 1 ==> s.pos == |s.stream|
    ensures next == k || (ok && next == k + 1 <= |ms|)
    ensures saved == if next == k + 1 && canOpen then Some(ms[k]) else None
    ensures |EncodeAll(ms[..next])| <= s.pos
    ensures !ok ==> k == |ms| || CutShort(s, ms, k) || Partial(s, ms, k, 4)
  {
    hide Begins;
    hide Encode;
    hide Carries;
    hide EncodeAll;
    ghost var m := if k < |ms| then ms[k] else Message([], []);
    if AtFrame(s, ms, k) {
      FrontMessage(s, ms, k);
    }
    ok, saved := ReceiveResult(s, parse, canOpen, m);
    next := if ok && |EncodeAll(ms[..k])| + |Encode(m)| <= s.pos then k + 1 else k;
  }

  lemma FirstResult(s: Socket, ms: seq<Message>)
    requires AllFit(ms) && s.pos == 0 && s.stream <= EncodeAll(ms)
    ensures AtResult(s, ms, 0)
  {
    NothingSent(ms);
  }

  lemma NoneMissing(s: Socket, ms: seq<Message>, k: nat)
    requires s.Valid() && AllFit(ms) && s.arrived == |s.stream| == |EncodeAll(ms)|
    ensures !CutShort(s, ms, k)
    ensures k < |ms| ==> !Partial(s, ms, k, 4)
  {
    if k < |ms| {
      EncodeAllSnoc(ms, k);
    }
  }

  /** All the results of one connection.  Whether results are saved or thrown
      away makes no difference to where the next one is looked for: exactly the
      first `handled` results are taken off the stream, and of them exactly
      those whose file opened are saved.  It stops only when all are handled, when
      the stream breaks off inside the next one, or when the next one's length
      field had arrived in part. */
  method ResultSession(s: Socket, parse: seq<byte> -> Parsed, opens: nat -> bool, ghost ms: seq<Message>)
    returns (saved: seq<Message>, ghost handled: nat)
    requires s.Valid() && s.pos == 0 && AllResults(parse, ms)
    requires s.stream <= EncodeAll(ms)
    modifies s`pos, s`arrived, s`arrivals
    ensures handled <= |ms| && saved == Opened(ms, opens, handled)
    ensures |EncodeAll(ms[..handled])| <= s.pos
    ensures handled == |ms| || CutShort(s, ms, handled) || Partial(s, ms, handled, 4)
    ensures old(s.arrived) == |s.stream| == |EncodeAll(ms)| ==> handled == |ms|
  {
    hide AtResult;
    hide CutShort;
    hide Partial;
    hide EncodeAll;
    saved, handled := [], 0;
    var calls := 0;
    FirstResult(s, ms);
    while true
      invariant s.Valid() && handled <= |ms| && saved == Opened(ms, opens, handled)
      invariant AtResult(s, ms, handled) && old(s.arrived) <= s.arrived
      invariant calls == handled || s.pos == |s.stream|
      decreases |s.stream| - s.pos
    {
      var ok, result;
      ghost var next;
      ok, result, next := NextResult(s, parse, opens(calls), ms, handled);
      if !ok {
        if s.arrived == |s.stream| == |EncodeAll(ms)| {
          NoneMissing(s, ms, handled);
        }
        return;
      }
      calls := calls + 1;
      if result.Some? {
        saved := saved + [result.value];
      }
      handled := next;
    }
  }
}
