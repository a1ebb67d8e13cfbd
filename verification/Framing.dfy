/** The sending and receiving halves of the protocol over a TCP connection. */
module Framing {
  import opened Bytes
  import opened Options
  import opened Frames

  /** The receiving end.  `stream` is everything the peer gets through before the
      connection ends, `arrived` how much of it has reached this host; `arrivals`
      says how much more comes in before each call, and so decides where reads
      are cut.  A read blocks until something is there and takes what has
      arrived, up to its size; nothing more than the end of the stream remains
      once it returns zero bytes. */
  class Socket {
    const stream: seq<byte>
    var pos: nat
    var arrived: nat
    var arrivals: seq<nat>

    ghost predicate Valid()
      reads this
    {
      pos <= arrived <= |stream|
    }

    constructor (stream: seq<byte>, arrivals: seq<nat>)
      ensures Valid() && pos == 0 && this.stream == stream && this.arrivals == arrivals
    {
      this.stream, pos, arrived, this.arrivals := stream, 0, 0, arrivals;
    }

    /** Blocks until at least `least` bytes are waiting or the stream has ended. */
    method Wait(least: nat)
      requires Valid()
      modifies this`arrived, this`arrivals
      ensures Valid() && arrived >= old(arrived)
      ensures arrived - pos >= least || arrived == |stream|
    {
      if arrivals != [] {
        var more := arrivals[0];
        arrivals := arrivals[1..];
        arrived := if arrived + more < |stream| then arrived + more else |stream|;
      }
      if arrived - pos < least {
        arrived := if pos + least < |stream| then pos + least else |stream|;
      }
    }

    method Recv(n: nat) returns (data: seq<byte>)
      requires Valid() && n > 0
      modifies this`pos, this`arrived, this`arrivals
      ensures Valid() && pos == old(pos) + |data| && data == stream[old(pos)..pos]
      ensures |data| <= n && (data == [] ==> pos == |stream|)
      ensures |data| == n || pos == arrived
      ensures arrived >= old(arrived)
    {
      Wait(1);
      var size := if arrived - pos < n then arrived - pos else n;
      data := stream[pos..pos + size];
      pos := pos + size;
    }

    /** With MSG_WAITALL. */
    method RecvAll(n: nat) returns (data: seq<byte>)
      requires Valid()
      modifies this`pos, this`arrived, this`arrivals
      ensures Valid() && pos == old(pos) + |data| && data == stream[old(pos)..pos]
      ensures |data| <= n && (|data| < n ==> pos == |stream|)
      ensures arrived >= old(arrived)
    {
      Wait(n);
      var size := if arrived - pos < n then arrived - pos else n;
      data := stream[pos..pos + size];
      pos := pos + size;
    }

    /** With MSG_PEEK. */
    method Peek(n: nat) returns (data: seq<byte>)
      requires Valid() && n > 0
      modifies this`arrived, this`arrivals
      ensures Valid() && pos + |data| <= arrived && data == stream[pos..pos + |data|]
      ensures |data| <= n && (data == [] ==> pos == |stream|)
      ensures |data| == n || pos + |data| == arrived
      ensures arrived > pos || arrived == |stream|
      ensures arrived >= old(arrived)
    {
      Wait(1);
      var size := if arrived - pos < n then arrived - pos else n;
      data := stream[pos..pos + size];
    }

    /** Reads of at most `block` bytes until `size` bytes have come or the stream ends. */
    method RecvLoop(size: nat, block: nat) returns (data: seq<byte>)
      requires Valid() && block > 0
      modifies this`pos, this`arrived, this`arrivals
      ensures Valid() && pos == old(pos) + |data| && data == stream[old(pos)..pos]
      ensures |data| <= size && (|data| < size ==> pos == |stream|)
      ensures arrived >= old(arrived)
    {
      data := [];
      while |data| < size
        invariant Valid() && arrived >= old(arrived)
        invariant |data| <= size && pos == old(pos) + |data| && data == stream[old(pos)..pos]
        decreases size - |data|
      {
        var left := size - |data|;
        var part := Recv(if left < block then left else block);
        if part == [] {
          return;
        }
        data := data + part;
      }
    }
  }

  // ---------------------------------------------------------------- receiving

  // In the contracts below `sent` and `m` are any data and message: if the
  // stream carries them, the call must return them, or else too few of their
  // bytes had arrived for a read that does not wait for them all.

  /** `recv_json`: the header must come in one read, the text may come in pieces. */
  method RecvJson(s: Socket, parse: seq<byte> -> Parsed, ghost sent: seq<byte>) returns (json: Option<seq<byte>>)
    requires s.Valid()
    modifies s`pos, s`arrived, s`arrivals
    ensures s.Valid() && old(s.pos) <= s.pos && old(s.arrived) <= s.arrived
    ensures json.Some? ==>
      && Carries(s.stream, old(s.pos), json.value) && s.pos == old(s.pos) + 4 + |json.value|
      && 0 < |json.value| <= MAX_JSON_SIZE && parse(json.value).Json?
    ensures
      && Carries(s.stream, old(s.pos), sent) && 0 < |sent| <= MAX_JSON_SIZE && parse(sent).Json?
      ==> json == Some(sent) || (json.None? && old(s.pos) < s.pos == s.arrived < old(s.pos) + 4)
  {
    hide Carries;
    hide FromNetwork;
    ghost var start := s.pos;
    var header := s.Recv(4);
    if Carries(s.stream, start, sent) {
      CarriedAt(s.stream, start, sent);
    }
    if |header| != 4 {
      return None;
    }
    var len := FromNetwork(header);
    if len == 0 || len > MAX_JSON_SIZE {
      return None;
    }
    var data := s.RecvLoop(len, len);
    if |data| < len || parse(data).Malformed? {
      return None;
    }
    CarriesParts(s.stream, start, data);
    return Some(data);
  }

  /** `recv_json_peek`: header and text must already be there, and stay there. */
  method RecvJsonPeek(s: Socket, parse: seq<byte> -> Parsed, ghost sent: seq<byte>) returns (json: Option<seq<byte>>)
    requires s.Valid() && parse([]).Malformed?
    modifies s`arrived, s`arrivals
    ensures s.Valid() && old(s.arrived) <= s.arrived
    ensures json.Some? ==>
      && Carries(s.stream, s.pos, json.value) && s.arrived >= s.pos + 4 + |json.value|
      && 0 < |json.value| <= MAX_JSON_SIZE && parse(json.value).Json?
    ensures
      && Carries(s.stream, s.pos, sent) && 0 < |sent| <= MAX_JSON_SIZE && parse(sent).Json?
      ==> json == Some(sent) || (json.None? && s.pos < s.arrived < s.pos + 4 + |sent|)
  {
    hide Carries;
    hide FromNetwork;
    var header := s.Peek(4);
    if Carries(s.stream, s.pos, sent) {
      CarriedAt(s.stream, s.pos, sent);
    }
    if |header| != 4 {
      return None;
    }
    var len := FromNetwork(header);
    if len > MAX_JSON_SIZE {
      return None;
    }
    var both := s.Peek(4 + len);
    if |both| != 4 + len {
      return None;
    }
    var data := both[4..];
    assert data == s.stream[s.pos + 4..s.pos + 4 + len];
    if parse(data).Malformed? {
      return None;
    }
    CarriesParts(s.stream, s.pos, data);
    return Some(data);
  }

  /** What `handle_persistent_connection` does with a message it does not know:
      look at it, then take it off the stream.  Both calls see the same text. */
  method PeekThenReceive(s: Socket, parse: seq<byte> -> Parsed, ghost sent: seq<byte>)
    returns (peeked: Option<seq<byte>>, json: Option<seq<byte>>)
    requires s.Valid() && parse([]).Malformed?
    modifies s`pos, s`arrived, s`arrivals
    ensures s.Valid()
    ensures peeked.Some? ==> json == peeked && s.pos == old(s.pos) + 4 + |peeked.value|
    ensures peeked.None? ==> s.pos == old(s.pos)
    ensures
      && Carries(s.stream, old(s.pos), sent) && 0 < |sent| <= MAX_JSON_SIZE && parse(sent).Json?
      ==> peeked == Some(sent) || (peeked.None? && s.pos < s.arrived < s.pos + 4 + |sent|)
  {
    peeked := RecvJsonPeek(s, parse, sent);
    if peeked.None? {
      return peeked, None;
    }
    json := RecvJson(s, parse, peeked.value);
  }

  /** The size, which must come whole, and if it is within the limits that many bytes. */
  method RecvSized(s: Socket, least: nat, most: nat, ghost sent: seq<byte>) returns (payload: Option<seq<byte>>)
    requires s.Valid()
    modifies s`pos, s`arrived, s`arrivals
    ensures s.Valid() && old(s.pos) <= s.pos && old(s.arrived) <= s.arrived
    ensures payload.Some? ==>
      && Carries(s.stream, old(s.pos), payload.value) && s.pos == old(s.pos) + 4 + |payload.value|
      && least <= |payload.value| <= most
    ensures Carries(s.stream, old(s.pos), sent) && least <= |sent| <= most ==> payload == Some(sent)
    ensures payload.None? ==>
      || s.pos == |s.stream|
      || (s.pos == old(s.pos) + 4 && !(least <= FromNetwork(s.stream[old(s.pos)..s.pos]) <= most))
  {
    hide Carries;
    hide FromNetwork;
    ghost var start := s.pos;
    if Carries(s.stream, start, sent) {
      CarriedAt(s.stream, start, sent);
    }
    var header := s.RecvAll(4);
    if |header| != 4 {
      return None;
    }
    var size := FromNetwork(header);
    if size < least || size > most {
      return None;
    }
    var data := s.RecvLoop(size, 4096);
    if |data| < size {
      return None;
    }
    CarriesParts(s.stream, start, data);
    return Some(data);
  }

  /** The whole message stands at `pos`. */
  predicate Holds(stream: seq<byte>, pos: nat, m: Message) {
    Carries(stream, pos, m.meta) && Carries(stream, pos + 4 + |m.meta|, m.payload)
  }

  /** The stream goes on with the task `m`, and its metadata is there. */
  ghost predicate Announced(parse: seq<byte> -> Parsed, stream: seq<byte>, pos: nat, arrived: nat, m: Message) {
    && IsTask(parse, m) && Begins(stream, pos, m)
    && Carries(stream, pos, m.meta) && arrived >= pos + 4
  }

  /** `receive_task_from_employer`. */
  method ReceiveTask(s: Socket, parse: seq<byte> -> Parsed, ghost m: Message) returns (task: Option<Message>)
    requires s.Valid()
    modifies s`pos, s`arrived, s`arrivals
    ensures s.Valid() && old(s.pos) <= s.pos && old(s.arrived) <= s.arrived
    ensures task.Some? ==>
      && Holds(s.stream, old(s.pos), task.value)
      && s.pos == old(s.pos) + 8 + |task.value.meta| + |task.value.payload|
    ensures Announced(parse, s.stream, old(s.pos), old(s.arrived), m) ==>
      && s.pos >= old(s.pos) + 4 + |m.meta|
      && (task.Some? ==> task == Some(m))
      && (task.None? ==> s.pos == |s.stream| < old(s.pos) + |Encode(m)|)
  {
    hide Carries;
    hide FromNetwork;
    ghost var start := s.pos;
    ghost var told := Announced(parse, s.stream, start, s.arrived, m);
    var json := RecvJson(s, parse, m.meta);
    assert told ==> json == Some(m.meta);
    if json.None? || !parse(json.value).complete {
      return None;
    }
    var payload := RecvSized(s, 1, MAX_TASK_SIZE, m.payload);
    if payload.None? {
      if told {
        PayloadCutShort(s.stream, start, m, s.pos);
      }
      return None;
    }
    if told {
      Completes(s.stream, start, m, payload.value);
    }
    return Some(Message(json.value, payload.value));
  }

  lemma PayloadCutShort(stream: seq<byte>, start: nat, m: Message, pos: nat)
    requires Begins(stream, start, m) && Carries(stream, start, m.meta)
    requires !Carries(stream, start + 4 + |m.meta|, m.payload) && 1 <= |m.payload| <= MAX_TASK_SIZE
    requires start + 4 + |m.meta| <= pos <= |stream|
    requires pos == |stream| || (pos == start + 8 + |m.meta|
      && !(1 <= FromNetwork(stream[start + 4 + |m.meta|..pos]) <= MAX_TASK_SIZE))
    ensures pos == |stream| < start + |Encode(m)|
  {
    BeginsFrames(stream, start, m);
  }

  /** A complete payload frame after the metadata is the message's own. */
  lemma Completes(stream: seq<byte>, pos: nat, m: Message, payload: seq<byte>)
    requires Begins(stream, pos, m) && Carries(stream, pos + 4 + |m.meta|, payload)
    ensures payload == m.payload
  {
    BeginsFrames(stream, pos, m);
    CarriesParts(stream, pos + 4 + |m.meta|, payload);
    CarriesOne(stream, pos + 4 + |m.meta|, payload, m.payload);
  }
}
