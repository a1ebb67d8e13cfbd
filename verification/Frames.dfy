/** The wire format: a message is its metadata and its payload, each preceded
    by its length as a 32-bit integer in network byte order. */
module Frames {
  import opened Bytes

  const LIMIT32: nat := 0x1_0000_0000
  const MAX_JSON_SIZE: nat := 65536
  const MAX_TASK_SIZE: nat := 100 * 1024 * 1024

  function ToNetwork(n: nat): (s: seq<byte>)
    requires n < LIMIT32
    ensures |s| == 4
  {
    [n / 256 / 256 / 256, n / 256 / 256 % 256, n / 256 % 256, n % 256]
  }

  function FromNetwork(s: seq<byte>): (n: nat)
    requires |s| == 4
    ensures n < LIMIT32
  {
    (((s[0] as int * 256) + s[1] as int) * 256 + s[2] as int) * 256 + s[3] as int
  }

  lemma NetworkRoundTrip(n: nat)
    requires n < LIMIT32
    ensures FromNetwork(ToNetwork(n)) == n
    ensures var s := ToNetwork(n);
      n == 0x100_0000 * s[0] as int + 0x1_0000 * s[1] as int + 0x100 * s[2] as int + s[3] as int
  {
  }

  lemma BytesRoundTrip(s: seq<byte>)
    requires |s| == 4
    ensures ToNetwork(FromNetwork(s)) == s
  {
    var n := FromNetwork(s);
    var n3 := (s[0] as int * 256 + s[1] as int) * 256 + s[2] as int;
    assert n / 256 == n3 && n % 256 == s[3];
    assert n3 / 256 == s[0] as int * 256 + s[1] as int && n3 % 256 == s[2];
  }

  datatype Message = Message(meta: seq<byte>, payload: seq<byte>)

  predicate Fits(m: Message) {
    |m.meta| < LIMIT32 && |m.payload| < LIMIT32
  }

  predicate AllFit(ms: seq<Message>) {
    forall k :: 0 <= k < |ms| ==> Fits(ms[k])
  }

  function Frame(data: seq<byte>): seq<byte>
    requires |data| < LIMIT32
  {
    ToNetwork(|data|) + data
  }

  function Encode(m: Message): (s: seq<byte>)
    requires Fits(m)
    ensures |s| == 8 + |m.meta| + |m.payload|
  {
    Frame(m.meta) + Frame(m.payload)
  }

  function EncodeAll(ms: seq<Message>): seq<byte>
    requires AllFit(ms)
  {
    if ms == [] then [] else Encode(ms[0]) + EncodeAll(ms[1..])
  }

  /** A complete frame holding `data` stands at `pos`. */
  predicate Carries(stream: seq<byte>, pos: nat, data: seq<byte>) {
    && |data| < LIMIT32
    && pos + 4 + |data| <= |stream|
    && stream[pos..pos + 4 + |data|] == Frame(data)
  }

  lemma CarriesParts(stream: seq<byte>, pos: nat, data: seq<byte>)
    requires |data| < LIMIT32 && pos + 4 + |data| <= |stream|
    ensures Carries(stream, pos, data) <==>
      FromNetwork(stream[pos..pos + 4]) == |data| && stream[pos + 4..pos + 4 + |data|] == data
  {
    NetworkRoundTrip(|data|);
    var whole := stream[pos..pos + 4 + |data|];
    assert whole[..4] == stream[pos..pos + 4] && whole[4..] == stream[pos + 4..pos + 4 + |data|];
    assert Frame(data)[..4] == ToNetwork(|data|) && Frame(data)[4..] == data;
    assert whole == whole[..4] + whole[4..];
    BytesRoundTrip(whole[..4]);
  }

  lemma CarriedAt(stream: seq<byte>, pos: nat, data: seq<byte>)
    requires Carries(stream, pos, data)
    ensures |data| < LIMIT32 && pos + 4 + |data| <= |stream|
    ensures FromNetwork(stream[pos..pos + 4]) == |data|
    ensures stream[pos + 4..pos + 4 + |data|] == data
  {
    CarriesParts(stream, pos, data);
  }

  lemma CarriesOne(stream: seq<byte>, pos: nat, a: seq<byte>, b: seq<byte>)
    requires Carries(stream, pos, a) && Carries(stream, pos, b)
    ensures a == b
  {
    CarriesParts(stream, pos, a);
    CarriesParts(stream, pos, b);
  }

  lemma {:induction false} EncodeAllConcat(a: seq<Message>, b: seq<Message>)
    requires AllFit(a) && AllFit(b)
    ensures AllFit(a + b) && EncodeAll(a + b) == EncodeAll(a) + EncodeAll(b)
    decreases |a|
  {
    hide Encode;
    if a == [] {
      assert a + b == b;
    } else {
      assert (a + b)[1..] == a[1..] + b;
      EncodeAllConcat(a[1..], b);
    }
  }

  lemma EncodeAllOne(m: Message)
    requires Fits(m)
    ensures EncodeAll([m]) == Encode(m)
  {
    hide Encode;
    assert [m][1..] == [];
    assert EncodeAll([m]) == Encode(m) + EncodeAll([]);
  }

  lemma EncodeAllSnoc(ms: seq<Message>, k: nat)
    requires k < |ms| && AllFit(ms)
    ensures EncodeAll(ms[..k + 1]) == EncodeAll(ms[..k]) + Encode(ms[k])
    ensures EncodeAll(ms[..k + 1]) <= EncodeAll(ms)
  {
    hide EncodeAll;
    hide Encode;
    EncodeAllOne(ms[k]);
    TakeOneMore(ms, k);
    EncodeAllConcat(ms[..k], [ms[k]]);
    EncodeAllConcat(ms[..k + 1], ms[k + 1..]);
  }

  /** The concatenation of encodings determines the messages: one session's bytes
      extend another's only if its messages do. */
  lemma {:induction false} FramesUnambiguous(a: seq<Message>, b: seq<Message>)
    requires AllFit(a)
    requires AllFit(b)
    requires EncodeAll(a) <= EncodeAll(b)
    ensures a <= b
    decreases |a|
  {
    if a != [] {
      var s := EncodeAll(b);
      assert Encode(a[0]) <= s;
      assert b != [];
      SameMessage(s, a[0], b[0]);
      assert EncodeAll(a)[|Encode(a[0])|..] == EncodeAll(a[1..]);
      assert s[|Encode(a[0])|..] == EncodeAll(b[1..]);
      FramesUnambiguous(a[1..], b[1..]);
      assert a == [a[0]] + a[1..] && b == [b[0]] + b[1..];
    }
  }

  lemma SameMessage(s: seq<byte>, a: Message, b: Message)
    requires Fits(a) && Fits(b) && Encode(a) <= s && Encode(b) <= s
    ensures a == b
  {
    EncodedParts(s, 0, a);
    EncodedParts(s, 0, b);
    CarriesOne(s, 0, a.meta, b.meta);
    CarriesOne(s, 4 + |a.meta|, a.payload, b.payload);
  }

  lemma EncodedParts(s: seq<byte>, pos: nat, m: Message)
    requires Fits(m) && pos + |Encode(m)| <= |s|
    ensures s[pos..pos + |Encode(m)|] == Encode(m) <==>
      Carries(s, pos, m.meta) && Carries(s, pos + 4 + |m.meta|, m.payload)
  {
    var mid := pos + 4 + |m.meta|;
    var whole := s[pos..pos + |Encode(m)|];
    assert whole == s[pos..mid] + s[mid..pos + |Encode(m)|];
    assert whole[..4 + |m.meta|] == s[pos..mid];
    assert whole[4 + |m.meta|..] == s[mid..pos + |Encode(m)|];
    assert Encode(m)[..4 + |m.meta|] == Frame(m.meta);
    assert Encode(m)[4 + |m.meta|..] == Frame(m.payload);
  }

  // ---------------------------------------------------------------- sessions

  /** What cJSON finds in a piece of metadata. */
  datatype Kind = InitialConfig | DataChunk | TaskResult | OtherKind | NoKind
  datatype Parsed = Malformed | Json(kind: Kind, complete: bool)

  /** What the employer sends, within the limits the employee enforces. */
  predicate IsTask(parse: seq<byte> -> Parsed, m: Message) {
    && 0 < |m.meta| <= MAX_JSON_SIZE && 0 < |m.payload| <= MAX_TASK_SIZE
    && (parse(m.meta) == Json(InitialConfig, true) || parse(m.meta) == Json(DataChunk, true))
  }

  /** What an employee sends back; an empty result is fine. */
  predicate IsResult(parse: seq<byte> -> Parsed, m: Message) {
    && 0 < |m.meta| <= MAX_JSON_SIZE && |m.payload| < LIMIT32
    && parse(m.meta) == Json(TaskResult, true)
  }

  predicate AllTasks(parse: seq<byte> -> Parsed, ms: seq<Message>) {
    forall k :: 0 <= k < |ms| ==> Fits(ms[k]) && IsTask(parse, ms[k])
  }

  predicate AllResults(parse: seq<byte> -> Parsed, ms: seq<Message>) {
    forall k :: 0 <= k < |ms| ==> Fits(ms[k]) && IsResult(parse, ms[k])
  }

  /** From `pos` the stream carries the message, or ends inside it. */
  predicate Begins(stream: seq<byte>, pos: nat, m: Message) {
    && Fits(m) && pos <= |stream|
    && (Encode(m) <= stream[pos..] || stream[pos..] <= Encode(m))
  }

  lemma NextBegins(stream: seq<byte>, ms: seq<Message>, k: nat)
    requires AllFit(ms)
    requires k < |ms| && stream <= EncodeAll(ms) && |EncodeAll(ms[..k])| <= |stream|
    ensures Begins(stream, |EncodeAll(ms[..k])|, ms[k])
  {
    EncodeAllSnoc(ms, k);
    var pos := |EncodeAll(ms[..k])|;
    var all, m := EncodeAll(ms), Encode(ms[k]);
    assert all[pos..pos + |m|] == m;
    if |stream| >= pos + |m| {
      assert stream[pos..][..|m|] == all[pos..pos + |m|];
    } else {
      assert stream[pos..] == m[..|stream| - pos];
    }
  }

  /** If the metadata frame is complete, it is the message's own; the same for the payload. */
  lemma BeginsFrames(stream: seq<byte>, pos: nat, m: Message)
    requires Begins(stream, pos, m)
    ensures forall data :: Carries(stream, pos, data) ==> data == m.meta
    ensures pos + 4 <= |stream| ==> FromNetwork(stream[pos..pos + 4]) == |m.meta|
    ensures pos + 4 + |m.meta| <= |stream| ==> Carries(stream, pos, m.meta)
    ensures pos + 8 + |m.meta| <= |stream| ==>
      FromNetwork(stream[pos + 4 + |m.meta|..pos + 8 + |m.meta|]) == |m.payload|
    ensures pos + |Encode(m)| <= |stream| ==> Carries(stream, pos + 4 + |m.meta|, m.payload)
  {
    hide FromNetwork;
    hide ToNetwork;
    var e, mid := Encode(m), 4 + |m.meta|;
    assert e[..4] == ToNetwork(|m.meta|) && e[..mid] == Frame(m.meta);
    assert e[mid..mid + 4] == ToNetwork(|m.payload|) && e[mid..] == Frame(m.payload);
    NetworkRoundTrip(|m.meta|);
    NetworkRoundTrip(|m.payload|);
    Agree(stream, pos, e, 0, 4);
    Agree(stream, pos, e, 0, mid);
    Agree(stream, pos, e, mid, mid + 4);
    Agree(stream, pos, e, mid, |e|);
    forall data | Carries(stream, pos, data) ensures data == m.meta {
      CarriesParts(stream, pos, data);
      CarriesOne(stream, pos, data, m.meta);
    }
  }

  /** Where the payload is, if the stream gets that far. */
  lemma PayloadAt(stream: seq<byte>, pos: nat, m: Message)
    requires Begins(stream, pos, m)
    ensures var mid, end := pos + 4 + |m.meta|, pos + |Encode(m)|;
      && end == mid + 4 + |m.payload|
      && (mid + 4 <= |stream| ==> FromNetwork(stream[mid..mid + 4]) == |m.payload|)
      && (end <= |stream| ==> stream[mid + 4..end] == m.payload)
  {
    var mid := pos + 4 + |m.meta|;
    BeginsFrames(stream, pos, m);
    if pos + |Encode(m)| <= |stream| {
      CarriesParts(stream, mid, m.payload);
    }
  }

  lemma Agree(stream: seq<byte>, pos: nat, e: seq<byte>, i: nat, j: nat)
    requires pos <= |stream| && (e <= stream[pos..] || stream[pos..] <= e) && i <= j <= |e|
    ensures pos + j <= |stream| ==> stream[pos + i..pos + j] == e[i..j]
  {
    if pos + j <= |stream| {
      assert stream[pos..][i..j] == stream[pos + i..pos + j];
    }
  }
}
