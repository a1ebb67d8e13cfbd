/** The byte-by-byte scanner that decides when a response is complete. */
module Scanner {
  import opened Bytes
  import opened JsonText

  /** `depth` is `brace_count`; `done` records that the return was reached. */
  datatype State = State(depth: int, inString: bool, escapeNext: bool, started: bool, done: bool)

  const INITIAL := State(0, false, false, false, false)

  function Step(s: State, c: byte): State {
    if s.done then s
    else if s.escapeNext then s.(escapeNext := false)
    else if s.inString then
      if c == BACKSLASH then s.(escapeNext := true)
      else if c == QUOTE then s.(inString := false)
      else s
    else if c == QUOTE then s.(inString := true)
    else if c == OPEN_BRACE then s.(started := true, depth := s.depth + 1)
    else if c == CLOSE_BRACE then s.(depth := s.depth - 1, done := s.started && s.depth == 1)
    else s
  }

  function Scan(s: State, data: seq<byte>): State
    decreases |data|
  {
    if data == [] then s else Scan(Step(s, data[0]), data[1..])
  }

  lemma {:induction false} ScanConcat(s: State, a: seq<byte>, b: seq<byte>)
    ensures Scan(s, a + b) == Scan(Scan(s, a), b)
    decreases |a|
  {
    if a == [] {
      assert a + b == b;
    } else {
      ScanConcat(Step(s, a[0]), a[1..], b);
      assert (a + b)[1..] == a[1..] + b;
    }
  }

  lemma {:induction false} DoneStays(s: State, data: seq<byte>)
    requires s.done
    ensures Scan(s, data) == s
    decreases |data|
  {
    if data != [] { DoneStays(s, data[1..]); }
  }

  lemma NotDoneBefore(data: seq<byte>, k: nat)
    requires k <= |data| && !Scan(INITIAL, data).done
    ensures !Scan(INITIAL, data[..k]).done
  {
    assert data == data[..k] + data[k..];
    ScanConcat(INITIAL, data[..k], data[k..]);
    if Scan(INITIAL, data[..k]).done {
      DoneStays(Scan(INITIAL, data[..k]), data[k..]);
    }
  }

  // ------------------------------------------------- what the scanner ignores

  predicate Inert(b: byte) {
    b != QUOTE && b != OPEN_BRACE && b != CLOSE_BRACE
  }

  /** Between tokens. */
  predicate Outside(s: State) {
    !s.inString && !s.escapeNext && !s.done
  }

  lemma {:induction false} SkipsInert(s: State, data: seq<byte>)
    requires Outside(s) && forall i :: 0 <= i < |data| ==> Inert(data[i])
    ensures Scan(s, data) == s
    decreases |data|
  {
    if data != [] { SkipsInert(s, data[1..]); }
  }

  lemma SkipsChar(s: State, c: Char)
    requires s.inString && !s.escapeNext && !s.done
    ensures Scan(s, PrintChar(c)) == s
  {
    match c
    case Plain(b) =>
      assert PrintChar(c)[1..] == [];
    case Escaped(e) =>
      Two(s, BACKSLASH, e);
    case Unicode(h1, h2, h3, h4) =>
      Two(s, BACKSLASH, 0x75);
      Two(s, h1, h2);
      Two(s, h3, h4);
      ScanConcat(s, [BACKSLASH, 0x75], [h1, h2]);
      ScanConcat(s, [BACKSLASH, 0x75] + [h1, h2], [h3, h4]);
      assert PrintChar(c) == [BACKSLASH, 0x75] + [h1, h2] + [h3, h4];
  }

  lemma Two(s: State, a: byte, b: byte)
    ensures Scan(s, [a, b]) == Step(Step(s, a), b)
  {
    assert [a, b][1..] == [b];
    assert Scan(s, [a, b]) == Scan(Step(s, a), [b]);
    One(Step(s, a), b);
  }

  lemma One(s: State, a: byte)
    ensures Scan(s, [a]) == Step(s, a)
  {
    assert [a][1..] == [];
  }

  lemma {:induction false} SkipsChars(s: State, cs: seq<Char>)
    requires s.inString && !s.escapeNext && !s.done
    ensures Scan(s, PrintChars(cs)) == s
    decreases |cs|
  {
    if cs != [] {
      SkipsChar(s, cs[0]);
      SkipsChars(s, cs[1..]);
      ScanConcat(s, PrintChar(cs[0]), PrintChars(cs[1..]));
    }
  }

  /** A whole string leaves no trace, whatever braces, quotes and backslashes it holds. */
  lemma SkipsString(s: State, cs: seq<Char>)
    requires Outside(s)
    ensures Scan(s, PrintString(cs)) == s
  {
    One(s, QUOTE);
    var s1 := s.(inString := true);
    SkipsChars(s1, cs);
    One(s1, QUOTE);
    ScanConcat(s, [QUOTE], PrintChars(cs));
    ScanConcat(s, [QUOTE] + PrintChars(cs), [QUOTE]);
  }

  lemma NumbersAreInert(n: Number)
    ensures forall i :: 0 <= i < |PrintNumber(n)| ==> Inert(PrintNumber(n)[i])
  {
    forall i | 0 <= i < |PrintExponent(n.exp)| ensures Inert(PrintExponent(n.exp)[i]) {}
  }

  // ------------------------------------------------------------ whole values

  /** Is the scanner inside an object that began earlier, or looking at a value
      that contains none?  Either way the value cannot complete the response. */
  predicate Safe(s: State, hasObject: bool) {
    Outside(s) && (hasObject ==> s.started && s.depth >= 1)
  }

  lemma {:induction false} SkipsValue(s: State, v: Value)
    requires Safe(s, HasObject(v))
    ensures Scan(s, Print(v)) == s
    decreases v
  {
    match v
    case False => SkipsInert(s, Print(v));
    case Null => SkipsInert(s, Print(v));
    case True => SkipsInert(s, Print(v));
    case Num(n) => NumbersAreInert(n); SkipsInert(s, Print(v));
    case Text(cs) => SkipsString(s, cs);
    case Array(pad, es) =>
      SkipsInert(s, [OPEN_BRACKET]);
      SkipsInert(s, [CLOSE_BRACKET]);
      if es.NoElements? { SkipsInert(s, pad); } else { SkipsElements(s, es); }
      var body := if es.NoElements? then pad else PrintElements(es);
      ScanConcat(s, [OPEN_BRACKET], body);
      ScanConcat(s, [OPEN_BRACKET] + body, [CLOSE_BRACKET]);
    case Object(pad, ms) =>
      OpensObject(s, pad, ms);
      var body := if ms.NoMembers? then pad else PrintMembers(ms);
      One(s.(depth := s.depth + 1), CLOSE_BRACE);
      ScanConcat(s, [OPEN_BRACE] + body, [CLOSE_BRACE]);
  }

  lemma {:induction false} SkipsElements(s: State, es: Elements)
    requires es.Element? && Safe(s, ElementsHaveObject(es))
    ensures Scan(s, PrintElements(es)) == s
    decreases es
  {
    SkipsInert(s, es.before);
    SkipsValue(s, es.value);
    SkipsInert(s, es.after);
    ScanConcat(s, es.before, Print(es.value));
    ScanConcat(s, es.before + Print(es.value), es.after);
    if es.rest.Element? {
      SkipsElements(s, es.rest);
      SkipsInert(s, [COMMA]);
      ScanConcat(s, [COMMA], PrintElements(es.rest));
      ScanConcat(s, es.before + Print(es.value) + es.after, [COMMA] + PrintElements(es.rest));
    } else {
      assert PrintElements(es) == es.before + Print(es.value) + es.after;
    }
  }

  lemma SkipsName(s: State, ms: Members)
    requires ms.Member? && Outside(s)
    ensures Scan(s, PrintName(ms)) == s
  {
    SkipsInert(s, ms.before);
    SkipsString(s, ms.name);
    SkipsInert(s, ms.nameAfter + [COLON] + ms.valueBefore);
    ScanConcat(s, ms.before, PrintString(ms.name));
    ScanConcat(s, ms.before + PrintString(ms.name), ms.nameAfter + [COLON] + ms.valueBefore);
  }

  lemma {:induction false} SkipsMembers(s: State, ms: Members)
    requires ms.Member? && Outside(s) && s.started && s.depth >= 1
    ensures Scan(s, PrintMembers(ms)) == s
    decreases ms, 0
  {
    SkipsName(s, ms);
    SkipsValue(s, ms.value);
    SkipsInert(s, ms.after);
    ScanConcat(s, Print(ms.value), ms.after);
    var member := PrintName(ms) + (Print(ms.value) + ms.after);
    ScanConcat(s, PrintName(ms), Print(ms.value) + ms.after);
    if ms.rest.Member? {
      SkipsMembers(s, ms.rest);
      SkipsInert(s, [COMMA]);
      ScanConcat(s, [COMMA], PrintMembers(ms.rest));
      ScanConcat(s, member, [COMMA] + PrintMembers(ms.rest));
    } else {
      assert PrintMembers(ms) == member;
    }
  }

  /** After everything of an object but its closing brace, one more brace is open. */
  lemma {:induction false} OpensObject(s: State, pad: Ws, ms: Members)
    requires Outside(s) && s.depth >= 0
    ensures Scan(s, [OPEN_BRACE] + if ms.NoMembers? then pad else PrintMembers(ms))
            == s.(depth := s.depth + 1, started := true)
    decreases ms, 1
  {
    var s1 := s.(depth := s.depth + 1, started := true);
    One(s, OPEN_BRACE);
    if ms.NoMembers? { SkipsInert(s1, pad); } else { SkipsMembers(s1, ms); }
    ScanConcat(s, [OPEN_BRACE], if ms.NoMembers? then pad else PrintMembers(ms));
  }

  /** An object inside an array completes the response on the spot. */
  lemma {:induction false} StopsInside(v: Value)
    requires HasObject(v)
    ensures Scan(INITIAL, Print(v)).done
    ensures v.Array? ==> Scan(INITIAL, Print(v)[..|Print(v)| - 1]).done
    decreases v
  {
    if v.Object? {
      ObjectCompletes([], v);
      assert [] + Print(v) == Print(v);
    } else {
      var front := [OPEN_BRACKET] + PrintElements(v.elements);
      SkipsInert(INITIAL, [OPEN_BRACKET]);
      StopsInElements(v.elements);
      ScanConcat(INITIAL, [OPEN_BRACKET], PrintElements(v.elements));
      ScanConcat(INITIAL, front, [CLOSE_BRACKET]);
      DoneStays(Scan(INITIAL, front), [CLOSE_BRACKET]);
      assert Print(v)[..|Print(v)| - 1] == front;
    }
  }

  lemma {:induction false} StopsInElements(es: Elements)
    requires ElementsHaveObject(es)
    ensures Scan(INITIAL, PrintElements(es)).done
    decreases es
  {
    var upTo := es.before + Print(es.value);
    var tail := es.after + if es.rest.NoElements? then [] else [COMMA] + PrintElements(es.rest);
    SkipsInert(INITIAL, es.before);
    ScanConcat(INITIAL, es.before, Print(es.value));
    ScanConcat(INITIAL, upTo, tail);
    assert PrintElements(es) == upTo + tail;
    if HasObject(es.value) {
      StopsInside(es.value);
      DoneStays(Scan(INITIAL, upTo), tail);
    } else {
      SkipsValue(INITIAL, es.value);
      SkipsInert(INITIAL, es.after);
      SkipsInert(INITIAL, [COMMA]);
      StopsInElements(es.rest);
      ScanConcat(INITIAL, es.after, [COMMA] + PrintElements(es.rest));
      ScanConcat(INITIAL, [COMMA], PrintElements(es.rest));
    }
  }

  // ---------------------------------------------------------------- theorems

  /** Reports completion at the last byte of `data` and not before. */
  predicate CompletesAtEnd(data: seq<byte>) {
    data != [] && Scan(INITIAL, data).done && !Scan(INITIAL, data[..|data| - 1]).done
  }

  lemma ObjectCompletes(lead: Ws, v: Value)
    requires v.Object?
    ensures CompletesAtEnd(lead + Print(v))
  {
    var body := if v.members.NoMembers? then v.pad else PrintMembers(v.members);
    var front := lead + ([OPEN_BRACE] + body);
    SkipsInert(INITIAL, lead);
    OpensObject(INITIAL, v.pad, v.members);
    ScanConcat(INITIAL, lead, [OPEN_BRACE] + body);
    One(Scan(INITIAL, front), CLOSE_BRACE);
    ScanConcat(INITIAL, front, [CLOSE_BRACE]);
    assert lead + Print(v) == front + [CLOSE_BRACE];
    assert (lead + Print(v))[..|lead + Print(v)| - 1] == front;
  }

  /** The scanner completes at the last byte of a JSON text exactly when the text
      is an object with no white space after it.  It completes at the closing
      brace of any object, never on a text without objects, and too early on an
      array that holds one. */
  lemma CompletesExactlyOnObjects(lead: Ws, v: Value, trail: Ws)
    ensures CompletesAtEnd(PrintText(lead, v, trail)) <==> v.Object? && trail == []
    ensures Scan(INITIAL, PrintText(lead, v, trail)).done <==> HasObject(v)
  {
    var text, body := PrintText(lead, v, trail), lead + Print(v);
    ScanConcat(INITIAL, body, trail);
    AfterLead(lead, v);
    if v.Object? {
      ObjectCompletes(lead, v);
      DoneStays(Scan(INITIAL, body), trail);
      if trail == [] {
        assert text == body;
      } else {
        DoneAtLast(body, trail);
      }
    } else if HasObject(v) {
      StopsInside(v);
      DoneStays(Scan(INITIAL, body), trail);
      NotAtEnd(lead, v, trail);
    } else {
      SkipsValue(INITIAL, v);
      SkipsInert(INITIAL, trail);
    }
  }

  lemma AfterLead(lead: Ws, v: Value)
    ensures Scan(INITIAL, lead + Print(v)) == Scan(INITIAL, Print(v))
  {
    SkipsInert(INITIAL, lead);
    ScanConcat(INITIAL, lead, Print(v));
  }

  /** What is done before the last byte is done too early. */
  lemma DoneAtLast(front: seq<byte>, rest: seq<byte>)
    requires rest != [] && Scan(INITIAL, front).done
    ensures Scan(INITIAL, (front + rest)[..|front + rest| - 1]).done
  {
    var n := |rest| - 1;
    assert (front + rest)[..|front + rest| - 1] == front + rest[..n];
    ScanConcat(INITIAL, front, rest[..n]);
    DoneStays(Scan(INITIAL, front), rest[..n]);
  }

  lemma NotAtEnd(lead: Ws, v: Value, trail: Ws)
    requires HasObject(v) && !v.Object?
    ensures !CompletesAtEnd(PrintText(lead, v, trail))
  {
    var front := Print(v)[..|Print(v)| - 1];
    var close := Print(v)[|Print(v)| - 1..];
    StopsInside(v);
    SkipsInert(INITIAL, lead);
    ScanConcat(INITIAL, lead, front);
    assert Print(v) == front + close;
    assert PrintText(lead, v, trail) == lead + front + (close + trail);
    DoneAtLast(lead + front, close + trail);
  }
}
