/** What the `scanf` formats of `load_config` accept beyond what was saved. */
module ConfigScan {
  import opened Options
  import opened Config
  import Decimal

  /** The six characters `isspace` accepts. */
  lemma SpaceChars(c: char)
    ensures IsSpace(c) <==> c as int in {9, 10, 11, 12, 13, 32}
  {
  }

  predicate Blanks(s: string) {
    forall i :: 0 <= i < |s| ==> IsSpace(s[i])
  }

  lemma {:induction false} BlanksSkipped(blanks: string, s: string)
    requires Blanks(blanks) && (s == "" || !IsSpace(s[0]))
    ensures SkipSpace(blanks + s) == s
    decreases |blanks|
  {
    if blanks == "" {
      assert blanks + s == s;
    } else {
      BlanksSkipped(blanks[1..], s);
      assert (blanks + s)[1..] == blanks[1..] + s;
    }
  }

  /** A blank in a format stands for any white space, or none. */
  lemma BlankMatchesAny(prefix: string, blanks: string, s: string)
    requires prefix != "" && IsSpace(prefix[0]) && Blanks(blanks) && (s == "" || !IsSpace(s[0]))
    ensures MatchLabel(prefix, blanks + s) == MatchLabel(prefix[1..], s)
  {
    BlanksSkipped(blanks, s);
  }

  /** Any other character of a format stands for itself. */
  lemma CharMatchesItself(prefix: string, s: string)
    requires prefix != "" && !IsSpace(prefix[0])
    ensures MatchLabel(prefix, s)
            == if s != "" && s[0] == prefix[0] then MatchLabel(prefix[1..], s[1..]) else None
  {
  }

  /** A number may follow white space and may have either sign. */
  lemma SignsRead(blanks: string, sign: string, m: nat, rest: string)
    requires Blanks(blanks) && sign in {"", "+", "-"} && EndsNumber(rest)
    ensures ScanNumber(blanks + (sign + (Decimal.Print(m) + rest))) == Some(Number(sign == "-", m))
  {
    var digits := Decimal.Print(m) + rest;
    PrintedDigits(m, rest);
    assert Decimal.IsDigit(digits[0]);
    BlanksSkipped(blanks, sign + digits);
    if sign == "" {
      assert sign + digits == digits;
    } else {
      assert (sign + digits)[1..] == digits;
    }
    Decimal.ValueOfPrint(m);
  }

  /** Without a digit after them there is no number. */
  lemma DigitNeeded(blanks: string, sign: string, rest: string)
    requires Blanks(blanks) && sign in {"+", "-"} && (rest == "" || !Decimal.IsDigit(rest[0]))
    ensures ScanNumber(blanks + (sign + rest)) == None
  {
    BlanksSkipped(blanks, sign + rest);
    assert (sign + rest)[1..] == rest;
  }

  function Signed(n: Number): int {
    if n.negative then -(n.magnitude as int) else n.magnitude
  }

  /** `%lu` gives the number modulo 2^64, and the greatest one if there are too many digits. */
  lemma UlongIs(n: Number)
    ensures if n.magnitude >= 0x1_0000_0000_0000_0000 then ToUlong(n) == 0xFFFF_FFFF_FFFF_FFFF
            else (ToUlong(n) - Signed(n)) % 0x1_0000_0000_0000_0000 == 0
  {
  }

  /** `%d` keeps the low 32 bits of a 64-bit number, saturated. */
  lemma IntIs(n: Number)
    ensures if n.magnitude > 0x8000_0000_0000_0000 || Signed(n) == 0x8000_0000_0000_0000 then
              ToInt(n) == if n.negative then 0 else -1
            else (ToInt(n) - Signed(n)) % 0x1_0000_0000 == 0
  {
  }

  /** `fgets` takes a line: through the first newline, at most 255 characters. */
  lemma {:induction false} FirstLine(text: string, room: nat, i: nat)
    requires text != "" && room > 0
    ensures var n := LineLength(text, room);
      && n <= room && (text[n - 1] == '\n' || n == |text| || n == room)
      && (i < n - 1 ==> text[i] != '\n')
    decreases room
  {
    if !(text[0] == '\n' || |text| == 1 || room == 1) {
      FirstLine(text[1..], room - 1, if i > 0 then i - 1 else 0);
    }
  }
}
