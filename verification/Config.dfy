/** `save_config` and `load_config`: the configuration file, line by line. */
module Config {
  import opened Options
  import Decimal

  const ULONG_LIMIT: nat := 0x1_0000_0000_0000_0000
  const INT_LIMIT: int := 0x8000_0000
  const LINE_SIZE: nat := 255

  datatype Config = Config(
    memoryMax: int, memoryHigh: int, swapMax: int, swapHigh: int,
    oomProtection: int, processors: int, cpuShare: int)

  predicate IsUlong(v: int) {
    0 <= v < ULONG_LIMIT
  }

  predicate IsInt(v: int) {
    -INT_LIMIT <= v < INT_LIMIT
  }

  /** The values the C types can hold. */
  predicate InRange(c: Config) {
    IsUlong(c.memoryMax) && IsUlong(c.memoryHigh) && IsUlong(c.swapMax) && IsUlong(c.swapHigh)
    && IsInt(c.oomProtection) && IsInt(c.processors) && IsInt(c.cpuShare)
  }

  // ------------------------------------------------------------------- fields

  /** The seven settings in the order `load_config` tries them. */
  type Key = k: nat | k < 7

  const MEMORY := "Memory "
  const SIZE := "Size ("
  const SWAP := "Swap Memory Size ("
  const MAX := "Max): "
  const HIGH := "High): "
  const OOM := "OOM Protection: "
  const ALLOCATED := "Allocated "
  const LOGICAL := "Logical Processors: "
  const SHARE := "CPU Share: "

  /** A label up to the word that tells it from the others of its kind ... */
  function Stem(k: Key): string {
    match k
    case 0 => MEMORY + SIZE
    case 1 => MEMORY + SIZE
    case 2 => SWAP
    case 3 => SWAP
    case 4 => MEMORY
    case _ => ALLOCATED
  }

  /** ... and the rest of it. */
  function Word(k: Key): string {
    match k
    case 0 => MAX
    case 1 => HIGH
    case 2 => MAX
    case 3 => HIGH
    case 4 => OOM
    case 5 => LOGICAL
    case _ => SHARE
  }

  function Label(k: Key): string {
    Stem(k) + Word(k)
  }

  function Get(c: Config, k: Key): int {
    match k
    case 0 => c.memoryMax
    case 1 => c.memoryHigh
    case 2 => c.swapMax
    case 3 => c.swapHigh
    case 4 => c.oomProtection
    case 5 => c.processors
    case _ => c.cpuShare
  }

  function Set(c: Config, k: Key, v: int): Config {
    match k
    case 0 => c.(memoryMax := v)
    case 1 => c.(memoryHigh := v)
    case 2 => c.(swapMax := v)
    case 3 => c.(swapHigh := v)
    case 4 => c.(oomProtection := v)
    case 5 => c.(processors := v)
    case _ => c.(cpuShare := v)
  }

  // ------------------------------------------------------------------ printing

  function PrintInt(v: int): string {
    if v < 0 then "-" + Decimal.Print(-v) else Decimal.Print(v)
  }

  function Ending(k: Key): string {
    if k < 4 then " kB\n" else "\n"
  }

  function ValueLine(c: Config, k: Key): string {
    Label(k) + PrintInt(Get(c, k)) + Ending(k)
  }

  const TITLE := "System Configuration:\n"
  const RULE := "----------------------\n"
  const BLANK := "\n"
  const MEMORY_TITLE := MEMORY + "Configuration:\n"
  const CPU_TITLE := "CPU Configuration:\n"

  function HeaderLines(): seq<string> {
    [TITLE, RULE, BLANK, MEMORY_TITLE, RULE]
  }

  function MemoryLines(c: Config): seq<string> {
    [ValueLine(c, 0), ValueLine(c, 1), ValueLine(c, 2), ValueLine(c, 3), ValueLine(c, 4)]
  }

  function CpuLines(c: Config): seq<string> {
    [BLANK, CPU_TITLE, RULE, ValueLine(c, 5), ValueLine(c, 6)]
  }

  function Lines(c: Config): seq<string> {
    HeaderLines() + MemoryLines(c) + CpuLines(c)
  }

  function Flatten(lines: seq<string>): string {
    if lines == [] then "" else lines[0] + Flatten(lines[1..])
  }

  // ------------------------------------------------------------------ scanning

  predicate IsSpace(c: char) {
    c == ' ' || '\t' <= c <= '\r'
  }

  function SkipSpace(s: string): string {
    if s != "" && IsSpace(s[0]) then SkipSpace(s[1..]) else s
  }

  /** Matches the part of a `scanf` format before its conversion: a space stands
      for any amount of white space, anything else for itself. */
  function MatchLabel(prefix: string, s: string): Option<string>
    decreases |prefix|
  {
    if prefix == "" then Some(s)
    else if IsSpace(prefix[0]) then MatchLabel(prefix[1..], SkipSpace(s))
    else if s != "" && s[0] == prefix[0] then MatchLabel(prefix[1..], s[1..])
    else None
  }

  function DigitsOf(s: string): (d: string)
    ensures Decimal.AllDigits(d)
  {
    if s != "" && Decimal.IsDigit(s[0]) then [s[0]] + DigitsOf(s[1..]) else ""
  }

  datatype Number = Number(negative: bool, magnitude: nat)

  function ScanNumber(s: string): Option<Number> {
    ScanSigned(SkipSpace(s))
  }

  function ScanSigned(t: string): Option<Number> {
    var signed := t != "" && (t[0] == '-' || t[0] == '+');
    var digits := DigitsOf(if signed then t[1..] else t);
    if digits == "" then None else Some(Number(signed && t[0] == '-', Decimal.Value(digits)))
  }

  /** `%lu` saturates, and takes a minus sign modulo 2^64. */
  function ToUlong(n: Number): (v: int)
    ensures IsUlong(v)
  {
    if n.magnitude >= ULONG_LIMIT then ULONG_LIMIT - 1
    else if n.negative then (ULONG_LIMIT - n.magnitude) % ULONG_LIMIT
    else n.magnitude
  }

  /** `%d` saturates to 64 bits and then keeps 32 of them. */
  function ToInt(n: Number): (v: int)
    ensures IsInt(v)
  {
    var limit := ULONG_LIMIT / 2;
    var m: int := n.magnitude;
    var long: int := if n.negative then (if m > limit then -limit else -m)
                     else (if m >= limit then limit - 1 else m);
    (long + INT_LIMIT) % (2 * INT_LIMIT) - INT_LIMIT
  }

  /** `sscanf(line, format, &field) == 1`, with the value it stores. */
  function ScanLine(k: Key, line: string): Option<int> {
    var rest := MatchLabel(Label(k), line);
    if rest.None? then None
    else
      var n := ScanNumber(rest.value);
      if n.None? then None else Some(if k < 4 then ToUlong(n.value) else ToInt(n.value))
  }

  /** The chain of `if (sscanf(...) == 1) continue;` from format `k` on. */
  function LoadLine(c: Config, line: string, k: nat := 0): Config
    requires k <= 7
    decreases 7 - k
  {
    if k == 7 then c
    else
      var v := ScanLine(k, line);
      if v.Some? then Set(c, k, v.value) else LoadLine(c, line, k + 1)
  }

  /** How many characters `fgets` takes: through the newline, at most 255. */
  function LineLength(text: string, room: nat := LINE_SIZE): (n: nat)
    requires text != "" && room > 0
    ensures 0 < n <= |text|
    decreases room
  {
    if text[0] == '\n' || |text| == 1 || room == 1 then 1
    else 1 + LineLength(text[1..], room - 1)
  }

  function LoadLines(c: Config, text: string): Config
    decreases |text|
  {
    if text == "" then c
    else LoadLines(LoadLine(c, text[..LineLength(text)]), text[LineLength(text)..])
  }

  const ZERO := Config(0, 0, 0, 0, 0, 0, 0)

  function Default(k: Key): int {
    match k
    case 0 => 1024 * 1024
    case 1 => 512 * 1024
    case 2 => 1024 * 1024
    case 3 => 512 * 1024
    case 4 => 1
    case 5 => 1
    case _ => 1024
  }

  function Filled(v: int, k: Key): int {
    if v == 0 then Default(k) else v
  }

  function FillDefaults(c: Config): Config {
    Config(Filled(c.memoryMax, 0), Filled(c.memoryHigh, 1), Filled(c.swapMax, 2), Filled(c.swapHigh, 3),
           Filled(c.oomProtection, 4), Filled(c.processors, 5), Filled(c.cpuShare, 6))
  }

  function Load(text: string): Config {
    FillDefaults(LoadLines(ZERO, text))
  }

  /** A file that cannot be opened leaves every setting zero. */
  function LoadFile(file: Option<string>): Config {
    if file.Some? then Load(file.value) else ZERO
  }

  // ------------------------------------------------------------------- methods

  lemma {:induction false} FlattenConcat(a: seq<string>, b: seq<string>)
    ensures Flatten(a + b) == Flatten(a) + Flatten(b)
    decreases |a|
  {
    if a == [] {
      assert a + b == b;
    } else {
      assert (a + b)[1..] == a[1..] + b;
      FlattenConcat(a[1..], b);
    }
  }

  lemma FlattenFive(a: string, b: string, c: string, d: string, e: string)
    ensures Flatten([a, b, c, d, e]) == a + b + c + d + e
  {
    hide Flatten;
    FlattenCons(a, [b, c, d, e]);
    FlattenCons(b, [c, d, e]);
    FlattenCons(c, [d, e]);
    FlattenCons(d, [e]);
    FlattenCons(e, []);
    FlattenNone();
    assert [a, b, c, d, e] == [a] + [b, c, d, e] && [b, c, d, e] == [b] + [c, d, e];
    assert [c, d, e] == [c] + [d, e] && [d, e] == [d] + [e] && [e] == [e] + [];
    assert e + "" == e;
    assert a + (b + (c + (d + e))) == a + b + c + d + e;
  }

  lemma FlattenCons(a: string, rest: seq<string>)
    ensures Flatten([a] + rest) == a + Flatten(rest)
  {
    assert ([a] + rest)[1..] == rest;
  }

  lemma FlattenNone()
    ensures Flatten([]) == ""
  {
  }

  method SaveConfig(c: Config) returns (text: string)
    ensures text == Flatten(Lines(c))
  {
    text := TITLE + RULE + BLANK + MEMORY_TITLE + RULE;
    FlattenFive(TITLE, RULE, BLANK, MEMORY_TITLE, RULE);
    var memory := ValueLine(c, 0) + ValueLine(c, 1) + ValueLine(c, 2) + ValueLine(c, 3) + ValueLine(c, 4);
    FlattenFive(ValueLine(c, 0), ValueLine(c, 1), ValueLine(c, 2), ValueLine(c, 3), ValueLine(c, 4));
    text := text + memory;
    FlattenConcat(HeaderLines(), MemoryLines(c));
    var cpu := BLANK + CPU_TITLE + RULE + ValueLine(c, 5) + ValueLine(c, 6);
    FlattenFive(BLANK, CPU_TITLE, RULE, ValueLine(c, 5), ValueLine(c, 6));
    text := text + cpu;
    FlattenConcat(HeaderLines() + MemoryLines(c), CpuLines(c));
  }

  /** `None` is a file that cannot be opened. */
  method LoadConfig(file: Option<string>) returns (c: Config)
    ensures c == LoadFile(file)
  {
    c := ZERO;
    if file.None? {
      return;
    }
    var rest := file.value;
    while rest != ""
      invariant LoadLines(c, rest) == LoadLines(ZERO, file.value)
      decreases |rest|
    {
      var n := LineLength(rest);
      var line := rest[..n];
      rest := rest[n..];
      c := LoadLine(c, line);
    }
    if c.memoryMax == 0 { c := c.(memoryMax := 1024 * 1024); }
    if c.memoryHigh == 0 { c := c.(memoryHigh := 512 * 1024); }
    if c.swapMax == 0 { c := c.(swapMax := 1024 * 1024); }
    if c.swapHigh == 0 { c := c.(swapHigh := 512 * 1024); }
    if c.processors == 0 { c := c.(processors := 1); }
    if c.cpuShare == 0 { c := c.(cpuShare := 1024); }
    if c.oomProtection == 0 { c := c.(oomProtection := 1); }
  }

  // ------------------------------------------------------- numbers round trip

  lemma {:induction false} DigitsEnd(d: string, rest: string)
    requires Decimal.AllDigits(d) && (rest != "" ==> !Decimal.IsDigit(rest[0]))
    ensures DigitsOf(d + rest) == d
    decreases |d|
  {
    if d == "" {
      assert d + rest == rest;
    } else {
      assert (d + rest)[1..] == d[1..] + rest;
      DigitsEnd(d[1..], rest);
    }
  }

  predicate EndsNumber(rest: string) {
    rest != "" ==> !Decimal.IsDigit(rest[0])
  }

  lemma PrintedDigits(m: nat, rest: string)
    requires EndsNumber(rest)
    ensures var s := Decimal.Print(m) + rest;
      && DigitsOf(s) == Decimal.Print(m)
      && s[0] != '-' && s[0] != '+' && !IsSpace(s[0])
  {
    DigitsEnd(Decimal.Print(m), rest);
    assert (Decimal.Print(m) + rest)[0] == Decimal.Print(m)[0];
    assert Decimal.IsDigit(Decimal.Print(m)[0]);
  }

  lemma NothingToSkip(s: string)
    requires s != "" && !IsSpace(s[0])
    ensures ScanNumber(s) == ScanSigned(s)
  {
  }

  lemma UnsignedRoundTrip(m: nat, rest: string)
    requires EndsNumber(rest)
    ensures ScanSigned(Decimal.Print(m) + rest) == Some(Number(false, m))
    ensures ScanSigned("-" + (Decimal.Print(m) + rest)) == Some(Number(true, m))
  {
    PrintedDigits(m, rest);
    Decimal.ValueOfPrint(m);
    assert ("-" + (Decimal.Print(m) + rest))[1..] == Decimal.Print(m) + rest;
  }

  lemma NumberRoundTrip(v: int, rest: string)
    requires EndsNumber(rest)
    ensures ScanNumber(PrintInt(v) + rest) == Some(Number(v < 0, if v < 0 then -v else v))
  {
    var m: nat := if v < 0 then -v else v;
    UnsignedRoundTrip(m, rest);
    PrintedDigits(m, rest);
    if v < 0 {
      Assoc("-", Decimal.Print(m), rest);
    }
    NothingToSkip(PrintInt(v) + rest);
  }

  // ------------------------------------------------------------ labels differ

  /** Single spaces only, so that each matches itself. */
  predicate Tidy(q: string) {
    forall i :: 0 < i < |q| && IsSpace(q[i]) ==> !IsSpace(q[i - 1])
  }

  predicate StartsWord(s: string) {
    s != "" && !IsSpace(s[0])
  }

  lemma {:induction false} MatchCommon(q: string, prefix: string, s: string)
    requires Tidy(q) && StartsWord(s)
    ensures MatchLabel(q + prefix, q + s) == MatchLabel(prefix, s)
    decreases |q|
  {
    if q == "" {
      assert q + prefix == prefix && q + s == s;
    } else {
      assert (q + prefix)[1..] == q[1..] + prefix && (q + s)[1..] == q[1..] + s;
      MatchCommon(q[1..], prefix, s);
      if IsSpace(q[0]) {
        assert |q| > 1 ==> !IsSpace(q[1]);
        assert SkipSpace(q[1..] + s) == q[1..] + s;
      }
    }
  }

  /** A label and a line that agree on `q` and then differ. */
  lemma Clash(q: string, p: string, s: string)
    requires Tidy(q) && StartsWord(p) && StartsWord(s) && p[0] != s[0]
    ensures MatchLabel(q + p, q + s) == None
  {
    MatchCommon(q, p, s);
  }

  lemma Assoc(a: string, b: string, c: string)
    ensures (a + b) + c == a + (b + c)
  {
  }

  lemma MemoryTidy()
    ensures Tidy(MEMORY) && Tidy(SIZE) && SIZE[0] == 'S'
  {
  }

  lemma SwapTidy()
    ensures Tidy(SWAP)
  {
  }

  lemma AllocatedTidy()
    ensures Tidy(ALLOCATED)
  {
  }

  lemma StemsTidy(k: Key)
    ensures Tidy(Stem(k)) && Tidy(MEMORY)
  {
    MemoryTidy();
    SwapTidy();
    AllocatedTidy();
  }

  lemma SizesTidy()
    ensures Tidy(MAX) && Tidy(HIGH) && Tidy(SHARE)
  {
  }

  lemma ProtectionTidy()
    ensures Tidy(OOM)
  {
  }

  lemma LogicalTidy()
    ensures Tidy(LOGICAL)
  {
  }

  lemma WordTidy(k: Key)
    ensures Tidy(Word(k))
  {
    SizesTidy();
    ProtectionTidy();
    LogicalTidy();
  }

  lemma FirstLetters(k: Key)
    ensures StartsWord(Stem(k)) && StartsWord(Word(k)) && StartsWord(SIZE)
    ensures Stem(k)[0] == if k == 2 || k == 3 then 'S' else if k >= 5 then 'A' else 'M'
    ensures Word(k)[0] == if k == 0 || k == 2 then 'M' else if k == 1 || k == 3 then 'H'
                          else if k == 4 then 'O' else if k == 5 then 'L' else 'C'
    ensures SIZE[0] == 'S'
  {
  }

  lemma ClashAtOnce(k: Key, line: string)
    requires StartsWord(line) && line[0] != Stem(k)[0]
    ensures ScanLine(k, line) == None
  {
    FirstLetters(k);
    assert Label(k)[0] == Stem(k)[0];
    Clash("", Label(k), line);
    assert "" + Label(k) == Label(k) && "" + line == line;
  }

  lemma SameStemClash(j: Key, k: Key, tail: string)
    requires Stem(j) == Stem(k) && Word(j)[0] != Word(k)[0]
    ensures ScanLine(j, Label(k) + tail) == None
  {
    FirstLetters(j);
    FirstLetters(k);
    StemsTidy(k);
    Assoc(Stem(k), Word(k), tail);
    Clash(Stem(k), Word(j), Word(k) + tail);
  }

  lemma MemoryClash(j: Key, line: string)
    requires j < 2 && StartsWord(line) && line[0] != 'S'
    ensures ScanLine(j, MEMORY + line) == None
  {
    FirstLetters(j);
    StemsTidy(j);
    Assoc(MEMORY, SIZE, Word(j));
    Clash(MEMORY, SIZE + Word(j), line);
  }

  /** No format but its own reads a label: the earlier ones fail. */
  lemma LabelsClash(j: Key, k: Key, tail: string)
    requires j < k
    ensures ScanLine(j, Label(k) + tail) == None
  {
    FirstLetters(j);
    FirstLetters(k);
    if Stem(j) == Stem(k) {
      SameStemClash(j, k, tail);
    } else if k == 4 && j < 2 {
      Assoc(MEMORY, Word(4), tail);
      MemoryClash(j, Word(4) + tail);
    } else {
      ClashAtOnce(j, Label(k) + tail);
    }
  }

  lemma LabelMatches(k: Key, tail: string)
    requires StartsWord(tail)
    ensures MatchLabel(Label(k), Label(k) + tail) == Some(tail)
  {
    FirstLetters(k);
    StemsTidy(k);
    WordTidy(k);
    Assoc(Stem(k), Word(k), tail);
    MatchCommon(Stem(k), Word(k), Word(k) + tail);
    assert Word(k) + "" == Word(k);
    MatchCommon(Word(k), "", tail);
  }

  /** No format reads a title, a rule or an empty line. */
  lemma TitlesClash(k: Key)
    ensures ScanLine(k, RULE) == None && ScanLine(k, CPU_TITLE) == None && ScanLine(k, MEMORY_TITLE) == None
  {
    FirstLetters(k);
    ClashAtOnce(k, RULE);
    ClashAtOnce(k, CPU_TITLE);
    var rest := "Configuration:\n";
    if k < 2 {
      MemoryClash(k, rest);
    } else if k == 4 {
      StemsTidy(4);
      Clash(MEMORY, Word(4), rest);
    } else {
      ClashAtOnce(k, MEMORY_TITLE);
    }
  }

  lemma TitleClashes(k: Key)
    ensures ScanLine(k, TITLE) == None
  {
    FirstLetters(k);
    if k == 2 || k == 3 {
      assert Label(k)[0] == 'S' && Label(k)[1] == 'w' && TITLE[1] == 'y';
      assert MatchLabel(Label(k), TITLE) == MatchLabel(Label(k)[1..], TITLE[1..]) == None;
    } else {
      ClashAtOnce(k, TITLE);
    }
  }

  lemma BlankClashes(k: Key)
    ensures ScanLine(k, BLANK) == None
  {
    FirstLetters(k);
    assert Label(k)[0] == Stem(k)[0];
  }

  lemma {:induction false} NothingScans(c: Config, line: string, k: nat)
    requires k <= 7 && forall j: Key :: k <= j ==> ScanLine(j, line) == None
    ensures LoadLine(c, line, k) == c
    decreases 7 - k
  {
    if k < 7 { NothingScans(c, line, k + 1); }
  }

  lemma ToUlongId(v: int)
    requires IsUlong(v)
    ensures ToUlong(Number(v < 0, if v < 0 then -v else v)) == v
  {
  }

  lemma ToIntId(v: int)
    requires IsInt(v)
    ensures ToInt(Number(v < 0, if v < 0 then -v else v)) == v
  {
  }

  /** A value's own format reads it back. */
  lemma ValueScans(c: Config, k: Key)
    requires InRange(c)
    ensures ScanLine(k, ValueLine(c, k)) == Some(Get(c, k))
  {
    var v, tail := Get(c, k), PrintInt(Get(c, k)) + Ending(k);
    Assoc(Label(k), PrintInt(v), Ending(k));
    NumberRoundTrip(v, Ending(k));
    PrintStartsWord(v, Ending(k));
    LabelMatches(k, tail);
    if k < 4 { ToUlongId(v); } else { ToIntId(v); }
  }

  lemma PrintStartsWord(v: int, rest: string)
    ensures StartsWord(PrintInt(v) + rest)
  {
    var m: nat := if v < 0 then -v else v;
    assert Decimal.IsDigit(Decimal.Print(m)[0]);
  }

  lemma {:induction false} ValueLoads(c0: Config, c: Config, k: Key, j: nat)
    requires InRange(c) && j <= k
    ensures LoadLine(c0, ValueLine(c, k), j) == Set(c0, k, Get(c, k))
    decreases k - j
  {
    if j < k {
      Assoc(Label(k), PrintInt(Get(c, k)), Ending(k));
      LabelsClash(j, k, PrintInt(Get(c, k)) + Ending(k));
      ValueLoads(c0, c, k, j + 1);
    } else {
      ValueScans(c, k);
    }
  }

  // -------------------------------------------------------------- whole files

  /** What one call of `fgets` returns whole. */
  predicate IsLine(s: string) {
    0 < |s| <= LINE_SIZE && s[|s| - 1] == '\n' && forall i :: 0 <= i < |s| - 1 ==> s[i] != '\n'
  }

  lemma {:induction false} LineTaken(line: string, rest: string, room: nat)
    requires 0 < |line| <= room && line[|line| - 1] == '\n'
    requires forall i :: 0 <= i < |line| - 1 ==> line[i] != '\n'
    ensures LineLength(line + rest, room) == |line|
    decreases |line|
  {
    if |line| > 1 {
      assert (line + rest)[1..] == line[1..] + rest;
      LineTaken(line[1..], rest, room - 1);
    }
  }

  lemma LoadsOne(c: Config, line: string, rest: string)
    requires IsLine(line)
    ensures LoadLines(c, line + rest) == LoadLines(LoadLine(c, line), rest)
  {
    LineTaken(line, rest, LINE_SIZE);
    assert (line + rest)[..|line|] == line && (line + rest)[|line|..] == rest;
  }

  function LoadAll(c: Config, lines: seq<string>): Config
    decreases |lines|
  {
    if lines == [] then c else LoadAll(LoadLine(c, lines[0]), lines[1..])
  }

  lemma {:induction false} LoadsAll(c: Config, lines: seq<string>, rest: string)
    requires forall i :: 0 <= i < |lines| ==> IsLine(lines[i])
    ensures LoadLines(c, Flatten(lines) + rest) == LoadLines(LoadAll(c, lines), rest)
    decreases |lines|
  {
    if lines == [] {
      assert Flatten(lines) + rest == rest;
    } else {
      Assoc(lines[0], Flatten(lines[1..]), rest);
      LoadsOne(c, lines[0], Flatten(lines[1..]) + rest);
      LoadsAll(LoadLine(c, lines[0]), lines[1..], rest);
    }
  }

  lemma LoadFive(c: Config, l0: string, l1: string, l2: string, l3: string, l4: string)
    ensures LoadAll(c, [l0, l1, l2, l3, l4])
            == LoadLine(LoadLine(LoadLine(LoadLine(LoadLine(c, l0), l1), l2), l3), l4)
  {
    assert [l0, l1, l2, l3, l4][1..] == [l1, l2, l3, l4];
    assert [l1, l2, l3, l4][1..] == [l2, l3, l4];
    assert [l2, l3, l4][1..] == [l3, l4];
    assert [l3, l4][1..] == [l4];
    assert [l4][1..] == [];
    assert LoadAll(LoadLine(c, l0), [l1, l2, l3, l4])
           == LoadAll(LoadLine(LoadLine(c, l0), l1), [l2, l3, l4]);
    assert LoadAll(LoadLine(LoadLine(LoadLine(c, l0), l1), l2), [l3, l4])
           == LoadAll(LoadLine(LoadLine(LoadLine(LoadLine(c, l0), l1), l2), l3), [l4]);
  }

  lemma NumberIsShort(v: int)
    requires IsUlong(v) || IsInt(v)
    ensures |PrintInt(v)| <= 21 && forall i :: 0 <= i < |PrintInt(v)| ==> PrintInt(v)[i] != '\n'
  {
    var m: nat := if v < 0 then -v else v;
    assert Decimal.Pow10(20) > m by {
      assert Decimal.Pow10(10) == 1_0000_000_000;
      assert Decimal.Pow10(15) == 1_000_000_000_000_000;
    }
    Decimal.PrintLength(m, 20);
  }

  lemma LabelIsShort(k: Key)
    ensures |Label(k)| <= 40 && forall i :: 0 <= i < |Label(k)| ==> Label(k)[i] != '\n'
  {
    assert forall i :: 0 <= i < |Stem(k)| ==> Stem(k)[i] != '\n';
    assert forall i :: 0 <= i < |Word(k)| ==> Word(k)[i] != '\n';
  }

  lemma ValueLineIsLine(c: Config, k: Key)
    requires InRange(c)
    ensures IsLine(ValueLine(c, k))
  {
    NumberIsShort(Get(c, k));
    LabelIsShort(k);
  }

  lemma HeadersAreLines()
    ensures forall i :: 0 <= i < 5 ==> IsLine(HeaderLines()[i])
    ensures IsLine(BLANK) && IsLine(CPU_TITLE) && IsLine(RULE)
  {
    assert IsLine(TITLE) && IsLine(RULE);
    assert IsLine(BLANK) && IsLine(MEMORY_TITLE) && IsLine(CPU_TITLE);
  }

  lemma HeaderLoads(c: Config)
    ensures LoadLine(c, TITLE) == LoadLine(c, RULE) == LoadLine(c, BLANK) == c
    ensures LoadLine(c, MEMORY_TITLE) == LoadLine(c, CPU_TITLE) == c
  {
    forall k: Key
      ensures ScanLine(k, TITLE) == None && ScanLine(k, BLANK) == None && ScanLine(k, RULE) == None
      ensures ScanLine(k, MEMORY_TITLE) == None && ScanLine(k, CPU_TITLE) == None
    {
      TitleClashes(k);
      BlankClashes(k);
      TitlesClash(k);
    }
    NothingScans(c, TITLE, 0);
    NothingScans(c, RULE, 0);
    NothingScans(c, BLANK, 0);
    NothingScans(c, MEMORY_TITLE, 0);
    NothingScans(c, CPU_TITLE, 0);
  }

  lemma MemoryLoads(c: Config)
    requires InRange(c)
    ensures LoadAll(ZERO, MemoryLines(c)) == c.(processors := 0, cpuShare := 0)
  {
    var c1 := Set(ZERO, 0, c.memoryMax);
    var c2 := Set(c1, 1, c.memoryHigh);
    var c3 := Set(c2, 2, c.swapMax);
    var c4 := Set(c3, 3, c.swapHigh);
    ValueLoads(ZERO, c, 0, 0);
    ValueLoads(c1, c, 1, 0);
    ValueLoads(c2, c, 2, 0);
    ValueLoads(c3, c, 3, 0);
    ValueLoads(c4, c, 4, 0);
    LoadFive(ZERO, ValueLine(c, 0), ValueLine(c, 1), ValueLine(c, 2), ValueLine(c, 3), ValueLine(c, 4));
  }

  lemma CpuLoads(c: Config)
    requires InRange(c)
    ensures LoadAll(c.(processors := 0, cpuShare := 0), CpuLines(c)) == c
  {
    hide LoadLine;
    hide ValueLine;
    var c0 := c.(processors := 0, cpuShare := 0);
    HeaderLoads(c0);
    ValueLoads(c0, c, 5, 0);
    ValueLoads(Set(c0, 5, c.processors), c, 6, 0);
    LoadFive(c0, BLANK, CPU_TITLE, RULE, ValueLine(c, 5), ValueLine(c, 6));
  }

  lemma HeaderPart(rest: string)
    ensures LoadLines(ZERO, Flatten(HeaderLines()) + rest) == LoadLines(ZERO, rest)
  {
    HeadersAreLines();
    HeaderLoads(ZERO);
    LoadFive(ZERO, TITLE, RULE, BLANK, MEMORY_TITLE, RULE);
    LoadsAll(ZERO, HeaderLines(), rest);
  }

  lemma MemoryAreLines(c: Config)
    requires InRange(c)
    ensures forall i :: 0 <= i < 5 ==> IsLine(MemoryLines(c)[i])
  {
    hide ValueLine;
    hide IsLine;
    ValueLineIsLine(c, 0);
    ValueLineIsLine(c, 1);
    ValueLineIsLine(c, 2);
    ValueLineIsLine(c, 3);
    ValueLineIsLine(c, 4);
  }

  lemma MemoryPart(c: Config, rest: string)
    requires InRange(c)
    ensures LoadLines(ZERO, Flatten(MemoryLines(c)) + rest) == LoadLines(c.(processors := 0, cpuShare := 0), rest)
  {
    MemoryAreLines(c);
    MemoryLoads(c);
    LoadsAll(ZERO, MemoryLines(c), rest);
  }

  lemma CpuPart(c: Config)
    requires InRange(c)
    ensures LoadLines(c.(processors := 0, cpuShare := 0), Flatten(CpuLines(c)) + "") == c
  {
    hide IsLine;
    hide ValueLine;
    hide LoadLines;
    hide LoadAll;
    hide Flatten;
    ValueLineIsLine(c, 5);
    ValueLineIsLine(c, 6);
    HeadersAreLines();
    CpuLoads(c);
    LoadsAll(c.(processors := 0, cpuShare := 0), CpuLines(c), "");
    NothingLeft(c);
  }

  lemma NothingLeft(c: Config)
    ensures LoadLines(c, "") == c
  {
  }

  lemma LinesLoad(c: Config)
    requires InRange(c)
    ensures LoadLines(ZERO, Flatten(Lines(c))) == c
  {
    var header, memory, cpu := Flatten(HeaderLines()), Flatten(MemoryLines(c)), Flatten(CpuLines(c)) + "";
    FlattenConcat(HeaderLines() + MemoryLines(c), CpuLines(c));
    FlattenConcat(HeaderLines(), MemoryLines(c));
    assert Flatten(Lines(c)) == (header + memory) + cpu;
    Assoc(header, memory, cpu);
    HeaderPart(memory + cpu);
    MemoryPart(c, cpu);
    CpuPart(c);
  }

  // ---------------------------------------------------------------- theorems

  /** The file in full, as `printf` writes it. */
  function HeaderText(): string {
    "System Configuration:\n" + "----------------------\n"
    + "\nMemory Configuration:\n" + "----------------------\n"
  }

  function MemoryText(c: Config): string {
    ("Memory Size (Max): " + PrintInt(c.memoryMax) + " kB\n")
    + ("Memory Size (High): " + PrintInt(c.memoryHigh) + " kB\n")
    + ("Swap Memory Size (Max): " + PrintInt(c.swapMax) + " kB\n")
    + ("Swap Memory Size (High): " + PrintInt(c.swapHigh) + " kB\n")
    + ("Memory OOM Protection: " + PrintInt(c.oomProtection) + "\n")
  }

  function CpuText(c: Config): string {
    "\nCPU Configuration:\n" + "----------------------\n"
    + ("Allocated Logical Processors: " + PrintInt(c.processors) + "\n")
    + ("Allocated CPU Share: " + PrintInt(c.cpuShare) + "\n")
  }

  lemma SizeLabels()
    ensures Label(0) == "Memory Size (Max): " && Label(1) == "Memory Size (High): "
    ensures Label(2) == "Swap Memory Size (Max): " && Label(3) == "Swap Memory Size (High): "
  {
  }

  lemma ProtectionLabel()
    ensures Label(4) == "Memory OOM Protection: "
  {
  }

  lemma CpuLabels()
    ensures Label(5) == "Allocated Logical Processors: " && Label(6) == "Allocated CPU Share: "
  {
  }

  lemma HeaderTextIs()
    ensures TITLE + RULE + BLANK + MEMORY_TITLE + RULE == HeaderText()
  {
    var memory := "\nMemory Configuration:\n";
    assert BLANK + MEMORY_TITLE == memory;
    assert TITLE + RULE + BLANK + MEMORY_TITLE + RULE == TITLE + RULE + (BLANK + MEMORY_TITLE) + RULE;
  }

  lemma CpuTitleIs()
    ensures BLANK + CPU_TITLE + RULE == "\nCPU Configuration:\n" + RULE
  {
  }

  /** The saved file is that text. */
  lemma SavedText(c: Config)
    ensures Flatten(Lines(c)) == HeaderText() + MemoryText(c) + CpuText(c)
  {
    hide Flatten;
    hide PrintInt;
    hide Label;
    hide HeaderText;
    FlattenConcat(HeaderLines() + MemoryLines(c), CpuLines(c));
    FlattenConcat(HeaderLines(), MemoryLines(c));
    FlattenFive(TITLE, RULE, BLANK, MEMORY_TITLE, RULE);
    HeaderTextIs();
    SizeLabels();
    ProtectionLabel();
    CpuLabels();
    FlattenFive(ValueLine(c, 0), ValueLine(c, 1), ValueLine(c, 2), ValueLine(c, 3), ValueLine(c, 4));
    FlattenFive(BLANK, CPU_TITLE, RULE, ValueLine(c, 5), ValueLine(c, 6));
    CpuTitleIs();
  }

  function OrElse(v: int, default: int): int {
    if v == 0 then default else v
  }

  /** Loading what was saved gives the configuration back with its zeros filled in. */
  lemma ConfigRoundTrip(c: Config)
    requires InRange(c)
    ensures Load(Flatten(Lines(c))) ==
      Config(OrElse(c.memoryMax, 1048576), OrElse(c.memoryHigh, 524288),
             OrElse(c.swapMax, 1048576), OrElse(c.swapHigh, 524288),
             OrElse(c.oomProtection, 1), OrElse(c.processors, 1), OrElse(c.cpuShare, 1024))
  {
    hide Flatten;
    hide Lines;
    hide LoadLines;
    LinesLoad(c);
  }

  lemma {:induction false} LoadLineInRange(c: Config, line: string, k: nat)
    requires InRange(c) && k <= 7
    ensures InRange(LoadLine(c, line, k))
    decreases 7 - k
  {
    if k < 7 { LoadLineInRange(c, line, k + 1); }
  }

  lemma {:induction false} LoadLinesInRange(c: Config, text: string)
    requires InRange(c)
    ensures InRange(LoadLines(c, text))
    decreases |text|
  {
    if text != "" {
      var n := LineLength(text);
      LoadLineInRange(c, text[..n], 0);
      LoadLinesInRange(LoadLine(c, text[..n]), text[n..]);
    }
  }

  /** Saving what was loaded and loading it again changes nothing if and only if
      there was a file: without one the result has all zeros, not the defaults. */
  lemma SaveLoadStable(file: Option<string>)
    ensures Load(Flatten(Lines(LoadFile(file)))) == LoadFile(file) <==> file.Some?
  {
    hide Flatten;
    hide Lines;
    if file.Some? {
      LoadLinesInRange(ZERO, file.value);
    }
    ConfigRoundTrip(LoadFile(file));
  }
}
