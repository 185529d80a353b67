/** The string operations the cheat list format relies on, with the standard library's conventions. */
module Text {
  import opened Machine

  predicate IsWhite(c: char) {
    var n := c as int;
    0x9 <= n <= 0xD || n == 0x20 || n == 0x85 || n == 0xA0 || n == 0x1680 || 0x2000 <= n <= 0x200A
    || n == 0x2028 || n == 0x2029 || n == 0x202F || n == 0x205F || n == 0x3000
  }

  function TrimStart(s: string): string { if s != "" && IsWhite(s[0]) then TrimStart(s[1..]) else s }

  function TrimEnd(s: string): string { if s != "" && IsWhite(s[|s| - 1]) then TrimEnd(s[..|s| - 1]) else s }

  function Trim(s: string): string { TrimEnd(TrimStart(s)) }

  predicate Lacks(s: string, c: char) { forall i :: 0 <= i < |s| ==> s[i] != c }

  /** Where `c` first occurs. */
  function Find(s: string, c: char): (r: Option<nat>)
    ensures r.Some? ==> r.value < |s| && s[r.value] == c && Lacks(s[..r.value], c)
    ensures r.None? ==> Lacks(s, c)
  {
    if s == "" then None
    else if s[0] == c then Some(0)
    else match Find(s[1..], c) { case None => None case Some(n) => Some(n + 1) }
  }

  /** Up to the first `c`, and what follows it. */
  function SplitOnce(s: string, c: char): Option<(string, string)> {
    match Find(s, c) { case None => None case Some(n) => Some((s[..n], s[n + 1..])) }
  }

  lemma {:induction false} FindAfter(a: string, c: char, b: string)
    requires Lacks(a, c)
    ensures Find(a + [c] + b, c) == Some(|a|)
    ensures SplitOnce(a + [c] + b, c) == Some((a, b))
  {
    var s := a + [c] + b;
    if a != "" {
      assert s[1..] == a[1..] + [c] + b;
      FindAfter(a[1..], c, b);
    }
    assert s[..|a|] == a && s[|a| + 1..] == b;
  }

  lemma {:induction false} LackedIsNotFound(s: string, c: char)
    requires Lacks(s, c)
    ensures Find(s, c) == None
  {
    if s != "" {
      LackedIsNotFound(s[1..], c);
    }
  }

  /** `str::split` by one character. */
  function Split(s: string, c: char): (r: seq<string>)
    ensures |r| > 0
    decreases |s|
  {
    match Find(s, c) { case None => [s] case Some(n) => [s[..n]] + Split(s[n + 1..], c) }
  }

  function Join(parts: seq<string>, c: char): string
    decreases |parts|
  {
    if |parts| == 0 then "" else if |parts| == 1 then parts[0] else parts[0] + [c] + Join(parts[1..], c)
  }

  predicate AllLack(parts: seq<string>, c: char) { forall i :: 0 <= i < |parts| ==> Lacks(parts[i], c) }

  lemma {:induction false} SplitJoin(parts: seq<string>, c: char)
    requires |parts| > 0 && AllLack(parts, c)
    ensures Split(Join(parts, c), c) == parts
    decreases |parts|
  {
    if |parts| == 1 {
      LackedIsNotFound(parts[0], c);
    } else {
      var s := parts[0] + [c] + Join(parts[1..], c);
      FindAfter(parts[0], c, Join(parts[1..], c));
      assert s[..|parts[0]|] == parts[0] && s[|parts[0]| + 1..] == Join(parts[1..], c);
      SplitJoin(parts[1..], c);
    }
  }

  lemma {:induction false} SplitLacks(s: string, c: char)
    ensures AllLack(Split(s, c), c)
    decreases |s|
  {
    match Find(s, c)
    case None =>
    case Some(n) =>
      SplitLacks(s[n + 1..], c);
  }

  // ---- lines ----

  function DropCr(line: string): string { if line != "" && line[|line| - 1] == '\r' then line[..|line| - 1] else line }

  /** `str::lines`: a carriage return before the line feed goes, and a last line feed ends the last line. */
  function Lines(s: string): seq<string>
    decreases |s|
  {
    if s == "" then [] else
    match Find(s, '\n') { case None => [s] case Some(n) => [DropCr(s[..n])] + Lines(s[n + 1..]) }
  }

  function Terminated(lines: seq<string>): string {
    if lines == [] then "" else lines[0] + "\n" + Terminated(lines[1..])
  }

  predicate IsLine(line: string) { Lacks(line, '\n') && DropCr(line) == line }

  predicate AreLines(lines: seq<string>) { forall i :: 0 <= i < |lines| ==> IsLine(lines[i]) }

  lemma {:induction false} LinesOfTerminated(lines: seq<string>)
    requires AreLines(lines)
    ensures Lines(Terminated(lines)) == lines
  {
    if lines != [] {
      var s := lines[0] + "\n" + Terminated(lines[1..]);
      FindAfter(lines[0], '\n', Terminated(lines[1..]));
      assert s[..|lines[0]|] == lines[0] && s[|lines[0]| + 1..] == Terminated(lines[1..]);
      assert IsLine(lines[0]);
      LinesOfTerminated(lines[1..]);
    }
  }

  lemma {:induction false} TerminatedConcat(a: seq<string>, b: seq<string>)
    ensures Terminated(a + b) == Terminated(a) + Terminated(b)
  {
    if a == [] {
      assert a + b == b;
    } else {
      assert (a + b)[1..] == a[1..] + b;
      TerminatedConcat(a[1..], b);
    }
  }

  lemma {:induction false} LinesLack(s: string)
    ensures AllLack(Lines(s), '\n')
    decreases |s|
  {
    if s != "" {
      match Find(s, '\n')
      case None =>
      case Some(n) =>
        LinesLack(s[n + 1..]);
    }
  }

  // ---- trimming ----

  /** Nothing to trim at either end. */
  predicate IsTrimmed(s: string) { s != "" && !IsWhite(s[0]) && !IsWhite(s[|s| - 1]) }

  lemma TrimmedStays(s: string)
    requires IsTrimmed(s)
    ensures TrimStart(s) == TrimEnd(s) == Trim(s) == s
  {
  }

  lemma TrimBefore(s: string)
    requires IsTrimmed(s)
    ensures Trim(" " + s) == s
  {
    var spaced := " " + s;
    assert spaced[1..] == s && IsWhite(spaced[0]);
    assert TrimStart(spaced) == TrimStart(s);
    TrimmedStays(s);
  }

  lemma TrimAfter(s: string)
    requires IsTrimmed(s)
    ensures Trim(s + " ") == s
  {
    assert (s + " ")[..|s|] == s;
    assert TrimStart(s + " ") == s + " ";
    assert TrimEnd(s + " ") == TrimEnd(s);
  }

  lemma {:induction false} TrimEndLacks(s: string, c: char)
    requires Lacks(s, c)
    ensures Lacks(TrimEnd(s), c)
  {
    if s != "" && IsWhite(s[|s| - 1]) {
      TrimEndLacks(s[..|s| - 1], c);
    }
  }

  lemma {:induction false} TrimLacks(s: string, c: char)
    requires Lacks(s, c)
    ensures Lacks(Trim(s), c)
  {
    if s != "" && IsWhite(s[0]) {
      TrimLacks(s[1..], c);
    } else {
      TrimEndLacks(s, c);
    }
  }

  // ---- numbers ----

  /** The value of a digit of either case, if the radix has it. */
  function Digit(c: char, hex: bool): Option<nat> {
    if '0' <= c <= '9' then Some(c as int - '0' as int)
    else if hex && 'A' <= c <= 'F' then Some(c as int - 'A' as int + 10)
    else if hex && 'a' <= c <= 'f' then Some(c as int - 'a' as int + 10)
    else None
  }

  function Digits(s: string, hex: bool): Option<nat> {
    if s == "" then Some(0) else
    match Digits(s[..|s| - 1], hex)
    case None => None
    case Some(high) =>
      match Digit(s[|s| - 1], hex)
      case None => None
      case Some(d) => Some((if hex then 16 * high else 10 * high) + d)
  }

  /** `u32::from_str_radix`: a plus sign may lead, and the number must fit. */
  function ParseU32(s: string, hex: bool): Option<U32> {
    var digits := if |s| > 1 && s[0] == '+' then s[1..] else s;
    if digits == "" then None else
    match Digits(digits, hex)
    case None => None
    case Some(n) => if n <= U32_MAX then Some(n) else None
  }

  function DigitChar(d: nat): char
    requires d < 16
  {
    if d < 10 then (d + '0' as int) as char else (d - 10 + 'A' as int) as char
  }

  function Decimal(n: nat): string {
    (if n < 10 then "" else Decimal(n / 10)) + [DigitChar(n % 10)]
  }

  /** The low `k` hexadecimal digits. */
  function Hex(w: nat, k: nat): string
    decreases k
  {
    if k == 0 then "" else Hex(w / 16, k - 1) + [DigitChar(w % 16)]
  }

  function Pow16(k: nat): nat { if k == 0 then 1 else 16 * Pow16(k - 1) }

  predicate IsDigits(s: string) { forall i :: 0 <= i < |s| ==> ('0' <= s[i] <= '9' || 'A' <= s[i] <= 'F') }

  lemma DigitOfChar(d: nat, hex: bool)
    requires d < if hex then 16 else 10
    ensures Digit(DigitChar(d), hex) == Some(d)
    ensures IsDigits([DigitChar(d)])
  {
  }

  lemma AppendDigit(high: string, h: nat, d: nat)
    requires d < 10 && Digits(high, false) == Some(h)
    ensures Digits(high + [DigitChar(d)], false) == Some(10 * h + d)
  {
    DigitOfChar(d, false);
    LastDigit(high, DigitChar(d), h, d);
  }

  lemma LastDigit(high: string, c: char, h: nat, d: nat)
    requires Digit(c, false) == Some(d) && Digits(high, false) == Some(h)
    ensures Digits(high + [c], false) == Some(10 * h + d)
  {
    var s := high + [c];
    assert s[..|s| - 1] == high;
  }

  lemma {:induction false} DecimalIsDigits(n: nat)
    ensures Decimal(n) != "" && IsDigits(Decimal(n))
  {
    var high := if n < 10 then "" else Decimal(n / 10);
    if n >= 10 {
      DecimalIsDigits(n / 10);
    }
    DigitOfChar(n % 10, false);
    assert Decimal(n) == high + [DigitChar(n % 10)];
  }

  lemma Shift10(n: nat, q: nat, d: nat)
    requires n == 10 * q + d && d < 10
    ensures Decimal(n) == (if q == 0 then "" else Decimal(q)) + [DigitChar(d)]
  {
    assert n / 10 == q && n % 10 == d;
  }

  lemma {:induction false} DigitsOfDecimal(n: nat, q: nat, d: nat)
    requires n == 10 * q + d && d < 10
    ensures Digits(Decimal(n), false) == Some(n)
    decreases n
  {
    Shift10(n, q, d);
    if q == 0 {
      AppendDigit("", 0, d);
      assert Digits("", false) == Some(0);
      assert Decimal(n) == [DigitChar(d)] == "" + [DigitChar(d)];
    } else {
      DigitsOfDecimal(q, q / 10, q % 10);
      AppendDigit(Decimal(q), q, d);
    }
  }

  lemma {:induction false} DigitsOfHex(w: nat, k: nat)
    requires w < Pow16(k)
    ensures |Hex(w, k)| == k && IsDigits(Hex(w, k)) && Digits(Hex(w, k), true) == Some(w)
    decreases k
  {
    if k > 0 {
      DigitsOfHex(w / 16, k - 1);
      var s := Hex(w / 16, k - 1) + [DigitChar(w % 16)];
      assert s[..|s| - 1] == Hex(w / 16, k - 1);
      DigitOfChar(w % 16, true);
    }
  }

  lemma DecimalHasDigits(n: nat)
    ensures Digits(Decimal(n), false) == Some(n)
  {
    DigitsOfDecimal(n, n / 10, n % 10);
  }

  lemma DigitsParse(s: string, hex: bool, n: nat)
    requires s != "" && IsDigits(s) && Digits(s, hex) == Some(n)
    ensures ParseU32(s, hex) == if n <= U32_MAX then Some(n) else None
  {
  }

  lemma DecimalParses(n: nat)
    ensures ParseU32(Decimal(n), false) == if n <= U32_MAX then Some(n) else None
  {
    DecimalIsDigits(n);
    DecimalHasDigits(n);
    DigitsParse(Decimal(n), false, n);
  }

  lemma HexParses(w: U32)
    ensures ParseU32(Hex(w, 8), true) == Some(w) && IsDigits(Hex(w, 8))
  {
    assert Pow16(8) == 0x1_0000_0000;
    DigitsOfHex(w, 8);
    DigitsParse(Hex(w, 8), true, w);
  }
}
