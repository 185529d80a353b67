/** The .cht cheat list: its writer, and a parser that skips what it does not understand. */
module Cht {
  import opened Machine
  import opened Text

  datatype Cheat = Cheat(name: string, code: Option<seq<U32>>, enabled: bool)

  const BLANK := Cheat("", None, false)

  // ---- reading ----

  /** The trimmed key and value of a setting line, if both sides of the first `=` have something. */
  function Fields(line: string): Option<(string, string)> {
    match SplitOnce(TrimEnd(line), '=')
    case None => None
    case Some((left, right)) =>
      var key, value := Trim(left), Trim(right);
      if key == "" || value == "" then None else Some((key, value))
  }

  /** The cheat index and category of a key such as `cheat12_desc`. */
  function Addressed(key: string): Option<(U32, string)> {
    match SplitOnce(key, '_')
    case None => None
    case Some((subkey, category)) =>
      if category == "" || !("cheat" <= subkey) then None else
      match ParseU32(subkey[5..], false)
      case None => None
      case Some(n) => Some((n, category))
  }

  /** A value without its quotes. Slicing panics, here `None`, when there are not two characters or when
      one of the end characters takes more than a byte. */
  function Inner(value: string): Option<string> {
    if |value| >= 2 && value[0] as int < 0x80 && value[|value| - 1] as int < 0x80 then Some(value[1..|value| - 1])
    else None
  }

  function Words(parts: seq<string>): seq<U32> {
    if parts == [] then [] else
    match ParseU32(parts[0], true)
    case None => Words(parts[1..])
    case Some(w) => [w] + Words(parts[1..])
  }

  function SetField(cheat: Cheat, category: string, value: string): Option<Cheat> {
    if category == "desc" then
      match Inner(value) { case None => None case Some(name) => Some(cheat.(name := name)) }
    else if category == "code" then
      match Inner(value) { case None => None case Some(text) => Some(cheat.(code := Some(Words(Split(text, '+'))))) }
    else if category == "enable" then Some(cheat.(enabled := value == "true"))
    else Some(cheat)
  }

  /** Before the first setting; after a valid count; given up on the first setting; panicked. */
  datatype Progress = Waiting | Reading(cheats: seq<Cheat>) | Stopped | Panicked

  function ReadCount(key: string, value: string): Progress {
    if key != "cheats" then Stopped else
    match ParseU32(value, false) { case None => Stopped case Some(n) => Reading(seq(n, _ => BLANK)) }
  }

  function ReadSetting(cheats: seq<Cheat>, key: string, value: string): Progress {
    match Addressed(key)
    case None => Reading(cheats)
    case Some((n, category)) =>
      if n >= |cheats| then Reading(cheats) else
      match SetField(cheats[n], category, value)
      case None => Panicked
      case Some(cheat) => Reading(cheats[n := cheat])
  }

  function ReadLine(p: Progress, line: string): Progress {
    if p.Stopped? || p.Panicked? then p else
    match Fields(line)
    case None => p
    case Some((key, value)) => if p.Waiting? then ReadCount(key, value) else ReadSetting(p.cheats, key, value)
  }

  function ReadLines(p: Progress, lines: seq<string>): Progress
    decreases lines
  {
    if lines == [] then p else ReadLines(ReadLine(p, lines[0]), lines[1..])
  }

  function Result(p: Progress): Option<seq<Cheat>> {
    match p
    case Waiting => Some([])
    case Stopped => Some([])
    case Reading(cheats) => Some(cheats)
    case Panicked => None
  }

  /** `parse`, with `None` for a panic. */
  function Parse(content: string): Option<seq<Cheat>> { Result(ReadLines(Waiting, Lines(content))) }

  // ---- writing ----

  function Key(i: nat): string { "cheat" + Decimal(i) }

  function Setting(key: string, value: string): string { key + " = " + value }

  function Quoted(text: string): string { "\"" + text + "\"" }

  function HexWords(code: seq<U32>): seq<string> { seq(|code|, i requires 0 <= i < |code| => Hex(code[i], 8)) }

  function DescLine(i: nat, cheat: Cheat): string { Setting(Key(i) + "_desc", Quoted(cheat.name)) }

  function CodeLine(i: nat, code: seq<U32>): string { Setting(Key(i) + "_code", Quoted(Join(HexWords(code), '+'))) }

  function EnableLine(i: nat, enabled: bool): string {
    Setting(Key(i) + "_enable", if enabled then "true" else "false")
  }

  /** What `serialize` appends for one cheat. */
  function Block(i: nat, cheat: Cheat): string {
    "\n\n" + DescLine(i, cheat)
    + match cheat.code {
        case None => ""
        case Some(code) => "\n" + CodeLine(i, code) + "\n" + EnableLine(i, cheat.enabled)
      }
  }

  function Blocks(cheats: seq<Cheat>, n: nat): string
    requires n <= |cheats|
  {
    if n == 0 then "" else Blocks(cheats, n - 1) + Block(n - 1, cheats[n - 1])
  }

  function Header(n: nat): string { Setting("cheats", Decimal(n)) }

  /** The text once the first `n` cheats are written. */
  function Written(cheats: seq<Cheat>, n: nat): string
    requires n <= |cheats|
  {
    Header(|cheats|) + Blocks(cheats, n)
  }

  /** `serialize`. */
  function Serialize(cheats: seq<Cheat>): string { Written(cheats, |cheats|) + "\n" }

  lemma Assoc3(a: string, b: string, c: string)
    ensures a + b + c == a + (b + c)
  {
  }

  method AppendCheat(before: string, i: nat, cheat: Cheat) returns (out: string)
    ensures out == before + Block(i, cheat)
  {
    var desc := DescLine(i, cheat);
    out := before + "\n\n" + desc;
    Assoc3(before, "\n\n", desc);
    ghost var head := "\n\n" + desc;
    if cheat.code.Some? {
      var code, enable := CodeLine(i, cheat.code.value), EnableLine(i, cheat.enabled);
      Assoc3(before + head, "\n", code);
      Assoc3(before + head, "\n" + code, "\n" + enable);
      out := out + "\n" + code;
      Assoc3(out, "\n", enable);
      out := out + "\n" + enable;
      Assoc3("\n" + code, "\n", enable);
      Assoc3(before, head, "\n" + code + "\n" + enable);
    } else {
      assert head + "" == head;
    }
  }

  /** `serialize` as the loop it is. */
  method WriteCheats(cheats: seq<Cheat>) returns (out: string)
    ensures out == Serialize(cheats)
  {
    out := Header(|cheats|);
    NothingWritten(cheats);
    for i := 0 to |cheats|
      invariant out == Written(cheats, i)
    {
      out := AppendCheat(out, i, cheats[i]);
      WriteOne(cheats, i);
    }
    out := out + "\n";
  }

  lemma NothingWritten(cheats: seq<Cheat>)
    ensures Written(cheats, 0) == Header(|cheats|)
  {
    assert Header(|cheats|) + "" == Header(|cheats|);
  }

  lemma WriteOne(cheats: seq<Cheat>, i: nat)
    requires i < |cheats|
    ensures Written(cheats, i + 1) == Written(cheats, i) + Block(i, cheats[i])
  {
    Assoc3(Header(|cheats|), Blocks(cheats, i), Block(i, cheats[i]));
  }

  /** `parse` as the loop it is: `first` until a setting has been seen, a `break` when that is no count. */
  method ReadCheats(content: string) returns (r: Option<seq<Cheat>>)
    ensures r == Parse(content)
  {
    var cheats: seq<Cheat>, first := [], true;
    var lines := Lines(content);
    var k := 0;
    while k < |lines|
      invariant 0 <= k <= |lines|
      invariant first ==> cheats == []
      invariant Parse(content) == Result(ReadLines(if first then Waiting else Reading(cheats), lines[k..]))
    {
      assert lines[k..][0] == lines[k] && lines[k..][1..] == lines[k + 1..];
      var fields := Fields(lines[k]);
      k := k + 1;
      if fields.None? {
        continue;
      }
      var (key, value) := fields.value;
      if first {
        first := false;
        var amount := ParseU32(value, false);
        if key != "cheats" || amount.None? {
          StoppedStays(lines[k..]);
          break;
        }
        cheats := seq(amount.value, _ => BLANK);
        continue;
      }
      var address := Addressed(key);
      if address.None? || address.value.0 >= |cheats| {
        continue;
      }
      var (n, category) := address.value;
      var cheat := SetField(cheats[n], category, value);
      if cheat.None? {
        PanickedStays(lines[k..]);
        return None;
      }
      cheats := cheats[n := cheat.value];
    }
    r := Some(cheats);
  }

  lemma {:induction false} StoppedStays(lines: seq<string>)
    ensures ReadLines(Stopped, lines) == Stopped
  {
    if lines != [] {
      StoppedStays(lines[1..]);
    }
  }

  lemma {:induction false} PanickedStays(lines: seq<string>)
    ensures ReadLines(Panicked, lines) == Panicked
  {
    if lines != [] {
      PanickedStays(lines[1..]);
    }
  }
}
