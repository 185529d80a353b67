/**
 The text of a cheat list file, character by character, and what the parser makes of lines that the writer would
 not write: other spacing, other line ends, other values.
 */
module ChtLayout {
  import opened Machine
  import opened Text
  import opened Cht
  import opened ChtLaws

  // ---- numbers ----

  lemma DecimalDigits(n: nat)
    ensures Decimal(n) == (if n < 10 then "" else Decimal(n / 10)) + ["0123456789"[n % 10]]
  {
  }

  lemma HexDigits(w: nat, k: nat)
    ensures Hex(w, 0) == "" && Hex(w, k + 1) == Hex(w / 16, k) + ["0123456789ABCDEF"[w % 16]]
  {
  }

  /** Digits add up from the left, in either case for hexadecimal ones. */
  lemma ReadsDigits(s: string, d: nat, hex: bool, c: char)
    requires d < (if hex then 16 else 10) && (c == "0123456789ABCDEF"[d] || c == "0123456789abcdef"[d])
    ensures Digits("", hex) == Some(0)
    ensures Digits(s + [c], hex)
         == match Digits(s, hex) { case None => None case Some(n) => Some((if hex then 16 else 10) * n + d) }
  {
    assert (s + [c])[..|s|] == s;
    DigitOfEitherCase(d, hex, c);
  }

  lemma DigitOfEitherCase(d: nat, hex: bool, c: char)
    requires d < (if hex then 16 else 10) && (c == "0123456789ABCDEF"[d] || c == "0123456789abcdef"[d])
    ensures Digit(c, hex) == Some(d)
  {
  }

  /** A number is digits that fit, with a plus sign before them or not. */
  lemma ReadsNumber(s: string, hex: bool)
    requires s != "" && s[0] != '+'
    ensures ParseU32(s, hex) == ParseU32("+" + s, hex)
    ensures ParseU32(s, hex)
         == match Digits(s, hex) { case None => None case Some(n) => if n <= 0xFFFF_FFFF then Some(n) else None }
    ensures ParseU32("", hex) == ParseU32("+", hex) == None
  {
    assert ("+" + s)[1..] == s;
    PlusIsNoDigit(hex);
  }

  lemma PlusIsNoDigit(hex: bool)
    ensures ParseU32("+", hex) == None
  {
    assert "+"[..0] == "" && Digit('+', hex) == None;
    assert Digits("+", hex) == None;
  }

  // ---- what is written ----

  /** The words of a code, eight hexadecimal digits each, with plus signs between them. */
  function CodeText(code: seq<U32>): string
    decreases |code|
  {
    if |code| == 0 then ""
    else if |code| == 1 then Hex(code[0], 8)
    else Hex(code[0], 8) + "+" + CodeText(code[1..])
  }

  /** An empty line and the settings of a cheat: its name, and if it has a code, that and whether it is enabled. */
  function CheatText(i: nat, cheat: Cheat): string {
    "\n" + DescText(i, cheat.name)
    + match cheat.code { case None => "" case Some(code) => CodeTextOf(i, code) + EnableText(i, cheat.enabled) }
  }

  function DescText(i: nat, name: string): string { "\ncheat" + Decimal(i) + "_desc = \"" + name + "\"" }

  function CodeTextOf(i: nat, code: seq<U32>): string { "\ncheat" + Decimal(i) + "_code = \"" + CodeText(code) + "\"" }

  function EnableText(i: nat, on: bool): string {
    "\ncheat" + Decimal(i) + "_enable = " + if on then "true" else "false"
  }

  lemma {:induction false} JoinIsCodeText(code: seq<U32>)
    ensures Join(HexWords(code), '+') == CodeText(code)
    decreases |code|
  {
    if |code| > 1 {
      assert HexWords(code)[1..] == HexWords(code[1..]);
      JoinIsCodeText(code[1..]);
    }
  }

  lemma DescLineText(i: nat, cheat: Cheat)
    ensures "\n" + DescLine(i, cheat) == DescText(i, cheat.name)
  {
  }

  lemma CodeLineText(i: nat, code: seq<U32>)
    ensures "\n" + CodeLine(i, code) == CodeTextOf(i, code)
  {
    JoinIsCodeText(code);
    KeyText(i);
    QuotedText("\ncheat" + Decimal(i), Key(i), "_code", "_code = \"", CodeText(code));
  }

  lemma KeyText(i: nat)
    ensures "\n" + Key(i) == "\ncheat" + Decimal(i)
  {
  }

  lemma QuotedText(prefix: string, key: string, category: string, open: string, text: string)
    requires prefix == "\n" + key && open == category + " = \""
    ensures "\n" + Setting(key + category, Quoted(text)) == prefix + open + text + "\""
  {
  }

  lemma EnableLineText(i: nat, enabled: bool)
    ensures "\n" + EnableLine(i, enabled) == EnableText(i, enabled)
  {
  }

  lemma JoinBlock(desc: string, code: string, enable: string)
    ensures "\n\n" + desc + ("\n" + code + "\n" + enable) == "\n" + ("\n" + desc) + (("\n" + code) + ("\n" + enable))
    ensures "\n\n" + desc + "" == "\n" + ("\n" + desc) + ""
  {
  }

  lemma BlockIsCheatText(i: nat, cheat: Cheat)
    ensures Block(i, cheat) == CheatText(i, cheat)
  {
    DescLineText(i, cheat);
    match cheat.code
    case None => JoinBlock(DescLine(i, cheat), "", "");
    case Some(code) =>
      CodeLineText(i, code);
      EnableLineText(i, cheat.enabled);
      JoinBlock(DescLine(i, cheat), CodeLine(i, code), EnableLine(i, cheat.enabled));
  }

  /** The text of the first cheats grows by that of the next. */
  lemma BlocksGrow(cheats: seq<Cheat>, i: nat)
    requires i < |cheats|
    ensures Blocks(cheats, 0) == "" && Blocks(cheats, i + 1) == Blocks(cheats, i) + CheatText(i, cheats[i])
  {
    BlockIsCheatText(i, cheats[i]);
  }

  lemma HeaderText(n: nat)
    ensures Header(n) == "cheats = " + Decimal(n)
  {
  }

  /** The whole file: the count, the text of all cheats, and a last line end. */
  lemma SerializedIs(cheats: seq<Cheat>)
    ensures Serialize(cheats) == "cheats = " + Decimal(|cheats|) + Blocks(cheats, |cheats|) + "\n"
  {
    HeaderText(|cheats|);
  }

  // ---- what is read ----

  predicate AllWhite(s: string) { forall i :: 0 <= i < |s| ==> IsWhite(s[i]) }

  lemma {:induction false} TrimsBefore(white: string, s: string)
    requires AllWhite(white)
    ensures TrimStart(white + s) == TrimStart(s)
  {
    if white == "" {
      assert white + s == s;
    } else {
      assert (white + s)[1..] == white[1..] + s;
      TrimsBefore(white[1..], s);
    }
  }

  lemma {:induction false} TrimsAfter(s: string, white: string)
    requires AllWhite(white)
    ensures TrimEnd(s + white) == TrimEnd(s)
  {
    if white == "" {
      assert s + white == s;
    } else {
      var init := white[..|white| - 1];
      assert (s + white)[..|s + white| - 1] == s + init;
      TrimsAfter(s, init);
    }
  }

  lemma TrimsBoth(before: string, s: string, after: string)
    requires AllWhite(before) && AllWhite(after) && IsTrimmed(s)
    ensures Trim(before + s + after) == s
  {
    assert before + s + after == before + (s + after);
    TrimsBefore(before, s + after);
    assert TrimStart(s + after) == s + after;
    TrimsAfter(s, after);
    TrimmedStays(s);
  }

  lemma TrimsLine(line: string, value: string, after: string)
    requires line != "" && AllWhite(after) && IsTrimmed(value)
    ensures TrimEnd(line + value + after) == line + value
  {
    TrimsAfter(line + value, after);
  }

  lemma WhiteLacksEquals(white: string)
    requires AllWhite(white)
    ensures Lacks(white, '=')
  {
  }

  /** A setting is read the same with any white space around its key, its first equals sign and its value. */
  lemma SpacingDoesNotMatter(a: string, key: string, b: string, c: string, value: string, d: string)
    requires AllWhite(a) && AllWhite(b) && AllWhite(c) && AllWhite(d)
    requires IsTrimmed(key) && Lacks(key, '=') && IsTrimmed(value)
    ensures Fields(a + key + b + "=" + c + value + d) == Some((key, value))
  {
    var left := a + key + b;
    TrimsLine(left + "=" + c, value, d);
    WhiteLacksEquals(a);
    WhiteLacksEquals(b);
    FindAfter(left, '=', c + value);
    assert left + "=" + c + value == left + ['='] + (c + value);
    TrimsBoth(a, key, b);
    TrimsBoth(c, value, "");
    assert c + value + "" == c + value;
  }

  /** A line without an equals sign is passed over. */
  lemma NoEquals(p: Progress, line: string)
    requires Lacks(line, '=')
    ensures ReadLine(p, line) == p
  {
    TrimEndLacks(line, '=');
    LackedIsNotFound(TrimEnd(line), '=');
  }

  lemma AllWhiteTrims(white: string)
    requires AllWhite(white)
    ensures TrimEnd(white) == "" && Trim(white) == ""
  {
    TrimsAfter("", white);
    assert "" + white == white;
    TrimsBefore(white, "");
    assert white + "" == white;
  }

  lemma {:induction false} TrimEndIsPrefix(s: string, k: nat)
    requires k < |s| && !IsWhite(s[k])
    ensures k < |TrimEnd(s)| && TrimEnd(s) <= s
  {
    if IsWhite(s[|s| - 1]) {
      TrimEndIsPrefix(s[..|s| - 1], k);
    }
  }

  /** So is one with nothing before its first equals sign, or nothing behind it. */
  lemma EmptySide(p: Progress, a: string, b: string)
    requires Lacks(a, '=') && (AllWhite(a) || AllWhite(b))
    ensures ReadLine(p, a + "=" + b) == p
  {
    var line := a + "=" + b;
    TrimEndIsPrefix(line, |a|);
    var kept := TrimEnd(line);
    var rest := b[..|kept| - |a| - 1];
    assert kept == a + ['='] + rest;
    FindAfter(a, '=', rest);
    if AllWhite(a) {
      AllWhiteTrims(a);
    } else {
      AllWhiteTrims(rest);
    }
  }

  lemma LineFeedEnds(line: string, rest: string, all: string)
    requires Lacks(line, '\n') && all == line + ['\n'] + rest
    ensures Lines(all) == [DropCr(line)] + Lines(rest)
  {
    FindAfter(line, '\n', rest);
    assert all != "" && all[..|line|] == line && all[|line| + 1..] == rest;
  }

  lemma CarriageReturnDrops(line: string, ended: string)
    requires ended == line + ['\r']
    ensures DropCr(ended) == line && (Lacks(line, '\n') ==> Lacks(ended, '\n'))
  {
    assert ended[..|ended| - 1] == line;
  }

  /** A line ends at a line feed. */
  lemma LineEnds(line: string, rest: string, all: string)
    requires Lacks(line, '\n') && (line != "" ==> line[|line| - 1] != '\r') && all == line + ['\n'] + rest
    ensures Lines(all) == [line] + Lines(rest)
  {
    LineFeedEnds(line, rest, all);
  }

  /** A carriage return before the line feed is part of the end. */
  lemma CarriageReturnEnds(line: string, ended: string, rest: string, all: string)
    requires Lacks(line, '\n') && ended == line + ['\r'] && all == ended + ['\n'] + rest
    ensures Lines(all) == [line] + Lines(rest)
  {
    CarriageReturnDrops(line, ended);
    LineFeedEnds(ended, rest, all);
  }

  /** At the end of the file it needs no end. */
  lemma LastLine(line: string)
    requires Lacks(line, '\n')
    ensures Lines(line) == if line == "" then [] else [line]
  {
    LackedIsNotFound(line, '\n');
  }

  /** The key of a cheat's setting. */
  function KeyOf(i: nat, category: string): string { "cheat" + Decimal(i) + "_" + category }

  lemma KeyIsAddress(i: U32, category: string)
    requires IsCategory(category)
    ensures Addressed(KeyOf(i, category)) == Some((i, category))
  {
    KeyIs(i, category);
    assert KeyOf(i, category) == Key(i) + "_" + category;
  }

  /** What a setting of a cheat on the list does: its name is the value without its ends; it is enabled by "true" and
      disabled by any other value; other settings do nothing. One for a cheat past the end does nothing either. */
  lemma SettingEffect(cheats: seq<Cheat>, i: U32, category: string, value: string)
    requires IsCategory(category) && category != "code" && (category == "desc" ==> !Uncuttable(value))
    ensures ReadSetting(cheats, KeyOf(i, category), value)
         == if i >= |cheats| then Reading(cheats)
            else if category == "desc" then Reading(cheats[i := cheats[i].(name := value[1..|value| - 1])])
            else if category == "enable" then Reading(cheats[i := cheats[i].(enabled := value == "true")])
            else Reading(cheats)
  {
    KeyIsAddress(i, category);
    if i < |cheats| {
      assert cheats[i := cheats[i]] == cheats;
    }
  }

  /** The numbers among the pieces of a code, in order. */
  function Numbers(pieces: seq<string>): seq<U32>
    decreases |pieces|
  {
    if pieces == [] then [] else
    var rest := Numbers(pieces[..|pieces| - 1]);
    match ParseU32(pieces[|pieces| - 1], true) { case None => rest case Some(w) => rest + [w] }
  }

  lemma {:induction false} WordsConcat(a: seq<string>, b: seq<string>)
    ensures Words(a + b) == Words(a) + Words(b)
    decreases |a|
  {
    if a == [] {
      assert a + b == b;
    } else {
      assert (a + b)[1..] == a[1..] + b;
      WordsConcat(a[1..], b);
    }
  }

  lemma {:induction false} WordsAreNumbers(pieces: seq<string>)
    ensures Words(pieces) == Numbers(pieces)
    decreases |pieces|
  {
    if pieces != [] {
      var init, last := pieces[..|pieces| - 1], pieces[|pieces| - 1];
      assert pieces == init + [last];
      WordsConcat(init, [last]);
      WordsAreNumbers(init);
      assert [last][1..] == [];
    }
  }

  /** A code is what stands between its ends, cut at plus signs: the pieces that are hexadecimal numbers, in order. The
      others are left out. */
  lemma CodeEffect(cheats: seq<Cheat>, i: U32, pieces: seq<string>, open: char, close: char)
    requires i < |cheats| && pieces != [] && AllLack(pieces, '+') && open as int < 0x80 && close as int < 0x80
    ensures ReadSetting(cheats, KeyOf(i, "code"), [open] + Join(pieces, '+') + [close])
         == Reading(cheats[i := cheats[i].(code := Some(Numbers(pieces)))])
  {
    KeyIsAddress(i, "code");
    var value := [open] + Join(pieces, '+') + [close];
    assert value[1..|value| - 1] == Join(pieces, '+');
    SplitJoin(pieces, '+');
    WordsAreNumbers(pieces);
  }

  /** The first setting of a file has to be the count, of which all cheats start empty; with any other the list is
      empty, whatever follows. */
  lemma FirstSetting(key: string, value: string, lines: seq<string>)
    ensures var p := ReadCount(key, value);
      if key == "cheats" && ParseU32(value, false).Some? then
        p == Reading(seq(ParseU32(value, false).value, _ => Cheat("", None, false)))
      else Result(ReadLines(p, lines)) == Some([])
  {
    if !(key == "cheats" && ParseU32(value, false).Some?) {
      StoppedStays(lines);
    }
  }
}
