/** Saving a cheat list and loading it again. */
module ChtLaws {
  import opened Machine
  import opened Text
  import opened Cht

  // ---- one setting line ----

  lemma SettingParts(key: string, value: string)
    requires Lacks(key, '=') && IsTrimmed(key) && IsTrimmed(value)
    ensures TrimEnd(Setting(key, value)) == Setting(key, value)
    ensures SplitOnce(Setting(key, value), '=') == Some((key + " ", " " + value))
  {
    var left, right := key + " ", " " + value;
    assert Setting(key, value) == left + ['='] + right;
    FindAfter(left, '=', right);
  }

  lemma SettingReads(key: string, value: string)
    requires Lacks(key, '=') && IsTrimmed(key) && IsTrimmed(value)
    ensures Fields(Setting(key, value)) == Some((key, value))
  {
    SettingParts(key, value);
    TrimAfter(key);
    TrimBefore(value);
  }

  predicate IsCategory(category: string) {
    Lacks(category, '=') && category != "" && !IsWhite(category[|category| - 1])
  }

  lemma KeyShape(i: nat, category: string)
    requires IsCategory(category)
    ensures Lacks(Key(i) + "_" + category, '=') && IsTrimmed(Key(i) + "_" + category)
    ensures Lacks(Key(i), '_')
  {
    DecimalIsDigits(i);
    var key := Key(i) + "_" + category;
    assert key[0] == 'c';
  }

  lemma KeyIs(i: U32, category: string)
    requires IsCategory(category)
    ensures Addressed(Key(i) + "_" + category) == Some((i, category))
  {
    KeyShape(i, category);
    FindAfter(Key(i), '_', category);
    KeyNumber(i);
  }

  lemma KeyNumber(i: U32)
    ensures "cheat" <= Key(i) && ParseU32(Key(i)[5..], false) == Some(i)
  {
    DecimalIsDigits(i);
    DecimalParses(i);
    assert Key(i)[5..] == Decimal(i);
  }

  lemma QuotedIs(text: string)
    ensures IsTrimmed(Quoted(text)) && Inner(Quoted(text)) == Some(text)
  {
    assert Quoted(text)[1..|Quoted(text)| - 1] == text;
  }

  /** Updating one entry of the list. */
  function Put(cheats: seq<Cheat>, i: nat, cheat: Cheat): seq<Cheat>
    requires i < |cheats|
  {
    cheats[i := cheat]
  }

  lemma SettingSets(cheats: seq<Cheat>, i: U32, category: string, value: string, cheat: Cheat)
    requires i < |cheats| && SetField(cheats[i], category, value) == Some(cheat)
    requires IsCategory(category) && IsTrimmed(value)
    ensures ReadLine(Reading(cheats), Setting(Key(i) + "_" + category, value)) == Reading(Put(cheats, i, cheat))
  {
    KeyIs(i, category);
    KeyShape(i, category);
    SettingReads(Key(i) + "_" + category, value);
  }

  lemma DescReads(cheats: seq<Cheat>, i: U32, cheat: Cheat)
    requires i < |cheats|
    ensures ReadLine(Reading(cheats), DescLine(i, cheat)) == Reading(Put(cheats, i, cheats[i].(name := cheat.name)))
  {
    QuotedIs(cheat.name);
    assert Key(i) + "_desc" == Key(i) + "_" + "desc";
    SettingSets(cheats, i, "desc", Quoted(cheat.name), cheats[i].(name := cheat.name));
  }

  lemma {:induction false} WordsOfHex(code: seq<U32>)
    ensures Words(HexWords(code)) == code
    decreases |code|
  {
    if code != [] {
      var words, rest := HexWords(code), code[1..];
      HexParses(code[0]);
      assert words[1..] == HexWords(rest);
      WordsOfHex(rest);
      assert Words(words) == [code[0]] + rest;
    }
  }

  lemma HexWordsLackPlus(code: seq<U32>)
    ensures AllLack(HexWords(code), '+')
  {
    forall i | 0 <= i < |code| ensures Lacks(HexWords(code)[i], '+') {
      HexParses(code[i]);
    }
  }

  lemma CodeValueReads(code: seq<U32>)
    ensures Words(Split(Join(HexWords(code), '+'), '+')) == code
  {
    if code == [] {
      LackedIsNotFound("", '+');
      assert Split("", '+') == [""];
      assert Words([""]) == Words([]);
    } else {
      HexWordsLackPlus(code);
      SplitJoin(HexWords(code), '+');
      WordsOfHex(code);
    }
  }

  lemma CodeReads(cheats: seq<Cheat>, i: U32, code: seq<U32>)
    requires i < |cheats|
    ensures ReadLine(Reading(cheats), CodeLine(i, code)) == Reading(Put(cheats, i, cheats[i].(code := Some(code))))
  {
    var text := Join(HexWords(code), '+');
    CodeValueReads(code);
    QuotedIs(text);
    assert Key(i) + "_code" == Key(i) + "_" + "code";
    SettingSets(cheats, i, "code", Quoted(text), cheats[i].(code := Some(code)));
  }

  lemma EnableReads(cheats: seq<Cheat>, i: U32, enabled: bool)
    requires i < |cheats|
    ensures ReadLine(Reading(cheats), EnableLine(i, enabled)) == Reading(Put(cheats, i, cheats[i].(enabled := enabled)))
  {
    var value := if enabled then "true" else "false";
    assert value == "true" <==> enabled;
    assert Key(i) + "_enable" == Key(i) + "_" + "enable";
    SettingSets(cheats, i, "enable", value, cheats[i].(enabled := enabled));
  }

  // ---- one cheat ----

  /** The written lines of one cheat, with the empty line before them. */
  function BlockLines(i: nat, cheat: Cheat): seq<string> {
    ["", DescLine(i, cheat)]
    + match cheat.code {
        case None => []
        case Some(code) => [CodeLine(i, code), EnableLine(i, cheat.enabled)]
      }
  }

  /** What saving keeps of a cheat: one without code loses its flag. */
  function Kept(cheat: Cheat): Cheat { if cheat.code.None? then cheat.(enabled := false) else cheat }

  lemma EmptyLineReads(p: Progress)
    ensures ReadLine(p, "") == p
  {
    LackedIsNotFound("", '=');
  }

  lemma Lines2(p: Progress, a: string, b: string)
    ensures ReadLines(p, [a, b]) == ReadLine(ReadLine(p, a), b)
  {
    var q := ReadLine(p, a);
    assert [a, b][1..] == [b] && [b][1..] == [];
    assert ReadLines(ReadLine(q, b), []) == ReadLine(q, b);
    assert ReadLines(q, [b]) == ReadLine(q, b);
  }

  lemma {:induction false} LinesSplit(p: Progress, a: seq<string>, b: seq<string>)
    ensures ReadLines(p, a + b) == ReadLines(ReadLines(p, a), b)
    decreases |a|
  {
    if a == [] {
      assert a + b == b;
    } else {
      assert (a + b)[0] == a[0] && (a + b)[1..] == a[1..] + b;
      LinesSplit(ReadLine(p, a[0]), a[1..], b);
    }
  }

  lemma BlockReads(cheats: seq<Cheat>, i: U32, cheat: Cheat)
    requires i < |cheats| && cheats[i] == BLANK
    ensures ReadLines(Reading(cheats), BlockLines(i, cheat)) == Reading(Put(cheats, i, Kept(cheat)))
  {
    var named := Put(cheats, i, BLANK.(name := cheat.name));
    var head := ["", DescLine(i, cheat)];
    EmptyLineReads(Reading(cheats));
    DescReads(cheats, i, cheat);
    Lines2(Reading(cheats), "", DescLine(i, cheat));
    match cheat.code
    case None =>
      assert BlockLines(i, cheat) == head;
    case Some(code) =>
      var coded := Put(named, i, named[i].(code := cheat.code));
      CodeReads(named, i, code);
      EnableReads(coded, i, cheat.enabled);
      Lines2(Reading(named), CodeLine(i, code), EnableLine(i, cheat.enabled));
      LinesSplit(Reading(cheats), head, [CodeLine(i, code), EnableLine(i, cheat.enabled)]);
      assert Put(coded, i, coded[i].(enabled := cheat.enabled)) == Put(cheats, i, cheat);
  }

  // ---- the whole list ----

  function BlocksLines(cheats: seq<Cheat>, n: nat): seq<string>
    requires n <= |cheats|
  {
    if n == 0 then [] else BlocksLines(cheats, n - 1) + BlockLines(n - 1, cheats[n - 1])
  }

  function SerializedLines(cheats: seq<Cheat>): seq<string> { [Header(|cheats|)] + BlocksLines(cheats, |cheats|) }

  function KeptAll(cheats: seq<Cheat>): seq<Cheat> { seq(|cheats|, i requires 0 <= i < |cheats| => Kept(cheats[i])) }

  /** The list as read once the first `n` cheats have been. */
  function ReadSoFar(cheats: seq<Cheat>, n: nat): seq<Cheat>
    requires n <= |cheats|
  {
    KeptAll(cheats)[..n] + seq(|cheats| - n, _ => BLANK)
  }

  lemma ReadSoFarGrows(cheats: seq<Cheat>, n: nat)
    requires n < |cheats|
    ensures ReadSoFar(cheats, n)[n] == BLANK
    ensures Put(ReadSoFar(cheats, n), n, Kept(cheats[n])) == ReadSoFar(cheats, n + 1)
  {
  }

  lemma {:induction false} BlocksRead(cheats: seq<Cheat>, start: Progress, n: nat)
    requires n <= |cheats| <= U32_MAX && start == Reading(ReadSoFar(cheats, 0))
    ensures ReadLines(start, BlocksLines(cheats, n)) == Reading(ReadSoFar(cheats, n))
    decreases n
  {
    if n > 0 {
      var i := n - 1;
      BlocksRead(cheats, start, i);
      LinesSplit(start, BlocksLines(cheats, i), BlockLines(i, cheats[i]));
      ReadSoFarGrows(cheats, i);
      BlockReads(ReadSoFar(cheats, i), i, cheats[i]);
    }
  }

  lemma HeaderFields(n: nat)
    ensures Fields(Header(n)) == Some(("cheats", Decimal(n)))
  {
    DecimalIsDigits(n);
    SettingReads("cheats", Decimal(n));
  }

  function Blank(n: nat): seq<Cheat> { seq(n, _ => BLANK) }

  lemma HeaderReads(n: nat)
    ensures ReadLine(Waiting, Header(n)) == if n <= U32_MAX then Reading(Blank(n)) else Stopped
  {
    HeaderFields(n);
    CountReads(n);
  }

  lemma CountReads(n: nat)
    ensures ReadCount("cheats", Decimal(n)) == if n <= U32_MAX then Reading(Blank(n)) else Stopped
  {
    DecimalParses(n);
  }

  lemma ReadSoFarEnds(cheats: seq<Cheat>)
    ensures ReadSoFar(cheats, 0) == Blank(|cheats|) && ReadSoFar(cheats, |cheats|) == KeptAll(cheats)
  {
  }

  lemma SerializedReads(cheats: seq<Cheat>)
    ensures Result(ReadLines(Waiting, SerializedLines(cheats)))
      == Some(if |cheats| <= U32_MAX then KeptAll(cheats) else [])
  {
    var lines := SerializedLines(cheats);
    HeaderReads(|cheats|);
    assert lines[1..] == BlocksLines(cheats, |cheats|);
    if |cheats| <= U32_MAX {
      ReadSoFarEnds(cheats);
      BlocksRead(cheats, Reading(Blank(|cheats|)), |cheats|);
    } else {
      StoppedStays(lines[1..]);
    }
  }

  // ---- the text is those lines ----

  lemma Terminated2(a: string, b: string)
    ensures Terminated([a, b]) == a + "\n" + b + "\n"
  {
    assert [a, b][1..] == [b] && [b][1..] == [];
    assert Terminated([]) == "";
    assert Terminated([b]) == b + "\n" + "" == b + "\n";
    assert a + "\n" + (b + "\n") == a + "\n" + b + "\n";
  }

  lemma DescText(desc: string)
    ensures "\n" + Terminated(["", desc]) == "\n\n" + desc + "\n"
  {
    Terminated2("", desc);
    assert "\n" + ("" + "\n" + desc + "\n") == "\n\n" + desc + "\n";
  }

  lemma CodeText(head: string, code: string, enable: string)
    ensures head + "\n" + Terminated([code, enable]) == head + ("\n" + code + "\n" + enable) + "\n"
  {
    Terminated2(code, enable);
    assert head + "\n" + (code + "\n" + enable + "\n") == head + ("\n" + code + "\n" + enable) + "\n";
  }

  lemma BlockText(i: nat, cheat: Cheat)
    ensures TextOf(BlockLines(i, cheat), Block(i, cheat))
  {
    var desc := DescLine(i, cheat);
    DescText(desc);
    var head := "\n\n" + desc;
    match cheat.code
    case None =>
      assert BlockLines(i, cheat) == ["", desc];
      assert head + "" == head;
    case Some(code) =>
      var c, e := CodeLine(i, code), EnableLine(i, cheat.enabled);
      TerminatedConcat(["", desc], [c, e]);
      CodeText(head, c, e);
      Assoc3("\n", Terminated(["", desc]), Terminated([c, e]));
  }

  predicate TextOf(lines: seq<string>, text: string) { "\n" + Terminated(lines) == text + "\n" }

  lemma {:induction false} BlocksText(cheats: seq<Cheat>, n: nat)
    requires n <= |cheats|
    ensures TextOf(BlocksLines(cheats, n), Blocks(cheats, n))
    decreases n
  {
    if n == 0 {
      NoText();
    } else {
      BlocksText(cheats, n - 1);
      BlockText(n - 1, cheats[n - 1]);
      JoinLines(BlocksLines(cheats, n - 1), BlockLines(n - 1, cheats[n - 1]), BlocksLines(cheats, n),
                Blocks(cheats, n - 1), Block(n - 1, cheats[n - 1]), Blocks(cheats, n));
    }
  }

  lemma JoinLines(a: seq<string>, b: seq<string>, both: seq<string>, x: string, y: string, text: string)
    requires TextOf(a, x) && TextOf(b, y) && both == a + b && text == x + y
    ensures TextOf(both, text)
  {
    TerminatedConcat(a, b);
    JoinTexts(Terminated(a), Terminated(b), x, y);
  }

  lemma NoText()
    ensures TextOf([], "")
  {
    assert Terminated([]) == "";
    assert "" + "\n" == "\n" == "\n" + "";
  }

  lemma JoinTexts(a: string, b: string, x: string, y: string)
    requires "\n" + a == x + "\n" && "\n" + b == y + "\n"
    ensures "\n" + (a + b) == x + y + "\n"
  {
    Assoc3("\n", a, b);
    Assoc3(x, "\n", b);
    Assoc3(x, y, "\n");
  }

  lemma SerializedText(cheats: seq<Cheat>)
    ensures Serialize(cheats) == Terminated(SerializedLines(cheats))
  {
    BlocksText(cheats, |cheats|);
    HeadedText(Header(|cheats|), BlocksLines(cheats, |cheats|), Blocks(cheats, |cheats|));
  }

  lemma HeadedText(head: string, lines: seq<string>, text: string)
    requires "\n" + Terminated(lines) == text + "\n"
    ensures head + text + "\n" == Terminated([head] + lines)
  {
    assert ([head] + lines)[1..] == lines;
    Assoc3(head, text, "\n");
    Assoc3(head, "\n", Terminated(lines));
  }

  // ---- no written line holds a line break ----

  predicate SingleLineNames(cheats: seq<Cheat>) { forall i :: 0 <= i < |cheats| ==> Lacks(cheats[i].name, '\n') }

  lemma KeyLacksBreak(i: nat)
    ensures Lacks(Key(i), '\n')
  {
    DecimalIsDigits(i);
  }

  lemma {:induction false} JoinLacks(parts: seq<string>, c: char, d: char)
    requires AllLack(parts, d) && c != d
    ensures Lacks(Join(parts, c), d)
    decreases |parts|
  {
    if |parts| > 1 {
      JoinLacks(parts[1..], c, d);
    }
  }

  lemma QuotedLineIsLine(i: nat, suffix: string, text: string)
    requires Lacks(suffix, '\n') && Lacks(text, '\n')
    ensures IsLine(Setting(Key(i) + suffix, Quoted(text)))
  {
    KeyLacksBreak(i);
  }

  lemma CodeLineIsLine(i: nat, code: seq<U32>)
    ensures IsLine(CodeLine(i, code))
  {
    forall k | 0 <= k < |code| ensures Lacks(HexWords(code)[k], '\n') {
      HexParses(code[k]);
    }
    JoinLacks(HexWords(code), '+', '\n');
    QuotedLineIsLine(i, "_code", Join(HexWords(code), '+'));
  }

  lemma BlockLinesAreLines(i: nat, cheat: Cheat)
    requires Lacks(cheat.name, '\n')
    ensures AreLines(BlockLines(i, cheat))
  {
    QuotedLineIsLine(i, "_desc", cheat.name);
    KeyLacksBreak(i);
    if cheat.code.Some? {
      CodeLineIsLine(i, cheat.code.value);
    }
  }

  lemma BothAreLines(a: seq<string>, b: seq<string>, both: seq<string>)
    requires AreLines(a) && AreLines(b) && both == a + b
    ensures AreLines(both)
  {
  }

  lemma {:induction false} BlocksLinesAreLines(cheats: seq<Cheat>, n: nat)
    requires n <= |cheats| && SingleLineNames(cheats)
    ensures AreLines(BlocksLines(cheats, n))
    decreases n
  {
    if n > 0 {
      BlocksLinesAreLines(cheats, n - 1);
      BlockLinesAreLines(n - 1, cheats[n - 1]);
      BothAreLines(BlocksLines(cheats, n - 1), BlockLines(n - 1, cheats[n - 1]), BlocksLines(cheats, n));
    }
  }

  lemma HeaderIsLine(n: nat)
    ensures IsLine(Header(n))
  {
    DecimalIsDigits(n);
  }

  /** Saving and loading, for all names on one line: everything comes back but the flags of cheats without
      code. A list too long for a `u32` count comes back empty. */
  lemma SaveLoad(cheats: seq<Cheat>)
    requires SingleLineNames(cheats)
    ensures Parse(Serialize(cheats)) == Some(if |cheats| <= U32_MAX then KeptAll(cheats) else [])
  {
    HeaderIsLine(|cheats|);
    BlocksLinesAreLines(cheats, |cheats|);
    SerializedText(cheats);
    LinesOfTerminated(SerializedLines(cheats));
    SerializedReads(cheats);
  }

  // ---- what a parsed list is like ----

  ghost predicate Loaded(p: Progress) { p.Reading? ==> SingleLineNames(p.cheats) && |p.cheats| <= U32_MAX }

  lemma InnerLacks(value: string, c: char)
    requires Lacks(value, c) && Inner(value).Some?
    ensures Lacks(Inner(value).value, c)
  {
  }

  lemma FieldsLack(line: string, c: char)
    requires Lacks(line, c) && Fields(line).Some?
    ensures Lacks(Fields(line).value.1, c)
  {
    TrimEndLacks(line, c);
    var n := Find(TrimEnd(line), '=').value;
    TrimLacks(TrimEnd(line)[n + 1..], c);
  }

  lemma LineKeepsLoaded(p: Progress, line: string)
    requires Loaded(p) && Lacks(line, '\n')
    ensures Loaded(ReadLine(p, line))
  {
    if p.Reading? && Fields(line).Some? {
      FieldsLack(line, '\n');
      var (key, value) := Fields(line).value;
      if Inner(value).Some? {
        InnerLacks(value, '\n');
      }
    }
  }

  lemma {:induction false} LinesKeepLoaded(p: Progress, lines: seq<string>)
    requires Loaded(p) && AllLack(lines, '\n')
    ensures Loaded(ReadLines(p, lines))
    decreases |lines|
  {
    if lines != [] {
      LineKeepsLoaded(p, lines[0]);
      LinesKeepLoaded(ReadLine(p, lines[0]), lines[1..]);
    }
  }

  /** Whatever a file holds, what it loads as has single-line names and a `u32` count. */
  lemma ParsedIsLoadable(content: string)
    ensures Parse(content).Some? ==> SingleLineNames(Parse(content).value) && |Parse(content).value| <= U32_MAX
  {
    LinesLack(content);
    LinesKeepLoaded(Waiting, Lines(content));
  }

  predicate CodelessDisabled(cheats: seq<Cheat>) {
    forall i :: 0 <= i < |cheats| && cheats[i].code.None? ==> !cheats[i].enabled
  }

  /** Exactly which lists survive a save and a load unchanged. */
  lemma RoundTripExactly(cheats: seq<Cheat>)
    ensures Parse(Serialize(cheats)) == Some(cheats)
      <==> SingleLineNames(cheats) && |cheats| <= U32_MAX && CodelessDisabled(cheats)
  {
    ParsedIsLoadable(Serialize(cheats));
    if SingleLineNames(cheats) {
      SaveLoad(cheats);
      if CodelessDisabled(cheats) {
        assert KeptAll(cheats) == cheats;
      } else {
        var i :| 0 <= i < |cheats| && cheats[i].code.None? && cheats[i].enabled;
        assert KeptAll(cheats)[i] != cheats[i];
      }
    }
  }

  /** The lists a program has were loaded. Of those exactly the ones survive that enable no cheat without
      code. */
  lemma LoadedRoundTripExactly(content: string)
    requires Parse(content).Some?
    ensures var cheats := Parse(content).value;
      Parse(Serialize(cheats)) == Some(cheats) <==> CodelessDisabled(cheats)
  {
    ParsedIsLoadable(content);
    RoundTripExactly(Parse(content).value);
  }

  lemma EnableIsLine(i: nat, enabled: bool)
    ensures IsLine(EnableLine(i, enabled))
  {
    KeyLacksBreak(i);
  }

  lemma TwoLinesParse(first: string, second: string)
    requires IsLine(first) && IsLine(second)
    ensures Parse(Terminated([first, second])) == Result(ReadLine(ReadLine(Waiting, first), second))
  {
    LinesOfTerminated([first, second]);
    Lines2(Waiting, first, second);
  }

  lemma EnableAfterHeader(i: U32, n: U32)
    requires i < n
    ensures ReadLine(ReadLine(Waiting, Header(n)), EnableLine(i, true))
         == Reading(Blank(n)[i := BLANK.(enabled := true)])
  {
    HeaderReads(n);
    EnableReads(Blank(n), i, true);
  }

  /** A file that only enables the `i`-th of its `n` cheats, which has no code: saving and loading the list
      loses that. */
  lemma CodelessEnableIsLost(i: U32, n: U32)
    requires i < n
    ensures var cheats := Blank(n)[i := BLANK.(enabled := true)];
      && Parse(Terminated([Header(n), EnableLine(i, true)])) == Some(cheats)
      && Parse(Serialize(cheats)) == Some(Blank(n)) && cheats != Blank(n)
  {
    HeaderIsLine(n);
    EnableIsLine(i, true);
    TwoLinesParse(Header(n), EnableLine(i, true));
    EnableAfterHeader(i, n);
    EnableIsNotSaved(Blank(n)[i := BLANK.(enabled := true)], i, n);
  }

  lemma EnableIsNotSaved(cheats: seq<Cheat>, i: U32, n: U32)
    requires i < n && cheats == Blank(n)[i := BLANK.(enabled := true)]
    ensures Parse(Serialize(cheats)) == Some(Blank(n)) && cheats != Blank(n)
  {
    SaveLoad(cheats);
    assert KeptAll(cheats) == Blank(n);
    assert cheats[i] != Blank(n)[i];
  }

  lemma KeptIsSettled(cheats: seq<Cheat>)
    ensures CodelessDisabled(KeptAll(cheats)) && (SingleLineNames(cheats) ==> SingleLineNames(KeptAll(cheats)))
  {
    forall i | 0 <= i < |cheats| ensures KeptAll(cheats)[i] == Kept(cheats[i]) {
    }
  }

  /** A list that was loaded, from any file at all, loads again as itself but for the flags of cheats
      without code; a second save and load changes nothing more. */
  lemma ReloadSettles(content: string)
    requires Parse(content).Some?
    ensures var cheats := Parse(content).value;
      Parse(Serialize(cheats)) == Some(KeptAll(cheats)) && Parse(Serialize(KeptAll(cheats))) == Some(KeptAll(cheats))
  {
    ParsedIsLoadable(content);
    var cheats := Parse(content).value;
    SaveLoad(cheats);
    KeptIsSettled(cheats);
    RoundTripExactly(KeptAll(cheats));
  }

  // ---- which files panic ----

  /** The ends of a value cannot be cut off as if they were quotes: it has one character only, or one at an
      end takes more than a byte. */
  predicate Uncuttable(value: string) { |value| < 2 || value[0] as int >= 0x80 || value[|value| - 1] as int >= 0x80 }

  /** A description or code setting of one of the first `n` cheats, with such a value. */
  predicate BadLine(line: string, n: nat) {
    Fields(line).Some? &&
    var (key, value) := Fields(line).value;
    Addressed(key).Some? &&
    var (entry, category) := Addressed(key).value;
    entry < n && (category == "desc" || category == "code") && Uncuttable(value)
  }

  ghost predicate SomeBad(lines: seq<string>, n: nat) { exists k :: 0 <= k < |lines| && BadLine(lines[k], n) }

  /** The count that the first setting announces, if it is one, and the lines behind it. */
  function Announced(lines: seq<string>): Option<(U32, seq<string>)> {
    if lines == [] then None else
    match Fields(lines[0])
    case None => Announced(lines[1..])
    case Some((key, value)) =>
      if key != "cheats" then None else
      match ParseU32(value, false)
      case None => None
      case Some(n) => Some((n, lines[1..]))
  }

  lemma LinePanicsExactly(cheats: seq<Cheat>, line: string)
    ensures var p := ReadLine(Reading(cheats), line);
      if BadLine(line, |cheats|) then p.Panicked? else p.Reading? && |p.cheats| == |cheats|
  {
    if Fields(line).Some? {
      var (key, value) := Fields(line).value;
      assert Inner(value).None? <==> Uncuttable(value);
    }
  }

  lemma SomeBadSplits(lines: seq<string>, n: nat)
    requires lines != []
    ensures SomeBad(lines, n) <==> BadLine(lines[0], n) || SomeBad(lines[1..], n)
  {
    if SomeBad(lines, n) && !BadLine(lines[0], n) {
      var k :| 0 <= k < |lines| && BadLine(lines[k], n);
      assert lines[1..][k - 1] == lines[k];
    }
    if SomeBad(lines[1..], n) {
      var k :| 0 <= k < |lines[1..]| && BadLine(lines[1..][k], n);
      assert lines[k + 1] == lines[1..][k];
    }
  }

  lemma {:induction false} ReadingPanicsExactly(cheats: seq<Cheat>, lines: seq<string>)
    ensures ReadLines(Reading(cheats), lines).Panicked? <==> SomeBad(lines, |cheats|)
    decreases |lines|
  {
    if lines != [] {
      LinePanicsExactly(cheats, lines[0]);
      SomeBadSplits(lines, |cheats|);
      var p := ReadLine(Reading(cheats), lines[0]);
      if p.Panicked? {
        PanickedStays(lines[1..]);
      } else {
        ReadingPanicsExactly(p.cheats, lines[1..]);
      }
    }
  }

  lemma {:induction false} WaitingPanicsExactly(lines: seq<string>)
    ensures var announced := Announced(lines);
      ReadLines(Waiting, lines).Panicked? <==> announced.Some? && SomeBad(announced.value.1, announced.value.0)
    decreases |lines|
  {
    if lines != [] {
      var p := ReadLine(Waiting, lines[0]);
      match p
      case Waiting => WaitingPanicsExactly(lines[1..]);
      case Stopped => StoppedStays(lines[1..]);
      case Reading(cheats) => ReadingPanicsExactly(cheats, lines[1..]);
    }
  }

  /** Exactly which files panic: those that announce a count and set the description or the code of a cheat
      below it to a value whose ends cannot be cut off. */
  lemma ParsePanicsExactly(content: string)
    ensures var announced := Announced(Lines(content));
      Parse(content) == None <==> announced.Some? && SomeBad(announced.value.1, announced.value.0)
  {
    WaitingPanicsExactly(Lines(content));
  }

  function DescLineOf(value: string): string { Setting(Key(0) + "_desc", value) }

  lemma DescSettingReads(value: string)
    ensures ReadSetting([BLANK], Key(0) + "_desc", value)
      == match Inner(value) { case None => Panicked case Some(name) => Reading([BLANK.(name := name)]) }
  {
    assert Key(0) + "_desc" == Key(0) + "_" + "desc";
    KeyIs(0, "desc");
  }

  lemma DescValueReads(value: string)
    requires IsTrimmed(value)
    ensures ReadLine(Reading([BLANK]), DescLineOf(value))
      == match Inner(value) { case None => Panicked case Some(name) => Reading([BLANK.(name := name)]) }
  {
    assert Key(0) + "_desc" == Key(0) + "_" + "desc";
    KeyShape(0, "desc");
    SettingReads(Key(0) + "_desc", value);
    DescSettingReads(value);
  }

  lemma DescLineIsLine(value: string)
    requires IsTrimmed(value) && Lacks(value, '\n')
    ensures IsLine(DescLineOf(value))
  {
    KeyLacksBreak(0);
  }

  /** What a file with one description reads as, whatever its value: an end character that is no quote is
      cut off as if it were one. */
  lemma BadQuotesPanic(value: string)
    requires IsTrimmed(value) && Lacks(value, '\n')
    ensures Parse(Terminated([Header(1), DescLineOf(value)])) ==
      if Uncuttable(value) then None else Some([Cheat(value[1..|value| - 1], None, false)])
  {
    var lines := [Header(1), DescLineOf(value)];
    HeaderIsLine(1);
    DescLineIsLine(value);
    LinesOfTerminated(lines);
    HeaderReads(1);
    assert Blank(1) == [BLANK];
    Lines2(Waiting, Header(1), DescLineOf(value));
    DescValueReads(value);
  }

  lemma CodeIsBad(value: string)
    requires IsTrimmed(value) && Uncuttable(value)
    ensures BadLine(Setting(Key(0) + "_code", value), 1)
  {
    assert Key(0) + "_code" == Key(0) + "_" + "code";
    KeyShape(0, "code");
    KeyIs(0, "code");
    SettingReads(Key(0) + "_code", value);
  }

  lemma AnnouncedOne(line: string)
    ensures Announced([Header(1), line]) == Some((1, [line]))
  {
    HeaderFields(1);
    DecimalParses(1);
    assert [Header(1), line][1..] == [line];
  }

  /** Code values panic on the same ends. */
  lemma BadCodePanics(value: string)
    requires IsTrimmed(value) && Lacks(value, '\n') && Uncuttable(value)
    ensures Parse(Terminated([Header(1), Setting(Key(0) + "_code", value)])) == None
  {
    var line := Setting(Key(0) + "_code", value);
    HeaderIsLine(1);
    KeyLacksBreak(0);
    LinesOfTerminated([Header(1), line]);
    AnnouncedOne(line);
    CodeIsBad(value);
    assert BadLine([line][0], 1);
    ParsePanicsExactly(Terminated([Header(1), line]));
  }
}
