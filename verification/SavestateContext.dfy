/**
 The one field walk that both saves and loads, over a context that is appended to or consumed, and the
 file header in front of the state.
 */
module SavestateContext {
  import opened Machine
  import opened Savestate

  lemma Associate(a: seq<U8>, b: seq<U8>, c: seq<U8>)
    ensures a + b + c == a + (b + c)
  {
  }

  function Appending(c: Input, bytes: seq<U8>): Input { if c.error then c else c.(buf := c.buf + bytes) }

  /** What an array walk will have come to when `done` is behind it and `rest` is still ahead. */
  function Ahead(save: bool, done: seq<Value>, rest: seq<Value>, elem: Schema, host: nat, c: Input): (seq<Value>, Input)
    requires WellFormed(elem) && AllHaveType(rest, elem, host)
  {
    if save then (done + rest, Appending(c, SaveAll(rest, elem, host))) else
    var (vs, end) := LoadAll(rest, elem, host, c);
    (done + vs, end)
  }

  lemma AheadStart(save: bool, vs: seq<Value>, elem: Schema, host: nat, c: Input)
    requires WellFormed(elem) && AllHaveType(vs, elem, host)
    ensures Ahead(save, [], vs, elem, host, c)
         == if save then (vs, Appending(c, SaveAll(vs, elem, host))) else LoadAll(vs, elem, host, c)
  {
    assert [] + vs == vs && [] + LoadAll(vs, elem, host, c).0 == LoadAll(vs, elem, host, c).0;
  }

  lemma AheadStep(save: bool, done: seq<Value>, vs: seq<Value>, i: nat, elem: Schema, host: nat, c: Input)
    requires WellFormed(elem) && i < |vs| && AllHaveType(vs[i..], elem, host)
    ensures HasType(vs[i], elem, host) && AllHaveType(vs[i + 1..], elem, host)
    ensures var (v, c1) := if save then (vs[i], Appending(c, Save(vs[i], elem, host))) else Load(vs[i], elem, host, c);
      Ahead(save, done, vs[i..], elem, host, c) == Ahead(save, done + [v], vs[i + 1..], elem, host, c1)
  {
    assert vs[i..][0] == vs[i] && vs[i..][1..] == vs[i + 1..];
    if save {
      assert done + vs[i..] == done + [vs[i]] + vs[i + 1..];
      var head, tail := Save(vs[i], elem, host), SaveAll(vs[i + 1..], elem, host);
      assert c.buf + (head + tail) == c.buf + head + tail;
    } else {
      var (v, c1) := Load(vs[i], elem, host, c);
      var (rest, end) := LoadAll(vs[i + 1..], elem, host, c1);
      assert done + ([v] + rest) == done + [v] + rest;
    }
  }

  lemma AheadEnd(save: bool, done: seq<Value>, elem: Schema, host: nat, c: Input)
    requires WellFormed(elem)
    ensures Ahead(save, done, [], elem, host, c) == (done, c)
  {
    assert done + [] == done && c.buf + [] == c.buf;
  }

  // ---- the file header ----

  const MAGIC: U32 := 0x5356_5344 // "DSVS"
  const VERSION := 3
  const HEADER_LEN := 11
  const SCREENSHOT_LIMIT := 16 * 0x10_0000

  /** The header that `encode_savestate_file` writes before the screenshot and the compressed state. */
  function EncodeHeader(arm7Emu: U8, screenshotLen: U32): seq<U8> {
    Le(MAGIC, 4) + Le(VERSION, 2) + [arm7Emu] + Le(screenshotLen, 4)
  }

  function ParseHeader(fixed: seq<U8>): Option<(U8, nat)>
    requires |fixed| == HEADER_LEN
  {
    if FromLe(fixed[0..4]) != MAGIC || FromLe(fixed[4..6]) != VERSION then None
    else if FromLe(fixed[7..11]) > SCREENSHOT_LIMIT then None
    else Some((fixed[6], FromLe(fixed[7..11])))
  }

  /** Which compressed state a file holds, if it may be loaded in this emulation mode. */
  function FindState(file: seq<U8>, arm7Emu: U8): Option<seq<U8>> {
    if |file| < HEADER_LEN then None else
    match ParseHeader(file[..HEADER_LEN])
    case None => None
    case Some(header) =>
      if header.0 != arm7Emu || |file| < HEADER_LEN + header.1 then None else Some(file[HEADER_LEN + header.1..])
  }

  /** A written file gives its state back exactly in the mode it was saved in, and exactly when its
      screenshot is within the limit: a larger one is written, but can never be read. */
  lemma HeaderRoundTrip(saved: U8, expected: U8, screenshot: seq<U8>, state: seq<U8>)
    requires |screenshot| <= U32_MAX
    ensures FindState(EncodeHeader(saved, |screenshot|) + screenshot + state, expected)
         == if saved == expected && |screenshot| <= SCREENSHOT_LIMIT then Some(state) else None
  {
    var header := EncodeHeader(saved, |screenshot|);
    var file := header + screenshot + state;
    assert file[..HEADER_LEN] == header;
    HeaderParses(saved, |screenshot|);
    if saved == expected && |screenshot| <= SCREENSHOT_LIMIT {
      assert file[HEADER_LEN + |screenshot|..] == state;
    }
  }

  lemma HeaderParses(arm7Emu: U8, len: U32)
    ensures ParseHeader(EncodeHeader(arm7Emu, len)) == if len > SCREENSHOT_LIMIT then None else Some((arm7Emu, len))
  {
    var header := EncodeHeader(arm7Emu, len);
    assert header[0..4] == Le(MAGIC, 4) && header[4..6] == Le(VERSION, 2);
    assert header[7..11] == Le(len, 4) && header[6] == arm7Emu;
    HeaderNumbers(len);
  }

  lemma HeaderNumbers(len: U32)
    ensures FromLe(Le(MAGIC, 4)) == MAGIC && FromLe(Le(VERSION, 2)) == VERSION && FromLe(Le(len, 4)) == len
  {
    assert Pow256(4) == 0x1_0000_0000 && Pow256(2) == 0x1_0000;
    LeRoundTrip(MAGIC, 4);
    LeRoundTrip(VERSION, 2);
    LeRoundTrip(len, 4);
  }

  class Context {
    var buf: seq<U8>
    var pos: nat
    const save: bool
    var error: bool

    ghost predicate Valid()
      reads this
    {
      pos <= |buf|
    }

    function Input(): Savestate.Input
      requires Valid()
      reads this
    {
      Cursor(buf, pos, error)
    }

    constructor NewSave()
      ensures Valid() && save && buf == [] && !error
    {
      buf, pos, save, error := [], 0, true, false;
    }

    constructor NewLoad(data: seq<U8>)
      ensures Valid() && !save && Input() == Cursor(data, 0, false)
    {
      buf, pos, save, error := data, 0, false, false;
    }

    /** What saving does to the context: nothing once there was an error. */
    twostate predicate Appended(bytes: seq<U8>)
      reads this
    {
      pos == old(pos) && error == old(error) && buf == if error then old(buf) else old(buf) + bytes
    }

    method PutU8(value: U8)
      requires Valid() && save
      modifies this
      ensures Valid() && Appended([value])
    {
      if error {
        return;
      }
      buf := buf + [value];
    }

    method TakeByte() returns (value: U8)
      requires Valid() && !save
      modifies this
      ensures Valid() && (value, Input()) == TakeU8(old(Input()))
    {
      if error || pos >= |buf| {
        error := true;
        return 0;
      }
      value := buf[pos];
      pos := pos + 1;
    }

    method BytesOf(value: seq<U8>) returns (result: seq<U8>)
      requires Valid()
      modifies this
      ensures Valid()
      ensures save ==> result == value && Appended(value)
      ensures !save ==> (result, Input()) == TakeBytes(old(Input()), value, |value|)
    {
      result := value;
      if error {
        return;
      }
      if save {
        buf := buf + value;
      } else {
        if |buf| - pos < |value| {
          error := true;
          return;
        }
        result := buf[pos..pos + |value|];
        pos := pos + |value|;
      }
    }

    /** `Savestate::savestate`: the value is written out, or overwritten with what is read. */
    method Walk(v: Value, s: Schema, host: nat) returns (result: Value)
      requires Valid() && WellFormed(s) && HasType(v, s, host) && host <= 8
      modifies this
      ensures Valid()
      ensures save ==> result == v && Appended(Save(v, s, host))
      ensures !save ==> (result, Input()) == Load(v, s, host, old(Input()))
      decreases s, 0
    {
      match s
      case Pod(_) =>
        var bytes := BytesOf(v.bytes);
        result := Raw(bytes);
      case Bool =>
        if save {
          PutU8(if v.on then 1 else 0);
          result := v;
        } else {
          var b := TakeByte();
          result := Flag(b != 0);
        }
      case Word => result := WalkWord(v, host);
      case Array(elem, _) =>
        var items := WalkAll(v.items, elem, host);
        result := Items(items);
      case Opt(elem) => result := WalkOpt(v, elem, host);
      case Vec(elem) => result := WalkVec(v, elem, host);
      case Struct(fields) =>
        var items := WalkFields(v.items, fields, host);
        result := Items(items);
      case Enum(variants, default_) => result := WalkEnum(v, variants, default_, host);
    }

    method WalkWord(v: Value, host: nat) returns (result: Value)
      requires Valid() && HasType(v, Word, host) && host <= 8
      modifies this
      ensures Valid()
      ensures save ==> result == v && Appended(Save(v, Word, host))
      ensures !save ==> (result, Input()) == Load(v, Word, host, old(Input()))
    {
      var bytes := BytesOf(Le(v.n, 8));
      result := Num(Truncated(FromLe(bytes), host));
      if save {
        WordKeepsItsValue(v.n, host);
      }
    }

    static lemma WordKeepsItsValue(n: nat, host: nat)
      requires n < Pow256(host) && host <= 8
      ensures Truncated(FromLe(Le(n, 8)), host) == n
    {
      Pow256Grows(host, 8);
      LeRoundTrip(n, 8);
      SmallRemainder(n, Pow256(host));
    }

    method WalkOpt(v: Value, elem: Schema, host: nat) returns (result: Value)
      requires Valid() && WellFormed(elem) && HasType(v, Opt(elem), host) && host <= 8
      modifies this
      ensures Valid()
      ensures save ==> result == v && Appended(Save(v, Opt(elem), host))
      ensures !save ==> (result, Input()) == Load(v, Opt(elem), host, old(Input()))
      decreases elem, 2
    {
      result := v;
      if save {
        if v.Just? {
          PutU8(1);
          var _ := Walk(v.value, elem, host);
        } else {
          PutU8(0);
        }
      } else {
        var b := TakeByte();
        if b != 0 {
          DefaultHasType(elem, host);
          var value := Walk(Default(elem), elem, host);
          result := Just(value);
        } else {
          result := Nothing;
        }
      }
    }

    method SaveVec(v: Value, elem: Schema, host: nat)
      requires Valid() && WellFormed(elem) && HasType(v, Vec(elem), host) && host <= 8 && save
      modifies this
      ensures Valid() && Appended(Save(v, Vec(elem), host))
      decreases elem, 2
    {
      var count := Le(|v.items|, 4);
      Associate(buf, count, SaveAll(v.items, elem, host));
      var _ := BytesOf(count);
      var _ := WalkAll(v.items, elem, host);
    }

    method LoadVec(v: Value, elem: Schema, host: nat) returns (result: Value)
      requires Valid() && WellFormed(elem) && HasType(v, Vec(elem), host) && host <= 8 && !save
      modifies this
      ensures Valid() && (result, Input()) == Load(v, Vec(elem), host, old(Input()))
      decreases elem, 2
    {
      result := v;
      var len := BytesOf(Le(|v.items|, 4));
      if error {
        return;
      }
      if FromLe(len) > |buf| {
        error := true;
        return;
      }
      DefaultsHaveType(elem, FromLe(len), host);
      var items := WalkAll(Defaults(elem, FromLe(len)), elem, host);
      result := Items(items);
    }

    method WalkVec(v: Value, elem: Schema, host: nat) returns (result: Value)
      requires Valid() && WellFormed(elem) && HasType(v, Vec(elem), host) && host <= 8
      modifies this
      ensures Valid()
      ensures save ==> result == v && Appended(Save(v, Vec(elem), host))
      ensures !save ==> (result, Input()) == Load(v, Vec(elem), host, old(Input()))
      decreases elem, 3
    {
      if save {
        SaveVec(v, elem, host);
        result := v;
      } else {
        result := LoadVec(v, elem, host);
      }
    }

    method WalkAll(vs: seq<Value>, elem: Schema, host: nat) returns (result: seq<Value>)
      requires Valid() && WellFormed(elem) && AllHaveType(vs, elem, host) && host <= 8
      modifies this
      ensures Valid()
      ensures save ==> result == vs && Appended(SaveAll(vs, elem, host))
      ensures !save ==> (result, Input()) == LoadAll(vs, elem, host, old(Input()))
      decreases elem, 1
    {
      result := [];
      assert vs[0..] == vs;
      AheadStart(save, vs, elem, host, Input());
      for i := 0 to |vs|
        invariant Valid() && AllHaveType(vs[i..], elem, host)
        invariant Ahead(save, result, vs[i..], elem, host, Input()) == Ahead(save, [], vs, elem, host, old(Input()))
      {
        AheadStep(save, result, vs, i, elem, host, Input());
        var v := Walk(vs[i], elem, host);
        result := result + [v];
      }
      AheadEnd(save, result, elem, host, Input());
    }

    /** The generated calls, one a field: skipped fields have none. */
    method WalkFields(vs: seq<Value>, fs: Fields, host: nat) returns (result: seq<Value>)
      requires Valid() && FieldsWellFormed(fs) && FieldsHaveType(vs, fs, host) && host <= 8
      modifies this
      ensures Valid()
      ensures save ==> result == vs && Appended(SaveFields(vs, fs, host))
      ensures !save ==> (result, Input()) == LoadFields(vs, fs, host, old(Input()))
      decreases fs, 0
    {
      if fs.End? {
        return [];
      }
      if fs.skip {
        var others := WalkFields(vs[1..], fs.rest, host);
        assert [vs[0]] + vs[1..] == vs;
        assert save ==> [] + SaveFields(vs[1..], fs.rest, host) == SaveFields(vs[1..], fs.rest, host);
        return [vs[0]] + others;
      }
      ghost var start := buf;
      var first := Walk(vs[0], fs.schema, host);
      var others := WalkFields(vs[1..], fs.rest, host);
      result := [first] + others;
      assert [vs[0]] + vs[1..] == vs;
      if save {
        Associate(start, Save(vs[0], fs.schema, host), SaveFields(vs[1..], fs.rest, host));
      }
    }

    method SaveEnum(v: Value, variants: seq<Fields>, default_: nat, host: nat)
      requires Valid() && WellFormed(Enum(variants, default_)) && host <= 8
      requires HasType(v, Enum(variants, default_), host)
      requires save
      modifies this
      ensures Valid() && Appended(Save(v, Enum(variants, default_), host))
      decreases variants, 0
    {
      EnumBytes(v, variants, default_, host);
      Associate(buf, [v.tag], SaveFields(v.items, variants[v.tag], host));
      PutU8(v.tag);
      var _ := WalkFields(v.items, variants[v.tag], host);
    }

    static lemma EnumBytes(v: Value, variants: seq<Fields>, default_: nat, host: nat)
      requires WellFormed(Enum(variants, default_)) && HasType(v, Enum(variants, default_), host)
      ensures v.tag < 0x100 && v.tag < |variants| && FieldsHaveType(v.items, variants[v.tag], host)
      ensures Save(v, Enum(variants, default_), host) == [v.tag] + SaveFields(v.items, variants[v.tag], host)
    {
      SmallRemainder(v.tag, TAG_LIMIT);
    }

    method LoadEnum(v: Value, variants: seq<Fields>, default_: nat, host: nat) returns (result: Value)
      requires Valid() && WellFormed(Enum(variants, default_)) && host <= 8
      requires HasType(v, Enum(variants, default_), host)
      requires !save
      modifies this
      ensures Valid()
      ensures (result, Input()) == Load(v, Enum(variants, default_), host, old(Input()))
      decreases variants, 0
    {
      result := v;
      var tag := TakeByte();
      if tag < |variants| {
        DefaultFieldsHaveType(variants[tag], host);
        var items := WalkFields(DefaultFields(variants[tag]), variants[tag], host);
        result := Variant(tag, items);
      } else {
        error := true;
      }
    }

    method WalkEnum(v: Value, variants: seq<Fields>, default_: nat, host: nat) returns (result: Value)
      requires Valid() && WellFormed(Enum(variants, default_)) && host <= 8
      requires HasType(v, Enum(variants, default_), host)
      modifies this
      ensures Valid()
      ensures save ==> result == v && Appended(Save(v, Enum(variants, default_), host))
      ensures !save ==> (result, Input()) == Load(v, Enum(variants, default_), host, old(Input()))
      decreases variants, 1
    {
      if save {
        SaveEnum(v, variants, default_, host);
        result := v;
      } else {
        result := LoadEnum(v, variants, default_, host);
      }
    }
  }
}
