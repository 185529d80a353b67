/**
 The bytes of a savestate, type by type, what loading makes of any bytes, and the file around them. The laws speak
 of saving and loading themselves: what a value saves as in terms of what its parts save as.
 */
module SavestateLayout {
  import opened Machine
  import opened Savestate
  import opened SavestateLaws
  import opened SavestateContext

  /** Four and eight bytes as a number, lowest first. */
  function Four(b: seq<U8>): int
    requires |b| == 4
  {
    b[0] as int + 0x100 * b[1] as int + 0x1_0000 * b[2] as int + 0x100_0000 * b[3] as int
  }

  function Eight(b: seq<U8>): int
    requires |b| == 8
  {
    Four(b[..4]) + 0x1_0000_0000 * Four(b[4..])
  }

  lemma FromLeIsFour(b: seq<U8>)
    requires |b| == 4
    ensures FromLe(b) == Four(b)
  {
    FromLeOfFour(b);
  }

  lemma {:induction false} FromLeSplit(a: seq<U8>, b: seq<U8>, p: nat, high: nat)
    requires p == Pow256(|a|) && high == p * FromLe(b)
    ensures FromLe(a + b) == FromLe(a) + high
    decreases |a|
  {
    if a == [] {
      assert a + b == b;
    } else {
      assert (a + b)[1..] == a[1..] + b;
      Regroup(Pow256(|a| - 1), FromLe(b), p, high);
      FromLeSplit(a[1..], b, Pow256(|a| - 1), Pow256(|a| - 1) * FromLe(b));
    }
  }

  lemma Regroup(q: nat, x: nat, p: nat, high: nat)
    requires p == 256 * q && high == p * x
    ensures 0x100 * (q * x) == high
  {
  }

  lemma FromLeIsEight(b: seq<U8>)
    requires |b| == 8
    ensures FromLe(b) == Eight(b)
  {
    assert b == b[..4] + b[4..];
    assert Pow256(4) == 0x1_0000_0000;
    FromLeSplit(b[..4], b[4..], 0x1_0000_0000, 0x1_0000_0000 * FromLe(b[4..]));
    FromLeIsFour(b[..4]);
    FromLeIsFour(b[4..]);
  }

  // ---- saving ----

  lemma SavesRaw(bytes: seq<U8>, host: nat)
    ensures Save(Raw(bytes), Pod(|bytes|), host) == bytes
  {
  }

  lemma SavesBool(on: bool, host: nat)
    ensures Save(Flag(on), Bool, host) == [if on then 1 else 0]
  {
  }

  /** A machine-sized number takes eight bytes on every machine. */
  lemma SavesWord(n: nat, host: nat)
    requires n < Pow256(host) && host <= 8
    ensures var b := Save(Num(n), Word, host); |b| == 8 && Eight(b) == n
  {
    WordRoundTrip(n, host);
    FromLeIsEight(Le(n, 8));
  }

  /** Elements follow each other. */
  lemma SavesArray(v: Value, vs: seq<Value>, elem: Schema, host: nat)
    requires HasType(v, elem, host) && HasType(Items(vs), Array(elem, |vs|), host)
    ensures Save(Items([]), Array(elem, 0), host) == []
    ensures HasType(Items([v] + vs), Array(elem, |vs| + 1), host)
    ensures Save(Items([v] + vs), Array(elem, |vs| + 1), host)
         == Save(v, elem, host) + Save(Items(vs), Array(elem, |vs|), host)
  {
    assert ([v] + vs)[1..] == vs;
  }

  /** An option is a byte and what is there. */
  lemma SavesOpt(v: Value, elem: Schema, host: nat)
    requires HasType(v, elem, host)
    ensures Save(Nothing, Opt(elem), host) == [0] && Save(Just(v), Opt(elem), host) == [1] + Save(v, elem, host)
  {
  }

  /** A vector is its length in four bytes and its elements. */
  lemma SavesVec(vs: seq<Value>, elem: Schema, host: nat)
    requires HasType(Items(vs), Vec(elem), host)
    ensures var b := Save(Items(vs), Vec(elem), host);
      |b| >= 4 && Four(b[..4]) == |vs| && b[4..] == Save(Items(vs), Array(elem, |vs|), host)
  {
    assert Pow256(4) == 0x1_0000_0000;
    LeRoundTrip(|vs|, 4);
    FromLeIsFour(Le(|vs|, 4));
    assert Save(Items(vs), Vec(elem), host)[..4] == Le(|vs|, 4);
  }

  /** Fields follow each other in the order of their declaration; skipped ones are not there. */
  lemma SavesField(v: Value, vs: seq<Value>, schema: Schema, skip: bool, fs: Fields, host: nat)
    requires HasType(v, schema, host) && FieldsHaveType(vs, fs, host)
    ensures Save(Items([]), Struct(End), host) == []
    ensures HasType(Items([v] + vs), Struct(Field(schema, skip, fs)), host)
    ensures Save(Items([v] + vs), Struct(Field(schema, skip, fs)), host)
         == (if skip then [] else Save(v, schema, host)) + Save(Items(vs), Struct(fs), host)
  {
    assert ([v] + vs)[1..] == vs;
  }

  /** An enum is the number of its variant in a byte and the fields. */
  lemma SavesEnum(v: Value, variants: seq<Fields>, first: nat, host: nat)
    requires WellFormed(Enum(variants, first)) && HasType(v, Enum(variants, first), host)
    ensures HasType(Items(v.items), Struct(variants[v.tag]), host)
    ensures Save(v, Enum(variants, first), host) == [v.tag] + Save(Items(v.items), Struct(variants[v.tag]), host)
  {
    SmallRemainder(v.tag, 256);
  }

  // ---- loading ----

  /** The next `n` bytes of the input, if they are there. */
  predicate There(c: Input, n: nat) { !c.error && c.pos + n <= |c.buf| }

  /** Any byte but zero is true; past the end the value is false, and the error is set. */
  lemma LoadsBool(t: Value, host: nat, c: Input)
    requires HasType(t, Bool, host)
    ensures Load(t, Bool, host, c)
         == if There(c, 1) then (Flag(c.buf[c.pos] != 0), c.(pos := c.pos + 1)) else (Flag(false), c.(error := true))
  {
  }

  /** Raw bytes are taken as they are; where they are not all there, the target keeps its own. */
  lemma LoadsRaw(t: Value, size: nat, host: nat, c: Input)
    requires HasType(t, Pod(size), host)
    ensures Load(t, Pod(size), host, c)
         == if There(c, size) then (Raw(c.buf[c.pos..c.pos + size]), c.(pos := c.pos + size))
            else (t, c.(error := true))
  {
  }

  /** A number keeps the low bytes that this machine has room for. */
  lemma LoadsWord(t: Value, host: nat, c: Input)
    requires HasType(t, Word, host) && There(c, 8)
    ensures Load(t, Word, host, c)
         == (Num(Eight(c.buf[c.pos..c.pos + 8]) % Pow256(host)), c.(pos := c.pos + 8))
  {
    FromLeIsEight(c.buf[c.pos..c.pos + 8]);
  }

  /** Zero is nothing, any other byte something. */
  lemma LoadsOpt(t: Value, elem: Schema, host: nat, c: Input)
    requires WellFormed(elem) && HasType(t, Opt(elem), host)
    ensures HasType(Default(elem), elem, host)
    ensures Load(t, Opt(elem), host, c)
         == if !There(c, 1) then (Nothing, c.(error := true))
            else if c.buf[c.pos] == 0 then (Nothing, c.(pos := c.pos + 1))
            else var (v, c') := Load(Default(elem), elem, host, c.(pos := c.pos + 1)); (Just(v), c')
  {
    DefaultHasType(elem, host);
  }

  /** A length past that of the whole input is an error, and the target keeps its elements. */
  lemma LoadsVec(t: Value, elem: Schema, host: nat, c: Input)
    requires WellFormed(elem) && HasType(t, Vec(elem), host)
    ensures !There(c, 4) ==> Load(t, Vec(elem), host, c) == (t, c.(error := true))
    ensures There(c, 4) ==>
      var n, c1 := Four(c.buf[c.pos..c.pos + 4]), c.(pos := c.pos + 4);
      && (n > |c.buf| ==> Load(t, Vec(elem), host, c) == (t, c1.(error := true)))
      && (0 <= n <= |c.buf| ==>
            AllHaveType(Defaults(elem, n), elem, host)
            && Load(t, Vec(elem), host, c) == Load(Items(Defaults(elem, n)), Array(elem, n), host, c1))
  {
    if There(c, 4) {
      FromLeIsFour(c.buf[c.pos..c.pos + 4]);
      DefaultsHaveType(elem, FromLe(c.buf[c.pos..c.pos + 4]), host);
    }
  }

  /** Elements load one after the other, each into the one in its place. */
  lemma LoadsArray(t: Value, ts: seq<Value>, elem: Schema, host: nat, c: Input)
    requires WellFormed(elem) && HasType(t, elem, host) && HasType(Items(ts), Array(elem, |ts|), host)
    ensures HasType(Items([t] + ts), Array(elem, |ts| + 1), host)
    ensures var (v, c1) := Load(t, elem, host, c); var (vs, c2) := Load(Items(ts), Array(elem, |ts|), host, c1);
      vs.Items? && Load(Items([t] + ts), Array(elem, |ts| + 1), host, c) == (Items([v] + vs.items), c2)
  {
    assert ([t] + ts)[1..] == ts;
  }

  /** So do fields; a skipped one keeps the target's value and takes nothing from the input. */
  lemma LoadsField(t: Value, ts: seq<Value>, schema: Schema, skip: bool, fs: Fields, host: nat, c: Input)
    requires WellFormed(schema) && FieldsWellFormed(fs) && HasType(t, schema, host) && FieldsHaveType(ts, fs, host)
    ensures HasType(Items([t] + ts), Struct(Field(schema, skip, fs)), host)
    ensures var (v, c1) := if skip then (t, c) else Load(t, schema, host, c);
      var (vs, c2) := Load(Items(ts), Struct(fs), host, c1);
      vs.Items? && Load(Items([t] + ts), Struct(Field(schema, skip, fs)), host, c) == (Items([v] + vs.items), c2)
  {
    assert ([t] + ts)[1..] == ts;
  }

  /** The fields of a variant load into their defaults; a number no variant has is an error, and the target stays. */
  lemma LoadsEnum(t: Value, variants: seq<Fields>, first: nat, host: nat, c: Input)
    requires WellFormed(Enum(variants, first)) && HasType(t, Enum(variants, first), host)
    ensures var tag := if There(c, 1) then c.buf[c.pos] else 0;
      var c1 := if There(c, 1) then c.(pos := c.pos + 1) else c.(error := true);
      if tag >= |variants| then Load(t, Enum(variants, first), host, c) == (t, c1.(error := true))
      else
        && FieldsHaveType(DefaultFields(variants[tag]), variants[tag], host)
        && var (vs, c2) := Load(Items(DefaultFields(variants[tag])), Struct(variants[tag]), host, c1);
        vs.Items? && Load(t, Enum(variants, first), host, c) == (Variant(tag, vs.items), c2)
  {
    var tag := if There(c, 1) then c.buf[c.pos] else 0;
    if tag < |variants| {
      DefaultFieldsHaveType(variants[tag], host);
    }
  }

  /** What a value is before anything is loaded: zeros, false, nothing and empty; of compound types, their parts'
      defaults, and the variant that is declared. */
  lemma DefaultValues(elem: Schema, size: nat)
    requires WellFormed(elem)
    ensures Default(Pod(size)) == Raw(seq(size, _ => 0)) && Default(Bool) == Flag(false) && Default(Word) == Num(0)
    ensures Default(Opt(elem)) == Nothing && Default(Vec(elem)) == Items([])
  {
  }

  lemma DefaultParts(elem: Schema, count: nat, skip: bool, fs: Fields, variants: seq<Fields>, first: nat)
    requires WellFormed(elem) && FieldsWellFormed(fs) && WellFormed(Enum(variants, first))
    ensures Default(Array(elem, count)) == Items(seq(count, _ => Default(elem)))
    ensures Default(Struct(End)) == Items([]) && Default(Struct(fs)).Items?
    ensures Default(Struct(Field(elem, skip, fs))) == Items([Default(elem)] + Default(Struct(fs)).items)
    ensures Default(Enum(variants, first)) == Variant(first, Default(Struct(variants[first])).items)
  {
    DefaultsAreAll(elem, count);
  }

  lemma {:induction false} DefaultsAreAll(elem: Schema, count: nat)
    requires WellFormed(elem)
    ensures Defaults(elem, count) == seq(count, _ => Default(elem))
  {
    if count > 0 {
      DefaultsAreAll(elem, count - 1);
    }
  }

  // ---- the file ----

  /** A file is for this mode if it starts with "DSVS", the version 3 in two bytes and the mode, and a screenshot whose
      length is in the next four bytes is not over 16 MiB and is all there. The state is what is behind it. */
  predicate ForMode(file: seq<U8>, mode: U8) {
    && |file| >= 11 && file[0] == 0x44 && file[1] == 0x53 && file[2] == 0x56 && file[3] == 0x53
    && file[4] == 3 && file[5] == 0 && file[6] == mode
    && Four(file[7..11]) <= 0x100_0000 && 11 + Four(file[7..11]) <= |file|
  }

  lemma FourIs(b: seq<U8>, n: U32, x: seq<U8>)
    requires |b| == 4 && x == [n % 0x100, n / 0x100 % 0x100, n / 0x1_0000 % 0x100, n / 0x100_0000]
    ensures Four(b) == n <==> b == x
  {
    Le32RoundTrip(n);
    if Four(b) == n {
      FourDigits(b[0], b[1], b[2], b[3], n);
    }
  }

  lemma FourDigits(a: U8, b: U8, c: U8, d: U8, n: U32)
    requires n == a + 0x100 * b + 0x1_0000 * c + 0x100_0000 * d
    ensures a == n % 0x100 && b == n / 0x100 % 0x100 && c == n / 0x1_0000 % 0x100 && d == n / 0x100_0000
  {
    var high: nat := b + 0x100 * c + 0x1_0000 * d;
    assert n / 0x100 == high && n % 0x100 == a;
    var top: nat := c + 0x100 * d;
    assert high / 0x100 == top && high % 0x100 == b;
    assert n / 0x1_0000 == top && top % 0x100 == c;
  }

  lemma TwoIs(b: seq<U8>)
    requires |b| == 2
    ensures FromLe(b) == b[0] as int + 0x100 * b[1] as int
  {
    assert b[1..][1..] == [];
    assert FromLe(b[1..]) == b[1] as int + 0x100 * FromLe([]);
  }

  lemma MagicIs(b: seq<U8>)
    requires |b| == 4
    ensures FromLe(b) == MAGIC <==> b[0] == 0x44 && b[1] == 0x53 && b[2] == 0x56 && b[3] == 0x53
  {
    FromLeIsFour(b);
    FourIs(b, MAGIC, [0x44, 0x53, 0x56, 0x53]);
  }

  /** Exactly these files are read, and give that state. */
  lemma StateOfFile(file: seq<U8>, mode: U8)
    ensures FindState(file, mode) == if ForMode(file, mode) then Some(file[11 + Four(file[7..11])..]) else None
  {
    if |file| >= 11 {
      var fixed := file[..11];
      assert fixed[0..4] == file[0..4] && fixed[4..6] == file[4..6] && fixed[7..11] == file[7..11];
      MagicIs(fixed[0..4]);
      TwoIs(fixed[4..6]);
      FromLeIsFour(fixed[7..11]);
    }
  }

  /** The first eleven bytes that are written. */
  lemma HeaderBytes(mode: U8, len: U32)
    ensures var b := EncodeHeader(mode, len);
      |b| == 11 && b[..6] == [0x44, 0x53, 0x56, 0x53, 3, 0] && b[6] == mode && Four(b[7..11]) == len
  {
    var b := EncodeHeader(mode, len);
    HeaderNumbers(len);
    assert b[0..4] == Le(MAGIC, 4) && b[4..6] == Le(VERSION, 2) && b[7..11] == Le(len, 4);
    MagicIs(b[0..4]);
    TwoIs(b[4..6]);
    FromLeIsFour(b[7..11]);
  }
}
