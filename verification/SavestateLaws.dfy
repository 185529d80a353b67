/** Round trips of savestates, and what a load makes of arbitrary, cut-off or extended bytes. */
module SavestateLaws {
  import opened Machine
  import opened Savestate

  /** What a load of `v` leaves in a target that held `t`: everything serialized comes from `v`, skipped
      struct fields stay as they were, and what is built anew starts from defaults. A usize wider than
      the loading machine's is cut to its width. */
  function Restored(t: Value, v: Value, s: Schema, from: nat, to: nat): Value
    requires WellFormed(s) && HasType(t, s, to) && HasType(v, s, from)
    decreases s, 0, 0
  {
    match s
    case Pod(_) => v
    case Bool => v
    case Word => Num(Truncated(v.n, to))
    case Array(elem, _) => Items(RestoredAll(t.items, v.items, elem, from, to))
    case Opt(elem) =>
      if v.Nothing? then Nothing else
      DefaultHasType(elem, to);
      Just(Restored(Default(elem), v.value, elem, from, to))
    case Vec(elem) =>
      DefaultsHaveType(elem, |v.items|, to);
      Items(RestoredAll(Defaults(elem, |v.items|), v.items, elem, from, to))
    case Struct(fields) => Items(RestoredFields(t.items, v.items, fields, from, to))
    case Enum(variants, _) =>
      DefaultFieldsHaveType(variants[v.tag], to);
      Variant(v.tag, RestoredFields(DefaultFields(variants[v.tag]), v.items, variants[v.tag], from, to))
  }

  function RestoredAll(ts: seq<Value>, vs: seq<Value>, elem: Schema, from: nat, to: nat): seq<Value>
    requires WellFormed(elem) && |ts| == |vs| && AllHaveType(ts, elem, to) && AllHaveType(vs, elem, from)
    decreases elem, 1, |vs|
  {
    if vs == [] then [] else [Restored(ts[0], vs[0], elem, from, to)] + RestoredAll(ts[1..], vs[1..], elem, from, to)
  }

  function RestoredFields(ts: seq<Value>, vs: seq<Value>, fs: Fields, from: nat, to: nat): seq<Value>
    requires FieldsWellFormed(fs) && FieldsHaveType(ts, fs, to) && FieldsHaveType(vs, fs, from)
    decreases fs, 0, 0
  {
    if fs.End? then []
    else [if fs.skip then ts[0] else Restored(ts[0], vs[0], fs.schema, from, to)]
         + RestoredFields(ts[1..], vs[1..], fs.rest, from, to)
  }

  /** No serialized vector is longer than `limit`, the guard against corrupt lengths. */
  predicate Fits(v: Value, s: Schema, from: nat, limit: nat)
    requires HasType(v, s, from)
    decreases s, 0, 0
  {
    match s
    case Array(elem, _) => AllFit(v.items, elem, from, limit)
    case Opt(elem) => v.Nothing? || Fits(v.value, elem, from, limit)
    case Vec(elem) => |v.items| <= limit && AllFit(v.items, elem, from, limit)
    case Struct(fields) => FieldsFit(v.items, fields, from, limit)
    case Enum(variants, _) => FieldsFit(v.items, variants[v.tag], from, limit)
    case _ => true
  }

  predicate AllFit(vs: seq<Value>, elem: Schema, from: nat, limit: nat)
    requires AllHaveType(vs, elem, from)
    decreases elem, 1, |vs|
  {
    vs == [] || (Fits(vs[0], elem, from, limit) && AllFit(vs[1..], elem, from, limit))
  }

  predicate FieldsFit(vs: seq<Value>, fs: Fields, from: nat, limit: nat)
    requires FieldsHaveType(vs, fs, from)
    decreases fs, 0, 0
  {
    fs.End? || ((fs.skip || Fits(vs[0], fs.schema, from, limit)) && FieldsFit(vs[1..], fs.rest, from, limit))
  }

  // ---- every load ----

  /** A load reads forward in one buffer, stops at its end, and never clears the error flag. */
  predicate Progress(c: Input, c': Input) {
    c'.buf == c.buf && c.pos <= c'.pos && (c.error ==> c'.error && c'.pos == c.pos)
  }

  lemma {:induction false} LoadProgress(t: Value, s: Schema, host: nat, c: Input)
    requires WellFormed(s) && HasType(t, s, host)
    ensures Progress(c, Load(t, s, host, c).1)
    decreases s, 0, 0
  {
    match s
    case Array(elem, _) => LoadAllProgress(t.items, elem, host, c);
    case Opt(elem) =>
      var (b, c1) := TakeU8(c);
      if b != 0 {
        DefaultHasType(elem, host);
        LoadProgress(Default(elem), elem, host, c1);
      }
    case Vec(elem) =>
      var (bytes, c1) := TakeBytes(c, Le(|t.items|, 4), 4);
      var len := FromLe(bytes);
      if !c1.error && len <= |c1.buf| {
        DefaultsHaveType(elem, len, host);
        LoadAllProgress(Defaults(elem, len), elem, host, c1);
      }
    case Struct(fields) => LoadFieldsProgress(t.items, fields, host, c);
    case Enum(variants, _) =>
      var (tag, c1) := TakeU8(c);
      if tag < |variants| {
        DefaultFieldsHaveType(variants[tag], host);
        LoadFieldsProgress(DefaultFields(variants[tag]), variants[tag], host, c1);
      }
    case _ =>
  }

  lemma {:induction false} LoadAllProgress(ts: seq<Value>, elem: Schema, host: nat, c: Input)
    requires WellFormed(elem) && AllHaveType(ts, elem, host)
    ensures Progress(c, LoadAll(ts, elem, host, c).1)
    decreases elem, 1, |ts|
  {
    if ts != [] {
      LoadProgress(ts[0], elem, host, c);
      LoadAllProgress(ts[1..], elem, host, Load(ts[0], elem, host, c).1);
    }
  }

  lemma {:induction false} LoadFieldsProgress(ts: seq<Value>, fs: Fields, host: nat, c: Input)
    requires FieldsWellFormed(fs) && FieldsHaveType(ts, fs, host)
    ensures Progress(c, LoadFields(ts, fs, host, c).1)
    decreases fs, 0, 0
  {
    if fs.Field? {
      if fs.skip {
        LoadFieldsProgress(ts[1..], fs.rest, host, c);
      } else {
        LoadProgress(ts[0], fs.schema, host, c);
        LoadFieldsProgress(ts[1..], fs.rest, host, Load(ts[0], fs.schema, host, c).1);
      }
    }
  }

  // ---- loading what was saved ----

  /** `bytes` is what comes next in the input. */
  predicate Next(c: Input, bytes: seq<U8>) {
    !c.error && c.pos + |bytes| <= |c.buf| && c.buf[c.pos..c.pos + |bytes|] == bytes
  }

  function After(c: Input, n: nat): Input
    requires c.pos + n <= |c.buf|
  {
    c.(pos := c.pos + n)
  }

  lemma NextSplit(c: Input, a: seq<U8>, b: seq<U8>)
    requires Next(c, a + b)
    ensures Next(c, a) && Next(After(c, |a|), b)
  {
    var bytes := c.buf[c.pos..c.pos + |a + b|];
    assert c.buf[c.pos..c.pos + |a|] == bytes[..|a|];
    assert c.buf[c.pos + |a|..c.pos + |a| + |b|] == bytes[|a|..];
  }

  lemma TakeNextByte(c: Input, b: U8, rest: seq<U8>)
    requires Next(c, [b] + rest)
    ensures TakeU8(c) == (b, After(c, 1)) && Next(After(c, 1), rest)
  {
    NextSplit(c, [b], rest);
    assert c.buf[c.pos..c.pos + 1][0] == b;
  }

  /** The outcome of loading `v`: its restoration and the input behind it, or an error if some vector in
      it does not pass the length guard. */
  ghost predicate Outcome(fits: bool, loaded: Value, restored: Value, c': Input, end: Input) {
    if fits then loaded == restored && c' == end else c'.error
  }

  ghost predicate Outcomes(fits: bool, loaded: seq<Value>, restored: seq<Value>, c': Input, end: Input) {
    if fits then loaded == restored && c' == end else c'.error
  }

  /** Loading `v` back into `t`, where its bytes come next. */
  ghost predicate LoadsBack(t: Value, v: Value, s: Schema, from: nat, to: nat, c: Input)
    requires WellFormed(s) && HasType(t, s, to) && HasType(v, s, from) && from <= 8 && Next(c, Save(v, s, from))
  {
    var (loaded, c') := Load(t, s, to, c);
    Outcome(Fits(v, s, from, |c.buf|), loaded, Restored(t, v, s, from, to), c', After(c, |Save(v, s, from)|))
  }

  lemma {:induction false} LoadSaved(t: Value, v: Value, s: Schema, from: nat, to: nat, c: Input)
    requires WellFormed(s) && HasType(t, s, to) && HasType(v, s, from) && from <= 8
    requires Next(c, Save(v, s, from))
    ensures LoadsBack(t, v, s, from, to, c)
    decreases s, 0, 0
  {
    match s
    case Array(elem, _) => LoadAllSaved(t.items, v.items, elem, from, to, c);
    case Opt(elem) => LoadOptSaved(t, v, s, elem, from, to, c);
    case Vec(elem) => LoadVecSaved(t, v, elem, from, to, c);
    case Struct(fields) => LoadFieldsSaved(t.items, v.items, fields, from, to, c);
    case Enum(variants, _) => LoadEnumSaved(t, v, s, variants, from, to, c);
    case _ => LoadScalarSaved(t, v, s, from, to, c);
  }

  lemma LoadScalarSaved(t: Value, v: Value, s: Schema, from: nat, to: nat, c: Input)
    requires WellFormed(s) && HasType(t, s, to) && HasType(v, s, from) && from <= 8
    requires Next(c, Save(v, s, from)) && (s.Pod? || s.Bool? || s.Word?)
    ensures LoadsBack(t, v, s, from, to, c)
  {
    match s
    case Pod(_) => TakeNextBytes(c, t.bytes, v.bytes);
    case Bool => TakeNextByte(c, if v.on then 1 else 0, []);
    case Word =>
      TakeNextBytes(c, Le(t.n, 8), Le(v.n, 8));
      WordRoundTrip(v.n, from);
  }

  lemma TakeNextBytes(c: Input, current: seq<U8>, bytes: seq<U8>)
    requires Next(c, bytes) && |current| == |bytes|
    ensures TakeBytes(c, current, |bytes|) == (bytes, After(c, |bytes|))
  {
  }

  lemma WordRoundTrip(n: nat, host: nat)
    requires n < Pow256(host) && host <= 8
    ensures FromLe(Le(n, 8)) == n
  {
    Pow256Grows(host, 8);
    LeRoundTrip(n, 8);
  }

  lemma {:induction false} LoadOptSaved(t: Value, v: Value, s: Schema, elem: Schema, from: nat, to: nat, c: Input)
    requires s == Opt(elem) && WellFormed(s) && HasType(t, s, to) && HasType(v, s, from) && from <= 8
    requires Next(c, Save(v, s, from))
    ensures LoadsBack(t, v, s, from, to, c)
    decreases elem, 2, 0
  {
    if v.Nothing? {
      TakeNextByte(c, 0, []);
    } else {
      TakeNextByte(c, 1, Save(v.value, elem, from));
      DefaultHasType(elem, to);
      LoadSaved(Default(elem), v.value, elem, from, to, After(c, 1));
    }
  }

  lemma {:induction false} LoadEnumSaved(t: Value, v: Value, s: Schema, variants: seq<Fields>, from: nat, to: nat,
                                         c: Input)
    requires s.Enum? && s.variants == variants
    requires WellFormed(s) && HasType(t, s, to) && HasType(v, s, from) && from <= 8
    requires Next(c, Save(v, s, from))
    ensures LoadsBack(t, v, s, from, to, c)
    decreases variants, 2, 0
  {
    var fields := variants[v.tag];
    TakeNextByte(c, v.tag, SaveFields(v.items, fields, from));
    DefaultFieldsHaveType(fields, to);
    LoadFieldsSaved(DefaultFields(fields), v.items, fields, from, to, After(c, 1));
  }

  lemma {:induction false} LoadVecSaved(t: Value, v: Value, elem: Schema, from: nat, to: nat, c: Input)
    requires WellFormed(elem) && HasType(t, Vec(elem), to) && HasType(v, Vec(elem), from) && from <= 8
    requires Next(c, Save(v, Vec(elem), from))
    ensures var (loaded, c') := Load(t, Vec(elem), to, c);
      Outcome(Fits(v, Vec(elem), from, |c.buf|), loaded, Restored(t, v, Vec(elem), from, to), c',
              After(c, |Save(v, Vec(elem), from)|))
    decreases elem, 2, 0
  {
    var len := |v.items|;
    NextSplit(c, Le(len, 4), SaveAll(v.items, elem, from));
    assert Pow256(4) == 0x1_0000_0000;
    LeRoundTrip(len, 4);
    DefaultsHaveType(elem, len, to);
    if len <= |c.buf| {
      LoadAllSaved(Defaults(elem, len), v.items, elem, from, to, After(c, 4));
    }
  }

  lemma {:induction false} LoadAllSaved(ts: seq<Value>, vs: seq<Value>, elem: Schema, from: nat, to: nat, c: Input)
    requires WellFormed(elem) && |ts| == |vs| && AllHaveType(ts, elem, to) && AllHaveType(vs, elem, from) && from <= 8
    requires Next(c, SaveAll(vs, elem, from))
    ensures var (loaded, c') := LoadAll(ts, elem, to, c);
      Outcomes(AllFit(vs, elem, from, |c.buf|), loaded, RestoredAll(ts, vs, elem, from, to), c',
               After(c, |SaveAll(vs, elem, from)|))
    decreases elem, 1, |vs|
  {
    if vs != [] {
      var head := Save(vs[0], elem, from);
      NextSplit(c, head, SaveAll(vs[1..], elem, from));
      LoadSaved(ts[0], vs[0], elem, from, to, c);
      var c1 := Load(ts[0], elem, to, c).1;
      if c1.error {
        LoadAllProgress(ts[1..], elem, to, c1);
      } else {
        LoadAllSaved(ts[1..], vs[1..], elem, from, to, c1);
      }
    }
  }

  lemma {:induction false} LoadFieldsSaved(ts: seq<Value>, vs: seq<Value>, fs: Fields, from: nat, to: nat, c: Input)
    requires FieldsWellFormed(fs) && FieldsHaveType(ts, fs, to) && FieldsHaveType(vs, fs, from) && from <= 8
    requires Next(c, SaveFields(vs, fs, from))
    ensures var (loaded, c') := LoadFields(ts, fs, to, c);
      Outcomes(FieldsFit(vs, fs, from, |c.buf|), loaded, RestoredFields(ts, vs, fs, from, to), c',
               After(c, |SaveFields(vs, fs, from)|))
    decreases fs, 0, 0
  {
    if fs.Field? {
      var rest := SaveFields(vs[1..], fs.rest, from);
      if fs.skip {
        assert [] + rest == rest;
        LoadFieldsSaved(ts[1..], vs[1..], fs.rest, from, to, c);
      } else {
        NextSplit(c, Save(vs[0], fs.schema, from), rest);
        LoadSaved(ts[0], vs[0], fs.schema, from, to, c);
        var c1 := Load(ts[0], fs.schema, to, c).1;
        if c1.error {
          LoadFieldsProgress(ts[1..], fs.rest, to, c1);
        } else {
          LoadFieldsSaved(ts[1..], vs[1..], fs.rest, from, to, c1);
        }
      }
    }
  }

  // ---- the round trip ----

  /** `is_load_successful`. */
  predicate Successful(c: Input) { !c.error && c.pos == |c.buf| }

  function Start(bytes: seq<U8>): Input { Cursor(bytes, 0, false) }

  /** Loading a save into any target of its type succeeds exactly when its vectors pass the length guard,
      and then restores it. */
  lemma RoundTrip(t: Value, v: Value, s: Schema, from: nat, to: nat)
    requires WellFormed(s) && HasType(t, s, to) && HasType(v, s, from) && from <= 8
    ensures var bytes := Save(v, s, from); var (loaded, c) := Load(t, s, to, Start(bytes));
      && (Successful(c) <==> Fits(v, s, from, |bytes|))
      && (Successful(c) ==> loaded == Restored(t, v, s, from, to))
  {
    var bytes := Save(v, s, from);
    assert bytes[0..|bytes|] == bytes;
    LoadSaved(t, v, s, from, to, Start(bytes));
  }

  /** Every value of the type takes at least one byte. */
  predicate TakesSpace(s: Schema)
    decreases s, 0
  {
    match s
    case Pod(size) => size > 0
    case Array(elem, count) => count > 0 && TakesSpace(elem)
    case Struct(fields) => FieldsTakeSpace(fields)
    case _ => true
  }

  predicate FieldsTakeSpace(fs: Fields)
    decreases fs, 0
  {
    fs.Field? && ((!fs.skip && TakesSpace(fs.schema)) || FieldsTakeSpace(fs.rest))
  }

  /** No vector in the type has elements that may take no space. */
  predicate SolidVecs(s: Schema)
    decreases s, 0
  {
    match s
    case Array(elem, _) => SolidVecs(elem)
    case Opt(elem) => SolidVecs(elem)
    case Vec(elem) => SolidVecs(elem) && TakesSpace(elem)
    case Struct(fields) => FieldsSolid(fields)
    case Enum(variants, _) => forall i :: 0 <= i < |variants| ==> FieldsSolid(variants[i])
    case _ => true
  }

  predicate FieldsSolid(fs: Fields)
    decreases fs, 0
  {
    fs.End? || (SolidVecs(fs.schema) && FieldsSolid(fs.rest))
  }

  lemma {:induction false} SaveTakesSpace(v: Value, s: Schema, host: nat)
    requires HasType(v, s, host) && TakesSpace(s)
    ensures |Save(v, s, host)| > 0
    decreases s, 0, 0
  {
    match s
    case Array(elem, _) => SaveAllTakesSpace(v.items, elem, host);
    case Struct(fields) => SaveFieldsTakesSpace(v.items, fields, host);
    case _ =>
  }

  lemma {:induction false} SaveAllTakesSpace(vs: seq<Value>, elem: Schema, host: nat)
    requires AllHaveType(vs, elem, host) && TakesSpace(elem)
    ensures |SaveAll(vs, elem, host)| >= |vs|
    decreases elem, 1, |vs|
  {
    if vs != [] {
      SaveTakesSpace(vs[0], elem, host);
      SaveAllTakesSpace(vs[1..], elem, host);
    }
  }

  lemma {:induction false} SaveFieldsTakesSpace(vs: seq<Value>, fs: Fields, host: nat)
    requires FieldsHaveType(vs, fs, host) && FieldsTakeSpace(fs)
    ensures |SaveFields(vs, fs, host)| > 0
    decreases fs, 0, 0
  {
    if !fs.skip && TakesSpace(fs.schema) {
      SaveTakesSpace(vs[0], fs.schema, host);
    } else {
      SaveFieldsTakesSpace(vs[1..], fs.rest, host);
    }
  }

  // Each element of a vector takes a byte of the buffer, so the guard lets every save through.
  lemma {:induction false} SolidFits(v: Value, s: Schema, host: nat, limit: nat)
    requires HasType(v, s, host) && SolidVecs(s) && |Save(v, s, host)| <= limit
    ensures Fits(v, s, host, limit)
    decreases s, 0, 0
  {
    match s
    case Array(elem, _) => SolidAllFit(v.items, elem, host, limit);
    case Opt(elem) => if v.Just? { SolidFits(v.value, elem, host, limit); }
    case Vec(elem) =>
      SaveAllTakesSpace(v.items, elem, host);
      SolidAllFit(v.items, elem, host, limit);
    case Struct(fields) => SolidFieldsFit(v.items, fields, host, limit);
    case Enum(variants, _) => SolidFieldsFit(v.items, variants[v.tag], host, limit);
    case _ =>
  }

  lemma {:induction false} SolidAllFit(vs: seq<Value>, elem: Schema, host: nat, limit: nat)
    requires AllHaveType(vs, elem, host) && SolidVecs(elem) && |SaveAll(vs, elem, host)| <= limit
    ensures AllFit(vs, elem, host, limit)
    decreases elem, 1, |vs|
  {
    if vs != [] {
      SolidFits(vs[0], elem, host, limit);
      SolidAllFit(vs[1..], elem, host, limit);
    }
  }

  lemma {:induction false} SolidFieldsFit(vs: seq<Value>, fs: Fields, host: nat, limit: nat)
    requires FieldsHaveType(vs, fs, host) && FieldsSolid(fs) && |SaveFields(vs, fs, host)| <= limit
    ensures FieldsFit(vs, fs, host, limit)
    decreases fs, 0, 0
  {
    if fs.Field? {
      if !fs.skip {
        SolidFits(vs[0], fs.schema, host, limit);
      }
      SolidFieldsFit(vs[1..], fs.rest, host, limit);
    }
  }

  /** For types whose vector elements take space, a save always loads, consumes its whole buffer and
      restores every serialized field. */
  lemma SolidRoundTrip(t: Value, v: Value, s: Schema, from: nat, to: nat)
    requires WellFormed(s) && SolidVecs(s) && HasType(t, s, to) && HasType(v, s, from) && from <= 8
    ensures var (loaded, c) := Load(t, s, to, Start(Save(v, s, from)));
      Successful(c) && loaded == Restored(t, v, s, from, to)
  {
    SolidFits(v, s, from, |Save(v, s, from)|);
    RoundTrip(t, v, s, from, to);
  }

  /** Without the condition it is false: five values that take no space are rejected. */
  lemma EmptyElementsDoNotLoad()
    ensures var units := Vec(Struct(End)); var v := Items([Items([]), Items([]), Items([]), Items([]), Items([])]);
      && HasType(v, units, 8) && HasType(Items([]), units, 8)
      && Load(Items([]), units, 8, Start(Save(v, units, 8))).1.error
  {
    var units, vs := Vec(Struct(End)), [Items([]), Items([]), Items([]), Items([]), Items([])];
    UnitsHaveType(vs);
    UnitsSaveEmpty(vs);
    RoundTrip(Items([]), Items(vs), units, 8, 8);
    LoadProgress(Items([]), units, 8, Start(Save(Items(vs), units, 8)));
    assert |Save(Items(vs), units, 8)| == 4;
    var bytes := Save(Items(vs), units, 8);
    assert bytes[0..|bytes|] == bytes;
    LoadSaved(Items([]), Items(vs), units, 8, 8, Start(bytes));
  }

  lemma {:induction false} UnitsHaveType(vs: seq<Value>)
    requires forall i :: 0 <= i < |vs| ==> vs[i] == Items([])
    ensures AllHaveType(vs, Struct(End), 8)
  {
    if vs != [] {
      UnitsHaveType(vs[1..]);
    }
  }

  lemma {:induction false} UnitsSaveEmpty(vs: seq<Value>)
    requires AllHaveType(vs, Struct(End), 8)
    ensures SaveAll(vs, Struct(End), 8) == []
  {
    if vs != [] {
      UnitsSaveEmpty(vs[1..]);
    }
  }

  // ---- what the restoration is ----

  predicate NoSkips(s: Schema)
    decreases s, 0
  {
    match s
    case Array(elem, _) => NoSkips(elem)
    case Opt(elem) => NoSkips(elem)
    case Vec(elem) => NoSkips(elem)
    case Struct(fields) => FieldsNoSkips(fields)
    case Enum(variants, _) => forall i :: 0 <= i < |variants| ==> FieldsNoSkips(variants[i])
    case _ => true
  }

  predicate FieldsNoSkips(fs: Fields)
    decreases fs, 0
  {
    fs.End? || (!fs.skip && NoSkips(fs.schema) && FieldsNoSkips(fs.rest))
  }

  /** When nothing is skipped and every usize fits the loading machine, the restoration is the saved value
      itself, whatever the target held. */
  lemma {:induction false} NothingSkippedRestoresAll(t: Value, v: Value, s: Schema, from: nat, to: nat)
    requires WellFormed(s) && NoSkips(s) && HasType(t, s, to) && HasType(v, s, from) && HasType(v, s, to)
    ensures Restored(t, v, s, from, to) == v
    decreases s, 0, 0
  {
    match s
    case Array(elem, _) => NothingSkippedRestoresItems(t.items, v.items, elem, from, to);
    case Opt(elem) => NothingSkippedRestoresOpt(t, v, s, elem, from, to);
    case Vec(elem) => NothingSkippedRestoresVec(t, v, s, elem, from, to);
    case Struct(fields) => NothingSkippedRestoresFields(t.items, v.items, fields, from, to);
    case Enum(variants, _) => NothingSkippedRestoresEnum(t, v, s, variants, from, to);
    case _ => RestoresScalar(t, v, s, from, to);
  }

  lemma RestoresScalar(t: Value, v: Value, s: Schema, from: nat, to: nat)
    requires WellFormed(s) && HasType(t, s, to) && HasType(v, s, from) && HasType(v, s, to)
    requires s.Pod? || s.Bool? || s.Word?
    ensures Restored(t, v, s, from, to) == v
  {
    if s.Word? {
      SmallIsNotTruncated(v.n, to);
    }
  }

  lemma SmallIsNotTruncated(n: nat, host: nat)
    requires n < Pow256(host)
    ensures Truncated(n, host) == n
  {
    SmallRemainder(n, Pow256(host));
  }

  lemma {:induction false} NothingSkippedRestoresOpt(t: Value, v: Value, s: Schema, elem: Schema, from: nat, to: nat)
    requires s == Opt(elem) && WellFormed(s) && NoSkips(s)
    requires HasType(t, s, to) && HasType(v, s, from) && HasType(v, s, to)
    ensures Restored(t, v, s, from, to) == v
    decreases elem, 2, 0
  {
    if v.Just? {
      DefaultHasType(elem, to);
      NothingSkippedRestoresAll(Default(elem), v.value, elem, from, to);
    }
  }

  lemma {:induction false} NothingSkippedRestoresVec(t: Value, v: Value, s: Schema, elem: Schema, from: nat, to: nat)
    requires s == Vec(elem) && WellFormed(s) && NoSkips(s)
    requires HasType(t, s, to) && HasType(v, s, from) && HasType(v, s, to)
    ensures Restored(t, v, s, from, to) == v
    decreases elem, 2, 0
  {
    DefaultsHaveType(elem, |v.items|, to);
    NothingSkippedRestoresItems(Defaults(elem, |v.items|), v.items, elem, from, to);
  }

  lemma {:induction false} NothingSkippedRestoresEnum(t: Value, v: Value, s: Schema, variants: seq<Fields>, from: nat,
                                                      to: nat)
    requires s.Enum? && s.variants == variants && WellFormed(s) && NoSkips(s)
    requires HasType(t, s, to) && HasType(v, s, from) && HasType(v, s, to)
    ensures Restored(t, v, s, from, to) == v
    decreases variants, 2, 0
  {
    DefaultFieldsHaveType(variants[v.tag], to);
    NothingSkippedRestoresFields(DefaultFields(variants[v.tag]), v.items, variants[v.tag], from, to);
  }

  lemma {:induction false} NothingSkippedRestoresItems(ts: seq<Value>, vs: seq<Value>, elem: Schema, from: nat, to: nat)
    requires WellFormed(elem) && NoSkips(elem) && |ts| == |vs|
    requires AllHaveType(ts, elem, to) && AllHaveType(vs, elem, from) && AllHaveType(vs, elem, to)
    ensures RestoredAll(ts, vs, elem, from, to) == vs
    decreases elem, 1, |vs|
  {
    if vs != [] {
      NothingSkippedRestoresAll(ts[0], vs[0], elem, from, to);
      NothingSkippedRestoresItems(ts[1..], vs[1..], elem, from, to);
    }
  }

  lemma {:induction false} NothingSkippedRestoresFields(ts: seq<Value>, vs: seq<Value>, fs: Fields, from: nat, to: nat)
    requires FieldsWellFormed(fs) && FieldsNoSkips(fs)
    requires FieldsHaveType(ts, fs, to) && FieldsHaveType(vs, fs, from) && FieldsHaveType(vs, fs, to)
    ensures RestoredFields(ts, vs, fs, from, to) == vs
    decreases fs, 0, 0
  {
    if fs.Field? {
      NothingSkippedRestoresAll(ts[0], vs[0], fs.schema, from, to);
      NothingSkippedRestoresFields(ts[1..], vs[1..], fs.rest, from, to);
    }
  }

  // ---- cut-off and extended saves ----

  /** With more bytes behind it, the input loads as the same value and leaves them. */
  ghost predicate LoadsLonger(t: Value, s: Schema, host: nat, c: Input, ext: seq<U8>)
    requires WellFormed(s) && HasType(t, s, host)
  {
    var (v, c') := Load(t, s, host, c);
    Load(t, s, host, c.(buf := c.buf + ext)) == (v, c'.(buf := c'.buf + ext))
  }

  lemma {:induction false} LoadExtended(t: Value, s: Schema, host: nat, c: Input, ext: seq<U8>)
    requires WellFormed(s) && HasType(t, s, host) && !Load(t, s, host, c).1.error
    ensures LoadsLonger(t, s, host, c, ext)
    decreases s, 0, 0
  {
    match s
    case Array(elem, _) => LoadAllExtended(t.items, elem, host, c, ext);
    case Opt(elem) => LoadOptExtended(t, s, elem, host, c, ext);
    case Vec(elem) => LoadVecExtended(t, s, elem, host, c, ext);
    case Struct(fields) => LoadFieldsExtended(t.items, fields, host, c, ext);
    case Enum(variants, _) => LoadEnumExtended(t, s, variants, host, c, ext);
    case _ => LoadScalarExtended(t, s, host, c, ext);
  }

  lemma LoadScalarExtended(t: Value, s: Schema, host: nat, c: Input, ext: seq<U8>)
    requires WellFormed(s) && HasType(t, s, host) && !Load(t, s, host, c).1.error
    requires s.Pod? || s.Bool? || s.Word?
    ensures LoadsLonger(t, s, host, c, ext)
  {
    if s.Pod? {
      TakeBytesExtended(c, t.bytes, s.size, ext);
    } else if s.Word? {
      TakeBytesExtended(c, Le(t.n, 8), 8, ext);
    }
  }

  lemma {:induction false} LoadOptExtended(t: Value, s: Schema, elem: Schema, host: nat, c: Input, ext: seq<U8>)
    requires s == Opt(elem) && WellFormed(s) && HasType(t, s, host) && !Load(t, s, host, c).1.error
    ensures LoadsLonger(t, s, host, c, ext)
    decreases elem, 2, 0
  {
    var (b, c1) := TakeU8(c);
    if b != 0 {
      DefaultHasType(elem, host);
      LoadProgress(Default(elem), elem, host, c1);
      LoadExtended(Default(elem), elem, host, c1, ext);
    }
  }

  lemma {:induction false} LoadVecExtended(t: Value, s: Schema, elem: Schema, host: nat, c: Input, ext: seq<U8>)
    requires s == Vec(elem) && WellFormed(s) && HasType(t, s, host) && !Load(t, s, host, c).1.error
    ensures LoadsLonger(t, s, host, c, ext)
    decreases elem, 2, 0
  {
    LoadProgress(t, s, host, c);
    var (bytes, c1) := TakeBytes(c, Le(|t.items|, 4), 4);
    TakeBytesExtended(c, Le(|t.items|, 4), 4, ext);
    DefaultsHaveType(elem, FromLe(bytes), host);
    LoadAllExtended(Defaults(elem, FromLe(bytes)), elem, host, c1, ext);
  }

  lemma {:induction false} LoadEnumExtended(t: Value, s: Schema, variants: seq<Fields>, host: nat, c: Input,
                                            ext: seq<U8>)
    requires s.Enum? && s.variants == variants
    requires WellFormed(s) && HasType(t, s, host) && !Load(t, s, host, c).1.error
    ensures LoadsLonger(t, s, host, c, ext)
    decreases variants, 2, 0
  {
    var longer: Input := c.(buf := c.buf + ext);
    var (tag, c1) := TakeU8(c);
    var fs := variants[tag];
    DefaultFieldsHaveType(fs, host);
    LoadFieldsProgress(DefaultFields(fs), fs, host, c1);
    LoadFieldsExtended(DefaultFields(fs), fs, host, c1, ext);
    assert TakeU8(longer) == (tag, c1.(buf := c1.buf + ext));
    var (items, c2) := LoadFields(DefaultFields(fs), fs, host, c1);
    assert Load(t, s, host, c) == (Variant(tag, items), c2);
  }

  lemma TakeBytesExtended(c: Input, current: seq<U8>, n: nat, ext: seq<U8>)
    requires |current| == n && !TakeBytes(c, current, n).1.error
    ensures var (bytes, c') := TakeBytes(c, current, n);
      TakeBytes(c.(buf := c.buf + ext), current, n) == (bytes, c'.(buf := c'.buf + ext))
  {
    assert (c.buf + ext)[c.pos..c.pos + n] == c.buf[c.pos..c.pos + n];
  }

  lemma {:induction false} LoadAllExtended(ts: seq<Value>, elem: Schema, host: nat, c: Input, ext: seq<U8>)
    requires WellFormed(elem) && AllHaveType(ts, elem, host) && !LoadAll(ts, elem, host, c).1.error
    ensures var (vs, c') := LoadAll(ts, elem, host, c);
      LoadAll(ts, elem, host, c.(buf := c.buf + ext)) == (vs, c'.(buf := c'.buf + ext))
    decreases elem, 1, |ts|
  {
    if ts != [] {
      var c1 := Load(ts[0], elem, host, c).1;
      LoadAllProgress(ts[1..], elem, host, c1);
      LoadExtended(ts[0], elem, host, c, ext);
      LoadAllExtended(ts[1..], elem, host, c1, ext);
    }
  }

  lemma {:induction false} LoadFieldsExtended(ts: seq<Value>, fs: Fields, host: nat, c: Input, ext: seq<U8>)
    requires FieldsWellFormed(fs) && FieldsHaveType(ts, fs, host) && !LoadFields(ts, fs, host, c).1.error
    ensures var (vs, c') := LoadFields(ts, fs, host, c);
      LoadFields(ts, fs, host, c.(buf := c.buf + ext)) == (vs, c'.(buf := c'.buf + ext))
    decreases fs, 0, 0
  {
    if fs.Field? {
      if fs.skip {
        LoadFieldsExtended(ts[1..], fs.rest, host, c, ext);
      } else {
        var c1 := Load(ts[0], fs.schema, host, c).1;
        LoadFieldsProgress(ts[1..], fs.rest, host, c1);
        LoadExtended(ts[0], fs.schema, host, c, ext);
        LoadFieldsExtended(ts[1..], fs.rest, host, c1, ext);
      }
    }
  }

  /** Of all the bytes that start with a successful load or that it starts with, only it loads: no strict
      prefix and no strict extension of a loadable buffer is loadable. */
  lemma NeitherPrefixNorExtensionLoads(t: Value, s: Schema, host: nat, bytes: seq<U8>, other: seq<U8>)
    requires WellFormed(s) && HasType(t, s, host) && Successful(Load(t, s, host, Start(bytes)).1)
    requires bytes != other && (other <= bytes || bytes <= other)
    ensures !Successful(Load(t, s, host, Start(other)).1)
  {
    LoadProgress(t, s, host, Start(bytes));
    LoadProgress(t, s, host, Start(other));
    if bytes <= other {
      var ext := other[|bytes|..];
      assert other == bytes + ext;
      LoadExtended(t, s, host, Start(bytes), ext);
    } else if Successful(Load(t, s, host, Start(other)).1) {
      var ext := bytes[|other|..];
      assert bytes == other + ext;
      LoadExtended(t, s, host, Start(other), ext);
    }
  }

  // ---- loading arbitrary bytes ----

  lemma TruncatedFits(n: nat, host: nat)
    ensures Truncated(n, host) < Pow256(host)
  {
  }

  /** Whatever the bytes, a load gives a value of the type; and when it does not fail, saving that value
      takes as many bytes as the load consumed. */
  lemma {:induction false} LoadedSavesToSameSize(t: Value, s: Schema, host: nat, c: Input)
    requires WellFormed(s) && HasType(t, s, host)
    ensures var (v, c') := Load(t, s, host, c);
      HasType(v, s, host) && (!c'.error ==> c'.pos == c.pos + |Save(v, s, host)|)
    decreases s, 0, 0
  {
    match s
    case Pod(_) =>
    case Bool =>
    case Word => TruncatedFits(FromLe(TakeBytes(c, Le(t.n, 8), 8).0), host);
    case Array(elem, _) => LoadedAllSaveToSameSize(t.items, elem, host, c);
    case Opt(elem) =>
      var (b, c1) := TakeU8(c);
      if b != 0 {
        DefaultHasType(elem, host);
        LoadedSavesToSameSize(Default(elem), elem, host, c1);
        LoadProgress(Default(elem), elem, host, c1);
      }
    case Vec(elem) => LoadedVecSavesToSameSize(t, elem, host, c);
    case Struct(fields) => LoadedFieldsSaveToSameSize(t.items, fields, host, c);
    case Enum(variants, _) =>
      var (tag, c1) := TakeU8(c);
      if tag < |variants| {
        DefaultFieldsHaveType(variants[tag], host);
        LoadedFieldsSaveToSameSize(DefaultFields(variants[tag]), variants[tag], host, c1);
        LoadFieldsProgress(DefaultFields(variants[tag]), variants[tag], host, c1);
      }
  }

  lemma {:induction false} LoadedVecSavesToSameSize(t: Value, elem: Schema, host: nat, c: Input)
    requires WellFormed(elem) && HasType(t, Vec(elem), host)
    ensures var (v, c') := Load(t, Vec(elem), host, c);
      HasType(v, Vec(elem), host) && (!c'.error ==> c'.pos == c.pos + |Save(v, Vec(elem), host)|)
    decreases elem, 2, 0
  {
    var (bytes, c1) := TakeBytes(c, Le(|t.items|, 4), 4);
    var len := FromLe(bytes);
    FromLeBound(bytes);
    assert Pow256(4) == 0x1_0000_0000;
    if !c1.error && len <= |c1.buf| {
      DefaultsHaveType(elem, len, host);
      LoadedAllSaveToSameSize(Defaults(elem, len), elem, host, c1);
      LoadAllProgress(Defaults(elem, len), elem, host, c1);
    }
  }

  lemma {:induction false} LoadedAllSaveToSameSize(ts: seq<Value>, elem: Schema, host: nat, c: Input)
    requires WellFormed(elem) && AllHaveType(ts, elem, host)
    ensures var (vs, c') := LoadAll(ts, elem, host, c);
      AllHaveType(vs, elem, host) && (!c'.error ==> c'.pos == c.pos + |SaveAll(vs, elem, host)|)
    decreases elem, 1, |ts|
  {
    if ts != [] {
      var (v, c1) := Load(ts[0], elem, host, c);
      LoadedSavesToSameSize(ts[0], elem, host, c);
      LoadedAllSaveToSameSize(ts[1..], elem, host, c1);
      LoadAllProgress(ts[1..], elem, host, c1);
      assert LoadAll(ts, elem, host, c).0[1..] == LoadAll(ts[1..], elem, host, c1).0;
    }
  }

  lemma {:induction false} LoadedFieldsSaveToSameSize(ts: seq<Value>, fs: Fields, host: nat, c: Input)
    requires FieldsWellFormed(fs) && FieldsHaveType(ts, fs, host)
    ensures var (vs, c') := LoadFields(ts, fs, host, c);
      FieldsHaveType(vs, fs, host) && (!c'.error ==> c'.pos == c.pos + |SaveFields(vs, fs, host)|)
    decreases fs, 0, 0
  {
    if fs.Field? {
      if !fs.skip {
        LoadedSavesToSameSize(ts[0], fs.schema, host, c);
      }
      var c1 := if fs.skip then c else Load(ts[0], fs.schema, host, c).1;
      LoadedFieldsSaveToSameSize(ts[1..], fs.rest, host, c1);
      LoadFieldsProgress(ts[1..], fs.rest, host, c1);
      assert LoadFields(ts, fs, host, c).0[1..] == LoadFields(ts[1..], fs.rest, host, c1).0;
    }
  }
}
