/**
 Savestates: what a type's derived field walk writes when it saves and what it consumes when it loads.
 A schema stands for a type, a value for a variable of that type.
 */
module Savestate {
  import opened Machine

  datatype Schema =
    | Pod(size: nat)
    | Bool
    | Word // usize, stored in eight bytes
    | Array(elem: Schema, count: nat)
    | Opt(elem: Schema)
    | Vec(elem: Schema) // also VecDeque
    | Struct(fields: Fields)
    | Enum(variants: seq<Fields>, default_: nat)

  /** The fields of a struct or of an enum variant, in declaration order. */
  datatype Fields = End | Field(schema: Schema, skip: bool, rest: Fields)

  datatype Value =
    | Raw(bytes: seq<U8>)
    | Flag(on: bool)
    | Num(n: nat)
    | Items(items: seq<Value>) // array and vector elements, struct fields
    | Nothing
    | Just(value: Value)
    | Variant(tag: nat, items: seq<Value>)

  // ---- types ----

  const TAG_LIMIT := 256

  /** Enums have a variant and no more than a tag byte can tell apart. */
  predicate WellFormed(s: Schema)
    decreases s, 0
  {
    match s
    case Array(elem, _) => WellFormed(elem)
    case Opt(elem) => WellFormed(elem)
    case Vec(elem) => WellFormed(elem)
    case Struct(fields) => FieldsWellFormed(fields)
    case Enum(variants, default_) =>
      default_ < |variants| <= TAG_LIMIT && forall i :: 0 <= i < |variants| ==> FieldsWellFormed(variants[i])
    case _ => true
  }

  predicate FieldsWellFormed(fs: Fields)
    decreases fs, 0
  {
    fs.End? || (WellFormed(fs.schema) && FieldsWellFormed(fs.rest))
  }

  /** Values of type `s` on a machine whose usize has `host` bytes. */
  predicate HasType(v: Value, s: Schema, host: nat)
    decreases s, 0, 0
  {
    match s
    case Pod(size) => v.Raw? && |v.bytes| == size
    case Bool => v.Flag?
    case Word => v.Num? && v.n < Pow256(host)
    case Array(elem, count) => v.Items? && |v.items| == count && AllHaveType(v.items, elem, host)
    case Opt(elem) => v.Nothing? || (v.Just? && HasType(v.value, elem, host))
    case Vec(elem) => v.Items? && |v.items| <= U32_MAX && AllHaveType(v.items, elem, host)
    case Struct(fields) => v.Items? && FieldsHaveType(v.items, fields, host)
    case Enum(variants, _) => v.Variant? && v.tag < |variants| && FieldsHaveType(v.items, variants[v.tag], host)
  }

  predicate AllHaveType(vs: seq<Value>, elem: Schema, host: nat)
    decreases elem, 1, |vs|
  {
    vs == [] || (HasType(vs[0], elem, host) && AllHaveType(vs[1..], elem, host))
  }

  predicate FieldsHaveType(vs: seq<Value>, fs: Fields, host: nat)
    decreases fs, 0, 0
  {
    if fs.End? then vs == [] else vs != [] && HasType(vs[0], fs.schema, host) && FieldsHaveType(vs[1..], fs.rest, host)
  }

  function Default(s: Schema): Value
    requires WellFormed(s)
    decreases s, 0, 0
  {
    match s
    case Pod(size) => Raw(seq(size, _ => 0))
    case Bool => Flag(false)
    case Word => Num(0)
    case Array(elem, count) => Items(Defaults(elem, count))
    case Opt(_) => Nothing
    case Vec(_) => Items([])
    case Struct(fields) => Items(DefaultFields(fields))
    case Enum(variants, default_) =>
      Variant(default_, DefaultFields(variants[default_]))
  }

  function Defaults(elem: Schema, count: nat): (vs: seq<Value>)
    requires WellFormed(elem)
    ensures |vs| == count
    decreases elem, 1, count
  {
    if count == 0 then [] else [Default(elem)] + Defaults(elem, count - 1)
  }

  function DefaultFields(fs: Fields): (vs: seq<Value>)
    requires FieldsWellFormed(fs)
    decreases fs, 0, 0
  {
    if fs.End? then [] else [Default(fs.schema)] + DefaultFields(fs.rest)
  }

  // ---- saving ----

  function Save(v: Value, s: Schema, host: nat): seq<U8>
    requires HasType(v, s, host)
    decreases s, 0, 0
  {
    match s
    case Pod(_) => v.bytes
    case Bool => [if v.on then 1 else 0]
    case Word => Le(v.n, 8)
    case Array(elem, _) => SaveAll(v.items, elem, host)
    case Opt(elem) => if v.Nothing? then [0] else [1] + Save(v.value, elem, host)
    case Vec(elem) => Le(|v.items|, 4) + SaveAll(v.items, elem, host)
    case Struct(fields) => SaveFields(v.items, fields, host)
    case Enum(variants, _) => [v.tag % TAG_LIMIT] + SaveFields(v.items, variants[v.tag], host)
  }

  function SaveAll(vs: seq<Value>, elem: Schema, host: nat): seq<U8>
    requires AllHaveType(vs, elem, host)
    decreases elem, 1, |vs|
  {
    if vs == [] then [] else Save(vs[0], elem, host) + SaveAll(vs[1..], elem, host)
  }

  function SaveFields(vs: seq<Value>, fs: Fields, host: nat): seq<U8>
    requires FieldsHaveType(vs, fs, host)
    decreases fs, 0, 0
  {
    if fs.End? then []
    else (if fs.skip then [] else Save(vs[0], fs.schema, host)) + SaveFields(vs[1..], fs.rest, host)
  }

  // ---- loading ----

  datatype Cursor = Cursor(buf: seq<U8>, pos: nat, error: bool)
  {
    predicate Ok() { pos <= |buf| }
  }

  type Input = c: Cursor | c.Ok() witness Cursor([], 0, false)

  function Fail(c: Input): Input { c.(error := true) }

  function TakeU8(c: Input): (U8, Input) {
    if c.error || c.pos >= |c.buf| then (0, Fail(c)) else (c.buf[c.pos], c.(pos := c.pos + 1))
  }

  /** The next `n` bytes, or `current` if there are none to be had. */
  function TakeBytes(c: Input, current: seq<U8>, n: nat): (r: (seq<U8>, Input))
    requires |current| == n
    ensures |r.0| == n
  {
    if c.error then (current, c)
    else if |c.buf| - c.pos < n then (current, Fail(c))
    else (c.buf[c.pos..c.pos + n], c.(pos := c.pos + n))
  }

  function Truncated(n: nat, host: nat): nat { n % Pow256(host) }

  function Load(t: Value, s: Schema, host: nat, c: Input): (Value, Input)
    requires WellFormed(s) && HasType(t, s, host)
    decreases s, 0, 0
  {
    match s
    case Pod(size) =>
      var (bytes, c1) := TakeBytes(c, t.bytes, size);
      (Raw(bytes), c1)
    case Bool =>
      var (b, c1) := TakeU8(c);
      (Flag(b != 0), c1)
    case Word =>
      var (bytes, c1) := TakeBytes(c, Le(t.n, 8), 8);
      (Num(Truncated(FromLe(bytes), host)), c1)
    case Array(elem, _) =>
      var (items, c1) := LoadAll(t.items, elem, host, c);
      (Items(items), c1)
    case Opt(elem) =>
      var (b, c1) := TakeU8(c);
      if b == 0 then (Nothing, c1) else
      DefaultHasType(elem, host);
      var (v, c2) := Load(Default(elem), elem, host, c1);
      (Just(v), c2)
    case Vec(elem) =>
      var (bytes, c1) := TakeBytes(c, Le(|t.items|, 4), 4);
      var len := FromLe(bytes);
      if c1.error then (t, c1)
      else if len > |c1.buf| then (t, Fail(c1))
      else
        DefaultsHaveType(elem, len, host);
        var (items, c2) := LoadAll(Defaults(elem, len), elem, host, c1);
        (Items(items), c2)
    case Struct(fields) =>
      var (items, c1) := LoadFields(t.items, fields, host, c);
      (Items(items), c1)
    case Enum(variants, _) =>
      var (tag, c1) := TakeU8(c);
      if tag >= |variants| then (t, Fail(c1)) else
      DefaultFieldsHaveType(variants[tag], host);
      var (items, c2) := LoadFields(DefaultFields(variants[tag]), variants[tag], host, c1);
      (Variant(tag, items), c2)
  }

  function LoadAll(ts: seq<Value>, elem: Schema, host: nat, c: Input): (r: (seq<Value>, Input))
    requires WellFormed(elem) && AllHaveType(ts, elem, host)
    ensures |r.0| == |ts|
    decreases elem, 1, |ts|
  {
    if ts == [] then ([], c) else
    var (v, c1) := Load(ts[0], elem, host, c);
    var (vs, c2) := LoadAll(ts[1..], elem, host, c1);
    ([v] + vs, c2)
  }

  function LoadFields(ts: seq<Value>, fs: Fields, host: nat, c: Input): (r: (seq<Value>, Input))
    requires FieldsWellFormed(fs) && FieldsHaveType(ts, fs, host)
    ensures |r.0| == |ts|
    decreases fs, 0, 0
  {
    if fs.End? then ([], c) else
    var (v, c1) := if fs.skip then (ts[0], c) else Load(ts[0], fs.schema, host, c);
    var (vs, c2) := LoadFields(ts[1..], fs.rest, host, c1);
    ([v] + vs, c2)
  }

  lemma {:induction false} DefaultHasType(s: Schema, host: nat)
    requires WellFormed(s)
    ensures HasType(Default(s), s, host)
    decreases s, 0, 0
  {
    match s
    case Array(elem, count) => DefaultsHaveType(elem, count, host);
    case Struct(fields) => DefaultFieldsHaveType(fields, host);
    case Enum(variants, default_) =>
      DefaultFieldsHaveType(variants[default_], host);
    case _ =>
  }

  lemma {:induction false} DefaultsHaveType(elem: Schema, count: nat, host: nat)
    requires WellFormed(elem)
    ensures AllHaveType(Defaults(elem, count), elem, host)
    decreases elem, 1, count
  {
    if count > 0 {
      DefaultHasType(elem, host);
      DefaultsHaveType(elem, count - 1, host);
      assert Defaults(elem, count)[1..] == Defaults(elem, count - 1);
    }
  }

  lemma {:induction false} DefaultFieldsHaveType(fs: Fields, host: nat)
    requires FieldsWellFormed(fs)
    ensures FieldsHaveType(DefaultFields(fs), fs, host)
    decreases fs, 0, 0
  {
    if fs.Field? {
      DefaultHasType(fs.schema, host);
      DefaultFieldsHaveType(fs.rest, host);
      assert DefaultFields(fs)[1..] == DefaultFields(fs.rest);
    }
  }
}
