/**
 * The byte cursor and the generic tuple/sequence engine of the binary decoder
 * (src/litchi/bin/deserializer.rs).
 *
 * The first half gives the meaning of every decoding request as pure functions from
 * the remaining input to a value and the input left after it. Serde's trait dispatch
 * ("decode this Rust type") is modelled by an explicit Shape: a primitive request, a
 * length-prefixed sequence of one shape, or a fixed-arity tuple or struct of shapes.
 *
 * The second half is the imperative cursor of the source: the class Deserializer,
 * whose primitive readers reassign its `input` field, and the class SeqVisitor, whose
 * `size` counter bounds the elements it hands out. Every method there is proved to
 * behave as the pure functions say.
 */
module BinDeserializer {

  import opened Wrappers
  import opened Wire
  import opened BinError

  type Outcome<T> = Result<T, Error>

  /** A value decoded from the front of the input, with the input that is left. */
  datatype Read<+T> = Read(value: T, rest: seq<byte>)

  /** The decoder as the source has it (AsWritten: `u16` is forwarded to
      `deserialize_any` and refused), or with `u16` read as two big-endian bytes
      (WithU16), which the record declarations of the mission format rely on. */
  datatype Dialect = AsWritten | WithU16

  // ---------------------------------------------------------------------------
  // Primitive reads
  // ---------------------------------------------------------------------------

  /** `split_at(width)` on the remaining input. The source panics when fewer than
      `width` bytes remain; the model fails with Truncated and reads nothing. */
  function Split(input: seq<byte>, width: nat): (r: Outcome<Read<seq<byte>>>)
    ensures r.Ok? <==> width <= |input|
    ensures r.Ok? ==> |r.value.value| == width && r.value.value + r.value.rest == input
    ensures r.Err? ==> r.error == Truncated(width, |input|)
  {
    if |input| < width then Err(Truncated(width, |input|))
    else Ok(Read(input[..width], input[width..]))
  }

  /** `parse_u32`: the big-endian value of the first four bytes. */
  function ReadU32(input: seq<byte>): (r: Outcome<Read<u32>>)
    ensures r.Ok? <==> 4 <= |input|
    ensures r.Ok? ==> BeBytes(r.value.value, 4) + r.value.rest == input
    ensures r.Ok? ==> r.value.value == BeValue(input[..4]) && r.value.rest == input[4..]
    ensures r.Err? ==> r.error == Truncated(4, |input|)
  {
    var p :- Split(input, 4);
    Pow256Widths();
    BeBytesOfValue(p.value);
    assert p.value == input[..4];
    var n: u32 := BeValue(p.value);
    Ok(Read(n, p.rest))
  }

  /** `parse_float`: four big-endian bytes, kept as the bits of an `f32`. */
  function ReadF32(input: seq<byte>): (r: Outcome<Read<F32>>)
    ensures r.Ok? <==> 4 <= |input|
    ensures r.Ok? ==> BeBytes(r.value.value.bits, 4) + r.value.rest == input
    ensures r.Ok? ==> r.value.rest == input[4..]
    ensures r.Err? ==> r.error == Truncated(4, |input|)
  {
    var p :- Split(input, 4);
    Pow256Widths();
    BeBytesOfValue(p.value);
    Ok(Read(F32(BeValue(p.value)), p.rest))
  }

  /** `parse_double`: eight big-endian bytes, kept as the bits of an `f64`. */
  function ReadF64(input: seq<byte>): (r: Outcome<Read<F64>>)
    ensures r.Ok? <==> 8 <= |input|
    ensures r.Ok? ==> BeBytes(r.value.value.bits, 8) + r.value.rest == input
    ensures r.Ok? ==> r.value.rest == input[8..]
    ensures r.Err? ==> r.error == Truncated(8, |input|)
  {
    var p :- Split(input, 8);
    Pow256Widths();
    BeBytesOfValue(p.value);
    Ok(Read(F64(BeValue(p.value)), p.rest))
  }

  /** The two-byte big-endian read that the WithU16 dialect performs for `u16`. */
  function ReadU16(input: seq<byte>): (r: Outcome<Read<u16>>)
    ensures r.Ok? <==> 2 <= |input|
    ensures r.Ok? ==> BeBytes(r.value.value, 2) + r.value.rest == input
    ensures r.Ok? ==> r.value.rest == input[2..]
    ensures r.Err? ==> r.error == Truncated(2, |input|)
  {
    var p :- Split(input, 2);
    Pow256Widths();
    BeBytesOfValue(p.value);
    var n: u16 := BeValue(p.value);
    Ok(Read(n, p.rest))
  }

  /** Each primitive read gives back the value whose big-endian bytes lead the input,
      and leaves exactly what follows them. */
  lemma ReadU32Written(x: u32, t: seq<byte>)
    ensures ReadU32(BeBytes(x, 4) + t) == Ok(Read(x, t))
  {
    Pow256Widths();
    var input := BeBytes(x, 4) + t;
    assert input[..4] == BeBytes(x, 4) && input[4..] == t;
    BeValueOfBytes(x, 4);
  }

  lemma ReadF32Written(x: F32, t: seq<byte>)
    ensures ReadF32(BeBytes(x.bits, 4) + t) == Ok(Read(x, t))
  {
    Pow256Widths();
    var input := BeBytes(x.bits, 4) + t;
    assert input[..4] == BeBytes(x.bits, 4) && input[4..] == t;
    BeValueOfBytes(x.bits, 4);
  }

  lemma ReadF64Written(x: F64, t: seq<byte>)
    ensures ReadF64(BeBytes(x.bits, 8) + t) == Ok(Read(x, t))
  {
    Pow256Widths();
    var input := BeBytes(x.bits, 8) + t;
    assert input[..8] == BeBytes(x.bits, 8) && input[8..] == t;
    BeValueOfBytes(x.bits, 8);
  }

  lemma ReadU16Written(x: u16, t: seq<byte>)
    ensures ReadU16(BeBytes(x, 2) + t) == Ok(Read(x, t))
  {
    Pow256Widths();
    var input := BeBytes(x, 2) + t;
    assert input[..2] == BeBytes(x, 2) && input[2..] == t;
    BeValueOfBytes(x, 2);
  }

  // ---------------------------------------------------------------------------
  // Requests, shapes and values
  // ---------------------------------------------------------------------------

  /** The requests that `forward_to_deserialize_any!` sends to `deserialize_any`. */
  datatype Forwarded =
    | Bool | I8 | I16 | I64 | I128 | U8 | U16 | U64 | U128
    | Char | Str | OwnedString
    | Bytes | ByteBuf | OptionOf | Unit | UnitStruct | NewtypeStruct
    | TupleStruct | MapOf | EnumOf | Identifier | IgnoredAny

  /** A primitive request: the four the deserializer implements, or a forwarded one. */
  datatype PrimKind = U32 | I32 | Float | Double | Forward(request: Forwarded)

  /** How a Rust type drives the deserializer: `deserialize_seq` for a `Vec<T>`,
      `deserialize_tuple` for a tuple or array, `deserialize_struct` for a struct. */
  datatype Shape =
    | Prim(kind: PrimKind)
    | SeqOf(elem: Shape)
    | TupleOf(fields: seq<Shape>)
    | StructOf(name: string, fields: seq<Shape>)

  /** What the visitors receive. */
  datatype Value =
    | Unsigned(n: nat)
    | Signed(i: int)
    | Float32(f: F32)
    | Float64(d: F64)
    | Items(items: seq<Value>)

  /** Shapes that a Rust type can have: every tuple or struct has fewer than 2^32
      fields, so `len as u32` in `deserialize_tuple` keeps its arity. */
  ghost predicate Realizable(s: Shape) {
    match s
    case Prim(_) => true
    case SeqOf(e) => Realizable(e)
    case TupleOf(fs) => |fs| < 0x1_0000_0000 && forall i | 0 <= i < |fs| :: Realizable(fs[i])
    case StructOf(_, fs) => |fs| < 0x1_0000_0000 && forall i | 0 <= i < |fs| :: Realizable(fs[i])
  }

  predicate PrimConforms(v: Value, k: PrimKind) {
    match k
    case U32 => v.Unsigned? && v.n < 0x1_0000_0000
    case I32 => v.Signed? && -0x8000_0000 <= v.i < 0x8000_0000
    case Float => v.Float32?
    case Double => v.Float64?
    case Forward(req) => req == U16 && v.Unsigned? && v.n < 0x1_0000
  }

  /** `v` has the form a decode of shape `s` produces. */
  predicate Conforms(v: Value, s: Shape) {
    match s
    case Prim(k) => PrimConforms(v, k)
    case SeqOf(e) => v.Items? && forall i | 0 <= i < |v.items| :: Conforms(v.items[i], e)
    case TupleOf(fs) =>
      v.Items? && |v.items| == |fs| && forall i | 0 <= i < |fs| :: Conforms(v.items[i], fs[i])
    case StructOf(_, fs) =>
      v.Items? && |v.items| == |fs| && forall i | 0 <= i < |fs| :: Conforms(v.items[i], fs[i])
  }

  // ---------------------------------------------------------------------------
  // The engine, as functions
  // ---------------------------------------------------------------------------

  /** `deserialize_u32`, `deserialize_i32` (the u32 read as two's complement),
      `deserialize_f32`, `deserialize_f64`, and `deserialize_any`, which refuses. */
  function DecodePrim(d: Dialect, k: PrimKind, input: seq<byte>): (r: Outcome<Read<Value>>)
    ensures r.Ok? ==> PrimConforms(r.value.value, k) && |r.value.rest| < |input|
    ensures k.Forward? && (d == AsWritten || k.request != U16) ==> r == Err(UnsupportedValue)
  {
    match k
    case U32 => var x :- ReadU32(input); Ok(Read(Unsigned(x.value), x.rest))
    case I32 => var x :- ReadU32(input); Ok(Read(Signed(I32Of(x.value)), x.rest))
    case Float => var x :- ReadF32(input); Ok(Read(Float32(x.value), x.rest))
    case Double => var x :- ReadF64(input); Ok(Read(Float64(x.value), x.rest))
    case Forward(req) =>
      if d == WithU16 && req == U16 then
        var x :- ReadU16(input); Ok(Read(Unsigned(x.value), x.rest))
      else
        Err(UnsupportedValue)
  }

  /** Decoding one element of shape `s` from the front of `input`. A sequence reads
      its four-byte count and then that many elements; a tuple and a struct read no
      prefix and exactly as many elements as they have fields. */
  function DecodeShape(d: Dialect, s: Shape, input: seq<byte>): (r: Outcome<Read<Value>>)
    ensures r.Ok? ==> Conforms(r.value.value, s) && |r.value.rest| <= |input|
    ensures r.Ok? && s.SeqOf? ==> 4 <= |input| && |r.value.value.items| == BeValue(input[..4])
    decreases s, 0
  {
    match s
    case Prim(k) => DecodePrim(d, k, input)
    case SeqOf(e) =>
      var count :- ReadU32(input);
      var elems :- DecodeRepeat(d, e, count.value, count.rest);
      Ok(Read(Items(elems.value), elems.rest))
    case TupleOf(fs) =>
      var elems :- DecodeFields(d, fs, input);
      Ok(Read(Items(elems.value), elems.rest))
    case StructOf(_, fs) =>
      var elems :- DecodeFields(d, fs, input);
      Ok(Read(Items(elems.value), elems.rest))
  }

  /** The fields of a tuple or struct, in declaration order. */
  function DecodeFields(d: Dialect, fs: seq<Shape>, input: seq<byte>): (r: Outcome<Read<seq<Value>>>)
    ensures r.Ok? ==> |r.value.value| == |fs| && |r.value.rest| <= |input|
    ensures r.Ok? ==> forall i | 0 <= i < |fs| :: Conforms(r.value.value[i], fs[i])
    decreases fs, 1
  {
    if fs == [] then Ok(Read([], input))
    else
      var first :- DecodeShape(d, fs[0], input);
      var others :- DecodeFields(d, fs[1..], first.rest);
      Ok(Read([first.value] + others.value, others.rest))
  }

  /** `count` elements of one shape: the body of a sequence. */
  function DecodeRepeat(d: Dialect, e: Shape, count: nat, input: seq<byte>): (r: Outcome<Read<seq<Value>>>)
    ensures r.Ok? ==> |r.value.value| == count && |r.value.rest| <= |input|
    ensures r.Ok? ==> forall i | 0 <= i < count :: Conforms(r.value.value[i], e)
    decreases e, 1, count
  {
    if count == 0 then Ok(Read([], input))
    else
      var first :- DecodeShape(d, e, input);
      var others :- DecodeRepeat(d, e, count - 1, first.rest);
      Ok(Read([first.value] + others.value, others.rest))
  }

  /** `xs` in front of the elements of a successful outcome. */
  function Prepend<T>(xs: seq<T>, r: Outcome<Read<seq<T>>>): Outcome<Read<seq<T>>> {
    match r
    case Ok(rd) => Ok(Read(xs + rd.value, rd.rest))
    case Err(e) => Err(e)
  }

  lemma PrependNothing<T>(r: Outcome<Read<seq<T>>>)
    ensures Prepend([], r) == r
  {
    if r.Ok? {
      assert [] + r.value.value == r.value.value;
    }
  }

  lemma PrependPrepend<T>(xs: seq<T>, ys: seq<T>, r: Outcome<Read<seq<T>>>)
    ensures Prepend(xs, Prepend(ys, r)) == Prepend(xs + ys, r)
  {
    if r.Ok? {
      assert xs + (ys + r.value.value) == (xs + ys) + r.value.value;
    }
  }

  /** `xs` in front of the elements of a successful visitor outcome. */
  function PrependStep<T>(xs: seq<T>, r: Outcome<Step<seq<T>>>): Outcome<Step<seq<T>>> {
    match r
    case Ok(st) => Ok(Step(xs + st.value, st.acc))
    case Err(e) => Err(e)
  }

  lemma PrependStepNothing<T>(r: Outcome<Step<seq<T>>>)
    ensures PrependStep([], r) == r
  {
    if r.Ok? {
      assert [] + r.value.value == r.value.value;
    }
  }

  lemma PrependStepPrepend<T>(xs: seq<T>, ys: seq<T>, r: Outcome<Step<seq<T>>>)
    ensures PrependStep(xs, PrependStep(ys, r)) == PrependStep(xs + ys, r)
  {
    if r.Ok? {
      assert xs + (ys + r.value.value) == (xs + ys) + r.value.value;
    }
  }

  // ---------------------------------------------------------------------------
  // Fixed-width shapes
  // ---------------------------------------------------------------------------

  predicate Supported(d: Dialect, k: PrimKind) {
    !k.Forward? || (d == WithU16 && k.request == U16)
  }

  /** A shape with no sequence and no refused request: its encoding has one length. */
  predicate Fixed(d: Dialect, s: Shape) {
    match s
    case Prim(k) => Supported(d, k)
    case SeqOf(_) => false
    case TupleOf(fs) => forall i | 0 <= i < |fs| :: Fixed(d, fs[i])
    case StructOf(_, fs) => forall i | 0 <= i < |fs| :: Fixed(d, fs[i])
  }

  function PrimWidth(k: PrimKind): nat {
    match k
    case U32 => 4
    case I32 => 4
    case Float => 4
    case Double => 8
    case Forward(_) => 2
  }

  /** The number of bytes a fixed shape occupies on the wire. */
  function Width(s: Shape): nat
    decreases s, 0
  {
    match s
    case Prim(k) => PrimWidth(k)
    case SeqOf(_) => 4
    case TupleOf(fs) => FieldsWidthFrom(fs, 0)
    case StructOf(_, fs) => FieldsWidthFrom(fs, 0)
  }

  /** The total width of a field list. */
  function FieldsWidth(fs: seq<Shape>): nat {
    FieldsWidthFrom(fs, 0)
  }

  /** The width of the fields from index `k` on. */
  function FieldsWidthFrom(fs: seq<Shape>, k: nat): nat
    decreases fs, |fs| - k
  {
    if k >= |fs| then 0 else Width(fs[k]) + FieldsWidthFrom(fs, k + 1)
  }

  lemma {:induction false} FieldsWidthShift(fs: seq<Shape>, k: nat)
    requires 1 <= k <= |fs|
    ensures FieldsWidthFrom(fs, k) == FieldsWidthFrom(fs[1..], k - 1)
    decreases |fs| - k
  {
    if k < |fs| {
      FieldsWidthShift(fs, k + 1);
      assert fs[1..][k - 1] == fs[k];
    }
  }

  /** A fixed shape decodes exactly when `Width(s)` bytes remain, consumes exactly those
      bytes, and otherwise fails with a short read. */
  lemma {:induction false} FixedShapeDecode(d: Dialect, s: Shape, input: seq<byte>)
    requires Fixed(d, s)
    ensures DecodeShape(d, s, input).Ok? <==> Width(s) <= |input|
    ensures DecodeShape(d, s, input).Ok? ==> DecodeShape(d, s, input).value.rest == input[Width(s)..]
    ensures DecodeShape(d, s, input).Err? ==> DecodeShape(d, s, input).error.Truncated?
    decreases s, 0
  {
    match s
    case Prim(k) =>
    case SeqOf(_) =>
    case TupleOf(fs) => FixedFieldsDecode(d, fs, input);
    case StructOf(_, fs) => FixedFieldsDecode(d, fs, input);
  }

  lemma {:induction false} FixedFieldsDecode(d: Dialect, fs: seq<Shape>, input: seq<byte>)
    requires forall i | 0 <= i < |fs| :: Fixed(d, fs[i])
    ensures DecodeFields(d, fs, input).Ok? <==> FieldsWidth(fs) <= |input|
    ensures DecodeFields(d, fs, input).Ok? ==> DecodeFields(d, fs, input).value.rest == input[FieldsWidth(fs)..]
    ensures DecodeFields(d, fs, input).Err? ==> DecodeFields(d, fs, input).error.Truncated?
    decreases fs, 1
  {
    if fs != [] {
      FixedShapeDecode(d, fs[0], input);
      var first := DecodeShape(d, fs[0], input);
      if first.Ok? {
        var rest := first.value.rest;
        assert forall i | 0 <= i < |fs[1..]| :: Fixed(d, fs[1..][i]) by {
          forall i | 0 <= i < |fs[1..]| ensures Fixed(d, fs[1..][i]) {
            assert fs[1..][i] == fs[i + 1];
          }
        }
        FixedFieldsDecode(d, fs[1..], rest);
        FieldsWidthShift(fs, 1);
        if FieldsWidth(fs[1..]) <= |rest| {
          assert rest[FieldsWidth(fs[1..])..] == input[FieldsWidth(fs)..];
        }
      }
    }
  }

  /** A struct is decoded exactly as the tuple of its fields (`deserialize_struct`
      hands its field count to `deserialize_tuple`). */
  lemma StructIsTuple(d: Dialect, name: string, fs: seq<Shape>, input: seq<byte>)
    ensures DecodeShape(d, StructOf(name, fs), input) == DecodeShape(d, TupleOf(fs), input)
  {
  }

  /** In the source dialect every forwarded request, `u8` and `u16` among them, fails
      with UnsupportedValue before anything is read. */
  lemma ForwardedIsUnsupported(req: Forwarded, input: seq<byte>)
    ensures DecodeShape(AsWritten, Prim(Forward(req)), input) == Err(UnsupportedValue)
  {
  }

  // ---------------------------------------------------------------------------
  // Element access (SeqVisitor), as functions
  // ---------------------------------------------------------------------------

  /** The state of a SeqVisitor: the elements it may still hand out, and the cursor. */
  datatype Access = Access(size: nat, input: seq<byte>)

  /** A visitor's result together with the access state after it. */
  datatype Step<+T> = Step(value: T, acc: Access)

  /** The size check at the head of `next_element_seed`. */
  function Claim(acc: Access): (r: Option<Access>)
    ensures r.None? <==> acc.size == 0
    ensures r.Some? ==> r.value.size + 1 == acc.size && r.value.input == acc.input
  {
    if acc.size == 0 then None else Some(Access(acc.size - 1, acc.input))
  }

  /** `next_element` with an element decoded by shape `s`: None without reading once
      `size` elements were handed out, otherwise the element and one fewer to go. */
  function NextValue(d: Dialect, acc: Access, s: Shape): (r: Outcome<Step<Option<Value>>>)
    ensures acc.size == 0 ==> r == Ok(Step(None, acc))
    ensures acc.size > 0 && r.Ok? ==> r.value.value.Some? && r.value.acc.size + 1 == acc.size
    ensures acc.size > 0 ==> (r.Ok? <==> DecodeShape(d, s, acc.input).Ok?)
    ensures r.Ok? && r.value.value.Some? ==>
      Conforms(r.value.value.value, s) && r.value.value.value == DecodeShape(d, s, acc.input).value.value
      && r.value.acc.input == DecodeShape(d, s, acc.input).value.rest
    ensures r.Err? ==> r.error == DecodeShape(d, s, acc.input).error
  {
    match Claim(acc)
    case None => Ok(Step(None, acc))
    case Some(a) =>
      var x :- DecodeShape(d, s, a.input);
      Ok(Step(Some(x.value), Access(a.size, x.rest)))
  }

  /** The method result `r` and the new cursor `input` are what `spec` says. */
  ghost predicate Agrees<T>(r: Outcome<T>, spec: Outcome<Read<T>>, input: seq<byte>) {
    match spec
    case Ok(rd) => r == Ok(rd.value) && input == rd.rest
    case Err(e) => r == Err(e)
  }

  /** The method result `r`, the visitor's `size` and the cursor are what `spec` says. */
  ghost predicate AgreesStep<T>(r: Outcome<T>, spec: Outcome<Step<T>>, size: nat, input: seq<byte>) {
    match spec
    case Ok(st) => r == Ok(st.value) && size == st.acc.size && input == st.acc.input
    case Err(e) => r == Err(e)
  }

  /** A successful `spec` is handed out as Some; a failure is passed on. */
  ghost predicate AgreesSome<T>(r: Outcome<Option<T>>, spec: Outcome<Read<T>>, input: seq<byte>) {
    match spec
    case Ok(rd) => r == Ok(Some(rd.value)) && input == rd.rest
    case Err(e) => r == Err(e)
  }

  // ---------------------------------------------------------------------------
  // The imperative cursor
  // ---------------------------------------------------------------------------

  class Deserializer {
    const dialect: Dialect
    /** The input not read yet; every read shortens it from the front. */
    var input: seq<byte>

    /** `Deserializer::from_slice`: the cursor starts at the whole buffer. */
    constructor FromSlice(dialect: Dialect, bytes: seq<byte>)
      ensures this.dialect == dialect && input == bytes
    {
      this.dialect := dialect;
      input := bytes;
    }

    method ParseU32() returns (r: Outcome<u32>)
      modifies this
      ensures Agrees(r, ReadU32(old(input)), input)
      ensures r.Err? ==> input == old(input)
    {
      if |input| < 4 {
        return Err(Truncated(4, |input|));
      }
      var bytes, remaining := input[..4], input[4..];
      Pow256Widths();
      r := Ok(BeValue(bytes));
      input := remaining;
    }

    method ParseFloat() returns (r: Outcome<F32>)
      modifies this
      ensures Agrees(r, ReadF32(old(input)), input)
      ensures r.Err? ==> input == old(input)
    {
      if |input| < 4 {
        return Err(Truncated(4, |input|));
      }
      var bytes, remaining := input[..4], input[4..];
      Pow256Widths();
      r := Ok(F32(BeValue(bytes)));
      input := remaining;
    }

    method ParseDouble() returns (r: Outcome<F64>)
      modifies this
      ensures Agrees(r, ReadF64(old(input)), input)
      ensures r.Err? ==> input == old(input)
    {
      if |input| < 8 {
        return Err(Truncated(8, |input|));
      }
      var bytes, remaining := input[..8], input[8..];
      Pow256Widths();
      r := Ok(F64(BeValue(bytes)));
      input := remaining;
    }

    /** The two-byte read of the WithU16 dialect. */
    method ParseU16() returns (r: Outcome<u16>)
      modifies this
      ensures Agrees(r, ReadU16(old(input)), input)
      ensures r.Err? ==> input == old(input)
    {
      if |input| < 2 {
        return Err(Truncated(2, |input|));
      }
      var bytes, remaining := input[..2], input[2..];
      Pow256Widths();
      r := Ok(BeValue(bytes));
      input := remaining;
    }

    /** The primitive methods of the `de::Deserializer` impl. */
    method DeserializePrim(k: PrimKind) returns (r: Outcome<Value>)
      modifies this
      ensures Agrees(r, DecodePrim(dialect, k, old(input)), input)
    {
      match k
      case U32 =>
        var x :- ParseU32();
        r := Ok(Unsigned(x));
      case I32 =>
        var x :- ParseU32();
        r := Ok(Signed(I32Of(x)));
      case Float =>
        var x :- ParseFloat();
        r := Ok(Float32(x));
      case Double =>
        var x :- ParseDouble();
        r := Ok(Float64(x));
      case Forward(req) =>
        if dialect == WithU16 && req == U16 {
          var x :- ParseU16();
          r := Ok(Unsigned(x));
        } else {
          r := Err(UnsupportedValue);
        }
    }

    /** Decoding a value of shape `s`: a sequence reads its count and hands a
        SeqVisitor of that size to the `Vec` visitor; a tuple or struct hands a
        SeqVisitor sized by its arity to the derived visitor. */
    method Deserialize(s: Shape) returns (r: Outcome<Value>)
      requires Realizable(s)
      modifies this
      ensures Agrees(r, DecodeShape(dialect, s, old(input)), input)
      decreases s, 0
    {
      match s
      case Prim(k) =>
        r := DeserializePrim(k);
      case SeqOf(e) =>
        var size :- ParseU32();
        var sv := new SeqVisitor(this, size);
        var elems :- VisitElements(sv, e);
        r := Ok(Items(elems));
      case TupleOf(fs) =>
        var sv := new SeqVisitor(this, |fs| as u32);
        var elems :- VisitFields(sv, fs);
        r := Ok(Items(elems));
      case StructOf(_, fs) =>
        var sv := new SeqVisitor(this, |fs| as u32);
        var elems :- VisitFields(sv, fs);
        r := Ok(Items(elems));
    }
  }

  /** The `Vec<T>` visitor: `next_element` until it yields None. */
  method VisitElements(sv: SeqVisitor, e: Shape) returns (r: Outcome<seq<Value>>)
    requires Realizable(e)
    modifies sv, sv.de
    ensures Agrees(r, DecodeRepeat(sv.de.dialect, e, old(sv.size), old(sv.de.input)), sv.de.input)
    decreases e, 2
  {
    ghost var spec := DecodeRepeat(sv.de.dialect, e, sv.size, sv.de.input);
    PrependNothing(spec);
    var elems := [];
    while true
      invariant spec == Prepend(elems, DecodeRepeat(sv.de.dialect, e, sv.size, sv.de.input))
      decreases sv.size
    {
      var next := sv.NextElement(e);
      if next.Err? {
        return Err(next.error);
      }
      match next.value
      case None =>
        assert elems + [] == elems;
        return Ok(elems);
      case Some(v) =>
        PrependPrepend(elems, [v], DecodeRepeat(sv.de.dialect, e, sv.size, sv.de.input));
        elems := elems + [v];
    }
  }

  /** The visitor derived for a tuple or struct: one `next_element` per field. Its
      SeqVisitor has exactly as many elements as there are fields, so the derived
      `invalid_length` branch is never taken. */
  method VisitFields(sv: SeqVisitor, fs: seq<Shape>) returns (r: Outcome<seq<Value>>)
    requires sv.size == |fs|
    requires forall i | 0 <= i < |fs| :: Realizable(fs[i])
    modifies sv, sv.de
    ensures Agrees(r, DecodeFields(sv.de.dialect, fs, old(sv.de.input)), sv.de.input)
    decreases fs, 2
  {
    ghost var spec := DecodeFields(sv.de.dialect, fs, sv.de.input);
    PrependNothing(spec);
    assert fs[0..] == fs;
    var elems := [];
    for i := 0 to |fs|
      invariant sv.size == |fs| - i
      invariant spec == Prepend(elems, DecodeFields(sv.de.dialect, fs[i..], sv.de.input))
    {
      assert fs[i..][0] == fs[i] && fs[i..][1..] == fs[i + 1..];
      var next := sv.NextElement(fs[i]);
      if next.Err? {
        return Err(next.error);
      }
      var v := next.value.value;
      PrependPrepend(elems, [v], DecodeFields(sv.de.dialect, fs[i + 1..], sv.de.input));
      elems := elems + [v];
    }
    assert fs[|fs|..] == [];
    assert elems + [] == elems;
    r := Ok(elems);
  }

  class SeqVisitor {
    const de: Deserializer
    /** How many more elements this visitor hands out. */
    var size: u32

    constructor (de: Deserializer, size: u32)
      ensures this.de == de && this.size == size
    {
      this.de := de;
      this.size := size;
    }

    /** The size check of `next_element_seed`: false once `size` elements were handed
        out; otherwise one fewer remains. */
    method Claim() returns (has: bool)
      modifies this
      ensures has == (old(size) > 0)
      ensures size == if has then old(size) - 1 else old(size)
    {
      if size == 0 {
        return false;
      }
      size := size - 1;
      has := true;
    }

    /** `next_element_seed` with an element of shape `s`. */
    method NextElement(s: Shape) returns (r: Outcome<Option<Value>>)
      requires Realizable(s)
      modifies this, de
      ensures AgreesStep(r, NextValue(de.dialect, Access(old(size), old(de.input)), s), size, de.input)
      decreases s, 1
    {
      var has := Claim();
      if !has {
        return Ok(None);
      }
      var v :- de.Deserialize(s);
      r := Ok(Some(v));
    }
  }
}
