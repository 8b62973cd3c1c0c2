/**
 * The byte layout the decoder reads, written out: the inverse of DecodeShape.
 *
 * The source has no writer; the encoder here states the format as a function of the
 * value and is the partner of the decoder. A primitive is its big-endian bytes, a
 * sequence its four-byte count followed by its elements, a tuple or struct its fields
 * back to back. Decoding an encoding gives the value back, and every successful
 * decode consumed exactly the encoding of what it returned.
 */
module BinEncoder {

  import opened Wrappers
  import opened Wire
  import opened BinError
  import opened BinDeserializer

  /** Shapes all of whose requests the dialect reads. */
  predicate Readable(d: Dialect, s: Shape)
    decreases s, 0
  {
    match s
    case Prim(k) => Supported(d, k)
    case SeqOf(e) => Readable(d, e)
    case TupleOf(fs) => AllReadable(d, fs)
    case StructOf(_, fs) => AllReadable(d, fs)
  }

  predicate AllReadable(d: Dialect, fs: seq<Shape>)
    decreases fs, 1
  {
    fs == [] || (Readable(d, fs[0]) && AllReadable(d, fs[1..]))
  }

  /** Values of shape `s` that can be written: every sequence has a u32 count. */
  predicate Encodable(v: Value, s: Shape)
    decreases s, 0
  {
    match s
    case Prim(k) => PrimConforms(v, k)
    case SeqOf(e) => v.Items? && |v.items| < 0x1_0000_0000 && EachEncodable(v.items, e)
    case TupleOf(fs) => v.Items? && FieldsEncodable(v.items, fs)
    case StructOf(_, fs) => v.Items? && FieldsEncodable(v.items, fs)
  }

  /** One value per field, each of its field's shape. */
  predicate FieldsEncodable(vs: seq<Value>, fs: seq<Shape>)
    decreases fs, 1
  {
    |vs| == |fs| && (fs == [] || (Encodable(vs[0], fs[0]) && FieldsEncodable(vs[1..], fs[1..])))
  }

  /** Values all of the one element shape. */
  predicate EachEncodable(vs: seq<Value>, e: Shape)
    decreases e, 1, |vs|
  {
    vs == [] || (Encodable(vs[0], e) && EachEncodable(vs[1..], e))
  }

  function EncodePrim(k: PrimKind, v: Value): (bs: seq<byte>)
    requires PrimConforms(v, k)
    ensures |bs| == PrimWidth(k)
  {
    Pow256Widths();
    match k
    case U32 => BeBytes(v.n, 4)
    case I32 => BeBytes(U32OfI32(v.i), 4)
    case Float => BeBytes(v.f.bits, 4)
    case Double => BeBytes(v.d.bits, 8)
    case Forward(_) => BeBytes(v.n, 2)
  }

  function EncodeShape(s: Shape, v: Value): seq<byte>
    requires Encodable(v, s)
    decreases s, 0
  {
    match s
    case Prim(k) => EncodePrim(k, v)
    case SeqOf(e) =>
      Pow256Widths();
      BeBytes(|v.items|, 4) + EncodeRepeat(e, v.items)
    case TupleOf(fs) => EncodeFields(fs, v.items)
    case StructOf(_, fs) => EncodeFields(fs, v.items)
  }

  function EncodeFields(fs: seq<Shape>, vs: seq<Value>): seq<byte>
    requires FieldsEncodable(vs, fs)
    decreases fs, 1
  {
    if fs == [] then [] else EncodeShape(fs[0], vs[0]) + EncodeFields(fs[1..], vs[1..])
  }

  function EncodeRepeat(e: Shape, vs: seq<Value>): seq<byte>
    requires EachEncodable(vs, e)
    decreases e, 1, |vs|
  {
    if vs == [] then [] else EncodeShape(e, vs[0]) + EncodeRepeat(e, vs[1..])
  }

  /** A record of fixed layout is read in every one of its fields. */
  lemma {:induction false} FixedIsReadable(d: Dialect, s: Shape)
    requires Fixed(d, s)
    ensures Readable(d, s)
    decreases s, 0
  {
    match s
    case Prim(_) =>
    case SeqOf(_) => assert false;
    case TupleOf(fs) => FieldsFixedIsReadable(d, fs);
    case StructOf(_, fs) => FieldsFixedIsReadable(d, fs);
  }

  lemma {:induction false} FieldsFixedIsReadable(d: Dialect, fs: seq<Shape>)
    requires forall i | 0 <= i < |fs| :: Fixed(d, fs[i])
    ensures AllReadable(d, fs)
    decreases fs, 1
  {
    if fs != [] {
      FixedIsReadable(d, fs[0]);
      assert forall i | 0 <= i < |fs[1..]| :: fs[1..][i] == fs[i + 1];
      FieldsFixedIsReadable(d, fs[1..]);
    }
  }

  /** A record of fixed layout is written whatever its fields hold. */
  lemma {:induction false} FixedIsEncodable(d: Dialect, s: Shape, v: Value)
    requires Fixed(d, s) && Conforms(v, s)
    ensures Encodable(v, s)
    decreases s, 0
  {
    match s
    case Prim(_) =>
    case SeqOf(_) => assert false;
    case TupleOf(fs) => FieldsFixedIsEncodable(d, fs, v.items);
    case StructOf(_, fs) => FieldsFixedIsEncodable(d, fs, v.items);
  }

  lemma {:induction false} FieldsFixedIsEncodable(d: Dialect, fs: seq<Shape>, vs: seq<Value>)
    requires forall i | 0 <= i < |fs| :: Fixed(d, fs[i])
    requires |vs| == |fs| && forall i | 0 <= i < |fs| :: Conforms(vs[i], fs[i])
    ensures FieldsEncodable(vs, fs)
    decreases fs, 1
  {
    if fs != [] {
      FixedIsEncodable(d, fs[0], vs[0]);
      assert forall i | 0 <= i < |fs[1..]| :: fs[1..][i] == fs[i + 1] && vs[1..][i] == vs[i + 1];
      FieldsFixedIsEncodable(d, fs[1..], vs[1..]);
    }
  }

  /** Any number of records of one fixed layout. */
  lemma {:induction false} EachFixedIsEncodable(d: Dialect, e: Shape, vs: seq<Value>)
    requires Fixed(d, e) && forall i | 0 <= i < |vs| :: Conforms(vs[i], e)
    ensures EachEncodable(vs, e)
    decreases |vs|
  {
    if vs != [] {
      FixedIsEncodable(d, e, vs[0]);
      assert forall i | 0 <= i < |vs[1..]| :: vs[1..][i] == vs[i + 1];
      EachFixedIsEncodable(d, e, vs[1..]);
    }
  }

  // ---------------------------------------------------------------------------
  // Decoding what was written
  // ---------------------------------------------------------------------------

  lemma PrimRoundTrip(d: Dialect, k: PrimKind, v: Value, t: seq<byte>)
    requires Supported(d, k) && PrimConforms(v, k)
    ensures DecodePrim(d, k, EncodePrim(k, v) + t) == Ok(Read(v, t))
  {
    Pow256Widths();
    match k
    case U32 => ReadU32Written(v.n, t);
    case I32 => ReadU32Written(U32OfI32(v.i), t);
    case Float => ReadF32Written(v.f, t);
    case Double => ReadF64Written(v.d, t);
    case Forward(_) => ReadU16Written(v.n, t);
  }

  /** Whatever follows an encoded value, decoding reads the value back and leaves
      exactly what follows. */
  lemma {:induction false} ShapeRoundTrip(d: Dialect, s: Shape, v: Value, t: seq<byte>)
    requires Readable(d, s) && Encodable(v, s)
    ensures DecodeShape(d, s, EncodeShape(s, v) + t) == Ok(Read(v, t))
    decreases s, 0
  {
    match s
    case Prim(k) => PrimRoundTrip(d, k, v, t);
    case SeqOf(e) => SeqRoundTrip(d, e, v, t);
    case TupleOf(fs) => FieldsRoundTrip(d, fs, v.items, t);
    case StructOf(_, fs) => FieldsRoundTrip(d, fs, v.items, t);
  }

  /** A sequence reads back as its count, then its elements. */
  lemma {:induction false} SeqRoundTrip(d: Dialect, e: Shape, v: Value, t: seq<byte>)
    requires Readable(d, SeqOf(e)) && Encodable(v, SeqOf(e))
    ensures DecodeShape(d, SeqOf(e), EncodeShape(SeqOf(e), v) + t) == Ok(Read(v, t))
    decreases SeqOf(e), 0, 0
  {
    Pow256Widths();
    var body := EncodeRepeat(e, v.items);
    var input := EncodeShape(SeqOf(e), v) + t;
    assert input == BeBytes(|v.items|, 4) + (body + t);
    ReadU32Written(|v.items|, body + t);
    RepeatRoundTrip(d, e, v.items, t);
    assert DecodeShape(d, SeqOf(e), input) == Ok(Read(Items(v.items), t));
  }

  lemma {:induction false} FieldsRoundTrip(d: Dialect, fs: seq<Shape>, vs: seq<Value>, t: seq<byte>)
    requires AllReadable(d, fs) && FieldsEncodable(vs, fs)
    ensures DecodeFields(d, fs, EncodeFields(fs, vs) + t) == Ok(Read(vs, t))
    decreases fs, 1
  {
    if fs != [] {
      var later := EncodeFields(fs[1..], vs[1..]);
      assert EncodeFields(fs, vs) + t == EncodeShape(fs[0], vs[0]) + (later + t);
      ShapeRoundTrip(d, fs[0], vs[0], later + t);
      FieldsRoundTrip(d, fs[1..], vs[1..], t);
      assert [vs[0]] + vs[1..] == vs;
    } else {
      assert EncodeFields(fs, vs) + t == t;
    }
  }

  lemma {:induction false} RepeatRoundTrip(d: Dialect, e: Shape, vs: seq<Value>, t: seq<byte>)
    requires Readable(d, e) && EachEncodable(vs, e)
    ensures DecodeRepeat(d, e, |vs|, EncodeRepeat(e, vs) + t) == Ok(Read(vs, t))
    decreases e, 1, |vs|
  {
    if vs != [] {
      var later := EncodeRepeat(e, vs[1..]);
      assert [vs[0]] + vs[1..] == vs;
      EncodeRepeatCons(e, vs[0], vs[1..], t);
      ShapeRoundTrip(d, e, vs[0], later + t);
      RepeatRoundTrip(d, e, vs[1..], t);
      DecodeRepeatCons(d, e, EncodeRepeat(e, vs) + t, Read(vs[0], later + t), Read(vs[1..], t));
    } else {
      assert EncodeRepeat(e, vs) + t == t;
    }
  }

  // ---------------------------------------------------------------------------
  // Writing what was decoded
  // ---------------------------------------------------------------------------

  lemma PrimReencodes(d: Dialect, k: PrimKind, input: seq<byte>)
    requires DecodePrim(d, k, input).Ok?
    ensures PrimConforms(DecodePrim(d, k, input).value.value, k)
    ensures EncodePrim(k, DecodePrim(d, k, input).value.value) + DecodePrim(d, k, input).value.rest == input
  {
    if k == I32 {
      var x := ReadU32(input).value.value;
      assert U32OfI32(I32Of(x)) == x;
    }
  }

  /** A successful decode consumed exactly the encoding of the value it returned: no
      two inputs decode to the same value with the same rest. */
  lemma {:induction false} ShapeReencodes(d: Dialect, s: Shape, input: seq<byte>, r: Read<Value>)
    requires DecodeShape(d, s, input) == Ok(r)
    ensures Encodable(r.value, s) && EncodeShape(s, r.value) + r.rest == input
    decreases s, 0
  {
    match s
    case Prim(k) => PrimReencodes(d, k, input);
    case SeqOf(e) =>
      var count := ReadU32(input).value;
      var elems := DecodeRepeat(d, e, count.value, count.rest).value;
      RepeatReencodes(d, e, count.value, count.rest, elems);
      SeqReencodes(e, input, count, elems);
    case TupleOf(fs) => FieldsReencodes(d, fs, input, DecodeFields(d, fs, input).value);
    case StructOf(_, fs) => FieldsReencodes(d, fs, input, DecodeFields(d, fs, input).value);
  }

  /** A count read from the front, then that many elements. */
  lemma SeqReencodes(e: Shape, input: seq<byte>, count: Read<u32>, elems: Read<seq<Value>>)
    requires ReadU32(input) == Ok(count) && |elems.value| == count.value
    requires EachEncodable(elems.value, e) && EncodeRepeat(e, elems.value) + elems.rest == count.rest
    ensures Encodable(Items(elems.value), SeqOf(e))
    ensures EncodeShape(SeqOf(e), Items(elems.value)) + elems.rest == input
  {
    assert BeBytes(count.value, 4) + EncodeRepeat(e, elems.value) + elems.rest
        == BeBytes(count.value, 4) + (EncodeRepeat(e, elems.value) + elems.rest);
  }

  lemma {:induction false} FieldsReencodes(d: Dialect, fs: seq<Shape>, input: seq<byte>, r: Read<seq<Value>>)
    requires DecodeFields(d, fs, input) == Ok(r)
    ensures FieldsEncodable(r.value, fs) && EncodeFields(fs, r.value) + r.rest == input
    decreases fs, 1
  {
    if fs != [] {
      var first := DecodeShape(d, fs[0], input).value;
      ShapeReencodes(d, fs[0], input, first);
      var others := DecodeFields(d, fs[1..], first.rest).value;
      FieldsReencodes(d, fs[1..], first.rest, others);
      assert r == Read([first.value] + others.value, others.rest);
      EncodeFieldsCons(fs, first.value, others.value, others.rest);
    }
  }

  lemma {:induction false} RepeatReencodes(d: Dialect, e: Shape, count: nat, input: seq<byte>, r: Read<seq<Value>>)
    requires DecodeRepeat(d, e, count, input) == Ok(r)
    ensures EachEncodable(r.value, e) && EncodeRepeat(e, r.value) + r.rest == input
    decreases e, 1, count
  {
    if count > 0 {
      var first := DecodeShape(d, e, input).value;
      ShapeReencodes(d, e, input, first);
      var others := DecodeRepeat(d, e, count - 1, first.rest).value;
      RepeatReencodes(d, e, count - 1, first.rest, others);
      assert r == Read([first.value] + others.value, others.rest);
      EncodeRepeatCons(e, first.value, others.value, others.rest);
    }
  }

  lemma EncodeFieldsCons(fs: seq<Shape>, v: Value, vs: seq<Value>, t: seq<byte>)
    requires fs != [] && Encodable(v, fs[0]) && FieldsEncodable(vs, fs[1..])
    ensures FieldsEncodable([v] + vs, fs)
    ensures EncodeFields(fs, [v] + vs) + t == EncodeShape(fs[0], v) + (EncodeFields(fs[1..], vs) + t)
  {
    assert ([v] + vs)[0] == v && ([v] + vs)[1..] == vs;
  }

  lemma EncodeRepeatCons(e: Shape, v: Value, vs: seq<Value>, t: seq<byte>)
    requires Encodable(v, e) && EachEncodable(vs, e)
    ensures EachEncodable([v] + vs, e)
    ensures EncodeRepeat(e, [v] + vs) + t == EncodeShape(e, v) + (EncodeRepeat(e, vs) + t)
  {
    assert ([v] + vs)[0] == v && ([v] + vs)[1..] == vs;
  }

  lemma DecodeRepeatCons(d: Dialect, e: Shape, x: seq<byte>, first: Read<Value>, others: Read<seq<Value>>)
    requires DecodeShape(d, e, x) == Ok(first)
    requires DecodeRepeat(d, e, |others.value|, first.rest) == Ok(others)
    ensures DecodeRepeat(d, e, |others.value| + 1, x) == Ok(Read([first.value] + others.value, others.rest))
  {
  }
}
