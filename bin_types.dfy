/**
 * The constants and record shapes of the binary mission format (src/litchi/bin/mod.rs):
 * the magic number, the two `#[repr(u32)]` enums read through serde_repr, the point of
 * interest record and the photo interval.
 */
module BinTypes {

  import opened Wrappers
  import opened Wire
  import opened BinError
  import opened BinDeserializer

  /** The first four bytes of every mission file. */
  const MAGIC: u32 := 0x6C_63_68_6D

  /** The magic number is the ASCII text "lchm" read big-endian. */
  lemma MagicIsLchm()
    ensures BeBytes(MAGIC, 4) == ['l' as byte, 'c' as byte, 'h' as byte, 'm' as byte]
  {
    Pow256Widths();
    calc {
      BeBytes(MAGIC, 4);
      BeBytes(MAGIC / 256, 3) + [0x6D];
      BeBytes(MAGIC / 65536, 2) + [0x68] + [0x6D];
      BeBytes(MAGIC / 16777216, 1) + [0x63] + [0x68] + [0x6D];
      [0x6C] + [0x63] + [0x68] + [0x6D];
    }
  }

  datatype FinishAction = NoAction | ReturnToHome | Land | BackToFirst | Reverse

  datatype PathMode = StraightLines | CurvedTurns

  /** The discriminant of each variant, as `#[repr(u32)]` fixes it. */
  function FinishActionCode(f: FinishAction): (n: u32)
    ensures n <= 4
  {
    match f
    case NoAction => 0
    case ReturnToHome => 1
    case Land => 2
    case BackToFirst => 3
    case Reverse => 4
  }

  function PathModeCode(p: PathMode): (n: u32)
    ensures n <= 1
  {
    match p
    case StraightLines => 0
    case CurvedTurns => 1
  }

  /** serde_repr's decoding of a FinishAction: the variant whose discriminant is `n`,
      otherwise a custom error naming the value and the allowed discriminants. */
  function FinishActionOf(n: u32): (r: Outcome<FinishAction>)
    ensures r.Ok? <==> n <= 4
    ensures r.Ok? ==> FinishActionCode(r.value) == n
    ensures r.Err? ==> r.error == Custom(UnknownDiscriminant(n, [0, 1, 2, 3, 4]))
  {
    if n == 0 then Ok(NoAction)
    else if n == 1 then Ok(ReturnToHome)
    else if n == 2 then Ok(Land)
    else if n == 3 then Ok(BackToFirst)
    else if n == 4 then Ok(Reverse)
    else Err(Custom(UnknownDiscriminant(n, [0, 1, 2, 3, 4])))
  }

  function PathModeOf(n: u32): (r: Outcome<PathMode>)
    ensures r.Ok? <==> n <= 1
    ensures r.Ok? ==> PathModeCode(r.value) == n
    ensures r.Err? ==> r.error == Custom(UnknownDiscriminant(n, [0, 1]))
  {
    if n == 0 then Ok(StraightLines)
    else if n == 1 then Ok(CurvedTurns)
    else Err(Custom(UnknownDiscriminant(n, [0, 1])))
  }

  /** Every variant decodes back from its discriminant. */
  lemma FinishActionRoundTrip(f: FinishAction)
    ensures FinishActionOf(FinishActionCode(f)) == Ok(f)
  {
  }

  lemma PathModeRoundTrip(p: PathMode)
    ensures PathModeOf(PathModeCode(p)) == Ok(p)
  {
  }

  /** A FinishAction field: a u32, then the discriminant check. */
  function DecodeFinishAction(input: seq<byte>): (r: Outcome<Read<FinishAction>>)
    ensures r.Ok? ==>
              && 4 <= |input| && r.value.rest == input[4..]
              && BeBytes(FinishActionCode(r.value.value), 4) == input[..4]
  {
    var code :- ReadU32(input);
    var f :- FinishActionOf(code.value);
    Ok(Read(f, code.rest))
  }

  function DecodePathMode(input: seq<byte>): (r: Outcome<Read<PathMode>>)
    ensures r.Ok? ==>
              && 4 <= |input| && r.value.rest == input[4..]
              && BeBytes(PathModeCode(r.value.value), 4) == input[..4]
  {
    var code :- ReadU32(input);
    var p :- PathModeOf(code.value);
    Ok(Read(p, code.rest))
  }

  /** The `serde_repr` deserializer of FinishAction on the cursor. */
  method DeserializeFinishAction(de: Deserializer) returns (r: Outcome<FinishAction>)
    modifies de
    ensures Agrees(r, DecodeFinishAction(old(de.input)), de.input)
  {
    var code :- de.ParseU32();
    r := FinishActionOf(code);
  }

  method DeserializePathMode(de: Deserializer) returns (r: Outcome<PathMode>)
    modifies de
    ensures Agrees(r, DecodePathMode(old(de.input)), de.input)
  {
    var code :- de.ParseU32();
    r := PathModeOf(code);
  }

  datatype PointOfInterest = PointOfInterest(latitude: F64, longitude: F64, altitude: F32)

  const POINT_OF_INTEREST: Shape := StructOf("PointOfInterest", [Prim(Double), Prim(Double), Prim(Float)])

  /** A point of interest is a fixed record of 20 bytes. */
  lemma PointOfInterestWidth(d: Dialect)
    ensures Fixed(d, POINT_OF_INTEREST) && Width(POINT_OF_INTEREST) == 20
    ensures Realizable(SeqOf(POINT_OF_INTEREST))
  {
  }

  function PointOfInterestOf(v: Value): PointOfInterest
    requires Conforms(v, POINT_OF_INTEREST)
  {
    assert Conforms(v.items[0], Prim(Double)) && Conforms(v.items[1], Prim(Double)) && Conforms(v.items[2], Prim(Float));
    PointOfInterest(v.items[0].d, v.items[1].d, v.items[2].f)
  }

  function PointOfInterestValue(p: PointOfInterest): (v: Value)
    ensures Conforms(v, POINT_OF_INTEREST) && PointOfInterestOf(v) == p
  {
    Items([Float64(p.latitude), Float64(p.longitude), Float32(p.altitude)])
  }

  datatype PhotoInterval = Time(seconds: F32) | Distance(meters: F32)
}
