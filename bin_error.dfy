/**
 * The error of the binary decoder (src/litchi/bin/error.rs): UnsupportedValue,
 * BadMagic and Custom. The text that serde's helpers format into a Custom message is
 * kept as a structured Reason. Two variants exist only in the model, where the source
 * panics instead of returning: Truncated (a primitive read past the end of the
 * input, where `split_at` panics) and UnknownAction (an action code outside 0..5,
 * where the waypoint visitor calls `panic!`).
 */
module BinError {

  import opened Wire

  datatype Reason =
    | InvalidValue(unexpected: nat, expected: string)      // serde's invalid_value
    | InvalidLength(length: nat, expected: string)         // serde's invalid_length
    | MissingField(field: string)                          // serde's missing_field
    | Message(text: string)                                // serde's custom
    | UnknownDiscriminant(value: nat, allowed: seq<nat>)   // serde_repr's custom on an unknown discriminant

  datatype Error =
    | UnsupportedValue
    | BadMagic
    | Custom(reason: Reason)
    | Truncated(needed: nat, remaining: nat)
    | UnknownAction(code: u32, value: u32)
}
