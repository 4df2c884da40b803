/**
 UUIDs as values and as text.

 Neither the uuid package nor PostgreSQL's uuid type is part of this model, so the
 two are a parameter: what uuid.Parse accepts, how the ::uuid cast reads a text and
 what the ::text cast prints. All that is asked of them is `Lawful`. `Rfc9562.RFC`
 is one lawful trio, the textual form of section 4 of RFC 9562.
 */
module Uuids {
  import opened Wrappers

  newtype Hex = x: int | 0 <= x < 16

  type Digits = d: seq<Hex> | |d| == 32 witness seq(32, _ => 0)

  datatype Uuid = Uuid(digits: Digits)

  datatype UuidText = UuidText(
    valid: string -> bool,           // uuid.Parse returns no error
    cast: string -> Option<Uuid>,    // $n::uuid
    text: Uuid -> string)            // id::text, and uuid.New().String()

  /** What is printed is accepted by both parsers and read back as the same value. */
  ghost predicate Lawful(uuids: UuidText) {
    forall u: Uuid :: uuids.valid(uuids.text(u)) && uuids.cast(uuids.text(u)) == Some(u)
  }
}
