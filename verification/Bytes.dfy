/** Byte strings, the common currency of the agent: paths, JSON messages and the log file. */
module Bytes {
  type Byte = b: int | 0 <= b < 256
  type ByteString = seq<Byte>

  type Path = ByteString

  const SLASH: Byte := 0x2F

  datatype Option<+T> = None | Some(value: T)

  /** The bytes of a text in ASCII. */
  function Spelt(text: string): (bytes: ByteString)
    requires forall i :: 0 <= i < |text| ==> text[i] < 128 as char
    ensures |bytes| == |text|
    ensures forall i :: 0 <= i < |text| ==> bytes[i] == text[i] as int
  {
    seq(|text|, i requires 0 <= i < |text| => text[i] as int)
  }

  function ToBits(b: Byte): bv8 { b as bv8 }

  function FromBits(v: bv8): Byte { v as int }

  /** By cases on the high half, which the solver needs for the conversions. */
  lemma ThereAndBack(b: int)
    requires 0 <= b < 256
    ensures (b as bv8) as int == b
  {
    match b / 16
    case 0 => case 1 => case 2 => case 3 => case 4 => case 5 => case 6 => case 7 =>
    case 8 => case 9 => case 10 => case 11 => case 12 => case 13 => case 14 => case _ =>
  }

  lemma ToBitsInjective(b: Byte)
    ensures FromBits(ToBits(b)) == b
  {
    ThereAndBack(b);
  }

  lemma FromBitsInjective(v: bv8)
    ensures ToBits(FromBits(v)) == v
  {}
}
