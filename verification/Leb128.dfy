/** Variable-length integers of section 7.6 of DWARF Version 4. */
module Leb128 {
  import opened Values

  datatype Parsed<+T> = Parsed(value: T, rest: seq<Byte>) | Truncated

  // Unsigned.

  function EncodeULEB128(value: nat): (bytes: seq<Byte>)
    ensures |bytes| > 0
  {
    if value < 128 then [value] else [value % 128 + 128] + EncodeULEB128(value / 128)
  }

  /** Reads seven bits per byte, least significant first, until a byte without its top bit. */
  function DecodeULEB128(bytes: seq<Byte>): (parsed: Parsed<nat>)
    ensures parsed.Parsed? ==> |parsed.rest| < |bytes|
  {
    if bytes == [] then Truncated
    else if bytes[0] < 128 then Parsed(bytes[0] as int, bytes[1..])
    else
      match DecodeULEB128(bytes[1..])
      case Parsed(high, rest) =>
        var byte: int := bytes[0];
        Parsed(byte - 128 + 128 * high, rest)
      case Truncated => Truncated
  }

  /** Decoding gives the value back and leaves the bytes behind it alone. */
  lemma {:induction false} ULEB128RoundTrip(value: nat, rest: seq<Byte>)
    ensures DecodeULEB128(EncodeULEB128(value) + rest) == Parsed(value, rest)
  {
    if value < 128 {
      assert ([value] + rest)[1..] == rest;
    } else {
      var first: Byte, high := value % 128 + 128, EncodeULEB128(value / 128);
      assert ([first] + high) + rest == [first] + (high + rest);
      assert ([first] + (high + rest))[1..] == high + rest;
      ULEB128RoundTrip(value / 128, rest);
    }
  }

  /** No byte sequence that decodes to a value is shorter than its encoding. */
  lemma {:induction false} ULEB128Shortest(bytes: seq<Byte>)
    ensures match DecodeULEB128(bytes)
            case Parsed(value, rest) => |rest| + |EncodeULEB128(value)| <= |bytes|
            case Truncated => true
  {
    if bytes != [] && bytes[0] >= 128 {
      ULEB128Shortest(bytes[1..]);
      if DecodeULEB128(bytes[1..]).Parsed? {
        var low: int, high := bytes[0] as int - 128, DecodeULEB128(bytes[1..]).value;
        assert (low + 128 * high) / 128 == high;
      }
    }
  }

  /** The encoder's loop. */
  method WriteULEB128(buffer: seq<Byte>, value: nat) returns (extended: seq<Byte>)
    ensures extended == buffer + EncodeULEB128(value)
  {
    extended := buffer;
    var currentValue := value;
    while true
      invariant extended + EncodeULEB128(currentValue) == buffer + EncodeULEB128(value)
      decreases currentValue
    {
      var byte: int := currentValue % 128;
      var shifted := currentValue / 128;
      if shifted != 0 { byte := byte + 128; }
      assert EncodeULEB128(currentValue) == [byte] + if shifted == 0 then [] else EncodeULEB128(shifted);
      extended := extended + [byte];
      currentValue := shifted;
      if currentValue == 0 { break; }
    }
  }

  // Signed.

  predicate FitsSevenBits(value: int) {
    -64 <= value < 64
  }

  function EncodeSLEB128(value: int): (bytes: seq<Byte>)
    ensures |bytes| > 0
    decreases if value < 0 then -value else value
  {
    if FitsSevenBits(value) then [value % 128] else [value % 128 + 128] + EncodeSLEB128(value / 128)
  }

  /** The top bit of the last seven is the sign. */
  function DecodeSLEB128(bytes: seq<Byte>): (parsed: Parsed<int>)
    ensures parsed.Parsed? ==> |parsed.rest| < |bytes|
  {
    if bytes == [] then Truncated
    else if bytes[0] < 128 then
      var byte: int := bytes[0];
      Parsed(if byte < 64 then byte else byte - 128, bytes[1..])
    else
      match DecodeSLEB128(bytes[1..])
      case Parsed(high, rest) =>
        var byte: int := bytes[0];
        Parsed(byte - 128 + 128 * high, rest)
      case Truncated => Truncated
  }

  lemma {:induction false} SLEB128RoundTrip(value: int, rest: seq<Byte>)
    ensures DecodeSLEB128(EncodeSLEB128(value) + rest) == Parsed(value, rest)
    decreases if value < 0 then -value else value
  {
    if FitsSevenBits(value) {
      var last: Byte := value % 128;
      assert ([last] + rest)[1..] == rest;
    } else {
      var first: Byte, high := value % 128 + 128, EncodeSLEB128(value / 128);
      assert ([first] + high) + rest == [first] + (high + rest);
      assert ([first] + (high + rest))[1..] == high + rest;
      SLEB128RoundTrip(value / 128, rest);
    }
  }

  lemma {:induction false} SLEB128Shortest(bytes: seq<Byte>)
    ensures match DecodeSLEB128(bytes)
            case Parsed(value, rest) => |rest| + |EncodeSLEB128(value)| <= |bytes|
            case Truncated => true
  {
    if bytes != [] && bytes[0] >= 128 {
      SLEB128Shortest(bytes[1..]);
      if DecodeSLEB128(bytes[1..]).Parsed? {
        var low: int, high := bytes[0] as int - 128, DecodeSLEB128(bytes[1..]).value;
        assert (low + 128 * high) / 128 == high;
      }
    }
  }

  method WriteSLEB128(buffer: seq<Byte>, value: int) returns (extended: seq<Byte>)
    ensures extended == buffer + EncodeSLEB128(value)
  {
    extended := buffer;
    var more := true;
    var currentValue := value;
    while more
      invariant more ==> extended + EncodeSLEB128(currentValue) == buffer + EncodeSLEB128(value)
      invariant !more ==> extended == buffer + EncodeSLEB128(value)
      decreases more, if currentValue < 0 then -currentValue else currentValue
    {
      var byte: int := currentValue % 128;
      var shifted := currentValue / 128;
      var byteHasSign := byte >= 64;
      if (shifted == 0 && !byteHasSign) || (shifted == -1 && byteHasSign) {
        more := false;
      } else {
        byte := byte + 128;
      }
      assert EncodeSLEB128(currentValue) == [byte] + if more then EncodeSLEB128(shifted) else [];
      extended := extended + [byte];
      currentValue := shifted;
    }
  }

  // Bytes behind a number do not matter to it.

  lemma {:induction false} ULEB128More(bytes: seq<Byte>, more: seq<Byte>)
    requires DecodeULEB128(bytes).Parsed?
    ensures DecodeULEB128(bytes + more) == Parsed(DecodeULEB128(bytes).value, DecodeULEB128(bytes).rest + more)
  {
    assert (bytes + more)[1..] == bytes[1..] + more;
    if bytes[0] >= 128 { ULEB128More(bytes[1..], more); }
  }

  lemma {:induction false} SLEB128More(bytes: seq<Byte>, more: seq<Byte>)
    requires DecodeSLEB128(bytes).Parsed?
    ensures DecodeSLEB128(bytes + more) == Parsed(DecodeSLEB128(bytes).value, DecodeSLEB128(bytes).rest + more)
  {
    assert (bytes + more)[1..] == bytes[1..] + more;
    if bytes[0] >= 128 { SLEB128More(bytes[1..], more); }
  }

  // Fixed widths, least significant byte first.

  function LittleEndian(value: nat, width: nat): (bytes: seq<Byte>)
    ensures |bytes| == width
  {
    if width == 0 then [] else [value % 256] + LittleEndian(value / 256, width - 1)
  }

  function FromLittleEndian(bytes: seq<Byte>): nat {
    if bytes == [] then 0
    else
      var byte: int := bytes[0];
      byte + 256 * FromLittleEndian(bytes[1..])
  }

  function Limit(width: nat): nat {
    if width == 0 then 1 else 256 * Limit(width - 1)
  }

  lemma {:induction false} LittleEndianRoundTrip(value: nat, width: nat)
    requires value < Limit(width)
    ensures FromLittleEndian(LittleEndian(value, width)) == value
  {
    if width > 0 {
      assert value / 256 < Limit(width - 1);
      LittleEndianRoundTrip(value / 256, width - 1);
      assert LittleEndian(value, width)[1..] == LittleEndian(value / 256, width - 1);
    }
  }
}
