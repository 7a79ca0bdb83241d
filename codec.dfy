/** The one-digit character codec and the packet reassembly step of the Raft node
    (raft/model/raft-node.cc, `intToChar`, `charToInt`, `getPacketContent`).

    Every field of a message is one octet holding `'0' + d` for a small integer `d`.
    Octets are read back through a C++ `char`. The model assumes a signed `char`, as on
    x86, and states the conversion explicitly. */
module Codec {

  /** One octet, as sent in a `uint8_t` buffer and as read back from a `std::string`. */
  newtype byte = x: int | 0 <= x < 256

  /** The string terminator. */
  const NUL: byte := 0

  /** The character code of `'0'`. */
  const ZERO: int := 48

  /** The ns-3 address of a peer; only its identity matters here. */
  type Address = nat

  /** `intToChar`: `a + '0'`, narrowed to one octet (arithmetic modulo 256). */
  function IntToChar(a: int): (r: byte)
    ensures 0 <= a <= 9 ==> ZERO <= r as int <= ZERO + 9
  {
    ((a + ZERO) % 256) as byte
  }

  /** The value of an octet read as a signed (two's complement) `char`. */
  function SignedChar(b: byte): (r: int)
    ensures -128 <= r < 128
    ensures r % 256 == b as int
  {
    if b < 128 then b as int else b as int - 256
  }

  /** `charToInt`: `a - '0'` on a signed `char`. Every octet decodes to a value that
      encodes back to that same octet. */
  function CharToInt(b: byte): (r: int)
    ensures -128 - ZERO <= r < 128 - ZERO
    ensures IntToChar(r) == b
  {
    SignedChar(b) - ZERO
  }

  /** Decoding an encoded integer gives it back exactly when it lies in the range a
      signed `char` can carry once `'0'` is added; in particular for every digit. */
  lemma DigitRoundTrip(a: int)
    ensures CharToInt(IntToChar(a)) == a <==> -128 - ZERO <= a < 128 - ZERO
    ensures 0 <= a <= 9 ==> CharToInt(IntToChar(a)) == a
  {
  }

  /** Two integers in the carried range that encode to the same octet are equal:
      distinct digit constants stay distinct on the wire. */
  lemma IntToCharInjective(a: int, b: int)
    requires -128 - ZERO <= a < 128 - ZERO && -128 - ZERO <= b < 128 - ZERO
    requires IntToChar(a) == IntToChar(b)
    ensures a == b
  {
  }

  /** The text a NUL-terminated `char*` holds: the octets before the first NUL. */
  function CString(payload: seq<byte>): (r: seq<byte>)
    ensures r <= payload
    ensures NUL !in r
    ensures |r| < |payload| ==> payload[|r|] == NUL
  {
    if payload == [] || payload[0] == NUL then [] else [payload[0]] + CString(payload[1..])
  }

  /** `m_bufferedData[from]`: a missing key reads as the empty string. */
  function Buffered(buffered: map<Address, seq<byte>>, from: Address): seq<byte>
  {
    if from in buffered then buffered[from] else []
  }

  /** `getPacketContent`: the bytes buffered for the sender followed by the packet's
      payload read as a C string. The buffer itself is only read. */
  function PacketContent(buffered: map<Address, seq<byte>>, from: Address, payload: seq<byte>): seq<byte>
  {
    Buffered(buffered, from) + CString(payload)
  }

  /** The decoded text begins with whatever is buffered for the sender and goes on with
      the payload; with nothing buffered and no NUL in the payload it is the payload itself. */
  lemma PacketContentLayout(buffered: map<Address, seq<byte>>, from: Address, payload: seq<byte>)
    ensures Buffered(buffered, from) <= PacketContent(buffered, from, payload)
    ensures NUL !in payload ==>
      PacketContent(buffered, from, payload) == Buffered(buffered, from) + payload
    ensures NUL !in payload && Buffered(buffered, from) == [] ==>
      PacketContent(buffered, from, payload) == payload
  {
  }

  /** `msg[i]` on a `std::string`: the character at `i`, and the terminator `'\0'` at
      the end of the text. */
  function At(msg: seq<byte>, i: nat): byte
  {
    if i < |msg| then msg[i] else NUL
  }
}
