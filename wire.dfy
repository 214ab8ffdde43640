/** The protocol-buffer wire format, kept abstract: a message is written as a
    sequence of (field number, payload) tokens, and the byte-level writing of
    tags and varints is summarised by the sizes it produces. */
module Wire {

  newtype uint8 = x: int | 0 <= x < 0x100
  newtype uint32 = x: int | 0 <= x < 0x1_0000_0000

  type Bytes = seq<uint8>

  datatype Option<+T> = None | Some(value: T)

  /** A field payload, one case per wire type that a uint32 or string field can meet. */
  datatype Payload =
    | Varint(value: nat)        // wire type 0
    | Fixed64(bits64: bv64)     // wire type 1
    | Delimited(bytes: Bytes)   // wire type 2
    | Fixed32(bits32: bv32)     // wire type 5

  datatype Token = Token(fieldNumber: nat, payload: Payload)

  function WireType(p: Payload): (wt: nat)
    ensures wt in {0, 1, 2, 5}
  {
    match p
    case Varint(_) => 0
    case Fixed64(_) => 1
    case Delimited(_) => 2
    case Fixed32(_) => 5
  }

  /** Number of bytes of the base-128 varint encoding of v (seven payload bits per byte). */
  function VarintSize(v: nat): (k: nat)
    ensures 1 <= k
    ensures v < 0x80 ==> k == 1
  {
    if v < 0x80 then 1 else 1 + VarintSize(v / 0x80)
  }

  /** A value below 2^(7k) needs at most k varint bytes. */
  lemma {:induction false} VarintSizeBound(v: nat, k: nat, bound: nat)
    requires 1 <= k && bound == Pow128(k) && v < bound
    ensures VarintSize(v) <= k
    decreases k
  {
    if v >= 0x80 {
      assert k > 1;
      VarintSizeBound(v / 0x80, k - 1, Pow128(k - 1));
    }
  }

  function Pow128(k: nat): (p: nat)
    ensures p >= 1
  {
    if k == 0 then 1 else 0x80 * Pow128(k - 1)
  }

  /** A uint32 never needs more than five varint bytes. */
  lemma VarintSizeUInt32(v: uint32)
    ensures VarintSize(v as nat) <= 5
  {
    assert Pow128(5) == 0x8_0000_0000;
    VarintSizeBound(v as nat, 5, Pow128(5));
  }

  /** Size of a uint32 field's payload (WireFormatLite::UInt32Size). */
  function UInt32Size(v: uint32): (k: nat)
    ensures 1 <= k <= 5
  {
    VarintSizeUInt32(v);
    VarintSize(v as nat)
  }

  /** Size of a string field's payload: its length prefix and its bytes (WireFormatLite::StringSize). */
  function StringSize(b: Bytes): (k: nat)
    ensures k > |b|
  {
    VarintSize(|b|) + |b|
  }

  function PayloadSize(p: Payload): (k: nat)
    ensures k >= 1
  {
    match p
    case Varint(v) => VarintSize(v)
    case Fixed64(_) => 8
    case Delimited(b) => StringSize(b)
    case Fixed32(_) => 4
  }

  /** Encoded size of one token: the tag varint (field number and wire type) and the payload. */
  function TokenSize(t: Token): (k: nat)
    ensures k >= 2
    ensures 1 <= t.fieldNumber <= 15 ==> k == 1 + PayloadSize(t.payload)
  {
    VarintSize(t.fieldNumber * 8 + WireType(t.payload)) + PayloadSize(t.payload)
  }

  /** Encoded size of a token stream. */
  function TokensSize(ts: seq<Token>): (k: nat)
    ensures ts == [] <==> k == 0
  {
    if ts == [] then 0 else TokensSize(ts[..|ts| - 1]) + TokenSize(ts[|ts| - 1])
  }

  lemma {:induction false} TokensSizeAppend(a: seq<Token>, b: seq<Token>)
    ensures TokensSize(a + b) == TokensSize(a) + TokensSize(b)
    decreases |b|
  {
    if b == [] {
      assert a + b == a;
    } else {
      var b' := b[..|b| - 1];
      assert (a + b)[..|a + b| - 1] == a + b';
      assert (a + b)[|a + b| - 1] == b[|b| - 1];
      TokensSizeAppend(a, b');
    }
  }
}
