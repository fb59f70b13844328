/**
 * The serialized form of a log entry written by `LeaderState.commit`: the
 * entry's term as an 8-byte big-endian two's-complement `long`
 * (`ByteBuffer.putLong`), followed by the payload. Reading a term back
 * (`ByteBuffer.getLong`) decodes the same 8 bytes.
 */
module EntryCodec {
  import opened Types

  /** The width of the term prefix. */
  const TermBytes: nat := 8

  const TwoTo64: int := 0x1_0000_0000_0000_0000
  const MinLong: int := -0x8000_0000_0000_0000
  const MaxLong: int := 0x7FFF_FFFF_FFFF_FFFF

  /** The range of a Java `long`. */
  predicate IsLong(x: int) {
    MinLong <= x <= MaxLong
  }

  function Pow256(n: nat): (r: nat)
    ensures r > 0
  {
    if n == 0 then 1 else 256 * Pow256(n - 1)
  }

  /** The `n`-byte big-endian encoding of `u`, truncated modulo 256^n. */
  function UnsignedBytes(u: nat, n: nat): (r: Bytes)
    ensures |r| == n
  {
    if n == 0 then [] else UnsignedBytes(u / 256, n - 1) + [u % 256]
  }

  /** The unsigned value of big-endian bytes. */
  function UnsignedValue(b: Bytes): (u: nat)
    ensures u < Pow256(|b|)
  {
    if |b| == 0 then 0 else UnsignedValue(b[..|b| - 1]) * 256 + b[|b| - 1]
  }

  lemma {:induction false} UnsignedValueOfBytes(u: nat, n: nat)
    requires u < Pow256(n)
    ensures UnsignedValue(UnsignedBytes(u, n)) == u
  {
    if n > 0 {
      var b := UnsignedBytes(u, n);
      assert b[..|b| - 1] == UnsignedBytes(u / 256, n - 1);
      UnsignedValueOfBytes(u / 256, n - 1);
    }
  }

  lemma {:induction false} UnsignedBytesOfValue(b: Bytes)
    ensures UnsignedBytes(UnsignedValue(b), |b|) == b
  {
    if |b| > 0 {
      var init := b[..|b| - 1];
      var u := UnsignedValue(b);
      assert u / 256 == UnsignedValue(init);
      assert u % 256 == b[|b| - 1];
      UnsignedBytesOfValue(init);
      assert init + [b[|b| - 1]] == b;
    }
  }

  /** `ByteBuffer.putLong`: two's complement, then big-endian. */
  function PutLong(x: int): (r: Bytes)
    requires IsLong(x)
    ensures |r| == TermBytes
  {
    UnsignedBytes(if x < 0 then x + TwoTo64 else x, TermBytes)
  }

  /** `ByteBuffer.getLong` at position 0. */
  function GetLong(b: Bytes): (x: int)
    requires |b| >= TermBytes
    ensures IsLong(x)
  {
    var u := UnsignedValue(b[..TermBytes]);
    assert Pow256(TermBytes) == TwoTo64;
    if u > MaxLong then u - TwoTo64 else u
  }

  /** The bytes appended to the log for an entry. */
  function Encode(e: Entry): (b: Bytes)
    requires IsLong(e.term)
    ensures |b| == TermBytes + |e.payload|
    ensures b[TermBytes..] == e.payload
  {
    PutLong(e.term) + e.payload
  }

  /** Reads an entry back; `None` when the 8-byte term prefix is missing. */
  function Decode(b: Bytes): (r: Option<Entry>)
    ensures r.None? <==> |b| < TermBytes
    ensures r.Some? ==> r.value.payload == b[TermBytes..] && IsLong(r.value.term)
  {
    if |b| < TermBytes then None else Some(Entry(GetLong(b), b[TermBytes..]))
  }

  /** The term and payload written at commit are what a later read sees. */
  lemma DecodeEncode(e: Entry)
    requires IsLong(e.term)
    ensures Decode(Encode(e)) == Some(e)
  {
    var b := Encode(e);
    var u := if e.term < 0 then e.term + TwoTo64 else e.term;
    assert Pow256(TermBytes) == TwoTo64;
    assert b[..TermBytes] == PutLong(e.term);
    UnsignedValueOfBytes(u, TermBytes);
  }

  /** Every buffer holding at least a term prefix is the encoding of what it decodes to. */
  lemma EncodeDecode(b: Bytes)
    requires |b| >= TermBytes
    ensures Decode(b).Some? && Encode(Decode(b).value) == b
  {
    var head := b[..TermBytes];
    assert Pow256(TermBytes) == TwoTo64;
    UnsignedBytesOfValue(head);
    assert head + b[TermBytes..] == b;
  }
}
