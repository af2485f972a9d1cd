/** How a `usize` is laid out in memory on wasm32: four bytes, least
    significant first. `(ptr as *mut usize).write(n)` stores `Encode(n)` and
    `.read()` decodes the same four bytes. */
module Word {
  import opened Base

  /** `size_of::<usize>()` on wasm32. */
  const WORD: nat := 4

  function Pow256(k: nat): (r: nat)
    ensures r >= 1
  {
    if k == 0 then 1 else 256 * Pow256(k - 1)
  }

  /** The k low-order bytes of n, least significant first. */
  function EncodeLE(n: nat, k: nat): (r: seq<Byte>)
    ensures |r| == k
  {
    if k == 0 then [] else [n % 256] + EncodeLE(n / 256, k - 1)
  }

  /** The number whose little-endian bytes are s. */
  function DecodeLE(s: seq<Byte>): (n: nat)
    ensures n < Pow256(|s|)
  {
    if s == [] then 0 else s[0] + 256 * DecodeLE(s[1..])
  }

  /** Decoding undoes encoding for every value that fits in k bytes. */
  lemma {:induction false} DecodeEncode(n: nat, k: nat)
    requires n < Pow256(k)
    ensures DecodeLE(EncodeLE(n, k)) == n
  {
    if k > 0 {
      var e := EncodeLE(n, k);
      assert e[1..] == EncodeLE(n / 256, k - 1);
      assert n / 256 < Pow256(k - 1) by {
        assert n < 256 * Pow256(k - 1);
      }
      DecodeEncode(n / 256, k - 1);
      assert DecodeLE(e) == n % 256 + 256 * (n / 256);
    }
  }

  /** The lowest byte and the rest of a number, recovered by `%` and `/`. */
  lemma DigitSplit(a: nat, d: nat)
    requires a < 256
    ensures (a + 256 * d) % 256 == a && (a + 256 * d) / 256 == d
  {
  }

  /** Encoding undoes decoding: the bytes of a stored word are recovered. */
  lemma {:induction false} EncodeDecode(s: seq<Byte>)
    ensures EncodeLE(DecodeLE(s), |s|) == s
  {
    if s != [] {
      var d := DecodeLE(s[1..]);
      DigitSplit(s[0], d);
      EncodeDecode(s[1..]);
    }
  }

  lemma UsizeFitsWord()
    ensures Pow256(WORD) == USIZE_MAX + 1
  {
    assert Pow256(2) == 65536;
  }

  /** `(ptr as *mut usize).read()` on the first bytes of a region. */
  function ReadWord(bytes: seq<Byte>): (n: nat)
    requires |bytes| >= WORD
    ensures n <= USIZE_MAX
  {
    UsizeFitsWord();
    DecodeLE(bytes[..WORD])
  }

  /** `data` written over `bytes` starting at `offset`. */
  function Splice(bytes: seq<Byte>, offset: nat, data: seq<Byte>): (r: seq<Byte>)
    requires offset + |data| <= |bytes|
    ensures |r| == |bytes|
    ensures r[offset..offset + |data|] == data
    ensures r[..offset] == bytes[..offset]
    ensures r[offset + |data|..] == bytes[offset + |data|..]
  {
    bytes[..offset] + data + bytes[offset + |data|..]
  }

  /** A word stored at the start of a region reads back as itself. */
  lemma ReadAfterWrite(bytes: seq<Byte>, n: Usize)
    requires |bytes| >= WORD
    ensures ReadWord(Splice(bytes, 0, EncodeLE(n, WORD))) == n
  {
    UsizeFitsWord();
    var r := Splice(bytes, 0, EncodeLE(n, WORD));
    assert r[..WORD] == EncodeLE(n, WORD);
    DecodeEncode(n, WORD);
  }

  /** Writing past the first word leaves the stored word as it was. */
  lemma ReadAfterWriteBeyond(bytes: seq<Byte>, offset: nat, data: seq<Byte>)
    requires |bytes| >= WORD && WORD <= offset && offset + |data| <= |bytes|
    ensures ReadWord(Splice(bytes, offset, data)) == ReadWord(bytes)
  {
    var r := Splice(bytes, offset, data);
    assert r[..WORD] == r[..offset][..WORD] == bytes[..offset][..WORD] == bytes[..WORD];
  }
}
