/** Bytes, and the numbers that fixed-width fields of binary formats hold. */
module Bytes {
  type Byte = n: nat | n < 256

  function Pow256(width: nat): nat {
    if width == 0 then 1 else 256 * Pow256(width - 1)
  }

  /** int.from_bytes(bytes, "big") */
  function BigEndian(bytes: seq<Byte>): nat {
    if bytes == [] then 0 else 256 * BigEndian(bytes[..|bytes| - 1]) + bytes[|bytes| - 1]
  }

  function ToBigEndian(n: nat, width: nat): (bytes: seq<Byte>)
    ensures |bytes| == width
  {
    if width == 0 then [] else ToBigEndian(n / 256, width - 1) + [n % 256]
  }

  /** int.from_bytes(bytes, "little") */
  function LittleEndian(bytes: seq<Byte>): nat {
    if bytes == [] then 0 else bytes[0] + 256 * LittleEndian(bytes[1..])
  }

  function ToLittleEndian(n: nat, width: nat): (bytes: seq<Byte>)
    ensures |bytes| == width
  {
    if width == 0 then [] else [n % 256] + ToLittleEndian(n / 256, width - 1)
  }

  lemma {:induction false} BigEndianRoundTrip(n: nat, width: nat)
    requires n < Pow256(width)
    ensures BigEndian(ToBigEndian(n, width)) == n
  {
    if width > 0 {
      BigEndianRoundTrip(n / 256, width - 1);
      var bytes := ToBigEndian(n, width);
      assert bytes[..width - 1] == ToBigEndian(n / 256, width - 1);
    }
  }

  lemma {:induction false} ToBigEndianOf(bytes: seq<Byte>)
    ensures ToBigEndian(BigEndian(bytes), |bytes|) == bytes && BigEndian(bytes) < Pow256(|bytes|)
  {
    if bytes != [] {
      var front := bytes[..|bytes| - 1];
      ToBigEndianOf(front);
      assert BigEndian(bytes) / 256 == BigEndian(front);
      assert bytes == front + [bytes[|bytes| - 1]];
    }
  }

  lemma {:induction false} LittleEndianRoundTrip(n: nat, width: nat)
    requires n < Pow256(width)
    ensures LittleEndian(ToLittleEndian(n, width)) == n
  {
    if width > 0 {
      LittleEndianRoundTrip(n / 256, width - 1);
      assert ToLittleEndian(n, width)[1..] == ToLittleEndian(n / 256, width - 1);
    }
  }

  lemma {:induction false} ToLittleEndianOf(bytes: seq<Byte>)
    ensures ToLittleEndian(LittleEndian(bytes), |bytes|) == bytes && LittleEndian(bytes) < Pow256(|bytes|)
  {
    if bytes != [] {
      ToLittleEndianOf(bytes[1..]);
      assert LittleEndian(bytes) / 256 == LittleEndian(bytes[1..]);
      assert bytes == [bytes[0]] + bytes[1..];
    }
  }

  lemma Pow256Values()
    ensures Pow256(2) == 0x1_0000 && Pow256(3) == 0x100_0000 && Pow256(4) == 0x1_0000_0000
  {
    assert Pow256(1) == 256;
    assert Pow256(2) == 256 * Pow256(1);
    assert Pow256(3) == 256 * Pow256(2);
    assert Pow256(4) == 256 * Pow256(3);
  }

  lemma SliceOfDrop(data: seq<Byte>, offset: nat, i: nat, j: nat)
    requires i <= j && offset + j <= |data|
    ensures data[offset..][i..j] == data[offset + i..offset + j]
  {
  }

  lemma SliceOfSlice(data: seq<Byte>, a: nat, n: nat, i: nat, j: nat)
    requires i <= j <= n && a + n <= |data|
    ensures data[a..a + n][i..j] == data[a + i..a + j]
  {
    var inner := data[a..a + n];
    assert forall k :: 0 <= k < n ==> inner[k] == data[a + k];
    assert |inner[i..j]| == |data[a + i..a + j]|;
    assert forall k :: 0 <= k < j - i ==> inner[i..j][k] == inner[i + k] == data[a + i + k] == data[a + i..a + j][k];
  }
}
