/** Big-endian fields on the wire, as struct.pack and struct.unpack lay them out. */
module WireBytes {
  type Bytes = seq<bv8>

  function Put16(x: bv16): (r: Bytes)
    ensures |r| == 2
  {
    [(x >> 8) as bv8, (x & 0xff) as bv8]
  }

  function Get16(s: Bytes): bv16
    requires |s| == 2
  {
    ((s[0] as bv16) << 8) | (s[1] as bv16)
  }

  lemma GetPut16(x: bv16)
    ensures Get16(Put16(x)) == x
  {
  }

  function Put32(x: bv32): (r: Bytes)
    ensures |r| == 4
  {
    [(x >> 24) as bv8, ((x >> 16) & 0xff) as bv8, ((x >> 8) & 0xff) as bv8, (x & 0xff) as bv8]
  }

  function Get32(s: Bytes): bv32
    requires |s| == 4
  {
    ((s[0] as bv32) << 24) | ((s[1] as bv32) << 16) | ((s[2] as bv32) << 8) | (s[3] as bv32)
  }

  lemma GetPut32(x: bv32)
    ensures Get32(Put32(x)) == x
  {
  }

  function Put64(x: bv64): (r: Bytes)
    ensures |r| == 8
  {
    Put32((x >> 32) as bv32) + Put32((x & 0xffff_ffff) as bv32)
  }

  function Get64(s: Bytes): bv64
    requires |s| == 8
  {
    ((Get32(s[..4]) as bv64) << 32) | (Get32(s[4..]) as bv64)
  }

  lemma Halves(x: bv64)
    ensures ((((x >> 32) as bv32) as bv64) << 32) | (((x & 0xffff_ffff) as bv32) as bv64) == x
  {
  }

  lemma GetPut64(x: bv64)
    ensures Get64(Put64(x)) == x
  {
    var hi, lo := (x >> 32) as bv32, (x & 0xffff_ffff) as bv32;
    assert Put64(x)[..4] == Put32(hi) && Put64(x)[4..] == Put32(lo);
    GetPut32(hi);
    GetPut32(lo);
    Halves(x);
  }

  /** A length or a type number: a field that is counted and compared with, not shifted and masked. */
  function PutShort(n: nat): (r: Bytes)
    requires n < 0x1_0000
    ensures |r| == 2
  {
    [(n / 256) as bv8, (n % 256) as bv8]
  }

  function GetShort(s: Bytes): (n: nat)
    requires |s| == 2
    ensures n < 0x1_0000
  {
    (s[0] as nat) * 256 + (s[1] as nat)
  }

  lemma ByteValue(n: nat)
    requires n < 256
    ensures (n as bv8) as nat == n
  {
    if n < 8 {
    } else if n < 32 {
    } else if n < 64 {
    } else if n < 128 {
    } else if n < 192 {
    }
  }

  lemma GetPutShort(n: nat)
    requires n < 0x1_0000
    ensures GetShort(PutShort(n)) == n
  {
    ByteValue(n / 256);
    ByteValue(n % 256);
  }

  /** The most significant byte comes first. */
  lemma MostSignificantFirst()
    ensures Put16(0x0102) == [1, 2] && Put32(0x0102_0304) == [1, 2, 3, 4] && PutShort(0x0102) == [1, 2]
    ensures Put64(0x0102_0304_0506_0708) == [1, 2, 3, 4, 5, 6, 7, 8]
  {
    ByteValue(1);
    ByteValue(2);
  }

  function Zeros(n: nat): (r: Bytes)
    ensures |r| == n && forall i :: 0 <= i < n ==> r[i] == 0
  {
    seq(n, _ => 0)
  }

  lemma SliceOfFirst(b: Bytes, more: Bytes, from: nat, to: nat)
    requires from <= to <= |b|
    ensures (b + more)[from..to] == b[from..to]
  {
  }
}
