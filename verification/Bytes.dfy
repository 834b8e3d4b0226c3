/** Bytes, NUL-terminated text as the C sources see it, and big-endian integers. */
module Bytes {
  type byte = b: int | 0 <= b < 0x100

  /** The characters of a C string, without its terminator. */
  type Text = s: seq<byte> | 0 !in s witness []

  function Pow256(n: nat): nat {
    if n == 0 then 1 else 256 * Pow256(n - 1)
  }

  const UINT16_RANGE := 0x1_0000
  const UINT32_RANGE := 0x1_0000_0000
  const UINT64_RANGE := 0x1_0000_0000_0000_0000

  lemma Widths()
    ensures Pow256(1) == 0x100 && Pow256(2) == UINT16_RANGE && Pow256(4) == UINT32_RANGE && Pow256(8) == UINT64_RANGE
  {
    assert Pow256(4) == 256 * Pow256(3) && Pow256(3) == 256 * Pow256(2);
    assert Pow256(8) == 256 * Pow256(7) && Pow256(7) == 256 * Pow256(6) && Pow256(6) == 256 * Pow256(5);
    assert Pow256(5) == 256 * Pow256(4);
  }

  /** The low n bytes of v, most significant first. */
  function ToBytes(v: nat, n: nat): (s: seq<byte>)
    ensures |s| == n
  {
    if n == 0 then [] else ToBytes(v / 256, n - 1) + [v % 256]
  }

  function FromBytes(s: seq<byte>): nat {
    if s == [] then 0 else FromBytes(s[..|s| - 1]) * 256 + s[|s| - 1]
  }

  lemma {:induction false} FromToBytes(v: nat, n: nat)
    requires v < Pow256(n)
    ensures FromBytes(ToBytes(v, n)) == v
  {
    if n > 0 {
      FromToBytes(v / 256, n - 1);
      var s := ToBytes(v, n);
      assert s[..n - 1] == ToBytes(v / 256, n - 1);
    }
  }

  lemma {:induction false} ToFromBytes(s: seq<byte>)
    ensures FromBytes(s) < Pow256(|s|) && ToBytes(FromBytes(s), |s|) == s
  {
    if s != [] {
      var init, last := s[..|s| - 1], s[|s| - 1];
      ToFromBytes(init);
      assert FromBytes(s) / 256 == FromBytes(init) && FromBytes(s) % 256 == last;
      assert s == init + [last];
    }
  }

  /** Network byte order, written out for the widths that occur: the first byte counts most. */
  lemma NetworkOrder(s: seq<byte>)
    ensures |s| == 2 ==> FromBytes(s) == s[0] as int * 0x100 + s[1]
    ensures |s| == 4 ==> FromBytes(s) == s[0] as int * 0x100_0000 + s[1] as int * 0x1_0000 + s[2] as int * 0x100 + s[3]
  {
    if |s| == 2 {
      Last(s);
      Last(s[..1]);
    } else if |s| == 4 {
      Last(s);
      Last(s[..3]);
      Last(s[..3][..2]);
      Last(s[..3][..2][..1]);
    }
  }

  lemma Last(s: seq<byte>)
    requires s != []
    ensures FromBytes(s) == FromBytes(s[..|s| - 1]) * 256 + s[|s| - 1]
  {
  }

  /** Two neighbouring four-byte numbers read as one of eight. */
  lemma FourAndFour(s: seq<byte>)
    requires |s| == 8
    ensures FromBytes(s) == FromBytes(s[..4]) * 0x1_0000_0000 + FromBytes(s[4..])
  {
    hide FromBytes;
    NetworkOrder(s[4..]);
    Last(s);
    assert s[..7][..6] == s[..6] && s[..6][..5] == s[..5] && s[..5][..4] == s[..4];
    Last(s[..7]);
    Last(s[..6]);
    Last(s[..5]);
  }

  // ---------- NUL-terminated text in a fixed-size field ----------

  /** strnlen: the characters before the first NUL, or the whole field if it has none. */
  function StrnLen(field: seq<byte>): (n: nat)
    ensures n <= |field|
    ensures n < |field| ==> field[n] == 0
    ensures 0 !in field[..n]
  {
    if field == [] || field[0] == 0 then 0
    else
      var n := 1 + StrnLen(field[1..]);
      assert field[..n] == [field[0]] + field[1..][..n - 1];
      n
  }

  function Zeros(n: nat): (s: seq<byte>)
    ensures |s| == n && forall i :: 0 <= i < n ==> s[i] == 0
  {
    seq(n, _ => 0)
  }

  /** A field of n bytes that starts with s and is zero from there on. */
  function Padded(s: seq<byte>, n: nat): (field: seq<byte>)
    requires |s| <= n
    ensures |field| == n
  {
    s + Zeros(n - |s|)
  }

  lemma {:induction false} StrnLenOfPadded(s: seq<byte>, n: nat)
    requires 0 !in s && |s| <= n
    ensures StrnLen(Padded(s, n)) == |s| && Padded(s, n)[..|s|] == s
  {
    assert Padded(s, n)[..|s|] == s;
    if s == [] {
      assert n > 0 ==> Padded(s, n)[0] == 0;
    } else {
      StrnLenOfPadded(s[1..], n - 1);
      assert Padded(s, n)[1..] == Padded(s[1..], n - 1);
      assert s[0] in s;
    }
  }

  /** memcpy into a buffer. */
  method Put(buffer: array<byte>, at: nat, bytes: seq<byte>) returns (end: nat)
    requires at + |bytes| <= buffer.Length
    modifies buffer
    ensures end == at + |bytes|
    ensures buffer[..end] == old(buffer[..at]) + bytes
    ensures forall i :: end <= i < buffer.Length ==> buffer[i] == old(buffer[i])
  {
    forall i | 0 <= i < |bytes| {
      buffer[at + i] := bytes[i];
    }
    end := at + |bytes|;
  }
}
