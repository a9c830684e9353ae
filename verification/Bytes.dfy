/** Bytes and the little-endian integers that the kernel code copies out of byte buffers. */
module Bytes {

  type Byte = x: int | 0 <= x < 256

  type ByteSeq = seq<Byte>

  datatype Option<+T> = None | Some(value: T)

  ghost function Elements<T(!new)>(s: seq<T>): (r: set<T>)
    ensures forall x :: x in r <==> x in s
  {
    set x | x in s
  }

  ghost predicate Distinct<T(!new)>(s: seq<T>) {
    forall i, j :: 0 <= i < j < |s| ==> s[i] != s[j]
  }

  /** 256 to the power n: the number of values that fit in n bytes. */
  function Range(n: nat): (r: nat)
    ensures r > 0
  {
    if n == 0 then 1 else 256 * Range(n - 1)
  }

  /** The value of a byte string read with its least significant byte first. */
  function LeValue(s: ByteSeq): nat {
    if s == [] then 0 else s[0] + 256 * LeValue(s[1..])
  }

  /** The n-byte little-endian encoding of v. */
  function LeBytes(v: nat, n: nat): (s: ByteSeq)
    ensures |s| == n
  {
    if n == 0 then [] else [v % 256] + LeBytes(v / 256, n - 1)
  }

  lemma {:induction false} LeValueBound(s: ByteSeq)
    ensures LeValue(s) < Range(|s|)
  {
    if s != [] {
      LeValueBound(s[1..]);
    }
  }

  /** Encoding then decoding is the identity on the values that fit. */
  lemma {:induction false} LeRoundTrip(v: nat, n: nat)
    requires v < Range(n)
    ensures LeValue(LeBytes(v, n)) == v
  {
    if n > 0 {
      LeRoundTrip(v / 256, n - 1);
      assert LeBytes(v, n)[1..] == LeBytes(v / 256, n - 1);
    }
  }

  /** Decoding then encoding gives the same bytes back. */
  lemma {:induction false} LeCanonical(s: ByteSeq)
    ensures LeBytes(LeValue(s), |s|) == s
  {
    if s != [] {
      LeCanonical(s[1..]);
      var v := LeValue(s);
      assert v % 256 == s[0] && v / 256 == LeValue(s[1..]);
    }
  }

  /** The widths the code reads, byte by byte. */
  lemma {:induction false} LeWord(s: ByteSeq)
    ensures |s| == 2 ==> LeValue(s) == (s[0] as int) + 0x100 * (s[1] as int)
    ensures |s| == 4 ==> LeValue(s) == (s[0] as int) + 0x100 * (s[1] as int) + 0x1_0000 * (s[2] as int) + 0x100_0000 * (s[3] as int)
  {
    if |s| == 2 {
      assert s[1..] == [s[1]];
      assert LeValue([s[1]]) == s[1];
    } else if |s| == 4 {
      LeWord(s[..2]);
      LeWord(s[2..]);
      LeConcat(s[..2], s[2..]);
      assert s == s[..2] + s[2..] && Range(2) == 256 * Range(1) == 0x1_0000;
    }
  }

  lemma {:induction false} LeConcat(a: ByteSeq, b: ByteSeq)
    ensures LeValue(a + b) == LeValue(a) + Range(|a|) * LeValue(b)
  {
    if a == [] {
      assert a + b == b;
    } else {
      LeConcat(a[1..], b);
      assert (a + b)[1..] == a[1..] + b;
      assert 256 * (Range(|a| - 1) * LeValue(b)) == Range(|a|) * LeValue(b);
    }
  }

  /** Fixed-width bounds, so that callers never unfold Range. */
  lemma RangeValues()
    ensures Range(2) == 0x1_0000
    ensures Range(4) == 0x1_0000_0000
    ensures Range(8) == 0x1_0000_0000_0000_0000
  {
    assert Range(1) == 256;
    assert Range(3) == 256 * Range(2);
    assert Range(5) == 256 * Range(4);
    assert Range(6) == 256 * Range(5);
    assert Range(7) == 256 * Range(6);
  }
}
