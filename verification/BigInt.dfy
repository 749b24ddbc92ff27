/** Big-endian bytes of natural numbers, as Go's big.Int Bytes and SetBytes write and read them. */
module BigInt {
  import opened Nibbles

  /** SetBytes; leading zeros are allowed and the empty slice is zero. */
  function FromBytes(b: Bytes): nat {
    if b == [] then 0 else FromBytes(b[..|b| - 1]) * 256 + b[|b| - 1]
  }

  /** Bytes: the shortest encoding, empty for zero. */
  function ToBytes(n: nat): (b: Bytes)
    ensures b == [] <==> n == 0
    ensures b != [] ==> b[0] != 0
  {
    if n == 0 then [] else ToBytes(n / 256) + [n % 256]
  }

  lemma {:induction false} RoundTrip(n: nat)
    ensures FromBytes(ToBytes(n)) == n
  {
    if n != 0 {
      var b := ToBytes(n);
      assert b[..|b| - 1] == ToBytes(n / 256);
      RoundTrip(n / 256);
    }
  }

  function Power256(k: nat): nat {
    if k == 0 then 1 else 256 * Power256(k - 1)
  }

  /** A number below 256^k has at most k bytes. */
  lemma {:induction false} ToBytesLength(n: nat, k: nat)
    requires n < Power256(k)
    ensures |ToBytes(n)| <= k
  {
    if n != 0 {
      ToBytesLength(n / 256, k - 1);
    }
  }

  lemma FromBytesAppend(b: Bytes, last: byte)
    ensures FromBytes(b + [last]) == FromBytes(b) * 256 + last
  {
    assert (b + [last])[..|b|] == b;
  }

  lemma FromByte(x: byte)
    ensures FromBytes([x]) == x
  {
    FromBytesAppend([], x);
    assert [] + [x] == [x];
  }

  /** Big-endian: what comes first weighs 256 times more for every byte after it. */
  lemma {:induction false} FromBytesSplit(front: Bytes, back: Bytes)
    ensures FromBytes(front + back) == FromBytes(front) * Power256(|back|) + FromBytes(back)
  {
    if back == [] {
      assert front + back == front;
    } else {
      var i := |back| - 1;
      FromBytesSplit(front, back[..i]);
      assert front + back == front + back[..i] + [back[i]] && back == back[..i] + [back[i]];
      FromBytesAppend(front + back[..i], back[i]);
      FromBytesAppend(back[..i], back[i]);
      Shift(FromBytes(front), Power256(i), FromBytes(back[..i]), back[i]);
    }
  }

  lemma Shift(high: nat, p: nat, low: nat, last: nat)
    ensures (high * p + low) * 256 + last == high * (256 * p) + (low * 256 + last)
  {
    assert high * (256 * p) == 256 * (high * p);
  }

  /** The k low bytes of a number, most significant first. */
  function Fixed(n: nat, k: nat): (b: Bytes)
    ensures |b| == k
  {
    if k == 0 then [] else Fixed(n / 256, k - 1) + [n % 256]
  }

  /** A number written in k bytes reads back modulo 256^k. */
  lemma {:induction false} FixedRoundTrip(n: nat, k: nat)
    ensures Power256(k) > 0 && FromBytes(Fixed(n, k)) == n % Power256(k)
  {
    if k > 0 {
      FixedRoundTrip(n / 256, k - 1);
      FromBytesAppend(Fixed(n / 256, k - 1), n % 256);
      LowByteApart(n, Power256(k - 1));
    }
  }

  lemma FixedFits(n: nat, k: nat)
    requires n < Power256(k)
    ensures FromBytes(Fixed(n, k)) == n
  {
    FixedRoundTrip(n, k);
    Remainder(n, Power256(k), 0, n);
  }

  lemma LowByteApart(n: nat, p: nat)
    requires p > 0
    ensures n % (256 * p) == n / 256 % p * 256 + n % 256
  {
    var high := n / 256;
    var q, r := high / p, high % p;
    assert high == q * p + r;
    assert n == q * (256 * p) + (r * 256 + n % 256) by {
      assert 256 * (q * p) == q * (256 * p);
    }
    Remainder(n, 256 * p, q, r * 256 + n % 256);
  }

  lemma Remainder(n: nat, d: nat, q: nat, r: nat)
    requires r < d && n == q * d + r
    ensures n % d == r
  {
    var e := n / d;
    Apart(e, q, d);
    Apart(q, e, d);
    assert n == e * d + n % d;
  }

  lemma Apart(a: nat, b: nat, d: nat)
    ensures a < b ==> a * d + d <= b * d
  {
    if a < b {
      Grows(a + 1, b, d);
      assert (a + 1) * d == a * d + d;
    }
  }

  lemma Grows(a: nat, b: nat, d: nat)
    requires a <= b
    ensures a * d <= b * d
  {
  }
}
