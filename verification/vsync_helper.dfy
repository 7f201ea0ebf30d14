/** The divisors of the vsync frequency (frameworks/vsync/src/vsync_helper_impl.cpp). */
module VsyncHelper {
  import opened Sequences

  // They are the frequencies a client may ask for. Numbers are 32 bits wide, unsigned in the loop and signed in the
  // comparison of the sort.

  const LIMIT := 0x1_0000_0000
  const SIGN := 0x8000_0000

  /** The square of 65535: the last frequency but those whose loop wraps around. */
  const WRAP := 0xFFFE_0001

  type uint32 = n: int | 0 <= n < LIMIT

  function Mul(a: uint32, b: uint32): uint32 {
    a * b % LIMIT
  }

  function Signed(n: uint32): int {
    if n < SIGN then n else n - LIMIT
  }

  ghost predicate Divides(d: int, n: int) {
    d > 0 && n % d == 0
  }

  // ----- arithmetic -----

  lemma SquareMonotone(a: int, b: int)
    requires 0 <= a <= b
    ensures a * a <= b * b
  {}

  lemma SquareSmaller(a: int, b: int)
    requires 0 <= a && 0 <= b && a * a < b * b
    ensures a < b
  {
    if b <= a {
      SquareMonotone(b, a);
    }
  }

  lemma Quotient(n: int, q: int, d: int)
    requires d > 0 && n == q * d
    ensures n / d == q && n % d == 0
  {
    var x, r := n / d, n % d;
    assert (q - x) * d == r;
    if q - x >= 1 {
      ProductAtLeast(q - x, d);
    } else if q - x <= -1 {
      assert (x - q) * d == -r;
      ProductAtLeast(x - q, d);
    }
  }

  lemma ProductAtLeast(k: int, d: int)
    requires k >= 1 && d > 0
    ensures k * d >= d
  {}

  /** The other factor of a divisor. */
  lemma Cofactor(d: int, n: int)
    requires Divides(d, n) && n > 0
    ensures n / d > 0 && Divides(n / d, n) && n / (n / d) == d && d * (n / d) == n
  {
    var q := n / d;
    assert n == q * d;
    if q <= 0 {
      ProductNotPositive(q, d);
    }
    assert n == d * q;
    Quotient(n, d, q);
  }

  lemma ProductNotPositive(q: int, d: int)
    requires q <= 0 && d > 0
    ensures q * d <= 0
  {}

  lemma QuotientAtLeast(n: int, i: int)
    requires i > 0 && i * i <= n
    ensures n / i >= i
  {
    var q, r := n / i, n % i;
    assert n == q * i + r;
    if q < i {
      assert (q + 1) * i == q * i + i;
      ProductAtMost(q + 1, i, i);
    }
  }

  lemma ProductAtMost(a: int, b: int, c: int)
    requires a <= b && c > 0
    ensures a * c <= b * c
  {}

  lemma QuotientBelow(n: int, d: int, i: int)
    requires n > 0 && Divides(d, n) && i > 0 && i * i > n && d >= i
    ensures n / d < i
  {
    Cofactor(d, n);
    var q := n / d;
    if q >= i {
      assert i * d == d * i && q * d == d * q;
      ProductAtMost(i, d, i);
      ProductAtMost(i, q, d);
    }
  }

  lemma DivisorAtMost(d: int, n: int)
    requires Divides(d, n) && n > 0
    ensures d <= n
  {
    Cofactor(d, n);
    ProductAtLeast(n / d, d);
  }

  // ----- when the loop's test is right -----

  /** The loop gets as far as i: all earlier tests pass. */
  ghost predicate Reaches(freq: uint32, i: uint32) {
    forall j: uint32 :: 1 <= j < i ==> Mul(j, j) <= freq
  }

  lemma NoWrap(freq: uint32, i: uint32)
    requires freq < WRAP && 1 <= i && (i == 1 || (i - 1) * (i - 1) <= freq)
    ensures i <= 0xFFFF && Mul(i, i) == i * i
  {
    SquareSmaller(i - 1, 0xFFFF);
    SquareMonotone(i, 0xFFFF);
  }

  lemma {:induction false} ReachesExactly(freq: uint32, i: uint32)
    requires freq < WRAP && 1 <= i && Reaches(freq, i)
    ensures Mul(i, i) == i * i && i <= 0xFFFF
    decreases i
  {
    if i > 1 {
      ReachesExactly(freq, i - 1);
      assert Mul(i - 1, i - 1) <= freq;
    }
    NoWrap(freq, i);
  }

  /** Every test of the loop compares the true square exactly when the frequency is below the square of 65535. From
      there on the loop runs past the square root. */
  lemma TestsExact(freq: uint32)
    ensures (forall i: uint32 :: 1 <= i && Reaches(freq, i) ==> Mul(i, i) == i * i) <==> freq < WRAP
  {
    if freq < WRAP {
      forall i: uint32 | 1 <= i && Reaches(freq, i) ensures Mul(i, i) == i * i {
        ReachesExactly(freq, i);
      }
    } else {
      var i: uint32 := 0x1_0000;
      forall j: uint32 | 1 <= j < i ensures Mul(j, j) <= freq {
        SquareMonotone(j, 0xFFFF);
      }
      assert Reaches(freq, i);
      assert Mul(i, i) == 0;
    }
  }

  // ----- sorting -----

  ghost predicate Descending(q: seq<uint32>) {
    forall i, j :: 0 <= i < j < |q| ==> q[i] > q[j]
  }

  /** What the comparison of the sort sees. */
  ghost predicate SignedOrder(q: seq<uint32>) {
    forall i, j :: 0 <= i < j < |q| ==> Signed(q[i]) >= Signed(q[j])
  }

  /** Inserts into a sorted sequence. */
  function Inserted(q: seq<uint32>, x: uint32): (r: seq<uint32>)
    ensures |r| == |q| + 1
  {
    if q == [] then [x]
    else if Signed(x) > Signed(q[0]) then [x] + q
    else [q[0]] + Inserted(q[1..], x)
  }

  lemma InFront(x: uint32, rest: seq<uint32>)
    requires SignedOrder(rest) && forall y :: y in rest ==> Signed(x) >= Signed(y)
    ensures SignedOrder([x] + rest)
  {
    forall j | 0 <= j < |rest| ensures Signed(x) >= Signed(rest[j]) {
      assert rest[j] in rest;
    }
    hide Signed;
  }

  lemma FrontAndRest(q: seq<uint32>)
    requires q != [] && SignedOrder(q)
    ensures SignedOrder(q[1..])
    ensures forall y :: y in q <==> y == q[0] || y in q[1..]
    ensures forall y :: y in q[1..] ==> Signed(q[0]) >= Signed(y)
  {
    hide Signed;
    assert q == [q[0]] + q[1..];
  }

  lemma {:induction false} InsertedOrder(q: seq<uint32>, x: uint32)
    requires SignedOrder(q)
    ensures SignedOrder(Inserted(q, x))
    ensures forall y :: y in Inserted(q, x) <==> y in q || y == x
    ensures Distinct(q) && x !in q ==> Distinct(Inserted(q, x))
  {
    if q != [] {
      FrontAndRest(q);
      hide Signed, SignedOrder;
      if Signed(x) > Signed(q[0]) {
        InFront(x, q);
      } else {
        InsertedOrder(q[1..], x);
        InFront(q[0], Inserted(q[1..], x));
      }
    }
  }

  /** The library's sort under the signed comparison. */
  method Sort(q: seq<uint32>) returns (r: seq<uint32>)
    ensures SignedOrder(r) && |r| == |q|
    ensures forall y :: y in r <==> y in q
    ensures Distinct(q) ==> Distinct(r)
  {
    DistinctIndices(q);
    r := [];
    var k := 0;
    while k < |q|
      invariant k <= |q| && |r| == k
      invariant SignedOrder(r) && (Distinct(q) ==> Distinct(r))
      invariant forall y :: y in r <==> y in q[..k]
    {
      InsertedOrder(r, q[k]);
      assert q[..k + 1] == q[..k] + [q[k]];
      r := Inserted(r, q[k]);
      k := k + 1;
    }
    assert q[..k] == q;
  }

  /** Distinct divisors in signed order are in descending order exactly when the frequency is no negative number. */
  lemma DescendingExact(freq: uint32, r: seq<uint32>)
    requires SignedOrder(r) && Distinct(r) && freq > 0
    requires forall d: uint32 :: d in r <==> Divides(d, freq)
    ensures Descending(r) <==> freq < SIGN
  {
    DistinctIndices(r);
    if freq < SIGN {
      forall i, j | 0 <= i < j < |r| ensures r[i] > r[j] {
        assert r[i] in r && r[j] in r;
        DivisorAtMost(r[i], freq);
        DivisorAtMost(r[j], freq);
        assert Signed(r[i]) >= Signed(r[j]);
      }
    } else {
      assert Divides(freq, freq) && Divides(1, freq);
      assert freq in r && 1 in r;
      var i :| 0 <= i < |r| && r[i] == freq;
      var j :| 0 <= j < |r| && r[j] == 1;
      assert Signed(freq) < Signed(1);
      assert j < i;
    }
  }

  // ----- the loop -----

  /** The divisors the loop has listed before it comes to i. */
  ghost predicate Listed(q: seq<uint32>, freq: uint32, i: int) {
    && Distinct(q)
    && forall d: uint32 :: d in q <==> Divides(d, freq) && (d < i || freq / d < i)
  }

  lemma NextListed(q: seq<uint32>, freq: uint32, i: uint32)
    requires Listed(q, freq, i) && freq > 0 && 1 <= i && i * i <= freq && Divides(i, freq)
    ensures freq / i < LIMIT && freq / i >= i
    ensures i * i != freq ==> Listed((q + [freq / i]) + [i], freq, i + 1)
    ensures i * i == freq ==> Listed(q + [i], freq, i + 1)
  {
    Cofactor(i, freq);
    DivisorAtMost(freq / i, freq);
    QuotientAtLeast(freq, i);
    var q': uint32 := freq / i;
    if i * i != freq {
      DistinctAppend(q, q');
      DistinctAppend(q + [q'], i);
      var r := (q + [q']) + [i];
      forall d: uint32 ensures d in r <==> Divides(d, freq) && (d < i + 1 || freq / d < i + 1) {
        NewlyListed(freq, i, d);
      }
    } else {
      Quotient(freq, i, i);
      DistinctAppend(q, i);
      forall d: uint32 ensures d in q + [i] <==> Divides(d, freq) && (d < i + 1 || freq / d < i + 1) {
        NewlyListed(freq, i, d);
      }
    }
  }

  /** The divisors listed at i are i and its cofactor. */
  lemma NewlyListed(freq: uint32, i: uint32, d: uint32)
    requires freq > 0 && i > 0
    ensures Divides(d, freq) && (d == i || freq / d == i) <==> Divides(i, freq) && (d == i || d == freq / i)
  {
    if Divides(d, freq) {
      Cofactor(d, freq);
    }
    if Divides(i, freq) {
      Cofactor(i, freq);
    }
  }

  lemma SkippedListed(q: seq<uint32>, freq: uint32, i: uint32)
    requires Listed(q, freq, i) && freq > 0 && 1 <= i && !Divides(i, freq)
    ensures Listed(q, freq, i + 1)
  {
    forall d: uint32 ensures d in q <==> Divides(d, freq) && (d < i + 1 || freq / d < i + 1) {
      NewlyListed(freq, i, d);
    }
  }

  lemma NothingListed(freq: uint32)
    requires freq > 0
    ensures Listed([], freq, 1)
  {
    forall d: uint32 ensures !(Divides(d, freq) && (d < 1 || freq / d < 1)) {
      if Divides(d, freq) {
        Cofactor(d, freq);
      }
    }
  }

  lemma AllListed(q: seq<uint32>, freq: uint32, i: int)
    requires Listed(q, freq, i) && freq > 0 && i > 0 && i * i > freq
    ensures forall d: uint32 :: d in q <==> Divides(d, freq)
  {
    forall d: uint32 | Divides(d, freq) && d >= i ensures freq / d < i {
      QuotientBelow(freq, d, i);
    }
  }

  /** The loop's state on a frequency whose squares do not wrap. */
  ghost predicate Listing(freqs: seq<uint32>, freq: uint32, i: uint32) {
    && 1 <= i <= 0xFFFF && (i == 1 || (i - 1) * (i - 1) <= freq)
    && Mul(i, i) == i * i
    && Listed(freqs, freq, i)
  }

  lemma ListingNext(freqs: seq<uint32>, freq: uint32, i: uint32, freqs': seq<uint32>)
    requires 0 < freq < WRAP && Listing(freqs, freq, i) && Mul(i, i) <= freq
    requires freqs' == if freq % i != 0 then freqs
                       else (if Mul(i, i) != freq then freqs + [freq / i] else freqs) + [i]
    ensures Listing(freqs', freq, i + 1)
  {
    if freq % i == 0 {
      NextListed(freqs, freq, i);
    } else {
      SkippedListed(freqs, freq, i);
    }
    NoWrap(freq, i + 1);
  }

  /** Ends on every frequency, and lists the divisors, each once, of every one below the square of 65535; from the
      largest to the smallest exactly when the frequency fits a signed number. From that square on the loop may come
      round to a division by zero: then `ok` is false. */
  method GetSupportedVsyncFrequencys(vsyncFrequency: uint32) returns (ok: bool, freqs: seq<uint32>)
    ensures vsyncFrequency < WRAP ==> ok
    ensures vsyncFrequency == 0 ==> freqs == []
    ensures 0 < vsyncFrequency < WRAP ==> forall d: uint32 :: d in freqs <==> Divides(d, vsyncFrequency)
    ensures 0 < vsyncFrequency < WRAP ==> Distinct(freqs) && (Descending(freqs) <==> vsyncFrequency < SIGN)
    ensures ok ==> SignedOrder(freqs)
  {
    ok, freqs := true, [];
    var i: uint32 := 1;
    if vsyncFrequency > 0 {
      NothingListed(vsyncFrequency);
    }
    while Mul(i, i) <= vsyncFrequency
      invariant vsyncFrequency == 0 ==> i == 1 && freqs == []
      invariant 0 < vsyncFrequency < WRAP ==> Listing(freqs, vsyncFrequency, i)
      decreases if i == 0 then 0 else LIMIT - i
    {
      if i == 0 {
        return false, [];
      }
      ghost var before := freqs;
      if vsyncFrequency % i == 0 {
        if Mul(i, i) != vsyncFrequency {
          freqs := freqs + [vsyncFrequency / i];
        }
        freqs := freqs + [i];
      }
      if 0 < vsyncFrequency < WRAP {
        ListingNext(before, vsyncFrequency, i, freqs);
      }
      i := (i + 1) % LIMIT;
    }
    if 0 < vsyncFrequency < WRAP {
      AllListed(freqs, vsyncFrequency, i);
    }
    freqs := Sort(freqs);
    if 0 < vsyncFrequency < WRAP {
      DescendingExact(vsyncFrequency, freqs);
    }
  }
}
