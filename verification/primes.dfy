/** Elementary number theory that specifies the sieve: divisibility, primality,
    the ascending list of primes up to a bound, and the facts about prime
    factors that make the sieve correct. */
module Primes {

  /** d is a positive divisor of n. */
  predicate Divides(d: nat, n: nat) {
    d > 0 && n % d == 0
  }

  /** n is prime: at least 2, and no number strictly between 1 and n divides it. */
  predicate IsPrime(n: nat) {
    n >= 2 && forall d :: 2 <= d < n ==> !Divides(d, n)
  }

  /** Some prime smaller than k divides v. */
  ghost predicate HasPrimeFactorBelow(v: nat, k: nat) {
    exists p: nat {:trigger Divides(p, v)} :: p < k && IsPrime(p) && Divides(p, v)
  }

  predicate StrictlyIncreasing(s: seq<nat>) {
    forall i, j :: 0 <= i < j < |s| ==> s[i] < s[j]
  }

  /** ps lists, in ascending order and without repetition, exactly the primes up to n. */
  ghost predicate AllPrimesUpTo(ps: seq<nat>, n: nat) {
    StrictlyIncreasing(ps) && forall x: nat :: x in ps <==> x <= n && IsPrime(x)
  }

  /** The primes up to n, ascending: the reference the sieve is measured against. */
  function PrimesUpTo(n: nat): seq<nat> {
    if n < 2 then [] else PrimesUpTo(n - 1) + (if IsPrime(n) then [n] else [])
  }

  lemma MulDivides(d: nat, k: nat)
    requires d > 0
    ensures Divides(d, d * k)
  {
    var q: int, r: int := (d * k) / d, (d * k) % d;
    var gap: int := k - q;
    assert d * gap == r;
    assert gap >= 1 ==> d * gap >= d;
    assert gap <= -1 ==> d * gap <= 0 - d;
  }

  lemma {:induction false} DividesTrans(a: nat, b: nat, c: nat)
    requires Divides(a, b) && Divides(b, c)
    ensures Divides(a, c)
  {
    var x, y := b / a, c / b;
    assert b == a * x;
    assert c == b * y;
    assert c == a * (x * y);
    MulDivides(a, x * y);
  }

  lemma MulLe(a: nat, b: nat, c: nat, d: nat)
    requires a <= b && c <= d
    ensures a * c <= b * d
  {
    assert a * c <= b * c;
  }

  /** Every number from 2 on has a prime factor no larger than itself. */
  lemma {:induction false} PrimeFactorExists(v: nat) returns (p: nat)
    requires v >= 2
    ensures p <= v && IsPrime(p) && Divides(p, v)
    decreases v
  {
    if IsPrime(v) {
      p := v;
    } else {
      var d :| 2 <= d < v && Divides(d, v);
      p := PrimeFactorExists(d);
      DividesTrans(p, d, v);
    }
  }

  /** Allowing one more candidate factor k adds exactly the numbers k divides, when k is prime. */
  lemma FactorBelowStep(v: nat, k: nat)
    ensures HasPrimeFactorBelow(v, k + 1) <==> HasPrimeFactorBelow(v, k) || (IsPrime(k) && Divides(k, v))
  {
    if HasPrimeFactorBelow(v, k + 1) {
      var p: nat :| p < k + 1 && IsPrime(p) && Divides(p, v);
      if p < k {
        assert HasPrimeFactorBelow(v, k);
      }
    }
    if IsPrime(k) && Divides(k, v) {
      assert k < k + 1;
    }
  }

  /** When no prime lies in [k, q), the primes below q are the primes below k. */
  lemma FactorBelowShift(v: nat, k: nat, q: nat)
    requires k <= q
    requires forall w: nat :: k <= w < q ==> !IsPrime(w)
    ensures HasPrimeFactorBelow(v, q) <==> HasPrimeFactorBelow(v, k)
  {
    if HasPrimeFactorBelow(v, q) {
      var p: nat :| p < q && IsPrime(p) && Divides(p, v);
      assert p < k;
    }
  }

  /** If every number in [2, q) has a prime factor below k and q has none,
      then q is the first prime from k on. */
  lemma SmallestSurvivorIsPrime(k: nat, q: nat)
    requires q >= 2 && !HasPrimeFactorBelow(q, k)
    requires forall v: nat :: 2 <= v < q ==> HasPrimeFactorBelow(v, k)
    ensures IsPrime(q) && k <= q
    ensures forall w: nat :: k <= w < q ==> !IsPrime(w)
  {
    var p := PrimeFactorExists(q);
    assert 2 <= p < q ==> HasPrimeFactorBelow(p, k);
    assert p == q;
    forall w: nat | k <= w < q
      ensures !IsPrime(w)
    {
      if w >= 2 {
        assert HasPrimeFactorBelow(w, k);
      }
    }
  }

  /** Of a divisor d of v and its cofactor v / d, the smaller one is at least 2 and
      its square does not exceed v. */
  lemma SmallerCofactor(v: nat, d: nat) returns (m: nat)
    requires 2 <= d < v && Divides(d, v)
    ensures m >= 2 && Divides(m, v) && m * m <= v
  {
    var e := v / d;
    assert v == d * e;
    assert e >= 2 by {
      assert e == 0 ==> v == 0;
      assert e == 1 ==> v == d;
    }
    MulDivides(e, d);
    if d <= e {
      m := d;
      MulLe(d, d, d, e);
    } else {
      m := e;
      MulLe(e, d, e, e);
    }
  }

  /** A composite number has a prime factor whose square does not exceed it. */
  lemma CompositeHasSmallPrimeFactor(v: nat) returns (p: nat)
    requires v >= 2 && !IsPrime(v)
    ensures IsPrime(p) && Divides(p, v) && p * p <= v
  {
    var d: nat :| 2 <= d < v && Divides(d, v);
    var m := SmallerCofactor(v, d);
    p := PrimeFactorExists(m);
    DividesTrans(p, m, v);
    MulLe(p, m, p, m);
  }

  /** Among 2..n, where q * q > n, the numbers without a prime factor below q
      are exactly the primes from q on. */
  lemma SurvivorsArePrimes(v: nat, q: nat, n: nat)
    requires 2 <= v <= n < q * q
    ensures !HasPrimeFactorBelow(v, q) <==> IsPrime(v) && q <= v
  {
    if IsPrime(v) {
      assert Divides(v, v);
      assert v < q ==> HasPrimeFactorBelow(v, q);
    } else {
      var p := CompositeHasSmallPrimeFactor(v);
      assert p < q by {
        if p >= q {
          MulLe(q, p, q, p);
        }
      }
      assert HasPrimeFactorBelow(v, q);
    }
  }

  /** PrimesUpTo(n) lists exactly the primes up to n, ascending. */
  lemma {:induction false} PrimesUpToSpec(n: nat)
    ensures AllPrimesUpTo(PrimesUpTo(n), n)
  {
    if n >= 2 {
      PrimesUpToSpec(n - 1);
      var prev := PrimesUpTo(n - 1);
      var last: seq<nat> := if IsPrime(n) then [n] else [];
      var ps := prev + last;
      assert ps == PrimesUpTo(n);
      forall i | 0 <= i < |prev|
        ensures prev[i] < n
      {
        assert prev[i] in prev;
      }
      forall x: nat
        ensures x in ps <==> x <= n && IsPrime(x)
      {
        assert x in ps <==> x in prev || x in last;
      }
      forall i, j | 0 <= i < j < |ps|
        ensures ps[i] < ps[j]
      {
        if j < |prev| {
          assert ps[i] == prev[i] && ps[j] == prev[j];
        } else {
          assert ps[i] == prev[i] && ps[j] == n;
        }
      }
    }
  }

  /** Bounds between which no prime lies do not change the list of primes. */
  lemma {:induction false} PrimesUpToStable(lo: nat, hi: nat)
    requires lo <= hi
    requires forall w: nat :: lo < w <= hi ==> !IsPrime(w)
    ensures PrimesUpTo(hi) == PrimesUpTo(lo)
    decreases hi - lo
  {
    if lo < hi {
      PrimesUpToStable(lo, hi - 1);
    }
  }

  /** Two ascending lists with the same elements are the same list. */
  lemma {:induction false} IncreasingSameElements(a: seq<nat>, b: seq<nat>)
    requires StrictlyIncreasing(a) && StrictlyIncreasing(b)
    requires forall x :: x in a <==> x in b
    ensures a == b
    decreases |a|
  {
    assert b != [] ==> b[0] in a;
    if a != [] {
      assert a[0] in b && b[0] in a;
      assert a[0] == b[0];
      forall x | x in a[1..]
        ensures x in b[1..]
      {
        var i :| 1 <= i < |a| && a[i] == x;
        assert x in b;
        var j :| 0 <= j < |b| && b[j] == x;
        assert j != 0;
      }
      forall x | x in b[1..]
        ensures x in a[1..]
      {
        var j :| 1 <= j < |b| && b[j] == x;
        assert x in a;
        var i :| 0 <= i < |a| && a[i] == x;
        assert i != 0;
      }
      IncreasingSameElements(a[1..], b[1..]);
    }
  }

  /** PrimesUpTo(n) is the one and only list that AllPrimesUpTo describes. */
  lemma AllPrimesUpToIff(ps: seq<nat>, n: nat)
    ensures AllPrimesUpTo(ps, n) <==> ps == PrimesUpTo(n)
  {
    PrimesUpToSpec(n);
    if AllPrimesUpTo(ps, n) {
      IncreasingSameElements(ps, PrimesUpTo(n));
    }
  }

  /** Trial division: no d from lo on with d * d <= n divides n. */
  predicate NoDivisorFrom(n: nat, lo: nat)
    requires lo >= 2
    decreases n + 1 - lo
  {
    lo * lo > n || (!Divides(lo, n) && NoDivisorFrom(n, lo + 1))
  }

  lemma {:induction false} NoDivisorFromSpec(n: nat, lo: nat)
    requires lo >= 2
    ensures NoDivisorFrom(n, lo) <==> forall d: nat :: lo <= d && d * d <= n ==> !Divides(d, n)
    decreases n + 1 - lo
  {
    if lo * lo <= n {
      NoDivisorFromSpec(n, lo + 1);
      forall d: nat | lo + 1 <= d
        ensures lo * lo <= d * d
      {
        MulLe(lo, d, lo, d);
      }
    } else {
      forall d: nat | lo <= d
        ensures lo * lo <= d * d
      {
        MulLe(lo, d, lo, d);
      }
    }
  }

  /** Trial division up to the square root decides primality. */
  lemma TrialDivision(n: nat)
    requires n >= 2
    ensures IsPrime(n) <==> NoDivisorFrom(n, 2)
  {
    NoDivisorFromSpec(n, 2);
    if NoDivisorFrom(n, 2) {
      forall d: nat | 2 <= d < n
        ensures !Divides(d, n)
      {
        if Divides(d, n) && d * d > n {
          var e := n / d;
          assert n == e * d;
          MulDivides(e, d);
          assert e < d by {
            if e >= d {
              MulLe(d, e, d, d);
            }
          }
          MulLe(e, e, e, d);
        }
      }
    } else {
      forall d: nat | 2 <= d && d * d <= n
        ensures d < n
      {
        MulLe(2, d, d, d);
      }
    }
  }
}
