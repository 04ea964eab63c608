/** The sieve of Eratosthenes of src/main.rs: the in-place strike `sieve` and the
    search `prime_serch`, whose candidate vector of numbers 2..number is an array
    whose struck slots are overwritten with 0. */
module Eratosthenes {
  import opened Primes

  datatype Option<T> = None | Some(value: T)

  /** One slot after striking with prime: a multiple of prime (0 included) becomes 0. */
  function Strike(prime: nat, slot: nat): nat
    requires prime > 0
  {
    if slot % prime == 0 then 0 else slot
  }

  /** The slice after striking every slot with prime, walked from the front. */
  function Struck(prime: nat, s: seq<nat>): seq<nat>
    requires prime > 0
  {
    if s == [] then [] else Struck(prime, s[..|s| - 1]) + [Strike(prime, s[|s| - 1])]
  }

  /** Striking keeps the length; a slot becomes 0 exactly when its old value is a
      multiple of prime, and every other slot keeps its value. */
  lemma {:induction false} StruckSlots(prime: nat, s: seq<nat>)
    requires prime > 0
    ensures |Struck(prime, s)| == |s|
    ensures forall i :: 0 <= i < |s| ==> (Struck(prime, s)[i] == 0 <==> s[i] % prime == 0)
    ensures forall i :: 0 <= i < |s| && s[i] % prime != 0 ==> Struck(prime, s)[i] == s[i]
  {
    if s != [] {
      StruckSlots(prime, s[..|s| - 1]);
    }
  }

  /** Zero slots stay zero, and a slot only ever keeps its value or drops to zero. */
  lemma StruckMonotone(prime: nat, s: seq<nat>)
    requires prime > 0
    ensures |Struck(prime, s)| == |s|
    ensures forall i :: 0 <= i < |s| && s[i] == 0 ==> Struck(prime, s)[i] == 0
    ensures forall i :: 0 <= i < |s| ==> Struck(prime, s)[i] in {0, s[i]}
  {
    StruckSlots(prime, s);
  }

  /** Striking twice with the same number is striking once. */
  lemma StruckIdempotent(prime: nat, s: seq<nat>)
    requires prime > 0
    ensures Struck(prime, Struck(prime, s)) == Struck(prime, s)
  {
    StruckSlots(prime, s);
    StruckSlots(prime, Struck(prime, s));
  }

  /** `sieve(prime, candidate)`: overwrite with 0 every slot whose value prime divides. */
  method Sieve(prime: nat, candidate: array<nat>)
    requires prime > 0
    modifies candidate
    ensures candidate[..] == Struck(prime, old(candidate[..]))
  {
    ghost var s := candidate[..];
    for i := 0 to candidate.Length
      invariant candidate[..i] == Struck(prime, s[..i])
      invariant candidate[i..] == s[i..]
    {
      assert s[..i + 1][..i] == s[..i];
      if candidate[i] % prime == 0 {
        candidate[i] := 0;
      }
      assert candidate[..i + 1] == candidate[..i] + [candidate[i]];
      assert candidate[i + 1..] == s[i + 1..];
    }
    assert s[..candidate.Length] == s;
  }

  /** The candidate vector of `prime_serch`: the numbers 2..number, slot i holding i + 2. */
  method InitCandidates(number: nat) returns (candidate: array<nat>)
    ensures fresh(candidate)
    ensures candidate.Length == if number >= 2 then number - 1 else 0
    ensures forall i :: 0 <= i < candidate.Length ==> candidate[i] == i + 2
  {
    var len := if number >= 2 then number - 1 else 0;
    candidate := new nat[len];
    for i := 0 to len
      invariant forall j :: 0 <= j < i ==> candidate[j] == j + 2
    {
      candidate[i] := i + 2;
    }
  }

  /** `candidate.iter().find(|x| **x != 0)`, by position: the first non-zero slot, if any. */
  method FindNonZero(candidate: array<nat>) returns (k: Option<nat>)
    ensures k.None? <==> forall i :: 0 <= i < candidate.Length ==> candidate[i] == 0
    ensures k.Some? ==> k.value < candidate.Length && candidate[k.value] != 0
    ensures k.Some? ==> forall i :: 0 <= i < k.value ==> candidate[i] == 0
  {
    var i := 0;
    while i < candidate.Length
      invariant i <= candidate.Length
      invariant forall j :: 0 <= j < i ==> candidate[j] == 0
    {
      if candidate[i] != 0 {
        return Some(i);
      }
      i := i + 1;
    }
    return None;
  }

  function SqrtFrom(n: nat, r: nat): (s: nat)
    requires r * r <= n
    ensures s * s <= n < (s + 1) * (s + 1)
    decreases n - r
  {
    if (r + 1) * (r + 1) > n then r else SqrtFrom(n, r + 1)
  }

  /** `lim`: the integer square root of n, rounded down. */
  function FloorSqrt(n: nat): (r: nat)
    ensures r * r <= n < (r + 1) * (r + 1)
  {
    SqrtFrom(n, 0)
  }

  /** The search's `unwrap` never fails for n: a prime above both 2 and the square
      root of n is left once every smaller prime has struck its multiples. */
  ghost predicate SearchSucceeds(n: nat) {
    exists q: nat :: 2 < q <= n && FloorSqrt(n) < q && IsPrime(q)
  }

  /** The same condition, step by step: every prime the search strikes with (2, and
      then each prime whose square is at most n) has a larger prime at most n, so
      the next non-zero slot is always found. */
  ghost predicate NextPrimeExists(n: nat) {
    forall p: nat :: IsPrime(p) && (p == 2 || p * p <= n) ==> exists q: nat :: p < q <= n && IsPrime(q)
  }

  /** The largest prime up to b, for b >= 2. */
  lemma {:induction false} LargestPrimeUpTo(b: nat) returns (p: nat)
    requires b >= 2
    ensures IsPrime(p) && p <= b
    ensures forall w: nat :: p < w <= b ==> !IsPrime(w)
  {
    if IsPrime(b) {
      p := b;
    } else {
      p := LargestPrimeUpTo(b - 1);
    }
  }

  /** The two statements of success agree. */
  lemma SearchSucceedsIff(n: nat)
    ensures SearchSucceeds(n) <==> NextPrimeExists(n)
  {
    var lim := FloorSqrt(n);
    if SearchSucceeds(n) {
      var q: nat :| 2 < q <= n && lim < q && IsPrime(q);
      forall p: nat | IsPrime(p) && (p == 2 || p * p <= n)
        ensures exists q': nat :: p < q' <= n && IsPrime(q')
      {
        if p > lim {
          MulLe(lim + 1, p, lim + 1, p);
        }
        assert p < q;
      }
    }
    if NextPrimeExists(n) {
      var top := if lim < 2 then 2 else lim;
      var p := LargestPrimeUpTo(top);
      if p > 2 {
        MulLe(p, lim, p, lim);
      }
      assert p == 2 || p * p <= n;
      var q: nat :| p < q <= n && IsPrime(q);
      assert lim < q && 2 < q;
    }
  }

  /** The search fails when no prime follows a prime it strikes with. */
  lemma NoNextPrime(n: nat, p: nat)
    requires IsPrime(p) && (p == 2 || p <= FloorSqrt(n))
    requires forall q: nat :: p < q <= n ==> !IsPrime(q)
    ensures !SearchSucceeds(n)
  {
  }

  /** For number 0, 1 and 2 the first strike with 2 leaves no non-zero slot. */
  lemma SmallBoundFails(n: nat)
    requires n < 3
    ensures !NextPrimeExists(n)
  {
    SearchSucceedsIff(n);
  }

  /** The sieve's invariant on the candidate slots with k the next number to strike
      with: slot i holds its own number i + 2 or 0, and it holds 0 exactly when a
      prime below k divides i + 2. */
  ghost predicate Sifted(s: seq<nat>, k: nat) {
    forall i: nat :: i < |s| ==> SlotSifted(s, i, k)
  }

  /** Sifted at slot i alone. */
  ghost predicate SlotSifted(s: seq<nat>, i: nat, k: nat)
    requires i < |s|
  {
    (s[i] == 0 || s[i] == i + 2) && (s[i] == 0 <==> HasPrimeFactorBelow(i + 2, k))
  }

  /** Sifted, slot by slot. */
  lemma SiftedMeans(s: seq<nat>, k: nat)
    ensures Sifted(s, k) <==> forall i :: 0 <= i < |s| ==>
      (s[i] == 0 || s[i] == i + 2) && (s[i] == 0 <==> HasPrimeFactorBelow(i + 2, k))
  {
    forall i: nat | i < |s|
      ensures SlotSifted(s, i, k) <==>
        (s[i] == 0 || s[i] == i + 2) && (s[i] == 0 <==> HasPrimeFactorBelow(i + 2, k))
    {
    }
  }

  /** Before any strike no slot is zero. */
  lemma SiftedInitially(s: seq<nat>)
    requires forall i :: 0 <= i < |s| ==> s[i] == i + 2
    ensures Sifted(s, 2)
  {
    SiftedMeans(s, 2);
  }

  /** Striking with the prime p moves the invariant from p to p + 1. */
  lemma SiftedAfterStrike(s: seq<nat>, p: nat)
    requires Sifted(s, p) && IsPrime(p)
    ensures Sifted(Struck(p, s), p + 1)
  {
    SiftedMeans(s, p);
    SiftedMeans(Struck(p, s), p + 1);
    StruckSlots(p, s);
    var k := p + 1;
    forall v: nat
      ensures HasPrimeFactorBelow(v, k) <==> HasPrimeFactorBelow(v, p) || Divides(p, v)
    {
      FactorBelowStep(v, p);
    }
  }

  /** When every slot is zero after striking with p, no prime lies in (p, |s| + 1]. */
  lemma SiftedNoSurvivor(s: seq<nat>, p: nat)
    requires Sifted(s, p + 1) && IsPrime(p)
    requires forall i :: 0 <= i < |s| ==> s[i] == 0
    ensures forall q: nat :: p < q <= |s| + 1 ==> !IsPrime(q)
  {
    SiftedMeans(s, p + 1);
    forall q: nat | p < q <= |s| + 1
      ensures !IsPrime(q)
    {
      assert s[q - 2] == 0;
    }
  }

  /** After striking with the prime p, the first non-zero slot holds the next prime
      after p, and the invariant holds for it. */
  lemma SiftedNextSurvivor(s: seq<nat>, p: nat, j: nat)
    requires Sifted(s, p + 1) && IsPrime(p)
    requires j < |s| && s[j] != 0 && forall i :: 0 <= i < j ==> s[i] == 0
    ensures s[j] == j + 2 && IsPrime(j + 2) && p < j + 2
    ensures forall w: nat :: p < w < j + 2 ==> !IsPrime(w)
    ensures PrimesUpTo(j + 1) == PrimesUpTo(p)
    ensures Sifted(s, j + 2)
  {
    SiftedMeans(s, p + 1);
    SiftedMeans(s, j + 2);
    var q, k := j + 2, p + 1;
    forall v: nat | 2 <= v < q
      ensures HasPrimeFactorBelow(v, k)
    {
      assert s[v - 2] == 0;
    }
    SmallestSurvivorIsPrime(k, q);
    PrimesUpToStable(p, q - 1);
    forall v: nat
      ensures HasPrimeFactorBelow(v, q) <==> HasPrimeFactorBelow(v, k)
    {
      FactorBelowShift(v, k, q);
    }
  }

  /** Once the next number q to strike with has q * q > n, the non-zero slots of
      the numbers 2..n are exactly the primes from q on. */
  lemma SiftedFinal(s: seq<nat>, q: nat, n: nat)
    requires Sifted(s, q) && |s| + 1 <= n < q * q
    ensures forall i :: 0 <= i < |s| ==> (s[i] != 0 <==> IsPrime(i + 2) && q <= i + 2)
  {
    SiftedMeans(s, q);
    forall v: nat | 2 <= v <= n
      ensures !HasPrimeFactorBelow(v, q) <==> IsPrime(v) && q <= v
    {
      SurvivorsArePrimes(v, q, n);
    }
  }

  /** The non-zero slots of s, in order. */
  function NonZero(s: seq<nat>): seq<nat> {
    if s == [] then [] else NonZero(s[..|s| - 1]) + (if s[|s| - 1] != 0 then [s[|s| - 1]] else [])
  }

  /** Filtering keeps exactly the non-zero slots. */
  lemma {:induction false} NonZeroMembers(s: seq<nat>)
    ensures forall x :: x in NonZero(s) <==> x in s && x != 0
  {
    if s != [] {
      NonZeroMembers(s[..|s| - 1]);
      assert s == s[..|s| - 1] + [s[|s| - 1]];
    }
  }

  /** Filtering slots that are all zero leaves nothing. */
  lemma {:induction false} NonZeroOfZeros(s: seq<nat>)
    requires forall i :: 0 <= i < |s| ==> s[i] == 0
    ensures NonZero(s) == []
  {
    if s != [] {
      NonZeroOfZeros(s[..|s| - 1]);
    }
  }

  /** `candidate.iter().filter(|x| **x != 0).collect()`: the non-zero slots in order. */
  method CollectNonZero(candidate: array<nat>) returns (rest: seq<nat>)
    ensures rest == NonZero(candidate[..])
  {
    rest := [];
    for i := 0 to candidate.Length
      invariant rest == NonZero(candidate[..i])
    {
      assert candidate[..i + 1][..i] == candidate[..i];
      if candidate[i] != 0 {
        rest := rest + [candidate[i]];
      }
    }
    assert candidate[..candidate.Length] == candidate[..];
  }

  /** `for prime in rest_prime { primes.push(*prime) }`: rest appended to primes
      one element at a time, in order. */
  method PushAll(primes: seq<nat>, rest: seq<nat>) returns (all: seq<nat>)
    ensures all == primes + rest
  {
    all := primes;
    for i := 0 to |rest|
      invariant all == primes + rest[..i]
    {
      all := all + [rest[i]];
      assert rest[..i + 1] == rest[..i] + [rest[i]];
    }
    assert rest[..|rest|] == rest;
  }

  /** When the slots of 2..|s| + 1 that are left are exactly the primes from q on,
      the primes below q followed by the slots left are all primes up to |s| + 1. */
  lemma {:induction false} RestArePrimes(s: seq<nat>, q: nat)
    requires 2 <= q <= |s| + 2
    requires forall i :: 0 <= i < |s| ==> s[i] == 0 || s[i] == i + 2
    requires forall i :: 0 <= i < |s| ==> (s[i] != 0 <==> IsPrime(i + 2) && q <= i + 2)
    ensures PrimesUpTo(q - 1) + NonZero(s) == PrimesUpTo(|s| + 1)
  {
    if |s| + 2 == q {
      NonZeroOfZeros(s);
    } else {
      var init := s[..|s| - 1];
      RestArePrimes(init, q);
      var v := |s| + 1;
      assert PrimesUpTo(v) == PrimesUpTo(v - 1) + (if IsPrime(v) then [v] else []);
      assert NonZero(s) == NonZero(init) + (if s[|s| - 1] != 0 then [s[|s| - 1]] else []);
    }
  }

  /** When the search stops at q above the square root of n, the primes below q
      followed by the non-zero slots are all the primes up to n. */
  lemma SiftedCollect(s: seq<nat>, q: nat, n: nat)
    requires Sifted(s, q) && 2 <= q <= n && |s| + 1 == n && FloorSqrt(n) < q
    ensures PrimesUpTo(q - 1) + NonZero(s) == PrimesUpTo(n)
  {
    SiftedMeans(s, q);
    var lim := FloorSqrt(n);
    MulLe(lim + 1, q, lim + 1, q);
    SiftedFinal(s, q, n);
    RestArePrimes(s, q);
  }

  /** One pass of the loop of `prime_serch`: `sieve(prime, &mut candidate)` and then
      `candidate.iter().find(|x| **x != 0)`. The value found is the next prime after
      prime, and the sieve's invariant moves on to it; None (the `unwrap` panic)
      means no prime lies between prime and the last candidate. */
  method SieveAndFind(prime: nat, candidate: array<nat>) returns (next: Option<nat>)
    requires IsPrime(prime) && Sifted(candidate[..], prime)
    modifies candidate
    ensures forall i :: 0 <= i < candidate.Length ==> candidate[i] == Strike(prime, old(candidate[i]))
    ensures next.None? <==> forall q: nat :: prime < q <= candidate.Length + 1 ==> !IsPrime(q)
    ensures next.Some? ==> prime < next.value <= candidate.Length + 1 && IsPrime(next.value)
    ensures next.Some? ==> forall w: nat :: prime < w < next.value ==> !IsPrime(w)
    ensures next.Some? ==> PrimesUpTo(next.value - 1) == PrimesUpTo(prime)
    ensures next.Some? ==> Sifted(candidate[..], next.value)
  {
    SiftedAfterStrike(candidate[..], prime);
    ghost var before := candidate[..];
    Sieve(prime, candidate);
    StruckSlots(prime, before);
    var k := FindNonZero(candidate);
    if k.None? {
      SiftedNoSurvivor(candidate[..], prime);
      return None;
    }
    SiftedNextSurvivor(candidate[..], prime, k.value);
    next := Some(candidate[k.value]);
  }

  /** `prime_serch(number)`. None stands for the panic of the `unwrap` that looks for
      the next non-zero slot; it happens exactly when SearchSucceeds fails. On
      success the result is the ascending list of all primes up to number. */
  method PrimeSearch(number: nat) returns (r: Option<seq<nat>>)
    ensures r.Some? <==> SearchSucceeds(number)
    ensures r.Some? ==> r.value == PrimesUpTo(number)
  {
    var candidate := InitCandidates(number);
    var primes: seq<nat> := [];
    var lim := FloorSqrt(number);
    var prime: nat := 2;
    SiftedInitially(candidate[..]);
    while true
      invariant candidate.Length == if number >= 2 then number - 1 else 0
      invariant Sifted(candidate[..], prime)
      invariant IsPrime(prime) && primes == PrimesUpTo(prime - 1)
      invariant prime == 2 || prime <= lim
      invariant prime <= number + 2
      decreases number + 2 - prime
    {
      primes := primes + [prime];
      assert primes == PrimesUpTo(prime);
      var next := SieveAndFind(prime, candidate);
      if next.None? {
        NoNextPrime(number, prime);
        return None;
      }
      prime := next.value;
      if prime > lim {
        break;
      }
    }

    // Every slot left is a prime from `prime` on, and every such prime is left.
    assert 2 < prime <= number && lim < prime;
    ghost var left := candidate[..];
    SiftedCollect(left, prime, number);
    var rest := CollectNonZero(candidate);
    primes := PushAll(primes, rest);
    r := Some(primes);
  }
}
