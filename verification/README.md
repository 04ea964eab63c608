# Sieve of Eratosthenes (primesearch-in-rust), modelled in Dafny

The program finds every prime up to a bound `number` with the sieve of
Eratosthenes. `prime_serch` fills a candidate vector with `2, 3, …, number` and
computes `lim`, the square root of `number` rounded down. It then loops:

- push the current `prime` (2 at first) onto `primes`;
- `sieve(prime, &mut candidate)` overwrites with `0` every slot that `prime` divides;
- the first non-zero slot becomes the next `prime`, through `find(..).unwrap()`;
- the loop stops once `prime > lim`.

Every slot still non-zero is then appended to `primes`.

The model has three modules:

- `primes.dfy` (module `Primes`) is the specification. It defines divisibility, `IsPrime` and `PrimesUpTo(n)`, the ascending list of the primes up to `n`. It proves that this list is the one and only ascending, duplicate-free list of those primes. It also proves the facts about prime factors that make the sieve correct, and trial division, which decides primality for concrete numbers.
- `sieve.dfy` (module `Eratosthenes`) is the program:
  - `Sieve` strikes in place on an `array<nat>`.
  - `PrimeSearch` is the search. It is a `while true` loop with `break`, over the candidate array.
  - `InitCandidates`, `FindNonZero`, `CollectNonZero` and `PushAll` are the push loop, the `find`, the `filter`/`collect` and the final push loop.
  - `SieveAndFind` is one pass of the loop body: strike, then find.
  - The `unwrap` panic is the result `None`.
  - The loop invariant `Sifted` says that every slot holds its own number or 0. It holds 0 exactly when a prime already struck with divides that number.
- `examples.dfy` (module `SieveExamples`) states the doc examples and unit tests of `src/main.rs` about the model.

`PrimeSearch` succeeds exactly when `SearchSucceeds(number)` holds. That predicate says some prime greater than 2 lies above `lim` and at most at `number`. `SearchSucceedsIff` shows it is the same as the step-by-step condition: every prime the loop strikes with has a larger prime at most `number`. On success the result is `PrimesUpTo(number)`.

## Model

| member | source | states |
|---|---|---|
| Eratosthenes.Sieve | src/main.rs:99-105 | afterwards the slice is `Struck(prime, old slice)`: every slot is replaced as by one `if *slot % prime == 0 { *slot = 0 }` |
| Eratosthenes.StruckSlots | src/main.rs:99-105 | striking keeps the length; a slot becomes 0 exactly when prime divides its old value (0 included), and every other slot keeps its value |
| Eratosthenes.StruckMonotone | src/main.rs:101-102 | zero slots stay zero, and each slot ends as either 0 or its old value |
| Eratosthenes.StruckIdempotent | src/main.rs:101-102 | striking twice with the same prime equals striking once |
| Eratosthenes.InitCandidates | src/main.rs:46-49 | the candidate array has `number - 1` slots (none below 2) and slot i holds i + 2 |
| Eratosthenes.FloorSqrt | src/main.rs:55 | `lim` is the integer square root rounded down: `lim * lim <= number < (lim + 1) * (lim + 1)` |
| Eratosthenes.FindNonZero | src/main.rs:67 | None exactly when every slot is 0; otherwise the position of a non-zero slot with only zeros before it |
| Eratosthenes.SiftedInitially | src/main.rs:46-58 | before the first strike, the filled candidates satisfy the loop invariant for prime 2 |
| Eratosthenes.SiftedAfterStrike | src/main.rs:61-64 | striking with the prime p carries the invariant from "struck by the primes below p" to "struck by the primes up to p" |
| Eratosthenes.SiftedNoSurvivor | src/main.rs:67 | if every slot is 0 after striking with p, no prime lies in (p, number] |
| Eratosthenes.SiftedNextSurvivor | src/main.rs:67 | the first non-zero slot after striking with p holds its own number, which is the next prime after p; the invariant moves on to it |
| Eratosthenes.SieveAndFind | src/main.rs:64-67 | one pass strikes every slot with prime; None exactly when no prime lies between prime and the last candidate; otherwise the value found is the next prime, bounded by the last candidate |
| Eratosthenes.SearchSucceedsIff | src/main.rs:58-72 | the search succeeds (a prime above 2 and above `lim` is at most `number`) exactly when every prime it strikes with has a larger prime at most `number` |
| Eratosthenes.NoNextPrime | src/main.rs:67 | when no prime follows a prime the loop strikes with, the search fails |
| Eratosthenes.SmallBoundFails | src/main.rs:58-67 | for `number` 0, 1 and 2 the `unwrap` always panics |
| Eratosthenes.SiftedFinal | src/main.rs:69-77 | once q > `lim` is reached, a slot is non-zero exactly when it holds a prime that is at least q |
| Eratosthenes.NonZeroMembers | src/main.rs:74-77 | filtering keeps exactly the non-zero values of the slice |
| Eratosthenes.CollectNonZero | src/main.rs:74-77 | the collected values are the non-zero slots, in slot order |
| Eratosthenes.PushAll | src/main.rs:79-81 | pushing each collected value in turn appends the whole collection, in order |
| Eratosthenes.RestArePrimes | src/main.rs:74-81 | if the non-zero slots are exactly the primes from q on, then the primes below q followed by those slots are all the primes up to `number` |
| Eratosthenes.SiftedCollect | src/main.rs:69-83 | when the loop stops at q > `lim`, the primes pushed so far followed by the surviving slots are exactly `PrimesUpTo(number)` |
| Eratosthenes.PrimeSearch | src/main.rs:40-84 | the result is not None exactly when `SearchSucceeds(number)`; then it is `PrimesUpTo(number)`, the ascending list of all primes up to `number` |
| Primes.PrimesUpToSpec | src/main.rs:30-38 | `PrimesUpTo(n)` is strictly increasing and contains exactly the primes up to n |
| Primes.AllPrimesUpToIff | src/main.rs:30-38 | a list is strictly increasing and holds exactly the primes up to n if and only if it equals `PrimesUpTo(n)` |
| Primes.FactorBelowStep | src/main.rs:61-64 | allowing one more prime factor k adds exactly the numbers that k divides |
| Primes.SmallestSurvivorIsPrime | src/main.rs:67 | the smallest number from 2 on with no prime factor below k is prime, and no prime lies between k and it |
| Primes.CompositeHasSmallPrimeFactor | src/main.rs:69-71 | a composite number has a prime factor whose square does not exceed it |
| Primes.SurvivorsArePrimes | src/main.rs:69-71 | among 2..n with q * q > n, a number has no prime factor below q exactly when it is a prime from q on |
| SieveExamples.SieveExample | src/main.rs:111-118 | striking 2..10 by 2 gives `[0,3,0,5,0,7,0,9,0]`; striking that by 3 gives `[0,0,0,5,0,7,0,0,0]` |
| SieveExamples.PrimesUpTo20 | src/main.rs:36-38 | the primes up to 20 are `[2,3,5,7,11,13,17,19]` |
| SieveExamples.PrimesUpTo100 | src/main.rs:121-128 | the primes up to 100 are the 25 primes from 2 to 97 |
| SieveExamples.SearchSucceeds20 | src/main.rs:36-38 | the search up to 20 does not panic; 5 is a prime above its square root 4 |
| SieveExamples.SearchSucceeds100 | src/main.rs:121-128 | the search up to 100 does not panic; 11 is a prime above its square root 10 |
| SieveExamples.PrimeSearchExample | src/main.rs:121-128 | `prime_serch(20)` and `prime_serch(100)` return exactly the lists of the doc example and the unit test |
| SieveExamples.SmallSearchExample | src/main.rs:58-67 | `prime_serch(2)` panics; `prime_serch(3)` returns `[2, 3]` |

## Left out

- Eratosthenes.PrimeSearch: success is not proved for every `number >= 3`. The search needs a prime in (p, p * p] for every prime p it strikes with, which is Bertrand's postulate. The contract states success as exactly `SearchSucceeds(number)`. Success is proved for 3, 20 and 100.
- Eratosthenes.PrimeSearch: its contract says the result equals `PrimesUpTo(number)`. That this list is strictly increasing and holds exactly the primes up to `number` is stated once, by `Primes.PrimesUpToSpec`, and not repeated in the method's contract.
- `main` and the command-line `Argument` struct (src/main.rs:17-28) are left out. They are argument parsing and printing.
- The `Numable` conversions of src/numable.rs and `test_generic` (src/main.rs:130-147) are left out. The model takes `number` as a `nat`. The `as usize` casts are the identity for the value 100 that the test uses, and they wrap negative inputs.
- The `f64` square root at src/main.rs:55 is modelled as the exact integer square root rounded down (`FloorSqrt`). Floating-point rounding is not modelled.
- Machine integers are not modelled: `usize` is `nat`. The overflow of `number + 1` at src/main.rs:47 when `number` is the largest `usize` is not modelled.
- The growing `Vec` built by pushes at src/main.rs:46-49 is a fresh array of its final length, filled in order.
- `find` returns a reference to the slot. `FindNonZero` returns its position instead, and `SieveAndFind` returns the value read there.
- A panic is modelled as the result `None`. For `number` below the largest `usize`, the only panic `prime_serch` reaches is the `unwrap` at src/main.rs:67.
- Eratosthenes.Sieve: `requires prime > 0` leaves out the remainder-by-zero panic of `sieve(0, slice)` on a non-empty slice (src/main.rs:101). `prime_serch` never triggers it, since it only passes 2 or a non-zero slot.
- For `number` below 2 the search panics in the code, and the model follows the code (`SmallBoundFails`). It does not return an empty list. For `number` 2 it also panics, and does not return `[2]`.
- The doc example of `sieve` (src/main.rs:92-97) calls `prime_serch(prime, candidate)`, where `sieve(3, candidate)` is meant. `SieveExample` states it for `Sieve`.
