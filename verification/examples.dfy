/** The examples and tests of src/main.rs, stated about the model: the strike of
    the candidates 2..10 by 2 and then by 3, and the searches up to 20 and 100. */
module SieveExamples {
  import opened Primes
  import opened Eratosthenes

  /** `test_sieve` and the example of `sieve`: the candidates 2..10 struck by 2, and
      then by 3. */
  method SieveExample() returns (byTwo: seq<nat>, byThree: seq<nat>)
    ensures byTwo == [0, 3, 0, 5, 0, 7, 0, 9, 0]
    ensures byThree == [0, 0, 0, 5, 0, 7, 0, 0, 0]
  {
    var candidate := new nat[9] [2, 3, 4, 5, 6, 7, 8, 9, 10];
    ghost var start := candidate[..];
    Sieve(2, candidate);
    StruckSlots(2, start);
    byTwo := candidate[..];
    Sieve(3, candidate);
    StruckSlots(3, byTwo);
    byThree := candidate[..];
  }

  lemma PrimesUpTo10()
    ensures PrimesUpTo(10) == [2, 3, 5, 7]
  {
    TrialDivision(2);
    assert PrimesUpTo(2) == [2];
    TrialDivision(3);
    assert PrimesUpTo(3) == [2, 3];
    TrialDivision(4);
    assert PrimesUpTo(4) == [2, 3];
    TrialDivision(5);
    assert PrimesUpTo(5) == [2, 3, 5];
    TrialDivision(6);
    assert PrimesUpTo(6) == [2, 3, 5];
    TrialDivision(7);
    assert PrimesUpTo(7) == [2, 3, 5, 7];
    TrialDivision(8);
    assert PrimesUpTo(8) == [2, 3, 5, 7];
    TrialDivision(9);
    assert PrimesUpTo(9) == [2, 3, 5, 7];
    TrialDivision(10);
    assert PrimesUpTo(10) == [2, 3, 5, 7];
  }

  lemma PrimesUpTo20()
    ensures PrimesUpTo(20) == [2, 3, 5, 7, 11, 13, 17, 19]
  {
    PrimesUpTo10();
    TrialDivision(11);
    assert PrimesUpTo(11) == [2, 3, 5, 7, 11];
    TrialDivision(12);
    assert PrimesUpTo(12) == [2, 3, 5, 7, 11];
    TrialDivision(13);
    assert PrimesUpTo(13) == [2, 3, 5, 7, 11, 13];
    TrialDivision(14);
    assert PrimesUpTo(14) == [2, 3, 5, 7, 11, 13];
    TrialDivision(15);
    assert PrimesUpTo(15) == [2, 3, 5, 7, 11, 13];
    TrialDivision(16);
    assert PrimesUpTo(16) == [2, 3, 5, 7, 11, 13];
    TrialDivision(17);
    assert PrimesUpTo(17) == [2, 3, 5, 7, 11, 13, 17];
    TrialDivision(18);
    assert PrimesUpTo(18) == [2, 3, 5, 7, 11, 13, 17];
    TrialDivision(19);
    assert PrimesUpTo(19) == [2, 3, 5, 7, 11, 13, 17, 19];
    TrialDivision(20);
    assert PrimesUpTo(20) == [2, 3, 5, 7, 11, 13, 17, 19];
  }

  lemma PrimesUpTo30()
    ensures PrimesUpTo(30) == [2, 3, 5, 7, 11, 13, 17, 19, 23, 29]
  {
    PrimesUpTo20();
    TrialDivision(21);
    assert PrimesUpTo(21) == [2, 3, 5, 7, 11, 13, 17, 19];
    TrialDivision(22);
    assert PrimesUpTo(22) == [2, 3, 5, 7, 11, 13, 17, 19];
    TrialDivision(23);
    assert PrimesUpTo(23) == [2, 3, 5, 7, 11, 13, 17, 19, 23];
    TrialDivision(24);
    assert PrimesUpTo(24) == [2, 3, 5, 7, 11, 13, 17, 19, 23];
    TrialDivision(25);
    assert PrimesUpTo(25) == [2, 3, 5, 7, 11, 13, 17, 19, 23];
    TrialDivision(26);
    assert PrimesUpTo(26) == [2, 3, 5, 7, 11, 13, 17, 19, 23];
    TrialDivision(27);
    assert PrimesUpTo(27) == [2, 3, 5, 7, 11, 13, 17, 19, 23];
    TrialDivision(28);
    assert PrimesUpTo(28) == [2, 3, 5, 7, 11, 13, 17, 19, 23];
    TrialDivision(29);
    assert PrimesUpTo(29) == [2, 3, 5, 7, 11, 13, 17, 19, 23, 29];
    TrialDivision(30);
    assert PrimesUpTo(30) == [2, 3, 5, 7, 11, 13, 17, 19, 23, 29];
  }

  lemma PrimesUpTo40()
    ensures PrimesUpTo(40) == [2, 3, 5, 7, 11, 13, 17, 19, 23, 29, 31, 37]
  {
    PrimesUpTo30();
    TrialDivision(31);
    assert PrimesUpTo(31) == [2, 3, 5, 7, 11, 13, 17, 19, 23, 29, 31];
    TrialDivision(32);
    assert PrimesUpTo(32) == [2, 3, 5, 7, 11, 13, 17, 19, 23, 29, 31];
    TrialDivision(33);
    assert PrimesUpTo(33) == [2, 3, 5, 7, 11, 13, 17, 19, 23, 29, 31];
    TrialDivision(34);
    assert PrimesUpTo(34) == [2, 3, 5, 7, 11, 13, 17, 19, 23, 29, 31];
    TrialDivision(35);
    assert PrimesUpTo(35) == [2, 3, 5, 7, 11, 13, 17, 19, 23, 29, 31];
    TrialDivision(36);
    assert PrimesUpTo(36) == [2, 3, 5, 7, 11, 13, 17, 19, 23, 29, 31];
    TrialDivision(37);
    assert PrimesUpTo(37) == [2, 3, 5, 7, 11, 13, 17, 19, 23, 29, 31, 37];
    TrialDivision(38);
    assert PrimesUpTo(38) == [2, 3, 5, 7, 11, 13, 17, 19, 23, 29, 31, 37];
    TrialDivision(39);
    assert PrimesUpTo(39) == [2, 3, 5, 7, 11, 13, 17, 19, 23, 29, 31, 37];
    TrialDivision(40);
    assert PrimesUpTo(40) == [2, 3, 5, 7, 11, 13, 17, 19, 23, 29, 31, 37];
  }

  lemma PrimesUpTo50()
    ensures PrimesUpTo(50) == [2, 3, 5, 7, 11, 13, 17, 19, 23, 29, 31, 37, 41, 43, 47]
  {
    PrimesUpTo40();
    TrialDivision(41);
    assert PrimesUpTo(41) == [2, 3, 5, 7, 11, 13, 17, 19, 23, 29, 31, 37, 41];
    TrialDivision(42);
    assert PrimesUpTo(42) == [2, 3, 5, 7, 11, 13, 17, 19, 23, 29, 31, 37, 41];
    TrialDivision(43);
    assert PrimesUpTo(43) == [2, 3, 5, 7, 11, 13, 17, 19, 23, 29, 31, 37, 41, 43];
    TrialDivision(44);
    assert PrimesUpTo(44) == [2, 3, 5, 7, 11, 13, 17, 19, 23, 29, 31, 37, 41, 43];
    TrialDivision(45);
    assert PrimesUpTo(45) == [2, 3, 5, 7, 11, 13, 17, 19, 23, 29, 31, 37, 41, 43];
    TrialDivision(46);
    assert PrimesUpTo(46) == [2, 3, 5, 7, 11, 13, 17, 19, 23, 29, 31, 37, 41, 43];
    TrialDivision(47);
    assert PrimesUpTo(47) == [2, 3, 5, 7, 11, 13, 17, 19, 23, 29, 31, 37, 41, 43, 47];
    TrialDivision(48);
    assert PrimesUpTo(48) == [2, 3, 5, 7, 11, 13, 17, 19, 23, 29, 31, 37, 41, 43, 47];
    TrialDivision(49);
    assert PrimesUpTo(49) == [2, 3, 5, 7, 11, 13, 17, 19, 23, 29, 31, 37, 41, 43, 47];
    TrialDivision(50);
    assert PrimesUpTo(50) == [2, 3, 5, 7, 11, 13, 17, 19, 23, 29, 31, 37, 41, 43, 47];
  }

  lemma PrimesUpTo60()
    ensures PrimesUpTo(60) == [2, 3, 5, 7, 11, 13, 17, 19, 23, 29, 31, 37, 41, 43, 47, 53, 59]
  {
    PrimesUpTo50();
    TrialDivision(51);
    assert PrimesUpTo(51) == [2, 3, 5, 7, 11, 13, 17, 19, 23, 29, 31, 37, 41, 43, 47];
    TrialDivision(52);
    assert PrimesUpTo(52) == [2, 3, 5, 7, 11, 13, 17, 19, 23, 29, 31, 37, 41, 43, 47];
    TrialDivision(53);
    assert PrimesUpTo(53) == [2, 3, 5, 7, 11, 13, 17, 19, 23, 29, 31, 37, 41, 43, 47, 53];
    TrialDivision(54);
    assert PrimesUpTo(54) == [2, 3, 5, 7, 11, 13, 17, 19, 23, 29, 31, 37, 41, 43, 47, 53];
    TrialDivision(55);
    assert PrimesUpTo(55) == [2, 3, 5, 7, 11, 13, 17, 19, 23, 29, 31, 37, 41, 43, 47, 53];
    TrialDivision(56);
    assert PrimesUpTo(56) == [2, 3, 5, 7, 11, 13, 17, 19, 23, 29, 31, 37, 41, 43, 47, 53];
    TrialDivision(57);
    assert PrimesUpTo(57) == [2, 3, 5, 7, 11, 13, 17, 19, 23, 29, 31, 37, 41, 43, 47, 53];
    TrialDivision(58);
    assert PrimesUpTo(58) == [2, 3, 5, 7, 11, 13, 17, 19, 23, 29, 31, 37, 41, 43, 47, 53];
    TrialDivision(59);
    assert PrimesUpTo(59) == [2, 3, 5, 7, 11, 13, 17, 19, 23, 29, 31, 37, 41, 43, 47, 53, 59];
    TrialDivision(60);
    assert PrimesUpTo(60) == [2, 3, 5, 7, 11, 13, 17, 19, 23, 29, 31, 37, 41, 43, 47, 53, 59];
  }

  lemma PrimesUpTo70()
    ensures PrimesUpTo(70) == [2, 3, 5, 7, 11, 13, 17, 19, 23, 29, 31, 37, 41, 43, 47, 53, 59, 61, 67]
  {
    PrimesUpTo60();
    TrialDivision(61);
    assert PrimesUpTo(61) == [2, 3, 5, 7, 11, 13, 17, 19, 23, 29, 31, 37, 41, 43, 47, 53, 59, 61];
    TrialDivision(62);
    assert PrimesUpTo(62) == [2, 3, 5, 7, 11, 13, 17, 19, 23, 29, 31, 37, 41, 43, 47, 53, 59, 61];
    TrialDivision(63);
    assert PrimesUpTo(63) == [2, 3, 5, 7, 11, 13, 17, 19, 23, 29, 31, 37, 41, 43, 47, 53, 59, 61];
    TrialDivision(64);
    assert PrimesUpTo(64) == [2, 3, 5, 7, 11, 13, 17, 19, 23, 29, 31, 37, 41, 43, 47, 53, 59, 61];
    TrialDivision(65);
    assert PrimesUpTo(65) == [2, 3, 5, 7, 11, 13, 17, 19, 23, 29, 31, 37, 41, 43, 47, 53, 59, 61];
    TrialDivision(66);
    assert PrimesUpTo(66) == [2, 3, 5, 7, 11, 13, 17, 19, 23, 29, 31, 37, 41, 43, 47, 53, 59, 61];
    TrialDivision(67);
    assert PrimesUpTo(67) == [2, 3, 5, 7, 11, 13, 17, 19, 23, 29, 31, 37, 41, 43, 47, 53, 59, 61, 67];
    TrialDivision(68);
    assert PrimesUpTo(68) == [2, 3, 5, 7, 11, 13, 17, 19, 23, 29, 31, 37, 41, 43, 47, 53, 59, 61, 67];
    TrialDivision(69);
    assert PrimesUpTo(69) == [2, 3, 5, 7, 11, 13, 17, 19, 23, 29, 31, 37, 41, 43, 47, 53, 59, 61, 67];
    TrialDivision(70);
    assert PrimesUpTo(70) == [2, 3, 5, 7, 11, 13, 17, 19, 23, 29, 31, 37, 41, 43, 47, 53, 59, 61, 67];
  }

  lemma PrimesUpTo80()
    ensures PrimesUpTo(80) == [2, 3, 5, 7, 11, 13, 17, 19, 23, 29, 31, 37, 41, 43, 47, 53, 59, 61, 67, 71, 73, 79]
  {
    PrimesUpTo70();
    TrialDivision(71);
    assert PrimesUpTo(71) == [2, 3, 5, 7, 11, 13, 17, 19, 23, 29, 31, 37, 41, 43, 47, 53, 59, 61, 67, 71];
    TrialDivision(72);
    assert PrimesUpTo(72) == [2, 3, 5, 7, 11, 13, 17, 19, 23, 29, 31, 37, 41, 43, 47, 53, 59, 61, 67, 71];
    TrialDivision(73);
    assert PrimesUpTo(73) == [2, 3, 5, 7, 11, 13, 17, 19, 23, 29, 31, 37, 41, 43, 47, 53, 59, 61, 67, 71, 73];
    TrialDivision(74);
    assert PrimesUpTo(74) == [2, 3, 5, 7, 11, 13, 17, 19, 23, 29, 31, 37, 41, 43, 47, 53, 59, 61, 67, 71, 73];
    TrialDivision(75);
    assert PrimesUpTo(75) == [2, 3, 5, 7, 11, 13, 17, 19, 23, 29, 31, 37, 41, 43, 47, 53, 59, 61, 67, 71, 73];
    TrialDivision(76);
    assert PrimesUpTo(76) == [2, 3, 5, 7, 11, 13, 17, 19, 23, 29, 31, 37, 41, 43, 47, 53, 59, 61, 67, 71, 73];
    TrialDivision(77);
    assert PrimesUpTo(77) == [2, 3, 5, 7, 11, 13, 17, 19, 23, 29, 31, 37, 41, 43, 47, 53, 59, 61, 67, 71, 73];
    TrialDivision(78);
    assert PrimesUpTo(78) == [2, 3, 5, 7, 11, 13, 17, 19, 23, 29, 31, 37, 41, 43, 47, 53, 59, 61, 67, 71, 73];
    TrialDivision(79);
    assert PrimesUpTo(79) == [2, 3, 5, 7, 11, 13, 17, 19, 23, 29, 31, 37, 41, 43, 47, 53, 59, 61, 67, 71, 73, 79];
    TrialDivision(80);
    assert PrimesUpTo(80) == [2, 3, 5, 7, 11, 13, 17, 19, 23, 29, 31, 37, 41, 43, 47, 53, 59, 61, 67, 71, 73, 79];
  }

  lemma PrimesUpTo90()
    ensures PrimesUpTo(90) == [2, 3, 5, 7, 11, 13, 17, 19, 23, 29, 31, 37, 41, 43, 47, 53, 59, 61, 67, 71, 73, 79, 83, 89]
  {
    PrimesUpTo80();
    TrialDivision(81);
    assert PrimesUpTo(81) == [2, 3, 5, 7, 11, 13, 17, 19, 23, 29, 31, 37, 41, 43, 47, 53, 59, 61, 67, 71, 73, 79];
    TrialDivision(82);
    assert PrimesUpTo(82) == [2, 3, 5, 7, 11, 13, 17, 19, 23, 29, 31, 37, 41, 43, 47, 53, 59, 61, 67, 71, 73, 79];
    TrialDivision(83);
    assert PrimesUpTo(83) == [2, 3, 5, 7, 11, 13, 17, 19, 23, 29, 31, 37, 41, 43, 47, 53, 59, 61, 67, 71, 73, 79, 83];
    TrialDivision(84);
    assert PrimesUpTo(84) == [2, 3, 5, 7, 11, 13, 17, 19, 23, 29, 31, 37, 41, 43, 47, 53, 59, 61, 67, 71, 73, 79, 83];
    TrialDivision(85);
    assert PrimesUpTo(85) == [2, 3, 5, 7, 11, 13, 17, 19, 23, 29, 31, 37, 41, 43, 47, 53, 59, 61, 67, 71, 73, 79, 83];
    TrialDivision(86);
    assert PrimesUpTo(86) == [2, 3, 5, 7, 11, 13, 17, 19, 23, 29, 31, 37, 41, 43, 47, 53, 59, 61, 67, 71, 73, 79, 83];
    TrialDivision(87);
    assert PrimesUpTo(87) == [2, 3, 5, 7, 11, 13, 17, 19, 23, 29, 31, 37, 41, 43, 47, 53, 59, 61, 67, 71, 73, 79, 83];
    TrialDivision(88);
    assert PrimesUpTo(88) == [2, 3, 5, 7, 11, 13, 17, 19, 23, 29, 31, 37, 41, 43, 47, 53, 59, 61, 67, 71, 73, 79, 83];
    TrialDivision(89);
    assert PrimesUpTo(89) == [2, 3, 5, 7, 11, 13, 17, 19, 23, 29, 31, 37, 41, 43, 47, 53, 59, 61, 67, 71, 73, 79, 83, 89];
    TrialDivision(90);
    assert PrimesUpTo(90) == [2, 3, 5, 7, 11, 13, 17, 19, 23, 29, 31, 37, 41, 43, 47, 53, 59, 61, 67, 71, 73, 79, 83, 89];
  }

  lemma PrimesUpTo100()
    ensures PrimesUpTo(100) == [2, 3, 5, 7, 11, 13, 17, 19, 23, 29, 31, 37, 41, 43, 47, 53, 59, 61, 67, 71, 73, 79, 83, 89, 97]
  {
    PrimesUpTo90();
    TrialDivision(91);
    assert PrimesUpTo(91) == [2, 3, 5, 7, 11, 13, 17, 19, 23, 29, 31, 37, 41, 43, 47, 53, 59, 61, 67, 71, 73, 79, 83, 89];
    TrialDivision(92);
    assert PrimesUpTo(92) == [2, 3, 5, 7, 11, 13, 17, 19, 23, 29, 31, 37, 41, 43, 47, 53, 59, 61, 67, 71, 73, 79, 83, 89];
    TrialDivision(93);
    assert PrimesUpTo(93) == [2, 3, 5, 7, 11, 13, 17, 19, 23, 29, 31, 37, 41, 43, 47, 53, 59, 61, 67, 71, 73, 79, 83, 89];
    TrialDivision(94);
    assert PrimesUpTo(94) == [2, 3, 5, 7, 11, 13, 17, 19, 23, 29, 31, 37, 41, 43, 47, 53, 59, 61, 67, 71, 73, 79, 83, 89];
    TrialDivision(95);
    assert PrimesUpTo(95) == [2, 3, 5, 7, 11, 13, 17, 19, 23, 29, 31, 37, 41, 43, 47, 53, 59, 61, 67, 71, 73, 79, 83, 89];
    TrialDivision(96);
    assert PrimesUpTo(96) == [2, 3, 5, 7, 11, 13, 17, 19, 23, 29, 31, 37, 41, 43, 47, 53, 59, 61, 67, 71, 73, 79, 83, 89];
    TrialDivision(97);
    assert PrimesUpTo(97) == [2, 3, 5, 7, 11, 13, 17, 19, 23, 29, 31, 37, 41, 43, 47, 53, 59, 61, 67, 71, 73, 79, 83, 89, 97];
    TrialDivision(98);
    assert PrimesUpTo(98) == [2, 3, 5, 7, 11, 13, 17, 19, 23, 29, 31, 37, 41, 43, 47, 53, 59, 61, 67, 71, 73, 79, 83, 89, 97];
    TrialDivision(99);
    assert PrimesUpTo(99) == [2, 3, 5, 7, 11, 13, 17, 19, 23, 29, 31, 37, 41, 43, 47, 53, 59, 61, 67, 71, 73, 79, 83, 89, 97];
    TrialDivision(100);
    assert PrimesUpTo(100) == [2, 3, 5, 7, 11, 13, 17, 19, 23, 29, 31, 37, 41, 43, 47, 53, 59, 61, 67, 71, 73, 79, 83, 89, 97];
  }

  /** The search up to 20 does not panic: 5 is a prime above its square root 4. */
  lemma SearchSucceeds20()
    ensures SearchSucceeds(20)
  {
    assert FloorSqrt(20) == 4;
    TrialDivision(5);
    assert 2 < 5 <= 20 && FloorSqrt(20) < 5 && IsPrime(5);
  }

  /** The search up to 100 does not panic: 11 is a prime above its square root 10. */
  lemma SearchSucceeds100()
    ensures SearchSucceeds(100)
  {
    assert FloorSqrt(100) == 10;
    TrialDivision(11);
    assert 2 < 11 <= 100 && FloorSqrt(100) < 11 && IsPrime(11);
  }

  /** The doc example of `prime_serch` (20) and `test_prime_serch` (100). */
  method PrimeSearchExample() returns (upTo20: Option<seq<nat>>, upTo100: Option<seq<nat>>)
    ensures upTo20 == Some([2, 3, 5, 7, 11, 13, 17, 19])
    ensures upTo100 == Some([2, 3, 5, 7, 11, 13, 17, 19, 23, 29, 31, 37, 41, 43, 47, 53, 59, 61, 67, 71, 73, 79, 83, 89, 97])
  {
    SearchSucceeds20();
    PrimesUpTo20();
    upTo20 := PrimeSearch(20);
    SearchSucceeds100();
    PrimesUpTo100();
    upTo100 := PrimeSearch(100);
  }

  /** Up to 2 the first strike leaves no non-zero slot and the `unwrap` panics;
      up to 3 the search stops at 3 and returns [2, 3]. */
  method SmallSearchExample() returns (upTo2: Option<seq<nat>>, upTo3: Option<seq<nat>>)
    ensures upTo2 == None
    ensures upTo3 == Some([2, 3])
  {
    upTo2 := PrimeSearch(2);
    assert FloorSqrt(3) == 1;
    TrialDivision(3);
    assert 2 < 3 <= 3 && FloorSqrt(3) < 3 && IsPrime(3);
    PrimesUpTo10();
    assert PrimesUpTo(3) == [2, 3];
    upTo3 := PrimeSearch(3);
  }
}
