/** The login challenge (login5/hashcash.go).

  `CheckHashcash` walks a hash from its last byte, `IncrementHashcash` carries in place, and
  `SolveHashcash` tries one 16-byte suffix after the other.  Their meaning is stated about the
  numbers the bytes denote.  The hash function is a parameter.
 */
module Hashcash {
  import opened Positional

  // ----- Checking a hash -----

  function CountZeros(b: nat, room: nat): (z: nat)
    ensures z <= room
  {
    if room == 0 || b % 2 == 1 then 0 else 1 + CountZeros(b / 2, room - 1)
  }

  /** `bits.TrailingZeros8`. */
  function TrailingZeros(b: Byte): nat { CountZeros(b, 8) }

  lemma {:induction false} CountsFactors(b: nat, room: nat, k: nat)
    requires k <= room
    ensures Remainder(b, Pow(2, k)) == 0 <==> CountZeros(b, room) >= k
    decreases k
  {
    if k > 0 {
      var p := Pow(2, k - 1);
      SplitRemainder(2, p, b / 2, b % 2);
      assert b == (b / 2) * 2 + b % 2;
      CountsFactors(b / 2, room - 1, k - 1);
    }
  }

  /** The check with the bytes taken off the end one at a time. */
  predicate Check(hash: Bytes, length: int) {
    if hash == [] then false
    else
      var zeros := TrailingZeros(hash[|hash| - 1]);
      zeros >= length || (zeros == 8 && Check(hash[..|hash| - 1], length - 8))
  }

  method CheckHashcash(hash: Bytes, length: int) returns (ok: bool)
    ensures ok == Check(hash, length)
  {
    var left := length;
    var idx := |hash| - 1;
    assert hash[..|hash|] == hash;
    while idx >= 0
      invariant -1 <= idx < |hash|
      invariant Check(hash, length) == Check(hash[..idx + 1], left)
    {
      assert hash[..idx + 1][..idx] == hash[..idx];
      var zeros := TrailingZeros(hash[idx]);
      if zeros >= left {
        return true;
      } else if zeros < 8 {
        return false;
      }
      left := left - 8;
      idx := idx - 1;
    }
    return false;
  }

  /** The hash, read as a big-endian number, ends in at least `length` zero bits. */
  predicate EndsInZeros(hash: Bytes, length: int) {
    length <= 0 || (length <= 8 * |hash| && Divisible(hash, Pow(2, length)))
  }

  predicate Divisible(hash: Bytes, m: nat)
    requires 0 < m
  {
    ValueBounds(256, hash);
    Remainder(Value(256, hash), m) == 0
  }

  lemma LowDigit(v: nat, b: nat, k: nat)
    requires k <= 8
    ensures Remainder(v * 256 + b, Pow(2, k)) == Remainder(b, Pow(2, k))
  {
    var m, c := Pow(2, k), Pow(2, 8 - k);
    PowAdd(2, 8 - k, k);
    EightBits();
    Associate(v, c, m);
    MultipleVanishes(v * c, m, b);
  }

  lemma EightBits()
    ensures Pow(2, 8) == 256
  {
  }

  lemma PowEight(n: nat)
    ensures Pow(2, n + 8) == 256 * Pow(2, n)
  {
    PowAdd(2, 8, n);
    EightBits();
  }

  /** The walk accepts exactly the non-empty hashes that end in `length` zero bits. */
  lemma {:induction false} CheckMeaning(hash: Bytes, length: int)
    ensures Check(hash, length) <==> hash != [] && EndsInZeros(hash, length)
    decreases |hash|
  {
    if hash != [] && length > 0 {
      var front, last := hash[..|hash| - 1], hash[|hash| - 1];
      ValueBounds(256, front);
      var v := Value(256, front);
      if length <= 8 {
        LowDigit(v, last, length);
        CountsFactors(last, 8, length);
      } else {
        CheckMeaning(front, length - 8);
        PowEight(length - 8);
        SplitRemainder(256, Pow(2, length - 8), v, last);
        EightBits();
        CountsFactors(last, 8, 8);
      }
    }
  }

  // ----- Counting -----

  /** The bytes one step later, wrapping around. */
  function Successor(bs: Bytes): (r: Bytes)
    ensures |r| == |bs|
  {
    ValueBounds(256, bs);
    Numeral(256, Value(256, bs) + 1, |bs|)
  }

  lemma SuccessorLast(bs: Bytes)
    requires bs != [] && bs[|bs| - 1] != 255
    ensures Successor(bs) == bs[..|bs| - 1] + [bs[|bs| - 1] + 1]
  {
    var front, last := bs[..|bs| - 1], bs[|bs| - 1];
    ValueBounds(256, front);
    NumeralOfValue(256, front);
    DivideDigit(256, Value(256, front), last + 1);
  }

  lemma SuccessorCarry(bs: Bytes)
    requires bs != [] && bs[|bs| - 1] == 255
    ensures Successor(bs) == Successor(bs[..|bs| - 1]) + [0]
  {
    var front := bs[..|bs| - 1];
    ValueBounds(256, front);
    DivideDigit(256, Value(256, front) + 1, 0);
  }

  /** Adds one to `data[lo..lo + idx + 1]`; `lo` is where the original's slice starts. */
  method IncrementHashcash(data: array<Byte>, lo: nat, idx: nat)
    requires lo + idx < data.Length
    modifies data
    ensures data[lo..lo + idx + 1] == Successor(old(data[lo..lo + idx + 1]))
    ensures data[..lo] == old(data[..lo]) && data[lo + idx + 1..] == old(data[lo + idx + 1..])
    decreases idx
  {
    ghost var was := data[lo..lo + idx + 1];
    if data[lo + idx] == 255 {
      data[lo + idx] := 0;
      SuccessorCarry(was);
      if idx > 0 {
        assert data[lo..lo + idx] == was[..idx];
        ghost var rest := data[lo + idx..];
        IncrementHashcash(data, lo, idx - 1);
        assert data[lo + idx..] == rest;
        assert data[lo + idx] == rest[0] && data[lo + idx + 1..] == rest[1..];
        assert data[lo..lo + idx + 1] == data[lo..lo + idx] + [0];
      }
    } else {
      data[lo + idx] := data[lo + idx] + 1;
      SuccessorLast(was);
    }
  }

  /** Incrementing adds one modulo 256 to the number of bytes. */
  lemma SuccessorMeaning(bs: Bytes, v: nat, r: nat)
    requires v == Value(256, bs) && r == Value(256, Successor(bs))
    ensures r == Remainder(v + 1, Pow(256, |bs|))
  {
    var next := Numeral(256, v + 1, |bs|);
    assert r == Value(256, next);
    ValueOfNumeral(256, v + 1, |bs|);
  }

  lemma SuccessorOfNumeral(v: nat, n: nat)
    ensures Successor(Numeral(256, v, n)) == Numeral(256, v + 1, n)
  {
    ValueOfNumeral(256, v, n);
    RemainderStep(v, 1, Pow(256, n));
    SameRemainder(256, Remainder(v, Pow(256, n)) + 1, v + 1, n);
  }

  lemma NumeralPeriod(v: nat, n: nat)
    ensures Numeral(256, v + Pow(256, n), n) == Numeral(256, v, n)
  {
    var m := Pow(256, n);
    assert Remainder(v + m, m) == Remainder(v, m);
    SameRemainder(256, v + m, v, n);
  }

  // ----- The search -----

  const CYCLE: nat := 0x1_0000_0000_0000_0000

  /** The suffix tried at step `k`: the seed counted on, then the step itself. */
  function Suffix(seed: nat, k: nat): Bytes {
    Numeral(256, seed + k, 8) + Numeral(256, k, 8)
  }

  /** Bytes 12 to 19 of the digest of the login context, as a number. */
  function Seed(sum: Bytes): nat
    requires |sum| == 20
  {
    ValueBounds(256, sum[12..20]);
    Value(256, sum[12..20])
  }

  type HashFunction = Bytes -> Bytes

  predicate Passes(sha1: HashFunction, prefix: Bytes, seed: nat, length: int, k: nat) {
    Check(sha1(prefix + Suffix(seed, k)), length)
  }

  /** `suffix` holds the two counters of step `k`. */
  ghost predicate AtStep(suffix: array<Byte>, seed: nat, k: nat)
    reads suffix
  {
    suffix.Length == 16 && Counts(suffix, 0, seed + k) && Counts(suffix, 8, k)
  }

  /** The eight bytes from `lo` on are the low bytes of `v`. */
  ghost predicate Counts(data: array<Byte>, lo: nat, v: nat)
    reads data
  {
    lo + 8 <= data.Length && data[lo..lo + 8] == Numeral(256, v, 8)
  }

  lemma {:induction false} NumeralOfZero(n: nat)
    ensures Numeral(256, 0, n) == seq(n, _ => 0)
    decreases n
  {
    if n > 0 {
      NumeralOfZero(n - 1);
      assert seq(n, _ => 0) == seq(n - 1, _ => 0) + [0];
    }
  }

  method FirstSuffix(sum: Bytes) returns (suffix: array<Byte>)
    requires |sum| == 20
    ensures fresh(suffix) && AtStep(suffix, Seed(sum), 0)
  {
    suffix := new Byte[16](i => 0);
    for i := 0 to 8
      invariant forall j :: 0 <= j < 16 ==> suffix[j] == if j < i then sum[12 + j] else 0
    {
      suffix[i] := sum[12 + i];
    }
    NumeralOfValue(256, sum[12..20]);
    NumeralOfZero(8);
    assert suffix[0..8] == sum[12..20] && suffix[8..16] == seq(8, _ => 0);
  }

  method Count(data: array<Byte>, lo: nat, ghost v: nat)
    requires Counts(data, lo, v)
    modifies data
    ensures Counts(data, lo, v + 1)
    ensures data[..lo] == old(data[..lo]) && data[lo + 8..] == old(data[lo + 8..])
  {
    SuccessorOfNumeral(v, 8);
    IncrementHashcash(data, lo, 7);
  }

  method NextSuffix(suffix: array<Byte>, ghost seed: nat, ghost k: nat)
    requires AtStep(suffix, seed, k)
    modifies suffix
    ensures AtStep(suffix, seed, k + 1)
  {
    ghost var half := suffix[8..16];
    assert suffix[8..] == half;
    Count(suffix, 0, seed + k);
    assert suffix[8..16] == suffix[8..] == half;
    half := suffix[0..8];
    assert suffix[..8] == half;
    Count(suffix, 8, k);
    assert suffix[0..8] == suffix[..8] == half;
  }

  method TrySuffix(sha1: HashFunction, prefix: Bytes, length: int, suffix: array<Byte>, ghost seed: nat, ghost k: nat)
      returns (ok: bool)
    requires AtStep(suffix, seed, k)
    ensures suffix[..] == Suffix(seed, k)
    ensures ok == Passes(sha1, prefix, seed, length, k)
  {
    assert suffix[..] == suffix[0..8] + suffix[8..16];
    ok := CheckHashcash(sha1(prefix + suffix[..]), length);
  }

  ghost predicate NonePassesBefore(sha1: HashFunction, prefix: Bytes, seed: nat, length: int, k: nat) {
    forall j: nat :: j < k ==> !Passes(sha1, prefix, seed, length, j)
  }

  lemma NonePassesStep(sha1: HashFunction, prefix: Bytes, seed: nat, length: int, k: nat)
    requires NonePassesBefore(sha1, prefix, seed, length, k) && !Passes(sha1, prefix, seed, length, k)
    ensures NonePassesBefore(sha1, prefix, seed, length, k + 1)
  {
  }

  method Search(sha1: HashFunction, prefix: Bytes, length: int, suffix: array<Byte>,
                ghost seed: nat, ghost last: nat)
      returns (ghost k: nat)
    requires AtStep(suffix, seed, 0) && Passes(sha1, prefix, seed, length, last)
    modifies suffix
    ensures suffix[..] == Suffix(seed, k)
    ensures Passes(sha1, prefix, seed, length, k) && NonePassesBefore(sha1, prefix, seed, length, k)
  {
    k := 0;
    while true
      invariant AtStep(suffix, seed, k)
      invariant NonePassesBefore(sha1, prefix, seed, length, k)
      decreases last - k
    {
      var ok := TrySuffix(sha1, prefix, length, suffix, seed, k);
      if ok {
        return;
      }
      NextSuffix(suffix, seed, k);
      NonePassesStep(sha1, prefix, seed, length, k);
      k := k + 1;
    }
  }

  /** Returns the suffix of the first step that passes.  The original loops for ever when there
    is none, hence the second precondition. */
  method SolveHashcash(sha1: HashFunction, loginContext: Bytes, prefix: Bytes, length: int)
      returns (suffix: array<Byte>, ghost k: nat)
    requires |sha1(loginContext)| == 20
    requires exists j: nat :: Passes(sha1, prefix, Seed(sha1(loginContext)), length, j)
    ensures fresh(suffix) && suffix[..] == Suffix(Seed(sha1(loginContext)), k)
    ensures Passes(sha1, prefix, Seed(sha1(loginContext)), length, k)
    ensures NonePassesBefore(sha1, prefix, Seed(sha1(loginContext)), length, k)
  {
    var sum := sha1(loginContext);
    ghost var seed := Seed(sum);
    ghost var last: nat :| Passes(sha1, prefix, seed, length, last);
    suffix := FirstSuffix(sum);
    k := Search(sha1, prefix, length, suffix, seed, last);
  }

  lemma EightBytes()
    ensures Pow(256, 8) == CYCLE
  {
  }

  /** Within one cycle of 2^64 steps no suffix is tried twice. */
  lemma SuffixesDistinct(seed: nat, j: nat, k: nat)
    requires j < k < CYCLE
    ensures Suffix(seed, j) != Suffix(seed, k)
  {
    EightBytes();
    ValueOfNumeral(256, j, 8);
    ValueOfNumeral(256, k, 8);
    assert Suffix(seed, j)[8..] == Numeral(256, j, 8) != Numeral(256, k, 8) == Suffix(seed, k)[8..];
  }

  /** After a cycle the suffixes repeat. */
  lemma SuffixesRepeat(seed: nat, k: nat)
    ensures Suffix(seed, k + CYCLE) == Suffix(seed, k)
  {
    EightBytes();
    NumeralPeriod(seed + k, 8);
    NumeralPeriod(k, 8);
  }

  /** So the search ends exactly when one of the first 2^64 suffixes passes. */
  lemma {:induction false} SearchEnds(sha1: HashFunction, prefix: Bytes, seed: nat, length: int, k: nat)
      returns (j: nat)
    requires Passes(sha1, prefix, seed, length, k)
    ensures j < CYCLE && j <= k && Passes(sha1, prefix, seed, length, j)
    decreases k
  {
    if k < CYCLE {
      j := k;
    } else {
      SuffixesRepeat(seed, k - CYCLE);
      j := SearchEnds(sha1, prefix, seed, length, k - CYCLE);
    }
  }

  /** The first suffix is eight bytes of the digest, from the 13th on, and eight zeros; each next one
    counts both halves on by one. */
  lemma SuffixMeaning(sum: Bytes, seed: nat, k: nat)
    requires |sum| == 20
    ensures Suffix(Seed(sum), 0) == sum[12..20] + [0, 0, 0, 0, 0, 0, 0, 0]
    ensures Suffix(seed, k + 1) == Successor(Suffix(seed, k)[..8]) + Successor(Suffix(seed, k)[8..])
  {
    NumeralOfValue(256, sum[12..20]);
    NumeralOfZero(8);
    SuccessorOfNumeral(seed + k, 8);
    SuccessorOfNumeral(k, 8);
  }
}
