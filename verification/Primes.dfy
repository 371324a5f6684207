/** Prime numbers, by trial division. */
module Primes {

  ghost predicate Prime(m: nat) { m >= 2 && forall d: nat :: 2 <= d < m ==> m % d != 0 }

  lemma Positive(m: nat, z: int, x: nat)
    requires x > 0 && x == m * z
    ensures z > 0
  {
  }

  lemma NotMultiple(m: nat, b: nat, k: nat)
    requires 0 < b < m
    ensures b != m * k
  {
    if k > 0 { assert m * k >= m; }
  }

  lemma ProductBound(a: nat, b: nat, c: nat, d: nat)
    requires a <= c && b <= d
    ensures a * b <= c * d
  {
  }

  /** No number from 2 to `k` divides `m`. */
  predicate NoDivisor(m: nat, k: nat) { forall d: nat :: 2 <= d <= k ==> m % d != 0 }

  lemma NextSixteen(m: nat, k: nat)
    requires NoDivisor(m, k) && k > 0
    requires m % (k + 1) != 0 && m % (k + 2) != 0 && m % (k + 3) != 0 && m % (k + 4) != 0
    requires m % (k + 5) != 0 && m % (k + 6) != 0 && m % (k + 7) != 0 && m % (k + 8) != 0
    requires m % (k + 9) != 0 && m % (k + 10) != 0 && m % (k + 11) != 0 && m % (k + 12) != 0
    requires m % (k + 13) != 0 && m % (k + 14) != 0 && m % (k + 15) != 0 && m % (k + 16) != 0
    ensures NoDivisor(m, k + 16)
  {
    forall d: nat | 2 <= d <= k + 16 ensures m % d != 0 {
      assert d <= k || d == k + 1 || d == k + 2 || d == k + 3 || d == k + 4 || d == k + 5 || d == k + 6 || d == k + 7
      || d == k + 8
          || d == k + 9 || d == k + 10 || d == k + 11 || d == k + 12 || d == k + 13 || d == k + 14 || d == k + 15
              || d == k + 16;
    }
  }

  /** It is enough to try divisors up to the root. */
  lemma PrimeUpTo(m: nat, k: nat)
    requires m >= 2 && NoDivisor(m, k) && m < (k + 1) * (k + 1)
    ensures Prime(m)
  {
    forall d: nat | 2 <= d < m ensures m % d != 0 {
      if m % d == 0 {
        var e := m / d;
        Cofactor(m, d, e);
        if d > k && e > k { ProductBound(k + 1, k + 1, d, e); }
      }
    }
  }

  lemma Cofactor(m: nat, d: nat, e: nat)
    requires 2 <= d < m && m % d == 0 && e == m / d
    ensures m == d * e && e >= 2 && m % e == 0
  {
    assert m == d * e;
    if e < 2 { ProductBound(d, e, d, 1); }
    ModProduct(d, e);
  }

  lemma ModProduct(d: nat, e: nat)
    requires e > 0
    ensures d * e % e == 0
  {
    var q, r := d * e / e, d * e % e;
    assert d * e == e * q + r && e * (d - q) == r;
    if r > 0 {
      Positive(e, d - q, r);
      NotMultiple(e, r, d - q);
    }
  }

  // ---- the primes below 2^16 among the sizes of the static hash table ---------------------------

  lemma Prime53()
    ensures Prime(53)
  {
    NextSixteen(53, 1);
    PrimeUpTo(53, 17);
  }

  lemma Prime97()
    ensures Prime(97)
  {
    NextSixteen(97, 1);
    PrimeUpTo(97, 17);
  }

  lemma Prime193()
    ensures Prime(193)
  {
    NextSixteen(193, 1);
    PrimeUpTo(193, 17);
  }

  lemma Prime389()
    ensures Prime(389)
  {
    NextSixteen(389, 1); NextSixteen(389, 17);
    PrimeUpTo(389, 33);
  }

  lemma Prime769()
    ensures Prime(769)
  {
    NextSixteen(769, 1); NextSixteen(769, 17);
    PrimeUpTo(769, 33);
  }

  lemma Prime1543()
    ensures Prime(1543)
  {
    NextSixteen(1543, 1); NextSixteen(1543, 17); NextSixteen(1543, 33);
    PrimeUpTo(1543, 49);
  }

  lemma Prime3079()
    ensures Prime(3079)
  {
    NextSixteen(3079, 1); NextSixteen(3079, 17); NextSixteen(3079, 33); NextSixteen(3079, 49);
    PrimeUpTo(3079, 65);
  }

  lemma Tried6151To65()
    requires NoDivisor(6151, 1)
    ensures NoDivisor(6151, 65)
  {
    NextSixteen(6151, 1); NextSixteen(6151, 17); NextSixteen(6151, 33); NextSixteen(6151, 49);
  }

  lemma Tried6151To81()
    requires NoDivisor(6151, 65)
    ensures NoDivisor(6151, 81)
  {
    NextSixteen(6151, 65);
  }

  lemma Prime6151()
    ensures Prime(6151)
  {
    Tried6151To65(); Tried6151To81();
    PrimeUpTo(6151, 81);
  }

  lemma Tried12289To65()
    requires NoDivisor(12289, 1)
    ensures NoDivisor(12289, 65)
  {
    NextSixteen(12289, 1); NextSixteen(12289, 17); NextSixteen(12289, 33); NextSixteen(12289, 49);
  }

  lemma Tried12289To113()
    requires NoDivisor(12289, 65)
    ensures NoDivisor(12289, 113)
  {
    NextSixteen(12289, 65); NextSixteen(12289, 81); NextSixteen(12289, 97);
  }

  lemma Prime12289()
    ensures Prime(12289)
  {
    Tried12289To65(); Tried12289To113();
    PrimeUpTo(12289, 113);
  }

  lemma Tried24593To65()
    requires NoDivisor(24593, 1)
    ensures NoDivisor(24593, 65)
  {
    NextSixteen(24593, 1); NextSixteen(24593, 17); NextSixteen(24593, 33); NextSixteen(24593, 49);
  }

  lemma Tried24593To129()
    requires NoDivisor(24593, 65)
    ensures NoDivisor(24593, 129)
  {
    NextSixteen(24593, 65); NextSixteen(24593, 81); NextSixteen(24593, 97); NextSixteen(24593, 113);
  }

  lemma Tried24593To161()
    requires NoDivisor(24593, 129)
    ensures NoDivisor(24593, 161)
  {
    NextSixteen(24593, 129); NextSixteen(24593, 145);
  }

  lemma Prime24593()
    ensures Prime(24593)
  {
    Tried24593To65(); Tried24593To129(); Tried24593To161();
    PrimeUpTo(24593, 161);
  }

  lemma Tried49157To65()
    requires NoDivisor(49157, 1)
    ensures NoDivisor(49157, 65)
  {
    NextSixteen(49157, 1); NextSixteen(49157, 17); NextSixteen(49157, 33); NextSixteen(49157, 49);
  }

  lemma Tried49157To129()
    requires NoDivisor(49157, 65)
    ensures NoDivisor(49157, 129)
  {
    NextSixteen(49157, 65); NextSixteen(49157, 81); NextSixteen(49157, 97); NextSixteen(49157, 113);
  }

  lemma Tried49157To193()
    requires NoDivisor(49157, 129)
    ensures NoDivisor(49157, 193)
  {
    NextSixteen(49157, 129); NextSixteen(49157, 145); NextSixteen(49157, 161); NextSixteen(49157, 177);
  }

  lemma Tried49157To225()
    requires NoDivisor(49157, 193)
    ensures NoDivisor(49157, 225)
  {
    NextSixteen(49157, 193); NextSixteen(49157, 209);
  }

  lemma Prime49157()
    ensures Prime(49157)
  {
    Tried49157To65(); Tried49157To129(); Tried49157To193(); Tried49157To225();
    PrimeUpTo(49157, 225);
  }
}
