/** The 64-bit address space as a program sees it: addresses wrap around at 2^64. Proofs use addresses that go on past
    the end; all of a block lies in one window of 2^64 of them. */
module Space {
  import opened Arith
  import opened Axi
  import opened Memory

  /** The byte at an address. */
  function At(v: Store, x: nat): Byte
    requires v.Valid()
  {
    v.Peek(x % M64)
  }

  /** The view holds `bs` from address a on. */
  ghost predicate Holds(v: Store, a: nat, bs: seq<Byte>)
    requires v.Valid()
  {
    forall k :: 0 <= k < |bs| ==> At(v, a + k) == bs[k]
  }

  /** How far x lies behind lo, going upwards and around. */
  function Behind(x: int, lo: int): nat {
    (x - lo) % M64
  }

  /** The views agree at every address but those of [lo, hi). */
  ghost predicate SameOutside(v: Store, w: Store, lo: nat, hi: nat)
    requires v.Valid() && w.Valid()
  {
    forall x: nat :: hi - lo <= Behind(x, lo) ==> At(v, x) == At(w, x)
  }

  lemma BehindNear(x: int, lo: int)
    ensures lo <= x < lo + M64 ==> Behind(x, lo) == x - lo
    ensures lo - M64 <= x < lo ==> Behind(x, lo) == x - lo + M64
  {
  }

  /** Moving the origin. */
  lemma BehindShift(x: int, lo: int, a: int)
    requires lo <= a <= lo + M64
    ensures Behind(x, a) == if a - lo <= Behind(x, lo) then Behind(x, lo) - (a - lo) else Behind(x, lo) - (a - lo) + M64
  {
    var q, m := (x - lo) / M64, (x - lo) % M64;
    assert x - lo == M64 * q + m;
    BehindNear(m, a - lo);
    assert x - a == M64 * q + (m - (a - lo));
  }

  lemma BehindMod(x: nat, lo: nat)
    ensures Behind(x, lo) ==
            if lo % M64 <= x % M64 then x % M64 - lo % M64 else x % M64 - lo % M64 + M64
  {
    var q, r := x / M64, lo / M64;
    assert x == M64 * q + x % M64 && lo == M64 * r + lo % M64;
    assert x - lo == M64 * (q - r) + (x % M64 - lo % M64);
  }

  lemma AtMod(v: Store, x: nat, k: nat)
    requires v.Valid()
    ensures At(v, x % M64 + k) == At(v, x + k)
  {
    assert x == M64 * (x / M64) + x % M64;
    assert (x % M64 + k) % M64 == (x + k) % M64;
  }

  /** [a, a + n) and [lo, hi) do not meet, also around the end. */
  predicate Apart(a: nat, n: nat, lo: nat, hi: nat) {
    (a + n <= lo <= hi <= a + M64) || (lo <= hi <= a && a + n <= lo + M64)
  }

  lemma KeepHolds(v: Store, w: Store, lo: nat, hi: nat, a: nat, bs: seq<Byte>)
    requires v.Valid() && w.Valid() && SameOutside(w, v, lo, hi) && Holds(v, a, bs) && Apart(a, |bs|, lo, hi)
    ensures Holds(w, a, bs)
  {
    forall k | 0 <= k < |bs| ensures At(w, a + k) == bs[k] {
      BehindNear(a + k, lo);
    }
  }

  /** Two changes within [lo, hi) are one. */
  lemma SameOutsideBoth(v: Store, w: Store, u: Store, lo: nat, a: nat, b: nat, c: nat, d: nat, hi: nat)
    requires v.Valid() && w.Valid() && u.Valid()
    requires lo <= a <= b <= hi <= lo + M64 && lo <= c <= d <= hi
    requires SameOutside(w, v, a, b) && SameOutside(u, w, c, d)
    ensures SameOutside(u, v, lo, hi)
  {
    forall x: nat | hi - lo <= Behind(x, lo) ensures At(u, x) == At(v, x) {
      BehindShift(x, lo, a);
      BehindShift(x, lo, c);
    }
  }

  /** A block grows by the n bytes behind it. */
  lemma GrowHolds(v: Store, w: Store, u: Store, a: nat, k: nat, n: nat, bs: seq<Byte>)
    requires v.Valid() && w.Valid() && u.Valid() && k + n <= |bs| && k + n <= M64
    requires Holds(w, a, bs[..k]) && SameOutside(w, v, a, a + k)
    requires Holds(u, a + k, bs[k..k + n]) && SameOutside(u, w, a + k, a + k + n)
    ensures Holds(u, a, bs[..k + n]) && SameOutside(u, v, a, a + k + n)
  {
    KeepHolds(w, u, a + k, a + k + n, a, bs[..k]);
    var grown := bs[..k + n];
    forall i | 0 <= i < k + n ensures At(u, a + i) == grown[i] {
      if i < k {
        assert At(u, a + i) == bs[..k][i];
      } else {
        assert At(u, a + k + (i - k)) == bs[k..k + n][i - k];
      }
    }
    SameOutsideBoth(v, w, u, a, a, a + k, a + k, a + k + n, a + k + n);
  }

  /** A change of the n bytes at a, which do not wrap, in terms of addresses that may. */
  lemma PokeSeen(v: Store, u: Store, x: nat, bs: seq<Byte>)
    requires v.Valid() && u.Valid() && x % M64 + |bs| <= M64
    requires forall b: nat :: u.Peek(b) == if x % M64 <= b < x % M64 + |bs| then bs[b - x % M64] else v.Peek(b)
    ensures Holds(u, x, bs) && SameOutside(u, v, x, x + |bs|)
  {
    forall k | 0 <= k < |bs| ensures At(u, x + k) == bs[k] {
      BehindMod(x + k, x);
      BehindNear(x + k, x);
      assert (x + k) % M64 == x % M64 + k;
    }
    forall y: nat | |bs| <= Behind(y, x) ensures At(u, y) == At(v, y) {
      BehindMod(y, x);
    }
  }
}
