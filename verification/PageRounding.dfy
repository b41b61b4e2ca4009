/** Machine words, bit masks and page-aligned addresses. */
module PageRounding {
  import opened Basics

  /** The number of values of a machine word. */
  const WORD := 0x1_0000_0000_0000_0000

  /** The bits that two numbers have in common. */
  function And(x: nat, y: nat): nat {
    if x == 0 || y == 0 then 0 else 2 * And(x / 2, y / 2) + (x % 2) * (y % 2)
  }

  /** The usual test: clearing the lowest bit leaves nothing. */
  predicate IsPowerOfTwo(x: nat) {
    x != 0 && And(x, x - 1) == 0
  }

  ghost predicate IsPageSize(page: nat) {
    0 < page < WORD && IsPowerOfTwo(page)
  }

  /** Masking with the two's complement of the page size. */
  function RoundDown(x: nat, page: nat): nat
    requires page <= WORD
  {
    And(x, WORD - page)
  }

  /** Rounding up adds before it rounds down, and the sum may wrap around. */
  function RoundUp(x: nat, page: nat): nat
    requires 0 < page <= WORD
  {
    RoundDown((x + page - 1) % WORD, page)
  }

  // ----- division -----

  lemma {:induction false} Gap(p: int, q: int, page: nat)
    requires p > q
    ensures p * page >= q * page + page
    decreases p - q
  {
    assert p * page == (p - 1) * page + page;
    if p - 1 > q {
      Gap(p - 1, q, page);
    }
  }

  /** Quotient and remainder are determined. */
  lemma DivisionUnique(p: int, a: int, q: int, b: int, page: nat)
    requires 0 <= a < page && 0 <= b < page && p * page + a == q * page + b
    ensures p == q && a == b
  {
    if p > q {
      Gap(p, q, page);
    } else if p < q {
      Gap(q, p, page);
    }
  }

  lemma ModUnique(q: int, r: int, page: nat)
    requires 0 <= r < page
    ensures (q * page + r) % page == r
  {
    var x := q * page + r;
    assert x == x / page * page + x % page;
    DivisionUnique(q, r, x / page, x % page, page);
  }

  lemma AddMultiple(x: int, m: int, page: nat)
    requires page > 0 && m % page == 0
    ensures (x + m) % page == x % page
  {
    var q, y, r := m / page, x / page, x % page;
    assert m == q * page && x == y * page + r;
    assert (y + q) * page == y * page + q * page;
    ModUnique(y + q, r, page);
  }

  // ----- bits -----

  lemma {:induction false} AndSelf(x: nat)
    ensures And(x, x) == x
  {
    if x != 0 {
      AndSelf(x / 2);
    }
  }

  lemma {:induction false} AndOnes(x: nat, w: nat)
    requires x < Pow2(w)
    ensures And(x, Pow2(w) - 1) == x
  {
    if x != 0 {
      AndOnes(x / 2, w - 1);
      assert (Pow2(w) - 1) / 2 == Pow2(w - 1) - 1;
    }
  }

  /** The test for powers of two follows their structure. */
  lemma PowerOfTwoHalves(x: nat)
    requires x > 1
    ensures IsPowerOfTwo(x) <==> x % 2 == 0 && IsPowerOfTwo(x / 2)
  {
    if x % 2 == 0 {
      assert (x - 1) / 2 == x / 2 - 1;
    } else {
      AndSelf(x / 2);
    }
  }

  lemma {:induction false} ExponentOf(x: nat) returns (n: nat)
    requires IsPowerOfTwo(x)
    ensures x == Pow2(n)
  {
    n := 0;
    if x > 1 {
      PowerOfTwoHalves(x);
      n := ExponentOf(x / 2);
      n := n + 1;
    }
  }

  lemma {:induction false} Pow2IsPowerOfTwo(n: nat)
    ensures IsPowerOfTwo(Pow2(n))
  {
    if n > 0 {
      Pow2IsPowerOfTwo(n - 1);
      PowerOfTwoHalves(Pow2(n));
    }
  }

  ghost predicate IsSomePower(x: nat) {
    exists n :: x == Pow2(n)
  }

  /** The test accepts exactly the powers of two. */
  lemma PowerOfTwoIff(x: nat)
    ensures IsPowerOfTwo(x) <==> IsSomePower(x)
  {
    if IsPowerOfTwo(x) {
      var n := ExponentOf(x);
    }
    if n :| x == Pow2(n) {
      Pow2IsPowerOfTwo(n);
    }
  }

  lemma {:induction false} PowerOfTwoDivides(n: nat, w: nat)
    requires IsPowerOfTwo(n) && n <= Pow2(w)
    ensures Pow2(w) % n == 0
    decreases n
  {
    if n > 1 {
      PowerOfTwoHalves(n);
      PowerOfTwoDivides(n / 2, w - 1);
      var q := Pow2(w - 1) / (n / 2);
      assert Pow2(w) == q * n;
      ModUnique(q, 0, n);
    }
  }

  lemma ModHalves(x: nat, n: nat)
    requires n > 1 && n % 2 == 0
    ensures x % n == 2 * (x / 2 % (n / 2)) + x % 2
  {
    var m := n / 2;
    var q, r := x / 2 / m, x / 2 % m;
    assert x / 2 == q * m + r;
    assert x == q * n + (2 * r + x % 2);
    ModUnique(q, 2 * r + x % 2, n);
  }

  /** Masking takes off the remainder. */
  lemma {:induction false} AndMask(x: nat, n: nat, w: nat)
    requires IsPowerOfTwo(n) && n <= Pow2(w) && x < Pow2(w)
    ensures And(x, Pow2(w) - n) == x - x % n
    decreases n
  {
    if n == 1 {
      AndOnes(x, w);
    } else {
      PowerOfTwoHalves(n);
      AndMask(x / 2, n / 2, w - 1);
      assert (Pow2(w) - n) / 2 == Pow2(w - 1) - n / 2;
      ModHalves(x, n);
      if x != 0 && Pow2(w) == n {
        assert x / 2 % (n / 2) == x / 2;
      }
    }
  }

  lemma {:induction false} Pow2Double(w: nat)
    ensures Pow2(2 * w) == Pow2(w) * Pow2(w)
  {
    if w > 0 {
      Pow2Double(w - 1);
      assert Pow2(2 * w) == 2 * Pow2(2 * w - 1) == 4 * Pow2(2 * (w - 1));
    }
  }

  /** A word has a whole number of bits, namely 64. */
  lemma WordIsPower() returns (w: nat)
    ensures Pow2(w) == WORD
  {
    hide Pow2;
    Pow2Small();
    Pow2Double(8);
    Pow2Double(16);
    Pow2Double(32);
    w := 64;
  }

  lemma Pow2Small()
    ensures Pow2(8) == 0x100
  {
    assert Pow2(4) == 16;
  }

  // ----- pages -----

  lemma RoundDownIsMod(x: nat, page: nat)
    requires IsPageSize(page) && x < WORD
    ensures RoundDown(x, page) == x - x % page && RoundDown(x, page) % page == 0
    ensures WORD % page == 0
  {
    hide Pow2, And;
    var w := WordIsPower();
    AndMask(x, page, w);
    PowerOfTwoDivides(page, w);
    assert x - x % page == x / page * page;
    ModUnique(x / page, 0, page);
  }

  /** Without wrap-around, rounding up gives the next multiple. */
  lemma RoundUpIsNext(x: nat, page: nat)
    requires IsPageSize(page) && x + page <= WORD
    ensures x <= RoundUp(x, page) < x + page && RoundUp(x, page) % page == 0
  {
    RoundDownIsMod(x + page - 1, page);
  }

  /** A multiple that exceeds another by less than a page does not exceed it. */
  lemma MultiplesApart(a: int, b: int, page: nat)
    requires page > 0 && a % page == 0 && b % page == 0 && a < b + page
    ensures a <= b
  {
    var p, q := a / page, b / page;
    assert a == p * page && b == q * page;
    if p > q {
      Gap(p, q, page);
    } else if p < q {
      Gap(q, p, page);
    }
  }

  lemma RoundUpMonotone(x: nat, y: nat, page: nat)
    requires IsPageSize(page) && x <= y && y + page <= WORD
    ensures RoundUp(x, page) <= RoundUp(y, page)
  {
    RoundUpIsNext(x, page);
    RoundUpIsNext(y, page);
    MultiplesApart(RoundUp(x, page), RoundUp(y, page), page);
  }
}
