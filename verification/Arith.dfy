/** Division by a page size or a quota that is only known to be positive. */
module Arith {

  lemma MulMonotone(m: nat, a: int, b: int)
    requires a <= b
    ensures m * a <= m * b
  {
  }

  /** Quotient and remainder are the only way to write a number over `m`. */
  lemma DivUnique(m: nat, q: nat, r: nat, x: nat)
    requires 0 <= r < m && x == m * q + r
    ensures x / m == q && x % m == r
  {
    var q' := x / m;
    assert x == m * q' + x % m;
    assert m * (q + 1) == m * q + m && m * (q' + 1) == m * q' + m;
    if q' < q { MulMonotone(m, q' + 1, q); }
    if q < q' { MulMonotone(m, q + 1, q'); }
  }

  lemma DivShift(m: nat, x: nat, n: nat)
    requires m > 0
    ensures m * n >= 0 && (x + m * n) / m == x / m + n && (x + m * n) % m == x % m
  {
    MulMonotone(m, 0, n);
    assert x == m * (x / m) + x % m;
    assert x + m * n == m * (x / m + n) + x % m;
    DivUnique(m, x / m + n, x % m, x + m * n);
  }

  // ---- page arithmetic by counting pages, which the verifier handles better than products ---------

  /** The bytes of `n` pages: size * n. */
  function Pages(size: nat, n: nat): nat {
    if n == 0 then 0 else Pages(size, n - 1) + size
  }

  /** The index, from 0, of the page an address is on: at / size. */
  function PageIndex(size: nat, at: nat): nat
    requires size > 0
  {
    if at < size then 0 else PageIndex(size, at - size) + 1
  }

  /** How far into its page an address is: at % size. */
  function Offset(size: nat, at: nat): (o: nat)
    requires size > 0
    ensures o < size
  {
    if at < size then at else Offset(size, at - size)
  }

  lemma {:induction false} PagesIsProduct(size: nat, n: nat)
    ensures Pages(size, n) == size * n
  {
    if n > 0 {
      PagesIsProduct(size, n - 1);
      assert size * n == size * (n - 1) + size;
    }
  }

  lemma {:induction false} PagesShift(size: nat, n: nat)
    ensures Pages(size, n + 1) == size + Pages(size, n)
  {
    if n > 0 {
      PagesShift(size, n - 1);
    }
  }

  lemma {:induction false} PagesStep(size: nat, a: nat, b: nat)
    requires a < b
    ensures Pages(size, a) + size <= Pages(size, b)
  {
    if a < b - 1 {
      PagesStep(size, a, b - 1);
    }
  }

  /** An address is its page's start plus its offset. */
  lemma {:induction false} AddressSplit(size: nat, at: nat)
    requires size > 0
    ensures at == Pages(size, PageIndex(size, at)) + Offset(size, at)
  {
    if at >= size {
      AddressSplit(size, at - size);
      PagesShift(size, PageIndex(size, at - size));
    }
  }

  lemma {:induction false} AddressUnique(size: nat, q: nat, r: nat, at: nat)
    requires r < size && at == Pages(size, q) + r
    ensures PageIndex(size, at) == q && Offset(size, at) == r
  {
    if q > 0 {
      PagesShift(size, q - 1);
      AddressUnique(size, q - 1, r, at - size);
    }
  }

  lemma PageIndexIsQuotient(size: nat, at: nat)
    requires size > 0
    ensures PageIndex(size, at) == at / size && Offset(size, at) == at % size
  {
    AddressSplit(size, at);
    PagesIsProduct(size, PageIndex(size, at));
    DivUnique(size, PageIndex(size, at), Offset(size, at), at);
  }

  lemma PageIndexOrder(size: nat, at: nat, to: nat)
    requires size > 0 && at <= to
    ensures PageIndex(size, at) <= PageIndex(size, to)
  {
    AddressSplit(size, at);
    AddressSplit(size, to);
    var p, q := PageIndex(size, at), PageIndex(size, to);
    if q < p {
      PagesStep(size, q, p);
    }
  }

  /** Below `n` pages of bytes means on one of the pages with index below `n`. */
  lemma PageIndexBelow(size: nat, at: nat, n: nat)
    requires size > 0
    ensures at < Pages(size, n) <==> PageIndex(size, at) < n
  {
    AddressSplit(size, at);
    var q := PageIndex(size, at);
    if q < n {
      PagesStep(size, q, n);
    } else if n < q {
      PagesStep(size, n, q);
    }
  }
}
