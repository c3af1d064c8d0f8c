/** Lines 52-55: the raw record range of worker i out of w over a database of
    n records. range = n / w; worker i starts at i * range (not i * n / w);
    every worker but the last ends range records later, the last at n. */
module Partition {

  /** k blocks of n / w records fit into n records whenever k <= w. */
  lemma {:induction false} BlocksFit(n: nat, w: nat, k: nat)
    requires 1 <= w && k <= w
    ensures k * (n / w) <= n
    decreases w - k
  {
    if k < w {
      BlocksFit(n, w, k + 1);
      assert k * (n / w) <= (k + 1) * (n / w);
    } else {
      assert w * (n / w) + n % w == n;
    }
  }

  function RawStart(n: nat, w: nat, i: nat): (s: nat)
    requires 1 <= w && i < w
    ensures s <= n
  {
    BlocksFit(n, w, i);
    i * (n / w)
  }

  function RawEnd(n: nat, w: nat, i: nat): (e: nat)
    requires 1 <= w && i < w
    ensures RawStart(n, w, i) <= e <= n
  {
    if i == w - 1 then n
    else
      BlocksFit(n, w, i + 1);
      assert i * (n / w) + n / w == (i + 1) * (n / w);
      RawStart(n, w, i) + n / w
  }

  /** The raw ranges tile [0, n): the first starts at 0, the last ends at n,
      each ends where the next begins; with fewer records than workers every
      range but the last is empty. */
  lemma RangesTile(n: nat, w: nat)
    requires 1 <= w
    ensures RawStart(n, w, 0) == 0 && RawEnd(n, w, w - 1) == n
    ensures forall i :: 0 <= i < w - 1 ==> RawEnd(n, w, i) == RawStart(n, w, i + 1)
    ensures n < w ==> forall i :: 0 <= i < w - 1 ==> RawStart(n, w, i) == RawEnd(n, w, i) == 0
  {
    forall i | 0 <= i < w - 1
      ensures RawEnd(n, w, i) == RawStart(n, w, i + 1)
    {
      assert i * (n / w) + n / w == (i + 1) * (n / w);
    }
  }

  /** Ranges of distinct workers are ordered and disjoint. */
  lemma {:induction false} RangesOrdered(n: nat, w: nat, i: nat, j: nat)
    requires 1 <= w && i < j < w
    ensures RawEnd(n, w, i) <= RawStart(n, w, j)
    decreases j - i
  {
    RangesTile(n, w);
    if i + 1 < j {
      RangesOrdered(n, w, i + 1, j);
    }
  }

  /** The worker whose raw range contains record x, found as the first worker
      whose range ends after x. */
  function OwnerFrom(n: nat, w: nat, x: nat, i: nat): (o: nat)
    requires 1 <= w && x < n && i < w && RawStart(n, w, i) <= x
    ensures i <= o < w && RawStart(n, w, o) <= x < RawEnd(n, w, o)
    decreases w - i
  {
    if x < RawEnd(n, w, i) then i
    else
      RangesTile(n, w);
      OwnerFrom(n, w, x, i + 1)
  }

  function Owner(n: nat, w: nat, x: nat): (o: nat)
    requires 1 <= w && x < n
    ensures o < w && RawStart(n, w, o) <= x < RawEnd(n, w, o)
  {
    RangesTile(n, w);
    OwnerFrom(n, w, x, 0)
  }

  /** Every record below n lies in exactly one raw range: that of its owner. */
  lemma InRangeIffOwner(n: nat, w: nat, x: nat, i: nat)
    requires 1 <= w && x < n && i < w
    ensures RawStart(n, w, i) <= x < RawEnd(n, w, i) <==> i == Owner(n, w, x)
  {
    var o := Owner(n, w, x);
    if i < o {
      RangesOrdered(n, w, i, o);
    } else if o < i {
      RangesOrdered(n, w, o, i);
    }
  }
}
