/**
 The queue scan of the device loops: attempt `i` reads a wrapping 64-bit counter
 and looks at queue `counter % n` (src/block.rs:526-529, src/fs.rs:754-757).
 */
module RoundRobin {
  import opened Primitives
  import opened Arithmetic
  import opened DescriptorChains

  /** The queue that attempt `i`, counting from zero, looks at. */
  function Visited(i: nat, n: nat): (q: nat)
    requires n > 0
    ensures q < n
  {
    (i % U64_LIMIT) % n
  }

  /** Some attempt among the `n` from `start` on looks at `q`. */
  ghost predicate Visits(start: nat, n: nat, q: nat)
    requires n > 0
  {
    exists i :: start <= i < start + n && Visited(i, n) == q
  }

  ghost predicate VisitsAll(start: nat, n: nat)
    requires n > 0
  {
    forall q :: 0 <= q < n ==> Visits(start, n, q)
  }

  /** The counter does not wrap inside the window, or wrapping skips nothing. */
  predicate Fair(start: nat, n: nat)
    requires n > 0
  {
    start % U64_LIMIT + n <= U64_LIMIT || U64_LIMIT % n == 0
  }

  lemma Congruent(c: int, n: int, q: int)
    requires 0 < n && 0 <= q < n
    ensures (c + (q - c) % n) % n == q
  {
    var d := (q - c) / n;
    assert q - c == d * n + (q - c) % n;
    assert c + (q - c) % n == (-d) * n + q;
    DivModUnique(c + (q - c) % n, n, -d, q);
  }

  lemma FairVisits(start: nat, n: nat, q: nat)
    requires 0 < n < U64_LIMIT && Fair(start, n) && q < n
    ensures Visits(start, n, q)
  {
    var c := start % U64_LIMIT;
    var step := (q - c) % n;
    var i := start + step;
    Congruent(c, n, q);
    if c + n <= U64_LIMIT {
      assert i == (start / U64_LIMIT) * U64_LIMIT + (c + step);
      DivModUnique(i, U64_LIMIT, start / U64_LIMIT, c + step);
    } else {
      var m := U64_LIMIT / n;
      assert U64_LIMIT == m * n;
      ModOfMod(i, n, U64_LIMIT);
      ModOfMod(start, n, U64_LIMIT);
      var k := start / U64_LIMIT;
      assert i == (k * m) * n + (c + step) by {
        assert k * U64_LIMIT == (k * m) * n;
      }
      ModOfSum(k * m, c + step, n);
    }
    assert Visited(i, n) == q;
  }

  lemma ModOfSum(k: int, x: int, n: int)
    requires 0 < n
    ensures (k * n + x) % n == x % n
  {
    Distribute(k, x / n, n);
    DivModUnique(k * n + x, n, k + x / n, x % n);
  }

  /** The queues looked at by the `n` attempts from `start` on. */
  ghost function Window(start: nat, n: nat): (w: seq<nat>)
    requires n > 0
    ensures |w| == n && forall k :: 0 <= k < n ==> w[k] == Visited(start + k, n)
  {
    seq<nat>(n, k requires 0 <= k < n => Visited(start + k, n))
  }

  lemma DuplicateMisses(w: seq<nat>, i: nat, j: nat)
    requires i < j < |w| && w[i] == w[j] && forall k :: 0 <= k < |w| ==> w[k] < |w|
    ensures exists q: nat :: q < |w| && q !in w
  {
    var rest := w[..j] + w[j + 1..];
    forall x | x in w ensures x in rest {
      var k :| 0 <= k < |w| && w[k] == x;
      assert w[i] == rest[i];
      assert k < j ==> rest[k] == x;
      assert k > j ==> rest[k - 1] == x;
    }
    assert Elements(w) == Elements(rest);
    AtMostLength(rest);
    var all := Below(|w|);
    assert Elements(w) != all;
    assert Elements(w) <= all;
    var q :| q in all && q !in Elements(w);
  }

  lemma {:induction false} AtMostLength(s: seq<nat>)
    ensures |Elements(s)| <= |s|
  {
    if s != [] {
      var front := s[..|s| - 1];
      AtMostLength(front);
      assert s == front + [Last(s)];
      assert Elements(s) == Elements(front) + {Last(s)};
    }
  }

  ghost function Below(n: nat): (all: set<nat>)
    ensures |all| == n && forall q: nat :: q in all <==> q < n
  {
    if n == 0 then {} else Below(n - 1) + {n - 1}
  }

  /** Where the counter wraps at a modulus `n` does not divide, two attempts coincide. */
  lemma UnfairCollides(start: nat, n: nat) returns (a: nat, b: nat)
    requires 0 < n < U64_LIMIT && !Fair(start, n)
    ensures a < b < n && Visited(start + a, n) == Visited(start + b, n)
  {
    var c := start % U64_LIMIT;
    var j := U64_LIMIT - c;      // attempts left before the wrap
    var r := U64_LIMIT % n;
    var base := start / U64_LIMIT;
    assert start == base * U64_LIMIT + c;
    if r >= j {
      // the first attempt and the one at counter r - j
      a, b := 0, j + (r - j);
      Wrapped(start, j, r - j);
      var m := U64_LIMIT / n;
      assert c == m * n + (r - j);
      ModOfSum(m, r - j, n);
    } else {
      // the attempts at counters 2^64 - r and 0
      a, b := j - r, j;
      Wrapped(start, j, 0);
      assert start + a == base * U64_LIMIT + (U64_LIMIT - r);
      DivModUnique(start + a, U64_LIMIT, base, U64_LIMIT - r);
      var m := U64_LIMIT / n;
      assert U64_LIMIT - r == m * n + 0;
      ModOfSum(m, 0, n);
    }
  }

  lemma Wrapped(start: nat, j: nat, k: nat)
    requires j == U64_LIMIT - start % U64_LIMIT && k < U64_LIMIT
    ensures (start + j + k) % U64_LIMIT == k
  {
    var base := start / U64_LIMIT;
    assert start + j + k == (base + 1) * U64_LIMIT + k;
    DivModUnique(start + j + k, U64_LIMIT, base + 1, k);
  }

  /** Any `n` consecutive attempts look at every queue, exactly when the window is fair. */
  lemma WindowVisitsAll(start: nat, n: nat)
    requires 0 < n < U64_LIMIT
    ensures VisitsAll(start, n) <==> Fair(start, n)
  {
    if Fair(start, n) {
      forall q | 0 <= q < n ensures Visits(start, n, q) {
        FairVisits(start, n, q);
      }
    } else {
      var a, b := UnfairCollides(start, n);
      var w := Window(start, n);
      DuplicateMisses(w, a, b);
      var q: nat :| q < n && q !in w;
      assert !Visits(start, n, q) by {
        if i :| start <= i < start + n && Visited(i, n) == q {
          assert w[i - start] == q;
        }
      }
    }
  }

  /** A fair window looks at every queue exactly once. */
  lemma FairVisitsOnce(start: nat, n: nat, i: nat, j: nat)
    requires 0 < n < U64_LIMIT && Fair(start, n) && start <= i < j < start + n
    ensures Visited(i, n) != Visited(j, n)
  {
    var w := Window(start, n);
    forall q: nat | q < n ensures q in w {
      FairVisits(start, n, q);
      var k :| start <= k < start + n && Visited(k, n) == q;
      assert w[k - start] == q;
    }
    if w[i - start] == w[j - start] {
      DuplicateMisses(w, i - start, j - start);
    }
  }
}
