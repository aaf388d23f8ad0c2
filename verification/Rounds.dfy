/** Going round a number of places: how often each of them comes up. */
module Rounds {
  import opened Ring

  /** The place number `k` comes to is its remainder. */
  lemma {:induction false} PlaceIsMod(k: nat, n: nat)
    requires 0 < n
    ensures Place(k, n) == k % n
  {
    if k != 0 {
      PlaceIsMod(k - 1, n);
      NextMod(k - 1, n);
    }
  }

  lemma NextMod(k: nat, n: nat)
    requires 0 < n
    ensures (k + 1) % n == if k % n + 1 == n then 0 else k % n + 1
  {
    var q, r := k / n, k % n;
    assert k == q * n + r;
    if r + 1 == n {
      assert k + 1 == (q + 1) * n;
      Unique(k + 1, q + 1, 0, n);
    } else {
      Unique(k + 1, q, r + 1, n);
    }
  }

  lemma Unique(k: nat, q: nat, r: nat, n: nat)
    requires r < n && k == q * n + r
    ensures k % n == r
  {
    AtLeastOne(q - k / n, n);
    AtLeastOne(k / n - q, n);
  }

  lemma AtLeastOne(d: int, n: nat)
    ensures 0 < d ==> n <= d * n
  {
  }

  /** How often `m` visits that begin at `s` and go round come to place `k`. */
  function Visits(s: nat, m: nat, k: nat, n: nat): (v: nat)
    requires 0 < n
    ensures v <= m
  {
    if m == 0 then 0 else Visits(s, m - 1, k, n) + if (s + m - 1) % n == k then 1 else 0
  }

  lemma {:induction false} VisitsAdd(s: nat, m: nat, m': nat, k: nat, n: nat)
    requires 0 < n
    ensures Visits(s, m + m', k, n) == Visits(s, m, k, n) + Visits(s + m, m', k, n)
  {
    if 0 < m' {
      VisitsAdd(s, m, m' - 1, k, n);
    }
  }

  /** Before a round is over no place has come up twice. */
  lemma {:induction false} FewVisits(s: nat, m: nat, k: nat, n: nat)
    requires m <= n && k < n
    ensures Visits(s, m, k, n) == if exists x :: s <= x < s + m && x % n == k then 1 else 0
    decreases m
  {
    if 0 < m {
      FewVisits(s, m - 1, k, n);
      var last := s + m - 1;
      if last % n == k {
        forall x | s <= x < s + m - 1
          ensures x % n != k
        {
          RemaindersApart(x, last, n);
        }
      } else if x :| s <= x < s + m && x % n == k {
        assert x < s + m - 1;
      }
    }
  }

  lemma RemaindersApart(x: nat, y: nat, n: nat)
    requires x < y < x + n
    ensures x % n != y % n
  {
    PlaceIsMod(x, n);
    PlaceIsMod(y, n);
    PlacesApart(x, y, n);
  }

  /** Place `k` comes up before a round is over. */
  lemma ComesUp(s: nat, k: nat, n: nat) returns (x: nat)
    requires k < n
    ensures s <= x < s + n && x % n == k
  {
    var q, r := s / n, s % n;
    x := if r <= k then s + (k - r) else s + n - (r - k);
    Unique(x, if r <= k then q else q + 1, k, n);
  }

  lemma WholeRound(s: nat, k: nat, n: nat)
    requires k < n
    ensures Visits(s, n, k, n) == 1
  {
    FewVisits(s, n, k, n);
    var x := ComesUp(s, k, n);
  }

  /** Any two places come up equally often, up to one. */
  lemma {:induction false} VisitsEven(s: nat, m: nat, k: nat, k': nat, n: nat)
    requires k < n && k' < n
    ensures Visits(s, m, k, n) <= Visits(s, m, k', n) + 1
    decreases m
  {
    if m <= n {
      FewVisits(s, m, k, n);
    } else {
      VisitsAdd(s, n, m - n, k, n);
      VisitsAdd(s, n, m - n, k', n);
      WholeRound(s, k, n);
      WholeRound(s, k', n);
      VisitsEven(s + n, m - n, k, k', n);
    }
  }

  lemma Small(k: nat, n: nat)
    requires k < n
    ensures k % n == k
  {
  }

  lemma {:induction false} ModAdd(k: nat, j: nat, n: nat)
    requires 0 < n
    ensures (k % n + j) % n == (k + j) % n
  {
    if j == 0 {
      Small(k % n, n);
    } else {
      ModAdd(k, j - 1, n);
      NextMod(k % n + j - 1, n);
      NextMod(k + j - 1, n);
    }
  }

  /** Where the visits begin counts only up to whole rounds. */
  lemma {:induction false} VisitsMod(s: nat, m: nat, k: nat, n: nat)
    requires 0 < n
    ensures Visits(s % n, m, k, n) == Visits(s, m, k, n)
  {
    if 0 < m {
      VisitsMod(s, m - 1, k, n);
      ModAdd(s, m - 1, n);
    }
  }

  lemma FirstVisit(s: nat, m: nat, k: nat, n: nat)
    requires s < n
    ensures Visits(s, m + 1, k, n) == Visits(s + 1, m, k, n) + if s == k then 1 else 0
  {
    Small(s, n);
    VisitsAdd(s, 1, m, k, n);
    assert Visits(s, 1, k, n) == Visits(s, 0, k, n) + if s == k then 1 else 0;
  }
}
