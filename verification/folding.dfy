// Cycles of characters, walked one step at a time, and the least character of each.
module Folding {
  function Iterate(next: char -> char, c: char, n: nat): char
    decreases n
  {
    if n == 0 then c else Iterate(next, next(c), n - 1)
  }

  ghost predicate Returns(next: char -> char, c: char, n: nat) {
    n > 0 && Iterate(next, c, n) == c
  }

  ghost predicate Cyclic(next: char -> char, c: char) {
    exists n: nat :: Returns(next, c, n)
  }

  ghost predicate FiniteCycles(next: char -> char) {
    forall c :: Cyclic(next, c)
  }

  ghost predicate SameCycle(next: char -> char, c: char, d: char) {
    exists n: nat :: Iterate(next, c, n) == d
  }

  ghost predicate IsLeastOfCycle(next: char -> char, c: char, least: char) {
    SameCycle(next, c, least) && forall d :: SameCycle(next, c, d) ==> least <= d
  }

  // A folding exists: every character a cycle of its own.
  function Itself(): (next: char -> char)
    ensures FiniteCycles(next)
  {
    var next := (c: char) => c;
    assert FiniteCycles(next) by {
      forall c ensures Cyclic(next, c) {
        assert Iterate(next, next(c), 0) == c;
        assert Returns(next, c, 1);
      }
    }
    next
  }

  lemma {:induction false} IterateAdd(next: char -> char, c: char, m: nat, n: nat)
    ensures Iterate(next, c, m + n) == Iterate(next, Iterate(next, c, m), n)
    decreases m
  {
    if m > 0 {
      IterateAdd(next, next(c), m - 1, n);
    }
  }

  lemma {:induction false} ReturnsAgain(next: char -> char, c: char, n: nat, times: nat)
    requires Returns(next, c, n)
    ensures Iterate(next, c, times * n) == c
    decreases times
  {
    if times > 0 {
      ReturnsAgain(next, c, n, times - 1);
      IterateAdd(next, c, n, (times - 1) * n);
    }
  }

  lemma SameCycleSymmetric(next: char -> char, c: char, d: char)
    requires FiniteCycles(next) && SameCycle(next, c, d)
    ensures SameCycle(next, d, c)
  {
    assert Cyclic(next, c);
    var n: nat :| Returns(next, c, n);
    var m: nat :| Iterate(next, c, m) == d;
    ReturnsAgain(next, c, n, m);
    var rest := m * (n - 1);
    assert m * n == m + rest;
    IterateAdd(next, c, m, rest);
    assert Iterate(next, d, rest) == c;
  }

  lemma SameCycleTransitive(next: char -> char, c: char, d: char, e: char)
    requires SameCycle(next, c, d) && SameCycle(next, d, e)
    ensures SameCycle(next, c, e)
  {
    var m: nat :| Iterate(next, c, m) == d;
    var n: nat :| Iterate(next, d, n) == e;
    IterateAdd(next, c, m, n);
  }

  // ---- One round of a cycle ----

  // The first return to a character.
  ghost predicate IsRound(next: char -> char, c: char, n: nat) {
    Returns(next, c, n) && forall m: nat :: m < n ==> !Returns(next, c, m)
  }

  ghost function FirstReturn(next: char -> char, c: char, n: nat): (round: nat)
    requires Returns(next, c, n)
    ensures IsRound(next, c, round)
    decreases n
  {
    if m: nat :| m < n && Returns(next, c, m) then FirstReturn(next, c, m) else n
  }

  ghost function Round(next: char -> char, c: char): (round: nat)
    requires FiniteCycles(next)
    ensures IsRound(next, c, round)
  {
    assert Cyclic(next, c);
    var n: nat :| Returns(next, c, n);
    FirstReturn(next, c, n)
  }

  // Whatever is reached is reached within one round.
  lemma {:induction false} WithinRound(next: char -> char, c: char, round: nat, n: nat) returns (k: nat)
    requires Returns(next, c, round)
    ensures k < round && Iterate(next, c, k) == Iterate(next, c, n)
    decreases n
  {
    if n < round {
      k := n;
    } else {
      IterateAdd(next, c, round, n - round);
      k := WithinRound(next, c, round, n - round);
    }
  }

  // Some steps short of the first character of a round.
  ghost predicate Before(next: char -> char, first: char, at: char, steps: nat) {
    Iterate(next, at, steps) == first && forall k: nat :: k < steps ==> Iterate(next, at, k) != first
  }

  lemma BeforeNext(next: char -> char, first: char, at: char, steps: nat)
    requires Before(next, first, at, steps) && at != first
    ensures steps > 0 && Before(next, first, next(at), steps - 1)
  {
    forall k: nat | k < steps - 1 ensures Iterate(next, next(at), k) != first {
      assert Iterate(next, at, k + 1) == Iterate(next, next(at), k);
    }
  }

  lemma RoundBefore(next: char -> char, c: char, round: nat)
    requires IsRound(next, c, round)
    ensures Before(next, c, next(c), round - 1)
  {
    forall k: nat | k < round - 1 ensures Iterate(next, next(c), k) != c {
      assert !Returns(next, c, k + 1);
    }
  }

  ghost predicate Visits(next: char -> char, at: char, steps: nat, d: char) {
    exists k: nat :: k < steps && Iterate(next, at, k) == d
  }

  lemma VisitsNext(next: char -> char, at: char, steps: nat, d: char)
    ensures steps == 0 ==> !Visits(next, at, steps, d)
    ensures steps > 0 ==> (Visits(next, at, steps, d) <==> at == d || Visits(next, next(at), steps - 1, d))
  {
    if steps > 0 {
      assert Iterate(next, at, 0) == at;
      if Visits(next, at, steps, d) && at != d {
        var k: nat :| k < steps && Iterate(next, at, k) == d;
        assert Iterate(next, next(at), k - 1) == d;
      }
      if k: nat :| k < steps - 1 && Iterate(next, next(at), k) == d {
        assert Iterate(next, at, k + 1) == d;
      }
    }
  }

  // A cycle is its first character and what one round visits.
  lemma RoundVisits(next: char -> char, c: char, round: nat, d: char)
    requires IsRound(next, c, round)
    ensures SameCycle(next, c, d) <==> c == d || Visits(next, next(c), round - 1, d)
  {
    VisitsNext(next, c, round, d);
    if SameCycle(next, c, d) {
      var n: nat :| Iterate(next, c, n) == d;
      var k := WithinRound(next, c, round, n);
      assert Visits(next, c, round, d);
    }
  }

  lemma AtFirst(next: char -> char, first: char, at: char, steps: nat)
    requires Before(next, first, at, steps)
    ensures at == first <==> steps == 0
  {
    assert Iterate(next, at, 0) == at;
  }

  // The least of the characters left in the round and of the one given.
  function LeastLeft(next: char -> char, first: char, at: char, least: char, ghost steps: nat): (r: char)
    requires Before(next, first, at, steps)
    ensures r <= least && forall d :: Visits(next, at, steps, d) ==> r <= d
    ensures r == least || Visits(next, at, steps, r)
    decreases steps
  {
    AtFirst(next, first, at, steps);
    if at == first then
      assert forall d :: !Visits(next, at, steps, d);
      least
    else
      BeforeNext(next, first, at, steps);
      var r := LeastLeft(next, first, next(at), if at < least then at else least, steps - 1);
      assert forall d :: Visits(next, at, steps, d) <==> at == d || Visits(next, next(at), steps - 1, d) by {
        forall d ensures Visits(next, at, steps, d) <==> at == d || Visits(next, next(at), steps - 1, d) {
          VisitsNext(next, at, steps, d);
        }
      }
      r
  }

  // The least character of the cycle.
  function Least(next: char -> char, c: char): (least: char)
    requires FiniteCycles(next)
    ensures IsLeastOfCycle(next, c, least)
  {
    ghost var round := Round(next, c);
    RoundBefore(next, c, round);
    assert forall d :: SameCycle(next, c, d) <==> c == d || Visits(next, next(c), round - 1, d) by {
      forall d ensures SameCycle(next, c, d) <==> c == d || Visits(next, next(c), round - 1, d) {
        RoundVisits(next, c, round, d);
      }
    }
    LeastLeft(next, c, next(c), c, round - 1)
  }

  // Whether one character is met on the way back to the first.
  predicate Meets(next: char -> char, first: char, at: char, d: char, ghost steps: nat)
    requires Before(next, first, at, steps)
    ensures Meets(next, first, at, d, steps) <==> Visits(next, at, steps, d)
    decreases steps
  {
    AtFirst(next, first, at, steps);
    VisitsNext(next, at, steps, d);
    if at == first then false
    else
      BeforeNext(next, first, at, steps);
      at == d || Meets(next, first, next(at), d, steps - 1)
  }

  predicate InCycle(next: char -> char, c: char, d: char)
    requires FiniteCycles(next)
    ensures InCycle(next, c, d) <==> SameCycle(next, c, d)
  {
    ghost var round := Round(next, c);
    RoundBefore(next, c, round);
    RoundVisits(next, c, round, d);
    c == d || Meets(next, c, next(c), d, round - 1)
  }

  // Two characters have the same least one exactly when they share a cycle.
  lemma SameLeast(next: char -> char, c: char, d: char)
    requires FiniteCycles(next)
    ensures SameCycle(next, c, d) <==> Least(next, c) == Least(next, d)
  {
    if SameCycle(next, c, d) {
      SameCycleSymmetric(next, c, d);
      SameCycleTransitive(next, c, d, Least(next, d));
      SameCycleTransitive(next, d, c, Least(next, c));
    }
    if Least(next, c) == Least(next, d) {
      SameCycleSymmetric(next, d, Least(next, d));
      SameCycleTransitive(next, c, Least(next, c), d);
    }
  }
}
