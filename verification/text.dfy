// Case folding and the order of strings.
module Text {
  import opened Folding

  function LowerChar(c: char): char {
    if 'A' <= c <= 'Z' then c - 'A' + 'a' else c
  }

  function Lower(s: string): string {
    seq(|s|, i requires 0 <= i < |s| => LowerChar(s[i]))
  }

  // ---- Simple case folding ----

  type FoldStep = next: char -> char | FiniteCycles(next) witness Itself()

  // The next character of the same letter: any function whose cycles are finite.
  const SIMPLE_FOLD: FoldStep

  function FoldChar(c: char): char {
    Least(SIMPLE_FOLD, c)
  }

  function Fold(s: string): string {
    seq(|s|, i requires 0 <= i < |s| => FoldChar(s[i]))
  }

  // Strings are equal under folding when their characters share cycles, and then they fold to one string.
  predicate EqualFold(a: string, b: string)
    ensures EqualFold(a, b) <==> Fold(a) == Fold(b)
  {
    FoldsAgree(a, b);
    |a| == |b| && forall i :: 0 <= i < |a| ==> InCycle(SIMPLE_FOLD, a[i], b[i])
  }

  lemma FoldsAgree(a: string, b: string)
    ensures Fold(a) == Fold(b) <==>
            |a| == |b| && forall i :: 0 <= i < |a| ==> SameCycle(SIMPLE_FOLD, a[i], b[i])
  {
    hide Least, SameCycle;
    if |a| == |b| {
      forall i | 0 <= i < |a| ensures SameCycle(SIMPLE_FOLD, a[i], b[i]) <==> Fold(a)[i] == Fold(b)[i] {
        SameLeast(SIMPLE_FOLD, a[i], b[i]);
      }
    } else {
      assert |Fold(a)| != |Fold(b)|;
    }
  }

  // ---- Lexicographic order ----

  predicate Less(a: string, b: string) {
    if b == [] then false
    else if a == [] then true
    else a[0] < b[0] || (a[0] == b[0] && Less(a[1..], b[1..]))
  }

  lemma {:induction false} LessTotal(a: string, b: string)
    ensures Less(a, b) || a == b || Less(b, a)
  {
    if a != [] && b != [] && a[0] == b[0] {
      LessTotal(a[1..], b[1..]);
      assert a == [a[0]] + a[1..] && b == [b[0]] + b[1..];
    }
  }

  lemma {:induction false} LessTransitive(a: string, b: string, c: string)
    requires Less(a, b) && Less(b, c)
    ensures Less(a, c)
  {
    if a != [] && a[0] == b[0] == c[0] {
      LessTransitive(a[1..], b[1..], c[1..]);
    }
  }

  lemma {:induction false} LessIrreflexive(a: string)
    ensures !Less(a, a)
  {
    if a != [] {
      LessIrreflexive(a[1..]);
    }
  }

  ghost predicate IsLeast(s: set<string>, least: string) {
    least in s && forall t :: t in s ==> t == least || Less(least, t)
  }

  lemma {:induction false} LeastExists(s: set<string>)
    requires s != {}
    ensures exists least :: IsLeast(s, least)
  {
    var a :| a in s;
    if s == {a} {
      assert IsLeast(s, a);
    } else {
      LeastExists(s - {a});
      var b :| IsLeast(s - {a}, b);
      LessTotal(a, b);
      if Less(a, b) {
        forall t | t in s ensures t == a || Less(a, t) {
          if t != a && t != b { LessTransitive(a, b, t); }
        }
        assert IsLeast(s, a);
      } else {
        assert IsLeast(s, b);
      }
    }
  }

  lemma LeastUnique(s: set<string>, a: string, b: string)
    requires IsLeast(s, a) && IsLeast(s, b)
    ensures a == b
  {
    if a != b {
      LessTransitive(a, b, a);
      LessIrreflexive(a);
    }
  }
}
