/** Byte-string order and separators, as Go compares and joins strings. */
module Strings {
  /** Lexicographic order. */
  predicate Less(a: string, b: string) {
    if b == [] then false
    else if a == [] then true
    else if a[0] != b[0] then a[0] < b[0]
    else Less(a[1..], b[1..])
  }

  predicate AtMost(a: string, b: string) {
    a == b || Less(a, b)
  }

  lemma {:induction false} LessIrreflexive(a: string)
    ensures !Less(a, a)
  {
    if a != [] {
      LessIrreflexive(a[1..]);
    }
  }

  lemma {:induction false} LessTransitive(a: string, b: string, c: string)
    requires Less(a, b) && Less(b, c)
    ensures Less(a, c)
  {
    if a != [] && a[0] == b[0] && b[0] == c[0] {
      LessTransitive(a[1..], b[1..], c[1..]);
    }
  }

  lemma {:induction false} LessTotal(a: string, b: string)
    ensures a == b || Less(a, b) || Less(b, a)
  {
    if a != [] && b != [] && a[0] == b[0] {
      LessTotal(a[1..], b[1..]);
      assert a == [a[0]] + a[1..] && b == [b[0]] + b[1..];
    }
  }

  lemma LessAsymmetric(a: string, b: string)
    requires Less(a, b)
    ensures !Less(b, a) && a != b
  {
    LessIrreflexive(a);
    if Less(b, a) {
      LessTransitive(a, b, a);
    }
  }

  /** `a` and `b` first differ at `k`, where `a` ends or has the smaller character. */
  ghost predicate BreaksAt(a: string, b: string, k: nat) {
    && k <= |a| && k < |b| && a[..k] == b[..k]
    && (k == |a| || a[k] < b[k])
  }

  /** One string precedes another exactly if it is a proper prefix of it or smaller where they first differ. */
  lemma {:induction false} LessExactly(a: string, b: string)
    ensures Less(a, b) <==> exists k: nat :: BreaksAt(a, b, k)
  {
    if a == [] {
      assert b != [] ==> BreaksAt(a, b, 0);
    } else if b != [] {
      LessExactly(a[1..], b[1..]);
      if a[0] < b[0] {
        assert BreaksAt(a, b, 0);
      }
      if a[0] == b[0] && Less(a[1..], b[1..]) {
        var k: nat :| BreaksAt(a[1..], b[1..], k);
        BreaksLater(a, b, k);
      }
      if k: nat :| BreaksAt(a, b, k) {
        if k > 0 {
          BreaksEarlier(a, b, k);
        }
      }
    }
  }

  lemma BreaksLater(a: string, b: string, k: nat)
    requires a != [] && b != [] && a[0] == b[0] && BreaksAt(a[1..], b[1..], k)
    ensures BreaksAt(a, b, k + 1)
  {
    assert a[..k + 1] == [a[0]] + a[1..][..k] && b[..k + 1] == [b[0]] + b[1..][..k];
  }

  lemma BreaksEarlier(a: string, b: string, k: nat)
    requires k > 0 && BreaksAt(a, b, k)
    ensures a[0] == b[0] && BreaksAt(a[1..], b[1..], k - 1)
  {
    assert a[..k][0] == b[..k][0];
    assert a[1..][..k - 1] == a[..k][1..] && b[1..][..k - 1] == b[..k][1..];
  }

  /** Joins two fields at a separator. */
  function Join(left: string, sep: char, right: string): string {
    left + [sep] + right
  }

  /** A separator that neither left field contains makes joining injective. */
  lemma JoinInjective(l1: string, r1: string, l2: string, r2: string, sep: char)
    requires sep !in l1 && sep !in l2 && Join(l1, sep, r1) == Join(l2, sep, r2)
    ensures l1 == l2 && r1 == r2
  {
    var j := Join(l1, sep, r1);
    assert j[|l1|] == sep && j[|l2|] == sep;
    assert forall i :: 0 <= i < |l1| ==> j[i] == l1[i];
    assert forall i :: 0 <= i < |l2| ==> j[i] == l2[i];
    assert |l1| == |l2|;
    assert l1 == j[..|l1|] == l2;
    assert r1 == j[|l1| + 1..] == r2;
  }

  /** The same from the right: the separator is missing from both right fields. */
  lemma JoinInjectiveRight(l1: string, r1: string, l2: string, r2: string, sep: char)
    requires sep !in r1 && sep !in r2 && Join(l1, sep, r1) == Join(l2, sep, r2)
    ensures l1 == l2 && r1 == r2
  {
    var j := Join(l1, sep, r1);
    assert |l1| + |r1| == |l2| + |r2|;
    assert forall i :: |l1| < i < |j| ==> j[i] == r1[i - |l1| - 1];
    assert forall i :: |l2| < i < |j| ==> j[i] == r2[i - |l2| - 1];
    assert j[|l1|] == sep && j[|l2|] == sep;
    assert |l1| == |l2|;
    assert l1 == j[..|l1|] == l2;
    assert r1 == j[|l1| + 1..] == r2;
  }

  /** For two fixed left fields, joining collides exactly when one of them with the separator begins the other. */
  lemma JoinCollision(l1: string, l2: string, sep: char)
    requires l1 != l2
    ensures (exists r1, r2 :: Join(l1, sep, r1) == Join(l2, sep, r2)) <==> (l1 + [sep] <= l2 || l2 + [sep] <= l1)
  {
    if l1 + [sep] <= l2 {
      assert l2 == l1 + [sep] + l2[|l1| + 1..];
      assert Join(l1, sep, l2[|l1| + 1..] + [sep]) == Join(l2, sep, []);
    }
    if l2 + [sep] <= l1 {
      assert l1 == l2 + [sep] + l1[|l2| + 1..];
      assert Join(l1, sep, []) == Join(l2, sep, l1[|l2| + 1..] + [sep]);
    }
    forall r1, r2 | Join(l1, sep, r1) == Join(l2, sep, r2) ensures l1 + [sep] <= l2 || l2 + [sep] <= l1 {
      var j := Join(l1, sep, r1);
      if |l1| < |l2| {
        assert l1 + [sep] == j[..|l1| + 1] == l2[..|l1| + 1];
      } else {
        assert l1 == j[..|l1|] && l2 == j[..|l2|];
        assert |l2| < |l1| ==> l2 + [sep] == j[..|l2| + 1] == l1[..|l2| + 1];
      }
    }
  }
}
