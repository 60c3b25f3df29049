/** Code-point order on strings, and selecting in a total order. */
module StringOrder {

  predicate Less(a: string, b: string) {
    b != [] && (a == [] || a[0] < b[0] || (a[0] == b[0] && Less(a[1..], b[1..])))
  }

  lemma {:induction false} LessTransitive(a: string, b: string, c: string)
    requires Less(a, b) && Less(b, c)
    ensures Less(a, c)
  {
    if a != [] && a[0] == b[0] && b[0] == c[0] {
      LessTransitive(a[1..], b[1..], c[1..]);
    }
  }

  lemma {:induction false} LessAsymmetric(a: string, b: string)
    requires Less(a, b)
    ensures !Less(b, a) && a != b
  {
    if a != [] && a[0] == b[0] {
      LessAsymmetric(a[1..], b[1..]);
    }
  }

  lemma {:induction false} LessTotal(a: string, b: string)
    ensures Less(a, b) || a == b || Less(b, a)
  {
    if a != [] && b != [] && a[0] == b[0] {
      LessTotal(a[1..], b[1..]);
      if a[1..] == b[1..] {
        assert a == [a[0]] + a[1..] && b == [b[0]] + b[1..];
      }
    }
  }

  /** The strings agree up to k, where a ends or has the smaller character. */
  ghost predicate PartsAt(a: string, b: string, k: nat) {
    k <= |a| && k < |b| && a[..k] == b[..k] && (k == |a| || a[k] < b[k])
  }

  /** One string is less than another exactly when it is a proper prefix or smaller at the first difference. */
  lemma {:induction false} LessMeaning(a: string, b: string)
    ensures Less(a, b) <==> exists k: nat :: PartsAt(a, b, k)
  {
    if b == [] {
      assert forall k: nat :: !PartsAt(a, b, k);
    } else if a == [] || a[0] < b[0] {
      assert PartsAt(a, b, 0);
    } else {
      LessMeaning(a[1..], b[1..]);
      if Less(a, b) {
        var k: nat :| PartsAt(a[1..], b[1..], k);
        PartsLater(a, b, k);
      }
      if k: nat :| PartsAt(a, b, k) {
        assert k > 0;
        PartsLater(a, b, k - 1);
      }
    }
  }

  lemma PartsLater(a: string, b: string, k: nat)
    requires a != [] && b != []
    ensures a[0] == b[0] && PartsAt(a[1..], b[1..], k) <==> PartsAt(a, b, k + 1)
  {
    if k + 1 <= |a| && k + 1 <= |b| {
      assert a[..k + 1] == [a[0]] + a[1..][..k] && b[..k + 1] == [b[0]] + b[1..][..k];
      if a[..k + 1] == b[..k + 1] {
        assert a[0] == a[..k + 1][0] == b[..k + 1][0] == b[0];
        assert a[1..][..k] == a[..k + 1][1..] == b[..k + 1][1..] == b[1..][..k];
      }
    }
  }
}
