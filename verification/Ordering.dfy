/** Strictly ordered sequences: their members alone determine them. */
module Ordering {

  ghost predicate OrderedBy<T>(s: seq<T>, key: T -> int) {
    forall i, j :: 0 <= i < j < |s| ==> key(s[i]) < key(s[j])
  }

  lemma OrderedByInit<T(!new)>(s: seq<T>, key: T -> int)
    requires OrderedBy(s, key) && s != []
    ensures OrderedBy(s[..|s| - 1], key)
    ensures forall x :: x in s ==> x == s[|s| - 1] || key(x) < key(s[|s| - 1])
    ensures forall x :: x in s[..|s| - 1] <==> x in s && x != s[|s| - 1]
  {
    var init, last := s[..|s| - 1], s[|s| - 1];
    assert s == init + [last];
    forall x | x in init ensures key(x) < key(last) {
      var i :| 0 <= i < |init| && init[i] == x;
    }
  }

  lemma {:induction false} OrderedByUnique<T(!new)>(a: seq<T>, b: seq<T>, key: T -> int)
    requires OrderedBy(a, key) && OrderedBy(b, key)
    requires forall x :: x in a <==> x in b
    ensures a == b
    decreases |a|
  {
    assert b != [] ==> b[0] in b;
    if a != [] {
      assert a[|a| - 1] in a;
      assert b[|b| - 1] in b;
      OrderedByInit(a, key);
      OrderedByInit(b, key);
      hide OrderedBy;
      var x, y := a[|a| - 1], b[|b| - 1];
      assert x == y by {
        assert x in b && y in a;
      }
      var p, q := a[..|a| - 1], b[..|b| - 1];
      forall z ensures z in p <==> z in q {
        assert z in p <==> z in a && z != x;
        assert z in q <==> z in b && z != y;
      }
      OrderedByUnique(p, q, key);
    }
  }
}
