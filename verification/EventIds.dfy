/** Decimal event IDs of at most twenty digits, as the server-sent-events cursor carries them. */
module EventIds {
  import opened Numbers

  const MAX_EVENT_ID_DIGITS := 20

  predicate Digit(c: char) {
    '0' <= c <= '9'
  }

  function DigitChar(d: nat): char
    requires d < 10
  {
    '0' + d as char
  }

  function DigitValue(c: char): nat
    requires Digit(c)
  {
    (c - '0') as nat
  }

  /** Python's str of a nonnegative integer. */
  function Render(n: nat): string {
    if n < 10 then [DigitChar(n)] else Render(n / 10) + [DigitChar(n % 10)]
  }

  /** A decimal numeral without a redundant leading zero: 0 or [1-9][0-9]*. */
  predicate Canonical(s: string) {
    && s != []
    && (forall i :: 0 <= i < |s| ==> Digit(s[i]))
    && (s[0] == '0' ==> |s| == 1)
  }

  /** What the cursor validation accepts. */
  predicate ValidEventId(s: string) {
    |s| <= MAX_EVENT_ID_DIGITS && Canonical(s)
  }

  function Value(s: string): nat
    requires forall i :: 0 <= i < |s| ==> Digit(s[i])
  {
    if s == [] then 0 else 10 * Value(s[..|s| - 1]) + DigitValue(s[|s| - 1])
  }

  lemma {:induction false} RenderCanonical(n: nat)
    ensures Canonical(Render(n)) && Value(Render(n)) == n
    ensures Render(n)[0] == '0' <==> n == 0
  {
    var s := Render(n);
    if n >= 10 {
      RenderCanonical(n / 10);
      assert s[..|s| - 1] == Render(n / 10);
    } else {
      assert s[..0] == [];
    }
  }

  lemma {:induction false} ValueRenders(s: string)
    requires Canonical(s)
    ensures Render(Value(s)) == s
    ensures Value(s) == 0 <==> s == "0"
  {
    var init, last := s[..|s| - 1], s[|s| - 1];
    assert s == init + [last];
    if init != [] {
      assert init[0] == s[0];
      if init == "0" {
        assert false;
      }
      ValueRenders(init);
      assert Value(s) / 10 == Value(init) && Value(s) % 10 == DigitValue(last);
    }
  }

  /** An ID with k digits lies below 10 to the k, and needs them all. */
  lemma {:induction false} RenderLength(n: nat, k: nat)
    requires k > 0
    ensures |Render(n)| <= k <==> n < PowerOfTen(k)
    decreases k
  {
    if n >= 10 && k > 1 {
      RenderLength(n / 10, k - 1);
    } else if k > 1 {
      PowerGrows(k);
    } else {
      assert PowerOfTen(1) == 10 * PowerOfTen(0);
      if n >= 10 {
        assert |Render(n / 10)| > 0 by {
          RenderCanonical(n / 10);
        }
      }
    }
  }

  lemma {:induction false} PowerGrows(k: nat)
    requires k > 0
    ensures PowerOfTen(k) >= 10
  {
    if k > 1 {
      PowerGrows(k - 1);
    }
  }

  /** Issued IDs are valid cursors until twenty digits are used up. */
  lemma RenderValid(n: nat)
    ensures ValidEventId(Render(n)) <==> n < PowerOfTen(MAX_EVENT_ID_DIGITS)
  {
    RenderCanonical(n);
    RenderLength(n, MAX_EVENT_ID_DIGITS);
  }

  /** Comparing IDs as strings compares them as numbers. */
  lemma RenderInjective(m: nat, n: nat)
    ensures Render(m) == Render(n) <==> m == n
  {
    RenderCanonical(m);
    RenderCanonical(n);
  }

  lemma RenderMatches(s: string, n: nat)
    requires Canonical(s)
    ensures s == Render(n) <==> Value(s) == n
  {
    ValueRenders(s);
    RenderCanonical(n);
  }
}
