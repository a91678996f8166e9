/** The text of a request ID, fmt.Sprintf("%s-%d-%d", resource, second, index) of
    pkg/executor/executor.go:322, and why no two requests share one. */
module RequestIds {

  function Digit(d: nat): char
    requires d < 10
  {
    "0123456789"[d]
  }

  /** %d of a number that is not negative. */
  function Digits(n: nat): (s: string)
    ensures s != [] && forall k :: 0 <= k < |s| ==> s[k] != '-'
  {
    if n < 10 then [Digit(n)] else Digits(n / 10) + [Digit(n % 10)]
  }

  function Decimal(n: int): string {
    if n < 0 then "-" + Digits(-n) else Digits(n)
  }

  function RequestId(resource: string, second: int, index: int): string {
    resource + "-" + Decimal(second) + "-" + Decimal(index)
  }

  lemma {:induction false} DigitsDiffer(m: nat, n: nat)
    requires Digits(m) == Digits(n)
    ensures m == n
    decreases m
  {
    var s := Digits(m);
    assert m >= 10 ==> |Digits(m / 10)| == |s| - 1;
    assert n >= 10 ==> |Digits(n / 10)| == |s| - 1;
    assert s[|s| - 1] == Digit(m % 10) == Digit(n % 10);
    if m >= 10 {
      assert s[..|s| - 1] == Digits(m / 10) == Digits(n / 10);
      DigitsDiffer(m / 10, n / 10);
    }
  }

  /** The part after the last dash, and so the part before it, can be read off. */
  lemma LastPart(a: string, x: string, b: string, y: string)
    requires a + "-" + x == b + "-" + y
    requires forall k :: 0 <= k < |x| ==> x[k] != '-'
    requires forall k :: 0 <= k < |y| ==> y[k] != '-'
    ensures a == b && x == y
  {
    var s := a + "-" + x;
    assert s[|a|] == '-' && s[|b|] == '-';
    assert a == s[..|a|] && b == s[..|b|] && x == s[|a| + 1..] && y == s[|b| + 1..];
  }

  /** IDs of seconds since 1970 and indices that are not negative name their request. */
  lemma RequestIdTellsApart(r: string, s: nat, i: nat, r': string, s': nat, i': nat)
    requires RequestId(r, s, i) == RequestId(r', s', i')
    ensures r == r' && s == s' && i == i'
  {
    LastPart(r + "-" + Decimal(s), Decimal(i), r' + "-" + Decimal(s'), Decimal(i'));
    LastPart(r, Decimal(s), r', Decimal(s'));
    DigitsDiffer(i, i');
    DigitsDiffer(s, s');
  }

  /** Before 1970 the dash is ambiguous. */
  lemma NegativeSecondsCollide()
    ensures RequestId("a", -5, 0) == RequestId("a-", 5, 0)
  {
    assert "a" + "-" + ("-" + Digits(5)) == "a-" + "-" + Digits(5);
  }
}
