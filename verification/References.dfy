/** Execution references: what the numbers in them print as, and when two promotions
    share one (src/analysts/riskmanager/executor.go). */
module References {
  import opened Models
  import opened Risk

  predicate IsDigit(c: char) { '0' <= c <= '9' }

  /** The number a string of digits reads as. */
  function Value(s: string): int {
    if s == "" then 0 else Value(s[..|s| - 1]) * 10 + (s[|s| - 1] as int - '0' as int)
  }

  /** A number prints as digits alone, which read back as the number. */
  lemma {:induction false} DecimalReadsBack(n: nat)
    ensures |Decimal(n)| > 0 && (forall c :: c in Decimal(n) ==> IsDigit(c)) && Value(Decimal(n)) == n
  {
    if n < 10 {
      DigitReadsBack(n);
      assert [["0123456789"[n]][0]][..0] == [];
    } else {
      DecimalReadsBack(n / 10);
      DigitReadsBack(n % 10);
      var s := Decimal(n);
      assert s[..|s| - 1] == Decimal(n / 10) && s[|s| - 1] == "0123456789"[n % 10];
    }
  }

  lemma DigitReadsBack(d: nat)
    requires d < 10
    ensures IsDigit("0123456789"[d]) && "0123456789"[d] as int - '0' as int == d
  {
  }

  lemma DecimalIsInjective(n: nat, m: nat)
    ensures Decimal(n) == Decimal(m) ==> n == m
  {
    DecimalReadsBack(n);
    DecimalReadsBack(m);
  }

  /** Where the last dash stands is known from the string alone. */
  lemma LastDash(a: string, d: string, b: string, e: string)
    requires (forall c :: c in d ==> IsDigit(c)) && (forall c :: c in e ==> IsDigit(c))
    requires a + "-" + d == b + "-" + e
    ensures a == b && d == e
  {
    NoLaterDash(a, d, b, e);
    NoLaterDash(b, e, a, d);
    var s, t := a + "-" + d, b + "-" + e;
    assert s[..|a|] == a && t[..|b|] == b && s[|a| + 1..] == d && t[|b| + 1..] == e;
  }

  lemma NoLaterDash(a: string, d: string, b: string, e: string)
    requires forall c :: c in e ==> IsDigit(c)
    requires a + "-" + d == b + "-" + e
    ensures |e| <= |d|
  {
    var t := b + "-" + e;
    assert t == a + "-" + d && |t| == |a| + 1 + |d|;
    if |b| < |a| { DigitsAfterDash(b, e, |a|); }
    assert (a + "-" + d)[|a|] == '-';
  }

  lemma DigitsAfterDash(b: string, e: string, k: nat)
    requires |b| < k < |b| + 1 + |e| && forall c :: c in e ==> IsDigit(c)
    ensures IsDigit((b + "-" + e)[k])
  {
    assert (b + "-" + e)[k] == e[k - |b| - 1];
  }

  /** Two promoted executions share a reference exactly when they are of one ticker and
      one instant, whatever their sides, prices and sectors. */
  lemma ReferencesAgreeExactlyWhen(a: TradeIntent, b: TradeIntent, capital: real, sa: string, sb: string,
                                   n: nat, m: nat)
    requires BuildExecution(a, capital, sa, n).Some? && BuildExecution(b, capital, sb, m).Some?
    ensures BuildExecution(a, capital, sa, n).value.executionRef == BuildExecution(b, capital, sb, m).value.executionRef
            <==> a.ticker == b.ticker && n == m
  {
    var ra := BuildExecution(a, capital, sa, n).value.executionRef;
    var rb := BuildExecution(b, capital, sb, m).value.executionRef;
    DecimalReadsBack(n);
    DecimalReadsBack(m);
    assert ra == ("risk-" + a.ticker) + "-" + Decimal(n) && rb == ("risk-" + b.ticker) + "-" + Decimal(m);
    if ra == rb {
      LastDash("risk-" + a.ticker, Decimal(n), "risk-" + b.ticker, Decimal(m));
      assert ("risk-" + a.ticker)[5..] == a.ticker && ("risk-" + b.ticker)[5..] == b.ticker;
      DecimalIsInjective(n, m);
    }
  }
}
