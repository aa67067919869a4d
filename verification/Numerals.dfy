/** Decimal numerals: what `%d` and f-string interpolation print for a count. */
module Numerals {

  type Digit = d: int | 0 <= d < 10

  function Digits(n: nat): (ds: seq<Digit>)
    ensures ds != []
  {
    if n < 10 then [n] else Digits(n / 10) + [n % 10]
  }

  function Evaluate(ds: seq<Digit>): nat
  {
    if ds == [] then 0 else 10 * Evaluate(ds[..|ds| - 1]) + ds[|ds| - 1]
  }

  /** A numeral as a standard prints it: at least one digit, and no leading zero on a longer one. */
  predicate Canonical(ds: seq<Digit>)
  {
    ds != [] && (|ds| > 1 ==> ds[0] != 0)
  }

  lemma {:induction false} DigitsRoundTrip(n: nat)
    ensures Evaluate(Digits(n)) == n
    ensures Canonical(Digits(n))
    ensures n > 0 ==> Digits(n)[0] != 0
  {
    if n >= 10 {
      DigitsRoundTrip(n / 10);
      assert Digits(n)[..|Digits(n)| - 1] == Digits(n / 10);
    }
  }

  lemma {:induction false} EvaluateRoundTrip(ds: seq<Digit>)
    requires Canonical(ds)
    ensures Digits(Evaluate(ds)) == ds
    ensures |ds| > 1 ==> Evaluate(ds) >= 10
    ensures ds[0] != 0 ==> Evaluate(ds) > 0
  {
    var front := ds[..|ds| - 1];
    if |ds| > 1 {
      EvaluateRoundTrip(front);
      assert Evaluate(ds) / 10 == Evaluate(front);
      assert ds == front + [ds[|ds| - 1]];
    } else {
      assert Evaluate(front) == 0;
    }
  }

  function DigitChar(d: Digit): char
  {
    ('0' as int + d) as char
  }

  function Spelled(ds: seq<Digit>): (s: string)
    ensures |s| == |ds| && forall k :: 0 <= k < |s| ==> s[k] == DigitChar(ds[k]) && '0' <= s[k] <= '9'
  {
    seq(|ds|, i requires 0 <= i < |ds| => DigitChar(ds[i]))
  }

  /** The numeral as text. */
  function Decimal(n: nat): (s: string)
    ensures forall k :: 0 <= k < |s| ==> '0' <= s[k] <= '9'
  {
    Spelled(Digits(n))
  }

  // ---- numerals as text, without digits ----

  /** What a text of digits says. */
  function Said(s: string): nat
    requires forall k :: 0 <= k < |s| ==> '0' <= s[k] <= '9'
  {
    if s == "" then 0 else 10 * Said(s[..|s| - 1]) + (s[|s| - 1] as int - '0' as int)
  }

  /** `s` is how one writes `n`: digits that say it, the first of several not a zero. */
  predicate Writes(s: string, n: nat)
  {
    s != "" && (forall k :: 0 <= k < |s| ==> '0' <= s[k] <= '9') && (|s| > 1 ==> s[0] != '0') && Said(s) == n
  }

  lemma {:induction false} SpelledSays(ds: seq<Digit>)
    ensures Said(Spelled(ds)) == Evaluate(ds)
    decreases |ds|
  {
    if ds != [] {
      SpelledSays(ds[..|ds| - 1]);
      assert Spelled(ds)[..|ds| - 1] == Spelled(ds[..|ds| - 1]);
    }
  }

  function Read(s: string): (ds: seq<Digit>)
    requires forall k :: 0 <= k < |s| ==> '0' <= s[k] <= '9'
    ensures |ds| == |s| && forall k :: 0 <= k < |s| ==> ds[k] == s[k] as int - '0' as int
  {
    seq(|s|, i requires 0 <= i < |s| => s[i] as int - '0' as int)
  }

  /** Every number is written in one way, which is its numeral. */
  lemma DecimalIs(s: string, n: nat)
    ensures Writes(s, n) <==> s == Decimal(n)
  {
    var ds := Digits(n);
    DigitsRoundTrip(n);
    SpelledSays(ds);
    if Writes(s, n) {
      var read := Read(s);
      assert Spelled(read) == s;
      SpelledSays(read);
      EvaluateRoundTrip(read);
    }
  }
}
