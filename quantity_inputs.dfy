/** The five quantity inputs of the form: one field `POLO_QUANTIDADE_i` per
    business day of the lookback, numbered from 1 in chronological order. */
module QuantityInputs {
  import opened Calendar

  const QuantityPrefix: string := "POLO_QUANTIDADE_"

  /** The decimal digit character for `d`. */
  function DigitChar(d: nat): (c: char)
    requires d < 10
    ensures '0' <= c <= '9'
    ensures c as int - '0' as int == d
  {
    ('0' as int + d) as char
  }

  /** Python's `str(i)` for a non-negative integer. */
  function Decimal(i: nat): (s: string)
    ensures 1 <= |s|
    ensures forall k :: 0 <= k < |s| ==> '0' <= s[k] <= '9'
    ensures (i < 10) == (|s| == 1)
    decreases i
  {
    if i < 10 then [DigitChar(i)] else Decimal(i / 10) + [DigitChar(i % 10)]
  }

  /** Distinct numbers print differently. */
  lemma {:induction false} DecimalInjective(a: nat, b: nat)
    requires Decimal(a) == Decimal(b)
    ensures a == b
    decreases a
  {
    if a >= 10 && b >= 10 {
      var sa, sb := Decimal(a / 10), Decimal(b / 10);
      assert Decimal(a) == sa + [DigitChar(a % 10)];
      assert Decimal(b) == sb + [DigitChar(b % 10)];
      assert |sa| == |sb|;
      assert sa == Decimal(a)[..|sa|] == Decimal(b)[..|sb|] == sb;
      assert DigitChar(a % 10) == Decimal(a)[|sa|] == DigitChar(b % 10);
      DecimalInjective(a / 10, b / 10);
    }
  }

  /** The key of the `i`-th quantity input, `f'POLO_QUANTIDADE_{i}'`. */
  function QuantityKey(i: nat): (k: string)
    ensures |k| > |QuantityPrefix| && k[..|QuantityPrefix|] == QuantityPrefix
  {
    QuantityPrefix + Decimal(i)
  }

  lemma QuantityKeyInjective(i: nat, j: nat)
    requires QuantityKey(i) == QuantityKey(j)
    ensures i == j
  {
    var n := |QuantityPrefix|;
    assert Decimal(i) == QuantityKey(i)[n..] == QuantityKey(j)[n..] == Decimal(j);
    DecimalInjective(i, j);
  }

  /** The keys of the first `n` quantity inputs. */
  function KeysUpTo(n: nat): set<string> {
    set i | 1 <= i <= n :: QuantityKey(i)
  }

  /** Adding the next input's key: it is new, and the key set grows by it. */
  lemma KeysUpToStep(i: nat)
    requires i >= 1
    ensures QuantityKey(i) !in KeysUpTo(i - 1)
    ensures KeysUpTo(i) == KeysUpTo(i - 1) + {QuantityKey(i)}
  {
    if QuantityKey(i) in KeysUpTo(i - 1) {
      var j :| 1 <= j <= i - 1 && QuantityKey(j) == QuantityKey(i);
      QuantityKeyInjective(j, i);
    }
  }

  /** The loop `for i, dia in enumerate(reversed(dias_anteriores), 1)`: the
      `i`-th input is labelled with the `i`-th oldest lookback day and holds
      the `i`-th quantity the user entered (the widget values arrive as
      `entered`). */
  method QuantityFields(lookback: seq<Date>, entered: seq<nat>)
      returns (quantities: map<string, nat>, labels: map<string, Date>)
    requires |entered| == |lookback|
    ensures quantities.Keys == KeysUpTo(|lookback|) && labels.Keys == KeysUpTo(|lookback|)
    ensures forall i :: 1 <= i <= |lookback| ==>
      quantities[QuantityKey(i)] == entered[i - 1] && labels[QuantityKey(i)] == lookback[|lookback| - i]
    ensures StrictlyDecreasing(lookback) ==>
      forall i, j :: 1 <= i < j <= |lookback| ==> labels[QuantityKey(i)] < labels[QuantityKey(j)]
  {
    var n := |lookback|;
    var chronological := Reversed(lookback);
    quantities, labels := map[], map[];
    for i := 1 to n + 1
      invariant quantities.Keys == KeysUpTo(i - 1) && labels.Keys == KeysUpTo(i - 1)
      invariant forall j :: 1 <= j < i ==>
        quantities[QuantityKey(j)] == entered[j - 1] && labels[QuantityKey(j)] == lookback[n - j]
    {
      KeysUpToStep(i);
      ghost var before := KeysUpTo(i - 1);
      var key := QuantityKey(i);
      quantities := quantities[key := entered[i - 1]];
      labels := labels[key := chronological[i - 1]];
      forall j | 1 <= j < i + 1
        ensures quantities[QuantityKey(j)] == entered[j - 1] && labels[QuantityKey(j)] == lookback[n - j]
      {
        if j < i {
          assert QuantityKey(j) in before;
        }
      }
    }
  }
}
