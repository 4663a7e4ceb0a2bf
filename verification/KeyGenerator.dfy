/** Key generators: keys in order, and keys drawn by an inverse cumulative distribution. */
module KeyGenerator {
  import opened Decimals

  /** setw and setfill('0'): zeros in front, up to the width. */
  function Padded(s: string, width: int): (r: string)
    ensures |r| == (if width > |s| then width else |s|) && s == r[|r| - |s|..] && forall i :: 0 <= i < |r| - |s| ==> r[i] == '0'
  {
    if |s| >= width then s else seq(width - |s|, _ => '0') + s
  }

  /** pow(i, 1 - theta); all that is used of it is that it is positive. */
  type Power = nat -> real

  ghost predicate Positive(power: Power) {
    forall i: nat :: i >= 1 ==> power(i) > 0.0
  }

  function Weight(power: Power, i: nat): (w: real)
    requires Positive(power)
    ensures w > 0.0
  {
    assert power(i + 1) > 0.0;
    1.0 / power(i + 1)
  }

  /** The weights of the first k keys. */
  function Total(power: Power, k: nat): (s: real)
    requires Positive(power)
    ensures s >= 0.0 && (k > 0 ==> s > 0.0)
  {
    if k == 0 then 0.0 else Total(power, k - 1) + Weight(power, k - 1)
  }

  /** The probability that the distribution over n keys gives to the first k. */
  function Cumulative(power: Power, n: nat, k: nat): real
    requires Positive(power) && n > 0
  {
    Total(power, k) / Total(power, n)
  }

  lemma {:induction false} TotalIncreases(power: Power, j: nat, k: nat)
    requires Positive(power) && j < k
    ensures Total(power, j) < Total(power, k)
  {
    if j == k - 1 {
    } else {
      TotalIncreases(power, j, k - 1);
    }
  }

  lemma QuotientIncreases(a: real, b: real, c: real)
    requires a < b && c > 0.0
    ensures a / c < b / c
  {
    assert (a / c) * c == a && (b / c) * c == b;
  }

  lemma CumulativeIncreases(power: Power, n: nat, j: nat, k: nat)
    requires Positive(power) && n > 0 && j < k
    ensures Cumulative(power, n, j) < Cumulative(power, n, k)
  {
    TotalIncreases(power, j, k);
    QuotientIncreases(Total(power, j), Total(power, k), Total(power, n));
  }

  /** From 0 before the first key, strictly up, to 1 after the last. */
  lemma CumulativeEnds(power: Power, n: nat)
    requires Positive(power) && n > 0
    ensures Cumulative(power, n, 0) == 0.0 && Cumulative(power, n, n) == 1.0
  {
    QuotientOfSelf(Total(power, n));
  }

  lemma QuotientOfSelf(a: real)
    requires a > 0.0
    ensures a / a == 1.0 && 0.0 / a == 0.0
  {
  }

  lemma ScaledWeight(sum: real, power: real, earlier: real)
    requires sum > 0.0 && power > 0.0
    ensures earlier / sum + (1.0 / sum) / power == (earlier + 1.0 / power) / sum
  {
    var x, y := 1.0 / power, 1.0 / sum;
    assert (y / power) == y * x by {
      assert (y / power) * power == y;
      assert x * power == 1.0;
      assert (y * x) * power == y * (x * power);
    }
    assert earlier / sum == earlier * y && (earlier + x) / sum == (earlier + x) * y by {
      OverSum(earlier, sum);
      OverSum(earlier + x, sum);
    }
  }

  lemma OverSum(a: real, sum: real)
    requires sum > 0.0
    ensures a / sum == a * (1.0 / sum)
  {
    assert (a / sum) * sum == a;
    assert (1.0 / sum) * sum == 1.0;
    assert (a * (1.0 / sum)) * sum == a * ((1.0 / sum) * sum);
  }

  class ZipfKeyGenerator {
    const power: Power
    const n: nat
    const zdist: array<real>

    ghost predicate Valid()
      reads this, zdist
    {
      && Positive(power) && zdist.Length == n
      && forall i :: 0 <= i < n ==> zdist[i] == Cumulative(power, n, i + 1)
    }

    constructor (power: Power, n: nat)
      requires Positive(power)
      ensures Valid() && this.power == power && this.n == n && fresh(zdist)
    {
      this.power := power;
      this.n := n;
      zdist := new real[n];
      new;
      GenZipf();
    }

    method GenZipf()
      requires Positive(power) && zdist.Length == n
      modifies zdist
      ensures Valid()
    {
      var sum := 0.0;
      for i := 1 to n + 1
        invariant sum == Total(power, i - 1)
      {
        sum := sum + 1.0 / power(i);
      }
      // With no keys the reciprocal is infinite and never used.
      var c := if n == 0 then 0.0 else 1.0 / sum;
      var sumc := 0.0;
      for i := 0 to n
        invariant n > 0 ==> sumc == Cumulative(power, n, i)
        invariant forall j :: 0 <= j < i ==> zdist[j] == Cumulative(power, n, j + 1)
      {
        ScaledWeight(sum, power(i + 1), Total(power, i));
        sumc := sumc + c / power(i + 1);
        zdist[i] := sumc;
      }
    }

    /** The draw r belongs to key k. */
    ghost predicate Draws(r: real, k: nat)
      requires Valid() && k < n
      reads this, zdist
    {
      Cumulative(power, n, k) <= r < Cumulative(power, n, k + 1)
    }

    /** next: the binary search ends at the only key to which the draw belongs. */
    method NextIndex(r: real) returns (lo: nat)
      requires Valid()
      ensures lo <= n
      ensures n > 0 && 0.0 <= r < 1.0 ==> lo < n && forall k: nat :: k < n ==> (Draws(r, k) <==> k == lo)
    {
      lo := 0;
      var hi := n;
      while lo != hi
        invariant lo <= hi <= n
        invariant forall i :: 0 <= i < lo ==> zdist[i] <= r
        invariant forall i :: hi <= i < n ==> r < zdist[i]
        decreases hi - lo
      {
        var mid := (lo + hi) / 2;
        Ascending();
        if zdist[mid] <= r {
          lo := mid + 1;
        } else {
          hi := mid;
        }
      }
      if n > 0 {
        CumulativeEnds(power, n);
        if 0.0 <= r < 1.0 {
          assert zdist[n - 1] == 1.0;
          forall k: nat | k < n ensures Draws(r, k) <==> k == lo {
            if k < lo {
              assert zdist[k] <= r;
            } else if k > lo {
              assert r < zdist[k - 1];
            } else if k > 0 {
              assert zdist[k - 1] <= r;
            }
          }
        }
      }
    }

    lemma Ascending()
      requires Valid()
      ensures forall i, j :: 0 <= i < j < n ==> zdist[i] < zdist[j]
    {
      forall i, j | 0 <= i < j < n ensures zdist[i] < zdist[j] {
        CumulativeIncreases(power, n, i + 1, j + 1);
      }
    }

    method Next(r: real) returns (key: string)
      requires Valid()
      ensures n > 0 && 0.0 <= r < 1.0 ==> exists k: nat :: k < n && Draws(r, k) && key == ToString(k)
    {
      var lo := NextIndex(r);
      key := ToString(lo);
    }

    method NextPadded(r: real, len: int) returns (key: string)
      requires Valid()
      ensures n > 0 && 0.0 <= r < 1.0 ==> exists k: nat :: k < n && Draws(r, k) && key == Padded(ToString(k), len)
    {
      var lo := NextIndex(r);
      key := Padded(ToString(lo), len);
    }
  }

  lemma QuotientDifference(a: real, w: real, sum: real)
    requires sum > 0.0
    ensures (a + w) / sum - a / sum == w / sum
  {
    OverSum(a + w, sum);
    OverSum(a, sum);
    OverSum(w, sum);
    var y := 1.0 / sum;
    assert (a + w) * y == a * y + w * y;
  }

  /** Key k is drawn with probability w_k over the sum of all weights. */
  lemma DrawProbability(power: Power, n: nat, k: nat)
    requires Positive(power) && k < n
    ensures Cumulative(power, n, k + 1) - Cumulative(power, n, k) == Weight(power, k) / Total(power, n)
  {
    QuotientDifference(Total(power, k), Weight(power, k), Total(power, n));
  }

  // Keys in order.

  class SequentialKeyGenerator {
    var curKey: nat

    constructor ()
      ensures curKey == 0
    {
      curKey := 0;
    }

    method Next() returns (key: string)
      modifies this
      ensures key == ToString(old(curKey)) && curKey == old(curKey) + 1
    {
      key := ToString(curKey);
      curKey := curKey + 1;
    }

    method NextPadded(len: int) returns (key: string)
      modifies this
      ensures key == Padded(ToString(old(curKey)), len) && curKey == old(curKey) + 1
    {
      key := Padded(ToString(curKey), len);
      curKey := curKey + 1;
    }

    method Reset()
      modifies this
      ensures curKey == 0
    {
      curKey := 0;
    }
  }

  lemma {:induction false} ScanPadded(zeros: nat, s: string)
    ensures Scan(seq(zeros, _ => '0') + s, 0) == Scan(s, 0)
  {
    if zeros == 0 {
      assert seq(zeros, _ => '0') + s == s;
    } else {
      ScanPadded(zeros - 1, s);
      assert (seq(zeros, _ => '0') + s)[1..] == seq(zeros - 1, _ => '0') + s;
    }
  }

  lemma PaddedValue(n: nat, width: int)
    ensures Scan(Padded(ToString(n), width), 0) == n
  {
    ScanDecimal(n);
    if |ToString(n)| < width {
      ScanPadded(width - |ToString(n)|, ToString(n));
    }
  }

  /** Different numbers give different keys, padded or not, whatever the widths. */
  lemma KeysDistinct(i: nat, j: nat, a: int, b: int)
    ensures Padded(ToString(i), a) == Padded(ToString(j), b) ==> i == j
    ensures ToString(i) == ToString(j) ==> i == j
  {
    PaddedValue(i, a);
    PaddedValue(j, b);
    PaddedValue(i, 0);
    PaddedValue(j, 0);
  }
}
