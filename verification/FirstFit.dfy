/** First-fit-decreasing packing seen as arithmetic: bins of units with one limit. */
module FirstFit {
  import opened Sums

  type Bin = seq<real>

  function Itself(u: real): real { u }

  function Load(b: Bin): real { Sum(b, Itself) }

  /** Every bin holds something, nothing overflows, and every unit is positive. */
  ghost predicate ValidPacking(bins: seq<Bin>, limit: real) {
    forall i :: 0 <= i < |bins| ==> ValidBin(bins[i], limit)
  }

  ghost predicate ValidBin(b: Bin, limit: real) {
    |b| > 0 && Load(b) <= limit && forall m :: 0 <= m < |b| ==> b[m] > 0.0
  }

  /** No unit of a later bin would still fit into an earlier one. */
  ghost predicate FirstFitPacking(bins: seq<Bin>, limit: real) {
    forall i, j, m :: 0 <= i < j < |bins| && 0 <= m < |bins[j]| ==> Load(bins[i]) + bins[j][m] > limit
  }

  /** The first unit of a bin is its largest, and bins start with ever smaller units. */
  ghost predicate DecreasingPacking(bins: seq<Bin>) {
    && (forall i, m :: 0 <= i < |bins| && 0 <= m < |bins[i]| ==> |bins[i]| > 0 && bins[i][m] <= bins[i][0])
    && (forall i, j :: 0 <= i < j < |bins| && |bins[i]| > 0 && |bins[j]| > 0 ==> bins[j][0] <= bins[i][0])
  }

  function Big(limit: real): real -> real {
    (u: real) => if 2.0 * u > limit then 1.0 else 0.0
  }

  /** A bin that respects the limit holds at most one unit of more than half of it. */
  lemma {:induction false} AtMostOneBig(b: Bin, limit: real)
    requires Load(b) <= limit
    requires forall m :: 0 <= m < |b| ==> b[m] > 0.0
    ensures Sum(b, Big(limit)) <= 1.0
    ensures Sum(b, Big(limit)) > 0.0 ==> 2.0 * Load(b) > limit
  {
    if |b| > 0 {
      var front := b[..|b| - 1];
      SumNonNegative(front, Itself);
      AtMostOneBig(front, limit);
      SumNonNegative(front, Big(limit));
    }
  }

  lemma BigUnitsNeedBins(other: seq<Bin>, limit: real)
    requires ValidPacking(other, limit)
    ensures Sum(Flatten(other), Big(limit)) <= |other| as real
  {
    SumFlatten(other, Big(limit));
    var bigUnits := SumOf(Big(limit));
    forall i | 0 <= i < |other| ensures bigUnits(other[i]) <= 1.0 { AtMostOneBig(other[i], limit); }
    SumAtMost(other, bigUnits, 1.0);
    TimesOneTwo(|other|);
  }

  lemma FirstUnitsAreBig(front: seq<Bin>, limit: real)
    requires forall i :: 0 <= i < |front| ==> |front[i]| > 0 && 2.0 * front[i][0] > limit
    ensures Sum(Flatten(front), Big(limit)) >= |front| as real
  {
    SumFlatten(front, Big(limit));
    var bigUnits := SumOf(Big(limit));
    forall i | 0 <= i < |front| ensures bigUnits(front[i]) >= 1.0 {
      SumAtLeastTerm(front[i], 0, Big(limit));
    }
    SumAtLeast(front, bigUnits, 1.0);
    TimesOneTwo(|front|);
  }

  lemma PrefixCount(front: seq<Bin>, back: seq<Bin>, limit: real)
    ensures Sum(Flatten(front), Big(limit)) <= Sum(Flatten(front + back), Big(limit))
  {
    var isBig := Big(limit);
    FlattenConcat(front, back);
    SumConcat(Flatten(front), Flatten(back), isBig);
    SumNonNegative(Flatten(back), isBig);
  }

  lemma BigBefore(bins: seq<Bin>, limit: real, pivot: nat, i: nat)
    requires i <= pivot < |bins| && ValidPacking(bins, limit) && DecreasingPacking(bins)
    requires 2.0 * bins[pivot][0] > limit
    ensures |bins[i]| > 0 && 2.0 * bins[i][0] > limit
  {
    assert ValidBin(bins[i], limit) && ValidBin(bins[pivot], limit);
    if i < pivot { assert bins[pivot][0] <= bins[i][0]; }
  }

  /** When the pivot bin starts with a big unit, so does every bin before it: each needs a bin of its own. */
  lemma BigPivot(front: seq<Bin>, back: seq<Bin>, other: seq<Bin>, limit: real)
    requires forall i :: 0 <= i < |front| ==> |front[i]| > 0 && 2.0 * front[i][0] > limit
    requires ValidPacking(other, limit) && multiset(Flatten(front + back)) == multiset(Flatten(other))
    ensures |other| >= |front|
  {
    FirstUnitsAreBig(front, limit);
    CountsCompared(front, back, other, limit);
  }

  lemma CountsCompared(front: seq<Bin>, back: seq<Bin>, other: seq<Bin>, limit: real)
    requires multiset(Flatten(front + back)) == multiset(Flatten(other)) && ValidPacking(other, limit)
    ensures Sum(Flatten(front), Big(limit)) <= |other| as real
  {
    PrefixCount(front, back, limit);
    SumPermutation(Flatten(front + back), Flatten(other), Big(limit));
    BigUnitsNeedBins(other, limit);
  }

  lemma OneUnitLoad(b: Bin)
    requires |b| == 1
    ensures Load(b) == b[0]
  {
    assert Sum(b, Itself) == Sum(b[..0], Itself) + Itself(b[0]);
  }

  function Unit(): real -> real { (u: real) => 1.0 }

  lemma {:induction false} CountIsLength(s: seq<real>)
    ensures Sum(s, Unit()) == |s| as real
  {
    if |s| != 0 { CountIsLength(s[..|s| - 1]); }
  }

  /** A bin of small units before the last one holds at least two of them. */
  lemma SmallUnitsShareBin(bins: seq<Bin>, limit: real, i: nat)
    requires i < |bins| - 1
    requires ValidPacking(bins, limit) && FirstFitPacking(bins, limit) && DecreasingPacking(bins)
    requires 2.0 * bins[i][0] <= limit
    ensures |bins[i]| >= 2
  {
    var n := |bins| - 1;
    assert ValidBin(bins[n], limit) && ValidBin(bins[i], limit);
    assert bins[n][0] <= bins[i][0];
    assert Load(bins[i]) + bins[n][0] > limit;
    if |bins[i]| == 1 { OneUnitLoad(bins[i]); }
  }

  lemma SmallUnitsCount(mid: seq<Bin>, last: Bin)
    requires forall i :: 0 <= i < |mid| ==> |mid[i]| >= 2
    requires |last| > 0
    ensures |Flatten(mid + [last])| >= 2 * |mid| + 1
  {
    assert (mid + [last])[..|mid|] == mid;
    SumFlatten(mid, Unit());
    CountIsLength(Flatten(mid));
    var sizes := SumOf(Unit());
    forall i | 0 <= i < |mid| ensures sizes(mid[i]) >= 2.0 { CountIsLength(mid[i]); }
    SumAtLeast(mid, sizes, 2.0);
    TimesOneTwo(|mid|);
  }

  /** From bin `from` on every bin but the last holds at least two units, when its units are small. */
  lemma SmallUnitsShareBins(bins: seq<Bin>, limit: real, from: nat)
    requires from < |bins|
    requires ValidPacking(bins, limit) && FirstFitPacking(bins, limit) && DecreasingPacking(bins)
    requires 2.0 * bins[from][0] <= limit
    ensures |Flatten(bins[from..])| >= 2 * (|bins| - 1 - from) + 1
  {
    var n := |bins| - 1;
    var mid := bins[from..n];
    assert bins[from..] == mid + [bins[n]];
    forall i | 0 <= i < |mid| ensures |mid[i]| >= 2 {
      assert ValidBin(bins[from], limit) && ValidBin(bins[from + i], limit);
      assert i > 0 ==> bins[from + i][0] <= bins[from][0];
      SmallUnitsShareBin(bins, limit, from + i);
    }
    assert ValidBin(bins[n], limit);
    SmallUnitsCount(mid, bins[n]);
  }

  /** As many leading bins as there are units that fit none of them: together they exceed the limit each time. */
  lemma {:induction false} LeftOversOverflow(bins: seq<Bin>, rest: seq<real>, limit: real)
    requires |rest| >= |bins| > 0
    requires forall i, m :: 0 <= i < |bins| && 0 <= m < |rest| ==> Load(bins[i]) + rest[m] > limit
    requires forall m :: 0 <= m < |rest| ==> rest[m] > 0.0
    ensures Sum(bins, SumOf(Itself)) + Load(rest) > Times(|bins|, limit)
  {
    var n, k := |bins| - 1, |rest| - 1;
    assert Load(bins[n]) + rest[k] > limit;
    SumNonNegative(rest[..k], Itself);
    if n == 0 {
      assert bins[..0] == [];
    } else {
      LeftOversOverflow(bins[..n], rest[..k], limit);
    }
  }

  lemma FlattenPositive(bins: seq<Bin>, limit: real)
    requires ValidPacking(bins, limit)
    ensures forall m :: 0 <= m < |Flatten(bins)| ==> Flatten(bins)[m] > 0.0
  {
    forall m | 0 <= m < |Flatten(bins)| ensures Flatten(bins)[m] > 0.0 {
      var u := Flatten(bins)[m];
      FlattenMember(bins, u);
      var i :| 0 <= i < |bins| && u in bins[i];
    }
  }

  lemma VolumeNeedsBins(other: seq<Bin>, limit: real)
    requires ValidPacking(other, limit)
    ensures Load(Flatten(other)) <= Times(|other|, limit)
  {
    SumFlatten(other, Itself);
    SumAtMost(other, SumOf(Itself), limit);
  }

  /** No unit from bin `pivot` on fits into a bin before it. */
  lemma LateUnitsFitNowhere(bins: seq<Bin>, limit: real, pivot: nat, i: nat, u: real)
    requires i < pivot < |bins| && FirstFitPacking(bins, limit)
    requires u in Flatten(bins[pivot..])
    ensures Load(bins[i]) + u > limit
  {
    var back := bins[pivot..];
    FlattenMember(back, u);
    var j :| 0 <= j < |back| && u in back[j];
    assert back[j] == bins[pivot + j];
    var q :| 0 <= q < |back[j]| && back[j][q] == u;
    assert Load(bins[i]) + bins[pivot + j][q] > limit;
  }

  lemma SuffixIsValid(bins: seq<Bin>, limit: real, pivot: nat)
    requires pivot <= |bins| && ValidPacking(bins, limit)
    ensures ValidPacking(bins[pivot..], limit)
  {
    assert forall i :: 0 <= i < |bins| - pivot ==> bins[pivot..][i] == bins[pivot + i];
  }

  /** When the pivot bin starts with a small unit, the volume alone needs more than that many bins. */
  lemma SmallPivot(bins: seq<Bin>, limit: real, pivot: nat)
    requires 0 < pivot < |bins| && 2 * (|bins| - 1 - pivot) + 1 >= pivot
    requires ValidPacking(bins, limit) && FirstFitPacking(bins, limit) && DecreasingPacking(bins)
    requires 2.0 * bins[pivot][0] <= limit
    ensures Load(Flatten(bins)) > Times(pivot, limit)
  {
    var front, back := bins[..pivot], bins[pivot..];
    var rest := Flatten(back);
    SmallUnitsShareBins(bins, limit, pivot);
    SuffixIsValid(bins, limit, pivot);
    FlattenPositive(back, limit);
    forall i, m | 0 <= i < |front| && 0 <= m < |rest| ensures Load(front[i]) + rest[m] > limit {
      LateUnitsFitNowhere(bins, limit, pivot, i, rest[m]);
    }
    LeftOversOverflow(front, rest, limit);
    VolumeSplits(front, back);
    Split(bins, pivot);
  }

  lemma VolumeSplits(front: seq<Bin>, back: seq<Bin>)
    ensures Load(Flatten(front + back)) == Sum(front, SumOf(Itself)) + Load(Flatten(back))
  {
    FlattenConcat(front, back);
    SumConcat(Flatten(front), Flatten(back), Itself);
    SumFlatten(front, Itself);
  }

  lemma VolumeDecides(bins: seq<Bin>, other: seq<Bin>, limit: real, pivot: nat)
    requires ValidPacking(other, limit) && multiset(Flatten(bins)) == multiset(Flatten(other))
    requires limit > 0.0 && Load(Flatten(bins)) > Times(pivot, limit)
    ensures |other| > pivot
  {
    SumPermutation(Flatten(bins), Flatten(other), Itself);
    VolumeNeedsBins(other, limit);
    if |other| <= pivot { TimesMonotone(|other|, pivot, limit); }
  }

  lemma PivotDecides(bins: seq<Bin>, other: seq<Bin>, limit: real, pivot: nat)
    requires limit > 0.0 && pivot < |bins| && 2 * (|bins| - 1 - pivot) + 1 >= pivot
    requires ValidPacking(bins, limit) && FirstFitPacking(bins, limit) && DecreasingPacking(bins)
    requires ValidPacking(other, limit) && multiset(Flatten(bins)) == multiset(Flatten(other))
    ensures |other| > pivot
  {
    assert ValidBin(bins[pivot], limit);
    if 2.0 * bins[pivot][0] > limit {
      var front, back := bins[..pivot + 1], bins[pivot + 1..];
      forall i | 0 <= i < |front| ensures |front[i]| > 0 && 2.0 * front[i][0] > limit {
        BigBefore(bins, limit, pivot, i);
      }
      Split(bins, pivot + 1);
      BigPivot(front, back, other, limit);
    } else if pivot > 0 {
      SmallPivot(bins, limit, pivot);
      VolumeDecides(bins, other, limit, pivot);
    } else {
      FlattenMember(bins, bins[0][0]);
      FlattenPositive(bins, limit);
      SumAtLeastTerm(Flatten(bins), 0, Itself);
      VolumeDecides(bins, other, limit, 0);
    }
  }

  /** First-fit decreasing never uses more than one and a half times the bins of any other packing of the same units. */
  lemma ThreeHalvesBound(bins: seq<Bin>, other: seq<Bin>, limit: real)
    requires limit > 0.0
    requires ValidPacking(bins, limit) && FirstFitPacking(bins, limit) && DecreasingPacking(bins)
    requires ValidPacking(other, limit)
    requires multiset(Flatten(bins)) == multiset(Flatten(other))
    ensures 2 * |bins| <= 3 * |other|
  {
    if |bins| > 0 {
      var pivot := (2 * |bins| + 2) / 3 - 1;
      PivotDecides(bins, other, limit, pivot);
    }
  }
}
