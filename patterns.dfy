/** `samplePatternIndex` (Alexei/app.js:241-260, copied with a fixed table
    into Robert/tests/test-ennemy-pattern-sampling.mjs) and the bucket
    counting of that test. A distribution table lists, by increasing starting
    difficulty, the relative likelihood of each pattern; a draw picks a table
    row by difficulty and then inverts the cumulative likelihoods. The random
    number `Math.random()` is a parameter u in [0, 1). */
module Patterns {

  datatype Distribution = Distribution(fromDifficulty: int, likelihoods: seq<nat>)

  /** The table rows from `dists` on, starting with `acc` as the current
      likelihoods: each row whose `fromDifficulty` does not exceed the
      difficulty replaces them, and the first row that does stops the scan. */
  function SelectFrom(difficulty: int, dists: seq<Distribution>, acc: seq<nat>): seq<nat>
  {
    if dists == [] || dists[0].fromDifficulty > difficulty then acc
    else SelectFrom(difficulty, dists[1..], dists[0].likelihoods)
  }

  /** The likelihoods the first loop of `samplePatternIndex` settles on. */
  function Selected(difficulty: int, dists: seq<Distribution>): seq<nat>
  {
    SelectFrom(difficulty, dists, [])
  }

  /** The rows are listed by non-decreasing starting difficulty. */
  predicate SortedTable(dists: seq<Distribution>) {
    forall i, j :: 0 <= i < j < |dists| ==> dists[i].fromDifficulty <= dists[j].fromDifficulty
  }

  /** On a sorted table the scan picks the last row whose starting difficulty
      is at most the difficulty, and no likelihoods at all when there is none. */
  lemma {:induction false} SelectedIsLastQualifying(difficulty: int, dists: seq<Distribution>, acc: seq<nat>)
    requires SortedTable(dists)
    ensures (dists == [] || dists[0].fromDifficulty > difficulty) ==> SelectFrom(difficulty, dists, acc) == acc
    ensures forall k ::
      (0 <= k < |dists| && dists[k].fromDifficulty <= difficulty
       && (k + 1 == |dists| || dists[k + 1].fromDifficulty > difficulty)) ==>
      SelectFrom(difficulty, dists, acc) == dists[k].likelihoods
    decreases |dists|
  {
    if dists != [] && dists[0].fromDifficulty <= difficulty {
      SelectedIsLastQualifying(difficulty, dists[1..], dists[0].likelihoods);
      forall k | 0 <= k < |dists| && dists[k].fromDifficulty <= difficulty
        && (k + 1 == |dists| || dists[k + 1].fromDifficulty > difficulty)
        ensures SelectFrom(difficulty, dists, acc) == dists[k].likelihoods
      {
        if k > 0 {
          assert dists[1..][k - 1] == dists[k];
        } else if |dists| > 1 {
          assert dists[1..][0] == dists[1];
        }
      }
    }
  }

  /** The sum of the first k likelihoods. */
  function Prefix(ls: seq<nat>, k: nat): nat
    requires k <= |ls|
  {
    if k == 0 then 0 else Prefix(ls, k - 1) + ls[k - 1]
  }

  /** `likelihoods.reduce((s, x) => s + x, 0)`. */
  function Sum(ls: seq<nat>): nat {
    Prefix(ls, |ls|)
  }

  lemma {:induction false} PrefixMono(ls: seq<nat>, i: nat, j: nat)
    requires i <= j <= |ls|
    ensures Prefix(ls, i) <= Prefix(ls, j)
    decreases j
  {
    if i < j {
      PrefixMono(ls, i, j - 1);
    }
  }

  /** `Math.floor(Math.random() * total)`. */
  function Draw(u: real, total: nat): (s: int)
    requires 0.0 <= u < 1.0
    ensures total == 0 ==> s == 0
    ensures total > 0 ==> 0 <= s < total
  {
    DrawBelow(u, total);
    (u * total as real).Floor
  }

  lemma DrawBelow(u: real, total: nat)
    requires 0.0 <= u < 1.0
    ensures 0.0 <= u * total as real <= total as real
    ensures total > 0 ==> u * total as real < total as real
  {
  }

  /** The second loop from position j with `rem` left of the sample: it
      subtracts each likelihood in turn and stops at the first one that takes
      the sample below zero, or at the end of the list. */
  function Scan(ls: seq<nat>, j: nat, rem: int): (k: nat)
    requires j <= |ls|
    ensures j <= k <= |ls|
    decreases |ls| - j
  {
    if j == |ls| || rem - ls[j] < 0 then j else Scan(ls, j + 1, rem - ls[j])
  }

  /** The index the second loop reaches for sample s, before clamping. */
  function FirstExceeding(ls: seq<nat>, s: int): nat
  {
    Scan(ls, 0, s)
  }

  /** The returned index: `Math.min(patternIdx, likelihoods.length - 1)`,
      which is -1 when no row was selected. */
  function PatternIndex(ls: seq<nat>, s: int): (r: int)
    ensures ls == [] ==> r == -1
    ensures ls != [] ==> 0 <= r < |ls|
  {
    var k := FirstExceeding(ls, s);
    if k < |ls| - 1 then k else |ls| - 1
  }

  /** Scanning from j, a sample in [Prefix(j), Sum) lands in the bucket whose
      cumulative range holds it. */
  lemma {:induction false} ScanBracket(ls: seq<nat>, j: nat, s: int)
    requires j <= |ls| && Prefix(ls, j) <= s < Sum(ls)
    ensures var k := Scan(ls, j, s - Prefix(ls, j));
      j <= k < |ls| && Prefix(ls, k) <= s < Prefix(ls, k + 1)
    decreases |ls| - j
  {
    if j == |ls| {
      assert false;
    } else if s - Prefix(ls, j) - ls[j] >= 0 {
      assert Prefix(ls, j + 1) == Prefix(ls, j) + ls[j];
      ScanBracket(ls, j + 1, s);
    }
  }

  /** For an integer sample s in [0, total) the result is the pattern whose
      cumulative range [Prefix(k), Prefix(k + 1)) contains s, and conversely:
      so exactly `ls[k]` of the `total` equally likely samples give pattern k. */
  lemma BucketIff(ls: seq<nat>, s: int, k: nat)
    requires 0 <= s < Sum(ls) && k < |ls|
    ensures PatternIndex(ls, s) == k <==> Prefix(ls, k) <= s < Prefix(ls, k + 1)
  {
    ScanBracket(ls, 0, s);
    var f := FirstExceeding(ls, s);
    if f < k {
      PrefixMono(ls, f + 1, k);
    } else if k < f {
      PrefixMono(ls, k + 1, f);
    }
  }

  /** `samplePatternIndex(difficulty, distributions)` with the random number u. */
  method SamplePatternIndex(difficulty: int, dists: seq<Distribution>, u: real) returns (idx: int)
    requires 0.0 <= u < 1.0
    ensures var ls := Selected(difficulty, dists);
      idx == PatternIndex(ls, Draw(u, Sum(ls)))
  {
    var likelihoods: seq<nat> := [];
    var i := 0;
    while i < |dists|
      invariant 0 <= i <= |dists|
      invariant Selected(difficulty, dists) == SelectFrom(difficulty, dists[i..], likelihoods)
    {
      if dists[i].fromDifficulty > difficulty {
        break;
      }
      likelihoods := dists[i].likelihoods;
      assert dists[i..][1..] == dists[i + 1..];
      i := i + 1;
    }
    var total := Sum(likelihoods);
    ghost var s0 := Draw(u, total);
    var sample := (u * total as real).Floor;
    var patternIdx := 0;
    var j := 0;
    while j < |likelihoods|
      invariant 0 <= j <= |likelihoods| && patternIdx == j
      invariant sample == s0 - Prefix(likelihoods, j)
      invariant Scan(likelihoods, 0, s0) == Scan(likelihoods, j, sample)
    {
      sample := sample - likelihoods[j];
      if sample < 0 {
        break;
      }
      patternIdx := patternIdx + 1;
      j := j + 1;
    }
    idx := if patternIdx < |likelihoods| - 1 then patternIdx else |likelihoods| - 1;
  }

  /** The table of the pattern-sampling test. */
  const TestTable: seq<Distribution> := [
    Distribution(0, [1, 1]),
    Distribution(1, [1, 1, 2]),
    Distribution(2, [1, 1, 10]),
    Distribution(4, [0, 0, 1])
  ]

  /** Which row of the test table each difficulty uses: difficulty 3 falls
      back to the difficulty-2 weights and every difficulty from 4 on uses
      the last row; below 0 nothing is selected. */
  lemma TestTableRows(difficulty: int)
    ensures difficulty < 0 ==> Selected(difficulty, TestTable) == []
    ensures difficulty == 0 ==> Selected(difficulty, TestTable) == [1, 1]
    ensures difficulty == 1 ==> Selected(difficulty, TestTable) == [1, 1, 2]
    ensures 2 <= difficulty < 4 ==> Selected(difficulty, TestTable) == [1, 1, 10]
    ensures 4 <= difficulty ==> Selected(difficulty, TestTable) == [0, 0, 1]
  {
    assert SortedTable(TestTable);
    SelectedIsLastQualifying(difficulty, TestTable, []);
    if 0 <= difficulty {
      var k := if difficulty == 0 then 0 else if difficulty == 1 then 1 else if difficulty < 4 then 2 else 3;
      assert TestTable[k].fromDifficulty <= difficulty;
      assert k + 1 == |TestTable| || TestTable[k + 1].fromDifficulty > difficulty;
    }
  }

  /** The pattern the test's `samplePatternIndex(difficulty)` returns for u. */
  function TestIndex(difficulty: int, u: real): int
    requires 0.0 <= u < 1.0
  {
    var ls := Selected(difficulty, TestTable);
    PatternIndex(ls, Draw(u, Sum(ls)))
  }

  /** The range the test asserts holds for every non-negative difficulty and
      every draw; a negative difficulty gives -1. */
  lemma TestIndexRange(difficulty: int, u: real)
    requires 0.0 <= u < 1.0
    ensures difficulty >= 0 ==> 0 <= TestIndex(difficulty, u) < 3
    ensures difficulty < 0 ==> TestIndex(difficulty, u) == -1
  {
    TestTableRows(difficulty);
  }

  /** From difficulty 4 on the weights are [0, 0, 1]: every draw gives 2. */
  lemma HighDifficultyAlwaysLast(difficulty: int, u: real)
    requires difficulty >= 4 && 0.0 <= u < 1.0
    ensures TestIndex(difficulty, u) == 2
  {
    TestTableRows(difficulty);
    var ls: seq<nat> := [0, 0, 1];
    assert Prefix(ls, 1) == 0 && Prefix(ls, 2) == 0;
    assert Sum(ls) == 1;
    assert Draw(u, 1) == 0;
    assert Scan(ls, 2, 0) == 2;
    assert Scan(ls, 1, 0) == 2;
  }

  /** At difficulty 0 only two likelihoods exist, so pattern 2 never comes up. */
  lemma DifficultyZeroNeverLast(u: real)
    requires 0.0 <= u < 1.0
    ensures TestIndex(0, u) != 2
  {
    TestTableRows(0);
  }

  /** How many of the draws give pattern k. */
  function Count(difficulty: int, draws: seq<real>, k: int): nat
    requires forall i :: 0 <= i < |draws| ==> 0.0 <= draws[i] < 1.0
  {
    if draws == [] then 0
    else Count(difficulty, draws[..|draws| - 1], k) + (if TestIndex(difficulty, draws[|draws| - 1]) == k then 1 else 0)
  }

  /** When every draw falls in range the three buckets together count every draw once. */
  lemma {:induction false} BucketsCountEveryDraw(difficulty: int, draws: seq<real>)
    requires forall i :: 0 <= i < |draws| ==> 0.0 <= draws[i] < 1.0
    requires forall i :: 0 <= i < |draws| ==> 0 <= TestIndex(difficulty, draws[i]) < 3
    ensures Count(difficulty, draws, 0) + Count(difficulty, draws, 1) + Count(difficulty, draws, 2) == |draws|
  {
    if draws != [] {
      BucketsCountEveryDraw(difficulty, draws[..|draws| - 1]);
    }
  }

  /** `runSampleTest(difficulty, count)` with one draw per iteration. The
      buckets hold counts; the test scales each increment by 1/count. The
      test's two range assertions are the `passed` result: the run stops at
      the first index out of range. */
  method RunSampleTest(difficulty: int, draws: seq<real>) returns (passed: bool, buckets: array<int>)
    requires forall i :: 0 <= i < |draws| ==> 0.0 <= draws[i] < 1.0
    ensures fresh(buckets) && buckets.Length == 3
    ensures passed <==> forall i :: 0 <= i < |draws| ==> 0 <= TestIndex(difficulty, draws[i]) < 3
    ensures passed ==> forall k :: 0 <= k < 3 ==> buckets[k] == Count(difficulty, draws, k)
  {
    buckets := new int[3](_ => 0);
    var i := 0;
    while i < |draws|
      invariant 0 <= i <= |draws|
      invariant forall j :: 0 <= j < i ==> 0 <= TestIndex(difficulty, draws[j]) < 3
      invariant forall k :: 0 <= k < 3 ==> buckets[k] == Count(difficulty, draws[..i], k)
    {
      var idx := SamplePatternIndex(difficulty, TestTable, draws[i]);
      if !(idx >= 0 && idx < buckets.Length) {
        return false, buckets;
      }
      assert draws[..i + 1][..i] == draws[..i];
      buckets[idx] := buckets[idx] + 1;
      i := i + 1;
    }
    assert draws[..i] == draws;
    passed := true;
  }

  /** The test's range assertions pass for every run exactly when the
      difficulty is not negative. */
  lemma SampleTestPasses(difficulty: int, draws: seq<real>)
    requires forall i :: 0 <= i < |draws| ==> 0.0 <= draws[i] < 1.0
    requires draws != []
    ensures (forall i :: 0 <= i < |draws| ==> 0 <= TestIndex(difficulty, draws[i]) < 3) <==> difficulty >= 0
  {
    TestIndexRange(difficulty, draws[0]);
    forall i | 0 <= i < |draws| ensures difficulty >= 0 ==> 0 <= TestIndex(difficulty, draws[i]) < 3 {
      TestIndexRange(difficulty, draws[i]);
    }
  }
}
