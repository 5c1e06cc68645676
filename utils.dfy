/** Helpers of utils.go: the slice search, the nullable-string constructor
    and the bigram (Dice coefficient) matcher `compareID`.

    `compareID` is modelled with one unit per character; for ASCII text a
    Go string has one byte per character, so the windows are exactly the
    byte windows the source takes. Its float32 score is kept as the pair
    (2 * intersect, len(a) + len(b) - 2). */
module Utils {

  /** database/sql.NullString: an absent string has Valid == false. */
  datatype NullString = NullString(str: string, valid: bool)

  /** createNullString: "" is absent, anything else present and unchanged. */
  function CreateNullString(str: string): (n: NullString)
    ensures n.valid <==> str != ""
    ensures n.valid ==> n.str == str
    ensures !n.valid ==> n == NullString("", false)
  {
    if |str| == 0 then NullString("", false) else NullString(str, true)
  }

  /** sliceContains: linear search for `s` in `slice`. */
  method SliceContains(s: string, slice: seq<string>) returns (found: bool)
    ensures found <==> s in slice
  {
    for i := 0 to |slice|
      invariant s !in slice[..i]
    {
      if slice[i] == s {
        return true;
      }
    }
    return false;
  }

  // ---------------------------------------------------------------------
  // The matcher

  /** What `compareID` does with a pair of ids: it returns 1.0 for equal
      strings, divides 2 * intersect by len(a) + len(b) - 2 otherwise, and
      panics when it slices an empty side with `[:len-1]`. */
  datatype Score = Same | Ratio(num: nat, den: int) | Panic

  /** The 2-character windows s[i..i+2] for i = 0 .. |s| - 2, in order. */
  function Bigrams(s: string): (w: seq<string>)
    ensures |w| == if |s| < 2 then 0 else |s| - 1
    ensures forall i :: 0 <= i < |w| ==> w[i] == s[i..i + 2]
  {
    if |s| < 2 then [] else Bigrams(s[..|s| - 1]) + [s[|s| - 2..]]
  }

  /** The size of the multiset intersection of the two bigram multisets,
      that is the sum over bigrams of min(count in a, count in b). */
  function Intersection(a: string, b: string): nat
  {
    |multiset(Bigrams(a)) * multiset(Bigrams(b))|
  }

  /** The reference definition of the score: the Dice coefficient with the
      source's equality short-cut and its panic on an empty side. */
  function Similarity(a: string, b: string): Score
  {
    if a == b then Same
    else if |a| == 0 || |b| == 0 then Panic
    else Ratio(2 * Intersection(a, b), |a| + |b| - 2)
  }

  // ---------------------------------------------------------------------
  // The loops of compareID

  /** The first loop of compareID: counts every bigram of `a` in a count map.
      Go's map[string]int, whose missing keys read as 0, is a multiset. */
  method CountBigrams<T(==)>(windows: seq<T>) returns (bigrams: multiset<T>)
    ensures bigrams == multiset(windows)
  {
    bigrams := multiset{};
    for i := 0 to |windows|
      invariant bigrams == multiset(windows[..i])
    {
      var bi := windows[i];
      assert windows[..i + 1] == windows[..i] + [bi];
      bigrams := bigrams[bi := bigrams[bi] + 1];
    }
    assert windows[..|windows|] == windows;
  }

  /** Matching one more bigram `w` of b against the remaining counts
      (A - B) either uses one up and grows the intersection by one, or finds
      none left and changes nothing. */
  lemma MatchStep<T>(A: multiset<T>, B: multiset<T>, w: T)
    ensures (A - B)[w] > 0 ==>
      A * (B + multiset{w}) == A * B + multiset{w} &&
      A - (B + multiset{w}) == (A - B)[w := (A - B)[w] - 1]
    ensures (A - B)[w] == 0 ==>
      A * (B + multiset{w}) == A * B &&
      A - (B + multiset{w}) == A - B
  {
    if (A - B)[w] > 0 {
      assert forall x :: (A * (B + multiset{w}))[x] == (A * B + multiset{w})[x];
      assert forall x :: (A - (B + multiset{w}))[x] == (A - B)[w := (A - B)[w] - 1][x];
    } else {
      assert forall x :: (A * (B + multiset{w}))[x] == (A * B)[x];
      assert forall x :: (A - (B + multiset{w}))[x] == (A - B)[x];
    }
  }

  /** The second loop of compareID: walks the bigrams of `b` in order and,
      for each one whose count is still positive, uses up one count and
      adds one to the intersection. The greedy walk finds the whole
      multiset intersection. */
  method MatchBigrams<T(==)>(bigrams: multiset<T>, windows: seq<T>) returns (intersect: nat)
    ensures intersect == |bigrams * multiset(windows)|
  {
    var left := bigrams;
    intersect := 0;
    for j := 0 to |windows|
      invariant left == bigrams - multiset(windows[..j])
      invariant intersect == |bigrams * multiset(windows[..j])|
    {
      var bi := windows[j];
      assert windows[..j + 1] == windows[..j] + [bi];
      MatchStep(bigrams, multiset(windows[..j]), bi);
      var count := left[bi];
      if count > 0 {
        left := left[bi := count - 1];
        intersect := intersect + 1;
      }
    }
    assert windows[..|windows|] == windows;
  }

  /** compareID: the equality short-cut, the panics of `a[:lena-1]` and
      `b[:lenb-1]` on an empty side, then the two loops over the bigrams
      a[i:i+2] and b[i:i+2], and the ratio. */
  method CompareID(a: string, b: string) returns (r: Score)
    ensures r == Similarity(a, b)
  {
    var lena, lenb := |a|, |b|;
    if a == b {
      return Same;
    }
    if lena == 0 {
      return Panic;
    }
    var bigrams := CountBigrams(Bigrams(a));
    if lenb == 0 {
      return Panic;
    }
    var intersect := MatchBigrams(bigrams, Bigrams(b));
    return Ratio(2 * intersect, lena + lenb - 2);
  }

  /** `score >= match_threshold` (0.5) as float32 arithmetic decides it:
      x/d >= 0.5 is 2x >= d for a positive denominator, 0/0 is NaN (never
      at least 0.5) and a positive number over 0 is +Inf. */
  predicate MeetsThreshold(s: Score)
  {
    match s
    case Same => true
    case Ratio(num, den) => (den > 0 && 2 * num >= den) || (den == 0 && num > 0)
    case Panic => false
  }

  // ---------------------------------------------------------------------
  // Multiset facts behind the Dice coefficient

  lemma IntersectionSplits<T>(A: multiset<T>, B: multiset<T>)
    ensures A == A * B + (A - A * B) && B == A * B + (B - A * B)
    ensures |A * B| <= |A| && |A * B| <= |B|
  {
    assert forall x :: A[x] == (A * B + (A - A * B))[x];
    assert forall x :: B[x] == (A * B + (B - A * B))[x];
  }

  lemma IntersectionCommutes<T>(A: multiset<T>, B: multiset<T>)
    ensures A * B == B * A
  {
    assert forall x :: (A * B)[x] == (B * A)[x];
  }

  /** 2 |A * B| reaches |A| + |B| exactly when A and B are equal. */
  lemma DiceIsOneIffEqual<T>(A: multiset<T>, B: multiset<T>)
    ensures 2 * |A * B| == |A| + |B| <==> A == B
  {
    IntersectionSplits(A, B);
    if A == B {
      assert forall x :: (A * B)[x] == A[x];
      assert A * B == A;
    }
  }

  lemma DiceIsZeroIffDisjoint<T>(s: seq<T>, t: seq<T>)
    ensures |multiset(s) * multiset(t)| == 0 <==> forall x :: x in s ==> x !in t
  {
    var A, B := multiset(s), multiset(t);
    if |A * B| > 0 {
      var x :| x in A * B;
      assert x in s && x in t;
    } else {
      assert A * B == multiset{};
      forall x | x in s
        ensures x !in t
      {
        assert (A * B)[x] == 0 && A[x] > 0;
      }
    }
  }

  // ---------------------------------------------------------------------
  // Properties of the matcher

  /** The intersection is at most the number of bigrams of either side. */
  lemma IntersectionBound(a: string, b: string)
    ensures Intersection(a, b) <= |Bigrams(a)| && Intersection(a, b) <= |Bigrams(b)|
  {
    IntersectionSplits(multiset(Bigrams(a)), multiset(Bigrams(b)));
  }

  /** The score does not depend on the order of the arguments. */
  lemma SimilaritySymmetric(a: string, b: string)
    ensures Similarity(a, b) == Similarity(b, a)
  {
    IntersectionCommutes(multiset(Bigrams(a)), multiset(Bigrams(b)));
  }

  /** When len(a) + len(b) > 2 the score 2 * intersect / (len(a) + len(b) - 2)
      lies in [0, 1], as the doc comment of compareID promises. */
  lemma ScoreInUnitInterval(a: string, b: string)
    requires |a| + |b| > 2
    ensures Similarity(a, b).Same? || Similarity(a, b).Panic? ||
      (Similarity(a, b).den > 0 && 0 <= Similarity(a, b).num <= Similarity(a, b).den)
  {
    IntersectionBound(a, b);
  }

  /** Two identical ids match, including two empty ones: equality is tested
      before any slicing. */
  lemma EqualIdsMatch(a: string)
    ensures Similarity(a, a) == Same && MeetsThreshold(Similarity(a, a))
  {
  }

  /** Exactly one empty side makes compareID panic. */
  lemma EmptySidePanics(a: string, b: string)
    requires (a == "") != (b == "")
    ensures Similarity(a, b) == Panic
  {
  }

  /** Two different one-character ids divide 0 by 0; the NaN never reaches
      the threshold. */
  lemma SingleCharactersGiveNaN(a: string, b: string)
    requires |a| == 1 && |b| == 1 && a != b
    ensures Similarity(a, b) == Ratio(0, 0) && !MeetsThreshold(Similarity(a, b))
  {
  }

  /** For two different non-empty ids with len(a) + len(b) > 2 the score is
      exactly 1 iff their bigram multisets coincide, and 0 iff they share no
      bigram; every other pair falls strictly between 0 and 1. */
  lemma ScoreOneIffSameBigrams(a: string, b: string)
    requires a != b && |a| > 0 && |b| > 0 && |a| + |b| > 2
    ensures Similarity(a, b).num == Similarity(a, b).den <==>
      multiset(Bigrams(a)) == multiset(Bigrams(b))
    ensures Similarity(a, b).num == 0 <==> forall x :: x in Bigrams(a) ==> x !in Bigrams(b)
  {
    var s, t := Bigrams(a), Bigrams(b);
    var A, B := multiset(s), multiset(t);
    assert Similarity(a, b) == Ratio(2 * |A * B|, |A| + |B|);
    DiceIsOneIffEqual(A, B);
    DiceIsZeroIffDisjoint(s, t);
  }

  /** Two different ids can score exactly 1: "aba" and "bab" (any xyx and
      yxy with x != y) have the same bigram multiset {xy, yx}. */
  lemma DifferentIdsCanScoreOne(a: string, b: string)
    requires |a| == 3 && |b| == 3 && a[0] != a[1]
    requires a[2] == a[0] && b[0] == a[1] && b[1] == a[0] && b[2] == a[1]
    ensures a != b && Similarity(a, b) == Ratio(4, 4)
  {
    var A, B := multiset(Bigrams(a)), multiset(Bigrams(b));
    assert a != b by {
      assert a[0] != b[0];
    }
    assert Similarity(a, b) == Ratio(2 * |A * B|, 4);
    var p, q := [a[0], a[1]], [a[1], a[0]];
    assert A == multiset{p, q} by {
      BigramsOfThree(a);
    }
    assert B == multiset{q, p} by {
      BigramsOfThree(b);
    }
    assert A * B == A by {
      SelfIntersection(A);
    }
  }

  lemma SelfIntersection<T>(A: multiset<T>)
    ensures A * A == A
  {
    assert forall x :: (A * A)[x] == A[x];
  }

  lemma BigramsOfThree(s: string)
    requires |s| == 3
    ensures Bigrams(s) == [[s[0], s[1]], [s[1], s[2]]]
  {
    assert s[..2][..1] == s[..1];
    assert s[..2][0..] == [s[0], s[1]];
    assert s[1..] == [s[1], s[2]];
  }

  /** For a positive denominator the threshold test is the real-valued
      comparison num / den >= 0.5, that is 4 * intersect >= len(a) + len(b) - 2. */
  lemma ThresholdIsOneHalf(s: Score)
    requires s.Ratio? && s.den > 0
    ensures MeetsThreshold(s) <==> (s.num as real) / (s.den as real) >= 0.5
  {
    var n, d := s.num as real, s.den as real;
    assert n / d * d == n;
    if 2 * s.num >= s.den {
      assert n / d >= 0.5;
    }
  }
}
