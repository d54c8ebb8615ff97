// How alike two log lines are: their edit distance after normalization, as a score.
module LineSimilarity {
  import opened Basics
  import opened EditDistance

  function Similarity(norm1: string, norm2: string): real {
    if norm1 == norm2 then 1.0
    else if |norm1| == 0 || |norm2| == 0 then 0.0
    else 1.0 - Lev(norm1, norm2) as real / Max(|norm1|, |norm2|) as real
  }

  lemma RatioInUnit(n: nat, m: nat)
    requires 0 < m && n <= m
    ensures 0.0 <= n as real / m as real <= 1.0
    ensures n as real / m as real == 0.0 <==> n == 0
  {
    var q := n as real / m as real;
    assert q * m as real == n as real;
  }

  // The score is a symmetric number in [0,1] that is 1 exactly for equal lines.
  lemma SimilarityLaws(x: string, y: string)
    ensures 0.0 <= Similarity(x, y) <= 1.0
    ensures Similarity(x, y) == 1.0 <==> x == y
    ensures Similarity(x, y) == Similarity(y, x)
  {
    LevSymmetric(x, y);
    LevBounds(x, y);
    LevZeroIffEqual(x, y);
    if x != y && |x| != 0 && |y| != 0 {
      RatioInUnit(Lev(x, y), Max(|x|, |y|));
    }
  }

  // What a score says: what it lacks of 1 is the distance in units of the greater length, and a line
  // has nothing in common with an empty one.
  ghost predicate IsScore(score: real, x: string, y: string) {
    && (x == y ==> score == 1.0)
    && (x != y && (x == [] || y == []) ==> score == 0.0)
    && (x != y && x != [] && y != [] ==> IsRatio(1.0 - score, Lev(x, y), Max(|x|, |y|)))
  }

  lemma {:induction false} SimilarityIsScore(x: string, y: string)
    ensures IsScore(Similarity(x, y), x, y)
  {
    if x != y && x != [] && y != [] {
      QuotientIsRatio(1.0 - Similarity(x, y), Lev(x, y), Max(|x|, |y|));
    }
  }

  // So different lines score 0 exactly when their distance is as great as it can be.
  lemma {:induction false} ZeroScore(score: real, x: string, y: string)
    requires IsScore(score, x, y) && x != y
    ensures score == 0.0 <==> Lev(x, y) == Max(|x|, |y|)
  {
    if x != [] && y != [] {
      RatioIsOne(1.0 - score, Lev(x, y), Max(|x|, |y|));
    } else {
      LevBounds(x, y);
    }
  }

  // The module-level normalization cache and the score that reads through it.
  class LineMatcher {
    const normalize: string -> string
    var cache: map<string, string>

    ghost predicate Valid()
      reads this
    {
      forall line :: line in cache ==> cache[line] == normalize(line)
    }

    constructor (normalize: string -> string)
      ensures Valid() && this.normalize == normalize
    {
      this.normalize := normalize;
      cache := map[];
    }

    method NormalizeLine(line: string) returns (r: string)
      requires Valid()
      modifies this`cache
      ensures Valid() && r == normalize(line)
      ensures cache == old(cache)[line := normalize(line)]
    {
      if line in cache {
        assert cache[line := cache[line]] == cache;
        return cache[line];
      }
      r := normalize(line);
      cache := cache[line := r];
    }

    method CalculateSimilarity(line1: string, line2: string) returns (score: real)
      requires Valid()
      modifies this`cache
      ensures Valid()
      ensures score == Similarity(normalize(line1), normalize(line2))
      ensures 0.0 <= score <= 1.0
      ensures score == 1.0 <==> normalize(line1) == normalize(line2)
      ensures IsScore(score, normalize(line1), normalize(line2))
    {
      var norm1 := NormalizeLine(line1);
      var norm2 := NormalizeLine(line2);
      SimilarityLaws(norm1, norm2);
      SimilarityIsScore(norm1, norm2);
      if norm1 == norm2 {
        return 1.0;
      }
      if |norm1| == 0 || |norm2| == 0 {
        return 0.0;
      }
      var distance := LevenshteinDistance(norm1, norm2);
      var maxLen := Max(|norm1|, |norm2|);
      return 1.0 - distance as real / maxLen as real;
    }
  }
}
