/** The rating page (src/ui/rating.rs): each student's final percentage from
    the configuration, the first-match classification of finals into rating
    buckets, the fixed-width histogram, and the editor handlers that keep the
    ratings ordered by descending threshold. */
module Ratings {
  import opened Common
  import opened Models

  /** One line of the statistics table. */
  datatype RatingStats = RatingStats(labelText: string, count: nat, ratio: real)

  function Min(a: int, b: int): int {
    if a <= b then a else b
  }

  // ---------------------------------------------------------------------------
  // Counting
  // ---------------------------------------------------------------------------

  function Sum(t: seq<nat>): nat {
    if t == [] then 0 else Sum(t[..|t| - 1]) + t[|t| - 1]
  }

  lemma {:induction false} SumZeros(n: nat)
    ensures Sum(seq(n, _ => 0)) == 0
  {
    if n > 0 {
      assert seq(n, _ => 0)[..n - 1] == seq(n - 1, _ => 0);
      SumZeros(n - 1);
    }
  }

  /** Raising one entry by one raises the sum by one. */
  lemma {:induction false} SumIncrement(t: seq<nat>, k: nat)
    requires k < |t|
    ensures Sum(t[k := t[k] + 1]) == Sum(t) + 1
  {
    var u := t[k := t[k] + 1];
    if k < |t| - 1 {
      assert u[..|u| - 1] == t[..|t| - 1][k := t[k] + 1];
      SumIncrement(t[..|t| - 1], k);
    } else {
      assert u[..|u| - 1] == t[..|t| - 1];
    }
  }

  /** `n` counters, one per index, each raised once per key equal to its index;
      keys outside `0..n` are not counted. */
  function Tally(keys: seq<int>, n: nat): (t: seq<nat>)
    ensures |t| == n
  {
    if keys == [] then seq(n, _ => 0)
    else
      var t := Tally(keys[..|keys| - 1], n);
      var k := keys[|keys| - 1];
      if 0 <= k < n then t[k := t[k] + 1] else t
  }

  /** Tallying one more key raises its counter, when it has one. */
  lemma TallyAppend(keys: seq<int>, n: nat, x: int)
    ensures Tally(keys + [x], n) ==
      (var t := Tally(keys, n); if 0 <= x < n then t[x := t[x] + 1] else t)
  {
    assert (keys + [x])[..|keys|] == keys;
  }

  /** The number of keys inside `0..n`. */
  function Hits(keys: seq<int>, n: nat): nat {
    if keys == [] then 0
    else Hits(keys[..|keys| - 1], n) + (if 0 <= keys[|keys| - 1] < n then 1 else 0)
  }

  /** The counters add up to the number of keys that were counted. */
  lemma {:induction false} TallySum(keys: seq<int>, n: nat)
    ensures Sum(Tally(keys, n)) == Hits(keys, n)
  {
    if keys == [] {
      SumZeros(n);
    } else {
      TallySum(keys[..|keys| - 1], n);
      var k := keys[|keys| - 1];
      if 0 <= k < n {
        SumIncrement(Tally(keys[..|keys| - 1], n), k);
      }
    }
  }

  lemma {:induction false} HitsAtMost(keys: seq<int>, n: nat)
    ensures Hits(keys, n) <= |keys|
    ensures (forall j :: 0 <= j < |keys| ==> 0 <= keys[j] < n) ==> Hits(keys, n) == |keys|
  {
    if keys != [] {
      HitsAtMost(keys[..|keys| - 1], n);
    }
  }

  /** The counting loop shared by `compute_rating_stats` and `histogram`:
      `n` zeroed counters, each key inside `0..n` adding one to its counter. */
  method CountKeys(keys: seq<int>, n: nat) returns (counts: array<nat>)
    ensures fresh(counts)
    ensures counts[..] == Tally(keys, n)
  {
    counts := new nat[n](_ => 0);
    assert counts[..] == seq(n, _ => 0);
    var k := 0;
    while k < |keys|
      invariant 0 <= k <= |keys|
      invariant counts.Length == n
      invariant counts[..] == Tally(keys[..k], n)
    {
      TallyAppend(keys[..k], n, keys[k]);
      assert keys[..k + 1] == keys[..k] + [keys[k]];
      if 0 <= keys[k] < n {
        counts[keys[k]] := counts[keys[k]] + 1;
      }
      k := k + 1;
    }
    assert keys[..k] == keys;
  }

  // ---------------------------------------------------------------------------
  // compute_rating_stats
  // ---------------------------------------------------------------------------

  /** The index of the first rating, in list order, whose threshold the score
      reaches. */
  function FirstMatch(ratings: seq<Rating>, s: int): (r: Option<nat>)
    ensures r.Some? ==> r.value < |ratings| && s >= ratings[r.value].minScore
                        && forall j :: 0 <= j < r.value ==> s < ratings[j].minScore
    ensures r.None? ==> forall j :: 0 <= j < |ratings| ==> s < ratings[j].minScore
  {
    if ratings == [] then None
    else if s >= ratings[0].minScore then Some(0)
    else match FirstMatch(ratings[1..], s)
      case Some(i) => Some(i + 1)
      case None => None
  }

  predicate SortedDesc(rs: seq<Rating>) {
    forall i, j :: 0 <= i < j < |rs| ==> rs[i].minScore >= rs[j].minScore
  }

  /** Over ratings sorted by descending threshold, a higher score never lands
      in a later bucket. */
  lemma FirstMatchMonotone(ratings: seq<Rating>, s: int, t: int)
    requires SortedDesc(ratings) && s <= t
    ensures FirstMatch(ratings, s).Some? ==>
      FirstMatch(ratings, t).Some? && FirstMatch(ratings, t).value <= FirstMatch(ratings, s).value
  {
  }

  /** The bucket key of each score, -1 for a score below every threshold. */
  function RatingKeys(ratings: seq<Rating>, scores: seq<U32>): (keys: seq<int>)
    ensures |keys| == |scores|
  {
    if scores == [] then []
    else
      var m := FirstMatch(ratings, scores[|scores| - 1]);
      RatingKeys(ratings, scores[..|scores| - 1]) + [if m.Some? then m.value else -1]
  }

  /** The number of scores below every threshold. */
  function NumUnrated(ratings: seq<Rating>, scores: seq<U32>): nat {
    if scores == [] then 0
    else NumUnrated(ratings, scores[..|scores| - 1]) + (if FirstMatch(ratings, scores[|scores| - 1]).None? then 1 else 0)
  }

  /** Every score is counted once, in its bucket, or is unrated. */
  lemma {:induction false} RatingCountsSum(ratings: seq<Rating>, scores: seq<U32>)
    ensures Sum(Tally(RatingKeys(ratings, scores), |ratings|)) + NumUnrated(ratings, scores) == |scores|
  {
    if scores != [] {
      var init := scores[..|scores| - 1];
      RatingCountsSum(ratings, init);
      var keys := RatingKeys(ratings, scores);
      var m := FirstMatch(ratings, scores[|scores| - 1]);
      assert keys == RatingKeys(ratings, init) + [if m.Some? then m.value else -1];
      assert keys[..|keys| - 1] == RatingKeys(ratings, init);
      var t := Tally(RatingKeys(ratings, init), |ratings|);
      assert NumUnrated(ratings, scores) == NumUnrated(ratings, init) + (if m.None? then 1 else 0);
      if m.Some? {
        assert Tally(keys, |ratings|) == t[m.value := t[m.value] + 1];
        SumIncrement(t, m.value);
      } else {
        assert Tally(keys, |ratings|) == t;
      }
    } else {
      SumZeros(|ratings|);
    }
  }

  /** `compute_rating_stats`: counts each score in the first rating it
      reaches, then one line per rating with its label, count and share of
      max(|scores|, 1). */
  method ComputeRatingStats(scores: seq<U32>, ratings: seq<Rating>) returns (stats: seq<RatingStats>)
    ensures |stats| == |ratings|
    ensures forall i :: 0 <= i < |ratings| ==>
      && stats[i].labelText == ratings[i].labelText
      && stats[i].count == Tally(RatingKeys(ratings, scores), |ratings|)[i]
      && stats[i].ratio == stats[i].count as real / (if |scores| > 1 then |scores| else 1) as real
  {
    var counts := CountKeys(RatingKeys(ratings, scores), |ratings|);
    var total := if |scores| > 1 then |scores| else 1;
    stats := [];
    var i := 0;
    while i < |ratings|
      invariant 0 <= i <= |ratings|
      invariant |stats| == i
      invariant forall j :: 0 <= j < i ==>
        stats[j] == RatingStats(ratings[j].labelText, counts[j], counts[j] as real / total as real)
    {
      stats := stats + [RatingStats(ratings[i].labelText, counts[i], counts[i] as real / total as real)];
      i := i + 1;
    }
  }

  // ---------------------------------------------------------------------------
  // histogram
  // ---------------------------------------------------------------------------

  /** The bin of a score: `min(s / width, bins - 1)` with `bins - 1 == 100 / width`. */
  function BinOf(s: U32, width: U32): (b: nat)
    requires width > 0
    ensures b <= 100 / width
    ensures b < 100 / width ==> b * width <= s < (b + 1) * width
    ensures b == 100 / width ==> b * width <= s
  {
    Min(s / width, 100 / width)
  }

  function BinKeys(scores: seq<U32>, width: U32): (keys: seq<int>)
    requires width > 0
    ensures |keys| == |scores|
    ensures forall j :: 0 <= j < |keys| ==> 0 <= keys[j] <= 100 / width
  {
    if scores == [] then []
    else BinKeys(scores[..|scores| - 1], width) + [BinOf(scores[|scores| - 1], width)]
  }

  /** `histogram`: `100 / width + 1` counters, each score counted in its bin. */
  method Histogram(scores: seq<U32>, width: U32) returns (h: array<nat>)
    requires width > 0
    ensures fresh(h)
    ensures h.Length == 100 / width + 1
    ensures h[..] == Tally(BinKeys(scores, width), 100 / width + 1)
  {
    var bins := 100 / width + 1;
    h := CountKeys(BinKeys(scores, width), bins);
  }

  /** The histogram's bins add up to the number of scores. */
  lemma HistogramSum(scores: seq<U32>, width: U32)
    requires width > 0
    ensures Sum(Tally(BinKeys(scores, width), 100 / width + 1)) == |scores|
  {
    TallySum(BinKeys(scores, width), 100 / width + 1);
    HitsAtMost(BinKeys(scores, width), 100 / width + 1);
  }

  // ---------------------------------------------------------------------------
  // calc_final_percent
  // ---------------------------------------------------------------------------

  predicate IsEntry(e: Score, sid: string, qid: U32) {
    e.studentId == sid && e.questionId == qid
  }

  /** The score map lookup: collecting the entries into a map keeps the last
      entry for each (student, question) key. */
  function LastScore(scores: seq<Score>, sid: string, qid: U32): (r: Option<Option<U32>>)
    ensures r.None? <==> forall j :: 0 <= j < |scores| ==> !IsEntry(scores[j], sid, qid)
  {
    if scores == [] then None
    else if IsEntry(scores[|scores| - 1], sid, qid) then Some(scores[|scores| - 1].score)
    else LastScore(scores[..|scores| - 1], sid, qid)
  }

  /** The lookup yields the score of the last entry for the key. */
  lemma {:induction false} LastScoreIsLastEntry(scores: seq<Score>, sid: string, qid: U32, j: nat)
    requires j < |scores| && IsEntry(scores[j], sid, qid)
    requires forall k :: j < k < |scores| ==> !IsEntry(scores[k], sid, qid)
    ensures LastScore(scores, sid, qid) == Some(scores[j].score)
  {
    if j < |scores| - 1 {
      LastScoreIsLastEntry(scores[..|scores| - 1], sid, qid, j);
    }
  }

  /** A found score is the score of some entry for the key. */
  lemma {:induction false} LastScoreIsSomeEntry(scores: seq<Score>, sid: string, qid: U32)
    requires LastScore(scores, sid, qid).Some?
    ensures exists j :: (0 <= j < |scores| && IsEntry(scores[j], sid, qid)
      && scores[j].score == LastScore(scores, sid, qid).value)
  {
    var n := |scores| - 1;
    if !IsEntry(scores[n], sid, qid) {
      LastScoreIsSomeEntry(scores[..n], sid, qid);
      var j :| 0 <= j < n && IsEntry(scores[..n][j], sid, qid)
        && scores[..n][j].score == LastScore(scores[..n], sid, qid).value;
      assert scores[j] == scores[..n][j];
    }
  }

  /** The sum of the weights of the first `n` questions, zero and negative
      weights included. */
  function WeightSum(qs: seq<Question>, n: nat): real
    requires n <= |qs|
  {
    if n == 0 then 0.0 else WeightSum(qs, n - 1) + qs[n - 1].weight
  }

  /** A question contributes only with a present score and a positive full score. */
  predicate Rated(q: Question, scores: seq<Score>, sid: string) {
    var e := LastScore(scores, sid, q.id);
    e.Some? && e.value.Some? && q.fullScore > 0
  }

  /** The rate `score / full_score` of one question, when it is rated. */
  function Rate(q: Question, scores: seq<Score>, sid: string): (r: Option<real>)
    ensures r.Some? <==> Rated(q, scores, sid)
    ensures r.Some? ==> r.value * (q.fullScore as real) == LastScore(scores, sid, q.id).value.value as real
  {
    var e := LastScore(scores, sid, q.id);
    if e.Some? && e.value.Some? && q.fullScore > 0 then Some(e.value.value as real / q.fullScore as real)
    else None
  }

  /** The weighted rate sum over the first `n` questions, `None` as soon as
      one of them is not rated. */
  function RateSum(qs: seq<Question>, scores: seq<Score>, sid: string, n: nat): (r: Option<real>)
    requires n <= |qs|
    ensures r.Some? <==> forall i :: 0 <= i < n ==> Rated(qs[i], scores, sid)
  {
    if n == 0 then Some(0.0)
    else
      var prev := RateSum(qs, scores, sid, n - 1);
      var rate := Rate(qs[n - 1], scores, sid);
      if prev.Some? && rate.Some? then Some(prev.value + rate.value * qs[n - 1].weight) else None
  }

  /** One step of `RateSum` over a rated question. */
  lemma RateSumStep(qs: seq<Question>, scores: seq<Score>, sid: string, n: nat, acc: real, rate: real)
    requires n < |qs|
    requires RateSum(qs, scores, sid, n).Some? && RateSum(qs, scores, sid, n).value == acc
    requires Rate(qs[n], scores, sid).Some? && Rate(qs[n], scores, sid).value == rate
    ensures RateSum(qs, scores, sid, n + 1).Some?
    ensures RateSum(qs, scores, sid, n + 1).value == acc + rate * qs[n].weight
  {}

  /** Rust's saturating float-to-`u32` cast: negatives go to 0, the fraction is
      dropped, values beyond the range go to `u32::MAX`. */
  function CastU32(x: real): (r: U32)
    ensures x <= 0.0 ==> r == 0
    ensures 0.0 <= x < (U32_MAX + 1) as real ==> r as real <= x < r as real + 1.0
    ensures x >= (U32_MAX + 1) as real ==> r == U32_MAX
  {
    if x <= 0.0 then 0 else if x >= (U32_MAX + 1) as real then U32_MAX else x.Floor
  }

  /** `calc_final_percent`: the weighted rate over every question, as a
      truncated percentage, when every question is rated and the total weight
      is positive. */
  function FinalPercent(qs: seq<Question>, scores: seq<Score>, sid: string): (r: Option<U32>)
    ensures r.Some? <==> WeightSum(qs, |qs|) > 0.0 && forall i :: 0 <= i < |qs| ==> Rated(qs[i], scores, sid)
  {
    match RateSum(qs, scores, sid, |qs|)
    case None => None
    case Some(sum) =>
      var total := WeightSum(qs, |qs|);
      if total > 0.0 then Some(CastU32(sum / total * 100.0)) else None
  }

  /** The loop of `calc_final_percent`, with its early returns. */
  method CalcFinalPercent(cfg: Config, sid: string) returns (r: Option<U32>)
    ensures r == FinalPercent(cfg.questions, cfg.scores, sid)
  {
    var qs := cfg.questions;
    var total := WeightSum(qs, |qs|);
    var acc := 0.0;
    var i := 0;
    while i < |qs|
      invariant 0 <= i <= |qs|
      invariant RateSum(qs, cfg.scores, sid, i).Some? && RateSum(qs, cfg.scores, sid, i).value == acc
    {
      var q := qs[i];
      var entry := LastScore(cfg.scores, sid, q.id);
      if entry.Some? && entry.value.Some? {
        if q.fullScore > 0 {
          var rate := entry.value.value as real / q.fullScore as real;
          RateSumStep(qs, cfg.scores, sid, i, acc, rate);
          acc := acc + rate * q.weight;
        } else {
          // a full score of 0 counts as not entered
          assert !Rated(qs[i], cfg.scores, sid);
          return None;
        }
      } else {
        assert !Rated(qs[i], cfg.scores, sid);
        return None;
      }
      i := i + 1;
    }
    if total > 0.0 {
      r := Some(CastU32(acc / total * 100.0));
    } else {
      r := None;
    }
  }

  /** The rate sum stays within [0, total weight] when every rate lies in [0, 1]
      and every weight is non-negative. */
  lemma {:induction false} RateSumBounds(qs: seq<Question>, scores: seq<Score>, sid: string, n: nat)
    requires n <= |qs|
    requires forall i :: 0 <= i < n ==> qs[i].weight >= 0.0
    requires forall i :: 0 <= i < n && Rated(qs[i], scores, sid) ==>
      LastScore(scores, sid, qs[i].id).value.value <= qs[i].fullScore
    ensures RateSum(qs, scores, sid, n).Some? ==>
      0.0 <= RateSum(qs, scores, sid, n).value <= WeightSum(qs, n)
  {
    if n > 0 {
      RateSumBounds(qs, scores, sid, n - 1);
      if RateSum(qs, scores, sid, n).Some? {
        RateSumBoundsStep(qs, scores, sid, n);
      }
    }
  }

  /** A rate whose score does not exceed its full score lies in [0, 1]. */
  lemma RateInUnit(q: Question, scores: seq<Score>, sid: string)
    requires Rated(q, scores, sid)
    requires LastScore(scores, sid, q.id).value.value <= q.fullScore
    ensures 0.0 <= Rate(q, scores, sid).value <= 1.0
  {
    RatioInUnit(LastScore(scores, sid, q.id).value.value as real, q.fullScore as real, Rate(q, scores, sid).value);
  }

  lemma RateSumBoundsStep(qs: seq<Question>, scores: seq<Score>, sid: string, n: nat)
    requires 0 < n <= |qs|
    requires RateSum(qs, scores, sid, n).Some?
    requires qs[n - 1].weight >= 0.0
    requires LastScore(scores, sid, qs[n - 1].id).value.value <= qs[n - 1].fullScore
    requires 0.0 <= RateSum(qs, scores, sid, n - 1).value <= WeightSum(qs, n - 1)
    ensures 0.0 <= RateSum(qs, scores, sid, n).value <= WeightSum(qs, n)
  {
    var q := qs[n - 1];
    RateInUnit(q, scores, sid);
    var rate := Rate(q, scores, sid).value;
    var prev := RateSum(qs, scores, sid, n - 1).value;
    RateSumStep(qs, scores, sid, n - 1, prev, rate);
    var w := q.weight;
    var part := rate * w;
    ScaledAtMost(rate, w);
    assert 0.0 <= part <= w;
    assert 0.0 <= prev <= WeightSum(qs, n - 1);
    assert RateSum(qs, scores, sid, n).value == prev + part;
    assert WeightSum(qs, n) == WeightSum(qs, n - 1) + q.weight;
  }

  /** With non-negative weights and no score above its full score, a final
      percentage is at most 100. */
  lemma FinalPercentAtMost100(qs: seq<Question>, scores: seq<Score>, sid: string)
    requires forall i :: 0 <= i < |qs| ==> qs[i].weight >= 0.0
    requires forall i :: 0 <= i < |qs| && Rated(qs[i], scores, sid) ==>
      LastScore(scores, sid, qs[i].id).value.value <= qs[i].fullScore
    ensures FinalPercent(qs, scores, sid).Some? ==> FinalPercent(qs, scores, sid).value <= 100
  {
    RateSumBounds(qs, scores, sid, |qs|);
    var rs := RateSum(qs, scores, sid, |qs|);
    var total := WeightSum(qs, |qs|);
    if rs.Some? && total > 0.0 {
      var ratio := rs.value / total;
      RatioInUnit(rs.value, total, ratio);
    }
  }

  /** `filter_map` over optional values: the present ones, in order. */
  function Present(xs: seq<Option<U32>>): (r: seq<U32>)
    ensures |r| <= |xs|
    ensures (forall i :: 0 <= i < |xs| ==> xs[i].Some?) ==> |r| == |xs|
  {
    if xs == [] then []
    else (if xs[0].Some? then [xs[0].value] else []) + Present(xs[1..])
  }

  /** Every element of `Present(xs)` is a present value of `xs`. */
  lemma {:induction false} PresentFromSome(xs: seq<Option<U32>>, k: nat)
    requires k < |Present(xs)|
    ensures exists i :: 0 <= i < |xs| && xs[i].Some? && xs[i].value == Present(xs)[k]
  {
    var front: seq<U32> := if xs[0].Some? then [xs[0].value] else [];
    var rest := Present(xs[1..]);
    assert Present(xs) == front + rest;
    if xs[0].Some? && k == 0 {
      assert xs[0].value == Present(xs)[k];
    } else {
      var k' := k - |front|;
      assert Present(xs)[k] == rest[k'];
      PresentFromSome(xs[1..], k');
      var i :| 0 <= i < |xs[1..]| && xs[1..][i].Some? && xs[1..][i].value == rest[k'];
      assert xs[1..][i] == xs[i + 1];
    }
  }

  /** Filtering a concatenation filters each part. */
  lemma {:induction false} PresentAppend(a: seq<Option<U32>>, b: seq<Option<U32>>)
    ensures Present(a + b) == Present(a) + Present(b)
  {
    if a == [] {
      assert a + b == b;
    } else {
      assert (a + b)[0] == a[0];
      assert (a + b)[1..] == a[1..] + b;
      PresentAppend(a[1..], b);
    }
  }

  /** Every present value is kept, in its place: after the values present
      before it and before the values present after it. */
  lemma PresentKeepsEach(xs: seq<Option<U32>>, i: nat)
    requires i < |xs| && xs[i].Some?
    ensures Present(xs) == Present(xs[..i]) + [xs[i].value] + Present(xs[i + 1..])
  {
    assert xs == xs[..i] + ([xs[i]] + xs[i + 1..]);
    PresentAppend(xs[..i], [xs[i]] + xs[i + 1..]);
    assert ([xs[i]] + xs[i + 1..])[1..] == xs[i + 1..];
  }

  /** The positions holding a value. */
  ghost function SomeIndices(xs: seq<Option<U32>>): set<nat> {
    set i: nat | i < |xs| && xs[i].Some?
  }

  /** The filter keeps exactly as many values as are present. */
  lemma {:induction false} PresentCount(xs: seq<Option<U32>>)
    ensures |Present(xs)| == |SomeIndices(xs)|
  {
    if xs == [] {
      assert SomeIndices(xs) == {};
    } else {
      var init := xs[..|xs| - 1];
      var last := xs[|xs| - 1];
      assert xs == init + [last];
      PresentAppend(init, [last]);
      PresentCount(init);
      assert [last][1..] == [];
      if last.Some? {
        assert SomeIndices(xs) == SomeIndices(init) + {|init|};
      } else {
        assert SomeIndices(xs) == SomeIndices(init);
      }
    }
  }

  /** The final percentage of each student, in student order. */
  function Finals(cfg: Config, students: seq<Student>): (r: seq<Option<U32>>)
    ensures |r| == |students|
  {
    seq(|students|, i requires 0 <= i < |students| => FinalPercent(cfg.questions, cfg.scores, students[i].id))
  }

  /** The final scores listed on the page: the defined final percentages. */
  function FinalScores(cfg: Config, students: seq<Student>): (r: seq<U32>)
    ensures |r| <= |students|
    ensures (forall i :: 0 <= i < |students| ==> FinalPercent(cfg.questions, cfg.scores, students[i].id).Some?) ==>
      |r| == |students|
  {
    Present(Finals(cfg, students))
  }

  /** Every listed final score is the final percentage of some student. */
  lemma FinalScoresAreFinals(cfg: Config, students: seq<Student>, k: nat)
    requires k < |FinalScores(cfg, students)|
    ensures exists i :: (0 <= i < |students| &&
      FinalPercent(cfg.questions, cfg.scores, students[i].id).Some? &&
      FinalPercent(cfg.questions, cfg.scores, students[i].id).value == FinalScores(cfg, students)[k])
  {
    var xs := Finals(cfg, students);
    PresentFromSome(xs, k);
    var i :| 0 <= i < |xs| && xs[i].Some? && xs[i].value == Present(xs)[k];
    assert xs[i] == FinalPercent(cfg.questions, cfg.scores, students[i].id);
  }

  /** The students whose final percentage is defined. */
  ghost function DefinedFinals(cfg: Config, students: seq<Student>): set<nat> {
    set i: nat | i < |students| && FinalPercent(cfg.questions, cfg.scores, students[i].id).Some?
  }

  /** One final score per student whose final is defined: this is the
      `scores.len()` that the rating ratios divide by. */
  lemma FinalScoresCount(cfg: Config, students: seq<Student>)
    ensures |FinalScores(cfg, students)| == |DefinedFinals(cfg, students)|
  {
    PresentCount(Finals(cfg, students));
    assert SomeIndices(Finals(cfg, students)) == DefinedFinals(cfg, students);
  }

  /** Every defined final is listed, in student order. */
  lemma FinalScoresListEach(cfg: Config, students: seq<Student>, i: nat)
    requires i < |students| && FinalPercent(cfg.questions, cfg.scores, students[i].id).Some?
    ensures FinalScores(cfg, students) ==
      Present(Finals(cfg, students)[..i]) + [FinalPercent(cfg.questions, cfg.scores, students[i].id).value]
      + Present(Finals(cfg, students)[i + 1..])
  {
    PresentKeepsEach(Finals(cfg, students), i);
  }

  // ---------------------------------------------------------------------------
  // The rating editor
  // ---------------------------------------------------------------------------

  /** Inserts `x` before the first rating whose threshold does not exceed
      its own, so earlier ratings stay ahead of equal ones. */
  function InsertDesc(x: Rating, rs: seq<Rating>): (r: seq<Rating>)
    ensures |r| == |rs| + 1
    ensures multiset(r) == multiset(rs) + multiset{x}
    ensures r[0] == x || (rs != [] && r[0] == rs[0])
  {
    if rs == [] || rs[0].minScore <= x.minScore then [x] + rs
    else
      assert rs == [rs[0]] + rs[1..];
      [rs[0]] + InsertDesc(x, rs[1..])
  }

  /** Inserting into a sorted list keeps it sorted. */
  lemma {:induction false} InsertDescSorted(x: Rating, rs: seq<Rating>)
    requires SortedDesc(rs)
    ensures SortedDesc(InsertDesc(x, rs))
  {
    if rs != [] && rs[0].minScore > x.minScore {
      InsertDescSorted(x, rs[1..]);
      var tail := InsertDesc(x, rs[1..]);
      assert InsertDesc(x, rs) == [rs[0]] + tail;
      forall j | 0 <= j < |tail| ensures rs[0].minScore >= tail[j].minScore {
        assert tail[j] in multiset(tail);
        assert tail[j] in multiset(rs[1..]) + multiset{x};
        if tail[j] != x {
          assert tail[j] in rs[1..];
        }
      }
    }
  }

  /** `sort_by(|a, b| b.min_score.cmp(&a.min_score))`: a stable sort by
      descending threshold. */
  function SortDesc(rs: seq<Rating>): (r: seq<Rating>)
    ensures |r| == |rs|
    ensures multiset(r) == multiset(rs)
    ensures SortedDesc(r)
  {
    if rs == [] then []
    else
      assert rs == [rs[0]] + rs[1..];
      InsertDescSorted(rs[0], SortDesc(rs[1..]));
      InsertDesc(rs[0], SortDesc(rs[1..]))
  }

  /** Sorting an already sorted list changes nothing. */
  lemma {:induction false} SortDescOfSorted(rs: seq<Rating>)
    requires SortedDesc(rs)
    ensures SortDesc(rs) == rs
  {
    if rs != [] {
      SortDescOfSorted(rs[1..]);
      assert rs == [rs[0]] + rs[1..];
    }
  }

  /** The label input of rating `i`. */
  method OnLabelInput(config: ConfigSignal, i: nat, text: string)
    requires i < |config.value.ratings|
    modifies config
    ensures config.value == old(config.value).(ratings := old(config.value.ratings)[i := old(config.value.ratings)[i].(labelText := text)])
    ensures SortedDesc(old(config.value.ratings)) ==> SortedDesc(config.value.ratings)
  {
    var cfg := config.value;
    cfg := cfg.(ratings := cfg.ratings[i := cfg.ratings[i].(labelText := text)]);
    config.value := cfg;
  }

  /** The threshold input of rating `i`: a value that parses as `u32` is capped
      at 100 and the list is re-sorted; anything else is ignored. */
  method OnMinScoreInput(config: ConfigSignal, i: nat, text: string)
    requires i < |config.value.ratings|
    modifies config
    ensures ParseU32(text).None? ==> config.value == old(config.value)
    ensures ParseU32(text).Some? ==>
      var edited := old(config.value.ratings)[i := old(config.value.ratings)[i].(minScore := Min(ParseU32(text).value, 100))];
      config.value == old(config.value).(ratings := SortDesc(edited))
      && multiset(config.value.ratings) == multiset(edited)
    ensures SortedDesc(config.value.ratings) || ParseU32(text).None?
    ensures (forall j :: 0 <= j < |old(config.value.ratings)| ==> old(config.value.ratings)[j].minScore <= 100) ==>
      forall j :: 0 <= j < |config.value.ratings| ==> config.value.ratings[j].minScore <= 100
  {
    var v := ParseU32(text);
    if v.Some? {
      var cfg := config.value;
      var edited := cfg.ratings[i := cfg.ratings[i].(minScore := Min(v.value, 100))];
      cfg := cfg.(ratings := SortDesc(edited));
      config.value := cfg;
      if forall j :: 0 <= j < |old(config.value.ratings)| ==> old(config.value.ratings)[j].minScore <= 100 {
        forall j | 0 <= j < |cfg.ratings|
          ensures cfg.ratings[j].minScore <= 100
        {
          assert cfg.ratings[j] in multiset(edited);
          var k :| 0 <= k < |edited| && edited[k] == cfg.ratings[j];
        }
      }
    }
  }

  /** The "add" button appends a rating labelled "New" with threshold 0. */
  method OnAddRating(config: ConfigSignal)
    modifies config
    ensures config.value == old(config.value).(ratings := old(config.value.ratings) + [Rating("New", 0)])
    ensures SortedDesc(old(config.value.ratings)) ==> SortedDesc(config.value.ratings)
  {
    var cfg := config.value;
    cfg := cfg.(ratings := cfg.ratings + [Rating("New", 0)]);
    config.value := cfg;
  }
}
