/**
 * The scoring system: the weighted points formula and `analyze_performance`,
 * which tallies answers per topic, ranks the topics by accuracy with a
 * stable descending sort and slices out the three strongest and the three
 * weakest.
 */
module Scoring {
  import opened Wrappers
  import opened Adaptive

  /** Seconds-based bonus: the faster the answer, the more points. */
  function TimeBonus(timeTaken: int): (b: int)
    ensures timeTaken < 30 ==> b == 50
    ensures 30 <= timeTaken < 60 ==> b == 25
    ensures timeTaken >= 60 ==> b == 0
  {
    if timeTaken < 30 then 50 else if timeTaken < 60 then 25 else 0
  }

  /**
   * `ScoringSystem.calculate_score`: nothing for a wrong answer, otherwise
   * 100 points per difficulty level plus the time bonus. With the difficulty
   * in tenths, 100 * difficulty is 10 * tenths exactly.
   */
  function CalculateScore(difficulty: Tenths, timeTaken: int, isCorrect: bool): (r: int)
    ensures !isCorrect ==> r == 0
    ensures isCorrect ==> r == 10 * difficulty + TimeBonus(timeTaken)
  {
    if !isCorrect then 0
    else
      var baseScore := 100;
      assert baseScore * difficulty / 10 == 10 * difficulty;
      baseScore * difficulty / 10 + TimeBonus(timeTaken)
  }

  /** A correct answer at 2.0 in 20 seconds scores 200 + 50 = 250. */
  lemma CorrectScore()
    ensures CalculateScore(20, 20, true) == 250
  {
  }

  /** Taking longer never earns a larger bonus, and a harder question never scores less. */
  lemma ScoreMonotone(d1: Tenths, d2: Tenths, t1: int, t2: int, isCorrect: bool)
    requires d1 <= d2 && t1 <= t2
    ensures TimeBonus(t2) <= TimeBonus(t1)
    ensures CalculateScore(d1, t2, isCorrect) <= CalculateScore(d2, t1, isCorrect)
  {
  }

  // ---------------------------------------------------------------------
  // The records analysed, and the per-topic tally.

  /** One answer as `analyze_performance` sees it: a dictionary whose `difficulty` and `topic` keys may be missing. */
  datatype AnswerRecord = AnswerRecord(isCorrect: bool, difficulty: Option<Tenths>, topic: Option<string>)

  const UnknownTopic: string := "unknown"

  /** `r.get("topic", "unknown")`. */
  function TopicOf(r: AnswerRecord): string { r.topic.GetOr(UnknownTopic) }

  /** `r.get("difficulty", 1.0)`, in tenths. */
  function DifficultyOf(r: AnswerRecord): Tenths { r.difficulty.GetOr(MinDifficulty) }

  datatype TopicStat = TopicStat(correct: nat, total: nat)

  /** The `topic_stats` dictionary: its keys in insertion order, and its entries. */
  datatype Tally = Tally(order: seq<string>, stats: map<string, TopicStat>)

  /** One iteration of the tally loop. */
  function AddRecord(t: Tally, r: AnswerRecord): Tally
  {
    var k := TopicOf(r);
    var order := if k in t.stats then t.order else t.order + [k];
    var s := if k in t.stats then t.stats[k] else TopicStat(0, 0);
    Tally(order, t.stats[k := TopicStat(s.correct + (if r.isCorrect then 1 else 0), s.total + 1)])
  }

  /** The dictionary the loop has built after the given records. */
  function TallyOf(rs: seq<AnswerRecord>): Tally
  {
    if rs == [] then Tally([], map[]) else AddRecord(TallyOf(rs[..|rs| - 1]), rs[|rs| - 1])
  }

  /** The number of records about topic `k`, and how many of them were correct. */
  function CountTopic(rs: seq<AnswerRecord>, k: string): nat
  {
    if rs == [] then 0
    else CountTopic(rs[..|rs| - 1], k) + (if TopicOf(rs[|rs| - 1]) == k then 1 else 0)
  }

  function CountCorrectTopic(rs: seq<AnswerRecord>, k: string): nat
  {
    if rs == [] then 0
    else CountCorrectTopic(rs[..|rs| - 1], k)
         + (if TopicOf(rs[|rs| - 1]) == k && rs[|rs| - 1].isCorrect then 1 else 0)
  }

  predicate Distinct(s: seq<string>)
  {
    forall i, j :: 0 <= i < j < |s| ==> s[i] != s[j]
  }

  /** The sum of the per-topic totals, over the keys in `order`. */
  function SumTotals(order: seq<string>, stats: map<string, TopicStat>): nat
  {
    if order == [] then 0
    else SumTotals(order[..|order| - 1], stats)
         + (if order[|order| - 1] in stats then stats[order[|order| - 1]].total else 0)
  }

  /** The tally's keys are listed in its order, each once. */
  lemma {:induction false} TallyKeys(rs: seq<AnswerRecord>)
    ensures Distinct(TallyOf(rs).order)
    ensures forall k :: k in TallyOf(rs).stats <==> k in TallyOf(rs).order
  {
    if rs != [] {
      TallyKeys(rs[..|rs| - 1]);
    }
  }

  /** The tally's keys are exactly the topics of the records. */
  lemma {:induction false} TallyTopics(rs: seq<AnswerRecord>)
    ensures forall k :: k in TallyOf(rs).stats <==> exists p :: 0 <= p < |rs| && TopicOf(rs[p]) == k
  {
    if rs != [] {
      var init := rs[..|rs| - 1];
      TallyTopics(init);
      forall k ensures k in TallyOf(rs).stats <==> exists p :: 0 <= p < |rs| && TopicOf(rs[p]) == k {
        if k in TallyOf(init).stats {
          var p :| 0 <= p < |init| && TopicOf(init[p]) == k;
          assert rs[p] == init[p];
        }
        if exists p :: 0 <= p < |rs| && TopicOf(rs[p]) == k {
          var p :| 0 <= p < |rs| && TopicOf(rs[p]) == k;
          if p < |init| { assert init[p] == rs[p]; }
        }
      }
    }
  }

  /** Each tally entry counts that topic's records and its correct records. */
  lemma {:induction false} TallyCounts(rs: seq<AnswerRecord>, k: string)
    requires k in TallyOf(rs).stats
    ensures TallyOf(rs).stats[k].total == CountTopic(rs, k) >= 1
    ensures TallyOf(rs).stats[k].correct == CountCorrectTopic(rs, k)
    ensures TallyOf(rs).stats[k].correct <= TallyOf(rs).stats[k].total
  {
    var init := rs[..|rs| - 1];
    if k in TallyOf(init).stats {
      TallyCounts(init, k);
    } else {
      assert TopicOf(rs[|rs| - 1]) == k;
      CountsAbsent(init, k);
    }
  }

  /** A topic the tally has not met has no records. */
  lemma {:induction false} CountsAbsent(rs: seq<AnswerRecord>, k: string)
    requires k !in TallyOf(rs).stats
    ensures CountTopic(rs, k) == 0 && CountCorrectTopic(rs, k) == 0
  {
    if rs != [] {
      CountsAbsent(rs[..|rs| - 1], k);
    }
  }

  /** Topic `a` occurs in `rs` before the first occurrence of topic `b`. */
  ghost predicate MetBefore(rs: seq<AnswerRecord>, a: string, b: string)
  {
    exists p :: 0 <= p < |rs| && TopicOf(rs[p]) == a && forall q :: 0 <= q <= p ==> TopicOf(rs[q]) != b
  }

  /** Tally keys appear in first-seen order: each key occurs before the first occurrence of every later key. */
  lemma {:induction false} TallyFirstSeenOrder(rs: seq<AnswerRecord>)
    ensures forall i, j :: 0 <= i < j < |TallyOf(rs).order| ==>
              MetBefore(rs, TallyOf(rs).order[i], TallyOf(rs).order[j])
  {
    if rs != [] {
      var init := rs[..|rs| - 1];
      TallyFirstSeenOrder(init);
      TallyKeys(init);
      TallyTopics(init);
      var o0 := TallyOf(init).order;
      var o := TallyOf(rs).order;
      forall i, j | 0 <= i < j < |o| ensures MetBefore(rs, o[i], o[j]) {
        if j < |o0| {
          assert o[i] == o0[i] && o[j] == o0[j];
          assert MetBefore(init, o0[i], o0[j]);
          var p :| 0 <= p < |init| && TopicOf(init[p]) == o0[i]
                   && forall q :: 0 <= q <= p ==> TopicOf(init[q]) != o0[j];
          assert forall q :: 0 <= q <= p ==> rs[q] == init[q];
          assert TopicOf(rs[p]) == o[i];
        } else {
          // o[j] is the topic of the last record, met for the first time.
          var k := TopicOf(rs[|rs| - 1]);
          assert k !in TallyOf(init).stats && o == o0 + [k];
          assert o[i] == o0[i] && o[j] == k;
          assert o[i] in TallyOf(init).stats;
          var p :| 0 <= p < |init| && TopicOf(init[p]) == o[i];
          assert rs[p] == init[p];
          forall q | 0 <= q <= p ensures TopicOf(rs[q]) != o[j] {
            assert rs[q] == init[q];
          }
        }
      }
    }
  }

  lemma {:induction false} SumTotalsFrame(order: seq<string>, stats: map<string, TopicStat>, k: string, v: TopicStat)
    requires k !in order
    ensures SumTotals(order, stats[k := v]) == SumTotals(order, stats)
  {
    if order != [] {
      SumTotalsFrame(order[..|order| - 1], stats, k, v);
    }
  }

  lemma {:induction false} SumTotalsUpdate(order: seq<string>, stats: map<string, TopicStat>, k: string, v: TopicStat)
    requires Distinct(order) && k in order && k in stats
    ensures SumTotals(order, stats[k := v]) + stats[k].total == SumTotals(order, stats) + v.total
  {
    var init := order[..|order| - 1];
    if order[|order| - 1] == k {
      assert k !in init;
      SumTotalsFrame(init, stats, k, v);
    } else {
      assert k in init;
      SumTotalsUpdate(init, stats, k, v);
    }
  }

  /** The per-topic totals add up to the number of records. */
  lemma {:induction false} TallyTotalsSum(rs: seq<AnswerRecord>)
    ensures SumTotals(TallyOf(rs).order, TallyOf(rs).stats) == |rs|
  {
    if rs != [] {
      var init := rs[..|rs| - 1];
      var r := rs[|rs| - 1];
      var t := TallyOf(init);
      TallyTotalsSum(init);
      TallyKeys(init);
      var k := TopicOf(r);
      var nt := AddRecord(t, r);
      if k in t.stats {
        SumTotalsUpdate(t.order, t.stats, k, nt.stats[k]);
      } else {
        assert k !in t.order;
        SumTotalsFrame(t.order, t.stats, k, nt.stats[k]);
        assert nt.order[..|nt.order| - 1] == t.order;
      }
    }
  }

  // ---------------------------------------------------------------------
  // Ranking: `sorted(topic_stats.items(), key=accuracy, reverse=True)`.

  type Item = (string, TopicStat)

  /** The sort key: the topic's correct fraction, 0 for a topic with no answers. */
  function TopicAccuracy(s: TopicStat): real
  {
    if s.total > 0 then s.correct as real / s.total as real else 0.0
  }

  function Key(x: Item): real { TopicAccuracy(x.1) }

  /** `topic_stats.items()`. */
  function ItemsOf(order: seq<string>, stats: map<string, TopicStat>): (r: seq<Item>)
    ensures |r| == |order|
    ensures forall i :: 0 <= i < |r| ==> r[i].0 == order[i]
  {
    if order == [] then []
    else [(order[0], if order[0] in stats then stats[order[0]] else TopicStat(0, 0))]
         + ItemsOf(order[1..], stats)
  }

  /*
   * Python's `sorted(..., key=k, reverse=True)` is a stable sort by descending
   * key. It is written here for any key function; the ranking uses `Key`.
   */

  /** Non-increasing by key. */
  ghost predicate SortedDesc<T>(key: T -> real, r: seq<T>)
  {
    forall i, j :: 0 <= i < j < |r| ==> key(r[i]) >= key(r[j])
  }

  /** Places `x` before the first element whose key is not larger, so that equal keys keep their order. */
  function InsertDesc<T>(key: T -> real, x: T, r: seq<T>): (res: seq<T>)
    ensures multiset(res) == multiset(r) + multiset{x}
  {
    if r == [] then [x]
    else if key(r[0]) <= key(x) then [x] + r
    else
      assert r == [r[0]] + r[1..];
      [r[0]] + InsertDesc(key, x, r[1..])
  }

  /** Inserting into a sorted sequence keeps it sorted. */
  lemma {:induction false} InsertDescSorted<T>(key: T -> real, x: T, r: seq<T>)
    requires SortedDesc(key, r)
    ensures SortedDesc(key, InsertDesc(key, x, r))
  {
    if r == [] {
    } else if key(r[0]) <= key(x) {
      var res := [x] + r;
      forall i, j | 0 <= i < j < |res| ensures key(res[i]) >= key(res[j]) {
        assert res[j] == r[j - 1];
        if i > 0 {
          assert res[i] == r[i - 1];
        }
      }
    } else {
      var rest := InsertDesc(key, x, r[1..]);
      assert SortedDesc(key, r[1..]);
      InsertDescSorted(key, x, r[1..]);
      var res := [r[0]] + rest;
      forall j | 0 <= j < |rest| ensures key(rest[j]) <= key(r[0]) {
        assert rest[j] in multiset(rest);
        if rest[j] != x {
          assert rest[j] in multiset(r[1..]);
          var k :| 0 <= k < |r[1..]| && r[1..][k] == rest[j];
          assert r[k + 1] == rest[j];
        }
      }
      forall i, j | 0 <= i < j < |res| ensures key(res[i]) >= key(res[j]) {
        assert res[j] == rest[j - 1];
        if i > 0 {
          assert res[i] == rest[i - 1];
        }
      }
    }
  }

  /** A stable sort of `s` by descending key: a permutation of `s`, sorted. */
  function Rank<T>(key: T -> real, s: seq<T>): (r: seq<T>)
    ensures multiset(r) == multiset(s)
    ensures SortedDesc(key, r)
  {
    if s == [] then []
    else
      assert s == [s[0]] + s[1..];
      InsertDescSorted(key, s[0], Rank(key, s[1..]));
      InsertDesc(key, s[0], Rank(key, s[1..]))
  }

  /** The elements of `s` whose key is `a`, in order. */
  function WithKey<T>(key: T -> real, s: seq<T>, a: real): seq<T>
  {
    if s == [] then [] else (if key(s[0]) == a then [s[0]] else []) + WithKey(key, s[1..], a)
  }

  lemma {:induction false} WithKeyInsert<T>(key: T -> real, x: T, r: seq<T>, a: real)
    ensures WithKey(key, InsertDesc(key, x, r), a) ==
            if key(x) == a then [x] + WithKey(key, r, a) else WithKey(key, r, a)
  {
    if r == [] {
    } else if key(r[0]) <= key(x) {
      var res := [x] + r;
      assert res[0] == x && res[1..] == r;
    } else {
      var rest := InsertDesc(key, x, r[1..]);
      WithKeyInsert(key, x, r[1..], a);
      var res := [r[0]] + rest;
      assert res[0] == r[0] && res[1..] == rest;
      var head := if key(r[0]) == a then [r[0]] else [];
      assert WithKey(key, res, a) == head + WithKey(key, rest, a);
      assert WithKey(key, r, a) == head + WithKey(key, r[1..], a);
    }
  }

  /** The sort is stable: among elements of equal key the input order survives. */
  lemma {:induction false} RankStable<T>(key: T -> real, s: seq<T>, a: real)
    ensures WithKey(key, Rank(key, s), a) == WithKey(key, s, a)
  {
    if s != [] {
      var sorted := Rank(key, s[1..]);
      assert Rank(key, s) == InsertDesc(key, s[0], sorted);
      RankStable(key, s[1..], a);
      WithKeyInsert(key, s[0], sorted, a);
      var head := if key(s[0]) == a then [s[0]] else [];
      assert WithKey(key, s, a) == head + WithKey(key, s[1..], a);
      assert WithKey(key, Rank(key, s), a) == head + WithKey(key, sorted, a);
    }
  }

  // ---------------------------------------------------------------------
  // The analysis itself.

  datatype Performance = Performance(
    totalQuestions: nat,
    accuracy: real,
    averageDifficulty: real,
    strongestTopics: seq<string>,
    weakestTopics: seq<string>)

  function Topics(r: seq<Item>): (ks: seq<string>)
    ensures |ks| == |r|
    ensures forall i :: 0 <= i < |r| ==> ks[i] == r[i].0
  {
    if r == [] then [] else [r[0].0] + Topics(r[1..])
  }

  /** `[t[0] for t in sorted_topics[:3]]`: the names of the first three entries (taking names commutes with slicing). */
  function Strongest(r: seq<Item>): seq<string>
  {
    var names := Topics(r);
    names[..if |names| < 3 then |names| else 3]
  }

  /** `[t[0] for t in sorted_topics[-3:]]`: Python's negative slice keeps the whole list when it is short. */
  function Weakest(r: seq<Item>): seq<string>
  {
    var names := Topics(r);
    names[if |names| < 3 then 0 else |names| - 3..]
  }

  function CountCorrect(rs: seq<AnswerRecord>): (c: nat)
    ensures c <= |rs|
  {
    if rs == [] then 0 else CountCorrect(rs[..|rs| - 1]) + (if rs[|rs| - 1].isCorrect then 1 else 0)
  }

  function DifficultySum(rs: seq<AnswerRecord>): int
  {
    if rs == [] then 0 else DifficultySum(rs[..|rs| - 1]) + DifficultyOf(rs[|rs| - 1])
  }

  /** `(correct / total) * 100`, kept exact. */
  function Percent(correct: nat, total: nat): real
    requires total > 0
  {
    (correct as real / total as real) * 100.0
  }

  /** The ranked topics of a set of records. */
  function RankedTopics(rs: seq<AnswerRecord>): seq<Item>
  {
    Rank(Key, ItemsOf(TallyOf(rs).order, TallyOf(rs).stats))
  }

  const NoData := Performance(0, 0.0, 0.0, [], [])

  /** What `analyze_performance` returns. */
  function Analysis(rs: seq<AnswerRecord>): Performance
  {
    if rs == [] then NoData
    else
      var ranked := RankedTopics(rs);
      Performance(|rs|, Percent(CountCorrect(rs), |rs|),
                  DifficultySum(rs) as real / (10 * |rs|) as real,
                  Strongest(ranked), Weakest(ranked))
  }

  /** `ScoringSystem.analyze_performance`: a loop builds the topic dictionary in place. */
  method AnalyzePerformance(responses: seq<AnswerRecord>) returns (p: Performance)
    ensures p == Analysis(responses)
  {
    if responses == [] {
      return NoData;
    }
    var total := |responses|;
    var correct := CountCorrect(responses);
    var accuracy := Percent(correct, total);
    var avgDifficulty := DifficultySum(responses) as real / (10 * total) as real;

    var order: seq<string> := [];
    var topicStats: map<string, TopicStat> := map[];
    var i := 0;
    while i < |responses|
      invariant 0 <= i <= |responses|
      invariant Tally(order, topicStats) == TallyOf(responses[..i])
    {
      var r := responses[i];
      var topic := TopicOf(r);
      if topic !in topicStats {
        topicStats := topicStats[topic := TopicStat(0, 0)];
        order := order + [topic];
      }
      var s := topicStats[topic];
      s := s.(total := s.total + 1);
      if r.isCorrect {
        s := s.(correct := s.correct + 1);
      }
      topicStats := topicStats[topic := s];
      assert responses[..i + 1][..i] == responses[..i];
      i := i + 1;
    }
    assert responses[..i] == responses;
    var sortedTopics := Rank(Key, ItemsOf(order, topicStats));
    p := Performance(total, accuracy, avgDifficulty, Strongest(sortedTopics), Weakest(sortedTopics));
  }

  // ---------------------------------------------------------------------
  // Properties of the analysis.

  /** No records: zero counts and two empty topic lists. */
  lemma AnalysisOfNothing()
    ensures Analysis([]).totalQuestions == 0
    ensures Analysis([]).accuracy == 0.0 && Analysis([]).averageDifficulty == 0.0
    ensures Analysis([]).strongestTopics == [] && Analysis([]).weakestTopics == []
  {
  }

  /** `(correct / total) * 100` times the total is 100 times the correct count, and lies in [0, 100]. */
  lemma PercentMeaning(correct: nat, total: nat)
    requires 0 < total && correct <= total
    ensures Percent(correct, total) * total as real == 100.0 * correct as real
    ensures 0.0 <= Percent(correct, total) <= 100.0
  {
    var c := correct as real;
    var t := total as real;
    FractionBounds(c, t);
    var q := c / t;
    assert q * 100.0 * t == 100.0 * (q * t);
  }

  /** Totals and accuracy of a non-empty analysis. */
  lemma AnalysisTotals(rs: seq<AnswerRecord>)
    requires rs != []
    ensures Analysis(rs).totalQuestions == |rs|
    ensures Analysis(rs).accuracy == Percent(CountCorrect(rs), |rs|)
    ensures 0.0 <= Analysis(rs).accuracy <= 100.0
  {
    PercentMeaning(CountCorrect(rs), |rs|);
  }

  lemma FractionBounds(c: real, t: real)
    requires 0.0 <= c <= t && t > 0.0
    ensures 0.0 <= c / t <= 1.0
    ensures (c / t) * t == c
  {
  }

  /** Every element of `r` is a dictionary entry with its own counts. */
  ghost predicate EntriesOf(stats: map<string, TopicStat>, r: seq<Item>)
  {
    forall i :: 0 <= i < |r| ==> r[i].0 in stats && r[i].1 == stats[r[i].0]
  }

  /** Some element of `r` is about topic `k`. */
  ghost predicate HasTopic(r: seq<Item>, k: string)
  {
    exists i :: 0 <= i < |r| && r[i].0 == k
  }

  lemma {:induction false} ItemsOfEntries(order: seq<string>, stats: map<string, TopicStat>)
    requires forall k :: k in order ==> k in stats
    ensures EntriesOf(stats, ItemsOf(order, stats))
    ensures forall k :: k in order ==> HasTopic(ItemsOf(order, stats), k)
  {
    var items := ItemsOf(order, stats);
    forall k | k in order ensures HasTopic(items, k) {
      var j :| 0 <= j < |order| && order[j] == k;
      assert items[j].0 == k;
    }
    if order != [] {
      ItemsOfEntries(order[1..], stats);
      assert items == [items[0]] + ItemsOf(order[1..], stats);
    }
  }

  lemma {:induction false} InsertEntries(key: Item -> real, stats: map<string, TopicStat>, x: Item, r: seq<Item>, k: string)
    requires EntriesOf(stats, r) && x.0 in stats && x.1 == stats[x.0]
    ensures EntriesOf(stats, InsertDesc(key, x, r))
    ensures (x.0 == k || HasTopic(r, k)) ==> HasTopic(InsertDesc(key, x, r), k)
  {
    var res := InsertDesc(key, x, r);
    if r == [] {
      assert res[0] == x;
    } else if key(r[0]) <= key(x) {
      assert res == [x] + r;
      if x.0 == k { assert res[0].0 == k; }
      if HasTopic(r, k) {
        var i :| 0 <= i < |r| && r[i].0 == k;
        assert res[i + 1] == r[i];
      }
    } else {
      var rest := InsertDesc(key, x, r[1..]);
      if HasTopic(r, k) && r[0].0 != k {
        var i :| 0 <= i < |r| && r[i].0 == k;
        assert r[1..][i - 1] == r[i];
      }
      InsertEntries(key, stats, x, r[1..], k);
      assert res == [r[0]] + rest;
      if r[0].0 == k { assert res[0].0 == k; }
      if HasTopic(rest, k) {
        var i :| 0 <= i < |rest| && rest[i].0 == k;
        assert res[i + 1] == rest[i];
      }
    }
  }

  lemma {:induction false} RankEntries(key: Item -> real, stats: map<string, TopicStat>, s: seq<Item>, k: string)
    requires EntriesOf(stats, s)
    ensures EntriesOf(stats, Rank(key, s))
    ensures HasTopic(s, k) ==> HasTopic(Rank(key, s), k)
  {
    if s != [] {
      if HasTopic(s, k) && s[0].0 != k {
        var i :| 0 <= i < |s| && s[i].0 == k;
        assert s[1..][i - 1] == s[i];
      }
      RankEntries(key, stats, s[1..], k);
      InsertEntries(key, stats, s[0], Rank(key, s[1..]), k);
    }
  }

  /** Sorting keeps the length. */
  lemma RankLength<T>(key: T -> real, s: seq<T>)
    ensures |Rank(key, s)| == |s|
  {
    var r := Rank(key, s);
    assert |multiset(r)| == |r| && |multiset(s)| == |s|;
  }

  /** The ranking of a set of records holds every tally entry, with its own counts. */
  lemma RankedEntries(rs: seq<AnswerRecord>)
    ensures |RankedTopics(rs)| == |TallyOf(rs).order|
    ensures EntriesOf(TallyOf(rs).stats, RankedTopics(rs))
    ensures forall k :: k in TallyOf(rs).stats ==> HasTopic(RankedTopics(rs), k)
  {
    var t := TallyOf(rs);
    TallyKeys(rs);
    var items := ItemsOf(t.order, t.stats);
    ItemsOfEntries(t.order, t.stats);
    RankLength(Key, items);
    forall k | k in t.stats ensures HasTopic(RankedTopics(rs), k) {
      RankEntries(Key, t.stats, items, k);
    }
    RankEntries(Key, t.stats, items, "");
  }

  lemma StrongestOfSorted(key: Item -> real, stats: map<string, TopicStat>, r: seq<Item>, a: string, b: string)
    requires SortedDesc(key, r) && EntriesOf(stats, r)
    requires a in Strongest(r) && HasTopic(r, b) && b !in Strongest(r)
    ensures a in stats && b in stats && key((a, stats[a])) >= key((b, stats[b]))
  {
    var n := if |r| < 3 then |r| else 3;
    var ia :| 0 <= ia < n && Strongest(r)[ia] == a;
    var ib :| 0 <= ib < |r| && r[ib].0 == b;
    assert r[ia] == (a, stats[a]) && r[ib] == (b, stats[b]);
  }

  lemma WeakestOfSorted(key: Item -> real, stats: map<string, TopicStat>, r: seq<Item>, a: string, b: string)
    requires SortedDesc(key, r) && EntriesOf(stats, r)
    requires b in Weakest(r) && HasTopic(r, a) && a !in Weakest(r)
    ensures a in stats && b in stats && key((a, stats[a])) >= key((b, stats[b]))
  {
    var lo := if |r| < 3 then 0 else |r| - 3;
    var ib :| 0 <= ib < |r| - lo && Weakest(r)[ib] == b;
    var ia :| 0 <= ia < |r| && r[ia].0 == a;
    assert r[ia] == (a, stats[a]) && r[lo + ib] == (b, stats[b]);
  }

  /** Every strongest topic is at least as accurate as every topic left out of the strongest. */
  lemma StrongestDominate(rs: seq<AnswerRecord>, a: string, b: string)
    requires a in Analysis(rs).strongestTopics
    requires b in TallyOf(rs).stats && b !in Analysis(rs).strongestTopics
    ensures a in TallyOf(rs).stats
    ensures TopicAccuracy(TallyOf(rs).stats[a]) >= TopicAccuracy(TallyOf(rs).stats[b])
  {
    var r := RankedTopics(rs);
    var stats := TallyOf(rs).stats;
    RankedEntries(rs);
    assert Analysis(rs).strongestTopics == Strongest(r);
    StrongestOfSorted(Key, stats, r, a, b);
  }

  /** Every topic left out of the weakest is at least as accurate as every weakest topic. */
  lemma WeakestDominated(rs: seq<AnswerRecord>, a: string, b: string)
    requires b in Analysis(rs).weakestTopics
    requires a in TallyOf(rs).stats && a !in Analysis(rs).weakestTopics
    ensures b in TallyOf(rs).stats
    ensures TopicAccuracy(TallyOf(rs).stats[a]) >= TopicAccuracy(TallyOf(rs).stats[b])
  {
    var r := RankedTopics(rs);
    var stats := TallyOf(rs).stats;
    RankedEntries(rs);
    assert Analysis(rs).weakestTopics == Weakest(r);
    WeakestOfSorted(Key, stats, r, a, b);
  }

  /**
   * With k topics the strongest are the first min(k, 3) ranked topics and the
   * weakest the last min(k, 3); for k <= 3 the lists are equal, and for
   * 3 <= k <= 6 the last 6 - k strongest are the first 6 - k weakest.
   */
  lemma StrongestWeakestShape(rs: seq<AnswerRecord>)
    requires rs != []
    ensures var k := |TallyOf(rs).order|; var p := Analysis(rs);
      var n := if k < 3 then k else 3;
      var ranked := Topics(RankedTopics(rs));
      k >= 1 && |ranked| == k
      && |p.strongestTopics| == n && |p.weakestTopics| == n
      && p.strongestTopics == ranked[..n]
      && p.weakestTopics == ranked[k - n..]
  {
    var t := TallyOf(rs);
    var r := RankedTopics(rs);
    RankedEntries(rs);
    TallyTopics(rs);
    assert TopicOf(rs[0]) in t.stats;
    TallyKeys(rs);
    assert |t.order| >= 1;
    assert Analysis(rs).strongestTopics == Strongest(r);
    assert Analysis(rs).weakestTopics == Weakest(r);
  }

  /** The first and last `min(k, 3)` of `k` names: equal for k <= 3, overlapping by 6 - k for 3 <= k <= 6. */
  lemma EndsOverlap(names: seq<string>)
    ensures var k := |names|; var n := if k < 3 then k else 3;
      (k <= 3 ==> names[..n] == names[k - n..])
      && (3 <= k <= 6 ==> names[..n][k - 3..] == names[k - n..][..6 - k])
  {
    var k := |names|;
    if k <= 3 {
      assert names[..k] == names;
      assert names[0..] == names;
    } else if k <= 6 {
      assert names[..3][k - 3..] == names[k - 3..3];
      assert names[k - 3..][..6 - k] == names[k - 3..3];
    }
  }

  /** With at most three topics both lists hold every topic; from three to six they overlap by `6 - k`. */
  lemma StrongestWeakestOverlap(rs: seq<AnswerRecord>)
    requires rs != []
    ensures var k := |TallyOf(rs).order|; var p := Analysis(rs);
      (k <= 3 ==> p.strongestTopics == p.weakestTopics)
      && (3 <= k <= 6 ==>
            |p.strongestTopics| == 3 && |p.weakestTopics| == 3
            && p.strongestTopics[k - 3..] == p.weakestTopics[..6 - k])
  {
    var k := |TallyOf(rs).order|;
    var p := Analysis(rs);
    var ranked := Topics(RankedTopics(rs));
    var n := if k < 3 then k else 3;
    StrongestWeakestShape(rs);
    assert p.strongestTopics == ranked[..n] && p.weakestTopics == ranked[k - n..] && |ranked| == k;
    EndsOverlap(ranked);
  }

  /** Filling in the documented defaults for missing keys changes nothing. */
  function WithDefaults(r: AnswerRecord): AnswerRecord
  {
    AnswerRecord(r.isCorrect, Some(DifficultyOf(r)), Some(TopicOf(r)))
  }

  function AllWithDefaults(rs: seq<AnswerRecord>): (out: seq<AnswerRecord>)
    ensures |out| == |rs|
    ensures forall i :: 0 <= i < |rs| ==> out[i] == WithDefaults(rs[i])
  {
    if rs == [] then [] else AllWithDefaults(rs[..|rs| - 1]) + [WithDefaults(rs[|rs| - 1])]
  }

  /** A record without a difficulty counts as 1.0 and one without a topic as "unknown". */
  lemma {:induction false} DefaultsChangeNothing(rs: seq<AnswerRecord>)
    ensures Analysis(AllWithDefaults(rs)) == Analysis(rs)
  {
    DefaultsPreserveParts(rs);
  }

  lemma {:induction false} DefaultsPreserveParts(rs: seq<AnswerRecord>)
    ensures var d := AllWithDefaults(rs);
      TallyOf(d) == TallyOf(rs) && CountCorrect(d) == CountCorrect(rs) && DifficultySum(d) == DifficultySum(rs)
  {
    DefaultsPreserveTally(rs);
    DefaultsPreserveCounts(rs);
  }

  /** The last record of the defaulted sequence is the defaulted last record. */
  lemma DefaultsSplit(rs: seq<AnswerRecord>)
    requires rs != []
    ensures var d := AllWithDefaults(rs);
      d[..|d| - 1] == AllWithDefaults(rs[..|rs| - 1]) && d[|d| - 1] == WithDefaults(rs[|rs| - 1])
  {
  }

  /** A record's contribution to the tally depends only on its topic and its outcome. */
  lemma AddRecordDefaults(t: Tally, r: AnswerRecord)
    ensures AddRecord(t, WithDefaults(r)) == AddRecord(t, r)
  {
    assert TopicOf(WithDefaults(r)) == TopicOf(r);
  }

  /** The tally of a non-empty sequence adds its last record to the tally of the rest. */
  lemma TallyOfLast(rs: seq<AnswerRecord>)
    requires rs != []
    ensures TallyOf(rs) == AddRecord(TallyOf(rs[..|rs| - 1]), rs[|rs| - 1])
  {
  }

  lemma {:induction false} DefaultsPreserveTally(rs: seq<AnswerRecord>)
    ensures TallyOf(AllWithDefaults(rs)) == TallyOf(rs)
  {
    if rs != [] {
      var init := rs[..|rs| - 1];
      var last := rs[|rs| - 1];
      var d := AllWithDefaults(rs);
      DefaultsSplit(rs);
      DefaultsPreserveTally(init);
      TallyOfLast(d);
      TallyOfLast(rs);
      AddRecordDefaults(TallyOf(init), last);
    }
  }

  lemma {:induction false} DefaultsPreserveCounts(rs: seq<AnswerRecord>)
    ensures CountCorrect(AllWithDefaults(rs)) == CountCorrect(rs)
    ensures DifficultySum(AllWithDefaults(rs)) == DifficultySum(rs)
  {
    if rs != [] {
      var last := rs[|rs| - 1];
      DefaultsSplit(rs);
      DefaultsPreserveCounts(rs[..|rs| - 1]);
      assert DifficultyOf(WithDefaults(last)) == DifficultyOf(last);
    }
  }
}
