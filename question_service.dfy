/**
 * The parts of `questionService.js` that compute rather than call the backend: the answer check
 * against cached questions, the category and difficulty tallies, and the count-limited random pick.
 * The backend's records arrive as parameters.
 */
module QuestionService {
  import opened Wrappers
  import opened Text

  /**
   * A question record (`Id`, `Name`, `question_text_c`, `option_a_c` .. `option_d_c`,
   * `correct_option_c`, `category_c`, `difficulty_c`). A missing text field is "".
   */
  datatype Question = Question(
    id: int, name: string, text: string,
    optionA: string, optionB: string, optionC: string, optionD: string,
    correctOption: string, category: string, difficulty: int)

  /** `find(q => q.Id === id)`: the position of the first question with that Id, or -1. */
  function FirstWithId(questions: seq<Question>, id: int): (i: int)
    ensures -1 <= i < |questions|
    ensures i >= 0 ==> questions[i].id == id && forall j :: 0 <= j < i ==> questions[j].id != id
    ensures i == -1 ==> forall j :: 0 <= j < |questions| ==> questions[j].id != id
  {
    if questions == [] then -1
    else if questions[0].id == id then 0
    else
      var k := FirstWithId(questions[1..], id);
      if k < 0 then -1 else k + 1
  }

  /** The question `checkAnswer` and `getCorrectAnswer` look at: the first cached one with the parsed Id. */
  predicate IsLookedUp(questions: seq<Question>, questionId: string, i: int) {
    ParseInt(questionId).Some? && 0 <= i < |questions| && questions[i].id == ParseInt(questionId).value
    && forall j :: 0 <= j < i ==> questions[j].id != ParseInt(questionId).value
  }

  /** The question list `setCachedQuestions` stores for the quiz; absent until the first call. */
  class QuestionCache {
    var cachedQuestions: Option<seq<Question>>

    constructor ()
      ensures cachedQuestions == None
    {
      cachedQuestions := None;
    }

    /** Replaces the whole cache. */
    method SetCachedQuestions(questions: seq<Question>)
      modifies this
      ensures cachedQuestions == Some(questions)
    {
      cachedQuestions := Some(questions);
    }

    /** `checkAnswer`: whether the looked-up question's correct option is the selected one. */
    function CheckAnswer(questionId: string, selectedOption: string): (r: bool)
      reads this
      ensures r <==> cachedQuestions.Some?
                     && exists i :: IsLookedUp(cachedQuestions.value, questionId, i)
                                   && cachedQuestions.value[i].correctOption == selectedOption
    {
      if cachedQuestions.None? then false
      else
        var i := Lookup(cachedQuestions.value, questionId);
        i >= 0 && cachedQuestions.value[i].correctOption == selectedOption
    }

    /** `getCorrectAnswer`: the looked-up question's correct option; null when missing or empty. */
    function GetCorrectAnswer(questionId: string): (r: Option<string>)
      reads this
      ensures r.Some? <==> cachedQuestions.Some?
                           && exists i :: IsLookedUp(cachedQuestions.value, questionId, i)
                                         && cachedQuestions.value[i].correctOption != ""
      ensures r.Some? ==> exists i :: IsLookedUp(cachedQuestions.value, questionId, i)
                                     && r.value == cachedQuestions.value[i].correctOption
    {
      if cachedQuestions.None? then None
      else
        var i := Lookup(cachedQuestions.value, questionId);
        if i < 0 || cachedQuestions.value[i].correctOption == "" then None
        else Some(cachedQuestions.value[i].correctOption)
    }
  }

  /** `find(q => q.Id === parseInt(questionId))`: the looked-up position, or -1 when there is none. */
  function Lookup(questions: seq<Question>, questionId: string): (i: int)
    ensures -1 <= i < |questions|
    ensures i >= 0 ==> IsLookedUp(questions, questionId, i)
    ensures forall j :: IsLookedUp(questions, questionId, j) ==> j == i
  {
    var key := ParseInt(questionId);
    if key.None? then -1 else FirstWithId(questions, key.value)
  }

  /** At most one question is looked up for an Id. */
  lemma LookupUnique(questions: seq<Question>, questionId: string, i: int, j: int)
    requires IsLookedUp(questions, questionId, i) && IsLookedUp(questions, questionId, j)
    ensures i == j
  {
  }

  /** The two lookups agree: a non-empty option is accepted exactly when it is the one reported correct. */
  lemma CheckAgreesWithCorrectAnswer(cache: QuestionCache, questionId: string, selectedOption: string)
    requires selectedOption != ""
    ensures cache.CheckAnswer(questionId, selectedOption) <==> cache.GetCorrectAnswer(questionId) == Some(selectedOption)
  {
    if cache.cachedQuestions.Some? {
      var qs := cache.cachedQuestions.value;
      forall i, j | IsLookedUp(qs, questionId, i) && IsLookedUp(qs, questionId, j) ensures i == j {
        LookupUnique(qs, questionId, i, j);
      }
    }
  }

  // ---------------------------------------------------------------- tallies

  /** How often `k` occurs in `keys`. */
  function Occurrences<K(==)>(keys: seq<K>, k: K): nat
  {
    if keys == [] then 0
    else Occurrences(keys[..|keys| - 1], k) + (if keys[|keys| - 1] == k then 1 else 0)
  }

  lemma {:induction false} OccurrencesAbsent<K>(keys: seq<K>, k: K)
    requires k !in keys
    ensures Occurrences(keys, k) == 0
  {
    if keys != [] {
      OccurrencesAbsent(keys[..|keys| - 1], k);
    }
  }

  /** `m` maps exactly the keys that occur in `keys`, each to its number of occurrences. */
  ghost predicate IsHistogram<K(!new)>(m: map<K, nat>, keys: seq<K>) {
    (forall k :: k in m <==> k in keys) && forall k :: k in m ==> m[k] == Occurrences(keys, k)
  }

  /** `counts[x] = (counts[x] || 0) + 1`. */
  function Tally<K>(m: map<K, nat>, x: K): map<K, nat> {
    m[x := (if x in m then m[x] else 0) + 1]
  }

  /** The sum of `m`'s values over the keys in `ks`. */
  ghost function SumOn<K>(m: map<K, nat>, ks: set<K>): nat
    requires ks <= m.Keys
    decreases ks
  {
    if ks == {} then 0
    else
      var k :| k in ks;
      m[k] + SumOn(m, ks - {k})
  }

  /** The sum of a map's values. */
  ghost function SumValues<K>(m: map<K, nat>): nat {
    SumOn(m, m.Keys)
  }

  /** The sum does not depend on which key is taken first. */
  lemma {:induction false} SumOnRemove<K>(m: map<K, nat>, ks: set<K>, k: K)
    requires ks <= m.Keys && k in ks
    ensures SumOn(m, ks) == m[k] + SumOn(m, ks - {k})
    decreases ks
  {
    var j :| j in ks && SumOn(m, ks) == m[j] + SumOn(m, ks - {j});
    if j != k {
      SumOnRemove(m, ks - {j}, k);
      SumOnRemove(m, ks - {k}, j);
      assert ks - {j} - {k} == ks - {k} - {j};
    }
  }

  /** Maps that agree on the summed keys have the same sum. */
  lemma {:induction false} SumOnAgree<K>(m1: map<K, nat>, m2: map<K, nat>, ks: set<K>)
    requires ks <= m1.Keys && ks <= m2.Keys && forall k :: k in ks ==> m1[k] == m2[k]
    ensures SumOn(m1, ks) == SumOn(m2, ks)
    decreases ks
  {
    if ks != {} {
      var k :| k in ks && SumOn(m1, ks) == m1[k] + SumOn(m1, ks - {k});
      SumOnRemove(m2, ks, k);
      SumOnAgree(m1, m2, ks - {k});
    }
  }

  /** Counting one more key adds one to the total. */
  lemma SumValuesBump<K>(m: map<K, nat>, x: K)
    ensures SumValues(Tally(m, x)) == SumValues(m) + 1
  {
    var m' := Tally(m, x);
    SumOnRemove(m', m'.Keys, x);
    if x in m {
      SumOnAgree(m', m, m.Keys - {x});
      SumOnRemove(m, m.Keys, x);
      assert m'.Keys == m.Keys;
    } else {
      assert m'.Keys - {x} == m.Keys;
      SumOnAgree(m', m, m.Keys);
    }
  }

  /** Counting one more key keeps a histogram a histogram. */
  lemma HistogramBump<K(!new)>(m: map<K, nat>, keys: seq<K>, x: K)
    requires IsHistogram(m, keys)
    ensures IsHistogram(Tally(m, x), keys + [x])
  {
    var keys' := keys + [x];
    assert keys'[..|keys'| - 1] == keys;
    if x !in m {
      OccurrencesAbsent(keys, x);
    }
  }

  /** Counting the next key of `keys` extends the histogram of a prefix to one key more. */
  lemma TallyStep<K(!new)>(m: map<K, nat>, keys: seq<K>, i: nat)
    requires i < |keys| && IsHistogram(m, keys[..i]) && SumValues(m) == i
    ensures IsHistogram(Tally(m, keys[i]), keys[..i + 1]) && SumValues(Tally(m, keys[i])) == i + 1
  {
    assert keys[..i + 1] == keys[..i] + [keys[i]];
    HistogramBump(m, keys[..i], keys[i]);
    SumValuesBump(m, keys[i]);
  }

  function Categories(questions: seq<Question>): (r: seq<string>)
    ensures |r| == |questions| && forall i :: 0 <= i < |r| ==> r[i] == questions[i].category
  {
    seq(|questions|, i requires 0 <= i < |questions| => questions[i].category)
  }

  function Difficulties(questions: seq<Question>): (r: seq<int>)
    ensures |r| == |questions| && forall i :: 0 <= i < |r| ==> r[i] == questions[i].difficulty
  {
    seq(|questions|, i requires 0 <= i < |questions| => questions[i].difficulty)
  }

  /** What `getQuestionStats` returns: the number of questions and how many fall in each category and difficulty. */
  datatype QuestionStats = QuestionStats(total: int, categories: map<string, nat>, difficulties: map<int, nat>)

  /**
   * `getQuestionStats` over what `getAllQuestions` produced: on success each category and difficulty
   * is counted, and each tally sums to the total; on failure the empty statistics.
   */
  method GetQuestionStats(fetched: Result<seq<Question>>) returns (stats: QuestionStats)
    ensures fetched.Err? ==> stats == QuestionStats(0, map[], map[])
    ensures fetched.Ok? ==>
      stats.total == |fetched.value| && IsHistogram(stats.categories, Categories(fetched.value))
      && IsHistogram(stats.difficulties, Difficulties(fetched.value))
    ensures SumValues(stats.categories) == stats.total && SumValues(stats.difficulties) == stats.total
  {
    if fetched.Err? {
      return QuestionStats(0, map[], map[]);
    }
    var questions := fetched.value;
    var keys, levels := Categories(questions), Difficulties(questions);
    var categories: map<string, nat> := map[];
    var difficulties: map<int, nat> := map[];
    var i := 0;
    while i < |questions|
      invariant 0 <= i <= |questions|
      invariant IsHistogram(categories, keys[..i]) && SumValues(categories) == i
      invariant IsHistogram(difficulties, levels[..i]) && SumValues(difficulties) == i
    {
      var q := questions[i];
      TallyStep(categories, keys, i);
      TallyStep(difficulties, levels, i);
      categories := Tally(categories, q.category);
      difficulties := Tally(difficulties, q.difficulty);
      i := i + 1;
    }
    assert keys[..i] == keys && levels[..i] == levels;
    stats := QuestionStats(|questions|, categories, difficulties);
  }

  // ---------------------------------------------------------------- random selection

  /** `pagingInfo.limit`: three times the requested count, to leave room for the shuffle. */
  function RequestLimit(count: nat): nat {
    count * 3
  }

  /** The first page the backend returns for a request with that limit. */
  function FirstPage(records: seq<Question>, limit: nat): (page: seq<Question>)
    ensures |page| <= limit && |page| <= |records| && page == records[..|page|]
    ensures |records| <= limit ==> page == records
  {
    if |records| <= limit then records else records[..limit]
  }

  /**
   * `getRandomQuestions(count)`: the backend's records (or its failure), then a random reordering of
   * the page, of which the first `count` are kept. `shuffled` is the order `sort` with a random
   * comparator happened to produce: any permutation of the page.
   */
  function GetRandomQuestions(count: nat, records: Result<seq<Question>>, shuffled: seq<Question>): (r: Result<seq<Question>>)
    requires records.Ok? ==> multiset(shuffled) == multiset(FirstPage(records.value, RequestLimit(count)))
    ensures records.Err? <==> r.Err?
    ensures r.Err? ==> r.message == "Failed to fetch questions"
    ensures r.Ok? ==> var page := FirstPage(records.value, RequestLimit(count));
                      |r.value| == (if count < |page| then count else |page|)
                      && multiset(r.value) <= multiset(page)
  {
    if records.Err? then Err("Failed to fetch questions")
    else
      var n := if count < |shuffled| then count else |shuffled|;
      assert multiset(shuffled) == multiset(shuffled[..n]) + multiset(shuffled[n..]) by {
        assert shuffled == shuffled[..n] + shuffled[n..];
      }
      assert |shuffled| == |FirstPage(records.value, RequestLimit(count))| by {
        assert |multiset(shuffled)| == |shuffled|;
      }
      Ok(shuffled[..n])
  }

  /** Every picked question is one of the backend's records, and a page with enough questions fills the quiz. */
  lemma RandomPickProperties(count: nat, records: seq<Question>, shuffled: seq<Question>)
    requires multiset(shuffled) == multiset(FirstPage(records, RequestLimit(count)))
    ensures var picked := GetRandomQuestions(count, Ok(records), shuffled).value;
            (|records| >= count ==> |picked| == count)
            && forall q :: q in picked ==> q in records
  {
    var page := FirstPage(records, RequestLimit(count));
    var picked := GetRandomQuestions(count, Ok(records), shuffled).value;
    forall q | q in picked ensures q in records {
      assert q in multiset(picked);
      assert q in multiset(page);
      assert q in page;
    }
  }
}
