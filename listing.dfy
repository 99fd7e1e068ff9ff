/**
 * The list view's data pipeline: read every record, keep one experience type
 * unless the filter is "all", and sort with the comparator the sort key picks.
 */
module Listing {
  import opened Seqs
  import opened Records
  import opened Store

  /** The options of the sort selector, and any other value it might carry. */
  datatype SortKey = DateDesc | DateAsc | ScoreDesc | ScoreAsc | Unordered

  /** The case of the comparator's `switch` that a sort selector value reaches. */
  function KeyOf(sortBy: string): SortKey
  {
    if sortBy == "date-desc" then DateDesc
    else if sortBy == "date-asc" then DateAsc
    else if sortBy == "score-desc" then ScoreDesc
    else if sortBy == "score-asc" then ScoreAsc
    else Unordered
  }

  /**
   * The comparator of the sort, as the difference it returns: positive when
   * `a` goes after `b`, negative when before, zero when they tie. The
   * default case ties every pair.
   */
  function Compare(key: SortKey, a: Record, b: Record): real
  {
    match key
    case DateDesc => (b.date - a.date) as real
    case DateAsc => (a.date - b.date) as real
    case ScoreDesc => b.overallScore - a.overallScore
    case ScoreAsc => a.overallScore - b.overallScore
    case Unordered => 0.0
  }

  /**
   * Every comparator is a difference of keys: swapping the arguments negates
   * it, and comparing through a middle record adds up.
   */
  lemma CompareIsDifference(key: SortKey, a: Record, b: Record, c: Record)
    ensures Compare(key, b, a) == -Compare(key, a, b)
    ensures Compare(key, a, c) == Compare(key, a, b) + Compare(key, b, c)
    ensures key == Unordered ==> Compare(key, a, b) == 0.0
  {
  }

  /** The predicate of the category filter: the record has that type. */
  function HasType(experienceType: string): Record -> bool
  {
    (score: Record) => score.experienceType == experienceType
  }

  /** The filter step: "all" keeps every record, anything else keeps one type. */
  function FilterCategory(scores: seq<Record>, filterCategory: string): seq<Record>
  {
    if filterCategory != "all" then Filter(scores, HasType(filterCategory)) else scores
  }

  /**
   * With "all" the records pass through unchanged; otherwise exactly the
   * records of that type remain, each as often as before, in their original
   * relative order.
   */
  lemma FilterCategorySpec(scores: seq<Record>, filterCategory: string)
    ensures filterCategory == "all" ==> FilterCategory(scores, filterCategory) == scores
    ensures filterCategory != "all" ==>
      forall score :: score in FilterCategory(scores, filterCategory) <==>
        score in scores && score.experienceType == filterCategory
    ensures filterCategory != "all" ==>
      forall score: Record :: score.experienceType == filterCategory ==>
        multiset(FilterCategory(scores, filterCategory))[score] == multiset(scores)[score]
    ensures IsSubsequence(FilterCategory(scores, filterCategory), scores)
  {
    if filterCategory != "all" {
      var p := HasType(filterCategory);
      forall score
        ensures score in Filter(scores, p) <==> score in scores && score.experienceType == filterCategory
        ensures multiset(Filter(scores, p))[score] ==
          if score.experienceType == filterCategory then multiset(scores)[score] else 0
      {
        FilterMembership(scores, p, score);
        FilterCount(scores, p, score);
      }
      FilterIsSubsequence(scores, p);
    } else {
      SubsequenceOfItself(scores);
    }
  }

  /** Adjacent records are in comparator order: none goes after its successor. */
  ghost predicate SortedBy(key: SortKey, s: seq<Record>)
  {
    forall j :: 0 < j < |s| ==> Compare(key, s[j - 1], s[j]) <= 0.0
  }

  /**
   * Inserts `x` after a sorted prefix the way a stable sort places a later
   * element: it moves left only past records that go strictly after it.
   */
  function Insert(key: SortKey, sorted: seq<Record>, x: Record): (r: seq<Record>)
    ensures |r| == |sorted| + 1
    ensures r[|r| - 1] == x || (sorted != [] && r[|r| - 1] == sorted[|sorted| - 1])
  {
    if sorted == [] then [x]
    else if Compare(key, sorted[|sorted| - 1], x) > 0.0 then
      Insert(key, sorted[..|sorted| - 1], x) + [sorted[|sorted| - 1]]
    else sorted + [x]
  }

  /**
   * The stable sort of `s` by the comparator of `key`: each record in
   * turn inserted after those before it.
   */
  function SortBy(key: SortKey, s: seq<Record>): seq<Record>
  {
    if s == [] then [] else Insert(key, SortBy(key, s[..|s| - 1]), s[|s| - 1])
  }

  /** Inserting into a sorted sequence keeps it sorted. */
  lemma {:induction false} InsertSorted(key: SortKey, sorted: seq<Record>, x: Record)
    requires SortedBy(key, sorted)
    ensures SortedBy(key, Insert(key, sorted, x))
  {
    if sorted != [] {
      var init, last := sorted[..|sorted| - 1], sorted[|sorted| - 1];
      if Compare(key, last, x) > 0.0 {
        InsertSorted(key, init, x);
        var r := Insert(key, init, x);
        CompareIsDifference(key, last, x, x);
        assert Compare(key, r[|r| - 1], last) <= 0.0;
      }
    }
  }

  /** Inserting adds `x` and loses nothing. */
  lemma {:induction false} InsertPermutation(key: SortKey, sorted: seq<Record>, x: Record)
    ensures multiset(Insert(key, sorted, x)) == multiset(sorted) + multiset{x}
  {
    if sorted != [] && Compare(key, sorted[|sorted| - 1], x) > 0.0 {
      InsertPermutation(key, sorted[..|sorted| - 1], x);
      assert sorted == sorted[..|sorted| - 1] + [sorted[|sorted| - 1]];
    }
  }

  /** The sort returns a permutation of its input. */
  lemma {:induction false} SortByPermutation(key: SortKey, s: seq<Record>)
    ensures multiset(SortBy(key, s)) == multiset(s)
  {
    if s != [] {
      var init, last := s[..|s| - 1], s[|s| - 1];
      SortByPermutation(key, init);
      InsertPermutation(key, SortBy(key, init), last);
      assert s == init + [last];
      assert multiset(s) == multiset(init) + multiset{last};
    }
  }

  /** The sort returns its records in comparator order. */
  lemma {:induction false} SortBySorted(key: SortKey, s: seq<Record>)
    ensures SortedBy(key, SortBy(key, s))
  {
    if s != [] {
      SortBySorted(key, s[..|s| - 1]);
      InsertSorted(key, SortBy(key, s[..|s| - 1]), s[|s| - 1]);
    }
  }

  /** The records that tie with `e` under the comparator of `key`. */
  function TiedWith(key: SortKey, e: Record): Record -> bool
  {
    (x: Record) => Compare(key, x, e) == 0.0
  }

  /** Inserting does not reorder `x` among the records it ties with. */
  lemma {:induction false} InsertKeepsTies(key: SortKey, sorted: seq<Record>, x: Record, e: Record)
    ensures Filter(Insert(key, sorted, x), TiedWith(key, e)) == Filter(sorted + [x], TiedWith(key, e))
  {
    var p := TiedWith(key, e);
    if sorted != [] {
      var init, last := sorted[..|sorted| - 1], sorted[|sorted| - 1];
      if Compare(key, last, x) > 0.0 {
        var ins := Insert(key, init, x);
        assert Insert(key, sorted, x) == ins + [last];
        assert sorted + [x] == init + [last] + [x];
        // x and last cannot both tie with e, since last goes strictly after x.
        CompareIsDifference(key, last, e, x);
        CompareIsDifference(key, x, e, e);
        assert !(p(x) && p(last));
        FilterSingle(x, p);
        FilterSingle(last, p);
        calc {
          Filter(ins + [last], p);
        == { FilterConcat(ins, [last], p); }
          Filter(ins, p) + Filter([last], p);
        == { InsertKeepsTies(key, init, x, e); }
          Filter(init + [x], p) + Filter([last], p);
        == { FilterConcat(init, [x], p); }
          Filter(init, p) + Filter([x], p) + Filter([last], p);
        == // at most one of the two single filters is non-empty
          Filter(init, p) + Filter([last], p) + Filter([x], p);
        == { FilterConcat(init, [last], p); }
          Filter(init + [last], p) + Filter([x], p);
        == { FilterConcat(init + [last], [x], p); }
          Filter(init + [last] + [x], p);
        }
      }
    }
  }

  /**
   * The sort is stable: the records that tie with any given record keep
   * their original relative order.
   */
  lemma {:induction false} SortByStable(key: SortKey, s: seq<Record>, e: Record)
    ensures Filter(SortBy(key, s), TiedWith(key, e)) == Filter(s, TiedWith(key, e))
  {
    if s != [] {
      var init, last := s[..|s| - 1], s[|s| - 1];
      var p := TiedWith(key, e);
      assert s == init + [last];
      calc {
        Filter(SortBy(key, s), p);
      ==
        Filter(Insert(key, SortBy(key, init), last), p);
      == { InsertKeepsTies(key, SortBy(key, init), last, e); }
        Filter(SortBy(key, init) + [last], p);
      == { FilterConcat(SortBy(key, init), [last], p); }
        Filter(SortBy(key, init), p) + Filter([last], p);
      == { SortByStable(key, init, e); }
        Filter(init, p) + Filter([last], p);
      == { FilterConcat(init, [last], p); }
        Filter(s, p);
      }
    }
  }

  /** With an unknown sort key every pair ties, so the order is left alone. */
  lemma {:induction false} UnknownKeyKeepsOrder(key: SortKey, s: seq<Record>)
    requires key == Unordered
    ensures SortBy(key, s) == s
  {
    if s != [] {
      UnknownKeyKeepsOrder(key, s[..|s| - 1]);
      assert s == s[..|s| - 1] + [s[|s| - 1]];
    }
  }

  /**
   * What each known key's sorted order means for adjacent records: scores
   * non-increasing or non-decreasing, dates latest first or earliest first.
   */
  lemma SortedMeaning(key: SortKey, s: seq<Record>)
    requires SortedBy(key, s)
    ensures key == ScoreDesc ==> forall j :: 0 < j < |s| ==> s[j - 1].overallScore >= s[j].overallScore
    ensures key == ScoreAsc ==> forall j :: 0 < j < |s| ==> s[j - 1].overallScore <= s[j].overallScore
    ensures key == DateDesc ==> forall j :: 0 < j < |s| ==> s[j - 1].date >= s[j].date
    ensures key == DateAsc ==> forall j :: 0 < j < |s| ==> s[j - 1].date <= s[j].date
  {
    forall j | 0 < j < |s|
      ensures Compare(key, s[j - 1], s[j]) <= 0.0
    {
    }
  }

  /**
   * Where `Insert` puts `x`: after the records `pre`, the last of which does
   * not go strictly after `x`, and before the records `post`, all of which do.
   */
  lemma {:induction false} InsertPosition(key: SortKey, pre: seq<Record>, post: seq<Record>, x: Record)
    requires pre == [] || Compare(key, pre[|pre| - 1], x) <= 0.0
    requires forall k :: 0 <= k < |post| ==> Compare(key, post[k], x) > 0.0
    ensures Insert(key, pre + post, x) == pre + [x] + post
    decreases |post|
  {
    if post == [] {
      assert pre + post == pre;
    } else {
      var init, last := post[..|post| - 1], post[|post| - 1];
      assert (pre + post)[..|pre + post| - 1] == pre + init;
      assert (pre + post)[|pre + post| - 1] == last;
      InsertPosition(key, pre, init, x);
      assert pre + [x] + post == pre + [x] + init + [last];
    }
  }

  /**
   * One step of the in-place sort: the record at index `i` moves left past
   * the records of the sorted prefix `a[..i]` that go strictly after it.
   */
  method InsertInPlace(key: SortKey, a: array<Record>, i: nat)
    requires i < a.Length
    modifies a
    ensures a[..i + 1] == Insert(key, old(a[..i]), old(a[i]))
    ensures forall k :: i < k < a.Length ==> a[k] == old(a[k])
  {
    ghost var prefix := a[..i];
    var x := a[i];
    var j := i;
    while j > 0 && Compare(key, a[j - 1], x) > 0.0
      invariant 0 <= j <= i
      invariant forall k :: 0 <= k < j ==> a[k] == prefix[k]
      invariant a[j] == x
      invariant forall k :: j < k <= i ==> a[k] == prefix[k - 1]
      invariant forall k :: i < k < a.Length ==> a[k] == old(a[k])
      invariant forall k :: j <= k < i ==> Compare(key, prefix[k], x) > 0.0
    {
      a[j] := a[j - 1];
      a[j - 1] := x;
      j := j - 1;
    }
    ShiftedIsInsert(key, a[..i + 1], prefix, x, j);
  }

  /**
   * The array segment the inner loop leaves: the prefix up to `j`, then `x`,
   * then the rest of the prefix shifted one place right, where `x` ties with
   * or goes after the record before it and every record shifted goes
   * strictly after it. That is the insertion of `x` into the prefix.
   */
  lemma ShiftedIsInsert(key: SortKey, s: seq<Record>, prefix: seq<Record>, x: Record, j: nat)
    requires j <= |prefix| && |s| == |prefix| + 1
    requires j == 0 || Compare(key, prefix[j - 1], x) <= 0.0
    requires forall k :: 0 <= k < j ==> s[k] == prefix[k]
    requires s[j] == x
    requires forall k :: j < k < |s| ==> s[k] == prefix[k - 1]
    requires forall k :: j <= k < |prefix| ==> Compare(key, prefix[k], x) > 0.0
    ensures s == Insert(key, prefix, x)
  {
    var pre, post := prefix[..j], prefix[j..];
    assert prefix == pre + post;
    assert pre == [] || pre[|pre| - 1] == prefix[j - 1];
    forall k | 0 <= k < |post|
      ensures Compare(key, post[k], x) > 0.0
      ensures s[|pre| + 1 + k] == post[k]
    {
      assert post[k] == prefix[j + k];
    }
    InsertPosition(key, pre, post, x);
    forall k | 0 <= k < |pre|
      ensures s[k] == pre[k]
    {
    }
    ConcatAt(s, pre, x, post);
  }

  /** Sorting one more element of `s` inserts it into the sorted shorter prefix. */
  lemma SortByStep(key: SortKey, s: seq<Record>, i: nat)
    requires i < |s|
    ensures SortBy(key, s[..i + 1]) == Insert(key, SortBy(key, s[..i]), s[i])
  {
    assert s[..i + 1][..i] == s[..i];
  }

  /**
   * The in-place `sort` of the list view on an array: an insertion sort,
   * stable like the sort it stands for.
   */
  method SortInPlace(key: SortKey, a: array<Record>)
    modifies a
    ensures a[..] == SortBy(key, old(a[..]))
  {
    ghost var input := a[..];
    var i := 0;
    while i < a.Length
      invariant 0 <= i <= a.Length
      invariant a[..i] == SortBy(key, input[..i])
      invariant forall k :: i <= k < a.Length ==> a[k] == input[k]
    {
      ghost var sortedPrefix := a[..i];
      ghost var next := a[i];
      InsertInPlace(key, a, i);
      assert a[..i + 1] == Insert(key, sortedPrefix, next);
      SortByStep(key, input, i);
      i := i + 1;
    }
    assert a[..] == a[..a.Length] && input == input[..a.Length];
  }

  /**
   * The list view's records: read the collection, filter it by category and
   * sort it by the chosen key. A slot that does not parse makes it fail.
   */
  method LoadScores(store: ScoreStore, filterCategory: string, sortBy: string)
    returns (res: Result<seq<Record>>)
    ensures store.GetScores().Err? <==> res.Err?
    ensures store.GetScores().Ok? ==>
      res == Ok(SortBy(KeyOf(sortBy), FilterCategory(store.GetScores().value, filterCategory)))
    ensures res.Ok? ==> SortedBy(KeyOf(sortBy), res.value)
    ensures res.Ok? ==>
      multiset(res.value) == multiset(FilterCategory(store.GetScores().value, filterCategory))
    ensures res.Ok? && KeyOf(sortBy) == Unordered ==>
      res.value == FilterCategory(store.GetScores().value, filterCategory)
  {
    var key := KeyOf(sortBy);
    var read := store.GetScores();
    if read.Err? {
      return Err(read.error);
    }
    var scores := FilterCategory(read.value, filterCategory);
    var a := new Record[|scores|](k requires 0 <= k < |scores| => scores[k]);
    assert a[..] == scores;
    SortInPlace(key, a);
    SortBySorted(key, scores);
    SortByPermutation(key, scores);
    if key == Unordered {
      UnknownKeyKeepsOrder(key, scores);
    }
    res := Ok(a[..]);
  }
}
