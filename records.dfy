/**
 * Score records and how the submit handler builds one: a ratings object with
 * one star count per rubric label, and the overall score as their mean.
 */
module Records {
  import opened Rubric

  /** One property of a record's `ratings` object: a rubric label and its star count. */
  datatype Entry = Entry(category: string, stars: int)

  /** A `ratings` object, as its properties in insertion order. */
  type Ratings = seq<Entry>

  /**
   * One logged experience. `date` is the timestamp the date field denotes,
   * taken as an integer key; `overallScore` is kept exact.
   */
  datatype Record = Record(
    id: int,
    name: string,
    experienceType: string,
    location: string,
    date: int,
    ratings: Ratings,
    notes: string,
    overallScore: real)

  /** The values the five star radio buttons of one dimension carry. */
  const StarValues: seq<int> := [5, 4, 3, 2, 1]

  /** Object.keys of a ratings object. */
  function Labels(ratings: Ratings): (labels: seq<string>)
    ensures |labels| == |ratings|
    ensures forall i :: 0 <= i < |ratings| ==> labels[i] == ratings[i].category
  {
    if ratings == [] then [] else [ratings[0].category] + Labels(ratings[1..])
  }

  /** Object.values of a ratings object. */
  function Stars(ratings: Ratings): (stars: seq<int>)
    ensures |stars| == |ratings|
    ensures forall i :: 0 <= i < |ratings| ==> stars[i] == ratings[i].stars
  {
    if ratings == [] then [] else [ratings[0].stars] + Stars(ratings[1..])
  }

  /**
   * The assignment `ratings[category] = stars`: a new label is added at the end;
   * an existing one keeps its place and takes the new value.
   */
  function Put(ratings: Ratings, category: string, stars: int): (r: Ratings)
    ensures category !in Labels(ratings) ==> r == ratings + [Entry(category, stars)]
    ensures category in Labels(ratings) ==> Labels(r) == Labels(ratings) && Entry(category, stars) in r
    ensures category in Labels(ratings) ==> |r| == |ratings|
    ensures category in Labels(ratings) ==>
      forall i :: 0 <= i < |ratings| && ratings[i].category != category ==> r[i] == ratings[i]
  {
    if ratings == [] then [Entry(category, stars)]
    else if ratings[0].category == category then [Entry(category, stars)] + ratings[1..]
    else [ratings[0]] + Put(ratings[1..], category, stars)
  }

  /** The `reduce((a, b) => a + b, 0)` over the rating values, folded from the left. */
  function Sum(xs: seq<int>): int
  {
    if xs == [] then 0 else Sum(xs[..|xs| - 1]) + xs[|xs| - 1]
  }

  /** The arithmetic mean, as an exact rational. */
  function Mean(xs: seq<int>): real
    requires |xs| > 0
  {
    Sum(xs) as real / |xs| as real
  }

  /** Every value is one a star radio button can carry, that is, lies in [1, 5]. */
  predicate AllStars(xs: seq<int>)
  {
    forall i :: 0 <= i < |xs| ==> xs[i] in StarValues
  }

  /** Values in [1, 5] add up to between once and five times their count. */
  lemma {:induction false} SumBounds(xs: seq<int>)
    requires AllStars(xs)
    ensures |xs| <= Sum(xs) <= 5 * |xs|
  {
    if xs != [] {
      SumBounds(xs[..|xs| - 1]);
    }
  }

  /** The mean of star values lies in [1, 5]. */
  lemma MeanBounds(xs: seq<int>)
    requires |xs| > 0 && AllStars(xs)
    ensures 1.0 <= Mean(xs) <= 5.0
  {
    SumBounds(xs);
    var n := |xs| as real;
    assert n <= Sum(xs) as real <= 5.0 * n;
    assert Mean(xs) * n == Sum(xs) as real;
  }

  /**
   * What a record built by the submit handler satisfies: its type is a
   * table key, its ratings carry exactly that type's labels in rubric order,
   * each value is a star value, and the overall score is their mean.
   */
  predicate WellFormed(rec: Record)
  {
    && rec.experienceType in CategoryRatings
    && Labels(rec.ratings) == CategoryRatings[rec.experienceType]
    && AllStars(Stars(rec.ratings))
    && |rec.ratings| > 0
    && rec.overallScore == Mean(Stars(rec.ratings))
  }

  /** A well-formed record has five ratings and an overall score in [1, 5]. */
  lemma WellFormedScore(rec: Record)
    requires WellFormed(rec)
    ensures |rec.ratings| == 5
    ensures 1.0 <= rec.overallScore <= 5.0
  {
    assert |Labels(rec.ratings)| == |RubricFor(rec.experienceType)|;
    MeanBounds(Stars(rec.ratings));
  }

  /**
   * The `forEach` of the submit handler: for each rubric label, in order,
   * assign the picked value. `picks[i]` is the value of the checked radio
   * button of the i-th dimension.
   */
  method FillRatings(labels: seq<string>, picks: seq<int>) returns (ratings: Ratings)
    requires Distinct(labels) && |picks| == |labels|
    ensures Labels(ratings) == labels
    ensures Stars(ratings) == picks
  {
    ratings := [];
    var i := 0;
    while i < |labels|
      invariant 0 <= i <= |labels|
      invariant Labels(ratings) == labels[..i]
      invariant Stars(ratings) == picks[..i]
    {
      assert labels[i] !in labels[..i];
      ghost var before := ratings;
      ratings := Put(ratings, labels[i], picks[i]);
      assert ratings == before + [Entry(labels[i], picks[i])];
      assert Labels(ratings) == labels[..i + 1];
      assert Stars(ratings) == picks[..i + 1];
      i := i + 1;
    }
    assert labels[..i] == labels && picks[..i] == picks;
  }

  /**
   * The record the submit handler builds. The form's `required` attribute
   * guarantees a checked radio button for every dimension, hence one pick
   * per label. `id` stands for the clock reading the handler takes.
   */
  method BuildRecord(id: int, name: string, experienceType: string, location: string,
                     date: int, notes: string, picks: seq<int>) returns (rec: Record)
    requires experienceType in CategoryRatings
    requires |picks| == |CategoryRatings[experienceType]|
    requires AllStars(picks)
    ensures WellFormed(rec)
    ensures rec.id == id && rec.name == name && rec.experienceType == experienceType
    ensures rec.location == location && rec.date == date && rec.notes == notes
    ensures Stars(rec.ratings) == picks
    ensures 1.0 <= rec.overallScore <= 5.0
  {
    var labels := RubricFor(experienceType);
    var ratings := FillRatings(labels, picks);
    var values := Stars(ratings);
    MeanBounds(values);
    rec := Record(id, name, experienceType, location, date, ratings, notes,
                  Sum(values) as real / |values| as real);
  }

  /** The Restaurant example: ratings 5, 4, 5, 3, 4 give an overall score of 4.2. */
  lemma RestaurantExample()
    ensures RubricFor("Restaurant") == ["Food Quality", "Service", "Ambiance", "Value", "Presentation"]
    ensures Mean([5, 4, 5, 3, 4]) == 4.2
  {
    assert Sum([5, 4, 5, 3, 4]) == 21 by {
      assert [5, 4, 5, 3, 4][..4] == [5, 4, 5, 3];
      assert [5, 4, 5, 3][..3] == [5, 4, 5];
      assert [5, 4, 5][..2] == [5, 4];
      assert [5, 4][..1] == [5];
      assert [5][..0] == [];
    }
  }
}
