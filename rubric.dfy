/**
 * The fixed rubric table: for each experience type, the five dimensions a
 * user rates it on.
 */
module Rubric {

  /** No label occurs twice, so each label becomes its own key of a record's ratings. */
  predicate Distinct(labels: seq<string>)
  {
    forall i, j :: 0 <= i < j < |labels| ==> labels[i] != labels[j]
  }

  const CategoryRatings: map<string, seq<string>> := map[
    "Hotel" := ["Cleanliness", "Service", "Location", "Value", "Amenities"],
    "Sporting Event" := ["Atmosphere", "Seats", "Food/Drinks", "Value", "Overall Experience"],
    "Airport" := ["Cleanliness", "Food Options", "Amenities", "Layout/Navigation", "Efficiency"],
    "Restaurant" := ["Food Quality", "Service", "Ambiance", "Value", "Presentation"],
    "College" := ["Academics", "Campus", "Dorms", "Food", "Social Life"],
    "Other" := ["Category 1", "Category 2", "Category 3", "Category 4", "Category 5"]
  ]

  /**
   * The rubric of a known experience type: exactly five labels, pairwise
   * different. An unknown type has no rubric; callers must pass a table key.
   */
  function RubricFor(experienceType: string): (labels: seq<string>)
    requires experienceType in CategoryRatings
    ensures |labels| == 5
    ensures Distinct(labels)
  {
    CategoryRatings[experienceType]
  }

  /** The table's keys are exactly the six experience types. */
  lemma TableKeys()
    ensures CategoryRatings.Keys == {"Hotel", "Sporting Event", "Airport", "Restaurant", "College", "Other"}
    ensures |CategoryRatings| == 6
  {
  }
}
