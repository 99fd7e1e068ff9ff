/**
 * The persisted score collection: one storage slot holding the serialized
 * array of records, read whole and rewritten whole by every operation.
 */
module Store {
  import opened Seqs
  import opened Records

  /**
   * What the slot holds: nothing, the empty string, the serialization of a
   * record array, or text that does not parse.
   */
  datatype Stored = Absent | Blank | Serialized(records: seq<Record>) | Malformed

  /** The failure of reading the slot: the parser rejects its text. */
  datatype StoreError = ParseError

  datatype Result<T> = Ok(value: T) | Err(error: StoreError)

  /** The completion of an operation that returns nothing. */
  datatype Outcome = Done | Failed(error: StoreError)

  /** The predicate of the delete filter: the record's id differs from `id`. */
  function HasOtherId(id: int): Record -> bool
  {
    (score: Record) => score.id != id
  }

  /** The collection after deleting every record whose id is `id`. */
  function WithoutId(scores: seq<Record>, id: int): seq<Record>
  {
    Filter(scores, HasOtherId(id))
  }

  /**
   * Deleting by id leaves no record with that id, keeps every other record
   * in its original relative order, and changes nothing when no record has it.
   */
  lemma WithoutIdSpec(scores: seq<Record>, id: int)
    ensures forall score :: score in WithoutId(scores, id) <==> score in scores && score.id != id
    ensures IsSubsequence(WithoutId(scores, id), scores)
    ensures forall score: Record :: score.id != id ==>
      multiset(WithoutId(scores, id))[score] == multiset(scores)[score]
    ensures (forall score :: score in scores ==> score.id != id) ==> WithoutId(scores, id) == scores
  {
    forall score
      ensures score in WithoutId(scores, id) <==> score in scores && score.id != id
      ensures multiset(WithoutId(scores, id))[score] == if score.id != id then multiset(scores)[score] else 0
    {
      FilterMembership(scores, HasOtherId(id), score);
      FilterCount(scores, HasOtherId(id), score);
    }
    FilterIsSubsequence(scores, HasOtherId(id));
    if forall score :: score in scores ==> score.id != id {
      FilterKeepsAll(scores, HasOtherId(id));
    }
  }

  /**
   * Saving a record and then deleting its id removes it, and removes
   * exactly what deleting that id before the save would have removed.
   */
  lemma DeleteAfterSave(scores: seq<Record>, score: Record)
    ensures WithoutId(scores + [score], score.id) == WithoutId(scores, score.id)
    ensures score !in WithoutId(scores + [score], score.id)
  {
    FilterConcat(scores, [score], HasOtherId(score.id));
    assert Filter([score], HasOtherId(score.id)) == [];
  }

  /** The storage slot under the collection's key. */
  class ScoreStore {
    var item: Stored

    /** A fresh store: nothing saved yet. */
    constructor ()
      ensures item == Absent
    {
      item := Absent;
    }

    /**
     * Reading the collection: an empty slot (absent or the empty string)
     * gives no records, a serialized array gives its records, and text that
     * does not parse is an error.
     */
    function GetScores(): (r: Result<seq<Record>>)
      reads this
      ensures item == Absent || item == Blank ==> r == Ok([])
      ensures item.Serialized? ==> r == Ok(item.records)
      ensures r.Err? <==> item == Malformed
    {
      match item
      case Absent => Ok([])
      case Blank => Ok([])
      case Serialized(records) => Ok(records)
      case Malformed => Err(ParseError)
    }

    /**
     * Appends `score` after every record already saved and rewrites the
     * slot; when the slot does not parse, the read fails and nothing is
     * written.
     */
    method SaveScore(score: Record) returns (outcome: Outcome)
      modifies this
      ensures old(GetScores()).Err? ==> outcome == Failed(ParseError) && item == old(item)
      ensures old(GetScores()).Ok? ==>
        && outcome == Done
        && item == Serialized(old(GetScores()).value + [score])
        && GetScores() == Ok(old(GetScores()).value + [score])
    {
      var read := GetScores();
      if read.Err? {
        return Failed(read.error);
      }
      var scores := read.value;
      scores := scores + [score];
      item := Serialized(scores);
      outcome := Done;
    }

    /**
     * Deletes every record whose id is `id`, only when the user confirmed.
     * Unconfirmed, the slot is untouched. Confirmed, the slot is read (and a
     * slot that does not parse fails with nothing written) and rewritten
     * with the records that remain, even when none was removed.
     */
    method DeleteScore(id: int, confirmed: bool) returns (outcome: Outcome)
      modifies this
      ensures !confirmed ==> outcome == Done && item == old(item)
      ensures confirmed && old(GetScores()).Err? ==> outcome == Failed(ParseError) && item == old(item)
      ensures confirmed && old(GetScores()).Ok? ==>
        && outcome == Done
        && item == Serialized(WithoutId(old(GetScores()).value, id))
        && (forall score :: score in GetScores().value <==> score in old(GetScores()).value && score.id != id)
    {
      if !confirmed {
        return Done;
      }
      var read := GetScores();
      if read.Err? {
        return Failed(read.error);
      }
      var scores := read.value;
      WithoutIdSpec(scores, id);
      scores := WithoutId(scores, id);
      item := Serialized(scores);
      outcome := Done;
    }
  }
}
