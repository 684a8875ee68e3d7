/** Oversized objectives and the output store together. */
module ObjectiveStorage {
  import opened Prelude
  import opened Objective
  import opened HandleStores

  /** An oversized objective whose put returns is never lost: the goal keeps a
      valid reference with the handle in it, and the handle reads back the whole
      trimmed objective, if and only if no other content was stored under the
      same handle first. */
  lemma OversizedObjectivesStayReadable(h: Digest, dir: Dir, before: seq<Attempt>, objective: string, fate: Fate)
    requires IsDigest(h) && Addressed(h, dir) && |Trim(objective)| > MAX_OBJECTIVE_CHARS
    requires FinalName(HandleId(h, Trim(objective))) !in dir
    requires Put(h, PutAll(h, dir, before), Trim(objective), fate).1.Some?
    ensures var (after, answer) := Put(h, PutAll(h, dir, before), Trim(objective), fate);
            var kept := Materialize(objective, Storing(answer.value));
            && kept == Ok(Reference(answer.value))
            && Validate(kept.value) == kept
            && (Get(after, answer.value) == Some(Trim(objective)) <==>
                  FirstStored(h, before, answer.value) in {None, Some(Trim(objective))})
  {
    var answer := Put(h, PutAll(h, dir, before), Trim(objective), fate).1;
    PutThenGetExactlyWhen(h, dir, before, Trim(objective), fate);
    MintedIds(h, Trim(objective), Trim(objective));
    MaterializedIsFinal(objective, Storing(answer.value));
  }
}
