/** The job logs the stages return: Python dicts filled by `log[jobid] = entry`
    in submission order, so a job id the scheduler hands out twice keeps the
    entry of its later submission. */
module JobLogs {

  /** No later submission reuses the id of submission `i`. */
  predicate LastOccurrence(ids: seq<string>, i: int)
    requires 0 <= i < |ids|
  {
    forall j :: i < j < |ids| ==> ids[j] != ids[i]
  }

  predicate Distinct(ids: seq<string>) {
    forall i, j :: 0 <= i < j < |ids| ==> ids[i] != ids[j]
  }

  /** The dict after assigning `entries[i]` under `ids[i]` for each `i` in turn. */
  function Record<V>(ids: seq<string>, entries: seq<V>): (log: map<string, V>)
    requires |ids| == |entries|
    ensures log.Keys == set i | 0 <= i < |ids| :: ids[i]
    ensures forall i :: 0 <= i < |ids| && LastOccurrence(ids, i) ==> log[ids[i]] == entries[i]
    decreases |ids|
  {
    if |ids| == 0 then map[]
    else
      var n := |ids| - 1;
      var before := Record(ids[..n], entries[..n]);
      RecordStep(ids, entries, ids[..n], entries[..n], before);
      before[ids[n] := entries[n]]
  }

  /** Assigning the last entry extends the dict of the earlier ones. */
  lemma RecordStep<V>(ids: seq<string>, entries: seq<V>, init: seq<string>, initEntries: seq<V>, before: map<string, V>)
    requires |ids| == |entries| > 0
    requires init == ids[..|ids| - 1] && initEntries == entries[..|ids| - 1]
    requires before.Keys == set i | 0 <= i < |init| :: init[i]
    requires forall i :: 0 <= i < |init| && LastOccurrence(init, i) ==> before[init[i]] == initEntries[i]
    ensures var log := before[ids[|ids| - 1] := entries[|ids| - 1]];
      && log.Keys == (set i | 0 <= i < |ids| :: ids[i])
      && forall i :: 0 <= i < |ids| && LastOccurrence(ids, i) ==> log[ids[i]] == entries[i]
  {
    var n := |init|;
    var log := before[ids[n] := entries[n]];
    var keys := set i | 0 <= i < |ids| :: ids[i];
    forall x | x in log
      ensures x in keys
    {
      if x != ids[n] {
        var i :| 0 <= i < n && init[i] == x;
        assert ids[i] == x;
      }
    }
    forall i | 0 <= i < |ids|
      ensures ids[i] in log
    {
      if i < n {
        assert init[i] == ids[i];
      }
    }
    forall i | 0 <= i < |ids| && LastOccurrence(ids, i)
      ensures log[ids[i]] == entries[i]
    {
      if i < n {
        assert ids[i] != ids[n];
        assert init[i] == ids[i];
        assert LastOccurrence(init, i);
        assert initEntries[i] == entries[i];
      }
    }
  }

  /** With distinct ids every submission has its own entry. */
  lemma RecordDistinct<V>(ids: seq<string>, entries: seq<V>)
    requires |ids| == |entries|
    requires Distinct(ids)
    ensures forall i :: 0 <= i < |ids| ==> ids[i] in Record(ids, entries) && Record(ids, entries)[ids[i]] == entries[i]
  {
    forall i | 0 <= i < |ids|
      ensures LastOccurrence(ids, i)
    {
    }
  }
}
