/** Compare-and-swap updates of a run record under the record's process lock. */
module CasStore {
  import opened Common

  type RunId = string
  type Patch = map<string, string>

  /** `fields` are the attributes other than the revision; `updatedAt` is stamped on every win. */
  datatype Record = Record(fields: map<string, string>, revision: int, updatedAt: real)

  /** A patch sets the attributes the record has; unknown names are ignored, and so is a revision. */
  function Patched(fields: map<string, string>, patch: Patch): map<string, string> {
    map k | k in fields :: if k in patch then patch[k] else fields[k]
  }

  datatype Update = Update(patch: Patch, expected: int, now: real)

  function CasStep(run: Option<Record>, u: Update): (bool, Option<Record>) {
    if run.None? || run.value.revision != u.expected then (false, run)
    else (true, Some(Record(Patched(run.value.fields, u.patch), u.expected + 1, u.now)))
  }

  class FileStore {
    var files: map<RunId, Record>

    ghost function Load(id: RunId): Option<Record>
      reads this
    {
      if id in files then Some(files[id]) else None
    }

    constructor ()
      ensures files == map[]
    {
      files := map[];
    }

    method UpdateWithCas(id: RunId, u: Update) returns (won: bool)
      modifies this
      ensures (won, Load(id)) == CasStep(old(Load(id)), u)
      ensures won <==> id in old(files) && old(files)[id].revision == u.expected
      ensures won ==> id in files && files[id].revision == u.expected + 1 && files[id].updatedAt == u.now
      ensures won ==> files[id].fields.Keys == old(files)[id].fields.Keys
      ensures won ==> forall k :: k in files[id].fields ==>
        files[id].fields[k] == if k in u.patch then u.patch[k] else old(files)[id].fields[k]
      ensures !won ==> files == old(files)
      ensures forall other :: other != id ==> Load(other) == old(Load(other))
    {
      if id !in files {
        return false;
      }
      var run := files[id];
      if run.revision != u.expected {
        return false;
      }
      var fields := run.fields;
      var keys := u.patch.Keys;
      while keys != {}
        invariant keys <= u.patch.Keys
        invariant fields == Patched(run.fields, map k | k in u.patch && k !in keys :: u.patch[k])
        decreases keys
      {
        var k :| k in keys;
        keys := keys - {k};
        if k in fields {
          fields := fields[k := u.patch[k]];
        }
      }
      assert u.patch == map k | k in u.patch && k !in keys :: u.patch[k];
      files := files[id := Record(fields, u.expected + 1, u.now)];
      return true;
    }
  }

  // ---- Any interleaving of writers ----

  ghost function After(run: Option<Record>, updates: seq<Update>): Option<Record>
    decreases |updates|
  {
    if updates == [] then run else After(CasStep(run, updates[0]).1, updates[1..])
  }

  /** The updates that win, in the order in which they are applied. */
  ghost function Winners(run: Option<Record>, updates: seq<Update>): seq<Update>
    decreases |updates|
  {
    if updates == [] then [] else
      (if CasStep(run, updates[0]).0 then [updates[0]] else []) + Winners(CasStep(run, updates[0]).1, updates[1..])
  }

  ghost function PatchAll(fields: map<string, string>, wins: seq<Update>): map<string, string>
    decreases |wins|
  {
    if wins == [] then fields else PatchAll(Patched(fields, wins[0].patch), wins[1..])
  }

  /**
   Serialisation: the winners expected consecutive revisions starting at the initial one, so no two of
   them won the same revision; the final revision counts them, and the record is their patches in order.
   */
  lemma {:induction false} WritersAreSerialised(run: Record, updates: seq<Update>)
    ensures var wins := Winners(Some(run), updates);
      && (forall i :: 0 <= i < |wins| ==> wins[i].expected == run.revision + i)
      && After(Some(run), updates).Some?
      && After(Some(run), updates).value.revision == run.revision + |wins|
      && After(Some(run), updates).value.fields == PatchAll(run.fields, wins)
    decreases |updates|
  {
    if updates != [] {
      var (won, next) := CasStep(Some(run), updates[0]);
      WritersAreSerialised(next.value, updates[1..]);
      var rest := Winners(next, updates[1..]);
      if won {
        var wins := [updates[0]] + rest;
        assert wins[1..] == rest;
        forall i | 0 <= i < |wins| ensures wins[i].expected == run.revision + i {
          if i > 0 {
            assert wins[i] == rest[i-1];
          }
        }
      } else {
        assert [] + rest == rest;
      }
    }
  }

  /** A run without a record is never created by an update. */
  lemma {:induction false} MissingRunStaysMissing(updates: seq<Update>)
    ensures After(None, updates) == None && Winners(None, updates) == []
    decreases |updates|
  {
    if updates != [] {
      MissingRunStaysMissing(updates[1..]);
    }
  }

  /** `i` is the last of the updates whose patch names the field. */
  ghost predicate LastNaming(wins: seq<Update>, k: string, i: nat) {
    i < |wins| && k in wins[i].patch && forall j :: i < j < |wins| ==> k !in wins[j].patch
  }

  lemma {:induction false} PatchAllByField(fields: map<string, string>, wins: seq<Update>, k: string)
    ensures k in PatchAll(fields, wins) <==> k in fields
    ensures k in fields ==> forall i: nat :: LastNaming(wins, k, i) ==> PatchAll(fields, wins)[k] == wins[i].patch[k]
    ensures k in fields && (forall i :: 0 <= i < |wins| ==> k !in wins[i].patch) ==>
      PatchAll(fields, wins)[k] == fields[k]
    decreases |wins|
  {
    if wins != [] {
      var rest := wins[1..];
      PatchAllByField(Patched(fields, wins[0].patch), rest, k);
      forall i: nat | LastNaming(wins, k, i) && k in fields ensures PatchAll(fields, wins)[k] == wins[i].patch[k] {
        if i > 0 {
          assert LastNaming(rest, k, i - 1);
        }
      }
    }
  }

  /** The record carries the time of the last win. */
  lemma {:induction false} StampedByLastWin(run: Record, updates: seq<Update>)
    ensures After(Some(run), updates).Some?
    ensures var wins := Winners(Some(run), updates);
      After(Some(run), updates).value.updatedAt == if wins == [] then run.updatedAt else wins[|wins|-1].now
    decreases |updates|
  {
    if updates != [] {
      var (won, next) := CasStep(Some(run), updates[0]);
      StampedByLastWin(next.value, updates[1..]);
    }
  }

  /**
   Field by field, over any interleaving: the last winner whose patch names a field decides its value, a field that
   no winner names keeps the initial one, and no field comes or goes.
   */
  lemma FieldsComeFromWinners(run: Record, updates: seq<Update>, k: string)
    ensures After(Some(run), updates).Some?
    ensures var wins, fields := Winners(Some(run), updates), After(Some(run), updates).value.fields;
      && (k in fields <==> k in run.fields)
      && (k in run.fields ==> forall i: nat :: LastNaming(wins, k, i) ==> fields[k] == wins[i].patch[k])
      && (k in run.fields && (forall i :: 0 <= i < |wins| ==> k !in wins[i].patch) ==> fields[k] == run.fields[k])
  {
    WritersAreSerialised(run, updates);
    PatchAllByField(run.fields, Winners(Some(run), updates), k);
  }
}
