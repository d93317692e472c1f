/**
 * The registry of pipeline revisions: every accepted schema replaces the
 * revision of its ID, tombstones included, and the live map follows.
 */
module PipelineRevisions {
  import opened Common
  import opened PipelineGraph
  import opened PipelineSchemas

  datatype RevisionError = OtherPipeline | OlderVersion | DefinitionMismatch | Resurrection

  function Definition(s: Schema): Schema {
    s.(deleted := false)
  }

  function ValidatePipelineRevision(current: Schema, next: Schema): Option<RevisionError> {
    if current.id != next.id then Some(OtherPipeline)
    else if next.version < current.version then Some(OlderVersion)
    else if next.version > current.version then None
    else if Definition(next) != Definition(current) then Some(DefinitionMismatch)
    else if current.deleted && !next.deleted then Some(Resurrection)
    else None
  }

  /** `next` may follow `current`: a higher version, or the same definition at the same version and no resurrection. */
  predicate Follows(current: Schema, next: Schema) {
    || next.version > current.version
    || (next.version == current.version && next.steps == current.steps && next.connections == current.connections
        && (current.deleted ==> next.deleted))
  }

  /** Which revision may replace the current one, and why another is refused, field by field. */
  lemma RevisionAcceptedExactly(current: Schema, next: Schema)
    ensures var error := ValidatePipelineRevision(current, next);
            && (error.None? <==> next.id == current.id && Follows(current, next))
            && (error == Some(OtherPipeline) <==> next.id != current.id)
            && (error == Some(OlderVersion) <==> next.id == current.id && next.version < current.version)
            && (error == Some(DefinitionMismatch) <==>
                  && next.id == current.id && next.version == current.version
                  && (next.steps != current.steps || next.connections != current.connections))
            && (error == Some(Resurrection) <==>
                  && next == current.(deleted := false) && current.deleted)
  {
    assert Definition(next) == Definition(current) <==>
           next.id == current.id && next.version == current.version
           && next.steps == current.steps && next.connections == current.connections;
    assert next == next.(deleted := false) <==> !next.deleted;
  }

  /** Revisions of one ID are ordered by version, and a tombstone follows its live sibling. */
  predicate Leq(a: Schema, b: Schema) {
    a.version < b.version || (a.version == b.version && (a.deleted ==> b.deleted))
  }

  predicate SameDefinitionAtSameVersion(a: Schema, b: Schema) {
    a.id == b.id && a.version == b.version ==> Definition(a) == Definition(b)
  }

  /** Among revisions that agree at equal versions, exactly the non-smaller ones may replace the current one. */
  lemma ReplacesExactlyUpwards(current: Schema, next: Schema)
    requires current.id == next.id && SameDefinitionAtSameVersion(current, next)
    ensures ValidatePipelineRevision(current, next).None? <==> Leq(current, next)
    ensures Leq(current, next) || Leq(next, current)
    ensures Leq(current, next) && Leq(next, current) ==> current == next
  {
    if current.version == next.version {
      assert current == Definition(current).(deleted := current.deleted);
      assert next == Definition(next).(deleted := next.deleted);
    }
  }

  datatype Registry = Registry(pipelines: map<string, Schema>, revisions: map<string, Schema>)

  /** One attempt: the schema and whether the durable write succeeds. */
  datatype Attempt = Attempt(schema: Schema, persists: bool)

  predicate Accepts(r: Registry, a: Attempt) {
    && Registrable(a.schema, map[])
    && (a.schema.id in r.revisions ==> ValidatePipelineRevision(r.revisions[a.schema.id], a.schema).None?)
    && a.persists
  }

  function Apply(r: Registry, a: Attempt): Registry {
    if !Accepts(r, a) then r
    else
      Registry(if a.schema.deleted then r.pipelines - {a.schema.id} else r.pipelines[a.schema.id := a.schema],
               r.revisions[a.schema.id := a.schema])
  }

  class ComputeRegistry {
    var pipelines: map<string, Schema>
    var pipelineRevisions: map<string, Schema>

    function Value(): Registry
      reads this
    {
      Registry(pipelines, pipelineRevisions)
    }

    constructor ()
      ensures Value() == Registry(map[], map[])
    {
      pipelines, pipelineRevisions := map[], map[];
    }

    method ApplyPipelineRevision(schema: Schema, persists: bool) returns (ok: bool)
      modifies this
      ensures ok == Accepts(old(Value()), Attempt(schema, persists))
      ensures Value() == Apply(old(Value()), Attempt(schema, persists))
    {
      var invalid := ValidatePipelineSchema(schema, map[]);
      if invalid.Some? {
        return false;
      }
      if schema.id in pipelineRevisions {
        var stale := ValidatePipelineRevision(pipelineRevisions[schema.id], schema);
        if stale.Some? {
          return false;
        }
      }
      if !persists {
        return false;
      }
      pipelineRevisions := pipelineRevisions[schema.id := schema];
      if schema.deleted {
        pipelines := pipelines - {schema.id};
      } else {
        pipelines := pipelines[schema.id := schema];
      }
      return true;
    }
  }

  function ApplyAll(attempts: seq<Attempt>): Registry {
    if attempts == [] then Registry(map[], map[])
    else Apply(ApplyAll(attempts[..|attempts| - 1]), attempts[|attempts| - 1])
  }

  /**
   * After any attempts one more is taken exactly if its write persists, its
   * schema is registrable and it may follow the revision held; otherwise the
   * registry stays as it is. An accepted tombstone leaves the live map.
   */
  lemma AttemptTakenExactly(attempts: seq<Attempt>, a: Attempt)
    ensures var r, r', id := ApplyAll(attempts), ApplyAll(attempts + [a]), a.schema.id;
            if a.persists && Registrable(a.schema, map[]) && (id in r.revisions ==> Follows(r.revisions[id], a.schema)) then
              && r'.revisions == r.revisions[id := a.schema]
              && r'.pipelines == if a.schema.deleted then r.pipelines - {id} else r.pipelines[id := a.schema]
            else r' == r
  {
    LiveMapIsNonDeletedPart(attempts);
    assert (attempts + [a])[..|attempts|] == attempts;
    var r := ApplyAll(attempts);
    if a.schema.id in r.revisions {
      RevisionAcceptedExactly(r.revisions[a.schema.id], a.schema);
    }
  }

  /**
   * Along every sequence of attempts, consistent or not, the version of an ID
   * never drops; while it stays, so do the steps and the connections, and a
   * deletion is not undone.
   */
  lemma {:induction false} RevisionsOnlyAdvance(attempts: seq<Attempt>, n: nat, id: string)
    requires n <= |attempts| && id in ApplyAll(attempts[..n]).revisions
    ensures id in ApplyAll(attempts).revisions
    ensures var before, after := ApplyAll(attempts[..n]).revisions[id], ApplyAll(attempts).revisions[id];
            && before.version <= after.version
            && (before.version == after.version ==>
                  after.steps == before.steps && after.connections == before.connections && (before.deleted ==> after.deleted))
    decreases |attempts|
  {
    if n == |attempts| {
      assert attempts[..n] == attempts;
    } else {
      var front, last := attempts[..|attempts| - 1], attempts[|attempts| - 1];
      assert attempts == front + [last] && front[..n] == attempts[..n];
      RevisionsOnlyAdvance(front, n, id);
      AttemptTakenExactly(front, last);
    }
  }

  /** The live map is exactly the non-deleted part of the revision map. */
  predicate LiveExact(r: Registry) {
    r.pipelines == map id | id in r.revisions && !r.revisions[id].deleted :: r.revisions[id]
  }

  lemma {:induction false} LiveMapIsNonDeletedPart(attempts: seq<Attempt>)
    ensures LiveExact(ApplyAll(attempts))
    ensures forall id | id in ApplyAll(attempts).revisions :: ApplyAll(attempts).revisions[id].id == id
  {
    if attempts != [] {
      LiveMapIsNonDeletedPart(attempts[..|attempts| - 1]);
    }
  }

  ghost predicate Candidate(attempts: seq<Attempt>, s: Schema) {
    Attempt(s, true) in attempts && Registrable(s, map[])
  }

  ghost predicate Consistent(attempts: seq<Attempt>) {
    forall s, t | Candidate(attempts, s) && Candidate(attempts, t) :: SameDefinitionAtSameVersion(s, t)
  }

  /** The surviving revision of an ID is the greatest one that could be applied. */
  ghost predicate Greatest(attempts: seq<Attempt>, id: string, s: Schema) {
    && Candidate(attempts, s) && s.id == id
    && forall t | Candidate(attempts, t) && t.id == id :: Leq(t, s)
  }

  lemma {:induction false} EndsAtGreatest(attempts: seq<Attempt>, id: string)
    requires Consistent(attempts)
    ensures var r := ApplyAll(attempts);
            if id in r.revisions then Greatest(attempts, id, r.revisions[id])
            else forall t | Candidate(attempts, t) :: t.id != id
  {
    if attempts != [] {
      var front, last := attempts[..|attempts| - 1], attempts[|attempts| - 1];
      assert attempts == front + [last];
      assert forall t :: Candidate(attempts, t) <==>
                         Candidate(front, t) || (last == Attempt(t, true) && Registrable(t, map[]));
      EndsAtGreatest(front, id);
      LiveMapIsNonDeletedPart(front);
      var before := ApplyAll(front);
      if last.schema.id == id && id in before.revisions && Candidate(attempts, last.schema) && last.persists {
        ReplacesExactlyUpwards(before.revisions[id], last.schema);
      }
    }
  }

  /** Order and repetition do not matter: the same attempts in any order give the same registry. */
  lemma ApplicationOrderIrrelevant(a: seq<Attempt>, b: seq<Attempt>)
    requires Consistent(a) && forall x :: x in a <==> x in b
    ensures ApplyAll(a) == ApplyAll(b)
  {
    assert forall s :: Candidate(a, s) <==> Candidate(b, s);
    LiveMapIsNonDeletedPart(a);
    LiveMapIsNonDeletedPart(b);
    var ra, rb := ApplyAll(a).revisions, ApplyAll(b).revisions;
    forall id ensures (id in ra <==> id in rb) && (id in ra ==> ra[id] == rb[id]) {
      EndsAtGreatest(a, id);
      EndsAtGreatest(b, id);
      if id in ra && id in rb {
        ReplacesExactlyUpwards(ra[id], rb[id]);
      }
    }
  }

  /** Two valid revisions of one ID commute exactly when they agree at equal versions. */
  lemma PairCommutesExactly(a: Schema, b: Schema)
    requires Registrable(a, map[]) && Registrable(b, map[]) && a.id == b.id
    ensures ApplyAll([Attempt(a, true), Attempt(b, true)]) == ApplyAll([Attempt(b, true), Attempt(a, true)])
            <==> SameDefinitionAtSameVersion(a, b)
  {
    var x, y := Attempt(a, true), Attempt(b, true);
    var ab, ba := [x, y], [y, x];
    assert ab[..1] == [x] && ba[..1] == [y] && [x][..0] == [] && [y][..0] == [];
    var empty := Registry(map[], map[]);
    assert ApplyAll([]) == empty;
    assert ApplyAll(ab) == Apply(Apply(empty, x), y) && ApplyAll(ba) == Apply(Apply(empty, y), x);
    if SameDefinitionAtSameVersion(a, b) {
      ReplacesExactlyUpwards(a, b);
      ReplacesExactlyUpwards(b, a);
    } else {
      assert ApplyAll(ab).revisions[a.id] == a && ApplyAll(ba).revisions[a.id] == b;
    }
  }
}
