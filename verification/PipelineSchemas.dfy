/**
 * Registration of a pipeline schema and migration of an in-flight task to an
 * updated schema: the two validators, with their loops and early returns.
 */
module PipelineSchemas {
  import opened Common
  import opened PipelineGraph

  datatype ServiceSchema = ServiceSchema(parameters: map<string, string>, outputs: map<string, string>)

  type Outputs = map<string, map<string, string>>

  datatype SchemaError =
    | EmptyPipelineId | NoSteps | EmptyStepId | EmptyService | DuplicateStepId | CyclicConnections
    | UnknownSource | UnknownTarget | NotTopological | UnknownInputPort | UnknownOutputPort | PortTypeMismatch

  // -------------------------------------------------- what registration promises

  predicate StepsOk(steps: seq<PipelineStep>) {
    && (forall i | 0 <= i < |steps| :: steps[i].id != "" && steps[i].service != "")
    && DistinctIds(steps)
  }

  /** The source step is listed before the target step. */
  predicate SourceBeforeTarget(steps: seq<PipelineStep>, c: Connection) {
    exists i, j :: 0 <= i < j < |steps| && steps[i].id == c.fromStep && steps[j].id == c.toStep
  }

  function ServiceOf(steps: seq<PipelineStep>, id: string): string
    requires id in StepIds(steps)
  {
    steps[PositionOf(steps, id)].service
  }

  /** Ports are checked only against service schemas that are known. */
  predicate PortsOk(steps: seq<PipelineStep>, lookup: map<string, ServiceSchema>, c: Connection)
    requires c.toStep in StepIds(steps) && (c.fromStep == INITIAL || c.fromStep in StepIds(steps))
  {
    var to := ServiceOf(steps, c.toStep);
    to in lookup ==>
      && c.toPort in lookup[to].parameters
      && (c.fromStep != INITIAL ==>
            var from := ServiceOf(steps, c.fromStep);
            from in lookup ==>
              if c.fromPort in lookup[from].outputs
              then lookup[from].outputs[c.fromPort] == lookup[to].parameters[c.toPort]
              else lookup[from].outputs == map[])
  }

  predicate ConnectionOk(steps: seq<PipelineStep>, lookup: map<string, ServiceSchema>, c: Connection) {
    && (c.fromStep == INITIAL || SourceBeforeTarget(steps, c))
    && c.toStep in StepIds(steps)
    && (c.fromStep == INITIAL || c.fromStep in StepIds(steps))
    && PortsOk(steps, lookup, c)
  }

  /**
   * The registrable schemas. No clause mentions cycles: listing every source
   * before its targets already rules them out.
   */
  predicate Registrable(schema: Schema, lookup: map<string, ServiceSchema>) {
    && schema.id != ""
    && schema.steps != []
    && StepsOk(schema.steps)
    && forall c | c in schema.connections :: ConnectionOk(schema.steps, lookup, c)
  }

  /** The ports of a connection from step `i`, or from the task payload, to step `j` agree as far as schemas are known. */
  predicate PortsAgree(steps: seq<PipelineStep>, lookup: map<string, ServiceSchema>, c: Connection, i: nat, j: nat)
    requires i < |steps| && j < |steps|
  {
    var from, to := steps[i].service, steps[j].service;
    to in lookup ==>
      && c.toPort in lookup[to].parameters
      && (c.fromStep != INITIAL && from in lookup ==>
            && (c.fromPort in lookup[from].outputs ==> lookup[from].outputs[c.fromPort] == lookup[to].parameters[c.toPort])
            && (c.fromPort !in lookup[from].outputs ==> lookup[from].outputs == map[]))
  }

  /** A connection of a registrable schema, step by step. */
  predicate Connects(steps: seq<PipelineStep>, lookup: map<string, ServiceSchema>, c: Connection) {
    if c.fromStep == INITIAL then
      exists j: nat :: j < |steps| && steps[j].id == c.toStep && PortsAgree(steps, lookup, c, j, j)
    else
      exists i: nat, j: nat :: i < j < |steps| && steps[i].id == c.fromStep && steps[j].id == c.toStep && PortsAgree(steps, lookup, c, i, j)
  }

  lemma ConnectsExactly(steps: seq<PipelineStep>, lookup: map<string, ServiceSchema>, c: Connection)
    requires DistinctIds(steps)
    ensures ConnectionOk(steps, lookup, c) <==> Connects(steps, lookup, c)
  {
    OrderByPosition(steps, c);
    if c.toStep in StepIds(steps) {
      var q := PositionOf(steps, c.toStep);
      assert forall j: nat | j < |steps| && steps[j].id == c.toStep :: j == q;
      if c.fromStep in StepIds(steps) {
        var p := PositionOf(steps, c.fromStep);
        assert forall i: nat | i < |steps| && steps[i].id == c.fromStep :: i == p;
        assert c.fromStep != INITIAL && p < q ==> (ConnectionOk(steps, lookup, c) <==> PortsAgree(steps, lookup, c, p, q));
      }
      assert c.fromStep == INITIAL ==> (ConnectionOk(steps, lookup, c) <==> PortsAgree(steps, lookup, c, q, q));
    }
  }

  /**
   * What registration promises, in terms of the list: names everywhere, each ID
   * once, and every connection from an earlier step, or from the payload, to a
   * step, with ports that agree.
   */
  lemma RegistrableExactly(schema: Schema, lookup: map<string, ServiceSchema>)
    ensures Registrable(schema, lookup) <==>
            && schema.id != "" && schema.steps != []
            && (forall s | s in schema.steps :: s.id != "" && s.service != "")
            && (forall i, j | 0 <= i < j < |schema.steps| :: schema.steps[i].id != schema.steps[j].id)
            && (forall c | c in schema.connections :: Connects(schema.steps, lookup, c))
  {
    if DistinctIds(schema.steps) {
      forall c | c in schema.connections ensures ConnectionOk(schema.steps, lookup, c) <==> Connects(schema.steps, lookup, c) {
        ConnectsExactly(schema.steps, lookup, c);
      }
    }
  }

  /** What is wrong with a connection when this error is reported for it. */
  predicate ConnectionDefect(steps: seq<PipelineStep>, lookup: map<string, ServiceSchema>, c: Connection, error: SchemaError) {
    var ids := StepIds(steps);
    match error
    case UnknownSource => c.fromStep != INITIAL && c.fromStep !in ids
    case UnknownTarget => c.toStep !in ids
    case NotTopological => c.fromStep in ids && c.toStep in ids && !SourceBeforeTarget(steps, c)
    case UnknownInputPort =>
      c.toStep in ids && var to := ServiceOf(steps, c.toStep); to in lookup && c.toPort !in lookup[to].parameters
    case UnknownOutputPort =>
      c.fromStep in ids && var from := ServiceOf(steps, c.fromStep);
      from in lookup && c.fromPort !in lookup[from].outputs && lookup[from].outputs != map[]
    case PortTypeMismatch =>
      c.fromStep in ids && c.toStep in ids &&
      var from, to := ServiceOf(steps, c.fromStep), ServiceOf(steps, c.toStep);
      && from in lookup && to in lookup && c.fromPort in lookup[from].outputs && c.toPort in lookup[to].parameters
      && lookup[from].outputs[c.fromPort] != lookup[to].parameters[c.toPort]
    case _ => false
  }

  /** The defect of a schema that an error names. */
  ghost predicate HasDefect(schema: Schema, lookup: map<string, ServiceSchema>, error: SchemaError) {
    match error
    case EmptyPipelineId => schema.id == ""
    case NoSteps => schema.steps == []
    case EmptyStepId => exists s :: s in schema.steps && s.id == ""
    case EmptyService => exists s :: s in schema.steps && s.service == ""
    case DuplicateStepId => !DistinctIds(schema.steps)
    case CyclicConnections => HasCycle(SchemaEdges(schema))
    case _ => exists c :: c in schema.connections && ConnectionDefect(schema.steps, lookup, c, error)
  }

  // -------------------------------------------------------- position bookkeeping

  lemma PositionUnique(steps: seq<PipelineStep>, i: nat, j: nat)
    requires DistinctIds(steps) && i < |steps| && j < |steps| && steps[i].id == steps[j].id
    ensures i == j
  {
  }

  lemma OrderByPosition(steps: seq<PipelineStep>, c: Connection)
    requires DistinctIds(steps)
    ensures SourceBeforeTarget(steps, c) <==>
            && c.fromStep in StepIds(steps) && c.toStep in StepIds(steps)
            && PositionOf(steps, c.fromStep) < PositionOf(steps, c.toStep)
  {
    if SourceBeforeTarget(steps, c) {
      var i, j :| 0 <= i < j < |steps| && steps[i].id == c.fromStep && steps[j].id == c.toStep;
      assert steps[i].id in StepIds(steps) && steps[j].id in StepIds(steps);
      PositionUnique(steps, i, PositionOf(steps, c.fromStep));
      PositionUnique(steps, j, PositionOf(steps, c.toStep));
    }
  }

  lemma OrderedConnectionsAreForward(schema: Schema)
    requires DistinctIds(schema.steps)
    requires forall c | c in schema.connections && c.fromStep != INITIAL && c.fromStep != "" ::
               SourceBeforeTarget(schema.steps, c)
    ensures Forward(schema)
  {
    var steps := schema.steps;
    forall i, j | 0 <= i < |steps| && 0 <= j < |steps| && (steps[i].id, steps[j].id) in SchemaEdges(schema)
      ensures i < j
    {
      EdgeIsConnection(schema.connections, StepIds(steps), steps[i].id, steps[j].id);
      var c :| c in schema.connections && IsEdge(c, StepIds(steps)) && c.fromStep == steps[i].id && c.toStep == steps[j].id;
      var a, b :| 0 <= a < b < |steps| && steps[a].id == c.fromStep && steps[b].id == c.toStep;
      PositionUnique(steps, a, i);
      PositionUnique(steps, b, j);
    }
  }

  // ------------------------------------------------------------ ValidatePipelineSchema

  /** Fills the position map and refuses empty or repeated IDs. */
  method IndexSteps(steps: seq<PipelineStep>, needService: bool)
    returns (positions: map<string, nat>, error: Option<SchemaError>)
    ensures error.None? <==>
            DistinctIds(steps) && forall i | 0 <= i < |steps| :: steps[i].id != "" && (needService ==> steps[i].service != "")
    ensures error.None? ==> positions.Keys == StepIds(steps)
    ensures error.None? ==> forall id | id in positions :: positions[id] < |steps| && steps[positions[id]].id == id
    ensures error.Some? ==>
              match error.value
              case EmptyStepId => exists s :: s in steps && s.id == ""
              case EmptyService => needService && exists s :: s in steps && s.service == ""
              case DuplicateStepId => !DistinctIds(steps)
              case _ => false
  {
    positions := map[];
    for i := 0 to |steps|
      invariant forall a, b | 0 <= a < b < i :: steps[a].id != steps[b].id
      invariant forall k | 0 <= k < i :: steps[k].id != "" && (needService ==> steps[k].service != "")
      invariant forall k | 0 <= k < i :: steps[k].id in positions
      invariant forall id | id in positions :: positions[id] < i && steps[positions[id]].id == id
    {
      if steps[i].id == "" {
        return positions, Some(EmptyStepId);
      }
      if needService && steps[i].service == "" {
        return positions, Some(EmptyService);
      }
      if steps[i].id in positions {
        return positions, Some(DuplicateStepId);
      }
      positions := positions[steps[i].id := i];
    }
    return positions, None;
  }

  method CheckConnection(
    steps: seq<PipelineStep>, positions: map<string, nat>, lookup: map<string, ServiceSchema>, c: Connection)
    returns (error: Option<SchemaError>)
    requires DistinctIds(steps) && positions.Keys == StepIds(steps)
    requires forall id | id in positions :: positions[id] < |steps| && steps[positions[id]].id == id
    ensures error.None? <==> ConnectionOk(steps, lookup, c)
    ensures error.Some? ==> ConnectionDefect(steps, lookup, c, error.value)
  {
    OrderByPosition(steps, c);
    if c.fromStep in positions {
      PositionUnique(steps, positions[c.fromStep], PositionOf(steps, c.fromStep));
    }
    if c.toStep in positions {
      PositionUnique(steps, positions[c.toStep], PositionOf(steps, c.toStep));
    }
    if c.fromStep != INITIAL && c.fromStep !in positions {
      return Some(UnknownSource);
    }
    if c.toStep !in positions {
      return Some(UnknownTarget);
    }
    if c.fromStep != INITIAL && positions[c.fromStep] >= positions[c.toStep] {
      return Some(NotTopological);
    }
    var to := steps[positions[c.toStep]].service;
    if to in lookup {
      if c.toPort !in lookup[to].parameters {
        return Some(UnknownInputPort);
      }
      if c.fromStep != INITIAL {
        var from := steps[positions[c.fromStep]].service;
        if from in lookup {
          if c.fromPort !in lookup[from].outputs {
            if lookup[from].outputs != map[] {
              return Some(UnknownOutputPort);
            }
          } else if lookup[from].outputs[c.fromPort] != lookup[to].parameters[c.toPort] {
            return Some(PortTypeMismatch);
          }
        }
      }
    }
    return None;
  }

  /**
   * Accepts exactly the registrable schemas, and an error names a defect the schema has;
   * `lookup` holds the service schemas that are known.
   */
  method ValidatePipelineSchema(schema: Schema, lookup: map<string, ServiceSchema>) returns (error: Option<SchemaError>)
    ensures error.None? <==> Registrable(schema, lookup)
    ensures error.Some? ==> HasDefect(schema, lookup, error.value)
  {
    if schema.id == "" {
      return Some(EmptyPipelineId);
    }
    if schema.steps == [] {
      return Some(NoSteps);
    }
    var positions, stepError := IndexSteps(schema.steps, true);
    if stepError.Some? {
      return stepError;
    }
    var cyclic := PipelineHasCycle(schema);
    if cyclic {
      if forall c | c in schema.connections :: ConnectionOk(schema.steps, lookup, c) {
        OrderedConnectionsAreForward(schema);
        ForwardIsAcyclic(schema);
      }
      return Some(CyclicConnections);
    }
    for i := 0 to |schema.connections|
      invariant forall k | 0 <= k < i :: ConnectionOk(schema.steps, lookup, schema.connections[k])
    {
      var error' := CheckConnection(schema.steps, positions, lookup, schema.connections[i]);
      if error'.Some? {
        assert schema.connections[i] in schema.connections;
        return error';
      }
    }
    return None;
  }

  // ---------------------------------------------------------- ValidatePrefixMigration

  datatype MigrationError =
    | IdMismatch | DeletedTarget | Downgrade | EmptyTarget | CyclicTarget | TooFewSteps
    | PrefixReordered | CompletedStepUnknown | ServiceChanged | TargetNodeChanged
    | BadStepIds | SourceMissing | TargetMissing | OutOfOrder | NoRecordedOutputs | PortNotProduced
    | RetroactiveDependency

  /** The step a Go map filled in list order ends up with: the last one of that ID. */
  function StepNamed(steps: seq<PipelineStep>, id: string): (r: Option<PipelineStep>)
    ensures r.Some? <==> id in StepIds(steps)
    ensures r.Some? ==> r.value in steps && r.value.id == id
  {
    if steps == [] then None
    else
      StepIdsSnoc(steps, |steps| - 1);
      assert steps[..|steps|] == steps;
      if steps[|steps| - 1].id == id then Some(steps[|steps| - 1])
      else StepNamed(steps[..|steps| - 1], id)
  }

  /** The completed steps are the first steps of the update, with unchanged service and target node. */
  predicate PrefixKept(completed: seq<string>, current: seq<PipelineStep>, updated: seq<PipelineStep>) {
    && |completed| <= |updated|
    && forall i | 0 <= i < |completed| ::
         && updated[i].id == completed[i]
         && StepNamed(current, completed[i]) == Some(updated[i])
  }

  /** A connection of the update is usable by a task that has run `completed`. */
  predicate ConnectionMigrates(completed: seq<string>, outputs: Outputs, steps: seq<PipelineStep>, c: Connection) {
    c.fromStep == INITIAL || c.fromStep == "" ||
    (&& SourceBeforeTarget(steps, c)
     && (c.fromStep in completed ==> c.fromStep in outputs && c.fromPort in outputs[c.fromStep]))
  }

  predicate Migratable(completed: seq<string>, outputs: Outputs, current: Schema, updated: Schema) {
    && current.id == updated.id
    && !updated.deleted
    && updated.version >= current.version
    && updated.steps != []
    && PrefixKept(completed, current.steps, updated.steps)
    && DistinctIds(updated.steps)
    && (forall i | 0 <= i < |updated.steps| :: updated.steps[i].id != "")
    && forall c | c in updated.connections :: ConnectionMigrates(completed, outputs, updated.steps, c)
  }

  /** Position `j` holds the last step of its ID. */
  predicate IsLastOf(steps: seq<PipelineStep>, j: nat, s: PipelineStep) {
    j < |steps| && steps[j] == s && forall k | j < k < |steps| :: steps[k].id != s.id
  }

  /** The step is the last one of its ID. */
  ghost predicate IsLast(steps: seq<PipelineStep>, s: PipelineStep) {
    exists j: nat :: IsLastOf(steps, j, s)
  }

  lemma {:induction false} StepNamedExactly(steps: seq<PipelineStep>, s: PipelineStep)
    ensures StepNamed(steps, s.id) == Some(s) <==> IsLast(steps, s)
  {
    if steps != [] {
      var front, last := steps[..|steps| - 1], steps[|steps| - 1];
      if last.id == s.id {
        assert IsLastOf(steps, |steps| - 1, last);
        assert forall j: nat | IsLastOf(steps, j, s) :: j == |steps| - 1;
      } else {
        StepNamedExactly(front, s);
        assert forall j: nat | j < |front| :: IsLastOf(front, j, s) <==> IsLastOf(steps, j, s);
      }
    }
  }

  /**
   * What a migration promises, in terms of the lists: the same pipeline, live,
   * not older, its first steps those completed, unchanged, its IDs usable, and
   * each connection from an earlier step, whose recorded outputs have the port
   * if it has completed.
   */
  lemma MigratableExactly(completed: seq<string>, outputs: Outputs, current: Schema, updated: Schema)
    ensures Migratable(completed, outputs, current, updated) <==>
            && updated.id == current.id && !updated.deleted && updated.version >= current.version && updated.steps != []
            && (forall s | s in updated.steps :: s.id != "")
            && (forall i, j | 0 <= i < j < |updated.steps| :: updated.steps[i].id != updated.steps[j].id)
            && |completed| <= |updated.steps|
            && (forall i | 0 <= i < |completed| ::
                  updated.steps[i].id == completed[i] && IsLast(current.steps, updated.steps[i]))
            && (forall c | c in updated.connections && c.fromStep != INITIAL && c.fromStep != "" ::
                  && SourceBeforeTarget(updated.steps, c)
                  && (c.fromStep in completed ==> c.fromStep in outputs && c.fromPort in outputs[c.fromStep]))
  {
    if |completed| <= |updated.steps| {
      forall i | 0 <= i < |completed|
        ensures updated.steps[i].id == completed[i] ==>
                  (StepNamed(current.steps, completed[i]) == Some(updated.steps[i]) <==> IsLast(current.steps, updated.steps[i]))
      {
        StepNamedExactly(current.steps, updated.steps[i]);
      }
    }
    assert (forall s | s in updated.steps :: s.id != "") <==> (forall i | 0 <= i < |updated.steps| :: updated.steps[i].id != "");
  }

  predicate StepChanged(completed: seq<string>, current: seq<PipelineStep>, updated: seq<PipelineStep>, i: nat, error: MigrationError)
    requires i < |completed| && i < |updated|
  {
    match error
    case PrefixReordered => updated[i].id != completed[i]
    case CompletedStepUnknown => completed[i] !in StepIds(current)
    case ServiceChanged => StepNamed(current, completed[i]).Some? && updated[i].service != StepNamed(current, completed[i]).value.service
    case TargetNodeChanged => StepNamed(current, completed[i]).Some? && updated[i].target != StepNamed(current, completed[i]).value.target
    case _ => false
  }

  predicate ConnectionBreaks(completed: seq<string>, outputs: Outputs, steps: seq<PipelineStep>, c: Connection, error: MigrationError) {
    && c.fromStep != INITIAL && c.fromStep != ""
    && match error
       case SourceMissing => c.fromStep !in StepIds(steps)
       case TargetMissing => c.toStep !in StepIds(steps)
       case OutOfOrder => c.fromStep in StepIds(steps) && c.toStep in StepIds(steps) && !SourceBeforeTarget(steps, c)
       case NoRecordedOutputs => c.fromStep in completed && c.fromStep !in outputs
       case PortNotProduced => c.fromStep in completed && c.fromStep in outputs && c.fromPort !in outputs[c.fromStep]
       case _ => false
  }

  /** Why a task cannot move to an update, by the error reported. A retroactive dependency never is the reason. */
  ghost predicate CannotMigrate(completed: seq<string>, outputs: Outputs, current: Schema, updated: Schema, error: MigrationError) {
    match error
    case IdMismatch => current.id != updated.id
    case DeletedTarget => updated.deleted
    case Downgrade => updated.version < current.version
    case EmptyTarget => updated.steps == []
    case CyclicTarget => HasCycle(SchemaEdges(updated)) || !DistinctIds(updated.steps)
    case TooFewSteps => |updated.steps| < |completed|
    case BadStepIds => !DistinctIds(updated.steps) || exists s :: s in updated.steps && s.id == ""
    case _ =>
      || (exists i: nat :: i < |completed| && i < |updated.steps| && StepChanged(completed, current.steps, updated.steps, i, error))
      || (exists c :: c in updated.connections && ConnectionBreaks(completed, outputs, updated.steps, c, error))
  }

  method IndexCurrent(steps: seq<PipelineStep>) returns (byId: map<string, PipelineStep>)
    ensures byId.Keys == StepIds(steps)
    ensures forall id | id in byId :: StepNamed(steps, id) == Some(byId[id])
  {
    byId := map[];
    for i := 0 to |steps|
      invariant byId.Keys == StepIds(steps[..i])
      invariant forall id | id in byId :: StepNamed(steps[..i], id) == Some(byId[id])
    {
      StepIdsSnoc(steps, i);
      assert steps[..i + 1][..i] == steps[..i];
      byId := byId[steps[i].id := steps[i]];
    }
    assert steps[..|steps|] == steps;
  }

  method CheckPrefix(completed: seq<string>, current: seq<PipelineStep>, updated: seq<PipelineStep>)
    returns (error: Option<MigrationError>)
    requires |completed| <= |updated|
    ensures error.None? <==> PrefixKept(completed, current, updated)
    ensures error.Some? ==> exists i: nat :: i < |completed| && StepChanged(completed, current, updated, i, error.value)
  {
    var byId := IndexCurrent(current);
    for i := 0 to |completed|
      invariant forall k | 0 <= k < i ::
                  updated[k].id == completed[k] && StepNamed(current, completed[k]) == Some(updated[k])
    {
      if updated[i].id != completed[i] {
        assert StepChanged(completed, current, updated, i, PrefixReordered);
        return Some(PrefixReordered);
      }
      if completed[i] !in byId {
        assert StepChanged(completed, current, updated, i, CompletedStepUnknown);
        return Some(CompletedStepUnknown);
      }
      if updated[i].service != byId[completed[i]].service {
        assert StepChanged(completed, current, updated, i, ServiceChanged);
        return Some(ServiceChanged);
      }
      if updated[i].target != byId[completed[i]].target {
        assert StepChanged(completed, current, updated, i, TargetNodeChanged);
        return Some(TargetNodeChanged);
      }
      assert updated[i] == byId[completed[i]];
    }
    return None;
  }

  /** The dependency check on one connection, in source order; its last test never succeeds. */
  method CheckMigratedConnection(
    completed: seq<string>, outputs: Outputs, steps: seq<PipelineStep>, positions: map<string, nat>, c: Connection)
    returns (error: Option<MigrationError>)
    requires DistinctIds(steps) && positions.Keys == StepIds(steps) && |completed| <= |steps|
    requires forall id | id in positions :: positions[id] < |steps| && steps[positions[id]].id == id
    requires forall i | 0 <= i < |completed| :: steps[i].id == completed[i]
    ensures error.None? <==> ConnectionMigrates(completed, outputs, steps, c)
    ensures error.Some? ==> ConnectionBreaks(completed, outputs, steps, c, error.value)
  {
    if c.fromStep == INITIAL || c.fromStep == "" {
      return None;
    }
    OrderByPosition(steps, c);
    if c.fromStep !in positions {
      return Some(SourceMissing);
    }
    if c.toStep !in positions {
      return Some(TargetMissing);
    }
    PositionUnique(steps, positions[c.fromStep], PositionOf(steps, c.fromStep));
    PositionUnique(steps, positions[c.toStep], PositionOf(steps, c.toStep));
    if positions[c.fromStep] >= positions[c.toStep] {
      return Some(OutOfOrder);
    }
    if c.fromStep in completed {
      if c.fromStep !in outputs {
        return Some(NoRecordedOutputs);
      }
      if c.fromPort !in outputs[c.fromStep] {
        return Some(PortNotProduced);
      }
    }
    if positions[c.toStep] <= |completed| {
      RetroactiveCheckIsDead(completed, steps, positions[c.fromStep], positions[c.toStep]);
    }
    if c.fromStep !in completed && positions[c.toStep] <= |completed| {
      return Some(RetroactiveDependency);
    }
    return None;
  }

  /** A source listed before a target that is at most the next step has already completed. */
  lemma RetroactiveCheckIsDead(completed: seq<string>, steps: seq<PipelineStep>, fromPos: nat, toPos: nat)
    requires |completed| <= |steps| && forall i | 0 <= i < |completed| :: steps[i].id == completed[i]
    requires fromPos < toPos <= |completed|
    ensures steps[fromPos].id in completed
  {
    assert steps[fromPos].id == completed[fromPos];
  }

  /** Accepts exactly the migratable updates; an error names a reason that holds, never a retroactive dependency. */
  method ValidatePrefixMigration(completed: seq<string>, outputs: Outputs, current: Schema, updated: Schema)
    returns (error: Option<MigrationError>)
    ensures error.None? <==> Migratable(completed, outputs, current, updated)
    ensures error.Some? ==> CannotMigrate(completed, outputs, current, updated, error.value)
    ensures error != Some(RetroactiveDependency)
  {
    if current.id != updated.id {
      return Some(IdMismatch);
    }
    if updated.deleted {
      return Some(DeletedTarget);
    }
    if updated.version < current.version {
      return Some(Downgrade);
    }
    if updated.steps == [] {
      return Some(EmptyTarget);
    }
    var cyclic := PipelineHasCycle(updated);
    if cyclic {
      if Migratable(completed, outputs, current, updated) {
        OrderedConnectionsAreForward(updated);
        ForwardIsAcyclic(updated);
      }
      return Some(CyclicTarget);
    }
    if |updated.steps| < |completed| {
      return Some(TooFewSteps);
    }
    error := CheckPrefix(completed, current.steps, updated.steps);
    if error.Some? {
      return;
    }
    var positions, stepError := IndexSteps(updated.steps, false);
    if stepError.Some? {
      return Some(BadStepIds);
    }
    for i := 0 to |updated.connections|
      invariant forall k | 0 <= k < i ::
                  ConnectionMigrates(completed, outputs, updated.steps, updated.connections[k])
    {
      error := CheckMigratedConnection(completed, outputs, updated.steps, positions, updated.connections[i]);
      if error.Some? {
        assert updated.connections[i] in updated.connections;
        return;
      }
    }
    return None;
  }
}
