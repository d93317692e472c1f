/**
 * Execution of one pipeline task across nodes: binding to a schema snapshot,
 * executing steps, and adopting newer schemas in flight. A SHA-256 schema hash
 * is injective, so it is represented by the schema itself.
 */
module PipelineRun {
  import opened Common
  import opened PipelineGraph
  import opened PipelineSchemas

  datatype ExecState = ExecState(
    pipelineId: string,
    version: int,
    hash: Schema,
    currentStep: nat,
    outputs: Outputs,
    producers: map<string, string>,
    snapshot: Option<Schema>)

  datatype BindError = PipelineMismatch | SchemaMismatch | StepOutOfBounds | ProvenanceMissing

  function CompletedIds(schema: Schema, n: nat): (ids: seq<string>)
    ensures |ids| == if n < |schema.steps| then n else |schema.steps|
    ensures forall i | 0 <= i < |ids| :: ids[i] == schema.steps[i].id
  {
    seq(if n < |schema.steps| then n else |schema.steps|, i requires 0 <= i < |schema.steps| => schema.steps[i].id)
  }

  predicate IsUpdate(st: ExecState, target: Schema) {
    target.version > st.version || (target.version == st.version && target != st.hash)
  }

  /** Whether the task leaves `current` for `target`. */
  predicate Adopts(st: ExecState, current: Schema, target: Schema) {
    && current.id == target.id
    && target.steps != []
    && IsUpdate(st, target)
    && Migratable(CompletedIds(current, st.currentStep), st.outputs, current, target)
  }

  function AfterMigration(st: ExecState, current: Schema, target: Schema): ExecState {
    if Adopts(st, current, target)
    then st.(version := target.version, hash := target, snapshot := Some(target))
    else st
  }

  function SchemaAfter(st: ExecState, current: Schema, target: Schema): Schema {
    if Adopts(st, current, target) then target else current
  }

  function Fresh(local: Schema, requester: string): ExecState {
    ExecState(local.id, local.version, local, 0, map[], map[INITIAL := requester], Some(local))
  }

  /** The schema an arriving task starts from: its snapshot, a matching local revision, or the local schema. */
  function StartingSchema(st: ExecState, local: Schema, revision: Option<Schema>): Option<Schema> {
    if st.snapshot.Some? then st.snapshot
    else if revision.Some? && revision.value == st.hash then revision
    else if local == st.hash then Some(local)
    else None
  }

  function Producer(producers: map<string, string>, id: string): string {
    if id in producers then producers[id] else ""
  }

  /** What a binding leaves behind even when it fails: a snapshot found, and a migration adopted. */
  function Rebound(st: ExecState, local: Schema, revision: Option<Schema>): ExecState {
    var start := StartingSchema(st, local, revision);
    if st.pipelineId != local.id || start.None? then st
    else AfterMigration(st.(snapshot := start), start.value, local)
  }

  /** It touches only the schema side of the state and never lowers a snapshot's version. */
  lemma ReboundMovesOnlySchema(st: ExecState, local: Schema, revision: Option<Schema>)
    ensures var after := Rebound(st, local, revision);
            && after == st.(version := after.version, hash := after.hash, snapshot := after.snapshot)
            && after.version >= st.version
            && (st.snapshot.Some? ==> after.snapshot.Some? && (after.snapshot == st.snapshot || after.snapshot == Some(local)))
  {
  }

  /** A binding leaves the state different exactly when it supplies a snapshot or adopts the local schema. */
  lemma ReboundMovesExactly(st: ExecState, local: Schema, revision: Option<Schema>)
    ensures Rebound(st, local, revision) != st <==> Moves(st, local, revision)
  {
    var start := StartingSchema(st, local, revision);
    if st.pipelineId == local.id && start.Some? {
      assert Adopts(st.(snapshot := start), start.value, local) <==> Adopts(st, start.value, local);
      if Adopts(st, start.value, local) {
        assert Rebound(st, local, revision).version == local.version && Rebound(st, local, revision).hash == local;
      }
    }
  }

  predicate Moves(st: ExecState, local: Schema, revision: Option<Schema>) {
    && st.pipelineId == local.id
    && StartingSchema(st, local, revision).Some?
    && (st.snapshot.Some? ==> Adopts(st, st.snapshot.value, local))
  }

  /** The schema a task would run is too short for its progress, or nobody is on record for its last step. */
  predicate Unfit(st: ExecState, schema: Schema) {
    || st.currentStep > |schema.steps|
    || (st.currentStep > 0 && Producer(st.producers, schema.steps[st.currentStep - 1].id) == "")
  }

  /** Binding an arriving task on a node that holds `local`. */
  function Bind(st: ExecState, local: Schema, revision: Option<Schema>, requester: string)
    : Result<(ExecState, Schema), BindError>
  {
    if st.pipelineId != local.id then Err(PipelineMismatch)
    else
      var start := StartingSchema(st, local, revision);
      if start.None? then Err(SchemaMismatch)
      else
        var bound := st.(snapshot := start);
        var next := AfterMigration(bound, start.value, local);
        var schema := SchemaAfter(bound, start.value, local);
        if next.currentStep > |schema.steps| then Err(StepOutOfBounds)
        else if next.currentStep > 0 && Producer(next.producers, schema.steps[next.currentStep - 1].id) == ""
        then Err(ProvenanceMissing)
        else if Producer(next.producers, INITIAL) == ""
        then Ok((next.(producers := next.producers[INITIAL := requester]), schema))
        else Ok((next, schema))
  }

  /** Binding fails exactly on another pipeline, without a schema to start from, or when the schema to run does not fit. */
  lemma BindFailsExactly(st: ExecState, local: Schema, revision: Option<Schema>, requester: string)
    ensures Bind(st, local, revision, requester).Err? <==>
            var start := StartingSchema(st, local, revision);
            st.pipelineId != local.id || start.None? || Unfit(st, SchemaAfter(st, start.value, local))
  {
    var start := StartingSchema(st, local, revision);
    if start.Some? {
      assert Adopts(st.(snapshot := start), start.value, local) <==> Adopts(st, start.value, local);
    }
  }

  /** A task without a snapshot starts from the schema of its hash, if the node holds it as a revision or as its own. */
  lemma StartIsHashedSchema(st: ExecState, local: Schema, revision: Option<Schema>)
    ensures StartingSchema(st, local, revision) ==
            if st.snapshot.Some? then st.snapshot
            else if revision == Some(st.hash) || local == st.hash then Some(st.hash) else None
  {
  }

  /** Which error a binding reports, in the order of its checks. */
  lemma BindErrorsExactly(st: ExecState, local: Schema, revision: Option<Schema>, requester: string)
    ensures var r := Bind(st, local, revision, requester);
            && (r == Err(PipelineMismatch) <==> st.pipelineId != local.id)
            && (r == Err(SchemaMismatch) <==>
                  && st.pipelineId == local.id && st.snapshot.None? && revision != Some(st.hash) && local != st.hash)
            && (r.Ok? ==>
                  && st.currentStep <= |r.value.1.steps|
                  && (st.currentStep > 0 ==> Producer(st.producers, r.value.1.steps[st.currentStep - 1].id) != ""))
  {
    StartIsHashedSchema(st, local, revision);
  }

  /** A binding that fails leaves the state changed exactly when it moves the schema and the schema then does not fit. */
  lemma FailedBindMovesExactly(st: ExecState, local: Schema, revision: Option<Schema>, requester: string)
    ensures Bind(st, local, revision, requester).Err? && Rebound(st, local, revision) != st <==>
            && Moves(st, local, revision)
            && Unfit(st, SchemaAfter(st, StartingSchema(st, local, revision).value, local))
  {
    ReboundMovesExactly(st, local, revision);
    BindFailsExactly(st, local, revision, requester);
  }

  /** That happens: a task without a producer on record adopts the newer schema and is refused. */
  lemma FailedBindCanMigrate(step: PipelineStep, requester: string)
    requires step.id != ""
    ensures var older, newer := Schema("p", 1, [step], [], false), Schema("p", 2, [step], [], false);
            var st := ExecState("p", 1, older, 1, map[step.id := map[]], map[], Some(older));
            && Bind(st, newer, None, requester) == Err(ProvenanceMissing)
            && Rebound(st, newer, None).snapshot == Some(newer)
  {
    var older, newer := Schema("p", 1, [step], [], false), Schema("p", 2, [step], [], false);
    var st := ExecState("p", 1, older, 1, map[step.id := map[]], map[], Some(older));
    StepNamedInPrefix([step], 0);
    RankedIsAcyclic(SchemaEdges(newer), map[]);
    assert CompletedIds(older, 1) == [step.id];
    assert Adopts(st, older, newer);
    assert st.(snapshot := Some(older)) == st;
  }

  function Record(st: ExecState, step: PipelineStep, outputs: map<string, string>, node: string): ExecState {
    st.(outputs := st.outputs[step.id := outputs],
        producers := st.producers[step.id := node],
        currentStep := st.currentStep + 1)
  }

  /** The mutable execution state that travels with a task request. */
  class PipelineExecutionState {
    var pipelineId: string
    var version: int
    var hash: Schema
    var currentStep: nat
    var outputs: Outputs
    var producers: map<string, string>
    var snapshot: Option<Schema>

    function Value(): ExecState
      reads this
    {
      ExecState(pipelineId, version, hash, currentStep, outputs, producers, snapshot)
    }

    constructor (local: Schema, requester: string)
      ensures Value() == Fresh(local, requester)
    {
      pipelineId, version, hash, snapshot := local.id, local.version, local, Some(local);
      currentStep, outputs, producers := 0, map[], map[INITIAL := requester];
    }

    method TryDynamicSchemaMigration(current: Schema, target: Schema) returns (schema: Schema)
      modifies this
      ensures Value() == AfterMigration(old(Value()), current, target)
      ensures schema == SchemaAfter(old(Value()), current, target)
    {
      if current.id != target.id || target.steps == [] {
        return current;
      }
      if !(target.version > version || (target.version == version && target != hash)) {
        return current;
      }
      var completed := [];
      var i := 0;
      while i < currentStep && i < |current.steps|
        invariant 0 <= i <= currentStep && i <= |current.steps|
        invariant |completed| == i && forall k | 0 <= k < i :: completed[k] == current.steps[k].id
      {
        completed := completed + [current.steps[i].id];
        i := i + 1;
      }
      assert completed == CompletedIds(current, currentStep);
      var error := ValidatePrefixMigration(completed, outputs, current, target);
      if error.Some? {
        return current;
      }
      version := target.version;
      hash := target;
      snapshot := Some(target);
      return target;
    }

    /** Finds the snapshot an arriving task starts from and keeps it. */
    method ResolveSnapshot(local: Schema, revision: Option<Schema>) returns (found: bool)
      modifies this`snapshot
      ensures found == StartingSchema(old(Value()), local, revision).Some?
      ensures Value() == if found then old(Value()).(snapshot := StartingSchema(old(Value()), local, revision)) else old(Value())
    {
      if snapshot.None? {
        if revision.Some? && revision.value == hash {
          snapshot := revision;
        } else if local == hash {
          snapshot := Some(local);
        } else {
          return false;
        }
      }
      return true;
    }

    method BindPipelineState(local: Schema, revision: Option<Schema>, requester: string)
      returns (result: Result<Schema, BindError>)
      modifies this
      ensures if result.Ok? then Bind(old(Value()), local, revision, requester) == Ok((Value(), result.value))
              else Bind(old(Value()), local, revision, requester) == Err(result.error)
                   && Value() == Rebound(old(Value()), local, revision)
    {
      if pipelineId != local.id {
        return Err(PipelineMismatch);
      }
      var found := ResolveSnapshot(local, revision);
      if !found {
        return Err(SchemaMismatch);
      }
      var schema := TryDynamicSchemaMigration(snapshot.value, local);
      if currentStep > |schema.steps| {
        return Err(StepOutOfBounds);
      }
      if currentStep > 0 && Producer(producers, schema.steps[currentStep - 1].id) == "" {
        return Err(ProvenanceMissing);
      }
      if Producer(producers, INITIAL) == "" {
        producers := producers[INITIAL := requester];
      }
      return Ok(schema);
    }

    method RecordStep(step: PipelineStep, result: map<string, string>, node: string)
      modifies this
      ensures Value() == Record(old(Value()), step, result, node)
    {
      outputs := outputs[step.id := result];
      producers := producers[step.id := node];
      currentStep := currentStep + 1;
    }
  }

  // --------------------------------------------------------------------- runs

  /** What the registry can hand out: registered schemas are validated and not deleted. */
  predicate Registered(schema: Schema) {
    Registrable(schema, map[]) && !schema.deleted
  }

  /** A service without a pipeline runs as a one-step pipeline. */
  function Singular(service: string): Schema {
    Schema(service, 1, [PipelineStep("step0", service, "")], [], false)
  }

  datatype Status =
    | Travelling                      // queued or in transit to a node
    | Ready(schema: Schema)           // bound on a node, about to execute
    | Executed(schema: Schema)        // a step has just run
    | Completed
    | Failed

  /** One task: its status, its state once bound, and the steps run with their results and the nodes that ran them. */
  datatype Task = Task(
    service: string,
    status: Status,
    state: Option<ExecState>,
    trace: seq<PipelineStep>,
    results: seq<map<string, string>>,
    nodes: seq<string>)

  datatype Event =
    | Arrive(local: Option<Schema>, revision: Option<Schema>, requester: string)
    | Route                                                  // handed to another node or re-queued
    | Execute(outputs: map<string, string>, node: string)    // the handler succeeded
    | Advance(latest: Option<Schema>)
    | Abort                                                  // any failure path

  predicate EventOk(service: string, e: Event) {
    match e
    case Arrive(local, _, _) => local.Some? ==> Registered(local.value) && local.value.id == service
    case Advance(latest) => latest.Some? ==> Registered(latest.value) && latest.value.id == service
    case _ => true
  }

  function LocalSchema(task: Task, local: Option<Schema>): Schema {
    if local.Some? then local.value
    else if task.state.Some? && task.state.value.snapshot.Some? then task.state.value.snapshot.value
    else Singular(task.service)
  }

  function ArriveStep(task: Task, local: Option<Schema>, revision: Option<Schema>, requester: string): Task {
    var schema := LocalSchema(task, local);
    if task.state.None? then
      task.(status := Ready(schema), state := Some(Fresh(schema, requester)))
    else
      match Bind(task.state.value, schema, revision, requester)
      case Ok((st, exec)) => task.(status := Ready(exec), state := Some(st))
      case Err(_) => task.(status := Failed)
  }

  function ExecuteStep(task: Task, outputs: map<string, string>, node: string): Task
    requires task.status.Ready? && task.state.Some?
  {
    var st, schema := task.state.value, task.status.schema;
    if st.currentStep >= |schema.steps| then task.(status := Failed)
    else
      var step := schema.steps[st.currentStep];
      task.(status := Executed(schema),
            state := Some(Record(st, step, outputs, node)),
            trace := task.trace + [step],
            results := task.results + [outputs],
            nodes := task.nodes + [node])
  }

  function AdvanceStep(task: Task, latest: Option<Schema>): Task
    requires task.status.Executed? && task.state.Some?
  {
    var st, schema := task.state.value, task.status.schema;
    var st' := if latest.Some? then AfterMigration(st, schema, latest.value) else st;
    var schema' := if latest.Some? then SchemaAfter(st, schema, latest.value) else schema;
    task.(state := Some(st'), status := if st'.currentStep < |schema'.steps| then Travelling else Completed)
  }

  function Step(task: Task, e: Event): Task {
    match e
    case Arrive(local, revision, requester) =>
      if task.status.Travelling? then ArriveStep(task, local, revision, requester) else task
    case Route => if task.status.Ready? then task.(status := Travelling) else task
    case Execute(outputs, node) =>
      if task.status.Ready? && task.state.Some? then ExecuteStep(task, outputs, node) else task
    case Advance(latest) =>
      if task.status.Executed? && task.state.Some? then AdvanceStep(task, latest) else task
    case Abort => if task.status.Completed? then task else task.(status := Failed)
  }

  function Run(service: string, events: seq<Event>): Task {
    if events == [] then Task(service, Travelling, None, [], [], [])
    else Step(Run(service, events[..|events| - 1]), events[|events| - 1])
  }

  // ---------------------------------------------------------------- invariant

  /** Every source is listed before its targets, so steps can run in list order. */
  predicate Runnable(schema: Schema) {
    && schema.steps != []
    && DistinctIds(schema.steps)
    && forall c | c in schema.connections :: c.fromStep == INITIAL || SourceBeforeTarget(schema.steps, c)
  }

  ghost predicate Bound(task: Task, st: ExecState, schema: Schema) {
    && st.pipelineId == task.service == schema.id
    && Runnable(schema)
    && st.snapshot == Some(schema) && st.hash == schema && st.version == schema.version
    && st.currentStep == |task.trace| == |task.results| <= |schema.steps|
    && task.trace == schema.steps[..|task.trace|]
    && (forall k | 0 <= k < |task.trace| ::
          task.trace[k].id in st.outputs && st.outputs[task.trace[k].id] == task.results[k])
    && |task.nodes| == |task.trace|
    && (forall k | 0 <= k < |task.trace| && task.nodes[k] != "" ::
          Producer(st.producers, task.trace[k].id) == task.nodes[k])
  }

  ghost predicate TaskInv(task: Task) {
    if task.state.None? then task.trace == [] && task.results == [] && task.nodes == [] && (task.status.Travelling? || task.status.Failed?)
    else
      && task.state.value.snapshot.Some?
      && Bound(task, task.state.value, task.state.value.snapshot.value)
      && (task.status.Ready? || task.status.Executed? ==> Some(task.status.schema) == task.state.value.snapshot)
      && (task.status.Completed? ==> |task.trace| == |task.state.value.snapshot.value.steps|)
  }

  lemma RegisteredIsRunnable(schema: Schema)
    requires Registered(schema)
    ensures Runnable(schema)
  {
    forall c | c in schema.connections ensures c.fromStep == INITIAL || SourceBeforeTarget(schema.steps, c) {
      assert ConnectionOk(schema.steps, map[], c);
    }
  }

  lemma {:induction false} StepNamedInPrefix(steps: seq<PipelineStep>, k: nat)
    requires DistinctIds(steps) && k < |steps|
    ensures StepNamed(steps, steps[k].id) == Some(steps[k])
  {
    if k < |steps| - 1 {
      var front := steps[..|steps| - 1];
      assert front[k] == steps[k];
      StepNamedInPrefix(front, k);
    }
  }

  /** An accepted migration keeps the executed prefix, step for step. */
  lemma MigrationKeepsBound(task: Task, st: ExecState, current: Schema, target: Schema)
    requires Bound(task, st, current)
    requires Runnable(target)
    ensures Bound(task, AfterMigration(st, current, target), SchemaAfter(st, current, target))
    ensures AfterMigration(st, current, target).version >= st.version
  {
    if Adopts(st, current, target) {
      var n := |task.trace|;
      var completed := CompletedIds(current, st.currentStep);
      forall k | 0 <= k < n ensures task.trace[k] == target.steps[k] {
        assert task.trace[k] == current.steps[k];
        StepNamedInPrefix(current.steps, k);
        assert StepNamed(current.steps, completed[k]) == Some(target.steps[k]);
      }
      assert task.trace == target.steps[..n];
    }
  }

  /** Binding keeps a bound task bound, to its snapshot or to the schema it adopts. */
  lemma BindKeepsBound(task: Task, st: ExecState, local: Schema, revision: Option<Schema>, requester: string)
    requires st.snapshot.Some? && Bound(task, st, st.snapshot.value) && Runnable(local)
    ensures var r := Bind(st, local, revision, requester);
            r.Ok? ==> Bound(task, r.value.0, r.value.1) && st.version <= r.value.0.version
  {
    MigrationKeepsBound(task, st, st.snapshot.value, local);
    BindIsMigration(st, local, revision, requester);
    var r := Bind(st, local, revision, requester);
    var next := AfterMigration(st, st.snapshot.value, local);
    if r.Ok? && Producer(next.producers, INITIAL) == "" {
      RequesterKeepsBound(task, next, r.value.1, requester);
    }
  }

  /** Binding a task that has a snapshot migrates it and names the first requester. */
  lemma BindIsMigration(st: ExecState, local: Schema, revision: Option<Schema>, requester: string)
    requires st.snapshot.Some?
    ensures var r, next := Bind(st, local, revision, requester), AfterMigration(st, st.snapshot.value, local);
            r.Ok? ==>
              && r.value.1 == SchemaAfter(st, st.snapshot.value, local)
              && (r.value.0 == next ||
                  (Producer(next.producers, INITIAL) == "" && r.value.0 == next.(producers := next.producers[INITIAL := requester])))
  {
    assert st.(snapshot := st.snapshot) == st;
  }

  lemma RequesterKeepsBound(task: Task, st: ExecState, schema: Schema, requester: string)
    requires Bound(task, st, schema) && Producer(st.producers, INITIAL) == ""
    ensures Bound(task, st.(producers := st.producers[INITIAL := requester]), schema)
  {
  }

  lemma LocalSchemaIsRunnable(task: Task, local: Option<Schema>)
    requires TaskInv(task)
    requires local.Some? ==> Registered(local.value) && local.value.id == task.service
    ensures Runnable(LocalSchema(task, local)) && LocalSchema(task, local).id == task.service
  {
    if local.Some? {
      RegisteredIsRunnable(local.value);
    }
  }

  lemma ArriveKeepsInv(task: Task, local: Option<Schema>, revision: Option<Schema>, requester: string)
    requires TaskInv(task) && task.status.Travelling?
    requires EventOk(task.service, Arrive(local, revision, requester))
    ensures TaskInv(ArriveStep(task, local, revision, requester))
  {
    var schema := LocalSchema(task, local);
    LocalSchemaIsRunnable(task, local);
    if task.state.Some? {
      BindKeepsBound(task, task.state.value, schema, revision, requester);
    }
  }

  lemma ExecuteKeepsInv(task: Task, outputs: map<string, string>, node: string)
    requires TaskInv(task) && task.status.Ready? && task.state.Some?
    ensures TaskInv(ExecuteStep(task, outputs, node))
  {
    var st, schema := task.state.value, task.status.schema;
    var n := |task.trace|;
    if n < |schema.steps| {
      var task' := ExecuteStep(task, outputs, node);
      assert task'.trace == schema.steps[..n + 1];
      forall k | 0 <= k < n ensures task.trace[k].id != schema.steps[n].id {
        assert task.trace[k] == schema.steps[k];
      }
    }
  }

  lemma AdvanceKeepsInv(task: Task, latest: Option<Schema>)
    requires TaskInv(task) && task.status.Executed? && task.state.Some?
    requires EventOk(task.service, Advance(latest))
    ensures TaskInv(AdvanceStep(task, latest))
  {
    if latest.Some? {
      RegisteredIsRunnable(latest.value);
      MigrationKeepsBound(task, task.state.value, task.status.schema, latest.value);
    }
  }

  lemma StepKeepsInv(task: Task, e: Event)
    requires TaskInv(task) && EventOk(task.service, e)
    ensures TaskInv(Step(task, e)) && Step(task, e).service == task.service
  {
    match e
    case Arrive(local, revision, requester) =>
      if task.status.Travelling? {
        ArriveKeepsInv(task, local, revision, requester);
      }
    case Execute(outputs, node) =>
      if task.status.Ready? && task.state.Some? {
        ExecuteKeepsInv(task, outputs, node);
      }
    case Advance(latest) =>
      if task.status.Executed? && task.state.Some? {
        AdvanceKeepsInv(task, latest);
      }
    case Route =>
    case Abort =>
  }

  predicate EventsOk(service: string, events: seq<Event>) {
    forall i | 0 <= i < |events| :: EventOk(service, events[i])
  }

  lemma {:induction false} RunKeepsInv(service: string, events: seq<Event>)
    requires EventsOk(service, events)
    ensures TaskInv(Run(service, events)) && Run(service, events).service == service
  {
    if events != [] {
      RunKeepsInv(service, events[..|events| - 1]);
      StepKeepsInv(Run(service, events[..|events| - 1]), events[|events| - 1]);
    }
  }

  /** After any run the executed steps are a prefix of the current snapshot, and all of it at completion. */
  lemma TraceIsSnapshotPrefix(service: string, events: seq<Event>)
    requires EventsOk(service, events)
    ensures var task := Run(service, events);
            task.state.Some? ==>
              && task.state.value.snapshot.Some?
              && task.trace <= task.state.value.snapshot.value.steps
              && task.state.value.currentStep == |task.trace|
              && (task.status.Completed? ==> task.trace == task.state.value.snapshot.value.steps)
    ensures Run(service, events).status.Completed? ==> Run(service, events).state.Some?
  {
    RunKeepsInv(service, events);
  }

  /** Every non-initial input of the next step reads the output its source step returned when it ran. */
  lemma NextStepInputsRecorded(service: string, events: seq<Event>, c: Connection)
    requires EventsOk(service, events)
    requires var task := Run(service, events);
             && task.status.Ready? && task.state.Some?
             && task.state.value.currentStep < |task.status.schema.steps|
             && c in task.status.schema.connections
             && c.toStep == task.status.schema.steps[task.state.value.currentStep].id
             && c.fromStep != INITIAL
    ensures var task := Run(service, events);
            && c.fromStep in task.state.value.outputs
            && exists k :: 0 <= k < |task.trace| && k < |task.results| && task.trace[k].id == c.fromStep
                           && task.state.value.outputs[c.fromStep] == task.results[k]
  {
    RunKeepsInv(service, events);
    var task := Run(service, events);
    var st, steps := task.state.value, task.status.schema.steps;
    var i, j :| 0 <= i < j < |steps| && steps[i].id == c.fromStep && steps[j].id == c.toStep;
    PositionUnique(steps, j, st.currentStep);
    assert task.trace[i] == steps[i];
  }

  /** Along any run the adopted version never drops and what has run is never rewritten. */
  lemma {:induction false} VersionNeverDrops(service: string, events: seq<Event>, n: nat)
    requires EventsOk(service, events) && n <= |events|
    ensures var earlier, later := Run(service, events[..n]), Run(service, events);
            && earlier.trace <= later.trace && earlier.results <= later.results
            && (earlier.state.Some? ==>
                  later.state.Some? && earlier.state.value.version <= later.state.value.version)
    decreases |events|
  {
    if n < |events| {
      var front := events[..|events| - 1];
      assert front[..n] == events[..n];
      VersionNeverDrops(service, front, n);
      RunKeepsInv(service, front);
      StepExtends(Run(service, front), events[|events| - 1]);
    } else {
      assert events[..n] == events;
    }
  }

  lemma StepExtends(task: Task, e: Event)
    requires TaskInv(task) && EventOk(task.service, e)
    ensures task.trace <= Step(task, e).trace && task.results <= Step(task, e).results
    ensures task.state.Some? ==>
              Step(task, e).state.Some? && task.state.value.version <= Step(task, e).state.value.version
  {
    if e.Arrive? && task.status.Travelling? && task.state.Some? {
      LocalSchemaIsRunnable(task, e.local);
      BindKeepsBound(task, task.state.value, LocalSchema(task, e.local), e.revision, e.requester);
    }
    if e.Advance? && task.status.Executed? && task.state.Some? && e.latest.Some? {
      RegisteredIsRunnable(e.latest.value);
      MigrationKeepsBound(task, task.state.value, task.status.schema, e.latest.value);
    }
  }

  // ------------------------------------------------------------ arrivals do not fail

  /** An arriving task of a run is refused exactly when nobody is on record for the last step it ran. */
  lemma ArrivalFailsExactly(service: string, events: seq<Event>, e: Event)
    requires EventsOk(service, events) && e.Arrive? && EventOk(service, e) && Run(service, events).status.Travelling?
    ensures var task := Run(service, events);
            Step(task, e).status.Failed? <==>
              && task.state.Some? && task.trace != []
              && Producer(task.state.value.producers, task.trace[|task.trace| - 1].id) == ""
    ensures !Step(Run(service, events), e).status.Failed? ==> Step(Run(service, events), e).status.Ready?
  {
    RunKeepsInv(service, events);
    var task := Run(service, events);
    if task.state.Some? {
      var st, schema := task.state.value, LocalSchema(task, e.local);
      LocalSchemaIsRunnable(task, e.local);
      FitsExactly(task, st, schema);
      BindFailsExactly(st, schema, e.revision, e.requester);
    }
  }

  lemma FitsExactly(task: Task, st: ExecState, local: Schema)
    requires st.snapshot.Some? && Bound(task, st, st.snapshot.value) && Runnable(local)
    ensures Unfit(st, SchemaAfter(st, st.snapshot.value, local)) <==>
            task.trace != [] && Producer(st.producers, task.trace[|task.trace| - 1].id) == ""
  {
    var schema := SchemaAfter(st, st.snapshot.value, local);
    MigrationKeepsBound(task, st, st.snapshot.value, local);
    if task.trace != [] {
      assert task.trace[|task.trace| - 1] == schema.steps[|task.trace| - 1];
    }
  }

  lemma {:induction false} NodesAreNamed(service: string, events: seq<Event>)
    requires forall i | 0 <= i < |events| && events[i].Execute? :: events[i].node != ""
    ensures forall k | 0 <= k < |Run(service, events).nodes| :: Run(service, events).nodes[k] != ""
  {
    if events != [] {
      NodesAreNamed(service, events[..|events| - 1]);
    }
  }

  /** Between nodes that have names, no arrival of any run is ever refused, whatever schemas the nodes hold. */
  lemma ArrivalsNeverFail(service: string, events: seq<Event>, e: Event)
    requires EventsOk(service, events) && e.Arrive? && EventOk(service, e) && Run(service, events).status.Travelling?
    requires forall i | 0 <= i < |events| && events[i].Execute? :: events[i].node != ""
    ensures Step(Run(service, events), e).status.Ready?
  {
    RunKeepsInv(service, events);
    NodesAreNamed(service, events);
    ArrivalFailsExactly(service, events, e);
    var task := Run(service, events);
    if task.trace != [] {
      assert task.nodes[|task.trace| - 1] != "";
    }
  }

  // ------------------------------------------------- which schema runs, and what an event does

  /** Everything the update reads from a step that has run, the step returned. */
  predicate ReadsOnlyResults(task: Task, update: Schema)
    requires |task.trace| == |task.results|
  {
    forall c, k | c in update.connections && c.fromStep != INITIAL && 0 <= k < |task.trace| && c.fromStep == task.trace[k].id ::
      c.fromPort in task.results[k]
  }

  /** The update is not older, starts with the steps that have run, and reads from them only what they returned. */
  predicate Continues(task: Task, current: Schema, update: Schema)
    requires |task.trace| == |task.results|
  {
    update.version >= current.version && task.trace <= update.steps && ReadsOnlyResults(task, update)
  }

  lemma PrefixKeptExactly(task: Task, st: ExecState, current: Schema, target: Schema)
    requires Bound(task, st, current)
    ensures PrefixKept(CompletedIds(current, st.currentStep), current.steps, target.steps) <==> task.trace <= target.steps
  {
    var completed := CompletedIds(current, st.currentStep);
    forall k | 0 <= k < |task.trace| ensures completed[k] == task.trace[k].id && StepNamed(current.steps, completed[k]) == Some(task.trace[k]) {
      assert task.trace[k] == current.steps[k];
      StepNamedInPrefix(current.steps, k);
    }
    assert |completed| == |task.trace|;
    if PrefixKept(completed, current.steps, target.steps) {
      assert task.trace == target.steps[..|task.trace|];
    }
  }

  lemma CompletedAreTrace(task: Task, st: ExecState, current: Schema, id: string)
    requires Bound(task, st, current)
    ensures id in CompletedIds(current, st.currentStep) <==> exists k :: 0 <= k < |task.trace| && task.trace[k].id == id
  {
    var completed := CompletedIds(current, st.currentStep);
    assert forall k | 0 <= k < |task.trace| :: task.trace[k] == current.steps[k] && completed[k] == task.trace[k].id;
    assert |completed| == |task.trace|;
  }

  lemma ConnectionsMigrateExactly(task: Task, st: ExecState, current: Schema, target: Schema)
    requires Bound(task, st, current) && Registered(target)
    ensures (forall c | c in target.connections ::
               ConnectionMigrates(CompletedIds(current, st.currentStep), st.outputs, target.steps, c))
            <==> ReadsOnlyResults(task, target)
  {
    var completed := CompletedIds(current, st.currentStep);
    forall c | c in target.connections
      ensures ConnectionMigrates(completed, st.outputs, target.steps, c) <==>
              (c.fromStep != INITIAL ==>
                 forall k | 0 <= k < |task.trace| && c.fromStep == task.trace[k].id :: c.fromPort in task.results[k])
    {
      CompletedAreTrace(task, st, current, c.fromStep);
      assert ConnectionOk(target.steps, map[], c);
    }
  }

  /** A bound task leaves its schema for another registered one exactly when that one continues what has run. */
  lemma AdoptsExactly(task: Task, st: ExecState, current: Schema, target: Schema)
    requires Bound(task, st, current) && Registered(target) && target.id == task.service
    ensures Adopts(st, current, target) <==> target != current && Continues(task, current, target)
  {
    PrefixKeptExactly(task, st, current, target);
    ConnectionsMigrateExactly(task, st, current, target);
  }

  /**
   * After any run, a node that holds a registered schema binds an arriving task
   * to it exactly when it continues what has run, and otherwise to the task's
   * own snapshot. The first requester on record stays.
   */
  lemma ArrivalBindsExactly(service: string, events: seq<Event>, local: Schema, revision: Option<Schema>, requester: string)
    requires EventsOk(service, events) && EventOk(service, Arrive(Some(local), revision, requester))
    requires Run(service, events).status.Travelling?
    requires Step(Run(service, events), Arrive(Some(local), revision, requester)).status.Ready?
    ensures var task, after := Run(service, events), Step(Run(service, events), Arrive(Some(local), revision, requester));
            && after.state.Some? && after.state.value.snapshot == Some(after.status.schema)
            && (after.trace, after.results, after.nodes) == (task.trace, task.results, task.nodes)
            && (task.state.None? ==> after.status.schema == local)
            && Producer(after.state.value.producers, INITIAL) ==
                 (if task.state.Some? && Producer(task.state.value.producers, INITIAL) != ""
                  then Producer(task.state.value.producers, INITIAL) else requester)
            && (task.state.Some? ==>
                  && task.state.value.snapshot.Some? && |task.trace| == |task.results|
                  && var current := task.state.value.snapshot.value;
                  after.status.schema == if Continues(task, current, local) then local else current)
  {
    RunKeepsInv(service, events);
    var task := Run(service, events);
    StepKeepsInv(task, Arrive(Some(local), revision, requester));
    if task.state.Some? {
      var st := task.state.value;
      AdoptsExactly(task, st, st.snapshot.value, local);
      assert st.(snapshot := st.snapshot) == st;
    }
  }

  /** A node without a schema for the service runs a new task as a single step of that service. */
  lemma UnknownServiceRunsAlone(service: string, revision: Option<Schema>, requester: string)
    ensures var after := Step(Run(service, []), Arrive(None, revision, requester));
            && after.status.Ready? && after.status.schema.steps == [PipelineStep("step0", service, "")]
            && after.status.schema.connections == []
  {
  }

  /**
   * After any run, executing runs exactly the next step of the bound schema and
   * records its result and node; a task bound past its last step fails instead.
   */
  lemma ExecutionExactly(service: string, events: seq<Event>, outputs: map<string, string>, node: string)
    requires EventsOk(service, events) && Run(service, events).status.Ready?
    ensures var task, after := Run(service, events), Step(Run(service, events), Execute(outputs, node));
            var steps := task.status.schema.steps;
            if |task.trace| < |steps| then
              && after.status == Executed(task.status.schema) && after.trace == task.trace + [steps[|task.trace|]]
              && after.results == task.results + [outputs] && after.nodes == task.nodes + [node]
            else after == task.(status := Failed)
  {
    RunKeepsInv(service, events);
  }

  /**
   * After any run, advancing moves an executed task to the latest schema exactly
   * when that continues what has run, and ends it exactly when every step of the
   * schema it then has was run.
   */
  lemma AdvanceExactly(service: string, events: seq<Event>, latest: Option<Schema>)
    requires EventsOk(service, events) && EventOk(service, Advance(latest)) && Run(service, events).status.Executed?
    ensures var task, after := Run(service, events), Step(Run(service, events), Advance(latest));
            && after.state.Some? && after.state.value.snapshot.Some? && |task.trace| == |task.results|
            && (after.trace, after.results, after.nodes) == (task.trace, task.results, task.nodes)
            && (var current := task.status.schema;
                after.state.value.snapshot ==
                  Some(if latest.Some? && Continues(task, current, latest.value) then latest.value else current))
            && after.status == if after.trace == after.state.value.snapshot.value.steps then Completed else Travelling
  {
    RunKeepsInv(service, events);
    var task := Run(service, events);
    StepKeepsInv(task, Advance(latest));
    if latest.Some? {
      AdoptsExactly(task, task.state.value, task.status.schema, latest.value);
    }
  }

  lemma RunSnoc(service: string, events: seq<Event>, e: Event)
    ensures Run(service, events + [e]) == Step(Run(service, events), e)
  {
    assert (events + [e])[..|events|] == events;
  }

  /** The schema holds exactly what the task has run, and may follow the one it is bound to. */
  predicate EndsAt(task: Task, service: string, long: Schema, short: Schema) {
    && Registered(short) && short.id == service && short.version >= long.version && short.connections == []
    && task.trace == short.steps
  }

  lemma AdvanceCompletes(service: string, events: seq<Event>, long: Schema, short: Schema)
    requires EventsOk(service, events) && EndsAt(Run(service, events), service, long, short)
    requires Run(service, events).status == Executed(long)
    ensures Run(service, events + [Advance(Some(short))]).status.Completed?
  {
    RunSnoc(service, events, Advance(Some(short)));
    AdvanceExactly(service, events, Some(short));
  }

  lemma AdvanceTravels(service: string, events: seq<Event>, long: Schema)
    requires EventsOk(service, events) && Run(service, events).status == Executed(long)
    requires |Run(service, events).trace| < |long.steps|
    ensures var task := Run(service, events + [Advance(None)]);
            && task.status.Travelling? && task.trace == Run(service, events).trace
            && task.state.Some? && task.state.value.snapshot == Some(long)
            && EventsOk(service, events + [Advance(None)])
  {
    RunSnoc(service, events, Advance(None));
    AdvanceExactly(service, events, None);
  }

  lemma ArrivalIsBound(service: string, events: seq<Event>, long: Schema, short: Schema, node: string)
    requires EventsOk(service, events) && EndsAt(Run(service, events), service, long, short)
    requires Run(service, events).status.Travelling?
    requires Run(service, events).state.Some? && Run(service, events).state.value.snapshot == Some(long)
    requires forall i | 0 <= i < |events| && events[i].Execute? :: events[i].node != ""
    ensures var task := Run(service, events + [Arrive(Some(short), None, node)]);
            task.status == Ready(short) && task.trace == short.steps
  {
    var late := Arrive(Some(short), None, node);
    RunSnoc(service, events, late);
    ArrivalsNeverFail(service, events, late);
    ArrivalBindsExactly(service, events, short, None, node);
  }

  lemma ExecutionFails(service: string, events: seq<Event>, short: Schema, node: string)
    requires EventsOk(service, events)
    requires Run(service, events).status == Ready(short) && Run(service, events).trace == short.steps
    ensures Run(service, events + [Execute(map[], node)]).status.Failed?
  {
    RunSnoc(service, events, Execute(map[], node));
    ExecutionExactly(service, events, map[], node);
  }

  /**
   * The two ways of meeting a newer schema with no step left differ, in every
   * run: a task that advances to it is completed; a task that travels on and
   * arrives where it is held is bound to it and then fails to execute.
   */
  lemma ShortenedSchemaEndsTwoWays(service: string, events: seq<Event>, long: Schema, short: Schema, node: string)
    requires EventsOk(service, events) && EndsAt(Run(service, events), service, long, short)
    requires Run(service, events).status == Executed(long) && |short.steps| < |long.steps|
    requires forall i | 0 <= i < |events| && events[i].Execute? :: events[i].node != ""
    ensures Run(service, events + [Advance(Some(short))]).status.Completed?
    ensures Run(service, events + [Advance(None)] + [Arrive(Some(short), None, node)] + [Execute(map[], node)]).status.Failed?
  {
    AdvanceCompletes(service, events, long, short);
    AdvanceTravels(service, events, long);
    var onward := events + [Advance(None)];
    ArrivalIsBound(service, onward, long, short, node);
    ExecutionFails(service, onward + [Arrive(Some(short), None, node)], short, node);
  }

  /** Such runs exist: any registered schema, after its first step. */
  lemma FirstStepRuns(long: Schema, node: string)
    requires Registered(long)
    ensures var events := [Arrive(Some(long), None, node), Execute(map[], node)];
            var task := Run(long.id, events);
            EventsOk(long.id, events) && task.status == Executed(long) && task.trace == [long.steps[0]]
  {
    var arrive, execute := Arrive(Some(long), None, node), Execute(map[], node);
    assert [arrive, execute] == [] + [arrive] + [execute];
    RunSnoc(long.id, [], arrive);
    RunSnoc(long.id, [] + [arrive], execute);
  }
}
