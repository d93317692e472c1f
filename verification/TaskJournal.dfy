/**
 * The task journal: an append-only log of checkpoints with two materialised
 * views, active tasks and task history, written in the same transaction.
 * In a checkpoint a present but empty map differs from an absent one; JSON's
 * `omitempty` erases that difference when a value is stored.
 */
module TaskJournal {
  import opened Common
  import opened JournalKeys

  type Doc = map<string, string>

  const SCHEMA_MIGRATED := "schema_migrated"

  datatype PipelineState = PipelineState(outputs: Option<map<string, Doc>>, body: string)

  datatype Context = Context(
    taskId: string, service: string, status: string, requester: string, replyTo: string, nodeId: string,
    payload: Option<Doc>, error: string, pipeline: Option<PipelineState>, metadata: Doc)

  datatype Record = Record(
    ctx: Context, sequence: nat, timestamp: int, stepId: string, stepIndex: int, outputs: Option<Doc>)

  datatype Task = Task(
    ctx: Context, createdAt: int, updatedAt: int, currentStep: int, currentStepId: string,
    outputs: map<string, Doc>, finalOutputs: Doc)

  datatype AppendError = EmptyTaskId | TaskTerminal

  predicate IsTerminal(status: string) {
    status == "completed" || status == "failed"
  }

  // ------------------------------------------------------------ JSON `omitempty`

  function Omit<K(==), V>(o: Option<map<K, V>>): Option<map<K, V>> {
    if o.Some? && o.value.Keys == {} then None else o
  }

  function StoredContext(c: Context): Context {
    c.(payload := Omit(c.payload),
       pipeline := if c.pipeline.Some? then Some(c.pipeline.value.(outputs := Omit(c.pipeline.value.outputs))) else None)
  }

  function StoredRecord(r: Record): Record {
    r.(ctx := StoredContext(r.ctx), outputs := Omit(r.outputs))
  }

  function StoredTask(t: Task): Task {
    t.(ctx := StoredContext(t.ctx))
  }

  // ----------------------------------------------------- applying one checkpoint

  function Keep(dst: string, src: string, overwrite: bool): string {
    if src != "" && (overwrite || dst == "") then src else dst
  }

  function Merge(c: Context, src: Context, overwrite: bool): Context {
    Context(
      c.taskId,
      Keep(c.service, src.service, overwrite),
      if overwrite && src.status != "" then src.status else c.status,
      Keep(c.requester, src.requester, overwrite),
      Keep(c.replyTo, src.replyTo, overwrite),
      Keep(c.nodeId, src.nodeId, overwrite),
      if src.payload.Some? && (overwrite || c.payload.None?) then src.payload else c.payload,
      Keep(c.error, src.error, overwrite),
      if src.pipeline.Some? && (overwrite || c.pipeline.None?) then src.pipeline else c.pipeline,
      if overwrite then c.metadata + src.metadata else src.metadata + c.metadata)
  }

  function NewTask(id: string, createdAt: int): Task {
    Task(Context(id, "", "", "", "", "", None, "", None, map[]), createdAt, 0, 0, "", map[], map[])
  }

  function StatusAfter(t: Task, r: Record): string {
    if r.ctx.status == SCHEMA_MIGRATED then (if t.ctx.status != "" then t.ctx.status else "running")
    else if r.ctx.status != "" then r.ctx.status
    else t.ctx.status
  }

  function PipelineOutputs(r: Record): map<string, Doc> {
    if r.ctx.pipeline.Some? && r.ctx.pipeline.value.outputs.Some? then r.ctx.pipeline.value.outputs.value else map[]
  }

  function OutputsAfter(t: Task, r: Record): map<string, Doc> {
    var outs := t.outputs + PipelineOutputs(r);
    if r.outputs.Some? && r.stepId != "" then outs[r.stepId := r.outputs.value] else outs
  }

  function Apply(t: Task, r: Record): Task {
    Task(
      Merge(t.ctx, r.ctx, true).(status := StatusAfter(t, r)),
      t.createdAt,
      r.timestamp,
      if r.stepIndex > 0 || t.currentStep == 0 then r.stepIndex else t.currentStep,
      if r.stepId != "" then r.stepId else t.currentStepId,
      OutputsAfter(t, r),
      if r.outputs.Some? && IsTerminal(r.ctx.status) then r.outputs.value else t.finalOutputs)
  }

  function MergeFromActive(t: Task, active: Task): Task {
    t.(ctx := Merge(t.ctx, active.ctx, false),
       createdAt := if t.createdAt == 0 then active.createdAt else t.createdAt,
       outputs := if t.outputs.Keys == {} then active.outputs else t.outputs,
       currentStepId := Keep(t.currentStepId, active.currentStepId, false),
       currentStep := if t.currentStep == 0 then active.currentStep else t.currentStep)
  }

  // -------------------------------------------------------------- the transaction

  datatype Store = Store(journal: map<string, Record>, active: map<string, Task>, history: map<string, Task>)

  const EMPTY := Store(map[], map[], map[])

  /** The largest sequence among the keys that parse as this task's. */
  ghost function MaxSequence(keys: set<string>, id: string): nat {
    if keys == {} then 0
    else
      var k :| k in keys;
      var rest := MaxSequence(keys - {k}, id);
      var s := ParseSequence(k, id);
      if s.Some? && s.value > rest then s.value else rest
  }

  ghost predicate IsMaximum(keys: set<string>, id: string, m: nat) {
    && (forall k | k in keys && ParseSequence(k, id).Some? :: ParseSequence(k, id).value <= m)
    && (m == 0 || exists k :: k in keys && ParseSequence(k, id) == Some(m))
  }

  lemma {:induction false} MaxSequenceIsMaximum(keys: set<string>, id: string)
    ensures IsMaximum(keys, id, MaxSequence(keys, id))
  {
    if keys != {} {
      var k :| k in keys && MaxSequence(keys, id) ==
        var rest := MaxSequence(keys - {k}, id);
        var s := ParseSequence(k, id);
        if s.Some? && s.value > rest then s.value else rest;
      MaxSequenceIsMaximum(keys - {k}, id);
    }
  }

  lemma MaximumIsUnique(keys: set<string>, id: string, m: nat)
    requires IsMaximum(keys, id, m)
    ensures m == MaxSequence(keys, id)
  {
    MaxSequenceIsMaximum(keys, id);
  }

  /** uint64 increment. */
  function Increment(n: nat): nat {
    if n >= MAX_UINT64 then 0 else n + 1
  }

  /** The checkpoint as it is logged: stamped and numbered. */
  ghost function Finalised(s: Store, r: Record, now: int): Record {
    r.(timestamp := if r.timestamp == 0 then now else r.timestamp,
       sequence := if r.sequence == 0 then Increment(MaxSequence(s.journal.Keys, r.ctx.taskId)) else r.sequence)
  }

  predicate Refused(s: Store, r: Record) {
    r.ctx.taskId in s.history && IsTerminal(s.history[r.ctx.taskId].ctx.status)
    && r.ctx.status != s.history[r.ctx.taskId].ctx.status
  }

  function Base(s: Store, r: Record): Task {
    var id := r.ctx.taskId;
    if !IsTerminal(r.ctx.status) then (if id in s.active then s.active[id] else NewTask(id, r.timestamp))
    else if id in s.history then
      (if id in s.active then MergeFromActive(s.history[id], s.active[id]) else s.history[id])
    else if id in s.active then s.active[id]
    else NewTask(id, r.timestamp)
  }

  /** Logging a finalised checkpoint and updating the view it belongs to. */
  function Logged(s: Store, r: Record): Store {
    var id := r.ctx.taskId;
    var journal := s.journal[JournalKey(id, r.sequence) := StoredRecord(r)];
    var task := StoredTask(Apply(Base(s, r), r));
    if IsTerminal(r.ctx.status) then Store(journal, s.active - {id}, s.history[id := task])
    else Store(journal, s.active[id := task], s.history)
  }

  class TaskStore {
    var journal: map<string, Record>
    var active: map<string, Task>
    var history: map<string, Task>

    function Value(): Store
      reads this
    {
      Store(journal, active, history)
    }

    constructor ()
      ensures Value() == EMPTY
    {
      journal, active, history := map[], map[], map[];
    }

    method ScanMaxSequence(id: string) returns (m: nat)
      ensures m == MaxSequence(journal.Keys, id)
    {
      m := 0;
      var todo := journal.Keys;
      while todo != {}
        invariant todo <= journal.Keys
        invariant forall k | k in journal && k !in todo && ParseSequence(k, id).Some? :: ParseSequence(k, id).value <= m
        invariant m == 0 || exists k :: k in journal && ParseSequence(k, id) == Some(m)
        decreases |todo|
      {
        var k :| k in todo;
        var s := ParseSequence(k, id);
        if s.Some? && s.value > m {
          m := s.value;
        }
        todo := todo - {k};
      }
      MaximumIsUnique(journal.Keys, id, m);
    }

    method AppendTaskCheckpoint(record: Record, now: int) returns (error: Option<AppendError>)
      modifies this
      ensures error == if IsBlank(record.ctx.taskId) then Some(EmptyTaskId)
                       else if Refused(old(Value()), record) then Some(TaskTerminal) else None
      ensures Value() == if error.Some? then old(Value())
                         else Logged(old(Value()), Finalised(old(Value()), record, now))
    {
      var id := record.ctx.taskId;
      if IsBlank(id) {
        return Some(EmptyTaskId);
      }
      var r := record;
      if r.timestamp == 0 {
        r := r.(timestamp := now);
      }
      var histExists := id in history;
      if histExists && IsTerminal(history[id].ctx.status) && r.ctx.status != history[id].ctx.status {
        return Some(TaskTerminal);
      }
      if r.sequence == 0 {
        var m := ScanMaxSequence(id);
        r := r.(sequence := Increment(m));
      }
      journal := journal[JournalKey(id, r.sequence) := StoredRecord(r)];
      var activeExists := id in active;
      if IsTerminal(r.ctx.status) {
        var task;
        if histExists {
          task := history[id];
          if activeExists {
            task := MergeFromActive(task, active[id]);
          }
        } else if activeExists {
          task := active[id];
        } else {
          task := NewTask(id, r.timestamp);
        }
        active := active - {id};
        history := history[id := StoredTask(Apply(task, r))];
      } else {
        var task := if activeExists then active[id] else NewTask(id, r.timestamp);
        active := active[id := StoredTask(Apply(task, r))];
      }
      return None;
    }

    method GetTaskJournal(id: string) returns (error: Option<AppendError>, records: seq<Record>)
      ensures error == if IsBlank(id) then Some(EmptyTaskId) else None
      ensures if error.Some? then records == [] else IsJournalOf(journal, id, records)
    {
      error, records := None, [];
      if IsBlank(id) {
        return Some(EmptyTaskId), [];
      }
      var todo := Scanned(journal, id);
      while todo != {}
        invariant todo <= Scanned(journal, id)
        invariant Ascending(records)
        invariant DistinctSequences(journal, id) ==> StrictlyAscending(records)
        invariant forall r :: r in records <==> InJournal(journal, Scanned(journal, id) - todo, r)
        decreases |todo|
      {
        var k :| k in todo;
        assert forall r :: InJournal(journal, Scanned(journal, id) - (todo - {k}), r) <==>
                           r == journal[k] || InJournal(journal, Scanned(journal, id) - todo, r);
        records := InsertBySequence(records, journal[k]);
        todo := todo - {k};
      }
    }
  }

  function Scanned(journal: map<string, Record>, id: string): set<string> {
    set k | k in journal && HasPrefix(k, id + ['/'])
  }

  predicate Ascending(records: seq<Record>) {
    forall i, j | 0 <= i < j < |records| :: records[i].sequence <= records[j].sequence
  }

  predicate StrictlyAscending(records: seq<Record>) {
    forall i, j | 0 <= i < j < |records| :: records[i].sequence < records[j].sequence
  }

  ghost predicate DistinctSequences(journal: map<string, Record>, id: string) {
    forall k, l | k in Scanned(journal, id) && l in Scanned(journal, id) && k != l ::
      journal[k].sequence != journal[l].sequence
  }

  ghost predicate InJournal(journal: map<string, Record>, keys: set<string>, r: Record) {
    exists k :: k in keys && k in journal && journal[k] == r
  }

  /** All records under the task's prefix, by increasing sequence. */
  ghost predicate IsJournalOf(journal: map<string, Record>, id: string, records: seq<Record>) {
    && Ascending(records)
    && (DistinctSequences(journal, id) ==> StrictlyAscending(records))
    && (forall r :: r in records <==> InJournal(journal, Scanned(journal, id), r))
  }

  method InsertBySequence(records: seq<Record>, r: Record) returns (sorted: seq<Record>)
    requires Ascending(records)
    ensures Ascending(sorted)
    ensures StrictlyAscending(records) && (forall x | x in records :: x.sequence != r.sequence) ==> StrictlyAscending(sorted)
    ensures forall x :: x in sorted <==> x == r || x in records
  {
    var i := 0;
    while i < |records| && records[i].sequence <= r.sequence
      invariant 0 <= i <= |records|
      invariant forall k | 0 <= k < i :: records[k].sequence <= r.sequence
    {
      i := i + 1;
    }
    sorted := records[..i] + [r] + records[i..];
    InsertKeepsOrder(records, r, i);
    assert records == records[..i] + records[i..];
  }

  lemma InsertKeepsOrder(records: seq<Record>, r: Record, i: nat)
    requires Ascending(records) && i <= |records|
    requires forall k | 0 <= k < i :: records[k].sequence <= r.sequence
    requires i < |records| ==> r.sequence < records[i].sequence
    ensures Ascending(records[..i] + [r] + records[i..])
    ensures StrictlyAscending(records) && (forall x | x in records :: x.sequence != r.sequence) ==>
              StrictlyAscending(records[..i] + [r] + records[i..])
  {
    var sorted := records[..i] + [r] + records[i..];
    assert forall j | 0 <= j < |sorted| ::
        sorted[j] == if j < i then records[j] else if j == i then r else records[j - 1];
    assert forall k | i <= k < |records| :: r.sequence < records[k].sequence;
  }

  // -------------------------------------------------------------- fold of the log

  /** The record a list of checkpoints amounts to, applied in order without any store. */
  function Fold(id: string, records: seq<Record>): Task
    requires records != []
  {
    if |records| == 1 then Apply(NewTask(id, records[0].timestamp), records[0])
    else Apply(Fold(id, records[..|records| - 1]), records[|records| - 1])
  }

  // ---------------------------------------------- the fold, field by field: latest wins

  /** What the latest checkpoint that gives a value gives. */
  function Latest<T>(rs: seq<Record>, pick: Record -> Option<T>): Option<T> {
    if rs == [] then None
    else if pick(rs[|rs| - 1]).Some? then pick(rs[|rs| - 1])
    else Latest(rs[..|rs| - 1], pick)
  }

  function NonEmpty(text: string): Option<string> {
    if text == "" then None else Some(text)
  }

  datatype Field = Service | Requester | ReplyTo | Node | Error | StepId

  function TextIn(r: Record, f: Field): string {
    match f
    case Service => r.ctx.service
    case Requester => r.ctx.requester
    case ReplyTo => r.ctx.replyTo
    case Node => r.ctx.nodeId
    case Error => r.ctx.error
    case StepId => r.stepId
  }

  function TextOf(t: Task, f: Field): string {
    match f
    case Service => t.ctx.service
    case Requester => t.ctx.requester
    case ReplyTo => t.ctx.replyTo
    case Node => t.ctx.nodeId
    case Error => t.ctx.error
    case StepId => t.currentStepId
  }

  function Find<V>(m: map<string, V>, k: string): Option<V> {
    if k in m then Some(m[k]) else None
  }

  /** The outputs a checkpoint gives for a step: its own outputs, or those its pipeline state carries. */
  function OutputsFor(r: Record, step: string): Option<Doc> {
    if r.outputs.Some? && r.stepId == step != "" then r.outputs
    else if r.ctx.pipeline.Some? && r.ctx.pipeline.value.outputs.Some? then Find(r.ctx.pipeline.value.outputs.value, step)
    else None
  }

  function OrdinaryStatus(r: Record): Option<string> {
    if r.ctx.status == SCHEMA_MIGRATED then None else NonEmpty(r.ctx.status)
  }

  /** The task a list of checkpoints starts from and ends with. */
  function Before(id: string, rs: seq<Record>): Task
    requires rs != []
  {
    if |rs| == 1 then NewTask(id, rs[0].timestamp) else Fold(id, rs[..|rs| - 1])
  }

  lemma FoldUnfolds(id: string, rs: seq<Record>)
    requires rs != []
    ensures Fold(id, rs) == Apply(Before(id, rs), rs[|rs| - 1])
    ensures |rs| == 1 ==> rs[..|rs| - 1] == []
  {
  }

  /** Every text field holds the latest non-empty value; the times are those of the first and the last checkpoint. */
  lemma {:induction false} TextsAreLatest(id: string, rs: seq<Record>, f: Field)
    requires rs != []
    ensures var t := Fold(id, rs);
            && t.ctx.taskId == id
            && t.createdAt == rs[0].timestamp && t.updatedAt == rs[|rs| - 1].timestamp
            && NonEmpty(TextOf(t, f)) == Latest(rs, (r: Record) => NonEmpty(TextIn(r, f)))
  {
    FoldUnfolds(id, rs);
    if |rs| > 1 {
      TextsAreLatest(id, rs[..|rs| - 1], f);
    }
  }

  predicate HasMigrated(rs: seq<Record>) {
    exists k :: 0 <= k < |rs| && rs[k].ctx.status == SCHEMA_MIGRATED
  }

  lemma MigratedSoFar(rs: seq<Record>)
    requires rs != []
    ensures HasMigrated(rs) <==> HasMigrated(rs[..|rs| - 1]) || rs[|rs| - 1].ctx.status == SCHEMA_MIGRATED
  {
    var n := |rs| - 1;
    assert forall k | 0 <= k < n :: rs[..n][k] == rs[k];
    if HasMigrated(rs[..n]) {
      var k :| 0 <= k < n && rs[..n][k].ctx.status == SCHEMA_MIGRATED;
      assert rs[k].ctx.status == SCHEMA_MIGRATED;
    }
  }

  lemma {:induction false} OrdinaryIsNonEmpty(rs: seq<Record>)
    ensures Latest(rs, OrdinaryStatus) != Some("")
  {
    if rs != [] {
      OrdinaryIsNonEmpty(rs[..|rs| - 1]);
    }
  }

  /** The status is the latest that is not a migration notice; a task known only by such notices is running. */
  lemma {:induction false} StatusIsLatest(id: string, rs: seq<Record>)
    requires rs != []
    ensures Fold(id, rs).ctx.status ==
            var latest := Latest(rs, OrdinaryStatus);
            if latest.Some? then latest.value else if HasMigrated(rs) then "running" else ""
  {
    FoldUnfolds(id, rs);
    MigratedSoFar(rs);
    if |rs| > 1 {
      StatusIsLatest(id, rs[..|rs| - 1]);
      OrdinaryIsNonEmpty(rs[..|rs| - 1]);
    }
  }

  function PositiveStep(r: Record): Option<int> {
    if r.stepIndex > 0 then Some(r.stepIndex) else None
  }

  /** The first step index that is not zero. */
  function FirstNonZero(rs: seq<Record>): int {
    if rs == [] then 0
    else if FirstNonZero(rs[..|rs| - 1]) != 0 then FirstNonZero(rs[..|rs| - 1])
    else rs[|rs| - 1].stepIndex
  }

  /** The current step is the latest positive index; without any, the first that is not zero. */
  lemma {:induction false} StepIsLatest(id: string, rs: seq<Record>)
    requires rs != []
    ensures Fold(id, rs).currentStep ==
            var latest := Latest(rs, PositiveStep);
            if latest.Some? then latest.value else FirstNonZero(rs)
  {
    FoldUnfolds(id, rs);
    if |rs| > 1 {
      StepIsLatest(id, rs[..|rs| - 1]);
      PositiveIsNonZero(rs[..|rs| - 1]);
    }
  }

  lemma {:induction false} PositiveIsNonZero(rs: seq<Record>)
    ensures Latest(rs, PositiveStep) != Some(0)
  {
    if rs != [] {
      PositiveIsNonZero(rs[..|rs| - 1]);
    }
  }

  /** Payload, pipeline state and final outputs are the latest present ones. */
  lemma {:induction false} DocumentsAreLatest(id: string, rs: seq<Record>)
    requires rs != []
    ensures var t := Fold(id, rs);
            && t.ctx.payload == Latest(rs, (r: Record) => r.ctx.payload)
            && t.ctx.pipeline == Latest(rs, (r: Record) => r.ctx.pipeline)
            && Some(t.finalOutputs) ==
               var latest := Latest(rs, (r: Record) => if IsTerminal(r.ctx.status) then r.outputs else None);
               if latest.Some? then latest else Some(map[])
  {
    FoldUnfolds(id, rs);
    if |rs| > 1 {
      DocumentsAreLatest(id, rs[..|rs| - 1]);
    }
  }

  lemma EntriesAfter(t: Task, r: Record, key: string)
    ensures Find(Apply(t, r).outputs, key) == if OutputsFor(r, key).Some? then OutputsFor(r, key) else Find(t.outputs, key)
    ensures Find(Apply(t, r).ctx.metadata, key) ==
            if key in r.ctx.metadata then Some(r.ctx.metadata[key]) else Find(t.ctx.metadata, key)
  {
  }

  /** The outputs of a step and the value of a metadata key are the latest given for it. */
  lemma {:induction false} EntriesAreLatest(id: string, rs: seq<Record>, key: string)
    requires rs != []
    ensures var t := Fold(id, rs);
            && Find(t.outputs, key) == Latest(rs, (r: Record) => OutputsFor(r, key))
            && Find(t.ctx.metadata, key) == Latest(rs, (r: Record) => Find(r.ctx.metadata, key))
  {
    FoldUnfolds(id, rs);
    EntriesAfter(Before(id, rs), rs[|rs| - 1], key);
    if |rs| > 1 {
      EntriesAreLatest(id, rs[..|rs| - 1], key);
    }
  }

  // ------------------------------------------------------------------------- runs

  /** Storing in between does not change what later checkpoints make of a task. */
  lemma StoreCommutesWithApply(t: Task, r: Record)
    ensures StoredTask(Apply(StoredTask(t), r)) == StoredTask(Apply(t, r))
  {
  }

  /** History of accepted checkpoints, per task. */
  datatype Run = Run(store: Store, accepted: map<string, seq<Record>>)

  function Accepted(run: Run, id: string): seq<Record> {
    if id in run.accepted then run.accepted[id] else []
  }

  ghost function AppendStep(run: Run, record: Record, now: int): Run {
    if IsBlank(record.ctx.taskId) || Refused(run.store, record) then run
    else Extended(run, Finalised(run.store, record, now))
  }

  ghost function RunAll(records: seq<(Record, int)>): Run {
    if records == [] then Run(EMPTY, map[])
    else
      var last := records[|records| - 1];
      AppendStep(RunAll(records[..|records| - 1]), last.0, last.1)
  }

  predicate AutoNumbered(records: seq<(Record, int)>) {
    forall i | 0 <= i < |records| :: records[i].0.sequence == 0
  }

  /** The k-th accepted checkpoint of a task is logged with sequence k + 1. */
  ghost predicate LoggedAt(run: Run, id: string, k: nat)
    requires k < |Accepted(run, id)|
  {
    var key := JournalKey(id, k + 1);
    && Accepted(run, id)[k].sequence == k + 1 <= MAX_UINT64
    && Accepted(run, id)[k].ctx.taskId == id
    && key in run.store.journal
    && run.store.journal[key] == StoredRecord(Accepted(run, id)[k])
  }

  ghost predicate KeyOf(run: Run, id: string, k: nat, key: string) {
    k < |Accepted(run, id)| && key == JournalKey(id, k + 1)
  }

  ghost predicate OwnKey(run: Run, id: string, key: string) {
    exists k: nat :: KeyOf(run, id, k, key)
  }

  ghost predicate IsAccepted(run: Run, key: string) {
    exists id, k: nat :: KeyOf(run, id, k, key)
  }

  /** The journal holds exactly the accepted checkpoints, numbered from one. */
  ghost predicate JournalOk(run: Run) {
    AllLogged(run) && forall key | key in run.store.journal :: IsAccepted(run, key)
  }

  ghost predicate AllLogged(run: Run) {
    forall id, k: nat | k < |Accepted(run, id)| :: LoggedAt(run, id, k)
  }

  /** Each task sits in exactly one view, as the fold of its accepted checkpoints. */
  ghost predicate ViewsOk(run: Run, id: string) {
    var rs := Accepted(run, id);
    if rs == [] then id !in run.store.active && id !in run.store.history
    else
      var last := rs[|rs| - 1].ctx.status;
      if IsTerminal(last) then
        && id !in run.store.active && id in run.store.history
        && run.store.history[id] == StoredTask(Fold(id, rs))
        && run.store.history[id].ctx.status == last
      else
        && id in run.store.active && id !in run.store.history
        && run.store.active[id] == StoredTask(Fold(id, rs))
  }

  ghost predicate RunOk(run: Run) {
    JournalOk(run) && forall id :: ViewsOk(run, id)
  }

  lemma ParsedIsAccepted(run: Run, id: string, key: string)
    requires JournalOk(run) && IsAccepted(run, key) && ParseSequence(key, id).Some?
    ensures ParseSequence(key, id).value <= |Accepted(run, id)|
  {
    var other, k: nat :| KeyOf(run, other, k, key);
    assert LoggedAt(run, other, k);
    OnlyOwnParse(id, other, k + 1);
  }

  lemma OnlyOwnParse(id: string, other: string, n: nat)
    requires n <= MAX_UINT64 && ParseSequence(JournalKey(other, n), id).Some?
    ensures other == id && ParseSequence(JournalKey(other, n), id) == Some(n)
  {
    OnlyOwnKeysParse(id, other, n);
    ParseOwnKey(id, n);
  }

  lemma JournalMaximum(run: Run, id: string)
    requires JournalOk(run)
    ensures MaxSequence(run.store.journal.Keys, id) == |Accepted(run, id)|
  {
    var n := |Accepted(run, id)|;
    var keys := run.store.journal.Keys;
    forall key | key in keys && ParseSequence(key, id).Some? ensures ParseSequence(key, id).value <= n {
      assert IsAccepted(run, key);
      ParsedIsAccepted(run, id, key);
    }
    if n > 0 {
      assert LoggedAt(run, id, n - 1);
      ParseOwnKey(id, n);
      assert JournalKey(id, n) in keys;
    }
    MaximumIsUnique(keys, id, n);
  }

  lemma FoldSnoc(id: string, rs: seq<Record>, r: Record)
    ensures Fold(id, rs + [r]) == Apply(if rs == [] then NewTask(id, r.timestamp) else Fold(id, rs), r)
  {
    assert (rs + [r])[..|rs|] == rs;
  }

  /** The run after a finalised checkpoint is accepted. */
  function Extended(run: Run, r: Record): Run {
    Run(Logged(run.store, r), run.accepted[r.ctx.taskId := Accepted(run, r.ctx.taskId) + [r]])
  }

  lemma AppendKeepsViews(run: Run, r: Record, id: string)
    requires ViewsOk(run, id) && !Refused(run.store, r)
    ensures ViewsOk(Extended(run, r), id)
  {
    if id == r.ctx.taskId {
      var rs := Accepted(run, id);
      FoldSnoc(id, rs, r);
      if rs != [] {
        StoreCommutesWithApply(Fold(id, rs), r);
      }
    }
  }

  lemma KeysApart(a: string, m: nat, b: string, n: nat)
    requires m <= MAX_UINT64 && n <= MAX_UINT64 && (a != b || m != n)
    ensures JournalKey(a, m) != JournalKey(b, n)
  {
    if JournalKey(a, m) == JournalKey(b, n) {
      KeyInjective(a, m, b, n);
    }
  }

  lemma LoggedStays(run: Run, r: Record, id: string, k: nat)
    requires k < |Accepted(run, id)| && LoggedAt(run, id, k)
    requires JournalKey(id, k + 1) != JournalKey(r.ctx.taskId, r.sequence)
    ensures k < |Accepted(Extended(run, r), id)| && LoggedAt(Extended(run, r), id, k)
  {
    assert Accepted(Extended(run, r), id)[k] == Accepted(run, id)[k];
  }

  lemma LastIsLogged(run: Run, r: Record)
    requires r.sequence == |Accepted(run, r.ctx.taskId)| + 1 <= MAX_UINT64
    ensures LoggedAt(Extended(run, r), r.ctx.taskId, r.sequence - 1)
  {
  }

  lemma AcceptedAfter(run: Run, r: Record, id: string)
    ensures Accepted(Extended(run, r), id) == if id == r.ctx.taskId then Accepted(run, id) + [r] else Accepted(run, id)
  {
  }

  lemma AppendKeepsLogged(run: Run, r: Record, id: string, k: nat)
    requires AllLogged(run) && r.sequence == |Accepted(run, r.ctx.taskId)| + 1 <= MAX_UINT64
    requires k < |Accepted(Extended(run, r), id)|
    ensures LoggedAt(Extended(run, r), id, k)
  {
    AcceptedAfter(run, r, id);
    if id == r.ctx.taskId && k == r.sequence - 1 {
      LastIsLogged(run, r);
    } else {
      assert LoggedAt(run, id, k);
      KeysApart(id, k + 1, r.ctx.taskId, r.sequence);
      LoggedStays(run, r, id, k);
    }
  }

  lemma AppendKeepsKeys(run: Run, r: Record, key: string)
    requires JournalOk(run) && r.sequence == |Accepted(run, r.ctx.taskId)| + 1
    requires key in Extended(run, r).store.journal
    ensures IsAccepted(Extended(run, r), key)
  {
    if key == JournalKey(r.ctx.taskId, r.sequence) {
      assert KeyOf(Extended(run, r), r.ctx.taskId, r.sequence - 1, key);
    } else {
      assert IsAccepted(run, key);
      var id, k: nat :| KeyOf(run, id, k, key);
      assert KeyOf(Extended(run, r), id, k, key);
    }
  }

  lemma AppendKeepsRun(run: Run, record: Record, now: int)
    requires RunOk(run) && |Accepted(run, record.ctx.taskId)| < MAX_UINT64 && record.sequence == 0
    ensures RunOk(AppendStep(run, record, now))
  {
    if !IsBlank(record.ctx.taskId) && !Refused(run.store, record) {
      var r := Finalised(run.store, record, now);
      JournalMaximum(run, r.ctx.taskId);
      forall id, k: nat | k < |Accepted(Extended(run, r), id)| ensures LoggedAt(Extended(run, r), id, k) {
        AppendKeepsLogged(run, r, id, k);
      }
      forall key | key in Extended(run, r).store.journal ensures IsAccepted(Extended(run, r), key) {
        AppendKeepsKeys(run, r, key);
      }
      forall id ensures ViewsOk(Extended(run, r), id) {
        assert ViewsOk(run, id);
        AppendKeepsViews(run, r, id);
      }
    }
  }

  lemma {:induction false} AcceptedBounded(records: seq<(Record, int)>, id: string)
    ensures |Accepted(RunAll(records), id)| <= |records|
  {
    if records != [] {
      AcceptedBounded(records[..|records| - 1], id);
    }
  }

  lemma {:induction false} RunKeepsViews(records: seq<(Record, int)>)
    requires AutoNumbered(records) && |records| <= MAX_UINT64
    ensures RunOk(RunAll(records))
  {
    if records != [] {
      var front, last := records[..|records| - 1], records[|records| - 1];
      RunKeepsViews(front);
      AcceptedBounded(front, last.0.ctx.taskId);
      AppendKeepsRun(RunAll(front), last.0, last.1);
    }
  }

  ghost predicate StoredAsFold(run: Run, id: string) {
    var rs := Accepted(run, id);
    && !(id in run.store.active && id in run.store.history)
    && (rs == [] <==> id !in run.store.active && id !in run.store.history)
    && (id in run.store.active ==> rs != [] && run.store.active[id] == StoredTask(Fold(id, rs)))
    && (id in run.store.history ==> rs != [] && run.store.history[id] == StoredTask(Fold(id, rs)))
    && (id in run.store.history <==> rs != [] && rs[|rs| - 1].ctx.status in {"completed", "failed"})
    && forall k | 0 <= k < |rs| :: rs[k].sequence == k + 1
  }

  lemma ViewsAreFolds(run: Run, id: string)
    requires RunOk(run)
    ensures StoredAsFold(run, id)
  {
    assert ViewsOk(run, id);
    forall k | 0 <= k < |Accepted(run, id)| ensures Accepted(run, id)[k].sequence == k + 1 {
      assert LoggedAt(run, id, k);
    }
  }

  /** After any appends the stored task record is the fold of its accepted checkpoints, in one view only. */
  lemma StoredRecordIsFold(records: seq<(Record, int)>, id: string)
    requires AutoNumbered(records) && |records| <= MAX_UINT64
    ensures StoredAsFold(RunAll(records), id)
  {
    RunKeepsViews(records);
    ViewsAreFolds(RunAll(records), id);
  }

  lemma AppendKeepsStatus(run: Run, record: Record, now: int, id: string)
    requires RunOk(run) && id in run.store.history
    ensures id in AppendStep(run, record, now).store.history
    ensures AppendStep(run, record, now).store.history[id].ctx.status == run.store.history[id].ctx.status
  {
    assert ViewsOk(run, id);
  }

  /** Once a task is in history its terminal status never changes again. */
  lemma {:induction false} TerminalStatusIsFinal(records: seq<(Record, int)>, n: nat, id: string)
    requires AutoNumbered(records) && |records| <= MAX_UINT64 && n <= |records|
    requires id in RunAll(records[..n]).store.history
    ensures id in RunAll(records).store.history
    ensures IsTerminal(RunAll(records).store.history[id].ctx.status)
    ensures RunAll(records).store.history[id].ctx.status == RunAll(records[..n]).store.history[id].ctx.status
    decreases |records|
  {
    if n < |records| {
      var front, last := records[..|records| - 1], records[|records| - 1];
      assert front[..n] == records[..n];
      TerminalStatusIsFinal(front, n, id);
      RunKeepsViews(front);
      AppendKeepsStatus(RunAll(front), last.0, last.1, id);
    } else {
      assert records[..n] == records;
      RunKeepsViews(records);
      assert ViewsOk(RunAll(records), id);
    }
  }

  // ------------------------------------------------------- accepted and appended

  /** The checkpoint as logged is the one given, stamped if it had no time and numbered if it had no number. */
  predicate IsAppendOf(logged: Record, given: Record, now: int) {
    && logged == given.(timestamp := if given.timestamp == 0 then now else given.timestamp, sequence := logged.sequence)
    && (given.sequence != 0 ==> logged.sequence == given.sequence)
  }

  /** Once a terminal status is accepted, every later accepted one repeats it. */
  predicate Steady(rs: seq<Record>) {
    forall k, l | 0 <= k < l < |rs| && IsTerminal(rs[k].ctx.status) :: rs[l].ctx.status == rs[k].ctx.status
  }

  predicate EndedOtherwise(rs: seq<Record>, status: string) {
    exists k :: 0 <= k < |rs| && IsTerminal(rs[k].ctx.status) && rs[k].ctx.status != status
  }

  lemma RefusedExactly(run: Run, r: Record)
    requires ViewsOk(run, r.ctx.taskId) && Steady(Accepted(run, r.ctx.taskId))
    ensures Refused(run.store, r) <==> EndedOtherwise(Accepted(run, r.ctx.taskId), r.ctx.status)
  {
    var rs := Accepted(run, r.ctx.taskId);
    if EndedOtherwise(rs, r.ctx.status) {
      var k :| 0 <= k < |rs| && IsTerminal(rs[k].ctx.status) && rs[k].ctx.status != r.ctx.status;
      assert k < |rs| - 1 ==> rs[|rs| - 1].ctx.status == rs[k].ctx.status;
    }
  }

  /** Whatever numbers the checkpoints carry, each task sits in one view as a fold, and its ending is steady. */
  lemma {:induction false} RunKeepsSteady(records: seq<(Record, int)>, id: string)
    ensures ViewsOk(RunAll(records), id) && Steady(Accepted(RunAll(records), id))
  {
    if records != [] {
      var front, last := records[..|records| - 1], records[|records| - 1];
      var run, r := RunAll(front), last.0;
      RunKeepsSteady(front, id);
      if !IsBlank(r.ctx.taskId) && !Refused(run.store, r) {
        var logged := Finalised(run.store, r, last.1);
        AppendKeepsViews(run, logged, id);
        AcceptedAfter(run, logged, id);
        if id == r.ctx.taskId {
          RefusedExactly(run, r);
        }
      }
    }
  }

  /** The positions, in append order, of the accepted appends of a task. */
  ghost predicate AreTaken(records: seq<(Record, int)>, id: string, ps: seq<nat>, accepted: seq<Record>) {
    && |ps| == |accepted|
    && (forall k, l | 0 <= k < l < |ps| :: ps[k] < ps[l])
    && (forall k | 0 <= k < |ps| ::
          && ps[k] < |records| && records[ps[k]].0.ctx.taskId == id
          && IsAppendOf(accepted[k], records[ps[k]].0, records[ps[k]].1))
    && (forall i | 0 <= i < |records| && records[i].0.ctx.taskId == id ::
          i in ps <==> !IsBlank(id) && !EndedBefore(records, ps, i))
  }

  /** An accepted append before position `i` ended the task with another status than the one at `i`. */
  predicate EndedBefore(records: seq<(Record, int)>, ps: seq<nat>, i: nat)
    requires i < |records|
  {
    exists k :: && 0 <= k < |ps| && ps[k] < i
                && records[ps[k]].0.ctx.status in {"completed", "failed"} - {records[i].0.ctx.status}
  }

  lemma TakenStays(front: seq<(Record, int)>, last: (Record, int), id: string, ps: seq<nat>, accepted: seq<Record>)
    requires AreTaken(front, id, ps, accepted)
    requires last.0.ctx.taskId != id || IsBlank(id) || EndedOtherwise(accepted, last.0.ctx.status)
    ensures AreTaken(front + [last], id, ps, accepted)
  {
    var records := front + [last];
    forall i | 0 <= i < |records| && records[i].0.ctx.taskId == id
      ensures i in ps <==> !IsBlank(id) && !EndedBefore(records, ps, i)
    {
      if i < |front| {
        SameEnding(front, last, ps, i);
      } else if EndedOtherwise(accepted, last.0.ctx.status) {
        EndingIsEarlier(front, last, id, ps, accepted);
      }
    }
  }

  lemma SameEnding(front: seq<(Record, int)>, last: (Record, int), ps: seq<nat>, i: nat)
    requires i < |front|
    ensures EndedBefore(front + [last], ps, i) <==> EndedBefore(front, ps, i)
  {
    var records := front + [last];
    assert forall j | 0 <= j < |front| :: records[j] == front[j];
    if EndedBefore(front, ps, i) {
      var k :| && 0 <= k < |ps| && ps[k] < i
               && front[ps[k]].0.ctx.status in {"completed", "failed"} - {front[i].0.ctx.status};
      assert records[ps[k]] == front[ps[k]];
    }
  }

  lemma EndingIsEarlier(front: seq<(Record, int)>, last: (Record, int), id: string, ps: seq<nat>, accepted: seq<Record>)
    requires AreTaken(front, id, ps, accepted)
    ensures EndedBefore(front + [last], ps, |front|) <==> EndedOtherwise(accepted, last.0.ctx.status)
  {
    var records := front + [last];
    assert forall k | 0 <= k < |ps| :: records[ps[k]] == front[ps[k]] && accepted[k].ctx == front[ps[k]].0.ctx;
    if EndedOtherwise(accepted, last.0.ctx.status) {
      var k :| 0 <= k < |accepted| && IsTerminal(accepted[k].ctx.status) && accepted[k].ctx.status != last.0.ctx.status;
      assert records[ps[k]].0.ctx.status == accepted[k].ctx.status;
    }
  }

  lemma TakenGrows(front: seq<(Record, int)>, last: (Record, int), id: string, ps: seq<nat>, accepted: seq<Record>, logged: Record)
    requires AreTaken(front, id, ps, accepted) && last.0.ctx.taskId == id && !IsBlank(id)
    requires !EndedOtherwise(accepted, last.0.ctx.status) && IsAppendOf(logged, last.0, last.1)
    ensures AreTaken(front + [last], id, ps + [|front|], accepted + [logged])
  {
    var records, ps' := front + [last], ps + [|front|];
    EndingIsEarlier(front, last, id, ps, accepted);
    forall i | 0 <= i < |records| && records[i].0.ctx.taskId == id
      ensures i in ps' <==> !IsBlank(id) && !EndedBefore(records, ps', i)
    {
      LaterDoesNotEnd(records, ps, |front|, i);
      if i < |front| {
        SameEnding(front, last, ps, i);
        assert i in ps' <==> i in ps;
      }
    }
  }

  lemma LaterDoesNotEnd(records: seq<(Record, int)>, ps: seq<nat>, n: nat, i: nat)
    requires i <= n < |records|
    ensures EndedBefore(records, ps + [n], i) <==> EndedBefore(records, ps, i)
  {
    var ps' := ps + [n];
    if EndedBefore(records, ps, i) {
      var k :| && 0 <= k < |ps| && ps[k] < i
               && records[ps[k]].0.ctx.status in {"completed", "failed"} - {records[i].0.ctx.status};
      assert ps'[k] == ps[k];
    }
  }

  /**
   * After any appends, the accepted checkpoints of a task are the appended ones
   * in their order, each only stamped and numbered. An append is left out
   * exactly if its ID is blank or an earlier accepted one ended the task with
   * another status.
   */
  lemma {:induction false} AcceptedAreAppended(records: seq<(Record, int)>, id: string) returns (ps: seq<nat>)
    ensures AreTaken(records, id, ps, Accepted(RunAll(records), id))
  {
    if records == [] {
      ps := [];
    } else {
      var front, last := records[..|records| - 1], records[|records| - 1];
      assert records == front + [last];
      ps := AcceptedAreAppended(front, id);
      RunKeepsSteady(front, last.0.ctx.taskId);
      var run := RunAll(front);
      RefusedExactly(run, last.0);
      if last.0.ctx.taskId != id || IsBlank(id) || Refused(run.store, last.0) {
        TakenStays(front, last, id, ps, Accepted(run, id));
      } else {
        TakenGrows(front, last, id, ps, Accepted(run, id), Finalised(run.store, last.0, last.1));
        ps := ps + [|front|];
      }
    }
  }

  /** An automatic number is above every number logged for the task exactly unless the largest uint64 is logged. */
  lemma AutomaticNumberIsNextExactly(s: Store, r: Record, now: int)
    requires r.sequence == 0
    ensures var n, id := Finalised(s, r, now).sequence, r.ctx.taskId;
            && ((forall k | k in s.journal && ParseSequence(k, id).Some? :: ParseSequence(k, id).value < n) <==>
                  forall k | k in s.journal :: ParseSequence(k, id) != Some(MAX_UINT64))
            && (n > 1 ==> exists k :: k in s.journal && ParseSequence(k, id) == Some(n - 1))
  {
    var id := r.ctx.taskId;
    var m := MaxSequence(s.journal.Keys, id);
    MaxSequenceIsMaximum(s.journal.Keys, id);
    if m == MAX_UINT64 {
      var k :| k in s.journal.Keys && ParseSequence(k, id) == Some(m);
    }
  }

  /** Storing changes nothing but present empty maps, which become absent. */
  lemma StoringDropsOnlyEmptyMaps(r: Record, t: Task)
    ensures var stored := StoredRecord(r);
            && stored == r.(ctx := stored.ctx, outputs := if r.outputs == Some(map[]) then None else r.outputs)
            && OnlyEmptyDropped(r.ctx, stored.ctx)
    ensures StoredTask(t) == t.(ctx := StoredTask(t).ctx) && OnlyEmptyDropped(t.ctx, StoredTask(t).ctx)
  {
  }

  predicate OnlyEmptyDropped(c: Context, stored: Context) {
    && stored == c.(payload := if c.payload == Some(map[]) then None else c.payload, pipeline := stored.pipeline)
    && (stored.pipeline.Some? <==> c.pipeline.Some?)
    && (c.pipeline.Some? ==>
          && stored.pipeline.value.body == c.pipeline.value.body
          && stored.pipeline.value.outputs ==
               if c.pipeline.value.outputs == Some(map[]) then None else c.pipeline.value.outputs)
  }

  /** Completing a history record from an active one fills what the history record lacks and overwrites nothing. */
  lemma MergeFillsGaps(t: Task, active: Task, f: Field, key: string)
    ensures var m := MergeFromActive(t, active);
            && m.ctx.taskId == t.ctx.taskId && m.ctx.status == t.ctx.status
            && m.updatedAt == t.updatedAt && m.finalOutputs == t.finalOutputs
            && TextOf(m, f) == (if TextOf(t, f) != "" then TextOf(t, f) else TextOf(active, f))
            && m.ctx.payload == (if t.ctx.payload.Some? then t.ctx.payload else active.ctx.payload)
            && m.ctx.pipeline == (if t.ctx.pipeline.Some? then t.ctx.pipeline else active.ctx.pipeline)
            && Find(m.ctx.metadata, key) == (if key in t.ctx.metadata then Some(t.ctx.metadata[key]) else Find(active.ctx.metadata, key))
            && m.createdAt == (if t.createdAt != 0 then t.createdAt else active.createdAt)
            && m.currentStep == (if t.currentStep != 0 then t.currentStep else active.currentStep)
            && m.outputs == (if t.outputs != map[] then t.outputs else active.outputs)
  {
    assert t.outputs.Keys == {} <==> t.outputs == map[];
  }

  // -------------------------------------------------------- replaying the journal

  lemma ScannedIsOwn(run: Run, id: string, other: string, k: nat, key: string)
    requires JournalOk(run) && KeyOf(run, other, k, key) && SlashFree(other) && HasPrefix(key, id + ['/'])
    ensures other == id
  {
    assert LoggedAt(run, other, k);
    SlashFreeScan(id, other, k + 1);
  }

  /** A scan for a task sees nothing of other tasks, if their IDs contain no slash. */
  lemma ScanIsExactWithoutSlashes(records: seq<(Record, int)>, id: string, key: string)
    requires AutoNumbered(records) && |records| <= MAX_UINT64
    requires forall i | 0 <= i < |records| :: SlashFree(records[i].0.ctx.taskId)
    requires key in RunAll(records).store.journal && HasPrefix(key, id + ['/'])
    ensures OwnKey(RunAll(records), id, key)
  {
    RunKeepsViews(records);
    assert IsAccepted(RunAll(records), key);
    var other, k: nat :| KeyOf(RunAll(records), other, k, key);
    AcceptedIdsAreGiven(records, other);
    var i :| 0 <= i < |records| && records[i].0.ctx.taskId == other;
    ScannedIsOwn(RunAll(records), id, other, k, key);
  }

  lemma {:induction false} AcceptedIdsAreGiven(records: seq<(Record, int)>, id: string)
    requires Accepted(RunAll(records), id) != []
    ensures exists i :: 0 <= i < |records| && records[i].0.ctx.taskId == id
  {
    var front, last := records[..|records| - 1], records[|records| - 1];
    if last.0.ctx.taskId != id {
      AcceptedIdsAreGiven(front, id);
      var i :| 0 <= i < |front| && front[i].0.ctx.taskId == id;
      assert records[i] == front[i];
    }
  }

  /** A strictly ascending list whose sequences are exactly 1 to n is in the order of 1 to n. */
  lemma {:induction false} AscendingIsCounting(records: seq<Record>, n: nat, i: nat)
    requires StrictlyAscending(records) && i < |records|
    requires forall r | r in records :: 1 <= r.sequence <= n
    requires forall v | 1 <= v <= n :: HasSequence(records, v)
    ensures records[i].sequence == i + 1 <= n
  {
    if i > 0 {
      AscendingIsCounting(records, n, i - 1);
    }
    assert records[i] in records;
    assert HasSequence(records, i + 1);
    var r :| r in records && r.sequence == i + 1;
    var j :| 0 <= j < |records| && records[j] == r;
    assert j >= i;
  }

  ghost predicate HasSequence(records: seq<Record>, v: nat) {
    exists r :: r in records && r.sequence == v
  }

  /** The scan of a task's prefix meets only keys of accepted checkpoints of that task. */
  ghost predicate ScanIsOwn(run: Run, id: string) {
    forall key | key in Scanned(run.store.journal, id) :: OwnKey(run, id, key)
  }

  lemma OwnScanIsDistinct(run: Run, id: string)
    requires JournalOk(run) && ScanIsOwn(run, id)
    ensures DistinctSequences(run.store.journal, id)
  {
    var journal := run.store.journal;
    forall a, b | a in Scanned(journal, id) && b in Scanned(journal, id) && a != b
      ensures journal[a].sequence != journal[b].sequence
    {
      assert OwnKey(run, id, a) && OwnKey(run, id, b);
      var k: nat :| KeyOf(run, id, k, a);
      var l: nat :| KeyOf(run, id, l, b);
      assert LoggedAt(run, id, k) && LoggedAt(run, id, l);
    }
  }

  lemma OwnKeyIsAccepted(run: Run, id: string, key: string)
    requires AllLogged(run) && OwnKey(run, id, key)
    ensures key in run.store.journal
    ensures var r := run.store.journal[key];
            1 <= r.sequence <= |Accepted(run, id)| && r == StoredRecord(Accepted(run, id)[r.sequence - 1])
  {
    var k: nat :| KeyOf(run, id, k, key);
    assert LoggedAt(run, id, k);
  }

  lemma ReadIsAccepted(run: Run, id: string, r: Record)
    requires AllLogged(run) && ScanIsOwn(run, id) && InJournal(run.store.journal, Scanned(run.store.journal, id), r)
    ensures 1 <= r.sequence <= |Accepted(run, id)| && r == StoredRecord(Accepted(run, id)[r.sequence - 1])
  {
    var key :| key in Scanned(run.store.journal, id) && key in run.store.journal && run.store.journal[key] == r;
    assert OwnKey(run, id, key);
    OwnKeyIsAccepted(run, id, key);
  }

  lemma AcceptedIsRead(run: Run, id: string, records: seq<Record>, k: nat)
    requires JournalOk(run) && IsJournalOf(run.store.journal, id, records) && k < |Accepted(run, id)|
    ensures StoredRecord(Accepted(run, id)[k]) in records && Accepted(run, id)[k].sequence == k + 1
  {
    assert LoggedAt(run, id, k);
    ScanMeetsExactly(id, id, k + 1);
    assert JournalKey(id, k + 1) in Scanned(run.store.journal, id);
    assert InJournal(run.store.journal, Scanned(run.store.journal, id), StoredRecord(Accepted(run, id)[k]));
  }

  /** What a read of a task's journal returns: its accepted checkpoints as stored, in order. */
  lemma ReadReturnsAccepted(run: Run, id: string, records: seq<Record>)
    requires JournalOk(run) && ScanIsOwn(run, id) && IsJournalOf(run.store.journal, id, records)
    ensures records == StoredRecords(Accepted(run, id))
  {
    var n := |Accepted(run, id)|;
    OwnScanIsDistinct(run, id);
    forall r | r in records ensures 1 <= r.sequence <= n && r == StoredRecord(Accepted(run, id)[r.sequence - 1]) {
      assert InJournal(run.store.journal, Scanned(run.store.journal, id), r);
      ReadIsAccepted(run, id, r);
    }
    forall v: nat | 1 <= v <= n ensures HasSequence(records, v) {
      AcceptedIsRead(run, id, records, v - 1);
    }
    CountingIsComplete(records, StoredRecords(Accepted(run, id)));
  }

  lemma CountingIsComplete(records: seq<Record>, all: seq<Record>)
    requires StrictlyAscending(records)
    requires forall r | r in records :: 1 <= r.sequence <= |all| && r == all[r.sequence - 1]
    requires forall v | 1 <= v <= |all| :: HasSequence(records, v)
    ensures records == all
  {
    forall i: nat | i < |records| ensures records[i].sequence == i + 1 <= |all| && records[i] == all[i] {
      AscendingIsCounting(records, |all|, i);
      assert records[i] in records;
    }
    if |records| > 0 {
      assert records[|records| - 1].sequence <= |all|;
    }
    if |all| > 0 {
      assert HasSequence(records, |all|);
      var r :| r in records && r.sequence == |all|;
      var i :| 0 <= i < |records| && records[i] == r;
    }
  }

  lemma SlashFreeScanIsOwn(records: seq<(Record, int)>, id: string)
    requires AutoNumbered(records) && |records| <= MAX_UINT64
    requires forall i | 0 <= i < |records| :: SlashFree(records[i].0.ctx.taskId)
    ensures ScanIsOwn(RunAll(records), id)
  {
    forall key | key in Scanned(RunAll(records).store.journal, id) ensures OwnKey(RunAll(records), id, key) {
      ScanIsExactWithoutSlashes(records, id, key);
    }
  }

  /** For IDs without slashes, reading the journal after any appends gives the accepted checkpoints in order. */
  lemma JournalReadsBack(records: seq<(Record, int)>, id: string, read: seq<Record>)
    requires AutoNumbered(records) && |records| <= MAX_UINT64
    requires forall i | 0 <= i < |records| :: SlashFree(records[i].0.ctx.taskId)
    requires IsJournalOf(RunAll(records).store.journal, id, read)
    ensures read == StoredRecords(Accepted(RunAll(records), id))
  {
    RunKeepsViews(records);
    SlashFreeScanIsOwn(records, id);
    ReadReturnsAccepted(RunAll(records), id, read);
  }

  /** So a read gives the appended checkpoints of the task that were not left out, as stored, numbered from one. */
  lemma ReadGivesAppended(records: seq<(Record, int)>, id: string, read: seq<Record>) returns (ps: seq<nat>)
    requires AutoNumbered(records) && |records| <= MAX_UINT64
    requires forall i | 0 <= i < |records| :: SlashFree(records[i].0.ctx.taskId)
    requires IsJournalOf(RunAll(records).store.journal, id, read)
    ensures AreTaken(records, id, ps, Accepted(RunAll(records), id)) && |ps| == |read|
    ensures forall k | 0 <= k < |ps| ::
              var given, now := records[ps[k]].0, records[ps[k]].1;
              read[k] == StoredRecord(given.(sequence := k + 1, timestamp := if given.timestamp == 0 then now else given.timestamp))
  {
    JournalReadsBack(records, id, read);
    StoredRecordIsFold(records, id);
    ps := AcceptedAreAppended(records, id);
  }

  /** Whether applying the re-read checkpoint gives the same stored task as applying the original. */
  predicate ReplayAgrees(t: Task, r: Record) {
    && (r.ctx.payload == Some(map[]) ==> Omit(t.ctx.payload).None?)
    && (r.outputs == Some(map[]) ==>
          && (IsTerminal(r.ctx.status) ==> t.finalOutputs == map[])
          && (r.stepId != "" ==>
                var outs := t.outputs + PipelineOutputs(r);
                r.stepId in outs && outs[r.stepId] == map[]))
  }

  lemma OutputsReplay(t: Task, r: Record)
    requires r.outputs == Some(map[]) && r.stepId != ""
    ensures OutputsAfter(t, StoredRecord(r)) == OutputsAfter(t, r) <==>
            var outs := t.outputs + PipelineOutputs(r);
            r.stepId in outs && outs[r.stepId] == map[]
  {
    var outs := t.outputs + PipelineOutputs(r);
    assert OutputsAfter(t, StoredRecord(r)) == outs;
    assert OutputsAfter(t, r) == outs[r.stepId := map[]];
    assert outs[r.stepId := map[]][r.stepId] == map[];
  }

  lemma ContextReplay(t: Task, r: Record)
    ensures StoredTask(Apply(t, StoredRecord(r))).ctx == StoredTask(Apply(t, r)).ctx <==>
            (r.ctx.payload == Some(map[]) ==> Omit(t.ctx.payload).None?)
  {
    var a, b := StoredTask(Apply(t, StoredRecord(r))).ctx, StoredTask(Apply(t, r)).ctx;
    assert a == b.(payload := a.payload);
  }

  /** Replay agrees exactly when the checkpoint does not clear something by a present but empty map. */
  lemma ReplayAgreesExactly(t: Task, r: Record)
    ensures StoredTask(Apply(t, StoredRecord(r))) == StoredTask(Apply(t, r)) <==> ReplayAgrees(t, r)
  {
    var a, b := StoredTask(Apply(t, StoredRecord(r))), StoredTask(Apply(t, r));
    assert a == b.(ctx := a.ctx, outputs := a.outputs, finalOutputs := a.finalOutputs);
    assert t.outputs + PipelineOutputs(StoredRecord(r)) == t.outputs + PipelineOutputs(r);
    ContextReplay(t, r);
    if r.outputs == Some(map[]) && r.stepId != "" {
      OutputsReplay(t, r);
    }
  }

  /** Checkpoints that never carry an empty map can be replayed from the journal. */
  predicate NoEmptyMaps(r: Record) {
    r.ctx.payload != Some(map[]) && r.outputs != Some(map[])
  }

  function StoredRecords(rs: seq<Record>): (stored: seq<Record>)
    ensures |stored| == |rs| && forall i | 0 <= i < |rs| :: stored[i] == StoredRecord(rs[i])
  {
    if rs == [] then [] else StoredRecords(rs[..|rs| - 1]) + [StoredRecord(rs[|rs| - 1])]
  }

  lemma ReplayStep(a: Task, b: Task, r: Record)
    requires StoredTask(a) == StoredTask(b) && NoEmptyMaps(r)
    ensures StoredTask(Apply(a, StoredRecord(r))) == StoredTask(Apply(b, r))
  {
    StoreCommutesWithApply(a, StoredRecord(r));
    StoreCommutesWithApply(b, StoredRecord(r));
    ReplayAgreesExactly(b, r);
  }

  lemma {:induction false} ReplayOfJournalIsStoredRecord(id: string, rs: seq<Record>)
    requires rs != [] && forall i | 0 <= i < |rs| :: NoEmptyMaps(rs[i])
    ensures StoredTask(Fold(id, StoredRecords(rs))) == StoredTask(Fold(id, rs))
  {
    var n := |rs| - 1;
    var stored := StoredRecords(rs);
    assert stored[..n] == StoredRecords(rs[..n]);
    if n == 0 {
      var t := NewTask(id, rs[0].timestamp);
      ReplayStep(t, t, rs[0]);
    } else {
      ReplayOfJournalIsStoredRecord(id, rs[..n]);
      ReplayStep(Fold(id, stored[..n]), Fold(id, rs[..n]), rs[n]);
    }
  }

  lemma {:induction false} AcceptedHaveNoEmptyMaps(records: seq<(Record, int)>, id: string)
    requires forall i | 0 <= i < |records| :: NoEmptyMaps(records[i].0)
    ensures forall k | 0 <= k < |Accepted(RunAll(records), id)| :: NoEmptyMaps(Accepted(RunAll(records), id)[k])
  {
    if records != [] {
      var last := records[|records| - 1];
      AcceptedHaveNoEmptyMaps(records[..|records| - 1], id);
      AppendHasNoEmptyMaps(RunAll(records[..|records| - 1]), last.0, last.1, id);
    }
  }

  lemma AppendHasNoEmptyMaps(run: Run, record: Record, now: int, id: string)
    requires NoEmptyMaps(record)
    requires forall k | 0 <= k < |Accepted(run, id)| :: NoEmptyMaps(Accepted(run, id)[k])
    ensures var run' := AppendStep(run, record, now);
            forall k | 0 <= k < |Accepted(run', id)| :: NoEmptyMaps(Accepted(run', id)[k])
  {
    var run' := AppendStep(run, record, now);
    assert NoEmptyMaps(Finalised(run.store, record, now));
    forall k | 0 <= k < |Accepted(run', id)| ensures NoEmptyMaps(Accepted(run', id)[k]) {
      if k < |Accepted(run, id)| {
        assert Accepted(run', id)[k] == Accepted(run, id)[k];
      }
    }
  }

  /** Folding what a read of the journal returns gives the stored task record. */
  lemma ReplayGivesStoredTask(records: seq<(Record, int)>, id: string, read: seq<Record>)
    requires AutoNumbered(records) && |records| <= MAX_UINT64
    requires forall i | 0 <= i < |records| :: SlashFree(records[i].0.ctx.taskId) && NoEmptyMaps(records[i].0)
    requires IsJournalOf(RunAll(records).store.journal, id, read)
    ensures var s := RunAll(records).store;
            && (read == [] <==> id !in s.active && id !in s.history)
            && (id in s.active ==> read != [] && s.active[id] == StoredTask(Fold(id, read)))
            && (id in s.history ==> read != [] && s.history[id] == StoredTask(Fold(id, read)))
  {
    JournalReadsBack(records, id, read);
    StoredRecordIsFold(records, id);
    AcceptedHaveNoEmptyMaps(records, id);
    if read != [] {
      ReplayOfJournalIsStoredRecord(id, Accepted(RunAll(records), id));
    }
  }

  /** A checkpoint with an empty payload clears the stored payload, but its journal record does not. */
  lemma EmptyPayloadIsNotReplayed()
    ensures exists rs: seq<Record> :: rs != [] && StoredTask(Fold("t", StoredRecords(rs))) != StoredTask(Fold("t", rs))
  {
    var ctx := Context("t", "", "running", "", "", "", Some(map["a" := "b"]), "", None, map[]);
    var r1, r2 := Record(ctx, 1, 1, "", 0, None), Record(ctx.(payload := Some(map[])), 2, 2, "", 0, None);
    FoldSnoc("t", [r1], r2);
    FoldSnoc("t", [StoredRecord(r1)], StoredRecord(r2));
    assert StoredRecords([r1, r2]) == [StoredRecord(r1)] + [StoredRecord(r2)];
    assert [r1, r2] == [r1] + [r2];
    var kept, lost := Fold("t", [StoredRecord(r1)] + [StoredRecord(r2)]), Fold("t", [r1] + [r2]);
    assert kept.ctx.payload == Some(map["a" := "b"]) by {
      assert "a" in map["a" := "b"].Keys;
    }
    assert StoredTask(kept).ctx.payload != StoredTask(lost).ctx.payload;
  }
}
