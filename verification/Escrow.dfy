/**
 * Coordinator escrow: tasks parked for want of a node, taken out by resumers
 * that may run concurrently, and put back when handing them over fails.
 */
module Escrow {
  import opened Common

  datatype Request = Request(taskId: string, step: int, body: string)

  /** How an attempt to resume a task ends: what it finds before taking it, and whether handing over succeeds. */
  datatype Attempt =
    | NotInEscrow | NoSchema | StepOutOfBounds | NoCandidate
    | SubmitFails                              // this node is the target and refuses the task
    | DispatchFails                            // another node is the target and is not reached
    | HandsOver(target: string, queued: bool)  // `queued`: this node's own queue took the task

  /** The attempts that would not end for want of a candidate, by request. */
  type World = map<Request, Attempt>

  function Outcome(world: World, request: Request): Attempt {
    if request in world then world[request] else NoCandidate
  }

  predicate IsEarly(a: Attempt) {
    a.NoSchema? || a.StepOutOfBounds? || a.NoCandidate?
  }

  predicate Keyed(escrow: map<string, Request>) {
    forall k | k in escrow :: escrow[k].taskId == k
  }

  predicate HandsOverAt(world: World, escrow: map<string, Request>, id: string) {
    id in escrow && Outcome(world, escrow[id]).HandsOver?
  }

  class Coordinator {
    var escrow: map<string, Request>
    var producers: map<string, string>
    var handedOver: set<Request>
    var checkpoints: seq<Request>
    var accepted: set<string>

    constructor ()
      ensures escrow == map[] && producers == map[] && handedOver == {} && checkpoints == [] && accepted == {}
    {
      escrow, producers, handedOver, checkpoints, accepted := map[], map[], {}, [], {};
    }

    /** A repeat at the same step is not journalled again; a failing journal leaves escrow as it was. */
    method PutTaskInEscrow(request: Request, journalWorks: bool) returns (ok: bool)
      modifies this`escrow, this`checkpoints
      ensures var repeated := request.taskId in old(escrow) && old(escrow)[request.taskId].step == request.step;
              && ok == (request.taskId != "" && (repeated || journalWorks))
              && checkpoints == old(checkpoints) + (if ok && !repeated then [request] else [])
      ensures escrow == if ok then old(escrow)[request.taskId := request] else old(escrow)
    {
      if request.taskId == "" {
        return false;
      }
      var repeated := request.taskId in escrow && escrow[request.taskId].step == request.step;
      if !repeated {
        if !journalWorks {
          return false;
        }
        checkpoints := checkpoints + [request];
      }
      escrow := escrow[request.taskId := request];
      return true;
    }

    method RevertEscrow(request: Request, previous: Option<string>)
      modifies this`escrow, this`producers
      ensures escrow == old(escrow)[request.taskId := request]
      ensures producers == if previous.Some? then old(producers)[request.taskId := previous.value]
                           else old(producers) - {request.taskId}
    {
      escrow := escrow[request.taskId := request];
      if previous.Some? {
        producers := producers[request.taskId := previous.value];
      } else {
        producers := producers - {request.taskId};
      }
    }

    /** Either the task is handed over and leaves escrow, or everything is as before, but for a failed local submit. */
    method ResumeEscrowTask(id: string, world: World, candidate: string) returns (result: Attempt)
      requires Keyed(escrow)
      modifies this
      ensures result == if id in old(escrow) then Outcome(world, old(escrow)[id]) else NotInEscrow
      ensures checkpoints == old(checkpoints)
      ensures if HandsOverAt(world, old(escrow), id) then
                && escrow == old(escrow) - {id}
                && handedOver == old(handedOver) + {old(escrow)[id]}
                && producers == old(producers)[id := result.target]
              else
                escrow == old(escrow) && handedOver == old(handedOver) && producers == old(producers)
      ensures accepted == if result.SubmitFails? || (result.HandsOver? && !result.queued) then old(accepted) - {id}
                          else if result.HandsOver? then old(accepted) + {id}
                          else old(accepted)
    {
      if id !in escrow {
        return NotInEscrow;
      }
      var request := escrow[id];
      result := Outcome(world, request);
      if IsEarly(result) || result.NotInEscrow? {
        return result;
      }
      escrow := escrow - {id};
      var previous := if id in producers then Some(producers[id]) else None;
      producers := producers[id := if result.HandsOver? then result.target else candidate];
      if result.SubmitFails? {
        accepted := accepted - {id};
      }
      if !result.HandsOver? {
        RevertEscrow(request, previous);
        assert old(escrow) == (old(escrow) - {id})[id := request];
        return result;
      }
      accepted := if result.queued then accepted + {id} else accepted - {id};
      handedOver := handedOver + {request};
    }

    /** One pass over escrow hands over exactly the tasks that can be, and leaves exactly the others. */
    method WakeupEscrowTasks(world: World, candidate: string) returns (resumed: nat)
      requires Keyed(escrow)
      modifies this
      ensures Swept(world, old(escrow), escrow, old(escrow).Keys)
      ensures Delivered(world, old(escrow), old(handedOver), handedOver, old(escrow).Keys)
      ensures resumed == |Movable(world, old(escrow), old(escrow).Keys)|
    {
      var todo := escrow.Keys;
      resumed := 0;
      ghost var start := escrow;
      while todo != {}
        invariant todo <= start.Keys && Keyed(start)
        invariant Sweeping(world, start, escrow, old(handedOver), handedOver, resumed, start.Keys - todo)
        decreases |todo|
      {
        var id :| id in todo;
        SweptMeans(world, start, escrow, start.Keys - todo, id);
        ghost var escrow0, handed0, resumed0 := escrow, handedOver, resumed;
        var result := ResumeEscrowTask(id, world, candidate);
        if result.HandsOver? {
          resumed := resumed + 1;
        }
        SweepStep(world, start, escrow0, escrow, old(handedOver), handed0, handedOver, resumed0, resumed, start.Keys - todo, id);
        DoneGrows(start.Keys, todo, id);
        todo := todo - {id};
      }
      assert start.Keys - {} == start.Keys;
    }
  }

  lemma DoneGrows(all: set<string>, todo: set<string>, id: string)
    requires id in todo && todo <= all
    ensures all - todo + {id} == all - (todo - {id}) && |todo - {id}| < |todo|
  {
  }

  /** Part way through a pass: what has left escrow, what was handed over, and how many. */
  ghost predicate Sweeping(world: World, start: map<string, Request>, escrow: map<string, Request>,
                           before: set<Request>, after: set<Request>, resumed: nat, done: set<string>) {
    Swept(world, start, escrow, done) && Delivered(world, start, before, after, done) && resumed == |Movable(world, start, done)|
  }

  lemma SweepStep(world: World, start: map<string, Request>, escrow0: map<string, Request>, escrow: map<string, Request>,
                  before: set<Request>, handed0: set<Request>, handed: set<Request>, resumed0: nat, resumed: nat,
                  done: set<string>, id: string)
    requires Sweeping(world, start, escrow0, before, handed0, resumed0, done) && id in start && id !in done && start[id].taskId == id
    requires escrow == if HandsOverAt(world, start, id) then escrow0 - {id} else escrow0
    requires handed == if HandsOverAt(world, start, id) then handed0 + {start[id]} else handed0
    requires resumed == if HandsOverAt(world, start, id) then resumed0 + 1 else resumed0
    ensures Sweeping(world, start, escrow, before, handed, resumed, done + {id})
  {
    SweepOne(world, start, escrow0, escrow, done, id);
    DeliverOne(world, start, before, handed0, handed, done, id);
    GrowMovable(world, start, done, id);
  }

  /** Of the IDs looked at, those that can be handed over have left escrow; nothing else has changed. */
  ghost predicate Swept(world: World, start: map<string, Request>, escrow: map<string, Request>, done: set<string>) {
    forall id :: Find(escrow, id) == if id in done && HandsOverAt(world, start, id) then None else Find(start, id)
  }

  /** What was handed over in a sweep: the requests of the IDs looked at that can be. */
  ghost predicate Delivered(world: World, start: map<string, Request>, before: set<Request>, after: set<Request>, done: set<string>) {
    forall r :: r in after <==> r in before || (r.taskId in done && HandsOverAt(world, start, r.taskId) && start[r.taskId] == r)
  }

  lemma SweptMeans(world: World, start: map<string, Request>, escrow: map<string, Request>, done: set<string>, id: string)
    requires Swept(world, start, escrow, done) && id !in done && id in start
    requires Keyed(start)
    ensures id in escrow && escrow[id] == start[id] && Keyed(escrow)
  {
    assert Find(escrow, id) == Find(start, id);
    forall k | k in escrow ensures escrow[k].taskId == k {
      assert Find(escrow, k) == Find(start, k);
    }
  }

  lemma SweepOne(world: World, start: map<string, Request>, before: map<string, Request>, after: map<string, Request>, done: set<string>, id: string)
    requires Swept(world, start, before, done) && id in start
    requires after == if HandsOverAt(world, start, id) then before - {id} else before
    ensures Swept(world, start, after, done + {id})
  {
  }

  lemma DeliverOne(world: World, start: map<string, Request>, first: set<Request>, before: set<Request>, after: set<Request>, done: set<string>, id: string)
    requires Delivered(world, start, first, before, done) && id in start && start[id].taskId == id
    requires after == if HandsOverAt(world, start, id) then before + {start[id]} else before
    ensures Delivered(world, start, first, after, done + {id})
  {
  }

  function Find<V>(m: map<string, V>, id: string): Option<V> {
    if id in m then Some(m[id]) else None
  }

  function Movable(world: World, escrow: map<string, Request>, ids: set<string>): set<string> {
    set k | k in ids && HandsOverAt(world, escrow, k)
  }

  lemma GrowMovable(world: World, start: map<string, Request>, done: set<string>, id: string)
    requires id !in done
    ensures |Movable(world, start, done + {id})| == |Movable(world, start, done)| + (if HandsOverAt(world, start, id) then 1 else 0)
  {
    assert Movable(world, start, done + {id}) ==
           Movable(world, start, done) + (if HandsOverAt(world, start, id) then {id} else {});
  }

  // ------------------------------------------------- concurrent puts and resumers

  /** One parked request, told apart from any other by its ticket. */
  datatype Entry = Entry(ticket: nat, request: Request)

  /** Where a resumer is: it looks under the read lock, then takes under the write lock, then hands over or reverts. */
  datatype Phase = Idle | Looked(seen: Entry) | Holding(entry: Entry, step: int)

  /** A request given away, and the step it was worked on at. */
  datatype Handed = Handed(request: Request, step: int)

  datatype System = System(
    escrow: map<string, Entry>, resumers: map<nat, Phase>, tickets: nat,
    handed: map<nat, Handed>, replaced: set<nat>)

  datatype Step =
    | Put(request: Request)
    | Look(resumer: nat, taskId: string)
    | GiveUp(resumer: nat)
    | Take(resumer: nat)
    | HandOver(resumer: nat)
    | Revert(resumer: nat)

  const INIT := System(map[], map[], 0, map[], {})

  function PhaseOf(s: System, r: nat): Phase {
    if r in s.resumers then s.resumers[r] else Idle
  }

  predicate Enabled(s: System, step: Step) {
    match step
    case Put(request) => request.taskId != ""
    case Look(r, id) => PhaseOf(s, r).Idle? && id in s.escrow
    case GiveUp(r) => PhaseOf(s, r).Looked?
    case Take(r) => PhaseOf(s, r).Looked?
    case HandOver(r) => PhaseOf(s, r).Holding?
    case Revert(r) => PhaseOf(s, r).Holding?
  }

  /** Storing an entry under its task ID; whatever was there is replaced. */
  function Stored(s: System, e: Entry): System {
    var id := e.request.taskId;
    s.(escrow := s.escrow[id := e],
    replaced := if id in s.escrow then s.replaced + {s.escrow[id].ticket} else s.replaced)
  }

  function Next(s: System, step: Step): System
    requires Enabled(s, step)
  {
    match step
    case Put(request) => Stored(s, Entry(s.tickets, request)).(tickets := s.tickets + 1)
    case Look(r, id) => s.(resumers := s.resumers[r := Looked(s.escrow[id])])
    case GiveUp(r) => s.(resumers := s.resumers[r := Idle])
    case Take(r) =>
      var seen := PhaseOf(s, r).seen;
      var id := seen.request.taskId;
      if id in s.escrow then
        s.(escrow := s.escrow - {id}, resumers := s.resumers[r := Holding(s.escrow[id], seen.request.step)])
      else s.(resumers := s.resumers[r := Idle])
    case HandOver(r) =>
      var p := PhaseOf(s, r);
      s.(handed := s.handed[p.entry.ticket := Handed(p.entry.request, p.step)], resumers := s.resumers[r := Idle])
    case Revert(r) => Stored(s, PhaseOf(s, r).entry).(resumers := s.resumers[r := Idle])
  }

  ghost predicate IsRun(states: seq<System>, steps: seq<Step>) {
    && |states| == |steps| + 1 && states[0] == INIT
    && forall i | 0 <= i < |steps| :: Enabled(states[i], steps[i]) && states[i + 1] == Next(states[i], steps[i])
  }

  predicate Holds(s: System, r: nat, t: nat) {
    PhaseOf(s, r).Holding? && PhaseOf(s, r).entry.ticket == t
  }

  predicate Parked(s: System, id: string, t: nat) {
    id in s.escrow && s.escrow[id].ticket == t
  }

  ghost predicate IsParked(s: System, t: nat) {
    exists id :: Parked(s, id, t)
  }

  ghost predicate IsHeld(s: System, t: nat) {
    exists r :: Holds(s, r, t)
  }

  /** Every ticket is in exactly one place: parked once, held by one resumer, handed over, or replaced. */
  ghost predicate OnePlace(s: System, t: nat) {
    && (t < s.tickets <==> IsParked(s, t) || IsHeld(s, t) || t in s.handed || t in s.replaced)
    && (IsParked(s, t) ==> !IsHeld(s, t) && t !in s.handed && t !in s.replaced)
    && (IsHeld(s, t) ==> t !in s.handed && t !in s.replaced)
    && !(t in s.handed && t in s.replaced)
    && (forall r, q | Holds(s, r, t) && Holds(s, q, t) :: r == q)
    && (forall id, jd | Parked(s, id, t) && Parked(s, jd, t) :: id == jd)
  }

  ghost predicate Inv(s: System) {
    && (forall id | id in s.escrow :: s.escrow[id].request.taskId == id)
    && forall t :: OnePlace(s, t)
  }

  /** How a step changes where a ticket is parked and who holds it decides everything about its place. */
  lemma SamePlace(s: System, s': System, t: nat)
    requires OnePlace(s, t)
    requires forall id :: Parked(s', id, t) <==> Parked(s, id, t)
    requires forall r :: Holds(s', r, t) <==> Holds(s, r, t)
    requires (t < s'.tickets <==> t < s.tickets) && (t in s'.handed <==> t in s.handed)
    requires t in s'.replaced <==> t in s.replaced
    ensures OnePlace(s', t)
  {
    assert IsParked(s', t) <==> IsParked(s, t);
    assert IsHeld(s', t) <==> IsHeld(s, t);
  }

  lemma PutKeeps(s: System, request: Request, t: nat)
    requires Inv(s) && request.taskId != ""
    ensures OnePlace(Next(s, Put(request)), t)
  {
    var s', e, id := Next(s, Put(request)), Entry(s.tickets, request), request.taskId;
    assert OnePlace(s, t) && OnePlace(s, s.tickets);
    assert forall r :: Holds(s', r, t) <==> Holds(s, r, t);
    assert forall jd | jd != id :: Parked(s', jd, t) <==> Parked(s, jd, t);
    if t == s.tickets {
      assert Parked(s', id, t);
      assert !Parked(s, id, t) && forall jd :: !Parked(s, jd, t);
    } else if id in s.escrow && s.escrow[id].ticket == t {
      assert Parked(s, id, t) && forall jd :: !Parked(s', jd, t);
    } else {
      SamePlace(s, s', t);
    }
  }

  lemma TakeKeeps(s: System, r: nat, t: nat)
    requires Inv(s) && PhaseOf(s, r).Looked?
    ensures OnePlace(Next(s, Take(r)), t)
  {
    var s' := Next(s, Take(r));
    assert OnePlace(s, t);
    var id := PhaseOf(s, r).seen.request.taskId;
    if id in s.escrow && s.escrow[id].ticket == t {
      assert Parked(s, id, t) && Holds(s', r, t);
      assert forall jd :: Parked(s', jd, t) <==> jd != id && Parked(s, jd, t);
      assert forall q | q != r :: Holds(s', q, t) <==> Holds(s, q, t);
    } else {
      SamePlace(s, s', t);
    }
  }

  lemma HandOverKeeps(s: System, r: nat, t: nat)
    requires Inv(s) && PhaseOf(s, r).Holding?
    ensures OnePlace(Next(s, HandOver(r)), t)
  {
    var s' := Next(s, HandOver(r));
    assert OnePlace(s, t);
    if Holds(s, r, t) {
      assert forall q | q != r :: Holds(s', q, t) <==> Holds(s, q, t);
      assert forall id :: Parked(s', id, t) <==> Parked(s, id, t);
    } else {
      SamePlace(s, s', t);
    }
  }

  lemma RevertKeeps(s: System, r: nat, t: nat)
    requires Inv(s) && PhaseOf(s, r).Holding?
    ensures OnePlace(Next(s, Revert(r)), t)
  {
    var s', e := Next(s, Revert(r)), PhaseOf(s, r).entry;
    var id := e.request.taskId;
    assert OnePlace(s, t) && OnePlace(s, e.ticket) && Holds(s, r, e.ticket);
    assert forall jd | jd != id :: Parked(s', jd, t) <==> Parked(s, jd, t);
    if t == e.ticket {
      assert Parked(s', id, t);
      assert IsHeld(s, t) && !Parked(s, id, t) && forall jd :: !Parked(s, jd, t);
      assert forall q | q != r :: Holds(s', q, t) <==> Holds(s, q, t);
    } else if id in s.escrow && s.escrow[id].ticket == t {
      assert Parked(s, id, t) && forall jd :: !Parked(s', jd, t);
      assert forall q :: Holds(s', q, t) <==> Holds(s, q, t);
    } else {
      SamePlace(s, s', t);
    }
  }

  lemma NextKeepsInv(s: System, step: Step)
    requires Inv(s) && Enabled(s, step)
    ensures Inv(Next(s, step))
  {
    forall t ensures OnePlace(Next(s, step), t) {
      assert OnePlace(s, t);
      match step
      case Put(request) => PutKeeps(s, request, t);
      case Take(r) => TakeKeeps(s, r, t);
      case HandOver(r) => HandOverKeeps(s, r, t);
      case Revert(r) => RevertKeeps(s, r, t);
      case Look(_, _) => SamePlace(s, Next(s, step), t);
      case GiveUp(_) => SamePlace(s, Next(s, step), t);
    }
  }

  lemma {:induction false} RunKeepsInv(states: seq<System>, steps: seq<Step>, n: nat)
    requires IsRun(states, steps) && n < |states|
    ensures Inv(states[n])
  {
    if n == 0 {
      forall t ensures OnePlace(INIT, t) {
      }
    } else {
      RunKeepsInv(states, steps, n - 1);
      NextKeepsInv(states[n - 1], steps[n - 1]);
    }
  }

  /** In every run, each escrowed request is in exactly one place at every moment. */
  lemma EachRequestIsInOnePlace(states: seq<System>, steps: seq<Step>, n: nat, t: nat)
    requires IsRun(states, steps) && n < |states|
    ensures OnePlace(states[n], t)
  {
    RunKeepsInv(states, steps, n);
  }

  // --------------------------------------------------------- a ticket is its request

  /** Wherever the ticket is, it stands for this request. */
  ghost predicate StandsFor(s: System, t: nat, request: Request) {
    && t < s.tickets
    && (forall id | Parked(s, id, t) :: id == request.taskId && s.escrow[id].request == request)
    && (forall r | Holds(s, r, t) :: PhaseOf(s, r).entry.request == request)
    && (t in s.handed ==> s.handed[t].request == request)
  }

  lemma NextKeepsRequest(s: System, step: Step, t: nat, request: Request)
    requires Inv(s) && Enabled(s, step) && StandsFor(s, t, request)
    ensures StandsFor(Next(s, step), t, request)
  {
    var s' := Next(s, step);
    forall id | Parked(s', id, t) ensures id == request.taskId && s'.escrow[id].request == request {
      if step.Revert? && PhaseOf(s, step.resumer).entry.ticket == t {
        assert Holds(s, step.resumer, t);
      } else {
        assert Parked(s, id, t);
      }
    }
    forall r | Holds(s', r, t) ensures PhaseOf(s', r).entry.request == request {
      if step == Take(r) {
        assert Parked(s, PhaseOf(s, r).seen.request.taskId, t);
      } else {
        assert Holds(s, r, t);
      }
    }
    if step.HandOver? && t in s'.handed && t !in s.handed {
      assert Holds(s, step.resumer, t);
    }
  }

  /**
   * In every run each put gets a ticket of its own, and whoever later holds the
   * ticket, finds it parked or was handed it has exactly the request of that put.
   */
  lemma {:induction false} TicketCarriesItsRequest(states: seq<System>, steps: seq<Step>, i: nat, n: nat)
    requires IsRun(states, steps) && i < n < |states| && steps[i].Put?
    ensures StandsFor(states[n], states[i].tickets, steps[i].request)
    decreases n
  {
    var s, step := states[n - 1], steps[n - 1];
    RunKeepsInv(states, steps, n - 1);
    assert Enabled(s, step) && states[n] == Next(s, step);
    if i < n - 1 {
      TicketCarriesItsRequest(states, steps, i, n - 1);
      NextKeepsRequest(s, step, states[i].tickets, steps[i].request);
    } else {
      var t := s.tickets;
      assert OnePlace(s, t);
      forall r ensures !Holds(states[n], r, t) {
        assert Holds(states[n], r, t) <==> Holds(s, r, t);
      }
      forall id | Parked(states[n], id, t) ensures id == step.request.taskId {
        assert !Parked(s, id, t);
      }
    }
  }

  /** A hand-over gives away the request its resumer took, worked on at the step its look found, and nothing else. */
  lemma HandOverExactly(states: seq<System>, steps: seq<Step>, i: nat)
    requires IsRun(states, steps) && i < |steps| && steps[i].HandOver?
    ensures var p, s, s' := PhaseOf(states[i], steps[i].resumer), states[i], states[i + 1];
            && p.Holding? && p.entry.ticket !in s.handed && p.entry.ticket in s'.handed
            && s'.handed[p.entry.ticket] == Handed(p.entry.request, p.step)
            && (forall t | t in s.handed :: t in s'.handed && s'.handed[t] == s.handed[t])
            && s'.escrow == s.escrow && PhaseOf(s', steps[i].resumer).Idle?
  {
    RunKeepsInv(states, steps, i);
    assert Enabled(states[i], steps[i]) && states[i + 1] == Next(states[i], steps[i]);
    var t := PhaseOf(states[i], steps[i].resumer).entry.ticket;
    assert Holds(states[i], steps[i].resumer, t) && OnePlace(states[i], t);
  }

  // ------------------------------------------------------------ no task is lost

  predicate HoldsTask(s: System, r: nat, id: string) {
    PhaseOf(s, r).Holding? && PhaseOf(s, r).entry.request.taskId == id
  }

  /** The task is parked or held by a resumer. */
  ghost predicate TaskPresent(s: System, id: string) {
    id in s.escrow || exists r :: HoldsTask(s, r, id)
  }

  predicate HandsOverTask(s: System, step: Step, id: string) {
    step.HandOver? && HoldsTask(s, step.resumer, id)
  }

  /** A task leaves escrow and its resumers only by being handed over. */
  lemma NextKeepsTask(s: System, step: Step, id: string)
    requires Inv(s) && Enabled(s, step) && TaskPresent(s, id)
    ensures TaskPresent(Next(s, step), id) || HandsOverTask(s, step, id)
  {
    var s' := Next(s, step);
    if id in s.escrow {
      if step.Take? && id !in s'.escrow {
        assert HoldsTask(s', step.resumer, id);
      }
    } else {
      var r :| HoldsTask(s, r, id);
      if !(step.HandOver? && step.resumer == r) && !(step.Revert? && step.resumer == r) {
        assert HoldsTask(s', r, id);
      }
    }
  }

  /** Some request of the task was handed over in a stretch of the run. */
  ghost predicate HandedOverBetween(states: seq<System>, steps: seq<Step>, i: nat, n: nat, id: string)
    requires |states| == |steps| + 1 && n < |states|
  {
    exists m :: i < m < n && HandsOverTask(states[m], steps[m], id)
  }

  /** Whatever is replaced, after each put of a task it is parked or held, or it was handed over since that put. */
  lemma {:induction false} NoTaskIsLost(states: seq<System>, steps: seq<Step>, i: nat, n: nat)
    requires IsRun(states, steps) && i < n < |states| && steps[i].Put?
    ensures TaskPresent(states[n], steps[i].request.taskId) || HandedOverBetween(states, steps, i, n, steps[i].request.taskId)
    decreases n
  {
    var s, step := states[n - 1], steps[n - 1];
    assert Enabled(s, step) && states[n] == Next(s, step);
    if i < n - 1 {
      NoTaskIsLost(states, steps, i, n - 1);
      if TaskPresent(s, steps[i].request.taskId) {
        RunKeepsInv(states, steps, n - 1);
        NextKeepsTask(s, step, steps[i].request.taskId);
      }
    }
  }

  // -------------------------------------------------------- what stores, what is replaced

  /** The entry a step stores under its task ID: a put or a revert. */
  function StoredBy(s: System, step: Step): Option<Entry>
    requires Enabled(s, step)
  {
    match step
    case Put(request) => Some(Entry(s.tickets, request))
    case Revert(r) => Some(PhaseOf(s, r).entry)
    case _ => None
  }

  predicate StoresTask(s: System, step: Step, id: string) {
    Enabled(s, step) && StoredBy(s, step).Some? && StoredBy(s, step).value.request.taskId == id
  }

  /** A store onto a task that is parked. */
  predicate StoresOverParked(s: System, step: Step) {
    Enabled(s, step) && StoredBy(s, step).Some? && StoredBy(s, step).value.request.taskId in s.escrow
  }

  /** A step replaces a request exactly when it stores onto a parked task. */
  lemma ReplacesExactly(s: System, step: Step)
    requires Inv(s) && Enabled(s, step)
    ensures s.replaced <= Next(s, step).replaced
    ensures Next(s, step).replaced != s.replaced <==> StoresOverParked(s, step)
  {
    if StoresOverParked(s, step) {
      var id := StoredBy(s, step).value.request.taskId;
      var t := s.escrow[id].ticket;
      assert Parked(s, id, t) && IsParked(s, t) && OnePlace(s, t);
      assert t in Next(s, step).replaced;
    }
  }

  /** In a run no request was replaced exactly when no step stored onto a parked task; then each one is accounted for. */
  lemma {:induction false} NothingReplacedExactly(states: seq<System>, steps: seq<Step>, n: nat)
    requires IsRun(states, steps) && n < |states|
    ensures states[n].replaced == {} <==> forall i | 0 <= i < n :: !StoresOverParked(states[i], steps[i])
    ensures states[n].replaced == {} ==>
              forall t: nat | t < states[n].tickets :: IsParked(states[n], t) || IsHeld(states[n], t) || t in states[n].handed
  {
    RunKeepsInv(states, steps, n);
    if n > 0 {
      NothingReplacedExactly(states, steps, n - 1);
      RunKeepsInv(states, steps, n - 1);
      ReplacesExactly(states[n - 1], steps[n - 1]);
    }
    forall t: nat | t < states[n].tickets && states[n].replaced == {}
      ensures IsParked(states[n], t) || IsHeld(states[n], t) || t in states[n].handed
    {
      assert OnePlace(states[n], t);
    }
  }

  /** It does happen: a failing resumer puts its older request back over a newer one. */
  lemma RevertCanReplaceNewer(old1: Request, new1: Request)
    requires old1.taskId == new1.taskId != ""
    ensures exists states: seq<System>, steps: seq<Step> ::
              IsRun(states, steps) && |states| == 6 && Parked(states[5], old1.taskId, 0) && states[5].replaced == {1}
  {
    var steps := [Put(old1), Look(0, old1.taskId), Take(0), Put(new1), Revert(0)];
    var s1 := Next(INIT, steps[0]);
    var s2 := Next(s1, steps[1]);
    var s3 := Next(s2, steps[2]);
    var s4 := Next(s3, steps[3]);
    var s5 := Next(s4, steps[4]);
    assert IsRun([INIT, s1, s2, s3, s4, s5], steps);
    assert s5.replaced == {1};
    assert Parked([INIT, s1, s2, s3, s4, s5][5], old1.taskId, 0);
  }

  // ---------------------------------------------------- the step a resumer works on

  /** The last entry stored for a task in a stretch of a run. */
  ghost function LastStored(states: seq<System>, steps: seq<Step>, k: nat, i: nat, id: string): Option<Entry>
    requires IsRun(states, steps) && k <= i < |states|
  {
    if i == k then None
    else if StoresTask(states[i - 1], steps[i - 1], id) then StoredBy(states[i - 1], steps[i - 1])
    else LastStored(states, steps, k, i - 1, id)
  }

  /** What is parked is what was stored last, or what was there before. */
  lemma {:induction false} ParkedIsLastStored(states: seq<System>, steps: seq<Step>, k: nat, i: nat, id: string)
    requires IsRun(states, steps) && k <= i < |states| && id in states[i].escrow
    ensures var last := LastStored(states, steps, k, i, id);
            if last.Some? then states[i].escrow[id] == last.value
            else id in states[k].escrow && states[i].escrow[id] == states[k].escrow[id]
  {
    if k < i {
      var s, step := states[i - 1], steps[i - 1];
      assert Enabled(s, step) && states[i] == Next(s, step);
      if !StoresTask(s, step, id) {
        ParkedIsLastStored(states, steps, k, i - 1, id);
      }
    }
  }

  /** A resumer stays where its look left it until it moves itself. */
  lemma {:induction false} LookLasts(states: seq<System>, steps: seq<Step>, k: nat, i: nat, r: nat)
    requires IsRun(states, steps) && k < i < |states| && steps[k].Look? && steps[k].resumer == r
    requires forall m | k < m < i :: steps[m].Put? || steps[m].resumer != r
    ensures steps[k].taskId in states[k].escrow && PhaseOf(states[i], r) == Looked(states[k].escrow[steps[k].taskId])
  {
    assert Enabled(states[i - 1], steps[i - 1]) && states[i] == Next(states[i - 1], steps[i - 1]);
    if k < i - 1 {
      LookLasts(states, steps, k, i - 1, r);
    }
  }

  /**
   * Between a resumer's look at step k and its take at step i, the task may be
   * stored again. It then works on the step of the request it took exactly when
   * nothing was stored in between, or the last entry stored is at the step it saw.
   */
  lemma ResumerStepExactly(states: seq<System>, steps: seq<Step>, k: nat, i: nat, r: nat)
    requires IsRun(states, steps) && k < i < |steps|
    requires steps[k].Look? && steps[k].resumer == r && steps[i] == Take(r) && steps[k].taskId in states[i].escrow
    requires forall m | k < m < i :: steps[m].Put? || steps[m].resumer != r
    ensures var id := steps[k].taskId;
            && id in states[k].escrow
            && var last := LastStored(states, steps, k, i, id);
            && PhaseOf(states[i + 1], r).Holding?
            && (last.None? ==> PhaseOf(states[i + 1], r).entry == states[k].escrow[id])
            && (PhaseOf(states[i + 1], r).step == PhaseOf(states[i + 1], r).entry.request.step <==>
                  last.None? || last.value.request.step == states[k].escrow[id].request.step)
  {
    var id := steps[k].taskId;
    LookLasts(states, steps, k, i, r);
    RunKeepsInv(states, steps, k);
    ParkedIsLastStored(states, steps, k, i, id);
    assert Enabled(states[i], steps[i]) && states[i + 1] == Next(states[i], steps[i]);
  }

  /** The step is read before the entry is taken: a put in between leaves the resumer with the earlier step. */
  lemma TakenStepCanBeStale(old1: Request, new1: Request)
    requires old1.taskId == new1.taskId != "" && old1.step != new1.step
    ensures exists states: seq<System>, steps: seq<Step> ::
              IsRun(states, steps) && |states| == 5 && PhaseOf(states[4], 0) == Holding(Entry(1, new1), old1.step)
  {
    var steps := [Put(old1), Look(0, old1.taskId), Put(new1), Take(0)];
    var s1 := Next(INIT, steps[0]);
    var s2 := Next(s1, steps[1]);
    var s3 := Next(s2, steps[2]);
    var s4 := Next(s3, steps[3]);
    assert IsRun([INIT, s1, s2, s3, s4], steps);
    assert PhaseOf([INIT, s1, s2, s3, s4][4], 0) == Holding(Entry(1, new1), old1.step);
  }
}
