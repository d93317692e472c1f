/**
 * QUIC sessions and TLS generations. A reload starts a new generation and
 * drops every session; a session may only be published under the generation
 * whose TLS configuration authenticated it. Handshake callbacks, accepts,
 * dials, reloads, blocks and close interleave at every lock operation.
 */
module QuicSessions {
  import opened Common

  type Peer = string
  type Conn = nat

  /** A published session and the generation it was published under, if one was demanded. */
  datatype Session = Session(conn: Conn, expected: Option<nat>)

  datatype Manager = Manager(
    generation: nat,
    sessions: map<Peer, Session>,
    blocked: set<Peer>,
    handshakes: map<Conn, nat>,       // exporter key of the connection -> generation that verified it
    cancelled: bool)                  // the lifetime context is done

  const START := Manager(1, map[], {}, map[], false)

  // --------------------------------------------------------- the atomic regions

  predicate GenerationOk(m: Manager, expected: Option<nat>) {
    expected.Some? ==> m.generation == expected.value
  }

  /** The part of setSession under SessionsMu. */
  function Published(m: Manager, peer: Peer, session: Session): Manager {
    if peer in m.blocked then m else m.(sessions := m.sessions[peer := session])
  }

  function Rotated(m: Manager): Manager {
    m.(generation := m.generation + 1, handshakes := map[], sessions := map[])
  }

  function Blocked(m: Manager, peer: Peer): Manager {
    m.(blocked := m.blocked + {peer}, sessions := m.sessions - {peer})
  }

  function Allowed(m: Manager, peer: Peer): Manager {
    m.(blocked := m.blocked - {peer})
  }

  /** Blocking and allowing again leaves an unblocked peer as it was but without its session, and publishable. */
  lemma AllowUndoesBlock(m: Manager, peer: Peer, session: Session)
    requires peer !in m.blocked
    ensures Allowed(Blocked(m, peer), peer) == m.(sessions := m.sessions - {peer})
    ensures Published(Blocked(m, peer), peer, session) == Blocked(m, peer)
    ensures Published(Allowed(Blocked(m, peer), peer), peer, session) == Published(m, peer, session)
  {
    assert m.blocked + {peer} - {peer} == m.blocked;
    assert (m.sessions - {peer})[peer := session] == m.sessions[peer := session];
  }

  class QUICManager {
    var generation: nat
    var sessions: map<Peer, Session>
    var blockedPeers: set<Peer>
    var handshakeGen: map<Conn, nat>
    var cancelled: bool

    function Value(): Manager
      reads this
    {
      Manager(generation, sessions, blockedPeers, handshakeGen, cancelled)
    }

    constructor ()
      ensures Value() == START
    {
      generation, sessions, blockedPeers, handshakeGen, cancelled := 1, map[], {}, map[], false;
    }

    /** Undisturbed publication: refused under a stale generation, after close, or for a blocked peer. */
    method SetSession(peer: Peer, conn: Conn, expected: Option<nat>) returns (ok: bool)
      modifies this`sessions
      ensures ok == (GenerationOk(old(Value()), expected) && !cancelled && peer !in blockedPeers)
      ensures Value() == if ok then Published(old(Value()), peer, Session(conn, expected)) else old(Value())
    {
      if expected.Some? && generation != expected.value {
        return false;
      }
      if cancelled {
        return false;
      }
      if peer in blockedPeers {
        return false;
      }
      sessions := sessions[peer := Session(conn, expected)];
      return true;
    }

    method ConsumeHandshakeGeneration(conn: Conn) returns (verified: Option<nat>)
      modifies this`handshakeGen
      ensures verified == if conn in old(handshakeGen) then Some(old(handshakeGen)[conn]) else None
      ensures handshakeGen == old(handshakeGen) - {conn}
    {
      if conn !in handshakeGen {
        return None;
      }
      verified := Some(handshakeGen[conn]);
      handshakeGen := handshakeGen - {conn};
    }

    method BlockPeerSessions(peer: Peer)
      modifies this`blockedPeers, this`sessions
      ensures Value() == Blocked(old(Value()), peer)
    {
      blockedPeers := blockedPeers + {peer};
      if peer in sessions {
        sessions := sessions - {peer};
      }
    }

    method AllowPeerSessions(peer: Peer)
      modifies this`blockedPeers
      ensures Value() == Allowed(old(Value()), peer)
    {
      blockedPeers := blockedPeers - {peer};
    }

    /** A superseded route must not close a newer replacement. */
    method CloseSessionIf(peer: Peer, conn: Conn)
      modifies this`sessions
      ensures sessions == if peer in old(sessions) && old(sessions)[peer].conn == conn then old(sessions) - {peer}
                          else old(sessions)
    {
      if peer in sessions && sessions[peer].conn == conn {
        sessions := sessions - {peer};
      }
    }

    method ReloadTLS()
      modifies this
      ensures Value() == Rotated(old(Value()))
    {
      generation := generation + 1;
      handshakeGen := map[];
      sessions := map[];
    }

    method Close()
      modifies this
      ensures Value() == Rotated(old(Value())).(cancelled := true)
    {
      cancelled := true;
      ReloadTLS();
    }
  }

  // ------------------------------------------------------------- interleavings

  /** Where a goroutine stands. The two `Holding` points hold the TLS read lock. */
  datatype Pc =
    | HelloDone(conn: Conn, gen: nat)                                   // config of `gen` selected for the handshake
    | Checked(conn: Conn, gen: nat)                                     // `gen` was current, record pending
    | Publishing(peer: Peer, conn: Conn, expected: Option<nat>)         // about to call setSession
    | HoldingChecked(peer: Peer, conn: Conn, expected: Option<nat>)     // generation compared
    | HoldingAlive(peer: Peer, conn: Conn, expected: Option<nat>)       // context seen not done

  datatype System = System(
    m: Manager,
    threads: map<nat, Pc>,
    auth: map<Conn, nat>,       // history: the generation whose configuration authenticates each connection
    detached: bool)             // history: Close has dropped the sessions

  const INIT := System(START, map[], map[], false)

  datatype Step =
    | Hello(t: nat, conn: Conn)                     // inbound: snapshot the server configuration
    | Verify(t: nat)                                // inbound: the callback compares generations
    | Record(t: nat)                                // inbound: the callback stores the generation
    | Accept(t: nat, conn: Conn, peer: Peer)        // inbound: consume the record of an accepted connection
    | Dial(t: nat, conn: Conn, peer: Peer)          // outbound: snapshot the client configuration and dial
    | Publish(t: nat, conn: Conn, peer: Peer)       // exported SetSession, no generation demanded
    | CompareGeneration(t: nat)
    | CheckContext(t: nat)
    | StoreSession(t: nat)
    | Reload
    | Cancel
    | Detach
    | Block(peer: Peer)
    | Allow(peer: Peer)
    | Drop(peer: Peer)

  predicate Holds(pc: Pc) {
    pc.HoldingChecked? || pc.HoldingAlive?
  }

  predicate NoReader(s: System) {
    forall t | t in s.threads :: !Holds(s.threads[t])
  }

  predicate Enabled(s: System, step: Step) {
    match step
    case Hello(t, conn) => t !in s.threads && conn !in s.auth
    case Verify(t) => t in s.threads && s.threads[t].HelloDone?
    case Record(t) => t in s.threads && s.threads[t].Checked?
    case Accept(t, _, _) => t !in s.threads
    case Dial(t, conn, _) => t !in s.threads && conn !in s.auth
    case Publish(t, _, _) => t !in s.threads
    case CompareGeneration(t) => t in s.threads && s.threads[t].Publishing?
    case CheckContext(t) => t in s.threads && s.threads[t].HoldingChecked?
    case StoreSession(t) => t in s.threads && s.threads[t].HoldingAlive?
    case Reload => NoReader(s)
    case Cancel => true
    case Detach => NoReader(s) && s.m.cancelled
    case Block(_) => true
    case Allow(_) => true
    case Drop(_) => true
  }

  function At(s: System, t: nat, pc: Pc): System {
    s.(threads := s.threads[t := pc])
  }

  function Gone(s: System, t: nat): System {
    s.(threads := s.threads - {t})
  }

  function Next(s: System, step: Step): System
    requires Enabled(s, step)
  {
    match step
    case Hello(t, conn) => At(s, t, HelloDone(conn, s.m.generation)).(auth := s.auth[conn := s.m.generation])
    case Verify(t) =>
      var pc := s.threads[t];
      if s.m.generation == pc.gen then At(s, t, Checked(pc.conn, pc.gen)) else Gone(s, t)
    case Record(t) =>
      var pc := s.threads[t];
      Gone(s, t).(m := s.m.(handshakes := s.m.handshakes[pc.conn := pc.gen]))
    case Accept(t, conn, peer) =>
      if conn !in s.m.handshakes then s
      else At(s, t, Publishing(peer, conn, Some(s.m.handshakes[conn]))).(m := s.m.(handshakes := s.m.handshakes - {conn}))
    case Dial(t, conn, peer) =>
      At(s, t, Publishing(peer, conn, Some(s.m.generation))).(auth := s.auth[conn := s.m.generation])
    case Publish(t, conn, peer) => At(s, t, Publishing(peer, conn, None))
    case CompareGeneration(t) =>
      var pc := s.threads[t];
      if GenerationOk(s.m, pc.expected) then At(s, t, HoldingChecked(pc.peer, pc.conn, pc.expected)) else Gone(s, t)
    case CheckContext(t) =>
      var pc := s.threads[t];
      if s.m.cancelled then Gone(s, t) else At(s, t, HoldingAlive(pc.peer, pc.conn, pc.expected))
    case StoreSession(t) =>
      var pc := s.threads[t];
      Gone(s, t).(m := Published(s.m, pc.peer, Session(pc.conn, pc.expected)))
    case Reload => s.(m := Rotated(s.m))
    case Cancel => s.(m := s.m.(cancelled := true))
    case Detach => s.(m := Rotated(s.m), detached := true)
    case Block(peer) => s.(m := Blocked(s.m, peer))
    case Allow(peer) => s.(m := Allowed(s.m, peer))
    case Drop(peer) => s.(m := s.m.(sessions := s.m.sessions - {peer}))
  }

  // ---------------------------------------------------------------- invariant

  /** A demanded generation is always the one that authenticated the connection. */
  predicate Authentic(s: System, conn: Conn, expected: Option<nat>) {
    expected.Some? ==> conn in s.auth && s.auth[conn] == expected.value
  }

  predicate ThreadOk(s: System, pc: Pc) {
    match pc
    case HelloDone(conn, gen) => Authentic(s, conn, Some(gen))
    case Checked(conn, gen) => Authentic(s, conn, Some(gen))
    case Publishing(_, conn, expected) => Authentic(s, conn, expected)
    case HoldingChecked(_, conn, expected) => Authentic(s, conn, expected) && GenerationOk(s.m, expected)
    case HoldingAlive(_, conn, expected) => Authentic(s, conn, expected) && GenerationOk(s.m, expected) && !s.detached
  }

  ghost predicate ThreadsOk(s: System) {
    forall t | t in s.threads :: ThreadOk(s, s.threads[t])
  }

  ghost predicate ManagerOk(s: System) {
    && (forall c | c in s.m.handshakes :: Authentic(s, c, Some(s.m.handshakes[c])))
    && (forall p | p in s.m.sessions ::
          Authentic(s, s.m.sessions[p].conn, s.m.sessions[p].expected) && GenerationOk(s.m, s.m.sessions[p].expected))
    && s.m.sessions.Keys !! s.m.blocked
    && (s.detached ==> s.m.cancelled && s.m.sessions == map[])
  }

  ghost predicate Inv(s: System) {
    ThreadsOk(s) && ManagerOk(s)
  }

  lemma NextKeepsManager(s: System, step: Step)
    requires Inv(s) && Enabled(s, step)
    ensures ManagerOk(Next(s, step))
  {
    StepGrows(s, step);
  }

  lemma NextKeepsInv(s: System, step: Step)
    requires Inv(s) && Enabled(s, step)
    ensures Inv(Next(s, step))
  {
    NextKeepsManager(s, step);
    forall t | t in Next(s, step).threads ensures ThreadOk(Next(s, step), Next(s, step).threads[t]) {
      NextKeepsThread(s, step, t);
    }
  }

  /** A goroutine that a step does not move keeps its facts: a rotation waits for the readers. */
  lemma UnmovedKeeps(s: System, step: Step, pc: Pc)
    requires Enabled(s, step) && ThreadOk(s, pc) && (Holds(pc) ==> !Rotates(step))
    ensures ThreadOk(Next(s, step), pc)
  {
    StepGrows(s, step);
    StepMovesExactly(s, step);
  }

  lemma NextKeepsThread(s: System, step: Step, t: nat)
    requires Inv(s) && Enabled(s, step) && t in Next(s, step).threads
    ensures ThreadOk(Next(s, step), Next(s, step).threads[t])
  {
    assert t in s.threads ==> ThreadOk(s, s.threads[t]);
    if t in s.threads && Next(s, step).threads[t] == s.threads[t] {
      UnmovedKeeps(s, step, s.threads[t]);
    }
  }

  ghost predicate IsRun(states: seq<System>, steps: seq<Step>) {
    && |states| == |steps| + 1
    && states[0] == INIT
    && forall i | 0 <= i < |steps| :: Enabled(states[i], steps[i]) && states[i + 1] == Next(states[i], steps[i])
  }

  lemma {:induction false} RunKeepsInv(states: seq<System>, steps: seq<Step>, i: nat)
    requires IsRun(states, steps) && i < |states|
    ensures Inv(states[i])
  {
    if i > 0 {
      RunKeepsInv(states, steps, i - 1);
      assert Enabled(states[i - 1], steps[i - 1]) && states[i] == Next(states[i - 1], steps[i - 1]);
      NextKeepsInv(states[i - 1], steps[i - 1]);
    }
  }

  /** A session published under a generation was authenticated by it, and it is the current one. */
  lemma SessionsBelongToCurrentGeneration(states: seq<System>, steps: seq<Step>, i: nat, p: Peer)
    requires IsRun(states, steps) && i < |states|
    requires p in states[i].m.sessions && states[i].m.sessions[p].expected.Some?
    ensures var session := states[i].m.sessions[p];
            && session.expected.value == states[i].m.generation
            && session.conn in states[i].auth && states[i].auth[session.conn] == states[i].m.generation
  {
    RunKeepsInv(states, steps, i);
  }

  lemma BlockedPeersHaveNoSession(states: seq<System>, steps: seq<Step>, i: nat, p: Peer)
    requires IsRun(states, steps) && i < |states| && p in states[i].m.blocked
    ensures p !in states[i].m.sessions
  {
    RunKeepsInv(states, steps, i);
  }

  lemma {:induction false} DetachedForever(states: seq<System>, steps: seq<Step>, i: nat, j: nat)
    requires IsRun(states, steps) && i <= j < |states| && states[i].detached
    ensures states[j].detached
    decreases j
  {
    if i < j {
      DetachedForever(states, steps, i, j - 1);
      assert Enabled(states[j - 1], steps[j - 1]) && states[j] == Next(states[j - 1], steps[j - 1]);
    }
  }

  /** Once Close has dropped the sessions, none ever appears again. */
  lemma NoSessionAfterClose(states: seq<System>, steps: seq<Step>, i: nat, j: nat)
    requires IsRun(states, steps) && i <= j < |states| && states[i].detached
    ensures states[j].m.sessions == map[]
  {
    DetachedForever(states, steps, i, j);
    RunKeepsInv(states, steps, j);
  }

  /** A connection verified before a rotation is never published under a demanded generation after it. */
  lemma {:induction false} StaleHandshakeNeverPublished(
    states: seq<System>, steps: seq<Step>, i: nat, j: nat, conn: Conn, p: Peer)
    requires IsRun(states, steps) && i < j < |states|
    requires conn in states[i].auth && (steps[i].Reload? || steps[i].Detach?)
    requires p in states[j].m.sessions && states[j].m.sessions[p].conn == conn
    ensures states[j].m.sessions[p].expected.None?
  {
    RunKeepsInv(states, steps, i);
    RunKeepsInv(states, steps, j);
    assert Enabled(states[i], steps[i]) && states[i + 1] == Next(states[i], steps[i]);
    AuthBounded(states, steps, i);
    GenerationsGrow(states, steps, i, i + 1);
    GenerationsGrow(states, steps, i + 1, j);
  }

  lemma {:induction false} AuthBounded(states: seq<System>, steps: seq<Step>, i: nat)
    requires IsRun(states, steps) && i < |states|
    ensures forall c | c in states[i].auth :: states[i].auth[c] <= states[i].m.generation
  {
    if i > 0 {
      AuthBounded(states, steps, i - 1);
      assert Enabled(states[i - 1], steps[i - 1]) && states[i] == Next(states[i - 1], steps[i - 1]);
    }
  }

  /** The generation does not drop and nothing authorised is forgotten or changed. */
  predicate Grows(s: System, s': System) {
    s.m.generation <= s'.m.generation && forall c | c in s.auth :: c in s'.auth && s'.auth[c] == s.auth[c]
  }

  lemma StepGrows(s: System, step: Step)
    requires Enabled(s, step)
    ensures Grows(s, Next(s, step))
  {
  }

  lemma RunGrows(states: seq<System>, steps: seq<Step>, i: nat)
    requires IsRun(states, steps) && i < |steps|
    ensures Grows(states[i], states[i + 1])
  {
    assert Enabled(states[i], steps[i]) && states[i + 1] == Next(states[i], steps[i]);
    StepGrows(states[i], steps[i]);
  }

  lemma GrowsTransitive(a: System, b: System, c: System)
    requires Grows(a, b) && Grows(b, c)
    ensures Grows(a, c)
  {
  }

  lemma {:induction false} GenerationsGrow(states: seq<System>, steps: seq<Step>, i: nat, j: nat)
    requires IsRun(states, steps) && i <= j < |states|
    ensures Grows(states[i], states[j])
  {
    forall k: nat | k < |steps| ensures Grows(states[k], states[k + 1]) {
      RunGrows(states, steps, k);
    }
    GrowsAlong(states, i, j);
  }

  lemma {:induction false} GrowsAlong(states: seq<System>, i: nat, j: nat)
    requires i <= j < |states| && forall k: nat | k + 1 < |states| :: Grows(states[k], states[k + 1])
    ensures Grows(states[i], states[j])
    decreases j
  {
    if i < j {
      GrowsAlong(states, i, j - 1);
      GrowsTransitive(states[i], states[j - 1], states[j]);
    }
  }

  // ------------------------------------------------ what is published, and what goes on

  function Find<V>(m: map<string, V>, p: string): Option<V> {
    if p in m then Some(m[p]) else None
  }

  /**
   * In every run the session of a peer is what was last stored for it: a store
   * replaces it unless the peer is blocked; a rotation, a block or a drop of the
   * peer removes it; nothing else touches it.
   */
  lemma SessionMovesExactly(states: seq<System>, steps: seq<Step>, i: nat, p: Peer)
    requires IsRun(states, steps) && i < |steps|
    ensures var s, was, now := states[i], Find(states[i].m.sessions, p), Find(states[i + 1].m.sessions, p);
            match steps[i]
            case StoreSession(t) =>
              && t in s.threads && s.threads[t].HoldingAlive?
              && var pc := s.threads[t];
              now == if pc.peer == p && p !in s.m.blocked then Some(Session(pc.conn, pc.expected)) else was
            case Reload => now.None?
            case Detach => now.None?
            case Block(q) => now == if q == p then None else was
            case Drop(q) => now == if q == p then None else was
            case _ => now == was
    ensures p in states[i + 1].m.blocked <==> steps[i] == Block(p) || (p in states[i].m.blocked && steps[i] != Allow(p))
    ensures states[i + 1].m.cancelled <==> states[i].m.cancelled || steps[i].Cancel?
  {
    assert Enabled(states[i], steps[i]) && states[i + 1] == Next(states[i], steps[i]);
  }

  /** The goroutine goes on from a check, still carrying what it came with. */
  predicate GoesOn(s: System, s': System, t: nat) {
    && t in s.threads && t in s'.threads
    && match s.threads[t]
       case HelloDone(conn, gen) => s'.threads[t] == Checked(conn, gen)
       case Publishing(peer, conn, expected) => s'.threads[t] == HoldingChecked(peer, conn, expected)
       case HoldingChecked(peer, conn, expected) => s'.threads[t] == HoldingAlive(peer, conn, expected)
       case _ => false
  }

  /** Each check lets a goroutine go on exactly when what it checks holds, and ends it otherwise. */
  lemma ChecksExactly(states: seq<System>, steps: seq<Step>, i: nat)
    requires IsRun(states, steps) && i < |steps|
    ensures var s, s', step := states[i], states[i + 1], steps[i];
            && (step.Verify? ==>
                  && step.t in s.threads && s.threads[step.t].HelloDone?
                  && if s.threads[step.t].gen == s.m.generation then GoesOn(s, s', step.t) else step.t !in s'.threads)
            && (step.CompareGeneration? ==>
                  && step.t in s.threads && s.threads[step.t].Publishing?
                  && if GenerationOk(s.m, s.threads[step.t].expected) then GoesOn(s, s', step.t) else step.t !in s'.threads)
            && (step.CheckContext? ==> if !s.m.cancelled then GoesOn(s, s', step.t) else step.t !in s'.threads)
            && (step.Accept? ==>
                  if step.conn in s.m.handshakes then
                    && step.conn !in s'.m.handshakes && step.t in s'.threads
                    && s'.threads[step.t] == Publishing(step.peer, step.conn, Some(s.m.handshakes[step.conn]))
                  else s' == s)
  {
    assert Enabled(states[i], steps[i]) && states[i + 1] == Next(states[i], steps[i]);
  }

  /** A goroutine about to make its check stays there until it makes it. */
  predicate AwaitsCheck(s: System, t: nat, pc: Pc) {
    t in s.threads && s.threads[t] == pc
  }

  lemma AwaitStays(states: seq<System>, steps: seq<Step>, i: nat, t: nat, pc: Pc)
    requires IsRun(states, steps) && i < |steps| && AwaitsCheck(states[i], t, pc) && (pc.Publishing? || pc.HelloDone?)
    requires steps[i] != CompareGeneration(t) && steps[i] != Verify(t)
    ensures AwaitsCheck(states[i + 1], t, pc)
  {
    assert Enabled(states[i], steps[i]) && states[i + 1] == Next(states[i], steps[i]);
  }

  lemma {:induction false} AwaitLasts(states: seq<System>, steps: seq<Step>, i: nat, j: nat, t: nat, pc: Pc)
    requires IsRun(states, steps) && i <= j < |states| && AwaitsCheck(states[i], t, pc) && (pc.Publishing? || pc.HelloDone?)
    requires forall m | i <= m < j :: steps[m] != CompareGeneration(t) && steps[m] != Verify(t)
    ensures AwaitsCheck(states[j], t, pc)
    decreases j
  {
    if i < j {
      AwaitLasts(states, steps, i, j - 1, t, pc);
      AwaitStays(states, steps, j - 1, t, pc);
    }
  }

  /** What a goroutine has after it snapshotted a configuration: that configuration's generation. */
  lemma SnapshotGives(states: seq<System>, steps: seq<Step>, i: nat)
    requires IsRun(states, steps) && i < |steps| && (steps[i].Dial? || steps[i].Hello?)
    ensures var step, gen := steps[i], states[i].m.generation;
            AwaitsCheck(states[i + 1], step.t,
                        if step.Dial? then Publishing(step.peer, step.conn, Some(gen)) else HelloDone(step.conn, gen))
    ensures states[i + 1].m.generation == states[i].m.generation
  {
    assert Enabled(states[i], steps[i]) && states[i + 1] == Next(states[i], steps[i]);
  }

  /**
   * A connection dialled or greeted at step i passes its generation check at
   * step j exactly when no rotation fell in between.
   */
  lemma SnapshotPassesExactly(states: seq<System>, steps: seq<Step>, i: nat, j: nat)
    requires IsRun(states, steps) && i < j < |steps|
    requires (steps[i].Dial? && steps[j] == CompareGeneration(steps[i].t)) || (steps[i].Hello? && steps[j] == Verify(steps[i].t))
    requires forall m | i < m < j :: steps[m] != CompareGeneration(steps[i].t) && steps[m] != Verify(steps[i].t)
    ensures if forall m | i < m < j :: !Rotates(steps[m])
            then GoesOn(states[j], states[j + 1], steps[i].t) else steps[i].t !in states[j + 1].threads
  {
    var step, gen := steps[i], states[i].m.generation;
    var pc := if step.Dial? then Publishing(step.peer, step.conn, Some(gen)) else HelloDone(step.conn, gen);
    SnapshotGives(states, steps, i);
    AwaitLasts(states, steps, i + 1, j, step.t, pc);
    GenerationMovesExactly(states, steps, i + 1, j);
    ChecksExactly(states, steps, j);
  }

  // ------------------------------------------------------------ stale records

  predicate Rotates(step: Step) {
    step.Reload? || step.Detach?
  }

  /** The generation moves exactly when some step rotates. */
  lemma {:induction false} GenerationMovesExactly(states: seq<System>, steps: seq<Step>, i: nat, j: nat)
    requires IsRun(states, steps) && i <= j < |states|
    ensures states[i].m.generation <= states[j].m.generation
    ensures states[i].m.generation != states[j].m.generation <==> exists m :: i <= m < j && Rotates(steps[m])
    decreases j
  {
    if i < j {
      GenerationMovesExactly(states, steps, i, j - 1);
      assert Enabled(states[j - 1], steps[j - 1]) && states[j] == Next(states[j - 1], steps[j - 1]);
      StepMovesExactly(states[j - 1], steps[j - 1]);
    }
  }

  lemma StepMovesExactly(s: System, step: Step)
    requires Enabled(s, step)
    ensures Next(s, step).m.generation == if Rotates(step) then s.m.generation + 1 else s.m.generation
  {
  }

  /** Thread `t` compared the generation at step `v` and has been about to record it for `conn` up to state `i`. */
  ghost predicate CheckedSince(states: seq<System>, steps: seq<Step>, v: nat, i: nat, t: nat, conn: Conn)
    requires |states| == |steps| + 1 && i < |states|
  {
    && v < i && steps[v] == Verify(t)
    && forall m | v < m <= i :: t in states[m].threads && states[m].threads[t] == Checked(conn, states[v].m.generation)
  }

  lemma {:induction false} CheckedHasOrigin(states: seq<System>, steps: seq<Step>, i: nat, t: nat) returns (v: nat)
    requires IsRun(states, steps) && i < |states| && t in states[i].threads && states[i].threads[t].Checked?
    ensures CheckedSince(states, steps, v, i, t, states[i].threads[t].conn)
  {
    var s, step := states[i - 1], steps[i - 1];
    assert Enabled(s, step) && states[i] == Next(s, step);
    if step == Verify(t) {
      v := i - 1;
    } else {
      CheckedStays(s, step, t);
      v := CheckedHasOrigin(states, steps, i - 1, t);
    }
  }

  lemma CheckedStays(s: System, step: Step, t: nat)
    requires Enabled(s, step) && step != Verify(t)
    requires t in Next(s, step).threads && Next(s, step).threads[t].Checked?
    ensures t in s.threads && s.threads[t] == Next(s, step).threads[t]
  {
  }

  /** The record of `conn` was compared at step `v`, made at step `k`, and no rotation has cleared it since. */
  ghost predicate MadeBy(states: seq<System>, steps: seq<Step>, n: nat, conn: Conn, v: nat, k: nat, t: nat)
    requires |states| == |steps| + 1 && n < |states|
  {
    && v < k < n && steps[k] == Record(t) && CheckedSince(states, steps, v, k, t, conn)
    && conn in states[n].m.handshakes && states[n].m.handshakes[conn] == states[v].m.generation
    && forall m | k < m < n :: !Rotates(steps[m])
  }

  lemma RecordsStay(s: System, step: Step, conn: Conn)
    requires Enabled(s, step) && conn in Next(s, step).m.handshakes
    requires !(step.Record? && s.threads[step.t].conn == conn)
    ensures conn in s.m.handshakes && s.m.handshakes[conn] == Next(s, step).m.handshakes[conn] && !Rotates(step)
  {
  }

  /** Every record in every run was made that way. */
  lemma {:induction false} RecordHasOrigin(states: seq<System>, steps: seq<Step>, n: nat, conn: Conn)
    returns (v: nat, k: nat, t: nat)
    requires IsRun(states, steps) && n < |states| && conn in states[n].m.handshakes
    ensures MadeBy(states, steps, n, conn, v, k, t)
  {
    var s, step := states[n - 1], steps[n - 1];
    assert Enabled(s, step) && states[n] == Next(s, step);
    if step.Record? && s.threads[step.t].conn == conn {
      k, t := n - 1, step.t;
      v := CheckedHasOrigin(states, steps, n - 1, t);
    } else {
      RecordsStay(s, step, conn);
      v, k, t := RecordHasOrigin(states, steps, n - 1, conn);
    }
  }

  /** In every run a record is stale exactly when a rotation fell between its comparison and its making. */
  lemma RecordIsStaleExactly(states: seq<System>, steps: seq<Step>, n: nat, conn: Conn, v: nat, k: nat, t: nat)
    requires IsRun(states, steps) && n < |states| && MadeBy(states, steps, n, conn, v, k, t)
    ensures states[n].m.handshakes[conn] <= states[n].m.generation
    ensures states[n].m.handshakes[conn] != states[n].m.generation <==> exists m :: v < m < k && Rotates(steps[m])
  {
    GenerationMovesExactly(states, steps, v, n);
  }

  /** The race is real: a reload between the callback's check and its record leaves a stale record behind. */
  lemma StaleRecordIsReachable(conn: Conn)
    ensures exists states: seq<System>, steps: seq<Step> ::
              IsRun(states, steps) && conn in states[|steps|].m.handshakes
              && states[|steps|].m.handshakes[conn] < states[|steps|].m.generation
  {
    var steps := [Hello(0, conn), Verify(0), Reload, Record(0)];
    var s1 := Next(INIT, steps[0]);
    var s2 := Next(s1, steps[1]);
    var s3 := Next(s2, steps[2]);
    var s4 := Next(s3, steps[3]);
    var states := [INIT, s1, s2, s3, s4];
    assert s4.m.handshakes[conn] == 1 && s4.m.generation == 2;
    assert IsRun(states, steps);
    assert states[|steps|] == s4;
  }
}
