/** Single-flight start of the local worker pool (codna/local_mojo_pool.py): threads sharing module
    globals under one lock, as interleaved critical sections. */
module MojoPool {
  import opened Wrappers

  type Event = nat
  type Thread = nat

  /** How the start section ended. A pool can die while it is warmed up, after its last check. */
  datatype Outcome = Started(alive: bool) | NotRunning | PoolFailure | OtherFailure

  /** The module globals; `pool` is the published pool and whether it is (still) running, `fired` the
      events that were set. */
  datatype Globals = Globals(pool: Option<bool>, attempted: bool, startEvent: Option<Event>,
                             startError: Option<Outcome>, fired: set<Event>, nextEvent: Event)

  const COLD := Globals(None, false, None, None, {}, 0)

  /** What the first critical section tells the caller to do. */
  datatype Entry =
    | FoundRunning
    | WaitFor(event: Event)
    | Unavailable(raises: bool)
    | StartWith(event: Event)

  function Enter(g: Globals, require: bool): (Globals, Entry) {
    if g.pool == Some(true) then (g, FoundRunning)
    else if g.startEvent.Some? then (g, WaitFor(g.startEvent.value))
    else if g.attempted then (g, Unavailable(require))
    else
      (g.(startEvent := Some(g.nextEvent), nextEvent := g.nextEvent + 1, attempted := true, startError := None),
       StartWith(g.nextEvent))
  }

  function ErrorOf(o: Outcome): Option<Outcome> {
    if o.PoolFailure? || o.OtherFailure? then Some(o) else None
  }

  /** The second critical section: outcome first, then the event, all under the lock. */
  function Publish(g: Globals, event: Event, o: Outcome): Globals {
    g.(pool := if o.Started? then Some(o.alive) else g.pool,
       startError := ErrorOf(o), startEvent := None, fired := g.fired + {event})
  }

  /** Whether the starting caller raises: always for a pool error, otherwise only if the pool is required. */
  predicate StarterRaises(o: Outcome, require: bool) {
    o.PoolFailure? || (!o.Started? && require)
  }

  /** `prewarm_local_mojo_pool` spawns a starter only on a cold module. */
  predicate PrewarmSpawns(g: Globals) {
    g.pool != Some(true) && g.startEvent.None? && !g.attempted
  }

  /** The module with its globals, each method one critical section. */
  class PoolModule {
    var pool: Option<bool>
    var attempted: bool
    var startEvent: Option<Event>
    var startError: Option<Outcome>
    var fired: set<Event>
    var nextEvent: Event

    ghost function Value(): Globals
      reads this
    {
      Globals(pool, attempted, startEvent, startError, fired, nextEvent)
    }

    constructor ()
      ensures Value() == COLD
    {
      pool, attempted, startEvent, startError, fired, nextEvent := None, false, None, None, {}, 0;
    }

    method EnterLocked(require: bool) returns (entry: Entry)
      modifies this
      ensures (Value(), entry) == Enter(old(Value()), require)
    {
      if pool == Some(true) {
        return FoundRunning;
      }
      if startEvent.Some? {
        return WaitFor(startEvent.value);
      }
      if attempted {
        return Unavailable(require);
      }
      var event := nextEvent;
      nextEvent := nextEvent + 1;
      startEvent := Some(event);
      attempted := true;
      startError := None;
      return StartWith(event);
    }

    method PublishLocked(event: Event, o: Outcome)
      modifies this
      ensures Value() == Publish(old(Value()), event, o)
    {
      if o.Started? {
        pool := Some(o.alive);
      }
      startError := ErrorOf(o);
      startEvent := None;
      fired := fired + {event};
    }

    method TakeForShutdown() returns (taken: Option<bool>, event: Option<Event>)
      modifies this`pool
      ensures Value() == old(Value()).(pool := None)
      ensures taken == old(pool) && event == startEvent
    {
      taken, event := pool, startEvent;
      pool := None;
    }
  }

  // ----- threads -----

  /** Where a thread is in `ensure_local_mojo_pool`; `pass` counts its turns through the loop. */
  datatype Pc =
    | Outside
    | AtTop(require: bool, pass: nat)
    | Waiting(require: bool, pass: nat, event: Event)
    | Starting(require: bool, event: Event)
    | Returned(require: bool)
    | Raised

  /** `starts` counts entries into the start section and `published` keeps its outcome; both are history. */
  datatype System = System(g: Globals, pcs: map<Thread, Pc>, starts: nat, published: Option<Outcome>, taken: bool)

  datatype Action =
    | Call(t: Thread, require: bool)
    | EnterSection(t: Thread)
    | Wake(t: Thread)
    | TimeOut(t: Thread)
    | FinishStart(t: Thread, o: Outcome)
    | PoolDies
    | Shutdown
    | Prewarm(t: Thread)

  const INITIAL := System(COLD, map[], 0, None, false)

  function PcOf(s: System, t: Thread): Pc {
    if t in s.pcs then s.pcs[t] else Outside
  }

  function Goto(s: System, t: Thread, pc: Pc): System {
    s.(pcs := s.pcs[t := pc])
  }

  predicate CanCall(pc: Pc) {
    pc.Outside? || pc.Returned? || pc.Raised?
  }

  function AfterEntry(pc: Pc, entry: Entry): Pc
    requires pc.AtTop?
  {
    match entry
    case FoundRunning => Returned(pc.require)
    case WaitFor(e) => Waiting(pc.require, pc.pass, e)
    case Unavailable(raises) => if raises then Raised else Returned(pc.require)
    case StartWith(e) => Starting(pc.require, e)
  }

  function Next(s: System, a: Action): Option<System> {
    match a
    case Call(t, require) =>
      if CanCall(PcOf(s, t)) then Some(Goto(s, t, AtTop(require, 1))) else None
    case EnterSection(t) =>
      var pc := PcOf(s, t);
      if !pc.AtTop? then None else
        var (g, entry) := Enter(s.g, pc.require);
        Some(Goto(s, t, AfterEntry(pc, entry)).(g := g, starts := if entry.StartWith? then s.starts + 1 else s.starts))
    case Wake(t) =>
      var pc := PcOf(s, t);
      if pc.Waiting? && pc.event in s.g.fired then Some(Goto(s, t, AtTop(pc.require, pc.pass + 1))) else None
    case TimeOut(t) =>
      var pc := PcOf(s, t);
      if pc.Waiting? then Some(Goto(s, t, if pc.require then Raised else Returned(false))) else None
    case FinishStart(t, o) =>
      var pc := PcOf(s, t);
      if pc.Starting?
      then Some(Goto(s, t, if StarterRaises(o, pc.require) then Raised else Returned(pc.require))
                  .(g := Publish(s.g, pc.event, o), published := Some(o)))
      else None
    case PoolDies => if s.g.pool.Some? then Some(s.(g := s.g.(pool := Some(false)))) else None
    case Shutdown => Some(s.(g := s.g.(pool := None), taken := true))
    case Prewarm(t) =>
      if CanCall(PcOf(s, t)) && PrewarmSpawns(s.g) then Some(Goto(s, t, AtTop(false, 1))) else None
  }

  function Run(s: System, actions: seq<Action>): Option<System>
    decreases |actions|
  {
    if actions == [] then Some(s) else
      match Next(s, actions[0])
      case None => None
      case Some(t) => Run(t, actions[1..])
  }

  // ----- the invariant -----

  /** The start event is set up exactly while one thread is in the start section. */
  ghost predicate SingleFlight(s: System) {
    && (forall t, u :: t in s.pcs && u in s.pcs && s.pcs[t].Starting? && s.pcs[u].Starting? ==> t == u)
    && (forall t :: t in s.pcs && s.pcs[t].Starting? ==> s.g.startEvent == Some(s.pcs[t].event))
    && (s.g.startEvent.Some? ==> exists t :: t in s.pcs && s.pcs[t].Starting?)
  }

  ghost predicate StartsOnce(s: System) {
    && s.starts == (if s.g.attempted then 1 else 0)
    && s.g.nextEvent == s.starts
    && (s.g.startEvent.Some? ==> s.g.startEvent == Some(0) && s.g.attempted)
    && (!s.g.attempted ==> s.g.pool.None?)
  }

  /** Events are set only after the outcome was published. */
  ghost predicate PublishedFirst(s: System) {
    && s.g.fired <= {0}
    && (0 in s.g.fired <==> s.g.attempted && s.g.startEvent.None?)
    && (0 in s.g.fired <==> s.published.Some?)
    && (s.published.Some? ==> s.g.startError == ErrorOf(s.published.value))
    && (s.published.Some? && !s.taken ==> (s.g.pool.Some? <==> s.published.value.Started?))
    && (s.published.None? ==> s.g.pool.None?)
  }

  ghost predicate TwoPasses(s: System) {
    forall t :: t in s.pcs ==>
      match s.pcs[t]
      case AtTop(_, pass) => pass == 1 || (pass == 2 && 0 in s.g.fired)
      case Waiting(_, pass, e) => pass == 1 && e == 0 && s.g.attempted
      case _ => true
  }

  ghost predicate Inv(s: System) {
    SingleFlight(s) && StartsOnce(s) && PublishedFirst(s) && TwoPasses(s)
  }

  lemma EnterKeepsInv(s: System, t: Thread)
    requires Inv(s) && PcOf(s, t).AtTop?
    ensures Inv(Next(s, EnterSection(t)).value)
  {
    var r := Next(s, EnterSection(t)).value;
    if r.g.startEvent.Some? {
      if s.g.startEvent.Some? {
        var u :| u in s.pcs && s.pcs[u].Starting?;
        assert u in r.pcs && r.pcs[u].Starting?;
      } else {
        assert t in r.pcs && r.pcs[t].Starting?;
      }
    }
  }

  lemma FinishKeepsInv(s: System, t: Thread, o: Outcome)
    requires Inv(s) && PcOf(s, t).Starting?
    ensures Inv(Next(s, FinishStart(t, o)).value)
  {
    assert s.g.startEvent == Some(0);
  }

  /** Moving a thread that is not in the start section, to somewhere that is not. */
  lemma GotoKeepsInv(s: System, t: Thread, pc: Pc)
    requires Inv(s) && !PcOf(s, t).Starting? && !pc.Starting? && !pc.Waiting?
    requires pc.AtTop? ==> pc.pass == 1 || (pc.pass == 2 && 0 in s.g.fired)
    ensures Inv(Goto(s, t, pc))
  {
    if s.g.startEvent.Some? {
      var u :| u in s.pcs && s.pcs[u].Starting?;
      assert u in Goto(s, t, pc).pcs;
    }
  }

  lemma StepKeepsInv(s: System, a: Action)
    requires Inv(s) && Next(s, a).Some?
    ensures Inv(Next(s, a).value)
  {
    match a
    case Call(t, require) => GotoKeepsInv(s, t, AtTop(require, 1));
    case EnterSection(t) => EnterKeepsInv(s, t);
    case Wake(t) => GotoKeepsInv(s, t, AtTop(s.pcs[t].require, s.pcs[t].pass + 1));
    case TimeOut(t) => GotoKeepsInv(s, t, if s.pcs[t].require then Raised else Returned(false));
    case FinishStart(t, o) => FinishKeepsInv(s, t, o);
    case PoolDies =>
    case Shutdown =>
    case Prewarm(t) => GotoKeepsInv(s, t, AtTop(false, 1));
  }

  // ----- the theorems -----

  lemma {:induction false} RunKeepsInv(s: System, actions: seq<Action>)
    requires Inv(s) && Run(s, actions).Some?
    ensures Inv(Run(s, actions).value)
    decreases |actions|
  {
    if actions != [] {
      StepKeepsInv(s, actions[0]);
      RunKeepsInv(Next(s, actions[0]).value, actions[1..]);
    }
  }

  /** For any number of threads and any interleaving with shutdowns: the start section is entered at most
      once per process, the start event is set up exactly while one thread is inside it, and an event is
      only ever set with its outcome already in place. */
  lemma StartIsSingleFlight(actions: seq<Action>)
    requires Run(INITIAL, actions).Some?
    ensures var r := Run(INITIAL, actions).value;
            && r.starts <= 1
            && (r.g.startEvent.Some? <==> exists t :: t in r.pcs && r.pcs[t].Starting?)
            && (forall t, u :: t in r.pcs && u in r.pcs && r.pcs[t].Starting? && r.pcs[u].Starting? ==> t == u)
            && (r.g.fired != {} ==> r.published.Some? && (r.g.startError.Some? ==> r.g.startError == r.published))
            && (r.published == Some(PoolFailure) || r.published == Some(OtherFailure) ==> r.g.startError.Some?)
            && (r.published.Some? && (r.published.value.Started? || r.published.value.NotRunning?) ==> r.g.startError.None?)
  {
    RunKeepsInv(INITIAL, actions);
  }

  /** A waiter leaves within two passes: its second visit to the section never waits and never starts. */
  lemma SecondPassLeaves(s: System, t: Thread)
    requires Inv(s) && PcOf(s, t).AtTop? && PcOf(s, t).pass != 1
    ensures PcOf(s, t).pass == 2
    ensures var pc := PcOf(Next(s, EnterSection(t)).value, t); pc.Returned? || pc.Raised?
  {
  }

  /** No waiter waits for nobody: either its event is set, or the thread that will set it is starting. */
  lemma WaiterHasAStarter(s: System, t: Thread)
    requires Inv(s) && PcOf(s, t).Waiting?
    ensures Next(s, Wake(t)).Some? || exists u, o :: Next(s, FinishStart(u, o)).Some?
    ensures forall u, o :: Next(s, FinishStart(u, o)).Some? ==>
              Next(Next(s, FinishStart(u, o)).value, Wake(t)).Some?
  {
    if 0 !in s.g.fired {
      var u :| u in s.pcs && s.pcs[u].Starting?;
      assert Next(s, FinishStart(u, Started(true))).Some?;
    }
  }

  /** Who raises: the starter of a pool that failed, whether it required the pool or not, and otherwise only
      callers that require it: on a start that gave nothing, on a wait too long, and once the one attempt
      is behind them with no pool running. */
  lemma WhoRaises(s: System, a: Action, t: Thread)
    requires Inv(s) && Next(s, a).Some? && PcOf(s, t) != Raised
    ensures PcOf(Next(s, a).value, t) == Raised <==>
            || a == FinishStart(t, PoolFailure)
            || (a.FinishStart? && a.t == t && !a.o.Started? && PcOf(s, t).require)
            || (a == TimeOut(t) && PcOf(s, t).require)
            || (a == EnterSection(t) && PcOf(s, t).require && s.g.attempted && s.g.startEvent.None? && s.g.pool != Some(true))
  {
  }

  /** A prewarm spawns a thread exactly when that thread, going straight on, would be the one to start;
      and that thread does not require the pool. */
  lemma PrewarmSpawnsIffItWouldStart(s: System, t: Thread)
    requires Inv(s) && CanCall(PcOf(s, t))
    ensures Next(s, Prewarm(t)).Some? <==>
            PcOf(Next(Next(s, Call(t, false)).value, EnterSection(t)).value, t).Starting?
    ensures Next(s, Prewarm(t)).Some? ==> Next(s, Prewarm(t)) == Next(s, Call(t, false))
  {
  }

  /** A caller that requires the pool returns normally from two kinds of steps only: it found the pool
      running under the lock, or it published the pool it had started itself. At that moment the pool runs,
      unless it is one that died while its starter was warming it up. */
  lemma RequiredReturnIsFoundOrStarted(s: System, a: Action, t: Thread)
    requires Inv(s) && Next(s, a).Some?
    requires PcOf(Next(s, a).value, t) == Returned(true) && PcOf(s, t) != Returned(true)
    ensures (a == EnterSection(t) && s.g.pool == Some(true)) ||
            (a.FinishStart? && a.t == t && a.o.Started? && Next(s, a).value.published == Some(a.o))
    ensures Next(s, a).value.g.pool == Some(true) <==> a != FinishStart(t, Started(false))
  {
  }

  /** In that case the starter returns as if all were well, and from then on every caller that requires the
      pool raises. */
  lemma DeadPoolIsReturnedOnce(s: System, t: Thread, u: Thread)
    requires Inv(s) && PcOf(s, t).Starting? && PcOf(s, t).require
    requires u != t && PcOf(s, u).AtTop? && PcOf(s, u).require
    ensures var r := Next(s, FinishStart(t, Started(false))).value;
            && PcOf(r, t) == Returned(true) && r.g.pool == Some(false)
            && PcOf(Next(r, EnterSection(u)).value, u) == Raised
  {
    assert s.g.startEvent == Some(s.pcs[t].event);
  }

  /** After its one attempt the module never starts a pool again, whatever shutdown did. */
  lemma NoRestart(s: System, actions: seq<Action>)
    requires Inv(s) && s.g.attempted && s.g.startEvent.None? && Run(s, actions).Some?
    ensures var r := Run(s, actions).value;
            && r.starts == s.starts && r.published == s.published
            && (s.g.pool.None? ==> r.g.pool.None?)
    decreases |actions|
  {
    if actions != [] {
      StepKeepsInv(s, actions[0]);
      var t := Next(s, actions[0]).value;
      assert forall u :: u in s.pcs ==> !s.pcs[u].Starting?;
      NoRestart(t, actions[1..]);
    }
  }
}
