/** The lease protocol of the runner fleet (codna/ci_admission.py): processes sharing a lock file and a
    directory of lease files, as interleaved steps. */
module Fleet {
  import opened Admission
  import opened CiAdmission
  import opened Collections
  import opened Wrappers

  type Process = string
  type Owner = string
  type Name = string

  // Seconds: how long a waiter tries, when a lock counts as abandoned, when a lease does.
  const LOCK_WAIT_S := 10
  const LOCK_STALE_S := 60
  const LEASE_MAX_AGE_S := 21600

  datatype LeaseFile = Lease(owner: Process, pidOwned: bool, started: int) | Garbled

  /** Where a process is inside check-and-reserve. */
  datatype Section =
    | Entered
    | Reaping(todo: seq<Name>, seen: set<Name>)
    | Removing(name: Name, todo: seq<Name>, seen: set<Name>)
    | Counted(live: nat)
    | Approved
    | Leaving

  /** A stealer has read the age of a stale lock and not yet removed the file. `locked` says whether the
      process's own attempt created the lock file. */
  datatype Phase = Idle | Waiting(since: int) | Stealing(since: int) | Inside(locked: bool, section: Section)

  datatype System = System(now: int, lock: Option<Process>, lockSince: int, leases: map<Name, LeaseFile>,
                           phases: map<Process, Phase>)

  /** What does not change: whom each process runs for, its budget, the machine, the predictor and the
      file naming. Several processes may share an owner. */
  datatype Setup = Setup(ownerOf: Process -> Owner, budget: Process -> Budget, cores: int, breach: BreachFn,
                         nameOf: Owner -> Name)

  datatype Action =
    | Tick(seconds: nat)
    | Start(r: Process)
    | TakeLock(r: Process)
    | SeeStale(r: Process)     // reads the age of the lock file
    | UnlinkLock(r: Process)   // removes whatever lock file is there by then
    | GiveUp(r: Process)
    | BeginReap(r: Process, listing: seq<Name>)
    | Examine(r: Process, name: Name, dead: bool)   // reads the next lease file
    | Clear(r: Process)                             // unlinks it, if reading it said so
    | FinishReap(r: Process)
    | Check(r: Process, load1: Option<real>, freeMemGb: Option<real>, history: seq<real>)
    | Write(r: Process, pidOwned: bool)
    | Unlock(r: Process)       // the end of the section, also by an exception anywhere inside it
    | Crash(r: Process)        // the process dies: a lock it holds stays
    | Remove(name: Name)       // a release or a reap outside the lock

  function PhaseOf(s: System, r: Process): Phase {
    if r in s.phases then s.phases[r] else Idle
  }

  function Goto(s: System, r: Process, p: Phase): System {
    s.(phases := s.phases[r := p])
  }

  function CeilingOf(c: Setup, r: Process): int {
    DeriveCeiling(c.budget(r), Machine(c.cores, None, None))
  }

  /** The file a process reserves its slot under. */
  function LeaseName(c: Setup, r: Process): Name {
    c.nameOf(c.ownerOf(r))
  }

  /** Whether the reaper drops this file: unreadable, the excluded owner's, too old, or its process gone. */
  predicate Reapable(f: LeaseFile, excluded: Option<Owner>, now: int, dead: bool) {
    f.Garbled? || excluded == Some(f.owner) || now - f.started > LEASE_MAX_AGE_S || (f.pidOwned && dead)
  }

  /** One step, if it is enabled. */
  function Next(c: Setup, s: System, a: Action): Option<System> {
    match a
    case Tick(d) => Some(s.(now := s.now + d))
    case Start(r) =>
      if PhaseOf(s, r).Idle? then Some(Goto(s, r, Waiting(s.now))) else None
    case TakeLock(r) =>
      if PhaseOf(s, r).Waiting? && s.lock.None?
      then Some(Goto(s, r, Inside(true, Entered)).(lock := Some(r), lockSince := s.now)) else None
    case SeeStale(r) =>
      if PhaseOf(s, r).Waiting? && s.lock.Some? && s.now - s.lockSince > LOCK_STALE_S
      then Some(Goto(s, r, Stealing(PhaseOf(s, r).since))) else None
    case UnlinkLock(r) =>
      if PhaseOf(s, r).Stealing? then Some(Goto(s, r, Waiting(PhaseOf(s, r).since)).(lock := None)) else None
    case GiveUp(r) =>
      if PhaseOf(s, r).Waiting? && s.now >= PhaseOf(s, r).since + LOCK_WAIT_S
      then Some(Goto(s, r, Inside(false, Entered))) else None
    case BeginReap(r, listing) =>
      var p := PhaseOf(s, r);
      if p.Inside? && p.section.Entered? && (forall n :: n in s.leases ==> n in listing)
      then Some(Goto(s, r, p.(section := Reaping(listing, {})))) else None
    case Examine(r, n, dead) =>
      var p := PhaseOf(s, r);
      if p.Inside? && p.section.Reaping? && p.section.todo != [] && p.section.todo[0] == n then
        var rest := p.section.todo[1..];
        var gone := n !in s.leases || Reapable(s.leases[n], Some(c.ownerOf(r)), s.now, dead);
        Some(Goto(s, r, p.(section := if gone then Removing(n, rest, p.section.seen)
                                      else Reaping(rest, p.section.seen + {n}))))
      else None
    case Clear(r) =>
      var p := PhaseOf(s, r);
      if p.Inside? && p.section.Removing?
      then Some(Goto(s, r, p.(section := Reaping(p.section.todo, p.section.seen)))
                  .(leases := s.leases - {p.section.name}))
      else None
    case FinishReap(r) =>
      var p := PhaseOf(s, r);
      if p.Inside? && p.section.Reaping? && p.section.todo == []
      then Some(Goto(s, r, p.(section := Counted(|p.section.seen|)))) else None
    case Check(r, load1, freeMemGb, history) =>
      var p := PhaseOf(s, r);
      if p.Inside? && p.section.Counted? then
        var admit := CapacityAdmits(c.budget(r), Machine(c.cores, load1, freeMemGb), CeilingOf(c, r),
                                    history, c.breach, p.section.live);
        Some(Goto(s, r, p.(section := if admit then Approved else Leaving)))
      else None
    case Write(r, pidOwned) =>
      var p := PhaseOf(s, r);
      if p.Inside? && p.section.Approved?
      then Some(Goto(s, r, p.(section := Leaving)).(leases := s.leases[LeaseName(c, r) := Lease(c.ownerOf(r), pidOwned, s.now)]))
      else None
    case Unlock(r) =>
      var p := PhaseOf(s, r);
      if p.Inside?
      then Some(Goto(s, r, Idle).(lock := if p.locked then None else s.lock)) else None
    case Crash(r) =>
      if !PhaseOf(s, r).Idle? then Some(Goto(s, r, Idle)) else None
    case Remove(n) => Some(s.(leases := s.leases - {n}))
  }

  const INITIAL := System(0, None, 0, map[], map[])

  function Run(c: Setup, s: System, actions: seq<Action>): Option<System>
    decreases |actions|
  {
    if actions == [] then Some(s) else
      match Next(c, s, actions[0])
      case None => None
      case Some(t) => Run(c, t, actions[1..])
  }

  // ----- whoever is inside holds the lock -----

  /** Every process in the section runs under the lock file, and it is its own. */
  ghost predicate Exclusive(s: System) {
    forall r :: r in s.phases && s.phases[r].Inside? ==> s.phases[r].locked && s.lock == Some(r)
  }

  /** The lock file belongs to a process that is in the section. */
  predicate HeldInside(s: System) {
    s.lock.Some? && PhaseOf(s, s.lock.value).Inside?
  }

  /** The step enters nobody without the lock and takes the lock from nobody who is inside. */
  predicate Orderly(s: System, a: Action) {
    !a.GiveUp? && (a.UnlinkLock? ==> !HeldInside(s))
  }

  ghost predicate AlwaysExclusive(c: Setup, s: System, actions: seq<Action>)
    decreases |actions|
  {
    Exclusive(s) && (actions != [] && Next(c, s, actions[0]).Some? ==>
                       AlwaysExclusive(c, Next(c, s, actions[0]).value, actions[1..]))
  }

  ghost predicate OrderlyRun(c: Setup, s: System, actions: seq<Action>)
    decreases |actions|
  {
    actions != [] && Next(c, s, actions[0]).Some? ==>
      Orderly(s, actions[0]) && OrderlyRun(c, Next(c, s, actions[0]).value, actions[1..])
  }

  /** One step keeps the lock with whoever is inside exactly when it is orderly. */
  lemma StepExclusiveIffOrderly(c: Setup, s: System, a: Action)
    requires Exclusive(s) && Next(c, s, a).Some?
    ensures Exclusive(Next(c, s, a).value) <==> Orderly(s, a)
  {
    var t := Next(c, s, a).value;
    if a.GiveUp? {
      assert a.r in t.phases && !t.phases[a.r].locked;
    } else if a.UnlinkLock? && HeldInside(s) {
      var q := s.lock.value;
      assert q in t.phases && t.phases[q].Inside?;
    } else {
      forall q | q in t.phases && t.phases[q].Inside? ensures t.phases[q].locked && t.lock == Some(q) {
        InsideBefore(c, s, a, q);
      }
    }
  }

  /** Who is inside after an orderly step was inside before, or took the free lock just now. */
  lemma InsideBefore(c: Setup, s: System, a: Action, q: Process)
    requires Exclusive(s) && Next(c, s, a).Some? && Orderly(s, a)
    requires PhaseOf(Next(c, s, a).value, q).Inside?
    ensures var t := Next(c, s, a).value;
            && PhaseOf(t, q).locked && t.lock == Some(q)
            && (PhaseOf(s, q).Inside? || a == TakeLock(q))
  {
  }

  /** Over every run: whoever is inside holds the lock throughout exactly when every step is orderly. */
  lemma {:induction false} ExclusiveIffOrderly(c: Setup, s: System, actions: seq<Action>)
    requires Exclusive(s)
    ensures AlwaysExclusive(c, s, actions) <==> OrderlyRun(c, s, actions)
    decreases |actions|
  {
    if actions != [] && Next(c, s, actions[0]).Some? {
      var t := Next(c, s, actions[0]).value;
      StepExclusiveIffOrderly(c, s, actions[0]);
      if Orderly(s, actions[0]) {
        ExclusiveIffOrderly(c, t, actions[1..]);
      } else {
        assert !AlwaysExclusive(c, t, actions[1..]);
      }
    }
  }

  ghost predicate TwoInside(s: System, q: Process, r: Process) {
    q != r && PhaseOf(s, q).Inside? && PhaseOf(s, r).Inside?
  }

  /** And a disorderly step is as bad as it looks: who removes the lock of a process inside can follow it
      in at once, and who gives up while a process is inside has done so. */
  lemma DisorderLetsTwoIn(c: Setup, s: System, a: Action)
    requires Next(c, s, a).Some? && !Orderly(s, a) && HeldInside(s)
    ensures var t := Next(c, s, a).value;
            if a.GiveUp? then TwoInside(t, s.lock.value, a.r)
            else a.UnlinkLock? && Next(c, t, TakeLock(a.r)).Some?
                 && TwoInside(Next(c, t, TakeLock(a.r)).value, s.lock.value, a.r)
  {
  }

  // ----- the lock never stays behind -----

  /** Everybody inside holds the lock, and the lock is held by somebody inside. */
  ghost predicate LockIsInUse(s: System) {
    Exclusive(s) && (s.lock.Some? ==> HeldInside(s))
  }

  /** Without crashes the lock file is there exactly while somebody is inside: leaving the section, in good
      order or not, always frees it. */
  lemma {:induction false} LockNeverStaysBehind(c: Setup, s: System, actions: seq<Action>)
    requires LockIsInUse(s) && OrderlyRun(c, s, actions) && Run(c, s, actions).Some?
    requires forall a :: a in actions ==> !a.Crash?
    ensures LockIsInUse(Run(c, s, actions).value)
    decreases |actions|
  {
    if actions != [] {
      var t := Next(c, s, actions[0]).value;
      StepExclusiveIffOrderly(c, s, actions[0]);
      assert !actions[0].Crash?;
      LockNeverStaysBehind(c, t, actions[1..]);
    }
  }

  /** Only who came in with the lock frees it on leaving; who gave up waiting leaves the lock to its holder. */
  lemma LockChangesHandsOnly(c: Setup, s: System, a: Action)
    requires Next(c, s, a).Some? && Next(c, s, a).value.lock != s.lock
    ensures a.TakeLock? || a.UnlinkLock? || (a.Unlock? && PhaseOf(s, a.r).Inside? && PhaseOf(s, a.r).locked)
  {
  }

  // ----- what keeps a run orderly -----

  /** Nobody stays in the section for more than a minute, and nobody waits for ten seconds. */
  ghost predicate Calm(s: System) {
    forall r :: r in s.phases ==>
      && (s.phases[r].Inside? && s.lock == Some(r) ==> s.now - s.lockSince <= 60)
      && (s.phases[r].Waiting? || s.phases[r].Stealing? ==> s.now < s.phases[r].since + 10)
  }

  ghost predicate NobodyStealing(s: System) {
    forall r :: r in s.phases ==> !s.phases[r].Stealing?
  }

  ghost predicate CalmRun(c: Setup, s: System, actions: seq<Action>)
    decreases |actions|
  {
    Calm(s) && (actions != [] && Next(c, s, actions[0]).Some? ==>
                  CalmRun(c, Next(c, s, actions[0]).value, actions[1..]))
  }

  /** A lock is taken only while no stealer is about to remove one. */
  ghost predicate NoLateUnlink(c: Setup, s: System, actions: seq<Action>)
    decreases |actions|
  {
    actions != [] && Next(c, s, actions[0]).Some? ==>
      && (actions[0].TakeLock? ==> NobodyStealing(s))
      && NoLateUnlink(c, Next(c, s, actions[0]).value, actions[1..])
  }

  /** While a stealer is at work nobody is inside. */
  ghost predicate StealersAlone(s: System) {
    NobodyStealing(s) || forall r :: r in s.phases ==> !s.phases[r].Inside?
  }

  lemma CalmStepIsOrderly(c: Setup, s: System, a: Action)
    requires Exclusive(s) && Calm(s) && StealersAlone(s) && Next(c, s, a).Some?
    requires a.TakeLock? ==> NobodyStealing(s)
    ensures Orderly(s, a) && StealersAlone(Next(c, s, a).value)
  {
    var t := Next(c, s, a).value;
    if a.SeeStale? {
      assert forall q :: q in s.phases ==> !s.phases[q].Inside?;
      assert forall q :: q in t.phases ==> !t.phases[q].Inside?;
    } else if NobodyStealing(s) {
      assert forall q :: q in t.phases ==> q in s.phases || PhaseOf(s, q).Idle?;
      assert NobodyStealing(t);
    } else {
      assert forall q :: q in t.phases ==> !t.phases[q].Inside?;
    }
  }

  /** A calm run in which no lock is taken under a pending removal is orderly. Stealing from a process that
      crashed is then safe. */
  lemma {:induction false} CalmRunIsOrderly(c: Setup, s: System, actions: seq<Action>)
    requires Exclusive(s) && StealersAlone(s) && CalmRun(c, s, actions) && NoLateUnlink(c, s, actions)
    ensures OrderlyRun(c, s, actions)
    decreases |actions|
  {
    if actions != [] && Next(c, s, actions[0]).Some? {
      CalmStepIsOrderly(c, s, actions[0]);
      StepExclusiveIffOrderly(c, s, actions[0]);
      CalmRunIsOrderly(c, Next(c, s, actions[0]).value, actions[1..]);
    }
  }

  // ----- the counts -----

  /** What a process in the section knows about the directory. */
  ghost predicate CountIsSafe(s: System, section: Section, ceiling: int) {
    match section
    case Entered => true
    case Reaping(todo, seen) => forall n :: n in s.leases ==> n in seen || n in todo
    case Removing(name, todo, seen) => forall n :: n in s.leases ==> n in seen || n in todo || n == name
    case Counted(live) => |s.leases| <= live
    case Approved => |s.leases| + 1 <= ceiling
    case Leaving => true
  }

  ghost predicate CountsAreSafe(c: Setup, s: System) {
    forall r :: r in s.phases && s.phases[r].Inside? ==> CountIsSafe(s, s.phases[r].section, CeilingOf(c, r))
  }

  /** Each readable lease sits under its owner's name. */
  ghost predicate Named(c: Setup, s: System) {
    forall n :: n in s.leases && s.leases[n].Lease? ==> n == c.nameOf(s.leases[n].owner)
  }

  ghost predicate Inv(c: Setup, s: System, bound: nat) {
    Exclusive(s) && CountsAreSafe(c, s) && Named(c, s) && |s.leases| <= bound
  }

  lemma FewerLeases(a: map<Name, LeaseFile>, n: Name)
    ensures |a - {n}| <= |a|
  {
    assert (a - {n}).Keys == a.Keys - {n};
    if n in a {
      assert |a.Keys - {n}| == |a.Keys| - 1;
    } else {
      assert a - {n} == a;
    }
  }

  lemma OneMoreLease(a: map<Name, LeaseFile>, n: Name, f: LeaseFile)
    ensures |a[n := f]| <= |a| + 1
  {
    assert a[n := f].Keys == a.Keys + {n};
  }

  lemma SeenBoundsLeases(leases: map<Name, LeaseFile>, seen: set<Name>)
    requires forall n :: n in leases ==> n in seen
    ensures |leases| <= |seen|
  {
    assert leases.Keys <= seen;
    SubsetSize(leases.Keys, seen);
  }

  /** Deleting a lease, by whomever and whenever, never makes a count unsafe. */
  lemma RemovalKeepsInv(c: Setup, s: System, n: Name, bound: nat)
    requires Inv(c, s, bound)
    ensures Inv(c, s.(leases := s.leases - {n}), bound)
  {
    FewerLeases(s.leases, n);
    var t := s.(leases := s.leases - {n});
    forall r | r in t.phases && t.phases[r].Inside?
      ensures CountIsSafe(t, t.phases[r].section, CeilingOf(c, r))
    {
      assert CountIsSafe(s, s.phases[r].section, CeilingOf(c, r));
    }
  }

  /** Moving one runner to a section its knowledge justifies. */
  lemma GotoKeepsInv(c: Setup, s: System, r: Process, p: Phase, bound: nat)
    requires Inv(c, s, bound)
    requires p.Inside? ==> p.locked && s.lock == Some(r) && CountIsSafe(s, p.section, CeilingOf(c, r))
    ensures Inv(c, Goto(s, r, p), bound)
  {
    var t := Goto(s, r, p);
    forall q | q in t.phases && t.phases[q].Inside?
      ensures t.phases[q].locked && t.lock == Some(q) && CountIsSafe(t, t.phases[q].section, CeilingOf(c, q))
    {
      if q != r {
        assert CountIsSafe(s, s.phases[q].section, CeilingOf(c, q));
      }
    }
  }

  /** Every orderly step keeps the invariant, whatever happens outside the lock meanwhile. */
  lemma StepKeepsInv(c: Setup, s: System, a: Action, bound: nat)
    requires Inv(c, s, bound) && Next(c, s, a).Some? && Orderly(s, a)
    requires forall r :: CeilingOf(c, r) <= bound
    ensures Inv(c, Next(c, s, a).value, bound)
  {
    match a
    case Tick(d) => TickKeepsInv(c, s, d, bound);
    case Start(r) => GotoKeepsInv(c, s, r, Waiting(s.now), bound);
    case TakeLock(r) => LockKeepsInv(c, s, r, bound);
    case SeeStale(r) => GotoKeepsInv(c, s, r, Stealing(s.phases[r].since), bound);
    case UnlinkLock(r) => UnlinkKeepsInv(c, s, r, s.phases[r].since, bound);
    case GiveUp(r) =>                          // not orderly
    case BeginReap(r, listing) => GotoKeepsInv(c, s, r, Inside(true, Reaping(listing, {})), bound);
    case Examine(r, n, dead) => ExamineKeepsInv(c, s, r, n, dead, bound);
    case Clear(r) => ClearKeepsInv(c, s, r, bound);
    case FinishReap(r) => CountKeepsInv(c, s, r, bound);
    case Check(r, load1, freeMemGb, history) => CheckKeepsInv(c, s, r, load1, freeMemGb, history, bound);
    case Write(r, pidOwned) => WriteKeepsInv(c, s, r, pidOwned, bound);
    case Unlock(r) => UnlockKeepsInv(c, s, r, bound);
    case Crash(r) => GotoKeepsInv(c, s, r, Idle, bound);
    case Remove(n) => RemovalKeepsInv(c, s, n, bound);
  }

  lemma TickKeepsInv(c: Setup, s: System, d: nat, bound: nat)
    requires Inv(c, s, bound)
    ensures Inv(c, s.(now := s.now + d), bound)
  {
    var t := s.(now := s.now + d);
    forall r | r in t.phases && t.phases[r].Inside?
      ensures CountIsSafe(t, t.phases[r].section, CeilingOf(c, r))
    {
      assert CountIsSafe(s, s.phases[r].section, CeilingOf(c, r));
    }
  }

  lemma LockKeepsInv(c: Setup, s: System, r: Process, bound: nat)
    requires Inv(c, s, bound) && s.lock.None?
    ensures Inv(c, Goto(s, r, Inside(true, Entered)).(lock := Some(r), lockSince := s.now), bound)
  {
    assert forall q :: q in s.phases ==> !s.phases[q].Inside?;
  }

  /** Removing a lock whose owner is not inside is safe: nobody is inside. */
  lemma UnlinkKeepsInv(c: Setup, s: System, r: Process, since: int, bound: nat)
    requires Inv(c, s, bound) && !HeldInside(s)
    ensures Inv(c, Goto(s, r, Waiting(since)).(lock := None), bound)
  {
    assert forall q :: q in s.phases ==> !s.phases[q].Inside?;
  }

  lemma ExamineKeepsInv(c: Setup, s: System, r: Process, n: Name, dead: bool, bound: nat)
    requires Inv(c, s, bound) && Next(c, s, Examine(r, n, dead)).Some?
    ensures Inv(c, Next(c, s, Examine(r, n, dead)).value, bound)
  {
    var section := s.phases[r].section;
    var rest := section.todo[1..];
    assert CountIsSafe(s, section, CeilingOf(c, r));
    assert section.todo == [n] + rest;
    if n !in s.leases || Reapable(s.leases[n], Some(c.ownerOf(r)), s.now, dead) {
      GotoKeepsInv(c, s, r, Inside(true, Removing(n, rest, section.seen)), bound);
    } else {
      GotoKeepsInv(c, s, r, Inside(true, Reaping(rest, section.seen + {n})), bound);
    }
  }

  lemma ClearKeepsInv(c: Setup, s: System, r: Process, bound: nat)
    requires Inv(c, s, bound) && Next(c, s, Clear(r)).Some?
    ensures Inv(c, Next(c, s, Clear(r)).value, bound)
  {
    var section := s.phases[r].section;
    assert CountIsSafe(s, section, CeilingOf(c, r));
    RemovalKeepsInv(c, s, section.name, bound);
    GotoKeepsInv(c, s.(leases := s.leases - {section.name}), r, Inside(true, Reaping(section.todo, section.seen)), bound);
  }

  lemma CountKeepsInv(c: Setup, s: System, r: Process, bound: nat)
    requires Inv(c, s, bound) && Next(c, s, FinishReap(r)).Some?
    ensures Inv(c, Next(c, s, FinishReap(r)).value, bound)
  {
    var seen := s.phases[r].section.seen;
    assert CountIsSafe(s, s.phases[r].section, CeilingOf(c, r));
    SeenBoundsLeases(s.leases, seen);
    GotoKeepsInv(c, s, r, Inside(true, Counted(|seen|)), bound);
  }

  lemma CheckKeepsInv(c: Setup, s: System, r: Process, load1: Option<real>, freeMemGb: Option<real>,
                      history: seq<real>, bound: nat)
    requires Inv(c, s, bound) && Next(c, s, Check(r, load1, freeMemGb, history)).Some?
    ensures Inv(c, Next(c, s, Check(r, load1, freeMemGb, history)).value, bound)
  {
    var live := s.phases[r].section.live;
    var m := Machine(c.cores, load1, freeMemGb);
    assert CountIsSafe(s, s.phases[r].section, CeilingOf(c, r));
    if CapacityAdmits(c.budget(r), m, CeilingOf(c, r), history, c.breach, live) {
      AdmittedFitsCeiling(c.budget(r), m, CeilingOf(c, r), history, c.breach, live);
      GotoKeepsInv(c, s, r, Inside(true, Approved), bound);
    } else {
      GotoKeepsInv(c, s, r, Inside(true, Leaving), bound);
    }
  }

  lemma WriteKeepsInv(c: Setup, s: System, r: Process, pidOwned: bool, bound: nat)
    requires Inv(c, s, bound) && Next(c, s, Write(r, pidOwned)).Some? && CeilingOf(c, r) <= bound
    ensures Inv(c, Next(c, s, Write(r, pidOwned)).value, bound)
  {
    var t := Next(c, s, Write(r, pidOwned)).value;
    assert CountIsSafe(s, s.phases[r].section, CeilingOf(c, r));
    OneMoreLease(s.leases, LeaseName(c, r), Lease(c.ownerOf(r), pidOwned, s.now));
    assert forall q :: q in t.phases && t.phases[q].Inside? ==> q == r;
  }

  lemma UnlockKeepsInv(c: Setup, s: System, r: Process, bound: nat)
    requires Inv(c, s, bound) && Next(c, s, Unlock(r)).Some?
    ensures Inv(c, Next(c, s, Unlock(r)).value, bound)
  {
    var t := Next(c, s, Unlock(r)).value;
    assert forall q :: q in t.phases ==> !t.phases[q].Inside?;
  }

  // ----- the theorems -----

  lemma {:induction false} OrderlyRunKeepsInv(c: Setup, s: System, actions: seq<Action>, bound: nat)
    requires Inv(c, s, bound) && OrderlyRun(c, s, actions) && Run(c, s, actions).Some?
    requires forall r :: CeilingOf(c, r) <= bound
    ensures Inv(c, Run(c, s, actions).value, bound)
    decreases |actions|
  {
    if actions != [] {
      StepKeepsInv(c, s, actions[0], bound);
      OrderlyRunKeepsInv(c, Next(c, s, actions[0]).value, actions[1..], bound);
    }
  }

  /** At most one process is in check-and-reserve, the lease files are within the bound, and no owner holds
      two of them. */
  ghost predicate Safe(s: System, bound: nat) {
    && |s.leases| <= bound
    && (forall q, r :: !TwoInside(s, q, r))
    && (forall m, n :: (m in s.leases && n in s.leases && s.leases[m].Lease? && s.leases[n].Lease?
                        && s.leases[m].owner == s.leases[n].owner) ==> m == n)
  }

  lemma InvIsSafe(c: Setup, s: System, bound: nat)
    requires Inv(c, s, bound)
    ensures Safe(s, bound)
  {
    forall q, r ensures !TwoInside(s, q, r) {
      if PhaseOf(s, q).Inside? && PhaseOf(s, r).Inside? {
        assert q in s.phases && r in s.phases;
      }
    }
  }

  /** Fleet safety over all interleavings: a fleet whose steps are orderly is safe, with crashes, and with
      releases and reaps outside the lock. */
  lemma OrderlyFleetIsSafe(c: Setup, actions: seq<Action>, bound: nat)
    requires OrderlyRun(c, INITIAL, actions) && Run(c, INITIAL, actions).Some?
    requires forall r :: CeilingOf(c, r) <= bound
    ensures Safe(Run(c, INITIAL, actions).value, bound)
  {
    OrderlyRunKeepsInv(c, INITIAL, actions, bound);
    InvIsSafe(c, Run(c, INITIAL, actions).value, bound);
  }

  /** In terms of time: while no holder overstays, no waiter times out and no lock is taken under a pending
      removal, the fleet is safe. */
  lemma CalmFleetIsSafe(c: Setup, actions: seq<Action>, bound: nat)
    requires CalmRun(c, INITIAL, actions) && NoLateUnlink(c, INITIAL, actions) && Run(c, INITIAL, actions).Some?
    requires forall r :: CeilingOf(c, r) <= bound
    ensures Safe(Run(c, INITIAL, actions).value, bound)
  {
    CalmRunIsOrderly(c, INITIAL, actions);
    OrderlyFleetIsSafe(c, actions, bound);
  }

  /** The step spares the lease file `n`: it neither releases nor overwrites it, and a reaper looking at it
      runs for somebody else and does not find its process dead. */
  predicate Spares(c: Setup, a: Action, n: Name, f: LeaseFile) {
    && a != Remove(n)
    && (a.Write? ==> LeaseName(c, a.r) != n)
    && (a.Examine? && a.name == n ==> f.Lease? && c.ownerOf(a.r) != f.owner && !(f.pidOwned && a.dead))
  }

  /** No reaper has condemned the file and not yet unlinked it. */
  ghost predicate Uncondemned(s: System, n: Name) {
    forall r :: r in s.phases && s.phases[r].Inside? && s.phases[r].section.Removing? ==> s.phases[r].section.name != n
  }

  lemma {:induction false} TimeAdvances(c: Setup, s: System, actions: seq<Action>)
    requires Run(c, s, actions).Some?
    ensures s.now <= Run(c, s, actions).value.now
    decreases |actions|
  {
    if actions != [] {
      TimeAdvances(c, Next(c, s, actions[0]).value, actions[1..]);
    }
  }

  /** A live job keeps its slot: over any run, disorderly ones too, a lease that is young to the end,
      that nobody has condemned and that every step spares is still there, unchanged. */
  lemma {:induction false} LiveLeaseSurvives(c: Setup, s: System, actions: seq<Action>, n: Name)
    requires Run(c, s, actions).Some? && n in s.leases && s.leases[n].Lease? && Uncondemned(s, n)
    requires Run(c, s, actions).value.now - s.leases[n].started <= 6 * 3600
    requires forall a :: a in actions ==> Spares(c, a, n, s.leases[n])
    ensures var t := Run(c, s, actions).value; n in t.leases && t.leases[n] == s.leases[n]
    decreases |actions|
  {
    if actions != [] {
      var t := Next(c, s, actions[0]).value;
      assert Spares(c, actions[0], n, s.leases[n]);
      TimeAdvances(c, t, actions[1..]);
      SparedStep(c, s, actions[0], n);
      LiveLeaseSurvives(c, t, actions[1..], n);
    }
  }

  /** So a granted slot is held: six hours long nobody takes away the lease a process has just written. */
  lemma GrantedSlotIsHeld(c: Setup, s: System, r: Process, pidOwned: bool, later: seq<Action>)
    requires Next(c, s, Write(r, pidOwned)).Some? && Uncondemned(s, LeaseName(c, r))
    requires var t := Next(c, s, Write(r, pidOwned)).value;
             Run(c, t, later).Some? && Run(c, t, later).value.now - s.now <= 6 * 3600
    requires forall a :: a in later ==> Spares(c, a, LeaseName(c, r), Lease(c.ownerOf(r), pidOwned, s.now))
    ensures var u := Run(c, Next(c, s, Write(r, pidOwned)).value, later).value;
            LeaseName(c, r) in u.leases && u.leases[LeaseName(c, r)].Lease?
            && u.leases[LeaseName(c, r)].owner == c.ownerOf(r)
  {
    var t := Next(c, s, Write(r, pidOwned)).value;
    forall q | q in t.phases && t.phases[q].Inside? && t.phases[q].section.Removing?
      ensures t.phases[q].section.name != LeaseName(c, r)
    {
      assert q in s.phases && s.phases[q] == t.phases[q];
    }
    LiveLeaseSurvives(c, t, later, LeaseName(c, r));
  }

  lemma SparedStep(c: Setup, s: System, a: Action, n: Name)
    requires Next(c, s, a).Some? && n in s.leases && s.leases[n].Lease? && Spares(c, a, n, s.leases[n])
    requires s.now - s.leases[n].started <= LEASE_MAX_AGE_S && Uncondemned(s, n)
    ensures var t := Next(c, s, a).value; n in t.leases && t.leases[n] == s.leases[n] && Uncondemned(t, n)
  {
    var t := Next(c, s, a).value;
    if a.Clear? {
      assert a.r in s.phases && s.phases[a.r].section.name != n;
    }
    forall r | r in t.phases && t.phases[r].Inside? && t.phases[r].section.Removing?
      ensures t.phases[r].section.name != n
    {
      if !(a.Examine? && r == a.r) {
        assert r in s.phases && s.phases[r] == t.phases[r];
      }
    }
  }

  // ----- and an abandoned lease goes -----

  /** What a section that begins now will not leave in the directory: a file that cannot be read, a lease
      of its own owner, one more than six hours old, and one whose process it finds dead. */
  predicate Abandoned(c: Setup, f: LeaseFile, r: Process, now: int, foundDead: bool) {
    match f
    case Garbled => true
    case Lease(owner, pidOwned, started) => owner == c.ownerOf(r) || now - started > 6 * 3600 || (pidOwned && foundDead)
  }

  /** Nobody writes the name, and `r` neither leaves its section nor, if so told, finds the owner alive. */
  predicate LetsGo(c: Setup, a: Action, r: Process, n: Name, foundDead: bool) {
    && (a.Write? ==> LeaseName(c, a.r) != n)
    && a != Unlock(r) && a != Crash(r)
    && (foundDead && a.Examine? && a.r == r && a.name == n ==> a.dead)
  }

  /** The reap of `r` is on its way to the file, or the file is gone. */
  ghost predicate OnItsWayOut(c: Setup, s: System, r: Process, n: Name, foundDead: bool) {
    && PhaseOf(s, r).Inside?
    && (n in s.leases ==>
          && Abandoned(c, s.leases[n], r, s.now, foundDead)
          && match PhaseOf(s, r).section
             case Entered => true
             case Reaping(todo, _) => n in todo
             case Removing(name, todo, _) => name == n || n in todo
             case _ => false)
  }

  lemma StaysOnItsWayOut(c: Setup, s: System, a: Action, r: Process, n: Name, foundDead: bool)
    requires OnItsWayOut(c, s, r, n, foundDead) && Next(c, s, a).Some? && LetsGo(c, a, r, n, foundDead)
    ensures OnItsWayOut(c, Next(c, s, a).value, r, n, foundDead)
  {
    var t := Next(c, s, a).value;
    if n in t.leases {
      assert n in s.leases && t.leases[n] == s.leases[n];
      if a.Examine? && a.r == r {
        var todo := PhaseOf(s, r).section.todo;
        assert todo == [todo[0]] + todo[1..];
      }
    }
  }

  lemma {:induction false} AbandonedLeaseGoes(c: Setup, s: System, actions: seq<Action>, r: Process, n: Name,
                                             foundDead: bool)
    requires OnItsWayOut(c, s, r, n, foundDead) && Run(c, s, actions).Some?
    requires forall a :: a in actions ==> LetsGo(c, a, r, n, foundDead)
    ensures OnItsWayOut(c, Run(c, s, actions).value, r, n, foundDead)
    decreases |actions|
  {
    if actions != [] {
      assert LetsGo(c, actions[0], r, n, foundDead);
      StaysOnItsWayOut(c, s, actions[0], r, n, foundDead);
      AbandonedLeaseGoes(c, Next(c, s, actions[0]).value, actions[1..], r, n, foundDead);
    }
  }

  /** Whoever is in its section has counted, or is already past that. */
  predicate HasCounted(p: Phase) {
    p.Inside? && (p.section.Counted? || p.section.Approved? || p.section.Leaving?)
  }

  /** No slot is held for good: whatever the others do meanwhile, once a section that began with an abandoned
      lease has counted, the lease is no longer in the directory. */
  lemma CountedSectionLeavesNoAbandonedLease(c: Setup, s: System, actions: seq<Action>, r: Process, n: Name,
                                             foundDead: bool)
    requires PhaseOf(s, r).Inside? && PhaseOf(s, r).section.Entered?
    requires n in s.leases ==> Abandoned(c, s.leases[n], r, s.now, foundDead)
    requires Run(c, s, actions).Some? && HasCounted(PhaseOf(Run(c, s, actions).value, r))
    requires forall a :: a in actions ==> LetsGo(c, a, r, n, foundDead)
    ensures n !in Run(c, s, actions).value.leases
  {
    AbandonedLeaseGoes(c, s, actions, r, n, foundDead);
  }

  predicate Leaves(c: Setup, a: Action, n: Name) {
    a.Write? ==> LeaseName(c, a.r) != n
  }

  /** And it does not come back by itself. */
  lemma {:induction false} GoneStaysGone(c: Setup, s: System, actions: seq<Action>, n: Name)
    requires n !in s.leases && Run(c, s, actions).Some?
    requires forall a :: a in actions ==> Leaves(c, a, n)
    ensures n !in Run(c, s, actions).value.leases
    decreases |actions|
  {
    if actions != [] {
      assert Leaves(c, actions[0], n);
      GoneStaysGone(c, Next(c, s, actions[0]).value, actions[1..], n);
    }
  }

  /** Nobody writes a lease, and `r` stays in its section. */
  predicate Quiet(a: Action, r: Process) {
    !a.Write? && a != Unlock(r) && a != Crash(r)
  }

  /** Every lease is abandoned, and the reap of `r` has seen none that stays. */
  ghost predicate AllOnTheirWayOut(c: Setup, s: System, r: Process) {
    && (forall n :: n in s.leases ==> Abandoned(c, s.leases[n], r, s.now, false))
    && PhaseOf(s, r).Inside?
    && match PhaseOf(s, r).section
       case Entered => true
       case Reaping(_, seen) => seen == {}
       case Removing(_, _, seen) => seen == {}
       case Counted(live) => live == 0
       case _ => true
  }

  lemma {:induction false} AllStayOnTheirWayOut(c: Setup, s: System, actions: seq<Action>, r: Process)
    requires AllOnTheirWayOut(c, s, r) && Run(c, s, actions).Some?
    requires forall a :: a in actions ==> Quiet(a, r)
    ensures AllOnTheirWayOut(c, Run(c, s, actions).value, r)
    decreases |actions|
  {
    if actions != [] {
      var t := Next(c, s, actions[0]).value;
      assert Quiet(actions[0], r);
      assert forall n :: n in t.leases ==> n in s.leases && t.leases[n] == s.leases[n];
      AllStayOnTheirWayOut(c, t, actions[1..], r);
    }
  }

  /** A fleet whose jobs are all gone counts nobody: the next section finds zero live leases, and its job is
      let in. */
  lemma GoneFleetCountsZero(c: Setup, s: System, actions: seq<Action>, r: Process)
    requires PhaseOf(s, r).Inside? && PhaseOf(s, r).section.Entered?
    requires forall n :: n in s.leases ==> Abandoned(c, s.leases[n], r, s.now, false)
    requires Run(c, s, actions).Some? && PhaseOf(Run(c, s, actions).value, r).Inside?
    requires PhaseOf(Run(c, s, actions).value, r).section.Counted?
    requires forall a :: a in actions ==> Quiet(a, r)
    ensures var t := Run(c, s, actions).value;
            && PhaseOf(t, r).section.live == 0
            && forall load1, freeMemGb, history ::
                 Next(c, t, Check(r, load1, freeMemGb, history)).Some?
                 && PhaseOf(Next(c, t, Check(r, load1, freeMemGb, history)).value, r).section == Approved
  {
    AllStayOnTheirWayOut(c, s, actions, r);
    var t := Run(c, s, actions).value;
    forall load1, freeMemGb, history
      ensures Next(c, t, Check(r, load1, freeMemGb, history)).Some?
              && PhaseOf(Next(c, t, Check(r, load1, freeMemGb, history)).value, r).section == Approved
    {
      IdleFleetIsAdmitted(c.budget(r), Machine(c.cores, load1, freeMemGb), CeilingOf(c, r), history, c.breach);
    }
  }

  // ----- slots are given -----

  /** Under an operator's limit of `k` jobs and without readings of load and memory, a section that counted
      fewer than half of them live lets its job in, and one that counted `k` (but some) does not. */
  lemma RoomIsGiven(c: Setup, s: System, r: Process, k: int, history: seq<real>)
    requires PhaseOf(s, r).Inside? && PhaseOf(s, r).section.Counted? && c.budget(r).maxJobs == Some(k)
    ensures var live := PhaseOf(s, r).section.live;
            var t := Next(c, s, Check(r, None, None, history));
            && t.Some?
            && (2 * (live + 1) <= k || live == 0 ==> PhaseOf(t.value, r).section == Approved)
            && (live >= k && live > 0 ==> PhaseOf(t.value, r).section == Leaving)
  {
    var live := PhaseOf(s, r).section.live;
    if live >= k && live > 0 {
      assert live + 1 > CeilingOf(c, r);
    }
  }

  // ----- the imperative store, and the section it runs undisturbed -----

  /** The leases a reap leaves. */
  function Kept(leases: map<Name, LeaseFile>, excluded: Option<Owner>, now: int, dead: Name -> bool):
    map<Name, LeaseFile>
  {
    map n | n in leases && !Reapable(leases[n], excluded, now, dead(n)) :: leases[n]
  }

  /** A reap that still has to look at `todo`. */
  function KeptOf(leases: map<Name, LeaseFile>, todo: seq<Name>, excluded: Option<Owner>, now: int, dead: Name -> bool):
    map<Name, LeaseFile>
  {
    map n | n in leases && (n in todo ==> !Reapable(leases[n], excluded, now, dead(n))) :: leases[n]
  }

  // The pass, file by file: what is left, and the count.

  function Reaped(leases: map<Name, LeaseFile>, looked: seq<Name>, excluded: Option<Owner>, now: int,
                  dead: Name -> bool): map<Name, LeaseFile>
  {
    if looked == [] then leases else
      var n, before := looked[|looked| - 1], Reaped(leases, looked[..|looked| - 1], excluded, now, dead);
      if n !in before || Reapable(before[n], excluded, now, dead(n)) then before - {n} else before
  }

  function LiveIn(leases: map<Name, LeaseFile>, looked: seq<Name>, excluded: Option<Owner>, now: int,
                  dead: Name -> bool): nat
  {
    if looked == [] then 0 else
      var n, before := looked[|looked| - 1], looked[..|looked| - 1];
      var left := Reaped(leases, before, excluded, now, dead);
      LiveIn(leases, before, excluded, now, dead)
        + if n !in left || Reapable(left[n], excluded, now, dead(n)) then 0 else 1
  }

  /** The leases among the files looked at. */
  function SeenIn(leases: map<Name, LeaseFile>, looked: seq<Name>): set<Name> {
    set n | n in leases && n in looked
  }

  /** What looking at one more file changes. */
  lemma KeptNext(leases: map<Name, LeaseFile>, looked: seq<Name>, n: Name, excluded: Option<Owner>, now: int,
                 dead: Name -> bool)
    requires n in leases && n !in looked
    ensures var kept, next := KeptOf(leases, looked, excluded, now, dead), KeptOf(leases, looked + [n], excluded, now, dead);
            var gone := Reapable(leases[n], excluded, now, dead(n));
            && n in kept && kept[n] == leases[n] && n !in SeenIn(kept, looked)
            && next == (if gone then kept - {n} else kept)
            && SeenIn(next, looked + [n]) == SeenIn(kept, looked) + if gone then {} else {n}
  {
    forall m ensures m in looked + [n] <==> m in looked || m == n {
    }
  }

  lemma {:induction false} ReapedIsKept(leases: map<Name, LeaseFile>, looked: seq<Name>, excluded: Option<Owner>,
                                       now: int, dead: Name -> bool)
    requires Distinct(looked) && forall n :: n in looked ==> n in leases
    ensures var kept := KeptOf(leases, looked, excluded, now, dead);
            && Reaped(leases, looked, excluded, now, dead) == kept
            && LiveIn(leases, looked, excluded, now, dead) == |SeenIn(kept, looked)|
  {
    if looked == [] {
      assert KeptOf(leases, looked, excluded, now, dead) == leases && SeenIn(leases, looked) == {};
    } else {
      var before, n := looked[..|looked| - 1], looked[|looked| - 1];
      assert before + [n] == looked;
      ReapedIsKept(leases, before, excluded, now, dead);
      KeptNext(leases, before, n, excluded, now, dead);
    }
  }

  lemma WholeListing(leases: map<Name, LeaseFile>, listing: seq<Name>, excluded: Option<Owner>, now: int,
                     dead: Name -> bool)
    requires Distinct(listing) && forall n :: n in leases <==> n in listing
    ensures var kept := Kept(leases, excluded, now, dead);
            && Reaped(leases, listing, excluded, now, dead) == kept
            && LiveIn(leases, listing, excluded, now, dead) == |kept|
  {
    var kept := Kept(leases, excluded, now, dead);
    ReapedIsKept(leases, listing, excluded, now, dead);
    assert KeptOf(leases, listing, excluded, now, dead) == kept;
    assert SeenIn(kept, listing) == kept.Keys;
  }

  class LeaseStore {
    var leases: map<Name, LeaseFile>

    /** `reap`: one pass over the directory listing, deleting dead leases and counting the others. */
    method Reap(excluded: Option<Owner>, listing: seq<Name>, now: int, dead: Name -> bool) returns (live: nat)
      requires Distinct(listing) && (forall n :: n in leases <==> n in listing)
      modifies this
      ensures leases == Kept(old(leases), excluded, now, dead)
      ensures live == |leases|
    {
      live := 0;
      ghost var before := leases;
      for i := 0 to |listing|
        invariant leases == Reaped(before, listing[..i], excluded, now, dead)
        invariant live == LiveIn(before, listing[..i], excluded, now, dead)
      {
        var n := listing[i];
        assert listing[..i + 1][..i] == listing[..i];
        if n !in leases || Reapable(leases[n], excluded, now, dead(n)) {
          leases := leases - {n};
        } else {
          live := live + 1;
        }
      }
      assert listing[..|listing|] == listing;
      WholeListing(before, listing, excluded, now, dead);
    }

    /** `acquire` once the lock is held: reap, check, and reserve under the owner's name. */
    method Acquire(c: Setup, r: Process, pidOwned: bool, listing: seq<Name>, now: int, dead: Name -> bool,
                   load1: Option<real>, freeMemGb: Option<real>, history: seq<real>) returns (granted: bool, live: nat)
      requires Distinct(listing) && (forall n :: n in leases <==> n in listing)
      modifies this
      ensures var kept := Kept(old(leases), Some(c.ownerOf(r)), now, dead);
              && live == |kept|
              && granted == CapacityAdmits(c.budget(r), Machine(c.cores, load1, freeMemGb), CeilingOf(c, r),
                                           history, c.breach, live)
              && leases == if granted then kept[LeaseName(c, r) := Lease(c.ownerOf(r), pidOwned, now)] else kept
      ensures old(|leases|) <= CeilingOf(c, r) ==> |leases| <= CeilingOf(c, r)
    {
      live := Reap(Some(c.ownerOf(r)), listing, now, dead);
      KeptIsSmaller(old(leases), Some(c.ownerOf(r)), now, dead);
      granted := CapacityAdmits(c.budget(r), Machine(c.cores, load1, freeMemGb), CeilingOf(c, r),
                                history, c.breach, live);
      if granted {
        AdmittedFitsCeiling(c.budget(r), Machine(c.cores, load1, freeMemGb), CeilingOf(c, r),
                            history, c.breach, live);
        OneMoreLease(leases, LeaseName(c, r), Lease(c.ownerOf(r), pidOwned, now));
        leases := leases[LeaseName(c, r) := Lease(c.ownerOf(r), pidOwned, now)];
      }
    }

    /** `release`: the slot is freed and the time it was held is measured. */
    method Release(n: Name, started: int, now: int) returns (duration: int)
      modifies this
      ensures leases == old(leases) - {n}
      ensures duration >= 0 && (now >= started ==> started + duration == now)
    {
      duration := Max(0, now - started);
      leases := leases - {n};
    }
  }

  /** Another owner's live lease sits under the file name this owner would use. */
  ghost predicate Namesake(c: Setup, leases: map<Name, LeaseFile>, r: Process, now: int, dead: Name -> bool) {
    var n := LeaseName(c, r);
    && n in leases && leases[n].Lease? && leases[n].owner != c.ownerOf(r)
    && !Reapable(leases[n], Some(c.ownerOf(r)), now, dead(n))
  }

  /** Releasing what was just acquired leaves what the reap had kept, exactly when no other live owner has
      the same file name: then the reservation overwrote its lease, and the release freed its slot. */
  lemma ReleaseUndoesAcquireIffNoNamesake(c: Setup, leases: map<Name, LeaseFile>, r: Process, pidOwned: bool,
                                          now: int, dead: Name -> bool)
    ensures var kept := Kept(leases, Some(c.ownerOf(r)), now, dead);
            var n := LeaseName(c, r);
            kept[n := Lease(c.ownerOf(r), pidOwned, now)] - {n} == kept <==> !Namesake(c, leases, r, now, dead)
  {
    var kept := Kept(leases, Some(c.ownerOf(r)), now, dead);
    var n := LeaseName(c, r);
    assert n in kept <==> Namesake(c, leases, r, now, dead);
    if n !in kept {
      assert kept[n := Lease(c.ownerOf(r), pidOwned, now)] - {n} == kept;
    } else {
      assert n !in kept[n := Lease(c.ownerOf(r), pidOwned, now)] - {n};
    }
  }

  lemma KeptIsSmaller(leases: map<Name, LeaseFile>, excluded: Option<Owner>, now: int, dead: Name -> bool)
    ensures |Kept(leases, excluded, now, dead)| <= |leases|
  {
    var kept := Kept(leases, excluded, now, dead);
    assert kept.Keys <= leases.Keys;
    SubsetSize(kept.Keys, leases.Keys);
  }

  /** The reap of one section as protocol steps: read each file, and unlink it if it goes. */
  function ExamineAll(c: Setup, s: System, r: Process, todo: seq<Name>, dead: Name -> bool): seq<Action> {
    if todo == [] then [] else
      ExamineOne(c, s, r, todo[0], dead) + ExamineAll(c, s, r, todo[1..], dead)
  }

  function ExamineOne(c: Setup, s: System, r: Process, n: Name, dead: Name -> bool): seq<Action> {
    [Examine(r, n, dead(n))] + if Goes(c, s, r, n, dead) then [Clear(r)] else []
  }

  predicate Goes(c: Setup, s: System, r: Process, n: Name, dead: Name -> bool) {
    n !in s.leases || Reapable(s.leases[n], Some(c.ownerOf(r)), s.now, dead(n))
  }

  /** Undisturbed, the steps of a section do what the store's loop does: the same files go, and the
      names seen are exactly those that stay. */
  lemma {:induction false} UndisturbedReap(c: Setup, s0: System, s: System, r: Process, todo: seq<Name>,
                                          seen: set<Name>, dead: Name -> bool)
    requires PhaseOf(s, r) == Inside(true, Reaping(todo, seen)) && Distinct(todo) && s.now == s0.now
    requires (forall n :: n in s.leases <==> n in seen || n in todo) && (forall n :: n in seen ==> n !in todo)
    requires forall n :: n in todo ==> n in s0.leases && s0.leases[n] == s.leases[n]
    ensures var left := KeptOf(s.leases, todo, Some(c.ownerOf(r)), s.now, dead);
            Run(c, s, ExamineAll(c, s0, r, todo, dead))
            == Some(Goto(s, r, Inside(true, Reaping([], left.Keys))).(leases := left))
    decreases |todo|
  {
    var left := KeptOf(s.leases, todo, Some(c.ownerOf(r)), s.now, dead);
    if todo == [] {
      assert left == s.leases && left.Keys == seen;
      assert s.phases[r := PhaseOf(s, r)] == s.phases;
    } else {
      var n := todo[0];
      var gone := Goes(c, s0, r, n, dead);
      var seen' := if gone then seen else seen + {n};
      var leases' := if gone then s.leases - {n} else s.leases;
      var t := Goto(s, r, Inside(true, Reaping(todo[1..], seen'))).(leases := leases');
      DistinctTail(todo);
      assert todo == [n] + todo[1..];
      KeptOneLess(s.leases, todo, Some(c.ownerOf(r)), s.now, dead);
      UndisturbedReap(c, s0, t, r, todo[1..], seen', dead);
      ExamineFirst(c, s0, s, r, todo, seen, dead);
      RunConcat(c, s, ExamineOne(c, s0, r, n, dead), ExamineAll(c, s0, r, todo[1..], dead));
      GotoTwice(s, r, Inside(true, Reaping(todo[1..], seen')), leases', Inside(true, Reaping([], left.Keys)), left);
    }
  }

  lemma ExamineFirst(c: Setup, s0: System, s: System, r: Process, todo: seq<Name>, seen: set<Name>, dead: Name -> bool)
    requires PhaseOf(s, r) == Inside(true, Reaping(todo, seen)) && s.now == s0.now
    requires todo != [] && todo[0] in s.leases && todo[0] in s0.leases && s.leases[todo[0]] == s0.leases[todo[0]]
    ensures var n := todo[0];
            var gone := Goes(c, s0, r, n, dead);
            Run(c, s, ExamineOne(c, s0, r, n, dead)) ==
            Some(Goto(s, r, Inside(true, Reaping(todo[1..], if gone then seen else seen + {n})))
                   .(leases := if gone then s.leases - {n} else s.leases))
  {
    var t := Next(c, s, Examine(r, todo[0], dead(todo[0]))).value;
    if Goes(c, s0, r, todo[0], dead) {
      assert ExamineOne(c, s0, r, todo[0], dead) == [Examine(r, todo[0], dead(todo[0])), Clear(r)];
      FourSteps(c, s, [Examine(r, todo[0], dead(todo[0])), Clear(r)]);
      var p := Inside(true, Reaping(todo[1..], seen));
      assert t.phases[r := p] == s.phases[r := p];
    } else {
      assert ExamineOne(c, s0, r, todo[0], dead) == [Examine(r, todo[0], dead(todo[0]))];
      assert [Examine(r, todo[0], dead(todo[0]))][1..] == [];
    }
  }

  lemma GotoTwice(s: System, r: Process, p: Phase, some: map<Name, LeaseFile>, q: Phase, left: map<Name, LeaseFile>)
    ensures Goto(Goto(s, r, p).(leases := some), r, q).(leases := left) == Goto(s, r, q).(leases := left)
  {
    assert s.phases[r := p][r := q] == s.phases[r := q];
  }

  lemma KeptOneLess(leases: map<Name, LeaseFile>, todo: seq<Name>, excluded: Option<Owner>, now: int, dead: Name -> bool)
    requires todo != [] && todo[0] in leases
    ensures var gone := Reapable(leases[todo[0]], excluded, now, dead(todo[0]));
            KeptOf(if gone then leases - {todo[0]} else leases, todo[1..], excluded, now, dead)
            == KeptOf(leases, todo, excluded, now, dead)
  {
    assert todo == [todo[0]] + todo[1..];
  }

  // ----- why the assumptions are needed -----

  function CheckIn(r: Process): seq<Action> {
    [BeginReap(r, []), FinishReap(r), Check(r, None, None, [])]
  }

  /** The ways past the lock: a waiter loses patience, a slow holder's lock is stolen, or two waiters steal
      the lock of a crashed process and the second removes the first one's. */
  datatype Valve = Impatience | SlowHolder | TwoStealers(crashed: Process)

  /** How the first process gets in and up to its reservation. */
  function FirstIn(a: Process, b: Process, v: Valve): seq<Action> {
    match v
    case TwoStealers(h) =>
      [Start(h), TakeLock(h), Crash(h)] + ([Tick(LOCK_STALE_S + 1)] +
        ([Start(a), Start(b), SeeStale(a), SeeStale(b)] + ([UnlinkLock(a), TakeLock(a)] + CheckIn(a))))
    case _ => [Start(a), TakeLock(a)] + CheckIn(a)
  }

  /** How the second one follows. */
  function ForceIn(b: Process, v: Valve): seq<Action> {
    match v
    case Impatience => [Start(b), Tick(LOCK_WAIT_S), GiveUp(b)]
    case SlowHolder => [Tick(LOCK_STALE_S + 1), Start(b)] + [SeeStale(b), UnlinkLock(b), TakeLock(b)]
    case TwoStealers(_) => [UnlinkLock(b), TakeLock(b)]
  }

  function OvershootingRun(a: Process, b: Process, v: Valve): seq<Action> {
    FirstIn(a, b, v) + (ForceIn(b, v) + (CheckIn(b) + [Write(a, false), Write(b, false)]))
  }

  /** Each way ends with two leases under a ceiling of one, although the count was exact each time it was
      taken. */
  lemma ValvesCanOvershoot(c: Setup, a: Process, b: Process, v: Valve)
    requires a != b && LeaseName(c, a) != LeaseName(c, b)
    requires c.budget(a).maxJobs == Some(1) && c.budget(b).maxJobs == Some(1)
    requires v.TwoStealers? ==> v.crashed != a && v.crashed != b
    ensures var r := Run(c, INITIAL, OvershootingRun(a, b, v)); r.Some? && |r.value.leases| == 2
  {
    var s1 := RunFirst(c, a, b, v);
    var s2 := RunIn(c, s1, a, b, v);
    var s3 := ApproveEmpty(c, s2, b);
    WriteBoth(c, s3, a, b);
    var writes := [Write(a, false), Write(b, false)];
    RunConcat(c, INITIAL, FirstIn(a, b, v), ForceIn(b, v) + (CheckIn(b) + writes));
    RunConcat(c, s1, ForceIn(b, v), CheckIn(b) + writes);
    RunConcat(c, s2, CheckIn(b), writes);
  }

  lemma {:induction false} RunConcat(c: Setup, s: System, x: seq<Action>, y: seq<Action>)
    requires Run(c, s, x).Some?
    ensures Run(c, s, x + y) == Run(c, Run(c, s, x).value, y)
    decreases |x|
  {
    if x == [] {
      assert x + y == y;
    } else {
      assert (x + y)[1..] == x[1..] + y;
      RunConcat(c, Next(c, s, x[0]).value, x[1..], y);
    }
  }

  /** A process that finds an empty directory is approved. */
  lemma ApproveEmpty(c: Setup, s: System, r: Process) returns (t: System)
    requires s.leases == map[] && PhaseOf(s, r).Inside? && PhaseOf(s, r).section == Entered
    requires c.budget(r).maxJobs == Some(1)
    ensures Run(c, s, CheckIn(r)) == Some(t)
    ensures t == s.(phases := t.phases) && PhaseOf(t, r) == Inside(PhaseOf(s, r).locked, Approved)
    ensures forall q :: q != r ==> PhaseOf(t, q) == PhaseOf(s, q)
  {
    var s1 := Next(c, s, BeginReap(r, [])).value;
    var s2 := Next(c, s1, FinishReap(r)).value;
    IdleFleetIsAdmitted(c.budget(r), Machine(c.cores, None, None), CeilingOf(c, r), [], c.breach);
    t := Next(c, s2, Check(r, None, None, [])).value;
    FourSteps(c, s, CheckIn(r));
  }

  /** The first process stands approved, with the lock; the second idles or is about to remove a lock. */
  ghost predicate FirstApproved(s: System, a: Process, b: Process, v: Valve) {
    && s.leases == map[] && s.lock == Some(a) && s.lockSince == s.now
    && PhaseOf(s, a) == Inside(true, Approved)
    && PhaseOf(s, b) == if v.TwoStealers? then Stealing(s.now) else Idle
  }

  lemma RunFirst(c: Setup, a: Process, b: Process, v: Valve) returns (s: System)
    requires a != b && c.budget(a).maxJobs == Some(1)
    requires v.TwoStealers? ==> v.crashed != a && v.crashed != b
    ensures Run(c, INITIAL, FirstIn(a, b, v)) == Some(s) && FirstApproved(s, a, b, v)
  {
    if v.TwoStealers? {
      var s1 := LeaveStale(c, v.crashed);
      var s2 := BothSeeStale(c, s1, a, b);
      var s3 := TakeAfterUnlink(c, s2, a);
      s := ApproveEmpty(c, s3, a);
      var left := [Start(v.crashed), TakeLock(v.crashed), Crash(v.crashed)] + [Tick(LOCK_STALE_S + 1)];
      var seen := [Start(a), Start(b), SeeStale(a), SeeStale(b)];
      RunConcat(c, INITIAL, left, seen + ([UnlinkLock(a), TakeLock(a)] + CheckIn(a)));
      RunConcat(c, s1, seen, [UnlinkLock(a), TakeLock(a)] + CheckIn(a));
      RunConcat(c, s2, [UnlinkLock(a), TakeLock(a)], CheckIn(a));
      assert left + (seen + ([UnlinkLock(a), TakeLock(a)] + CheckIn(a))) == FirstIn(a, b, v);
    } else {
      var s1 := Next(c, INITIAL, Start(a)).value;
      var s2 := Next(c, s1, TakeLock(a)).value;
      FourSteps(c, INITIAL, [Start(a), TakeLock(a)]);
      s := ApproveEmpty(c, s2, a);
      RunConcat(c, INITIAL, [Start(a), TakeLock(a)], CheckIn(a));
    }
  }

  /** A crash leaves a lock behind, and a minute later it is stale. */
  lemma LeaveStale(c: Setup, h: Process) returns (s: System)
    ensures Run(c, INITIAL, [Start(h), TakeLock(h), Crash(h)] + [Tick(LOCK_STALE_S + 1)]) == Some(s)
    ensures s == System(LOCK_STALE_S + 1, Some(h), 0, map[], map[h := Idle])
  {
    var s1 := Next(c, INITIAL, Start(h)).value;
    var s2 := Next(c, s1, TakeLock(h)).value;
    var s3 := Next(c, s2, Crash(h)).value;
    s := Next(c, s3, Tick(LOCK_STALE_S + 1)).value;
    FourSteps(c, INITIAL, [Start(h), TakeLock(h), Crash(h)] + [Tick(LOCK_STALE_S + 1)]);
    assert s.phases == map[h := Idle];
  }

  lemma BothSeeStale(c: Setup, s: System, a: Process, b: Process) returns (t: System)
    requires a != b && PhaseOf(s, a).Idle? && PhaseOf(s, b).Idle?
    requires s.lock.Some? && s.now - s.lockSince > LOCK_STALE_S
    ensures Run(c, s, [Start(a), Start(b), SeeStale(a), SeeStale(b)]) == Some(t)
    ensures t == s.(phases := t.phases) && PhaseOf(t, a) == Stealing(s.now) && PhaseOf(t, b) == Stealing(s.now)
  {
    var s1 := Next(c, s, Start(a)).value;
    var s2 := Next(c, s1, Start(b)).value;
    var s3 := Next(c, s2, SeeStale(a)).value;
    t := Next(c, s3, SeeStale(b)).value;
    FourSteps(c, s, [Start(a), Start(b), SeeStale(a), SeeStale(b)]);
  }

  lemma TakeAfterUnlink(c: Setup, s: System, r: Process) returns (t: System)
    requires PhaseOf(s, r).Stealing?
    ensures Run(c, s, [UnlinkLock(r), TakeLock(r)]) == Some(t)
    ensures t == s.(phases := t.phases, lock := Some(r), lockSince := s.now)
    ensures PhaseOf(t, r) == Inside(true, Entered) && forall q :: q != r ==> PhaseOf(t, q) == PhaseOf(s, q)
  {
    var s1 := Next(c, s, UnlinkLock(r)).value;
    t := Next(c, s1, TakeLock(r)).value;
    FourSteps(c, s, [UnlinkLock(r), TakeLock(r)]);
  }

  lemma RunIn(c: Setup, s: System, a: Process, b: Process, v: Valve) returns (t: System)
    requires a != b && FirstApproved(s, a, b, v)
    ensures Run(c, s, ForceIn(b, v)) == Some(t)
    ensures t.leases == map[] && PhaseOf(t, a) == Inside(true, Approved)
    ensures PhaseOf(t, b).Inside? && PhaseOf(t, b).section == Entered
  {
    match v
    case Impatience =>
      var s1 := Next(c, s, Start(b)).value;
      var s2 := Next(c, s1, Tick(LOCK_WAIT_S)).value;
      t := Next(c, s2, GiveUp(b)).value;
      FourSteps(c, s, ForceIn(b, v));
    case SlowHolder =>
      var s1 := Next(c, s, Tick(LOCK_STALE_S + 1)).value;
      var s2 := Next(c, s1, Start(b)).value;
      var s3 := Next(c, s2, SeeStale(b)).value;
      var s4 := Next(c, s3, UnlinkLock(b)).value;
      t := Next(c, s4, TakeLock(b)).value;
      FourSteps(c, s, [Tick(LOCK_STALE_S + 1), Start(b)]);
      FourSteps(c, s2, [SeeStale(b), UnlinkLock(b), TakeLock(b)]);
      RunConcat(c, s, [Tick(LOCK_STALE_S + 1), Start(b)], [SeeStale(b), UnlinkLock(b), TakeLock(b)]);
    case TwoStealers(_) =>
      t := TakeAfterUnlink(c, s, b);
  }

  /** Two approved processes both write. */
  lemma WriteBoth(c: Setup, s: System, a: Process, b: Process)
    requires a != b && LeaseName(c, a) != LeaseName(c, b) && s.leases == map[]
    requires PhaseOf(s, a).Inside? && PhaseOf(s, a).section == Approved
    requires PhaseOf(s, b).Inside? && PhaseOf(s, b).section == Approved
    ensures var r := Run(c, s, [Write(a, false), Write(b, false)]); r.Some? && |r.value.leases| == 2
  {
    var s1 := Next(c, s, Write(a, false)).value;
    var s2 := Next(c, s1, Write(b, false)).value;
    FourSteps(c, s, [Write(a, false), Write(b, false)]);
    assert s2.leases.Keys == {LeaseName(c, a), LeaseName(c, b)};
  }

  /** A short run, unrolled. */
  lemma FourSteps(c: Setup, s: System, x: seq<Action>)
    requires 2 <= |x| <= 4
    ensures Run(c, s, x) == Then(c, Then(c, Then(c, Then(c, Some(s), x, 0), x, 1), x, 2), x, 3)
  {
    var s1 := Then(c, Some(s), x, 0);
    var s2 := Then(c, s1, x, 1);
    var s3 := Then(c, s2, x, 2);
    var s4 := Then(c, s3, x, 3);
    RunFrom(c, s, x, 0);
    if s1.Some? { RunFrom(c, s1.value, x, 1); }
    if s2.Some? { RunFrom(c, s2.value, x, 2); }
    if s3.Some? && |x| > 2 { RunFrom(c, s3.value, x, 3); }
    if s4.Some? && |x| > 3 { RunFrom(c, s4.value, x, 4); }
    assert x[0..] == x;
  }

  function Then(c: Setup, s: Option<System>, x: seq<Action>, i: nat): Option<System> {
    if s.None? || i >= |x| then s else Next(c, s.value, x[i])
  }

  lemma RunFrom(c: Setup, s: System, x: seq<Action>, i: nat)
    requires i <= |x|
    ensures i == |x| ==> Run(c, s, x[i..]) == Some(s)
    ensures i < |x| && Next(c, s, x[i]).Some? ==> Run(c, s, x[i..]) == Run(c, Next(c, s, x[i]).value, x[i + 1..])
    ensures i < |x| && Next(c, s, x[i]).None? ==> Run(c, s, x[i..]) == None
  {
    if i < |x| {
      assert x[i..][1..] == x[i + 1..];
    }
  }

  // ----- two stealers need no lateness -----

  /** Everybody who waits has just begun to, and a lock held inside is new. */
  ghost predicate Fresh(s: System) {
    && (HeldInside(s) ==> s.lockSince == s.now)
    && (forall r :: r in s.phases && (s.phases[r].Waiting? || s.phases[r].Stealing?) ==> s.phases[r].since == s.now)
  }

  lemma FreshIsCalm(s: System)
    requires Fresh(s)
    ensures Calm(s)
  {
    forall r | r in s.phases && s.phases[r].Inside? && s.lock == Some(r) ensures s.lockSince == s.now {
      assert HeldInside(s);
    }
  }

  lemma FreshStep(c: Setup, s: System, a: Action)
    requires Fresh(s) && !a.Tick? && Next(c, s, a).Some?
    ensures Fresh(Next(c, s, a).value)
  {
    var t := Next(c, s, a).value;
    if HeldInside(t) && !a.TakeLock? {
      assert t.lock == s.lock && t.lockSince == s.lockSince;
    }
  }

  predicate TickFree(actions: seq<Action>) {
    forall a :: a in actions ==> !a.Tick?
  }

  lemma {:induction false} FreshRunIsCalm(c: Setup, s: System, actions: seq<Action>)
    requires Fresh(s) && TickFree(actions)
    ensures CalmRun(c, s, actions)
    decreases |actions|
  {
    FreshIsCalm(s);
    if actions != [] && Next(c, s, actions[0]).Some? {
      assert actions[0] in actions;
      FreshStep(c, s, actions[0]);
      FreshRunIsCalm(c, Next(c, s, actions[0]).value, actions[1..]);
    }
  }

  lemma {:induction false} CalmRunConcat(c: Setup, s: System, x: seq<Action>, y: seq<Action>)
    requires Run(c, s, x).Some? && CalmRun(c, s, x) && CalmRun(c, Run(c, s, x).value, y)
    ensures CalmRun(c, s, x + y)
    decreases |x|
  {
    if x == [] {
      assert x + y == y;
    } else {
      assert (x + y)[0] == x[0] && (x + y)[1..] == x[1..] + y;
      CalmRunConcat(c, Next(c, s, x[0]).value, x[1..], y);
    }
  }

  /** The two stealers' run from the moment the lock is stale. */
  function AfterTick(a: Process, b: Process): (r: seq<Action>)
    ensures TickFree(r)
  {
    var first := [Start(a), Start(b), SeeStale(a), SeeStale(b)] + ([UnlinkLock(a), TakeLock(a)] + CheckIn(a));
    var second := [UnlinkLock(b), TakeLock(b)] + (CheckIn(b) + [Write(a, false), Write(b, false)]);
    assert TickFree(first) && TickFree(second);
    first + second
  }

  /** The run of the two stealers is calm from end to end: nobody inside overstays and nobody waits long, so
      the third assumption of `CalmFleetIsSafe` cannot be dropped. */
  lemma TwoStealersStayCalm(c: Setup, a: Process, b: Process, h: Process)
    requires h != a && h != b && a != b
    ensures CalmRun(c, INITIAL, OvershootingRun(a, b, TwoStealers(h)))
  {
    var s1 := LeaveStale(c, h);
    var left := [Start(h), TakeLock(h), Crash(h)];
    var tick := [Tick(LOCK_STALE_S + 1)];
    var rest := AfterTick(a, b);
    var s0 := Crashed(c, h);
    FreshRunIsCalm(c, INITIAL, left);
    FreshRunIsCalm(c, s1, rest);
    TickIsCalm(c, s0, s1, rest);
    CalmRunConcat(c, INITIAL, left, tick + rest);
    assert left + (tick + rest) == OvershootingRun(a, b, TwoStealers(h));
  }

  lemma Crashed(c: Setup, h: Process) returns (s: System)
    ensures Run(c, INITIAL, [Start(h), TakeLock(h), Crash(h)]) == Some(s)
    ensures s == System(0, Some(h), 0, map[], map[h := Idle])
  {
    var s1 := Next(c, INITIAL, Start(h)).value;
    var s2 := Next(c, s1, TakeLock(h)).value;
    s := Next(c, s2, Crash(h)).value;
    FourSteps(c, INITIAL, [Start(h), TakeLock(h), Crash(h)]);
    assert s.phases == map[h := Idle];
  }

  lemma TickIsCalm(c: Setup, s: System, t: System, rest: seq<Action>)
    requires Fresh(s) && Next(c, s, Tick(LOCK_STALE_S + 1)) == Some(t) && CalmRun(c, t, rest)
    ensures CalmRun(c, s, [Tick(LOCK_STALE_S + 1)] + rest)
  {
    FreshIsCalm(s);
    assert ([Tick(LOCK_STALE_S + 1)] + rest)[1..] == rest;
  }
}
