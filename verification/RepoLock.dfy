/**
 The per-repository lock (src/versions.ts:205-300): any number of processes run tryAcquire, one file-system call
 at a time, over one lock directory and one guard directory.
 */
module RepoLock {
  import opened Options

  type Pid = nat

  /** The lock directory: absent, left behind by a dead owner, or made by a process of this run. */
  datatype Dir = Absent | Left | Made(p: Pid)

  /** How far a process has got.  `Held` and the two states before it hold the lock. */
  datatype Pc =
    | Start          // about to mkdir the lock
    | Check          // it existed: about to stat it, without the guard
    | CheckOwner     // its age was stale: about to read its owner
    | Guard          // it looked stale: about to mkdir the guard
    | Recheck        // guard held: about to stat the lock again
    | ReadOwner      // its age was stale: about to read its owner
    | MoveAside      // about to rename it aside
    | Remake         // about to mkdir the lock
    | Unguard(won: bool)
    | Writing        // made at the first attempt: owner.json not written yet
    | Held

  datatype State = State(dir: Dir, guard: Option<Pid>, pc: map<Pid, Pc>)

  /** `unwritten` says whether a live holder's owner.json is still missing when it is read. */
  datatype Event = Step(p: Pid, unwritten: bool) | Release(p: Pid)

  predicate Guarded(c: Pc) {
    c.Recheck? || c.ReadOwner? || c.MoveAside? || c.Remake? || c.Unguard?
  }

  predicate Holds(c: Pc) {
    c == Unguard(true) || c.Writing? || c.Held?
  }

  /** Found the lock taken, and may still move the directory aside. */
  predicate Reclaiming(c: Pc) {
    c.Check? || c.CheckOwner? || c.Guard? || c.Recheck? || c.ReadOwner? || c.MoveAside?
  }

  predicate Enabled(s: State, e: Event) {
    match e
    case Step(p, _) => p in s.pc && !s.pc[p].Held?
    case Release(p) => p in s.pc && s.pc[p].Held?
  }

  function Goto(s: State, p: Pid, c: Pc): State { s.(pc := s.pc[p := c]) }

  function Next(s: State, e: Event): State
    requires Enabled(s, e)
  {
    match e
    case Release(p) => Goto(s, p, Start).(dir := Absent)
    case Step(p, unwritten) =>
      match s.pc[p]
      case Start => if s.dir.Absent? then Goto(s, p, Writing).(dir := Made(p)) else Goto(s, p, Check)
      // a missing directory counts as stale; one made in this run is kept fresh by its holder
      case Check =>
        (match s.dir
         case Absent => Goto(s, p, Guard)
         case Left => Goto(s, p, CheckOwner)
         case Made(_) => Goto(s, p, Start))
      // an owner that is dead, missing or not written yet leaves the age rule alone
      case CheckOwner => Goto(s, p, if s.dir.Made? && !unwritten then Start else Guard)
      // a guard that exists is younger than staleMs: its maker is alive, and we lose
      case Guard => if s.guard.None? then Goto(s, p, Recheck).(guard := Some(p)) else Goto(s, p, Start)
      // the same two reads again
      case Recheck =>
        (match s.dir
         case Absent => Goto(s, p, MoveAside)
         case Left => Goto(s, p, ReadOwner)
         case Made(_) => Goto(s, p, Unguard(false)))
      case ReadOwner => Goto(s, p, if s.dir.Made? && !unwritten then Unguard(false) else MoveAside)
      case MoveAside => Goto(s, p, Remake).(dir := Absent)
      case Remake => if s.dir.Absent? then Goto(s, p, Unguard(true)).(dir := Made(p)) else Goto(s, p, Unguard(false))
      case Unguard(won) => Goto(s, p, if won then Held else Start).(guard := None)
      case Writing => Goto(s, p, Held)
      case Held => s
  }

  predicate Remaking(s: State) {
    exists q :: q in s.pc && s.pc[q].Remake?
  }

  /** A release comes while nobody is reclaiming, or while the one with the guard is about to make the lock again. */
  predicate Calm(s: State, e: Event) {
    e.Release? ==> Remaking(s) || forall q :: q in s.pc ==> !Reclaiming(s.pc[q])
  }

  ghost predicate Reaches(s: State, es: seq<Event>, t: State)
    decreases es
  {
    if es == [] then s == t else Enabled(s, es[0]) && Reaches(Next(s, es[0]), es[1..], t)
  }

  ghost predicate CalmRun(s: State, es: seq<Event>)
    decreases es
  {
    es != [] ==> Enabled(s, es[0]) && Calm(s, es[0]) && CalmRun(Next(s, es[0]), es[1..])
  }

  // ---- invariant --------------------------------------------------------------------------------------

  /** The guard belongs to the one process inside the guarded section. */
  ghost predicate GuardOwned(s: State) {
    && (forall p :: p in s.pc && Guarded(s.pc[p]) ==> s.guard == Some(p))
    && (s.guard.Some? ==> s.guard.value in s.pc && Guarded(s.pc[s.guard.value]))
  }

  /** Whoever holds the lock made the directory that is there. */
  ghost predicate HolderMade(s: State) {
    forall p :: p in s.pc && Holds(s.pc[p]) ==> s.dir == Made(p)
  }

  /** Only the dead owner's directory is ever moved aside. */
  ghost predicate OnlyStaleMoves(s: State) {
    forall p :: p in s.pc && (s.pc[p].ReadOwner? || s.pc[p].MoveAside?) ==> s.dir == Left
  }

  /** The directory is missing only while a guarded process replaces it, or when nobody is reclaiming. */
  ghost predicate MissingIsGuarded(s: State) {
    s.dir.Absent? ==> Remaking(s) || forall p :: p in s.pc ==> !Reclaiming(s.pc[p])
  }

  /** A directory made in this run is its holder's, and a dead owner's directory does not come back. */
  ghost predicate MadeIsHeld(s: State) {
    && (s.dir.Made? ==> s.dir.p in s.pc && Holds(s.pc[s.dir.p]))
    && (s.dir == Left ==> !Remaking(s))
  }

  ghost predicate Inv(s: State) {
    GuardOwned(s) && HolderMade(s) && OnlyStaleMoves(s) && MissingIsGuarded(s) && MadeIsHeld(s)
  }

  lemma StepKeeps(s: State, e: Event)
    requires Inv(s) && Enabled(s, e) && Calm(s, e)
    ensures Inv(Next(s, e))
  {
    StepMissing(s, e);
    if e.Step? && s.pc[e.p].Recheck? { RecheckSees(s, e.p); }
    StepOwned(s, e);
    StepHolder(s, e);
    StepStale(s, e);
    StepMade(s, e);
    hide Next, GuardOwned, HolderMade, OnlyStaleMoves, MissingIsGuarded, MadeIsHeld;
  }

  lemma StepMade(s: State, e: Event)
    requires HolderMade(s) && MadeIsHeld(s) && Enabled(s, e)
    ensures MadeIsHeld(Next(s, e))
  {
    var t := Next(s, e);
    if t.dir == Left {
      assert s.dir == Left;
      forall p | p in t.pc ensures !t.pc[p].Remake? {
        assert p in s.pc && !s.pc[p].Remake?;
      }
    }
  }

  lemma StepOwned(s: State, e: Event)
    requires GuardOwned(s) && Enabled(s, e)
    ensures GuardOwned(Next(s, e))
  {}

  lemma StepHolder(s: State, e: Event)
    requires GuardOwned(s) && HolderMade(s) && OnlyStaleMoves(s) && Enabled(s, e)
    ensures HolderMade(Next(s, e))
  {}

  lemma StepStale(s: State, e: Event)
    requires GuardOwned(s) && HolderMade(s) && OnlyStaleMoves(s) && Enabled(s, e) && Calm(s, e)
    requires e.Step? && s.pc[e.p].Recheck? ==> !s.dir.Absent?
    ensures OnlyStaleMoves(Next(s, e))
  {}

  lemma StepMissing(s: State, e: Event)
    requires Inv(s) && Enabled(s, e) && Calm(s, e)
    ensures MissingIsGuarded(Next(s, e))
  {
    var t := Next(s, e);
    if t.dir.Absent? && e.Step? {
      if s.pc[e.p].MoveAside? {
        assert t.pc[e.p].Remake?;
      } else if Remaking(s) {
        var p :| p in s.pc && s.pc[p].Remake?;
        assert p in t.pc && t.pc[p].Remake?;
      }
    }
    if t.dir.Absent? && e.Release? && Remaking(s) {
      var p :| p in s.pc && s.pc[p].Remake?;
      assert p in t.pc && t.pc[p].Remake?;
    }
  }

  /** Under the guard the directory cannot be missing: nobody else could have moved it. */
  lemma RecheckSees(s: State, p: Pid)
    requires GuardOwned(s) && MissingIsGuarded(s) && p in s.pc && s.pc[p].Recheck?
    ensures !s.dir.Absent?
  {}

  lemma {:induction false} RunKeeps(s: State, es: seq<Event>, t: State)
    requires Inv(s) && Reaches(s, es, t) && CalmRun(s, es)
    ensures Inv(t)
    decreases es
  {
    hide Inv, Next;
    if es == [] {
    } else {
      StepKeeps(s, es[0]);
      RunKeeps(Next(s, es[0]), es[1..], t);
    }
  }

  /** Processes arriving at a lock that is free or that a dead owner left. */
  ghost predicate Initial(s: State) {
    !s.dir.Made? && s.guard == None && forall p :: p in s.pc ==> s.pc[p] == Start
  }

  /** In every interleaving, as long as releases are calm, at most one process holds the lock. */
  lemma OneHolder(s: State, es: seq<Event>, t: State, p: Pid, q: Pid)
    requires Initial(s) && Reaches(s, es, t) && CalmRun(s, es)
    requires p in t.pc && q in t.pc && Holds(t.pc[p]) && Holds(t.pc[q])
    ensures p == q && t.dir == Made(p)
  {
    RunKeeps(s, es, t);
  }

  /** Nothing but its own release takes the lock from a holder. */
  lemma HolderStays(s: State, e: Event, p: Pid)
    requires Inv(s) && Enabled(s, e) && Calm(s, e) && p in s.pc && Holds(s.pc[p]) && e != Release(p)
    ensures p in Next(s, e).pc && Holds(Next(s, e).pc[p]) && Next(s, e).dir == Made(p)
  {
    StepKeeps(s, e);
  }

  // ---- the lock can be taken --------------------------------------------------------------------------------

  /** p's own steps, from s to t, with p holding the lock at the end. */
  ghost predicate Acquires(s: State, p: Pid, es: seq<Event>, t: State) {
    && (forall e :: e in es ==> e.Step? && e.p == p)
    && Reaches(s, es, t) && p in t.pc && t.pc[p].Held? && t.dir == Made(p)
  }

  /** One more step of p in front. */
  lemma StepToward(s: State, p: Pid, es: seq<Event>, t: State) returns (fs: seq<Event>)
    requires Enabled(s, Step(p, false)) && Acquires(Next(s, Step(p, false)), p, es, t)
    ensures Acquires(s, p, fs, t)
  {
    fs := [Step(p, false)] + es;
    assert fs[0] == Step(p, false) && fs[1..] == es;
  }

  /** p alone: nobody holds the lock, and the guard is free or p's. */
  ghost predicate Alone(s: State, p: Pid) {
    Inv(s) && p in s.pc && !s.dir.Made? && (s.guard == None || s.guard == Some(p))
  }

  /** How many steps p is from holding the lock, alone. */
  function Distance(c: Pc): nat {
    match c
    case Unguard(won) => if won then 1 else 10
    case Start => 9
    case Check => 8
    case CheckOwner => 7
    case Guard => 6
    case Recheck => 5
    case ReadOwner => 4
    case MoveAside => 3
    case Remake => 2
    case Writing => 1
    case Held => 0
  }

  /** A step of p alone brings it nearer, and keeps it alone until it has made the directory. */
  lemma StepNearer(s: State, p: Pid)
    requires Alone(s, p)
    ensures Enabled(s, Step(p, false))
    ensures var t := Next(s, Step(p, false));
      && Inv(t) && p in t.pc && Distance(t.pc[p]) < Distance(s.pc[p])
      && (if t.dir.Made? then t.dir == Made(p) && Holds(t.pc[p]) else Alone(t, p))
  {
    assert !Holds(s.pc[p]);
    StepKeeps(s, Step(p, false));
    assert s.guard == Some(p) ==> Guarded(s.pc[p]);
    hide MissingIsGuarded;
  }

  lemma Finishes(s: State, p: Pid) returns (es: seq<Event>, t: State)
    requires p in s.pc && Holds(s.pc[p]) && s.dir == Made(p)
    ensures Acquires(s, p, es, t)
  {
    if s.pc[p].Held? {
      es, t := [], s;
    } else {
      t := Next(s, Step(p, false));
      assert Acquires(t, p, [], t);
      hide Acquires;
      es := StepToward(s, p, [], t);
    }
  }

  /** A process alone takes the lock by its own steps, whether it finds it free or left by a dead owner. */
  lemma {:induction false} AloneAcquires(s: State, p: Pid) returns (es: seq<Event>, t: State)
    requires Alone(s, p)
    ensures Acquires(s, p, es, t)
    decreases Distance(s.pc[p])
  {
    StepNearer(s, p);
    hide Inv, Acquires, Next;
    var u := Next(s, Step(p, false));
    if u.dir.Made? {
      es, t := Finishes(u, p);
    } else {
      es, t := AloneAcquires(u, p);
    }
    es := StepToward(s, p, es, t);
  }

  /** A lock that is free, or that a dead owner left, is taken by whoever comes for it alone. */
  lemma TakesDead(s: State, p: Pid) returns (es: seq<Event>, t: State)
    requires Initial(s) && p in s.pc
    ensures Acquires(s, p, es, t)
  {
    InitialInv(s);
    es, t := AloneAcquires(s, p);
  }

  /** The lock never jams: in every state of every calm run somebody holds it, or somebody can take it alone. */
  lemma NeverJams(s: State, es: seq<Event>, t: State, p: Pid) returns (q: Pid, fs: seq<Event>, u: State)
    requires Initial(s) && Reaches(s, es, t) && CalmRun(s, es) && p in t.pc
    ensures q in t.pc && (Holds(t.pc[q]) || Acquires(t, q, fs, u))
  {
    InitialInv(s);
    RunKeeps(s, es, t);
    hide Reaches, CalmRun, Acquires;
    fs, u := [], t;
    if t.dir.Made? {
      q := t.dir.p;
    } else {
      q := if t.guard.Some? then t.guard.value else p;
      fs, u := AloneAcquires(t, q);
    }
  }

  /** A live holder's written lock is left alone: whoever reads its age, or its age and its owner, gives up. */
  lemma GivesUp(s: State, p: Pid)
    requires p in s.pc && s.dir.Made?
    requires s.pc[p].Start? || s.pc[p].Check? || s.pc[p].CheckOwner? || s.pc[p].Recheck? || s.pc[p].ReadOwner?
    ensures var t := Next(s, Step(p, false));
      && t.dir == s.dir && t.guard == s.guard && p in t.pc
      && t.pc[p] == if s.pc[p].Start? then Check else if Guarded(s.pc[p]) then Unguard(false) else Start
  {}

  /** Whoever gives up under the guard lets it go, and whoever finds the guard taken gives up. */
  lemma LetsGuardGo(s: State, p: Pid)
    requires p in s.pc && (s.pc[p] == Unguard(false) || (s.pc[p].Guard? && s.guard.Some?))
    ensures var t := Next(s, Step(p, false));
      t.dir == s.dir && p in t.pc && t.pc[p].Start? && t.guard == if s.pc[p].Guard? then s.guard else None
  {}

  /** Releasing removes the directory, and lets the process start over. */
  lemma ReleaseFrees(s: State, p: Pid)
    requires Enabled(s, Release(p))
    ensures Next(s, Release(p)) == s.(dir := Absent, pc := s.pc[p := Start])
  {}

  // ---- a release during a reclaim -----------------------------------------------------------------------

  ghost predicate TwoHold(s: State) {
    exists p, q :: p in s.pc && q in s.pc && p != q && Holds(s.pc[p]) && Holds(s.pc[q])
  }

  predicate OnlySteps(es: seq<Event>) {
    forall e :: e in es ==> e.Step?
  }

  /** With no release after it, two processes come to hold the lock. */
  ghost predicate Breaks(s: State, es: seq<Event>, t: State) {
    OnlySteps(es) && Reaches(s, es, t) && TwoHold(t)
  }

  /** One more step in front. */
  lemma StepFirst(s: State, p: Pid, es: seq<Event>, t: State) returns (fs: seq<Event>)
    requires Enabled(s, Step(p, true)) && Breaks(Next(s, Step(p, true)), es, t)
    ensures Breaks(s, fs, t)
  {
    fs := [Step(p, true)] + es;
    assert fs[0] == Step(p, true) && fs[1..] == es;
  }

  /** A fresh process makes the lock between the re-check and the rename, and the rename moves its lock aside. */
  lemma SlipIn(s: State, p: Pid, q: Pid) returns (es: seq<Event>, t: State)
    requires s.dir.Absent? && p in s.pc && s.pc[p].Start? && q in s.pc && s.pc[q].MoveAside?
    ensures Breaks(s, es, t)
  {
    var s1 := Goto(s, p, Writing).(dir := Made(p));
    var s2 := Goto(s1, q, Remake).(dir := Absent);
    t := Goto(s2, q, Unguard(true)).(dir := Made(q));
    assert Holds(t.pc[p]) && Holds(t.pc[q]);
    assert Breaks(t, [], t);
    hide Breaks;
    es := StepFirst(s2, q, [], t);
    es := StepFirst(s1, q, es, t);
    es := StepFirst(s, p, es, t);
  }

  function ToRecheck(c: Pc): nat {
    if c.Recheck? then 0 else if c.Guard? then 1 else 2
  }

  /** A reclaimer that meets the missing directory goes on to rename. */
  lemma {:induction false} ReclaimMissing(s: State, p: Pid, q: Pid) returns (es: seq<Event>, t: State)
    requires s.dir.Absent? && p in s.pc && s.pc[p].Start? && q in s.pc
    requires s.pc[q].Check? || s.pc[q].CheckOwner? || s.pc[q].Guard? ==> s.guard == None
    requires s.pc[q].Check? || s.pc[q].CheckOwner? || s.pc[q].Guard? || s.pc[q].Recheck?
    ensures Breaks(s, es, t)
    decreases ToRecheck(s.pc[q])
  {
    hide Breaks;
    var s1 := Next(s, Step(q, true));
    if s.pc[q].Recheck? {
      es, t := SlipIn(s1, p, q);
    } else {
      assert s1.pc[q] == if s.pc[q].Guard? then Recheck else Guard;
      es, t := ReclaimMissing(s1, p, q);
    }
    es := StepFirst(s, q, es, t);
  }

  /**
   A release that is not calm can be followed by two holders, whoever runs: the missing directory passes for stale.
   */
  lemma NotCalmBreaks(s: State, p: Pid) returns (es: seq<Event>, t: State)
    requires Inv(s) && Enabled(s, Release(p)) && !Calm(s, Release(p))
    ensures Breaks(Next(s, Release(p)), es, t)
  {
    var s0 := Next(s, Release(p));
    hide Breaks;
    var q :| q in s.pc && Reclaiming(s.pc[q]);
    if s.guard == None || s.pc[q].Recheck? {
      es, t := ReclaimMissing(s0, p, q);
    } else {
      var g := s.guard.value;
      if s.pc[g].Recheck? {
        es, t := ReclaimMissing(s0, p, g);
      } else {
        assert s.pc[g] == Unguard(false);
        var s1 := Next(s0, Step(g, true));
        es, t := ReclaimMissing(s1, p, q);
        es := StepFirst(s0, g, es, t);
      }
    }
  }

  lemma {:induction false} StepsAreCalm(s: State, es: seq<Event>, t: State)
    requires Reaches(s, es, t) && OnlySteps(es)
    ensures CalmRun(s, es)
    decreases es
  {
    hide Next, Enabled;
    if es == [] {
      assert CalmRun(s, es);
    } else {
      assert es[0] in es;
      StepsAreCalm(Next(s, es[0]), es[1..], t);
    }
  }

  lemma CalmHolds(s: State, es: seq<Event>, t: State)
    requires Inv(s) && Reaches(s, es, t) && OnlySteps(es)
    ensures !TwoHold(t)
  {
    StepsAreCalm(s, es, t);
    RunKeeps(s, es, t);
  }

  /**
   Which releases lead to two holders: exactly those that come while some process that found the lock taken may still
   re-check it, unless the process with the guard is already past its rename.
   */
  lemma ReleaseExact(s: State, p: Pid)
    requires Inv(s) && Enabled(s, Release(p))
    ensures (exists es, t :: Breaks(Next(s, Release(p)), es, t)) <==> !Calm(s, Release(p))
  {
    if Calm(s, Release(p)) {
      StepKeeps(s, Release(p));
      var s0 := Next(s, Release(p));
      forall es, t ensures !Breaks(s0, es, t) {
        if OnlySteps(es) && Reaches(s0, es, t) { CalmHolds(s0, es, t); }
      }
    } else {
      var es, t := NotCalmBreaks(s, p);
    }
  }

  lemma RunOfThree(s0: State, e0: Event, s1: State, e1: Event, s2: State, e2: Event, s3: State)
    requires Enabled(s0, e0) && Next(s0, e0) == s1 && Enabled(s1, e1) && Next(s1, e1) == s2 && Enabled(s2, e2)
      && Next(s2, e2) == s3
    ensures Reaches(s0, [e0, e1, e2], s3)
  {
    hide Next, Enabled;
    assert [e2][1..] == [];
    assert Reaches(s2, [e2], s3);
    assert [e1, e2][1..] == [e2];
    assert [e0, e1, e2][1..] == [e1, e2];
  }

  /** Process p makes a free lock; q finds it there. */
  lemma FoundTaken(s: State, p: Pid, q: Pid) returns (es: seq<Event>, t: State)
    requires s.dir.Absent? && p in s.pc && q in s.pc && p != q && forall r :: r in s.pc ==> s.pc[r].Start?
    ensures OnlySteps(es) && Reaches(s, es, t)
    ensures p in t.pc && t.pc[p].Held? && q in t.pc && t.pc[q].Check? && !Remaking(t)
  {
    es := [Step(p, true), Step(p, true), Step(q, true)];
    var s1 := Next(s, es[0]);
    assert s1 == Goto(s, p, Writing).(dir := Made(p));
    var s2 := Next(s1, es[1]);
    assert s2 == Goto(s1, p, Held);
    t := Next(s2, es[2]);
    assert t == Goto(s2, q, Check);
    hide Next, Reaches;
    RunOfThree(s, es[0], s1, es[1], s2, es[2], t);
  }

  /** Such a release is reachable: process 1 finds the lock of process 0 just before it is released. */
  lemma ReleaseDuringReclaim()
    ensures exists s, es, t ::
      Initial(s) && Reaches(s, es, t) && Inv(t) && Enabled(t, Release(0)) && !Calm(t, Release(0))
  {
    var s := State(Absent, None, map[0 := Start, 1 := Start]);
    assert Initial(s);
    var es, t := FoundTaken(s, 0, 1);
    assert Reclaiming(t.pc[1]);
    InitialInv(s);
    hide Next, Inv, Reaches;
    StepsAreCalm(s, es, t);
    RunKeeps(s, es, t);
  }

  lemma InitialInv(s: State)
    requires Initial(s)
    ensures Inv(s)
  {}
}
