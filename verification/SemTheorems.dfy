/** The promises of semaph.cpp, over every run from the empty system. */
module SemTheorems {
  import opened Options
  import opened SemKernel
  import opened Semaphore
  import opened SemSafety
  import opened SemOrderly

  /** A run: each action is enabled where it is taken, and no set ever has BIGCOUNT opens outstanding. */
  ghost predicate Runs(s: State, actions: seq<Action>, end: State)
    decreases |actions|
  {
    ShapeOk(s) && Bounded(s) &&
    if actions == [] then s == end
    else Step(s, actions[0]).Some? && Runs(Step(s, actions[0]).value, actions[1..], end)
  }

  ghost predicate Reachable(s: State) {
    exists actions :: Runs(INIT, actions, s)
  }

  lemma {:induction false} RunKeeps(s: State, actions: seq<Action>, end: State)
    requires Inv(s) && Runs(s, actions, end)
    ensures Inv(end) && Bounded(end)
    decreases |actions|
  {
    if actions != [] {
      StepKeeps(s, actions[0]);
      RunKeeps(Step(s, actions[0]).value, actions[1..], end);
    }
  }

  lemma ReachableInv(s: State)
    requires Reachable(s)
    ensures Inv(s) && Bounded(s)
  {
    var actions :| Runs(INIT, actions, s);
    RunKeeps(INIT, actions, s);
  }

  /** Conservation: on an initialised live set the process counter and the opens outstanding add up to BIGCOUNT and
      the closes that gave back no open, and the kernel would undo for every process exactly its own. */
  lemma CounterConservation(s: State, id: nat)
    requires Reachable(s) && id < |s.sets| && s.sets[id].live
    ensures var r := s.sets[id];
      && WellShaped(r.set_)
      && (r.inits > 0 ==> r.set_.vals[1] + |r.opens| == BIGCOUNT + |r.unheld| && r.set_.vals[1] > 0)
      && (r.inits == 0 ==> r.set_.vals[1] == 0 && r.opens == r.unheld == multiset{})
      && (forall p :: AdjOf(r.set_.adj[1], p) == Due(r, p))
  {
    ReachableInv(s);
  }

  /** Runs in which only holders close: the counter and the opens add up to BIGCOUNT. */
  lemma HeldConservation(actions: seq<Action>, s: State, id: nat)
    requires Runs(INIT, actions, s) && (forall i | 0 <= i < |actions| :: !actions[i].CallCloseUnheld?)
    requires id < |s.sets| && s.sets[id].live && s.sets[id].inits > 0
    ensures WellShaped(s.sets[id].set_) && s.sets[id].set_.vals[1] + |s.sets[id].opens| == BIGCOUNT == 10000
    ensures forall p :: AdjOf(s.sets[id].set_.adj[1], p) == s.sets[id].opens[p]
  {
    OrderlyRunKeeps(INIT, actions, s);
    CounterConservation(s, id);
  }

  lemma {:induction false} OrderlyRunKeeps(s: State, actions: seq<Action>, end: State)
    requires Inv(s) && Orderly(s) && Runs(s, actions, end)
    requires forall i | 0 <= i < |actions| :: !actions[i].CallCloseUnheld?
    ensures Inv(end) && Orderly(end)
    decreases |actions|
  {
    hide Orderly, Step;
    if actions != [] {
      StepKeeps(s, actions[0]);
      StepKeepsOrderly(s, actions[0]);
      OrderlyRunKeeps(Step(s, actions[0]).value, actions[1..], end);
    }
  }

  /** Lock safety: member[2] is 1 exactly when one live process is inside a lock section, never two. */
  lemma LockSafety(s: State, id: nat)
    requires Reachable(s) && id < |s.sets| && s.sets[id].live
    ensures WellShaped(s.sets[id].set_)
    ensures s.sets[id].set_.vals[2] == 1 <==> exists p :: Inside(s.procs, p, id)
    ensures s.sets[id].set_.vals[2] <= 1
    ensures forall p, q | Inside(s.procs, p, id) && Inside(s.procs, q, id) :: p == q
  {
    ReachableInv(s);
    assert Held(s.procs, id) <==> exists p :: Inside(s.procs, p, id);
  }

  /** A process that dies inside a lock section, wherever, frees the lock, and its opens are given back. */
  lemma CrashFreesLock(s: State, p: Pid, id: nat)
    requires Reachable(s) && id < |s.sets| && s.sets[id].live && Inside(s.procs, p, id)
    ensures ShapeOk(s) && Step(s, Exit(p)).Some?
    ensures var r, s' := s.sets[id], Step(s, Exit(p)).value;
      && s'.sets[id].live && |s'.sets[id].set_.vals| == MEMBERS
      && s'.sets[id].set_.vals[2] == 0 && (forall q :: !Inside(s'.procs, q, id))
      && s'.sets[id].opens == r.opens[p := 0] && s'.sets[id].unheld == r.unheld[p := 0]
      && s'.sets[id].set_.vals[1] == r.set_.vals[1] + Due(r, p)
  {
    ReachableInv(s);
    var s' := Step(s, Exit(p)).value;
    assert s'.procs == s.procs - {p};
    assert AdjOf(s.sets[id].set_.adj[2], p) == -1;
    NoMoreThanAll(s.sets[id].opens, p);
    NoMoreThanAll(s.sets[id].unheld, p);
    forall q
      ensures !Inside(s'.procs, q, id)
    {
      assert Inside(s'.procs, q, id) ==> q != p && Inside(s.procs, q, id);
    }
  }

  /** Single initialisation: the counter of a set is set at most once, and neither SETVAL touches a set
      on which a sem_create or sem_open has already returned. */
  lemma SingleInitialisation(s: State, id: nat)
    requires Reachable(s) && id < |s.sets| && s.sets[id].live
    ensures s.sets[id].inits <= 1
    ensures forall p | p in s.procs
                && (s.procs[p] == SettingCounter(id) || (s.procs[p].SettingValue? && s.procs[p].id == id)) ::
      s.sets[id].inits == 0 && !s.sets[id].returned && s.sets[id].opens == multiset{}
  {
    ReachableInv(s);
  }

  /** The branch of sem_close that dumps core is never taken in a run in which only holders close. */
  lemma NeverDumps(actions: seq<Action>, s: State, p: Pid)
    requires Runs(INIT, actions, s) && (forall i | 0 <= i < |actions| :: !actions[i].CallCloseUnheld?)
    requires AtLive(s, p) && s.procs[p].Deciding?
    ensures s.procs[p].semval <= BIGCOUNT
  {
    OrderlyRunKeeps(INIT, actions, s);
  }

  /** What sem_close reads once it has the lock, in every run, and the branch that follows from it: it dumps exactly
      when there are more closes without an open than opens, and removes the set exactly when there are as many. */
  lemma CounterRead(s: State, p: Pid)
    requires Reachable(s) && AtLive(s, p) && s.procs[p].Counting?
    ensures ShapeOk(s) && Step(s, CloseGetCounter(p)).Some?
    ensures var r, s' := s.sets[s.procs[p].id], Step(s, CloseGetCounter(p)).value;
      && p in s'.procs && s'.procs[p].Deciding?
      && s'.procs[p].semval == BIGCOUNT + |r.unheld| - |r.opens|
      && (s'.procs[p].semval > BIGCOUNT <==> |r.opens| < |r.unheld|)
      && (s'.procs[p].semval == BIGCOUNT <==> |r.opens| == |r.unheld|)
      && (r.unheld == multiset{} ==> (s'.procs[p].semval == BIGCOUNT <==> r.opens == multiset{}))
  {
    ReachableInv(s);
    CounterConservation(s, s.procs[p].id);
  }

  /** A close by a process that holds no open: it goes through when the lock is free, leaves the counter one too
      high, and the process keeps an adjustment that its death subtracts again. The first such close on a set thereby
      leads to the dump exactly when nobody holds an open, and to the removal exactly when one open is outstanding. */
  lemma UnheldClose(s: State, p: Pid)
    requires Reachable(s) && AtLive(s, p) && s.procs[p].Closing?
    requires var r := s.sets[s.procs[p].id]; p !in r.opens && WellShaped(r.set_) && r.set_.vals[2] == 0
    ensures ShapeOk(s) && Step(s, Close(p)).Some?
    ensures var id, s' := s.procs[p].id, Step(s, Close(p)).value;
      var r, after := s.sets[id], s'.sets[id];
      && after.opens == r.opens && after.unheld == r.unheld + multiset{p} && |after.set_.vals| == MEMBERS
      && after.set_.vals[1] == BIGCOUNT + |r.unheld| + 1 - |r.opens|
      && |after.set_.adj| == MEMBERS && AdjOf(after.set_.adj[1], p) == Due(r, p) - 1
      && (r.unheld == multiset{} ==>
            (after.set_.vals[1] > BIGCOUNT <==> r.opens == multiset{})
            && (after.set_.vals[1] == BIGCOUNT <==> |r.opens| == 1))
  {
    hide SemOp;
    ReachableInv(s);
    var id := s.procs[p].id;
    CloseEffect(s.sets[id].set_, p);
    CounterConservation(s, id);
  }

  /** What a process inside a lock section does next. */
  function SectionCall(p: Pid, pc: PC): Action {
    match pc
    case Checking(_, _) => GetCounter(p)
    case SettingValue(_, _) => SetValue(p)
    case SettingCounter(_) => SetCounter(p)
    case EndingCreate(_) => EndCreate(p)
    case Counting(_) => CloseGetCounter(p)
    case _ => Decide(p)
  }

  /** A process inside a lock section never waits: whatever the others do, its next call goes through. */
  lemma HolderNeverWaits(s: State, p: Pid)
    requires Reachable(s) && AtLive(s, p) && InSection(s.procs[p], s.procs[p].id)
    ensures ShapeOk(s) && Step(s, SectionCall(p, s.procs[p])).Some?
  {
    hide SemOp, SetInv, Reachable, CreateStep, CloseStep, SectionCall;
    ReachableInv(s);
    HolderCounts(s, p);
    if s.procs[p].Counting? || s.procs[p].Deciding? {
      ClosingGoesOn(s, p);
    } else {
      CreatingGoesOn(s, p);
    }
  }

  lemma HolderCounts(s: State, p: Pid)
    requires Inv(s) && Bounded(s) && AtLive(s, p) && InSection(s.procs[p], s.procs[p].id)
    ensures var r := s.sets[s.procs[p].id];
      WellShaped(r.set_) && r.set_.vals[2] == 1 && (s.procs[p].EndingCreate? ==> r.set_.vals[1] > 0)
  {
    assert Inside(s.procs, p, s.procs[p].id);
  }

  lemma ClosingGoesOn(s: State, p: Pid)
    requires ShapeOk(s) && AtLive(s, p) && s.sets[s.procs[p].id].set_.vals[2] == 1
    requires s.procs[p].Counting? || s.procs[p].Deciding?
    ensures Step(s, SectionCall(p, s.procs[p])).Some?
  {
    hide SemOp;
    UnlockEffect(s.sets[s.procs[p].id].set_, p);
  }

  lemma CreatingGoesOn(s: State, p: Pid)
    requires ShapeOk(s) && AtLive(s, p) && InSection(s.procs[p], s.procs[p].id)
    requires !s.procs[p].Counting? && !s.procs[p].Deciding?
    requires var r := s.sets[s.procs[p].id];
      r.set_.vals[2] == 1 && (s.procs[p].EndingCreate? ==> r.set_.vals[1] > 0)
    ensures Step(s, SectionCall(p, s.procs[p])).Some?
  {
    hide SemOp;
    EndCreateEffect(s.sets[s.procs[p].id].set_, p);
  }

  // ---- Removal ----

  /** A process that has decided to remove a set, which its next call does. */
  predicate Removing(s: State, p: Pid) {
    AtLive(s, p) && s.procs[p].Deciding? && s.procs[p].semval == BIGCOUNT
  }

  /** Safe removal, over every run, with sem_open, sem_rm and closes without an open among the calls: the set that
      sem_close removes is open in no process if and only if its counter, less what such closes added, is BIGCOUNT.
      Where only holders have closed, that is the guard of the branch, read again. */
  lemma SafeRemovalExactly(s: State, p: Pid)
    requires Reachable(s) && Removing(s, p)
    ensures var r := s.sets[s.procs[p].id];
      && WellShaped(r.set_)
      && (r.opens == multiset{} <==> r.set_.vals[1] - |r.unheld| == BIGCOUNT)
      && (r.unheld == multiset{} ==> (r.opens == multiset{} <==> r.set_.vals[1] == BIGCOUNT))
    ensures ShapeOk(s) && Step(s, Decide(p)).Some? && !Step(s, Decide(p)).value.sets[s.procs[p].id].live
  {
    ReachableInv(s);
    CounterConservation(s, s.procs[p].id);
  }

  /** Every call but sem_open, whose decrement takes no lock, and a close without an open. */
  predicate Locked(a: Action) {
    !a.CallOpen? && !a.CallCloseUnheld?
  }

  /** Nobody is inside sem_open, and who is about to remove a set is its last user. */
  ghost predicate Quiet(s: State) {
    && (forall p | p in s.procs :: !s.procs[p].Opening?)
    && (forall p | Removing(s, p) :: s.sets[s.procs[p].id].opens == multiset{})
  }

  lemma AllOpensCounted(r: Tracked, id: nat, procs: map<Pid, PC>)
    requires WellShaped(r.set_) && SetInv(r, id, procs) && r.inits == 1 && r.set_.vals[1] == BIGCOUNT
    requires r.unheld == multiset{}
    ensures r.opens == multiset{}
  {
    assert |r.opens| == 0;
  }

  lemma OneInside(s: State, p: Pid, q: Pid, id: nat)
    requires Inv(s) && id < |s.sets| && s.sets[id].live
    ensures Inside(s.procs, p, id) && Inside(s.procs, q, id) ==> p == q
  {
    hide InSection;
  }

  lemma CreateKeepsQuiet(s: State, a: Action)
    requires Inv(s) && Quiet(s) && CreateStep(s, a).Some? && Step(s, a) == CreateStep(s, a)
    ensures Quiet(CreateStep(s, a).value)
  {
    CreateLeaves(s, a);
    hide CreateStep, PcInv, SetInv;
    var s' := CreateStep(s, a).value;
    forall p | Removing(s', p)
      ensures s'.sets[s'.procs[p].id].opens == multiset{}
    {
      assert p != a.p && AtLive(s, p);
      OneInside(s, a.p, p, s.procs[p].id);
    }
  }

  /** A step of sem_create leaves the other processes where they are, and the opens of every set but its own. */
  lemma CreateLeaves(s: State, a: Action)
    requires ShapeOk(s) && CreateStep(s, a).Some?
    ensures var s' := CreateStep(s, a).value;
      && a.p in s.procs && a.p in s'.procs && |s.sets| <= |s'.sets|
      && !s'.procs[a.p].Opening? && !s'.procs[a.p].Deciding?
      && (forall q | q != a.p :: q in s'.procs <==> q in s.procs)
      && (forall q | q != a.p && q in s.procs :: s'.procs[q] == s.procs[q])
      && (forall i | 0 <= i < |s.sets| :: s'.sets[i].live ==> s.sets[i].live)
      && (forall i | 0 <= i < |s.sets| && !(AtLive(s, a.p) && InSection(s.procs[a.p], i)) ::
            s'.sets[i].opens == s.sets[i].opens)
  {
    hide SemOp;
  }

  lemma CloseKeepsQuiet(s: State, a: Action)
    requires Inv(s) && Quiet(s) && Orderly(s) && CloseStep(s, a).Some? && Step(s, a) == CloseStep(s, a)
    requires !a.Decide?
    ensures Quiet(CloseStep(s, a).value)
  {
    var s' := CloseStep(s, a).value;
    forall p | Removing(s', p)
      ensures s'.sets[s'.procs[p].id].opens == multiset{}
    {
      if p == a.p {
        AllOpensCounted(s.sets[s.procs[p].id], s.procs[p].id, s.procs);
      } else {
        assert AtLive(s, p);
      }
    }
  }

  lemma DecideKeepsQuiet(s: State, p: Pid)
    requires Inv(s) && Quiet(s) && Orderly(s) && Step(s, Decide(p)).Some?
    ensures Quiet(Step(s, Decide(p)).value)
  {
    var s' := Step(s, Decide(p)).value;
    forall q | Removing(s', q)
      ensures s'.sets[s'.procs[q].id].opens == multiset{}
    {
      assert q != p && AtLive(s, q);
    }
  }

  lemma ExitKeepsQuiet(s: State, p: Pid)
    requires Inv(s) && Quiet(s) && p in s.procs
    ensures Quiet(Exited(s, p))
  {
    var s' := Exited(s, p);
    forall q | Removing(s', q)
      ensures s'.sets[s'.procs[q].id].opens == multiset{}
    {
      assert AtLive(s, q);
      assert multiset{}[p := 0] == multiset{};
    }
  }

  lemma IdleKeepsQuiet(s: State, a: Action)
    requires Inv(s) && Quiet(s) && (a.Spawn? || a.FailOnRemoved?) && Step(s, a).Some?
    ensures Quiet(Step(s, a).value)
  {
    hide SetInv, PcInv;
  }

  lemma OtherKeepsQuiet(s: State, a: Action)
    requires Inv(s) && Quiet(s) && Locked(a) && OtherStep(s, a).Some? && Step(s, a) == OtherStep(s, a)
    ensures Quiet(OtherStep(s, a).value)
  {
    hide SetInv, PcInv, SemOp;
  }

  lemma StepKeepsQuiet(s: State, a: Action)
    requires Inv(s) && Quiet(s) && Orderly(s) && Locked(a) && Step(s, a).Some?
    ensures Quiet(Step(s, a).value)
  {
    hide *;
    StepKinds(s, a);
    if a.Exit? {
      ExitKeepsQuiet(s, a.p);
    } else if a.Spawn? || a.FailOnRemoved? {
      IdleKeepsQuiet(s, a);
    } else if CreateAction(a) {
      CreateKeepsQuiet(s, a);
    } else if OtherAction(a) {
      OtherKeepsQuiet(s, a);
    } else if a.Decide? {
      DecideKeepsQuiet(s, a.p);
    } else {
      CloseKeepsQuiet(s, a);
    }
  }

  lemma {:induction false} LockedRunKeeps(s: State, actions: seq<Action>, end: State)
    requires Inv(s) && Quiet(s) && Orderly(s) && Runs(s, actions, end)
    requires forall i | 0 <= i < |actions| :: Locked(actions[i])
    ensures Inv(end) && Quiet(end)
    decreases |actions|
  {
    hide Orderly, Quiet, Step;
    if actions != [] {
      StepKeeps(s, actions[0]);
      StepKeepsOrderly(s, actions[0]);
      StepKeepsQuiet(s, actions[0]);
      LockedRunKeeps(Step(s, actions[0]).value, actions[1..], end);
    }
  }

  /** In every run without sem_open in which only holders close the condition is met: when sem_close removes a set no
      process holds an open on it. */
  lemma SafeRemoval(actions: seq<Action>, s: State, p: Pid)
    requires Runs(INIT, actions, s) && forall i | 0 <= i < |actions| :: Locked(actions[i])
    requires Removing(s, p)
    ensures s.sets[s.procs[p].id].opens == multiset{}
    ensures ShapeOk(s) && Step(s, Decide(p)).Some? && !Step(s, Decide(p)).value.sets[s.procs[p].id].live
  {
    hide Runs, Locked;
    RunKeeps(INIT, actions, s);
    LockedRunKeeps(INIT, actions, s);
  }

  // ---- Why the unlocked decrement of sem_open has to be excluded ----

  lemma {:induction false} RunsThen(s: State, actions: seq<Action>, mid: State, a: Action, end: State)
    requires Runs(s, actions, mid) && ShapeOk(mid) && Step(mid, a) == Some(end) && ShapeOk(end) && Bounded(end)
    ensures Runs(s, actions + [a], end)
    decreases |actions|
  {
    if actions == [] {
      assert [a][1..] == [];
    } else {
      assert (actions + [a])[1..] == actions[1..] + [a];
      RunsThen(Step(s, actions[0]).value, actions[1..], mid, a, end);
    }
  }

  /** A state with the one set 0. */
  function OneSet(vals: seq<int>, adj: seq<map<Pid, int>>, opens: multiset<Pid>, inits: nat, returned: bool,
                  procs: map<Pid, PC>): State {
    State([Tracked(SemSet(vals, adj), true, opens, multiset{}, inits, returned)], Some(0), procs)
  }

  lemma SameState(a: State, b: State)
    requires |a.sets| == |b.sets| == 1 && a.key == b.key && a.procs == b.procs
    requires |a.sets[0].set_.adj| == |b.sets[0].set_.adj| == MEMBERS
    requires a.sets[0].(set_ := NEW_SET) == b.sets[0].(set_ := NEW_SET)
    requires a.sets[0].set_.vals == b.sets[0].set_.vals
    requires forall i | 0 <= i < MEMBERS :: a.sets[0].set_.adj[i] == b.sets[0].set_.adj[i]
    ensures a == b
  {
    assert a.sets[0].set_.adj == b.sets[0].set_.adj;
    assert a.sets[0] == b.sets[0].(set_ := a.sets[0].set_);
    assert a.sets == [a.sets[0]] && b.sets == [b.sets[0]];
  }

  const UNLOCKED: seq<map<Pid, int>> := [map[], map[], map[]]
  const LOCKED: seq<map<Pid, int>> := [map[], map[], map[0 := -1]]
  const OPENED: seq<map<Pid, int>> := [map[], map[0 := 1], map[0 := 0]]
  const CLOSED: seq<map<Pid, int>> := [map[], map[0 := 0], map[0 := -1]]

  /** Process 0 creates the semaphore with value 1 and closes it; once it has read the counter, process 1
      is about to open it. */
  function TraceAction(k: nat): Action {
    match k
    case 0 => Spawn(0)
    case 1 => CallCreate(0, 1)
    case 2 => SemGet(0)
    case 3 => Lock(0)
    case 4 => GetCounter(0)
    case 5 => SetValue(0)
    case 6 => SetCounter(0)
    case 7 => EndCreate(0)
    case 8 => CallClose(0, 0)
    case 9 => Close(0)
    case 10 => CloseGetCounter(0)
    case 11 => Spawn(1)
    case _ => CallOpen(1)
  }

  function TraceState(k: nat): State {
    match k
    case 0 => INIT
    case 1 => State([], None, map[0 := Idle])
    case 2 => State([], None, map[0 := Getting(1)])
    case 3 => OneSet([0, 0, 0], UNLOCKED, multiset{}, 0, false, map[0 := Locking(0, 1)])
    case 4 => OneSet([0, 0, 1], LOCKED, multiset{}, 0, false, map[0 := Checking(0, 1)])
    case 5 => OneSet([0, 0, 1], LOCKED, multiset{}, 0, false, map[0 := SettingValue(0, 1)])
    case 6 => OneSet([1, 0, 1], LOCKED, multiset{}, 0, false, map[0 := SettingCounter(0)])
    case 7 => OneSet([1, BIGCOUNT, 1], LOCKED, multiset{}, 1, false, map[0 := EndingCreate(0)])
    case 8 => OneSet([1, BIGCOUNT - 1, 0], OPENED, multiset{0}, 1, true, map[0 := Idle])
    case 9 => OneSet([1, BIGCOUNT - 1, 0], OPENED, multiset{0}, 1, true, map[0 := Closing(0)])
    case 10 => OneSet([1, BIGCOUNT, 1], CLOSED, multiset{}, 1, true, map[0 := Counting(0)])
    case 11 => OneSet([1, BIGCOUNT, 1], CLOSED, multiset{}, 1, true, map[0 := Deciding(0, BIGCOUNT)])
    case 12 => OneSet([1, BIGCOUNT, 1], CLOSED, multiset{}, 1, true, map[0 := Deciding(0, BIGCOUNT), 1 := Idle])
    case _ => OneSet([1, BIGCOUNT, 1], CLOSED, multiset{}, 1, true, map[0 := Deciding(0, BIGCOUNT), 1 := Opening(0)])
  }

  lemma EarlyShape(k: nat)
    requires k < 8
    ensures ShapeOk(TraceState(k)) && Bounded(TraceState(k))
  {}

  lemma LateShape(k: nat)
    requires 9 <= k < 11
    ensures ShapeOk(TraceState(k)) && Bounded(TraceState(k))
  {}

  lemma OpenedShape(k: nat)
    requires k == 8
    ensures ShapeOk(TraceState(k)) && Bounded(TraceState(k))
  {}

  lemma LastShape(k: nat)
    requires k >= 11
    ensures ShapeOk(TraceState(k)) && Bounded(TraceState(k))
  {}

  lemma TraceShape(k: nat)
    ensures ShapeOk(TraceState(k)) && Bounded(TraceState(k))
  {
    hide *;
    if k < 8 {
      EarlyShape(k);
    } else if k == 8 {
      OpenedShape(k);
    } else if k < 11 {
      LateShape(k);
    } else {
      LastShape(k);
    }
  }

  lemma TraceStarts(k: nat)
    requires k < 2
    ensures ShapeOk(TraceState(k)) && Step(TraceState(k), TraceAction(k)) == Some(TraceState(k + 1))
  {
    assert Step(TraceState(k), TraceAction(k)).value.procs == TraceState(k + 1).procs;
  }

  lemma TraceGet(k: nat)
    requires k == 2
    ensures ShapeOk(TraceState(k)) && Step(TraceState(k), TraceAction(k)) == Some(TraceState(k + 1))
  {
    TraceShape(k);
    SameState(Step(TraceState(k), TraceAction(k)).value, TraceState(k + 1));
  }

  lemma TraceLock(k: nat)
    requires k == 3
    ensures ShapeOk(TraceState(k)) && Step(TraceState(k), TraceAction(k)) == Some(TraceState(k + 1))
  {
    hide SemOp, Bounded;
    TraceShape(k);
    LockEffect(TraceState(k).sets[0].set_, 0);
    SameState(Step(TraceState(k), TraceAction(k)).value, TraceState(k + 1));
  }

  lemma TraceCheck(k: nat)
    requires k == 4
    ensures ShapeOk(TraceState(k)) && Step(TraceState(k), TraceAction(k)) == Some(TraceState(k + 1))
  {
    TraceShape(k);
    SameState(Step(TraceState(k), TraceAction(k)).value, TraceState(k + 1));
  }

  lemma TraceSet(k: nat)
    requires k == 5 || k == 6
    ensures ShapeOk(TraceState(k)) && Step(TraceState(k), TraceAction(k)) == Some(TraceState(k + 1))
  {
    TraceShape(k);
    SameState(Step(TraceState(k), TraceAction(k)).value, TraceState(k + 1));
  }

  lemma TraceEndCreate(k: nat)
    requires k == 7
    ensures ShapeOk(TraceState(k)) && Step(TraceState(k), TraceAction(k)) == Some(TraceState(k + 1))
  {
    hide SemOp, Bounded;
    TraceShape(k);
    EndCreateEffect(TraceState(k).sets[0].set_, 0);
    SameState(Step(TraceState(k), TraceAction(k)).value, TraceState(k + 1));
  }

  lemma TraceClose(k: nat)
    requires k == 9
    ensures ShapeOk(TraceState(k)) && Step(TraceState(k), TraceAction(k)) == Some(TraceState(k + 1))
  {
    hide SemOp, Bounded;
    TraceShape(k);
    CloseEffect(TraceState(k).sets[0].set_, 0);
    SameState(Step(TraceState(k), TraceAction(k)).value, TraceState(k + 1));
  }

  lemma TraceCalls(k: nat)
    requires k == 8 || k == 10 || k == 11 || k == 12
    ensures ShapeOk(TraceState(k)) && Step(TraceState(k), TraceAction(k)) == Some(TraceState(k + 1))
  {
    TraceShape(k);
    SameState(Step(TraceState(k), TraceAction(k)).value, TraceState(k + 1));
  }

  lemma TraceStep(k: nat)
    requires k < 13
    ensures ShapeOk(TraceState(k)) && Step(TraceState(k), TraceAction(k)) == Some(TraceState(k + 1))
  {
    hide *;
    match k
    case 2 => TraceGet(k);
    case 3 => TraceLock(k);
    case 4 => TraceCheck(k);
    case 5 => TraceSet(k);
    case 6 => TraceSet(k);
    case 7 => TraceEndCreate(k);
    case 9 => TraceClose(k);
    case _ => if k < 2 { TraceStarts(k); } else { TraceCalls(k); }
  }

  lemma {:induction false} TraceRuns(k: nat)
    requires k <= 13
    ensures Runs(INIT, seq(k, i requires i >= 0 => TraceAction(i)), TraceState(k))
  {
    hide TraceAction, TraceState, Step, ShapeOk, Bounded;
    var actions := seq(k, i requires i >= 0 => TraceAction(i));
    TraceShape(k);
    if k == 0 {
      TraceStart();
    } else {
      var before := seq(k - 1, i requires i >= 0 => TraceAction(i));
      TraceRuns(k - 1);
      TraceStep(k - 1);
      RunsThen(INIT, before, TraceState(k - 1), TraceAction(k - 1), TraceState(k));
      assert actions == before + [TraceAction(k - 1)];
    }
  }

  lemma TraceStart()
    ensures TraceState(0) == INIT
  {}

  lemma OpenStep(s: State, p: Pid)
    requires ShapeOk(s) && AtLive(s, p) && s.procs[p].Opening? && s.sets[s.procs[p].id].set_.vals[1] > 0
    ensures Step(s, Open(p)).Some?
    ensures var e, id := Step(s, Open(p)).value, s.procs[p].id;
      && e.procs == s.procs[p := Idle] && |e.sets| == |s.sets|
      && e.sets[id].live && e.sets[id].opens == s.sets[id].opens + multiset{p}
  {
    OpenEffect(s.sets[s.procs[p].id].set_, p);
  }

  lemma AboutToOpen(s: State)
    requires s == TraceState(13)
    ensures |s.sets| == 1 && AtLive(s, 1) && s.procs == map[0 := Deciding(0, BIGCOUNT), 1 := Opening(0)]
    ensures |s.sets[0].set_.vals| == MEMBERS && s.sets[0].set_.vals[1] == BIGCOUNT && s.sets[0].opens == multiset{}
  {}

  lemma DecisionRemoves(s: State, p: Pid)
    requires ShapeOk(s) && Removing(s, p)
    ensures Step(s, Decide(p)).Some? && !Step(s, Decide(p)).value.sets[s.procs[p].id].live
  {}

  /** With sem_open among the calls, sem_close can remove a set another process has open. */
  lemma UnsafeWithOpen() returns (actions: seq<Action>, s: State)
    ensures Runs(INIT, actions, s) && ShapeOk(s)
    ensures AtLive(s, 0) && s.procs[0] == Deciding(0, BIGCOUNT) && s.sets[0].opens == multiset{1}
    ensures 1 in s.procs && Step(s, Decide(0)).Some? && !Step(s, Decide(0)).value.sets[0].live
  {
    hide TraceState, Step, ShapeOk, SetInv, PcInv;
    var before, mid := seq(13, i requires i >= 0 => TraceAction(i)), TraceState(13);
    TraceRuns(13);
    TraceShape(13);
    TraceIsReachable(before, mid);
    AboutToOpen(mid);
    OpenStep(mid, 1);
    StepKeeps(mid, Open(1));
    s := Step(mid, Open(1)).value;
    assert |s.sets[0].opens| == 1;
    RunsThen(INIT, before, mid, Open(1), s);
    actions := before + [Open(1)];
    DecisionRemoves(s, 0);
  }

  lemma TraceIsReachable(actions: seq<Action>, s: State)
    requires Runs(INIT, actions, s)
    ensures Inv(s) && Bounded(s)
  {
    RunKeeps(INIT, actions, s);
  }

  // ---- Why a close without an open has to be excluded ----

  lemma ExtendRun(actions: seq<Action>, mid: State, a: Action)
    requires Runs(INIT, actions, mid) && ShapeOk(mid) && Step(mid, a).Some? && Bounded(Step(mid, a).value)
    ensures Inv(Step(mid, a).value) && Runs(INIT, actions + [a], Step(mid, a).value)
  {
    hide Runs, Step, SetInv, PcInv, Bounded;
    TraceIsReachable(actions, mid);
    StepKeeps(mid, a);
    RunsThen(INIT, actions, mid, a, Step(mid, a).value);
  }

  lemma SecondProcess(s: State)
    requires s == TraceState(8)
    ensures ShapeOk(s) && Step(s, Spawn(1)).Some?
    ensures var s9 := Step(s, Spawn(1)).value;
      && Bounded(s9) && ShapeOk(s9) && s9 == s.(procs := map[0 := Idle, 1 := Idle])
  {
    hide SemOp;
  }

  lemma UnheldCall(s: State)
    requires s == TraceState(8).(procs := map[0 := Idle, 1 := Idle]) && ShapeOk(s) && Bounded(s)
    ensures Step(s, CallCloseUnheld(1, 0)).Some?
    ensures var s10 := Step(s, CallCloseUnheld(1, 0)).value; Bounded(s10) && AboutToCloseUnheld(s10)
  {
    hide SemOp;
  }

  /** Process 0 has set 0 open, and process 1, which has not, is about to close it. */
  predicate AboutToCloseUnheld(s: State) {
    && |s.sets| == 1 && AtLive(s, 1) && s.procs[1] == Closing(0) && |s.sets[0].set_.vals| == MEMBERS
    && s.sets[0].set_.vals[2] == 0 && s.sets[0].opens == multiset{0} && s.sets[0].unheld == multiset{}
  }

  lemma UnheldSteps(actions: seq<Action>, s: State) returns (e: State)
    requires Runs(INIT, actions, s) && AboutToCloseUnheld(s) && ShapeOk(s)
    ensures Runs(INIT, actions + [Close(1)] + [CloseGetCounter(1)], e) && ShapeOk(e)
    ensures Removing(e, 1) && e.procs[1].id == 0 && e.sets[0].opens == multiset{0}
  {
    hide Runs, SetInv, PcInv, SemOp;
    assert Reachable(s);
    UnheldClose(s, 1);
    var s1 := Step(s, Close(1)).value;
    CloseStepIs(s, 1);
    assert |s1.sets| == 1 && s1.sets[0].opens == multiset{0} && s1.procs[1] == Counting(0);
    assert |s1.sets[0].opens| == 1 && Bounded(s1);
    ExtendRun(actions, s, Close(1));
    assert Reachable(s1);
    CounterRead(s1, 1);
    e := Step(s1, CloseGetCounter(1)).value;
    assert |s1.sets[0].unheld| == 1;
    assert e.sets == s1.sets && Bounded(e);
    ExtendRun(actions + [Close(1)], s1, CloseGetCounter(1));
  }

  /** With one open outstanding, a close by another process that holds none removes the set in use. */
  lemma UnsafeWithUnheldClose() returns (actions: seq<Action>, s: State)
    ensures Runs(INIT, actions, s) && ShapeOk(s)
    ensures Removing(s, 1) && s.procs[1].id == 0 && s.sets[0].opens == multiset{0}
    ensures Step(s, Decide(1)).Some? && !Step(s, Decide(1)).value.sets[0].live
  {
    hide TraceState, TraceAction, Step, Runs, AboutToCloseUnheld, SetInv, PcInv;
    var before, s8 := seq(8, i requires i >= 0 => TraceAction(i)), TraceState(8);
    TraceRuns(8);
    SecondProcess(s8);
    ExtendRun(before, s8, Spawn(1));
    var s9 := Step(s8, Spawn(1)).value;
    UnheldCall(s9);
    ExtendRun(before + [Spawn(1)], s9, CallCloseUnheld(1, 0));
    var calls := before + [Spawn(1)] + [CallCloseUnheld(1, 0)];
    s := UnheldSteps(calls, Step(s9, CallCloseUnheld(1, 0)).value);
    actions := calls + [Close(1)] + [CloseGetCounter(1)];
    DecisionRemoves(s, 1);
  }
}
