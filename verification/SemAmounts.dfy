/** What the calls of sem_op in a run add up to. */
module SemAmounts {
  import opened Options
  import opened SemKernel
  import opened Semaphore
  import opened SemSafety
  import opened SemOrderly
  import opened SemTheorems
  import opened SemValue

  // ---- A run ----

  /** The amounts of the calls on set `id`. */
  function Amounts(actions: seq<Action>, id: nat): int {
    if actions == [] then 0
    else (if actions[0].Operate? && actions[0].id == id then actions[0].amount else 0) + Amounts(actions[1..], id)
  }

  /** What process `p` has added to the value of set `id` since it started, with `before` to begin with: its end undoes
      it. */
  ghost function Own(s: State, actions: seq<Action>, id: nat, p: Pid, before: int): int
    decreases |actions|
  {
    if actions == [] || !ShapeOk(s) || Step(s, actions[0]).None? then before
    else
      var a := actions[0];
      Own(Step(s, a).value, actions[1..], id, p,
          if Ends(s, a) && a.p == p then 0
          else if a.Operate? && a.p == p && a.id == id then before + a.amount
          else before)
  }

  /** No process ends. */
  ghost predicate DeathFree(s: State, actions: seq<Action>)
    decreases |actions|
  {
    actions == [] ||
    (ShapeOk(s) && !Ends(s, actions[0]) && Step(s, actions[0]).Some?
     && DeathFree(Step(s, actions[0]).value, actions[1..]))
  }

  lemma {:induction false} RunAmounts(s: State, actions: seq<Action>, e: State, id: nat, n: nat)
    requires Inv(s) && id < |s.sets| && Runs(s, actions, e) && Undisturbed(s, actions, id, n) && DeathFree(s, actions)
    ensures ShapeOk(e) && id < |e.sets|
    ensures e.sets[id].set_.vals[0] == s.sets[id].set_.vals[0] + Amounts(actions, id)
    decreases |actions|
  {
    hide Step, SetInv, PcInv, Bounded, Ends, Initialises;
    if actions != [] {
      StepKeeps(s, actions[0]);
      AmountOfStep(s, actions[0], id);
      RunAmounts(Step(s, actions[0]).value, actions[1..], e, id, n);
    }
  }

  /** From the SETVAL of sem_create on, as long as no process ends and the set is not initialised again, the value is
      the initial value plus the amounts of all calls that went through. */
  lemma ValueIsSumOfAmounts(s: State, p: Pid, actions: seq<Action>, e: State, n: nat)
    requires Reachable(s) && AtLive(s, p) && s.procs[p].SettingValue? && ShapeOk(s) && Step(s, SetValue(p)).Some?
    requires Runs(Step(s, SetValue(p)).value, actions, e)
    requires Undisturbed(Step(s, SetValue(p)).value, actions, s.procs[p].id, n)
    requires DeathFree(Step(s, SetValue(p)).value, actions)
    ensures ShapeOk(e) && s.procs[p].id < |e.sets|
    ensures e.sets[s.procs[p].id].set_.vals[0] == s.procs[p].initval + Amounts(actions, s.procs[p].id)
  {
    hide SetInv, PcInv, SemOp, Runs, Undisturbed, DeathFree, Amounts;
    ReachableInv(s);
    StepKeeps(s, SetValue(p));
    RunAmounts(Step(s, SetValue(p)).value, actions, e, s.procs[p].id, n);
  }

  // ---- With deaths: every adjustment is what its process has added ----

  lemma EndOf(s: State, a: Action, id: nat)
    requires Inv(s) && Bounded(s) && id < |s.sets| && Step(s, a).Some? && Ends(s, a)
    ensures ShapeOk(Step(s, a).value) && id < |Step(s, a).value.sets|
    ensures forall q :: AdjOf(Step(s, a).value.sets[id].set_.adj[0], q)
                     == if q == a.p then 0 else AdjOf(s.sets[id].set_.adj[0], q)
  {
    hide SetInv, PcInv;
    assert Step(s, a).value == Exited(s, a.p);
  }

  lemma {:induction false} AdjustmentIsOwn(s: State, actions: seq<Action>, e: State, id: nat, n: nat, p: Pid,
                                           before: int)
    requires Inv(s) && id < |s.sets| && Runs(s, actions, e) && Undisturbed(s, actions, id, n)
    requires AdjOf(s.sets[id].set_.adj[0], p) == -before
    ensures ShapeOk(e) && id < |e.sets| && AdjOf(e.sets[id].set_.adj[0], p) == -Own(s, actions, id, p, before)
    decreases |actions|
  {
    hide Step, SetInv, PcInv, Bounded, Ends, Initialises;
    if actions != [] {
      var a := actions[0];
      StepKeeps(s, a);
      if Ends(s, a) {
        EndOf(s, a, id);
      } else {
        AmountOfStep(s, a, id);
      }
      var next := if Ends(s, a) && a.p == p then 0
                  else if a.Operate? && a.p == p && a.id == id then before + a.amount
                  else before;
      AdjustmentIsOwn(Step(s, a).value, actions[1..], e, id, n, p, next);
    }
  }

  /** What the processes below `n` have added. */
  ghost function OwnBelow(s: State, actions: seq<Action>, id: nat, n: nat): int {
    if n == 0 then 0 else Own(s, actions, id, n - 1, 0) + OwnBelow(s, actions, id, n - 1)
  }

  lemma {:induction false} AdjBelowIsOwn(s: State, actions: seq<Action>, e: State, id: nat, n: nat, k: nat)
    requires Inv(s) && id < |s.sets| && Runs(s, actions, e) && Undisturbed(s, actions, id, n)
    requires s.sets[id].set_.adj[0] == map[]
    ensures ShapeOk(e) && id < |e.sets| && AdjBelow(e.sets[id].set_.adj[0], k) == -OwnBelow(s, actions, id, k)
    decreases k
  {
    hide Step, SetInv, PcInv, Bounded, Ends, Initialises, Own, Runs, Undisturbed;
    AdjustmentIsOwn(s, actions, e, id, n, if k == 0 then 0 else k - 1, 0);
    if k > 0 {
      AdjBelowIsOwn(s, actions, e, id, n, k - 1);
    }
  }

  /** Over every run, deaths included, the value is the initial value, plus what each process has added since it last
      ended, plus what ends had clamped at zero: whoever dies leaves nothing of its own behind. */
  lemma ValueIsOwnAmounts(s: State, p: Pid, actions: seq<Action>, e: State, n: nat)
    requires Reachable(s) && AtLive(s, p) && s.procs[p].SettingValue? && ShapeOk(s) && Step(s, SetValue(p)).Some?
    requires Runs(Step(s, SetValue(p)).value, actions, e)
    requires Undisturbed(Step(s, SetValue(p)).value, actions, s.procs[p].id, n)
    ensures var id, s0 := s.procs[p].id, Step(s, SetValue(p)).value;
      && ShapeOk(e) && id < |e.sets|
      && e.sets[id].set_.vals[0] == s.procs[p].initval + OwnBelow(s0, actions, id, n) + Losses(s0, actions, id)
  {
    hide AdjBelow, SetInv, PcInv, SemOp, Runs, Undisturbed, Losses, OwnBelow;
    ReachableInv(s);
    StepKeeps(s, SetValue(p));
    ValueConservation(s, p, actions, e, n);
    AdjBelowIsOwn(Step(s, SetValue(p)).value, actions, e, s.procs[p].id, n, n);
  }
}
