/** The value member of a set, member[0]: what sem_op, sem_wait and sem_signal do to it, and what SEM_UNDO on op_op is
    for: a process that dies gives back what it took. */
module SemValue {
  import opened Options
  import opened SemKernel
  import opened Semaphore
  import opened SemSafety
  import opened SemOrderly
  import opened SemTheorems

  // ---- One call ----

  /** `t` is `s` but for the value member, raised by `n`, and the adjustment of `p` on it, lowered by `n`. */
  ghost predicate Raised(s: SemSet, t: SemSet, p: Pid, n: int)
    requires WellShaped(s) && WellShaped(t)
  {
    && t.vals[0] == s.vals[0] + n && t.vals[1] == s.vals[1] && t.vals[2] == s.vals[2]
    && t.adj[1] == s.adj[1] && t.adj[2] == s.adj[2]
    && AdjOf(t.adj[0], p) == AdjOf(s.adj[0], p) - n
    && forall q | q != p :: AdjOf(t.adj[0], q) == AdjOf(s.adj[0], q)
  }

  lemma SemOpExactly(s: SemSet, p: Pid, n: int)
    requires WellShaped(s)
    ensures var r := SemOp(s, p, OpOp(n));
      && (r.Some? <==> if n == 0 then s.vals[0] == 0 else s.vals[0] + n >= 0)
      && (r.Some? && n == 0 ==> r.value == s)
      && (r.Some? && n != 0 ==> Raised(s, r.value, p, n))
  {
    assert OpOp(n)[1..] == [];
    var one := SemOpOne(s, p, OpOp(n)[0]);
    assert one.Some? ==> SemOp(one.value, p, []) == one;
  }

  /** A call with an amount other than zero goes through exactly when the value plus the amount is not negative, and
      then raises the value and lowers the caller's adjustment by the amount. With zero it goes through exactly at
      value zero and changes nothing. Everything else stays as it is. */
  lemma OperateExactly(s: State, p: Pid, id: nat, n: int)
    requires ShapeOk(s) && p in s.procs && s.procs[p].Idle? && id < |s.sets| && s.sets[id].live
    ensures var r, set_ := Step(s, Operate(p, id, n)), s.sets[id].set_;
      && (r.Some? <==> if n == 0 then set_.vals[0] == 0 else set_.vals[0] + n >= 0)
      && (r.Some? && n == 0 ==> r.value == s)
      && (r.Some? && n != 0 ==>
            && r.value.procs == s.procs && r.value.key == s.key && |r.value.sets| == |s.sets|
            && (forall i | 0 <= i < |s.sets| && i != id :: r.value.sets[i] == s.sets[i])
            && r.value.sets[id] == s.sets[id].(set_ := r.value.sets[id].set_)
            && WellShaped(r.value.sets[id].set_) && Raised(set_, r.value.sets[id].set_, p, n))
  {
    SemOpExactly(s.sets[id].set_, p, n);
    hide Raised, SemOp, OpOp;
    assert s.procs[p := Idle] == s.procs;
    assert s.sets[id := s.sets[id]] == s.sets;
  }

  /** sem_wait waits exactly at value zero, sem_signal never. */
  lemma WaitAndSignal(s: State, p: Pid, id: nat)
    requires ShapeOk(s) && p in s.procs && s.procs[p].Idle? && id < |s.sets| && s.sets[id].live
    ensures Step(s, Operate(p, id, -1)).Some? <==> s.sets[id].set_.vals[0] > 0
    ensures Step(s, Operate(p, id, 1)).Some?
  {
    hide Step, Raised;
    assert WellShaped(s.sets[id].set_);
    OperateExactly(s, p, id, -1);
    OperateExactly(s, p, id, 1);
  }

  // ---- One step ----

  predicate Initialises(s: State, a: Action, id: nat) {
    a.SetValue? && AtLive(s, a.p) && s.procs[a.p].SettingValue? && s.procs[a.p].id == id
  }

  /** The step by which a process ends: a death, or the dump of sem_close. */
  predicate Ends(s: State, a: Action) {
    a.Exit? || (a.Decide? && AtLive(s, a.p) && s.procs[a.p].Deciding? && s.procs[a.p].semval > BIGCOUNT)
  }

  lemma AfterIsShaped(s: State, a: Action)
    requires ShapeOk(s) && Step(s, a).Some? && Inv(Step(s, a).value)
    ensures ShapeOk(Step(s, a).value)
  {}

  /** Set `id` before and after a step, as far as the value member goes. */
  ghost predicate ValueKept(s: State, t: State, id: nat) {
    && ShapeOk(s) && ShapeOk(t) && id < |s.sets| && id < |t.sets|
    && t.sets[id].set_.vals[0] == s.sets[id].set_.vals[0] && t.sets[id].set_.adj[0] == s.sets[id].set_.adj[0]
  }

  lemma OtherValue(s: State, a: Action, id: nat)
    requires Inv(s) && id < |s.sets| && OtherStep(s, a).Some? && Step(s, a) == OtherStep(s, a)
    requires ShapeOk(OtherStep(s, a).value)
    ensures id < |OtherStep(s, a).value.sets|
    ensures !(a.Operate? && a.id == id) ==> ValueKept(s, OtherStep(s, a).value, id)
    ensures a.Operate? && a.id == id ==>
      a.p in s.procs && s.procs[a.p].Idle? && s.sets[id].live
      && Step(s, a) == Step(s, Operate(a.p, id, a.amount))
  {
    hide SetInv, PcInv, SemOp;
    if a.Open? {
      OpenEffect(s.sets[s.procs[a.p].id].set_, a.p);
    }
  }

  lemma CloseValue(s: State, a: Action, id: nat)
    requires Inv(s) && Bounded(s) && id < |s.sets| && CloseStep(s, a).Some? && !Ends(s, a) && CloseAction(a)
    requires ShapeOk(CloseStep(s, a).value)
    ensures id < |CloseStep(s, a).value.sets| && ValueKept(s, CloseStep(s, a).value, id)
  {
    hide SetInv, PcInv, SemOp, Exited;
    if AtLive(s, a.p) {
      CloseEffect(s.sets[s.procs[a.p].id].set_, a.p);
      UnlockEffect(s.sets[s.procs[a.p].id].set_, a.p);
    }
  }

  lemma CreateValue(s: State, a: Action, id: nat)
    requires Inv(s) && id < |s.sets| && CreateStep(s, a).Some? && Step(s, a) == CreateStep(s, a)
    requires ShapeOk(CreateStep(s, a).value) && !Initialises(s, a, id)
    ensures id < |CreateStep(s, a).value.sets| && ValueKept(s, CreateStep(s, a).value, id)
  {
    hide SetInv, PcInv, SemOp;
    if AtLive(s, a.p) {
      LockEffect(s.sets[s.procs[a.p].id].set_, a.p);
      EndCreateEffect(s.sets[s.procs[a.p].id].set_, a.p);
    }
  }

  /** No step but a call of sem_op, an initialisation or the end of a process touches the value member. */
  lemma OnlyOperations(s: State, a: Action, id: nat)
    requires Inv(s) && Bounded(s) && id < |s.sets| && Step(s, a).Some? && !Initialises(s, a, id) && !Ends(s, a)
    ensures ShapeOk(Step(s, a).value) && id < |Step(s, a).value.sets|
    ensures !(a.Operate? && a.id == id) ==> ValueKept(s, Step(s, a).value, id)
    ensures a.Operate? && a.id == id ==>
      a.p in s.procs && s.procs[a.p].Idle? && s.sets[id].live && a == Operate(a.p, id, a.amount)
  {
    hide *;
    StepKeeps(s, a);
    StepKinds(s, a);
    AfterIsShaped(s, a);
    EndKinds(s, a);
    if a.Spawn? || a.FailOnRemoved? {
      IdleValue(s, a, id);
    } else if CreateAction(a) {
      CreateValue(s, a, id);
    } else if CloseAction(a) {
      CloseValue(s, a, id);
    } else {
      OtherValue(s, a, id);
    }
  }

  lemma EndKinds(s: State, a: Action)
    ensures a.Exit? ==> Ends(s, a)
    ensures CreateAction(a) || CloseAction(a) ==> !a.Operate?
  {}

  lemma IdleValue(s: State, a: Action, id: nat)
    requires ShapeOk(s) && id < |s.sets| && (a.Spawn? || a.FailOnRemoved?) && Step(s, a).Some?
    requires ShapeOk(Step(s, a).value)
    ensures id < |Step(s, a).value.sets| && ValueKept(s, Step(s, a).value, id)
  {}

  /** One step of a run without deaths adds the amount of the call, if it is one on this set. */
  lemma AmountOfStep(s: State, a: Action, id: nat)
    requires Inv(s) && Bounded(s) && id < |s.sets| && Step(s, a).Some? && !Initialises(s, a, id) && !Ends(s, a)
    ensures ShapeOk(Step(s, a).value) && id < |Step(s, a).value.sets|
    ensures var t, n := Step(s, a).value, if a.Operate? && a.id == id then a.amount else 0;
      t.sets[id].set_.vals[0] == s.sets[id].set_.vals[0] + n
      && forall q :: AdjOf(t.sets[id].set_.adj[0], q) == AdjOf(s.sets[id].set_.adj[0], q) - if q == a.p then n else 0
  {
    hide Step, Ends, Initialises, Bounded, SetInv, PcInv;
    OnlyOperations(s, a, id);
    if a.Operate? && a.id == id {
      OperateExactly(s, a.p, id, a.amount);
    }
  }

  // ---- The value with everything undone ----

  /** The adjustments that the processes below `n` have on a member. */
  function AdjBelow(m: map<Pid, int>, n: nat): int {
    if n == 0 then 0 else AdjOf(m, n - 1) + AdjBelow(m, n - 1)
  }

  /** The value of a set with everything undone that processes below `n` did to it. */
  function Settled(s: State, id: nat, n: nat): int
    requires ShapeOk(s) && id < |s.sets|
  {
    s.sets[id].set_.vals[0] + AdjBelow(s.sets[id].set_.adj[0], n)
  }

  lemma {:induction false} AdjBelowChanged(m: map<Pid, int>, m': map<Pid, int>, p: Pid, n: nat)
    requires forall q | q != p :: AdjOf(m', q) == AdjOf(m, q)
    ensures AdjBelow(m', n) == AdjBelow(m, n) + if p < n then AdjOf(m', p) - AdjOf(m, p) else 0
  {
    if n > 0 {
      AdjBelowChanged(m, m', p, n - 1);
    }
  }

  lemma {:induction false} AdjBelowNone(n: nat)
    ensures AdjBelow(map[], n) == 0
  {
    if n > 0 {
      AdjBelowNone(n - 1);
    }
  }

  /** What the kernel drops when a value would fall below zero at the end of a process. */
  function Clamped(s: State, id: nat, p: Pid): nat
    requires ShapeOk(s) && id < |s.sets|
  {
    var v := s.sets[id].set_.vals[0] + AdjOf(s.sets[id].set_.adj[0], p);
    if v < 0 then -v else 0
  }

  function LossOf(s: State, a: Action, id: nat): nat
    requires ShapeOk(s) && id < |s.sets|
  {
    if Ends(s, a) then Clamped(s, id, a.p) else 0
  }

  lemma ExitSettles(s: State, p: Pid, id: nat, n: nat)
    requires Inv(s) && Bounded(s) && id < |s.sets| && p in s.procs && p < n
    ensures ShapeOk(Exited(s, p)) && |Exited(s, p).sets| == |s.sets|
    ensures Settled(Exited(s, p), id, n) == Settled(s, id, n) + Clamped(s, id, p)
  {
    hide AdjBelow, SetInv, PcInv;
    ExitKeeps(s, p);
    AdjBelowChanged(s.sets[id].set_.adj[0], Exited(s, p).sets[id].set_.adj[0], p, n);
  }

  /** Every step but an initialisation leaves the settled value as it is, except that a death whose adjustment is
      clamped at zero raises it by what was clamped. */
  lemma StepSettles(s: State, a: Action, id: nat, n: nat)
    requires Inv(s) && Bounded(s) && id < |s.sets| && Step(s, a).Some? && a.p < n && !Initialises(s, a, id)
    ensures ShapeOk(Step(s, a).value) && id < |Step(s, a).value.sets|
    ensures Settled(Step(s, a).value, id, n) == Settled(s, id, n) + LossOf(s, a, id)
  {
    hide AdjBelow, Step, SetInv, PcInv, Bounded, Initialises, Exited;
    var adj := s.sets[id].set_.adj[0];
    if Ends(s, a) {
      EndsBy(s, a);
      ExitSettles(s, a.p, id, n);
    } else {
      AmountOfStep(s, a, id);
      AdjBelowChanged(adj, Step(s, a).value.sets[id].set_.adj[0], a.p, n);
    }
  }

  lemma EndsBy(s: State, a: Action)
    requires ShapeOk(s) && Step(s, a).Some? && Ends(s, a)
    ensures a.p in s.procs && Step(s, a) == Some(Exited(s, a.p))
  {
    hide Exited;
  }

  /** The steps of a run that neither initialise set `id` again nor come from a process numbered `n` or more. */
  ghost predicate Undisturbed(s: State, actions: seq<Action>, id: nat, n: nat)
    decreases |actions|
  {
    actions == [] ||
    (ShapeOk(s) && actions[0].p < n && !Initialises(s, actions[0], id) && Step(s, actions[0]).Some?
     && Undisturbed(Step(s, actions[0]).value, actions[1..], id, n))
  }

  /** What the deaths of a run dropped from set `id` altogether. */
  ghost function Losses(s: State, actions: seq<Action>, id: nat): nat
    decreases |actions|
  {
    if actions == [] || !ShapeOk(s) || id >= |s.sets| || Step(s, actions[0]).None? then 0
    else LossOf(s, actions[0], id) + Losses(Step(s, actions[0]).value, actions[1..], id)
  }

  lemma {:induction false} RunSettles(s: State, actions: seq<Action>, e: State, id: nat, n: nat)
    requires Inv(s) && id < |s.sets| && Runs(s, actions, e) && Undisturbed(s, actions, id, n)
    ensures ShapeOk(e) && id < |e.sets| && Settled(e, id, n) == Settled(s, id, n) + Losses(s, actions, id)
    decreases |actions|
  {
    hide Settled, LossOf, Step, SetInv, PcInv;
    if actions != [] {
      StepKeeps(s, actions[0]);
      StepSettles(s, actions[0], id, n);
      RunSettles(Step(s, actions[0]).value, actions[1..], e, id, n);
    }
  }

  /** From the SETVAL of sem_create on, whatever processes do and wherever they die, the value plus the adjustments
      on it is the initial value and what was clamped: exactly the initial value if and only if no death was
      clamped at zero. */
  lemma ValueConservation(s: State, p: Pid, actions: seq<Action>, e: State, n: nat)
    requires Reachable(s) && AtLive(s, p) && s.procs[p].SettingValue? && ShapeOk(s) && Step(s, SetValue(p)).Some?
    requires Runs(Step(s, SetValue(p)).value, actions, e)
    requires Undisturbed(Step(s, SetValue(p)).value, actions, s.procs[p].id, n)
    ensures var id, s0 := s.procs[p].id, Step(s, SetValue(p)).value;
      && ShapeOk(e) && id < |e.sets|
      && Settled(e, id, n) == s.procs[p].initval + Losses(s0, actions, id)
      && (Settled(e, id, n) == s.procs[p].initval <==> Losses(s0, actions, id) == 0)
  {
    hide AdjBelow, SetInv, PcInv, SemOp, Runs, Undisturbed, Losses;
    ReachableInv(s);
    StepKeeps(s, SetValue(p));
    AdjBelowNone(n);
    RunSettles(Step(s, SetValue(p)).value, actions, e, s.procs[p].id, n);
  }
}
