/** Runs in which only processes that hold an open call sem_close. */
module SemOrderly {
  import opened Options
  import opened SemKernel
  import opened Semaphore
  import opened SemSafety

  /** Nobody has closed without an open, who is about to close holds one, and no counter read is too high. */
  ghost predicate Orderly(s: State) {
    && (forall i | 0 <= i < |s.sets| && s.sets[i].live :: s.sets[i].unheld == multiset{})
    && (forall p | AtLive(s, p) && s.procs[p].Closing? :: p in s.sets[s.procs[p].id].opens)
    && (forall p | AtLive(s, p) && s.procs[p].Deciding? :: s.procs[p].semval <= BIGCOUNT)
  }

  /** What one process at one set keeps of this. */
  ghost predicate OrderlyAt(r: Tracked, p: Pid, pc: PC) {
    (pc.Closing? ==> p in r.opens) && (pc.Deciding? ==> pc.semval <= BIGCOUNT)
  }

  lemma ChangedOrderly(s: State, p: Pid, id: nat, r: Tracked, pc: PC)
    requires Inv(s) && Orderly(s) && p in s.procs && id < |s.sets| && s.sets[id].live && r.live
    requires StaysAt(s.procs[p], pc, id) && r.unheld == multiset{} && OrderlyAt(r, p, pc)
    requires forall q | q != p && q in s.sets[id].opens :: q in r.opens
    ensures Orderly(Changed(s, p, id, r, pc))
  {
    hide SetInv, PcInv;
    var s' := Changed(s, p, id, r, pc);
    forall q | AtLive(s', q)
      ensures OrderlyAt(s'.sets[s'.procs[q].id], q, s'.procs[q])
    {
      assert q != p ==> AtLive(s, q) && s'.procs[q] == s.procs[q];
      assert q == p ==> s'.procs[q] == pc && pc.id == id;
    }
  }

  lemma GotoOrderly(s: State, p: Pid, pc: PC)
    requires Inv(s) && Orderly(s) && p in s.procs
    requires MentionsSet(pc) ==> pc.id < |s.sets| && OrderlyAt(s.sets[pc.id], p, pc)
    ensures Orderly(Goto(s, p, pc))
  {
    hide SetInv, PcInv;
    var s' := Goto(s, p, pc);
    forall q | AtLive(s', q)
      ensures OrderlyAt(s'.sets[s'.procs[q].id], q, s'.procs[q])
    {
      assert q != p ==> AtLive(s, q) && s'.procs[q] == s.procs[q];
    }
  }

  lemma SetGone(s: State, s': State)
    requires Orderly(s) && |s'.sets| == |s.sets|
    requires forall i | 0 <= i < |s.sets| && s'.sets[i].live :: s'.sets[i] == s.sets[i]
    requires forall p | p in s'.procs && MentionsSet(s'.procs[p]) :: p in s.procs && s.procs[p] == s'.procs[p]
    ensures Orderly(s')
  {
    forall q | AtLive(s', q)
      ensures OrderlyAt(s'.sets[s'.procs[q].id], q, s'.procs[q])
    {
      assert AtLive(s, q);
    }
  }

  lemma CreateKeepsOrderly(s: State, a: Action)
    requires Inv(s) && Orderly(s) && CreateStep(s, a).Some? && Step(s, a) == CreateStep(s, a)
    ensures Orderly(CreateStep(s, a).value)
  {
    hide SetInv, PcInv, SemOp, Orderly;
    var p := a.p;
    var pc := s.procs[p];
    if a.CallCreate? {
      GotoOrderly(s, p, Getting(a.initval));
    } else if a.SemGet? {
      GetKeepsOrderly(s, p);
    } else if a.GetCounter? {
      var next := if s.sets[pc.id].set_.vals[1] == 0 then SettingValue(pc.id, pc.initval) else EndingCreate(pc.id);
      GotoOrderly(s, p, next);
    } else {
      ChangeKeepsOrderly(s, a);
    }
  }

  lemma GetKeepsOrderly(s: State, p: Pid)
    requires Inv(s) && Orderly(s) && CreateStep(s, SemGet(p)).Some?
    ensures Orderly(CreateStep(s, SemGet(p)).value)
  {
    hide SetInv, PcInv;
    var s' := CreateStep(s, SemGet(p)).value;
    forall q | AtLive(s', q)
      ensures OrderlyAt(s'.sets[s'.procs[q].id], q, s'.procs[q])
    {
      assert q != p ==> s'.procs[q] == s.procs[q];
    }
  }

  /** The steps of sem_create that change the set. */
  lemma ChangeKeepsOrderly(s: State, a: Action)
    requires Inv(s) && Orderly(s) && CreateStep(s, a).Some?
    requires a.Lock? || a.SetValue? || a.SetCounter? || a.EndCreate?
    ensures Orderly(CreateStep(s, a).value)
  {
    hide SetInv, PcInv, SemOp;
    var p := a.p;
    var id := s.procs[p].id;
    var s' := CreateStep(s, a).value;
    assert s' == Changed(s, p, id, s'.sets[id], s'.procs[p]);
    ChangedOrderly(s, p, id, s'.sets[id], s'.procs[p]);
  }

  lemma OtherKeepsOrderly(s: State, a: Action)
    requires Inv(s) && Orderly(s) && OtherStep(s, a).Some? && Step(s, a) == OtherStep(s, a)
    ensures Orderly(OtherStep(s, a).value)
  {
    hide SetInv, PcInv, SemOp;
    var p := a.p;
    var s' := OtherStep(s, a).value;
    if a.CallOpen? {
      if s.key.Some? { GotoOrderly(s, p, Opening(s.key.value)); }
    } else if a.RemoveSet? {
      SetGone(s, s');
    } else {
      var id := if a.Open? then s.procs[p].id else a.id;
      assert s' == Changed(s, p, id, s'.sets[id], s'.procs[p]);
      ChangedOrderly(s, p, id, s'.sets[id], s'.procs[p]);
    }
  }

  lemma CloseKeepsOrderly(s: State, p: Pid)
    requires Inv(s) && Orderly(s) && Step(s, Close(p)).Some?
    ensures Orderly(Step(s, Close(p)).value)
  {
    hide SetInv, PcInv, SemOp;
    CloseStepIs(s, p);
    var id := s.procs[p].id;
    ChangedOrderly(s, p, id, ClosedSet(s.sets[id], p), Counting(id));
  }

  lemma ReadKeepsOrderly(s: State, p: Pid)
    requires Inv(s) && Orderly(s) && Step(s, CloseGetCounter(p)).Some?
    ensures Orderly(Step(s, CloseGetCounter(p)).value)
  {
    var id := s.procs[p].id;
    CounterBound(s.sets[id], id, s.procs);
    GotoOrderly(s, p, Deciding(id, s.sets[id].set_.vals[1]));
  }

  lemma CounterBound(r: Tracked, id: nat, procs: map<Pid, PC>)
    requires WellShaped(r.set_) && SetInv(r, id, procs) && r.unheld == multiset{}
    ensures r.set_.vals[1] <= BIGCOUNT
  {
  }

  lemma DecideKeepsOrderly(s: State, p: Pid)
    requires Inv(s) && Orderly(s) && Step(s, Decide(p)).Some?
    ensures Orderly(Step(s, Decide(p)).value)
  {
    hide SetInv, PcInv, SemOp;
    var pc := s.procs[p];
    var s' := Step(s, Decide(p)).value;
    if pc.semval == BIGCOUNT {
      SetGone(s, s');
    } else {
      assert s' == Changed(s, p, pc.id, s'.sets[pc.id], Idle);
      ChangedOrderly(s, p, pc.id, s'.sets[pc.id], Idle);
    }
  }

  lemma ExitKeepsOrderly(s: State, p: Pid)
    requires Inv(s) && Orderly(s) && p in s.procs
    ensures Orderly(Exited(s, p))
  {
    hide SetInv, PcInv;
    var s' := Exited(s, p);
    assert multiset{}[p := 0] == multiset{};
    forall q | AtLive(s', q)
      ensures OrderlyAt(s'.sets[s'.procs[q].id], q, s'.procs[q])
    {
      assert q != p && AtLive(s, q) && s'.procs[q] == s.procs[q];
    }
  }

  lemma IdleKeepsOrderly(s: State, a: Action)
    requires Inv(s) && Orderly(s) && (a.Spawn? || a.FailOnRemoved?) && Step(s, a).Some?
    ensures Orderly(Step(s, a).value)
  {
    hide SetInv, PcInv, CreateStep, CloseStep, OtherStep;
    var s' := Step(s, a).value;
    forall q | AtLive(s', q)
      ensures OrderlyAt(s'.sets[s'.procs[q].id], q, s'.procs[q])
    {
      assert q != a.p && AtLive(s, q) && s'.procs[q] == s.procs[q];
    }
  }

  lemma CallKeepsOrderly(s: State, p: Pid, id: nat)
    requires Inv(s) && Orderly(s) && Step(s, CallClose(p, id)).Some?
    ensures Orderly(Step(s, CallClose(p, id)).value)
  {
    hide SetInv, PcInv, Orderly;
    GotoOrderly(s, p, Closing(id));
  }

  // ---- Which part of the machine an action belongs to ----

  predicate CreateAction(a: Action) {
    a.CallCreate? || a.SemGet? || a.Lock? || a.GetCounter? || a.SetValue? || a.SetCounter? || a.EndCreate?
  }

  predicate CloseAction(a: Action) {
    a.CallClose? || a.CallCloseUnheld? || a.Close? || a.CloseGetCounter? || a.Decide?
  }

  predicate OtherAction(a: Action) {
    a.Operate? || a.RemoveSet? || a.Open? || a.CallOpen?
  }

  lemma StepKinds(s: State, a: Action)
    requires Inv(s) && Step(s, a).Some?
    ensures ShapeOk(s) && (a.Exit? ==> a.p in s.procs && Step(s, a) == Some(Exited(s, a.p)))
    ensures CloseAction(a) ==> Step(s, a) == CloseStep(s, a)
    ensures OtherAction(a) ==> Step(s, a) == OtherStep(s, a)
    ensures CreateAction(a) ==> Step(s, a) == CreateStep(s, a)
    ensures CloseAction(a) || OtherAction(a) || CreateAction(a) || a.Exit? || a.Spawn? || a.FailOnRemoved?
  {
    hide CreateStep, CloseStep, OtherStep;
  }

  /** Every step but a close without an open. */
  lemma StepKeepsOrderly(s: State, a: Action)
    requires Inv(s) && Orderly(s) && !a.CallCloseUnheld? && Step(s, a).Some?
    ensures Orderly(Step(s, a).value)
  {
    hide *;
    StepKinds(s, a);
    if a.Exit? {
      ExitKeepsOrderly(s, a.p);
    } else if a.Spawn? || a.FailOnRemoved? {
      IdleKeepsOrderly(s, a);
    } else if CreateAction(a) {
      CreateKeepsOrderly(s, a);
    } else if OtherAction(a) {
      OtherKeepsOrderly(s, a);
    } else {
      CloseStepKeepsOrderly(s, a);
    }
  }

  lemma CloseStepKeepsOrderly(s: State, a: Action)
    requires Inv(s) && Orderly(s) && CloseAction(a) && !a.CallCloseUnheld? && Step(s, a).Some?
    ensures Orderly(Step(s, a).value)
  {
    hide *;
    CloseKinds(a);
    if a.CallClose? {
      CallKeepsOrderly(s, a.p, a.id);
    } else if a.Close? {
      CloseKeepsOrderly(s, a.p);
    } else if a.CloseGetCounter? {
      ReadKeepsOrderly(s, a.p);
    } else {
      DecideKeepsOrderly(s, a.p);
    }
  }

  lemma CloseKinds(a: Action)
    requires CloseAction(a)
    ensures a.CallClose? || a.CallCloseUnheld? || a.Close? || a.CloseGetCounter? || a.Decide?
  {}
}
