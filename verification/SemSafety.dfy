/** What holds in every reachable state of the semaphore protocol. */
module SemSafety {
  import opened Options
  import opened SemKernel
  import opened Semaphore

  // ---- The effect of the operation arrays ----

  lemma LockEffect(s: SemSet, p: Pid)
    requires WellShaped(s)
    ensures SemOp(s, p, OP_LOCK)
         == if s.vals[2] != 0 then None
            else Some(SemSet(s.vals[2 := 1], s.adj[2 := Adjust(s.adj[2], p, -1)]))
  {
    var t := SemSet(s.vals[2 := s.vals[2] + 1], s.adj[2 := Adjust(s.adj[2], p, -1)]);
    assert OP_LOCK[1..] == [SemBuf(2, 1, true)] && OP_LOCK[1..][1..] == [];
    assert SemOp(s, p, OP_LOCK[1..]) == Some(t);
  }

  lemma EndCreateEffect(s: SemSet, p: Pid)
    requires WellShaped(s)
    ensures SemOp(s, p, OP_ENDCREATE)
         == if s.vals[1] == 0 || s.vals[2] == 0 then None
            else Some(SemSet(s.vals[1 := s.vals[1] - 1][2 := s.vals[2] - 1],
                             s.adj[1 := Adjust(s.adj[1], p, 1)][2 := Adjust(s.adj[2], p, 1)]))
  {
    assert OP_ENDCREATE[1..] == [SemBuf(2, -1, true)] && OP_ENDCREATE[1..][1..] == [];
    if s.vals[1] > 0 {
      var t := SemSet(s.vals[1 := s.vals[1] - 1], s.adj[1 := Adjust(s.adj[1], p, 1)]);
      assert SemOpOne(s, p, OP_ENDCREATE[0]) == Some(t);
      if t.vals[2] > 0 {
        assert SemOp(t, p, OP_ENDCREATE[1..])
            == Some(SemSet(t.vals[2 := t.vals[2] - 1], t.adj[2 := Adjust(t.adj[2], p, 1)]));
      }
    }
  }

  lemma OpenEffect(s: SemSet, p: Pid)
    requires WellShaped(s)
    ensures SemOp(s, p, OP_OPEN)
         == if s.vals[1] == 0 then None
            else Some(SemSet(s.vals[1 := s.vals[1] - 1], s.adj[1 := Adjust(s.adj[1], p, 1)]))
  {
    assert OP_OPEN[1..] == [];
  }

  lemma CloseEffect(s: SemSet, p: Pid)
    requires WellShaped(s)
    ensures SemOp(s, p, OP_CLOSE)
         == if s.vals[2] != 0 then None
            else Some(SemSet(s.vals[2 := 1][1 := s.vals[1] + 1],
                             s.adj[2 := Adjust(s.adj[2], p, -1)][1 := Adjust(s.adj[1], p, -1)]))
  {
    var t := SemSet(s.vals[2 := s.vals[2] + 1], s.adj[2 := Adjust(s.adj[2], p, -1)]);
    var u := SemSet(t.vals[1 := t.vals[1] + 1], t.adj[1 := Adjust(t.adj[1], p, -1)]);
    assert OP_CLOSE[1..] == [SemBuf(2, 1, true), SemBuf(1, 1, true)];
    assert OP_CLOSE[1..][1..] == [SemBuf(1, 1, true)] && OP_CLOSE[1..][1..][1..] == [];
    assert SemOp(t, p, OP_CLOSE[1..][1..]) == Some(u);
    assert SemOp(s, p, OP_CLOSE[1..]) == Some(u);
  }

  lemma UnlockEffect(s: SemSet, p: Pid)
    requires WellShaped(s)
    ensures SemOp(s, p, OP_UNLOCK)
         == if s.vals[2] == 0 then None
            else Some(SemSet(s.vals[2 := s.vals[2] - 1], s.adj[2 := Adjust(s.adj[2], p, 1)]))
  {
    assert OP_UNLOCK[1..] == [];
  }

  lemma OperateEffect(s: SemSet, p: Pid, amount: int)
    requires WellShaped(s)
    ensures var r := SemOp(s, p, OpOp(amount));
      r.Some? ==> r.value.vals[1..] == s.vals[1..] && r.value.adj[1..] == s.adj[1..]
  {
    assert OpOp(amount)[1..] == [];
  }

  // ---- The invariant ----

  ghost predicate Held(procs: map<Pid, PC>, id: nat) {
    exists p :: Inside(procs, p, id)
  }

  predicate Inside(procs: map<Pid, PC>, p: Pid, id: nat) {
    p in procs && InSection(procs[p], id)
  }

  /** What the end of a process gives back to the counter. */
  function Due(r: Tracked, p: Pid): int {
    var held: int := r.opens[p];
    held - r.unheld[p]
  }

  /** member[1] counts the opens, less closes without one; member[2] is the lock; and the adjustments undo exactly
      what each process would leave behind. */
  ghost predicate SetInv(r: Tracked, id: nat, procs: map<Pid, PC>)
    requires WellShaped(r.set_)
  {
    var counter, lock := r.set_.vals[1], r.set_.vals[2];
    && r.inits <= 1
    && (r.inits == 0 ==> counter == 0 && r.opens == r.unheld == multiset{})
    && (r.inits == 1 ==> counter + |r.opens| == BIGCOUNT + |r.unheld|)
    && (r.returned ==> r.inits == 1)
    && (forall p :: AdjOf(r.set_.adj[1], p) == Due(r, p))
    && (forall p | p in r.opens || p in r.unheld :: p in procs)
    && (r.opens != multiset{} ==> r.returned)
    && lock <= 1
    && (lock == 1 <==> Held(procs, id))
    && (forall p, q | Inside(procs, p, id) && Inside(procs, q, id) :: p == q)
    && (forall p :: AdjOf(r.set_.adj[2], p) == if Inside(procs, p, id) then -1 else 0)
  }

  /** What a process knows about its set at each point. */
  ghost predicate PcInv(r: Tracked, p: Pid, pc: PC) {
    && (pc.SettingValue? || pc.SettingCounter? ==> r.inits == 0)
    && (pc.EndingCreate? || pc.Counting? || pc.Deciding? ==> r.inits == 1)
    && (pc.Closing? ==> r.returned)
  }

  ghost predicate Inv(s: State) {
    && ShapeOk(s)
    && (forall i | 0 <= i < |s.sets| && s.sets[i].live :: SetInv(s.sets[i], i, s.procs))
    && (forall p | p in s.procs && MentionsSet(s.procs[p]) && s.sets[s.procs[p].id].live ::
          PcInv(s.sets[s.procs[p].id], p, s.procs[p]))
  }

  /** Fewer than BIGCOUNT opens outstanding on every set. */
  ghost predicate Bounded(s: State) {
    forall i | 0 <= i < |s.sets| :: |s.sets[i].opens| < BIGCOUNT
  }

  // ---- Steps that change one set and one process ----

  /** Whether a step that takes `p` from `from` to `to` leaves the lock sections of other sets alone. */
  predicate StaysAt(from: PC, to: PC, id: nat) {
    (MentionsSet(from) ==> from.id == id) && (MentionsSet(to) ==> to.id == id)
  }

  lemma SameSection(r: Tracked, id: nat, procs: map<Pid, PC>, p: Pid, pc: PC)
    requires WellShaped(r.set_) && SetInv(r, id, procs) && p in procs
    requires InSection(pc, id) == InSection(procs[p], id)
    ensures SetInv(r, id, procs[p := pc])
  {
    var procs' := procs[p := pc];
    assert forall q :: Inside(procs', q, id) == Inside(procs, q, id);
    if Held(procs, id) {
      var q :| Inside(procs, q, id);
      assert Inside(procs', q, id);
    }
  }

  /** From the changed set and process to the whole state. */
  lemma ChangedKeeps(s: State, p: Pid, id: nat, r: Tracked, pc: PC)
    requires Inv(s) && p in s.procs && id < |s.sets| && s.sets[id].live && r.live && WellShaped(r.set_)
    requires StaysAt(s.procs[p], pc, id)
    requires SetInv(r, id, s.procs[p := pc]) && (MentionsSet(pc) ==> PcInv(r, p, pc))
    requires forall q | q in s.procs && q != p && MentionsSet(s.procs[q]) && s.procs[q].id == id ::
               PcInv(r, q, s.procs[q])
    ensures Inv(Changed(s, p, id, r, pc))
  {
    var s' := Changed(s, p, id, r, pc);
    forall i | 0 <= i < |s'.sets| && s'.sets[i].live
      ensures SetInv(s'.sets[i], i, s'.procs)
    {
      assert s.key == Some(i) && s.key == Some(id);
    }
  }

  lemma GotoKeeps(s: State, p: Pid, pc: PC)
    requires Inv(s) && p in s.procs
    requires forall i | 0 <= i < |s.sets| && s.sets[i].live :: InSection(s.procs[p], i) == InSection(pc, i)
    requires MentionsSet(pc) ==> pc.id < |s.sets| && (s.sets[pc.id].live ==> PcInv(s.sets[pc.id], p, pc))
    ensures Inv(Goto(s, p, pc))
  {
    forall i | 0 <= i < |s.sets| && s.sets[i].live
      ensures SetInv(s.sets[i], i, s.procs[p := pc])
    {
      SameSection(s.sets[i], i, s.procs, p, pc);
    }
  }

  // ---- Taking and giving back the lock ----

  lemma TakesLock(r: Tracked, r': Tracked, id: nat, procs: map<Pid, PC>, p: Pid, procs': map<Pid, PC>)
    requires WellShaped(r.set_) && WellShaped(r'.set_) && SetInv(r, id, procs) && p in procs && p in procs'
    requires procs' == procs[p := procs'[p]] && InSection(procs'[p], id)
    requires r.set_.vals[2] == 0 && r'.set_.vals[2] == 1
    requires forall q :: AdjOf(r'.set_.adj[2], q) == AdjOf(r.set_.adj[2], q) - (if q == p then 1 else 0)
    ensures Held(procs', id)
    ensures forall q, q' | Inside(procs', q, id) && Inside(procs', q', id) :: q == q'
    ensures forall q :: AdjOf(r'.set_.adj[2], q) == if Inside(procs', q, id) then -1 else 0
  {
    assert Inside(procs', p, id);
    assert forall q :: !Inside(procs, q, id);
    assert forall q :: Inside(procs', q, id) ==> q == p || Inside(procs, q, id);
  }

  lemma GivesLock(r: Tracked, r': Tracked, id: nat, procs: map<Pid, PC>, p: Pid, procs': map<Pid, PC>)
    requires WellShaped(r.set_) && WellShaped(r'.set_) && SetInv(r, id, procs) && p in procs && p in procs'
    requires procs' == procs[p := procs'[p]] && InSection(procs[p], id) && !InSection(procs'[p], id)
    requires forall q :: AdjOf(r'.set_.adj[2], q) == AdjOf(r.set_.adj[2], q) + (if q == p then 1 else 0)
    ensures r.set_.vals[2] == 1
    ensures !Held(procs', id)
    ensures forall q :: !Inside(procs', q, id)
    ensures forall q :: AdjOf(r'.set_.adj[2], q) == 0
  {
    assert Inside(procs, p, id);
    assert forall q :: Inside(procs', q, id) ==> q != p && Inside(procs, q, id);
  }

  // ---- Every step keeps the invariant ----

  lemma LockedSetInv(r: Tracked, r': Tracked, id: nat, procs: map<Pid, PC>, p: Pid, pc: PC)
    requires WellShaped(r.set_) && SetInv(r, id, procs) && p in procs && InSection(pc, id) && r.set_.vals[2] == 0
    requires r' == r.(set_ := SemSet(r.set_.vals[2 := 1], r.set_.adj[2 := Adjust(r.set_.adj[2], p, -1)]))
    ensures WellShaped(r'.set_) && SetInv(r', id, procs[p := pc])
  {
    TakesLock(r, r', id, procs, p, procs[p := pc]);
  }

  lemma LockKeeps(s: State, p: Pid)
    requires Inv(s) && Step(s, Lock(p)).Some?
    ensures Inv(Step(s, Lock(p)).value)
  {
    hide SemOp, SetInv, Adjust;
    var id := s.procs[p].id;
    var r := s.sets[id];
    LockEffect(r.set_, p);
    var r' := r.(set_ := SemOp(r.set_, p, OP_LOCK).value);
    LockedSetInv(r, r', id, s.procs, p, Checking(id, s.procs[p].initval));
    ChangedKeeps(s, p, id, r', Checking(id, s.procs[p].initval));
  }

  lemma GetCounterKeeps(s: State, p: Pid)
    requires Inv(s) && Bounded(s) && Step(s, GetCounter(p)).Some?
    ensures Inv(Step(s, GetCounter(p)).value)
  {
    hide SemOp;
    var pc := s.procs[p];
    GotoKeeps(s, p, if s.sets[pc.id].set_.vals[1] == 0 then SettingValue(pc.id, pc.initval) else EndingCreate(pc.id));
  }

  lemma SetValueKeeps(s: State, p: Pid)
    requires Inv(s) && Step(s, SetValue(p)).Some?
    ensures Inv(Step(s, SetValue(p)).value)
  {
    hide SemOp;
    var pc := s.procs[p];
    var r := s.sets[pc.id];
    var r' := r.(set_ := SetVal(r.set_, 0, pc.initval));
    SameSection(r, pc.id, s.procs, p, SettingCounter(pc.id));
    ChangedKeeps(s, p, pc.id, r', SettingCounter(pc.id));
  }

  lemma CountedSetInv(r: Tracked, r': Tracked, id: nat, procs: map<Pid, PC>, p: Pid)
    requires WellShaped(r.set_) && SetInv(r, id, procs) && p in procs && InSection(procs[p], id) && r.inits == 0
    requires r' == r.(set_ := SetVal(r.set_, 1, BIGCOUNT), inits := 1)
    ensures SetInv(r', id, procs[p := EndingCreate(id)])
    ensures forall q | q in procs && q != p :: !Inside(procs, q, id)
  {
    SameSection(r, id, procs, p, EndingCreate(id));
    assert Inside(procs, p, id);
  }

  lemma SetCounterKeeps(s: State, p: Pid)
    requires Inv(s) && Step(s, SetCounter(p)).Some?
    ensures Inv(Step(s, SetCounter(p)).value)
  {
    hide SemOp, SetInv;
    var pc := s.procs[p];
    var r := s.sets[pc.id];
    var r' := r.(set_ := SetVal(r.set_, 1, BIGCOUNT), inits := r.inits + 1);
    CountedSetInv(r, r', pc.id, s.procs, p);
    forall q | q in s.procs && q != p && MentionsSet(s.procs[q]) && s.procs[q].id == pc.id
      ensures PcInv(r', q, s.procs[q])
    {
      assert !Inside(s.procs, q, pc.id);
    }
    ChangedKeeps(s, p, pc.id, r', EndingCreate(pc.id));
  }

  lemma EndCreateKeeps(s: State, p: Pid)
    requires Inv(s) && Step(s, EndCreate(p)).Some?
    ensures Inv(Step(s, EndCreate(p)).value)
  {
    hide SemOp;
    var id := s.procs[p].id;
    var r := s.sets[id];
    EndCreateEffect(r.set_, p);
    var r' := r.(set_ := SemOp(r.set_, p, OP_ENDCREATE).value, opens := r.opens + multiset{p}, returned := true);
    GivesLock(r, r', id, s.procs, p, s.procs[p := Idle]);
    ChangedKeeps(s, p, id, r', Idle);
  }

  lemma OpenedSetInv(r: Tracked, r': Tracked, id: nat, procs: map<Pid, PC>, p: Pid)
    requires WellShaped(r.set_) && SetInv(r, id, procs) && p in procs && !InSection(procs[p], id) && r.set_.vals[1] > 0
    requires r' == r.(set_ := SemSet(r.set_.vals[1 := r.set_.vals[1] - 1],
                                     r.set_.adj[1 := Adjust(r.set_.adj[1], p, 1)]),
                      opens := r.opens + multiset{p}, returned := true)
    ensures WellShaped(r'.set_) && SetInv(r', id, procs[p := Idle]) && r.inits == 1
  {
    SameSection(r, id, procs, p, Idle);
    assert forall q :: Due(r', q) == Due(r, q) + if q == p then 1 else 0;
  }

  lemma OpenKeeps(s: State, p: Pid)
    requires Inv(s) && Step(s, Open(p)).Some?
    ensures Inv(Step(s, Open(p)).value)
  {
    hide SemOp, SetInv, Adjust;
    var id := s.procs[p].id;
    var r := s.sets[id];
    OpenEffect(r.set_, p);
    var r' := r.(set_ := SemOp(r.set_, p, OP_OPEN).value, opens := r.opens + multiset{p}, returned := true);
    OpenedSetInv(r, r', id, s.procs, p);
    ChangedKeeps(s, p, id, r', Idle);
  }

  /** The set after op_close. */
  function ClosedSet(r: Tracked, p: Pid): Tracked
    requires WellShaped(r.set_)
  {
    ClosedBy(r, p).(set_ := SemSet(r.set_.vals[2 := 1][1 := r.set_.vals[1] + 1],
                                   r.set_.adj[2 := Adjust(r.set_.adj[2], p, -1)][1 := Adjust(r.set_.adj[1], p, -1)]))
  }

  lemma ClosedSetInv(r: Tracked, id: nat, procs: map<Pid, PC>, p: Pid)
    requires WellShaped(r.set_) && SetInv(r, id, procs) && p in procs && r.returned && r.set_.vals[2] == 0
    ensures WellShaped(ClosedSet(r, p).set_) && SetInv(ClosedSet(r, p), id, procs[p := Counting(id)])
    ensures r.inits == 1
  {
    var r', procs' := ClosedSet(r, p), procs[p := Counting(id)];
    TakesLock(r, r', id, procs, p, procs');
    assert forall q :: AdjOf(r'.set_.adj[1], q) == Due(r, q) - (if q == p then 1 else 0);
    if p in r.opens {
      assert |r'.opens| == |r.opens| - 1 && r'.unheld == r.unheld;
    } else {
      assert |r'.unheld| == |r.unheld| + 1 && r'.opens == r.opens;
    }
  }

  lemma CloseStepIs(s: State, p: Pid)
    requires ShapeOk(s) && Step(s, Close(p)).Some?
    ensures AtLive(s, p) && s.procs[p].Closing?
    ensures var id := s.procs[p].id;
      s.sets[id].set_.vals[2] == 0
      && Step(s, Close(p)).value == Changed(s, p, id, ClosedSet(s.sets[id], p), Counting(id))
  {
    hide SemOp;
    if AtLive(s, p) {
      CloseEffect(s.sets[s.procs[p].id].set_, p);
    }
  }

  /** Closing takes nothing from what the others know about the set. */
  lemma ClosedPcInv(r: Tracked, p: Pid)
    requires WellShaped(r.set_)
    ensures ClosedSet(r, p).live == r.live && ClosedSet(r, p).inits == r.inits
    ensures forall q, pc | q != p && PcInv(r, q, pc) :: PcInv(ClosedSet(r, p), q, pc)
  {}

  lemma CloseKeeps(s: State, p: Pid)
    requires Inv(s) && Step(s, Close(p)).Some?
    ensures Inv(Step(s, Close(p)).value)
  {
    CloseStepIs(s, p);
    hide SemOp, SetInv, Step, ClosedSet, Changed;
    var id := s.procs[p].id;
    var r := s.sets[id];
    ClosedSetInv(r, id, s.procs, p);
    ClosedPcInv(r, p);
    ChangedKeeps(s, p, id, ClosedSet(r, p), Counting(id));
  }

  lemma DecideUnlockKeeps(s: State, p: Pid)
    requires Inv(s) && Step(s, Decide(p)).Some? && s.procs[p].semval < BIGCOUNT
    ensures Inv(Step(s, Decide(p)).value)
  {
    hide SemOp;
    var id := s.procs[p].id;
    var r := s.sets[id];
    UnlockEffect(r.set_, p);
    var r' := r.(set_ := SemOp(r.set_, p, OP_UNLOCK).value);
    GivesLock(r, r', id, s.procs, p, s.procs[p := Idle]);
    ChangedKeeps(s, p, id, r', Idle);
  }

  lemma CloseGetCounterKeeps(s: State, p: Pid)
    requires Inv(s) && Step(s, CloseGetCounter(p)).Some?
    ensures Inv(Step(s, CloseGetCounter(p)).value)
  {
    var pc := s.procs[p];
    GotoKeeps(s, p, Deciding(pc.id, s.sets[pc.id].set_.vals[1]));
  }

  lemma OperateKeeps(s: State, p: Pid, id: nat, amount: int)
    requires Inv(s) && Step(s, Operate(p, id, amount)).Some?
    ensures Inv(Step(s, Operate(p, id, amount)).value)
  {
    hide SemOp;
    var r := s.sets[id];
    OperateEffect(r.set_, p, amount);
    var r' := r.(set_ := SemOp(r.set_, p, OpOp(amount)).value);
    assert forall i | 1 <= i < MEMBERS :: r'.set_.vals[i] == r.set_.vals[1..][i - 1];
    assert forall i | 1 <= i < MEMBERS :: r'.set_.adj[i] == r.set_.adj[1..][i - 1];
    SameSection(r', id, s.procs, p, Idle);
    ChangedKeeps(s, p, id, r', Idle);
  }

  // ---- Removal, new sets, new processes ----

  lemma RemovedKeeps(s: State, id: nat, p: Pid, pc: PC)
    requires Inv(s) && id < |s.sets| && s.sets[id].live && p in s.procs
    requires pc.Idle? && StaysAt(s.procs[p], pc, id)
    ensures Inv(Goto(RemovedSet(s, id), p, pc))
  {
    assert forall i | 0 <= i < |s.sets| && i != id :: !s.sets[i].live;
  }

  lemma RemoveSetKeeps(s: State, p: Pid, id: nat)
    requires Inv(s) && Step(s, RemoveSet(p, id)).Some?
    ensures Inv(Step(s, RemoveSet(p, id)).value)
  {
    var s' := RemovedSet(s, id);
    assert s'.procs == s.procs;
    forall i | 0 <= i < |s'.sets| && s'.sets[i].live
      ensures SetInv(s'.sets[i], i, s'.procs)
    {
      assert i != id && s'.sets[i] == s.sets[i];
    }
  }

  lemma NewSetInv(id: nat, procs: map<Pid, PC>)
    requires forall q | q in procs && MentionsSet(procs[q]) :: procs[q].id < id || procs[q].Locking?
    ensures SetInv(Tracked(NEW_SET, true, multiset{}, multiset{}, 0, false), id, procs)
  {
    assert forall q :: !Inside(procs, q, id);
  }

  lemma NewSetKeeps(s: State, p: Pid, initval: nat)
    requires Inv(s) && p in s.procs && s.key.None?
    ensures Inv(State(s.sets + [Tracked(NEW_SET, true, multiset{}, multiset{}, 0, false)], Some(|s.sets|),
                      s.procs[p := Locking(|s.sets|, initval)]))
  {
    hide SetInv;
    NewSetInv(|s.sets|, s.procs[p := Locking(|s.sets|, initval)]);
    assert forall i | 0 <= i < |s.sets| :: !s.sets[i].live;
  }

  lemma SemGetKeeps(s: State, p: Pid)
    requires Inv(s) && Step(s, SemGet(p)).Some?
    ensures Inv(Step(s, SemGet(p)).value)
  {
    var pc := s.procs[p];
    if s.key.Some? {
      GotoKeeps(s, p, Locking(s.key.value, pc.initval));
    } else {
      NewSetKeeps(s, p, pc.initval);
    }
  }

  lemma SpawnKeeps(s: State, p: Pid)
    requires Inv(s) && Step(s, Spawn(p)).Some?
    ensures Inv(Step(s, Spawn(p)).value)
  {
    var procs' := s.procs[p := Idle];
    forall i | 0 <= i < |s.sets| && s.sets[i].live
      ensures SetInv(s.sets[i], i, procs')
    {
      assert forall q :: Inside(procs', q, i) == Inside(s.procs, q, i);
      if Held(s.procs, i) {
        var q :| Inside(s.procs, q, i);
        assert Inside(procs', q, i);
      }
    }
  }

  // ---- Death ----

  lemma NoMoreThanAll(m: multiset<Pid>, p: Pid)
    ensures m[p] <= |m|
  {
    assert |m[p := 0]| == |m| - m[p];
  }

  /** A process that dies gives back its opens and, if it held it, the lock. */
  lemma ExitedSetInv(r: Tracked, id: nat, procs: map<Pid, PC>, p: Pid)
    requires WellShaped(r.set_) && SetInv(r, id, procs) && p in procs && |r.opens| < BIGCOUNT
    ensures SetInv(ExitedSet(r, p), id, procs - {p})
  {
    var r', procs' := ExitedSet(r, p), procs - {p};
    assert forall q :: Inside(procs', q, id) == (q != p && Inside(procs, q, id));
    if Inside(procs, p, id) {
      assert forall q :: !Inside(procs', q, id);
      assert AdjOf(r.set_.adj[2], p) == -1;
    } else if Held(procs, id) {
      var q :| Inside(procs, q, id);
      assert Inside(procs', q, id);
    }
    assert |r'.opens| == |r.opens| - r.opens[p] && |r'.unheld| == |r.unheld| - r.unheld[p];
    NoMoreThanAll(r.opens, p);
    NoMoreThanAll(r.unheld, p);
    assert r.set_.vals[1] + AdjOf(r.set_.adj[1], p) == r.set_.vals[1] + Due(r, p);
  }

  lemma ExitKeeps(s: State, p: Pid)
    requires Inv(s) && Bounded(s) && p in s.procs
    ensures Inv(Exited(s, p))
  {
    var s' := Exited(s, p);
    forall i | 0 <= i < |s'.sets| && s'.sets[i].live
      ensures SetInv(s'.sets[i], i, s'.procs)
    {
      assert s.sets[i].live;
      ExitedSetInv(s.sets[i], i, s.procs, p);
    }
    forall q | q in s'.procs && MentionsSet(s'.procs[q]) && s'.sets[s'.procs[q].id].live
      ensures PcInv(s'.sets[s'.procs[q].id], q, s'.procs[q])
    {
      assert s.sets[s.procs[q].id].live;
    }
  }

  // ---- All steps ----

  lemma CreateStepKeeps(s: State, a: Action)
    requires Inv(s) && Bounded(s) && CreateStep(s, a).Some? && Step(s, a) == CreateStep(s, a)
    ensures Inv(CreateStep(s, a).value)
  {
    match a
    case CallCreate(p, initval) => GotoKeeps(s, p, Getting(initval));
    case SemGet(p) => SemGetKeeps(s, p);
    case Lock(p) => LockKeeps(s, p);
    case GetCounter(p) => GetCounterKeeps(s, p);
    case SetValue(p) => SetValueKeeps(s, p);
    case SetCounter(p) => SetCounterKeeps(s, p);
    case EndCreate(p) => EndCreateKeeps(s, p);
    case _ =>
  }

  lemma DecideKeeps(s: State, p: Pid)
    requires Inv(s) && Bounded(s) && Step(s, Decide(p)).Some?
    ensures Inv(Step(s, Decide(p)).value)
  {
    var pc := s.procs[p];
    if pc.semval < BIGCOUNT {
      DecideUnlockKeeps(s, p);
    } else if pc.semval > BIGCOUNT {
      ExitKeeps(s, p);
    } else {
      RemovedKeeps(s, pc.id, p, Idle);
    }
  }

  lemma CloseStepKeeps(s: State, a: Action)
    requires Inv(s) && Bounded(s) && CloseStep(s, a).Some? && Step(s, a) == CloseStep(s, a)
    ensures Inv(CloseStep(s, a).value)
  {
    hide SetInv, PcInv, SemOp;
    match a
    case CallClose(p, id) => CallCloseKeeps(s, p, id);
    case CallCloseUnheld(p, id) => CallCloseKeeps(s, p, id);
    case Close(p) => CloseKeeps(s, p);
    case CloseGetCounter(p) => CloseGetCounterKeeps(s, p);
    case Decide(p) => DecideKeeps(s, p);
    case _ =>
  }

  lemma CallCloseKeeps(s: State, p: Pid, id: nat)
    requires Inv(s) && p in s.procs && s.procs[p].Idle? && id < |s.sets|
    requires p in s.sets[id].opens || s.sets[id].returned
    ensures Inv(Goto(s, p, Closing(id)))
  {
    GotoKeeps(s, p, Closing(id));
  }

  lemma OtherStepKeeps(s: State, a: Action)
    requires Inv(s) && OtherStep(s, a).Some? && Step(s, a) == OtherStep(s, a)
    ensures Inv(OtherStep(s, a).value)
  {
    hide SetInv, SemOp;
    match a
    case CallOpen(p) => if s.key.Some? { GotoKeeps(s, p, Opening(s.key.value)); }
    case Open(p) => OpenKeeps(s, p);
    case Operate(p, id, amount) => OperateKeeps(s, p, id, amount);
    case RemoveSet(p, id) => RemoveSetKeeps(s, p, id);
    case _ =>
  }

  /** Every step of every process, death included, keeps the invariant. */
  lemma StepKeeps(s: State, a: Action)
    requires Inv(s) && Bounded(s) && Step(s, a).Some?
    ensures Inv(Step(s, a).value)
  {
    hide *;
    StepCases(s, a);
    match a
    case Spawn(p) => SpawnKeeps(s, p);
    case Exit(p) => ExitKeeps(s, p);
    case FailOnRemoved(p, retry) => FailKeeps(s, p, retry);
    case _ =>
      if Step(s, a) == CreateStep(s, a) {
        CreateStepKeeps(s, a);
      } else if Step(s, a) == CloseStep(s, a) {
        CloseStepKeeps(s, a);
      } else {
        OtherStepKeeps(s, a);
      }
  }

  lemma StepCases(s: State, a: Action)
    requires Inv(s)
    ensures ShapeOk(s)
    ensures a.Exit? && Step(s, a).Some? ==> a.p in s.procs && Step(s, a) == Some(Exited(s, a.p))
    ensures !a.Spawn? && !a.Exit? && !a.FailOnRemoved? ==>
      Step(s, a) == CreateStep(s, a) || Step(s, a) == CloseStep(s, a) || Step(s, a) == OtherStep(s, a)
  {}

  lemma FailKeeps(s: State, p: Pid, retry: bool)
    requires Inv(s) && Step(s, FailOnRemoved(p, retry)).Some?
    ensures Inv(Step(s, FailOnRemoved(p, retry)).value)
  {
    GotoKeeps(s, p, if retry && s.procs[p].Locking? then Getting(s.procs[p].initval) else Idle);
  }
}
