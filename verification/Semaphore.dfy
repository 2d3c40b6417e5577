/** The crash-tolerant semaphore protocol of semaph.cpp as a machine whose steps are single kernel calls.

    Any number of processes run sem_create, sem_open, sem_op, sem_close and sem_rm on one key, and each
    may die between any two kernel calls. `opens` and the other fields next to a set are history. */
module Semaphore {
  import opened Options
  import opened SemKernel

  const BIGCOUNT := 10000

  const OP_LOCK := [SemBuf(2, 0, false), SemBuf(2, 1, true)]
  const OP_ENDCREATE := [SemBuf(1, -1, true), SemBuf(2, -1, true)]
  const OP_OPEN := [SemBuf(1, -1, true)]
  const OP_CLOSE := [SemBuf(2, 0, false), SemBuf(2, 1, true), SemBuf(1, 1, true)]
  const OP_UNLOCK := [SemBuf(2, -1, true)]

  function OpOp(amount: int): seq<SemBuf> {
    [SemBuf(0, amount, true)]
  }

  /** Where a process stands: the kernel call it makes next. */
  datatype PC =
    | Idle
    | Getting(initval: nat)               // sem_create: semget
    | Locking(id: nat, initval: nat)      // sem_create: semop(op_lock)
    | Checking(id: nat, initval: nat)     // sem_create: GETVAL [1]
    | SettingValue(id: nat, initval: nat) // sem_create: SETVAL [0]
    | SettingCounter(id: nat)             // sem_create: SETVAL [1]
    | EndingCreate(id: nat)               // sem_create: semop(op_endcreate)
    | Opening(id: nat)                    // sem_open: semop(op_open)
    | Closing(id: nat)                    // sem_close: semop(op_close)
    | Counting(id: nat)                   // sem_close: GETVAL [1]
    | Deciding(id: nat, semval: int)      // sem_close: IPC_RMID or semop(op_unlock)

  /** A set with its history: the opens outstanding by process, the closes of processes that held no open, how
      often its counter was set, and whether a sem_create or sem_open on it has returned. */
  datatype Tracked = Tracked(set_: SemSet, live: bool, opens: multiset<Pid>, unheld: multiset<Pid>, inits: nat,
                             returned: bool)

  /** Sets by identifier, which are never reused; the set the key names; the live processes. */
  datatype State = State(sets: seq<Tracked>, key: Option<nat>, procs: map<Pid, PC>)

  const INIT := State([], None, map[])

  datatype Action =
    | Spawn(p: Pid)
    | CallCreate(p: Pid, initval: nat)
    | SemGet(p: Pid)
    | Lock(p: Pid)
    | GetCounter(p: Pid)
    | SetValue(p: Pid)
    | SetCounter(p: Pid)
    | EndCreate(p: Pid)
    | CallOpen(p: Pid)
    | Open(p: Pid)
    | Operate(p: Pid, id: nat, amount: int)
    | CallClose(p: Pid, id: nat)
    | CallCloseUnheld(p: Pid, id: nat)
    | Close(p: Pid)
    | CloseGetCounter(p: Pid)
    | Decide(p: Pid)
    | RemoveSet(p: Pid, id: nat)
    | FailOnRemoved(p: Pid, retry: bool)
    | Exit(p: Pid)

  predicate MentionsSet(pc: PC) {
    !pc.Idle? && !pc.Getting?
  }

  /** Between taking the lock of set `id` and giving it back. */
  predicate InSection(pc: PC, id: nat) {
    (pc.Checking? || pc.SettingValue? || pc.SettingCounter? || pc.EndingCreate? || pc.Counting? || pc.Deciding?)
    && pc.id == id
  }

  predicate ShapeOk(s: State) {
    && (forall i | 0 <= i < |s.sets| :: WellShaped(s.sets[i].set_))
    && (forall p | p in s.procs :: MentionsSet(s.procs[p]) ==> s.procs[p].id < |s.sets|)
    && (forall i | 0 <= i < |s.sets| :: s.sets[i].live <==> s.key == Some(i))
    && (s.key.Some? ==> s.key.value < |s.sets|)
  }

  function Goto(s: State, p: Pid, pc: PC): State {
    s.(procs := s.procs[p := pc])
  }

  /** A kernel call that changed set `id`. */
  function Changed(s: State, p: Pid, id: nat, r: Tracked, pc: PC): State
    requires id < |s.sets|
  {
    s.(sets := s.sets[id := r], procs := s.procs[p := pc])
  }

  /** `p` stands at `pc`, whose set exists. */
  predicate AtLive(s: State, p: Pid) {
    p in s.procs && MentionsSet(s.procs[p]) && s.procs[p].id < |s.sets| && s.sets[s.procs[p].id].live
  }

  /** semop on the set of the process; None while it has to wait. */
  function AfterSemOp(s: State, p: Pid, ops: seq<SemBuf>): Option<SemSet>
    requires ShapeOk(s) && AtLive(s, p)
    requires forall i | 0 <= i < |ops| :: ops[i].num < MEMBERS
  {
    SemOp(s.sets[s.procs[p].id].set_, p, ops)
  }

  function RemovedSet(s: State, id: nat): State
    requires id < |s.sets|
  {
    s.(sets := s.sets[id := s.sets[id].(live := false)], key := if s.key == Some(id) then None else s.key)
  }

  function ExitedSet(r: Tracked, p: Pid): Tracked
    requires WellShaped(r.set_)
  {
    r.(set_ := Undo(r.set_, p), opens := r.opens[p := 0], unheld := r.unheld[p := 0])
  }

  function Exited(s: State, p: Pid): State
    requires ShapeOk(s)
  {
    s.(sets := seq(|s.sets|, i requires 0 <= i < |s.sets| => ExitedSet(s.sets[i], p)), procs := s.procs - {p})
  }

  // ---- The steps ----

  /** sem_create. */
  function CreateStep(s: State, a: Action): Option<State>
    requires ShapeOk(s)
  {
    var p := a.p;
    if p !in s.procs then None
    else
      var pc := s.procs[p];
      if a.CallCreate? then if pc.Idle? then Some(Goto(s, p, Getting(a.initval))) else None
      else if a.SemGet? then
        if !pc.Getting? then None
        else if s.key.Some? then Some(Goto(s, p, Locking(s.key.value, pc.initval)))
        else Some(State(s.sets + [Tracked(NEW_SET, true, multiset{}, multiset{}, 0, false)], Some(|s.sets|),
                        s.procs[p := Locking(|s.sets|, pc.initval)]))
      else if !AtLive(s, p) then None
      else
        var r := s.sets[pc.id];
        if a.Lock? && pc.Locking? then
          match AfterSemOp(s, p, OP_LOCK)
          case Some(k) => Some(Changed(s, p, pc.id, r.(set_ := k), Checking(pc.id, pc.initval)))
          case None => None
        else if a.GetCounter? && pc.Checking? then
          Some(Goto(s, p, if r.set_.vals[1] == 0 then SettingValue(pc.id, pc.initval) else EndingCreate(pc.id)))
        else if a.SetValue? && pc.SettingValue? then
          Some(Changed(s, p, pc.id, r.(set_ := SetVal(r.set_, 0, pc.initval)), SettingCounter(pc.id)))
        else if a.SetCounter? && pc.SettingCounter? then
          Some(Changed(s, p, pc.id, r.(set_ := SetVal(r.set_, 1, BIGCOUNT), inits := r.inits + 1), EndingCreate(pc.id)))
        else if a.EndCreate? && pc.EndingCreate? then
          match AfterSemOp(s, p, OP_ENDCREATE)
          case Some(k) =>
            Some(Changed(s, p, pc.id, r.(set_ := k, opens := r.opens + multiset{p}, returned := true), Idle))
          case None => None
        else None
  }

  /** sem_open, sem_op and sem_rm. A process that may wait in sem_op is left idle until it need not. */
  function OtherStep(s: State, a: Action): Option<State>
    requires ShapeOk(s)
  {
    var p := a.p;
    if p !in s.procs then None
    else
      var pc := s.procs[p];
      if a.CallOpen? then
        if !pc.Idle? then None else Some(if s.key.Some? then Goto(s, p, Opening(s.key.value)) else s)
      else if a.Open? && pc.Opening? && AtLive(s, p) then
        match AfterSemOp(s, p, OP_OPEN)
        case Some(k) =>
          var r := s.sets[pc.id];
          Some(Changed(s, p, pc.id, r.(set_ := k, opens := r.opens + multiset{p}, returned := true), Idle))
        case None => None
      else if a.Operate? && pc.Idle? && a.id < |s.sets| && s.sets[a.id].live then
        match SemOp(s.sets[a.id].set_, p, OpOp(a.amount))
        case Some(k) => Some(Changed(s, p, a.id, s.sets[a.id].(set_ := k), Idle))
        case None => None
      else if a.RemoveSet? && pc.Idle? && a.id < |s.sets| then Some(RemovedSet(s, a.id))
      else None
  }

  /** The history of an op_close: an open given back, or a close without one. */
  function ClosedBy(r: Tracked, p: Pid): Tracked {
    if p in r.opens then r.(opens := r.opens - multiset{p}) else r.(unheld := r.unheld + multiset{p})
  }

  /** sem_close, by a process that holds an open or, with an identifier that some sem_create or sem_open has
      returned, by one that does not. */
  function CloseStep(s: State, a: Action): Option<State>
    requires ShapeOk(s)
  {
    var p := a.p;
    if p !in s.procs then None
    else
      var pc := s.procs[p];
      if a.CallClose? then
        if pc.Idle? && a.id < |s.sets| && p in s.sets[a.id].opens then Some(Goto(s, p, Closing(a.id))) else None
      else if a.CallCloseUnheld? then
        if pc.Idle? && a.id < |s.sets| && p !in s.sets[a.id].opens && s.sets[a.id].returned then
          Some(Goto(s, p, Closing(a.id)))
        else None
      else if !AtLive(s, p) then None
      else
        var r := s.sets[pc.id];
        if a.Close? && pc.Closing? then
          match AfterSemOp(s, p, OP_CLOSE)
          case Some(k) => Some(Changed(s, p, pc.id, ClosedBy(r, p).(set_ := k), Counting(pc.id)))
          case None => None
        else if a.CloseGetCounter? && pc.Counting? then Some(Goto(s, p, Deciding(pc.id, r.set_.vals[1])))
        else if a.Decide? && pc.Deciding? then
          if pc.semval > BIGCOUNT then Some(Exited(s, p)) // err_dump
          else if pc.semval == BIGCOUNT then Some(Goto(RemovedSet(s, pc.id), p, Idle))
          else
            match AfterSemOp(s, p, OP_UNLOCK)
            case Some(k) => Some(Changed(s, p, pc.id, r.(set_ := k), Idle))
            case None => None
        else None
  }

  /** One step of one process; None when it is not enabled. Death is possible everywhere. A call on a
      removed set fails: sem_create may find EINVAL and start again, everything else returns. */
  function Step(s: State, a: Action): Option<State>
    requires ShapeOk(s)
  {
    match a
    case Spawn(p) => if p in s.procs then None else Some(Goto(s, p, Idle))
    case Exit(p) => if p in s.procs then Some(Exited(s, p)) else None
    case FailOnRemoved(p, retry) =>
      if p in s.procs && MentionsSet(s.procs[p]) && !AtLive(s, p) then
        Some(Goto(s, p, if retry && s.procs[p].Locking? then Getting(s.procs[p].initval) else Idle))
      else None
    case CallCreate(_, _) => CreateStep(s, a)
    case SemGet(_) => CreateStep(s, a)
    case Lock(_) => CreateStep(s, a)
    case GetCounter(_) => CreateStep(s, a)
    case SetValue(_) => CreateStep(s, a)
    case SetCounter(_) => CreateStep(s, a)
    case EndCreate(_) => CreateStep(s, a)
    case CallClose(_, _) => CloseStep(s, a)
    case CallCloseUnheld(_, _) => CloseStep(s, a)
    case Close(_) => CloseStep(s, a)
    case CloseGetCounter(_) => CloseStep(s, a)
    case Decide(_) => CloseStep(s, a)
    case _ => OtherStep(s, a)
  }
}
