/** System V semaphore sets as the kernel keeps them, following semop(), semctl() and exit in POSIX.1-2017
    (System Interfaces, XSI interprocess communication in section 2.7). */
module SemKernel {
  import opened Options

  type Pid = nat

  /** `struct sembuf`: member, amount, SEM_UNDO. */
  datatype SemBuf = SemBuf(num: nat, op: int, undo: bool)

  /** The values of the three members and, for each, the undo adjustment every process has on it. */
  datatype SemSet = SemSet(vals: seq<int>, adj: seq<map<Pid, int>>)

  const MEMBERS := 3
  const NEW_SET := SemSet([0, 0, 0], [map[], map[], map[]])

  predicate WellShaped(s: SemSet) {
    |s.vals| == MEMBERS && |s.adj| == MEMBERS && forall i | 0 <= i < MEMBERS :: s.vals[i] >= 0
  }

  function AdjOf(m: map<Pid, int>, p: Pid): int {
    if p in m then m[p] else 0
  }

  function Adjust(m: map<Pid, int>, p: Pid, amount: int): (r: map<Pid, int>)
    ensures forall q :: AdjOf(r, q) == if q == p then AdjOf(m, p) + amount else AdjOf(m, q)
  {
    m[p := AdjOf(m, p) + amount]
  }

  /** One operation of a semop array; None when the process would have to wait. */
  function SemOpOne(s: SemSet, p: Pid, b: SemBuf): (r: Option<SemSet>)
    requires WellShaped(s) && b.num < MEMBERS
    ensures r.Some? ==> WellShaped(r.value)
  {
    if b.op == 0 then if s.vals[b.num] == 0 then Some(s) else None
    else if s.vals[b.num] + b.op < 0 then None
    else Some(SemSet(s.vals[b.num := s.vals[b.num] + b.op],
                     if b.undo then s.adj[b.num := Adjust(s.adj[b.num], p, -b.op)] else s.adj))
  }

  /** semop: the operations are done in order, all of them or none. */
  function SemOp(s: SemSet, p: Pid, ops: seq<SemBuf>): (r: Option<SemSet>)
    requires WellShaped(s) && forall i | 0 <= i < |ops| :: ops[i].num < MEMBERS
    ensures r.Some? ==> WellShaped(r.value)
    decreases |ops|
  {
    if ops == [] then Some(s)
    else
      match SemOpOne(s, p, ops[0])
      case Some(next) => SemOp(next, p, ops[1..])
      case None => None
  }

  /** semctl SETVAL: the value is set and the adjustments of that member are cleared in all processes. */
  function SetVal(s: SemSet, num: nat, v: nat): (r: SemSet)
    requires WellShaped(s) && num < MEMBERS
    ensures WellShaped(r)
  {
    SemSet(s.vals[num := v], s.adj[num := map[]])
  }

  /** The end of a process: its adjustments are added; a value does not fall below zero. */
  function Undo(s: SemSet, p: Pid): (r: SemSet)
    requires WellShaped(s)
    ensures WellShaped(r)
    ensures forall i | 0 <= i < MEMBERS ::
      r.vals[i] == (var v := s.vals[i] + AdjOf(s.adj[i], p); if v < 0 then 0 else v)
    ensures forall i, q | 0 <= i < MEMBERS :: AdjOf(r.adj[i], q) == if q == p then 0 else AdjOf(s.adj[i], q)
  {
    SemSet(seq(MEMBERS, i requires 0 <= i < MEMBERS =>
             var v := s.vals[i] + AdjOf(s.adj[i], p); if v < 0 then 0 else v),
           seq(MEMBERS, i requires 0 <= i < MEMBERS => s.adj[i] - {p}))
  }
}
