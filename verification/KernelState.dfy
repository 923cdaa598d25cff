/** The scheduler's state: tasks, blocking objects, ready, wait and tick lists.
    One core, mutex inheritance on, fair scheduling (CFS) off; every kernel call
    is one atomic step because the source runs it in a critical section. */
module KernelState {
  import opened Lists
  import opened ReadyQueue

  const IDLE_PRI: nat := PRI_MAX - 1
  /** The idle task is the first one created. */
  const IDLE: nat := 0
  const TICK_RANGE: nat := 0x1_0000_0000_0000_0000
  const NO_WAIT: nat := 0
  const WAIT_FOREVER: nat := TICK_RANGE - 1
  const MAX_TICKS: nat := 0x7FFF_FFFF_FFFF_FFFF
  const MAX_COUNT: nat := 0xFFFF_FFFF
  const MAX_SUSPEND: nat := 0xFF

  type Tid = nat
  type Oid = nat

  datatype Option<+T> = None | Some(value: T)

  datatype TaskState = Rdy | Pend | Susp | PendSusp | Sleep | SleepSusp | Deleted

  /** Why the last wait ended (`blk_state_t`). */
  datatype WakeReason = Finish | Abort | Timeout | Del

  datatype Task = Task(
    st: TaskState,
    prio: nat,
    bprio: nat,
    blk: Option<Oid>,
    held: seq<Oid>,       // `mutex_list` of a live task, most recently acquired first
    stale: Option<Oid>,   // where `mutex_list` still points when the task is deleted
    susp: nat,
    wake: WakeReason,
    expires: nat,         // `tick_match`
    pendAnd: bool,
    pendClear: bool,
    pendFlags: bv32,
    got: bv32)            // what `pend_info` points at
  {
    predicate Pending() { st == Pend || st == PendSusp }
    predicate Sleeping() { st == Sleep || st == SleepSusp }
    predicate Live() { st != Deleted }
  }

  datatype Kind = NoObj | Mutex | Sem | Event

  datatype Obj = Obj(
    kind: Kind,
    waiters: seq<Tid>,
    owner: Option<Tid>,
    nested: nat,
    count: nat,
    flags: bv32,
    link: Option<Oid>)    // what the `mutex_list` of a mutex still points at when nobody owns it

  datatype Kernel = Kernel(
    tasks: seq<Task>,
    objs: seq<Obj>,
    ready: Lanes,
    ticks: seq<Tid>,
    now: nat,
    active: Tid,
    lock: nat)

  function Prios(ts: seq<Task>): (r: seq<nat>)
    ensures |r| == |ts| && forall t :: 0 <= t < |ts| ==> r[t] == ts[t].prio
  {
    seq(|ts|, t requires 0 <= t < |ts| => ts[t].prio)
  }

  function Bases(ts: seq<Task>): (r: seq<nat>)
    ensures |r| == |ts| && forall t :: 0 <= t < |ts| ==> r[t] == ts[t].bprio
  {
    seq(|ts|, t requires 0 <= t < |ts| => ts[t].bprio)
  }

  /** Ticks left until `expires`, in wrapping 64-bit arithmetic. */
  function Remaining(expires: nat, now: nat): nat {
    (expires - now) % TICK_RANGE
  }

  function Remains(ts: seq<Task>, now: nat): (r: seq<nat>)
    ensures |r| == |ts| && forall t :: 0 <= t < |ts| ==> r[t] == Remaining(ts[t].expires, now)
  {
    seq(|ts|, t requires 0 <= t < |ts| => Remaining(ts[t].expires, now))
  }

  // ---------------------------------------------------------------- invariants

  /** Every reference stays inside the tables. */
  ghost predicate Wf(s: Kernel) {
    && (forall t :: 0 <= t < |s.tasks| ==> TaskWf(s, s.tasks[t]))
    && (forall o :: 0 <= o < |s.objs| ==> ObjWf(s, s.objs[o]))
  }

  ghost predicate TaskWf(s: Kernel, k: Task) {
    && k.prio < PRI_MAX && k.bprio < PRI_MAX
    && (k.blk.Some? <==> k.Pending())
    && (k.blk.Some? ==> k.blk.value < |s.objs|)
    && (k.blk.Some? && s.objs[k.blk.value].kind == Mutex ==> s.objs[k.blk.value].owner.Some?)
    && (forall o :: o in k.held ==> o < |s.objs|)
  }

  ghost predicate ObjWf(s: Kernel, b: Obj) {
    && (forall t :: t in b.waiters ==> t < |s.tasks|)
    && (b.owner.Some? ==> b.owner.value < |s.tasks|)
  }

  /** A task is on exactly the wait list of the object it is blocked on. */
  ghost predicate WaitOk(s: Kernel) {
    && (forall o, t {:trigger t in s.objs[o].waiters} :: 0 <= o < |s.objs| && 0 <= t < |s.tasks| ==>
         (t in s.objs[o].waiters <==> s.tasks[t].blk == Some(o)))
    && (forall o :: 0 <= o < |s.objs| ==> ListOk(s, s.objs[o].waiters))
  }

  /** Wait lists are sorted by priority, first come first served within one. */
  ghost predicate ListOk(s: Kernel, ws: seq<Tid>) {
    NoDup(ws) && Keyed(Prios(s.tasks), ws) && Sorted(Prios(s.tasks), ws)
  }

  /** A task is on the ready list of its priority iff it is ready. */
  ghost predicate ReadyOk(s: Kernel) {
    && (forall p, t {:trigger t in s.ready[p]} :: 0 <= p < PRI_MAX && t in s.ready[p] ==>
         t < |s.tasks| && s.tasks[t].st == Rdy && s.tasks[t].prio == p)
    && (forall t :: 0 <= t < |s.tasks| && s.tasks[t].st == Rdy && s.tasks[t].prio < PRI_MAX ==>
         t in s.ready[s.tasks[t].prio])
    && (forall p :: 0 <= p < PRI_MAX ==> NoDup(s.ready[p]))
  }

  /** Only sleeping or pending tasks are on the tick list, and all sleepers are. */
  ghost predicate TickOk(s: Kernel) {
    && NoDup(s.ticks)
    && (forall t :: t in s.ticks ==>
         t < |s.tasks| && (s.tasks[t].Sleeping() || s.tasks[t].Pending()))
    && (forall t :: 0 <= t < |s.tasks| && s.tasks[t].Sleeping() ==> t in s.ticks)
  }

  /** A live task's mutex list holds exactly the mutexes it owns. */
  ghost predicate OwnOk(s: Kernel) {
    && (forall t, o {:trigger o in s.tasks[t].held} ::
         0 <= t < |s.tasks| && s.tasks[t].Live() && 0 <= o < |s.objs| ==>
         (o in s.tasks[t].held <==> Owns(s, t, o)))
    && (forall t :: 0 <= t < |s.tasks| && s.tasks[t].Live() ==> NoDup(s.tasks[t].held))
    && (forall o :: 0 <= o < |s.objs| ==> OwnerOk(s, s.objs[o]))
  }

  /** A mutex is owned by a live task that does not wait on it. */
  ghost predicate OwnerOk(s: Kernel, b: Obj) {
    b.kind == Mutex && b.owner.Some? && b.owner.value < |s.tasks| ==>
      s.tasks[b.owner.value].Live() && b.owner.value !in b.waiters
  }

  predicate Owns(s: Kernel, t: Tid, o: Oid) {
    o < |s.objs| && s.objs[o].kind == Mutex && s.objs[o].owner == Some(t)
  }

  /** All list memberships agree with the task states. */
  ghost predicate Agree(s: Kernel) {
    Wf(s) && WaitOk(s) && ReadyOk(s) && TickOk(s) && OwnOk(s)
  }

  // ---------------------------------------------------------------- list steps

  function Head(held: seq<Oid>): Option<Oid> {
    if held == [] then None else Some(held[0])
  }

  /** What follows `o` in a mutex list. */
  function After(held: seq<Oid>, o: Oid): Option<Oid> {
    if held == [] then None else if held[0] == o then Head(held[1..]) else After(held[1..], o)
  }

  function SetTask(s: Kernel, t: Tid, k: Task): Kernel
    requires t < |s.tasks|
  {
    s.(tasks := s.tasks[t := k])
  }

  function SetObj(s: Kernel, o: Oid, b: Obj): Kernel
    requires o < |s.objs|
  {
    s.(objs := s.objs[o := b])
  }

  /** A task that is not timed may not stay on the tick list. */
  predicate Timed(st: TaskState) {
    st == Sleep || st == SleepSusp || st == Pend || st == PendSusp
  }

  /** The task `t` changes to state `st`: it is added to or removed from the ready list, and
      leaves its wait list and the tick list when the new state does not belong there. */
  function Move(s: Kernel, t: Tid, st: TaskState, why: WakeReason): (r: Kernel)
    requires Wf(s) && t < |s.tasks|
    ensures |r.tasks| == |s.tasks| && |r.objs| == |s.objs|
  {
    var k := s.tasks[t];
    assert TaskWf(s, k);
    var leaves := k.blk.Some? && st != Pend && st != PendSusp;
    var q := if k.st == Rdy then Remove(s.ready, k.prio, t) else s.ready;
    s.(tasks := s.tasks[t := k.(st := st, wake := why, blk := if leaves then None else k.blk)],
       objs := if leaves then TakeOff(s.objs, k.blk.value, t) else s.objs,
       ready := if st == Rdy then AddTail(q, k.prio, t) else q,
       ticks := if Timed(st) then s.ticks else Without(s.ticks, t))
  }

  /** `klist_rm` on the wait list of `o`. */
  function TakeOff(objs: seq<Obj>, o: Oid, t: Tid): seq<Obj>
    requires o < |objs|
  {
    objs[o := objs[o].(waiters := Without(objs[o].waiters, t))]
  }

  /** `tick_list_insert`. */
  function TickInsert(s: Kernel, t: Tid, time: nat): (r: Kernel)
    requires TickOk(s) && t < |s.tasks|
    ensures |r.tasks| == |s.tasks| && |r.objs| == |s.objs|
  {
    var s1 := SetTask(s, t, s.tasks[t].(expires := (s.now + time) % TICK_RANGE));
    TicksKeyed(s);
    s1.(ticks := Insert(Remains(s1.tasks, s1.now), s.ticks, time, t))
  }

  lemma TicksKeyed(s: Kernel)
    requires TickOk(s)
    ensures forall i :: 0 <= i < |s.ticks| ==> s.ticks[i] < |s.tasks|
  {
    forall i | 0 <= i < |s.ticks| ensures s.ticks[i] < |s.tasks| {
      assert s.ticks[i] in s.ticks;
    }
  }

  /** `pend_to_blk_obj`: the ready task `t` waits on `o`. */
  function Block(s: Kernel, o: Oid, t: Tid, ticks: nat): (r: Kernel)
    requires Wf(s) && TickOk(s) && t < |s.tasks| && o < |s.objs|
    ensures r.active == s.active && r.lock == s.lock
    ensures |r.tasks| == |s.tasks| && |r.objs| == |s.objs|
  {
    var s1 := if ticks != WAIT_FOREVER then TickInsert(s, t, ticks) else s;
    var k := s1.tasks[t];
    assert TaskWf(s, s.tasks[t]) && ObjWf(s, s.objs[o]);
    var ws := s.objs[o].waiters;
    assert forall i :: 0 <= i < |ws| ==> ws[i] in ws;
    s1.(tasks := s1.tasks[t := k.(st := Pend, blk := Some(o))],
        objs := s.objs[o := s.objs[o].(waiters := Insert(Prios(s.tasks), ws, k.prio, t))],
        ready := Remove(s.ready, k.prio, t))
  }

  /** The list part of `krhino_task_sleep`. */
  function FallAsleep(s: Kernel, t: Tid, ticks: nat): (r: Kernel)
    requires Wf(s) && TickOk(s) && t < |s.tasks|
    ensures |r.tasks| == |s.tasks| && |r.objs| == |s.objs|
  {
    var s1 := TickInsert(s, t, ticks);
    assert TaskWf(s, s.tasks[t]);
    s1.(tasks := s1.tasks[t := s1.tasks[t].(st := Sleep)],
        ready := Remove(s.ready, s1.tasks[t].prio, t))
  }
}
