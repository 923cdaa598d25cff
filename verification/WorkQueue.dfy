/** The work queues of k_workqueue.c, as interleaved steps: producers insert a work and then give the
    semaphore; each worker takes the semaphore, dequeues one work, and runs it. */
module WorkQueue {
  import opened Lists

  /** One queue: its list; its semaphore count; gives promised but not done yet; whether the worker
      has taken the semaphore and not dequeued yet; the work being run; and gives that overflowed. */
  datatype Queue = Queue(list: seq<nat>, tokens: nat, owed: nat, taken: bool, current: Option<nat>, lost: nat)

  datatype Option<T> = None | Some(value: T)

  /** A work: `work_exit`, and `wq`. */
  datatype Work = Work(exit: bool, wq: Option<nat>)

  datatype State = State(queues: seq<Queue>, works: seq<Work>)

  datatype Step =
    | Run(q: nat, w: nat)     // krhino_work_run, or the timer callback: the critical section
    | Give(q: nat)            // ... and the krhino_sem_give after it
    | Take(q: nat)            // the worker's krhino_sem_take succeeds
    | Dequeue(q: nat)         // the worker's first critical section
    | Finish(q: nat)          // the worker's second critical section, when the handler has returned
    | Cancel(w: nat)          // krhino_work_cancel

  datatype Status = Success | Running | Exists

  const SEM_MAX: nat := 0xFFFF_FFFF

  /** The program points: steps are taken where the code is. `Dequeue` reads the head of the list
      without a test. */
  ghost predicate Enabled(s: State, a: Step) {
    match a
    case Run(q, w) => q < |s.queues| && w < |s.works|
    case Give(q) => q < |s.queues| && s.queues[q].owed > 0
    case Take(q) => q < |s.queues| && s.queues[q].tokens > 0 && !s.queues[q].taken && s.queues[q].current == None
    case Dequeue(q) => q < |s.queues| && s.queues[q].taken
    case Finish(q) => q < |s.queues| && s.queues[q].current != None
    case Cancel(w) => w < |s.works|
  }

  /** The answer of `krhino_work_run`. */
  function RunStatus(s: State, q: nat, w: nat): Status
    requires q < |s.queues| && w < |s.works|
  {
    if s.queues[q].current == Some(w) then Running
    else if s.works[w].exit then Exists
    else Success
  }

  ghost function Do(s: State, a: Step): State
    requires Enabled(s, a)
  {
    match a
    case Run(q, w) =>
      var x := s.queues[q];
      if RunStatus(s, q, w) != Success then s
      else State(s.queues[q := x.(list := x.list + [w], owed := x.owed + 1)], s.works[w := Work(true, Some(q))])
    case Give(q) =>
      var x := s.queues[q];
      s.(queues := s.queues[q := if x.tokens == SEM_MAX then x.(owed := x.owed - 1, lost := x.lost + 1)
                                 else x.(owed := x.owed - 1, tokens := x.tokens + 1)])
    case Take(q) =>
      var x := s.queues[q];
      s.(queues := s.queues[q := x.(tokens := x.tokens - 1, taken := true)])
    case Dequeue(q) =>
      var x := s.queues[q];
      if x.list == [] || x.list[0] >= |s.works| then s
      else
        var w := x.list[0];
        State(s.queues[q := x.(list := x.list[1..], taken := false, current := Some(w))],
              s.works[w := s.works[w].(exit := false)])
    case Finish(q) =>
      s.(queues := s.queues[q := s.queues[q].(current := None)])
    case Cancel(w) =>
      var x := s.works[w];
      if x.wq.None? || x.wq.value >= |s.queues| || s.queues[x.wq.value].current == Some(w) || x.exit then s
      else s.(works := s.works[w := x.(wq := None)])
  }

  /** Each listed work is backed by a semaphore token, a token just taken, or a promised give - or its
      give overflowed. */
  ghost predicate Backed(x: Queue) {
    |x.list| == x.tokens + x.owed + (if x.taken then 1 else 0) + x.lost
  }

  /** How often a work is in a list. */
  function Times(xs: seq<nat>, w: nat): nat {
    if xs == [] then 0 else (if xs[0] == w then 1 else 0) + Times(xs[1..], w)
  }

  /** ... and in all lists. */
  function TimesAll(qs: seq<Queue>, w: nat): nat {
    if qs == [] then 0 else Times(qs[0].list, w) + TimesAll(qs[1..], w)
  }

  /** `work_exit` is 1 iff the work is queued, and then exactly once. */
  ghost predicate Marked(s: State) {
    forall w: nat :: TimesAll(s.queues, w) == if w < |s.works| && s.works[w].exit then 1 else 0
  }

  ghost predicate Inv(s: State) {
    Marked(s) && forall q :: 0 <= q < |s.queues| ==> Backed(s.queues[q])
  }

  lemma {:induction false} TimesAppend(xs: seq<nat>, x: nat, w: nat)
    ensures Times(xs + [x], w) == Times(xs, w) + if x == w then 1 else 0
  {
    if xs == [] {
      assert [x][1..] == [];
    } else {
      TimesAppend(xs[1..], x, w);
      assert (xs + [x])[1..] == xs[1..] + [x];
    }
  }

  /** Changing one queue changes the total by the change in its list. */
  lemma {:induction false} TimesUpdate(qs: seq<Queue>, q: nat, x: Queue, w: nat)
    requires q < |qs|
    ensures TimesAll(qs[q := x], w) == TimesAll(qs, w) - Times(qs[q].list, w) + Times(x.list, w)
    ensures TimesAll(qs, w) >= Times(qs[q].list, w)
  {
    if q == 0 {
      assert qs[0 := x][1..] == qs[1..];
    } else {
      TimesUpdate(qs[1..], q - 1, x, w);
      assert qs[q := x][1..] == qs[1..][q - 1 := x];
    }
  }

  /** The worker never dequeues from an empty list, and what it dequeues is a known work. */
  lemma NeverEmpty(s: State, q: nat)
    requires Inv(s) && Enabled(s, Dequeue(q))
    ensures s.queues[q].list != [] && s.queues[q].list[0] < |s.works| && s.works[s.queues[q].list[0]].exit
  {
    var x := s.queues[q];
    assert Backed(x);
    TimesUpdate(s.queues, q, x, x.list[0]);
    assert Times(x.list, x.list[0]) > 0;
    assert TimesAll(s.queues, x.list[0]) == 1;
  }

  lemma StepInv(s: State, a: Step)
    requires Inv(s) && Enabled(s, a)
    ensures Inv(Do(s, a))
  {
    hide Backed;
    var t := Do(s, a);
    match a
    case Run(q, w) =>
      if RunStatus(s, q, w) == Success {
        var x := s.queues[q];
        forall v: nat ensures TimesAll(t.queues, v) == if v < |t.works| && t.works[v].exit then 1 else 0 {
          TimesUpdate(s.queues, q, t.queues[q], v);
          TimesAppend(x.list, w, v);
          assert TimesAll(s.queues, v) == if v < |s.works| && s.works[v].exit then 1 else 0;
        }
        BackedSteps(x, w);
      }
    case Dequeue(q) =>
      NeverEmpty(s, q);
      var x := s.queues[q];
      forall v: nat ensures TimesAll(t.queues, v) == if v < |t.works| && t.works[v].exit then 1 else 0 {
        TimesUpdate(s.queues, q, t.queues[q], v);
        assert TimesAll(s.queues, v) == if v < |s.works| && s.works[v].exit then 1 else 0;
      }
      BackedSteps(x, 0);
    case Cancel(w) =>
    case Give(q) =>
      SameLists(s, t, q);
      BackedSteps(s.queues[q], 0);
    case Take(q) =>
      SameLists(s, t, q);
      BackedSteps(s.queues[q], 0);
    case Finish(q) =>
      SameLists(s, t, q);
      BackedSteps(s.queues[q], 0);
  }

  lemma SameLists(s: State, t: State, q: nat)
    requires Marked(s) && q < |s.queues| && |t.queues| == |s.queues| && t.works == s.works
    requires t.queues == s.queues[q := t.queues[q]] && t.queues[q].list == s.queues[q].list
    ensures Marked(t)
  {
    forall v: nat ensures TimesAll(t.queues, v) == if v < |t.works| && t.works[v].exit then 1 else 0 {
      TimesUpdate(s.queues, q, t.queues[q], v);
    }
  }

  /** What each step does to the balance of one queue. */
  lemma BackedSteps(x: Queue, w: nat)
    requires Backed(x)
    ensures Backed(x.(list := x.list + [w], owed := x.owed + 1))
    ensures x.owed > 0 ==> Backed(x.(owed := x.owed - 1, lost := x.lost + 1)) && Backed(x.(owed := x.owed - 1, tokens := x.tokens + 1))
    ensures x.tokens > 0 && !x.taken ==> Backed(x.(tokens := x.tokens - 1, taken := true))
    ensures x.taken && x.list != [] ==> Backed(x.(list := x.list[1..], taken := false, current := Some(x.list[0])))
    ensures Backed(x.(current := None))
  {}

  /** A run from empty queues: any interleaving of enabled steps. */
  ghost predicate Runs(states: seq<State>, steps: seq<Step>) {
    && |states| == |steps| + 1
    && (forall q :: 0 <= q < |states[0].queues| ==> states[0].queues[q] == Queue([], 0, 0, false, None, 0))
    && (forall w :: 0 <= w < |states[0].works| ==> !states[0].works[w].exit)
    && forall k :: 0 <= k < |steps| ==> Enabled(states[k], steps[k]) && states[k + 1] == Do(states[k], steps[k])
  }

  lemma {:induction false} NoTimes(qs: seq<Queue>, w: nat)
    requires forall q :: 0 <= q < |qs| ==> qs[q].list == []
    ensures TimesAll(qs, w) == 0
  {
    if qs != [] { NoTimes(qs[1..], w); }
  }

  lemma {:induction false} TimesIn(xs: seq<nat>, w: nat)
    ensures Times(xs, w) > 0 <==> w in xs
  {
    if xs != [] { TimesIn(xs[1..], w); }
  }

  lemma {:induction false} OnceEach(xs: seq<nat>)
    requires forall w: nat :: Times(xs, w) <= 1
    ensures NoDup(xs)
  {
    if xs != [] {
      forall w: nat ensures Times(xs[1..], w) <= 1 { assert Times(xs, w) <= 1; }
      OnceEach(xs[1..]);
      TimesIn(xs[1..], xs[0]);
      assert Times(xs, xs[0]) <= 1;
    }
  }

  /** A queue lists no more works than there are. */
  lemma ListShort(s: State, q: nat)
    requires Inv(s) && q < |s.queues|
    ensures NoDup(s.queues[q].list) && |s.queues[q].list| <= |s.works|
  {
    var xs := s.queues[q].list;
    forall w: nat ensures Times(xs, w) <= 1 && (w in xs ==> w < |s.works|) {
      TimesUpdate(s.queues, q, s.queues[q], w);
      TimesIn(xs, w);
      assert TimesAll(s.queues, w) <= 1;
    }
    OnceEach(xs);
    forall i | 0 <= i < |xs| ensures xs[i] < |s.works| { assert xs[i] in xs; }
    NoDupBound(xs, |s.works|);
  }

  /** With at most SEM_MAX works no give overflows. */
  lemma GiveRoom(s: State, q: nat)
    requires Inv(s) && |s.works| <= SEM_MAX && Enabled(s, Give(q))
    ensures s.queues[q].tokens < SEM_MAX
  {
    ListShort(s, q);
    assert Backed(s.queues[q]);
  }

  ghost predicate NoneLost(s: State) {
    forall q :: 0 <= q < |s.queues| ==> s.queues[q].lost == 0
  }

  lemma StepLosesNone(s: State, a: Step)
    requires Inv(s) && Enabled(s, a) && |s.works| <= SEM_MAX && NoneLost(s)
    ensures NoneLost(Do(s, a)) && |Do(s, a).works| == |s.works|
  {
    hide Inv;
    if a.Give? { GiveRoom(s, a.q); }
  }

  lemma {:induction false} RunInv(states: seq<State>, steps: seq<Step>, k: nat)
    requires Runs(states, steps) && k < |states|
    ensures Inv(states[k])
    ensures |states[0].works| <= SEM_MAX ==> NoneLost(states[k]) && |states[k].works| == |states[0].works|
  {
    hide Do, Enabled;
    if k == 0 {
      forall w: nat { NoTimes(states[0].queues, w); }
    } else {
      RunInv(states, steps, k - 1);
      StepInv(states[k - 1], steps[k - 1]);
      if |states[0].works| <= SEM_MAX { StepLosesNone(states[k - 1], steps[k - 1]); }
    }
  }

  /** No phantom work and no missed wake-up, at any time of any run: a worker that has taken the
      semaphore finds a work; and, with at most SEM_MAX works, each queued work has a token, a taken
      token or a promised give of its own to wake the worker. */
  lemma NoMissedWakeup(states: seq<State>, steps: seq<Step>, k: nat, q: nat)
    requires Runs(states, steps) && k < |states| && q < |states[k].queues|
    ensures var x := states[k].queues[q];
            && (x.taken ==> x.list != [])
            && |x.list| >= x.tokens + x.owed + (if x.taken then 1 else 0)
            && (|states[0].works| <= SEM_MAX ==> |x.list| == x.tokens + x.owed + (if x.taken then 1 else 0))
  {
    RunInv(states, steps, k);
    assert Backed(states[k].queues[q]);
  }

  // ---------------------------------------------------------------- first come, first served

  /** `krhino_work_run` takes a work iff it is neither queued anywhere nor being run by this queue's worker,
      and puts it behind all others; a work it refuses stays where it is. */
  lemma RunAnswer(s: State, q: nat, w: nat)
    requires Inv(s) && q < |s.queues| && w < |s.works|
    ensures RunStatus(s, q, w) == Success <==> s.queues[q].current != Some(w) && forall p :: 0 <= p < |s.queues| ==> w !in s.queues[p].list
    ensures RunStatus(s, q, w) == Running <==> s.queues[q].current == Some(w)
    ensures var t := Do(s, Run(q, w));
            if RunStatus(s, q, w) != Success then t == s
            else
              && |t.queues| == |s.queues| && t.queues[q].list == s.queues[q].list + [w]
              && forall p :: 0 <= p < |s.queues| && p != q ==> t.queues[p] == s.queues[p]
  {
    ListedIff(s.queues, w);
    assert TimesAll(s.queues, w) == if s.works[w].exit then 1 else 0;
  }

  lemma {:induction false} ListedIff(qs: seq<Queue>, w: nat)
    ensures TimesAll(qs, w) > 0 <==> exists p :: 0 <= p < |qs| && w in qs[p].list
  {
    if qs != [] {
      ListedIff(qs[1..], w);
      TimesIn(qs[0].list, w);
      if p :| 0 <= p < |qs| && w in qs[p].list { assert p > 0 ==> qs[1..][p - 1] == qs[p]; }
      if p :| 0 <= p < |qs[1..]| && w in qs[1..][p].list { assert qs[p + 1] == qs[1..][p]; }
    }
  }

  /** The works that the queue has taken in the first `k` steps, in order. */
  ghost function Accepted(states: seq<State>, steps: seq<Step>, q: nat, k: nat): seq<nat>
    requires Runs(states, steps) && k <= |steps|
  {
    if k == 0 then []
    else
      Accepted(states, steps, q, k - 1) +
      match steps[k - 1]
      case Run(p, w) => if p == q && RunStatus(states[k - 1], q, w) == Success then [w] else []
      case _ => []
  }

  /** The works that its worker has begun to run, in order. */
  ghost function Started(states: seq<State>, steps: seq<Step>, q: nat, k: nat): seq<nat>
    requires Runs(states, steps) && k <= |steps|
  {
    if k == 0 then []
    else
      Started(states, steps, q, k - 1) +
      if steps[k - 1] == Dequeue(q) && q < |states[k].queues| && states[k].queues[q].current.Some?
      then [states[k].queues[q].current.value] else []
  }

  /** At any time of any run, what the queue has taken is what its worker has begun to run, in the same
      order, and behind that what is still listed: no work is lost, run twice or overtaken. */
  lemma {:induction false} FirstInFirstOut(states: seq<State>, steps: seq<Step>, q: nat, k: nat)
    requires Runs(states, steps) && k <= |steps| && q < |states[0].queues|
    ensures |states[k].queues| == |states[0].queues|
    ensures Accepted(states, steps, q, k) == Started(states, steps, q, k) + states[k].queues[q].list
    decreases k
  {
    hide Do, Enabled, RunStatus;
    if k > 0 {
      FirstInFirstOut(states, steps, q, k - 1);
      RunInv(states, steps, k - 1);
      OneStep(states[k - 1], steps[k - 1], q);
    }
  }

  /** What one step does to one list. */
  lemma OneStep(s: State, a: Step, q: nat)
    requires Inv(s) && Enabled(s, a) && q < |s.queues|
    ensures var t := Do(s, a);
            && |t.queues| == |s.queues|
            && match a
               case Run(p, w) => t.queues[q].list == s.queues[q].list + if p == q && RunStatus(s, q, w) == Success then [w] else []
               case Dequeue(p) =>
                 if p == q then t.queues[q].current.Some? && s.queues[q].list == [t.queues[q].current.value] + t.queues[q].list
                 else t.queues[q].list == s.queues[q].list
               case _ => t.queues[q].list == s.queues[q].list
  {
    if a.Dequeue? { NeverEmpty(s, a.q); }
  }
}
