/** The recursive spin lock of k_spin_lock.c, as interleaved atomic steps of any number of cores. */
module SpinLock {

  type Word = n: nat | n < 0x1_0000_0000

  const FREE: Word := 0xB33F_FFFF
  const MAGIC: Word := 0xB33F_0000

  /** `res & KRHINO_SPINLOCK_VAL_MASK` */
  function Core(w: Word): nat { w % 0x100 }

  /** `(res & KRHINO_SPINLOCK_CNT_MASK) >> KRHINO_SPINLOCK_CNT_SHIFT` */
  function Count(w: Word): nat { w / 0x100 % 0x100 }

  /** `KRHINO_SPINLOCK_MAGIC_VAL | (recCnt << 8) | core`: a count of 256 falls into a bit that is set already. */
  function Pack(count: nat, core: nat): Word
    requires count <= 0x100 && core < 0x100
  {
    if count == 0x100 then MAGIC + core else MAGIC + 0x100 * count + core
  }

  /** The sum in `Pack` is the bitwise expression: below 256 the count falls into bits that the magic
      value leaves clear, and 256 itself into one that is set already. */
  lemma PackBits(count: bv32, core: bv32)
    requires count <= 0x100 && core < 0x100
    ensures 0xB33F_0000 | (count << 8) | core ==
              (if count == 0x100 then 0xB33F_0000 + core else 0xB33F_0000 + 0x100 * count + core)
  {}

  /** Packing a count and a core and taking them out again; no packed word looks free. */
  lemma Unpack(count: nat, core: nat)
    requires count < 0x100 && core < 0xFF
    ensures Core(Pack(count, core)) == core && Count(Pack(count, core)) == count && Pack(count, core) != FREE
    ensures Core(FREE) == 0xFF
  {
    var low: nat := 0x100 * count + core;
    assert Pack(count, core) == 0x100 * (0xB33F00 + count) + core;
    assert Pack(count, core) / 0x100 == 0xB33F00 + count;
  }

  /** Where a core is inside `k_cpu_spin_lock` or `k_cpu_spin_unlock`, with the count it has read. */
  datatype Pc = Outside | Locking | Bumping(count: nat) | Unlocking | Dropping(count: nat)

  /** The shared word, and of each core its place and how often it holds the lock. */
  datatype State = State(word: Word, pc: seq<Pc>, depth: seq<nat>)

  /** The atomic steps. */
  datatype Step = EnterLock | TryLock | Bump | EnterUnlock | TryUnlock | Drop

  ghost predicate Shape(s: State) {
    |s.pc| == |s.depth| <= 0xFF
  }

  /** Whether core `i` may take the step. A core that holds the lock 256 times must not lock again. */
  ghost predicate Enabled(s: State, i: nat, step: Step)
    requires Shape(s)
  {
    i < |s.pc| &&
    match step
    case EnterLock => s.pc[i] == Outside && s.depth[i] < 0x100
    case TryLock => s.pc[i] == Locking
    case Bump => s.pc[i].Bumping?
    case EnterUnlock => s.pc[i] == Outside
    case TryUnlock => s.pc[i] == Unlocking
    case Drop => s.pc[i].Dropping?
  }

  /** What the step does; compare-and-set swaps on a match and returns the old word. */
  ghost function Do(s: State, i: nat, step: Step): (t: State)
    requires Shape(s) && i < |s.pc|
  {
    match step
    case EnterLock =>
      s.(word := if s.word / 0x10000 != MAGIC / 0x10000 then FREE else s.word, pc := s.pc[i := Locking])
    case TryLock =>
      if s.word == FREE then State(Pack(0, i), s.pc[i := Outside], s.depth[i := s.depth[i] + 1])
      else if Core(s.word) == i then s.(pc := s.pc[i := Bumping(Count(s.word))])
      else s
    case Bump =>
      if s.pc[i].Bumping? && s.pc[i].count < 0x100 then
        State(Pack(s.pc[i].count + 1, i), s.pc[i := Outside], s.depth[i := s.depth[i] + 1])
      else s
    case EnterUnlock => s.(pc := s.pc[i := Unlocking])
    case TryUnlock =>
      if s.word == Pack(0, i) then
        State(FREE, s.pc[i := Outside], s.depth[i := if s.depth[i] > 0 then s.depth[i] - 1 else 0])
      else if Core(s.word) == i && Count(s.word) != 0 then s.(pc := s.pc[i := Dropping(Count(s.word))])
      else s.(pc := s.pc[i := Outside])
    case Drop =>
      if s.pc[i].Dropping? && 0 < s.pc[i].count <= 0x100 then
        State(Pack(s.pc[i].count - 1, i), s.pc[i := Outside], s.depth[i := if s.depth[i] > 0 then s.depth[i] - 1 else 0])
      else s
  }

  /** The word tells who holds the lock, and how often. */
  ghost predicate WordOk(s: State)
    requires Shape(s)
  {
    if s.word == FREE then forall i :: 0 <= i < |s.depth| ==> s.depth[i] == 0
    else
      var o := Core(s.word);
      && o < |s.depth| && 0 < s.depth[o] <= 0x100 && s.word == Pack(s.depth[o] - 1, o)
      && forall i :: 0 <= i < |s.depth| && i != o ==> s.depth[i] == 0
  }

  /** A core in the middle of changing the count holds the lock, and has read the right count. */
  ghost predicate PcOk(s: State)
    requires Shape(s)
  {
    forall i :: 0 <= i < |s.pc| ==>
      && (s.pc[i].Bumping? ==> 0 < s.depth[i] < 0x100 && s.pc[i].count == s.depth[i] - 1)
      && (s.pc[i].Dropping? ==> s.depth[i] > 1 && s.pc[i].count == s.depth[i] - 1)
      && (s.pc[i] == Locking ==> s.depth[i] < 0x100)
  }

  ghost predicate Inv(s: State) {
    Shape(s) && WordOk(s) && PcOk(s)
  }

  /** Of a lock in a right state, the word decodes to its holder. */
  lemma Holder(s: State, i: nat)
    requires Inv(s) && i < |s.pc|
    ensures s.word != FREE ==> var o := Core(s.word); o < |s.depth| && Count(s.word) == s.depth[o] - 1
    ensures s.depth[i] > 0 ==> s.word != FREE && Core(s.word) == i
    ensures s.word == Pack(0, i) <==> s.depth[i] == 1
    ensures s.word / 0x10000 == MAGIC / 0x10000
  {
    hide Pack, Core, Count;
    Unpack(0, i);
    if s.word != FREE {
      var o := Core(s.word);
      Unpack(s.depth[o] - 1, o);
      PackHigh(s.depth[o] - 1, o);
    }
  }

  lemma PackHigh(count: nat, core: nat)
    requires count < 0x100 && core < 0x100
    ensures Pack(count, core) / 0x10000 == MAGIC / 0x10000
  {
    assert Pack(count, core) == 0x10000 * 0xB33F + (0x100 * count + core);
  }

  /** Every step of every core keeps the invariant. */
  lemma StepInv(s: State, i: nat, step: Step)
    requires Inv(s) && Enabled(s, i, step)
    ensures Inv(Do(s, i, step))
  {
    hide Pack, Core, Count;
    Holder(s, i);
    Unpack(0, i);
    var t := Do(s, i, step);
    if s.pc[i].Bumping? { Unpack(s.depth[i], i); }
    if s.pc[i].Dropping? { Unpack(s.depth[i] - 2, i); }
    assert |t.pc| == |t.depth| == |s.pc|;
  }

  /** A run: from a free lock and cores outside, any interleaving of enabled steps. */
  ghost predicate Run(states: seq<State>, cores: seq<nat>, steps: seq<Step>) {
    && |states| == |steps| + 1 == |cores| + 1
    && Shape(states[0]) && states[0].word == FREE
    && (forall i :: 0 <= i < |states[0].pc| ==> states[0].pc[i] == Outside && states[0].depth[i] == 0)
    && forall k :: 0 <= k < |steps| ==>
         Shape(states[k]) && Enabled(states[k], cores[k], steps[k]) && states[k + 1] == Do(states[k], cores[k], steps[k])
  }

  lemma {:induction false} RunInv(states: seq<State>, cores: seq<nat>, steps: seq<Step>, k: nat)
    requires Run(states, cores, steps) && k < |states|
    ensures Inv(states[k])
  {
    hide Do, Enabled;
    if k > 0 {
      RunInv(states, cores, steps, k - 1);
      StepInv(states[k - 1], cores[k - 1], steps[k - 1]);
    }
  }

  /** Mutual exclusion over every run: at no time do two cores hold the lock, and the packed count
      is the holder's nesting depth minus one. */
  lemma MutualExclusion(states: seq<State>, cores: seq<nat>, steps: seq<Step>, k: nat, i: nat, j: nat)
    requires Run(states, cores, steps) && k < |states|
    requires i < |states[k].depth| && j < |states[k].depth| && states[k].depth[i] > 0 && states[k].depth[j] > 0
    ensures i == j && Core(states[k].word) == i && Count(states[k].word) == states[k].depth[i] - 1
  {
    RunInv(states, cores, steps, k);
    Holder(states[k], i);
    Holder(states[k], j);
  }

  /** Only the outermost unlock frees the lock. */
  lemma OutermostFrees(s: State, i: nat)
    requires Inv(s) && Enabled(s, i, TryUnlock)
    ensures s.depth[i] > 0 ==> (Do(s, i, TryUnlock).word == FREE <==> s.depth[i] == 1)
    ensures s.depth[i] == 0 ==> Do(s, i, TryUnlock).word == s.word
  {
    Holder(s, i);
    Unpack(0, i);
  }

  /** The count after one more lock is right iff the lock was held fewer than 256 times. */
  lemma BumpIff(depth: nat, core: nat)
    requires 0 < depth <= 0x100 && core < 0xFF
    ensures Count(Pack(depth, core)) == depth <==> depth < 0x100
    ensures Core(Pack(depth, core)) == core
  {
    if depth < 0x100 { Unpack(depth, core); } else { Unpack(0, core); }
  }
}
