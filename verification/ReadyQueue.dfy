/** The run queue of k_sched.c: one circular list per priority under a bitmap. */
module ReadyQueue {
  import opened Lists

  const PRI_MAX: nat := 62

  /** One list of task ids per priority; index 0 is the node `cur_list_item[p]` points at. */
  type Lanes = q: seq<seq<nat>> | |q| == PRI_MAX witness seq(PRI_MAX, _ => [])

  function AddTail(q: Lanes, p: nat, t: nat): Lanes
    requires p < PRI_MAX
  {
    q[p := q[p] + [t]]
  }

  function AddHead(q: Lanes, p: nat, t: nat): Lanes
    requires p < PRI_MAX
  {
    q[p := [t] + q[p]]
  }

  function Remove(q: Lanes, p: nat, t: nat): Lanes
    requires p < PRI_MAX
  {
    q[p := Without(q[p], t)]
  }

  function Rotate(q: Lanes, p: nat): Lanes
    requires p < PRI_MAX && q[p] != []
  {
    q[p := q[p][1..] + [q[p][0]]]
  }

  /** The least priority at or after `p` whose list is not empty. */
  function Highest(q: Lanes, p: nat): (h: nat)
    requires p <= PRI_MAX
    ensures p <= h <= PRI_MAX
    ensures h < PRI_MAX ==> q[h] != []
    ensures forall k :: p <= k < h ==> q[k] == []
    decreases PRI_MAX - p
  {
    if p == PRI_MAX then PRI_MAX
    else if q[p] != [] then p
    else Highest(q, p + 1)
  }

  /** The task the scheduler runs: the head of the first non-empty list. */
  function Preferred(q: Lanes): nat
    requires Highest(q, 0) < PRI_MAX
  {
    q[Highest(q, 0)][0]
  }
}
