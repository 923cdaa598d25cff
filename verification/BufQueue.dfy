/** The message queue of k_buf_queue.c: a ring buffer, and direct hand-off to blocked receivers. */
module BufQueue {
  import opened Lists
  import opened RingBuf

  type Tid = nat
  type Message = seq<Byte>

  datatype SendStatus = Sent | TooLarge | Empty | QueueFull
  datatype RecvStatus = Received(msg: Message) | NoWait | SchedLocked | Blocked

  class BufQueue {
    const ring: RingBuf
    const maxSize: nat
    var num: nat
    var peak: nat
    var minFree: nat
    /** The priorities of the tasks. */
    var prio: seq<nat>
    /** The blocked receivers, first the next to be served, and what each task was handed. */
    var waiting: seq<Tid>
    var handed: map<Tid, Message>
    /** The messages accepted, and those delivered, since the queue was created or last flushed. */
    ghost var sent: seq<Message>
    ghost var taken: seq<Message>

    ghost function Repr(): set<object>
      reads this
    {
      {this, ring, ring.buf}
    }

    ghost predicate Valid()
      reads this, ring, ring.buf
    {
      && ring.Valid() && num == |ring.msgs| && maxSize < WORD - PREFIX
      && sent == taken + ring.msgs
      && (waiting != [] ==> ring.msgs == [])
      && NoDup(waiting) && Keyed(prio, waiting) && Sorted(prio, waiting)
      && num <= peak && minFree <= ring.free
    }

    /** `krhino_buf_queue_send` */
    method Send(msg: Message) returns (status: SendStatus)
      requires Valid()
      modifies Repr()
      ensures Valid()
      ensures status == if |msg| > maxSize then TooLarge else if msg == [] then Empty
                        else if old(waiting) == [] && old(ring.free) < PREFIX + |msg| then QueueFull else Sent
      ensures status == Sent ==> sent == old(sent) + [msg]
      ensures status == Sent && old(waiting) == [] ==>
                taken == old(taken) && ring.msgs == old(ring.msgs) + [msg] && waiting == [] && handed == old(handed)
      ensures status == Sent && old(waiting) != [] ==>
                && taken == old(taken) + [msg] && ring.msgs == []
                && waiting == old(waiting)[1..] && handed == old(handed)[old(waiting)[0] := msg]
      ensures prio == old(prio)
      ensures status != Sent ==> sent == old(sent) && taken == old(taken) && waiting == old(waiting) && handed == old(handed)
    {
      hide Flat, Cyclic, EndsAt, Encode, Sorted, NoDup, Keyed, RingBuf.Valid;
      if |msg| > maxSize { return TooLarge; }
      if |msg| == 0 { return Empty; }
      if waiting == [] {
        var pushed := ring.Push(msg);
        if pushed != Success { return QueueFull; }
        num := num + 1;
        if peak < num { peak := num; }
        if minFree > ring.free { minFree := ring.free; }
        sent := sent + [msg];
        return Sent;
      }
      ServeFirst(prio, waiting);
      handed := handed[waiting[0] := msg];
      waiting := waiting[1..];
      sent, taken := sent + [msg], taken + [msg];
      status := Sent;
    }

    /** `krhino_buf_queue_recv` by task `t`, which blocks behind all that are no less urgent. */
    method Recv(t: Tid, noWait: bool, schedLocked: bool) returns (status: RecvStatus)
      requires Valid() && t !in waiting && t < |prio|
      modifies Repr()
      ensures Valid() && sent == old(sent) && handed == old(handed)
      ensures old(ring.msgs) != [] ==>
                && status == Received(old(ring.msgs)[0]) && ring.msgs == old(ring.msgs)[1..]
                && taken == old(taken) + [old(ring.msgs)[0]] && waiting == old(waiting)
      ensures old(ring.msgs) == [] ==>
                && status == (if noWait then NoWait else if schedLocked then SchedLocked else Blocked)
                && ring.msgs == [] && taken == old(taken)
                && (status != Blocked ==> waiting == old(waiting))
                && (status == Blocked ==> QueuedUp(prio, old(waiting), t, waiting))
      ensures prio == old(prio)
    {
      hide Flat, Cyclic, EndsAt, Encode, NoDup, Sorted;
      if num > 0 {
        var msg := ring.Pop();
        num := num - 1;
        taken := taken + [msg];
        return Received(msg);
      }
      if noWait { return NoWait; }
      if schedLocked { return SchedLocked; }
      PendListAdd(t);
      status := Blocked;
    }

    /** `pend_list_add` */
    method PendListAdd(t: Tid)
      requires NoDup(waiting) && Keyed(prio, waiting) && Sorted(prio, waiting) && t !in waiting && t < |prio|
      modifies this`waiting
      ensures NoDup(waiting) && Keyed(prio, waiting) && Sorted(prio, waiting) && QueuedUp(prio, old(waiting), t, waiting)
    {
      hide NoDup, Sorted;
      var at := 0;
      while at < |waiting| && prio[waiting[at]] <= prio[t]
        invariant at <= |waiting| && forall j :: 0 <= j < at ==> prio[waiting[j]] <= prio[t]
      {
        at := at + 1;
      }
      Queue(prio, waiting, t, at);
      waiting := waiting[..at] + [t] + waiting[at..];
    }

    /** The priority of a task changes; if it waits it finds a new place (`pend_list_reorder`). */
    method SetPrio(t: Tid, p: nat)
      requires Valid() && t < |prio|
      modifies this`prio, this`waiting
      ensures Valid() && prio == old(prio)[t := p] && sent == old(sent) && taken == old(taken)
      ensures if t in old(waiting) then QueuedUp(prio, Without(old(waiting), t), t, waiting) else waiting == old(waiting)
    {
      hide Flat, Cyclic, EndsAt, Encode, NoDup, Sorted, Keyed, QueuedUp, Without;
      OutOfQueue(prio, waiting, t, p);
      prio := prio[t := p];
      if t in waiting {
        EmptyWithout(waiting, t);
        waiting := Without(waiting, t);
        PendListAdd(t);
      }
    }

    /** A blocked receiver gives up: timeout, wait abort or task deletion. */
    method GiveUp(i: nat)
      requires Valid() && i < |waiting|
      modifies Repr()
      ensures Valid() && waiting == old(waiting)[..i] + old(waiting)[i + 1..]
      ensures sent == old(sent) && taken == old(taken) && ring.msgs == old(ring.msgs) && handed == old(handed)
    {
      assert forall a :: 0 <= a < |waiting| - 1 ==>
          (waiting[..i] + waiting[i + 1..])[a] == if a < i then waiting[a] else waiting[a + 1];
      waiting := waiting[..i] + waiting[i + 1..];
    }

    /** `krhino_buf_queue_flush` */
    method Flush()
      requires Valid()
      modifies Repr()
      ensures Valid() && ring.msgs == [] && ring.free == ring.buf.Length
      ensures waiting == old(waiting) && taken == old(taken) && sent == taken
    {
      ring.Reset();
      num, peak := 0, 0;
      minFree := ring.free;
      sent := taken;
    }

    /** `buf_queue_create`, dynamic. */
    constructor (buf: array<Byte>, maxSize: nat, prio: seq<nat>)
      requires 0 < buf.Length < WORD && 0 < maxSize < WORD - PREFIX
      ensures Valid() && this.maxSize == maxSize && fresh(ring) && ring.buf == buf
      ensures ring.msgs == [] && waiting == [] && sent == [] && taken == []
    {
      this.maxSize, this.prio := maxSize, prio;
      var r := new RingBuf(buf);
      ring := r;
      num, peak, minFree := 0, 0, buf.Length;
      waiting, handed := [], map[];
      sent, taken := [], [];
    }
  }

  /** `t` has joined the list behind all that are no less urgent, and in front of all others. */
  ghost predicate QueuedUp(prio: seq<nat>, ws: seq<Tid>, t: Tid, ws': seq<Tid>) {
    && Keyed(prio, ws) && t < |prio|
    && exists at ::
         && 0 <= at <= |ws| && ws' == ws[..at] + [t] + ws[at..]
         && forall j :: 0 <= j < |ws| ==> (j < at <==> prio[ws[j]] <= prio[t])
  }

  lemma ServeFirst(prio: seq<nat>, ws: seq<Tid>)
    requires ws != [] && NoDup(ws) && Keyed(prio, ws) && Sorted(prio, ws)
    ensures NoDup(ws[1..]) && Keyed(prio, ws[1..]) && Sorted(prio, ws[1..])
  {}

  /** The list without a task does not depend on the task's priority. */
  lemma OutOfQueue(prio: seq<nat>, ws: seq<Tid>, t: Tid, p: nat)
    requires NoDup(ws) && Keyed(prio, ws) && Sorted(prio, ws) && t < |prio|
    ensures var r := Without(ws, t); t !in r && NoDup(r) && Keyed(prio[t := p], r) && Sorted(prio[t := p], r)
    ensures t !in ws ==> Without(ws, t) == ws
  {
    hide NoDup, Without;
    WithoutNoDup(ws, t);
    WithoutSorted(prio, ws, t);
    var r := Without(ws, t);
    assert forall i :: 0 <= i < |r| ==> r[i] in r;
  }

  lemma EmptyWithout(ws: seq<Tid>, t: Tid)
    ensures Without(ws, t) != [] ==> ws != []
  {}

  lemma Queue(prio: seq<nat>, ws: seq<Tid>, t: Tid, at: nat)
    requires NoDup(ws) && Keyed(prio, ws) && Sorted(prio, ws) && t !in ws && t < |prio| && at <= |ws|
    requires (forall j :: 0 <= j < at ==> prio[ws[j]] <= prio[t]) && (at < |ws| ==> prio[ws[at]] > prio[t])
    ensures var r := ws[..at] + [t] + ws[at..]; NoDup(r) && Keyed(prio, r) && Sorted(prio, r) && QueuedUp(prio, ws, t, r)
  {
    InsertAt(prio, ws, prio[t], t, at);
    InsertSorted(prio, ws, t);
    InsertNoDup(prio, ws, prio[t], t);
  }
}
