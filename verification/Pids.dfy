/** The pid table (process.c) with _exit() and waitpid() over it, each table update one step. */
module Pids {

  const PID_MAX := 255

  /** A table slot refers to a process node or is NULL. A node is named after the thread it was made
      for, which is a number never used before. */
  datatype Ref = Null | To(node: nat)

  /** sem is the count of exit_lock. */
  datatype Node = Node(parent: nat, code: int, exited: bool, sem: nat)

  /** A waitpid() call past its checks: the pid, the node it found, and whether P() has returned. */
  datatype Wait = Wait(pid: nat, node: nat, got: bool)

  datatype Told = Told(waiter: nat, pid: nat, node: nat, status: int)

  datatype Forker = BootThread | Thread(t: nat)

  /** pid is the t_pid field of every thread so far. said, told and forker are history: the codes passed
      to _exit(), what waitpid() calls returned, and which thread forked which. */
  datatype World = World(table: seq<Ref>, nodes: map<nat, Node>, pid: map<nat, nat>, live: set<nat>,
                         waits: map<nat, Wait>, next: nat, said: map<nat, int>, told: seq<Told>,
                         forker: map<nat, Forker>)

  datatype Op =
    | BootFork | Fork(t: nat)       // by the boot thread, by another thread
    | Exit(t: nat, code: int)       // _exit()
    | Vanish(t: nat)                // thread_exit() without _exit()
    | WaitBegin(t: nat, pid: int, options: int) | WaitGot(t: nat) | WaitFinish(t: nat)

  // ---------------------------------------------------------------- the table

  /** The lowest NULL slot, or the length. */
  function FirstNull(table: seq<Ref>): (i: nat)
    ensures i <= |table| && (i < |table| ==> table[i].Null?)
    ensures forall j :: 0 <= j < i ==> table[j].To?
  {
    if table == [] || table[0].Null? then 0 else 1 + FirstNull(table[1..])
  }

  predicate Full(table: seq<Ref>) { |table| > PID_MAX && FirstNull(table) == |table| }

  /** All 256 pids are taken. */
  lemma FullIff(table: seq<Ref>)
    ensures Full(table) <==> |table| >= 256 && forall i :: 0 <= i < |table| ==> table[i].To?
  {
  }

  function Placed(table: seq<Ref>, i: nat, r: Ref): seq<Ref>
    requires i <= |table|
  {
    if i == |table| then table + [r] else table[i := r]
  }

  /** EAGAIN; the panic when there is no memory for a node; the error when there is none for the table,
      with the node lost; or the new pid. */
  datatype Allocation = Again | NoNode | NoSlot | Pid(pid: nat)

  datatype Release = OutOfRange | AssertionFails | Panics | Freed

  /** process.c itself: the scans and the updates. */
  class PidTable {
    var table: seq<Ref>
    var nodes: map<nat, Node>

    /** no_hole_in_array(), which answers whether there is a hole. */
    method NoHole() returns (r: bool)
      ensures r <==> FirstNull(table) < |table|
    {
      for i := 0 to |table|
        invariant forall j :: 0 <= j < i ==> table[j].To?
      {
        if table[i].Null? {
          return true;
        }
      }
      return false;
    }

    method FindProcessId() returns (i: nat)
      ensures i == FirstNull(table)
    {
      i := 0;
      while i < |table|
        invariant i <= FirstNull(table)
      {
        if table[i].Null? {
          break;
        }
        i := i + 1;
      }
    }

    /** allocatePid() for the new thread child, called by a thread whose pid is parent. node and slot
        tell whether there is memory for a node and for growing the table. */
    method AllocatePid(parent: nat, child: nat, node: bool, slot: bool) returns (r: Allocation)
      modifies this
      ensures r.Again? <==> Full(old(table))
      ensures r.NoNode? <==> !Full(old(table)) && !node
      ensures r.NoSlot? <==> !Full(old(table)) && node && !slot && FirstNull(old(table)) == |old(table)|
      ensures r.Pid? ==> r.pid == FirstNull(old(table)) && table == Placed(old(table), r.pid, To(child))
      ensures r.Pid? ==> nodes == old(nodes)[child := Node(parent, -1, false, 0)]
      ensures !r.Pid? ==> table == old(table)
      ensures r.Again? || r.NoNode? ==> nodes == old(nodes)
    {
      var hole := NoHole();
      if |table| > PID_MAX && !hole {
        return Again;
      }
      var pid := FindProcessId();
      if !node {
        return NoNode;
      }
      nodes := nodes[child := Node(parent, -1, false, 0)];
      if pid == |table| {
        if !slot {
          return NoSlot;
        }
        table := table + [To(child)];
      } else {
        table := table[pid := To(child)];
      }
      return Pid(pid);
    }

    /** freePid(). The range test lets a pid at the end of the table and one past it through, for which
        array_getguy() asserts; an empty slot panics. */
    method FreePid(pid: int) returns (r: Release)
      modifies this
      ensures r.OutOfRange? <==> pid > PID_MAX || pid <= 0 || pid - 1 > |old(table)|
      ensures r.AssertionFails? <==> 0 < pid <= PID_MAX && |old(table)| <= pid <= |old(table)| + 1
      ensures r.Panics? <==> 0 < pid <= PID_MAX && pid < |old(table)| && old(table)[pid].Null?
      ensures r.Freed? ==> 0 < pid < |old(table)| && old(table)[pid].To?
      ensures r.Freed? ==> table == old(table)[pid := Null] && nodes == old(nodes) - {old(table)[pid].node}
      ensures !r.Freed? ==> table == old(table) && nodes == old(nodes)
    {
      if pid > PID_MAX || pid <= 0 || pid - 1 > |table| {
        return OutOfRange;
      }
      if pid >= |table| {
        return AssertionFails;
      }
      if table[pid].Null? {
        return Panics;
      }
      var node := table[pid].node;
      table := table[pid := Null];
      nodes := nodes - {node};
      return Freed;
    }
  }

  // ---------------------------------------------------------------- the machine

  function Born(w: World, parent: nat, forker: Forker): World {
    if Full(w.table) then w
    else
      var i := FirstNull(w.table);
      w.(table := Placed(w.table, i, To(w.next)), nodes := w.nodes[w.next := Node(parent, -1, false, 0)],
         pid := w.pid[w.next := i], live := w.live + {w.next}, next := w.next + 1,
         forker := w.forker[w.next := forker])
  }

  /** waitpid() gets past its checks. */
  predicate Accepts(w: World, t: nat, pid: int, options: int) {
    && !(pid > PID_MAX || pid <= 0 || pid > |w.table| - 1 || options != 0)
    && w.table[pid].To? && w.table[pid].node in w.nodes && t in w.pid
    && w.nodes[w.table[pid].node].parent == w.pid[t]
  }

  predicate Enabled(w: World, op: Op) {
    match op
    case BootFork => true
    case Fork(t) => t in w.live && t !in w.waits
    case Exit(t, _) => t in w.live && t !in w.waits
    case Vanish(t) => t in w.live && t !in w.waits
    case WaitBegin(t, pid, options) => t in w.live && t !in w.waits && Accepts(w, t, pid, options)
    case WaitGot(t) => t in w.waits && !w.waits[t].got && w.waits[t].node in w.nodes && w.nodes[w.waits[t].node].sem > 0
    case WaitFinish(t) => t in w.waits && w.waits[t].got
  }

  /** The memory a step touches is there: no NULL, no slot past the end and no freed node is used. */
  predicate Sound(w: World, op: Op) {
    match op
    case BootFork => true
    case Fork(t) => t in w.pid
    case Exit(t, _) => t in w.pid && w.pid[t] < |w.table| && w.table[w.pid[t]].To? && w.table[w.pid[t]].node in w.nodes
    case Vanish(t) => true
    case WaitBegin(t, pid, _) => 0 <= pid < |w.table| && w.table[pid].To?
    case WaitGot(t) => t in w.waits && w.waits[t].node in w.nodes
    case WaitFinish(t) =>
      && t in w.waits && w.waits[t].node in w.nodes
      && 0 < w.waits[t].pid < |w.table| && w.waits[t].pid <= PID_MAX && w.table[w.waits[t].pid].To?
  }

  function Step(w: World, op: Op): World
    requires Enabled(w, op) && Sound(w, op)
  {
    match op
    case BootFork => Born(w, 0, BootThread)
    case Fork(t) => Born(w, w.pid[t], Thread(t))
    case Exit(t, code) =>
      var id := w.table[w.pid[t]].node;
      var n := w.nodes[id];
      w.(nodes := w.nodes[id := n.(code := code, exited := true, sem := n.sem + 1)],
         live := w.live - {t}, said := w.said[t := code])
    case Vanish(t) => w.(live := w.live - {t})
    case WaitBegin(t, pid, _) => w.(waits := w.waits[t := Wait(pid, w.table[pid].node, false)])
    case WaitGot(t) =>
      var v := w.waits[t];
      var n := w.nodes[v.node];
      w.(nodes := w.nodes[v.node := n.(sem := n.sem - 1)], waits := w.waits[t := v.(got := true)])
    case WaitFinish(t) =>
      var v := w.waits[t];
      w.(table := w.table[v.pid := Null], nodes := w.nodes - {w.table[v.pid].node}, waits := w.waits - {t},
         told := w.told + [Told(t, v.pid, v.node, w.nodes[v.node].code)])
  }

  // ---------------------------------------------------------------- what every step keeps

  /** A live thread owns the slot of its pid, and has said nothing yet. */
  predicate LiveOk(w: World, t: nat) {
    && (t in w.said ==> t < w.next)
    && (t in w.live ==>
      && t < w.next && t in w.pid && w.pid[t] < |w.table| && w.table[w.pid[t]] == To(t)
      && t in w.nodes && !w.nodes[t].exited && t !in w.said)
  }

  predicate SlotOk(w: World, i: nat) {
    i < |w.table| && w.table[i].To? ==>
      var id := w.table[i].node; id < w.next && id in w.nodes && id in w.pid && w.pid[id] == i
  }

  predicate NodeOk(w: World, id: nat) {
    id in w.nodes ==>
      && id < w.next
      && (w.nodes[id].exited ==> id in w.said && w.nodes[id].code == w.said[id] && id !in w.live)
      && (w.nodes[id].sem > 0 ==> w.nodes[id].exited)
  }

  predicate WaitOk(w: World, t: nat) {
    t in w.waits ==>
      var v := w.waits[t];
      && t in w.live && t in w.pid && 0 < v.pid < |w.table| && v.pid <= PID_MAX && w.table[v.pid] == To(v.node) && v.node in w.nodes
      && w.nodes[v.node].parent == w.pid[t]
      && (v.got ==> w.nodes[v.node].exited)
  }

  /** exit_lock has been raised by the exit and not yet taken by a waiter. */
  ghost predicate SemOk(w: World, id: nat) {
    id in w.nodes ==>
      w.nodes[id].sem == if w.nodes[id].exited && !Taken(w, id) then 1 else 0
  }

  predicate Took(w: World, t: nat, id: nat) { t in w.waits && w.waits[t].node == id && w.waits[t].got }

  ghost predicate Taken(w: World, id: nat) { exists t: nat {:trigger Took(w, t, id)} :: Took(w, t, id) }

  predicate ToldOk(w: World, i: nat) {
    i < |w.told| ==>
      var x := w.told[i];
      && x.node in w.said && x.status == w.said[x.node] && x.node !in w.nodes && x.node < w.next
      && x.node in w.pid && w.pid[x.node] == x.pid
  }

  predicate Once(w: World, i: nat, j: nat) {
    i < |w.told| && j < |w.told| && i != j ==> w.told[i].node != w.told[j].node
  }

  /** The parent pid of a node is that of the thread that forked it, which is the only one of its pid
      that is as old and still live. */
  predicate ForkerOk(w: World, id: nat, t: nat) {
    id in w.nodes ==>
      && id < w.next && id in w.forker
      && (w.forker[id].BootThread? ==> w.nodes[id].parent == 0)
      && (w.forker[id].Thread? ==>
            var p := w.forker[id].t; p < id && p in w.pid && w.nodes[id].parent == w.pid[p])
      && (t in w.live && t < id && t in w.pid && w.nodes[id].parent == w.pid[t] ==>
            w.forker[id].BootThread? || w.forker[id] == Thread(t))
  }

  ghost predicate Inv(w: World) {
    && |w.table| <= PID_MAX + 1
    && (if w.table == [] then w.next == 0 else w.table[0] == To(0))
    && (forall id, t {:trigger ForkerOk(w, id, t)} :: ForkerOk(w, id, t))
    && (forall t {:trigger LiveOk(w, t)} :: LiveOk(w, t))
    && (forall i {:trigger SlotOk(w, i)} :: SlotOk(w, i))
    && (forall id {:trigger NodeOk(w, id)} :: NodeOk(w, id))
    && (forall t {:trigger WaitOk(w, t)} :: WaitOk(w, t))
    && (forall id {:trigger SemOk(w, id)} :: SemOk(w, id))
    && (forall i {:trigger ToldOk(w, i)} :: ToldOk(w, i))
    && (forall i, j {:trigger Once(w, i, j)} :: Once(w, i, j))
  }

  /** No step that can be taken uses memory that is not there. */
  lemma StepSound(w: World, op: Op)
    requires Inv(w) && Enabled(w, op)
    ensures Sound(w, op)
  {
    match op
    case Fork(t) => assert LiveOk(w, t);
    case Exit(t, _) => assert LiveOk(w, t);
    case WaitGot(t) => assert WaitOk(w, t);
    case WaitFinish(t) => assert WaitOk(w, t);
    case _ =>
  }

  /** A new process never gets a pid that a live thread of the table has. */
  lemma BornFresh(w: World, t: nat)
    requires Inv(w) && t in w.live && !Full(w.table)
    ensures t in w.pid && w.pid[t] != FirstNull(w.table)
  {
    assert LiveOk(w, t);
  }

  lemma StepLive(w: World, op: Op, t: nat)
    requires Inv(w) && Enabled(w, op) && Sound(w, op)
    ensures LiveOk(Step(w, op), t)
  {
    assert LiveOk(w, t) && NodeOk(w, t);
    match op
    case WaitGot(u) => assert WaitOk(w, u);
    case WaitFinish(u) =>
      assert WaitOk(w, u);
      assert NodeOk(w, w.waits[u].node);
      assert SlotOk(w, w.waits[u].pid);
    case Exit(u, _) => assert LiveOk(w, u);
    case _ =>
  }

  lemma StepSlot(w: World, op: Op, i: nat)
    requires Inv(w) && Enabled(w, op) && Sound(w, op)
    ensures SlotOk(Step(w, op), i)
  {
    assert SlotOk(w, i);
    match op
    case WaitFinish(u) =>
      assert WaitOk(w, u);
      assert SlotOk(w, w.waits[u].pid);
    case _ =>
  }

  lemma StepNode(w: World, op: Op, id: nat)
    requires Inv(w) && Enabled(w, op) && Sound(w, op)
    ensures NodeOk(Step(w, op), id)
  {
    assert NodeOk(w, id);
    match op
    case Exit(u, _) => assert LiveOk(w, u);
    case WaitGot(u) => assert WaitOk(w, u);
    case _ =>
  }

  /** Two waiters for one process would be two live threads with the pid of its parent. */
  lemma OneWaiter(w: World, t: nat, u: nat)
    requires Inv(w) && t in w.waits && u in w.waits && w.waits[t].pid == w.waits[u].pid
    ensures t == u
  {
    assert WaitOk(w, t) && WaitOk(w, u) && LiveOk(w, t) && LiveOk(w, u);
  }

  lemma StepWait(w: World, op: Op, t: nat)
    requires Inv(w) && Enabled(w, op) && Sound(w, op)
    ensures WaitOk(Step(w, op), t)
  {
    assert WaitOk(w, t);
    match op
    case WaitBegin(u, pid, _) => assert LiveOk(w, u); assert SlotOk(w, pid);
    case Exit(u, _) => assert LiveOk(w, u);
    case WaitGot(u) =>
      assert WaitOk(w, u) && NodeOk(w, w.waits[u].node);
    case WaitFinish(u) =>
      assert WaitOk(w, u) && SlotOk(w, w.waits[u].pid);
      if t in w.waits {
        assert SlotOk(w, w.waits[t].pid);
        if w.waits[t].pid == w.waits[u].pid {
          OneWaiter(w, t, u);
        }
      }
    case _ => BornWait(w, op, t);
  }

  lemma BornWait(w: World, op: Op, t: nat)
    requires Inv(w) && Enabled(w, op) && Sound(w, op) && (op.BootFork? || op.Fork? || op.Vanish?)
    ensures WaitOk(Step(w, op), t)
  {
    assert WaitOk(w, t);
    if t in w.waits {
      assert LiveOk(w, t) && SlotOk(w, w.waits[t].pid);
    }
  }

  lemma StepTook(w: World, op: Op, t: nat, id: nat)
    requires Inv(w) && Enabled(w, op) && Sound(w, op)
    ensures Took(Step(w, op), t, id) <==> (Took(w, t, id) && op != WaitFinish(t)) || (op == WaitGot(t) && w.waits[t].node == id)
    ensures Took(w, t, id) ==> id in w.nodes && w.nodes[id].exited
  {
    assert WaitOk(w, t);
  }

  lemma StepSem(w: World, op: Op, id: nat)
    requires Inv(w) && Enabled(w, op) && Sound(w, op)
    ensures SemOk(Step(w, op), id)
  {
    assert SemOk(w, id) && NodeOk(w, id);
    var w' := Step(w, op);
    forall t: nat
      ensures Took(w', t, id) <==> (Took(w, t, id) && op != WaitFinish(t)) || (op == WaitGot(t) && w.waits[t].node == id)
      ensures Took(w, t, id) ==> id in w.nodes && w.nodes[id].exited
    {
      StepTook(w, op, t, id);
    }
    match op
    case Exit(u, _) => assert LiveOk(w, u);
    case WaitGot(u) =>
      assert WaitOk(w, u);
      if w.waits[u].node == id { assert Took(w', u, id); }
    case WaitFinish(u) => assert WaitOk(w, u);
    case _ =>
    if Taken(w, id) && !op.WaitFinish? {
      var t: nat :| Took(w, t, id);
      assert Took(w', t, id);
    }
    if Taken(w', id) && !op.WaitGot? {
      var t: nat :| Took(w', t, id);
      assert Took(w, t, id);
    }
  }

  lemma StepTold(w: World, op: Op, i: nat)
    requires Inv(w) && Enabled(w, op) && Sound(w, op)
    ensures ToldOk(Step(w, op), i)
  {
    assert ToldOk(w, i);
    match op
    case Exit(u, _) => assert LiveOk(w, u);
    case WaitGot(u) => assert WaitOk(w, u);
    case WaitFinish(u) => assert WaitOk(w, u) && NodeOk(w, w.waits[u].node) && SlotOk(w, w.waits[u].pid);
    case _ =>
  }

  lemma StepOnce(w: World, op: Op, i: nat, j: nat)
    requires Inv(w) && Enabled(w, op) && Sound(w, op)
    ensures Once(Step(w, op), i, j)
  {
    assert Once(w, i, j) && ToldOk(w, i) && ToldOk(w, j);
    match op
    case WaitFinish(u) => assert WaitOk(w, u);
    case _ =>
  }

  lemma StepForker(w: World, op: Op, id: nat, t: nat)
    requires Inv(w) && Enabled(w, op) && Sound(w, op)
    ensures ForkerOk(Step(w, op), id, t)
  {
    assert ForkerOk(w, id, t) && LiveOk(w, t);
    match op
    case Fork(u) => assert LiveOk(w, u);
    case Exit(u, _) => assert LiveOk(w, u);
    case WaitGot(u) => assert WaitOk(w, u);
    case _ =>
  }

  lemma StepKeepsInv(w: World, op: Op)
    requires Inv(w) && Enabled(w, op) && Sound(w, op)
    ensures Inv(Step(w, op))
  {
    var w' := Step(w, op);
    forall t: nat ensures LiveOk(w', t) { StepLive(w, op, t); }
    forall i: nat ensures SlotOk(w', i) { StepSlot(w, op, i); }
    forall id: nat ensures NodeOk(w', id) { StepNode(w, op, id); }
    forall t: nat ensures WaitOk(w', t) { StepWait(w, op, t); }
    forall id: nat ensures SemOk(w', id) { StepSem(w, op, id); }
    forall i: nat ensures ToldOk(w', i) { StepTold(w, op, i); }
    forall i: nat, j: nat ensures Once(w', i, j) { StepOnce(w, op, i, j); }
    forall id: nat, t: nat ensures ForkerOk(w', id, t) { StepForker(w, op, id, t); }
  }

  // ---------------------------------------------------------------- every run

  const BOOT := World([], map[], map[], {}, map[], 0, map[], [], map[])

  ghost function Run(ops: seq<Op>): World {
    if ops == [] then BOOT
    else
      var n := |ops| - 1;
      var p := Run(ops[..n]);
      if Enabled(p, ops[n]) && Sound(p, ops[n]) then Step(p, ops[n]) else p
  }

  lemma {:induction false} RunKeepsInv(ops: seq<Op>)
    ensures Inv(Run(ops))
  {
    if ops != [] {
      var n := |ops| - 1;
      RunKeepsInv(ops[..n]);
      var p := Run(ops[..n]);
      if Enabled(p, ops[n]) && Sound(p, ops[n]) {
        StepKeepsInv(p, ops[n]);
      }
    }
  }

  /** In every run: no step uses a NULL slot or a freed node; a waitpid() that returned gave the code
      that the process with that pid passed to _exit(); and no two returned for the same process. */
  lemma EveryRunSafe(ops: seq<Op>, op: Op, i: nat, j: nat)
    ensures var w := Run(ops);
            && (Enabled(w, op) ==> Sound(w, op))
            && (i < |w.told| ==>
                  var x := w.told[i];
                  x.node in w.said && x.status == w.said[x.node] && x.node in w.pid && w.pid[x.node] == x.pid)
            && (i < |w.told| && j < |w.told| && i != j ==> w.told[i].node != w.told[j].node)
  {
    RunKeepsInv(ops);
    var w := Run(ops);
    if Enabled(w, op) {
      StepSound(w, op);
    }
    assert ToldOk(w, i) && Once(w, i, j);
  }

  /** What said holds is what _exit() was called with, by a live process, once. */
  lemma SaidOnce(ops: seq<Op>, op: Op, t: nat)
    ensures var w := Run(ops);
            Enabled(w, op) && Sound(w, op) ==>
              && (t in w.said ==> t in Step(w, op).said && Step(w, op).said[t] == w.said[t])
              && (t !in w.said && t in Step(w, op).said ==> op == Exit(t, Step(w, op).said[t]))
  {
    RunKeepsInv(ops);
    var w := Run(ops);
    if Enabled(w, op) && Sound(w, op) && op.Exit? {
      assert LiveOk(w, op.t);
    }
  }

  /** The process a wait begins on has the pid asked for, and the wait keeps to that process until it
      returns: no step changes which process a waiter waits for, and while it waits the pid is not
      given to another. */
  lemma WaitKeepsProcess(ops: seq<Op>, op: Op, t: nat)
    ensures var w := Run(ops);
            && (t in w.waits ==> w.waits[t].node in w.pid && w.pid[w.waits[t].node] == w.waits[t].pid)
            && (t in w.waits && Enabled(w, op) && Sound(w, op) && op != WaitFinish(t) ==>
                  && t in Step(w, op).waits && Step(w, op).waits[t].node == w.waits[t].node
                  && w.waits[t].pid < |Step(w, op).table| && Step(w, op).table[w.waits[t].pid] == To(w.waits[t].node))
            && (Enabled(w, op) && Sound(w, op) && op == WaitFinish(t) ==>
                  |Step(w, op).told| == |w.told| + 1 && Step(w, op).told[|w.told|].node == w.waits[t].node)
  {
    RunKeepsInv(ops);
    var w := Run(ops);
    assert WaitOk(w, t);
    if t in w.waits {
      assert SlotOk(w, w.waits[t].pid);
      if Enabled(w, op) && Sound(w, op) {
        StepKeepsInv(w, op);
        assert WaitOk(Step(w, op), t);
      }
    }
  }

  /** A waitpid() gets past P() if and only if the process has exited and it has not done so before, and
      then returns; exit_lock is 0 again. */
  lemma WaitReturns(ops: seq<Op>, t: nat)
    requires t in Run(ops).waits
    ensures var w := Run(ops);
            var v := w.waits[t];
            && v.node in w.nodes
            && (Enabled(w, WaitGot(t)) <==> w.nodes[v.node].exited && !v.got)
            && (Enabled(w, WaitGot(t)) && Sound(w, WaitGot(t)) ==>
                  var w' := Step(w, WaitGot(t)); Enabled(w', WaitFinish(t)) && v.node in w'.nodes && w'.nodes[v.node].sem == 0)
            && (Enabled(w, WaitFinish(t)) && Sound(w, WaitFinish(t)) ==>
                  var w' := Step(w, WaitFinish(t)); t !in w'.waits && v.node !in w'.nodes && v.pid < |w'.table| && w'.table[v.pid] == Null)
  {
    RunKeepsInv(ops);
    var w := Run(ops);
    var v := w.waits[t];
    assert WaitOk(w, t) && SemOk(w, v.node) && NodeOk(w, v.node);
    if w.nodes[v.node].exited && !v.got {
      if u: nat :| Took(w, u, v.node) {
        assert WaitOk(w, u) && SlotOk(w, v.pid) && SlotOk(w, w.waits[u].pid);
        OneWaiter(w, t, u);
      }
    }
  }

  /** A live pid is not given out again, but for one case: the boot thread has pid 0 and no slot, so the
      first process forked gets its pid, and no later one does. */
  lemma PidsFresh(ops: seq<Op>, t: nat)
    requires !Full(Run(ops).table)
    ensures var w := Run(ops);
            var pid := FirstNull(w.table);
            && (t in w.live ==> t in w.pid && w.pid[t] != pid)
            && (pid == 0 <==> w.table == [])
            && pid <= PID_MAX
  {
    RunKeepsInv(ops);
    var w := Run(ops);
    if t in w.live {
      BornFresh(w, t);
    }
  }

  /** The first fork: the boot thread and its child both have pid 0. */
  lemma FirstForkSharesPid()
    ensures var w := Run([BootFork]); 0 in w.live && w.pid[0] == 0
  {
    assert [BootFork][..0] == [];
    assert Run([]) == BOOT;
  }

  // ---------------------------------------------------------------- whose child

  /** The process with that pid was forked by thread t. */
  predicate Child(w: World, t: nat, pid: int) {
    0 < pid < |w.table| && w.table[pid].To? && w.table[pid].node in w.forker && w.forker[w.table[pid].node] == Thread(t)
  }

  /** waitpid() compares pid numbers. It refuses no parent. A thread it lets through is the parent if and
      only if it is older than the process waited for and the boot thread did not fork that process; the
      threads let through in error are those that got the pid of an exited parent later, and thread 0,
      which has the boot thread's pid. */
  lemma ParentIff(ops: seq<Op>, t: nat, pid: int, options: int)
    requires t in Run(ops).live
    ensures var w := Run(ops);
            && (Child(w, t, pid) && pid <= PID_MAX && options == 0 ==> Accepts(w, t, pid, options))
            && (Accepts(w, t, pid, options) ==>
                  0 < pid <= PID_MAX && pid < |w.table| && w.table[pid].To? && options == 0)
            && (Accepts(w, t, pid, options) ==>
                  var id := w.table[pid].node;
                  && id in w.forker
                  && (Child(w, t, pid) <==> t < id && w.forker[id].Thread?)
                  && (w.forker[id].BootThread? ==> t == 0)
                  && (w.forker[id].Thread? && t > id ==> w.forker[id].t !in w.live))
  {
    RunKeepsInv(ops);
    var w := Run(ops);
    assert LiveOk(w, t);
    if 0 < pid < |w.table| && w.table[pid].To? {
      var id := w.table[pid].node;
      assert SlotOk(w, pid) && ForkerOk(w, id, t) && SlotOk(w, 0);
      if w.forker[id].Thread? {
        assert LiveOk(w, w.forker[id].t);
      }
    }
  }

  lemma RunOn(ops: seq<Op>, op: Op)
    ensures var p := Run(ops);
            Run(ops + [op]) == if Enabled(p, op) && Sound(p, op) then Step(p, op) else p
  {
    assert (ops + [op])[..|ops|] == ops;
  }

  function Fresh(parent: nat): Node { Node(parent, -1, false, 0) }

  /** The worlds after one fork and after two and three in a chain. */
  const ONE := BOOT.(table := [To(0)], nodes := map[0 := Fresh(0)], pid := map[0 := 0], live := {0}, next := 1,
                     forker := map[0 := BootThread])
  const TWO := ONE.(table := [To(0), To(1)], nodes := ONE.nodes[1 := Fresh(0)], pid := ONE.pid[1 := 1],
                    live := {0, 1}, next := 2, forker := ONE.forker[1 := Thread(0)])
  const THREE := TWO.(table := [To(0), To(1), To(2)], nodes := TWO.nodes[2 := Fresh(1)], pid := TWO.pid[2 := 2],
                      live := {0, 1, 2}, next := 3, forker := TWO.forker[2 := Thread(1)])

  lemma OneFork()
    ensures Run([BootFork]) == ONE
  {
    assert Run([]) == BOOT && [] + [BootFork] == [BootFork];
    RunOn([], BootFork);
  }

  lemma TwoForks()
    ensures Run([BootFork] + [Fork(0)]) == TWO
  {
    OneFork();
    RunOn([BootFork], Fork(0));
  }

  lemma ThreeForks()
    ensures Run([BootFork] + [Fork(0)] + [Fork(1)]) == THREE
  {
    TwoForks();
    RunOn([BootFork] + [Fork(0)], Fork(1));
  }

  /** Thread t can wait for u: t has the pid that u has for its parent. */
  predicate CanWait(w: World, t: nat, u: nat, pid: nat) {
    && t in w.live && t in w.pid && t !in w.waits && t != u
    && 0 < pid < |w.table| && pid <= PID_MAX && w.table[pid] == To(u) && u in w.nodes && w.nodes[u].parent == w.pid[t]
  }

  /** A process exits. */
  lemma Exits(ops: seq<Op>, t: nat, u: nat, pid: nat)
    requires var w := Run(ops); CanWait(w, t, u, pid) && u in w.live && u !in w.waits && u in w.pid && w.pid[u] == pid
    ensures var w, w' := Run(ops), Run(ops + [Exit(u, 0)]);
            && CanWait(w', t, u, pid) && w'.nodes[u].sem > 0 && w'.nodes - {u} == w.nodes - {u} && w'.live == w.live - {u}
            && w'.table == w.table && w'.pid == w.pid && w'.waits == w.waits && w'.next == w.next && w'.forker == w.forker
  {
    RunOn(ops, Exit(u, 0));
  }

  /** It is waited for, from the call of waitpid() to its return. */
  lemma Reaped(ops: seq<Op>, t: nat, u: nat, pid: nat)
    requires var w := Run(ops); CanWait(w, t, u, pid) && w.nodes[u].sem > 0
    ensures var w, w' := Run(ops), Run(ops + [WaitBegin(t, pid, 0)] + [WaitGot(t)] + [WaitFinish(t)]);
            && w'.table == w.table[pid := Null] && w'.nodes == w.nodes - {u} && w'.waits == w.waits
            && w'.pid == w.pid && w'.live == w.live && w'.next == w.next && w'.forker == w.forker
  {
    RunOn(ops, WaitBegin(t, pid, 0));
    RunOn(ops + [WaitBegin(t, pid, 0)], WaitGot(t));
    RunOn(ops + [WaitBegin(t, pid, 0)] + [WaitGot(t)], WaitFinish(t));
  }

  lemma StrangerForked(ops: seq<Op>)
    requires var w := Run(ops);
             && w.table == [To(0), Null, To(2)] && 2 in w.nodes && w.nodes[2].parent == 1 && w.next == 3
             && 0 in w.pid && 2 in w.forker && w.forker[2] == Thread(1) && 0 in w.live && w.waits == map[]
    ensures var w := Run(ops + [Fork(0)]); Enabled(w, WaitBegin(3, 2, 0)) && !Child(w, 3, 2) && Child(w, 1, 2)
  {
    var w := Run(ops);
    assert !Full(w.table) && FirstNull(w.table) == 1;
    RunOn(ops, Fork(0));
    var w' := Run(ops + [Fork(0)]);
    assert w' == Born(w, w.pid[0], Thread(0));
    assert w'.table == [To(0), To(3), To(2)] && w'.pid[3] == 1;
  }

  /** Thread 1 forks thread 2, exits and is waited for; thread 3 gets its pid and passes for the parent
      of thread 2. */
  lemma StrangerWaits() returns (ops: seq<Op>)
    ensures var w := Run(ops); Enabled(w, WaitBegin(3, 2, 0)) && !Child(w, 3, 2) && Child(w, 1, 2)
  {
    ThreeForks();
    ops := [BootFork] + [Fork(0)] + [Fork(1)];
    Exits(ops, 0, 1, 1);
    ops := ops + [Exit(1, 0)];
    Reaped(ops, 0, 1, 1);
    ops := ops + [WaitBegin(0, 1, 0)] + [WaitGot(0)] + [WaitFinish(0)];
    assert Run(ops).table == [To(0), Null, To(2)] && 2 in Run(ops).nodes && Run(ops).nodes[2] == Fresh(1);
    StrangerForked(ops);
    ops := ops + [Fork(0)];
  }

  /** The boot thread forks twice, and the first process passes for the parent of the second. */
  lemma FirstWaits()
    ensures var w := Run([BootFork, BootFork]); Enabled(w, WaitBegin(0, 1, 0)) && !Child(w, 0, 1)
  {
    OneFork();
    assert [BootFork] + [BootFork] == [BootFork, BootFork];
    RunOn([BootFork], BootFork);
  }
}
