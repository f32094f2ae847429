/** The thread system of thread.c and scheduler.c as a machine whose steps are the interrupts-off
    sections. curthread is None while mi_switch() waits in scheduler() for something to run. */
module Threads {
  import Array
  import Queue

  datatype Option = None | Some(value: nat)

  /** Threads and sleep addresses are numbers. started holds the threads that have run before: those
      return from md_switch() into mi_switch() and exorcise the zombies. */
  datatype Sys = Sys(cur: Option, ready: seq<nat>, sleepers: seq<nat>, sleepaddr: map<nat, nat>,
                     zombies: seq<nat>, numthreads: int, started: set<nat>)

  datatype Op =
    | Fork(t: nat)                  // thread_fork() by the current thread, t the new one
    | Yield | Sleep(addr: nat) | Exit // mi_switch() as far as the call of scheduler()
    | Dispatch                      // scheduler() returns; the thread goes on
    | Wakeup(addr: nat, one: bool)  // thread_wakeup(); one is cv_wakeup_one_thread

  predicate Enabled(s: Sys, op: Op) {
    match op
    case Fork(t) => s.cur.Some? && Everywhere(s, t) == 0
    case Dispatch => s.cur.None? && s.ready != []
    case Wakeup(_, _) => true
    case _ => s.cur.Some?
  }

  predicate On(sleepaddr: map<nat, nat>, t: nat, addr: nat) { t in sleepaddr && sleepaddr[t] == addr }

  datatype Split = Split(woken: seq<nat>, left: seq<nat>)

  /** The sleepers on addr, or only the first of them, and the others. */
  function Wake(sleepers: seq<nat>, sleepaddr: map<nat, nat>, addr: nat, one: bool): Split {
    if sleepers == [] then Split([], [])
    else if On(sleepaddr, sleepers[0], addr) then
      if one then Split([sleepers[0]], sleepers[1..])
      else var r := Wake(sleepers[1..], sleepaddr, addr, one); Split([sleepers[0]] + r.woken, r.left)
    else
      var r := Wake(sleepers[1..], sleepaddr, addr, one); Split(r.woken, [sleepers[0]] + r.left)
  }

  function Step(s: Sys, op: Op): Sys
    requires Enabled(s, op)
  {
    match op
    case Fork(t) => s.(ready := s.ready + [t], numthreads := s.numthreads + 1, started := s.started - {t})
    case Yield => s.(cur := None, ready := s.ready + [s.cur.value])
    case Sleep(a) => s.(cur := None, sleepers := s.sleepers + [s.cur.value], sleepaddr := s.sleepaddr[s.cur.value := a])
    case Exit => s.(cur := None, zombies := s.zombies + [s.cur.value], numthreads := s.numthreads - 1)
    case Dispatch =>
      var t := s.ready[0];
      s.(cur := Some(t), ready := s.ready[1..], started := s.started + {t},
         zombies := if t in s.started then [] else s.zombies)
    case Wakeup(a, one) =>
      var r := Wake(s.sleepers, s.sleepaddr, a, one);
      s.(sleepers := r.left, ready := s.ready + r.woken)
  }

  predicate Boot(s: Sys, t: nat) {
    s == Sys(Some(t), [], [], map[], [], 1, {t})
  }

  // ---------------------------------------------------------------- who is where

  /** How often a thread is on a list. */
  function Times(q: seq<nat>, t: nat): nat {
    if q == [] then 0 else (if q[0] == t then 1 else 0) + Times(q[1..], t)
  }

  lemma {:induction false} TimesCat(a: seq<nat>, b: seq<nat>, t: nat)
    ensures Times(a + b, t) == Times(a, t) + Times(b, t)
  {
    if a == [] {
      assert a + b == b;
    } else {
      assert (a + b)[1..] == a[1..] + b;
      TimesCat(a[1..], b, t);
    }
  }

  lemma {:induction false} TimesIn(q: seq<nat>, t: nat)
    ensures t in q <==> Times(q, t) > 0
  {
    if q != [] {
      TimesIn(q[1..], t);
    }
  }

  /** In how many of the three places of the living a thread is. */
  function Live(s: Sys, t: nat): nat {
    (if s.cur == Some(t) then 1 else 0) + Times(s.ready, t) + Times(s.sleepers, t)
  }

  function Everywhere(s: Sys, t: nat): nat { Live(s, t) + Times(s.zombies, t) }

  /** Every thread is in one place, once, and numthreads counts the live ones. */
  ghost predicate Inv(s: Sys) {
    && (forall t :: Everywhere(s, t) <= 1)
    && s.numthreads == (if s.cur.Some? then 1 else 0) + |s.ready| + |s.sleepers|
    && (forall t :: t in s.sleepers ==> t in s.sleepaddr)
  }

  lemma {:induction false} WakeSplits(sleepers: seq<nat>, sleepaddr: map<nat, nat>, addr: nat, one: bool, t: nat)
    ensures var r := Wake(sleepers, sleepaddr, addr, one);
            && Times(r.woken, t) + Times(r.left, t) == Times(sleepers, t)
            && |r.woken| + |r.left| == |sleepers|
  {
    if sleepers != [] {
      var r := Wake(sleepers[1..], sleepaddr, addr, one);
      WakeSplits(sleepers[1..], sleepaddr, addr, one, t);
      TimesCat([sleepers[0]], r.woken, t);
      TimesCat([sleepers[0]], r.left, t);
    }
  }

  /** thread_wakeup() wakes sleepers on the address only, and leaves none of them asleep, unless it is
      to wake one: then it wakes one if there is one. */
  lemma {:induction false} WakeMeans(sleepers: seq<nat>, sleepaddr: map<nat, nat>, addr: nat, one: bool)
    ensures var r := Wake(sleepers, sleepaddr, addr, one);
            && (forall t :: t in r.woken ==> t in sleepers && On(sleepaddr, t, addr))
            && (forall t :: t in r.left ==> t in sleepers)
            && (!one || r.woken == [] ==> forall t :: t in r.left ==> !On(sleepaddr, t, addr))
            && (one ==> |r.woken| <= 1)
  {
    if sleepers != [] {
      WakeMeans(sleepers[1..], sleepaddr, addr, one);
    }
  }

  /** The threads of q that sleep on addr, in order, or those that do not. */
  function Picked(q: seq<nat>, sleepaddr: map<nat, nat>, addr: nat, on: bool): seq<nat> {
    if q == [] then []
    else (if On(sleepaddr, q[0], addr) == on then [q[0]] else []) + Picked(q[1..], sleepaddr, addr, on)
  }

  lemma {:induction false} WakeAllPicks(q: seq<nat>, sleepaddr: map<nat, nat>, addr: nat)
    ensures Wake(q, sleepaddr, addr, false) == Split(Picked(q, sleepaddr, addr, true), Picked(q, sleepaddr, addr, false))
  {
    if q != [] {
      WakeAllPicks(q[1..], sleepaddr, addr);
    }
  }

  /** q without its i-th element. */
  function Cut(q: seq<nat>, i: nat): seq<nat>
    requires i < |q|
  {
    q[..i] + q[i + 1..]
  }

  lemma CutFront(q: seq<nat>, i: nat)
    requires 0 < i < |q|
    ensures [q[0]] + Cut(q[1..], i - 1) == Cut(q, i)
  {
    assert q[1..][i..] == q[i + 1..];
    assert [q[0]] + q[1..][..i - 1] == q[..i];
  }

  lemma {:induction false} WakeOnePicks(q: seq<nat>, sleepaddr: map<nat, nat>, addr: nat, i: nat)
    requires i < |q| && On(sleepaddr, q[i], addr) && forall j :: 0 <= j < i ==> !On(sleepaddr, q[j], addr)
    ensures Wake(q, sleepaddr, addr, true) == Split([q[i]], Cut(q, i))
  {
    if i > 0 {
      var rest := q[1..];
      assert forall j :: 0 <= j < i - 1 ==> rest[j] == q[j + 1];
      WakeOnePicks(rest, sleepaddr, addr, i - 1);
      CutFront(q, i);
    }
  }

  lemma {:induction false} WakeNone(q: seq<nat>, sleepaddr: map<nat, nat>, addr: nat, one: bool)
    requires forall j :: 0 <= j < |q| ==> !On(sleepaddr, q[j], addr)
    ensures Wake(q, sleepaddr, addr, one) == Split([], q)
  {
    if q != [] {
      WakeNone(q[1..], sleepaddr, addr, one);
    }
  }

  /** thread_wakeup(): all who sleep on the address go to the end of the run queue in the order in which
      they went to sleep, or only the first of them, and the others sleep on as they were. */
  lemma WakeupMeans(s: Sys, addr: nat, one: bool, i: nat)
    requires i <= |s.sleepers| && forall j :: 0 <= j < i ==> !On(s.sleepaddr, s.sleepers[j], addr)
    requires i < |s.sleepers| ==> On(s.sleepaddr, s.sleepers[i], addr)
    ensures var s' := Step(s, Wakeup(addr, one));
            && s'.cur == s.cur && s'.sleepaddr == s.sleepaddr && s'.zombies == s.zombies
            && (if one && i < |s.sleepers| then
                  s'.ready == s.ready + [s.sleepers[i]] && s'.sleepers == Cut(s.sleepers, i)
                else if one then s'.ready == s.ready && s'.sleepers == s.sleepers
                else
                  && s'.ready == s.ready + Picked(s.sleepers, s.sleepaddr, addr, true)
                  && s'.sleepers == Picked(s.sleepers, s.sleepaddr, addr, false))
  {
    if one && i < |s.sleepers| {
      WakeOnePicks(s.sleepers, s.sleepaddr, addr, i);
    } else if one {
      WakeNone(s.sleepers, s.sleepaddr, addr, one);
    } else {
      WakeAllPicks(s.sleepers, s.sleepaddr, addr);
    }
  }

  /** So a wakeup of all leaves nobody asleep on the address, and who slept there can run. */
  lemma WakeupEnds(s: Sys, addr: nat, t: nat)
    ensures var s' := Step(s, Wakeup(addr, false));
            && (t in s'.sleepers <==> t in s.sleepers && !On(s.sleepaddr, t, addr))
            && (t in s.sleepers && On(s.sleepaddr, t, addr) ==> t in s'.ready)
  {
    var r := Wake(s.sleepers, s.sleepaddr, addr, false);
    WakeMeans(s.sleepers, s.sleepaddr, addr, false);
    WakeSplits(s.sleepers, s.sleepaddr, addr, false, t);
    TimesIn(s.sleepers, t);
    TimesIn(r.woken, t);
    TimesIn(r.left, t);
  }

  /** What one step does to the live threads: fork adds one, exit takes away the current one, every
      other step only moves them. */
  lemma StepLive(s: Sys, op: Op, t: nat)
    requires Enabled(s, op)
    ensures Live(Step(s, op), t) == match op
              case Fork(c) => Live(s, t) + if c == t then 1 else 0
              case Exit => Live(s, t) - if s.cur == Some(t) then 1 else 0
              case _ => Live(s, t)
  {
    match op
    case Fork(c) => TimesCat(s.ready, [c], t);
    case Yield => TimesCat(s.ready, [s.cur.value], t);
    case Sleep(a) => TimesCat(s.sleepers, [s.cur.value], t);
    case Wakeup(a, one) =>
      var r := Wake(s.sleepers, s.sleepaddr, a, one);
      WakeSplits(s.sleepers, s.sleepaddr, a, one, t);
      TimesCat(s.ready, r.woken, t);
    case _ =>
  }

  lemma StepOnce(s: Sys, op: Op, t: nat)
    requires Inv(s) && Enabled(s, op)
    ensures Everywhere(Step(s, op), t) <= 1
  {
    StepLive(s, op, t);
    assert Everywhere(s, t) <= 1;
    if op.Exit? {
      TimesCat(s.zombies, [s.cur.value], t);
    }
  }

  lemma StepKeepsInv(s: Sys, op: Op)
    requires Inv(s) && Enabled(s, op)
    ensures Inv(Step(s, op))
  {
    var s' := Step(s, op);
    forall t: nat
      ensures Everywhere(s', t) <= 1
    {
      StepOnce(s, op, t);
    }
    if op.Wakeup? {
      WakeSplits(s.sleepers, s.sleepaddr, op.addr, op.one, 0);
      WakeMeans(s.sleepers, s.sleepaddr, op.addr, op.one);
    }
  }

  // ---------------------------------------------------------------- runs

  /** The state after some steps; a step that is not enabled does nothing. */
  function Run(s: Sys, ops: seq<Op>): Sys {
    if ops == [] then s
    else
      var p := Run(s, ops[..|ops| - 1]);
      var op := ops[|ops| - 1];
      if Enabled(p, op) then Step(p, op) else p
  }

  lemma {:induction false} RunKeepsInv(s: Sys, ops: seq<Op>)
    requires Inv(s)
    ensures Inv(Run(s, ops))
  {
    if ops != [] {
      var p := Run(s, ops[..|ops| - 1]);
      RunKeepsInv(s, ops[..|ops| - 1]);
      if Enabled(p, ops[|ops| - 1]) {
        StepKeepsInv(p, ops[|ops| - 1]);
      }
    }
  }

  /** Safety of every run from boot. Whatever the steps, every thread is in at most one of the four
      places and at most once, the live ones number numthreads, thread_exit()'s assertion holds while
      a thread runs, no zombie is current or can be dispatched, and so exorcise() spares the thread
      it runs in. */
  lemma EveryRunSafe(boot: nat, s0: Sys, ops: seq<Op>)
    requires Boot(s0, boot)
    ensures var s := Run(s0, ops);
            && (forall t :: Everywhere(s, t) <= 1)
            && s.numthreads == (if s.cur.Some? then 1 else 0) + |s.ready| + |s.sleepers|
            && (s.cur.Some? ==> s.numthreads > 0 && s.cur.value !in s.zombies)
            && (Enabled(s, Dispatch) ==> s.ready[0] !in s.zombies)
  {
    assert Inv(s0);
    RunKeepsInv(s0, ops);
    var s := Run(s0, ops);
    if s.cur.Some? {
      NotZombie(s, s.cur.value);
    } else if s.ready != [] {
      NotZombie(s, s.ready[0]);
    }
  }

  lemma NotZombie(s: Sys, t: nat)
    requires Inv(s) && (s.cur == Some(t) || t in s.ready)
    ensures t !in s.zombies
  {
    assert Everywhere(s, t) <= 1;
    TimesIn(s.ready, t);
    TimesIn(s.zombies, t);
  }

  /** How often a thread was forked, and how often it exited, in a run. */
  function Forked(s: Sys, ops: seq<Op>, t: nat): nat {
    if ops == [] then 0
    else
      var n := |ops| - 1;
      Forked(s, ops[..n], t) + if ops[n] == Fork(t) && Enabled(Run(s, ops[..n]), ops[n]) then 1 else 0
  }

  function Exited(s: Sys, ops: seq<Op>, t: nat): nat {
    if ops == [] then 0
    else
      var n := |ops| - 1;
      Exited(s, ops[..n], t) + if ops[n].Exit? && Run(s, ops[..n]).cur == Some(t) then 1 else 0
  }

  /** No run loses a thread or makes one up: a thread is alive exactly as often as it was, plus the
      forks that made it, less its exits. */
  lemma {:induction false} RunConserves(s: Sys, ops: seq<Op>, t: nat)
    ensures Live(Run(s, ops), t) + Exited(s, ops, t) == Live(s, t) + Forked(s, ops, t)
  {
    if ops != [] {
      var n := |ops| - 1;
      var p := Run(s, ops[..n]);
      RunConserves(s, ops[..n], t);
      if Enabled(p, ops[n]) {
        StepLive(p, ops[n], t);
      }
    }
  }

  /** How often it was a zombie when a thread came back that had run before, and exorcised them. */
  function Destroyed(s: Sys, ops: seq<Op>, t: nat): nat {
    if ops == [] then 0
    else
      var n := |ops| - 1;
      var p := Run(s, ops[..n]);
      Destroyed(s, ops[..n], t)
      + if ops[n].Dispatch? && Enabled(p, ops[n]) && p.ready[0] in p.started then Times(p.zombies, t) else 0
  }

  lemma StepAccounts(s: Sys, op: Op, t: nat)
    requires Enabled(s, op)
    ensures Everywhere(Step(s, op), t) ==
              Everywhere(s, t) + (if op == Fork(t) then 1 else 0)
              - if op.Dispatch? && s.ready[0] in s.started then Times(s.zombies, t) else 0
  {
    StepLive(s, op, t);
    if op.Exit? {
      TimesCat(s.zombies, [s.cur.value], t);
    }
  }

  /** Every thread that was there or was forked is alive, a zombie or destroyed, each once: an exited
      thread is a zombie until the next return to a thread that has run before. */
  lemma {:induction false} Accounted(s: Sys, ops: seq<Op>, t: nat)
    ensures Everywhere(Run(s, ops), t) + Destroyed(s, ops, t) == Everywhere(s, t) + Forked(s, ops, t)
  {
    if ops != [] {
      var n := |ops| - 1;
      var p := Run(s, ops[..n]);
      Accounted(s, ops[..n], t);
      if Enabled(p, ops[n]) {
        StepAccounts(p, ops[n], t);
      }
    }
  }

  // ---------------------------------------------------------------- first come, first served

  /** How many times scheduler() returned in a run. */
  function Returns(s: Sys, ops: seq<Op>): nat {
    if ops == [] then 0
    else
      var n := |ops| - 1;
      Returns(s, ops[..n]) + if ops[n].Dispatch? && Enabled(Run(s, ops[..n]), ops[n]) then 1 else 0
  }

  /** As long as scheduler() has not returned more than k times, what was k-th on the run queue has
      moved up by one place per return, whatever was forked, woken, stashed or exited meanwhile. */
  lemma {:induction false} MovesUp(s: Sys, ops: seq<Op>, k: nat)
    requires k < |s.ready| && Returns(s, ops) <= k
    ensures var d := Returns(s, ops);
            var r := Run(s, ops).ready;
            k - d < |r| && r[k - d] == s.ready[k]
  {
    if ops != [] {
      MovesUp(s, ops[..|ops| - 1], k);
    }
  }

  /** A thread with k others ahead of it is dispatched by exactly the (k+1)-th following return of
      scheduler(): by that one, and by none before it while it waits. */
  lemma ServedInTurn(s: Sys, ops: seq<Op>, k: nat)
    requires Inv(s) && k < |s.ready| && Returns(s, ops) <= k
    ensures var p := Run(s, ops);
            && (Returns(s, ops) == k && p.cur.None? ==> Enabled(p, Dispatch) && Step(p, Dispatch).cur == Some(s.ready[k]))
            && (Returns(s, ops) < k && Enabled(p, Dispatch) ==> Step(p, Dispatch).cur != Some(s.ready[k]))
            && p.cur != Some(s.ready[k])
  {
    MovesUp(s, ops, k);
    RunKeepsInv(s, ops);
    var p := Run(s, ops);
    var t := s.ready[k];
    assert Everywhere(p, t) <= 1;
    TimesIn(p.ready, t);
    if p.ready[0] == t {
      TimesIn(p.ready[1..], t);
      assert forall i :: 0 < i < |p.ready| ==> p.ready[i] == p.ready[1..][i - 1];
    }
  }

  // ---------------------------------------------------------------- the code

  /** The loop of thread_wakeup() with woken done and i to look at next has all still to come. */
  ghost predicate Waking(all: Split, woken: seq<nat>, sleepers: seq<nat>, i: nat, sleepaddr: map<nat, nat>, addr: nat, one: bool) {
    && i <= |sleepers|
    && var r := Wake(sleepers[i..], sleepaddr, addr, one);
       all == Split(woken + r.woken, sleepers[..i] + r.left)
  }

  lemma WakingTakes(all: Split, woken: seq<nat>, sleepers: seq<nat>, i: nat, sleepaddr: map<nat, nat>, addr: nat, one: bool)
    requires Waking(all, woken, sleepers, i, sleepaddr, addr, one)
    requires i < |sleepers| && On(sleepaddr, sleepers[i], addr)
    ensures var now := sleepers[..i] + sleepers[i + 1..];
            if one then all == Split(woken + [sleepers[i]], now)
            else Waking(all, woken + [sleepers[i]], now, i, sleepaddr, addr, one)
  {
    var now := sleepers[..i] + sleepers[i + 1..];
    var rest := sleepers[i..];
    assert rest[1..] == sleepers[i + 1..] == now[i..];
    assert now[..i] == sleepers[..i];
    var r := Wake(now[i..], sleepaddr, addr, one);
    assert woken + ([sleepers[i]] + r.woken) == (woken + [sleepers[i]]) + r.woken;
  }

  lemma WakingSkips(all: Split, woken: seq<nat>, sleepers: seq<nat>, i: nat, sleepaddr: map<nat, nat>, addr: nat, one: bool)
    requires Waking(all, woken, sleepers, i, sleepaddr, addr, one)
    requires i < |sleepers| && !On(sleepaddr, sleepers[i], addr)
    ensures Waking(all, woken, sleepers, i + 1, sleepaddr, addr, one)
  {
    var rest := sleepers[i..];
    assert rest[1..] == sleepers[i + 1..];
    var r := Wake(rest[1..], sleepaddr, addr, one);
    assert sleepers[..i] + ([sleepers[i]] + r.left) == sleepers[..i + 1] + r.left;
  }

  lemma WakingEnds(all: Split, woken: seq<nat>, sleepers: seq<nat>, sleepaddr: map<nat, nat>, addr: nat, one: bool)
    requires Waking(all, woken, sleepers, |sleepers|, sleepaddr, addr, one)
    ensures all == Split(woken, sleepers)
  {
  }

  lemma Append(a: seq<nat>, b: seq<nat>, t: nat)
    ensures a + b + [t] == a + (b + [t])
  {
  }

  /** More threads than fit in memory. */
  const MANY := 0x1000_0000

  /** The run queue and the sleepers, apart. */
  ghost predicate Two(q: Queue.Ring<nat>, s: Array.Guys<nat>)
    reads q, s
  {
    q.Valid() && s.Valid() && q.data != s.v && q.size <= 2 * MANY + 1
  }

  /** One sleeper goes from the array to the end of the run queue. */
  method WakeSleeper(q: Queue.Ring<nat>, s: Array.Guys<nat>, i: nat, memory: bool) returns (ok: bool)
    requires Two(q, s) && i < s.num && |q.Contents()| < MANY
    modifies q, q.data, s`num, s.v
    ensures Two(q, s) && s.num == old(s.num) - 1 && (q.data == old(q.data) || fresh(q.data))
    ensures ok == (memory || !old(q.Full())) && (!memory ==> q.size == old(q.size))
    ensures s.Contents() == old(s.Contents())[..i] + old(s.Contents())[i + 1..]
    ensures ok ==> q.Contents() == old(q.Contents()) + [old(s.Contents())[i]]
  {
    var t := s.GetGuy(i);
    ghost var ready := q.Contents();
    s.Remove(i);
    assert q.Contents() == ready;
    ghost var left := s.Contents();
    ok := q.AddTail(t, memory);
    assert s.Contents() == left;
  }

  /** The loop of thread_wakeup() finds a sleeper at i; it is the last one woken when only one is asked
      for. */
  method WakeFound(q: Queue.Ring<nat>, s: Array.Guys<nat>, i: nat, ghost sleepaddr: map<nat, nat>, ghost addr: nat, ghost one: bool,
                   memory: bool, ghost all: Split, ghost first: seq<nat>, ghost woken: seq<nat>)
      returns (ok: bool, ghost woken': seq<nat>)
    requires Two(q, s) && i < s.num && |q.Contents()| < MANY && On(sleepaddr, s.Contents()[i], addr)
    requires q.Contents() == first + woken && Waking(all, woken, s.Contents(), i, sleepaddr, addr, one)
    modifies q, q.data, s`num, s.v
    ensures Two(q, s) && s.num == old(s.num) - 1 && (q.data == old(q.data) || fresh(q.data))
    ensures (memory ==> ok) && (!memory ==> q.size == old(q.size))
    ensures !ok ==> |first| + |all.woken| >= q.size
    ensures ok ==> q.Contents() == first + woken' && |woken'| == |woken| + 1
    ensures ok ==> if one then all == Split(woken', s.Contents())
                   else Waking(all, woken', s.Contents(), i, sleepaddr, addr, one)
  {
    ghost var t := s.Contents()[i];
    WakingTakes(all, woken, s.Contents(), i, sleepaddr, addr, one);
    ok := WakeSleeper(q, s, i, memory);
    Append(first, woken, t);
    woken' := woken + [t];
  }

  /** The loop of thread_wakeup(): it removes from the array it walks. */
  method WakeAll(q: Queue.Ring<nat>, s: Array.Guys<nat>, sleepaddr: map<nat, nat>, addr: nat, one: bool, memory: bool)
      returns (ok: bool)
    requires Two(q, s) && |q.Contents()| + s.num < MANY
    modifies q, q.data, s`num, s.v
    ensures Two(q, s) && (q.data == old(q.data) || fresh(q.data))
    ensures ok <==> memory || |old(q.Contents())| + |Wake(old(s.Contents()), sleepaddr, addr, one).woken| < old(q.size)
    ensures ok ==> var r := Wake(old(s.Contents()), sleepaddr, addr, one);
              s.Contents() == r.left && q.Contents() == old(q.Contents()) + r.woken
  {
    ghost var all := Wake(s.Contents(), sleepaddr, addr, one);
    ghost var first, woken: seq<nat> := q.Contents(), [];
    var i: nat := 0;
    assert s.Contents()[0..] == s.Contents();
    var done := false;
    while i < s.num && !done
      invariant Two(q, s) && (q.data == old(q.data) || fresh(q.data)) && (!memory ==> q.size == old(q.size))
      invariant q.Contents() == first + woken && |first| + |woken| + s.num < MANY
      invariant if done then all == Split(woken, s.Contents()) else Waking(all, woken, s.Contents(), i, sleepaddr, addr, one)
      decreases s.num - i
    {
      ok, done, i, woken := WakeTurn(q, s, i, sleepaddr, addr, one, memory, all, first, woken);
      if !ok {
        return;
      }
    }
    if !done {
      WakingEnds(all, woken, s.Contents(), sleepaddr, addr, one);
    }
    return true;
  }

  /** One round of the loop: the sleeper at i is woken, and is the last when only one is asked for, or
      is passed over. */
  method WakeTurn(q: Queue.Ring<nat>, s: Array.Guys<nat>, i: nat, sleepaddr: map<nat, nat>, addr: nat, one: bool,
                  memory: bool, ghost all: Split, ghost first: seq<nat>, ghost woken: seq<nat>)
      returns (ok: bool, done: bool, i': nat, ghost woken': seq<nat>)
    requires Two(q, s) && i < s.num && |first| + |woken| + s.num < MANY
    requires q.Contents() == first + woken && Waking(all, woken, s.Contents(), i, sleepaddr, addr, one)
    modifies q, q.data, s`num, s.v
    ensures Two(q, s) && (q.data == old(q.data) || fresh(q.data)) && (!memory ==> q.size == old(q.size))
    ensures (memory ==> ok) && (!ok ==> |first| + |all.woken| >= q.size)
    ensures ok ==> q.Contents() == first + woken' && |woken'| + s.num == |woken| + old(s.num) && s.num - i' < old(s.num) - i
    ensures ok ==> if done then all == Split(woken', s.Contents()) else Waking(all, woken', s.Contents(), i', sleepaddr, addr, one)
  {
    ok, done, i', woken' := true, false, i + 1, woken;
    var t := s.GetGuy(i);
    if On(sleepaddr, t, addr) {
      ok, woken' := WakeFound(q, s, i, sleepaddr, addr, one, memory, all, first, woken);
      done, i' := one, i;
    } else {
      WakingSkips(all, woken, s.Contents(), i, sleepaddr, addr, one);
    }
  }

  /** The static data of thread.c and scheduler.c: a ring buffer and two growable arrays. */
  class ThreadSystem {
    var curthread: Option
    const runqueue: Queue.Ring<nat>
    const sleepers: Array.Guys<nat>
    const zombies: Array.Guys<nat>
    var sleepaddr: map<nat, nat>
    var numthreads: int
    ghost var started: set<nat>

    /** The three lists are well formed and share no storage. */
    ghost predicate Apart()
      reads this, runqueue, sleepers, zombies
    {
      && runqueue.Valid() && sleepers.Valid() && zombies.Valid() && sleepers != zombies
      && runqueue.data != sleepers.v && runqueue.data != zombies.v && sleepers.v != zombies.v
    }

    ghost function State(): Sys
      reads this, runqueue, runqueue.data, sleepers, sleepers.v, zombies, zombies.v
      requires Apart()
    {
      Sys(curthread, runqueue.Contents(), sleepers.Contents(), sleepaddr, zombies.Contents(), numthreads, started)
    }

    ghost predicate Valid()
      reads this, runqueue, runqueue.data, sleepers, sleepers.v, zombies, zombies.v
    {
      Apart() && Inv(State()) && numthreads < MANY && runqueue.size <= 2 * MANY + 1
    }

    /** Storage is what it was or newly made. */
    twostate predicate Own()
      reads this, runqueue, sleepers, zombies
    {
      && (runqueue.data == old(runqueue.data) || fresh(runqueue.data))
      && (sleepers.v == old(sleepers.v) || fresh(sleepers.v))
      && (zombies.v == old(zombies.v) || fresh(zombies.v))
    }

    /** What thread_fork() preallocates for: all threads can sleep at once. */
    ghost predicate RoomToSleep()
      reads this, sleepers
    {
      sleepers.v.Length >= numthreads
    }

    /** thread_bootstrap() and scheduler_bootstrap(). */
    constructor (me: nat)
      ensures Valid() && Boot(State(), me)
      ensures fresh(runqueue) && fresh(sleepers) && fresh(zombies) && fresh(runqueue.data) && fresh(sleepers.v) && fresh(zombies.v)
    {
      runqueue := new Queue.Ring<nat>(32);
      sleepers := new Array.Guys<nat>();
      zombies := new Array.Guys<nat>();
      curthread, sleepaddr, numthreads := Some(me), map[], 1;
      started := {me};
    }

    /** The preallocations of thread_fork(): room in all three lists, which hold what they held. */
    method Reserve(n: nat, grants: nat) returns (ok: bool)
      requires Apart() && n <= MANY
      modifies runqueue, sleepers, zombies
      ensures Apart() && Own() && State() == old(State()) && (grants >= 3 ==> ok)
      ensures ok ==> sleepers.v.Length >= n && zombies.v.Length >= n && runqueue.size >= n
      ensures runqueue.size == old(runqueue.size) || runqueue.size <= 2 * MANY + 1
    {
      ok := sleepers.Preallocate(n, grants >= 1);
      if ok {
        ok := zombies.Preallocate(n, grants >= 2);
        if ok {
          ok := runqueue.Preallocate(n, grants >= 3);
        }
      }
    }

    /** make_runnable(): fails only when the ring is full and there is no memory. */
    method MakeRunnable(t: nat, memory: bool) returns (ok: bool)
      requires Apart() && |runqueue.Contents()| < MANY && runqueue.size <= 2 * MANY + 1
      modifies runqueue, runqueue.data
      ensures Apart() && ok == (memory || !old(runqueue.Full())) && runqueue.size <= 2 * MANY + 1
      ensures runqueue.data == old(runqueue.data) || fresh(runqueue.data)
      ensures (!memory ==> runqueue.size == old(runqueue.size)) && runqueue.size >= old(runqueue.size)
      ensures State() == if ok then old(State()).(ready := old(State()).ready + [t]) else old(State())
    {
      ok := runqueue.AddTail(t, memory);
    }

    /** The new thread counts from here on, and has not run. */
    method Started(newguy: nat)
      requires Apart()
      modifies this`numthreads, this`started
      ensures Apart() && State() == old(State()).(numthreads := old(numthreads) + 1, started := old(started) - {newguy})
    {
      numthreads := numthreads + 1;
      started := started - {newguy};
    }

    method AddThread(newguy: nat, memory: bool) returns (ok: bool)
      requires Apart() && |runqueue.Contents()| < MANY && runqueue.size <= 2 * MANY + 1 && Enabled(State(), Op.Fork(newguy))
      modifies this`numthreads, this`started, runqueue, runqueue.data
      ensures Apart() && (memory ==> ok) && old(runqueue.size) <= runqueue.size <= 2 * MANY + 1
      ensures runqueue.data == old(runqueue.data) || fresh(runqueue.data)
      ensures State() == if ok then Step(old(State()), Op.Fork(newguy)) else old(State())
    {
      ok := MakeRunnable(newguy, memory);
      if ok {
        Started(newguy);
      }
    }

    /** The interrupts-off section of thread_fork(). The first so many requests for memory are granted;
        with four it cannot fail, and if it fails nothing has changed. */
    method Fork(newguy: nat, grants: nat) returns (error: bool)
      requires Valid() && Enabled(State(), Op.Fork(newguy)) && numthreads + 1 < MANY
      modifies this, runqueue, runqueue.data, sleepers, zombies
      ensures Valid() && Own() && (grants >= 4 ==> !error)
      ensures if error then State() == old(State()) else State() == Step(old(State()), Op.Fork(newguy)) && RoomToSleep()
      ensures !error ==> zombies.v.Length >= numthreads && runqueue.size >= numthreads
    {
      StepKeepsInv(State(), Op.Fork(newguy));
      var ok := Reserve(numthreads + 1, grants);
      if !ok {
        return true;
      }
      ok := AddThread(newguy, grants >= 4);
      return !ok;
    }

    method AddSleeper(t: nat, memory: bool) returns (ok: bool)
      requires Apart()
      modifies sleepers, sleepers.v
      ensures Apart() && ok == (memory || old(sleepers.num < sleepers.v.Length)) && sleepers.v.Length >= old(sleepers.v.Length)
      ensures sleepers.v == old(sleepers.v) || fresh(sleepers.v)
      ensures State() == if ok then old(State()).(sleepers := old(State()).sleepers + [t]) else old(State())
    {
      ok := sleepers.Add(t, memory);
    }

    method AddZombie(t: nat, memory: bool) returns (ok: bool)
      requires Apart()
      modifies zombies, zombies.v
      ensures Apart() && ok == (memory || old(zombies.num < zombies.v.Length))
      ensures zombies.v == old(zombies.v) || fresh(zombies.v)
      ensures State() == if ok then old(State()).(zombies := old(State()).zombies + [t]) else old(State())
    {
      ok := zombies.Add(t, memory);
    }

    /** The current thread is about to leave the processor. */
    method Leave(next: Op) returns (cur: nat)
      requires Apart() && curthread.Some?
      modifies this`curthread, this`sleepaddr, this`numthreads
      ensures Apart() && Some(cur) == old(curthread)
      ensures State() == old(State()).(cur := None,
                sleepaddr := if next.Sleep? then old(sleepaddr)[cur := next.addr] else old(sleepaddr),
                numthreads := if next.Exit? then old(numthreads) - 1 else old(numthreads))
    {
      cur := curthread.value;
      curthread := None;
      if next.Sleep? {
        sleepaddr := sleepaddr[cur := next.addr];
      }
      if next.Exit? {
        numthreads := numthreads - 1;
      }
    }

    /** The list a thread is to be put on has room for it. */
    ghost predicate Room(next: Op)
      requires Apart()
      reads this, runqueue, runqueue.data, sleepers, zombies
    {
      curthread.Some? ==>
        && (next.Yield? ==> !runqueue.Full())
        && (next.Sleep? ==> sleepers.num < sleepers.v.Length)
        && (next.Exit? ==> zombies.num < zombies.v.Length)
    }

    /** mi_switch(), up to the call of scheduler(). The state to go to is given as the step. Nothing
        happens when a timer interrupt comes while the scheduler waits. ok is false when the assertion
        that the thread could be put on its list fails: exactly when its list has no room and there is
        no memory, and so never for a thread going to sleep once thread_fork() has made room. */
    method Stash(next: Op, memory: bool) returns (ok: bool)
      requires Valid() && (next.Yield? || next.Sleep? || next.Exit?)
      modifies this, runqueue, runqueue.data, sleepers, sleepers.v, zombies, zombies.v
      ensures ok <==> memory || old(Room(next))
      ensures next.Sleep? && old(RoomToSleep()) ==> ok
      ensures ok ==> Valid() && Own() && (old(RoomToSleep()) ==> RoomToSleep())
      ensures ok ==> State() == if Enabled(old(State()), next) then Step(old(State()), next) else old(State())
    {
      if curthread.None? {
        return true;
      }
      StepKeepsInv(State(), next);
      var cur := Leave(next);
      match next {
        case Yield => ok := MakeRunnable(cur, memory);
        case Sleep(addr) => ok := AddSleeper(cur, memory);
        case Exit => ok := AddZombie(cur, memory);
        case _ => assert false;
      }
    }

    /** exorcise(): thread_destroy() every zombie. The assertions that none of them is running and that
        shrinking the array cannot fail hold. */
    method Exorcise() returns (destroyed: seq<nat>)
      requires Apart() && (curthread.Some? ==> curthread.value !in State().zombies)
      modifies zombies
      ensures Apart() && destroyed == old(State()).zombies && State() == old(State()).(zombies := [])
      ensures zombies.v == old(zombies.v) || fresh(zombies.v)
    {
      destroyed := [];
      for i := 0 to zombies.num
        invariant Apart() && zombies.v == old(zombies.v) && State() == old(State())
        invariant destroyed == zombies.Contents()[..i]
      {
        var z := zombies.GetGuy(i);
        assert curthread != Some(z);
        destroyed := destroyed + [z];
      }
      var result := zombies.SetSize(0, false);
      assert result;
    }

    /** scheduler() returns and the switch is completed; back says whether the thread chosen had been
        switched away from before. What is destroyed are the zombies, and never the thread that runs. */
    method Dispatch(back: bool) returns (destroyed: seq<nat>)
      requires Valid() && Enabled(State(), Op.Dispatch) && back == (State().ready[0] in started)
      modifies this, runqueue, zombies
      ensures Valid() && Own() && State() == Step(old(State()), Op.Dispatch) && (old(RoomToSleep()) ==> RoomToSleep())
      ensures destroyed == (if back then old(State()).zombies else []) && curthread.value !in destroyed
    {
      ghost var s := State();
      StepKeepsInv(s, Op.Dispatch);
      NotZombie(s, s.ready[0]);
      destroyed := [];
      var next := runqueue.RemHead();
      assert s.ready[1..] == runqueue.Contents();
      curthread := Some(next);
      started := started + {next};
      if back {
        destroyed := Exorcise();
      }
    }

    /** thread_wakeup(); ok is false when the assertion that a sleeper could be made runnable fails:
        exactly when the ring cannot hold all that are woken and there is no memory. */
    method Wakeup(addr: nat, one: bool, memory: bool) returns (ok: bool)
      requires Valid()
      modifies runqueue, runqueue.data, sleepers, sleepers.v
      ensures ok <==> memory || |Step(old(State()), Op.Wakeup(addr, one)).ready| < old(runqueue.size)
      ensures ok ==> Valid() && Own() && State() == Step(old(State()), Op.Wakeup(addr, one)) && (old(RoomToSleep()) ==> RoomToSleep())
    {
      ghost var s := State();
      StepKeepsInv(s, Op.Wakeup(addr, one));
      ok := WakeSleepers(addr, one, memory);
      if ok {
        assert State() == Step(s, Op.Wakeup(addr, one));
      }
    }

    /** The loop of thread_wakeup(), which leaves the zombies alone. */
    method WakeSleepers(addr: nat, one: bool, memory: bool) returns (ok: bool)
      requires Apart() && |State().ready| + |State().sleepers| < MANY && runqueue.size <= 2 * MANY + 1
      modifies runqueue, runqueue.data, sleepers, sleepers.v
      ensures ok <==> memory || |old(State()).ready| + |Wake(old(sleepers.Contents()), sleepaddr, addr, one).woken| < old(runqueue.size)
      ensures Apart() && runqueue.size <= 2 * MANY + 1 && sleepers.v == old(sleepers.v)
      ensures runqueue.data == old(runqueue.data) || fresh(runqueue.data)
      ensures zombies.Contents() == old(zombies.Contents())
      ensures ok ==> var r := Wake(old(sleepers.Contents()), sleepaddr, addr, one);
                sleepers.Contents() == r.left && runqueue.Contents() == old(runqueue.Contents()) + r.woken
    {
      ok := WakeAll(runqueue, sleepers, sleepaddr, addr, one, memory);
    }
  }

  // ---------------------------------------------------------------- runs of the code

  /** The first n operations but for those that failed with an error. */
  ghost function Carried(ops: seq<Op>, failed: set<nat>, n: nat): (r: seq<Op>)
    requires n <= |ops|
    ensures failed == {} ==> r == ops[..n]
  {
    if n == 0 then []
    else
      var r := Carried(ops, failed, n - 1);
      if n - 1 in failed then r else r + [ops[n - 1]]
  }

  lemma {:induction false} CarriedFrame(ops: seq<Op>, a: set<nat>, n: nat, i: nat)
    requires n <= i && n <= |ops|
    ensures Carried(ops, a + {i}, n) == Carried(ops, a, n)
  {
    if n > 0 {
      CarriedFrame(ops, a, n - 1, i);
    }
  }

  /** Operation n is done, or has failed. */
  lemma RunGoesOn(s: Sys, ops: seq<Op>, failed: set<nat>, n: nat)
    requires n < |ops| && n !in failed
    ensures var p := Run(s, Carried(ops, failed, n));
            && Run(s, Carried(ops, failed, n + 1)) == (if Enabled(p, ops[n]) then Step(p, ops[n]) else p)
            && Run(s, Carried(ops, failed + {n}, n + 1)) == p
  {
    var before := Carried(ops, failed, n);
    assert (before + [ops[n]])[..|before|] == before;
    CarriedFrame(ops, failed, n, n);
  }

  /** The threads to be forked from i on are new. */
  ghost predicate AllNew(s: Sys, ops: seq<Op>, i: nat) {
    && (forall j :: i <= j < |ops| && ops[j].Fork? ==> Everywhere(s, ops[j].t) == 0)
    && (forall j, k :: i <= j < k < |ops| && ops[j].Fork? && ops[k].Fork? ==> ops[j].t != ops[k].t)
  }

  lemma StaysAway(s: Sys, op: Op, t: nat)
    requires Enabled(s, op) && Everywhere(s, t) == 0 && op != Op.Fork(t)
    ensures Everywhere(Step(s, op), t) == 0
  {
    StepLive(s, op, t);
    if op.Exit? {
      TimesCat(s.zombies, [s.cur.value], t);
    }
  }

  lemma StayNew(s: Sys, ops: seq<Op>, i: nat)
    requires i < |ops| && AllNew(s, ops, i)
    ensures AllNew(s, ops, i + 1) && (Enabled(s, ops[i]) ==> AllNew(Step(s, ops[i]), ops, i + 1))
  {
    if Enabled(s, ops[i]) {
      forall j | i + 1 <= j < |ops| && ops[j].Fork?
        ensures Everywhere(Step(s, ops[i]), ops[j].t) == 0
      {
        StaysAway(s, ops[i], ops[j].t);
      }
    }
  }

  ghost predicate Fails(ops: seq<Op>, grants: seq<nat>, failed: set<nat>, n: nat)
    requires |grants| == |ops|
  {
    n <= |ops| && forall i :: i in failed ==> i < n && ops[i].Fork? && grants[i] < 4
  }

  /** Where a run of the code has come to after n operations: p is the state. */
  ghost predicate Going(s: Sys, p: Sys, ops: seq<Op>, grants: seq<nat>, failed: set<nat>, n: nat)
    requires |grants| == |ops|
  {
    Fails(ops, grants, failed, n) && p == Run(s, Carried(ops, failed, n)) && AllNew(p, ops, n)
  }

  lemma GoesOn(s: Sys, p: Sys, ops: seq<Op>, grants: seq<nat>, failed: set<nat>, n: nat)
    requires |grants| == |ops| && Going(s, p, ops, grants, failed, n) && n < |ops|
    ensures Going(s, if Enabled(p, ops[n]) then Step(p, ops[n]) else p, ops, grants, failed, n + 1)
    ensures ops[n].Fork? && grants[n] < 4 ==> Going(s, p, ops, grants, failed + {n}, n + 1)
  {
    StayNew(p, ops, n);
    RunGoesOn(s, ops, failed, n);
  }

  lemma AllCarried(ops: seq<Op>, grants: seq<nat>, failed: set<nat>)
    requires |grants| == |ops| && Fails(ops, grants, failed, |ops|)
    ensures (forall i :: 0 <= i < |ops| ==> grants[i] >= 4) ==> Carried(ops, failed, |ops|) == ops
  {
    assert ops[..|ops|] == ops;
    if forall i :: 0 <= i < |ops| ==> grants[i] >= 4 {
      assert failed == {};
    }
  }

  datatype Done = Well | Error | AssertionFails

  method TryDispatch(sys: ThreadSystem, ran: set<nat>) returns (ran': set<nat>)
    requires sys.Valid() && ran == sys.started
    modifies sys, sys.runqueue, sys.zombies
    ensures sys.Valid() && sys.Own() && ran' == sys.started && sys.numthreads == old(sys.numthreads)
    ensures sys.State() == if Enabled(old(sys.State()), Op.Dispatch) then Step(old(sys.State()), Op.Dispatch) else old(sys.State())
  {
    ran' := ran;
    var empty := sys.runqueue.Empty();
    if sys.curthread.None? && !empty {
      var next := sys.runqueue.Head();
      var destroyed := sys.Dispatch(next in ran);
      ran' := ran + {next};
    }
  }

  /** One step of the code; ran are the threads that have run before. A fork without memory is an error
      that changes nothing; elsewhere an assertion fails. */
  method StepCode(sys: ThreadSystem, op: Op, grants: nat, ran: set<nat>) returns (r: Done, ran': set<nat>)
    requires sys.Valid() && sys.numthreads + 1 < MANY && ran == sys.started
    requires op.Fork? ==> Everywhere(sys.State(), op.t) == 0
    modifies sys, sys.runqueue, sys.runqueue.data, sys.sleepers, sys.sleepers.v, sys.zombies, sys.zombies.v
    ensures r.Well? || grants < 4
    ensures !r.AssertionFails? ==> sys.Valid() && sys.Own() && ran' == sys.started && sys.numthreads <= old(sys.numthreads) + 1
    ensures r.Well? ==> sys.State() == if Enabled(old(sys.State()), op) then Step(old(sys.State()), op) else old(sys.State())
    ensures r.Error? ==> op.Fork? && sys.State() == old(sys.State())
    ensures r.AssertionFails? ==> !op.Fork? && !op.Dispatch? && grants == 0
  {
    r, ran' := Well, ran;
    match op {
      case Fork(t) =>
        if sys.curthread.Some? {
          var error := sys.Fork(t, grants);
          if error {
            r := Error;
          } else {
            ran' := ran - {t};
          }
        }
      case Dispatch => ran' := TryDispatch(sys, ran);
      case Wakeup(addr, one) =>
        var ok := sys.Wakeup(addr, one, grants > 0);
        r := if ok then Well else AssertionFails;
      case _ =>
        var ok := sys.Stash(op, grants > 0);
        r := if ok then Well else AssertionFails;
    }
  }

  /** Operation n of a run. */
  method TurnCode(sys: ThreadSystem, ghost s: Sys, ops: seq<Op>, grants: seq<nat>, failed: set<nat>, n: nat, ran: set<nat>)
      returns (ok: bool, failed': set<nat>, ran': set<nat>)
    requires sys.Valid() && sys.numthreads + 1 < MANY && ran == sys.started
    requires |grants| == |ops| && n < |ops| && Going(s, sys.State(), ops, grants, failed, n)
    modifies sys, sys.runqueue, sys.runqueue.data, sys.sleepers, sys.sleepers.v, sys.zombies, sys.zombies.v
    ensures ok ==> sys.Valid() && sys.Own() && ran' == sys.started && sys.numthreads <= old(sys.numthreads) + 1
    ensures ok ==> Going(s, sys.State(), ops, grants, failed', n + 1)
    ensures !ok ==> grants[n] == 0 && !ops[n].Fork? && !ops[n].Dispatch?
  {
    GoesOn(s, sys.State(), ops, grants, failed, n);
    var r;
    r, ran' := StepCode(sys, ops[n], grants[n], ran);
    ok := !r.AssertionFails?;
    failed' := if r.Error? then failed + {n} else failed;
  }

  /** A run from operation n on. */
  method RunFrom(sys: ThreadSystem, ghost s: Sys, ops: seq<Op>, grants: seq<nat>, failed: set<nat>, n: nat, ran: set<nat>)
      returns (n': nat, failed': set<nat>)
    requires sys.Valid() && sys.numthreads + |ops| - n < MANY && ran == sys.started
    requires |grants| == |ops| && n <= |ops| && Going(s, sys.State(), ops, grants, failed, n)
    modifies sys, sys.runqueue, sys.runqueue.data, sys.sleepers, sys.sleepers.v, sys.zombies, sys.zombies.v
    ensures n' <= |ops| && Fails(ops, grants, failed', n')
    ensures n' == |ops| ==> sys.Valid() && Going(s, sys.State(), ops, grants, failed', n')
    ensures n' < |ops| ==> grants[n'] == 0 && !ops[n'].Fork? && !ops[n'].Dispatch?
    decreases |ops| - n
  {
    n', failed' := n, failed;
    if n < |ops| {
      var ok, more, now := TurnCode(sys, s, ops, grants, failed, n, ran);
      if ok {
        n', failed' := RunFrom(sys, s, ops, grants, more, n + 1, now);
      }
    }
  }

  /** A run of the code, with any number of requests for memory granted in each step, is the run of the
      machine without the forks that failed, up to the step whose assertion fails if there is one. With
      memory it is any run of the machine. So what is shown of every run, that each thread is in one
      place and that the run queue is served in order, holds of the ring buffer, the arrays and the
      loops over them. */
  method RunCode(sys: ThreadSystem, ops: seq<Op>, grants: seq<nat>, ran: set<nat>) returns (n: nat, failed: set<nat>)
    requires sys.Valid() && sys.numthreads + |ops| < MANY && ran == sys.started && |grants| == |ops| && AllNew(sys.State(), ops, 0)
    modifies sys, sys.runqueue, sys.runqueue.data, sys.sleepers, sys.sleepers.v, sys.zombies, sys.zombies.v
    ensures Fails(ops, grants, failed, n)
    ensures n == |ops| ==> sys.Valid() && sys.State() == Run(old(sys.State()), Carried(ops, failed, n))
    ensures n < |ops| ==> grants[n] == 0 && !ops[n].Fork? && !ops[n].Dispatch?
    ensures (forall i :: 0 <= i < |ops| ==> grants[i] >= 4) ==> n == |ops| && Carried(ops, failed, n) == ops
  {
    n, failed := RunFrom(sys, sys.State(), ops, grants, {}, 0, ran);
    if n == |ops| {
      AllCarried(ops, grants, failed);
    }
  }
}
