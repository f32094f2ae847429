/** Semaphores, locks and the lock hand-off of condition variables (synch.c) on top of the thread
    system. A step is an interrupts-off section: a call that has to wait is a thread whose test is
    repeated each time it runs. */
module Synch {
  import T = Threads

  /** holders are the threads that acquired a lock and have not released it. */
  datatype Obj = Sem(count: int) | Lock(count: int, holders: set<nat>) | Cv(signal: int)

  /** What a thread is in the middle of. */
  datatype Act = Free | InP(sem: nat) | InAcquire(lock: nat) | InWait(cv: nat, relock: nat)

  datatype World = World(sys: T.Sys, objs: map<nat, Obj>, act: map<nat, Act>)

  datatype Op =
    | Thread(op: T.Op)          // a step of the thread system that has nothing to do with the objects
    | P(a: nat) | Acquire(a: nat) | Test // a call begins; the running thread tests and sleeps or goes on
    | V(a: nat) | Release(a: nat)
    | Wait(c: nat, l: nat) | Signal(c: nat) | Broadcast(c: nat)

  function ActOf(w: World, t: nat): Act { if t in w.act then w.act[t] else Free }

  predicate Idle(w: World) { w.sys.cur.Some? && ActOf(w, w.sys.cur.value).Free? }

  predicate IsSem(w: World, a: nat) { a in w.objs && w.objs[a].Sem? }

  predicate IsLock(w: World, a: nat) { a in w.objs && w.objs[a].Lock? }

  predicate IsCv(w: World, a: nat) { a in w.objs && w.objs[a].Cv? }

  predicate HeldBy(w: World, l: nat, t: nat) { IsLock(w, l) && t in w.objs[l].holders }

  /** Only holders release. Interrupt handlers, too, may use V and the condition variables. */
  predicate Enabled(w: World, op: Op) {
    match op
    case Thread(o) =>
      && T.Enabled(w.sys, o)
      && (o.Fork? || o.Exit? ==> Idle(w))
      && (o.Sleep? ==> Idle(w) && o.addr !in w.objs)
      && (o.Wakeup? ==> o.addr !in w.objs)
    case P(a) => Idle(w) && IsSem(w, a)
    case Acquire(a) => Idle(w) && IsLock(w, a)
    case Test => w.sys.cur.Some? && !Idle(w) && ActOk(w, ActOf(w, w.sys.cur.value))
    case V(a) => IsSem(w, a)
    case Release(l) => Idle(w) && HeldBy(w, l, w.sys.cur.value)
    case Wait(c, l) => Idle(w) && IsCv(w, c) && HeldBy(w, l, w.sys.cur.value)
    case Signal(c) => IsCv(w, c)
    case Broadcast(c) => IsCv(w, c)
  }

  predicate ActOk(w: World, act: Act) {
    match act
    case Free => true
    case InP(a) => IsSem(w, a)
    case InAcquire(l) => IsLock(w, l)
    case InWait(c, l) => IsCv(w, c) && IsLock(w, l)
  }

  function Doing(w: World, t: nat, act: Act): World { w.(act := w.act[t := act]) }

  function SleepOn(w: World, a: nat): World
    requires w.sys.cur.Some?
  {
    w.(sys := T.Step(w.sys, T.Sleep(a)))
  }

  function WakeOn(w: World, a: nat, one: bool): World { w.(sys := T.Step(w.sys, T.Wakeup(a, one))) }

  function Put(w: World, a: nat, o: Obj): World { w.(objs := w.objs[a := o]) }

  function Unlock(w: World, l: nat, t: nat): World
    requires IsLock(w, l)
  {
    WakeOn(Put(w, l, Lock(w.objs[l].count + 1, w.objs[l].holders - {t})), l, false)
  }

  /** One trip round the waiting loop of P(), lock_acquire() or cv_wait(). */
  function Try(w: World, t: nat, act: Act): World
    requires w.sys.cur == T.Some(t) && ActOk(w, act)
  {
    match act
    case Free => w
    case InP(a) =>
      var o := w.objs[a];
      if o.count == 0 then SleepOn(w, a) else Doing(Put(w, a, Sem(o.count - 1)), t, Free)
    case InAcquire(l) =>
      var o := w.objs[l];
      if o.count == 0 then SleepOn(w, l) else Doing(Put(w, l, Lock(o.count - 1, o.holders + {t})), t, Free)
    case InWait(c, l) =>
      if w.objs[c].signal == 0 then SleepOn(w, c) else Doing(Put(w, c, Cv(0)), t, InAcquire(l))
  }

  function Step(w: World, op: Op): World
    requires Enabled(w, op)
  {
    match op
    case Thread(o) =>
      var w' := w.(sys := T.Step(w.sys, o));
      if o.Fork? then Doing(w', o.t, Free) else w'
    case P(a) => Doing(w, w.sys.cur.value, InP(a))
    case Acquire(l) => Doing(w, w.sys.cur.value, InAcquire(l))
    case Test => Try(w, w.sys.cur.value, ActOf(w, w.sys.cur.value))
    case V(a) => WakeOn(Put(w, a, Sem(w.objs[a].count + 1)), a, false)
    case Release(l) => Unlock(w, l, w.sys.cur.value)
    case Wait(c, l) => Doing(Unlock(w, l, w.sys.cur.value), w.sys.cur.value, InWait(c, l))
    case Signal(c) => WakeOn(Put(w, c, Cv(1)), c, true)
    case Broadcast(c) => WakeOn(Put(w, c, Cv(1)), c, false)
  }

  // ---------------------------------------------------------------- what every step keeps

  predicate ObjOk(o: Obj) {
    match o
    case Sem(n) => n >= 0
    case Lock(n, hs) => n >= 0 && n + |hs| == 1
    case Cv(sig) => sig == 0 || sig == 1
  }

  /** Sleeping on this is not a lost wakeup. */
  predicate Closed(o: Obj) { o.Cv? || o.count == 0 }

  predicate SleeperOk(w: World, t: nat) {
    t in w.sys.sleepers ==> t in w.sys.sleepaddr && (w.sys.sleepaddr[t] in w.objs ==> Closed(w.objs[w.sys.sleepaddr[t]]))
  }

  ghost predicate Inv(w: World) {
    && T.Inv(w.sys)
    && (forall a {:trigger w.objs[a]} :: a in w.objs ==> ObjOk(w.objs[a]))
    && (forall t {:trigger SleeperOk(w, t)} :: SleeperOk(w, t))
    && (forall t {:trigger ActOf(w, t)} :: ActOk(w, ActOf(w, t)))
  }

  /** Waking everybody who sleeps on an object lets its count change at will. */
  lemma OpenUp(w: World, a: nat, o: Obj, t: nat)
    requires Inv(w)
    ensures SleeperOk(WakeOn(Put(w, a, o), a, false), t)
  {
    assert SleeperOk(w, t);
    T.WakeMeans(w.sys.sleepers, w.sys.sleepaddr, a, false);
  }

  /** A change that leaves an object closed, or takes from one that is open, disturbs nobody asleep. */
  lemma ShutDown(w: World, a: nat, o: Obj, one: bool, t: nat)
    requires Inv(w) && a in w.objs && (Closed(o) || !Closed(w.objs[a]))
    ensures SleeperOk(Put(w, a, o), t) && SleeperOk(WakeOn(Put(w, a, o), a, one), t)
  {
    assert SleeperOk(w, t);
    T.WakeMeans(w.sys.sleepers, w.sys.sleepaddr, a, one);
  }

  /** Other steps of the thread system. */
  lemma Elsewhere(w: World, o: T.Op, t: nat)
    requires Inv(w) && T.Enabled(w.sys, o)
    requires o.Sleep? && o.addr in w.objs ==> Closed(w.objs[o.addr])
    ensures SleeperOk(w.(sys := T.Step(w.sys, o)), t)
  {
    assert SleeperOk(w, t);
    if o.Wakeup? {
      T.WakeMeans(w.sys.sleepers, w.sys.sleepaddr, o.addr, o.one);
    } else if o.Sleep? && t == w.sys.cur.value {
    }
  }

  lemma StepSleepers(w: World, op: Op, t: nat)
    requires Inv(w) && Enabled(w, op)
    ensures SleeperOk(Step(w, op), t)
  {
    assert SleeperOk(w, t);
    match op
    case Thread(o) => Elsewhere(w, o, t);
    case V(a) => OpenUp(w, a, Sem(w.objs[a].count + 1), t);
    case Release(l) => OpenUp(w, l, Lock(w.objs[l].count + 1, w.objs[l].holders - {w.sys.cur.value}), t);
    case Wait(c, l) => OpenUp(w, l, Lock(w.objs[l].count + 1, w.objs[l].holders - {w.sys.cur.value}), t);
    case Signal(c) => ShutDown(w, c, Cv(1), true, t);
    case Broadcast(c) => ShutDown(w, c, Cv(1), false, t);
    case Test => TrySleepers(w, ActOf(w, w.sys.cur.value), t);
    case _ =>
  }

  lemma TrySleepers(w: World, act: Act, t: nat)
    requires Inv(w) && w.sys.cur.Some? && ActOk(w, act)
    ensures SleeperOk(Try(w, w.sys.cur.value, act), t)
  {
    assert SleeperOk(w, t);
    match act
    case Free =>
    case InP(a) =>
      var o := w.objs[a];
      if o.count == 0 { Elsewhere(w, T.Sleep(a), t); } else { ShutDown(w, a, Sem(o.count - 1), true, t); }
    case InAcquire(l) =>
      var o := w.objs[l];
      if o.count == 0 { Elsewhere(w, T.Sleep(l), t); } else { ShutDown(w, l, Lock(o.count - 1, o.holders + {w.sys.cur.value}), true, t); }
    case InWait(c, l) =>
      if w.objs[c].signal == 0 { Elsewhere(w, T.Sleep(c), t); } else { ShutDown(w, c, Cv(0), true, t); }
  }

  predicate SameSort(o: Obj, p: Obj) { o.Sem? == p.Sem? && o.Lock? == p.Lock? && o.Cv? == p.Cv? }

  lemma UnlockOk(n: int, hs: set<nat>, t: nat)
    requires ObjOk(Lock(n, hs)) && t in hs
    ensures ObjOk(Lock(n + 1, hs - {t}))
  {
  }

  lemma LockOk(n: int, hs: set<nat>, t: nat)
    requires ObjOk(Lock(n, hs)) && n != 0
    ensures ObjOk(Lock(n - 1, hs + {t}))
  {
    assert hs == {};
  }

  lemma UnlockPuts(w: World, l: nat) returns (o: Obj)
    requires Inv(w) && w.sys.cur.Some? && HeldBy(w, l, w.sys.cur.value)
    ensures Unlock(w, l, w.sys.cur.value).objs == w.objs[l := o] && ObjOk(o) && o.Lock?
  {
    var n, hs, t := w.objs[l].count, w.objs[l].holders, w.sys.cur.value;
    UnlockOk(n, hs, t);
    o := Lock(n + 1, hs - {t});
  }

  /** A step changes one object at most, and to one of the same sort. */
  lemma StepPuts(w: World, op: Op) returns (x: nat, o: Obj)
    requires Inv(w) && Enabled(w, op)
    ensures Step(w, op).objs == w.objs
            || (x in w.objs && Step(w, op).objs == w.objs[x := o] && ObjOk(o) && SameSort(o, w.objs[x]))
  {
    x, o := 0, Cv(0);
    match op
    case V(a) => x, o := a, Sem(w.objs[a].count + 1);
    case Release(l) =>
      x := l;
      o := UnlockPuts(w, l);
    case Wait(c, l) =>
      x := l;
      o := UnlockPuts(w, l);
    case Signal(c) => x, o := c, Cv(1);
    case Broadcast(c) => x, o := c, Cv(1);
    case Test => x, o := TryPuts(w, ActOf(w, w.sys.cur.value));
    case _ =>
  }

  lemma TryPuts(w: World, act: Act) returns (x: nat, o: Obj)
    requires Inv(w) && w.sys.cur.Some? && ActOk(w, act)
    ensures var objs := Try(w, w.sys.cur.value, act).objs;
            objs == w.objs || (x in w.objs && objs == w.objs[x := o] && ObjOk(o) && SameSort(o, w.objs[x]))
  {
    x, o := 0, Cv(0);
    match act
    case InP(a) =>
      assert ObjOk(w.objs[a]);
      x, o := a, Sem(w.objs[a].count - 1);
    case InAcquire(l) =>
      if w.objs[l].count != 0 {
        LockOk(w.objs[l].count, w.objs[l].holders, w.sys.cur.value);
      }
      x, o := l, Lock(w.objs[l].count - 1, w.objs[l].holders + {w.sys.cur.value});
    case InWait(c, l) => x, o := c, Cv(0);
    case Free =>
  }

  lemma StepObjects(w: World, op: Op, a: nat)
    requires Inv(w) && Enabled(w, op)
    ensures a in Step(w, op).objs <==> a in w.objs
    ensures a in w.objs ==> ObjOk(Step(w, op).objs[a]) && SameSort(Step(w, op).objs[a], w.objs[a])
  {
    var x, o := StepPuts(w, op);
    if a in w.objs {
      assert ObjOk(w.objs[a]);
    }
  }

  lemma StepSys(w: World, op: Op)
    requires Inv(w) && Enabled(w, op)
    ensures T.Inv(Step(w, op).sys)
  {
    match op
    case Thread(o) => T.StepKeepsInv(w.sys, o);
    case Test =>
      var act := ActOf(w, w.sys.cur.value);
      match act {
        case InP(a) => T.StepKeepsInv(w.sys, T.Sleep(a));
        case InAcquire(a) => T.StepKeepsInv(w.sys, T.Sleep(a));
        case InWait(c, l) => T.StepKeepsInv(w.sys, T.Sleep(c));
        case Free =>
      }
    case V(a) => T.StepKeepsInv(w.sys, T.Wakeup(a, false));
    case Release(l) => T.StepKeepsInv(w.sys, T.Wakeup(l, false));
    case Wait(c, l) => T.StepKeepsInv(w.sys, T.Wakeup(l, false));
    case Signal(c) => T.StepKeepsInv(w.sys, T.Wakeup(c, true));
    case Broadcast(c) => T.StepKeepsInv(w.sys, T.Wakeup(c, false));
    case _ =>
  }

  lemma StepActs(w: World, op: Op, t: nat)
    requires Inv(w) && Enabled(w, op)
    ensures ActOk(Step(w, op), ActOf(Step(w, op), t))
  {
    var act := ActOf(w, t);
    assert ActOk(w, act);
    match act
    case Free =>
    case InP(a) => StepObjects(w, op, a);
    case InAcquire(l) => StepObjects(w, op, l);
    case InWait(c, l) => StepObjects(w, op, c); StepObjects(w, op, l);
  }

  lemma StepKeepsInv(w: World, op: Op)
    requires Inv(w) && Enabled(w, op)
    ensures Inv(Step(w, op))
  {
    var w' := Step(w, op);
    StepSys(w, op);
    forall a {:trigger w'.objs[a]} | a in w'.objs
      ensures ObjOk(w'.objs[a])
    {
      StepObjects(w, op, a);
    }
    forall t: nat
      ensures SleeperOk(w', t)
    {
      StepSleepers(w, op, t);
    }
    forall t: nat
      ensures ActOk(w', ActOf(w', t))
    {
      StepActs(w, op, t);
    }
  }

  // ---------------------------------------------------------------- what each call does

  predicate SleepsOn(s: T.Sys, t: nat, a: nat) { t in s.sleepers && T.On(s.sleepaddr, t, a) }

  /** No object but a is different; no thread but t is in the middle of something else. */
  ghost predicate OnlyObj(w: World, w': World, a: nat) {
    w'.objs.Keys == w.objs.Keys && forall x :: x in w.objs && x != a ==> w'.objs[x] == w.objs[x]
  }

  ghost predicate OnlyAct(w: World, w': World, t: nat) { forall u: nat :: u != t ==> ActOf(w', u) == ActOf(w, u) }

  /** Object a was opened to all: nobody sleeps on it, who did can run, and the others sleep on. */
  ghost predicate Opened(s: T.Sys, s': T.Sys, a: nat) {
    && s'.cur == s.cur
    && (forall t: nat :: !SleepsOn(s', t, a))
    && (forall t: nat :: SleepsOn(s, t, a) ==> t in s'.ready)
    && (forall t, b: nat :: b != a ==> (SleepsOn(s', t, b) <==> SleepsOn(s, t, b)))
  }

  lemma WakeOpens(w: World, a: nat, o: Obj)
    ensures Opened(w.sys, WakeOn(Put(w, a, o), a, false).sys, a)
  {
    forall t: nat
      ensures t in T.Step(w.sys, T.Wakeup(a, false)).sleepers <==> t in w.sys.sleepers && !T.On(w.sys.sleepaddr, t, a)
      ensures SleepsOn(w.sys, t, a) ==> t in T.Step(w.sys, T.Wakeup(a, false)).ready
    {
      T.WakeupEnds(w.sys, a, t);
    }
  }

  /** V(): the count goes up by one and nobody is left asleep. */
  lemma VOpens(w: World, a: nat)
    requires Inv(w) && Enabled(w, V(a))
    ensures var w' := Step(w, V(a));
            && IsSem(w', a) && w'.objs[a].count == w.objs[a].count + 1
            && Opened(w.sys, w'.sys, a) && OnlyObj(w, w', a) && w'.act == w.act
  {
    WakeOpens(w, a, Sem(w.objs[a].count + 1));
  }

  lemma OneHolder(n: int, hs: set<nat>, t: nat)
    requires ObjOk(Lock(n, hs)) && t in hs
    ensures n == 0 && hs == {t}
  {
    assert |hs - {t}| == |hs| - 1;
  }

  /** lock_release(), and the release in cv_wait(): the lock is free, held by nobody, and nobody is left
      asleep on it. The caller goes on, or begins to wait. */
  lemma ReleaseOpens(w: World, op: Op, l: nat)
    requires Inv(w) && Enabled(w, op) && (op == Release(l) || (op.Wait? && op.l == l))
    ensures var w' := Step(w, op);
            && HeldBy(w, l, w.sys.cur.value)
            && IsLock(w', l) && w'.objs[l].count == 1 && w'.objs[l].holders == {}
            && Opened(w.sys, w'.sys, l) && OnlyObj(w, w', l) && OnlyAct(w, w', w.sys.cur.value)
            && ActOf(w', w.sys.cur.value) == if op.Wait? then InWait(op.c, l) else Free
  {
    var n, hs, t := w.objs[l].count, w.objs[l].holders, w.sys.cur.value;
    OneHolder(n, hs, t);
    WakeOpens(w, l, Lock(n + 1, hs - {t}));
  }

  /** The running thread has gone to sleep on a and is in the middle of what it was. */
  ghost predicate FellAsleep(w: World, w': World, t: nat, a: nat) {
    && w'.sys.cur == T.None && SleepsOn(w'.sys, t, a) && w'.sys.ready == w.sys.ready
    && w'.objs == w.objs && w'.act == w.act
    && forall u: nat, b: nat :: u != t ==> (SleepsOn(w'.sys, u, b) <==> SleepsOn(w.sys, u, b))
  }

  lemma FallsAsleep(w: World, t: nat, a: nat)
    requires w.sys.cur == T.Some(t)
    ensures FellAsleep(w, SleepOn(w, a), t, a)
  {
  }

  /** P() and lock_acquire(): at a count of 0 the thread goes to sleep there; otherwise the call returns,
      the count is one less, and a lock has the caller for its holder. */
  lemma TestTakes(w: World, a: nat)
    requires Inv(w) && Enabled(w, Test)
    requires ActOf(w, w.sys.cur.value) == InP(a) || ActOf(w, w.sys.cur.value) == InAcquire(a)
    ensures var w', t := Step(w, Test), w.sys.cur.value;
            if w.objs[a].count == 0 then FellAsleep(w, w', t, a)
            else
              && ActOf(w', t) == Free && OnlyAct(w, w', t) && OnlyObj(w, w', a) && w'.sys == w.sys
              && a in w'.objs && !w'.objs[a].Cv? && w'.objs[a].count == w.objs[a].count - 1
              && (IsLock(w, a) ==> IsLock(w', a) && w'.objs[a].count == 0 && w'.objs[a].holders == {t})
  {
    var t := w.sys.cur.value;
    assert ActOk(w, ActOf(w, t)) && ObjOk(w.objs[a]);
    if w.objs[a].count == 0 {
      FallsAsleep(w, t, a);
    } else if IsLock(w, a) {
      assert w.objs[a].holders == {};
    }
  }

  /** cv_wait() after its release: with no signal the thread goes to sleep on the condition variable;
      otherwise it takes the signal and goes on to get the lock back. */
  lemma TestSignal(w: World, c: nat, l: nat)
    requires Inv(w) && Enabled(w, Test) && ActOf(w, w.sys.cur.value) == InWait(c, l)
    ensures var w', t := Step(w, Test), w.sys.cur.value;
            if w.objs[c].signal == 0 then FellAsleep(w, w', t, c)
            else
              && ActOf(w', t) == InAcquire(l) && OnlyAct(w, w', t) && OnlyObj(w, w', c) && w'.sys == w.sys
              && IsCv(w', c) && w'.objs[c].signal == 0
  {
    assert ActOk(w, ActOf(w, w.sys.cur.value));
    if w.objs[c].signal == 0 {
      FallsAsleep(w, w.sys.cur.value, c);
    }
  }

  /** cv_signal() and cv_broadcast(): the signal is up, and the thread that has slept longest on the
      condition variable, if there is one, can run, or all can. */
  lemma SignalWakes(w: World, c: nat, i: nat)
    requires Inv(w) && IsCv(w, c) && i <= |w.sys.sleepers|
    requires forall j :: 0 <= j < i ==> !T.On(w.sys.sleepaddr, w.sys.sleepers[j], c)
    requires i < |w.sys.sleepers| ==> T.On(w.sys.sleepaddr, w.sys.sleepers[i], c)
    ensures var w' := Step(w, Signal(c));
            && IsCv(w', c) && w'.objs[c].signal == 1 && OnlyObj(w, w', c) && w'.act == w.act && w'.sys.cur == w.sys.cur
            && w'.sys.sleepaddr == w.sys.sleepaddr
            && w'.sys.ready == (if i < |w.sys.sleepers| then w.sys.ready + [w.sys.sleepers[i]] else w.sys.ready)
            && w'.sys.sleepers == (if i < |w.sys.sleepers| then T.Cut(w.sys.sleepers, i) else w.sys.sleepers)
    ensures var w' := Step(w, Broadcast(c));
            && IsCv(w', c) && w'.objs[c].signal == 1 && OnlyObj(w, w', c) && w'.act == w.act && Opened(w.sys, w'.sys, c)
  {
    T.WakeupMeans(w.sys, c, true, i);
    WakeOpens(w, c, Cv(1));
  }

  /** When the calls can be made: the running thread can begin one when it is in no other, whoever holds a
      lock can release it and can wait, what it waits for can always be tested, and anybody can wake. */
  lemma CanCall(w: World, a: nat, c: nat, t: nat)
    requires Inv(w) && w.sys.cur == T.Some(t)
    ensures ActOf(w, t) != Free ==> Enabled(w, Test)
    ensures ActOf(w, t) == Free && IsSem(w, a) ==> Enabled(w, P(a))
    ensures ActOf(w, t) == Free && IsLock(w, a) ==> Enabled(w, Acquire(a))
    ensures ActOf(w, t) == Free && IsLock(w, a) && t in w.objs[a].holders ==> Enabled(w, Release(a)) && (IsCv(w, c) ==> Enabled(w, Wait(c, a)))
    ensures (IsSem(w, a) ==> Enabled(w, V(a))) && (IsCv(w, c) ==> Enabled(w, Signal(c)) && Enabled(w, Broadcast(c)))
  {
    assert ActOk(w, ActOf(w, t));
  }

  /** What the thread system does on its own changes no object, and a forked thread is idle. */
  lemma ThreadActs(w: World, o: T.Op, t: nat)
    requires Inv(w) && Enabled(w, Thread(o))
    ensures var w' := Step(w, Thread(o));
            && w'.sys == T.Step(w.sys, o) && w'.objs == w.objs
            && ActOf(w', t) == if o == T.Fork(t) then Free else ActOf(w, t)
  {
  }

  /** A call of P() or lock_acquire() begins, and nothing else happens. */
  lemma CallBegins(w: World, op: Op)
    requires Inv(w) && Enabled(w, op) && (op.P? || op.Acquire?)
    ensures var w', t := Step(w, op), w.sys.cur.value;
            && ActOf(w', t) == (if op.P? then InP(op.a) else InAcquire(op.a)) && OnlyAct(w, w', t)
            && w'.objs == w.objs && w'.sys == w.sys
  {
  }

  // ---------------------------------------------------------------- every run

  /** Any objects, made by sem_create(), lock_create() and cv_create(), and nobody using them yet. */
  ghost predicate Start(w: World) {
    && (exists boot: nat :: T.Boot(w.sys, boot))
    && w.act == map[]
    && forall a {:trigger w.objs[a]} :: a in w.objs ==>
         match w.objs[a] case Sem(n) => n >= 0 case Lock(n, hs) => n == 1 && hs == {} case Cv(sig) => sig == 0
  }

  /** The state after some steps; a step that is not enabled does nothing. */
  function Run(w: World, ops: seq<Op>): World {
    if ops == [] then w
    else
      var p := Run(w, ops[..|ops| - 1]);
      var op := ops[|ops| - 1];
      if Enabled(p, op) then Step(p, op) else p
  }

  /** The calls of V() and of P() on a semaphore that were completed. */
  function Vs(w: World, ops: seq<Op>, a: nat): nat {
    if ops == [] then 0
    else
      var n := |ops| - 1;
      Vs(w, ops[..n], a) + if ops[n] == V(a) && Enabled(Run(w, ops[..n]), ops[n]) then 1 else 0
  }

  function Ps(w: World, ops: seq<Op>, a: nat): nat {
    if ops == [] then 0
    else
      var n := |ops| - 1;
      Ps(w, ops[..n], a) + if CompletesP(Run(w, ops[..n]), ops[n], a) then 1 else 0
  }

  /** The running thread was inside P() and is not any more. */
  predicate CompletesP(w: World, op: Op, a: nat) {
    && Enabled(w, op) && op.Test?
    && ActOf(w, w.sys.cur.value) == InP(a)
    && ActOf(Step(w, op), w.sys.cur.value) == Free
  }

  lemma {:induction false} RunKeepsInv(w: World, ops: seq<Op>)
    requires Inv(w)
    ensures Inv(Run(w, ops))
  {
    if ops != [] {
      var n := |ops| - 1;
      RunKeepsInv(w, ops[..n]);
      var p := Run(w, ops[..n]);
      if Enabled(p, ops[n]) {
        StepKeepsInv(p, ops[n]);
      }
    }
  }

  lemma StepCounts(w: World, op: Op, a: nat)
    requires Inv(w) && Enabled(w, op) && IsSem(w, a)
    ensures IsSem(Step(w, op), a)
    ensures Step(w, op).objs[a].count == w.objs[a].count + (if op == V(a) then 1 else 0) - if CompletesP(w, op, a) then 1 else 0
  {
    StepObjects(w, op, a);
    if op.Test? {
      assert ActOk(w, ActOf(w, w.sys.cur.value));
    }
  }

  /** A semaphore's count is its initial value plus the completed Vs minus the completed Ps. */
  lemma {:induction false} CountBalances(w: World, ops: seq<Op>, a: nat)
    requires Inv(w) && IsSem(w, a)
    ensures IsSem(Run(w, ops), a)
    ensures Run(w, ops).objs[a].count == w.objs[a].count + Vs(w, ops, a) - Ps(w, ops, a)
  {
    if ops != [] {
      var n := |ops| - 1;
      CountBalances(w, ops[..n], a);
      RunKeepsInv(w, ops[..n]);
      var p := Run(w, ops[..n]);
      if Enabled(p, ops[n]) {
        StepCounts(p, ops[n], a);
      }
    }
  }

  /** A release of lock l: by lock_release() or by cv_wait(). */
  predicate Releases(w: World, op: Op, l: nat) { Enabled(w, op) && (op == Release(l) || (op.Wait? && op.l == l)) }

  /** The running thread was inside lock_acquire() and is not any more. */
  predicate CompletesAcquire(w: World, op: Op, l: nat) {
    && Enabled(w, op) && op.Test?
    && ActOf(w, w.sys.cur.value) == InAcquire(l)
    && ActOf(Step(w, op), w.sys.cur.value) == Free
  }

  /** The releases of a lock by thread t, and the acquisitions it completed; of all threads if t is
      none. */
  function Rels(w: World, ops: seq<Op>, l: nat, t: T.Option): nat {
    if ops == [] then 0
    else
      var n := |ops| - 1;
      var p := Run(w, ops[..n]);
      Rels(w, ops[..n], l, t) + if Releases(p, ops[n], l) && (t.None? || t == p.sys.cur) then 1 else 0
  }

  function Acqs(w: World, ops: seq<Op>, l: nat, t: T.Option): nat {
    if ops == [] then 0
    else
      var n := |ops| - 1;
      var p := Run(w, ops[..n]);
      Acqs(w, ops[..n], l, t) + if CompletesAcquire(p, ops[n], l) && (t.None? || t == p.sys.cur) then 1 else 0
  }

  lemma StepLocks(w: World, op: Op, l: nat, t: nat)
    requires Inv(w) && Enabled(w, op) && IsLock(w, l)
    ensures IsLock(Step(w, op), l)
    ensures Step(w, op).objs[l].count == w.objs[l].count + (if Releases(w, op, l) then 1 else 0) - if CompletesAcquire(w, op, l) then 1 else 0
    ensures HeldBy(Step(w, op), l, t) <==>
              if Releases(w, op, l) && w.sys.cur == T.Some(t) then false
              else if CompletesAcquire(w, op, l) && w.sys.cur == T.Some(t) then true
              else HeldBy(w, l, t)
    ensures Releases(w, op, l) && w.sys.cur == T.Some(t) ==> HeldBy(w, l, t)
    ensures CompletesAcquire(w, op, l) && w.sys.cur == T.Some(t) ==> !HeldBy(w, l, t)
  {
    StepObjects(w, op, l);
    assert ObjOk(w.objs[l]);
    if Releases(w, op, l) {
      ReleaseOpens(w, op, l);
      OneHolder(w.objs[l].count, w.objs[l].holders, w.sys.cur.value);
    } else if op.Test? {
      StepLocksTest(w, l, t);
    }
  }

  lemma StepLocksTest(w: World, l: nat, t: nat)
    requires Inv(w) && Enabled(w, Test) && IsLock(w, l) && IsLock(Step(w, Test), l)
    ensures Step(w, Test).objs[l].count == w.objs[l].count - if CompletesAcquire(w, Test, l) then 1 else 0
    ensures HeldBy(Step(w, Test), l, t) <==> (CompletesAcquire(w, Test, l) && w.sys.cur == T.Some(t)) || HeldBy(w, l, t)
    ensures CompletesAcquire(w, Test, l) ==> !HeldBy(w, l, t)
  {
    var act := ActOf(w, w.sys.cur.value);
    assert ActOk(w, act) && ObjOk(w.objs[l]);
    match act
    case InP(a) => TestTakes(w, a);
    case InAcquire(a) => TestTakes(w, a);
    case InWait(c, m) => TestSignal(w, c, m);
    case Free =>
  }

  /** A lock's count is what it was plus the releases less the completed acquisitions, and a thread holds
      it exactly as often as it did, plus its acquisitions less its releases. */
  lemma {:induction false} LockBalances(w: World, ops: seq<Op>, l: nat, t: nat)
    requires Inv(w) && IsLock(w, l)
    ensures IsLock(Run(w, ops), l)
    ensures Run(w, ops).objs[l].count == w.objs[l].count + Rels(w, ops, l, T.None) - Acqs(w, ops, l, T.None)
    ensures (if HeldBy(Run(w, ops), l, t) then 1 else 0) ==
              (if HeldBy(w, l, t) then 1 else 0) + Acqs(w, ops, l, T.Some(t)) - Rels(w, ops, l, T.Some(t))
  {
    if ops != [] {
      var n := |ops| - 1;
      LockBalances(w, ops[..n], l, t);
      RunKeepsInv(w, ops[..n]);
      var p := Run(w, ops[..n]);
      if Enabled(p, ops[n]) {
        StepLocks(p, ops[n], l, t);
      }
    }
  }

  lemma StartInv(w: World)
    requires Start(w)
    ensures Inv(w)
  {
    forall t: nat
      ensures SleeperOk(w, t)
    {
    }
  }

  lemma TwoHold(hs: set<nat>, t: nat, u: nat)
    requires t in hs && u in hs && t != u
    ensures |hs| >= 2
  {
    assert |hs - {t} - {u}| == |hs| - 2;
  }

  /** No wakeup is lost, in any run: who sleeps on a semaphore or a lock sleeps because its count is
      0. A lock's count and its holders make 1, so no two threads ever hold it. */
  lemma NoLostWakeups(w0: World, ops: seq<Op>, t: nat, u: nat, a: nat)
    requires Start(w0)
    ensures var w := Run(w0, ops);
            && (t in w.sys.sleepers && T.On(w.sys.sleepaddr, t, a) && (IsSem(w, a) || IsLock(w, a)) ==> w.objs[a].count == 0)
            && (IsLock(w, a) ==> w.objs[a].count + |w.objs[a].holders| == 1)
            && (HeldBy(w, a, t) && HeldBy(w, a, u) ==> t == u)
  {
    StartInv(w0);
    RunKeepsInv(w0, ops);
    var w := Run(w0, ops);
    assert SleeperOk(w, t);
    if HeldBy(w, a, t) && HeldBy(w, a, u) && t != u {
      TwoHold(w.objs[a].holders, t, u);
    }
  }

  const MAXINT := 0x7fff_ffff

  /** An int after one addition. */
  function Int32(x: int): int { if x > MAXINT then x - 0x1_0000_0000 else x }

  /** The assertions in P(), V(), lock_acquire(), lock_release() and cv_wait(), at the step about to be
      taken. */
  predicate Asserts(w: World, op: Op)
    requires Enabled(w, op)
  {
    match op
    case V(a) => Int32(w.objs[a].count + 1) > 0
    case Release(l) => w.objs[l].count + 1 == 1
    case Wait(c, l) => w.objs[l].count + 1 == 1
    case Test =>
      (match ActOf(w, w.sys.cur.value)
       case InP(a) => w.objs[a].count != 0 ==> w.objs[a].count > 0
       case InAcquire(l) => w.objs[l].count != 0 ==> w.objs[l].count == 1
       case InWait(c, l) => w.objs[c].signal != 0 ==> w.objs[c].signal == 1
       case Free => true)
    case _ => true
  }

  /** Up to the first one that fails, the only assertion that can is V()'s, and it does exactly when the
      count has reached the largest int. */
  lemma NoAssertFails(w0: World, ops: seq<Op>, op: Op)
    requires Start(w0) && Enabled(Run(w0, ops), op) && (op.V? ==> Run(w0, ops).objs[op.a].count <= MAXINT)
    ensures Asserts(Run(w0, ops), op) <==> !(op.V? && Run(w0, ops).objs[op.a].count == MAXINT)
  {
    StartInv(w0);
    RunKeepsInv(w0, ops);
    var w := Run(w0, ops);
    forall a | a in w.objs
      ensures ObjOk(w.objs[a])
    {
    }
    if op.Release? {
      assert w.sys.cur.value in w.objs[op.a].holders && |w.objs[op.a].holders - {w.sys.cur.value}| >= 0;
    } else if op.Wait? {
      assert w.sys.cur.value in w.objs[op.l].holders && |w.objs[op.l].holders - {w.sys.cur.value}| >= 0;
    }
  }
}
