/** The verification queue: one master that adds checks and waits, any number of workers.

    Each critical section is one atomic step, and the execution of a single check is a step of
    its own; steps of different threads interleave in any order, and a sleeping thread may wake
    at any time, notified or not. */
module CheckQueue {

  import opened Basics

  datatype Check = Check(id: nat, ok: bool)

  // ---------------------------------------------------------------- shared fields

  datatype Shared = Shared(queue: seq<Check>, nIdle: int, nTotal: int, allOk: bool, nTodo: int,
                           quit: bool, batchSize: nat)

  function Initial(batchSize: nat, quit: bool): Shared {
    Shared([], 0, 0, true, 0, quit, batchSize)
  }

  /** Entering the lock: a first iteration registers, a later one reports its batch. */
  function Report(q: Shared, nNow: nat, ok: bool): Shared {
    if nNow != 0 then q.(allOk := q.allOk && ok, nTodo := q.nTodo - nNow) else q.(nTotal := q.nTotal + 1)
  }

  predicate MayReturn(q: Shared, master: bool) {
    q.queue == [] && (master || q.quit) && q.nTodo == 0
  }

  function Leave(q: Shared, master: bool): Shared {
    q.(nTotal := q.nTotal - 1, allOk := if master then true else q.allOk)
  }

  /** How many checks to take.  The divisor is positive in every reachable state. */
  function BatchCount(q: Shared): int {
    var d := q.nTotal + q.nIdle + 1;
    if d <= 0 then 1 else Max(1, Min(q.batchSize, |q.queue| / d))
  }

  /** The last n checks of the queue, last first. */
  function Batch(queue: seq<Check>, n: nat): (b: seq<Check>)
    requires n <= |queue|
  {
    seq(n, i requires 0 <= i < n => queue[|queue| - 1 - i])
  }

  lemma BatchFits(q: Shared)
    requires q.queue != []
    ensures 1 <= BatchCount(q) <= |q.queue|
  {
    var d := q.nTotal + q.nIdle + 1;
    if d > 0 { Portion(|q.queue|, d); }
  }

  lemma Between(q: int, r: int, d: int, n: int)
    requires d > 0 && n >= 0 && 0 <= r < d && n == q * d + r
    ensures 0 <= q <= n
  {
    if q <= -1 { Scale(q, -1, d); }
    if q >= 0 { Scale(1, d, q); }
  }

  lemma Scale(a: int, b: int, d: int)
    requires a <= b && d >= 0
    ensures a * d <= b * d
  {
    assert b * d == a * d + (b - a) * d;
  }

  lemma Portion(n: nat, d: nat)
    requires d > 0
    ensures 0 <= n / d <= n
  {
    Between(n / d, n % d, d, n);
  }

  lemma {:induction false} BatchSplits(queue: seq<Check>, n: nat)
    requires n <= |queue|
    ensures multiset(queue) == multiset(queue[..|queue| - n]) + multiset(Batch(queue, n))
  {
    if n == 0 {
      assert queue[..|queue|] == queue;
    } else {
      var last := queue[|queue| - 1];
      var rest := queue[..|queue| - 1];
      BatchSplits(rest, n - 1);
      assert queue == rest + [last];
      assert rest[..|rest| - (n - 1)] == queue[..|queue| - n];
      assert Batch(queue, n) == [last] + Batch(rest, n - 1);
    }
  }

  // ---------------------------------------------------------------- threads

  datatype Tid = Master | Worker(n: nat)

  datatype Phase =
    | Outside                                              // not in the loop
    | Ready(batch: seq<Check>, ok: bool)                   // about to take the lock
    | Waiting(notified: bool)                              // asleep on its condition
    | Working(batch: seq<Check>, next: nat, ok: bool)      // executing its batch

  /** `session` holds the checks added since the master last returned, `done` those of them
      already reported, and `log` one entry for every completed Wait. */
  datatype State = State(q: Shared, threads: map<Tid, Phase>, session: seq<Check>,
                         done: multiset<Check>, log: seq<Verdict>)

  datatype Verdict = Verdict(session: seq<Check>, answer: bool)

  datatype Step =
    | Add(checks: seq<Check>)
    | Enter(t: Tid)
    | Lock(t: Tid)
    | Wake(t: Tid)
    | Execute(t: Tid)

  function Start(batchSize: nat, quit: bool, workers: set<Tid>): State {
    State(Initial(batchSize, quit), map t | t in workers + {Master} :: Outside, [], multiset{}, [])
  }

  predicate Enabled(st: State, step: Step) {
    match step
    case Add(_) => Master in st.threads && st.threads[Master].Outside?
    case Enter(t) => t in st.threads && st.threads[t].Outside?
    case Lock(t) => t in st.threads && st.threads[t].Ready?
    case Wake(t) => t in st.threads && st.threads[t].Waiting?
    case Execute(t) => t in st.threads && st.threads[t].Working? && st.threads[t].next < |st.threads[t].batch|
  }

  /** The part of a critical section from the test of the queue on. */
  function Decide(st: State, t: Tid): State
    requires t in st.threads
  {
    var master := t == Master;
    if st.q.queue == [] then
      if MayReturn(st.q, master) then
        var left := st.(q := Leave(st.q, master), threads := st.threads[t := Outside]);
        if master then left.(session := [], done := multiset{}, log := st.log + [Verdict(st.session, st.q.allOk)])
        else left
      else st.(q := st.q.(nIdle := st.q.nIdle + 1), threads := st.threads[t := Waiting(false)])
    else
      BatchFits(st.q);
      var n := BatchCount(st.q);
      st.(q := st.q.(queue := st.q.queue[..|st.q.queue| - n]),
          threads := st.threads[t := Working(Batch(st.q.queue, n), 0, st.q.allOk)])
  }

  /** Wakes the master if it is asleep. */
  function NotifyMaster(threads: map<Tid, Phase>): map<Tid, Phase> {
    if Master in threads && threads[Master].Waiting? then threads[Master := Waiting(true)] else threads
  }

  /** Reports a thread's batch, if it has one. */
  function Reported(st: State, t: Tid): State
    requires t in st.threads && st.threads[t].Ready?
  {
    var Ready(batch, ok) := st.threads[t];
    var q := Report(st.q, |batch|, ok);
    State(q,
          if batch != [] && q.nTodo == 0 && t != Master then NotifyMaster(st.threads[t := Ready([], true)])
          else st.threads[t := Ready([], true)],
          st.session, st.done + multiset(batch), st.log)
  }

  function Next(st: State, step: Step): State
    requires Enabled(st, step)
  {
    match step
    case Add(checks) =>
      st.(q := st.q.(queue := st.q.queue + checks, nTodo := st.q.nTodo + |checks|), session := st.session + checks)
    case Enter(t) => st.(threads := st.threads[t := Ready([], true)])
    case Lock(t) => Decide(Reported(st, t), t)
    case Wake(t) => Decide(st.(q := st.q.(nIdle := st.q.nIdle - 1)), t)
    case Execute(t) =>
      var Working(batch, next, ok) := st.threads[t];
      var ok' := if ok then batch[next].ok else ok;
      st.(threads := st.threads[t := if next + 1 == |batch| then Ready(batch, ok') else Working(batch, next + 1, ok')])
  }

  // ---------------------------------------------------------------- invariant

  /** Checks a thread has taken from the queue and not yet reported. */
  function Held(p: Phase): multiset<Check> {
    if p.Ready? || p.Working? then multiset(p.batch) else multiset{}
  }

  ghost function InFlight(threads: map<Tid, Phase>): multiset<Check>
    decreases |threads|
  {
    if threads == map[] then multiset{} else
    var t :| t in threads;
    Held(threads[t]) + InFlight(threads - {t})
  }

  lemma {:induction false} InFlightAt(threads: map<Tid, Phase>, t: Tid)
    requires t in threads
    ensures InFlight(threads) == Held(threads[t]) + InFlight(threads - {t})
    decreases |threads|
  {
    var u :| u in threads && InFlight(threads) == Held(threads[u]) + InFlight(threads - {u});
    hide Held, InFlight;
    if u != t {
      InFlightAt(threads - {u}, t);
      InFlightAt(threads - {t}, u);
      RemoveTwo(threads, u, t);
      Exchange(Held(threads[u]), Held(threads[t]), InFlight(threads - {u} - {t}));
    }
  }

  lemma RemoveTwo(threads: map<Tid, Phase>, u: Tid, t: Tid)
    ensures threads - {u} - {t} == threads - {t} - {u}
  {
  }

  lemma Exchange(x: multiset<Check>, y: multiset<Check>, z: multiset<Check>)
    ensures x + (y + z) == y + (x + z)
  {
  }

  lemma InFlightSet(threads: map<Tid, Phase>, t: Tid, p: Phase)
    requires t in threads
    ensures InFlight(threads[t := p]) + Held(threads[t]) == InFlight(threads) + Held(p)
    ensures |InFlight(threads[t := p])| + |Held(threads[t])| == |InFlight(threads)| + |Held(p)|
    ensures Held(p) == Held(threads[t]) ==> InFlight(threads[t := p]) == InFlight(threads)
  {
    InFlightAt(threads, t);
    InFlightAt(threads[t := p], t);
    assert threads[t := p] - {t} == threads - {t};
    hide Held, InFlight;
    Balance(InFlight(threads - {t}), Held(p), Held(threads[t]));
  }

  lemma Balance(rest: multiset<Check>, x: multiset<Check>, y: multiset<Check>)
    ensures (x + rest) + y == (y + rest) + x && (rest + x) + y == (rest + y) + x
    ensures |x + rest| + |y| == |y + rest| + |x|
  {
  }

  /** A nonempty total comes from some thread. */
  lemma {:induction false} InFlightHolder(threads: map<Tid, Phase>) returns (t: Tid)
    requires InFlight(threads) != multiset{}
    ensures t in threads && Held(threads[t]) != multiset{}
    decreases |threads|
  {
    var u :| u in threads && InFlight(threads) == Held(threads[u]) + InFlight(threads - {u});
    if Held(threads[u]) != multiset{} {
      t := u;
    } else {
      t := InFlightHolder(threads - {u});
    }
  }

  ghost predicate HasBad(checks: seq<Check>) {
    exists c :: c in checks && !c.ok
  }

  ghost predicate AllOk(checks: seq<Check>) {
    forall c :: c in checks ==> c.ok
  }

  /** A thread's private verdict: true about all it has executed, or false for a reason. */
  ghost predicate PhaseOk(p: Phase, session: seq<Check>) {
    match p
    case Outside => true
    case Waiting(_) => true
    case Ready(batch, ok) => (if ok then AllOk(batch) else HasBad(session)) && (batch == [] ==> ok)
    case Working(batch, next, ok) =>
      next < |batch| && (if ok then AllOk(batch[..next]) else HasBad(session))
  }

  function Idle(threads: map<Tid, Phase>): set<Tid> {
    set t | t in threads && threads[t].Waiting?
  }

  /** Inside the loop, past the first critical section. */
  predicate InPool(p: Phase) {
    p.Waiting? || p.Working? || (p.Ready? && p.batch != [])
  }

  function Pool(threads: map<Tid, Phase>): set<Tid> {
    set t | t in threads && InPool(threads[t])
  }

  ghost predicate Counts(st: State) {
    && Master in st.threads
    && st.q.nIdle == |Idle(st.threads)|
    && st.q.nTotal == |Pool(st.threads)|
  }

  /** Every added check is queued, in some thread's hands, or reported; nTodo counts the first two. */
  ghost predicate Conserved(st: State) {
    && st.q.nTodo == |st.q.queue| + |InFlight(st.threads)|
    && multiset(st.session) == multiset(st.q.queue) + InFlight(st.threads) + st.done
  }

  ghost predicate Verdicts(st: State) {
    && (if st.q.allOk then forall c :: c in st.done ==> c.ok else HasBad(st.session))
    && (forall t :: t in st.threads ==> PhaseOk(st.threads[t], st.session))
    && (forall i :: 0 <= i < |st.log| ==> (st.log[i].answer <==> AllOk(st.log[i].session)))
  }

  /** The master sleeps only over an empty queue, and only while work is out or it has been
      notified. */
  ghost predicate MasterWakes(st: State) {
    Master in st.threads && st.threads[Master].Waiting? ==>
      st.q.queue == [] && (st.threads[Master].notified || st.q.nTodo > 0)
  }

  ghost predicate Inv(st: State) {
    Counts(st) && Conserved(st) && Verdicts(st) && MasterWakes(st)
  }

  // ---------------------------------------------------------------- steps keep it

  lemma SameBut(a: set<Tid>, b: set<Tid>, t: Tid)
    requires a - {t} == b - {t}
    ensures |b| == |a| - (if t in a then 1 else 0) + (if t in b then 1 else 0)
  {
    assert |a - {t}| == |a| - if t in a then 1 else 0;
    assert |b - {t}| == |b| - if t in b then 1 else 0;
  }

  lemma Recount(threads: map<Tid, Phase>, t: Tid, p: Phase)
    requires t in threads
    ensures |Idle(threads[t := p])| == |Idle(threads)| - (if threads[t].Waiting? then 1 else 0) + (if p.Waiting? then 1 else 0)
    ensures |Pool(threads[t := p])| == |Pool(threads)| - (if InPool(threads[t]) then 1 else 0) + (if InPool(p) then 1 else 0)
  {
    SameBut(Idle(threads), Idle(threads[t := p]), t);
    SameBut(Pool(threads), Pool(threads[t := p]), t);
  }

  lemma GrowSession(p: Phase, session: seq<Check>, more: seq<Check>)
    requires PhaseOk(p, session)
    ensures PhaseOk(p, session + more)
  {
    if HasBad(session) {
      var c :| c in session && !c.ok;
      assert c in session + more;
    }
  }

  lemma AddKeeps(st: State, checks: seq<Check>)
    requires Inv(st) && Enabled(st, Add(checks))
    ensures Inv(Next(st, Add(checks)))
  {
    var w := Next(st, Add(checks));
    forall t | t in st.threads
      ensures PhaseOk(st.threads[t], w.session)
    {
      GrowSession(st.threads[t], st.session, checks);
    }
    if HasBad(st.session) {
      var c :| c in st.session && !c.ok;
      assert c in w.session;
    }
  }

  lemma EnterKeeps(st: State, t: Tid)
    requires Inv(st) && Enabled(st, Enter(t))
    ensures Inv(Next(st, Enter(t)))
  {
    Recount(st.threads, t, Ready([], true));
    InFlightSet(st.threads, t, Ready([], true));
    assert Held(Ready([], true)) == multiset{};
    assert InFlight(st.threads[t := Ready([], true)]) == InFlight(st.threads);
  }

  // The critical section: report, then decide.

  lemma NotifyKeeps(threads: map<Tid, Phase>)
    ensures var w := NotifyMaster(threads);
            Idle(w) == Idle(threads) && Pool(w) == Pool(threads) && InFlight(w) == InFlight(threads)
  {
    if Master in threads && threads[Master].Waiting? {
      InFlightSet(threads, Master, Waiting(true));
    }
  }

  /** A state between the two halves of a critical section of thread t: t holds nothing and is
      counted in nTotal only. */
  ghost predicate Mid(st: State, t: Tid) {
    && Master in st.threads && t in st.threads
    && Held(st.threads[t]) == multiset{} && !InPool(st.threads[t])
    && st.q.nIdle == |Idle(st.threads)| && st.q.nTotal == |Pool(st.threads)| + 1
    && Conserved(st) && Verdicts(st) && (t != Master ==> MasterWakes(st))
  }

  lemma Hand(queue: multiset<Check>, flight: multiset<Check>, flight': multiset<Check>, b: multiset<Check>, done: multiset<Check>)
    requires flight' + b == flight
    ensures queue + flight + done == queue + flight' + (done + b)
  {
  }

  lemma Receive(queue: multiset<Check>, queue': multiset<Check>, flight: multiset<Check>, b: multiset<Check>, done: multiset<Check>)
    requires queue == queue' + b
    ensures queue + flight + done == queue' + (flight + b) + done
  {
  }

  lemma ReportConserves(st: State, t: Tid)
    requires Inv(st) && t in st.threads && st.threads[t].Ready?
    ensures var w := Reported(st, t);
            && Conserved(w) && Master in w.threads && t in w.threads && w.threads[t] == Ready([], true)
            && w.q.nIdle == |Idle(w.threads)| && w.q.nTotal == |Pool(w.threads)| + 1
  {
    var batch := st.threads[t].batch;
    var p := Ready([], true);
    Recount(st.threads, t, p);
    InFlightSet(st.threads, t, p);
    NotifyKeeps(st.threads[t := p]);
    assert Held(p) == multiset{};
    hide InFlight, Idle, Pool;
    Hand(multiset(st.q.queue), InFlight(st.threads), InFlight(st.threads[t := p]), multiset(batch), st.done);
    hide Held, Verdicts, MasterWakes;
  }

  lemma ReportVerdicts(st: State, t: Tid)
    requires Verdicts(st) && t in st.threads && st.threads[t].Ready?
    ensures Verdicts(Reported(st, t))
  {
    var Ready(batch, ok) := st.threads[t];
    var w := Reported(st, t);
    assert PhaseOk(st.threads[t], st.session);
    if w.q.allOk {
      forall c | c in w.done
        ensures c.ok
      {
        assert c in st.done || c in multiset(batch);
        assert st.q.allOk;
        assert batch != [] ==> ok;
      }
    }
  }

  lemma ReportKeeps(st: State, t: Tid)
    requires Inv(st) && t in st.threads && st.threads[t].Ready?
    ensures Mid(Reported(st, t), t)
  {
    ReportConserves(st, t);
    ReportVerdicts(st, t);
    hide Verdicts, Idle, Pool;
    assert Held(Ready([], true)) == multiset{};
    if t != Master {
      assert st.threads[Master].Waiting? ==> MasterWakes(st);
      assert |st.threads[t].batch| <= st.q.nTodo by { HeldBound(st.threads, t); }
    }
  }

  lemma HeldBound(threads: map<Tid, Phase>, t: Tid)
    requires t in threads
    ensures |Held(threads[t])| <= |InFlight(threads)|
  {
    InFlightAt(threads, t);
  }

  /** The thread returns: nothing is queued or in flight, so everything added was reported. */
  lemma ReturnKeeps(st: State, t: Tid)
    requires Mid(st, t) && MayReturn(st.q, t == Master)
    ensures Inv(Decide(st, t))
  {
    var w := Decide(st, t);
    Recount(st.threads, t, Outside);
    InFlightSet(st.threads, t, Outside);
    assert InFlight(st.threads) == multiset{};
    assert multiset(st.session) == st.done;
    hide Idle, Pool, InFlight;
    if t == Master {
      VerdictRight(st);
      forall u | u in w.threads
        ensures PhaseOk(w.threads[u], [])
      {
        assert Held(st.threads[u]) == multiset{} by { HeldBound(st.threads, u); }
        assert PhaseOk(st.threads[u], st.session);
      }
    }
  }

  lemma VerdictRight(st: State)
    requires Verdicts(st) && multiset(st.session) == st.done
    ensures st.q.allOk <==> AllOk(st.session)
  {
    forall c
      ensures c in st.session <==> c in st.done
    {
      assert c in st.session <==> c in multiset(st.session);
    }
  }

  lemma SleepKeeps(st: State, t: Tid)
    requires Mid(st, t) && st.q.queue == [] && !MayReturn(st.q, t == Master)
    ensures Inv(Decide(st, t))
  {
    Recount(st.threads, t, Waiting(false));
    InFlightSet(st.threads, t, Waiting(false));
    hide Idle, Pool, InFlight;
  }

  lemma TakeConserves(st: State, t: Tid, n: nat, ok: bool)
    requires Conserved(st) && t in st.threads && Held(st.threads[t]) == multiset{} && n <= |st.q.queue|
    ensures var p := Working(Batch(st.q.queue, n), 0, ok);
            Conserved(st.(q := st.q.(queue := st.q.queue[..|st.q.queue| - n]), threads := st.threads[t := p]))
  {
    var p := Working(Batch(st.q.queue, n), 0, ok);
    BatchSplits(st.q.queue, n);
    assert |Held(p)| == n;
    TakeFlight(st.threads, t, p);
    hide InFlight, Held, Batch;
    Receive(multiset(st.q.queue), multiset(st.q.queue[..|st.q.queue| - n]), InFlight(st.threads), Held(p), st.done);
  }

  lemma TakeFlight(threads: map<Tid, Phase>, t: Tid, p: Phase)
    requires t in threads && Held(threads[t]) == multiset{}
    ensures InFlight(threads[t := p]) == InFlight(threads) + Held(p)
    ensures |InFlight(threads[t := p])| == |InFlight(threads)| + |Held(p)|
  {
    InFlightSet(threads, t, p);
    hide InFlight, Held;
    assert InFlight(threads[t := p]) + multiset{} == InFlight(threads[t := p]);
  }

  lemma TakeKeeps(st: State, t: Tid)
    requires Mid(st, t) && st.q.queue != []
    ensures Inv(Decide(st, t))
  {
    BatchFits(st.q);
    var n := BatchCount(st.q);
    var p := Working(Batch(st.q.queue, n), 0, st.q.allOk);
    Recount(st.threads, t, p);
    TakeConserves(st, t, n, st.q.allOk);
    hide Idle, Pool, InFlight, BatchCount, Batch;
    assert PhaseOk(p, st.session) by {
      assert AllOk(p.batch[..0]);
    }
  }

  lemma DecideKeeps(st: State, t: Tid)
    requires Mid(st, t)
    ensures Inv(Decide(st, t))
  {
    if st.q.queue != [] {
      TakeKeeps(st, t);
    } else if MayReturn(st.q, t == Master) {
      ReturnKeeps(st, t);
    } else {
      SleepKeeps(st, t);
    }
  }

  lemma WakeCounts(st: State, t: Tid)
    requires Inv(st) && Enabled(st, Wake(t))
    ensures var w := st.(q := st.q.(nIdle := st.q.nIdle - 1), threads := st.threads[t := Ready([], true)]);
      |Idle(w.threads)| == w.q.nIdle && |Pool(w.threads)| == w.q.nTotal - 1 && Conserved(w)
  {
    var p := Ready([], true);
    Recount(st.threads, t, p);
    InFlightSet(st.threads, t, p);
    assert Held(p) == multiset{};
    hide Idle, Pool, InFlight, Verdicts;
  }

  lemma WakeMid(st: State, t: Tid)
    requires Inv(st) && Enabled(st, Wake(t))
    ensures Mid(st.(q := st.q.(nIdle := st.q.nIdle - 1), threads := st.threads[t := Ready([], true)]), t)
  {
    WakeCounts(st, t);
    assert Held(Ready([], true)) == multiset{};
    assert PhaseOk(Ready([], true), st.session);
    hide Idle, Pool, InFlight, Conserved, Counts, PhaseOk;
  }

  lemma WakeKeeps(st: State, t: Tid)
    requires Inv(st) && Enabled(st, Wake(t))
    ensures Inv(Next(st, Wake(t)))
  {
    hide Inv, Mid, Decide;
    WakeMid(st, t);
    var w := st.(q := st.q.(nIdle := st.q.nIdle - 1));
    DecideKeeps(w.(threads := st.threads[t := Ready([], true)]), t);
    DecideIgnores(w, t, Ready([], true));
  }

  /** What a thread was doing before makes no difference to its decision. */
  lemma DecideIgnores(st: State, t: Tid, p: Phase)
    requires t in st.threads
    ensures Decide(st, t) == Decide(st.(threads := st.threads[t := p]), t)
  {
    var w := Decide(st, t).threads[t];
    assert st.threads[t := p][t := w] == st.threads[t := w];
  }

  lemma LockKeeps(st: State, t: Tid)
    requires Inv(st) && Enabled(st, Lock(t))
    ensures Inv(Next(st, Lock(t)))
  {
    ReportKeeps(st, t);
    DecideKeeps(Reported(st, t), t);
  }

  lemma ExecutePhase(st: State, t: Tid)
    requires Conserved(st) && Enabled(st, Execute(t)) && PhaseOk(st.threads[t], st.session)
    ensures PhaseOk(Next(st, Execute(t)).threads[t], st.session)
  {
    var Working(batch, next, ok) := st.threads[t];
    assert batch[..next + 1] == batch[..next] + [batch[next]];
    if ok && !batch[next].ok {
      HeldAdded(st, t, batch[next]);
    }
    if next + 1 == |batch| { assert batch[..next + 1] == batch; }
  }

  lemma ExecuteCounts(st: State, t: Tid)
    requires Counts(st) && Conserved(st) && Enabled(st, Execute(t))
    ensures Counts(Next(st, Execute(t))) && Conserved(Next(st, Execute(t)))
  {
    var p := Next(st, Execute(t)).threads[t];
    Recount(st.threads, t, p);
    InFlightSet(st.threads, t, p);
    hide Idle, Pool, InFlight;
  }

  lemma ExecuteKeeps(st: State, t: Tid)
    requires Inv(st) && Enabled(st, Execute(t))
    ensures Inv(Next(st, Execute(t)))
  {
    ExecutePhase(st, t);
    ExecuteCounts(st, t);
    hide Counts, Conserved, PhaseOk;
  }

  /** A check in a thread's hands was added in this session. */
  lemma HeldAdded(st: State, t: Tid, c: Check)
    requires Conserved(st) && t in st.threads && c in Held(st.threads[t])
    ensures c in st.session
  {
    InFlightAt(st.threads, t);
    assert c in multiset(st.session);
  }

  lemma StepKeeps(st: State, step: Step)
    requires Inv(st) && Enabled(st, step)
    ensures Inv(Next(st, step))
  {
    hide Conserved, Verdicts, MasterWakes;
    match step {
      case Add(checks) => AddKeeps(st, checks);
      case Enter(t) => EnterKeeps(st, t);
      case Lock(t) => LockKeeps(st, t);
      case Wake(t) => WakeKeeps(st, t);
      case Execute(t) => ExecuteKeeps(st, t);
    }
  }

  // ---------------------------------------------------------------- runs

  /** The states an interleaving passes through, starting from an initial one. */
  ghost predicate IsRun(run: seq<State>, steps: seq<Step>) {
    && |run| == |steps| + 1
    && (exists b, quit, workers :: run[0] == Start(b, quit, workers))
    && forall i :: 0 <= i < |steps| ==> Enabled(run[i], steps[i]) && run[i + 1] == Next(run[i], steps[i])
  }

  lemma StartInv(b: nat, quit: bool, workers: set<Tid>)
    ensures Inv(Start(b, quit, workers))
  {
    var st := Start(b, quit, workers);
    assert Idle(st.threads) == {} && Pool(st.threads) == {};
    NothingHeld(st.threads);
  }

  lemma {:induction false} NothingHeld(threads: map<Tid, Phase>)
    requires forall t :: t in threads ==> threads[t].Outside?
    ensures InFlight(threads) == multiset{}
    decreases |threads|
  {
    if threads != map[] {
      var t :| t in threads && InFlight(threads) == Held(threads[t]) + InFlight(threads - {t});
      NothingHeld(threads - {t});
    }
  }

  /** Main theorem: the invariant holds in every state of every interleaving. */
  lemma {:induction false} RunKeeps(run: seq<State>, steps: seq<Step>, i: nat)
    requires IsRun(run, steps) && i < |run|
    ensures Inv(run[i])
  {
    if i == 0 {
      var b, quit, workers :| run[0] == Start(b, quit, workers);
      StartInv(b, quit, workers);
    } else {
      RunKeeps(run, steps, i - 1);
      StepKeeps(run[i - 1], steps[i - 1]);
    }
  }

  /** What the invariant means for callers: each Wait that returned gave the conjunction of
      exactly the checks added in its session. */
  lemma WaitAnswers(run: seq<State>, steps: seq<Step>, i: nat, k: nat)
    requires IsRun(run, steps) && i < |run| && k < |run[i].log|
    ensures run[i].log[k].answer <==> AllOk(run[i].log[k].session)
  {
    RunKeeps(run, steps, i);
  }

  /** No lost wake-up: a master asleep without a pending notification has some worker holding
      an unfinished batch. */
  lemma MasterNotStranded(run: seq<State>, steps: seq<Step>, i: nat) returns (t: Tid)
    requires IsRun(run, steps) && i < |run|
    requires Master in run[i].threads && run[i].threads[Master] == Waiting(false)
    ensures t != Master && t in run[i].threads && Held(run[i].threads[t]) != multiset{}
  {
    RunKeeps(run, steps, i);
    t := InFlightHolder(run[i].threads);
  }

  // ---------------------------------------------------------------- what a thread does

  /** The thread takes the lock in this step: to report and go on, or after a sleep. */
  predicate TakesLock(step: Step, t: Tid) {
    step == Lock(t) || step == Wake(t)
  }

  /** The checks still to do once a thread has reported what it has in hand. */
  function TodoAfter(st: State, t: Tid): int
    requires t in st.threads
  {
    st.q.nTodo - if st.threads[t].Ready? then |st.threads[t].batch| else 0
  }

  /** A decision concerns only the thread that makes it. */
  lemma DecideOther(st: State, t: Tid, u: Tid)
    requires t in st.threads && u in st.threads && u != t
    ensures u in Decide(st, t).threads && Decide(st, t).threads[u] == st.threads[u]
  {
    hide BatchCount, Batch;
  }

  /** A report may only wake the master besides. */
  lemma ReportedOther(st: State, t: Tid, u: Tid)
    requires t in st.threads && st.threads[t].Ready? && u in st.threads && u != t
    ensures var w := Reported(st, t);
      t in w.threads && u in w.threads && (w.threads[u] == st.threads[u] || (st.threads[u].Waiting? && w.threads[u] == Waiting(true)))
  {
  }

  /** A step of another thread leaves a thread in the loop. */
  lemma OthersLeave(st: State, step: Step, t: Tid)
    requires Enabled(st, step) && t in st.threads && !st.threads[t].Outside? && !TakesLock(step, t)
    ensures t in Next(st, step).threads && !Next(st, step).threads[t].Outside?
  {
    hide Decide, Reported;
    match step {
      case Add(_) =>
      case Enter(u) =>
      case Lock(u) =>
        ReportedOther(st, u, t);
        DecideOther(Reported(st, u), u, t);
      case Wake(u) => DecideOther(st.(q := st.q.(nIdle := st.q.nIdle - 1)), u, t);
      case Execute(u) =>
    }
  }

  lemma DecideEmpty(st: State, t: Tid)
    requires t in st.threads && st.q.queue == []
    ensures var w := Decide(st, t);
      && t in w.threads && w.q.queue == []
      && if (t == Master || st.q.quit) && st.q.nTodo == 0 then w.threads[t] == Outside else w.threads[t] == Waiting(false)
  {
  }

  /** Before the queue is looked at: what was in hand is reported, or the sleeper is no longer idle. */
  ghost function Locked(st: State, step: Step, t: Tid): State
    requires Enabled(st, step) && TakesLock(step, t)
  {
    if step.Lock? then Reported(st, t) else st.(q := st.q.(nIdle := st.q.nIdle - 1))
  }

  lemma LockedIs(st: State, step: Step, t: Tid)
    requires Enabled(st, step) && TakesLock(step, t)
    ensures var l := Locked(st, step, t);
      && t in st.threads && t in l.threads && Next(st, step) == Decide(l, t)
      && l.q.queue == st.q.queue && l.q.quit == st.q.quit && l.q.batchSize == st.q.batchSize && l.q.nTodo == TodoAfter(st, t)
      && l.session == st.session && l.log == st.log
  {
    hide Decide;
  }

  /** Over an empty queue the thread leaves if it is the master, or the queue is shut down, and nothing is
      left to do; otherwise it goes to sleep. */
  lemma EmptyQueue(st: State, step: Step, t: Tid)
    requires Enabled(st, step) && TakesLock(step, t) && st.q.queue == []
    ensures t in st.threads
    ensures var w := Next(st, step);
      && t in w.threads && w.q.queue == []
      && if (t == Master || st.q.quit) && TodoAfter(st, t) == 0 then w.threads[t] == Outside else w.threads[t] == Waiting(false)
  {
    LockedIs(st, step, t);
    hide Next, Decide, Enabled, Locked;
    DecideEmpty(Locked(st, step, t), t);
  }

  /** How large a batch is: a share of the queue for each thread there is and one more, idle ones twice,
      at least one check and, apart from that, at most the batch size. */
  ghost predicate FairShare(n: nat, size: nat, threads: int, batchSize: nat) {
    && 1 <= n <= size
    && (n > 1 ==> n <= batchSize && n * threads <= size)
    && (n < batchSize && threads > 0 ==> (n + 1) * threads > size)
  }

  lemma ShareBounds(size: nat, d: int, batchSize: nat)
    requires size > 0 && d > 0
    ensures FairShare(Max(1, Min(batchSize, size / d)), size, d, batchSize)
  {
    Portion(size, d);
    var k := size / d;
    assert k * d <= size < (k + 1) * d;
    var n := Max(1, Min(batchSize, k));
    if n > 1 { Scale(n, k, d); }
    if n < batchSize { Scale(k, n, d); }
  }

  /** What a thread has after taking a share of a queue. */
  ghost predicate Took(queue: seq<Check>, t: Tid, w: State) {
    && t in w.threads && w.threads[t].Working? && w.threads[t].next == 0 && (w.threads[t].ok <==> w.q.allOk)
    && var n := |w.threads[t].batch|;
    && n <= |queue| && w.q.queue == queue[..|queue| - n]
    && (forall i :: 0 <= i < n ==> w.threads[t].batch[i] == queue[|queue| - 1 - i])
    && (w.q.nTotal + w.q.nIdle + 1 > 0 ==> FairShare(n, |queue|, w.q.nTotal + w.q.nIdle + 1, w.q.batchSize))
  }

  lemma DecideFull(st: State, t: Tid)
    requires t in st.threads && st.q.queue != []
    ensures Took(st.q.queue, t, Decide(st, t))
  {
    BatchFits(st.q);
    var d := st.q.nTotal + st.q.nIdle + 1;
    if d > 0 { ShareBounds(|st.q.queue|, d, st.q.batchSize); }
    hide FairShare;
  }

  /** From a queue that is not empty the thread takes a fair share off the end, last check first, and goes to
      work on it, with nothing to do if some check is known to have failed. */
  lemma FullQueue(st: State, step: Step, t: Tid)
    requires Enabled(st, step) && TakesLock(step, t) && st.q.queue != []
    ensures Took(st.q.queue, t, Next(st, step))
  {
    LockedIs(st, step, t);
    hide Next, Decide, Enabled, Locked, Took;
    DecideFull(Locked(st, step, t), t);
  }

  /** While the queue is not shut down no worker ever leaves. */
  lemma WorkersStay(run: seq<State>, steps: seq<Step>, i: nat, t: Tid)
    requires IsRun(run, steps) && i < |steps| && !run[i].q.quit && t != Master && t in run[i].threads && !run[i].threads[t].Outside?
    ensures t in run[i + 1].threads && !run[i + 1].threads[t].Outside?
  {
    hide Next, Enabled, Took;
    assert Enabled(run[i], steps[i]) && run[i + 1] == Next(run[i], steps[i]);
    if !TakesLock(steps[i], t) {
      OthersLeave(run[i], steps[i], t);
    } else if run[i].q.queue == [] {
      EmptyQueue(run[i], steps[i], t);
    } else {
      FullQueue(run[i], steps[i], t);
      TookWorks(run[i].q.queue, t, run[i + 1]);
    }
  }

  /** A worker that finds nothing to do goes to sleep. */
  lemma WorkerSleeps(run: seq<State>, steps: seq<Step>, i: nat, t: Tid)
    requires IsRun(run, steps) && i < |steps| && !run[i].q.quit && t != Master && TakesLock(steps[i], t) && run[i].q.queue == []
    ensures t in run[i + 1].threads && run[i + 1].threads[t] == Waiting(false)
  {
    hide Next;
    assert Enabled(run[i], steps[i]) && run[i + 1] == Next(run[i], steps[i]);
    EmptyQueue(run[i], steps[i], t);
  }

  /** Any thread that finds something to do does it. */
  lemma FindsWork(run: seq<State>, steps: seq<Step>, i: nat, t: Tid)
    requires IsRun(run, steps) && i < |steps| && TakesLock(steps[i], t) && run[i].q.queue != []
    ensures Took(run[i].q.queue, t, run[i + 1]) && run[i + 1].threads[t].batch != []
    ensures FairShare(|run[i + 1].threads[t].batch|, |run[i].q.queue|, run[i + 1].q.nTotal + run[i + 1].q.nIdle + 1, run[i + 1].q.batchSize)
  {
    hide Next, Inv, FairShare, Enabled;
    RunKeeps(run, steps, i + 1);
    InvCounts(run[i + 1]);
    assert Enabled(run[i], steps[i]) && run[i + 1] == Next(run[i], steps[i]);
    FullQueue(run[i], steps[i], t);
    ShareSome(|run[i + 1].threads[t].batch|, |run[i].q.queue|, run[i + 1].q.nTotal + run[i + 1].q.nIdle + 1, run[i + 1].q.batchSize);
  }

  lemma InvCounts(st: State)
    requires Inv(st)
    ensures st.q.nTotal >= 0 && st.q.nIdle >= 0
  {
  }

  lemma ShareSome(n: nat, size: nat, threads: int, batchSize: nat)
    requires FairShare(n, size, threads, batchSize)
    ensures n >= 1
  {
  }

  /** The master returns from its wait in a step exactly if it takes the lock, the queue is empty and, once it
      has reported, nothing is left to do; then one verdict more is logged, on all that was added. */
  lemma MasterReturnsIff(run: seq<State>, steps: seq<Step>, i: nat)
    requires IsRun(run, steps) && i < |steps| && Master in run[i].threads && !run[i].threads[Master].Outside?
    ensures Master in run[i + 1].threads
    ensures run[i + 1].threads[Master].Outside? <==>
      TakesLock(steps[i], Master) && run[i].q.queue == [] && TodoAfter(run[i], Master) == 0
    ensures run[i + 1].threads[Master].Outside? ==>
      && |run[i + 1].log| == |run[i].log| + 1 && run[i + 1].log[|run[i].log|].session == run[i].session
      && (run[i + 1].log[|run[i].log|].answer <==> AllOk(run[i].session))
  {
    var st, step := run[i], steps[i];
    hide Next, Inv, Enabled, Took;
    assert Enabled(st, step) && run[i + 1] == Next(st, step);
    if !TakesLock(step, Master) {
      OthersLeave(st, step, Master);
    } else if st.q.queue == [] {
      EmptyQueue(st, step, Master);
      if TodoAfter(st, Master) == 0 {
        MasterLogs(st, step);
        WaitAnswers(run, steps, i + 1, |st.log|);
      }
    } else {
      FullQueue(st, step, Master);
      TookWorks(st.q.queue, Master, run[i + 1]);
    }
  }

  lemma TookWorks(queue: seq<Check>, t: Tid, w: State)
    requires Took(queue, t, w)
    ensures t in w.threads && w.threads[t].Working?
  {
    hide FairShare;
  }

  lemma MasterLogs(st: State, step: Step)
    requires Enabled(st, step) && TakesLock(step, Master) && st.q.queue == [] && Master in st.threads && TodoAfter(st, Master) == 0
    ensures var w := Next(st, step); |w.log| == |st.log| + 1 && w.log[|st.log|].session == st.session
  {
    LockedIs(st, step, Master);
    hide Next, Enabled, Locked;
  }

  // ---------------------------------------------------------------- the critical sections in place

  /** The shared object.  Each method is what one critical section does to the fields, proved
      against the function the state machine uses. */
  class Queue {
    var queue: seq<Check>
    var nIdle: int
    var nTotal: int
    var fAllOk: bool
    var nTodo: int
    var fQuit: bool
    const nBatchSize: nat

    function Fields(): Shared
      reads this
    {
      Shared(queue, nIdle, nTotal, fAllOk, nTodo, fQuit, nBatchSize)
    }

    constructor (nBatchSizeIn: nat)
      ensures Fields() == Initial(nBatchSizeIn, false)
    {
      queue, nIdle, nTotal, fAllOk, nTodo, fQuit := [], 0, 0, true, 0, false;
      nBatchSize := nBatchSizeIn;
    }

    /** Adds checks; says how many workers to notify, none, one or all. */
    method AddChecks(vChecks: seq<Check>) returns (one: bool, all: bool)
      modifies this
      ensures (one <==> |vChecks| == 1) && (all <==> |vChecks| > 1)
      ensures Fields() == old(Fields()).(queue := old(queue) + vChecks, nTodo := old(nTodo) + |vChecks|)
    {
      for i := 0 to |vChecks|
        invariant Fields() == old(Fields()).(queue := old(queue) + vChecks[..i])
      {
        queue := queue + [vChecks[i]];
      }
      assert vChecks[..|vChecks|] == vChecks;
      nTodo := nTodo + |vChecks|;
      one, all := false, false;
      if |vChecks| == 1 {
        one := true;
      } else if |vChecks| > 1 {
        all := true;
      }
    }

    /** The clean-up of the previous iteration; says whether to notify the master. */
    method CleanUp(nNow: nat, fOk: bool, fMaster: bool) returns (notify: bool)
      modifies this
      ensures Fields() == Report(old(Fields()), nNow, fOk)
      ensures notify <==> nNow != 0 && nTodo == 0 && !fMaster
    {
      notify := false;
      if nNow != 0 {
        fAllOk := fAllOk && fOk;
        nTodo := nTodo - nNow;
        notify := nTodo == 0 && !fMaster;
      } else {
        nTotal := nTotal + 1;
      }
    }

    /** Over an empty queue: return a verdict or go to sleep. */
    method ReturnOrSleep(fMaster: bool) returns (returns_: bool, fRet: bool)
      requires queue == []
      modifies this
      ensures returns_ == MayReturn(old(Fields()), fMaster) == ((fMaster || old(fQuit)) && old(nTodo) == 0) && fRet == old(fAllOk)
      ensures Fields() == if returns_ then Leave(old(Fields()), fMaster) else old(Fields()).(nIdle := old(nIdle) + 1)
    {
      fRet := fAllOk;
      returns_ := (fMaster || fQuit) && nTodo == 0;
      if returns_ {
        nTotal := nTotal - 1;
        if fMaster { fAllOk := true; }
      } else {
        nIdle := nIdle + 1;
      }
    }

    /** Moves a batch from the back of the queue to the caller, one check at a time. */
    method TakeBatch() returns (vChecks: seq<Check>, fOk: bool)
      requires queue != [] && nTotal + nIdle + 1 > 0
      modifies this
      ensures BatchCount(old(Fields())) <= |old(queue)|
      ensures vChecks == Batch(old(queue), BatchCount(old(Fields()))) && fOk == fAllOk
      ensures FairShare(|vChecks|, |old(queue)|, old(nTotal + nIdle) + 1, nBatchSize)
      ensures Fields() == old(Fields()).(queue := old(queue)[..|old(queue)| - BatchCount(old(Fields()))])
    {
      BatchFits(Fields());
      ShareBounds(|queue|, nTotal + nIdle + 1, nBatchSize);
      hide FairShare;
      var nNow := Max(1, Min(nBatchSize, |queue| / (nTotal + nIdle + 1)));
      vChecks := [];
      for i := 0 to nNow
        invariant Fields() == old(Fields()).(queue := old(queue)[..|old(queue)| - i])
        invariant vChecks == Batch(old(queue), i)
      {
        vChecks := vChecks + [queue[|queue| - 1]];
        queue := queue[..|queue| - 1];
      }
      fOk := fAllOk;
    }
  }

  /** Executing a whole batch without interruption: once a check has failed the rest is skipped. */
  method ExecuteBatch(vChecks: seq<Check>, fOk: bool) returns (r: bool)
    ensures r <==> fOk && AllOk(vChecks)
  {
    r := fOk;
    for i := 0 to |vChecks|
      invariant r <==> fOk && AllOk(vChecks[..i])
    {
      assert vChecks[..i + 1] == vChecks[..i] + [vChecks[i]];
      if r { r := vChecks[i].ok; }
    }
    assert vChecks[..|vChecks|] == vChecks;
  }
}
