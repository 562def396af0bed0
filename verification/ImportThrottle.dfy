/** The worker throttle of mysqlimport --use-threads (client/mysqlimport.c): main starts one
    thread per table, never more than the limit at a time, with a counter under a mutex.

    Each action below is one step of one thread; a run is any interleaving. */
module ImportThrottle {

  /** Where main is. In `Test`, `Counted`, `Undo` and `LastTest` it holds the mutex. */
  datatype Main =
    | Head        // at the table loop
    | Lock        // before pthread_mutex_lock in the loop
    | Test        // at `while (counter == opt_use_threads)`
    | Wait        // in pthread_cond_timedwait
    | Counted     // after counter++
    | Create      // at pthread_create
    | Failed      // creation failed, before the lock
    | Undo        // before counter--
    | LastLock    // before the last lock
    | LastTest    // at `while (counter)`
    | LastWait    // in the last pthread_cond_timedwait
    | Empty       // saw counter 0, holds the mutex
    | Destroy     // about to destroy the mutex
    | Joined      // destroyed the mutex

  /** Where the worker of a table is. In `Holding` and `Leaving` it holds the mutex. */
  datatype Worker =
    | Unborn
    | Working     // importing its table
    | WantsLock   // done, before pthread_mutex_lock
    | Holding     // before counter--
    | Leaving     // after counter--, before pthread_mutex_unlock
    | Gone

  datatype Owner = Nobody | TheMain | TheWorker(table: nat)

  datatype State = State(main: Main, table: nat, counter: int, owner: Owner, workers: seq<Worker>)

  /** The number of tables, and opt_use_threads. */
  datatype Config = Config(tables: nat, limit: nat)

  ghost predicate Init(c: Config, s: State) {
    s.main == Head && s.table == 0 && s.counter == 0 && s.owner == Nobody &&
    s.workers == seq(c.tables, _ => Unborn)
  }

  predicate IsLive(w: Worker) {
    w.Working? || w.WantsLock? || w.Holding?
  }

  /** Workers that still count. */
  function Live(ws: seq<Worker>): nat {
    if ws == [] then 0 else Live(ws[..|ws| - 1]) + if IsLive(ws[|ws| - 1]) then 1 else 0
  }

  /** Main's steps. A wait may end at any time: signalled, timed out or spuriously; it
      takes the mutex again before it tests. */
  ghost predicate MainStep(c: Config, s: State, t: State) {
    match s.main
    case Head => t == s.(main := if s.table < c.tables then Lock else LastLock)
    case Lock => s.owner == Nobody && t == s.(main := Test, owner := TheMain)
    case Test =>
      if s.counter == c.limit then t == s.(main := Wait, owner := Nobody)
      else t == s.(main := Counted, counter := s.counter + 1)
    case Wait => s.owner == Nobody && t == s.(main := Test, owner := TheMain)
    case Counted => t == s.(main := Create, owner := Nobody)
    case Create =>
      || (&& s.table < |s.workers|
          && t == s.(main := Head, table := s.table + 1, workers := s.workers[s.table := Working]))
      || t == s.(main := Failed)
    case Failed => s.owner == Nobody && t == s.(main := Undo, owner := TheMain)
    case Undo => t == s.(main := Head, table := s.table + 1, counter := s.counter - 1, owner := Nobody)
    case LastLock => s.owner == Nobody && t == s.(main := LastTest, owner := TheMain)
    case LastTest =>
      if s.counter != 0 then t == s.(main := LastWait, owner := Nobody)
      else t == s.(main := Empty)
    case LastWait => s.owner == Nobody && t == s.(main := LastTest, owner := TheMain)
    case Empty => t == s.(main := Destroy, owner := Nobody)
    case Destroy => t == s.(main := Joined)
    case Joined => false
  }

  ghost predicate WorkerStep(s: State, t: State, k: nat) {
    && k < |s.workers|
    && match s.workers[k]
       case Unborn => false
       case Working => t == s.(workers := s.workers[k := WantsLock])
       case WantsLock => s.owner == Nobody && t == s.(workers := s.workers[k := Holding], owner := TheWorker(k))
       case Holding => t == s.(workers := s.workers[k := Leaving], counter := s.counter - 1)
       case Leaving => t == s.(workers := s.workers[k := Gone], owner := Nobody)
       case Gone => false
  }

  ghost predicate Next(c: Config, s: State, t: State) {
    MainStep(c, s, t) || exists k :: WorkerStep(s, t, k)
  }

  // ------------------------------------------------------------ what every step keeps

  predicate MainHolds(m: Main) {
    m.Test? || m.Counted? || m.Undo? || m.LastTest? || m.Empty?
  }

  /** Main has counted a worker that does not live. */
  predicate Pending(m: Main) {
    m.Counted? || m.Create? || m.Failed? || m.Undo?
  }

  predicate InLoop(m: Main) {
    m.Lock? || m.Test? || m.Wait? || Pending(m)
  }

  predicate Past(m: Main) {
    m.Empty? || m.Destroy? || m.Joined?
  }

  predicate Inside(w: Worker) {
    w.Holding? || w.Leaving?
  }

  /** A worker is inside the mutex exactly if it owns it, and tables not reached have no
      worker. */
  ghost predicate WorkersInv(ws: seq<Worker>, table: nat, owner: Owner) {
    && (owner.TheWorker? ==> owner.table < |ws|)
    && (forall k :: 0 <= k < |ws| ==> (Inside(ws[k]) <==> owner == TheWorker(k)))
    && (forall k :: table <= k < |ws| ==> ws[k].Unborn?)
  }

  ghost predicate AllThrough(ws: seq<Worker>) {
    forall k :: 0 <= k < |ws| ==> ws[k].Unborn? || ws[k].Gone?
  }

  /** The counter is what it should be, with `live` workers, and main is where it says. */
  predicate Control(c: Config, s: State, live: nat) {
    && s.table <= c.tables
    && s.counter == live + (if Pending(s.main) then 1 else 0)
    && 0 <= s.counter <= c.limit
    && (s.owner == TheMain <==> MainHolds(s.main))
    && (InLoop(s.main) ==> s.table < c.tables)
    && (!InLoop(s.main) && !s.main.Head? ==> s.table == c.tables)
  }

  ghost predicate Inv(c: Config, s: State) {
    && |s.workers| == c.tables
    && WorkersInv(s.workers, s.table, s.owner)
    && Control(c, s, Live(s.workers))
    && (Past(s.main) ==> AllThrough(s.workers))
  }

  lemma {:induction false} LiveUpdate(ws: seq<Worker>, k: nat, w: Worker)
    requires k < |ws|
    ensures Live(ws[k := w]) == Live(ws) - (if IsLive(ws[k]) then 1 else 0) + (if IsLive(w) then 1 else 0)
  {
    var n := |ws| - 1;
    if k < n {
      assert ws[k := w][..n] == ws[..n][k := w];
      LiveUpdate(ws[..n], k, w);
    } else {
      assert ws[k := w][..n] == ws[..n];
    }
  }

  lemma {:induction false} LiveNone(ws: seq<Worker>)
    ensures Live(ws) == 0 <==> forall k :: 0 <= k < |ws| ==> !IsLive(ws[k])
  {
    if ws != [] { LiveNone(ws[..|ws| - 1]); }
  }

  lemma InitInv(c: Config, s: State)
    requires Init(c, s)
    ensures Inv(c, s)
  {
    LiveNone(s.workers);
  }

  lemma CreateInv(c: Config, s: State, t: State)
    requires Inv(c, s) && s.main.Create? && MainStep(c, s, t)
    ensures Inv(c, t)
  {
    LiveUpdate(s.workers, s.table, Working);
  }

  /** Main's other steps change no worker. */
  lemma SameWorkers(c: Config, s: State, t: State)
    requires Inv(c, s) && !s.main.Create? && MainStep(c, s, t)
    ensures t.workers == s.workers && WorkersInv(t.workers, t.table, t.owner)
  {
  }

  lemma ControlStep(c: Config, s: State, t: State, live: nat)
    requires Control(c, s, live) && !s.main.Create? && MainStep(c, s, t)
    ensures Control(c, t, live)
  {
  }

  lemma MainInv(c: Config, s: State, t: State)
    requires Inv(c, s) && MainStep(c, s, t)
    ensures Inv(c, t)
  {
    if s.main.Create? {
      CreateInv(c, s, t);
    } else {
      SameWorkers(c, s, t);
      ControlStep(c, s, t, Live(s.workers));
      if s.main.LastTest? && s.counter == 0 { LastTestThrough(c, s); }
    }
  }

  lemma LastTestThrough(c: Config, s: State)
    requires Inv(c, s) && s.main.LastTest? && s.counter == 0
    ensures AllThrough(s.workers)
  {
    LiveNone(s.workers);
    forall k | 0 <= k < |s.workers| ensures s.workers[k].Unborn? || s.workers[k].Gone? {
      assert !IsLive(s.workers[k]) && !Inside(s.workers[k]);
    }
  }

  lemma WorkerInv(c: Config, s: State, t: State, k: nat)
    requires Inv(c, s) && WorkerStep(s, t, k)
    ensures Inv(c, t)
  {
    LiveUpdate(s.workers, k, t.workers[k]);
  }

  // ------------------------------------------------------------ every run

  ghost predicate Run(c: Config, run: seq<State>) {
    && run != [] && Init(c, run[0])
    && forall i :: 0 <= i < |run| - 1 ==> Next(c, run[i], run[i + 1])
  }

  lemma {:induction false} RunInv(c: Config, run: seq<State>, i: nat)
    requires Run(c, run) && i < |run|
    ensures Inv(c, run[i])
  {
    if i == 0 {
      InitInv(c, run[0]);
    } else {
      RunInv(c, run, i - 1);
      assert Next(c, run[i - 1], run[i]);
      if MainStep(c, run[i - 1], run[i]) {
        MainInv(c, run[i - 1], run[i]);
      } else {
        var k :| WorkerStep(run[i - 1], run[i], k);
        WorkerInv(c, run[i - 1], run[i], k);
      }
    }
  }

  /** In every interleaving: never more live workers than the limit; the counter is the
      number of live workers plus main's pending creation; at most one thread is inside
      the mutex; and when main destroys the mutex, no worker will touch it again. */
  lemma ThrottleIsSafe(c: Config, run: seq<State>, i: nat)
    requires Run(c, run) && i < |run|
    ensures var s := run[i];
      && Live(s.workers) <= c.limit
      && s.counter == Live(s.workers) + (if Pending(s.main) then 1 else 0)
      && (forall j, k | 0 <= j < k < |s.workers| :: !(Inside(s.workers[j]) && Inside(s.workers[k])))
      && (MainHolds(s.main) ==> forall k | 0 <= k < |s.workers| :: !Inside(s.workers[k]))
      && (s.main.Destroy? || s.main.Joined? ==> AllThrough(s.workers))
  {
    RunInv(c, run, i);
  }

  /** Step `i` of the run starts the worker of table `k`. */
  ghost predicate Starts(run: seq<State>, i: nat, k: nat) {
    && i + 1 < |run| && k < |run[i].workers| == |run[i + 1].workers|
    && run[i].workers[k].Unborn? && !run[i + 1].workers[k].Unborn?
  }

  lemma {:induction false} TableGrows(c: Config, run: seq<State>, i: nat, j: nat)
    requires Run(c, run) && i <= j < |run|
    ensures run[i].table <= run[j].table
    decreases j - i
  {
    if i < j {
      TableGrows(c, run, i, j - 1);
      assert Next(c, run[j - 1], run[j]);
    }
  }

  lemma StartsAt(c: Config, run: seq<State>, i: nat, k: nat)
    requires Run(c, run) && Starts(run, i, k)
    ensures run[i].table == k && run[i + 1].table == k + 1
  {
    assert Next(c, run[i], run[i + 1]);
  }

  /** Each table goes to at most one worker, and workers start in the order of the tables. */
  lemma OneWorkerPerTable(c: Config, run: seq<State>, i: nat, j: nat, k: nat, l: nat)
    requires Run(c, run) && Starts(run, i, k) && Starts(run, j, l)
    ensures i < j <==> k < l
    ensures k == l ==> i == j
  {
    StartsAt(c, run, i, k);
    StartsAt(c, run, j, l);
    if i < j {
      TableGrows(c, run, i + 1, j);
    } else if j < i {
      TableGrows(c, run, j + 1, i);
    }
  }

  /** In state `i` of the run, the thread for table `k` could not be created. */
  ghost predicate Fails(run: seq<State>, i: nat, k: nat) {
    i < |run| && run[i].main.Failed? && run[i].table == k
  }

  /** Main is past creating the thread of table `k`. */
  predicate Passed(s: State, k: nat) {
    k < s.table || (k == s.table && (s.main.Failed? || s.main.Undo?))
  }

  /** A table is passed by starting its worker or by a failure; a started worker stays started,
      and a table passed without one never gets one. */
  lemma PassStep(c: Config, s: State, t: State, k: nat)
    requires Inv(c, s) && Next(c, s, t) && k < c.tables
    ensures |t.workers| == c.tables && (Passed(s, k) ==> Passed(t, k))
    ensures Passed(t, k) && !Passed(s, k) ==>
      (t.main.Failed? && t.table == k) || (s.workers[k].Unborn? && !t.workers[k].Unborn?)
    ensures !s.workers[k].Unborn? ==> !t.workers[k].Unborn?
    ensures Passed(s, k) && s.workers[k].Unborn? ==> t.workers[k].Unborn?
  {
  }

  lemma PassInRun(c: Config, run: seq<State>, i: nat, k: nat)
    requires Run(c, run) && i + 1 < |run| && k < c.tables
    ensures |run[i].workers| == |run[i + 1].workers| == c.tables
    ensures Passed(run[i], k) ==>
      Passed(run[i + 1], k) && (run[i].workers[k].Unborn? <==> run[i + 1].workers[k].Unborn?)
    ensures Passed(run[i + 1], k) && !Passed(run[i], k) ==> Fails(run, i + 1, k) || Starts(run, i, k)
  {
    RunInv(c, run, i);
    PassStep(c, run[i], run[i + 1], k);
  }

  lemma {:induction false} StaysPassed(c: Config, run: seq<State>, i: nat, j: nat, k: nat)
    requires Run(c, run) && i <= j < |run| && k < c.tables && |run[i].workers| == c.tables && Passed(run[i], k)
    ensures |run[j].workers| == c.tables && Passed(run[j], k)
    ensures run[i].workers[k].Unborn? <==> run[j].workers[k].Unborn?
    decreases j - i
  {
    if i < j {
      StaysPassed(c, run, i, j - 1, k);
      PassInRun(c, run, j - 1, k);
    }
  }

  /** Every table that main has passed was tried: its worker was started, or could not be. */
  lemma {:induction false} Tried(c: Config, run: seq<State>, n: nat, k: nat) returns (i: nat)
    requires Run(c, run) && n < |run| && k < c.tables && Passed(run[n], k)
    ensures i <= n && ((i < n && Starts(run, i, k)) || Fails(run, i, k))
  {
    if n > 0 {
      PassInRun(c, run, n - 1, k);
      if Passed(run[n - 1], k) {
        i := Tried(c, run, n - 1, k);
      } else {
        i := if Fails(run, n, k) then n else n - 1;
      }
    }
  }

  lemma StartedBy(c: Config, run: seq<State>, i: nat, n: nat, k: nat)
    requires Run(c, run) && i < n < |run| && Starts(run, i, k) && k < c.tables
    ensures |run[n].workers| == c.tables && !run[n].workers[k].Unborn?
  {
    RunInv(c, run, i + 1);
    StartsAt(c, run, i, k);
    StaysPassed(c, run, i + 1, n, k);
  }

  lemma FailedBy(c: Config, run: seq<State>, i: nat, n: nat, k: nat)
    requires Run(c, run) && i <= n < |run| && Fails(run, i, k) && k < c.tables
    ensures |run[n].workers| == c.tables && run[n].workers[k].Unborn?
  {
    RunInv(c, run, i);
    StaysPassed(c, run, i, n, k);
  }

  /** When main is done, every table has had its try: either some step started its worker, and
      it is through, or its thread could not be created, and not both. */
  lemma EveryTableTried(c: Config, run: seq<State>, n: nat, k: nat)
    requires Run(c, run) && n < |run| && run[n].main.Joined? && k < c.tables
    ensures |run[n].workers| == c.tables
    ensures run[n].workers[k].Gone? <==> exists i: nat :: i < n && Starts(run, i, k)
    ensures run[n].workers[k].Unborn? <==> exists i: nat :: i < n && Fails(run, i, k)
    ensures run[n].workers[k].Gone? || run[n].workers[k].Unborn?
  {
    RunInv(c, run, n);
    var j := Tried(c, run, n, k);
    if i: nat :| i < n && Starts(run, i, k) { StartedBy(c, run, i, n, k); }
    if i: nat :| i < n && Fails(run, i, k) { FailedBy(c, run, i, n, k); }
  }

  /** Main waits exactly when as many workers live as may. */
  lemma WaitsAtLimit(c: Config, run: seq<State>, i: nat)
    requires Run(c, run) && i + 1 < |run| && run[i].main.Test? && run[i + 1].main != run[i].main
    ensures run[i + 1].main.Wait? <==> Live(run[i].workers) == c.limit
  {
    RunInv(c, run, i);
    assert Next(c, run[i], run[i + 1]);
  }

  // ------------------------------------------------------------ it can always finish

  function Weight(w: Worker): nat {
    match w
    case Working => 4 case WantsLock => 3 case Holding => 2 case Leaving => 1
    case Unborn => 0 case Gone => 0
  }

  function Work(ws: seq<Worker>): nat {
    if ws == [] then 0 else Work(ws[..|ws| - 1]) + Weight(ws[|ws| - 1])
  }

  lemma {:induction false} WorkUpdate(ws: seq<Worker>, k: nat, w: Worker)
    requires k < |ws|
    ensures Work(ws[k := w]) == Work(ws) - Weight(ws[k]) + Weight(w)
  {
    var n := |ws| - 1;
    if k < n {
      assert ws[k := w][..n] == ws[..n][k := w];
      WorkUpdate(ws[..n], k, w);
    } else {
      assert ws[k := w][..n] == ws[..n];
    }
  }

  /** How far main is from the next table, or from the end. Waiting is a step forward
      only until there is something to see. */
  function Rank(c: Config, s: State): nat {
    match s.main
    case Head => 12 case Lock => 11 case Test => 10 case Counted => 9 case Create => 8
    case Failed => 7 case Undo => 6
    case Wait => if s.counter == c.limit then 5 else 11
    case LastLock => 4 case LastTest => 3
    case LastWait => if s.counter != 0 then 2 else 4
    case Empty => 2 case Destroy => 1 case Joined => 0
  }

  function Measure(c: Config, s: State): nat
    requires s.table <= c.tables
  {
    20 * (6 * (c.tables - s.table) + Work(s.workers)) + Rank(c, s)
  }

  /** Where main does not hold the mutex, a worker that lives or is leaving can move. */
  lemma WorkerMoves(c: Config, s: State, k: nat) returns (t: State)
    requires Inv(c, s) && s.owner != TheMain && k < |s.workers|
    requires IsLive(s.workers[k]) || s.owner == TheWorker(k)
    ensures Next(c, s, t) && Inv(c, t) && Measure(c, t) < Measure(c, s) && KeepsAhead(s, t)
  {
    var j := if s.owner.TheWorker? then s.owner.table else k;
    var w := s.workers[j];
    var w' := if w.Working? then WantsLock else if w.WantsLock? then Holding else if w.Holding? then Leaving else Gone;
    t := s.(workers := s.workers[j := w'],
            counter := if w.Holding? then s.counter - 1 else s.counter,
            owner := if w.WantsLock? then TheWorker(j) else if w.Leaving? then Nobody else s.owner);
    assert WorkerStep(s, t, j);
    WorkerInv(c, s, t, j);
    WorkUpdate(s.workers, j, w');
  }

  lemma {:induction false} SomeLive(ws: seq<Worker>) returns (k: nat)
    requires Live(ws) > 0
    ensures k < |ws| && IsLive(ws[k])
  {
    var n := |ws| - 1;
    if IsLive(ws[n]) { k := n; } else { k := SomeLive(ws[..n]); }
  }

  /** The worker of table `k` is at work, or main has still to start it. */
  predicate Ahead(s: State, k: nat) {
    && k < |s.workers|
    && (!s.workers[k].Unborn? || s.table < k || (s.table == k && !s.main.Failed? && !s.main.Undo?))
  }

  /** No such table is given up in a step. */
  ghost predicate KeepsAhead(s: State, t: State) {
    forall k :: 0 <= k < |s.workers| && Ahead(s, k) ==> Ahead(t, k)
  }

  /** In every state before the end, some thread has a step that brings the end nearer. */
  lemma Forward(c: Config, s: State) returns (t: State)
    requires Inv(c, s) && c.limit > 0 && !s.main.Joined?
    ensures Next(c, s, t) && Inv(c, t) && Measure(c, t) < Measure(c, s) && KeepsAhead(s, t)
  {
    if s.owner.TheWorker? {
      t := WorkerMoves(c, s, s.owner.table);
    } else if (s.main.Wait? && s.counter == c.limit) || (s.main.LastWait? && s.counter != 0) {
      var k := SomeLive(s.workers);
      t := WorkerMoves(c, s, k);
    } else {
      t := MainForward(c, s);
    }
  }

  lemma MainForward(c: Config, s: State) returns (t: State)
    requires Inv(c, s) && !s.owner.TheWorker? && !s.main.Joined?
    requires !(s.main.Wait? && s.counter == c.limit) && !(s.main.LastWait? && s.counter != 0)
    ensures Next(c, s, t) && Inv(c, t) && !t.owner.TheWorker? && Measure(c, t) < Measure(c, s) && KeepsAhead(s, t)
  {
    if s.main.Create? {
      t := s.(main := Head, table := s.table + 1, workers := s.workers[s.table := Working]);
      WorkUpdate(s.workers, s.table, Working);
    } else {
      t := MainChoice(c, s, Live(s.workers));
    }
    MainInv(c, s, t);
  }

  /** Main's next step, where it has one: nearer to the next table, or past it. */
  lemma MainChoice(c: Config, s: State, live: nat) returns (t: State)
    requires Control(c, s, live) && !s.owner.TheWorker? && !s.main.Joined? && !s.main.Create?
    requires !(s.main.Wait? && s.counter == c.limit) && !(s.main.LastWait? && s.counter != 0)
    ensures MainStep(c, s, t) && t.workers == s.workers && !t.owner.TheWorker?
    ensures (t.table == s.table && Rank(c, t) < Rank(c, s)) || (t.table == s.table + 1 <= c.tables)
  {
    match s.main
    case Head => t := s.(main := if s.table < c.tables then Lock else LastLock);
    case Lock => t := s.(main := Test, owner := TheMain);
    case Test =>
      t := if s.counter == c.limit then s.(main := Wait, owner := Nobody)
           else s.(main := Counted, counter := s.counter + 1);
    case Wait => t := s.(main := Test, owner := TheMain);
    case Counted => t := s.(main := Create, owner := Nobody);
    case Failed => t := s.(main := Undo, owner := TheMain);
    case Undo => t := s.(main := Head, table := s.table + 1, counter := s.counter - 1, owner := Nobody);
    case LastLock => t := s.(main := LastTest, owner := TheMain);
    case LastTest => t := if s.counter != 0 then s.(main := LastWait, owner := Nobody) else s.(main := Empty);
    case LastWait => t := s.(main := LastTest, owner := TheMain);
    case Empty => t := s.(main := Destroy, owner := Nobody);
    case Destroy => t := s.(main := Joined);
  }

  lemma {:induction false} CanFinish(c: Config, s: State) returns (rest: seq<State>)
    requires Inv(c, s) && c.limit > 0
    ensures rest != [] && rest[0] == s && rest[|rest| - 1].main.Joined? && |rest[|rest| - 1].workers| == c.tables
    ensures forall k :: 0 <= k < c.tables && Ahead(s, k) ==> rest[|rest| - 1].workers[k].Gone?
    ensures forall i :: 0 <= i < |rest| - 1 ==> Next(c, rest[i], rest[i + 1])
    decreases Measure(c, s)
  {
    if s.main.Joined? {
      rest := [s];
    } else {
      var t := Forward(c, s);
      var tail := CanFinish(c, t);
      rest := [s] + tail;
    }
  }

  /** From every reachable state, whatever happened so far, the program can still run to
      its end, and import every table whose thread could be created so far: the threads
      never block each other for good. */
  lemma ReachableCanFinish(c: Config, run: seq<State>) returns (rest: seq<State>)
    requires Run(c, run) && c.limit > 0
    ensures Run(c, run + rest)
    ensures var t := (run + rest)[|run + rest| - 1];
      && t.main.Joined? && |t.workers| == c.tables
      && forall k :: 0 <= k < c.tables && Ahead(run[|run| - 1], k) ==> t.workers[k].Gone?
  {
    var s := run[|run| - 1];
    RunInv(c, run, |run| - 1);
    var finish := CanFinish(c, s);
    rest := finish[1..];
    var whole := run + rest;
    forall i | 0 <= i < |whole| - 1 ensures Next(c, whole[i], whole[i + 1]) {
      if i >= |run| - 1 {
        var j := i - (|run| - 1);
        assert Next(c, finish[j], finish[j + 1]);
      }
    }
  }
}
