/**
 The bridge's work queue: rows are claimed, handed to workers, called at most once and finished, over any
 number of crashes and restarts. Each database statement is one atomic update of the rows; a statement
 whose reply is lost may or may not have been applied.
 */
module BridgeQueue {
  import opened Options
  import opened Sequences

  datatype Status = Pending | InProgress | Done | Error

  /** A work_queue row; `proxy` says that its kind is mcp_proxy, the only kind the bridge touches. */
  datatype Row = Row(createdAt: int, proxy: bool, status: Status)

  type Rows = map<int, Row>

  /** What a worker is doing: nothing, holding a claimed row, or waiting for CallTool to return. */
  datatype Work = Idle | Holding(id: int) | Calling(id: int)

  /**
   The rows survive a crash. The rest belongs to the running bridge: the row its main loop has claimed and
   not yet handed off, the job channel and the workers. `calls` lists every row handed to CallTool, and
   `orphans` the rows left in progress that nothing will finish.
   */
  datatype State = State(rows: Rows, up: bool, hand: Option<int>, jobs: seq<int>, workers: map<int, Work>,
                         calls: seq<int>, orphans: set<int>)

  datatype Event =
    | Enqueue(id: int, row: Row)
    | OtherKind(id: int, status: Status)
    | Claim(id: int)
    | ClaimLost(id: int)
    | HandOff
    | CancelHandOff
    | Take(worker: int)
    | Call(worker: int)
    | FinishDone(worker: int, applied: bool)
    | FinishError(worker: int, applied: bool)
    | Crash
    | Start(workers: set<int>, reaped: bool)

  /** How the database answers a claim: with the row it claimed, not at all, or not but after claiming. */
  datatype Reply = Received | Failed | Lost

  // ----- the steps -----

  predicate Claimable(rows: Rows, id: int) {
    id in rows && rows[id].proxy && rows[id].status == Pending
  }

  /** Oldest among the claimable rows that nobody else has locked. */
  predicate IsOldest(rows: Rows, locked: set<int>, id: int) {
    && Claimable(rows, id) && id !in locked
    && forall k <- rows :: Claimable(rows, k) && k !in locked ==> rows[id].createdAt <= rows[k].createdAt
  }

  function SetStatus(rows: Rows, id: int, status: Status): Rows {
    if id in rows then rows[id := rows[id].(status := status)] else rows
  }

  /** The startup recovery pass: every stale in_progress row becomes an error. */
  function Reap(rows: Rows): Rows {
    map id | id in rows ::
      if rows[id].proxy && rows[id].status == InProgress then rows[id].(status := Error) else rows[id]
  }

  function WorkOf(s: State, w: int): Work { if w in s.workers then s.workers[w] else Idle }

  function Ids(work: Work): set<int> { if work.Idle? then {} else {work.id} }

  /** The rows that some part of the running bridge holds. */
  function InFlight(s: State): set<int> {
    (if s.hand.Some? then {s.hand.value} else {})
    + (set id | id in s.jobs)
    + (set w, id | w in s.workers && id in Ids(s.workers[w]) :: id)
  }

  ghost predicate Enabled(s: State, e: Event) {
    match e
    case Enqueue(id, row) => id !in s.rows && (row.proxy ==> row.status == Pending)
    case OtherKind(id, _) => id in s.rows && !s.rows[id].proxy
    case Claim(id) => s.up && s.hand.None? && Claimable(s.rows, id)
    case ClaimLost(id) => s.up && s.hand.None? && Claimable(s.rows, id)
    case HandOff => s.up && s.hand.Some? && |s.jobs| < 2 * |s.workers|
    case CancelHandOff => s.up && s.hand.Some?
    case Take(w) => s.up && w in s.workers && s.workers[w].Idle? && s.jobs != []
    case Call(w) => s.up && w in s.workers && s.workers[w].Holding?
    case FinishDone(w, _) => s.up && w in s.workers && s.workers[w].Calling?
    case FinishError(w, _) => s.up && w in s.workers && !s.workers[w].Idle?
    case Crash => s.up
    case Start(_, _) => !s.up
  }

  /** A worker's terminal write: applied, or lost so that nothing will finish the row. */
  function Finish(s: State, w: int, status: Status, applied: bool): State
    requires w in s.workers && !s.workers[w].Idle?
  {
    var id := s.workers[w].id;
    var s' := s.(workers := s.workers[w := Idle]);
    if applied then s'.(rows := SetStatus(s.rows, id, status)) else s'.(orphans := s.orphans + {id})
  }

  function Step(s: State, e: Event): State {
    match e
    case Enqueue(id, row) => s.(rows := s.rows[id := row])
    case OtherKind(id, status) => s.(rows := SetStatus(s.rows, id, status))
    case Claim(id) => s.(rows := SetStatus(s.rows, id, InProgress), hand := Some(id))
    case ClaimLost(id) => s.(rows := SetStatus(s.rows, id, InProgress), orphans := s.orphans + {id})
    case HandOff => if s.hand.None? then s else s.(jobs := s.jobs + [s.hand.value], hand := None)
    case CancelHandOff => if s.hand.None? then s else s.(orphans := s.orphans + {s.hand.value}, hand := None)
    case Take(w) =>
      if s.jobs == [] then s else s.(workers := s.workers[w := Holding(s.jobs[0])], jobs := s.jobs[1..])
    case Call(w) =>
      if !WorkOf(s, w).Holding? then s
      else s.(workers := s.workers[w := Calling(s.workers[w].id)], calls := s.calls + [s.workers[w].id])
    case FinishDone(w, applied) => if !WorkOf(s, w).Calling? then s else Finish(s, w, Done, applied)
    case FinishError(w, applied) => if WorkOf(s, w).Idle? then s else Finish(s, w, Error, applied)
    case Crash => s.(up := false, hand := None, jobs := [], workers := map[], orphans := s.orphans + InFlight(s))
    case Start(ws, reaped) =>
      var s' := s.(up := true, workers := map w | w in ws :: Idle);
      if reaped then s'.(rows := Reap(s.rows), orphans := {}) else s'
  }

  /** Where a row is claimable and not locked, some such row is oldest. */
  lemma {:induction false} SomeOldest(rows: Rows, locked: set<int>, ids: set<int>, id: int) returns (oldest: int)
    requires id in ids && Claimable(rows, id) && forall k <- ids :: Claimable(rows, k) && k !in locked
    requires forall k <- rows :: Claimable(rows, k) && k !in locked && k !in ids ==> rows[id].createdAt <= rows[k].createdAt
    ensures IsOldest(rows, locked, oldest)
    decreases ids
  {
    if k :| k in ids && rows[k].createdAt < rows[id].createdAt {
      var older := set j | j in ids && rows[j].createdAt < rows[id].createdAt;
      assert id !in older;
      oldest := SomeOldest(rows, locked, older, k);
    } else {
      oldest := id;
    }
  }

  // ----- the bridge as it runs -----

  class Bridge {
    var rows: Rows
    var up: bool
    var hand: Option<int>
    var jobs: seq<int>
    var workers: map<int, Work>
    var calls: seq<int>
    var orphans: set<int>

    ghost function View(): State
      reads this
    {
      State(rows, up, hand, jobs, workers, calls, orphans)
    }

    constructor (rows: Rows)
      ensures View() == State(rows, false, None, [], map[], [], {})
    {
      this.rows, up, hand, jobs, workers, calls, orphans := rows, false, None, [], map[], [], {};
    }

    method RunBridge(ids: set<int>, reapApplied: bool)
      requires !up
      modifies this
      ensures View() == Step(old(View()), Start(ids, reapApplied))
    {
      if reapApplied {
        ReapStaleRows();
      }
      up := true;
      workers := map w | w in ids :: Idle;
    }

    method ReapStaleRows()
      modifies this`rows, this`orphans
      ensures rows == Reap(old(rows)) && orphans == {}
    {
      rows := map id | id in rows ::
        if rows[id].proxy && rows[id].status == InProgress then rows[id].(status := Error) else rows[id];
      orphans := {};
    }

    /**
     Claims the oldest pending row that nobody else has locked; none when the query fails or every pending
     row is locked. A query that fails may have claimed its row all the same, which is then lost.
     */
    method DrainOne(locked: set<int>, reply: Reply) returns (claimed: Option<int>)
      requires up && hand.None?
      modifies this
      ensures claimed.Some? ==> reply == Received && IsOldest(old(rows), locked, claimed.value)
      ensures claimed.Some? ==> forall id :: Claimable(old(rows), id) && id !in locked ==>
                                  old(rows)[claimed.value].createdAt <= old(rows)[id].createdAt
      ensures claimed.Some? ==> View() == Step(old(View()), Claim(claimed.value))
      ensures claimed.None? && View() != old(View()) ==>
                reply == Lost && exists id :: IsOldest(old(rows), locked, id) && View() == Step(old(View()), ClaimLost(id))
      ensures claimed.None? && reply == Received ==>
                View() == old(View()) && forall id :: Claimable(rows, id) ==> id in locked
      ensures reply == Failed ==> View() == old(View())
    {
      claimed := None;
      if reply == Failed {
        return;
      }
      if id :| id in rows && IsOldest(rows, locked, id) {
        rows := rows[id := rows[id].(status := InProgress)];
        if reply == Lost {
          orphans := orphans + {id};
          return;
        }
        hand := Some(id);
        claimed := Some(id);
      } else {
        forall id | Claimable(rows, id) ensures id in locked {
          if id !in locked {
            var oldest := SomeOldest(rows, locked, (set k | k in rows && Claimable(rows, k) && k !in locked), id);
          }
        }
      }
    }

    /** The select after a claim: the row goes to the job channel, or the context ends first. */
    method HandOffOrCancel(cancelled: bool)
      requires up && hand.Some?
      modifies this
      ensures View() == Step(old(View()), if cancelled then CancelHandOff else HandOff)
    {
      if cancelled {
        orphans := orphans + {hand.value};
      } else {
        jobs := jobs + [hand.value];
      }
      hand := None;
    }

    method TakeJob(w: int)
      requires up && w in workers && workers[w].Idle? && jobs != []
      modifies this
      ensures View() == Step(old(View()), Take(w))
    {
      workers := workers[w := Holding(jobs[0])];
      jobs := jobs[1..];
    }

    method CallTool(w: int)
      requires up && w in workers && workers[w].Holding?
      modifies this
      ensures View() == Step(old(View()), Call(w))
    {
      var id := workers[w].id;
      calls := calls + [id];
      workers := workers[w := Calling(id)];
    }

    method WriteResult(w: int, applied: bool)
      requires up && w in workers && workers[w].Calling?
      modifies this
      ensures View() == Step(old(View()), FinishDone(w, applied))
    {
      TerminalWrite(w, Done, applied);
    }

    method WriteError(w: int, applied: bool)
      requires up && w in workers && !workers[w].Idle?
      modifies this
      ensures View() == Step(old(View()), FinishError(w, applied))
    {
      TerminalWrite(w, Error, applied);
    }

    method TerminalWrite(w: int, status: Status, applied: bool)
      requires w in workers && !workers[w].Idle?
      modifies this
      ensures View() == Finish(old(View()), w, status, applied)
    {
      var id := workers[w].id;
      if applied {
        if id in rows {
          rows := rows[id := rows[id].(status := status)];
        }
      } else {
        orphans := orphans + {id};
      }
      workers := workers[w := Idle];
    }
  }

  // ----- the invariant -----

  predicate Stale(rows: Rows, id: int) { id in rows && rows[id].proxy && rows[id].status == InProgress }

  predicate NoRepeats(s: seq<int>) { forall i, j :: 0 <= i < j < |s| ==> s[i] != s[j] }

  /** The row is the main loop's, in the job channel, with a worker, or orphaned. */
  ghost predicate Located(s: State, id: int) {
    s.hand == Some(id) || id in s.jobs || (exists w :: w in s.workers && id in Ids(s.workers[w])) || id in s.orphans
  }

  /** No row is in two of those places, or with two workers. */
  ghost predicate NoSharing(s: State) {
    && NoRepeats(s.jobs)
    && (s.hand.Some? ==> s.hand.value !in s.jobs && s.hand.value !in s.orphans)
    && (forall id <- s.jobs :: id !in s.orphans)
    && (forall w <- s.workers :: !s.workers[w].Idle? ==>
          var id := s.workers[w].id; s.hand != Some(id) && id !in s.jobs && id !in s.orphans)
    && (forall v, w :: v in s.workers && w in s.workers && v != w && !s.workers[v].Idle? && !s.workers[w].Idle? ==>
          s.workers[v].id != s.workers[w].id)
  }

  /** A called row is past pending, and only the worker that called it still holds it, if any does. */
  ghost predicate CalledOnce(s: State) {
    && NoRepeats(s.calls)
    && forall id <- s.calls ::
         && id in s.rows && s.rows[id].proxy && s.rows[id].status != Pending
         && s.hand != Some(id) && id !in s.jobs
         && forall w <- s.workers :: s.workers[w] != Holding(id)
  }

  ghost predicate Inv(s: State) {
    && (forall id :: Stale(s.rows, id) <==> Located(s, id))
    && NoSharing(s)
    && CalledOnce(s)
    && (!s.up ==> s.hand.None? && s.jobs == [] && s.workers == map[])
  }

  lemma ClaimKeepsInv(s: State, e: Event)
    requires Inv(s) && Enabled(s, e) && (e.Claim? || e.ClaimLost?)
    ensures Inv(Step(s, e))
  {
    var s' := Step(s, e);
    assert !Located(s, e.id);
    forall id ensures Located(s', id) <==> id == e.id || Located(s, id) {}
  }

  lemma HandOffKeepsInv(s: State, e: Event)
    requires Inv(s) && Enabled(s, e) && (e.HandOff? || e.CancelHandOff?)
    ensures Inv(Step(s, e))
  {
    var s' := Step(s, e);
    forall id ensures Located(s', id) <==> Located(s, id) {}
  }

  lemma TakeKeepsInv(s: State, e: Event)
    requires Inv(s) && Enabled(s, e) && e.Take?
    ensures Inv(Step(s, e))
  {
    var s' := Step(s, e);
    HeadAndTail(s.jobs);
    assert s'.workers[e.worker] == Holding(s.jobs[0]);
    forall id ensures Located(s', id) <==> Located(s, id) {
      if w :| w in s.workers && id in Ids(s.workers[w]) {
        assert w in s'.workers && id in Ids(s'.workers[w]);
      }
    }
  }

  lemma CallKeepsInv(s: State, e: Event)
    requires Inv(s) && Enabled(s, e) && e.Call?
    ensures Inv(Step(s, e))
  {
    var s' := Step(s, e);
    var called := s.workers[e.worker].id;
    assert Located(s, called);
    assert called !in s.calls;
    forall id ensures Located(s', id) <==> Located(s, id) {
      if w :| w in s.workers && id in Ids(s.workers[w]) {
        assert w in s'.workers && id in Ids(s'.workers[w]);
      }
      if w :| w in s'.workers && id in Ids(s'.workers[w]) {
        assert w in s.workers && id in Ids(s.workers[w]);
      }
    }
  }

  lemma FinishKeepsInv(s: State, e: Event)
    requires Inv(s) && Enabled(s, e) && (e.FinishDone? || e.FinishError?)
    ensures Inv(Step(s, e))
  {
    FinishLocates(s, e);
    FinishKeepsNoSharing(s, e);
  }

  lemma FinishKeepsNoSharing(s: State, e: Event)
    requires NoSharing(s) && Enabled(s, e) && (e.FinishDone? || e.FinishError?)
    ensures NoSharing(Step(s, e))
  {
  }

  /** The finished row is in no place any more when the write is applied, and orphaned when it is lost. */
  lemma FinishLocates(s: State, e: Event)
    requires NoSharing(s) && Enabled(s, e) && (e.FinishDone? || e.FinishError?)
    ensures Located(s, s.workers[e.worker].id)
    ensures forall id :: Located(Step(s, e), id) <==> Located(s, id) && !(id == s.workers[e.worker].id && e.applied)
  {
    assert e.worker in s.workers && s.workers[e.worker].id in Ids(s.workers[e.worker]);
    var s' := Step(s, e);
    var finished := s.workers[e.worker].id;
    forall id ensures Located(s', id) <==> Located(s, id) && !(id == finished && e.applied) {
      if w :| w in s.workers && id in Ids(s.workers[w]) {
        assert w != e.worker ==> w in s'.workers && id in Ids(s'.workers[w]);
      }
      if w :| w in s'.workers && id in Ids(s'.workers[w]) {
        assert w in s.workers && id in Ids(s.workers[w]);
      }
    }
  }

  lemma CrashKeepsInv(s: State)
    requires Inv(s)
    ensures Inv(Step(s, Crash))
  {
    var s' := Step(s, Crash);
    forall id ensures Located(s', id) <==> Located(s, id) {}
  }

  lemma StartKeepsInv(s: State, e: Event)
    requires Inv(s) && Enabled(s, e) && e.Start?
    ensures Inv(Step(s, e))
    ensures e.reaped ==> forall id :: !Stale(Step(s, e).rows, id)
  {
    var s' := Step(s, e);
    forall id ensures Located(s', id) <==> !e.reaped && Located(s, id) {}
  }

  lemma OutsideKeepsInv(s: State, e: Event)
    requires Inv(s) && Enabled(s, e) && (e.Enqueue? || e.OtherKind?)
    ensures Inv(Step(s, e))
  {
    var s' := Step(s, e);
    forall id ensures Located(s', id) <==> Located(s, id) {}
    forall id ensures Stale(s'.rows, id) <==> Stale(s.rows, id) {}
  }

  lemma StepKeepsInv(s: State, e: Event)
    requires Inv(s) && Enabled(s, e)
    ensures Inv(Step(s, e))
  {
    match e
    case Enqueue(_, _) => OutsideKeepsInv(s, e);
    case OtherKind(_, _) => OutsideKeepsInv(s, e);
    case Claim(_) => ClaimKeepsInv(s, e);
    case ClaimLost(_) => ClaimKeepsInv(s, e);
    case HandOff => HandOffKeepsInv(s, e);
    case CancelHandOff => HandOffKeepsInv(s, e);
    case Take(_) => TakeKeepsInv(s, e);
    case Call(_) => CallKeepsInv(s, e);
    case FinishDone(_, _) => FinishKeepsInv(s, e);
    case FinishError(_, _) => FinishKeepsInv(s, e);
    case Crash => CrashKeepsInv(s);
    case Start(_, _) => StartKeepsInv(s, e);
  }

  predicate Terminal(status: Status) { status == Done || status == Error }

  function Rank(status: Status): nat {
    match status case Pending => 0 case InProgress => 1 case Done => 2 case Error => 2
  }

  /** A row the bridge may touch only moves forward, and a terminal one does not move at all. */
  lemma StatusMovesForward(s: State, e: Event, id: int)
    requires Inv(s) && Enabled(s, e) && id in s.rows && s.rows[id].proxy
    ensures id in Step(s, e).rows && Step(s, e).rows[id].proxy
    ensures Rank(s.rows[id].status) <= Rank(Step(s, e).rows[id].status)
    ensures Terminal(s.rows[id].status) ==> Step(s, e).rows[id] == s.rows[id]
    ensures s.calls <= Step(s, e).calls
  {
    if e.FinishDone? || e.FinishError? {
      assert Located(s, s.workers[e.worker].id);
    }
  }

  // ----- what each event does to a row -----

  /** The row gets the status by this step. */
  predicate Becomes(s: State, s': State, id: int, status: Status) {
    id in s.rows && id in s'.rows && s.rows[id].status != status && s'.rows[id].status == status
  }

  /**
   A row of the bridge becomes in progress when it is claimed, done when the worker that called it reports a reply and
   the write is applied, and an error when the write of a failure is applied, or a startup reap finds it in progress.
   It changes in no other way.
   */
  predicate ChangesAsReported(s: State, e: Event, s': State, id: int)
    requires id in s.rows
  {
    && (Becomes(s, s', id, InProgress) <==> e == Claim(id) || e == ClaimLost(id))
    && (Becomes(s, s', id, Done) <==> e.FinishDone? && e.applied && WorkOf(s, e.worker) == Calling(id))
    && (Becomes(s, s', id, Error) <==>
        || (e.FinishError? && e.applied && WorkOf(s, e.worker) in {Holding(id), Calling(id)})
        || (e.Start? && e.reaped && s.rows[id].status == InProgress))
    && !Becomes(s, s', id, Pending)
    && id in s'.rows && s'.rows[id].(status := s.rows[id].status) == s.rows[id]
  }

  lemma StepChangesStatus(s: State, e: Event, id: int)
    requires Inv(s) && Enabled(s, e) && id in s.rows && s.rows[id].proxy
    ensures ChangesAsReported(s, e, Step(s, e), id)
  {
    if e.FinishDone? || e.FinishError? {
      assert Located(s, s.workers[e.worker].id);
    }
  }

  /** Other kinds of rows change only from outside, and only there do rows appear; none disappears. */
  lemma OtherRowsAreLeftAlone(s: State, e: Event, id: int)
    requires Inv(s) && Enabled(s, e)
    ensures id in Step(s, e).rows <==> id in s.rows || (e.Enqueue? && e.id == id)
    ensures e.Enqueue? && e.id == id ==> Step(s, e).rows[id] == e.row
    ensures id in s.rows && !s.rows[id].proxy ==>
              Step(s, e).rows[id] == if e.OtherKind? && e.id == id then s.rows[id].(status := e.status) else s.rows[id]
  {
    if e.FinishDone? || e.FinishError? {
      assert Located(s, s.workers[e.worker].id);
    }
  }

  /** A row is lost to the bridge exactly when a claim, a hand-off or a write of it fails unnoticed, or it crashes. */
  lemma OrphanedIff(s: State, e: Event, id: int)
    requires (forall k :: Stale(s.rows, k) <==> Located(s, k)) && Enabled(s, e) && id !in s.orphans
    ensures id in Step(s, e).orphans <==>
            || e == ClaimLost(id)
            || (e.CancelHandOff? && s.hand == Some(id))
            || ((e.FinishDone? || e.FinishError?) && !e.applied && s.workers[e.worker] in {Holding(id), Calling(id)})
            || (e.Crash? && Stale(s.rows, id))
  {
    if e.Crash? {
      InFlightIsLocated(s, id);
      assert Stale(s.rows, id) <==> Located(s, id);
    }
  }

  lemma InFlightIsLocated(s: State, id: int)
    ensures id in InFlight(s) || id in s.orphans <==> Located(s, id)
  {
  }

  // ----- runs -----

  /** A queue that no bridge has worked on yet: its proxy rows are pending or finished. */
  ghost predicate IsInitial(s: State) {
    && s == State(s.rows, false, None, [], map[], [], {})
    && forall id :: !Stale(s.rows, id)
  }

  /** A run lists the states it goes through, one more than its events. */
  datatype Run = Run(states: seq<State>, events: seq<Event>)

  /** The i-th event can happen, and does what its step says. */
  ghost predicate Stepped(r: Run, i: nat)
    requires i < |r.events| && |r.states| == |r.events| + 1
  {
    Enabled(r.states[i], r.events[i]) && r.states[i + 1] == Step(r.states[i], r.events[i])
  }

  ghost predicate IsRun(r: Run) {
    && |r.states| == |r.events| + 1
    && IsInitial(r.states[0])
    && forall i: nat :: i < |r.events| ==> Stepped(r, i)
  }

  lemma {:induction false} RunKeepsInv(r: Run, n: nat)
    requires IsRun(r) && n < |r.states|
    ensures Inv(r.states[n])
  {
    if n > 0 {
      RunKeepsInv(r, n - 1);
      assert Stepped(r, n - 1);
      StepKeepsInv(r.states[n - 1], r.events[n - 1]);
    }
  }

  /** Over all incarnations of the bridge each row is handed to CallTool at most once. */
  lemma CalledAtMostOnce(r: Run, n: nat, i: nat, j: nat)
    requires IsRun(r) && n < |r.states| && i < j < |r.states[n].calls|
    ensures r.states[n].calls[i] != r.states[n].calls[j]
  {
    RunKeepsInv(r, n);
  }

  /** In every reachable state an in_progress row is in exactly one place. */
  lemma InProgressIsLocated(r: Run, n: nat, id: int)
    requires IsRun(r) && n < |r.states|
    ensures Stale(r.states[n].rows, id) <==> Located(r.states[n], id)
    ensures NoSharing(r.states[n])
  {
    RunKeepsInv(r, n);
  }

  /** A startup reap that is applied leaves no row in progress. */
  lemma ReapLeavesNoneInProgress(r: Run, n: nat, id: int)
    requires IsRun(r) && n < |r.events| && r.events[n].Start? && r.events[n].reaped
    ensures !Stale(r.states[n + 1].rows, id) && !Located(r.states[n + 1], id)
  {
    RunKeepsInv(r, n);
    RunKeepsInv(r, n + 1);
    assert Stepped(r, n);
    StartKeepsInv(r.states[n], r.events[n]);
  }

  lemma TerminalStays(r: Run, n: nat, id: int)
    requires IsRun(r) && n < |r.events|
    requires id in r.states[n].rows && r.states[n].rows[id].proxy && Terminal(r.states[n].rows[id].status)
    ensures id in r.states[n + 1].rows && r.states[n + 1].rows[id] == r.states[n].rows[id]
  {
    RunKeepsInv(r, n);
    assert Stepped(r, n);
    StatusMovesForward(r.states[n], r.events[n], id);
  }

  /** Done and error are final over any continuation of a run. */
  lemma {:induction false} TerminalIsFinal(r: Run, i: nat, n: nat, id: int)
    requires IsRun(r) && i <= n < |r.states|
    requires id in r.states[i].rows && r.states[i].rows[id].proxy && Terminal(r.states[i].rows[id].status)
    ensures id in r.states[n].rows && r.states[n].rows[id] == r.states[i].rows[id]
  {
    if i < n {
      TerminalIsFinal(r, i, n - 1, id);
      TerminalStays(r, n - 1, id);
    }
  }

  /** On every run each row of the bridge changes exactly as its events report. */
  lemma StatusChangesIff(r: Run, n: nat, id: int)
    requires IsRun(r) && n < |r.events| && id in r.states[n].rows && r.states[n].rows[id].proxy
    ensures ChangesAsReported(r.states[n], r.events[n], r.states[n + 1], id)
  {
    RunKeepsInv(r, n);
    assert Stepped(r, n);
    StepChangesStatus(r.states[n], r.events[n], id);
  }

  /** A row whose call is under way has been handed to CallTool. */
  ghost predicate CallsAreListed(s: State) {
    forall w <- s.workers :: s.workers[w].Calling? ==> s.workers[w].id in s.calls
  }

  lemma {:induction false} RunsListCalls(r: Run, n: nat)
    requires IsRun(r) && n < |r.states|
    ensures CallsAreListed(r.states[n])
  {
    if n > 0 {
      RunsListCalls(r, n - 1);
      assert Stepped(r, n - 1);
    }
  }

  /** A row is done only after its one call, on every run. */
  lemma {:induction false} DoneWasCalled(r: Run, n: nat, id: int)
    requires IsRun(r) && n < |r.states| && id in r.states[n].rows && r.states[n].rows[id].proxy
    requires r.states[n].rows[id].status == Done
    requires id in r.states[0].rows ==> r.states[0].rows[id].status != Done
    ensures id in r.states[n].calls
  {
    if n > 0 {
      RunKeepsInv(r, n - 1);
      RunsListCalls(r, n - 1);
      DoneByStep(r, n - 1, id);
      if id !in r.states[n].calls {
        DoneWasCalled(r, n - 1, id);
      }
    }
  }

  /** A row that is done after a step was called, or was done before. */
  lemma DoneByStep(r: Run, n: nat, id: int)
    requires IsRun(r) && n < |r.events| && Inv(r.states[n]) && CallsAreListed(r.states[n])
    requires var rows' := r.states[n + 1].rows; id in rows' && rows'[id].proxy && rows'[id].status == Done
    ensures var s, s' := r.states[n], r.states[n + 1];
            id !in s'.calls ==> id !in s.calls && id in s.rows && s.rows[id].proxy && s.rows[id].status == Done
  {
    var s, e := r.states[n], r.events[n];
    assert Stepped(r, n);
    OtherRowsAreLeftAlone(s, e, id);
    if id in s.rows && s.rows[id].proxy {
      StatusMovesForward(s, e, id);
      StepChangesStatus(s, e, id);
    }
  }

  // ----- the job channel -----

  /** A crash leaves every row in progress to nobody. */
  lemma CrashOrphansAll(r: Run, n: nat, id: int)
    requires IsRun(r) && n < |r.events| && r.events[n].Crash?
    ensures var s, s' := r.states[n], r.states[n + 1];
            !s'.up && s'.rows == s.rows && (Stale(s.rows, id) <==> id in s'.orphans)
  {
    RunKeepsInv(r, n + 1);
    assert Stepped(r, n);
    assert Located(r.states[n + 1], id) <==> id in r.states[n + 1].orphans;
  }

  /** A bridge starts with idle workers and nothing in its hands, and its workers stay until it crashes. */
  lemma WorkersStay(r: Run, n: nat)
    requires IsRun(r) && n < |r.events| && !r.events[n].Crash?
    ensures var s, s' := r.states[n], r.states[n + 1];
            if r.events[n].Start? then
              && s'.up && s'.workers.Keys == r.events[n].workers && s'.hand.None? && s'.jobs == []
              && forall w <- s'.workers :: s'.workers[w].Idle?
            else s'.up == s.up && s'.workers.Keys == s.workers.Keys
  {
    RunKeepsInv(r, n);
    assert Stepped(r, n);
  }

  /** The rows handed to the job channel since the bridge came up. */
  ghost function HandedOff(r: Run, n: nat): seq<int>
    requires IsRun(r) && n < |r.states|
  {
    if n == 0 then []
    else
      match r.events[n - 1]
      case Crash => []
      case HandOff =>
        HandedOff(r, n - 1) + (if r.states[n - 1].hand.Some? then [r.states[n - 1].hand.value] else [])
      case _ => HandedOff(r, n - 1)
  }

  /** The rows that a worker took from it, from the front. */
  ghost function Taken(r: Run, n: nat): seq<int>
    requires IsRun(r) && n < |r.states|
  {
    if n == 0 then []
    else
      match r.events[n - 1]
      case Crash => []
      case Take(_) => Taken(r, n - 1) + (if r.states[n - 1].jobs != [] then [r.states[n - 1].jobs[0]] else [])
      case _ => Taken(r, n - 1)
  }

  /**
   On every run a claimed row is in the main loop's hand until it is handed off; a worker that takes a row holds the
   longest waiting one, is calling it once it calls the tool, which lists the call, and is idle after its last write.
   */
  lemma RowsMoveAlong(r: Run, n: nat, w: int)
    requires IsRun(r) && n < |r.events| && !r.events[n].Crash? && !r.events[n].Start?
    ensures var s, s', e := r.states[n], r.states[n + 1], r.events[n];
            && s'.hand == (if e.Claim? then Some(e.id) else if e.HandOff? || e.CancelHandOff? then None else s.hand)
            && (e == Take(w) ==> s.jobs != [] && WorkOf(s, w).Idle? && WorkOf(s', w) == Holding(s.jobs[0]))
            && (e == Call(w) ==> WorkOf(s, w).Holding? && WorkOf(s', w) == Calling(WorkOf(s, w).id))
            && ((e.FinishDone? || e.FinishError?) && e.worker == w ==> WorkOf(s', w).Idle?)
            && (e != Take(w) && e != Call(w) && !((e.FinishDone? || e.FinishError?) && e.worker == w) ==>
                  WorkOf(s', w) == WorkOf(s, w))
            && (e == Call(w) ==> s'.calls == s.calls + [WorkOf(s, w).id]) && (!e.Call? ==> s'.calls == s.calls)
  {
    assert Stepped(r, n);
  }

  /** Workers take the rows in the order they were handed off, and no more wait than the channel has room for. */
  lemma {:induction false} JobsAreFifo(r: Run, n: nat)
    requires IsRun(r) && n < |r.states|
    ensures HandedOff(r, n) == Taken(r, n) + r.states[n].jobs
    ensures |r.states[n].jobs| <= 2 * |r.states[n].workers|
  {
    if n > 0 {
      JobsAreFifo(r, n - 1);
      JobStep(r, n - 1, n);
    } else {
      ConcatNothing<int>([]);
    }
  }

  lemma JobStep(r: Run, n: nat, n': nat)
    requires IsRun(r) && n' == n + 1 < |r.states| && HandedOff(r, n) == Taken(r, n) + r.states[n].jobs
    requires |r.states[n].jobs| <= 2 * |r.states[n].workers|
    ensures HandedOff(r, n') == Taken(r, n') + r.states[n'].jobs
    ensures |r.states[n'].jobs| <= 2 * |r.states[n'].workers|
  {
    var s, s', e := r.states[n], r.states[n'], r.events[n];
    assert Stepped(r, n);
    if !e.Crash? {
      WorkersStay(r, n);
    } else {
      CrashOrphansAll(r, n, 0);
    }
    SameWorkers(s.workers, s'.workers);
    if e.HandOff? {
      ConcatIsAssociative(Taken(r, n), s.jobs, [s.hand.value]);
    } else if e.Take? {
      HeadAndTail(s.jobs);
      ConcatIsAssociative(Taken(r, n), [s.jobs[0]], s.jobs[1..]);
    } else if e.Crash? {
      ConcatNothing<int>([]);
    }
  }

  lemma SameWorkers(a: map<int, Work>, b: map<int, Work>)
    ensures a.Keys == b.Keys ==> |a| == |b|
  {
    assert |a| == |a.Keys| && |b| == |b.Keys|;
  }
}
