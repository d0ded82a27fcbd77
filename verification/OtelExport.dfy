/**
 The OTLP exporter's at-least-once protocol: each tick fetches a batch of terminal work items above the
 checkpoint, sends their spans and moves the checkpoint; any failure leaves the checkpoint and retries.
 */
module OtelExport {
  import opened Options
  import opened Sequences
  import opened OtelSpans

  const BATCH_LIMIT := 200

  /** A work item row: when it last changed, and whether its status is terminal. */
  datatype Row = Row(updatedAt: int, terminal: bool)

  type Rows = map<string, Row>

  /** One version of a work item: a row changes its time whenever it changes. */
  datatype Version = Version(id: string, updatedAt: int)

  /** The stored checkpoint, the item versions sent in an acknowledged POST, and those skipped as malformed. */
  datatype Ledger = Ledger(stored: int, acked: set<Version>, rejected: set<Version>)

  /** How saving the checkpoint goes; a save that took effect may still be reported as failed. */
  datatype Save = Saved | NotSaved | SavedUnknown

  /** How one tick goes: what was fetched, whether building and posting succeeded, and how saving went. */
  datatype Outcome = Outcome(fetched: Option<seq<Version>>, built: bool, posted: bool, save: Save)

  // ----- the query -----

  predicate Eligible(row: Row, since: int) { row.terminal && row.updatedAt > since }

  /** What the query may return: eligible rows in the order of their times, the earliest ones when there are too many. */
  ghost predicate IsBatch(rows: Rows, since: int, batch: seq<Version>) {
    && |batch| <= BATCH_LIMIT
    && (forall v <- batch :: v.id in rows && Eligible(rows[v.id], since) && rows[v.id].updatedAt == v.updatedAt)
    && (forall i, j :: 0 <= i < j < |batch| ==> batch[i] != batch[j] && batch[i].updatedAt <= batch[j].updatedAt)
    && (forall id :: id in rows && Eligible(rows[id], since) && Version(id, rows[id].updatedAt) !in batch ==>
          |batch| == BATCH_LIMIT && batch[|batch| - 1].updatedAt <= rows[id].updatedAt)
  }

  // ----- one tick -----

  predicate Parses(v: Version) { TraceIdFromUuid(v.id).Some? }

  function Latest(batch: seq<Version>): int {
    if batch == [] then ZERO_TIME
    else
      var before := Latest(batch[..|batch| - 1]);
      var last := batch[|batch| - 1].updatedAt;
      if last > before then last else before
  }

  /** The span of each item is abstracted to its version; what is sent is every item whose id parses. */
  method BuildSpans(batch: seq<Version>) returns (sent: set<Version>, skipped: set<Version>, maxUpdated: int)
    ensures forall v :: v in sent <==> v in batch && Parses(v)
    ensures forall v :: v in skipped <==> v in batch && !Parses(v)
    ensures maxUpdated == Latest(batch)
  {
    sent, skipped, maxUpdated := {}, {}, ZERO_TIME;
    for i := 0 to |batch|
      invariant forall v :: v in sent <==> v in batch[..i] && Parses(v)
      invariant forall v :: v in skipped <==> v in batch[..i] && !Parses(v)
      invariant maxUpdated == Latest(batch[..i])
    {
      PrefixGrows(batch, i, i + 1);
      if batch[i].updatedAt > maxUpdated {
        maxUpdated := batch[i].updatedAt;
      }
      if TraceIdFromUuid(batch[i].id).None? {
        skipped := skipped + {batch[i]};
      } else {
        sent := sent + {batch[i]};
      }
    }
    WholeSlice(batch, |batch|);
  }

  function Sent(batch: seq<Version>): set<Version> { set v | v in batch && Parses(v) }

  function Skipped(batch: seq<Version>): set<Version> { set v | v in batch && !Parses(v) }

  /** What a tick does to the ledger, and the checkpoint it returns. */
  function TickResult(l: Ledger, checkpoint: int, o: Outcome): (Ledger, int) {
    if o.fetched.None? || o.fetched.value == [] || !o.built then (l, checkpoint)
    else
      var batch := o.fetched.value;
      if Sent(batch) != {} && !o.posted then (l, checkpoint)
      else
        var l' := l.(acked := l.acked + Sent(batch), rejected := l.rejected + Skipped(batch));
        match o.save
        case NotSaved => (l', checkpoint)
        case SavedUnknown => (l'.(stored := Latest(batch)), checkpoint)
        case Saved => (l'.(stored := Latest(batch)), Latest(batch))
  }

  class OtelExporter {
    var stored: int
    var acked: set<Version>
    var rejected: set<Version>

    ghost function State(): Ledger
      reads this
    {
      Ledger(stored, acked, rejected)
    }

    constructor (checkpoint: int)
      ensures State() == Ledger(checkpoint, {}, {})
    {
      stored, acked, rejected := checkpoint, {}, {};
    }

    method Tick(checkpoint: int, o: Outcome) returns (next: int)
      modifies this
      ensures (State(), next) == TickResult(old(State()), checkpoint, o)
    {
      next := checkpoint;
      if o.fetched.None? {
        return;
      }
      var items := o.fetched.value;
      if |items| == 0 {
        return;
      }
      var spans, skipped, maxUpdated := BuildSpans(items);
      assert spans == Sent(items) && skipped == Skipped(items);
      if !o.built {
        return;
      }
      if spans != {} {
        if !o.posted {
          return;
        }
        acked := acked + spans;
      }
      assert spans == {} ==> acked + spans == acked;
      rejected := rejected + skipped;
      if o.save != NotSaved {
        stored := maxUpdated;
      }
      if o.save != Saved {
        return;
      }
      next := maxUpdated;
    }
  }

  // ----- runs -----

  /** The ledger and its rows, and the checkpoint the running exporter holds; none while it is down. */
  datatype World = World(rows: Rows, ledger: Ledger, memory: Option<int>)

  datatype Event =
    | Tick(outcome: Outcome)
    | Change(id: string, row: Row)
    | Stop
    | Start

  /** Ticks fetch what the query returns for the checkpoint held; a row that changes lands above the stored one. */
  ghost predicate Enabled(w: World, e: Event) {
    match e
    case Tick(o) => w.memory.Some? && (o.fetched.Some? ==> IsBatch(w.rows, w.memory.value, o.fetched.value))
    case Change(_, row) => row.updatedAt > w.ledger.stored
    case Stop => w.memory.Some?
    case Start => w.memory.None?
  }

  function Step(w: World, e: Event): World {
    match e
    case Tick(o) =>
      if w.memory.None? then w
      else
        var (l, next) := TickResult(w.ledger, w.memory.value, o);
        World(w.rows, l, Some(next))
    case Change(id, row) => w.(rows := w.rows[id := row])
    case Stop => w.(memory := None)
    case Start => w.(memory := Some(w.ledger.stored))
  }

  /** A run lists the worlds it goes through, one more than its events; it starts with no exporter running. */
  datatype Run = Run(worlds: seq<World>, events: seq<Event>)

  ghost predicate IsRun(r: Run) {
    && |r.worlds| == |r.events| + 1
    && r.worlds[0].memory.None? && r.worlds[0].ledger.stored >= ZERO_TIME
    && forall i {:trigger r.events[i]} :: 0 <= i < |r.events| ==>
         Enabled(r.worlds[i], r.events[i]) && r.worlds[i + 1] == Step(r.worlds[i], r.events[i])
  }

  /** Only ticks touch the ledger: a started exporter holds the stored checkpoint, a stopped one none. */
  lemma OtherEventsKeepLedger(w: World, e: Event)
    requires Enabled(w, e) && !e.Tick?
    ensures Step(w, e).ledger == w.ledger
    ensures Step(w, e).memory == if e.Start? then Some(w.ledger.stored) else if e.Stop? then None else w.memory
    ensures Step(w, e).rows == if e.Change? then w.rows[e.id := e.row] else w.rows
  {
  }

  // ----- what a tick covers -----

  /** The tick stores a new checkpoint. */
  predicate Moves(o: Outcome) {
    && o.fetched.Some? && o.fetched.value != [] && o.built && (Sent(o.fetched.value) != {} ==> o.posted)
    && o.save != NotSaved
  }

  /** An eligible row left out of the batch has the same time as the batch's last row. */
  ghost predicate Straddles(rows: Rows, since: int, batch: seq<Version>) {
    batch != [] && exists id :: id in rows && Eligible(rows[id], since)
                                && Version(id, rows[id].updatedAt) !in batch
                                && rows[id].updatedAt == batch[|batch| - 1].updatedAt
  }

  ghost predicate Covered(l: Ledger, rows: Rows, id: string)
    requires id in rows
  {
    Version(id, rows[id].updatedAt) in l.acked + l.rejected
  }

  lemma {:induction false} LatestIsLast(batch: seq<Version>, since: int)
    requires since >= ZERO_TIME && batch != [] && forall v <- batch :: v.updatedAt > since
    requires forall i, j :: 0 <= i < j < |batch| ==> batch[i].updatedAt <= batch[j].updatedAt
    ensures Latest(batch) == batch[|batch| - 1].updatedAt
  {
    var init := batch[..|batch| - 1];
    if init != [] {
      LatestIsLast(init, since);
    } else {
      assert batch[0] in batch;
    }
  }

  /**
   A tick that moves the checkpoint covers every terminal row up to the new checkpoint if and only if no row
   left out by the limit ties with the last row of the batch.
   */
  lemma TickCoversIff(rows: Rows, since: int, batch: seq<Version>)
    requires since >= ZERO_TIME && batch != [] && IsBatch(rows, since, batch)
    ensures Latest(batch) > since
    ensures (forall id :: id in rows && Eligible(rows[id], since) && rows[id].updatedAt <= Latest(batch) ==>
               Version(id, rows[id].updatedAt) in batch)
            <==> !Straddles(rows, since, batch)
  {
    LatestIsLast(batch, since);
    assert batch[|batch| - 1] in batch;
  }

  lemma DistinctTimesDoNotStraddle(rows: Rows, since: int, batch: seq<Version>)
    requires IsBatch(rows, since, batch)
    requires forall a, b :: a in rows && b in rows && rows[a].updatedAt == rows[b].updatedAt ==> a == b
    ensures !Straddles(rows, since, batch)
  {
    if batch != [] {
      assert batch[|batch| - 1] in batch;
    }
  }

  // ----- at least once -----

  /** The checkpoint held is the stored one, or an earlier one when a save took effect unnoticed. */
  predicate Ordered(w: World, initial: int) {
    ZERO_TIME <= initial <= w.ledger.stored && (w.memory.Some? ==> initial <= w.memory.value <= w.ledger.stored)
  }

  /** Every terminal row up to the stored checkpoint, and above the initial one, has been sent or rejected. */
  ghost predicate AtLeastOnce(w: World, initial: int) {
    forall id :: id in w.rows && w.rows[id].terminal && initial < w.rows[id].updatedAt <= w.ledger.stored ==>
                   Covered(w.ledger, w.rows, id)
  }

  /** A tick moves the checkpoint past a row that the limit cut off a tie, and that was never sent or rejected. */
  ghost predicate DropsTie(w: World, e: Event) {
    && e.Tick? && w.memory.Some? && Moves(e.outcome)
    && exists id :: id in w.rows && Eligible(w.rows[id], w.memory.value)
                    && Version(id, w.rows[id].updatedAt) !in e.outcome.fetched.value
                    && w.rows[id].updatedAt == e.outcome.fetched.value[|e.outcome.fetched.value| - 1].updatedAt
                    && !Covered(w.ledger, w.rows, id)
  }

  lemma StepKeepsOrdered(w: World, e: Event, initial: int)
    requires Ordered(w, initial) && Enabled(w, e)
    ensures Ordered(Step(w, e), initial)
    ensures w.ledger.acked <= Step(w, e).ledger.acked && w.ledger.rejected <= Step(w, e).ledger.rejected
  {
    if e.Tick? && Moves(e.outcome) {
      TickCoversIff(w.rows, w.memory.value, e.outcome.fetched.value);
    }
  }

  lemma TickKeepsAtLeastOnce(w: World, e: Event, initial: int, id: string)
    requires Ordered(w, initial) && AtLeastOnce(w, initial) && Enabled(w, e) && !DropsTie(w, e)
    requires e.Tick? && Moves(e.outcome)
    requires id in w.rows && w.rows[id].terminal && initial < w.rows[id].updatedAt <= Latest(e.outcome.fetched.value)
    ensures Covered(Step(w, e).ledger, w.rows, id)
  {
    var batch := e.outcome.fetched.value;
    var v := Version(id, w.rows[id].updatedAt);
    if v.updatedAt <= w.ledger.stored {
      assert Covered(w.ledger, w.rows, id);
    } else {
      TickCoversIff(w.rows, w.memory.value, batch);
      LatestIsLast(batch, w.memory.value);
      assert v in batch || Covered(w.ledger, w.rows, id);
      assert v in batch ==> v in Sent(batch) || v in Skipped(batch);
    }
  }

  /** A step keeps the export at least once exactly when it is not such a tick. */
  lemma StepKeepsAtLeastOnceIff(w: World, e: Event, initial: int)
    requires Ordered(w, initial) && AtLeastOnce(w, initial) && Enabled(w, e)
    ensures AtLeastOnce(Step(w, e), initial) <==> !DropsTie(w, e)
  {
    if DropsTie(w, e) {
      var batch := e.outcome.fetched.value;
      LatestIsLast(batch, w.memory.value);
      var id :| id in w.rows && Eligible(w.rows[id], w.memory.value) && Version(id, w.rows[id].updatedAt) !in batch
                && w.rows[id].updatedAt == batch[|batch| - 1].updatedAt && !Covered(w.ledger, w.rows, id);
      assert !Covered(Step(w, e).ledger, w.rows, id);
    } else if e.Tick? && Moves(e.outcome) {
      forall id | id in w.rows && w.rows[id].terminal && initial < w.rows[id].updatedAt <= Latest(e.outcome.fetched.value)
        ensures Covered(Step(w, e).ledger, w.rows, id)
      {
        TickKeepsAtLeastOnce(w, e, initial, id);
      }
    }
  }

  lemma {:induction false} RunsAreOrdered(r: Run, n: nat)
    requires IsRun(r) && n < |r.worlds|
    ensures Ordered(r.worlds[n], r.worlds[0].ledger.stored)
  {
    if n > 0 {
      RunsAreOrdered(r, n - 1);
      StepKeepsOrdered(r.worlds[n - 1], r.events[n - 1], r.worlds[0].ledger.stored);
    }
  }

  lemma {:induction false} AtLeastOnceUntilTie(r: Run, n: nat)
    requires IsRun(r) && n < |r.worlds| && forall i :: 0 <= i < n ==> !DropsTie(r.worlds[i], r.events[i])
    ensures AtLeastOnce(r.worlds[n], r.worlds[0].ledger.stored)
  {
    if n > 0 {
      AtLeastOnceUntilTie(r, n - 1);
      RunsAreOrdered(r, n - 1);
      StepKeepsAtLeastOnceIff(r.worlds[n - 1], r.events[n - 1], r.worlds[0].ledger.stored);
    }
  }

  /**
   At-least-once export: throughout a run of ticks with any failures, row changes and restarts, every terminal
   row up to the stored checkpoint, and above the initial one, has been sent in an acknowledged POST or
   rejected, if and only if no tick moves the checkpoint past an unsent row that the limit cut off a tie.
   */
  lemma ExportIsAtLeastOnceIff(r: Run)
    requires IsRun(r)
    ensures (forall n: nat :: n < |r.worlds| ==> AtLeastOnce(r.worlds[n], r.worlds[0].ledger.stored))
       <==> (forall i :: 0 <= i < |r.events| ==> !DropsTie(r.worlds[i], r.events[i]))
  {
    var initial := r.worlds[0].ledger.stored;
    if i :| 0 <= i < |r.events| && DropsTie(r.worlds[i], r.events[i]) {
      if AtLeastOnce(r.worlds[i], initial) {
        RunsAreOrdered(r, i);
        StepKeepsAtLeastOnceIff(r.worlds[i], r.events[i], initial);
        assert !AtLeastOnce(r.worlds[i + 1], initial);
      }
    } else {
      forall n: nat | n < |r.worlds| ensures AtLeastOnce(r.worlds[n], initial) {
        AtLeastOnceUntilTie(r, n);
      }
    }
  }

  /** With distinct times there is no tie to drop. */
  lemma DistinctTimesDropNothing(w: World, e: Event)
    requires Enabled(w, e)
    requires forall a, b :: a in w.rows && b in w.rows && w.rows[a].updatedAt == w.rows[b].updatedAt ==> a == b
    ensures !DropsTie(w, e)
  {
    if e.Tick? && w.memory.Some? && Moves(e.outcome) {
      DistinctTimesDoNotStraddle(w.rows, w.memory.value, e.outcome.fetched.value);
    }
  }

  // ----- when the checkpoint decreases -----

  /** The terminal rows strictly between the checkpoint held and the stored one. */
  function Between(w: World): set<string> {
    if w.memory.None? then {}
    else set id | id in w.rows && Eligible(w.rows[id], w.memory.value) && w.rows[id].updatedAt < w.ledger.stored
  }

  /** Fewer rows than one batch are between the two, so that one tick sees past them. */
  predicate Narrow(w: World) { |Between(w)| < BATCH_LIMIT }

  lemma SubsetIsSmaller(a: set<string>, b: set<string>)
    requires a <= b
    ensures |a| <= |b|
  {
    if a != {} {
      var x :| x in a;
      SubsetIsSmaller(a - {x}, b - {x});
    }
  }

  function Ids(batch: seq<Version>): set<string> {
    if batch == [] then {} else Ids(batch[..|batch| - 1]) + {batch[|batch| - 1].id}
  }

  lemma {:induction false} IdsOf(batch: seq<Version>)
    ensures |Ids(batch)| <= |batch|
    ensures forall v <- batch :: v.id in Ids(batch)
  {
    if batch != [] {
      IdsOf(batch[..|batch| - 1]);
      InitAndLast(batch);
    }
  }

  /** Whatever a batch leaves out is not before its last row, so what is before that is in the rest of the batch. */
  lemma TickStaysNarrow(w: World, e: Event)
    requires Enabled(w, e) && e.Tick? && Moves(e.outcome) && w.memory.value >= ZERO_TIME
    ensures Narrow(Step(w, e))
  {
    var batch := e.outcome.fetched.value;
    var init, w' := batch[..|batch| - 1], Step(w, e);
    TickCoversIff(w.rows, w.memory.value, batch);
    LatestIsLast(batch, w.memory.value);
    IdsOf(init);
    forall id | id in Between(w') ensures id in Ids(init) {
      EarlierIsInRest(w.rows, w.memory.value, batch, id);
    }
    SubsetIsSmaller(Between(w'), Ids(init));
  }

  lemma EarlierIsInRest(rows: Rows, since: int, batch: seq<Version>, id: string)
    requires batch != [] && IsBatch(rows, since, batch) && id in rows && Eligible(rows[id], since)
    requires rows[id].updatedAt < batch[|batch| - 1].updatedAt
    ensures id in Ids(batch[..|batch| - 1])
  {
    var init, last, v := batch[..|batch| - 1], batch[|batch| - 1], Version(id, rows[id].updatedAt);
    assert v in batch;
    InitAndLast(batch);
    assert v in init;
    IdsOf(init);
  }

  lemma StepStaysNarrow(w: World, e: Event, initial: int)
    requires Ordered(w, initial) && Narrow(w) && Enabled(w, e)
    ensures Narrow(Step(w, e))
  {
    if e.Tick? && Moves(e.outcome) {
      TickStaysNarrow(w, e);
    } else {
      assert Between(Step(w, e)) <= Between(w);
      SubsetIsSmaller(Between(Step(w, e)), Between(w));
    }
  }

  lemma {:induction false} RunsStayNarrow(r: Run, n: nat)
    requires IsRun(r) && n < |r.worlds|
    ensures Narrow(r.worlds[n])
  {
    if n > 0 {
      RunsStayNarrow(r, n - 1);
      RunsAreOrdered(r, n - 1);
      StepStaysNarrow(r.worlds[n - 1], r.events[n - 1], r.worlds[0].ledger.stored);
    }
  }

  /** A tick moves the checkpoint while everything there is to fetch lies before the stored one. */
  ghost predicate FallsBack(w: World, e: Event) {
    && e.Tick? && w.memory.Some? && Moves(e.outcome)
    && forall id :: id in w.rows && Eligible(w.rows[id], w.memory.value) ==> w.rows[id].updatedAt < w.ledger.stored
  }

  lemma StepLowersIff(w: World, e: Event, initial: int)
    requires Ordered(w, initial) && Narrow(w) && Enabled(w, e)
    ensures Step(w, e).ledger.stored < w.ledger.stored <==> FallsBack(w, e)
  {
    if e.Tick? && Moves(e.outcome) {
      var batch := e.outcome.fetched.value;
      LatestIsLast(batch, w.memory.value);
      assert batch[|batch| - 1] in batch;
      if Latest(batch) < w.ledger.stored && !FallsBack(w, e) {
        FullBatchIsBetween(w, batch);
      }
    }
  }

  /** A batch that ends before the stored checkpoint and leaves a row out would fill the gap. */
  lemma FullBatchIsBetween(w: World, batch: seq<Version>)
    requires w.memory.Some? && IsBatch(w.rows, w.memory.value, batch) && Narrow(w)
    requires batch != [] && batch[|batch| - 1].updatedAt < w.ledger.stored
    ensures forall id :: id in w.rows && Eligible(w.rows[id], w.memory.value) ==> w.rows[id].updatedAt < w.ledger.stored
  {
    forall id | id in w.rows && Eligible(w.rows[id], w.memory.value) ensures w.rows[id].updatedAt < w.ledger.stored {
      if Version(id, w.rows[id].updatedAt) !in batch {
        DistinctIds(w.rows, batch);
        forall k | k in Ids(batch) ensures k in Between(w) {
          IdsAreOf(batch, k);
        }
        SubsetIsSmaller(Ids(batch), Between(w));
      }
    }
  }

  lemma {:induction false} IdsAreOf(batch: seq<Version>, id: string)
    requires id in Ids(batch)
    ensures exists v <- batch :: v.id == id
  {
    var last := batch[|batch| - 1];
    if last.id != id {
      IdsAreOf(batch[..|batch| - 1], id);
    } else {
      assert last in batch;
    }
  }

  /** The versions of a batch are of different rows. */
  lemma {:induction false} DistinctIds(rows: Rows, batch: seq<Version>)
    requires forall v <- batch :: v.id in rows && rows[v.id].updatedAt == v.updatedAt
    requires forall i, j :: 0 <= i < j < |batch| ==> batch[i] != batch[j]
    ensures |Ids(batch)| == |batch|
  {
    if batch != [] {
      var init, last := batch[..|batch| - 1], batch[|batch| - 1];
      InitAndLast(batch);
      DistinctIds(rows, init);
      assert forall v <- init :: v != last;
      if last.id in Ids(init) {
        IdsAreOf(init, last.id);
        assert false;
      }
    }
  }

  /** The checkpoint never decreases throughout a run if and only if no tick finds everything before the stored one. */
  lemma CheckpointNeverDecreasesIff(r: Run)
    requires IsRun(r)
    ensures (forall i, j :: 0 <= i <= j < |r.worlds| ==> r.worlds[i].ledger.stored <= r.worlds[j].ledger.stored)
       <==> (forall i :: 0 <= i < |r.events| ==> !FallsBack(r.worlds[i], r.events[i]))
  {
    forall i | 0 <= i < |r.events|
      ensures r.worlds[i + 1].ledger.stored < r.worlds[i].ledger.stored <==> FallsBack(r.worlds[i], r.events[i])
    {
      RunsAreOrdered(r, i);
      RunsStayNarrow(r, i);
      StepLowersIff(r.worlds[i], r.events[i], r.worlds[0].ledger.stored);
    }
    if i :| 0 <= i < |r.events| && FallsBack(r.worlds[i], r.events[i]) {
      assert !(r.worlds[i].ledger.stored <= r.worlds[i + 1].ledger.stored);
    } else {
      forall i, j | 0 <= i <= j < |r.worlds| ensures r.worlds[i].ledger.stored <= r.worlds[j].ledger.stored {
        StoredRises(r, i, j);
      }
    }
  }

  lemma {:induction false} StoredRises(r: Run, i: nat, j: nat)
    requires i <= j < |r.worlds|
    requires forall k :: i <= k < j ==> r.worlds[k].ledger.stored <= r.worlds[k + 1].ledger.stored
    ensures r.worlds[i].ledger.stored <= r.worlds[j].ledger.stored
  {
    if i < j {
      StoredRises(r, i, j - 1);
      assert r.worlds[j - 1].ledger.stored <= r.worlds[j - 1 + 1].ledger.stored;
    }
  }

  predicate SaveUnknown(e: Event) { e.Tick? && e.outcome.save.SavedUnknown? }

  /** Only a save that took effect unnoticed lets a tick fall back. */
  lemma {:induction false} FallsBackAfterUnknownSave(r: Run, n: nat)
    requires IsRun(r) && n < |r.events| && forall i :: 0 <= i < n ==> !SaveUnknown(r.events[i])
    ensures !FallsBack(r.worlds[n], r.events[n])
  {
    HeldIsStored(r, n);
    if r.events[n].Tick? && r.worlds[n].memory.Some? && Moves(r.events[n].outcome) {
      var batch := r.events[n].outcome.fetched.value;
      assert batch[0] in batch;
    }
  }

  lemma {:induction false} HeldIsStored(r: Run, n: nat)
    requires IsRun(r) && n < |r.worlds| && forall i :: 0 <= i < n ==> !SaveUnknown(r.events[i])
    ensures r.worlds[n].memory.Some? ==> r.worlds[n].memory.value == r.worlds[n].ledger.stored
  {
    if n > 0 {
      HeldIsStored(r, n - 1);
      assert !SaveUnknown(r.events[n - 1]);
    }
  }

  /** A tick in which nothing fails covers what it fetched and strictly advances the checkpoint. */
  lemma GoodTickAdvances(w: World, o: Outcome, initial: int)
    requires Ordered(w, initial) && Enabled(w, Tick(o)) && Moves(o) && o.save.Saved?
    ensures Step(w, Tick(o)).ledger.stored > w.memory.value
    ensures Step(w, Tick(o)).memory == Some(Step(w, Tick(o)).ledger.stored)
    ensures forall v <- o.fetched.value :: v in Step(w, Tick(o)).ledger.acked + Step(w, Tick(o)).ledger.rejected
  {
    TickCoversIff(w.rows, w.memory.value, o.fetched.value);
    forall v <- o.fetched.value ensures v in Sent(o.fetched.value) || v in Skipped(o.fetched.value) {
    }
  }

  /** A version counts as sent once it was in a batch that was built and posted, and as rejected once one passed it over. */
  lemma TickCounts(w: World, o: Outcome, v: Version)
    requires Enabled(w, Tick(o))
    ensures var l, l' := w.ledger, Step(w, Tick(o)).ledger;
            && (v in l'.acked <==> v in l.acked || (Offered(o, v) && Parses(v) && o.posted))
            && (v in l'.rejected
                <==> v in l.rejected || (Offered(o, v) && !Parses(v) && (o.posted || NoneParses(o.fetched.value))))
  {
    if o.fetched.Some? {
      NothingSentIff(o.fetched.value);
    }
  }

  predicate NoneParses(batch: seq<Version>) { forall v <- batch :: !Parses(v) }

  lemma NothingSentIff(batch: seq<Version>)
    ensures Sent(batch) == {} <==> NoneParses(batch)
  {
    if v :| v in batch && Parses(v) {
      assert v in Sent(batch);
    }
  }

  predicate Offered(o: Outcome, v: Version) { o.fetched.Some? && v in o.fetched.value && o.built }

  /** Whatever fails, a tick that does not move the checkpoint leaves it, stored and held, as it was. */
  lemma FailureKeepsCheckpoint(w: World, o: Outcome)
    requires Enabled(w, Tick(o)) && !Moves(o)
    ensures Step(w, Tick(o)).ledger.stored == w.ledger.stored && Step(w, Tick(o)).memory == w.memory
  {
  }

  // ----- a checkpoint that decreases -----

  const TWO_ROWS: Rows := map["a" := Row(1, true), "b" := Row(2, true)]
  const ONE_ROW: Rows := map["a" := Row(1, true), "b" := Row(3, false)]

  const TWO_VERSIONS := [Version("a", 1), Version("b", 2)]
  const ONE_VERSION := [Version("a", 1)]

  lemma TwoIsBatch()
    ensures IsBatch(TWO_ROWS, 0, TWO_VERSIONS) && Latest(TWO_VERSIONS) == 2
  {
    assert TWO_VERSIONS[0] in TWO_VERSIONS && TWO_VERSIONS[1] in TWO_VERSIONS;
    LatestIsLast(TWO_VERSIONS, 0);
  }

  lemma OneIsBatch()
    ensures IsBatch(ONE_ROW, 0, ONE_VERSION) && Latest(ONE_VERSION) == 1
  {
    assert ONE_VERSION[0] in ONE_VERSION;
    LatestIsLast(ONE_VERSION, 0);
  }

  const FIRST := Tick(Outcome(Some(TWO_VERSIONS), true, true, SavedUnknown))
  const REOPEN := Change("b", Row(3, false))
  const SECOND := Tick(Outcome(Some(ONE_VERSION), true, true, Saved))

  lemma FirstTick(w: World) returns (w': World)
    requires w.rows == TWO_ROWS && w.memory == Some(0)
    ensures Enabled(w, FIRST) && w' == Step(w, FIRST)
    ensures w'.rows == TWO_ROWS && w'.memory == Some(0) && w'.ledger.stored == 2
  {
    TwoIsBatch();
    w' := Step(w, FIRST);
  }

  lemma SecondTick(w: World) returns (w': World)
    requires w.rows == ONE_ROW && w.memory == Some(0) && w.ledger.stored == 2
    ensures Enabled(w, SECOND) && w' == Step(w, SECOND) && FallsBack(w, SECOND) && w'.ledger.stored == 1
  {
    OneIsBatch();
    w' := Step(w, SECOND);
  }

  /**
   A save that took effect unnoticed can be undone: a row of its batch reopens, and the next tick, from the
   old checkpoint, stores an earlier one. What is covered stays covered.
   */
  lemma UnknownSaveLowersCheckpoint() returns (w: World)
    ensures Reachable(w) && Enabled(w, SECOND) && FallsBack(w, SECOND)
    ensures Step(w, SECOND).ledger.stored < w.ledger.stored
  {
    var down := World(TWO_ROWS, Ledger(0, {}, {}), None);
    var r := Run([down], []);
    assert IsRun(r) && r.worlds[|r.events|] == down;
    ReachNext(down, Start);
    var up := Step(down, Start);
    ReachNextTick(up);
    var ticked := FirstTick(up);
    ReachNext(ticked, REOPEN);
    w := Step(ticked, REOPEN);
    assert w.rows == ONE_ROW;
    var lowered := SecondTick(w);
  }

  ghost predicate Reachable(w: World) {
    exists r :: IsRun(r) && r.worlds[|r.events|] == w
  }

  lemma ReachNext(w: World, e: Event)
    requires Reachable(w) && Enabled(w, e)
    ensures Reachable(Step(w, e))
  {
    var r :| IsRun(r) && r.worlds[|r.events|] == w;
    var r' := Run(r.worlds + [Step(w, e)], r.events + [e]);
    assert IsRun(r') && r'.worlds[|r'.events|] == Step(w, e);
  }

  lemma ReachNextTick(w: World)
    requires Reachable(w) && w.rows == TWO_ROWS && w.memory == Some(0)
    ensures Reachable(Step(w, FIRST))
  {
    TwoIsBatch();
    ReachNext(w, FIRST);
  }

  // ----- a tie across the limit -----

  function Name(n: nat): string { seq(n, _ => 'x') }

  /** One work item more than the limit, all changed at the same moment. */
  function TiedRows(): Rows {
    map n: nat | n <= BATCH_LIMIT :: Name(n) := Row(1, true)
  }

  function TiedBatch(): seq<Version> {
    seq(BATCH_LIMIT, n requires 0 <= n < BATCH_LIMIT => Version(Name(n), 1))
  }

  lemma TiedBatchIsBatch()
    ensures IsBatch(TiedRows(), 0, TiedBatch())
    ensures Version(Name(BATCH_LIMIT), 1) !in TiedBatch()
  {
    var rows, batch := TiedRows(), TiedBatch();
    forall i, j | 0 <= i < j <= BATCH_LIMIT ensures Name(i) != Name(j) {
      assert |Name(i)| == i && |Name(j)| == j;
    }
    forall v <- batch ensures v.id in rows && rows[v.id] == Row(1, true) {
      var n :| 0 <= n < |batch| && batch[n] == v;
      assert Name(n) in rows;
    }
  }

  /** With a tie across the limit a fault-free tick passes over a row, which no later tick fetches. */
  lemma TieLosesRow() returns (w: World, e: Event)
    ensures w.memory == Some(0) && Enabled(w, e) && e.Tick? && Moves(e.outcome) && e.outcome.save.Saved?
    ensures Reachable(w) && AtLeastOnce(w, 0) && DropsTie(w, e) && !AtLeastOnce(Step(w, e), 0)
    ensures Name(BATCH_LIMIT) in w.rows && !Eligible(w.rows[Name(BATCH_LIMIT)], Step(w, e).ledger.stored)
  {
    var down := World(TiedRows(), Ledger(0, {}, {}), None);
    var r := Run([down], []);
    assert IsRun(r) && r.worlds[|r.events|] == down;
    ReachNext(down, Start);
    w := Step(down, Start);
    var batch, lost := TiedBatch(), Name(BATCH_LIMIT);
    e := Tick(Outcome(Some(batch), true, true, Saved));
    TiedBatchIsBatch();
    assert lost in w.rows && w.rows[lost] == Row(1, true);
    LatestIsLast(batch, 0);
    assert batch[BATCH_LIMIT - 1].updatedAt == 1;
    assert !Covered(w.ledger, w.rows, lost);
    StepKeepsAtLeastOnceIff(w, e, 0);
  }
}
