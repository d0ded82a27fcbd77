/**
 What the turn loop promises about the outbox over whole runs: a row is handled at most once, a session's rows
 in the order they were written, before the answer of the turn that wrote them, and in the right channel.
 */
module Delivery {
  import opened Options
  import opened Sequences
  import opened TurnLoop
  import Outbox

  predicate OfRow(x: Sent) { !x.Answered? }

  predicate IsPosted(rows: Outbox.Table, id: nat) { id < |rows| && rows[id].posted }

  /** What has been sent for rows is about rows marked as posted. */
  predicate FromPostedRows(wire: seq<Sent>, rows: Outbox.Table) {
    forall i :: 0 <= i < |wire| && OfRow(wire[i]) ==>
      IsPosted(rows, wire[i].id) && rows[wire[i].id].session == wire[i].session
  }

  /** The rows of one session were handled in id order, so none of them twice. */
  predicate InOrder(wire: seq<Sent>) {
    forall i, j :: 0 <= i < j < |wire| && OfRow(wire[i]) && OfRow(wire[j]) && wire[i].session == wire[j].session ==>
      wire[i].id < wire[j].id
  }

  /** The rows still to come of a session are later than those handled. */
  predicate Behind(wire: seq<Sent>, rows: Outbox.Table) {
    forall i, id: nat ::
      (0 <= i < |wire| && OfRow(wire[i]) && id < |rows| && !IsPosted(rows, id) && rows[id].session == wire[i].session)
      ==> wire[i].id < id
  }

  predicate Orderly(wire: seq<Sent>, rows: Outbox.Table) {
    FromPostedRows(wire, rows) && InOrder(wire) && Behind(wire, rows)
  }

  /** What a batch of claimed rows became, in id order. */
  predicate IsBatch(sent: seq<Sent>, rows: Outbox.Table, ids: seq<nat>) {
    && |sent| == |ids|
    && Outbox.Ascending(ids)
    && forall k :: 0 <= k < |ids| ==>
         ids[k] < |rows| && OfRow(sent[k]) && sent[k].id == ids[k] && sent[k].session == rows[ids[k]].session
  }

  lemma DeliverAllIsBatch(channels: map<string, Channel>, order: seq<string>, rows: Outbox.Table, ids: seq<nat>)
    requires IsOrder(order, channels) && Outbox.Ascending(ids)
    requires forall k :: 0 <= k < |ids| ==> ids[k] < |rows|
    ensures IsBatch(DeliverAll(channels, order, rows, ids), rows, ids)
  {
  }

  lemma MarkedIsPosted(rows: Outbox.Table, sessions: set<string>, id: nat)
    requires id < |rows|
    ensures IsPosted(Outbox.Marked(rows, sessions), id) <==> IsPosted(rows, id) || rows[id].session in sessions
  {
    assert !Outbox.Waiting(Outbox.Marked(rows, sessions), sessions, id);
    assert Outbox.Marked(rows, sessions)[id].session == rows[id].session;
  }

  lemma MarkKeepsOrderly(wire: seq<Sent>, rows: Outbox.Table, sessions: set<string>)
    requires Orderly(wire, rows)
    ensures Orderly(wire, Outbox.Marked(rows, sessions))
  {
    forall id: nat | id < |rows|
      ensures IsPosted(Outbox.Marked(rows, sessions), id) <==> IsPosted(rows, id) || rows[id].session in sessions
      ensures Outbox.Marked(rows, sessions)[id].session == rows[id].session
    {
      MarkedIsPosted(rows, sessions, id);
    }
  }

  lemma BatchKeepsOrderly(wire: seq<Sent>, rows: Outbox.Table, sessions: set<string>, sent: seq<Sent>)
    requires Orderly(wire, rows) && IsBatch(sent, rows, Outbox.Claimed(rows, sessions))
    ensures Orderly(wire + sent, Outbox.Marked(rows, sessions))
  {
    var ids := Outbox.Claimed(rows, sessions);
    var marked := Outbox.Marked(rows, sessions);
    MarkKeepsOrderly(wire, rows, sessions);
    forall id: nat | id < |rows|
      ensures IsPosted(marked, id) <==> IsPosted(rows, id) || rows[id].session in sessions
      ensures marked[id].session == rows[id].session
    {
      MarkedIsPosted(rows, sessions, id);
    }
    forall k | 0 <= k < |sent|
      ensures !IsPosted(rows, sent[k].id) && sent[k].session in sessions && IsPosted(marked, sent[k].id)
    {
      assert Outbox.Waiting(rows, sessions, ids[k]);
    }
  }

  lemma RowKeepsOrderly(wire: seq<Sent>, rows: Outbox.Table, row: Outbox.Row)
    requires Orderly(wire, rows) && !row.posted
    ensures Orderly(wire, rows + [row])
  {
    var rows' := rows + [row];
    forall id: nat | id < |rows| ensures IsPosted(rows', id) <==> IsPosted(rows, id) {}
  }

  lemma AnswerKeepsOrderly(wire: seq<Sent>, rows: Outbox.Table, answer: Sent)
    requires Orderly(wire, rows) && answer.Answered?
    ensures Orderly(wire + [answer], rows)
  {
  }

  lemma DrainKeepsOrderly(s: State, d: Drain)
    requires IsOrder(d.order, s.channels) && Orderly(s.wire, s.rows)
    ensures Orderly(DrainOutbox(s, d).wire, DrainOutbox(s, d).rows)
  {
    var sessions := Sessions(s.channels);
    var ids := Outbox.Claimed(s.rows, sessions);
    if d.reply.Lost? {
      MarkKeepsOrderly(s.wire, s.rows, sessions);
    } else {
      DeliverAllIsBatch(s.channels, d.order, s.rows, ids);
      BatchKeepsOrderly(s.wire, s.rows, sessions, DeliverAll(s.channels, d.order, s.rows, ids));
    }
  }

  /** The state in which an answering turn drains the outbox. */
  function Registered(s: State, e: Event): State
    requires e.TurnDone? && Enabled(s, e) && IsCurrent(s, s.turns[e.turn])
  {
    var t := s.turns[e.turn];
    Put(s, t.channel, RegisterLate(s.channels[t.channel], t, e.session))
  }

  /** A turn of this connection that says something drains the outbox before its answer; any other leaves it alone. */
  lemma DoneDrains(s: State, e: Event)
    requires e.TurnDone? && Enabled(s, e)
    ensures var t := s.turns[e.turn];
            if IsCurrent(s, t) && e.outcome.Said? then
              var drained := DrainOutbox(Registered(s, e), e.drain);
              && Step(s, e).wire == drained.wire + [Answered(e.turn, t.channel, t.speaker)]
              && Step(s, e).rows == drained.rows
            else Step(s, e).wire == s.wire && Step(s, e).rows == s.rows
  {
  }

  lemma StepKeepsOrderly(s: State, e: Event)
    requires Enabled(s, e) && Orderly(s.wire, s.rows)
    ensures Orderly(Step(s, e).wire, Step(s, e).rows)
  {
    match e
    case DrainTick(d) => DrainKeepsOrderly(s, d);
    case TurnDone(tid, session, _, d, _, _) =>
      var t := s.turns[tid];
      DoneDrains(s, e);
      if IsCurrent(s, t) && e.outcome.Said? {
        var registered := Registered(s, e);
        DrainKeepsOrderly(registered, d);
        AnswerKeepsOrderly(DrainOutbox(registered, d).wire, DrainOutbox(registered, d).rows,
                           Answered(tid, t.channel, t.speaker));
      }
    case RowWritten(session, body, speaker, emoji) =>
      RowKeepsOrderly(s.wire, s.rows, Outbox.Row(session, body, speaker, emoji, false));
    case _ =>
  }

  lemma {:induction false} RunsAreOrderly(r: Run, i: nat)
    requires IsRun(r) && i < |r.states|
    ensures Orderly(r.states[i].wire, r.states[i].rows)
  {
    if i > 0 {
      RunsAreOrderly(r, i - 1);
      assert Stepped(r, i - 1);
      StepKeepsOrderly(r.states[i - 1], r.events[i - 1]);
    }
  }

  /** Over a whole run each row is handled at most once, and a session's rows in the order they were written. */
  lemma RowsAreSentOnceInOrder(r: Run, n: nat, i: nat, j: nat)
    requires IsRun(r) && n < |r.states| && i < j < |r.states[n].wire|
    requires OfRow(r.states[n].wire[i]) && OfRow(r.states[n].wire[j])
    ensures var wire := r.states[n].wire;
            wire[i].id != wire[j].id && (wire[i].session == wire[j].session ==> wire[i].id < wire[j].id)
  {
    RunsAreOrderly(r, n);
  }

  // ----- what a claim handles -----

  predicate Handled(wire: seq<Sent>, id: nat) {
    exists i :: 0 <= i < |wire| && OfRow(wire[i]) && wire[i].id == id
  }

  /** The event drains the outbox with a claim whose reply is lost after it took effect. */
  predicate LosesReply(e: Event) {
    (e.DrainTick? || e.TurnDone?) && e.drain.reply.Lost?
  }

  /** The step from `s` to `s'` marks the row as posted. */
  predicate Marks(s: State, s': State, id: nat) {
    !IsPosted(s.rows, id) && IsPosted(s'.rows, id)
  }

  lemma HandledInEither(a: seq<Sent>, b: seq<Sent>, id: nat)
    ensures Handled(a + b, id) <==> Handled(a, id) || Handled(b, id)
  {
    if i :| 0 <= i < |a| && OfRow(a[i]) && a[i].id == id {
      assert (a + b)[i] == a[i];
    }
    if i :| 0 <= i < |b| && OfRow(b[i]) && b[i].id == id {
      assert (a + b)[|a| + i] == b[i];
    }
  }

  lemma BatchHandles(sent: seq<Sent>, rows: Outbox.Table, ids: seq<nat>, id: nat)
    requires IsBatch(sent, rows, ids)
    ensures Handled(sent, id) <==> id in ids
  {
    if id in ids {
      var k :| 0 <= k < |ids| && ids[k] == id;
      assert sent[k].id == id;
    }
  }

  /** A drain marks a row exactly when it handles it or loses it, and leaves the rows it does not mark as they were. */
  lemma DrainHandlesIff(s: State, d: Drain, id: nat)
    requires IsOrder(d.order, s.channels) && id < |s.rows|
    ensures var s' := DrainOutbox(s, d);
            if IsPosted(s.rows, id) || !IsPosted(s'.rows, id) then Handled(s'.wire, id) <==> Handled(s.wire, id)
            else Handled(s'.wire, id) <==> Handled(s.wire, id) || d.reply.Delivered?
    ensures IsPosted(s.rows, id) ==> IsPosted(DrainOutbox(s, d).rows, id)
    ensures d.reply != Failed && s.rows[id].session in Sessions(s.channels) ==> IsPosted(DrainOutbox(s, d).rows, id)
  {
    var sessions := Sessions(s.channels);
    MarkedIsPosted(s.rows, sessions, id);
    if sessions != {} && d.reply.Delivered? {
      var ids := Outbox.Claimed(s.rows, sessions);
      var sent := DeliverAll(s.channels, d.order, s.rows, ids);
      DeliverAllIsBatch(s.channels, d.order, s.rows, ids);
      BatchHandles(sent, s.rows, ids, id);
      HandledInEither(s.wire, sent, id);
      assert id in ids <==> Outbox.Waiting(s.rows, sessions, id);
    }
  }

  lemma DoneHandlesIff(s: State, e: Event, id: nat)
    requires e.TurnDone? && Enabled(s, e) && id < |s.rows|
    ensures var s' := Step(s, e);
            if Marks(s, Step(s, e), id) then Handled(s'.wire, id) <==> Handled(s.wire, id) || e.drain.reply.Delivered?
            else Handled(s'.wire, id) <==> Handled(s.wire, id)
    ensures Marks(s, Step(s, e), id) ==> e.drain.reply != Failed
    ensures IsPosted(s.rows, id) ==> IsPosted(Step(s, e).rows, id)
  {
    var t := s.turns[e.turn];
    DoneDrains(s, e);
    if IsCurrent(s, t) && e.outcome.Said? {
      var registered := Registered(s, e);
      DrainHandlesIff(registered, e.drain, id);
      HandledInEither(DrainOutbox(registered, e.drain).wire, [Answered(e.turn, t.channel, t.speaker)], id);
    }
  }

  /** A step handles a row exactly when it marks it and keeps the claim's reply. */
  lemma StepHandlesIff(s: State, e: Event, id: nat)
    requires Enabled(s, e) && id < |s.rows| && Orderly(s.wire, s.rows)
    ensures Marks(s, Step(s, e), id) ==> (Handled(Step(s, e).wire, id) <==> !LosesReply(e))
    ensures !Marks(s, Step(s, e), id) ==> (Handled(Step(s, e).wire, id) <==> Handled(s.wire, id))
    ensures IsPosted(s.rows, id) ==> IsPosted(Step(s, e).rows, id)
  {
    if !IsPosted(s.rows, id) {
      UnpostedIsUnhandled(s.wire, s.rows, id);
    }
    match e
    case DrainTick(d) => DrainHandlesIff(s, d, id);
    case TurnDone(_, _, _, _, _, _) => DoneHandlesIff(s, e, id);
    case _ =>
  }

  /** The same of a step of a run. */
  lemma RunStepHandlesIff(r: Run, n: nat, id: nat)
    requires IsRun(r) && n < |r.events| && id < |r.states[n].rows|
    ensures var s, s' := r.states[n], r.states[n + 1];
            && (Marks(s, s', id) ==> (Handled(s'.wire, id) <==> !LosesReply(r.events[n])))
            && (!Marks(s, s', id) ==> (Handled(s'.wire, id) <==> Handled(s.wire, id)))
            && (IsPosted(s.rows, id) ==> IsPosted(s'.rows, id))
            && (Marks(s, s', id) ==> IsPosted(s'.rows, id))
  {
    RunsAreOrderly(r, n);
    assert Stepped(r, n);
    StepHandlesIff(r.states[n], r.events[n], id);
  }

  /** The channels as a drain of this step finds them, if it has one. */
  function Drains(s: State, e: Event): Option<map<string, Channel>>
    requires Enabled(s, e)
  {
    if e.DrainTick? then Some(s.channels)
    else if e.TurnDone? && IsCurrent(s, s.turns[e.turn]) && e.outcome.Said? then Some(Registered(s, e).channels)
    else None
  }

  /** Some channel is on the session, or a character of it is. */
  ghost predicate Reached(channels: map<string, Channel>, session: string) {
    exists ch :: ch in channels
      && (session in channels[ch].charSessions || (session != "" && session == channels[ch].sessionID))
  }

  lemma ReachedIsHeld(channels: map<string, Channel>, session: string)
    ensures Reached(channels, session) <==> session in Sessions(channels)
  {
    if session in Sessions(channels) {
      var ch :| ch in channels && session in Held(channels[ch]);
    }
    if Reached(channels, session) {
      var ch :| ch in channels
                && (session in channels[ch].charSessions || (session != "" && session == channels[ch].sessionID));
      assert session in Held(channels[ch]);
    }
  }

  /** Rows are written unposted and as they were said, and no step changes more of a row than its mark. */
  lemma StepWrites(s: State, e: Event)
    requires Enabled(s, e)
    ensures forall id: nat :: id < |s.rows| && id < |Step(s, e).rows| ==>
              Step(s, e).rows[id].(posted := s.rows[id].posted) == s.rows[id]
    ensures |Step(s, e).rows| == |s.rows| + if e.RowWritten? then 1 else 0
    ensures e.RowWritten? ==> Step(s, e).rows[|s.rows|] == Outbox.Row(e.session, e.body, e.speaker, e.emoji, false)
  {
    if e.TurnDone? {
      DoneDrains(s, e);
    }
  }

  /** A step marks a row exactly when it waits for a channel that a drain then finds, and the claim is applied. */
  lemma StepMarksIff(s: State, e: Event, id: nat)
    requires Enabled(s, e)
    ensures Marks(s, Step(s, e), id) <==>
            && id < |s.rows| && !s.rows[id].posted
            && Drains(s, e).Some? && Reached(Drains(s, e).value, s.rows[id].session) && e.drain.reply != Failed
  {
    if Drains(s, e).Some? {
      var channels := Drains(s, e).value;
      if id < |s.rows| {
        ReachedIsHeld(channels, s.rows[id].session);
        MarkedIsPosted(s.rows, Sessions(channels), id);
      }
      if e.TurnDone? {
        DoneDrains(s, e);
      }
    } else if e.TurnDone? {
      DoneDrains(s, e);
    }
  }

  lemma UnpostedIsUnhandled(wire: seq<Sent>, rows: Outbox.Table, id: nat)
    requires Orderly(wire, rows) && !IsPosted(rows, id)
    ensures !Handled(wire, id)
  {
  }

  /** A row that is posted was marked by one step before. */
  lemma {:induction false} PostedWasMarked(r: Run, n: nat, id: nat) returns (k: nat)
    requires IsRun(r) && n < |r.states| && IsPosted(r.states[n].rows, id)
    ensures k < n && Marks(r.states[k], r.states[k + 1], id)
  {
    if IsPosted(r.states[n - 1].rows, id) {
      k := PostedWasMarked(r, n - 1, id);
    } else {
      k := n - 1;
    }
  }

  /** On every run a row is handled exactly when some claim marked it and did not lose its reply; it is marked once. */
  lemma {:induction false} HandledIffReplyKept(r: Run, k: nat, n: nat, id: nat)
    requires IsRun(r) && k < n < |r.states| && Marks(r.states[k], r.states[k + 1], id)
    ensures IsPosted(r.states[n].rows, id) && (Handled(r.states[n].wire, id) <==> !LosesReply(r.events[k]))
  {
    assert Stepped(r, k);
    MarkedRowExists(r.states[k], r.events[k], id);
    if k < n - 1 {
      HandledIffReplyKept(r, k, n - 1, id);
    }
    RunStepHandlesIff(r, n - 1, id);
  }

  /** A row is written unposted, so a step marks only a row that was there. */
  lemma MarkedRowExists(s: State, e: Event, id: nat)
    requires Enabled(s, e) && Marks(s, Step(s, e), id)
    ensures id < |s.rows|
  {
  }

  /** An earlier claim took the row and lost it. */
  ghost predicate LostBefore(r: Run, n: nat, id: nat)
    requires IsRun(r) && n < |r.states|
  {
    exists k :: 0 <= k < n && Marks(r.states[k], r.states[k + 1], id) && LosesReply(r.events[k])
  }

  /** In every reachable state, what has been handled is exactly what is marked and was not lost. */
  lemma PostedRowsAreHandledIff(r: Run, n: nat, id: nat)
    requires IsRun(r) && n < |r.states|
    ensures Handled(r.states[n].wire, id) <==> IsPosted(r.states[n].rows, id) && !LostBefore(r, n, id)
  {
    RunsAreOrderly(r, n);
    if IsPosted(r.states[n].rows, id) {
      var k := PostedWasMarked(r, n, id);
      HandledIffReplyKept(r, k, n, id);
      if j :| 0 <= j < n && Marks(r.states[j], r.states[j + 1], id) && LosesReply(r.events[j]) {
        HandledIffReplyKept(r, j, n, id);
      }
    } else {
      UnpostedIsUnhandled(r.states[n].wire, r.states[n].rows, id);
    }
  }

  /** A finished turn of this connection answers, and its claim succeeds. */
  predicate AnswersAfterClaim(s: State, e: Event) {
    && e.TurnDone? && Enabled(s, e) && IsCurrent(s, s.turns[e.turn])
    && e.outcome.Said? && e.drain.reply.Delivered? && e.session != ""
  }

  /** Registering its session puts a finished turn's rows in reach of the drain. */
  lemma RegisteredIsDrained(s: State, e: Event)
    requires AnswersAfterClaim(s, e)
    ensures e.session in Sessions(Registered(s, e).channels)
  {
    var t := s.turns[e.turn];
    var c := RegisterLate(s.channels[t.channel], t, e.session);
    var channels := Put(s, t.channel, c).channels;
    assert e.session in Held(c);
    assert channels[t.channel] == c;
  }

  lemma DrainOnlyAdds(s: State, d: Drain)
    requires IsOrder(d.order, s.channels)
    ensures |DrainOutbox(s, d).wire| >= |s.wire|
  {
  }

  /** A turn's answer goes to its channel, under the name its turn speaks in. */
  function AnswerOf(s: State, tid: nat): Sent
    requires tid in s.turns
  {
    Answered(tid, s.turns[tid].channel, s.turns[tid].speaker)
  }

  /** A drain sends nothing but what becomes of rows. */
  lemma DrainSendsRows(s: State, d: Drain) returns (sent: seq<Sent>)
    requires IsOrder(d.order, s.channels)
    ensures DrainOutbox(s, d).wire == s.wire + sent && forall x <- sent :: OfRow(x)
  {
    var ids := Outbox.Claimed(s.rows, Sessions(s.channels));
    ConcatNothing(s.wire);
    if Sessions(s.channels) == {} || d.reply != Delivered {
      sent := [];
    } else {
      sent := DeliverAll(s.channels, d.order, s.rows, ids);
      DeliverAllIsBatch(s.channels, d.order, s.rows, ids);
    }
  }

  /** What a step sends: rows, and after them the answer of a current turn that ends with something said, and no other. */
  lemma StepSends(s: State, e: Event) returns (sent: seq<Sent>)
    requires Enabled(s, e)
    ensures forall x <- sent :: OfRow(x)
    ensures Step(s, e).wire
         == s.wire + sent + if e.TurnDone? && IsCurrent(s, s.turns[e.turn]) && e.outcome.Said? then [AnswerOf(s, e.turn)] else []
  {
    sent := [];
    ConcatNothing(s.wire);
    if e.DrainTick? {
      sent := DrainSendsRows(s, e.drain);
      ConcatNothing(s.wire + sent);
    } else if e.TurnDone? {
      DoneDrains(s, e);
      if IsCurrent(s, s.turns[e.turn]) && e.outcome.Said? {
        sent := DrainSendsRows(Registered(s, e), e.drain);
      }
    }
  }

  /** The answer is sent last, and an unposted row of the turn's session before it. */
  lemma AnswerComesLast(s: State, e: Event, id: nat)
    requires AnswersAfterClaim(s, e) && id < |s.rows| && s.rows[id].session == e.session
    ensures var wire := Step(s, e).wire;
            && |wire| > |s.wire| && wire[|wire| - 1] == AnswerOf(s, e.turn)
            && (Handled(wire[..|wire| - 1], id) <==> Handled(s.wire, id) || !IsPosted(s.rows, id))
  {
    var t, drained := s.turns[e.turn], DrainOutbox(Registered(s, e), e.drain);
    RegisteredIsDrained(s, e);
    DrainHandlesIff(Registered(s, e), e.drain, id);
    DoneDrains(s, e);
    PartsOfConcat(drained.wire, [Answered(e.turn, t.channel, t.speaker)]);
    DrainOnlyAdds(Registered(s, e), e.drain);
  }

  /**
   On every run, when a finished turn answers after a successful claim, each row already written for its session
   is handled before the answer, in this drain or in an earlier one, unless an earlier claim took the row and
   lost its reply; and the answer is sent last.
   */
  lemma AnswerFollowsItsRows(r: Run, n: nat, id: nat)
    requires IsRun(r) && n < |r.events| && AnswersAfterClaim(r.states[n], r.events[n])
    requires id < |r.states[n].rows| && r.states[n].rows[id].session == r.events[n].session
    ensures var wire := r.states[n + 1].wire;
            && |wire| > |r.states[n].wire| && wire[|wire| - 1] == AnswerOf(r.states[n], r.events[n].turn)
            && (Handled(wire[..|wire| - 1], id) <==> !LostBefore(r, n, id))
  {
    assert Stepped(r, n);
    AnswerComesLast(r.states[n], r.events[n], id);
    PostedRowsAreHandledIff(r, n, id);
    if k :| 0 <= k < n && Marks(r.states[k], r.states[k + 1], id) && LosesReply(r.events[k]) {
      HandledIffReplyKept(r, k, n, id);
    }
  }

  // ----- the right channel -----

  /** No session is held by two channels. */
  ghost predicate Disjoint(channels: map<string, Channel>) {
    forall a, b :: a in channels && b in channels && a != b ==> Held(channels[a]) !! Held(channels[b])
  }

  lemma {:induction false} HolderHolds(channels: map<string, Channel>, order: seq<string>, session: string)
    requires forall ch <- order :: ch in channels
    ensures var h := HolderOf(channels, order, session);
            if h.Some? then h.value in order && session in Held(channels[h.value])
            else forall ch <- order :: session !in Held(channels[ch])
  {
    if order != [] {
      HolderHolds(channels, order[..|order| - 1], session);
      InitAndLast(order);
    }
  }

  /**
   With disjoint sessions a claimed row goes to the channel holding its session, whatever order the drain
   visits the channels in: posted there, or put as a reaction on the message wearing the eyes there. It is
   skipped only for want of such a message, or in a channel without a name.
   */
  lemma RowsGoToTheirHolder(channels: map<string, Channel>, order: seq<string>, id: nat, row: Outbox.Row, ch: string)
    requires IsOrder(order, channels) && Disjoint(channels)
    requires ch in channels && row.session in Held(channels[ch])
    ensures var x := Deliver(channels, order, id, row);
            && (x.Posted? <==> ch != "" && row.emoji == "")
            && (x.Posted? ==> x.channel == ch && x.body == row.body && (row.speaker != "" ==> x.speaker == row.speaker))
            && (x.Reacted? <==> ch != "" && row.emoji != "" && channels[ch].eyedID != "")
            && (x.Reacted? ==> x.channel == ch && x.message == channels[ch].eyedID && x.emoji == row.emoji)
  {
    HolderHolds(channels, order, row.session);
    assert ch in order;
  }

  /** At most one channel holds the session. */
  ghost predicate HeldOnce(channels: map<string, Channel>, session: string) {
    forall a, b :: a in channels && b in channels && session in Held(channels[a]) && session in Held(channels[b]) ==> a == b
  }

  lemma {:induction false} Enumerate(names: set<string>) returns (order: seq<string>)
    ensures forall ch :: ch in order <==> ch in names
    ensures forall i, j :: 0 <= i < j < |order| ==> order[i] != order[j]
    decreases |names|
  {
    order := [];
    if names != {} {
      var ch :| ch in names;
      var rest := Enumerate(names - {ch});
      order := rest + [ch];
    }
  }

  /** A drain may visit any channel last, and a session it holds is then drained to that one. */
  lemma VisitedLast(channels: map<string, Channel>, ch: string, session: string) returns (order: seq<string>)
    requires ch in channels && session in Held(channels[ch])
    ensures IsOrder(order, channels) && HolderOf(channels, order, session) == Some(ch)
  {
    var rest := Enumerate(channels.Keys - {ch});
    order := rest + [ch];
  }

  /** Where a session's rows go does not depend on the order of a drain, if and only if no two channels hold it. */
  lemma HolderIsOrderFreeIff(channels: map<string, Channel>, session: string)
    ensures (forall p, q :: IsOrder(p, channels) && IsOrder(q, channels) ==>
                              HolderOf(channels, p, session) == HolderOf(channels, q, session))
       <==> HeldOnce(channels, session)
  {
    if HeldOnce(channels, session) {
      forall p, q | IsOrder(p, channels) && IsOrder(q, channels)
        ensures HolderOf(channels, p, session) == HolderOf(channels, q, session)
      {
        HolderHolds(channels, p, session);
        HolderHolds(channels, q, session);
      }
    } else {
      var a, b :| a in channels && b in channels && session in Held(channels[a]) && session in Held(channels[b]) && a != b;
      var p := VisitedLast(channels, a, session);
      var q := VisitedLast(channels, b, session);
    }
  }

  lemma {:induction false} SpeakerIsCharacter(channels: map<string, Channel>, order: seq<string>, session: string)
    requires forall ch <- order :: ch in channels
    ensures var speaker := SpeakerOf(channels, order, session);
            if forall ch <- order :: session !in channels[ch].charSessions then speaker == ""
            else exists ch <- order :: session in channels[ch].charSessions && channels[ch].charSessions[session] == speaker
  {
    if order != [] {
      SpeakerIsCharacter(channels, order[..|order| - 1], session);
      InitAndLast(order);
      assert order[|order| - 1] in order;
    }
  }

  /** A beat without a speaker of its own is spoken by the character whose session it is, and by no other. */
  lemma BeatsSpeakAsTheirCharacter(channels: map<string, Channel>, order: seq<string>, id: nat, row: Outbox.Row, ch: string)
    requires IsOrder(order, channels) && Disjoint(channels)
    requires ch in channels && ch != "" && row.session in Held(channels[ch]) && row.emoji == "" && row.speaker == ""
    ensures var x := Deliver(channels, order, id, row);
            x.Posted? && x.speaker == if row.session in channels[ch].charSessions then channels[ch].charSessions[row.session] else ""
  {
    RowsGoToTheirHolder(channels, order, id, row, ch);
    SpeakerIsCharacter(channels, order, row.session);
    assert ch in order;
    forall k | k in order && row.session in channels[k].charSessions ensures k == ch {
      assert row.session in Held(channels[k]);
    }
  }
}
