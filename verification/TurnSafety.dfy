/**
 One turn at a time on each channel, and the eyes on the message it works on. An archive frame for a channel
 that is busy without a session of its own breaks both: it frees the channel under a turn that still runs.
 */
module TurnSafety {
  import opened Options
  import opened Sequences
  import opened TurnLoop
  import opened TurnEvents
  import opened TurnLaws

  // ----- one turn per channel -----

  /** A connection's turns on a channel whose final report has not been handled. */
  function Live(turns: map<nat, Turn>, generation: nat, ch: string): set<nat> {
    set tid | tid in turns && turns[tid].generation == generation && turns[tid].channel == ch
  }

  /** One turn of this connection is under way on a busy channel, and none on a free one. */
  predicate OneTurn(s: State, ch: string) {
    |Live(s.turns, s.generation, ch)| == if At(s, ch).busy then 1 else 0
  }

  ghost predicate OneTurnEach(s: State) { forall ch :: OneTurn(s, ch) }

  /** An archive frame for a channel that is busy but has no session: it rotates under a live turn. */
  predicate EarlyArchive(s: State, e: Event) {
    e.FrameRead? && e.frame.Archive? && At(s, e.channel).busy && At(s, e.channel).sessionID == ""
  }

  /** Turns are numbered in order and belong to this connection or an earlier one. */
  ghost predicate Numbered(s: State) {
    && (forall tid <- s.turns :: tid < s.nextTurn && s.turns[tid].generation <= s.generation)
    && (forall tid <- s.turns :: s.turns[tid].generation == s.generation ==> s.turns[tid].channel in s.channels)
    && (forall tid <- s.reported :: tid < s.nextTurn)
  }

  lemma RetireRemovesLive(turns: map<nat, Turn>, generation: nat, ch: string, tid: nat)
    requires tid in turns
    ensures Live(turns - {tid}, generation, ch) == Live(turns, generation, ch) - {tid}
  {
  }

  lemma SpawnAddsLive(turns: map<nat, Turn>, generation: nat, ch: string, tid: nat, t: Turn)
    requires tid !in turns && t.generation == generation
    ensures Live(turns[tid := t], generation, ch) == Live(turns, generation, ch) + (if t.channel == ch then {tid} else {})
    ensures |Live(turns[tid := t], generation, ch)| == |Live(turns, generation, ch)| + (if t.channel == ch then 1 else 0)
  {
    LiveAfterSpawn(turns, generation, ch, tid, t);
    OneMore(Live(turns, generation, ch), tid);
  }

  lemma LiveAfterSpawn(turns: map<nat, Turn>, generation: nat, ch: string, tid: nat, t: Turn)
    requires tid !in turns && t.generation == generation
    ensures Live(turns[tid := t], generation, ch) == Live(turns, generation, ch) + (if t.channel == ch then {tid} else {})
    ensures tid !in Live(turns, generation, ch)
  {
  }

  lemma OneMore(live: set<nat>, tid: nat)
    requires tid !in live
    ensures |live + {tid}| == |live| + 1 && |live + {}| == |live|
  {
    assert live + {} == live;
  }

  /** The decision starts a turn exactly when it takes a free channel, and else leaves it busy or free. */
  predicate Sound(generation: nat, ch: string, wasBusy: bool, d: Decision) {
    if d.turn.Some? then
      !wasBusy && d.channel.busy && d.turn.value.generation == generation && d.turn.value.channel == ch
    else d.channel.busy == wasBusy
  }

  lemma HandleIsSound(generation: nat, policy: Policy, ch: string, c: Channel, f: Frame)
    requires f.Archive? ==> !(c.busy && c.sessionID == "")
    ensures Sound(generation, ch, c.busy, Handle(generation, policy, ch, c, f))
  {
  }

  lemma FinishIsSound(generation: nat, c: Channel, t: Turn, session: string, passes: bool, route: Option<Character>)
    ensures Sound(generation, t.channel, false, Finish(generation, c, t, session, passes, route))
  {
  }

  lemma CommitKeepsOneTurn(s: State, ch: string, d: Decision, k: string)
    requires Numbered(s)
    requires Sound(s.generation, ch, |Live(s.turns, s.generation, ch)| == 1, d)
    requires |Live(s.turns, s.generation, ch)| <= 1
    requires k != ch ==> OneTurn(s, k)
    ensures OneTurn(Commit(s, ch, d), k)
  {
    if d.turn.Some? {
      SpawnAddsLive(s.turns, s.generation, k, s.nextTurn, d.turn.value);
    }
  }

  lemma DoneKeepsOneTurn(s: State, e: Event, k: string)
    requires e.TurnDone? && Enabled(s, e) && Numbered(s) && OneTurn(s, k) && OneTurn(s, s.turns[e.turn].channel)
    ensures OneTurn(Step(s, e), k)
  {
    var t := s.turns[e.turn];
    RetireRemovesLive(s.turns, s.generation, k, e.turn);
    RetireRemovesLive(s.turns, s.generation, t.channel, e.turn);
    if IsCurrent(s, t) {
      assert e.turn in Live(s.turns, s.generation, t.channel);
      var s' := (if e.outcome.Said? then SendAnswer(s, e.turn, e.session, e.drain) else s).(turns := s.turns - {e.turn});
      var passes := Passes(s.policy, e.address);
      FinishIsSound(s.generation, s.channels[t.channel], t, e.session, passes, e.route);
      CommitKeepsOneTurn(s', t.channel,
                         Finish(s.generation, s.channels[t.channel], t, e.session, passes, e.route), k);
    }
  }

  lemma StepKeepsOneTurn(s: State, e: Event, k: string)
    requires Enabled(s, e) && Numbered(s) && OneTurnEach(s) && !EarlyArchive(s, e)
    ensures OneTurn(Step(s, e), k)
  {
    match e
    case FrameRead(ch, f) =>
      assert OneTurn(s, ch);
      HandleIsSound(s.generation, s.policy, ch, At(s, ch), f);
      CommitKeepsOneTurn(s, ch, Handle(s.generation, s.policy, ch, At(s, ch), f), k);
    case TurnDone(_, _, _, _, _, _) => DoneKeepsOneTurn(s, e, k);
    case Reconnected =>
      assert Live(s.turns, s.generation + 1, k) == {};
    case _ =>
      assert OneTurn(s, k);
      assert Step(s, e).turns == s.turns && At(Step(s, e), k).busy == At(s, k).busy;
  }

  lemma EarlyArchiveBreaksOneTurn(s: State, e: Event)
    requires Enabled(s, e) && EarlyArchive(s, e) && OneTurn(s, e.channel)
    ensures !OneTurn(Step(s, e), e.channel)
  {
  }

  lemma CommitKeepsNumbered(s: State, ch: string, d: Decision)
    requires Numbered(s)
    requires d.turn.Some? ==> d.turn.value.generation == s.generation && d.turn.value.channel == ch
    ensures Numbered(Commit(s, ch, d))
  {
  }

  lemma DoneKeepsNumbered(s: State, e: Event)
    requires e.TurnDone? && Enabled(s, e) && Numbered(s)
    ensures Numbered(Step(s, e))
  {
    var t := s.turns[e.turn];
    if IsCurrent(s, t) {
      var s' := (if e.outcome.Said? then SendAnswer(s, e.turn, e.session, e.drain) else s).(turns := s.turns - {e.turn});
      var d := Finish(s.generation, s.channels[t.channel], t, e.session, Passes(s.policy, e.address), e.route);
      CommitKeepsNumbered(s', t.channel, d);
    }
  }

  lemma StepKeepsNumbered(s: State, e: Event)
    requires Enabled(s, e) && Numbered(s)
    ensures Numbered(Step(s, e))
  {
    match e
    case FrameRead(ch, f) => CommitKeepsNumbered(s, ch, Handle(s.generation, s.policy, ch, At(s, ch), f));
    case TurnDone(_, _, _, _, _, _) => DoneKeepsNumbered(s, e);
    case _ =>
  }

  lemma {:induction false} RunsAreNumbered(r: Run, i: nat)
    requires IsRun(r) && i < |r.states|
    ensures Numbered(r.states[i])
  {
    if i > 0 {
      RunsAreNumbered(r, i - 1);
      assert Stepped(r, i - 1);
      StepKeepsNumbered(r.states[i - 1], r.events[i - 1]);
    }
  }

  ghost predicate NoEarlyArchive(r: Run, n: nat)
    requires IsRun(r)
  {
    forall i :: 0 <= i < n && i < |r.events| ==> !EarlyArchive(r.states[i], r.events[i])
  }

  lemma {:induction false} OneTurnUntilEarlyArchive(r: Run, i: nat)
    requires IsRun(r) && i < |r.states| && NoEarlyArchive(r, i)
    ensures OneTurnEach(r.states[i])
  {
    if i == 0 {
      assert forall ch :: Live(r.states[0].turns, 0, ch) == {};
    } else {
      OneTurnUntilEarlyArchive(r, i - 1);
      RunsAreNumbered(r, i - 1);
      forall ch ensures OneTurn(r.states[i], ch) {
        assert Stepped(r, i - 1);
        StepKeepsOneTurn(r.states[i - 1], r.events[i - 1], ch);
      }
    }
  }

  /** Each channel has one turn under way when busy and none when free, throughout a run, iff no archive is early. */
  lemma OneTurnIffNoEarlyArchive(r: Run)
    requires IsRun(r)
    ensures (forall i: nat :: i < |r.states| ==> OneTurnEach(r.states[i])) <==> NoEarlyArchive(r, |r.events|)
  {
    if NoEarlyArchive(r, |r.events|) {
      forall i: nat | i < |r.states| ensures OneTurnEach(r.states[i]) {
        OneTurnUntilEarlyArchive(r, i);
      }
    } else {
      var i :| 0 <= i < |r.events| && EarlyArchive(r.states[i], r.events[i]);
      if OneTurnEach(r.states[i]) {
        assert OneTurn(r.states[i], r.events[i].channel);
        assert Stepped(r, i);
        EarlyArchiveBreaksOneTurn(r.states[i], r.events[i]);
        assert !OneTurnEach(r.states[i + 1]);
      }
    }
  }

  /** After an early archive the next message that passes the gates starts a second turn beside the first. */
  lemma TwoTurnsAtOnce(s: State, ch: string, ask: Frame) returns (freed: State, doubled: State)
    requires Numbered(s) && OneTurn(s, ch) && EarlyArchive(s, FrameRead(ch, Archive))
    requires (ask.Human? && !ask.blank) || (ask.Persona? && !ask.own && ask.address.us)
    requires Passes(s.policy, ask.address) && HasKey(ask.route)
    ensures freed == Step(s, FrameRead(ch, Archive)) && doubled == Step(freed, FrameRead(ch, ask))
    ensures |Live(doubled.turns, doubled.generation, ch)| == 2
  {
    freed := Step(s, FrameRead(ch, Archive));
    doubled := Step(freed, FrameRead(ch, ask));
    var d := Handle(s.generation, s.policy, ch, freed.channels[ch], ask);
    SpawnAddsLive(s.turns, s.generation, ch, s.nextTurn, d.turn.value);
  }

  /** Such a state is two steps away: a first message, whose turn has not reported a session yet. */
  lemma EarlyArchiveIsReachable(ch: string, ask: Frame) returns (r: Run)
    requires ask.Human? && !ask.blank && ask.address.us && HasKey(ask.route)
    ensures IsRun(r) && |r.states| == 3
    ensures Numbered(r.states[2]) && OneTurn(r.states[2], ch) && EarlyArchive(r.states[2], FrameRead(ch, Archive))
  {
    var s1 := Step(START, Reconnected);
    var s2 := Step(s1, FrameRead(ch, ask));
    r := Run([START, s1, s2], [Reconnected, FrameRead(ch, ask)]);
    assert At(s2, ch).busy && At(s2, ch).sessionID == "";
    RunsAreNumbered(r, 2);
    OneTurnUntilEarlyArchive(r, 2);
  }

  // ----- the session a turn runs on -----

  /** A turn of the persona's own, not a character's, runs on the channel's session, or on none until it reports one. */
  predicate OnSession(t: Turn, reported: bool, c: Channel) {
    t.charID == "" && (t.sessionID != "" || !reported) ==> t.sessionID == c.sessionID
  }

  predicate OnSessions(s: State, ch: string) {
    forall tid <- Live(s.turns, s.generation, ch) :: OnSession(s.turns[tid], tid in s.reported, At(s, ch))
  }

  /** The decision puts a new turn on the session it leaves, and moves no session under a running one. */
  predicate KeepsSession(c: Channel, wasBusy: bool, d: Decision) {
    && (d.turn.Some? ==> OnSession(d.turn.value, false, d.channel))
    && (wasBusy ==> d.channel.sessionID == c.sessionID)
  }

  lemma HandleKeepsSession(generation: nat, policy: Policy, ch: string, c: Channel, f: Frame)
    requires f.Human? || f.Persona? ==> HasKey(f.route)
    ensures KeepsSession(c, c.busy, Handle(generation, policy, ch, c, f))
  {
  }

  lemma FinishKeepsSession(generation: nat, c: Channel, t: Turn, session: string, passes: bool, route: Option<Character>)
    requires HasKey(route)
    ensures KeepsSession(c, false, Finish(generation, c, t, session, passes, route))
  {
  }

  lemma CommitKeepsOnSessions(s: State, ch: string, d: Decision, k: string)
    requires Numbered(s) && OnSessions(s, k)
    requires d.turn.Some? ==> d.turn.value.generation == s.generation && d.turn.value.channel == ch
    requires KeepsSession(At(s, ch), Live(s.turns, s.generation, ch) != {}, d)
    ensures OnSessions(Commit(s, ch, d), k)
  {
    if d.turn.Some? {
      SpawnAddsLive(s.turns, s.generation, k, s.nextTurn, d.turn.value);
    }
  }

  lemma BusyIffLive(s: State, ch: string)
    requires OneTurn(s, ch)
    ensures At(s, ch).busy <==> Live(s.turns, s.generation, ch) != {}
  {
  }

  /** The only turn under way on a channel is the one found there. */
  lemma OnlyLive(s: State, ch: string, tid: nat)
    requires OneTurn(s, ch) && tid in Live(s.turns, s.generation, ch)
    ensures Live(s.turns, s.generation, ch) == {tid}
  {
    assert |Live(s.turns, s.generation, ch) - {tid}| == 0;
  }

  lemma DoneKeepsOnSessions(s: State, e: Event, k: string)
    requires e.TurnDone? && Enabled(s, e) && Numbered(s) && OnSessions(s, k) && OneTurn(s, s.turns[e.turn].channel)
    ensures OnSessions(Step(s, e), k)
  {
    var t := s.turns[e.turn];
    RetireRemovesLive(s.turns, s.generation, k, e.turn);
    RetireRemovesLive(s.turns, s.generation, t.channel, e.turn);
    if IsCurrent(s, t) {
      OnlyLive(s, t.channel, e.turn);
      var s' := (if e.outcome.Said? then SendAnswer(s, e.turn, e.session, e.drain) else s).(turns := s.turns - {e.turn});
      var passes := Passes(s.policy, e.address);
      FinishKeepsSession(s.generation, s.channels[t.channel], t, e.session, passes, e.route);
      CommitKeepsOnSessions(s', t.channel,
                            Finish(s.generation, s.channels[t.channel], t, e.session, passes, e.route), k);
    }
  }

  lemma ReportKeepsOnSessions(s: State, e: Event, k: string)
    requires e.SessionReported? && Enabled(s, e) && OnSessions(s, k) && OneTurn(s, s.turns[e.turn].channel)
    ensures OnSessions(Step(s, e), k)
  {
    var t := s.turns[e.turn];
    if IsCurrent(s, t) {
      OnlyLive(s, t.channel, e.turn);
    }
  }

  lemma StepKeepsOnSessions(s: State, e: Event, k: string)
    requires Enabled(s, e) && Numbered(s) && OneTurnEach(s) && OnSessions(s, k) && !EarlyArchive(s, e)
    ensures OnSessions(Step(s, e), k)
  {
    match e
    case FrameRead(ch, f) =>
      assert OneTurn(s, ch);
      BusyIffLive(s, ch);
      HandleKeepsSession(s.generation, s.policy, ch, At(s, ch), f);
      CommitKeepsOnSessions(s, ch, Handle(s.generation, s.policy, ch, At(s, ch), f), k);
    case SessionReported(tid, _) =>
      assert OneTurn(s, s.turns[tid].channel);
      ReportKeepsOnSessions(s, e, k);
    case TurnDone(tid, _, _, _, _, _) =>
      assert OneTurn(s, s.turns[tid].channel);
      DoneKeepsOnSessions(s, e, k);
    case Reconnected =>
      assert Live(s.turns, s.generation + 1, k) == {};
    case _ =>
      assert At(Step(s, e), k) == At(s, k);
  }

  /** Without an early archive, every turn of the persona's own that runs on a session runs on its channel's. */
  lemma {:induction false} TurnsRunOnTheirSession(r: Run, i: nat, ch: string)
    requires IsRun(r) && i < |r.states| && NoEarlyArchive(r, i)
    ensures OnSessions(r.states[i], ch)
  {
    if i > 0 {
      TurnsRunOnTheirSession(r, i - 1, ch);
      OneTurnUntilEarlyArchive(r, i - 1);
      RunsAreNumbered(r, i - 1);
      assert Stepped(r, i - 1);
      StepKeepsOnSessions(r.states[i - 1], r.events[i - 1], ch);
    }
  }

  /**
   A session reported early is in reach of the drain exactly when it is a character's, or the channel had no session
   or this one, or a character there has it already.
   */
  lemma ReportIsHeldIff(s: State, e: Event)
    requires e.SessionReported? && Enabled(s, e) && IsCurrent(s, s.turns[e.turn])
    ensures var t := s.turns[e.turn];
            var c := s.channels[t.channel];
            e.session in Held(At(Step(s, e), t.channel))
            <==> t.charID != "" || c.sessionID in {"", e.session} || e.session in c.charSessions
  {
  }

  /** Without an early archive, a spawned turn's rows come in reach of the drain as soon as its session is reported. */
  lemma EarlySessionIsDrained(r: Run, n: nat, ch: string)
    requires IsRun(r) && n < |r.events| && NoEarlyArchive(r, n)
    requires r.events[n].SessionReported? && Reports(r.states[n], r.events[n], ch)
    ensures ch in r.states[n + 1].channels && r.events[n].session in Held(r.states[n + 1].channels[ch])
  {
    var s, e := r.states[n], r.events[n];
    assert Stepped(r, n);
    TurnsRunOnTheirSession(r, n, ch);
    assert e.turn in Live(s.turns, s.generation, ch);
    ReportIsHeldIff(s, e);
  }

  // ----- when a turn loses its session -----

  /** A turn of the persona's own that has a session. */
  predicate HasSession(t: Turn) { t.charID == "" && t.sessionID != "" }

  /** The persona's own turns that have a session have the channel's. */
  predicate SharesSession(s: State, ch: string) {
    forall tid <- Live(s.turns, s.generation, ch) ::
      HasSession(s.turns[tid]) ==> s.turns[tid].sessionID == At(s, ch).sessionID
  }

  ghost predicate SharesSessionEach(s: State) { forall ch :: SharesSession(s, ch) }

  /** The end of `t`, with this session, takes the channel off the session that `other` has. */
  predicate TakesSession(c: Channel, t: Turn, session: string, other: Turn) {
    HasSession(other) && (c.archiving || (t.charID == "" && session !in {"", other.sessionID}))
  }

  /** A turn ends while another one is under way there, and takes that one's session off the channel. */
  predicate MovesSession(s: State, e: Event) {
    && e.TurnDone? && e.turn in s.turns && IsCurrent(s, s.turns[e.turn])
    && var t := s.turns[e.turn];
       exists tid <- Live(s.turns, s.generation, t.channel) - {e.turn} ::
         TakesSession(s.channels[t.channel], t, e.session, s.turns[tid])
  }

  /** The channel that a finished turn leaves has another turn's session exactly when this was not taken off. */
  lemma FinishTakesSessionIff(generation: nat, c: Channel, t: Turn, session: string, passes: bool,
                              route: Option<Character>, other: Turn)
    requires HasSession(other)
    ensures TakesSession(c, t, session, other) ==>
              Finish(generation, c, t, session, passes, route).channel.sessionID != other.sessionID
    ensures !TakesSession(c, t, session, other) && c.sessionID == other.sessionID ==>
              Finish(generation, c, t, session, passes, route).channel.sessionID == other.sessionID
  {
  }

  lemma DoneKeepsOthers(s: State, e: Event, tid: nat)
    requires e.TurnDone? && Enabled(s, e) && Numbered(s) && tid in s.turns && tid != e.turn
    ensures tid in Step(s, e).turns && Step(s, e).turns[tid] == s.turns[tid] && Step(s, e).generation == s.generation
  {
  }

  /** Whatever happened before, such an event leaves a turn that is not on its channel's session. */
  lemma EndMovesSession(s: State, e: Event)
    requires Enabled(s, e) && Numbered(s) && MovesSession(s, e)
    ensures !SharesSession(Step(s, e), s.turns[e.turn].channel)
  {
    var t := s.turns[e.turn];
    var tid :| tid in Live(s.turns, s.generation, t.channel) - {e.turn}
               && TakesSession(s.channels[t.channel], t, e.session, s.turns[tid]);
    DoneTouches(s, e, t.channel);
    FinishTakesSessionIff(s.generation, s.channels[t.channel], t, e.session, Passes(s.policy, e.address), e.route,
                          s.turns[tid]);
    DoneKeepsOthers(s, e, tid);
    assert tid in Live(Step(s, e).turns, s.generation, t.channel);
  }

  /** A turn that the decision starts has the session it leaves the channel with, if any. */
  predicate StartsOnSession(d: Decision) {
    d.turn.Some? && HasSession(d.turn.value) ==> d.turn.value.sessionID == d.channel.sessionID
  }

  lemma CommitKeepsShared(s: State, ch: string, d: Decision, k: string)
    requires Numbered(s) && (k != ch ==> SharesSession(s, k)) && StartsOnSession(d)
    requires d.turn.Some? ==> d.turn.value.generation == s.generation && d.turn.value.channel == ch
    requires forall tid <- Live(s.turns, s.generation, ch) ::
               HasSession(s.turns[tid]) ==> s.turns[tid].sessionID == d.channel.sessionID
    ensures SharesSession(Commit(s, ch, d), k)
  {
    if d.turn.Some? {
      SpawnAddsLive(s.turns, s.generation, k, s.nextTurn, d.turn.value);
    }
  }

  /** A frame leaves a channel that has a session on it. */
  lemma HandleKeepsShared(generation: nat, policy: Policy, ch: string, c: Channel, f: Frame)
    requires f.Human? || f.Persona? ==> HasKey(f.route)
    ensures StartsOnSession(Handle(generation, policy, ch, c, f))
    ensures c.sessionID != "" ==> Handle(generation, policy, ch, c, f).channel.sessionID == c.sessionID
  {
  }

  lemma FinishStartsOnSession(generation: nat, c: Channel, t: Turn, session: string, passes: bool, route: Option<Character>)
    requires HasKey(route)
    ensures StartsOnSession(Finish(generation, c, t, session, passes, route))
  {
  }

  lemma DoneKeepsShared(s: State, e: Event, k: string)
    requires e.TurnDone? && Enabled(s, e) && Numbered(s) && SharesSessionEach(s) && !MovesSession(s, e)
    ensures SharesSession(Step(s, e), k)
  {
    var t := s.turns[e.turn];
    assert SharesSession(s, k) && SharesSession(s, t.channel);
    RetireRemovesLive(s.turns, s.generation, k, e.turn);
    RetireRemovesLive(s.turns, s.generation, t.channel, e.turn);
    if IsCurrent(s, t) {
      var s' := (if e.outcome.Said? then SendAnswer(s, e.turn, e.session, e.drain) else s).(turns := s.turns - {e.turn});
      var c, passes := s.channels[t.channel], Passes(s.policy, e.address);
      FinishStartsOnSession(s.generation, c, t, e.session, passes, e.route);
      forall tid | tid in Live(s.turns, s.generation, t.channel) - {e.turn} && HasSession(s.turns[tid])
        ensures s.turns[tid].sessionID == Finish(s.generation, c, t, e.session, passes, e.route).channel.sessionID
      {
        FinishTakesSessionIff(s.generation, c, t, e.session, passes, e.route, s.turns[tid]);
      }
      CommitKeepsShared(s', t.channel, Finish(s.generation, c, t, e.session, passes, e.route), k);
    }
  }

  lemma StepKeepsShared(s: State, e: Event, k: string)
    requires Enabled(s, e) && Numbered(s) && SharesSessionEach(s) && !MovesSession(s, e)
    ensures SharesSession(Step(s, e), k)
  {
    assert SharesSession(s, k);
    match e
    case FrameRead(ch, f) =>
      assert SharesSession(s, ch);
      HandleKeepsShared(s.generation, s.policy, ch, At(s, ch), f);
      CommitKeepsShared(s, ch, Handle(s.generation, s.policy, ch, At(s, ch), f), k);
    case TurnDone(_, _, _, _, _, _) => DoneKeepsShared(s, e, k);
    case Reconnected => assert Live(s.turns, s.generation + 1, k) == {};
    case SessionReported(tid, _) => assert SharesSession(s, s.turns[tid].channel);
    case _ => assert At(Step(s, e), k) == At(s, k);
  }

  lemma {:induction false} SharedUntilMoved(r: Run, i: nat)
    requires IsRun(r) && i < |r.states| && forall j :: 0 <= j < i ==> !MovesSession(r.states[j], r.events[j])
    ensures SharesSessionEach(r.states[i])
  {
    if i > 0 {
      SharedUntilMoved(r, i - 1);
      RunsAreNumbered(r, i - 1);
      forall ch ensures SharesSession(r.states[i], ch) {
        assert Stepped(r, i - 1);
        StepKeepsShared(r.states[i - 1], r.events[i - 1], ch);
      }
    }
  }

  /**
   Throughout a run every turn of the persona's own that has a session has its channel's, if and only if no turn
   ends beside such a turn on an archiving channel, or, being the persona's own, with another session than that turn's.
   */
  lemma TurnsKeepTheirSessionIff(r: Run)
    requires IsRun(r)
    ensures (forall i: nat :: i < |r.states| ==> SharesSessionEach(r.states[i]))
       <==> (forall j :: 0 <= j < |r.events| ==> !MovesSession(r.states[j], r.events[j]))
  {
    if j :| 0 <= j < |r.events| && MovesSession(r.states[j], r.events[j]) {
      RunsAreNumbered(r, j);
      assert Stepped(r, j);
      EndMovesSession(r.states[j], r.events[j]);
      assert !SharesSessionEach(r.states[j + 1]);
    } else {
      forall i: nat | i < |r.states| ensures SharesSessionEach(r.states[i]) {
        SharedUntilMoved(r, i);
      }
    }
  }

  /** Such an event needs two turns at once, hence an early archive before it. */
  lemma MoveNeedsEarlyArchive(r: Run, n: nat)
    requires IsRun(r) && n < |r.events| && NoEarlyArchive(r, n)
    ensures !MovesSession(r.states[n], r.events[n])
  {
    var s, e := r.states[n], r.events[n];
    if MovesSession(s, e) {
      OneTurnUntilEarlyArchive(r, n);
      assert OneTurn(s, s.turns[e.turn].channel);
      OnlyLive(s, s.turns[e.turn].channel, e.turn);
    }
  }

  const ASK := Human("m1", "hello", false, Address(true, false), None)
  const ASKED := Message("m1", "hello", false)
  const SPAWNED := Turn(1, "eng", "", Some(ASKED), "", "")

  function Ends(tid: nat, session: string): Event {
    TurnDone(tid, session, Silent, Drain(["eng"], Failed), Address(true, false), None)
  }

  /** A busy channel of the room, with or without a session, on which nothing waits and no archive is due. */
  predicate Working(s: State, session: string, busy: bool) {
    && s.generation == 1 && s.channels.Keys == {"eng"}
    && var c := s.channels["eng"]; c.busy == busy && c.sessionID == session && c.pending.None? && !c.archiving
  }

  ghost predicate Reachable(s: State) {
    exists r :: IsRun(r) && r.states[|r.events|] == s
  }

  lemma ReachNext(s: State, e: Event)
    requires Reachable(s) && Enabled(s, e)
    ensures Reachable(Step(s, e))
  {
    var r :| IsRun(r) && r.states[|r.events|] == s;
    var r' := Run(r.states + [Step(s, e)], r.events + [e]);
    forall i: nat | i < |r'.events| ensures Stepped(r', i) {
      assert i < |r.events| ==> Stepped(r, i);
    }
    assert IsRun(r') && r'.states[|r'.events|] == Step(s, e);
  }

  lemma Connects() returns (s: State)
    ensures Reachable(s) && s == State(1, All, map[], map[], 0, {}, [], [])
  {
    var r := Run([START], []);
    assert IsRun(r) && r.states[|r.events|] == START;
    ReachNext(START, Reconnected);
    s := Step(START, Reconnected);
  }

  lemma FirstAskStarts(s: State) returns (s': State)
    requires Reachable(s) && s == State(1, All, map[], map[], 0, {}, [], [])
    ensures Reachable(s') && Working(s', "", true) && s'.nextTurn == 1 && s'.turns == map[0 := SPAWNED]
  {
    ReachNext(s, FrameRead("eng", ASK));
    s' := Step(s, FrameRead("eng", ASK));
  }

  lemma ArchiveFrees(s: State) returns (s': State)
    requires Reachable(s) && Working(s, "", true)
    ensures EarlyArchive(s, FrameRead("eng", Archive)) && s' == Step(s, FrameRead("eng", Archive))
    ensures Reachable(s') && Working(s', "", false) && s'.nextTurn == s.nextTurn && s'.turns == s.turns
  {
    ReachNext(s, FrameRead("eng", Archive));
    s' := Step(s, FrameRead("eng", Archive));
  }

  lemma AskStarts(s: State, session: string) returns (s': State)
    requires Reachable(s) && Working(s, session, false)
    ensures Reachable(s') && Working(s', session, true) && s'.nextTurn == s.nextTurn + 1
    ensures s'.turns == s.turns[s.nextTurn := Turn(1, "eng", session, Some(ASKED), "", "")]
  {
    ReachNext(s, FrameRead("eng", ASK));
    s' := Step(s, FrameRead("eng", ASK));
  }

  lemma TurnEnds(s: State, before: string, tid: nat, session: string) returns (s': State)
    requires Reachable(s) && Working(s, before, true) && tid in s.turns && s.turns[tid] == SPAWNED && session != ""
    ensures Enabled(s, Ends(tid, session)) && s' == Step(s, Ends(tid, session))
    ensures Reachable(s') && Working(s', session, false) && s'.nextTurn == s.nextTurn && s'.turns == s.turns - {tid}
  {
    ReachNext(s, Ends(tid, session));
    s' := Step(s, Ends(tid, session));
  }

  /** A first turn, an early archive and a second turn: two turns that spawn sessions of their own. */
  lemma TwoSpawn() returns (s: State)
    ensures Reachable(s) && Working(s, "", true) && s.turns == map[0 := SPAWNED, 1 := SPAWNED] && s.nextTurn == 2
  {
    var s1 := Connects();
    var s2 := FirstAskStarts(s1);
    var s3 := ArchiveFrees(s2);
    s := AskStarts(s3, "");
  }

  /** The first of them ends with session "A", and a third turn starts on "A". */
  lemma ThirdRunsOnA() returns (s: State)
    ensures Reachable(s) && Working(s, "A", true) && s.turns == map[1 := SPAWNED, 2 := Turn(1, "eng", "A", Some(ASKED), "", "")]
  {
    var s4 := TwoSpawn();
    var s5 := TurnEnds(s4, "", 0, "A");
    s := AskStarts(s5, "A");
  }

  /** Then the end of the second, with "B", moves the channel to a session that the third does not run on. */
  lemma SessionMovesUnderATurn() returns (s: State, s': State)
    ensures Reachable(s) && Enabled(s, Ends(1, "B")) && s' == Step(s, Ends(1, "B")) && MovesSession(s, Ends(1, "B"))
    ensures 2 in s.turns && SharesSession(s, "eng") && At(s, "eng").sessionID == s.turns[2].sessionID == "A"
    ensures 2 in Live(s'.turns, 1, "eng") && s'.turns[2] == s.turns[2] && At(s', "eng").sessionID == "B"
  {
    s := ThirdRunsOnA();
    assert 2 in Live(s.turns, s.generation, "eng") - {1};
    s' := TurnEnds(s, "A", 1, "B");
  }

  const FAILS := TurnDone(1, "", Errored, Drain(["eng"], Failed), Address(true, false), None)

  /** Or an archive frame is put off while they run, and the second, which fails to spawn, rotates the channel. */
  lemma SessionClearedUnderATurn() returns (s: State, s': State)
    ensures Reachable(s) && Enabled(s, FAILS) && s' == Step(s, FAILS) && MovesSession(s, FAILS)
    ensures 2 in s.turns && SharesSession(s, "eng") && At(s, "eng").sessionID == s.turns[2].sessionID == "A"
    ensures 2 in Live(s'.turns, 1, "eng") && s'.turns[2] == s.turns[2] && At(s', "eng").sessionID == ""
  {
    var s6 := ThirdRunsOnA();
    ReachNext(s6, FrameRead("eng", Archive));
    s := Step(s6, FrameRead("eng", Archive));
    s' := Step(s, FAILS);
    assert 2 in Live(s.turns, s.generation, "eng") - {1};
  }

  // ----- reports from an earlier connection -----

  /** Turn numbers are not used again, and the generation never goes back. */
  lemma StepKeepsTurns(s: State, e: Event, tid: nat)
    requires Enabled(s, e) && tid < s.nextTurn
    ensures s.generation <= Step(s, e).generation && s.nextTurn <= Step(s, e).nextTurn
    ensures tid in Step(s, e).turns ==> tid in s.turns && Step(s, e).turns[tid] == s.turns[tid]
  {
  }

  lemma {:induction false} RunKeepsTurns(r: Run, i: nat, n: nat, tid: nat)
    requires IsRun(r) && i <= n < |r.states| && tid < r.states[i].nextTurn
    ensures r.states[i].generation <= r.states[n].generation && r.states[i].nextTurn <= r.states[n].nextTurn
    ensures tid in r.states[n].turns ==> tid in r.states[i].turns && r.states[n].turns[tid] == r.states[i].turns[tid]
  {
    if i < n {
      RunKeepsTurns(r, i, n - 1, tid);
      assert Stepped(r, n - 1);
      StepKeepsTurns(r.states[n - 1], r.events[n - 1], tid);
    }
  }

  /** After a reconnect, whatever a turn from before it reports changes nothing but that the turn is over. */
  lemma StaleReportsChangeNothing(r: Run, j: nat, n: nat, tid: nat)
    requires IsRun(r) && j < n < |r.events| && r.events[j].Reconnected? && tid < r.states[j].nextTurn
    ensures r.events[n].SessionReported? && r.events[n].turn == tid ==>
              r.states[n + 1] == r.states[n].(reported := r.states[n].reported + {tid})
    ensures r.events[n].TurnDone? && r.events[n].turn == tid ==>
              r.states[n + 1] == r.states[n].(turns := r.states[n].turns - {tid})
  {
    RunsAreNumbered(r, j);
    assert Stepped(r, j) && Stepped(r, n);
    RunKeepsTurns(r, j, n, tid);
    RunKeepsTurns(r, j + 1, n, tid);
  }

  // ----- the eyes -----

  /** The messages that wear the turn's eyes: added and not taken off since. */
  function Worn(acts: seq<Act>): set<string> {
    if acts == [] then {}
    else
      var worn := Worn(acts[..|acts| - 1]);
      match acts[|acts| - 1]
      case EyesOn(id) => worn + {id}
      case EyesOff(id) => worn - {id}
  }

  lemma OneMoreAct(acts: seq<Act>, a: Act)
    ensures Worn(acts + [a]) == if a.EyesOn? then Worn(acts) + {a.id} else Worn(acts) - {a.id}
  {
    PartsOfConcat(acts, [a]);
  }

  /** The eyes are on the message the channel remembers, and on no other. */
  predicate EyesMatch(c: Channel) { OnlyWorn(c.acts, c.eyedID) }

  predicate OnlyWorn(acts: seq<Act>, id: string) {
    Worn(acts) == if id == "" then {} else {id}
  }

  /** Another message than this one wears the eyes. */
  predicate Overwrites(c: Channel, m: Message) { c.eyedID != "" && m.id != "" && m.id != c.eyedID }

  /** A message makes a free channel start a turn on it while another message still wears the eyes. */
  ghost predicate StartsOverEyes(r: Run, n: nat, ch: string)
    requires IsRun(r) && n < |r.events|
  {
    Asks(r, n, ch) && !At(r.states[n], ch).busy && Overwrites(At(r.states[n], ch), TriggerOf(r.events[n].frame))
  }

  lemma TwoAreNotOne(a: string, b: string)
    ensures {a, b} == {b} <==> a == b
  {
    if {a, b} == {b} {
      assert a in {b};
    }
  }

  lemma WorkWears(c: Channel, c': Channel, m: Message)
    requires EyesMatch(c) && WorksOn(c, c', m)
    ensures EyesMatch(c') <==> !Overwrites(c, m)
  {
    if m.id != "" {
      OneMoreAct(c.acts, EyesOn(m.id));
      if c.eyedID != "" {
        TwoAreNotOne(c.eyedID, m.id);
        assert {c.eyedID} + {m.id} == {c.eyedID, m.id};
      }
    }
  }

  lemma EyesOffWears(c: Channel)
    requires EyesMatch(c)
    ensures OnlyWorn(EyesTakenOff(c), "")
  {
    if c.eyedID != "" {
      OneMoreAct(c.acts, EyesOff(c.eyedID));
    }
  }

  /** Any other frame leaves the eyes where they are. */
  lemma OtherFramesWear(generation: nat, policy: Policy, ch: string, c: Channel, f: Frame)
    requires !f.Human? && !f.Persona?
    ensures var c' := Handle(generation, policy, ch, c, f).channel; c'.acts == c.acts && c'.eyedID == c.eyedID
  {
  }

  lemma StepWears(r: Run, n: nat, ch: string)
    requires IsRun(r) && n < |r.events| && EyesMatch(At(r.states[n], ch))
    ensures EyesMatch(At(r.states[n + 1], ch)) <==> !StartsOverEyes(r, n, ch)
  {
    var s, e, c, c' := r.states[n], r.events[n], At(r.states[n], ch), At(r.states[n + 1], ch);
    StepMoves(r, n, ch);
    if e.FrameRead? && e.channel == ch {
      if e.frame.Human? || e.frame.Persona? {
        MessageIsServed(r, n, ch);
        if Asks(r, n, ch) && !c.busy {
          WorkWears(c, c', TriggerOf(e.frame));
        }
      } else {
        OtherFramesWear(s.generation, s.policy, ch, c, e.frame);
      }
    } else if EndsTurn(s, e, ch) {
      TurnEndIsServed(r, n, ch);
      EyesOffWears(c);
      if FollowsUp(r, n, ch) {
        WorkWears(c.(eyedID := "", acts := EyesTakenOff(c)), c', c.pending.value);
      }
    }
  }

  lemma {:induction false} EyesMatchUntil(r: Run, i: nat, ch: string)
    requires IsRun(r) && i < |r.states|
    requires forall j :: 0 <= j < i ==> !StartsOverEyes(r, j, ch)
    ensures EyesMatch(At(r.states[i], ch))
  {
    if i > 0 {
      EyesMatchUntil(r, i - 1, ch);
      StepWears(r, i - 1, ch);
    }
  }

  /** The eyes are where the channel remembers them throughout a run iff no turn starts over another message's eyes. */
  lemma EyesMatchIffNoneIsOverwritten(r: Run, ch: string)
    requires IsRun(r)
    ensures (forall i: nat :: i < |r.states| ==> EyesMatch(At(r.states[i], ch)))
       <==> (forall j :: 0 <= j < |r.events| ==> !StartsOverEyes(r, j, ch))
  {
    if j :| 0 <= j < |r.events| && StartsOverEyes(r, j, ch) {
      if EyesMatch(At(r.states[j], ch)) {
        StepWears(r, j, ch);
        assert !EyesMatch(At(r.states[j + 1], ch));
      }
    } else {
      forall i: nat | i < |r.states| ensures EyesMatch(At(r.states[i], ch)) {
        EyesMatchUntil(r, i, ch);
      }
    }
  }

  /** Only a channel with a turn under way remembers a message wearing the eyes. */
  predicate EyesBusy(c: Channel) { c.eyedID != "" ==> c.busy }

  lemma HandleKeepsEyesBusy(generation: nat, policy: Policy, ch: string, c: Channel, f: Frame)
    requires EyesBusy(c) && (f.Archive? ==> !(c.busy && c.sessionID == ""))
    ensures EyesBusy(Handle(generation, policy, ch, c, f).channel)
  {
  }

  lemma FinishKeepsEyesBusy(generation: nat, c: Channel, t: Turn, session: string, passes: bool, route: Option<Character>)
    ensures EyesBusy(Finish(generation, c, t, session, passes, route).channel)
  {
  }

  lemma StepKeepsEyesBusy(s: State, e: Event, ch: string)
    requires Enabled(s, e) && !EarlyArchive(s, e) && EyesBusy(At(s, ch))
    ensures EyesBusy(At(Step(s, e), ch))
  {
    if e.FrameRead? {
      FrameTouches(s, e, ch);
      if e.channel == ch {
        HandleKeepsEyesBusy(s.generation, s.policy, ch, At(s, ch), e.frame);
      }
    } else if e.TurnDone? {
      DoneTouches(s, e, ch);
      FinishKeepsEyesBusy(s.generation, At(s, ch), s.turns[e.turn], e.session, Passes(s.policy, e.address), e.route);
    } else {
      OtherTouches(s, e, ch);
    }
  }

  lemma {:induction false} EyesAreBusy(r: Run, i: nat, ch: string)
    requires IsRun(r) && i < |r.states| && NoEarlyArchive(r, i)
    ensures EyesBusy(At(r.states[i], ch))
  {
    if i > 0 {
      EyesAreBusy(r, i - 1, ch);
      assert Stepped(r, i - 1);
      StepKeepsEyesBusy(r.states[i - 1], r.events[i - 1], ch);
    }
  }

  /** Without an early archive the eyes are balanced: at most one message wears them, and only during its turn. */
  lemma EyesAreBalanced(r: Run, i: nat, ch: string)
    requires IsRun(r) && i < |r.states| && NoEarlyArchive(r, i)
    ensures EyesMatch(At(r.states[i], ch))
    ensures Worn(At(r.states[i], ch).acts) != {} ==> |Live(r.states[i].turns, r.states[i].generation, ch)| == 1
  {
    forall j | 0 <= j < i ensures !StartsOverEyes(r, j, ch) {
      EyesAreBusy(r, j, ch);
    }
    EyesMatchUntil(r, i, ch);
    EyesAreBusy(r, i, ch);
    OneTurnUntilEarlyArchive(r, i);
    assert OneTurn(r.states[i], ch);
  }
}
