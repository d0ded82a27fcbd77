/**
 What every run of the turn loop keeps, channel by channel: which events start a turn and for whom, that no
 trigger is lost or served twice, and that chains of persona messages are bounded. All of it is stated over the
 events of a run, the turns they start and what waits; these laws hold on all runs.
 */
module TurnLaws {
  import opened Options
  import opened TurnLoop
  import opened TurnEvents

  // ----- what a free channel is -----

  /** Nothing waits on a channel without a turn under way, and it is not due to rotate. */
  predicate Settled(c: Channel) { c.busy || (c.pending.None? && !c.archiving) }

  lemma HandleSettles(generation: nat, policy: Policy, ch: string, c: Channel, f: Frame)
    requires Settled(c)
    ensures Settled(Handle(generation, policy, ch, c, f).channel)
  {
  }

  lemma FinishSettles(generation: nat, c: Channel, t: Turn, session: string, passes: bool, route: Option<Character>)
    ensures Settled(Finish(generation, c, t, session, passes, route).channel)
  {
  }

  lemma {:induction false} RunsAreSettled(r: Run, n: nat, ch: string)
    requires IsRun(r) && n < |r.states|
    ensures Settled(At(r.states[n], ch))
  {
    if n > 0 {
      var s, e := r.states[n - 1], r.events[n - 1];
      RunsAreSettled(r, n - 1, ch);
      StepMoves(r, n - 1, ch);
      if e.FrameRead? && e.channel == ch {
        HandleSettles(s.generation, s.policy, ch, At(s, ch), e.frame);
      } else if EndsTurn(s, e, ch) {
        FinishSettles(s.generation, At(s, ch), s.turns[e.turn], e.session, Passes(s.policy, e.address), e.route);
      }
    }
  }

  // ----- which events start a turn -----

  /** The turn answers the message, on the session of the character it is routed to or on the channel's. */
  predicate Answers(t: Turn, generation: nat, ch: string, session: string, asked: Message, route: Option<Character>) {
    && t.generation == generation && t.channel == ch && t.asked == Some(asked)
    && match route
       case Some(x) => t.sessionID == x.session && t.speaker == x.name && t.charID == x.id
       case None => t.sessionID == session && t.speaker == "" && t.charID == ""
  }

  /** The turn asks nothing of a message: it lets the persona close the session. */
  predicate Closes(t: Turn, generation: nat, ch: string, session: string) {
    t == Turn(generation, ch, session, None, "", "")
  }

  /** The turns of the step's state, and one more. */
  ghost predicate StartsOne(turns: map<nat, Turn>, next: nat, s': State) {
    next in s'.turns && s'.turns == turns[next := s'.turns[next]] && s'.nextTurn == next + 1
  }

  predicate StartsNone(turns: map<nat, Turn>, next: nat, s': State) { s'.turns == turns && s'.nextTurn == next }

  function TriggerOf(f: Frame): Message
    requires f.Human? || f.Persona?
  {
    Message(f.id, f.body, f.Persona?)
  }

  /**
   A message that asks for a turn: a human's that is not blank, or another persona's that names this one while
   fewer than three did so since the budget was whole; and in either case one that the policy hears.
   */
  ghost predicate Asks(r: Run, n: nat, ch: string)
    requires IsRun(r) && n < |r.events|
  {
    && r.events[n].FrameRead? && r.events[n].channel == ch
    && match r.events[n].frame
       case Human(_, _, blank, address, _) => !blank && Hears(PolicyAt(r, n), address)
       case Persona(_, _, own, address, _) =>
         !own && address.us && CallsSince(r, n, ch) < 3 && Hears(PolicyAt(r, n), address)
       case _ => false
  }

  /** What waited for the turn that ends is heard, and the channel does not rotate. */
  ghost predicate FollowsUp(r: Run, n: nat, ch: string)
    requires IsRun(r) && n < |r.events|
  {
    && EndsTurn(r.states[n], r.events[n], ch) && !Due(r, n, ch)
    && At(r.states[n], ch).pending.Some? && Hears(PolicyAt(r, n), r.events[n].address)
  }

  lemma PassesIsHears(policy: Policy, a: Address)
    ensures Passes(policy, a) <==> Hears(policy, a)
  {
  }

  /** The message a channel is working on wears its eyes, if it has an id. */
  predicate WorksOn(c: Channel, c': Channel, m: Message) {
    && c'.busy && c'.pending.None?
    && (if m.id == "" then c'.eyedID == c.eyedID && c'.acts == c.acts
        else c'.eyedID == m.id && c'.acts == c.acts + [EyesOn(m.id)])
  }

  /** The turns under way after a step are those given, and the decision's. */
  predicate SpawnsOnly(turns: map<nat, Turn>, next: nat, s': State, t: Option<Turn>) {
    if t.Some? then s'.turns == turns[next := t.value] && s'.nextTurn == next + 1
    else s'.turns == turns && s'.nextTurn == next
  }

  /** Which turns a step of a run leaves under way. */
  lemma StepSpawns(r: Run, n: nat, ch: string)
    requires IsRun(r) && n < |r.events|
    ensures var s, s', e, c := r.states[n], r.states[n + 1], r.events[n], At(r.states[n], ch);
            if e.FrameRead? && e.channel == ch then
              SpawnsOnly(s.turns, s.nextTurn, s', Handle(s.generation, s.policy, ch, c, e.frame).turn)
            else if EndsTurn(s, e, ch) then
              SpawnsOnly(s.turns - {e.turn}, s.nextTurn, s',
                         Finish(s.generation, c, s.turns[e.turn], e.session, Passes(s.policy, e.address), e.route).turn)
            else e.FrameRead? || e.TurnDone? || (s'.turns == s.turns && s'.nextTurn == s.nextTurn)
  {
    assert Stepped(r, n);
  }

  /** The same message asked of a channel: what it becomes there. */
  lemma HandleServes(generation: nat, policy: Policy, ch: string, c: Channel, f: Frame)
    requires (f.Human? || f.Persona?) && Settled(c)
    ensures var d, asks := Handle(generation, policy, ch, c, f),
              Hears(policy, f.address) && (if f.Human? then !f.blank else !f.own && f.address.us && c.hops < 3);
            if asks && !c.busy then
              && d.turn.Some? && Answers(d.turn.value, generation, ch, c.sessionID, TriggerOf(f), f.route)
              && WorksOn(c, d.channel, TriggerOf(f))
            else
              && d.turn.None? && d.channel.busy == c.busy && d.channel.eyedID == c.eyedID && d.channel.acts == c.acts
              && d.channel.pending == if asks then Some(TriggerOf(f)) else c.pending
  {
  }

  /**
   A message starts a turn if and only if it asks for one and the channel is free. The turn answers it, and it wears
   the eyes. While a turn is under way it waits instead of what waited before, and any other message changes neither.
   */
  lemma MessageIsServed(r: Run, n: nat, ch: string)
    requires IsRun(r) && n < |r.events| && r.events[n].FrameRead? && r.events[n].channel == ch
    requires r.events[n].frame.Human? || r.events[n].frame.Persona?
    ensures var s, s', f, asks := r.states[n], r.states[n + 1], r.events[n].frame, Asks(r, n, ch);
            var c, c' := At(s, ch), At(s', ch);
            if asks && !c.busy then
              && StartsOne(s.turns, s.nextTurn, s') && WorksOn(c, c', TriggerOf(f))
              && Answers(s'.turns[s.nextTurn], s.generation, ch, SessionAt(r, n, ch), TriggerOf(f), f.route)
            else
              && StartsNone(s.turns, s.nextTurn, s') && c'.busy == c.busy && c'.eyedID == c.eyedID && c'.acts == c.acts
              && c'.pending == if asks then Some(TriggerOf(f)) else c.pending
  {
    var s, e := r.states[n], r.events[n];
    ChannelIsItsEvents(r, n, ch, "");
    PolicyIsLastRead(r, n);
    RunsAreSettled(r, n, ch);
    StepMoves(r, n, ch);
    StepSpawns(r, n, ch);
    HandleServes(s.generation, s.policy, ch, At(s, ch), e.frame);
  }

  lemma ArchiveServes(generation: nat, ch: string, c: Channel)
    ensures var d := ArchiveChannel(generation, ch, c);
            && d.turn == (if c.sessionID != "" && !c.busy then Some(Turn(generation, ch, c.sessionID, None, "", "")) else None)
            && if c.sessionID == "" then !d.channel.busy && d.channel.pending.None?
               else d.channel.busy && d.channel.pending == c.pending
  {
  }

  /** An archive frame starts a turn, which closes the session, if and only if there is a session and the channel is free. */
  lemma ArchiveIsServed(r: Run, n: nat, ch: string)
    requires IsRun(r) && n < |r.events| && IsArchive(r.events[n], ch)
    ensures var s, s', c := r.states[n], r.states[n + 1], At(r.states[n], ch);
            if SessionAt(r, n, ch) != "" && !c.busy then
              StartsOne(s.turns, s.nextTurn, s') && Closes(s'.turns[s.nextTurn], s.generation, ch, SessionAt(r, n, ch))
            else StartsNone(s.turns, s.nextTurn, s')
    ensures var c, c' := At(r.states[n], ch), At(r.states[n + 1], ch);
            if SessionAt(r, n, ch) == "" then !c'.busy && c'.pending.None? else c'.busy && c'.pending == c.pending
  {
    ChannelIsItsEvents(r, n, ch, "");
    StepMoves(r, n, ch);
    StepSpawns(r, n, ch);
    ArchiveServes(r.states[n].generation, ch, At(r.states[n], ch));
  }

  /** The reactions sent in a channel once its eyes are off. */
  function EyesTakenOff(c: Channel): seq<Act> {
    if c.eyedID == "" then c.acts else c.acts + [EyesOff(c.eyedID)]
  }

  /** A channel free again. */
  predicate IsFree(c: Channel, acts: seq<Act>) { !c.busy && c.pending.None? && c.eyedID == "" && c.acts == acts }

  lemma ReleaseServes(c: Channel, passes: bool)
    ensures var c', off := Release(c, passes), EyesTakenOff(c);
            if !c.archiving && c.pending.Some? && passes then WorksOn(c.(eyedID := "", acts := off), c', c.pending.value)
            else IsFree(c', off)
  {
  }

  lemma FinishServes(generation: nat, c: Channel, t: Turn, session: string, passes: bool, route: Option<Character>)
    ensures var d, off := Finish(generation, c, t, session, passes, route), EyesTakenOff(c);
            if !c.archiving && c.pending.Some? && passes then
              && d.turn.Some? && Answers(d.turn.value, generation, t.channel, d.channel.sessionID, c.pending.value, route)
              && WorksOn(c.(eyedID := "", acts := off), d.channel, c.pending.value)
            else d.turn.None? && IsFree(d.channel, off)
  {
    ReleaseServes(RegisterLate(c, t, session), passes);
    ReleaseMoves(RegisterLate(c, t, session), passes);
  }

  /**
   The end of a turn takes the eyes off, and starts a turn if and only if something waited, the policy hears it and
   the channel does not rotate. That turn answers what waited, and otherwise the channel is free. Nothing waits.
   */
  lemma TurnEndIsServed(r: Run, n: nat, ch: string)
    requires IsRun(r) && n < |r.events| && EndsTurn(r.states[n], r.events[n], ch)
    ensures var s, s', e := r.states[n], r.states[n + 1], r.events[n];
            var c, c' := At(s, ch), At(s', ch);
            if FollowsUp(r, n, ch) then
              && StartsOne(s.turns - {e.turn}, s.nextTurn, s')
              && WorksOn(c.(eyedID := "", acts := EyesTakenOff(c)), c', c.pending.value)
              && Answers(s'.turns[s.nextTurn], s.generation, ch, SessionAt(r, n + 1, ch), c.pending.value, e.route)
            else StartsNone(s.turns - {e.turn}, s.nextTurn, s') && IsFree(c', EyesTakenOff(c))
  {
    var s, e := r.states[n], r.events[n];
    ChannelIsItsEvents(r, n, ch, "");
    ChannelIsItsEvents(r, n + 1, ch, "");
    PassesIsHears(s.policy, e.address);
    PolicyIsLastRead(r, n);
    StepMoves(r, n, ch);
    StepSpawns(r, n, ch);
    FinishServes(s.generation, At(s, ch), s.turns[e.turn], e.session, Passes(s.policy, e.address), e.route);
  }

  /** A final report from an earlier connection only ends its turn. */
  lemma StaleEnds(r: Run, n: nat)
    requires IsRun(r) && n < |r.events| && r.events[n].TurnDone?
    ensures r.events[n].turn in r.states[n].turns
    ensures var s, e := r.states[n], r.events[n];
            !IsCurrent(s, s.turns[e.turn]) ==> r.states[n + 1] == s.(turns := s.turns - {e.turn})
  {
    assert Stepped(r, n);
  }

  /**
   On every run a step starts a turn if and only if it reads a message that asks for one, or an archive frame with a
   session to close, on a free channel, or ends a turn on which something waits to be followed up.
   */
  lemma TurnStartsIff(r: Run, n: nat)
    requires IsRun(r) && n < |r.events|
    ensures r.events[n].TurnDone? ==> r.events[n].turn in r.states[n].turns
    ensures var s, e := r.states[n], r.events[n];
            r.states[n + 1].nextTurn != s.nextTurn <==>
            || (e.FrameRead? && !At(s, e.channel).busy
                && (Asks(r, n, e.channel) || (e.frame.Archive? && SessionAt(r, n, e.channel) != "")))
            || (e.TurnDone? && FollowsUp(r, n, s.turns[e.turn].channel))
  {
    var s, e := r.states[n], r.events[n];
    if e.FrameRead? {
      StepSpawns(r, n, e.channel);
      if e.frame.Human? || e.frame.Persona? {
        MessageIsServed(r, n, e.channel);
      } else if e.frame.Archive? {
        ArchiveIsServed(r, n, e.channel);
      }
    } else if e.TurnDone? {
      StaleEnds(r, n);
      if IsCurrent(s, s.turns[e.turn]) {
        TurnEndIsServed(r, n, s.turns[e.turn].channel);
      }
    } else {
      StepSpawns(r, n, "");
    }
  }

  // ----- the hop budget -----

  /** A human message, blank or not, a resume frame and a rotation give a channel its whole budget back. */
  lemma BudgetIsRestored(r: Run, n: nat, ch: string)
    requires IsRun(r) && n < |r.events| && (Restores(r.events[n], ch) || Rotates(r, n, ch))
    ensures At(r.states[n + 1], ch).hops == 0 && CallsSince(r, n + 1, ch) == 0
  {
    ChannelIsItsEvents(r, n + 1, ch, "");
  }

  lemma SpentIsHeldBack(generation: nat, policy: Policy, ch: string, c: Channel, f: Frame)
    requires f.Persona? && !f.own && f.address.us
    ensures c.hops >= 3 ==> Handle(generation, policy, ch, c, f) == Decision(c, None)
    ensures Hears(policy, f.address)
  {
  }

  /**
   Another persona's message that names this one is held back exactly when three such messages have come since the
   budget was whole: then nothing changes, and else it asks for a turn.
   */
  lemma BudgetIsExact(r: Run, n: nat, ch: string)
    requires IsRun(r) && n < |r.events| && Calls(r.events[n], ch)
    ensures Asks(r, n, ch) <==> CallsSince(r, n, ch) < 3
    ensures CallsSince(r, n, ch) >= 3 ==> r.states[n + 1] == Put(r.states[n], ch, At(r.states[n], ch))
  {
    var s, f := r.states[n], r.events[n].frame;
    ChannelIsItsEvents(r, n, ch, "");
    PolicyIsLastRead(r, n);
    SpentIsHeldBack(s.generation, s.policy, ch, At(s, ch), f);
    assert Stepped(r, n);
  }

  /** The step starts a turn on the channel that answers another persona's message. */
  ghost predicate StartsForPersona(r: Run, n: nat, ch: string)
    requires IsRun(r) && n < |r.events|
  {
    exists m :: StartsFor(r, n, ch, m) && m.fromPersona
  }

  /** The step starts a turn on the channel that answers the message. */
  ghost predicate StartsFor(r: Run, n: nat, ch: string, m: Message)
    requires IsRun(r) && n < |r.events|
  {
    var s, s' := r.states[n], r.states[n + 1];
    && s'.nextTurn != s.nextTurn && s.nextTurn in s'.turns
    && s'.turns[s.nextTurn].channel == ch && s'.turns[s.nextTurn].asked == Some(m)
  }

  /** Which message a step starts a turn for, if any, told from its events. */
  lemma StartsForIff(r: Run, n: nat, ch: string, m: Message)
    requires IsRun(r) && n < |r.events|
    ensures var c, e := At(r.states[n], ch), r.events[n];
            StartsFor(r, n, ch, m) <==>
            || (Asks(r, n, ch) && !c.busy && TriggerOf(e.frame) == m)
            || (FollowsUp(r, n, ch) && c.pending == Some(m))
  {
    var s, e := r.states[n], r.events[n];
    TurnStartsIff(r, n);
    if e.FrameRead? && (e.frame.Human? || e.frame.Persona?) {
      MessageIsServed(r, n, e.channel);
    } else if e.FrameRead? && e.frame.Archive? {
      ArchiveIsServed(r, n, e.channel);
    } else if e.TurnDone? && IsCurrent(s, s.turns[e.turn]) {
      TurnEndIsServed(r, n, s.turns[e.turn].channel);
    }
  }

  ghost function PersonaStarts(r: Run, n: nat, ch: string): nat
    requires IsRun(r) && n < |r.states|
  {
    if n == 0 then 0 else PersonaStarts(r, n - 1, ch) + (if StartsForPersona(r, n - 1, ch) then 1 else 0)
  }

  ghost function ResetCount(r: Run, n: nat, ch: string): nat
    requires IsRun(r) && n < |r.states|
  {
    if n == 0 then 0 else ResetCount(r, n - 1, ch) + (if Resets(r, n - 1, ch) then 1 else 0)
  }

  function PendingPersona(c: Channel): nat { if c.pending.Some? && c.pending.value.fromPersona then 1 else 0 }

  /** Every turn for a persona, started or waiting, was paid for by a hop of the chain, or of one before it. */
  ghost predicate PaidFor(r: Run, n: nat, ch: string)
    requires IsRun(r) && n < |r.states|
  {
    PersonaStarts(r, n, ch) + PendingPersona(At(r.states[n], ch))
    <= 3 * ResetCount(r, n, ch) + Least(CallsSince(r, n, ch), 3)
  }

  lemma {:induction false} StartsArePaidFor(r: Run, n: nat, ch: string)
    requires IsRun(r) && n < |r.states|
    ensures PaidFor(r, n, ch)
  {
    if n > 0 {
      StartsArePaidFor(r, n - 1, ch);
      StepIsPaidFor(r, n - 1, n, ch);
    }
  }

  lemma StepIsPaidFor(r: Run, n: nat, n': nat, ch: string)
    requires IsRun(r) && n' == n + 1 < |r.states| && PaidFor(r, n, ch)
    ensures PaidFor(r, n', ch)
  {
    WaitsAfter(r, n, ch);
    forall m ensures StartsFor(r, n, ch, m) <==>
                       || (Asks(r, n, ch) && !At(r.states[n], ch).busy && TriggerOf(r.events[n].frame) == m)
                       || (FollowsUp(r, n, ch) && At(r.states[n], ch).pending == Some(m))
    {
      StartsForIff(r, n, ch, m);
    }
  }

  /** What waits on the channel after a step. */
  lemma WaitsAfter(r: Run, n: nat, ch: string)
    requires IsRun(r) && n < |r.events|
    ensures var s, e, c, c' := r.states[n], r.events[n], At(r.states[n], ch), At(r.states[n + 1], ch);
            c'.pending == if Asks(r, n, ch) then (if c.busy then Some(TriggerOf(e.frame)) else None)
                          else if EndsTurn(s, e, ch) || Rotates(r, n, ch) || e.Reconnected? then None
                          else c.pending
    ensures At(r.states[n], ch).busy || At(r.states[n], ch).pending.None?
  {
    var s, e := r.states[n], r.events[n];
    RunsAreSettled(r, n, ch);
    StepMoves(r, n, ch);
    if e.FrameRead? && e.channel == ch && (e.frame.Human? || e.frame.Persona?) {
      MessageIsServed(r, n, ch);
    } else if IsArchive(e, ch) {
      ArchiveIsServed(r, n, ch);
    } else if EndsTurn(s, e, ch) {
      TurnEndIsServed(r, n, ch);
    }
  }

  /**
   Persona ping-pong is bounded: within a run at most three turns start for other personas' messages, and three
   more for each time the budget was made whole.
   */
  lemma PingPongIsBounded(r: Run, n: nat, ch: string)
    requires IsRun(r) && n < |r.states|
    ensures PersonaStarts(r, n, ch) <= 3 * (1 + ResetCount(r, n, ch))
  {
    StartsArePaidFor(r, n, ch);
  }

  // ----- what becomes of a message -----

  /**
   How often a message asked for a turn, and what became of it: a turn started for it, a later message took its place,
   a rotation or a new connection dropped it, or the policy refused it when the turn before it was over.
   */
  datatype Tally = Tally(asked: nat, started: nat, replaced: nat, dropped: nat, refused: nat)

  ghost predicate Refuses(r: Run, n: nat, ch: string)
    requires IsRun(r) && n < |r.events|
  {
    EndsTurn(r.states[n], r.events[n], ch) && !Due(r, n, ch) && !Hears(PolicyAt(r, n), r.events[n].address)
  }

  function Counted(t: Tally, asked: bool, started: bool, replaced: bool, dropped: bool, refused: bool): Tally {
    Tally(t.asked + (if asked then 1 else 0), t.started + (if started then 1 else 0),
          t.replaced + (if replaced then 1 else 0), t.dropped + (if dropped then 1 else 0),
          t.refused + (if refused then 1 else 0))
  }

  ghost function Tallied(r: Run, n: nat, ch: string, m: Message): Tally
    requires IsRun(r) && n < |r.states|
  {
    if n == 0 then Tally(0, 0, 0, 0, 0)
    else
      var waits, asks := At(r.states[n - 1], ch).pending == Some(m), Asks(r, n - 1, ch);
      Counted(Tallied(r, n - 1, ch, m),
              asks && TriggerOf(r.events[n - 1].frame) == m, StartsFor(r, n - 1, ch, m), waits && asks,
              waits && (Rotates(r, n - 1, ch) || r.events[n - 1].Reconnected?), waits && Refuses(r, n - 1, ch))
  }

  /** The last message that asked for a turn on the channel. */
  ghost function LastAsked(r: Run, n: nat, ch: string): Option<Message>
    requires IsRun(r) && n < |r.states|
  {
    if n == 0 then None
    else if Asks(r, n - 1, ch) then Some(TriggerOf(r.events[n - 1].frame))
    else LastAsked(r, n - 1, ch)
  }

  ghost predicate Conserved(r: Run, n: nat, ch: string, m: Message)
    requires IsRun(r) && n < |r.states|
  {
    var t, c := Tallied(r, n, ch, m), At(r.states[n], ch);
    && t.asked == t.started + t.replaced + t.dropped + t.refused + (if c.pending == Some(m) then 1 else 0)
    && (c.pending.Some? ==> c.busy && c.pending == LastAsked(r, n, ch))
  }

  lemma StepConserves(r: Run, n: nat, n': nat, ch: string, m: Message)
    requires IsRun(r) && n' == n + 1 < |r.states| && Conserved(r, n, ch, m)
    ensures Conserved(r, n', ch, m)
  {
    WaitsAfter(r, n, ch);
    StartsForIff(r, n, ch, m);
    RunsAreSettled(r, n', ch);
  }

  /**
   On every run a message has a turn started for it, is replaced, dropped or refused, or still waits, exactly as often
   as it asked for one; and what waits is the latest message that asked, on a channel with a turn under way.
   */
  lemma {:induction false} TriggersAreConserved(r: Run, n: nat, ch: string, m: Message)
    requires IsRun(r) && n < |r.states|
    ensures Conserved(r, n, ch, m)
  {
    if n > 0 {
      TriggersAreConserved(r, n - 1, ch, m);
      StepConserves(r, n - 1, n, ch, m);
    }
  }

  // ----- archiving ends the session -----

  /** A channel that waits for a turn to end before it rotates. */
  predicate Closing(c: Channel) { c.archiving && c.busy && c.sessionID != "" }

  /** A channel as after a rotation: no turn, no session, nothing waiting and the whole budget. */
  predicate Rotated(c: Channel) {
    !c.archiving && !c.busy && c.sessionID == "" && c.pending.None? && c.hops == 0
  }

  lemma ArchiveCloses(generation: nat, ch: string, c: Channel)
    ensures Closing(ArchiveChannel(generation, ch, c).channel) <==> c.sessionID != ""
    ensures Rotated(ArchiveChannel(generation, ch, c).channel) <==> c.sessionID == ""
  {
  }

  lemma FrameKeepsClosing(generation: nat, policy: Policy, ch: string, c: Channel, f: Frame)
    requires Closing(c)
    ensures Closing(Handle(generation, policy, ch, c, f).channel)
  {
  }

  lemma StepKeepsClosing(s: State, e: Event, ch: string)
    requires Enabled(s, e) && Closing(At(s, ch)) && !EndsTurn(s, e, ch) && !e.Reconnected?
    ensures Closing(At(Step(s, e), ch))
  {
    if e.FrameRead? {
      FrameTouches(s, e, ch);
      FrameKeepsClosing(s.generation, s.policy, ch, At(s, ch), e.frame);
    } else if e.TurnDone? {
      DoneTouches(s, e, ch);
    }
  }

  /** Whatever happens meanwhile, an archive frame on a channel with a session rotates it as the next turn there ends. */
  lemma {:induction false} ArchiveEndsSession(r: Run, i: nat, n: nat, ch: string)
    requires IsRun(r) && i < n < |r.states|
    requires r.events[i] == FrameRead(ch, Archive) && At(r.states[i], ch).sessionID != ""
    requires forall k :: i < k < n ==> !r.events[k].Reconnected? && !EndsTurn(r.states[k], r.events[k], ch)
    ensures Closing(At(r.states[n], ch))
    ensures n < |r.events| && EndsTurn(r.states[n], r.events[n], ch) ==>
              Rotated(At(r.states[n + 1], ch)) && r.states[n + 1].nextTurn == r.states[n].nextTurn
  {
    assert Stepped(r, n - 1);
    if n == i + 1 {
      FrameTouches(r.states[i], r.events[i], ch);
      ArchiveCloses(r.states[i].generation, ch, At(r.states[i], ch));
    } else {
      ArchiveEndsSession(r, i, n - 1, ch);
      StepKeepsClosing(r.states[n - 1], r.events[n - 1], ch);
    }
    if n < |r.events| && EndsTurn(r.states[n], r.events[n], ch) {
      assert Stepped(r, n);
      DoneRotates(r.states[n], r.events[n], ch);
    }
  }

  lemma DoneRotates(s: State, e: Event, ch: string)
    requires Enabled(s, e) && EndsTurn(s, e, ch) && Closing(At(s, ch))
    ensures Rotated(At(Step(s, e), ch)) && Step(s, e).nextTurn == s.nextTurn
  {
    DoneTouches(s, e, ch);
  }
}
