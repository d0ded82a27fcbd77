/**
 What the turn loop makes of a run, counted from the run's events alone: how much of the hop budget is spent,
 which session a channel is on and under which names its characters speak, and which events start a turn.
 */
module TurnEvents {
  import opened Options
  import opened TurnLoop

  /** The persona hears everything, only what names it, or anything but what calls on somebody else instead. */
  predicate Hears(policy: Policy, a: Address) {
    match policy
    case All => true
    case Mentioned => a.us
    case Judgment => a.another ==> a.us
  }

  // ----- what an event is to a channel -----

  /** A final report of a turn of this connection on the channel. */
  predicate EndsTurn(s: State, e: Event, ch: string) {
    e.TurnDone? && e.turn in s.turns && IsCurrent(s, s.turns[e.turn]) && s.turns[e.turn].channel == ch
  }

  predicate IsArchive(e: Event, ch: string) { e == FrameRead(ch, Archive) }

  /** A human message, blank or not, or a resume frame. */
  predicate Restores(e: Event, ch: string) {
    e.FrameRead? && e.channel == ch && (e.frame.Human? || e.frame.Resume?)
  }

  /** A message of another persona that names this one. */
  predicate Calls(e: Event, ch: string) {
    e.FrameRead? && e.channel == ch && e.frame.Persona? && !e.frame.own && e.frame.address.us
  }

  /** A turn of this connection on the channel reports the session it spawned, early or as it ends. */
  predicate Reports(s: State, e: Event, ch: string) {
    && (e.SessionReported? || (e.TurnDone? && e.session != ""))
    && e.turn in s.turns && IsCurrent(s, s.turns[e.turn]) && s.turns[e.turn].channel == ch
  }

  // ----- what the events add up to -----

  /** An archive frame found a session, and no turn of the channel has ended since. */
  ghost predicate Due(r: Run, n: nat, ch: string)
    requires IsRun(r) && n < |r.states|
    decreases n, 0
  {
    if n == 0 then false
    else
      var s, e := r.states[n - 1], r.events[n - 1];
      if IsArchive(e, ch) then SessionAt(r, n - 1, ch) != ""
      else !e.Reconnected? && !EndsTurn(s, e, ch) && Due(r, n - 1, ch)
  }

  /** The channel's session boundary is closed: by an archive frame at once, or as a turn ends. */
  ghost predicate Rotates(r: Run, n: nat, ch: string)
    requires IsRun(r) && n < |r.events|
    decreases n, 1
  {
    if IsArchive(r.events[n], ch) then SessionAt(r, n, ch) == ""
    else EndsTurn(r.states[n], r.events[n], ch) && Due(r, n, ch)
  }

  /**
   The session that a turn of the persona's own reported last, a spawned one only if there was none, since the
   channel's last rotation.
   */
  ghost function SessionAt(r: Run, n: nat, ch: string): string
    requires IsRun(r) && n < |r.states|
    decreases n, 0
  {
    if n == 0 then ""
    else
      var s, e := r.states[n - 1], r.events[n - 1];
      if e.Reconnected? || Rotates(r, n - 1, ch) then ""
      else if Reports(s, e, ch) && s.turns[e.turn].charID == "" && (e.TurnDone? || SessionAt(r, n - 1, ch) == "")
      then e.session
      else SessionAt(r, n - 1, ch)
  }

  /** The character whose turn reported the session last. */
  ghost function NameAt(r: Run, n: nat, ch: string, session: string): Option<string>
    requires IsRun(r) && n < |r.states|
  {
    if n == 0 then None
    else
      var s, e := r.states[n - 1], r.events[n - 1];
      if e.Reconnected? then None
      else if Reports(s, e, ch) && s.turns[e.turn].charID != "" && e.session == session then Some(s.turns[e.turn].speaker)
      else NameAt(r, n - 1, ch, session)
  }

  /** The policy that the settings last said. */
  ghost function PolicyAt(r: Run, n: nat): Policy
    requires IsRun(r) && n < |r.states|
  {
    if n == 0 then All else if r.events[n - 1].PolicyRead? then r.events[n - 1].policy else PolicyAt(r, n - 1)
  }

  lemma {:induction false} PolicyIsLastRead(r: Run, n: nat)
    requires IsRun(r) && n < |r.states|
    ensures r.states[n].policy == PolicyAt(r, n)
  {
    if n > 0 {
      PolicyIsLastRead(r, n - 1);
      assert Stepped(r, n - 1);
    }
  }

  /** The budget is whole again: a human message, a resume frame, a rotation or a new connection. */
  ghost predicate Resets(r: Run, n: nat, ch: string)
    requires IsRun(r) && n < |r.events|
  {
    Restores(r.events[n], ch) || Rotates(r, n, ch) || r.events[n].Reconnected?
  }

  /** How many messages of other personas have named this one since the budget was last whole. */
  ghost function CallsSince(r: Run, n: nat, ch: string): nat
    requires IsRun(r) && n < |r.states|
  {
    if n == 0 || Resets(r, n - 1, ch) then 0
    else CallsSince(r, n - 1, ch) + (if Calls(r.events[n - 1], ch) then 1 else 0)
  }

  function Least(a: nat, b: nat): nat { if a < b then a else b }

  // ----- what a step touches -----

  /** A finished turn changes its own channel alone, and a stale one changes none. */
  lemma DoneTouches(s: State, e: Event, ch: string)
    requires e.TurnDone? && Enabled(s, e)
    ensures var t := s.turns[e.turn];
            At(Step(s, e), ch)
            == if IsCurrent(s, t) && t.channel == ch
               then Finish(s.generation, At(s, ch), t, e.session, Passes(s.policy, e.address), e.route).channel
               else At(s, ch)
  {
  }

  /** A step other than a frame or a finished turn leaves every channel's history, budget and pending message. */
  lemma OtherTouches(s: State, e: Event, ch: string)
    requires Enabled(s, e) && !e.FrameRead? && !e.TurnDone?
    ensures var c, c' := At(s, ch), At(Step(s, e), ch);
            c' == NEW_CHANNEL || c' == c.(sessionID := c'.sessionID, charSessions := c'.charSessions)
  {
  }

  lemma FrameTouches(s: State, e: Event, ch: string)
    requires e.FrameRead? && Enabled(s, e)
    ensures At(Step(s, e), ch)
         == if e.channel == ch then Handle(s.generation, s.policy, ch, At(s, ch), e.frame).channel else At(s, ch)
  {
  }

  // ----- the channel's state is what its events add up to -----

  predicate Named(c: Channel, session: string, name: Option<string>) {
    name == if session in c.charSessions then Some(c.charSessions[session]) else None
  }

  ghost predicate Agrees(r: Run, n: nat, ch: string, session: string)
    requires IsRun(r) && n < |r.states|
  {
    var c := At(r.states[n], ch);
    && c.sessionID == SessionAt(r, n, ch) && c.archiving == Due(r, n, ch)
    && c.hops == Least(CallsSince(r, n, ch), 3)
    && Named(c, session, NameAt(r, n, ch, session))
  }

  /** What a frame does to a channel's session, names, budget and wait to rotate. */
  lemma FrameMoves(generation: nat, policy: Policy, ch: string, c: Channel, f: Frame)
    ensures var c' := Handle(generation, policy, ch, c, f).channel;
            && c'.sessionID == c.sessionID && c'.charSessions == c.charSessions
            && c'.archiving == (if f.Archive? then c.sessionID != "" else c.archiving)
            && c'.hops == if f.Human? || f.Resume? || (f.Archive? && c.sessionID == "") then 0
                          else if f.Persona? && !f.own && f.address.us && c.hops < 3 then c.hops + 1
                          else c.hops
  {
  }

  lemma ReleaseMoves(c: Channel, passes: bool)
    ensures var c' := Release(c, passes);
            && c'.sessionID == (if c.archiving then "" else c.sessionID) && c'.charSessions == c.charSessions
            && !c'.archiving && c'.hops == if c.archiving then 0 else c.hops
  {
  }

  /** And what the end of a turn does. */
  lemma EndMoves(generation: nat, c: Channel, t: Turn, session: string, passes: bool, route: Option<Character>)
    ensures var c' := Finish(generation, c, t, session, passes, route).channel;
            && c'.sessionID == (if c.archiving then "" else if session != "" && t.charID == "" then session else c.sessionID)
            && c'.charSessions
               == (if session != "" && t.charID != "" then c.charSessions[session := t.speaker] else c.charSessions)
            && !c'.archiving && c'.hops == if c.archiving then 0 else c.hops
  {
    ReleaseMoves(RegisterLate(c, t, session), passes);
  }

  /** The names a channel knows after a report. */
  lemma ReportNames(c: Channel, c': Channel, t: Turn, reported: string, session: string, name: Option<string>)
    requires Named(c, session, name)
    requires c'.charSessions
          == if reported != "" && t.charID != "" then c.charSessions[reported := t.speaker] else c.charSessions
    ensures Named(c', session, if reported != "" && t.charID != "" && reported == session then Some(t.speaker) else name)
  {
  }

  /** What one step of a run does to a channel. */
  lemma StepMoves(r: Run, n: nat, ch: string)
    requires IsRun(r) && n < |r.events|
    ensures var s, e, c, c' := r.states[n], r.events[n], At(r.states[n], ch), At(r.states[n + 1], ch);
            if e.FrameRead? && e.channel == ch then c' == Handle(s.generation, s.policy, ch, c, e.frame).channel
            else if EndsTurn(s, e, ch) then
              c' == Finish(s.generation, c, s.turns[e.turn], e.session, Passes(s.policy, e.address), e.route).channel
            else if Reports(s, e, ch) then c' == RegisterEarly(c, s.turns[e.turn], e.session) && e.session != ""
            else c' == if e.Reconnected? then NEW_CHANNEL else c
    ensures var e := r.events[n];
            e.Subscribed? || e.FrameRead? ==> e.channel in r.states[n + 1].channels
  {
    assert Stepped(r, n);
  }

  lemma FrameAgrees(r: Run, n: nat, n': nat, ch: string, session: string)
    requires IsRun(r) && n' == n + 1 < |r.states| && Agrees(r, n, ch, session)
    requires r.events[n].FrameRead? && r.events[n].channel == ch
    ensures Agrees(r, n', ch, session)
  {
    StepMoves(r, n, ch);
    FrameMoves(r.states[n].generation, r.states[n].policy, ch, At(r.states[n], ch), r.events[n].frame);
  }

  lemma EndAgrees(r: Run, n: nat, n': nat, ch: string, session: string)
    requires IsRun(r) && n' == n + 1 < |r.states| && Agrees(r, n, ch, session)
    requires EndsTurn(r.states[n], r.events[n], ch)
    ensures Agrees(r, n', ch, session)
  {
    var s, e := r.states[n], r.events[n];
    var t := s.turns[e.turn];
    StepMoves(r, n, ch);
    EndMoves(s.generation, At(s, ch), t, e.session, Passes(s.policy, e.address), e.route);
    ReportNames(At(s, ch), At(r.states[n'], ch), t, e.session, session, NameAt(r, n, ch, session));
  }

  lemma OtherAgrees(r: Run, n: nat, n': nat, ch: string, session: string)
    requires IsRun(r) && n' == n + 1 < |r.states| && Agrees(r, n, ch, session)
    requires !(r.events[n].FrameRead? && r.events[n].channel == ch) && !EndsTurn(r.states[n], r.events[n], ch)
    ensures Agrees(r, n', ch, session)
  {
    var s, e := r.states[n], r.events[n];
    StepMoves(r, n, ch);
    if Reports(s, e, ch) {
      ReportNames(At(s, ch), At(r.states[n'], ch), s.turns[e.turn], e.session, session, NameAt(r, n, ch, session));
    }
  }

  /**
   On every run a channel's session, its characters' names, what it has spent of the hop budget and whether it waits
   to rotate are what the frames, reports and turn ends so far add up to.
   */
  lemma {:induction false} ChannelIsItsEvents(r: Run, n: nat, ch: string, session: string)
    requires IsRun(r) && n < |r.states|
    ensures Agrees(r, n, ch, session)
  {
    if n > 0 {
      ChannelIsItsEvents(r, n - 1, ch, session);
      if r.events[n - 1].FrameRead? && r.events[n - 1].channel == ch {
        FrameAgrees(r, n - 1, n, ch, session);
      } else if EndsTurn(r.states[n - 1], r.events[n - 1], ch) {
        EndAgrees(r, n - 1, n, ch, session);
      } else {
        OtherAgrees(r, n - 1, n, ch, session);
      }
    }
  }
}
