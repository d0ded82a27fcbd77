/**
 A persona's gateway connection as it runs: one worker owns the channels' state and changes it in place.
 Every method is proved to take the step that TurnLoop states for it.
 */
module Gateway {
  import opened Options
  import opened Sequences
  import opened TurnLoop
  import opened Delivery
  import Outbox

  /** What the connection knows about one channel; `acts` is kept for the proofs alone. */
  class ChannelState {
    var sessionID: string
    var busy: bool
    var pending: Option<Message>
    var charSessions: map<string, string>
    var eyedID: string
    var hops: nat
    var archiving: bool
    ghost var acts: seq<Act>

    ghost function View(): Channel
      reads this
    {
      Channel(sessionID, busy, pending, charSessions, eyedID, hops, archiving, acts)
    }

    constructor ()
      ensures View() == NEW_CHANNEL
    {
      sessionID, busy, pending, charSessions := "", false, None, map[];
      eyedID, hops, archiving, acts := "", 0, false, [];
    }

    /** Remembers a finished turn's session, as a character's or as the channel's own. */
    method Register(t: Turn, session: string)
      modifies this
      ensures View() == RegisterLate(old(View()), t, session)
    {
      if t.charID != "" && session != "" {
        charSessions := charSessions[session := t.speaker];
      } else if session != "" {
        sessionID := session;
      }
    }

    /** A human message or a resume frame gives the persona chain its budget back. */
    method ResetHops()
      modifies this
      ensures View() == TurnLoop.ResetHops(old(View()))
    {
      hops := 0;
    }

    /** Takes the eyes off the message the turn was working on. */
    method TakeEyesOff()
      modifies this
      ensures View() == TurnLoop.TakeEyesOff(old(View()))
    {
      if eyedID != "" {
        acts := acts + [EyesOff(eyedID)];
        eyedID := "";
      }
    }

    /** Keeps the latest trigger while a turn is under way, and otherwise takes the channel and puts the eyes on it. */
    method Offer(m: Message) returns (started: bool)
      modifies this
      ensures View() == TurnLoop.Offer(old(View()), m) && started == !old(busy)
    {
      started := !busy;
      if busy {
        pending := Some(m);
        return;
      }
      busy := true;
      if m.id != "" {
        eyedID := m.id;
        acts := acts + [EyesOn(m.id)];
      }
    }

    /** Closes a session boundary: the next turn starts a fresh session. */
    method Rotate()
      modifies this
      ensures View() == TurnLoop.Rotate(old(View()))
    {
      sessionID := "";
      pending := None;
      hops := 0;
      archiving := false;
      busy := false;
    }
  }

  /** The turns under way are those before, and the new one if any. */
  predicate Spawned(turns: map<nat, Turn>, next: nat, turns': map<nat, Turn>, next': nat, t: Option<Turn>) {
    if t.Some? then turns' == turns[next := t.value] && next' == next + 1 else turns' == turns && next' == next
  }

  /** The maps say where each session's rows go and who speaks them, the given channels having been visited. */
  ghost predicate Routed(channels: map<string, Channel>, order: seq<string>,
                         toChannel: map<string, string>, character: map<string, string>)
  {
    && (forall ch <- order :: ch in channels)
    && (forall k :: HolderOf(channels, order, k) == if k in toChannel then Some(toChannel[k]) else None)
    && (forall k :: SpeakerOf(channels, order, k) == if k in character then character[k] else "")
  }

  lemma RouteGrows(channels: map<string, Channel>, order: seq<string>,
                   toChannel: map<string, string>, character: map<string, string>, ch: string)
    requires Routed(channels, order, toChannel, character) && ch in channels
    ensures var c := channels[ch];
            var visited := toChannel + (map k | k in c.charSessions :: ch);
            Routed(channels, order + [ch], if c.sessionID != "" then visited[c.sessionID := ch] else visited,
                   character + c.charSessions)
  {
    PartsOfConcat(order, [ch]);
  }

  lemma RoutedSessions(channels: map<string, Channel>, order: seq<string>,
                       toChannel: map<string, string>, character: map<string, string>)
    requires IsOrder(order, channels) && Routed(channels, order, toChannel, character)
    ensures toChannel.Keys == Sessions(channels)
  {
    forall k ensures k in toChannel <==> k in Sessions(channels) {
      HolderHolds(channels, order, k);
    }
  }

  /** The end of a turn puts together what was sent, what became of the channel, and the turns under way. */
  lemma DoneIs(s: State, e: Event, s': State)
    requires e.TurnDone? && e.turn in s.turns && IsOrder(e.drain.order, s.channels) && IsCurrent(s, s.turns[e.turn])
    requires var t := s.turns[e.turn];
             var d := Finish(s.generation, s.channels[t.channel], t, e.session, Passes(s.policy, e.address), e.route);
             && s' == s.(channels := s.channels[t.channel := d.channel], turns := s'.turns, nextTurn := s'.nextTurn,
                         rows := s'.rows, wire := s'.wire)
             && Spawned(s.turns - {e.turn}, s.nextTurn, s'.turns, s'.nextTurn, d.turn)
    requires e.outcome.Said? ==>
               var t := s.turns[e.turn];
               var channels := s.channels[t.channel := RegisterLate(s.channels[t.channel], t, e.session)];
               var drained := Drained(channels, s.rows, s.wire, e.drain);
               s'.rows == drained.0 && s'.wire == drained.1 + [Answered(e.turn, t.channel, t.speaker)]
    requires !e.outcome.Said? ==> s'.rows == s.rows && s'.wire == s.wire
    ensures s' == ReportDone(s, e)
  {
  }

  lemma CommitOverPut(s: State, ch: string, d: Decision)
    ensures Commit(Put(s, ch, At(s, ch)), ch, d) == Commit(s, ch, d)
  {
  }

  class GatewayConn {
    var generation: nat
    var policy: Policy
    var channels: map<string, ChannelState>
    var turns: map<nat, Turn>
    var nextTurn: nat
    ghost var reported: set<nat>
    var rows: Outbox.Table
    var wire: seq<Sent>

    /** No two channels share their state. */
    ghost predicate Valid()
      reads this
    {
      forall a, b :: a in channels && b in channels && a != b ==> channels[a] != channels[b]
    }

    ghost function Channels(): map<string, Channel>
      reads this`channels, channels.Values
    {
      map ch | ch in channels :: channels[ch].View()
    }

    ghost function View(): State
      reads this, channels.Values
    {
      State(generation, policy, Channels(), turns, nextTurn, reported, rows, wire)
    }

    constructor ()
      ensures Valid() && View() == START
    {
      generation, policy, channels, turns, nextTurn, reported := 0, All, map[], map[], 0, {};
      rows, wire := [], [];
    }

    /** Only one channel's state was changed since. */
    twostate lemma OnlyChanged(ch: string)
      requires old(Valid()) && ch in old(channels) && channels == old(channels)
      requires forall k <- channels :: k != ch ==> unchanged(channels[k])
      ensures Channels() == old(Channels())[ch := channels[ch].View()]
    {
    }

    /** The channel's state, created on its first mention. */
    method Join(ch: string) returns (cs: ChannelState)
      requires Valid()
      modifies this`channels
      ensures Valid() && ch in channels && channels[ch] == cs
      ensures View() == Put(old(View()), ch, At(old(View()), ch))
      ensures cs.View() == At(old(View()), ch)
      ensures ch in old(channels) ==> channels == old(channels)
      ensures ch !in old(channels) ==> fresh(cs)
    {
      if ch in channels {
        cs := channels[ch];
        assert Channels()[ch := cs.View()] == Channels();
      } else {
        cs := new ChannelState();
        channels := channels[ch := cs];
        assert Channels() == old(Channels())[ch := NEW_CHANNEL];
      }
    }
  
    method Spawn(t: Turn)
      modifies this`turns, this`nextTurn
      ensures Spawned(old(turns), old(nextTurn), turns, nextTurn, Some(t))
    {
      turns := turns[nextTurn := t];
      nextTurn := nextTurn + 1;
    }

    /** Starts a turn on a message that passes the gates, or keeps it for later while one is under way. */
    method MaybeStartTurn(ch: string, cs: ChannelState, m: Message, address: Address, route: Option<Character>)
      modifies this`turns, this`nextTurn, cs
      ensures var passes := Passes(policy, address);
              && cs.View() == Arrive(old(cs.View()), m, passes)
              && Spawned(old(turns), old(nextTurn), turns, nextTurn,
                         if passes && !old(cs.busy) then Some(TurnFor(generation, ch, old(cs.sessionID), m, route)) else None)
    {
      if (policy == Mentioned && !address.us) || (policy == Judgment && !address.us && address.another) {
        return;
      }
      var session := cs.sessionID;
      var started := cs.Offer(m);
      if !started {
        return;
      }
      match route
      case Some(character) => Spawn(Turn(generation, ch, character.session, Some(m), character.name, character.id));
      case None => Spawn(Turn(generation, ch, session, Some(m), "", ""));
    }

    /** Resume clears the hop budget; archive rotates, at once or after a closing turn. */
    method HandleProgram(ch: string, cs: ChannelState, f: Frame)
      requires f.Resume? || f.Archive?
      modifies this`turns, this`nextTurn, cs
      ensures var d := TurnLoop.Handle(generation, policy, ch, old(cs.View()), f);
              cs.View() == d.channel && Spawned(old(turns), old(nextTurn), turns, nextTurn, d.turn)
    {
      if f.Resume? {
        cs.ResetHops();
      } else if cs.sessionID == "" {
        cs.Rotate();
      } else if cs.busy {
        cs.archiving := true;
      } else {
        cs.archiving := true;
        cs.busy := true;
        Spawn(Turn(generation, ch, cs.sessionID, None, "", ""));
      }
    }

    /**
     A human at the table resets the budget and, unless the message is blank, asks for a turn. Another
     persona's message asks for one only when it names us and the budget is not spent.
     */
    method HandleMessage(ch: string, cs: ChannelState, f: Frame)
      requires f.Human? || f.Persona?
      modifies this`turns, this`nextTurn, cs
      ensures var d := TurnLoop.Handle(generation, policy, ch, old(cs.View()), f);
              cs.View() == d.channel && Spawned(old(turns), old(nextTurn), turns, nextTurn, d.turn)
    {
      if f.Human? {
        cs.ResetHops();
        if !f.blank {
          MaybeStartTurn(ch, cs, Message(f.id, f.body, false), f.address, f.route);
        }
      } else if !f.own && f.address.us && cs.hops < PERSONA_HOP_BUDGET {
        cs.hops := cs.hops + 1;
        MaybeStartTurn(ch, cs, Message(f.id, f.body, true), f.address, f.route);
      }
    }

    method HandleJoined(ch: string, cs: ChannelState, f: Frame)
      requires Valid() && ch in channels && channels[ch] == cs
      modifies this`turns, this`nextTurn, cs
      ensures View() == Commit(old(View()), ch, TurnLoop.Handle(generation, policy, ch, old(cs.View()), f))
    {
      if f.Resume? || f.Archive? {
        HandleProgram(ch, cs, f);
      } else if !f.Note? {
        HandleMessage(ch, cs, f);
      }
      OnlyChanged(ch);
    }

    method Handle(ch: string, f: Frame)
      requires Valid() && Enabled(View(), FrameRead(ch, f))
      modifies this, channels.Values
      ensures Valid()
      ensures View() == Step(old(View()), FrameRead(ch, f))
    {
      var cs := Join(ch);
      HandleJoined(ch, cs, f);
      CommitOverPut(old(View()), ch, TurnLoop.Handle(generation, policy, ch, At(old(View()), ch), f));
    }

    method SubscribeNew(ch: string)
      requires Valid()
      modifies this`channels
      ensures Valid()
      ensures View() == Step(old(View()), Subscribed(ch))
    {
      var cs := Join(ch);
    }

    method ApplySession(tid: nat, session: string)
      requires Valid() && Enabled(View(), SessionReported(tid, session))
      modifies this`reported, channels.Values
      ensures Valid()
      ensures View() == Step(old(View()), SessionReported(tid, session))
    {
      var t := turns[tid];
      reported := reported + {tid};
      if t.generation != generation || t.channel !in channels {
        return;
      }
      var cs := channels[t.channel];
      if t.charID != "" {
        cs.charSessions := cs.charSessions[session := t.speaker];
      } else if cs.sessionID == "" {
        cs.sessionID := session;
      }
      OnlyChanged(t.channel);
    }

    /** Maps every session this connection holds to its channel, and characters' sessions to their names. */
    method RouteSessions(order: seq<string>) returns (toChannel: map<string, string>, character: map<string, string>)
      requires IsOrder(order, Channels())
      ensures Routed(Channels(), order, toChannel, character)
    {
      ghost var chs := Channels();
      toChannel, character := map[], map[];
      for i := 0 to |order|
        invariant Routed(chs, order[..i], toChannel, character)
      {
        var ch := order[i];
        assert ch in chs;
        var cs := channels[ch];
        RouteGrows(chs, order[..i], toChannel, character, ch);
        toChannel := toChannel + (map k | k in cs.charSessions :: ch);
        if cs.sessionID != "" {
          toChannel := toChannel[cs.sessionID := ch];
        }
        character := character + cs.charSessions;
        PrefixGrows(order, i, i + 1);
      }
      WholeSlice(order, |order|);
    }

    /** Decides what becomes of one claimed row. */
    method Place(toChannel: map<string, string>, character: map<string, string>, id: nat, row: Outbox.Row,
                 ghost order: seq<string>) returns (x: Sent)
      requires Routed(Channels(), order, toChannel, character)
      ensures x == Deliver(Channels(), order, id, row)
    {
      ghost var chs := Channels();
      HolderHolds(chs, order, row.session);
      if row.session !in toChannel || toChannel[row.session] == "" {
        return Skipped(id, row.session);
      }
      var ch := toChannel[row.session];
      assert ch in chs && chs[ch].eyedID == channels[ch].eyedID;
      if row.emoji != "" {
        if channels[ch].eyedID == "" {
          return Skipped(id, row.session);
        }
        return Reacted(id, row.session, ch, channels[ch].eyedID, row.emoji);
      }
      var speaker := row.speaker;
      if speaker == "" && row.session in character {
        speaker := character[row.session];
      }
      x := Posted(id, row.session, ch, speaker, row.body);
    }

    /** Claims and posts the outbox rows of this connection's sessions, visiting the channels in the given order. */
    method DrainOutbox(d: Drain)
      requires IsOrder(d.order, Channels())
      modifies this`rows, this`wire
      ensures (rows, wire) == Drained(old(Channels()), old(rows), old(wire), d)
    {
      ghost var chs := Channels();
      var toChannel, character := RouteSessions(d.order);
      assert Channels() == chs;
      RoutedSessions(chs, d.order, toChannel, character);
      var sessions := toChannel.Keys;
      if sessions == {} || d.reply == Failed {
        return;
      }
      ClaimAndPost(sessions, toChannel, character, d, chs);
    }

    /** Marks the sessions' rows first, so that a crash loses a row and never posts it twice. */
    method ClaimAndPost(sessions: set<string>, toChannel: map<string, string>, character: map<string, string>, d: Drain,
                        ghost chs: map<string, Channel>)
      requires chs == Channels() && IsOrder(d.order, chs) && Routed(chs, d.order, toChannel, character)
      requires sessions == Sessions(chs) && sessions != {} && d.reply != Failed
      modifies this`rows, this`wire
      ensures (rows, wire) == Drained(chs, old(rows), old(wire), d)
    {
      var marked, claimed := Outbox.ClaimOutboxForSessions(rows, sessions);
      if d.reply == Delivered {
        PostRows(toChannel, character, rows, claimed, d.order);
      }
      rows := marked;
    }

    method PostRows(toChannel: map<string, string>, character: map<string, string>, table: Outbox.Table, ids: seq<nat>,
                    ghost order: seq<string>)
      requires Routed(Channels(), order, toChannel, character)
      requires forall k :: 0 <= k < |ids| ==> ids[k] < |table|
      modifies this`wire
      ensures wire == old(wire) + DeliverAll(old(Channels()), order, table, ids)
    {
      ghost var chs, all := Channels(), DeliverAll(Channels(), order, table, ids);
      for k := 0 to |ids|
        invariant Channels() == chs
        invariant wire == old(wire) + all[..k]
      {
        var x := Place(toChannel, character, ids[k], table[ids[k]], order);
        wire := wire + [x];
        PrefixGrows(all, k, k + 1);
      }
      WholeSlice(all, |ids|);
    }

    /** The end of a turn: its session is registered, an answer goes out after a drain, and the channel is released. */
    method ApplyDone(e: Event)
      requires Valid() && e.TurnDone? && e.turn in turns && IsOrder(e.drain.order, Channels())
      modifies this, channels.Values
      ensures Valid()
      ensures View() == ReportDone(old(View()), e)
    {
      var t := turns[e.turn];
      turns := turns - {e.turn};
      if t.generation != generation || t.channel !in channels {
        return;
      }
      FinishTurn(t, channels[t.channel], e);
      OnlyChanged(t.channel);
      DoneIs(old(View()), e, View());
    }

    method FinishTurn(t: Turn, cs: ChannelState, e: Event)
      requires Valid() && e.TurnDone? && IsOrder(e.drain.order, Channels())
      requires t.channel in channels && channels[t.channel] == cs
      modifies this`turns, this`nextTurn, this`rows, this`wire, cs
      ensures var d := Finish(generation, old(cs.View()), t, e.session, Passes(policy, e.address), e.route);
              cs.View() == d.channel && Spawned(old(turns), old(nextTurn), turns, nextTurn, d.turn)
      ensures e.outcome.Said? ==>
                var c := RegisterLate(old(cs.View()), t, e.session);
                var drained := Drained(old(Channels())[t.channel := c], old(rows), old(wire), e.drain);
                rows == drained.0 && wire == drained.1 + [Answered(e.turn, t.channel, t.speaker)]
      ensures !e.outcome.Said? ==> rows == old(rows) && wire == old(wire)
    {
      cs.Register(t, e.session);
      OnlyChanged(t.channel);
      if e.outcome.Said? {
        DrainOutbox(e.drain);
        wire := wire + [Answered(e.turn, t.channel, t.speaker)];
      }
      Release(t.channel, cs, e.address, e.route);
    }

    /** Takes the eyes off and frees the channel, then rotates it or starts the follow-up that waited. */
    method Release(ch: string, cs: ChannelState, address: Address, route: Option<Character>)
      modifies this`turns, this`nextTurn, cs
      ensures var c, passes := old(cs.View()), Passes(policy, address);
              && cs.View() == TurnLoop.Release(c, passes)
              && Spawned(old(turns), old(nextTurn), turns, nextTurn,
                         if !c.archiving && c.pending.Some? && passes
                         then Some(TurnFor(generation, ch, c.sessionID, c.pending.value, route)) else None)
    {
      cs.TakeEyesOff();
      cs.busy := false;
      if cs.archiving {
        cs.Rotate();
      } else if cs.pending.Some? {
        var next := cs.pending.value;
        cs.pending := None;
        MaybeStartTurn(ch, cs, next, address, route);
      }
    }

    /** A new connection: sessions are established again, and reports of earlier turns no longer count. */
    method Reconnect()
      modifies this`channels, this`generation
      ensures Valid()
      ensures View() == Step(old(View()), Reconnected)
    {
      channels := map[];
      generation := generation + 1;
    }

    /** One turn of the worker's select loop; outbox rows are written by the tools of a running turn. */
    method Serve(e: Event)
      requires Valid() && Enabled(View(), e)
      modifies this, channels.Values
      ensures Valid()
      ensures View() == Step(old(View()), e)
    {
      match e
      case Subscribed(ch) => SubscribeNew(ch);
      case FrameRead(ch, f) => Handle(ch, f);
      case SessionReported(tid, session) => ApplySession(tid, session);
      case TurnDone(_, _, _, _, _, _) => ApplyDone(e);
      case Reconnected => Reconnect();
      case DrainTick(d) => Tick(d);
      case _ => ServeOutside(e);
    }

    method Tick(d: Drain)
      requires Valid() && Enabled(View(), DrainTick(d))
      modifies this`rows, this`wire
      ensures Valid()
      ensures View() == Step(old(View()), DrainTick(d))
    {
      ghost var chs := Channels();
      DrainOutbox(d);
      assert Channels() == chs;
    }

    /** What changes neither channels nor turns and sends nothing: a new policy, and a row in the outbox. */
    method ServeOutside(e: Event)
      requires Valid() && (e.PolicyRead? || e.RowWritten?)
      modifies this`policy, this`rows
      ensures Valid()
      ensures View() == Step(old(View()), e)
    {
      ghost var chs := Channels();
      match e
      case PolicyRead(p) => policy := p;
      case RowWritten(session, body, speaker, emoji) =>
        rows := rows + [Outbox.Row(session, body, speaker, emoji, false)];
      assert Channels() == chs;
    }
  }
}
