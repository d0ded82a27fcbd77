/**
 The steps of a persona's gateway connection as functions on values: what each frame, turn report, outbox
 drain and reconnect does to the channels, the turns under way, the outbox and the frames sent.
 */
module TurnLoop {
  import opened Options
  import Outbox

  /** The longest chain of persona-triggered turns before the table waits for a human. */
  const PERSONA_HOP_BUDGET := 3

  datatype Policy = All | Mentioned | Judgment

  /** Whether a message names this persona, and whether it calls on somebody else. */
  datatype Address = Address(us: bool, another: bool)

  datatype Message = Message(id: string, body: string, fromPersona: bool)

  /** The reactions sent to show which message a turn works on. */
  datatype Act = EyesOn(id: string) | EyesOff(id: string)

  /** What the connection knows about one channel; the empty session id means none. */
  datatype Channel = Channel(sessionID: string, busy: bool, pending: Option<Message>,
                             charSessions: map<string, string>, eyedID: string, hops: nat, archiving: bool,
                             acts: seq<Act>)

  const NEW_CHANNEL := Channel("", false, None, map[], "", 0, false, [])

  /** A promoted character that a message addresses; its session is empty until its first turn. */
  datatype Character = Character(id: string, name: string, session: string)

  /**
   A turn goroutine whose final report has not been handled; charID is empty on the persona's own turns. It is asked
   to answer a message, or nothing when it closes the session.
   */
  datatype Turn = Turn(generation: nat, channel: string, sessionID: string, asked: Option<Message>,
                       speaker: string, charID: string)

  /** What the connection sends, and the claimed rows it decides not to send. */
  datatype Sent =
    | Posted(id: nat, session: string, channel: string, speaker: string, body: string)
    | Reacted(id: nat, session: string, channel: string, message: string, emoji: string)
    | Skipped(id: nat, session: string)
    | Answered(turn: nat, channel: string, speaker: string)

  /** `reported` are the turns that have reported the session they spawned, which each does once. */
  datatype State = State(generation: nat, policy: Policy, channels: map<string, Channel>, turns: map<nat, Turn>,
                         nextTurn: nat, reported: set<nat>, rows: Outbox.Table, wire: seq<Sent>)

  /** How the database answers a claim: with the rows, not at all, or not but after marking the rows. */
  datatype Reply = Delivered | Failed | Lost

  /** A drain visits the channels in an order of its own. */
  datatype Drain = Drain(order: seq<string>, reply: Reply)

  datatype Outcome = Errored | Silent | Said

  datatype Frame =
    | Note
    | Resume
    | Archive
    | Human(id: string, body: string, blank: bool, address: Address, route: Option<Character>)
    | Persona(id: string, body: string, own: bool, address: Address, route: Option<Character>)

  datatype Event =
    | PolicyRead(policy: Policy)
    | Subscribed(channel: string)
    | FrameRead(channel: string, frame: Frame)
    | SessionReported(turn: nat, session: string)
    | TurnDone(turn: nat, session: string, outcome: Outcome, drain: Drain, address: Address, route: Option<Character>)
    | DrainTick(drain: Drain)
    | RowWritten(session: string, body: string, speaker: string, emoji: string)
    | Reconnected

  // ----- one channel -----

  function Record(c: Channel, a: Act): Channel { c.(acts := c.acts + [a]) }

  predicate Passes(policy: Policy, a: Address) {
    && !(policy == Mentioned && !a.us)
    && !(policy == Judgment && !a.us && a.another)
  }

  /** A trigger that passed the gates waits while the channel is busy, replacing an earlier one, or starts. */
  function Offer(c: Channel, m: Message): Channel {
    if c.busy then c.(pending := Some(m))
    else (if m.id == "" then c else Record(c.(eyedID := m.id), EyesOn(m.id))).(busy := true)
  }

  /** A message that has just arrived, or the coalesced follow-up, which is gated again. */
  function Arrive(c: Channel, m: Message, passes: bool): Channel {
    if passes then Offer(c, m) else c
  }

  function ResetHops(c: Channel): Channel { c.(hops := 0) }

  function Rotate(c: Channel): Channel {
    c.(sessionID := "", pending := None, hops := 0, archiving := false, busy := false)
  }

  function TakeEyesOff(c: Channel): Channel {
    if c.eyedID == "" then c else Record(c, EyesOff(c.eyedID)).(eyedID := "")
  }

  /** The end of a turn: the eyes come off, and the channel rotates, follows up or falls idle. */
  function Release(c: Channel, passes: bool): Channel {
    var free := TakeEyesOff(c).(busy := false);
    if free.archiving then Rotate(free)
    else if free.pending.Some? then Arrive(free.(pending := None), free.pending.value, passes)
    else free
  }

  function RegisterEarly(c: Channel, t: Turn, session: string): Channel {
    if t.charID != "" then c.(charSessions := c.charSessions[session := t.speaker])
    else if c.sessionID == "" then c.(sessionID := session)
    else c
  }

  function RegisterLate(c: Channel, t: Turn, session: string): Channel {
    if session == "" then c
    else if t.charID != "" then c.(charSessions := c.charSessions[session := t.speaker])
    else c.(sessionID := session)
  }

  // ----- draining -----

  /** The sessions a channel holds: its own and its promoted characters'. */
  function Held(c: Channel): set<string> {
    c.charSessions.Keys + (if c.sessionID == "" then {} else {c.sessionID})
  }

  function Sessions(channels: map<string, Channel>): set<string> {
    set ch, session | ch in channels && session in Held(channels[ch]) :: session
  }

  /** The channel a session's rows go to: the last one visited that holds it. */
  function HolderOf(channels: map<string, Channel>, order: seq<string>, session: string): Option<string>
    requires forall ch <- order :: ch in channels
  {
    if order == [] then None
    else if session in Held(channels[order[|order| - 1]]) then Some(order[|order| - 1])
    else HolderOf(channels, order[..|order| - 1], session)
  }

  /** The character whose own session this is, as the last channel visited knows it; empty if nobody's. */
  function SpeakerOf(channels: map<string, Channel>, order: seq<string>, session: string): string
    requires forall ch <- order :: ch in channels
  {
    if order == [] then ""
    else
      var c := channels[order[|order| - 1]];
      if session in c.charSessions then c.charSessions[session]
      else SpeakerOf(channels, order[..|order| - 1], session)
  }

  /** What one claimed row becomes: a post, a reaction on the eyed message, or nothing. */
  function Deliver(channels: map<string, Channel>, order: seq<string>, id: nat, row: Outbox.Row): Sent
    requires forall ch <- order :: ch in channels
  {
    var holder := HolderOf(channels, order, row.session);
    if holder.None? || holder.value == "" || holder.value !in channels then Skipped(id, row.session)
    else if row.emoji == "" then
      Posted(id, row.session, holder.value,
             if row.speaker != "" then row.speaker else SpeakerOf(channels, order, row.session), row.body)
    else
      var eyed := channels[holder.value].eyedID;
      if eyed == "" then Skipped(id, row.session) else Reacted(id, row.session, holder.value, eyed, row.emoji)
  }

  function DeliverAll(channels: map<string, Channel>, order: seq<string>, rows: Outbox.Table, ids: seq<nat>): seq<Sent>
    requires forall ch <- order :: ch in channels
    requires forall k :: 0 <= k < |ids| ==> ids[k] < |rows|
  {
    seq(|ids|, k requires 0 <= k < |ids| => Deliver(channels, order, ids[k], rows[ids[k]]))
  }

  predicate IsOrder(order: seq<string>, channels: map<string, Channel>) {
    && (forall ch <- order :: ch in channels)
    && (forall ch <- channels :: ch in order)
    && (forall i, j :: 0 <= i < j < |order| ==> order[i] != order[j])
  }

  /** What a drain makes of the outbox and of what has been sent. */
  function Drained(channels: map<string, Channel>, rows: Outbox.Table, wire: seq<Sent>, d: Drain): (Outbox.Table, seq<Sent>)
    requires IsOrder(d.order, channels)
  {
    var sessions := Sessions(channels);
    if sessions == {} || d.reply == Failed then (rows, wire)
    else
      (Outbox.Marked(rows, sessions),
       if d.reply == Lost then wire
       else wire + DeliverAll(channels, d.order, rows, Outbox.Claimed(rows, sessions)))
  }

  function DrainOutbox(s: State, d: Drain): State
    requires IsOrder(d.order, s.channels)
  {
    var drained := Drained(s.channels, s.rows, s.wire, d);
    s.(rows := drained.0, wire := drained.1)
  }

  // ----- the connection -----

  function Put(s: State, ch: string, c: Channel): State { s.(channels := s.channels[ch := c]) }

  /** The channel's state, created on its first mention. */
  function At(s: State, ch: string): Channel { if ch in s.channels then s.channels[ch] else NEW_CHANNEL }

  function Spawn(s: State, t: Turn): State {
    s.(turns := s.turns[s.nextTurn := t], nextTurn := s.nextTurn + 1)
  }

  /** A message to a promoted character runs on the character's session, any other on the channel's. */
  function TurnFor(generation: nat, ch: string, session: string, m: Message, route: Option<Character>): Turn {
    if route.Some? then Turn(generation, ch, route.value.session, Some(m), route.value.name, route.value.id)
    else Turn(generation, ch, session, Some(m), "", "")
  }

  /** What the connection makes of a channel: its new state, and the turn it starts there if any. */
  datatype Decision = Decision(channel: Channel, turn: Option<Turn>)

  function Commit(s: State, ch: string, d: Decision): State {
    var s' := Put(s, ch, d.channel);
    if d.turn.Some? then Spawn(s', d.turn.value) else s'
  }

  function Trigger(generation: nat, ch: string, c: Channel, m: Message, passes: bool, route: Option<Character>): Decision {
    Decision(Arrive(c, m, passes),
             if passes && !c.busy then Some(TurnFor(generation, ch, c.sessionID, m, route)) else None)
  }

  /** An archive frame: rotate at once, when the turn under way ends, or after a closing turn of its own. */
  function ArchiveChannel(generation: nat, ch: string, c: Channel): Decision {
    if c.sessionID == "" then Decision(Rotate(c), None)
    else if c.busy then Decision(c.(archiving := true), None)
    else Decision(c.(archiving := true, busy := true), Some(Turn(generation, ch, c.sessionID, None, "", "")))
  }

  function Handle(generation: nat, policy: Policy, ch: string, c: Channel, f: Frame): Decision {
    match f
    case Note => Decision(c, None)
    case Resume => Decision(ResetHops(c), None)
    case Archive => ArchiveChannel(generation, ch, c)
    case Human(id, body, blank, address, route) =>
      if blank then Decision(ResetHops(c), None)
      else Trigger(generation, ch, ResetHops(c), Message(id, body, false), Passes(policy, address), route)
    case Persona(id, body, own, address, route) =>
      if own || !address.us || c.hops >= PERSONA_HOP_BUDGET then Decision(c, None)
      else
        Trigger(generation, ch, c.(hops := c.hops + 1), Message(id, body, true), Passes(policy, address), route)
  }

  /** A report counts only on the connection that started the turn. */
  predicate IsCurrent(s: State, t: Turn) { t.generation == s.generation && t.channel in s.channels }

  function ReportSession(s: State, tid: nat, session: string): State
    requires tid in s.turns
  {
    var t := s.turns[tid];
    var s' := s.(reported := s.reported + {tid});
    if IsCurrent(s, t) then Put(s', t.channel, RegisterEarly(s.channels[t.channel], t, session)) else s'
  }

  /** The end of a turn: its session is registered, and the channel is released. */
  function Finish(generation: nat, c: Channel, t: Turn, session: string, passes: bool, route: Option<Character>): Decision {
    var c' := RegisterLate(c, t, session);
    Decision(Release(c', passes),
             if !c'.archiving && c'.pending.Some? && passes
             then Some(TurnFor(generation, t.channel, c'.sessionID, c'.pending.value, route)) else None)
  }

  /** An answer is sent after a drain, with its session registered and the eyes still on. */
  function SendAnswer(s: State, tid: nat, session: string, d: Drain): State
    requires tid in s.turns && IsCurrent(s, s.turns[tid]) && IsOrder(d.order, s.channels)
  {
    var t := s.turns[tid];
    var drained := DrainOutbox(Put(s, t.channel, RegisterLate(s.channels[t.channel], t, session)), d);
    s.(rows := drained.rows, wire := drained.wire + [Answered(tid, t.channel, t.speaker)])
  }

  function ReportDone(s: State, e: Event): State
    requires e.TurnDone? && e.turn in s.turns && IsOrder(e.drain.order, s.channels)
  {
    var t := s.turns[e.turn];
    if !IsCurrent(s, t) then s.(turns := s.turns - {e.turn})
    else
      var s' := if e.outcome.Said? then SendAnswer(s, e.turn, e.session, e.drain) else s;
      Commit(s'.(turns := s.turns - {e.turn}), t.channel,
             Finish(s.generation, s.channels[t.channel], t, e.session, Passes(s.policy, e.address), e.route))
  }

  /** A character comes with the key of its row. */
  predicate HasKey(route: Option<Character>) { route.Some? ==> route.value.id != "" }

  /** When an event can happen: reports come from turns under way, with the turn's own session if it had one. */
  predicate Enabled(s: State, e: Event) {
    match e
    case FrameRead(_, Human(_, _, _, _, route)) => HasKey(route)
    case FrameRead(_, Persona(_, _, _, _, route)) => HasKey(route)
    case SessionReported(tid, session) =>
      tid in s.turns && s.turns[tid].sessionID == "" && tid !in s.reported && session != ""
    case TurnDone(tid, session, _, drain, _, route) =>
      && tid in s.turns && HasKey(route)
      && (s.turns[tid].sessionID != "" ==> session == s.turns[tid].sessionID)
      && IsOrder(drain.order, s.channels)
    case DrainTick(drain) => IsOrder(drain.order, s.channels)
    case _ => true
  }

  function Step(s: State, e: Event): State
    requires Enabled(s, e)
  {
    match e
    case PolicyRead(policy) => s.(policy := policy)
    case Subscribed(ch) => Put(s, ch, At(s, ch))
    case FrameRead(ch, f) => Commit(s, ch, Handle(s.generation, s.policy, ch, At(s, ch), f))
    case SessionReported(tid, session) => ReportSession(s, tid, session)
    case TurnDone(_, _, _, _, _, _) => ReportDone(s, e)
    case DrainTick(drain) => DrainOutbox(s, drain)
    case RowWritten(session, body, speaker, emoji) =>
      s.(rows := s.rows + [Outbox.Row(session, body, speaker, emoji, false)])
    case Reconnected => s.(generation := s.generation + 1, channels := map[])
  }

  // ----- runs -----

  const START := State(0, All, map[], map[], 0, {}, [], [])

  /** A run lists the states it goes through, one more than its events. */
  datatype Run = Run(states: seq<State>, events: seq<Event>)

  /** The i-th event can happen, and does what its step says. */
  ghost predicate Stepped(r: Run, i: nat)
    requires i < |r.events| && |r.states| == |r.events| + 1
  {
    Enabled(r.states[i], r.events[i]) && r.states[i + 1] == Step(r.states[i], r.events[i])
  }

  ghost predicate IsRun(r: Run) {
    && |r.states| == |r.events| + 1
    && r.states[0] == START
    && forall i: nat :: i < |r.events| ==> Stepped(r, i)
  }
}
