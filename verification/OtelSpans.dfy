/**
 The OTLP span forest built for one work item: a root span, one span per session that left a trace, and
 one span per tool reply. Times are nanoseconds; the span-id hash is an uninterpreted function of the
 seed; span attributes are not part of this model.
 */
module OtelSpans {
  import opened Options
  import opened Sequences
  import opened Strings

  const MILLISECOND := 1000000
  /** Go's zero time, January 1 of year 1, counted from the Unix epoch. */
  const ZERO_TIME := -62135596800 * 1000000000

  datatype Call = Call(id: string, name: string, args: string)

  /** One ledger message; `calls` are its decoded tool calls, `failed` says its content is an error object. */
  datatype Message = Message(id: int, role: string, calls: seq<Call>, callId: string, createdAt: int, failed: bool)

  datatype Session = Session(createdAt: int, lastActiveAt: int)

  datatype WorkItem = WorkItem(id: string, family: string, currentStage: string, status: string,
                               createdAt: int, updatedAt: int, completedAt: Option<int>, sessionIds: seq<string>)

  datatype Seed = RootSeed(workItem: string) | SessionSeed(session: string) | ToolSeed(message: int)

  datatype Status = Unset | Ok | Error

  datatype Span = Span(traceId: string, spanId: string, parent: string, name: string, start: int, end: int, status: Status)

  // ----- ids and names -----

  predicate IsHex(c: char) { '0' <= c <= '9' || 'a' <= c <= 'f' || 'A' <= c <= 'F' }

  function LowerHex(c: char): char {
    if 'A' <= c <= 'F' then (c as int - 'A' as int + 'a' as int) as char else c
  }

  function WithoutDashes(id: string): string {
    if id == "" then "" else (if id[0] == '-' then "" else [id[0]]) + WithoutDashes(id[1..])
  }

  lemma {:induction false} DashesDropped(id: string)
    ensures forall c :: c in WithoutDashes(id) <==> c in id && c != '-'
  {
    if id != "" {
      DashesDropped(id[1..]);
      HeadAndTail(id);
    }
  }

  /** The id's own hex digits, in lower case; none unless there are 32 of them. */
  function TraceIdFromUuid(id: string): (trace: Option<string>)
    ensures trace.Some? <==> |WithoutDashes(id)| == 32 && forall c <- id :: c == '-' || IsHex(c)
    ensures trace.Some? ==> |trace.value| == 32 && forall c <- trace.value :: IsHex(c) && !('A' <= c <= 'F')
  {
    DashesDropped(id);
    var hex := WithoutDashes(id);
    if |hex| == 32 && forall c <- hex :: IsHex(c)
    then Some(seq(32, i requires 0 <= i < 32 => LowerHex(hex[i])))
    else None
  }

  /** The number that a hex digit stands for, in either case. */
  function DigitValue(c: char): int {
    if '0' <= c <= '9' then c as int - '0' as int
    else if 'a' <= c <= 'f' then c as int - 'a' as int + 10
    else if 'A' <= c <= 'F' then c as int - 'A' as int + 10
    else -1
  }

  /** The positions in `id`, from `from` on, of everything but dashes. */
  ghost predicate AreDigitPlaces(id: string, from: nat, places: seq<nat>) {
    && (forall i, j :: 0 <= i < j < |places| ==> places[i] < places[j])
    && forall k: nat :: k in places <==> from <= k < |id| && id[k] != '-'
  }

  predicate StandAt(id: string, places: seq<nat>, digits: string) {
    |digits| == |places| && forall i :: 0 <= i < |places| ==> places[i] < |id| && digits[i] == id[places[i]]
  }

  lemma {:induction false} DigitPlaces(id: string, from: nat) returns (places: seq<nat>)
    requires from <= |id|
    ensures AreDigitPlaces(id, from, places) && StandAt(id, places, WithoutDashes(id[from..]))
    decreases |id| - from
  {
    places := [];
    if from < |id| {
      var rest := DigitPlaces(id, from + 1);
      places := if id[from] == '-' then rest else [from] + rest;
      SuffixShrinks(id, from, from + 1);
      ConcatNothing(WithoutDashes(id[from + 1..]));
      if id[from] != '-' {
        PlacesGrow(id, from, rest);
        DigitsGrow(id, from, rest, WithoutDashes(id[from + 1..]));
      }
    }
  }

  lemma PlacesGrow(id: string, from: nat, rest: seq<nat>)
    requires from < |id| && id[from] != '-' && AreDigitPlaces(id, from + 1, rest)
    ensures AreDigitPlaces(id, from, [from] + rest)
  {
    forall i | 0 <= i < |rest| ensures from < rest[i] {
      assert rest[i] in rest;
    }
    forall k: nat ensures k in [from] + rest <==> k == from || k in rest {
    }
  }

  lemma DigitsGrow(id: string, from: nat, rest: seq<nat>, digits: string)
    requires from < |id| && StandAt(id, rest, digits)
    ensures StandAt(id, [from] + rest, [id[from]] + digits)
  {
  }

  /** The trace id is the id's own digits in their order, each the same digit in lower case. */
  lemma TraceIsOwnDigits(id: string) returns (places: seq<nat>)
    requires TraceIdFromUuid(id).Some?
    ensures AreDigitPlaces(id, 0, places) && |places| == 32
    ensures forall i :: 0 <= i < 32 ==>
              places[i] < |id| && DigitValue(TraceIdFromUuid(id).value[i]) == DigitValue(id[places[i]])
  {
    places := DigitPlaces(id, 0);
    assert id[0..] == id;
  }

  /** The stage of a session id `wi--<uuid8>--<stage>`, or "". */
  function StageName(sessionId: string): string {
    if !("wi--" <= sessionId) then ""
    else
      var second := IndexFrom(sessionId, "--", 4);
      if second < 0 then "" else sessionId[second + 2..]
  }

  lemma StageNameRoundTrip(uuid8: string, stage: string)
    requires '-' !in uuid8
    ensures StageName("wi--" + uuid8 + "--" + stage) == stage
  {
    var s := "wi--" + uuid8 + "--" + stage;
    assert s[..4] == "wi--";
    var at := 4 + |uuid8|;
    assert s[at..at + 2] == "--";
    forall k | 4 <= k < at ensures !At(s, "--", k) {
      assert s[k] == uuid8[k - 4] && s[k] in uuid8;
      if k + 2 <= |s| { assert s[k..k + 2][0] == s[k] != "--"[0]; }
    }
    assert At(s, "--", at);
    IndexIsLeast(s, "--", 4, at);
    IndexIsAt(s, "--", 4);
    assert IndexFrom(s, "--", 4) == at;
    assert s[at + 2..] == stage;
  }

  /** The stage is what follows the first "--" after the "wi--" that a session id starts with, and empty without these. */
  lemma StageNameIs(s: string, k: int)
    ensures StageName(s) != "" ==> "wi--" <= s && exists j :: 4 <= j && At(s, "--", j)
    ensures "wi--" <= s && 4 <= k && At(s, "--", k) && (forall j :: 4 <= j < k ==> !At(s, "--", j)) ==>
              StageName(s) == s[k + 2..]
  {
    if "wi--" <= s {
      if IndexFrom(s, "--", 4) >= 0 {
        IndexIsAt(s, "--", 4);
      }
      if 4 <= k && At(s, "--", k) {
        IndexIsLeast(s, "--", 4, k);
      }
    }
  }

  function SpanName(stage: string): string {
    if stage == "" then "session" else "stage:" + stage
  }

  predicate IsToolName(name: string) { "tool:" <= name }

  lemma OtherNamesAreNotTools(stage: string, family: string)
    ensures !IsToolName(SpanName(stage)) && !IsToolName("work_item:" + family)
  {
    assert SpanName(stage)[0] == 's' && ("work_item:" + family)[0] == 'w' && "tool:"[0] == 't';
  }

  // ----- tool replies and the requests they answer -----

  /** A message that answers a tool call. */
  predicate IsReply(m: Message) { m.role == "tool" && m.callId != "" }

  /** The positions of the replies, in order. */
  function Replies(msgs: seq<Message>, n: nat): seq<nat>
    requires n <= |msgs|
  {
    if n == 0 then [] else Replies(msgs, n - 1) + (if IsReply(msgs[n - 1]) then [n - 1] else [])
  }

  /** The positions of the replies: in order, those of the tool messages with a call id. */
  lemma {:induction false} RepliesAre(msgs: seq<Message>, n: nat, i: nat)
    requires n <= |msgs|
    ensures i in Replies(msgs, n) <==> i < n && msgs[i].role == "tool" && msgs[i].callId != ""
    ensures forall j, k :: 0 <= j < k < |Replies(msgs, n)| ==> Replies(msgs, n)[j] < Replies(msgs, n)[k]
    ensures forall k <- Replies(msgs, n) :: k < n
  {
    if n > 0 {
      RepliesAre(msgs, n - 1, i);
      var before := Replies(msgs, n - 1);
      assert forall k :: 0 <= k < |before| ==> before[k] in before;
    }
  }

  /** Message `j` requests the call `id` as the c-th of its calls. */
  ghost predicate Requests(msgs: seq<Message>, id: string, j: int, c: int) {
    0 <= j < |msgs| && msgs[j].role == "assistant" && 0 <= c < |msgs[j].calls| && msgs[j].calls[c].id == id && id != ""
  }

  ghost predicate NotLater(j: int, c: int, j': int, c': int) { j < j' || (j == j' && c <= c') }

  /** Before message `n`, the request (j, c) is the last one for its id, and no reply has used it up. */
  ghost predicate Open(msgs: seq<Message>, n: int, id: string, j: int, c: int) {
    && j < n && Requests(msgs, id, j, c)
    && (forall j', c' :: j' < n && Requests(msgs, id, j', c') ==> NotLater(j', c', j, c))
    && (forall k :: j < k < n && k < |msgs| ==> !(IsReply(msgs[k]) && msgs[k].callId == id))
  }

  /** Reply `i` answers the request (j, c). */
  ghost predicate Answers(msgs: seq<Message>, i: int, j: int, c: int) {
    0 <= i < |msgs| && IsReply(msgs[i]) && Open(msgs, i, msgs[i].callId, j, c)
  }

  /** Each recorded request is consumed by at most one reply, and each reply consumes at most one request. */
  lemma RequestConsumedOnce(msgs: seq<Message>, i: int, i': int, j: int, c: int, j': int, c': int)
    requires Answers(msgs, i, j, c) && Answers(msgs, i', j', c')
    ensures (j, c) == (j', c') <==> i == i'
  {
    if i == i' {
      assert NotLater(j, c, j', c') && NotLater(j', c', j, c);
    }
  }

  /** A span ends when its last event does, and a millisecond after its start if that is no later. */
  predicate EndsWith(start: int, last: int, end: int) {
    (last > start ==> end == last) && (last <= start ==> end == start + 1_000_000)
  }

  function EndAfter(start: int, end: int): int { if end > start then end else start + MILLISECOND }

  /** The span of reply `i`: named and started by the request it answers, or by itself when it answers none. */
  ghost predicate IsToolSpan(spanId: Seed -> string, msgs: seq<Message>, i: nat, trace: string, parent: string, sp: Span)
    requires i < |msgs|
  {
    var m := msgs[i];
    && sp.traceId == trace && sp.parent == parent && sp.spanId == spanId(ToolSeed(m.id))
    && EndsWith(sp.start, m.createdAt, sp.end)
    && (sp.status == Error <==> m.failed) && sp.status != Unset
    && (forall j, c :: Answers(msgs, i, j, c) ==>
          && sp.name == "tool:" + (if msgs[j].calls[c].name == "" then "unknown_tool" else msgs[j].calls[c].name)
          && sp.start == if msgs[j].createdAt == ZERO_TIME then m.createdAt else msgs[j].createdAt)
    && ((forall j, c :: !Answers(msgs, i, j, c)) ==> sp.name == "tool:unknown_tool" && sp.start == m.createdAt)
    && IsToolName(sp.name) && sp.start < sp.end
  }

  datatype Pending = Pending(name: string, args: string, calledAt: int)

  ghost predicate HasOpen(msgs: seq<Message>, n: int, id: string) {
    exists j, c :: Open(msgs, n, id, j, c)
  }

  /** The table holds exactly the open requests. */
  ghost predicate HoldsOpen(byCallId: map<string, Pending>, msgs: seq<Message>, n: int) {
    && (forall id :: id in byCallId ==> HasOpen(msgs, n, id))
    && (forall id, j, c :: Open(msgs, n, id, j, c) ==>
          id in byCallId
          && byCallId[id] == Pending(msgs[j].calls[c].name, msgs[j].calls[c].args, msgs[j].createdAt))
  }

  function Recorded(byCallId: map<string, Pending>, calls: seq<Call>, calledAt: int): map<string, Pending> {
    if calls == [] then byCallId
    else
      var init, last := calls[..|calls| - 1], calls[|calls| - 1];
      var before := Recorded(byCallId, init, calledAt);
      if last.id == "" then before else before[last.id := Pending(last.name, last.args, calledAt)]
  }

  method RecordCalls(byCallId: map<string, Pending>, calls: seq<Call>, calledAt: int) returns (r: map<string, Pending>)
    ensures r == Recorded(byCallId, calls, calledAt)
  {
    r := byCallId;
    for i := 0 to |calls|
      invariant r == Recorded(byCallId, calls[..i], calledAt)
    {
      PrefixOfPrefix(calls, i + 1, i);
      if calls[i].id == "" {
        continue;
      }
      r := r[calls[i].id := Pending(calls[i].name, calls[i].args, calledAt)];
    }
    WholeSlice(calls, |calls|);
  }

  /** The last call of a list with the given id, or -1. */
  function LastCall(calls: seq<Call>, id: string): (c: int)
    ensures -1 <= c < |calls| && (c >= 0 ==> calls[c].id == id)
    ensures forall k :: 0 <= k < |calls| && calls[k].id == id ==> k <= c
  {
    if calls == [] then -1
    else if calls[|calls| - 1].id == id then |calls| - 1
    else
      assert forall k :: 0 <= k < |calls| - 1 ==> calls[..|calls| - 1][k] == calls[k];
      LastCall(calls[..|calls| - 1], id)
  }

  /** After recording, an id is bound to its last call in the list, or as it was. */
  lemma {:induction false} RecordedIs(byCallId: map<string, Pending>, calls: seq<Call>, calledAt: int, id: string)
    ensures var r, c := Recorded(byCallId, calls, calledAt), LastCall(calls, id);
            if id != "" && c >= 0 then id in r && r[id] == Pending(calls[c].name, calls[c].args, calledAt)
            else (id in r <==> id in byCallId) && (id in r ==> r[id] == byCallId[id])
  {
    if calls != [] {
      RecordedIs(byCallId, calls[..|calls| - 1], calledAt, id);
    }
  }

  /** A message that requests and does not reply adds its calls to the open requests. */
  lemma OpenAfterRequests(byCallId: map<string, Pending>, msgs: seq<Message>, n: nat, n': nat)
    requires n' == n + 1 <= |msgs| && msgs[n].role == "assistant" && HoldsOpen(byCallId, msgs, n)
    ensures HoldsOpen(Recorded(byCallId, msgs[n].calls, msgs[n].createdAt), msgs, n')
  {
    var calls, at := msgs[n].calls, msgs[n].createdAt;
    var r := Recorded(byCallId, calls, at);
    forall id
      ensures id in r ==> HasOpen(msgs, n', id)
      ensures forall j, c :: Open(msgs, n', id, j, c) ==>
                id in r && r[id] == Pending(msgs[j].calls[c].name, msgs[j].calls[c].args, msgs[j].createdAt)
    {
      RecordedIs(byCallId, calls, at, id);
      var c := LastCall(calls, id);
      if id != "" && c >= 0 {
        RequestedIdOpens(msgs, n, n', id, c);
      } else {
        forall j, c ensures Open(msgs, n', id, j, c) <==> Open(msgs, n, id, j, c) {
          OpenUnchanged(msgs, n, n', id, j, c);
        }
      }
    }
  }

  /** A newly requested id is open at its last call in the message, and nowhere else. */
  lemma RequestedIdOpens(msgs: seq<Message>, n: nat, n': nat, id: string, c: nat)
    requires n' == n + 1 <= |msgs| && msgs[n].role == "assistant" && id != ""
    requires c < |msgs[n].calls| && msgs[n].calls[c].id == id
    requires forall c' :: 0 <= c' < |msgs[n].calls| && msgs[n].calls[c'].id == id ==> c' <= c
    ensures Open(msgs, n', id, n, c)
    ensures forall j', c' :: Open(msgs, n', id, j', c') ==> j' == n && c' == c
  {
    assert Requests(msgs, id, n, c);
    forall j', c' | Open(msgs, n', id, j', c') ensures j' == n && c' == c {
      assert NotLater(n, c, j', c');
    }
  }

  /** A message that neither requests nor answers the id leaves its open request as it was. */
  lemma OpenUnchanged(msgs: seq<Message>, n: nat, n': nat, id: string, j: int, c: int)
    requires n' == n + 1 <= |msgs| && (forall c' :: !Requests(msgs, id, n, c')) && !(IsReply(msgs[n]) && msgs[n].callId == id)
    ensures Open(msgs, n', id, j, c) <==> Open(msgs, n, id, j, c)
  {
  }

  /** A reply closes the request it answers and touches no other. */
  lemma OpenAfterReply(byCallId: map<string, Pending>, msgs: seq<Message>, n: nat, n': nat)
    requires n' == n + 1 <= |msgs| && IsReply(msgs[n]) && HoldsOpen(byCallId, msgs, n)
    ensures HoldsOpen(byCallId - {msgs[n].callId}, msgs, n')
  {
    var m := msgs[n];
    var r := byCallId - {m.callId};
    forall id, j, c ensures Open(msgs, n', id, j, c) <==> id != m.callId && Open(msgs, n, id, j, c) {
      if id != m.callId {
        OpenUnchanged(msgs, n, n', id, j, c);
      }
    }
  }

  lemma OpenAfterOther(byCallId: map<string, Pending>, msgs: seq<Message>, n: nat, n': nat)
    requires n' == n + 1 <= |msgs| && !IsReply(msgs[n]) && msgs[n].role != "assistant" && HoldsOpen(byCallId, msgs, n)
    ensures HoldsOpen(byCallId, msgs, n')
  {
    forall id, j, c ensures Open(msgs, n', id, j, c) <==> Open(msgs, n, id, j, c) {
      OpenUnchanged(msgs, n, n', id, j, c);
    }
  }

  /** One span per reply among the first `n` messages, in order. */
  ghost predicate AreToolSpans(spanId: Seed -> string, msgs: seq<Message>, n: nat, trace: string, parent: string,
                               spans: seq<Span>)
    requires n <= |msgs|
  {
    && |spans| == |Replies(msgs, n)|
    && forall k :: 0 <= k < |spans| ==>
         Replies(msgs, n)[k] < |msgs| && IsToolSpan(spanId, msgs, Replies(msgs, n)[k], trace, parent, spans[k])
  }

  lemma ToolSpansGrow(spanId: Seed -> string, msgs: seq<Message>, n: nat, n': nat, trace: string, parent: string,
                      spans: seq<Span>, more: seq<Span>)
    requires n' == n + 1 <= |msgs| && AreToolSpans(spanId, msgs, n, trace, parent, spans)
    requires if IsReply(msgs[n]) then |more| == 1 && IsToolSpan(spanId, msgs, n, trace, parent, more[0]) else more == []
    ensures AreToolSpans(spanId, msgs, n', trace, parent, spans + more)
  {
    var was, now, all := Replies(msgs, n), Replies(msgs, n'), spans + more;
    assert now == was + (if IsReply(msgs[n]) then [n] else []);
    forall k | 0 <= k < |all| ensures now[k] < |msgs| && IsToolSpan(spanId, msgs, now[k], trace, parent, all[k]) {
      if k < |spans| {
        assert now[k] == was[k] && all[k] == spans[k];
      } else {
        assert now[k] == n && all[k] == more[0];
      }
    }
  }

  /** The open requests after one more message. */
  function Remembered(byCallId: map<string, Pending>, m: Message): map<string, Pending> {
    if m.role == "assistant" then Recorded(byCallId, m.calls, m.createdAt)
    else if IsReply(m) then byCallId - {m.callId}
    else byCallId
  }

  function ByCallId(msgs: seq<Message>, n: nat): map<string, Pending>
    requires n <= |msgs|
  {
    if n == 0 then map[] else Remembered(ByCallId(msgs, n - 1), msgs[n - 1])
  }

  lemma {:induction false} TableHoldsOpen(msgs: seq<Message>, n: nat)
    requires n <= |msgs|
    ensures HoldsOpen(ByCallId(msgs, n), msgs, n)
  {
    if n > 0 {
      var byCallId, m := ByCallId(msgs, n - 1), msgs[n - 1];
      TableHoldsOpen(msgs, n - 1);
      if m.role == "assistant" {
        OpenAfterRequests(byCallId, msgs, n - 1, n);
      } else if IsReply(m) {
        OpenAfterReply(byCallId, msgs, n - 1, n);
      } else {
        OpenAfterOther(byCallId, msgs, n - 1, n);
      }
    }
  }

  function PendingFor(byCallId: map<string, Pending>, id: string): Pending {
    if id in byCallId then byCallId[id] else Pending("", "", ZERO_TIME)
  }

  /** The spans of the replies among the first `n` messages. */
  function ToolSpans(spanId: Seed -> string, trace: string, parent: string, msgs: seq<Message>, n: nat): seq<Span>
    requires n <= |msgs|
  {
    if n == 0 then []
    else
      var m := msgs[n - 1];
      ToolSpans(spanId, trace, parent, msgs, n - 1)
      + if IsReply(m) then [ToolSpan(spanId, trace, parent, m, PendingFor(ByCallId(msgs, n - 1), m.callId))] else []
  }

  lemma {:induction false} ToolSpansAreRight(spanId: Seed -> string, trace: string, parent: string, msgs: seq<Message>, n: nat)
    requires n <= |msgs|
    ensures AreToolSpans(spanId, msgs, n, trace, parent, ToolSpans(spanId, trace, parent, msgs, n))
  {
    if n > 0 {
      var m, byCallId := msgs[n - 1], ByCallId(msgs, n - 1);
      ToolSpansAreRight(spanId, trace, parent, msgs, n - 1);
      if IsReply(m) {
        TableHoldsOpen(msgs, n - 1);
        ToolSpanIsRight(spanId, trace, parent, msgs, n - 1, byCallId);
      }
      ToolSpansGrow(spanId, msgs, n - 1, n, trace, parent, ToolSpans(spanId, trace, parent, msgs, n - 1),
                    if IsReply(m) then [ToolSpan(spanId, trace, parent, m, PendingFor(byCallId, m.callId))] else []);
    }
  }

  /** One span per reply, in order, each started by the request it answers. */
  method BuildToolCallSpans(spanId: Seed -> string, trace: string, parent: string, msgs: seq<Message>)
    returns (spans: seq<Span>)
    ensures AreToolSpans(spanId, msgs, |msgs|, trace, parent, spans)
  {
    var byCallId: map<string, Pending> := map[];
    spans := [];
    for i := 0 to |msgs|
      invariant byCallId == ByCallId(msgs, i)
      invariant spans == ToolSpans(spanId, trace, parent, msgs, i)
    {
      var m := msgs[i];
      if m.role == "assistant" {
        byCallId := RecordCalls(byCallId, m.calls, m.createdAt);
      }
      if m.role != "tool" || m.callId == "" {
        ConcatNothing(spans);
        continue;
      }
      var p := if m.callId in byCallId then byCallId[m.callId] else Pending("", "", ZERO_TIME);
      spans := spans + [ToolSpan(spanId, trace, parent, m, p)];
      byCallId := byCallId - {m.callId};
    }
    ToolSpansAreRight(spanId, trace, parent, msgs, |msgs|);
  }

  function ToolSpan(spanId: Seed -> string, trace: string, parent: string, m: Message, p: Pending): Span {
    var name := if p.name == "" then "unknown_tool" else p.name;
    var start := if p.calledAt == ZERO_TIME then m.createdAt else p.calledAt;
    Span(trace, spanId(ToolSeed(m.id)), parent, "tool:" + name, start, EndAfter(start, m.createdAt),
         if m.failed then Error else Ok)
  }

  lemma ToolSpanIsRight(spanId: Seed -> string, trace: string, parent: string, msgs: seq<Message>, i: nat,
                        byCallId: map<string, Pending>)
    requires i < |msgs| && IsReply(msgs[i]) && HoldsOpen(byCallId, msgs, i)
    ensures IsToolSpan(spanId, msgs, i, trace, parent,
                       ToolSpan(spanId, trace, parent, msgs[i], PendingFor(byCallId, msgs[i].callId)))
  {
    var m := msgs[i];
    forall j, c | Answers(msgs, i, j, c) ensures m.callId in byCallId {}
    if m.callId in byCallId {
      var j, c :| Open(msgs, i, m.callId, j, c);
      assert Answers(msgs, i, j, c);
    }
  }

  // ----- one work item -----

  ghost predicate HasTrace(sessions: map<string, Session>, msgsOf: map<string, seq<Message>>, id: string) {
    id in sessions || Msgs(msgsOf, id) != []
  }

  function Msgs(msgsOf: map<string, seq<Message>>, id: string): seq<Message> {
    if id in msgsOf then msgsOf[id] else []
  }

  /** The replies in the sessions that are emitted, counted as often as the work item lists the session. */
  ghost function ReplyCount(sessions: map<string, Session>, msgsOf: map<string, seq<Message>>, ids: seq<string>): nat {
    if ids == [] then 0
    else
      var last := Msgs(msgsOf, ids[|ids| - 1]);
      ReplyCount(sessions, msgsOf, ids[..|ids| - 1]) + |Replies(last, |last|)|
  }

  ghost function SessionCount(sessions: map<string, Session>, msgsOf: map<string, seq<Message>>, ids: seq<string>): nat {
    if ids == [] then 0
    else
      SessionCount(sessions, msgsOf, ids[..|ids| - 1])
      + (if HasTrace(sessions, msgsOf, ids[|ids| - 1]) then 1 else 0)
  }

  function ToolCount(spans: seq<Span>): nat {
    if spans == [] then 0
    else ToolCount(spans[..|spans| - 1]) + (if IsToolName(spans[|spans| - 1].name) then 1 else 0)
  }

  lemma {:induction false} ToolCountConcat(a: seq<Span>, b: seq<Span>)
    ensures ToolCount(a + b) == ToolCount(a) + ToolCount(b)
  {
    if b == [] {
      ConcatNothing(a);
    } else {
      InitOfConcat(a, b);
      ToolCountConcat(a, b[..|b| - 1]);
    }
  }

  lemma {:induction false} AllTools(spans: seq<Span>)
    requires forall sp <- spans :: IsToolName(sp.name)
    ensures ToolCount(spans) == |spans|
  {
    if spans != [] {
      AllTools(spans[..|spans| - 1]);
    }
  }

  lemma ToolsUnderOne(first: Span, tools: seq<Span>)
    requires !IsToolName(first.name) && forall k :: 0 <= k < |tools| ==> IsToolName(tools[k].name)
    ensures ToolCount([first] + tools) == |tools|
  {
    AllTools(tools);
    ToolCountConcat([first], tools);
    assert [first][..0] == [];
  }

  /** The earliest and latest of some times. */
  method Bounds(msgs: seq<Message>) returns (lo: int, hi: int)
    requires msgs != []
    ensures lo <= hi && (exists m <- msgs :: m.createdAt == lo) && (exists m <- msgs :: m.createdAt == hi)
    ensures forall m <- msgs :: lo <= m.createdAt <= hi
  {
    lo, hi := msgs[0].createdAt, msgs[0].createdAt;
    for i := 0 to |msgs|
      invariant lo <= hi && (exists m <- msgs :: m.createdAt == lo) && (exists m <- msgs :: m.createdAt == hi)
      invariant forall k :: 0 <= k < i ==> lo <= msgs[k].createdAt <= hi
    {
      assert msgs[i] in msgs;
      if msgs[i].createdAt < lo {
        lo := msgs[i].createdAt;
      }
      if msgs[i].createdAt > hi {
        hi := msgs[i].createdAt;
      }
    }
  }

  /** A span of the trace whose parent is an earlier span. */
  ghost predicate IsChild(spans: seq<Span>, k: nat, trace: string)
    requires k < |spans|
  {
    && spans[k].traceId == trace && spans[k].start < spans[k].end && spans[k].parent != ""
    && exists j :: 0 <= j < k && spans[j].spanId == spans[k].parent
  }

  /** One parentless span, first; every other span's parent before it; one trace; every span of positive length. */
  ghost predicate IsForest(spans: seq<Span>, trace: string) {
    && spans != [] && spans[0].parent == "" && spans[0].traceId == trace && spans[0].start < spans[0].end
    && forall k :: 0 < k < |spans| ==> IsChild(spans, k, trace)
  }

  /** Adding children of an earlier span keeps the forest. */
  lemma ForestGrows(spans: seq<Span>, more: seq<Span>, trace: string, parent: nat)
    requires IsForest(spans, trace) && parent < |spans| && spans[parent].spanId != ""
    requires forall sp <- more :: sp.traceId == trace && sp.start < sp.end && sp.parent == spans[parent].spanId
    ensures IsForest(spans + more, trace)
  {
    forall k | 0 < k < |spans + more| ensures IsChild(spans + more, k, trace) {
      if k < |spans| {
        assert IsChild(spans, k, trace);
        var j :| 0 <= j < k && spans[j].spanId == spans[k].parent;
        assert (spans + more)[j].spanId == (spans + more)[k].parent;
      } else {
        assert (spans + more)[k] in more;
        assert (spans + more)[parent].spanId == (spans + more)[k].parent;
      }
    }
  }

  lemma SessionExtendsForest(spanId: Seed -> string, msgs: seq<Message>, spans: seq<Span>, more: seq<Span>, trace: string)
    requires IsForest(spans, trace) && spans[0].spanId != ""
    requires IsSessionTree(spanId, msgs, more, trace, spans[0].spanId)
    ensures IsForest(spans + more, trace)
  {
    ForestGrows(spans, [more[0]], trace, 0);
    ForestGrows(spans + [more[0]], more[1..], trace, |spans|);
    assert spans + [more[0]] + more[1..] == spans + more;
  }

  /** A span under the root, and then, under it, one tool span per reply. */
  ghost predicate IsSessionTree(spanId: Seed -> string, msgs: seq<Message>, spans: seq<Span>, trace: string, rootId: string) {
    && spans != []
    && spans[0].traceId == trace && spans[0].parent == rootId && spans[0].start < spans[0].end && spans[0].spanId != ""
    && AreToolSpans(spanId, msgs, |msgs|, trace, spans[0].spanId, spans[1..])
  }

  /** The times of a session span: its messages' bounds, or the session row's own when there are none. */
  ghost predicate IsSessionSpan(it: WorkItem, id: string, sessions: map<string, Session>, msgs: seq<Message>, sp: Span) {
    && sp.name == (if StageName(id) == "" then "session" else "stage:" + StageName(id))
    && (sp.status == Ok <==> it.status == "completed")
    && (sp.status == Error <==> it.status == "failed" && StageName(id) != "" && StageName(id) == it.currentStage)
    && (msgs == [] && id in sessions ==>
          sp.start == sessions[id].createdAt && EndsWith(sp.start, sessions[id].lastActiveAt, sp.end))
    && (msgs != [] ==> exists a, b :: AreBounds(msgs, a, b) && sp.start == a && EndsWith(a, b, sp.end))
  }

  /** The earliest and the latest time of the messages. */
  ghost predicate AreBounds(msgs: seq<Message>, a: int, b: int) {
    (forall m <- msgs :: a <= m.createdAt <= b) && (exists m <- msgs :: m.createdAt == a) && exists m <- msgs :: m.createdAt == b
  }

  /** The sessions that left a trace, in order, each as its tree. */
  ghost predicate AreSessionTrees(spanId: Seed -> string, it: WorkItem, sessions: map<string, Session>,
                                  msgsOf: map<string, seq<Message>>, ids: seq<string>, spans: seq<Span>,
                                  trace: string, rootId: string)
  {
    if ids == [] then spans == []
    else
      var init, id := ids[..|ids| - 1], ids[|ids| - 1];
      var msgs := Msgs(msgsOf, id);
      if !HasTrace(sessions, msgsOf, id) then AreSessionTrees(spanId, it, sessions, msgsOf, init, spans, trace, rootId)
      else
        var cut := |spans| - 1 - |Replies(msgs, |msgs|)|;
        && 0 <= cut
        && IsSessionTree(spanId, msgs, spans[cut..], trace, rootId)
        && IsSessionSpan(it, id, sessions, msgs, spans[cut])
        && AreSessionTrees(spanId, it, sessions, msgsOf, init, spans[..cut], trace, rootId)
  }

  /** The root span covers the item from its creation to its completion, or its last update when it has none. */
  predicate IsRootSpan(spanId: Seed -> string, it: WorkItem, sp: Span) {
    && sp.spanId == spanId(RootSeed(it.id)) && sp.name == "work_item:" + it.family && sp.start == it.createdAt
    && EndsWith(it.createdAt, if it.completedAt.Some? then it.completedAt.value else it.updatedAt, sp.end)
    && (sp.status == Ok <==> it.status == "completed") && (sp.status == Error <==> it.status == "failed")
  }

  function RootStatus(status: string): Status {
    if status == "completed" then Ok else if status == "failed" then Error else Unset
  }

  function SessionStatus(it: WorkItem, stage: string): Status {
    if it.status == "completed" then Ok
    else if it.status == "failed" && stage != "" && stage == it.currentStage then Error
    else Unset
  }

  function RootSpan(spanId: Seed -> string, it: WorkItem, trace: string): Span {
    var end := if it.completedAt.Some? then it.completedAt.value else it.updatedAt;
    Span(trace, spanId(RootSeed(it.id)), "", "work_item:" + it.family, it.createdAt, EndAfter(it.createdAt, end),
         RootStatus(it.status))
  }

  lemma TreesGrow(spanId: Seed -> string, it: WorkItem, sessions: map<string, Session>,
                  msgsOf: map<string, seq<Message>>, ids: seq<string>, id: string, ids': seq<string>,
                  spans: seq<Span>, more: seq<Span>, trace: string, rootId: string)
    requires AreSessionTrees(spanId, it, sessions, msgsOf, ids, spans, trace, rootId)
    requires HasTrace(sessions, msgsOf, id) && ids' == ids + [id]
    requires IsSessionTree(spanId, Msgs(msgsOf, id), more, trace, rootId)
    requires IsSessionSpan(it, id, sessions, Msgs(msgsOf, id), more[0])
    ensures AreSessionTrees(spanId, it, sessions, msgsOf, ids', spans + more, trace, rootId)
  {
    assert ids'[..|ids|] == ids;
    assert (spans + more)[..|spans|] == spans && (spans + more)[|spans|..] == more;
  }

  lemma TreesSkip(spanId: Seed -> string, it: WorkItem, sessions: map<string, Session>,
                  msgsOf: map<string, seq<Message>>, ids: seq<string>, id: string, ids': seq<string>,
                  spans: seq<Span>, trace: string, rootId: string)
    requires AreSessionTrees(spanId, it, sessions, msgsOf, ids, spans, trace, rootId)
    requires !HasTrace(sessions, msgsOf, id) && ids' == ids + [id]
    ensures AreSessionTrees(spanId, it, sessions, msgsOf, ids', spans, trace, rootId)
  {
    assert ids'[..|ids|] == ids;
  }

  /** The last emitted session's tree ends the spans; the trees of the sessions before it are the rest. */
  lemma TreesPeel(spanId: Seed -> string, it: WorkItem, sessions: map<string, Session>,
                  msgsOf: map<string, seq<Message>>, ids: seq<string>, spans: seq<Span>, trace: string, rootId: string)
    returns (before: seq<Span>, more: seq<Span>)
    requires AreSessionTrees(spanId, it, sessions, msgsOf, ids, spans, trace, rootId)
    requires ids != [] && HasTrace(sessions, msgsOf, ids[|ids| - 1])
    ensures spans == before + more
    ensures AreSessionTrees(spanId, it, sessions, msgsOf, ids[..|ids| - 1], before, trace, rootId)
    ensures IsSessionTree(spanId, Msgs(msgsOf, ids[|ids| - 1]), more, trace, rootId)
    ensures |more| == 1 + |Replies(Msgs(msgsOf, ids[|ids| - 1]), |Msgs(msgsOf, ids[|ids| - 1])|)|
    ensures more[0].name == SpanName(StageName(ids[|ids| - 1]))
  {
    var msgs := Msgs(msgsOf, ids[|ids| - 1]);
    var cut := |spans| - 1 - |Replies(msgs, |msgs|)|;
    before, more := spans[..cut], spans[cut..];
  }

  /** Session trees under a root make a forest. */
  lemma {:induction false} TreesAreForest(spanId: Seed -> string, it: WorkItem, sessions: map<string, Session>,
                                          msgsOf: map<string, seq<Message>>, ids: seq<string>, root: Span,
                                          spans: seq<Span>, trace: string)
    requires root.traceId == trace && root.parent == "" && root.start < root.end && root.spanId != ""
    requires AreSessionTrees(spanId, it, sessions, msgsOf, ids, spans, trace, root.spanId)
    ensures IsForest([root] + spans, trace)
    decreases |ids|
  {
    if ids != [] {
      var init, id := ids[..|ids| - 1], ids[|ids| - 1];
      if HasTrace(sessions, msgsOf, id) {
        var before, more := TreesPeel(spanId, it, sessions, msgsOf, ids, spans, trace, root.spanId);
        TreesAreForest(spanId, it, sessions, msgsOf, init, root, before, trace);
        SessionExtendsForest(spanId, Msgs(msgsOf, id), [root] + before, more, trace);
        ConcatIsAssociative([root], before, more);
      } else {
        TreesAreForest(spanId, it, sessions, msgsOf, init, root, spans, trace);
      }
    }
  }

  /** The tool spans of session trees are the replies of the emitted sessions, and the rest one span a session. */
  lemma {:induction false} TreesCount(spanId: Seed -> string, it: WorkItem, sessions: map<string, Session>,
                                      msgsOf: map<string, seq<Message>>, ids: seq<string>,
                                      spans: seq<Span>, trace: string, rootId: string)
    requires AreSessionTrees(spanId, it, sessions, msgsOf, ids, spans, trace, rootId)
    ensures ToolCount(spans) == ReplyCount(sessions, msgsOf, ids)
    ensures |spans| == SessionCount(sessions, msgsOf, ids) + ReplyCount(sessions, msgsOf, ids)
    decreases |ids|
  {
    if ids != [] {
      var init, id := ids[..|ids| - 1], ids[|ids| - 1];
      var msgs := Msgs(msgsOf, id);
      if HasTrace(sessions, msgsOf, id) {
        var before, more := TreesPeel(spanId, it, sessions, msgsOf, ids, spans, trace, rootId);
        TreesCount(spanId, it, sessions, msgsOf, init, before, trace, rootId);
        SessionToolCount(spanId, msgs, more, trace, rootId, more[0].name, StageName(id));
        ToolCountConcat(before, more);
      } else {
        assert Replies(msgs, |msgs|) == [];
        TreesCount(spanId, it, sessions, msgsOf, init, spans, trace, rootId);
      }
    }
  }

  lemma SessionToolCount(spanId: Seed -> string, msgs: seq<Message>, spans: seq<Span>, trace: string, rootId: string,
                         name: string, stage: string)
    requires IsSessionTree(spanId, msgs, spans, trace, rootId) && spans[0].name == name == SpanName(stage)
    ensures ToolCount(spans) == |Replies(msgs, |msgs|)|
  {
    OtherNamesAreNotTools(stage, "");
    HeadAndTail(spans);
    ToolsUnderOne(spans[0], spans[1..]);
  }

  /** None when the work item's id is not a uuid: the item is skipped. */
  method BuildWorkItemSpans(spanId: Seed -> string, it: WorkItem, sessions: map<string, Session>,
                            msgsOf: map<string, seq<Message>>) returns (r: Option<seq<Span>>)
    requires forall seed :: spanId(seed) != ""
    ensures r.None? <==> TraceIdFromUuid(it.id).None?
    ensures r.Some? ==> IsForest(r.value, TraceIdFromUuid(it.id).value)
    ensures r.Some? ==> IsRootSpan(spanId, it, r.value[0])
    ensures r.Some? ==> AreSessionTrees(spanId, it, sessions, msgsOf, it.sessionIds, r.value[1..],
                                        TraceIdFromUuid(it.id).value, r.value[0].spanId)
    ensures r.Some? ==> ToolCount(r.value) == ReplyCount(sessions, msgsOf, it.sessionIds)
  {
    var traceId := TraceIdFromUuid(it.id);
    if traceId.None? {
      return None;
    }
    var trace := traceId.value;
    var root := RootSpan(spanId, it, trace);
    var spans := [root];
    ghost var trees: seq<Span> := [];
    for i := 0 to |it.sessionIds|
      invariant spans == [root] + trees
      invariant AreSessionTrees(spanId, it, sessions, msgsOf, it.sessionIds[..i], trees, trace, root.spanId)
    {
      var id := it.sessionIds[i];
      ghost var seen, next := it.sessionIds[..i], it.sessionIds[..i + 1];
      PrefixGrows(it.sessionIds, i, i + 1);
      var msgs := Msgs(msgsOf, id);
      if id !in sessions && msgs == [] {
        TreesSkip(spanId, it, sessions, msgsOf, seen, id, next, trees, trace, root.spanId);
        continue;
      }
      var more := BuildSessionSpans(spanId, it, trace, root.spanId, id, sessions, msgs);
      TreesGrow(spanId, it, sessions, msgsOf, seen, id, next, trees, more, trace, root.spanId);
      ConcatIsAssociative([root], trees, more);
      trees := trees + more;
      spans := spans + more;
    }
    WholeSlice(it.sessionIds, |it.sessionIds|);
    PartsOfConcat([root], trees);
    TreesAreForest(spanId, it, sessions, msgsOf, it.sessionIds, root, trees, trace);
    TreesCount(spanId, it, sessions, msgsOf, it.sessionIds, trees, trace, root.spanId);
    RootIsNotTool(root, trees, it.family);
    r := Some(spans);
  }

  lemma RootIsNotTool(root: Span, spans: seq<Span>, family: string)
    requires root.name == "work_item:" + family
    ensures ToolCount([root] + spans) == ToolCount(spans)
  {
    OtherNamesAreNotTools("", family);
    ToolCountConcat([root], spans);
    assert [root][..0] == [];
  }

  /** The session's span under the root, then its tool spans under it. */
  method BuildSessionSpans(spanId: Seed -> string, it: WorkItem, trace: string, rootId: string, id: string,
                           sessions: map<string, Session>, msgs: seq<Message>) returns (spans: seq<Span>)
    requires id in sessions || msgs != []
    requires forall seed :: spanId(seed) != ""
    ensures IsSessionTree(spanId, msgs, spans, trace, rootId) && IsSessionSpan(it, id, sessions, msgs, spans[0])
    ensures spans[0].spanId == spanId(SessionSeed(id))
  {
    var start, end;
    if |msgs| > 0 {
      start, end := Bounds(msgs);
    } else {
      start, end := sessions[id].createdAt, sessions[id].lastActiveAt;
    }
    var stage := StageName(id);
    var first := Span(trace, spanId(SessionSeed(id)), rootId, SpanName(stage), start, EndAfter(start, end),
                      SessionStatus(it, stage));
    var tools := BuildToolCallSpans(spanId, trace, first.spanId, msgs);
    spans := [first] + tools;
    PartsOfConcat([first], tools);
    assert EndsWith(start, end, first.end) && (msgs != [] ==> AreBounds(msgs, start, end));
  }
}
