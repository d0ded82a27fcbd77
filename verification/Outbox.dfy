/**
 The persona outbox: messages a persona wrote during its turns, waiting to be posted. A row's id is its
 position, so ids follow insertion order; claiming marks rows as posted before anything is sent.
 */
module Outbox {
  datatype Row = Row(session: string, body: string, speaker: string, emoji: string, posted: bool)

  type Table = seq<Row>

  /** The row is unposted and belongs to one of the sessions. */
  predicate Waiting(rows: Table, sessions: set<string>, id: nat) {
    id < |rows| && !rows[id].posted && rows[id].session in sessions
  }

  predicate Ascending(ids: seq<nat>) {
    forall i, j :: 0 <= i < j < |ids| ==> ids[i] < ids[j]
  }

  /** Marks every waiting row of the sessions as posted. */
  function Marked(rows: Table, sessions: set<string>): (marked: Table)
    ensures |marked| == |rows|
    ensures forall id: nat :: !Waiting(marked, sessions, id)
    ensures forall id: nat :: id < |rows| && !Waiting(rows, sessions, id) ==> marked[id] == rows[id]
    ensures forall id: nat :: id < |rows| ==> marked[id].(posted := rows[id].posted) == rows[id]
  {
    seq(|rows|, id requires 0 <= id < |rows| =>
      if Waiting(rows, sessions, id) then rows[id].(posted := true) else rows[id])
  }

  /** The ids below `n` of the waiting rows, in id order. */
  function WaitingBelow(rows: Table, sessions: set<string>, n: nat): (ids: seq<nat>)
    ensures Ascending(ids)
    ensures forall id: nat :: id in ids <==> id < n && Waiting(rows, sessions, id)
  {
    if n == 0 then [] else
    var before := WaitingBelow(rows, sessions, n - 1);
    if !Waiting(rows, sessions, n - 1) then before else
    assert forall i :: 0 <= i < |before| ==> before[i] in before;
    before + [n - 1]
  }

  /** The ids a claim hands out. */
  function Claimed(rows: Table, sessions: set<string>): (ids: seq<nat>)
    ensures Ascending(ids)
    ensures forall id: nat :: id in ids <==> Waiting(rows, sessions, id)
    ensures forall k :: 0 <= k < |ids| ==> Waiting(rows, sessions, ids[k])
  {
    var ids := WaitingBelow(rows, sessions, |rows|);
    assert forall k :: 0 <= k < |ids| ==> ids[k] in ids;
    ids
  }

  /** Two ascending sequences with the same members are the same sequence. */
  lemma {:induction false} AscendingIsUnique(a: seq<nat>, b: seq<nat>)
    requires Ascending(a) && Ascending(b)
    requires forall id: nat :: id in a <==> id in b
    ensures a == b
  {
    if b != [] {
      assert b[0] in b;
    }
    if a != [] {
      assert a[0] in a;
      assert b[0] in b;
      assert a[0] == b[0];
      forall id: nat ensures id in a[1..] <==> id in b[1..] {
        assert id in a <==> id == a[0] || id in a[1..];
        assert id in b <==> id == b[0] || id in b[1..];
      }
      AscendingIsUnique(a[1..], b[1..]);
    }
  }

  /** Puts an id into its place in an ascending sequence. */
  function Insert(ids: seq<nat>, id: nat): (r: seq<nat>)
    requires Ascending(ids) && id !in ids
    ensures Ascending(r)
    ensures forall k: nat :: k in r <==> k == id || k in ids
  {
    if ids == [] || id < ids[0] then [id] + ids else
    var rest := Insert(ids[1..], id);
    assert forall i :: 0 <= i < |rest| ==> rest[i] in rest;
    assert forall k <- ids[1..] :: ids[0] < k;
    [ids[0]] + rest
  }

  /**
   Atomically marks the sessions' waiting rows and returns them in id order. The database reports the rows it
   updated in any order; the result does not depend on it.
   */
  method ClaimOutboxForSessions(rows: Table, sessions: set<string>) returns (marked: Table, claimed: seq<nat>)
    ensures marked == Marked(rows, sessions)
    ensures claimed == Claimed(rows, sessions)
  {
    claimed := [];
    if sessions == {} {
      marked := rows;
      assert marked == Marked(rows, sessions);
      AscendingIsUnique(claimed, Claimed(rows, sessions));
      return;
    }
    marked := Marked(rows, sessions);
    var returning := set id: nat | id < |rows| && Waiting(rows, sessions, id);
    while returning != {}
      invariant Ascending(claimed)
      invariant forall id: nat :: Waiting(rows, sessions, id) <==> id in claimed || id in returning
      invariant forall id: nat :: id in claimed ==> id !in returning
      decreases returning
    {
      if id :| id in returning {
        claimed := Insert(claimed, id);
        returning := returning - {id};
      }
    }
    AscendingIsUnique(claimed, Claimed(rows, sessions));
  }
}
