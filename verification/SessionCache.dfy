/**
 The bridge's lazy cache of MCP sessions. Sessions are numbered in the order they are opened; the cache
 neither leaks an open session nor closes one twice, whichever order its operations are called in.
 */
module SessionCache {
  import opened Options

  class Cache {
    var sessions: map<string, nat>
    /** After closeAll the map is nil, so that only opening another session would fail. */
    var gone: bool
    var openCount: nat
    var closed: seq<nat>

    predicate Cached(id: nat)
      reads this
    {
      exists name :: name in sessions && sessions[name] == id
    }

    /** Every opened session is either cached under one name or closed, once. */
    ghost predicate Valid()
      reads this
    {
      && (forall id: nat :: id < openCount <==> Cached(id) || id in closed)
      && (forall id <- closed :: !Cached(id))
      && (forall i, j :: 0 <= i < j < |closed| ==> closed[i] != closed[j])
      && (forall a, b :: a in sessions && b in sessions && sessions[a] == sessions[b] ==> a == b)
      && (gone ==> sessions == map[])
    }

    constructor ()
      ensures Valid() && sessions == map[] && !gone && openCount == 0 && closed == []
    {
      sessions, gone, openCount, closed := map[], false, 0, [];
    }

    /** The cached session, or a newly opened one, which the map must still be there to hold, when the server can be reached. */
    method Get(name: string, reachable: bool) returns (session: Option<nat>)
      requires Valid() && (gone ==> !reachable)
      modifies this
      ensures Valid() && gone == old(gone) && closed == old(closed)
      ensures name in old(sessions) ==>
                session == Some(old(sessions)[name]) && sessions == old(sessions) && openCount == old(openCount)
      ensures name !in old(sessions) && reachable ==>
                session == Some(old(openCount)) && openCount == old(openCount) + 1 && sessions == old(sessions)[name := old(openCount)]
      ensures name !in old(sessions) && !reachable ==>
                session == None && sessions == old(sessions) && openCount == old(openCount)
      ensures session.Some? ==> session.value !in closed
    {
      if name in sessions {
        assert Cached(sessions[name]);
        return Some(sessions[name]);
      }
      if !reachable {
        return None;
      }
      var id := openCount;
      assert !Cached(id) && id !in closed;
      label before:
      sessions := sessions[name := id];
      openCount := openCount + 1;
      forall k: nat ensures Cached(k) <==> k == id || old@before(Cached(k)) {
        if n :| n in old@before(sessions) && old@before(sessions)[n] == k {
          assert n in sessions && sessions[n] == k;
        }
        assert sessions[name] == id;
      }
      session := Some(id);
    }

    /** Closes and forgets whatever session is cached for the server now. */
    method Invalidate(name: string)
      requires Valid()
      modifies this
      ensures Valid() && gone == old(gone) && openCount == old(openCount)
      ensures sessions == old(sessions) - {name}
      ensures closed == old(closed) + (if name in old(sessions) then [old(sessions)[name]] else [])
    {
      if name in sessions {
        var id := sessions[name];
        assert Cached(id);
        label before:
        closed := closed + [id];
        sessions := sessions - {name};
        forall k: nat ensures Cached(k) <==> k != id && old@before(Cached(k)) {
          if k != id && old@before(Cached(k)) {
            var n :| n in old@before(sessions) && old@before(sessions)[n] == k;
            assert n in sessions && sessions[n] == k;
          }
        }
      } else {
        assert sessions - {name} == sessions;
      }
    }

    /** Closes every session that is still open. */
    method CloseAll()
      requires Valid()
      modifies this
      ensures Valid() && gone && openCount == old(openCount)
      ensures forall id: nat :: id < openCount <==> id in closed
    {
      while sessions != map[]
        invariant Valid() && openCount == old(openCount) && gone == old(gone)
        decreases sessions.Keys
      {
        if name :| name in sessions {
          Invalidate(name);
        }
      }
      gone := true;
    }
  }
}
