/**
 * The server's session registry (`Sessions.java`): a map from session id to
 * session, bounded by `limit`. Only the sequential behaviour is modelled;
 * the registry's locking is not.
 */
module SessionRegistry {
  import opened Common
  import opened ServerSession

  /** The map left after removing every session orphaned at time `now`. */
  ghost function WithoutOrphans(m: map<string, Session>, now: int): map<string, Session>
    reads m.Values
  {
    map k | k in m && !m[k].Orphaned(now) :: m[k]
  }

  class Sessions {
    const limit: int
    var sessions: map<string, Session>

    /** Every registered session is stored under its own id. */
    ghost predicate Valid()
      reads this, sessions.Values
    {
      (forall k :: k in sessions ==> sessions[k].id == k) &&
      (forall k :: k in sessions ==> sessions[k].Valid())
    }

    ghost function Sessions(): set<object>
      reads this
    {
      set k | k in sessions :: sessions[k]
    }

    constructor (limit: int)
      ensures Valid() && this.limit == limit && sessions == map[]
    {
      this.limit := limit;
      sessions := map[];
    }

    /**
     * `create`: a new session with the (assumed unique) identifier `newId`
     * when fewer than `limit` sessions exist, otherwise null.
     */
    method Create(newId: string, now: int) returns (s: Option<Session>)
      requires Valid() && newId !in sessions
      modifies this
      ensures Valid()
      ensures s.None? <==> |old(sessions)| >= limit
      ensures s.None? ==> sessions == old(sessions)
      ensures s.Some? ==> fresh(s.value) && s.value.id == newId && s.value.status == NotStarted
                          && sessions == old(sessions)[newId := s.value]
      ensures |old(sessions)| <= limit ==> |sessions| <= limit
    {
      if |sessions| < limit {
        var session := new Session(newId, now);
        sessions := sessions[newId := session];
        s := Some(session);
      } else {
        s := None;
      }
    }

    /** `destroy`: removes exactly the given session's id and closes it. */
    method Destroy(session: Session)
      requires Valid() && session.Valid()
      modifies this, session
      ensures Valid()
      ensures sessions == old(sessions) - {session.id}
      ensures !session.processRunning
      ensures session.status == old(session.status) && session.results == old(session.results) &&
              session.query == old(session.query) && session.keepalive == old(session.keepalive)
    {
      sessions := sessions - {session.id};
      session.Close();
    }

    /** `get`: a lookup that changes nothing. */
    function Get(key: string): (r: Option<Session>)
      reads this
      ensures r.Some? <==> key in sessions
      ensures r.Some? ==> r.value == sessions[key]
    {
      if key in sessions then Some(sessions[key]) else None
    }

    /**
     * `checkForOrphans`: removes exactly the sessions orphaned at `now` and
     * closes them; the sessions kept are left as they were. The source
     * removes and closes each orphan in one turn of its loop; here the
     * orphans are removed together and then closed one by one, which ends in
     * the same state since closing a session does not touch the registry.
     */
    method CheckForOrphans(now: int)
      requires Valid()
      modifies this, Sessions()
      ensures Valid()
      ensures sessions == WithoutOrphans(old(sessions), now)
      ensures forall k :: k in sessions ==> !sessions[k].Orphaned(now)
      ensures forall k :: k in old(sessions) && k !in sessions ==> !old(sessions)[k].processRunning
      ensures forall k :: k in sessions ==> sessions[k].processRunning == old(sessions[k].processRunning)
      ensures forall k :: k in old(sessions) ==>
                var s := old(sessions)[k];
                s.status == old(s.status) && s.results == old(s.results) &&
                s.keepalive == old(s.keepalive) && s.query == old(s.query)
    {
      var orphans := set k | k in sessions && sessions[k].Orphaned(now) :: sessions[k];
      sessions := map k | k in sessions && !sessions[k].Orphaned(now) :: sessions[k];
      var todo := orphans;
      while todo != {}
        modifies orphans
        invariant todo <= orphans
        invariant forall s :: s in orphans ==>
                    s.Valid() && s.status == old(s.status) && s.results == old(s.results) &&
                    s.keepalive == old(s.keepalive) && s.query == old(s.query) &&
                    s.processRunning == (s in todo && old(s.processRunning))
        decreases |todo|
      {
        var session :| session in todo;
        session.Close();
        todo := todo - {session};
      }
    }

    /**
     * `shutdown`: closes every session but removes none of them; each
     * keeps its status, results, query and keepalive time.
     */
    method Shutdown()
      requires Valid()
      modifies Sessions()
      ensures Valid()
      ensures forall k :: k in sessions ==> !sessions[k].processRunning
      ensures forall k :: k in sessions ==>
                sessions[k].status == old(sessions[k].status) && sessions[k].results == old(sessions[k].results) &&
                sessions[k].query == old(sessions[k].query) && sessions[k].keepalive == old(sessions[k].keepalive)
    {
      var closing := set k | k in sessions :: sessions[k];
      var todo := closing;
      while todo != {}
        invariant todo <= closing
        invariant forall s :: s in closing ==>
                    s.Valid() && s.status == old(s.status) && s.results == old(s.results) &&
                    s.query == old(s.query) && s.keepalive == old(s.keepalive) &&
                    (s !in todo ==> !s.processRunning)
        decreases |todo|
      {
        var session :| session in todo;
        session.Close();
        todo := todo - {session};
      }
    }
  }
}
