/**
 * The request-level logic of the Java server (`UWECellSuppressionServer.java`)
 * that does not touch sockets: finding the session a query names, and the
 * reply to a "/session" request.
 */
module CellSuppressionServer {
  import opened Common
  import opened Text
  import opened JavaText
  import opened ServerSession
  import opened SessionRegistry

  const SessionPrefix: string := "session="

  /** The index of the first element that starts with "session=", if any. */
  function FirstSessionElement(elements: seq<string>): (r: Option<nat>)
    ensures r.Some? ==> r.value < |elements| && StartsWith(elements[r.value], SessionPrefix)
    ensures r.Some? ==> forall k :: 0 <= k < r.value ==> !StartsWith(elements[k], SessionPrefix)
    ensures r.None? ==> forall k :: 0 <= k < |elements| ==> !StartsWith(elements[k], SessionPrefix)
  {
    if elements == [] then None
    else if StartsWith(elements[0], SessionPrefix) then Some(0)
    else match FirstSessionElement(elements[1..]) {
      case None => None
      case Some(i) => Some(i + 1)
    }
  }

  /**
   * `getSession`: the session whose id is the value of the first `session=`
   * element of the query, provided that element splits on '=' into exactly
   * two parts and the id is registered; null in every other case.
   */
  function GetSession<S>(query: Option<string>, sessions: map<string, S>): (r: Option<S>)
    ensures query.None? ==> r.None?
    ensures r.Some? ==> exists id :: id in sessions && r.value == sessions[id]
  {
    if query.None? then None
    else
      var elements := Split(query.value, '&');
      match FirstSessionElement(elements) {
        case None => None
        case Some(i) =>
          var keyValue := Split(elements[i], '=');
          if |keyValue| == 2 && keyValue[1] in sessions then Some(sessions[keyValue[1]])
          else None
      }
  }

  /** A query that is exactly `session=<id>` finds the session registered under `id`. */
  lemma GetSessionOfId<S>(id: string, sessions: map<string, S>)
    requires '&' !in id && '=' !in id && id != []
    ensures GetSession(Some(SessionPrefix + id), sessions) ==
            (if id in sessions then Some(sessions[id]) else None)
  {
    var q := SessionPrefix + id;
    assert "session" + ['='] + id == q;
    assert '&' !in q by {
      forall k | 0 <= k < |q| ensures q[k] != '&' {
        if k >= |SessionPrefix| { assert q[k] == id[k - |SessionPrefix|]; }
      }
    }
    assert Split(q, '&') == [q];
    assert q[..|SessionPrefix|] == SessionPrefix;
    assert FirstSessionElement([q]) == Some(0);
    SplitTwo("session", id, '=');
  }

  /**
   * Only the first `session=` element matters: whatever follows it in the
   * query (even a well-formed `session=` element) is never looked at.
   */
  lemma GetSessionFirstElementDecides<S>(first: string, rest: string, sessions: map<string, S>)
    requires '&' !in first && StartsWith(first, SessionPrefix)
    ensures GetSession(Some(first + "&" + rest), sessions) == GetSession(Some(first), sessions)
  {
    var q := first + "&" + rest;
    assert q == first + ['&'] + rest;
    assert q[|first|] == '&';
    PiecesCons(first, rest, '&');
    var r := Pieces(q, '&');
    assert r[0] == first;
    var elements := Split(q, '&');
    assert elements == DropTrailingEmpty(r);
    assert first != [] by { assert |first| >= |SessionPrefix|; }
    assert elements[0] == first;
    assert FirstSessionElement(elements) == Some(0);
    assert FirstSessionElement([first]) == Some(0);
  }

  /** The reply to "/session": the new session's id, or "0" when the registry is full. */
  method SessionRequest(registry: Sessions, newId: string, now: int) returns (reply: string)
    requires registry.Valid() && newId !in registry.sessions
    modifies registry
    ensures registry.Valid()
    ensures reply == (if |old(registry.sessions)| >= registry.limit then "0" else newId)
    ensures |old(registry.sessions)| <= registry.limit ==> |registry.sessions| <= registry.limit
  {
    var session := registry.Create(newId, now);
    if session.Some? {
      reply := session.value.id;
    } else {
      reply := "0";
    }
  }
}
