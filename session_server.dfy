/** `SessionServer` of `hyo-server/src/session/server.rs`: the websocket
    server's own session map, with the same listing and id rules as
    `SessionManager`. The connection handling is outside the model. */
module Server {
  import opened Common
  import opened Sessions

  /** `SessionServer`. */
  class SessionServer {
    var sessions: map<Uuid, Session>

    /** `SessionServer::default()`. */
    constructor Default()
      ensures sessions == map[]
    {
      sessions := map[];
    }

    /** `SessionServer::iter_public_sessions`. */
    function IterPublicSessions(): (r: set<Session>)
      reads this
      ensures r == PublicSessions(sessions)
      ensures forall s :: s in r <==> s in sessions.Values && s.settings.public
    {
      PublicSessions(sessions)
    }

    /** `SessionServer::new_session_id`: an id not yet in use; the sessions are
        not changed. */
    method NewSessionId(draws: seq<Uuid>) returns (id: Uuid)
      requires exists i :: 0 <= i < |draws| && draws[i] !in sessions
      ensures id !in sessions
      ensures exists i :: 0 <= i < |draws| && draws[i] == id &&
                forall j :: 0 <= j < i ==> draws[j] in sessions
    {
      id := FreshSessionId(sessions, draws);
    }
  }
}
