/** The session registries of `hyo-server/src/session.rs` (`SessionManager`)
    and `hyo-server/src/session/server.rs` (`SessionServer`). Both keep their
    sessions in a map keyed by session id, list the public ones, and draw random
    ids until one is unused. The two types carry the same code; it is defined
    here once and `SessionServer` (module `Server`) uses it too. */
module Sessions {
  import opened Common

  /** `SessionSettings`. `max_players` is a `usize`. */
  datatype SessionSettings = SessionSettings(public: bool, maxPlayers: nat)

  /** `Session`. */
  datatype Session = Session(id: Uuid, gameId: string, settings: SessionSettings)

  /** `iter_public_sessions`: the stored sessions whose settings make them
      public. The map's iteration order is unspecified, so the result is a set. */
  function PublicSessions(sessions: map<Uuid, Session>): (r: set<Session>)
    ensures forall s :: s in r <==> s in sessions.Values && s.settings.public
    ensures forall id :: id in sessions && sessions[id].settings.public ==> sessions[id] in r
  {
    set id | id in sessions && sessions[id].settings.public :: sessions[id]
  }

  /** The retry loop of `new_session_id`: takes ids from `draws`, standing for successive
      `Uuid::new_v4()` calls, until one is not a key of `sessions`, and returns
      it. The random source is assumed to produce an unused id eventually. */
  method FreshSessionId(sessions: map<Uuid, Session>, draws: seq<Uuid>) returns (id: Uuid)
    requires exists i :: 0 <= i < |draws| && draws[i] !in sessions
    ensures id !in sessions
    ensures exists i :: 0 <= i < |draws| && draws[i] == id &&
              forall j :: 0 <= j < i ==> draws[j] in sessions
  {
    var i := 0;
    while draws[i] in sessions
      invariant 0 <= i < |draws|
      invariant forall j :: 0 <= j < i ==> draws[j] in sessions
      invariant exists k :: i <= k < |draws| && draws[k] !in sessions
      decreases |draws| - i
    {
      i := i + 1;
    }
    id := draws[i];
  }

  /** `SessionManager`. */
  class SessionManager {
    var sessions: map<Uuid, Session>

    /** `SessionManager::default()`. */
    constructor Default()
      ensures sessions == map[]
    {
      sessions := map[];
    }

    /** `SessionManager::iter_public_sessions`. */
    function IterPublicSessions(): (r: set<Session>)
      reads this
      ensures r == PublicSessions(sessions)
      ensures forall s :: s in r <==> s in sessions.Values && s.settings.public
    {
      PublicSessions(sessions)
    }

    /** `SessionManager::new_session_id`: an id not yet in use; the sessions are
        not changed. */
    method NewSessionId(draws: seq<Uuid>) returns (id: Uuid)
      requires exists i :: 0 <= i < |draws| && draws[i] !in sessions
      ensures id !in sessions
      ensures exists i :: 0 <= i < |draws| && draws[i] == id &&
                forall j :: 0 <= j < i ==> draws[j] in sessions
    {
      id := FreshSessionId(sessions, draws);
    }
  }
}
