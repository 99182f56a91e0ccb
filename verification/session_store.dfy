/**
 * backend/models/SessionStore.go: a game's sessions as a map from session id to
 * session. The random id generator is a parameter: `freshId` is the id it returned.
 */
module SessionStoreOps {
  import opened Wrappers
  import opened ServerModels

  /** A new session as `CreateSession` builds it: score 0, the given name, and no id (the struct literal leaves `ID` unset). */
  function NewSession(name: string): PlayerSession {
    PlayerSession("", name, 0, 0, false)
  }

  /** `CreateSession(name)`: stores a new session under `freshId` and makes `freshId` the store's owner. */
  function CreateSession(store: SessionStore, name: string, freshId: string): (r: (SessionStore, string))
    ensures r.1 == freshId
    ensures r.0.owner == freshId
    ensures GetSession(r.0, freshId) == Some(PlayerSession("", name, 0, 0, false))
    ensures forall k :: k != freshId ==> GetSession(r.0, k) == GetSession(store, k)
    ensures r.0.sessions.Keys == store.sessions.Keys + {freshId}
  {
    (SessionStore(freshId, store.sessions[freshId := NewSession(name)]), freshId)
  }

  /** `GetSession(id)`: the session stored under `id`, if any. */
  function GetSession(store: SessionStore, sessionId: string): (r: Option<PlayerSession>)
    ensures r.Some? <==> sessionId in store.sessions
    ensures r.Some? ==> store.sessions[sessionId] == r.value
  {
    if sessionId in store.sessions then Some(store.sessions[sessionId]) else None
  }

  /** `DeleteSession(id)`: removes the session stored under `id`. */
  function DeleteSession(store: SessionStore, sessionId: string): (r: SessionStore)
    ensures GetSession(r, sessionId).None?
    ensures forall k :: k != sessionId ==> GetSession(r, k) == GetSession(store, k)
    ensures r.owner == store.owner
  {
    SessionStore(store.owner, store.sessions - {sessionId})
  }

  /** Deleting an id that is not stored changes nothing. */
  lemma DeleteAbsentIsNoOp(store: SessionStore, sessionId: string)
    requires sessionId !in store.sessions
    ensures DeleteSession(store, sessionId) == store
  {
  }

  /** With a fresh id, creating then deleting the session restores the sessions exactly. */
  lemma CreateThenDeleteRestores(store: SessionStore, name: string, freshId: string)
    requires freshId !in store.sessions
    ensures DeleteSession(CreateSession(store, name, freshId).0, freshId).sessions == store.sessions
  {
  }

  /** With a fresh id, creating a session adds exactly one. */
  lemma CreateAddsOne(store: SessionStore, name: string, freshId: string)
    requires freshId !in store.sessions
    ensures |CreateSession(store, name, freshId).0.sessions| == |store.sessions| + 1
  {
  }
}
