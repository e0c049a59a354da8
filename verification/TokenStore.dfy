/** The access token, held in memory and mirrored into browser storage (tokenStore.ts). */
module TokenStore {
  import opened Text

  /** Which storage operations work right now; each of them may throw in a private or full browser. */
  datatype Storage = Storage(read: bool, write: bool, remove: bool)

  /** An absent mirror entry and an empty one read the same: "". */
  datatype Store = Store(memory: string, mirror: string, storage: Storage)

  /** setTokens: nothing to set, a pair without an access token, or a pair with one. */
  datatype TokenPair = NoPair | EmptyPair | Pair(accessToken: string)

  function Clear(s: Store): Store {
    s.(memory := "", mirror := if s.storage.remove then "" else s.mirror)
  }

  function Persist(s: Store): Store {
    if s.storage.write then s.(mirror := s.memory) else s
  }

  function Set(s: Store, pair: TokenPair): Store {
    match pair
    case NoPair => Clear(s)
    case EmptyPair => Persist(s)
    case Pair(t) => Persist(s.(memory := t))
  }

  /** Reading falls back to the mirror, and keeps what it found. */
  function Recall(s: Store): Store {
    if s.memory == "" && s.storage.read then s.(memory := s.mirror) else s
  }

  function Token(s: Store): string {
    Recall(s).memory
  }

  lemma SetThenRead(s: Store, t: string)
    requires t != ""
    ensures Token(Set(s, Pair(t))) == t
    ensures Recall(Set(s, Pair(t))) == Set(s, Pair(t))
  {
  }

  /**
   * Clearing empties what later reads return exactly when the mirror entry went too, or was empty, or
   * cannot be read. Clearing the memory alone is not enough: the next read restores the old token.
   */
  lemma ClearThenRead(s: Store)
    ensures Token(Clear(s)) == "" <==> s.storage.remove || s.mirror == "" || !s.storage.read
    ensures Token(Clear(s)) != "" ==> Token(Clear(s)) == s.mirror
  {
  }

  /** A token that could not be persisted is forgotten by a reload; one that was is read back. */
  function Reload(s: Store): Store {
    s.(memory := "")
  }

  lemma SetThenReload(s: Store, t: string)
    requires t != "" && s.storage.read
    ensures Token(Reload(Set(s, Pair(t)))) == if s.storage.write then t else s.mirror
  {
  }

  class Tokens {
    var accessToken: string
    var mirror: string
    var storage: Storage

    function Abs(): Store
      reads this
    {
      Store(accessToken, mirror, storage)
    }

    constructor (storage: Storage)
      ensures Abs() == Store("", "", storage)
    {
      this.accessToken, this.mirror, this.storage := "", "", storage;
    }

    method SetTokens(pair: TokenPair)
      modifies this
      ensures Abs() == Set(old(Abs()), pair)
      ensures accessToken == match pair case NoPair => "" case EmptyPair => old(accessToken) case Pair(t) => t
      ensures mirror == if pair.NoPair? then (if storage.remove then "" else old(mirror))
                        else if storage.write then accessToken else old(mirror)
    {
      if pair.NoPair? {
        ClearTokens();
        return;
      }
      if pair.Pair? {
        accessToken := pair.accessToken;
      }
      if storage.write {
        mirror := accessToken;
      }
    }

    method GetAccessToken() returns (token: string)
      modifies this
      ensures Abs() == Recall(old(Abs())) && token == Token(old(Abs()))
      ensures token == accessToken && mirror == old(mirror)
      ensures accessToken == if old(accessToken) != "" then old(accessToken) else if storage.read then mirror else ""
    {
      if accessToken == "" {
        accessToken := if storage.read then mirror else "";
      }
      token := accessToken;
    }

    method ClearTokens()
      modifies this
      ensures Abs() == Clear(old(Abs()))
      ensures accessToken == "" && mirror == if storage.remove then "" else old(mirror)
    {
      accessToken := "";
      if storage.remove {
        mirror := "";
      }
    }

    /** The browser changes which storage operations work. */
    method StorageBecomes(now: Storage)
      modifies this
      ensures Abs() == old(Abs()).(storage := now)
    {
      storage := now;
    }
  }
}
