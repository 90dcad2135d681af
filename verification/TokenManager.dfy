/**
 * The client's token manager: what it holds in memory and in its file, its lock, and its
 * behaviour over any interleaving of calls, failing file operations and restarts.
 */
module TokenManager {
  import opened Common

  const DEFAULT_ACCESS_TTL: Time := 900 * SECOND
  /** The zero time.Time, 1 January of year 1. */
  const ZERO_TIME: Time := -62_135_596_800 * SECOND

  datatype Memory = Memory(accessToken: Id, refreshToken: Id, expiresAt: Time)

  const EMPTY := Memory("", "", ZERO_TIME)

  /**
   * The file's JSON object, with its expiry in whole seconds if it has one that can be parsed, or bytes that are no
   * such object.
   */
  datatype File = Stored(accessToken: Id, refreshToken: Id, expiresAt: Option<int>) | Garbled

  /** time.RFC3339 has no fraction of a second (section 5.6 of RFC 3339 makes it optional). */
  function Format(t: Time): int {
    t / SECOND
  }

  function Parse(seconds: int): Time {
    seconds * SECOND
  }

  function ToFile(m: Memory): File {
    Stored(m.accessToken, m.refreshToken, Some(Format(m.expiresAt)))
  }

  /** The expiry a load of the file leaves in a new manager. */
  function ExpiryOf(expires: Option<int>): Time {
    match expires case Some(seconds) => Parse(seconds) case None => ZERO_TIME
  }

  /** A new manager that has loaded the file; a missing or unreadable one leaves it empty. */
  function FromFile(file: Option<File>): Memory {
    match file
    case Some(Stored(access, refresh, expires)) => Memory(access, refresh, ExpiryOf(expires))
    case _ => EMPTY
  }

  predicate Accepts(m: Memory, now: Time) {
    m.accessToken != "" && !(now > m.expiresAt)
  }

  /** How a write of the file comes out: done, not begun, or cut short. */
  datatype Write = Written | Untouched | CutShort

  function Saved(file: Option<File>, m: Memory, write: Write): Option<File> {
    match write
    case Written => Some(ToFile(m))
    case Untouched => file
    case CutShort => Some(Garbled)
  }

  // ----- The program, one call at a time -----

  class Storage {
    var file: Option<File>

    constructor (file: Option<File>)
      ensures this.file == file
    {
      this.file := file;
    }
  }

  /** sync.RWMutex as its only user sees it: a lock that is not granted is waited for, and nobody will release it. */
  class RWMutex {
    var writer: bool
    var readers: nat

    constructor ()
      ensures Free()
    {
      writer, readers := false, 0;
    }

    predicate Free()
      reads this
    {
      !writer && readers == 0
    }

    method Lock() returns (granted: bool)
      modifies this
      ensures granted == (!old(writer) && old(readers) == 0)
      ensures writer == (old(writer) || granted) && readers == old(readers)
    {
      granted := !writer && readers == 0;
      writer := writer || granted;
    }

    /** An Unlock, if the call gets that far. */
    method Unlock(reached: bool)
      requires reached ==> writer
      modifies this
      ensures writer == (old(writer) && !reached) && readers == old(readers)
    {
      writer := writer && !reached;
    }

    method RLock() returns (granted: bool)
      modifies this
      ensures granted == !old(writer)
      ensures writer == old(writer) && readers == old(readers) + if granted then 1 else 0
    {
      granted := !writer;
      if granted {
        readers := readers + 1;
      }
    }

    method RUnlock()
      requires readers > 0
      modifies this
      ensures writer == old(writer) && readers == old(readers) - 1
    {
      readers := readers - 1;
    }
  }

  /** Stuck is the call that waits for a lock it holds itself. */
  datatype Refreshed = NewToken(token: Id) | NotSupported | RpcError | Stuck

  /** What Login and Register do, nothing else running: `response` is the access token in the service's answer. */
  function LoginAlone(
    m: Memory, file: Option<File>, response: Option<Id>, now: Time, write: Write): (Memory, Option<File>)
  {
    if response.None? then (m, file)
    else
      var m' := Memory(response.value, "", now + DEFAULT_ACCESS_TTL);
      (m', Saved(file, m', write))
  }

  function LogoutAlone(file: Option<File>, removed: bool): (Memory, Option<File>) {
    (EMPTY, if removed then None else file)
  }

  /** The new memory and how the call ends; the file stays as it is. */
  function RefreshAlone(m: Memory, response: Option<Id>, now: Time): (Memory, Refreshed) {
    if m.refreshToken == "" then (m, NotSupported)
    else if response.None? then (m, RpcError)
    else (m.(accessToken := response.value, expiresAt := now + DEFAULT_ACCESS_TTL), Stuck)
  }

  class TokenManager {
    const storage: Storage
    const mu: RWMutex
    var accessToken: Id
    var refreshToken: Id
    var expiresAt: Time

    function Contents(): Memory
      reads this
    {
      Memory(accessToken, refreshToken, expiresAt)
    }

    constructor (storage: Storage)
      ensures this.storage == storage && fresh(mu) && mu.Free() && Contents() == FromFile(storage.file)
      ensures storage.file == old(storage.file)
    {
      this.storage := storage;
      mu := new RWMutex();
      accessToken, refreshToken, expiresAt := "", "", ZERO_TIME;
      new;
      LoadFromDisk();
    }

    method LoadFromDisk()
      requires mu.Free() && Contents() == EMPTY
      modifies this, mu
      ensures mu.Free() && Contents() == FromFile(storage.file)
    {
      match storage.file {
        case Some(Stored(access, refresh, expires)) =>
          var _ := mu.Lock();
          accessToken := access;
          refreshToken := refresh;
          if expires.Some? {
            expiresAt := Parse(expires.value);
          }
          mu.Unlock(true);
        case _ =>
      }
    }

    /** Waits for ever for the read lock if the write lock is held. */
    method SaveToDisk(write: Write) returns (stuck: bool)
      modifies storage, mu
      ensures stuck == old(mu.writer) && mu.writer == old(mu.writer) && mu.readers == old(mu.readers)
      ensures storage.file == if stuck then old(storage.file) else Saved(old(storage.file), Contents(), write)
    {
      var granted := mu.RLock();
      if !granted {
        return true;
      }
      match write {
        case Written => storage.file := Some(Stored(accessToken, refreshToken, Some(Format(expiresAt))));
        case Untouched =>
        case CutShort => storage.file := Some(Garbled);
      }
      mu.RUnlock();
      return false;
    }

    /** Login and Register. */
    method Login(response: Option<Id>, now: Time, write: Write) returns (ok: bool)
      requires mu.Free()
      modifies this, storage, mu
      ensures mu.Free() && ok == response.Some?
      ensures (Contents(), storage.file) == LoginAlone(old(Contents()), old(storage.file), response, now, write)
    {
      if response.None? {
        return false;
      }
      var _ := mu.Lock();
      accessToken := response.value;
      refreshToken := "";
      expiresAt := now + DEFAULT_ACCESS_TTL;
      mu.Unlock(true);
      var _ := SaveToDisk(write);
      return true;
    }

    method GetAccessToken(now: Time) returns (token: Option<Id>)
      requires mu.Free()
      modifies mu
      ensures mu.Free() && token == if Accepts(Contents(), now) then Some(accessToken) else None
    {
      var _ := mu.RLock();
      token := if accessToken == "" || now > expiresAt then None else Some(accessToken);
      mu.RUnlock();
    }

    /** The deferred Unlock is not reached by a call that is stuck. */
    method RefreshToken(response: Option<Id>, now: Time, write: Write) returns (result: Refreshed)
      requires mu.Free()
      modifies this, storage, mu
      ensures (Contents(), result) == RefreshAlone(old(Contents()), response, now)
      ensures storage.file == old(storage.file) && mu.writer == result.Stuck? && mu.readers == 0
    {
      var _ := mu.Lock();
      if refreshToken == "" {
        mu.Unlock(true);
        return NotSupported;
      }
      if response.None? {
        mu.Unlock(true);
        return RpcError;
      }
      accessToken := response.value;
      expiresAt := now + DEFAULT_ACCESS_TTL;
      var stuck := SaveToDisk(write);
      result := if stuck then Stuck else NewToken(accessToken);
      mu.Unlock(!stuck);
    }

    /** `removed` is whether the file could be removed; a failure is ignored. */
    method Logout(removed: bool)
      requires mu.Free()
      modifies this, storage, mu
      ensures mu.Free() && (Contents(), storage.file) == LogoutAlone(old(storage.file), removed)
    {
      var _ := mu.Lock();
      accessToken := "";
      refreshToken := "";
      expiresAt := ZERO_TIME;
      if removed {
        storage.file := None;
      }
      mu.Unlock(true);
    }
  }

  // ----- Restarts -----

  /** The manager after `n` restarts, each of which loads what the one before has saved. */
  function Restarted(m: Memory, n: nat): Memory {
    if n == 0 then m else FromFile(Some(ToFile(Restarted(m, n - 1))))
  }

  /**
   * Any chain of restarts keeps both tokens and floors the expiry to a whole second, once: it
   * takes less than a second off the lifetime in all, and a token accepted after it would have
   * been accepted without it.
   */
  lemma {:induction false} RestartsFloorOnce(m: Memory, n: nat)
    ensures var r := Restarted(m, n);
      && r.accessToken == m.accessToken && r.refreshToken == m.refreshToken
      && (n >= 1 ==> r.expiresAt % SECOND == 0)
      && m.expiresAt - SECOND < r.expiresAt <= m.expiresAt
      && (n >= 1 ==> r == Restarted(m, 1))
      && (forall now :: Accepts(r, now) ==> Accepts(m, now))
      && (forall now :: Accepts(m, now) && now <= m.expiresAt - SECOND ==> Accepts(r, now))
  {
    if n >= 2 {
      RestartsFloorOnce(m, n - 1);
      FloorIsIdempotent(Restarted(m, n - 1).expiresAt);
    }
  }

  lemma FloorIsIdempotent(t: Time)
    requires t % SECOND == 0
    ensures Parse(Format(t)) == t
  {
  }

  // ----- What a login leaves -----

  /** A token obtained is accepted for exactly 15 minutes, and there is no refresh token. */
  lemma LoginLasts(m: Memory, file: Option<File>, token: Id, now: Time, write: Write, at: Time)
    ensures var (m', file') := LoginAlone(m, file, Some(token), now, write);
      && m'.accessToken == token && m'.refreshToken == ""
      && (Accepts(m', at) <==> token != "" && at <= now + 900_000_000_000)
  {
  }

  /** What the next start makes of what is written: the same token, to the whole second. */
  lemma SavedLoginLasts(m: Memory, file: Option<File>, token: Id, now: Time, at: Time)
    ensures var next := FromFile(LoginAlone(m, file, Some(token), now, Written).1);
      && next.accessToken == token && next.refreshToken == ""
      && (Accepts(next, at) <==> token != "" && at <= (now + 900_000_000_000) / 1_000_000_000 * 1_000_000_000)
  {
  }

  /** A token whose file has no readable expiry is not accepted after the first instant of year 1. */
  lemma NoExpiryNoToken(access: Id, refresh: Id, at: Time)
    ensures var m := FromFile(Some(Stored(access, refresh, None)));
      && m.accessToken == access && m.refreshToken == refresh
      && (at > -62_135_596_800_000_000_000 ==> !Accepts(m, at))
  {
  }
}
