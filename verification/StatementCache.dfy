/** The statement cache with expiry and deletion on read: cache.py. */
module StatementCache {
  import opened Wrappers
  import opened Statements

  /** What is stored: a dictionary (a verified statement and its own token), a token, or an expiry time. Only
      dictionaries expire on read. */
  datatype Cached = Dictionary(statement: Jws) | Token(token: Jws) | Time(exp: int)

  type Db = map<string, Cached>

  /** A dictionary without `exp`: looking for it raises. */
  predicate Undated(v: Cached) {
    v.Dictionary? && v.statement.Jws? && v.statement.payload.exp.None?
  }

  /** `now < statement["exp"] - allowed_delta`, for a dictionary. */
  predicate Recent(v: Cached, now: int, delta: int) {
    v.Dictionary? && v.statement.Jws? ==> v.statement.payload.exp.Some? && now < v.statement.payload.exp.value - delta
  }

  /** `__getitem__`: what is returned, and what is left in the cache. */
  function Read(db: Db, item: string, now: int, delta: int): (Result<Option<Cached>>, Db) {
    if item !in db then (Ok(None), db)
    else if Undated(db[item]) then (Failure, db)
    else if Recent(db[item], now, delta) then (Ok(Some(db[item])), db)
    else (Ok(None), db - {item})
  }

  class ESCache {
    var db: Db
    const allowedDelta: int

    constructor (allowedDelta: int)
      ensures db == map[] && this.allowedDelta == allowedDelta
    {
      db, this.allowedDelta := map[], allowedDelta;
    }

    method SetItem(key: string, value: Cached)
      modifies this
      ensures db == old(db)[key := value]
    {
      db := db[key := value];
    }

    method GetItem(item: string, now: int) returns (r: Result<Option<Cached>>)
      modifies this
      ensures (r, db) == Read(old(db), item, now, allowedDelta)
    {
      if item !in db {
        return Ok(None);
      }
      var statement := db[item];
      if Undated(statement) {
        return Failure;
      }
      if !Recent(statement, now, allowedDelta) {
        db := db - {item};
        return Ok(None);
      }
      r := Ok(Some(statement));
    }

    /** `__delitem__`: a KeyError if the key is not there. */
    method DelItem(key: string) returns (ok: bool)
      modifies this
      ensures ok <==> key in old(db)
      ensures db == old(db) - {key}
    {
      ok := key in db;
      db := db - {key};
    }

    /** `get`: no expiry check. */
    function Get(key: string): Option<Cached>
      reads this
    {
      Lookup(db, key)
    }
  }

  // ---- Traces ----

  datatype Action = Write(value: Cached) | Index | Delete

  datatype Event = Event(time: int, key: string, action: Action)

  /** The cache after an event. */
  function After(db: Db, e: Event, delta: int): Db {
    match e.action
    case Write(v) => db[e.key := v]
    case Index => Read(db, e.key, e.time, delta).1
    case Delete => db - {e.key}
  }

  function Replay(db: Db, trace: seq<Event>, delta: int): Db {
    if trace == [] then db else After(Replay(db, trace[..|trace| - 1], delta), trace[|trace| - 1], delta)
  }

  /** An independent account: the value last written to the key, unless it was deleted since. Reads play no part. */
  function LastWritten(trace: seq<Event>, key: string): Option<Cached> {
    if trace == [] then
      None
    else
      var e := trace[|trace| - 1];
      if e.key == key && e.action.Write? then Some(e.action.value)
      else if e.key == key && e.action.Delete? then None
      else LastWritten(trace[..|trace| - 1], key)
  }

  ghost predicate InOrder(trace: seq<Event>, now: int) {
    (forall i, j :: 0 <= i < j < |trace| ==> trace[i].time <= trace[j].time) &&
    (forall i :: 0 <= i < |trace| ==> trace[i].time <= now)
  }

  lemma {:induction false} ReplayTracks(trace: seq<Event>, now: int, delta: int, key: string)
    requires InOrder(trace, now)
    ensures var held := Lookup(Replay(map[], trace, delta), key); var last := LastWritten(trace, key);
            held == last || (held.None? && last.Some? && !Undated(last.value) && !Recent(last.value, now, delta))
  {
    if trace != [] {
      var front, e := trace[..|trace| - 1], trace[|trace| - 1];
      assert InOrder(front, e.time);
      ReplayTracks(front, e.time, delta, key);
    }
  }

  /** At non-decreasing times, after any sequence of writes, reads and deletions, a read returns the last value
      written to the key, if it is not a dictionary or still recent, and nothing otherwise; on a dictionary without
      expiry time it raises. Deleting on read is invisible. */
  lemma ReadsAreLastWrites(trace: seq<Event>, now: int, delta: int, key: string)
    requires InOrder(trace, now)
    ensures var last := LastWritten(trace, key);
            Read(Replay(map[], trace, delta), key, now, delta).0 ==
            match last
            case Some(Dictionary(Jws(payload, _))) =>
              (match payload.exp
               case None => Failure
               case Some(exp) => if now < exp - delta then Ok(last) else Ok(None))
            case _ => Ok(last)
  {
    ReplayTracks(trace, now, delta, key);
  }

  predicate WritesNot(trace: seq<Event>, key: string) {
    forall i :: 0 <= i < |trace| && trace[i].key == key ==> !trace[i].action.Write?
  }

  lemma {:induction false} LastWrittenUnchanged(trace: seq<Event>, later: seq<Event>, key: string)
    requires WritesNot(later, key)
    ensures LastWritten(trace + later, key) in {LastWritten(trace, key), None}
  {
    if later == [] {
      assert trace + later == trace;
    } else {
      var front, e := later[..|later| - 1], later[|later| - 1];
      assert (trace + later)[..|trace + later| - 1] == trace + front;
      LastWrittenUnchanged(trace, front, key);
    }
  }

  /** Once a read has found nothing, every later read finds nothing until the key is written again. */
  lemma NothingPersists(trace: seq<Event>, now: int, later: seq<Event>, then_: int, delta: int, key: string)
    requires InOrder(trace, now) && InOrder(trace + later, then_) && now <= then_ && WritesNot(later, key)
    requires Read(Replay(map[], trace, delta), key, now, delta).0 == Ok(None)
    ensures Read(Replay(map[], trace + later, delta), key, then_, delta).0 == Ok(None)
  {
    ReadsAreLastWrites(trace, now, delta, key);
    ReadsAreLastWrites(trace + later, then_, delta, key);
    LastWrittenUnchanged(trace, later, key);
  }
}
