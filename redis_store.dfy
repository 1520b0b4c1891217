/** The Redis-compatible cache the lock talks to, reduced to the four commands the
    lock issues (`SET key value PX ttl NX`, `PEXPIRE`, `DEL`, `GET`) and the passing
    of time. The store is a map from key to value and remaining time to live; every
    command is atomic. A command either completes (`Delivered`) or its promise is
    rejected by the client (`Lost`), in which case the command may or may not have
    been executed by the server. */
module RedisStore {
  import opened Wrappers

  datatype Entry = Entry(value: string, ttlMs: int)

  type Entries = map<string, Entry>

  datatype Delivery = Delivered | Lost(applied: bool) {
    /** The server executed the command. */
    predicate Executed() { Delivered? || applied }
  }

  datatype StoreError = ConnectionError | InvalidExpireTime

  /** The store after a command and the client's view of its reply. */
  datatype Reply<R> = Reply(entries: Entries, result: Result<R, StoreError>)

  /** `SET key value PX ttlMs NX`: creates the key only if it is absent; a
      non-positive expiry is refused by the server. The reply says whether the key
      was created. */
  function SetIfAbsent(m: Entries, key: string, value: string, ttlMs: int, d: Delivery): (r: Reply<bool>)
    ensures key in m ==> r.entries == m
    ensures r.entries != m ==> d.Executed() && ttlMs > 0 && r.entries == m[key := Entry(value, ttlMs)]
    ensures r.result == Success(true) <==> d.Delivered? && ttlMs > 0 && key !in m
    ensures r.result.Failure? <==> d.Lost? || ttlMs <= 0
    ensures d.Executed() && ttlMs > 0 && key !in m ==> r.entries == m[key := Entry(value, ttlMs)]
  {
    var created := ttlMs > 0 && key !in m;
    var after := if d.Executed() && created then m[key := Entry(value, ttlMs)] else m;
    if d.Lost? then Reply(after, Failure(ConnectionError))
    else if ttlMs <= 0 then Reply(after, Failure(InvalidExpireTime))
    else Reply(after, Success(created))
  }

  /** `PEXPIRE key ms`: resets the remaining time of an existing key; a non-positive
      time deletes the key. The reply says whether the key existed. */
  function ResetExpiry(m: Entries, key: string, ms: int, d: Delivery): (r: Reply<bool>)
    ensures r.entries.Keys <= m.Keys
    ensures key !in m || !d.Executed() ==> r.entries == m
    ensures key in m && d.Executed() && ms > 0 ==>
              r.entries == m[key := Entry(m[key].value, ms)]
    ensures key in m && d.Executed() && ms <= 0 ==> r.entries == m - {key}
    ensures r.result.Success? <==> d.Delivered?
  {
    var after :=
      if !d.Executed() || key !in m then m
      else if ms > 0 then m[key := Entry(m[key].value, ms)]
      else m - {key};
    if d.Lost? then Reply(after, Failure(ConnectionError)) else Reply(after, Success(key in m))
  }

  /** `DEL key`. */
  function Delete(m: Entries, key: string, d: Delivery): (r: Reply<bool>)
    ensures d.Executed() ==> key !in r.entries && r.entries == m - {key}
    ensures !d.Executed() ==> r.entries == m
    ensures r.result.Success? <==> d.Delivered?
  {
    var after := if d.Executed() then m - {key} else m;
    if d.Lost? then Reply(after, Failure(ConnectionError)) else Reply(after, Success(key in m))
  }

  /** `GET key`: the stored value, or `null` for a missing key. */
  function Lookup(m: Entries, key: string, d: Delivery): (r: Result<Option<string>, StoreError>)
    ensures r.Success? <==> d.Delivered?
    ensures r.Success? ==> (r.value.Some? <==> key in m)
    ensures r.Success? && key in m ==> r.value.value == m[key].value
  {
    if d.Lost? then Failure(ConnectionError)
    else if key in m then Success(Some(m[key].value))
    else Success(None)
  }

  /** `elapsedMs` milliseconds pass: keys whose remaining time runs out disappear. */
  function Elapse(m: Entries, elapsedMs: nat): (m': Entries)
    ensures forall k :: k in m' <==> k in m && m[k].ttlMs > elapsedMs
    ensures forall k :: k in m' ==> m'[k] == Entry(m[k].value, m[k].ttlMs - elapsedMs)
  {
    map k | k in m && m[k].ttlMs > elapsedMs :: Entry(m[k].value, m[k].ttlMs - elapsedMs)
  }

  /** Waiting in two stretches is waiting for their sum. */
  lemma ElapseAdditive(m: Entries, first: nat, second: nat)
    ensures Elapse(Elapse(m, first), second) == Elapse(m, first + second)
  {
    var lhs := Elapse(Elapse(m, first), second);
    var rhs := Elapse(m, first + second);
    assert lhs.Keys == rhs.Keys;
    forall k | k in lhs ensures lhs[k] == rhs[k] {
    }
  }

  /** The server: one map, shared by every client that holds the connection. */
  class Store {
    var entries: Entries

    constructor ()
      ensures entries == map[]
    {
      entries := map[];
    }

    method SetNxPx(key: string, value: string, ttlMs: int, d: Delivery) returns (r: Result<bool, StoreError>)
      modifies this
      ensures var reply := SetIfAbsent(old(entries), key, value, ttlMs, d);
              entries == reply.entries && r == reply.result
    {
      var reply := SetIfAbsent(entries, key, value, ttlMs, d);
      entries := reply.entries;
      r := reply.result;
    }

    method PExpire(key: string, ms: int, d: Delivery) returns (r: Result<bool, StoreError>)
      modifies this
      ensures var reply := ResetExpiry(old(entries), key, ms, d);
              entries == reply.entries && r == reply.result
    {
      var reply := ResetExpiry(entries, key, ms, d);
      entries := reply.entries;
      r := reply.result;
    }

    method Del(key: string, d: Delivery) returns (r: Result<bool, StoreError>)
      modifies this
      ensures var reply := Delete(old(entries), key, d);
              entries == reply.entries && r == reply.result
    {
      var reply := Delete(entries, key, d);
      entries := reply.entries;
      r := reply.result;
    }

    method Get(key: string, d: Delivery) returns (r: Result<Option<string>, StoreError>)
      ensures r == Lookup(entries, key, d)
    {
      r := Lookup(entries, key, d);
    }

    method Tick(elapsedMs: nat)
      modifies this
      ensures entries == Elapse(old(entries), elapsedMs)
    {
      entries := Elapse(entries, elapsedMs);
    }
  }
}
