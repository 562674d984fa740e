/**
 * The part of a Redis server goreth relies on: a keyspace of hashes with a
 * per-key expiry, and the commands HSETNX, EXPIRE, EXISTS, HINCRBY, HMGET and
 * DEL, each one atomic step on the keyspace.
 */
module Redis {
  import opened Options
  import opened Decimal

  /** The fields of one hash key: field name to value. */
  type Hash = map<string, string>

  /** A snapshot of the keyspace: the hash held by each key, and the expiry,
      in seconds, that EXPIRE recorded for some of the keys. */
  datatype Db = Db(data: map<string, Hash>, ttl: map<string, int>)

  /** Redis keeps no empty hash (a hash without fields is no key at all), and
      an expiry belongs to a key that exists and is positive (EXPIRE with a
      non-positive time deletes the key instead). */
  ghost predicate Wf(db: Db) {
    (forall k :: k in db.data ==> db.data[k] != map[]) &&
    (forall k :: k in db.ttl ==> k in db.data && db.ttl[k] >= 1)
  }

  /** The hash at key; a missing key reads as the empty hash. */
  function Fields(db: Db, key: string): Hash {
    if key in db.data then db.data[key] else map[]
  }

  /** One field of the hash at key, if present. */
  function Lookup(db: Db, key: string, field: string): Option<string> {
    if field in Fields(db, key) then Some(Fields(db, key)[field]) else None
  }

  /** The integer HINCRBY finds in a field: 0 when the field is absent, None
      when its text is not an integer. */
  function IntegerAt(db: Db, key: string, field: string): Option<int> {
    match Lookup(db, key, field)
    case None => Some(0)
    case Some(s) => RedisInteger(s)
  }

  /** The keyspace of the server behind the client handle. */
  class Keyspace {
    var data: map<string, Hash>
    var ttl: map<string, int>

    function Snapshot(): Db
      reads this
    {
      Db(data, ttl)
    }

    ghost predicate Valid()
      reads this
    {
      Wf(Snapshot())
    }

    /** An empty database. */
    constructor ()
      ensures Valid() && data == map[] && ttl == map[]
    {
      data := map[];
      ttl := map[];
    }

    /** HSETNX key field value: sets the field only when the hash has no such
        field, creating the key when it is missing; reports whether it did. */
    method HSetNX(key: string, field: string, value: string) returns (isSet: bool)
      requires Valid()
      modifies this
      ensures Valid()
      ensures isSet <==> Lookup(old(Snapshot()), key, field).None?
      ensures data == if isSet then old(data)[key := Fields(old(Snapshot()), key)[field := value]]
                      else old(data)
      ensures ttl == old(ttl)
    {
      isSet := Lookup(Snapshot(), key, field).None?;
      if isSet {
        data := data[key := Fields(Snapshot(), key)[field := value]];
      }
    }

    /** EXPIRE key seconds: on a missing key does nothing and reports it; a
        positive time replaces the key's expiry, any other deletes the key. */
    method Expire(key: string, seconds: int) returns (applied: bool)
      requires Valid()
      modifies this
      ensures Valid()
      ensures applied <==> key in old(data)
      ensures !applied ==> data == old(data) && ttl == old(ttl)
      ensures applied && seconds < 1 ==> data == old(data) - {key} && ttl == old(ttl) - {key}
      ensures applied && seconds >= 1 ==> data == old(data) && ttl == old(ttl)[key := seconds]
    {
      applied := key in data;
      if applied {
        if seconds < 1 {
          data, ttl := data - {key}, ttl - {key};
        } else {
          ttl := ttl[key := seconds];
        }
      }
    }

    /** EXISTS key: 1 when the key is present, else 0. */
    method Exists(key: string) returns (n: int)
      ensures n == if key in data then 1 else 0
    {
      n := if key in data then 1 else 0;
    }

    /** HINCRBY key field increment: adds to the integer in the field (an
        absent field counting as 0, an absent key as an empty hash, so the key
        is created), stores the sum's rendering and returns the sum. A field
        that is not an integer gives an error reply (None) and changes
        nothing. */
    method HIncrBy(key: string, field: string, increment: int) returns (reply: Option<int>)
      requires Valid()
      modifies this
      ensures Valid()
      ensures reply == match IntegerAt(old(Snapshot()), key, field)
                       case None => None
                       case Some(n) => Some(n + increment)
      ensures reply.Some? ==> data == old(data)[key := Fields(old(Snapshot()), key)[field := Itoa(reply.value)]]
      ensures reply.None? ==> data == old(data)
      ensures ttl == old(ttl)
    {
      match IntegerAt(Snapshot(), key, field)
      case None =>
        reply := None;
      case Some(n) =>
        reply := Some(n + increment);
        data := data[key := Fields(Snapshot(), key)[field := Itoa(n + increment)]];
    }

    /** HMGET key field...: the value of each requested field, None for each
        field the hash lacks; a missing key reads as an empty hash. */
    method HMGet(key: string, fields: seq<string>) returns (values: seq<Option<string>>)
      ensures |values| == |fields|
      ensures forall i :: 0 <= i < |fields| ==> values[i] == Lookup(Snapshot(), key, fields[i])
    {
      var h := Fields(Snapshot(), key);
      values := [];
      for i := 0 to |fields|
        invariant |values| == i
        invariant forall j :: 0 <= j < i ==> values[j] == Lookup(Snapshot(), key, fields[j])
      {
        values := values + [if fields[i] in h then Some(h[fields[i]]) else None];
      }
    }

    /** DEL key: removes the key with all its fields and its expiry; returns
        how many keys it removed. */
    method Del(key: string) returns (removed: int)
      requires Valid()
      modifies this
      ensures Valid()
      ensures removed == if key in old(data) then 1 else 0
      ensures data == old(data) - {key} && ttl == old(ttl) - {key}
    {
      removed := if key in data then 1 else 0;
      data, ttl := data - {key}, ttl - {key};
    }
  }
}
