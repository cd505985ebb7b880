// The part of Redis the Python services use: hashes of string fields,
// plain string keys, and the time to live set on a key. A hash keeps its
// fields in insertion order (its small encoding), which is the order
// `HGETALL` returns them in.
module RedisModel {
  import opened Common
  import opened Assoc

  type Hash = seq<(string, string)>

  datatype Store = Store(hashes: map<string, Hash>, strings: map<string, string>, ttls: map<string, int>)

  predicate Exists(db: Store, key: string)
  {
    key in db.hashes || key in db.strings
  }

  /** `HGETALL`: the fields of a hash, none for a missing key. */
  function HashOf(db: Store, key: string): Hash
  {
    if key in db.hashes then db.hashes[key] else []
  }

  /** `HSET key field value`; the time to live is left as it was. */
  function HSetOp(db: Store, key: string, field: string, value: string): (r: Store)
    ensures HashOf(r, key) == Put(HashOf(db, key), field, value)
    ensures r.strings == db.strings && r.ttls == db.ttls
    ensures forall k :: k != key ==> HashOf(r, k) == HashOf(db, k)
  {
    db.(hashes := db.hashes[key := Put(HashOf(db, key), field, value)])
  }

  /** `DEL key`: the key goes, whatever it holds, with its time to live. */
  function DeleteOp(db: Store, key: string): (r: Store)
    ensures !Exists(r, key) && key !in r.ttls
    ensures forall k :: k != key ==> HashOf(r, k) == HashOf(db, k)
  {
    Store(db.hashes - {key}, db.strings - {key}, db.ttls - {key})
  }

  /** `HDEL key field`; a hash left without fields no longer exists. */
  function HDelOp(db: Store, key: string, field: string): (r: Store)
    ensures HashOf(r, key) == Remove(HashOf(db, key), field)
    ensures forall k :: k != key ==> HashOf(r, k) == HashOf(db, k)
  {
    var h := Remove(HashOf(db, key), field);
    if h == [] then DeleteOp(db, key) else db.(hashes := db.hashes[key := h])
  }

  /** `EXPIRE key seconds`: no effect on a missing key; a timeout that is not positive deletes the key. */
  function ExpireOp(db: Store, key: string, seconds: int): (r: Store)
    ensures !Exists(db, key) ==> r == db
    ensures Exists(db, key) && seconds <= 0 ==> r == DeleteOp(db, key)
    ensures Exists(db, key) && seconds > 0 ==> r == db.(ttls := db.ttls[key := seconds])
  {
    if !Exists(db, key) then db
    else if seconds <= 0 then DeleteOp(db, key)
    else db.(ttls := db.ttls[key := seconds])
  }

  /** `SET key value`: overwrites whatever the key held and clears its time to live. */
  function SetOp(db: Store, key: string, value: string): (r: Store)
    ensures r.strings == db.strings[key := value] && key !in r.hashes && key !in r.ttls
  {
    Store(db.hashes - {key}, db.strings[key := value], db.ttls - {key})
  }

  /** `GET key`, for a key holding a string. */
  function GetOp(db: Store, key: string): Option<string>
  {
    if key in db.strings then Some(db.strings[key]) else None
  }

  /** A connection to one Redis database. */
  class RedisClient {
    var db: Store

    constructor (db0: Store)
      ensures db == db0
    {
      db := db0;
    }

    function HGetAll(key: string): Hash
      reads this
    {
      HashOf(db, key)
    }

    function HGet(key: string, field: string): Option<string>
      reads this
    {
      Assoc.Get(HashOf(db, key), field)
    }

    function HExists(key: string, field: string): bool
      reads this
    {
      Find(HashOf(db, key), field).Some?
    }

    function Get(key: string): Option<string>
      reads this
    {
      GetOp(db, key)
    }

    method HSet(key: string, field: string, value: string)
      modifies this
      ensures db == HSetOp(old(db), key, field, value)
    {
      db := HSetOp(db, key, field, value);
    }

    method HDel(key: string, field: string)
      modifies this
      ensures db == HDelOp(old(db), key, field)
    {
      db := HDelOp(db, key, field);
    }

    method Expire(key: string, seconds: int)
      modifies this
      ensures db == ExpireOp(old(db), key, seconds)
    {
      db := ExpireOp(db, key, seconds);
    }

    method Delete(key: string)
      modifies this
      ensures db == DeleteOp(old(db), key)
    {
      db := DeleteOp(db, key);
    }

    /** The client wrapper's `set`: `SET` followed by `EXPIRE`. */
    method Set(key: string, value: string, expire: int)
      modifies this
      ensures db == ExpireOp(SetOp(old(db), key, value), key, expire)
    {
      db := SetOp(db, key, value);
      db := ExpireOp(db, key, expire);
    }
  }
}
