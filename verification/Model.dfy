/** What the store means to its callers: for every hash in use the records that share it,
    newest first, and the effect of every operation on them. */
module StoreModel {
  import opened Layout
  import opened VolumeManager
  import opened TrieShape

  type Model = map<Hash, seq<KV>>

  function Group(m: Model, h: Hash): seq<KV> {
    if h in m then m[h] else []
  }

  /** The keys of all records. */
  ghost function StoredKeys(m: Model): set<Bytes> {
    set h, i | h in m && 0 <= i < |m[h]| :: m[h][i].key
  }

  /** First position of a key; |kvs| when absent. */
  function Position(kvs: seq<KV>, key: Bytes): (i: nat)
    ensures i <= |kvs|
    ensures i < |kvs| ==> kvs[i].key == key
    ensures forall j :: 0 <= j < i ==> kvs[j].key != key
  {
    if kvs == [] then 0 else if kvs[0].key == key then 0 else 1 + Position(kvs[1..], key)
  }

  /** A lookup stops after eight DataEx blocks and one Data block. */
  predicate Reached(n: nat, i: nat) {
    i < n && (i < HASH_COLLISION_MAX || n <= HASH_COLLISION_MAX + 1)
  }

  /** What lookup answers for a key of a group. */
  function Answer(kvs: seq<KV>, key: Bytes): Status {
    if Reached(|kvs|, Position(kvs, key)) then OK
    else if |kvs| > HASH_COLLISION_MAX + 1 then DataError
    else NotFound
  }

  function SpecGet(m: Model, h: Hash, key: Bytes): (Status, Bytes) {
    var kvs := Group(m, h);
    if Answer(kvs, key) == OK then (OK, kvs[Position(kvs, key)].value) else (Answer(kvs, key), [])
  }

  /** Replace in place, or push to the front of the group. */
  function SpecSet(m: Model, h: Hash, key: Bytes, value: Bytes): (Status, Model) {
    var kvs := Group(m, h);
    match Answer(kvs, key)
    case OK => (OK, m[h := kvs[Position(kvs, key) := KV(key, value)]])
    case NotFound => (OK, m[h := [KV(key, value)] + kvs])
    case r => (r, m)
  }

  /** Only the single record of its hash can be deleted. */
  function SpecDel(m: Model, h: Hash, key: Bytes): (Status, Model) {
    var kvs := Group(m, h);
    if Answer(kvs, key) != OK then (Answer(kvs, key), m)
    else if |kvs| > 1 then (InternalError, m)
    else (OK, m - {h})
  }
}
