/** load_rdb_into_table: a cursor over the file, an expiry carried from record to record, and
    the hash table filled in place. */
module RdbLoader {
  import opened Tables
  import opened HashTable
  import opened Rdb

  method LoadIntoTable(store: Store<string>, file: seq<Byte>) returns (loaded: nat, outside: bool)
    requires store.Valid()
    modifies store, store.table, store.nodes
    ensures store.Valid()
    ensures outside <==> Load(file, old(store.contents)) == OutsideModel
    ensures !outside ==> Load(file, old(store.contents)) == Loaded(store.contents, loaded)
  {
    ghost var result := Load(file, store.contents);
    var rest := Take(file, 9).rest;
    var expiryMs := 0;
    loaded, outside := 0, false;
    while rest != []
      invariant store.Valid() && fresh(store.nodes - old(store.nodes))
      invariant LoadFrom(rest, expiryMs, store.contents, loaded) == result
      decreases |rest|
    {
      match ReadItem(rest, expiryMs)
      case End => return;
      case Outside => outside := true; return;
      case Header(next) => rest := next;
      case KeyOnly(next) => rest, expiryMs := next, -1;
      case Stored(next, key, val, expiry) =>
        ghost var before := store.contents;
        store.Set(key, val, NoTimeFlag, -1, 0);
        if expiry != -1 {
          store.SetHeadExpiresAt(key, expiry);
        }
        assert store.contents == StoreRecord(before, key, val, expiry);
        rest, expiryMs, loaded := next, -1, loaded + 1;
    }
  }
}
