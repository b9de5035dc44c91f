/** The hash table of utils.c in memory: an array of bucket heads and chains of linked
    entries, edited in place. */
module HashTable {
  import opened Seqs
  import opened Tables

  class EntryNode<V> {
    const key: string
    var value: V
    var next: EntryNode?<V>
    var expiresAt: int

    constructor (key: string, value: V, next: EntryNode?<V>, expiresAt: int)
      ensures this.key == key && this.value == value && this.next == next && this.expiresAt == expiresAt
    {
      this.key, this.value, this.next, this.expiresAt := key, value, next, expiresAt;
    }
  }

  class Store<V(!new)> {
    const table: array<EntryNode?<V>>
    /** The nodes of each chain, and the entries they hold. */
    ghost var chains: seq<seq<EntryNode<V>>>
    ghost var contents: Table<V>
    ghost var nodes: set<EntryNode<V>>

    ghost predicate Valid()
      reads this, table, nodes
    {
      && table.Length == |chains| == TABLE_SIZE
      && WellFormed(contents)
      && (forall b | 0 <= b < TABLE_SIZE :: ValidChain(b))
    }

    ghost predicate ValidChain(b: nat)
      requires b < TABLE_SIZE && table.Length == |chains| == |contents| == TABLE_SIZE
      reads this, table, nodes
    {
      && |chains[b]| == |contents[b]|
      && table[b] == Link(chains[b], 0)
      && (forall i | 0 <= i < |chains[b]| :: chains[b][i] in nodes)
      && (forall i {:trigger chains[b][i].next} | 0 <= i < |chains[b]| :: chains[b][i].next == Link(chains[b], i + 1))
      && (forall i | 0 <= i < |chains[b]| :: contents[b][i] == EntryOf(chains[b][i]))
    }

    static ghost function Link(chain: seq<EntryNode<V>>, i: nat): EntryNode?<V> {
      if i < |chain| then chain[i] else null
    }

    static ghost function EntryOf(n: EntryNode<V>): Entry<V>
      reads n
    {
      Entry(n.key, n.value, n.expiresAt)
    }

    constructor ()
      ensures Valid() && contents == EmptyTable() && fresh(table) && nodes == {}
    {
      table := new EntryNode?<V>[TABLE_SIZE](_ => null);
      chains := seq(TABLE_SIZE, i => []);
      contents := EmptyTable();
      nodes := {};
    }

    /** The search loop of store_set, store_get and store_getEntry. */
    method Search(key: Key) returns (found: EntryNode?<V>)
      requires Valid()
      ensures found == Link(chains[Bucket(key)], Find(contents[Bucket(key)], key))
    {
      var index := Bucket(key);
      assert ValidChain(index);
      found := table[index];
      ghost var i := 0;
      while found != null
        invariant 0 <= i <= |chains[index]| && found == Link(chains[index], i)
        invariant forall j | 0 <= j < i :: contents[index][j].key != key
        decreases |chains[index]| - i
      {
        if found.key == key {
          break;
        }
        found := found.next;
        i := i + 1;
      }
      FindIs(contents[index], key, i);
    }

    /** store_set, at the given clock */
    method Set(key: Key, value: V, flag: TimeFlag, seconds: int, now: int)
      requires Valid()
      modifies this, table, nodes
      ensures Valid() && fresh(nodes - old(nodes))
      ensures contents == Put(old(contents), key, value, ExpiryOf(flag, seconds, now))
    {
      var expiresAt := 0;
      if seconds != -1 {
        if flag == EX {
          expiresAt := now + seconds * 1000;
        } else if flag == PX {
          expiresAt := now + seconds;
        }
      }
      var existing := Search(key);
      ghost var i := Find(contents[Bucket(key)], key);
      assert ValidChain(Bucket(key));
      if existing == null {
        Prepend(key, value, expiresAt);
      } else {
        Overwrite(existing, i, value, expiresAt);
      }
    }

    method Prepend(key: Key, value: V, expiresAt: int)
      requires Valid() && Find(contents[Bucket(key)], key) == |contents[Bucket(key)]|
      modifies this, table
      ensures Valid() && fresh(nodes - old(nodes))
      ensures contents == Put(old(contents), key, value, expiresAt)
    {
      var index := Bucket(key);
      ghost var was := chains[index];
      assert ValidChain(index);
      var newEntry := new EntryNode(key, value, table[index], expiresAt);
      table[index] := newEntry;
      PutKeepsWellFormed(contents, key, value, expiresAt);
      nodes := nodes + {newEntry};
      contents := Put(contents, key, value, expiresAt);
      chains := chains[index := InsertAt(was, 0, newEntry)];
      assert contents[index] == InsertAt(old(contents)[index], 0, EntryOf(newEntry));
      forall b | 0 <= b < TABLE_SIZE ensures ValidChain(b) {
        assert old(ValidChain(b));
        if b == index {
          PrependedChain(was, newEntry);
        }
      }
    }

    /** Linking a new head in front of a chain. */
    lemma {:induction false} PrependedChain(was: seq<EntryNode<V>>, head: EntryNode<V>)
      requires forall i {:trigger was[i].next} | 0 <= i < |was| :: was[i].next == Link(was, i + 1)
      requires head.next == Link(was, 0)
      ensures var chain := InsertAt(was, 0, head);
              forall i {:trigger chain[i].next} | 0 <= i < |chain| :: chain[i].next == Link(chain, i + 1)
    {
      var chain := InsertAt(was, 0, head);
      forall i | 0 <= i < |chain| ensures chain[i].next == Link(chain, i + 1) {
        if i > 0 {
          assert chain[i] == was[i - 1] && was[i - 1].next == Link(was, i);
        }
      }
    }

    /** A node that holds a key of its own bucket has no other place. */
    lemma {:induction false} NowhereElse(node: EntryNode<V>, index: nat, i: nat)
      requires Valid() && index < TABLE_SIZE && i < |chains[index]| && node == chains[index][i]
      ensures forall b, k | 0 <= b < TABLE_SIZE && 0 <= k < |chains[b]| && (b != index || k != i) ::
                chains[b][k] != node
    {
      assert ValidChain(index);
      assert contents[index][i].key == node.key;
      forall b, k | 0 <= b < TABLE_SIZE && 0 <= k < |chains[b]| && (b != index || k != i) ensures chains[b][k] != node {
        assert ValidChain(b);
        assert contents[b][k].key == chains[b][k].key;
      }
    }

    method Overwrite(existing: EntryNode<V>, ghost i: nat, value: V, expiresAt: int)
      requires Valid() && Indexes(existing.key)
      requires var b := Bucket(existing.key);
               i < |chains[b]| && existing == chains[b][i] && i == Find(contents[b], existing.key)
      modifies this, nodes
      ensures Valid() && nodes == old(nodes)
      ensures contents == Put(old(contents), existing.key, value, expiresAt)
    {
      ghost var index := Bucket(existing.key);
      NowhereElse(existing, index, i);
      assert ValidChain(index);
      assert forall b | 0 <= b < TABLE_SIZE :: ValidChain(b);
      existing.value := value;
      existing.expiresAt := expiresAt;
      PutKeepsWellFormed(contents, existing.key, value, expiresAt);
      contents := Put(contents, existing.key, value, expiresAt);
      forall b | 0 <= b < TABLE_SIZE ensures ValidChain(b) {
        assert old(ValidChain(b));
        assert contents[b] == if b == index then old(contents)[b][i := EntryOf(existing)] else old(contents)[b];
      }
    }

    /** The RDB loader's write to the entry at the head of the key's bucket. */
    method SetHeadExpiresAt(key: Key, ms: int)
      requires Valid()
      modifies this, nodes
      ensures Valid() && nodes == old(nodes)
      ensures contents == SetHeadExpiry(old(contents), key, ms)
    {
      ghost var index := Bucket(key);
      var entry := table[Bucket(key)];
      assert ValidChain(index);
      if entry != null {
        NowhereElse(entry, index, 0);
        assert forall b | 0 <= b < TABLE_SIZE :: ValidChain(b);
        entry.expiresAt := ms;
        contents := SetHeadExpiry(contents, key, ms);
        forall b | 0 <= b < TABLE_SIZE ensures ValidChain(b) {
          assert old(ValidChain(b));
          assert contents[b] == if b == index then old(contents)[b][0 := EntryOf(entry)] else old(contents)[b];
        }
      } else {
        assert contents == SetHeadExpiry(contents, key, ms);
      }
    }

    /** store_getEntry, as a value */
    method GetEntryOf(key: Key) returns (entry: Option<Entry<V>>)
      requires Valid()
      ensures entry == GetEntry(contents, key)
    {
      var found := Search(key);
      ghost var i := Find(contents[Bucket(key)], key);
      assert ValidChain(Bucket(key));
      return if found == null then None else Some(Entry(found.key, found.value, found.expiresAt));
    }

    /** store_get */
    method GetValue(key: Key, now: int) returns (value: Option<V>)
      requires Valid()
      ensures value == Get(contents, key, now)
    {
      var found := Search(key);
      ghost var i := Find(contents[Bucket(key)], key);
      assert ValidChain(Bucket(key));
      if found != null {
        if found.expiresAt != 0 {
          if now >= found.expiresAt {
            return None;
          }
        }
        return Some(found.value);
      }
      return None;
    }
  }
}
