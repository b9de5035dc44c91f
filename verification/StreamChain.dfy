/** A stream in memory: entries linked from head to tail and appended in place, the XREAD walk,
    and the loop that wakes blocked readers after an XADD. */
module StreamChain {
  import opened Seqs
  import S = Streams

  class StreamEntry {
    const id: S.Id
    const fields: seq<string>
    var next: StreamEntry?

    constructor (id: S.Id, fields: seq<string>)
      ensures this.id == id && this.fields == fields && next == null
    {
      this.id, this.fields, next := id, fields, null;
    }
  }

  ghost predicate Holds(chain: seq<StreamEntry>, items: seq<S.Item>) {
    |chain| == |items| && forall i | 0 <= i < |chain| :: items[i] == S.Item(chain[i].id, chain[i].fields)
  }

  lemma {:induction false} AppendKeepsShape(chain: seq<StreamEntry>, items: seq<S.Item>, entry: StreamEntry)
    requires Distinct(chain) && Holds(chain, items) && entry !in chain
    ensures Distinct(chain + [entry]) && Holds(chain + [entry], items + [S.Item(entry.id, entry.fields)])
  {
  }

  class LinkedStream {
    var head: StreamEntry?
    var tail: StreamEntry?
    var lastMs: int
    var lastSeq: int
    var length: nat
    /** The entries from head to tail, the items they hold, and every entry ever linked. */
    ghost var chain: seq<StreamEntry>
    ghost var items: seq<S.Item>
    ghost var nodes: set<StreamEntry>

    ghost predicate Valid()
      reads this, nodes
    {
      && (forall i | 0 <= i < |chain| :: chain[i] in nodes)
      && head == Link(0)
      && tail == (if chain == [] then null else chain[|chain| - 1])
      && (forall i {:trigger chain[i].next} | 0 <= i < |chain| :: chain[i].next == Link(i + 1))
      && Distinct(chain)
      && Holds(chain, items)
      && S.TailMatches(Value())
    }

    ghost function Link(i: nat): StreamEntry?
      reads this
    {
      if i < |chain| then chain[i] else null
    }

    ghost function Value(): S.Stream
      reads this
    {
      S.Stream(items, lastMs, lastSeq, length)
    }

    constructor ()
      ensures Valid() && Value() == S.EMPTY && nodes == {}
    {
      head, tail, lastMs, lastSeq, length := null, null, 0, 0, 0;
      chain, items, nodes := [], [], {};
    }

    /** Links a first entry. */
    method LinkFirst(entry: StreamEntry)
      requires Valid() && head == null && entry.next == null && entry !in nodes
      modifies this
      ensures Valid() && nodes == old(nodes) + {entry}
      ensures Value() == S.Append(old(Value()), entry.id, entry.fields)
    {
      head, tail := entry, entry;
      lastMs, lastSeq, length := entry.id.ms, entry.id.num, length + 1;
      chain, items, nodes := [entry], [S.Item(entry.id, entry.fields)], nodes + {entry};
    }

    /** Links an entry after the tail. */
    method LinkLast(entry: StreamEntry)
      requires Valid() && head != null && entry.next == null && entry !in nodes
      modifies this, nodes
      ensures Valid() && nodes == old(nodes) + {entry}
      ensures Value() == S.Append(old(Value()), entry.id, entry.fields)
    {
      ghost var was := chain;
      tail.next := entry;
      tail := entry;
      AppendKeepsShape(chain, items, entry);
      lastMs, lastSeq, length := entry.id.ms, entry.id.num, length + 1;
      chain, items, nodes := chain + [entry], items + [S.Item(entry.id, entry.fields)], nodes + {entry};
      forall i | 0 <= i < |chain| ensures chain[i].next == Link(i + 1) {
        if i < |was| {
          assert chain[i] == was[i] && (i + 1 < |was| ==> was[i] != was[|was| - 1]);
        }
      }
    }

    /** The linking part of handle_set_stream. */
    method Append(id: S.Id, fields: seq<string>)
      requires Valid()
      modifies this, nodes
      ensures Valid() && fresh(nodes - old(nodes))
      ensures Value() == S.Append(old(Value()), id, fields)
    {
      var entry := new StreamEntry(id, fields);
      if head == null {
        LinkFirst(entry);
      } else {
        LinkLast(entry);
      }
    }

    /** generateId */
    method GenerateId(text: S.IdText, now: int) returns (id: S.Id)
      requires Valid() && (text.Auto? || text.MsAuto? || text.StarMs?)
      ensures id == S.Generate(Value(), text, now)
    {
      if text.MsAuto? {
        var seqNumber;
        if text.ms == lastMs {
          seqNumber := lastSeq + 1;
        } else {
          seqNumber := if text.ms == 0 then 1 else 0;
        }
        return S.Id(text.ms, seqNumber);
      }
      if head == null {
        return S.Id(now, if now == 0 then 1 else 0);
      } else if now > lastMs {
        return S.Id(now, 0);
      } else {
        return S.Id(lastMs, lastSeq + 1);
      }
    }

    /** handle_set_stream after the key lookup, at the given clock. */
    method XAdd(text: S.IdText, fields: seq<string>, now: int) returns (reply: Reply)
      requires Valid()
      modifies this, nodes
      ensures Valid() && fresh(nodes - old(nodes))
      ensures match S.XAdd(old(Value()), text, fields, now)
              case Added(stream, id) => reply == NewId(id) && Value() == stream
              case Refused(error) => reply == Error(error) && Value() == old(Value())
              case Unspecified => reply == Unspecified && Value() == old(Value())
      ensures reply.NewId? <==> S.Takes(text, old(items) == [], old(lastMs), old(lastSeq))
      ensures reply.NewId? ==> items == old(items) + [S.Item(reply.id, fields)] && length == old(length) + 1
      ensures reply.NewId? ==> S.Chosen(text, old(lastMs), old(lastSeq), now, reply.id)
      ensures !reply.NewId? ==> items == old(items)
    {
      S.XAddTakesIff(Value(), text, fields, now);
      if S.XAdd(Value(), text, fields, now).Added? {
        S.XAddChooses(Value(), text, fields, now);
      }
      if tail != null {
        var error := S.Validate(text, tail.id);
        if error.Some? {
          return Error(error.value);
        }
      }
      if text.Malformed? || text.NoDash? {
        return Unspecified;
      }
      var id;
      if text.Explicit? {
        id := text.id;
      } else {
        id := GenerateId(text, now);
      }
      Append(id, fields);
      return NewId(id);
    }

    /** streamEntry_XREAD_toString up to the tail: the walk counts length entries. */
    method XRead(from: S.Id) returns (got: seq<S.Item>)
      requires Valid() && items != [] && length == |items|
      ensures got == S.Read(Value(), from)
    {
      var end := tail.id;
      var ptr := head;
      got := [];
      for i := 0 to length
        invariant ptr == Link(i)
        invariant got + S.Filter(items[i..], from, end) == S.Filter(items, from, end)
      {
        S.FilterStep(got, items, i, from, end);
        if S.Selected(S.Item(ptr.id, ptr.fields), from, end) {
          got := got + [S.Item(ptr.id, ptr.fields)];
        }
        ptr := ptr.next;
      }
    }
  }

  datatype Reply = NewId(id: S.Id) | Error(error: S.Error) | Unspecified

  class Client {
    var isBlocked: bool
    var waitingForKey: string
    var minId: S.Id
    var sent: seq<seq<S.Item>>

    function AsClient(): S.Client
      reads this
    {
      if isBlocked then S.Blocked(waitingForKey, minId) else S.Free
    }

    constructor ()
      ensures AsClient() == S.Free && sent == []
    {
      isBlocked, waitingForKey, minId, sent := false, "", S.Id(0, 0), [];
    }

    /** try_deliver_stream_data, for a client that waits on the stream's key */
    method TryDeliver(stream: LinkedStream)
      requires isBlocked && stream.Valid() && stream.items != [] && stream.length == |stream.items|
      modifies this
      ensures AsClient() == S.Wake(old(AsClient()), old(waitingForKey), stream.Value())
      ensures sent == old(sent) + S.Delivery(old(AsClient()), old(waitingForKey), stream.Value())
    {
      var messages := stream.XRead(minId);
      if messages != [] {
        sent := sent + [messages];
        isBlocked := false;
      }
    }
  }

  /** The loop at the end of handle_set_stream over the clients. */
  method WakeBlockedReaders(clients: seq<Client>, key: string, stream: LinkedStream)
    requires stream.Valid() && stream.items != [] && stream.length == |stream.items|
    requires forall i, j | 0 <= i < j < |clients| :: clients[i] != clients[j]
    modifies clients
    ensures stream.Valid() && stream.Value() == old(stream.Value())
    ensures forall i | 0 <= i < |clients| ::
      && clients[i].AsClient() == S.Wake(old(clients[i].AsClient()), key, stream.Value())
      && clients[i].sent == old(clients[i].sent) + S.Delivery(old(clients[i].AsClient()), key, stream.Value())
  {
    ghost var value := stream.Value();
    for n := 0 to |clients|
      invariant stream.Valid() && stream.Value() == value
      invariant forall i | n <= i < |clients| :: unchanged(clients[i])
      invariant forall i | 0 <= i < n ::
        && clients[i].AsClient() == S.Wake(old(clients[i].AsClient()), key, value)
        && clients[i].sent == old(clients[i].sent) + S.Delivery(old(clients[i].AsClient()), key, value)
    {
      var c := clients[n];
      if c.isBlocked && c.waitingForKey == key {
        c.TryDeliver(stream);
      }
    }
  }
}
