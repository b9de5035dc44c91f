/** The transaction commands as the server runs them: client objects, and one list of watching
    clients per hash bucket, updated in place (transaction_handler.c, handler.c). */
module TransactionServer {
  import opened Seqs
  import opened CStrings
  import opened Commands
  import opened Resp
  import opened Tables
  import opened Keyspace
  import I = Interleavings
  import T = Transactions

  class Client {
    const id: nat
    var isQueued: bool
    var isDirty: bool
    var requests: seq<Request>
    var watchKeys: seq<Key>

    constructor (id: nat)
      ensures this.id == id && View() == T.NEW_CLIENT
    {
      this.id, isQueued, isDirty, requests, watchKeys := id, false, false, [], [];
    }

    ghost function View(): T.Client
      reads this
    {
      T.Client(isQueued, isDirty, requests, watchKeys)
    }
  }

  predicate OnlyData(reqs: seq<Request>) { forall r | r in reqs :: !T.IsTransactionCmd(r.cmd) }

  /** A watcher list as client numbers. */
  ghost function Slots(list: seq<Client?>): (r: seq<Option<nat>>)
    ensures |r| == |list|
  {
    seq(|list|, i requires 0 <= i < |list| => if list[i] == null then None else Some(list[i].id))
  }

  lemma {:induction false} SlotsOfAppend(list: seq<Client?>, client: Client?)
    ensures Slots(list + [client]) == Slots(list) + [if client == null then None else Some(client.id)]
    ensures forall c :: T.Watching(Slots(list + [client]), c) <==>
      T.Watching(Slots(list), c) || (client != null && client.id == c)
  {
  }

  lemma {:induction false} CountOneMore(list: seq<Client?>, j: nat, c: nat)
    requires j < |list|
    ensures T.SlotCount(Slots(list[..j + 1]), c)
         == T.SlotCount(Slots(list[..j]), c) + if list[j] != null && list[j].id == c then 1 else 0
  {
    assert list[..j + 1] == list[..j] + [list[j]];
    SlotsOfAppend(list[..j], list[j]);
    I.SlotCountOfMore(Slots(list[..j]), if list[j] == null then None else Some(list[j].id), c);
  }

  class LiveServer {
    const clients: seq<Client>
    const watchers: array<seq<Client?>>
    var table: Keys
    /** The bytes of the append-only file. */
    var file: string
    /** What the objects stand for. */
    ghost var view: T.Server

    ghost predicate Valid()
      reads this, clients, watchers
    {
      && T.Shaped(view) && view.table == table && file == PrintAll(view.log)
      && ClientsMatch() && WatchersMatch()
    }

    ghost predicate ClientsMatch()
      reads this, clients
    {
      && |view.clients| == |clients|
      && forall c | 0 <= c < |clients| ::
        clients[c].id == c && view.clients[c] == clients[c].View() && OnlyData(clients[c].requests)
    }

    ghost predicate WatchersMatch()
      reads this, watchers
    {
      && watchers.Length == |view.watchers|
      && forall b | 0 <= b < watchers.Length :: Members(watchers[b]) && view.watchers[b] == Slots(watchers[b])
    }

    /** Only connected clients are listed. */
    ghost predicate Members(list: seq<Client?>) {
      forall j | 0 <= j < |list| :: list[j] != null ==> list[j] in clients
    }

    /** Start-up: an empty keyspace and nobody watching. */
    constructor (clients: seq<Client>)
      requires forall c | 0 <= c < |clients| :: clients[c].id == c && clients[c].View() == T.NEW_CLIENT
      ensures Valid() && I.Fresh(view) && this.clients == clients && fresh(watchers)
    {
      this.clients := clients;
      watchers := new seq<Client?>[TABLE_SIZE](_ => []);
      table, file := EmptyTable(), "";
      view := T.Server(EmptyTable(), seq(|clients|, _ => T.NEW_CLIENT), seq(TABLE_SIZE, _ => []), []);
    }

    /** The clients are as before, but those on the list are dirty. */
    ghost predicate Notified(was: seq<T.Client>, list: seq<Client?>)
      reads clients
    {
      && |was| == |clients|
      && forall c | 0 <= c < |clients| :: clients[c].View() == T.Told(T.Watching(Slots(list), c), was[c])
    }

    method NotifyWatchers(index: nat)
      requires Valid() && index < TABLE_SIZE
      modifies clients, this`view
      ensures Valid() && view == T.Notify(old(view), index)
    {
      var list := watchers[index];
      var i := 0;
      while i < |list|
        invariant i <= |list| && view == old(view) && Notified(view.clients, list[..i])
      {
        assert list[..i + 1] == list[..i] + [list[i]];
        SlotsOfAppend(list[..i], list[i]);
        if list[i] != null {
          list[i].isDirty := true;
        }
        i := i + 1;
      }
      assert list[..i] == list;
      view := T.Notify(view, index);
    }

    /** The inner loop of delete_watched_keys, which frees the key of this turn for each slot. */
    method Vacate(index: nat, client: Client) returns (freed: nat)
      requires Valid() && index < TABLE_SIZE && client in clients
      modifies watchers, this`view
      ensures Valid() && freed == T.SlotCount(old(view.watchers)[index], client.id)
      ensures view ==
        old(view).(watchers := old(view.watchers)[index := T.Vacated(old(view.watchers)[index], client.id)])
    {
      ghost var list := watchers[index];
      var j := 0;
      freed := 0;
      while j < |watchers[index]|
        invariant view == old(view) && Members(watchers[index])
        invariant j <= |watchers[index]| == |list|
        invariant forall b | 0 <= b < TABLE_SIZE && b != index :: watchers[b] == old(watchers[b])
        invariant forall k | 0 <= k < |watchers[index]| ::
          watchers[index][k] == if k < j && list[k] == client then null else list[k]
        invariant freed == T.SlotCount(Slots(list[..j]), client.id)
      {
        CountOneMore(list, j, client.id);
        if watchers[index][j] == client {
          watchers[index] := watchers[index][j := null];
          freed := freed + 1;
        }
        j := j + 1;
      }
      assert list[..j] == list;
      view := view.(watchers := view.watchers[index := T.Vacated(view.watchers[index], client.id)]);
    }

    /** The outer loop; ok is false when a key is freed twice. */
    method VacateAll(client: Client) returns (ok: bool)
      requires Valid() && client in clients
      modifies watchers, this`view
      ensures ok == T.NeverFreesTwice(old(view.watchers), client.id, client.watchKeys)
      ensures ok ==> Valid()
      ensures ok ==> view == old(view).(watchers := T.ForgetFrom(old(view.watchers), client.id, client.watchKeys))
    {
      ghost var keys, was := client.watchKeys, view.watchers;
      var i := 0;
      while i < |client.watchKeys|
        invariant Valid() && i <= |keys| && view == old(view).(watchers := view.watchers)
        invariant T.ForgetFrom(view.watchers, client.id, keys[i..]) == T.ForgetFrom(was, client.id, keys)
        invariant T.NeverFreesTwice(view.watchers, client.id, keys[i..]) <==> T.NeverFreesTwice(was, client.id, keys)
      {
        assert keys[i..][1..] == keys[i + 1..];
        var freed := Vacate(Bucket(client.watchKeys[i]), client);
        if freed > 1 {
          return false;
        }
        i := i + 1;
      }
      ok := true;
    }

    method DeleteWatchedKeys(client: Client) returns (ok: bool)
      requires Valid() && client in clients
      modifies watchers, client, this`view
      ensures ok ==> Valid() && T.Forget(old(view), client.id) == T.Next(view)
      ensures !ok ==> T.Forget(old(view), client.id) == T.Crashed
    {
      ok := VacateAll(client);
      if ok {
        client.watchKeys, client.isDirty := [], false;
        view := view.(clients := view.clients[client.id := client.View()]);
      }
    }

    method HandleMulti(client: Client)
      requires Valid() && client in clients
      modifies client, this`view
      ensures Valid() && view == T.Multi(old(view), client.id)
    {
      if !client.isQueued {
        client.requests, client.isQueued := [], true;
        view := T.Multi(view, client.id);
      }
    }

    method HandleDiscard(client: Client) returns (ok: bool)
      requires Valid() && client in clients
      modifies watchers, client, this`view
      ensures ok ==> Valid() && T.Discard(old(view), client.id) == T.Next(view)
      ensures !ok ==> T.Discard(old(view), client.id) == T.Crashed
    {
      ok := true;
      if client.isQueued {
        client.requests, client.isQueued := [], false;
        view := T.Unqueued(view, client.id);
        ok := DeleteWatchedKeys(client);
      }
    }

    /** One turn of the loop of handle_watch. */
    method WatchKey(client: Client, key: Key)
      requires Valid() && client in clients
      modifies watchers, client, this`view
      ensures Valid() && view == T.Watch(old(view), client.id, [key])
    {
      client.watchKeys := client.watchKeys + [key];
      var index := Bucket(key);
      SlotsOfAppend(watchers[index], client);
      watchers[index] := watchers[index] + [client];
      T.WatchOne(view, client.id, key);
      view := T.Watch(view, client.id, [key]);
    }

    /** handle_watch; ok is false when a key hashes outside the watchers array. */
    method HandleWatch(client: Client, keys: seq<string>) returns (ok: bool)
      requires Valid() && client in clients
      modifies watchers, client, this`view
      ensures ok ==> Valid() && T.WatchUnqueued(old(view), client.id, keys) == T.Next(view)
      ensures !ok ==> T.WatchUnqueued(old(view), client.id, keys) == T.Crashed
    {
      if client.isQueued {
        return true;
      }
      var i := 0;
      while i < |keys|
        invariant Valid() && i <= |keys| && (forall j | 0 <= j < i :: Indexes(keys[j]))
        invariant T.IndexedKeys(keys) ==> T.Watch(view, client.id, keys[i..]) == T.Watch(old(view), client.id, keys)
      {
        if !Indexes(keys[i]) {
          assert keys[i] in keys;
          return false;
        }
        if T.IndexedKeys(keys) {
          T.WatchStep(view, client.id, keys[i..]);
        }
        assert keys[i..][1..] == keys[i + 1..];
        WatchKey(client, keys[i]);
        i := i + 1;
      }
      T.WatchNone(view, client.id);
      ok := true;
    }

    /** write_to_file: the request, piece by piece, at the end of the file. */
    method WriteToFile(req: Request)
      modifies this`file
      ensures file == old(file) + Print(req)
    {
      var words := [CmdToString(req.cmd)] + req.args;
      var header := "*" + Dec(|words|) + CRLF;
      ghost var before, printed, text := file, header, Print(req);
      file := file + header;
      assert words[0..] == words;
      var i := 0;
      while i < |words|
        invariant i <= |words| && file == before + printed && text == printed + BulkAll(words[i..])
      {
        OneMoreWord(text, printed, words, i);
        ConcatAssociates(before, printed, Bulk(words[i]));
        file := file + Bulk(words[i]);
        printed, i := printed + Bulk(words[i]), i + 1;
      }
      assert printed + "" == printed;
    }

    method Record(req: Request)
      requires Valid()
      modifies this`file, this`view
      ensures Valid() && view == old(view).(log := T.Written(old(view.log), req))
    {
      if Logged(req.cmd) {
        PrintOneMore(view.log, req);
        WriteToFile(req);
        view := view.(log := view.log + [req]);
      }
    }

    /** The dispatch of a data command: its effect on the keyspace, the notification, the log. */
    method Execute(req: Request, env: Env) returns (ok: bool)
      requires Valid()
      modifies this, clients
      ensures ok ==> Valid() && T.Execute(old(view), req, env) == T.Next(view)
      ensures !ok ==> T.Execute(old(view), req, env) == T.Crashed
    {
      var effect := Apply(table, req, env);
      if effect.Crash? {
        return false;
      }
      table := effect.table;
      view := view.(table := table);
      if Notifies(req.cmd) {
        NotifyWatchers(Bucket(req.args[0]));
      }
      Record(req);
      ok := true;
    }

    method Abort(client: Client) returns (ok: bool)
      requires Valid() && client in clients
      modifies watchers, client, this`view
      ensures ok ==> Valid() && T.Forget(T.Unqueued(old(view), client.id), client.id) == T.Next(view)
      ensures !ok ==> T.Forget(T.Unqueued(old(view), client.id), client.id) == T.Crashed
    {
      client.isQueued, client.requests := false, [];
      view := T.Unqueued(view, client.id);
      ok := DeleteWatchedKeys(client);
    }

    /** What one turn of the EXEC loop does, before the command is handled. */
    method Unqueue(client: Client)
      requires Valid() && client in clients
      modifies client, this`view
      ensures Valid() && view == T.Unqueued(old(view), client.id)
    {
      client.isQueued, client.requests := false, [];
      view := T.Unqueued(view, client.id);
    }

    method HandleExec(client: Client, env: nat -> Env) returns (ok: bool)
      requires Valid() && client in clients
      modifies this, watchers, clients
      ensures ok ==> Valid() && T.ExecIfQueued(old(view), client.id, env) == T.Next(view)
      ensures !ok ==> T.ExecIfQueued(old(view), client.id, env) == T.Crashed
      decreases 1, 0
    {
      if !client.isQueued {
        return true;
      }
      if client.isDirty {
        ok := Abort(client);
        return;
      }
      var queue := client.requests;
      Unqueue(client);
      ok := ExecuteQueue(client, queue, env);
    }

    /** The loop of handle_exec: every queued command goes back through handle. */
    method ExecuteQueue(client: Client, queue: seq<Request>, env: nat -> Env) returns (ok: bool)
      requires Valid() && client in clients && OnlyData(queue) && T.Idle(view, client.id)
      modifies this, watchers, clients
      ensures ok ==> Valid() && T.ExecuteAll(old(view), queue, env, 0) == T.Next(view)
      ensures !ok ==> T.ExecuteAll(old(view), queue, env, 0) == T.Crashed
      decreases 0, 3
    {
      var i := 0;
      while i < |queue|
        invariant Valid() && i <= |queue|
        invariant T.Idle(view, client.id)
        invariant T.ExecuteAll(view, queue, env, i) == T.ExecuteAll(old(view), queue, env, 0)
      {
        var one := (k: nat) => env(i);
        T.HandleOfData(view, T.Event(client.id, queue[i], one));
        if T.Execute(view, queue[i], env(i)).Next? {
          T.ExecuteKeepsIdle(view, queue[i], env(i), client.id);
        }
        var done := Handle(client, queue[i], one);
        if !done {
          return false;
        }
        i := i + 1;
      }
      ok := true;
    }

    method Handle(client: Client, req: Request, env: nat -> Env) returns (ok: bool)
      requires Valid() && client in clients
      modifies this, watchers, clients
      ensures ok ==> Valid() && T.Handle(old(view), T.Event(client.id, req, env)) == T.Next(view)
      ensures !ok ==> T.Handle(old(view), T.Event(client.id, req, env)) == T.Crashed
      decreases if T.IsTransactionCmd(req.cmd) then 1 else 0, 2
    {
      if client.isQueued && !T.IsTransactionCmd(req.cmd) {
        client.requests := client.requests + [req];
        view := T.WithClient(view, client.id, client.View());
        return true;
      }
      if T.IsTransactionCmd(req.cmd) {
        ok := Transact(client, req, env);
      } else {
        T.HandleOfData(view, T.Event(client.id, req, env));
        ok := Execute(req, env(0));
      }
    }

    method Transact(client: Client, req: Request, env: nat -> Env) returns (ok: bool)
      requires Valid() && client in clients && T.IsTransactionCmd(req.cmd)
      modifies this, watchers, clients
      ensures ok ==> Valid() && T.Transact(old(view), client.id, req, env) == T.Next(view)
      ensures !ok ==> T.Transact(old(view), client.id, req, env) == T.Crashed
      decreases 1, 1
    {
      ok := true;
      match req.cmd
      case MULTI => HandleMulti(client);
      case EXEC => ok := HandleExec(client, env);
      case DISCARD => ok := HandleDiscard(client);
      case WATCH => ok := HandleWatch(client, req.args);
      case UNWATCH => ok := DeleteWatchedKeys(client);
    }
  }
}
