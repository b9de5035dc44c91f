/** The loops of main.c and utility_handler.c that keep the replication state, as the program
    runs them: an output buffer filled by offset, offsets that grow with every parsed message,
    and passes over the array of clients. */
module EventLoop {
  import opened Seqs
  import opened CStrings
  import opened Commands
  import opened Resp
  import opened RespReader
  import opened Tables
  import opened Keyspace
  import opened Replication
  import opened Waiting
  import I = Interleavings
  import T = Transactions

  // ----- copy_request_toBuffer -----

  /** One snprintf at an offset; ok is false when the text and its NUL do not fit. */
  method PutAt(buffer: array<char>, offset: nat, text: string) returns (ok: bool)
    requires offset <= buffer.Length
    modifies buffer
    ensures ok <==> offset + |text| < buffer.Length
    ensures buffer[..offset] == old(buffer[..offset])
    ensures ok ==> buffer[..offset + |text|] == old(buffer[..offset]) + text
  {
    if offset + |text| >= buffer.Length {
      return false;
    }
    var i := 0;
    while i < |text|
      invariant i <= |text|
      invariant buffer[..offset + i] == old(buffer[..offset]) + text[..i]
    {
      buffer[offset + i] := text[i];
      i := i + 1;
    }
    ok := true;
  }

  /** The words of a request, after the header, at the given offset. */
  method PutWords(buffer: array<char>, header: string, words: seq<string>) returns (offset: nat, ok: bool)
    requires |header| <= buffer.Length && buffer[..|header|] == header && |header| < buffer.Length
    modifies buffer
    ensures ok <==> |header + BulkAll(words)| < buffer.Length
    ensures ok ==> offset == |header + BulkAll(words)| && buffer[..offset] == header + BulkAll(words)
  {
    ghost var whole, done := header + BulkAll(words), header;
    offset := |header|;
    assert words[0..] == words;
    var i := 0;
    while i < |words|
      invariant i <= |words| && offset == |done| < buffer.Length && buffer[..offset] == done
      invariant whole == done + BulkAll(words[i..])
    {
      OneMoreWord(whole, done, words, i);
      var word := Bulk(words[i]);
      ok := PutAt(buffer, offset, word);
      if !ok {
        return;
      }
      offset, done, i := offset + |word|, done + word, i + 1;
    }
    ok := true;
  }

  /** copy_request_toBuffer; ok is false when the buffer is too small. */
  method CopyRequestToBuffer(req: Request, buffer: array<char>) returns (offset: nat, ok: bool)
    modifies buffer
    ensures ok <==> |Print(req)| < buffer.Length
    ensures ok ==> offset == |Print(req)| && buffer[..offset] == Print(req)
  {
    var words := [CmdToString(req.cmd)] + req.args;
    var header := "*" + Dec(|words|) + CRLF;
    ok := PutAt(buffer, 0, header);
    if !ok {
      return 0, false;
    }
    offset, ok := PutWords(buffer, header, words);
  }

  // ----- the replica's side of the per-client loop -----

  lemma {:induction false} TakeAllSplits(p: Replica, items: seq<Read>, more: seq<Read>, env: nat -> Env, i: nat)
    requires |p.table| == TABLE_SIZE
    ensures TakeAll(p, items + more, env, i) ==
      if TakeAll(p, items, env, i).Some? then TakeAll(TakeAll(p, items, env, i).value, more, env, i + |items|) else None
    decreases |items|
  {
    if items == [] {
      assert [] + more == more;
    } else {
      assert (items + more)[1..] == items[1..] + more;
      var q := Take(p, items[0], env(i));
      if q.Some? {
        TakeAllSplits(q.value, items[1..], more, env, i + 1);
      }
    }
  }

  /** The replica, as the loop stands: it has handled the items read so far. */
  ghost predicate HasTaken(p: Replica, items: seq<Read>, env: nat -> Env, q: Replica) {
    |p.table| == |q.table| == TABLE_SIZE && TakeAll(p, items, env, 0) == Some(q)
  }

  lemma {:induction false} TakenOneMore(p: Replica, items: seq<Read>, env: nat -> Env, q: Replica, item: Read,
      next: Option<Replica>)
    requires HasTaken(p, items, env, q) && Take(q, item, env(|items|)) == next
    ensures next.Some? ==> HasTaken(p, items + [item], env, next.value)
    ensures next.None? ==> TakeAll(p, items + [item], env, 0) == None
  {
    TakeAllSplits(p, items, [item], env, 0);
    assert [item][1..] == [];
  }

  class Slave {
    var table: Keys
    var slaveReplOffset: nat
    /** The offsets in the ACKs that it has sent. */
    var acks: seq<nat>
    ghost const link: seq<Request>

    constructor (ghost link: seq<Request>)
      ensures View() == Replica(link, EmptyTable(), 0, [])
    {
      this.link, table, slaveReplOffset, acks := link, EmptyTable(), 0, [];
    }

    ghost function View(): Replica
      reads this
    {
      Replica(link, table, slaveReplOffset, acks)
    }

    /** One request from the master, then its bytes. */
    method HandleOne(item: Read, env: Env) returns (ok: bool)
      requires |table| == TABLE_SIZE
      modifies this
      ensures Take(old(View()), item, env) == if ok then Some(View()) else None
      ensures ok ==> |table| == TABLE_SIZE
    {
      if IsReplconf(item.request, "GETACK") {
        acks := acks + [slaveReplOffset];
      } else {
        var effect := Apply(table, item.request, env);
        if effect.Crash? {
          return false;
        }
        table := effect.table;
      }
      slaveReplOffset := slaveReplOffset + item.bytes;
      ok := true;
    }

    /** The loop over what one recv returned; ok is false when the program leaves its memory. */
    method HandleBuffer(buffer: string, env: nat -> Env) returns (ok: bool)
      requires |table| == TABLE_SIZE
      modifies this
      ensures ok ==> !ReadLoop(buffer).fault && TakeAll(old(View()), ReadLoop(buffer).items, env, 0) == Some(View())
      ensures !ok ==> ReadLoop(buffer).fault || TakeAll(old(View()), ReadLoop(buffer).items, env, 0) == None
    {
      ghost var whole, items, start := ReadLoop(buffer), [], View();
      var ptr := buffer;
      var count := 0;
      while ptr != ""
        invariant Remaining(whole, items, ptr) && count == |items| && HasTaken(start, items, env, View())
        decreases |ptr|
      {
        if ptr[0] != '*' {
          SkipOne(whole, items, ptr);
          ptr := ptr[1..];
          continue;
        }
        var result := ParseRequest(ptr);
        if result.Rejected? {
          SkipOne(whole, items, ptr);
          ptr := ptr[1..];
          continue;
        }
        if result.Fault? {
          EndOfBuffer(whole, items, ptr);
          return false;
        }
        var item := Read(result.request, result.used);
        RespReader.TakeOne(whole, items, ptr, result.request, result.used);
        ghost var before := View();
        ok := HandleOne(item, env(count));
        TakenOneMore(start, items, env, before, item, if ok then Some(View()) else None);
        if !ok {
          FailedAt(start, whole, items + [item], env);
          return false;
        }
        items, count := items + [item], count + 1;
        if result.used >= |ptr| {
          return true;
        }
        ptr := ptr[result.used..];
      }
      EndOfBuffer(whole, items, ptr);
      ok := true;
    }
  }

  lemma {:induction false} FailedAt(p: Replica, whole: Reads, items: seq<Read>, env: nat -> Env)
    requires |p.table| == TABLE_SIZE && TakeAll(p, items, env, 0) == None
    requires items <= whole.items
    ensures TakeAll(p, whole.items, env, 0) == None
  {
    TakeAllSplits(p, items, whole.items[|items|..], env, 0);
    assert whole.items == items + whole.items[|items|..];
  }

  // ----- the master's side: WAIT and the passes over the clients -----

  /** A client that can send WAIT. */
  class WaitClient {
    var isWaiting: bool
    var isBlocked: bool
    var timeoutAt: int

    constructor ()
      ensures View() == Blocking(false, false, 0)
    {
      isWaiting, isBlocked, timeoutAt := false, false, 0;
    }

    ghost function View(): Blocking
      reads this
    {
      Blocking(isWaiting, isBlocked, timeoutAt)
    }
  }

  /** The connection of a replica: its repl_offset, and what has been sent and not yet received. */
  class ReplicaClient {
    var replOffset: int
    var out: seq<Request>

    constructor ()
      ensures replOffset == 0 && out == []
    {
      replOffset, out := 0, [];
    }
  }

  class Master {
    const replicas: seq<ReplicaClient>
    const clients: seq<WaitClient>
    var masterReplOffset: nat
    var capturedMasterOffset: nat
    var wantedReplicas: int
    /** wait_client_fd, as an index of the clients. */
    var waiter: Option<nat>
    var replies: seq<nat>
    /** What the objects stand for. */
    ghost var view: System

    ghost predicate Valid()
      reads this, replicas
    {
      && Distinct(replicas) && Distinct(clients) && (waiter.Some? ==> waiter.value < |clients|)
      && view.offset == masterReplOffset && view.captured == capturedMasterOffset
      && view.wanted == wantedReplicas && view.waiting == waiter.Some? && view.replies == replies
      && OffsetsMatch() && Sent(view.replicas, |replicas|)
    }

    ghost function Waits(): (w: Waiters)
      requires waiter.Some? ==> waiter.value < |clients|
      reads this, clients
      ensures ProperWaiters(w)
    {
      Waiters(seq(|clients|, i requires 0 <= i < |clients| reads clients => clients[i].View()), waiter)
    }

    ghost predicate OffsetsMatch()
      reads this, replicas
    {
      |view.acked| == |replicas| && forall i | 0 <= i < |replicas| :: view.acked[i] == replicas[i].replOffset
    }

    /** The first n connections carry what the links of these replicas do. */
    ghost predicate Sent(links: seq<Replica>, n: nat)
      reads this, replicas
    {
      |links| == |replicas| && forall i | 0 <= i < n && i < |replicas| :: replicas[i].out == links[i].link
    }

    /** The replicas whose last ACK has reached an offset. */
    ghost function ReachedBy(offset: int): set<int>
      reads replicas
    {
      set r | 0 <= r < |replicas| && replicas[r].replOffset >= offset
    }

    /** Start-up, with the replicas attached at offset 0. */
    constructor (replicas: seq<ReplicaClient>, clients: seq<WaitClient>, ghost master: T.Server)
      requires Distinct(replicas) && Distinct(clients)
      requires forall i | 0 <= i < |replicas| :: replicas[i].replOffset == 0 && replicas[i].out == []
      requires I.Fresh(master) && master.table == EmptyTable()
      ensures Valid() && Start(view) && view.master == master
      ensures this.replicas == replicas && this.clients == clients
    {
      this.replicas, this.clients := replicas, clients;
      masterReplOffset, capturedMasterOffset, wantedReplicas, waiter, replies := 0, 0, 0, None, [];
      view := System(master, 0, seq(|replicas|, _ => Replica([], EmptyTable(), 0, [])), seq(|replicas|, _ => 0),
                     0, 0, false, [], [], 0);
    }

    /** The loop that counts replicas in handle_wait and in the event loop. */
    method CountReplicas() returns (count: nat)
      requires Valid()
      ensures count == Count(view.acked, capturedMasterOffset) == |ReachedBy(capturedMasterOffset)|
    {
      CountIsSize(view.acked, capturedMasterOffset);
      assert Reached(view.acked, capturedMasterOffset) == ReachedBy(capturedMasterOffset);
      count := 0;
      var i := 0;
      assert view.acked[0..] == view.acked;
      while i < |replicas|
        invariant i <= |replicas|
        invariant count + Count(view.acked[i..], capturedMasterOffset) == Count(view.acked, capturedMasterOffset)
      {
        assert view.acked[i..][1..] == view.acked[i + 1..];
        if replicas[i].replOffset >= capturedMasterOffset {
          count := count + 1;
        }
        i := i + 1;
      }
    }

    /** The loop of handle_wait that asks every replica for its offset. */
    method SendToAll(ask: Request)
      requires Valid()
      modifies replicas, this`view
      ensures Valid()
      ensures view == old(view).(replicas := SentTo(old(view.replicas), ask), sent := old(view.sent) + [ask])
    {
      ghost var links := SentTo(view.replicas, ask);
      var i := 0;
      while i < |replicas|
        invariant i <= |replicas| && view == old(view) && OffsetsMatch() && Sent(links, i)
        invariant forall j | i <= j < |replicas| :: replicas[j].out == old(replicas[j].out)
      {
        replicas[i].out := replicas[i].out + [ask];
        i := i + 1;
      }
      view := view.(replicas := links, sent := view.sent + [ask]);
    }

    /** The first lines of handle_wait: capture the offset, and count. */
    method Capture(wanted: int) returns (count: nat)
      requires Valid()
      modifies this`capturedMasterOffset, this`wantedReplicas, this`view
      ensures Valid() && capturedMasterOffset == masterReplOffset && wantedReplicas == wanted
      ensures view == old(view).(captured := old(view.offset), capturedAt := |old(view.sent)|, wanted := wanted)
      ensures count == Count(old(view.acked), old(view.offset)) == |ReachedBy(masterReplOffset)|
    {
      capturedMasterOffset, wantedReplicas := masterReplOffset, wanted;
      view := view.(captured := view.offset, capturedAt := |view.sent|, wanted := wanted);
      count := CountReplicas();
    }

    /** handle_wait of a client, at the given clock. */
    method HandleWait(client: nat, wanted: int, ms: int, now: int)
      requires Valid() && client < |clients|
      modifies this, replicas, clients
      ensures Valid() && view == Wait(old(view), wanted)
      ensures Waits() == if Count(old(view.acked), old(view.offset)) >= wanted then old(Waits())
                         else Begin(old(Waits()), client, ms, now)
      ensures var reached := |old(ReachedBy(masterReplOffset))|;
              if reached >= wanted then replies == old(replies) + [reached] && waiter == old(waiter)
              else replies == old(replies) && waiter == Some(client)
      ensures capturedMasterOffset == old(masterReplOffset) && wantedReplicas == wanted
    {
      var count := Capture(wanted);
      if count >= wanted {
        replies := replies + [count];
        view := view.(replies := replies);
        return;
      }
      AskReplicas(client, ms, now);
    }

    /** The second half of handle_wait: the client waits, and the replicas are asked. */
    method AskReplicas(client: nat, ms: int, now: int)
      requires Valid() && client < |clients|
      modifies this`waiter, this`view, replicas, clients
      ensures Valid() && Waits() == Begin(old(Waits()), client, ms, now) && waiter == Some(client)
      ensures view ==
        old(view).(waiting := true, replicas := SentTo(old(view.replicas), GETACK), sent := old(view.sent) + [GETACK])
    {
      waiter := Some(client);
      view := view.(waiting := true);
      SendToAll(GETACK);
      BlockClient(client, ms, now);
    }

    method BlockClient(client: nat, ms: int, now: int)
      requires Valid() && waiter == Some(client)
      modifies clients[client]
      ensures Valid() && Waits() == Begin(old(Waits()), client, ms, now)
    {
      var c := clients[client];
      c.isWaiting, c.isBlocked := true, true;
      c.timeoutAt := if ms == 0 then 0 else now + ms;
    }

    /** The WAIT step of the event loop, at the given clock. */
    method PollForWait(now: int)
      requires Valid()
      modifies this, clients
      ensures Valid() && view == Poll(old(view), TimedOut(old(Waits()), now))
      ensures Waits() == if view.waiting == old(view.waiting) then old(Waits()) else End(old(Waits()))
      ensures old(waiter).None? ==> replies == old(replies) && waiter.None?
      ensures old(waiter).Some? ==>
        var reached, at := |old(ReachedBy(capturedMasterOffset))|, old(clients[waiter.value].timeoutAt);
        if reached >= old(wantedReplicas) || (at != 0 && now >= at)
        then replies == old(replies) + [reached] && waiter.None?
        else replies == old(replies) && waiter == old(waiter)
    {
      if waiter.Some? {
        var count := CountReplicas();
        var at := clients[waiter.value].timeoutAt;
        if count >= wantedReplicas || (at != 0 && now >= at) {
          FinishWait(count);
        }
      }
    }

    /** The reply of a WAIT, and the end of the wait. */
    method FinishWait(count: nat)
      requires Valid() && waiter.Some?
      modifies this`replies, this`waiter, this`view, clients
      ensures Valid() && Waits() == End(old(Waits())) && waiter.None? && replies == old(replies) + [count]
      ensures view == old(view).(waiting := false, replies := old(replies) + [count])
    {
      EndWait();
      replies, waiter := replies + [count], None;
      view := view.(waiting := false, replies := replies);
    }

    /** The loop over the clients at the end of a WAIT. */
    method EndWait()
      requires Valid() && waiter.Some?
      modifies clients
      ensures Valid() && Waits().clients == End(old(Waits())).clients
    {
      ghost var was := Waits();
      var i := 0;
      while i < |clients|
        invariant i <= |clients| && Valid() && waiter.Some?
        invariant forall j | 0 <= j < i :: clients[j].View() == EndFor(was.clients[j], was.waiter == Some(j))
        invariant forall j | i <= j < |clients| :: clients[j].View() == was.clients[j]
      {
        if i == waiter.value {
          clients[i].isBlocked := false;
        }
        clients[i].isWaiting := false;
        i := i + 1;
      }
    }

    /** The pass of the event loop that releases blocked clients whose time is up. */
    method ReleaseExpired(now: int)
      requires Valid()
      modifies clients
      ensures Valid() && Waits() == Expire(old(Waits()), now)
    {
      ghost var was := Waits();
      var i := 0;
      while i < |clients|
        invariant i <= |clients| && Valid()
        invariant forall j | 0 <= j < i :: clients[j].View() == ExpireFor(was.clients[j], now)
        invariant forall j | i <= j < |clients| :: clients[j].View() == was.clients[j]
      {
        var c := clients[i];
        if c.isBlocked && c.timeoutAt != 0 && now >= c.timeoutAt && !c.isWaiting {
          c.isBlocked := false;
        }
        i := i + 1;
      }
    }

    /** The local buffer of pass_data_toReplica, filled for one replica. */
    method PrintForSending(req: Request) returns (ok: bool)
      ensures ok <==> |Print(req)| < PRINT_BUFFER
    {
      var requestAsStr := new char[PRINT_BUFFER];
      var len;
      len, ok := CopyRequestToBuffer(req, requestAsStr);
    }

    /** pass_data_toReplica; ok is false when a request does not fit its buffer. */
    method PassDataToReplica(req: Request) returns (ok: bool)
      requires Valid()
      modifies replicas, this`view
      ensures ok <==> replicas == [] || |Print(req)| < 1024
      ensures ok ==> Valid()
      ensures ok ==> view == old(view).(replicas := SentTo(old(view.replicas), req), sent := old(view.sent) + [req])
    {
      ghost var links := SentTo(view.replicas, req);
      ok := true;
      var i := 0;
      while i < |replicas|
        invariant i <= |replicas| && view == old(view) && OffsetsMatch() && Sent(links, i)
        invariant forall j | i <= j < |replicas| :: replicas[j].out == old(replicas[j].out)
        invariant i > 0 ==> |Print(req)| < PRINT_BUFFER
      {
        ok := PrintForSending(req);
        if !ok {
          return;
        }
        replicas[i].out := replicas[i].out + [req];
        i := i + 1;
      }
      view := view.(replicas := links, sent := view.sent + [req]);
    }

    /** The per-client loop after handle, for a client that is not the master. */
    method AfterHandle(req: Request, cmdByteLen: nat, ghost e: T.Event, ghost next: T.Server) returns (ok: bool)
      requires Valid() && T.Shaped(view.master) && e.client < |view.master.clients| && e.request == req
      requires T.Handle(view.master, e) == T.Next(next)
      modifies this, replicas
      ensures ok ==> Valid() && FromClient(old(view), e, cmdByteLen) == Some(view)
      ensures !ok ==> FromClient(old(view), e, cmdByteLen) == None
    {
      view := view.(master := next);
      if !IsWriteCmd(req.cmd) {
        return true;
      }
      masterReplOffset := masterReplOffset + cmdByteLen;
      view := view.(offset := view.offset + cmdByteLen);
      ok := PassDataToReplica(req);
    }
  }
}
