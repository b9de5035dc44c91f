/** The list of list_handler.c in memory: an array shifted in place, and the table of clients
    that BLPOP blocks and RPUSH wakes. */
module ListArray {
  import opened Seqs
  import opened CStrings
  import opened Tables
  import opened Lists

  datatype Reply = Count(n: int) | Empty | RangeError | Elements(items: seq<string>) | One(item: string)

  class List {
    var values: array<string>
    var size: nat

    ghost predicate Valid()
      reads this
    {
      size <= values.Length
    }

    ghost function Items(): seq<string>
      requires Valid()
      reads this, values
    {
      values[..size]
    }

    constructor (capacity: nat)
      ensures Valid() && fresh(values) && Items() == []
    {
      values, size := new string[capacity](_ => ""), 0;
    }

    /** realloc to exactly the given capacity. */
    method Resize(capacity: nat)
      requires Valid() && size <= capacity
      modifies this
      ensures Valid() && fresh(values) && values.Length == capacity && Items() == old(Items()) && size == old(size)
    {
      var grown := new string[capacity](_ => "");
      for i := 0 to size
        invariant values == old(values) && size == old(size)
        invariant forall j | 0 <= j < i :: grown[j] == values[j]
      {
        grown[i] := values[i];
      }
      values := grown;
    }

    /** The append of handle_rpush. */
    method Append(items: seq<string>)
      requires Valid()
      modifies this, values
      ensures Valid() && fresh(values) && Items() == old(Items()) + items
    {
      Resize(size + |items|);
      ghost var was := Items();
      for i := 0 to |items|
        invariant Valid() && fresh(values) && values.Length == |was| + |items|
        invariant size == |was| + i && Items() == was + items[..i]
      {
        values[size] := items[i];
        size := size + 1;
        assert items[..i + 1] == items[..i] + [items[i]];
      }
    }

    /** The first loop of handle_lpush: shift the elements right. */
    method ShiftRight(newCount: nat)
      requires Valid() && size + newCount == values.Length
      modifies values
      ensures values[..][newCount..] == old(Items())
    {
      ghost var was := Items();
      var i := size - 1;
      while i >= 0
        invariant -1 <= i < size
        invariant forall j | 0 <= j <= i :: values[j] == was[j]
        invariant forall j | i + newCount < j < size + newCount :: values[j] == was[j - newCount]
      {
        values[i + newCount] := values[i];
        i := i - 1;
      }
    }

    /** The second loop of handle_lpush: fill the front in reverse order. */
    method FillFront(items: seq<string>)
      requires |items| <= values.Length
      modifies values
      ensures values[..] == Reversed(items) + old(values[..])[|items|..]
    {
      var newCount := |items|;
      for k := 1 to newCount + 1
        invariant forall j | newCount <= j < values.Length :: values[j] == old(values[j])
        invariant forall j | newCount - k < j < newCount :: values[j] == items[newCount - 1 - j]
      {
        values[newCount - k] := items[k - 1];
      }
    }

    /** handle_lpush */
    method Prepend(items: seq<string>) returns (reply: Reply)
      requires Valid()
      modifies this, values
      ensures Valid() && fresh(values) && Items() == Reversed(items) + old(Items())
      ensures reply == Count(|items| + |old(Items())|)
    {
      var newCount := |items|;
      Resize(size + newCount);
      ghost var was := Items();
      ShiftRight(newCount);
      FillFront(items);
      size := size + newCount;
      assert values[..] == Reversed(items) + was;
      assert Items() == values[..];
      return Count(size);
    }

    /** The shift that removes the first elements in place. */
    method DropFront(count: nat)
      requires Valid() && count <= size
      modifies this, values
      ensures Valid() && values == old(values) && Items() == old(Items())[count..]
    {
      ghost var was := Items();
      for i := 0 to size - count
        invariant values == old(values) && size == old(size) && Valid()
        invariant forall j | 0 <= j < i :: values[j] == was[j + count]
        invariant forall j | i <= j < size :: values[j] == was[j]
      {
        values[i] := values[i + count];
      }
      size := size - count;
    }

    /** handle_lpop, with the key as args[0]. */
    method LPop(args: seq<string>) returns (reply: Reply)
      requires Valid() && args != []
      modifies this, values
      ensures Valid() && values == old(values)
      ensures var l, count := old(Items()), PopCount(args, |old(Items())|);
              if count.None? then reply == RangeError && Items() == l
              else Items() == l[count.value..] && ReplyShows(reply, l[..count.value])
      ensures OutOfRange(args, |old(Items())|) ==> reply == RangeError && Items() == old(Items())
      ensures !OutOfRange(args, |old(Items())|) ==> TakesOf(args, |old(Items())|, |old(Items())| - |Items()|)
    {
      if size == 0 {
        return Empty;
      }
      if |args| == 2 {
        var count := Atoi(args[1]);
        if count < 0 {
          return RangeError;
        }
        if count == 0 {
          return Empty;
        }
        if count > size {
          count := size;
        }
        reply := Elements(values[..count]);
        DropFront(count);
        return;
      }
      reply := One(values[0]);
      DropFront(1);
    }

    /** handle_rpop, with the key as args[0]. */
    method RPop(args: seq<string>) returns (reply: Reply)
      requires Valid() && args != []
      modifies this
      ensures Valid() && values == old(values)
      ensures var l, count := old(Items()), PopCount(args, |old(Items())|);
              if count.None? then reply == RangeError && Items() == l
              else Items() == l[..|l| - count.value] && ReplyShows(reply, l[|l| - count.value..])
      ensures OutOfRange(args, |old(Items())|) ==> reply == RangeError && Items() == old(Items())
      ensures !OutOfRange(args, |old(Items())|) ==> TakesOf(args, |old(Items())|, |old(Items())| - |Items()|)
    {
      if size == 0 {
        return Empty;
      }
      if |args| == 2 {
        var count := Atoi(args[1]);
        if count < 0 {
          return RangeError;
        }
        if count == 0 {
          return Empty;
        }
        if count > size {
          count := size;
        }
        reply := Elements(values[size - count..size]);
        size := size - count;
        return;
      }
      reply := One(values[size - 1]);
      size := size - 1;
    }

    /** handle_lrange, with the bounds as read. */
    method LRange(start: int, end: int) returns (items: seq<string>)
      requires Valid()
      ensures items == Range(Items(), start, end)
    {
      var startIndex, endIndex := start, end;
      if Magnitude(startIndex) > size {
        startIndex := 0;
      }
      if Magnitude(endIndex) > size {
        startIndex := 0;
      }
      if startIndex < 0 {
        startIndex := size - Magnitude(startIndex);
      }
      if endIndex < 0 {
        endIndex := size - Magnitude(endIndex);
      }
      if startIndex >= size || startIndex > endIndex {
        return [];
      }
      if startIndex == endIndex {
        return [values[startIndex]];
      }
      if endIndex >= size {
        endIndex := size - 1;
      }
      items := CopyRange(startIndex, endIndex);
    }

    /** The loop of handle_lrange over the elements. */
    method CopyRange(startIndex: nat, endIndex: nat) returns (items: seq<string>)
      requires Valid() && startIndex <= endIndex < size
      ensures items == Items()[startIndex..endIndex + 1]
    {
      items := [];
      for i := startIndex to endIndex + 1
        invariant items == Items()[startIndex..i]
      {
        SliceGrows(Items(), startIndex, i);
        items := items + [values[i]];
      }
    }
  }

  /** The reply lists exactly the given elements, in order. */
  predicate ReplyShows(reply: Reply, items: seq<string>) {
    match reply
    case Empty => items == []
    case One(item) => items == [item]
    case Elements(shown) => items == shown
    case _ => false
  }

  // ----- clients -----

  class Client {
    var isBlpop: bool
    var isBlocked: bool
    var waitingForKey: Option<string>
    var blockedAt: int
    var timeoutAt: int
    /** Replies of BLPOP: the key and the element. */
    var received: seq<(string, string)>

    /** The client as the RPUSH loop sees it. */
    function AsWaiter(): Waiter
      reads this
    {
      if isBlpop && isBlocked && waitingForKey.Some? then Waiting(waitingForKey.value, blockedAt, timeoutAt) else Idle
    }

    constructor ()
      ensures AsWaiter() == Idle && received == []
    {
      isBlpop, isBlocked, waitingForKey, blockedAt, timeoutAt, received := false, false, None, 0, 0, [];
    }

    /** The blocking part of handle_blpop. */
    method Block(key: string, now: int, timeout: int)
      modifies this
      ensures AsWaiter() == Waiting(key, now, timeout) && received == old(received)
    {
      timeoutAt := timeout;
      isBlpop := true;
      isBlocked := true;
      blockedAt := now;
      waitingForKey := Some(key);
    }

    method Deliver(key: string, item: string)
      modifies this
      ensures AsWaiter() == Idle && received == old(received) + [(key, item)]
    {
      received := received + [(key, item)];
      isBlocked := false;
      isBlpop := false;
      waitingForKey := None;
    }
  }

  ghost function Waiters(clients: seq<Client>): (ws: seq<Waiter>)
    reads clients
    ensures |ws| == |clients|
    ensures forall i | 0 <= i < |clients| :: ws[i] == clients[i].AsWaiter()
  {
    seq(|clients|, i requires 0 <= i < |clients| reads clients => clients[i].AsWaiter())
  }

  /** The loop of handle_rpush over the clients: the longest positive wait, the first of equals. */
  method FindLongestWaiting(clients: seq<Client>, key: string, now: int) returns (longest: Client?)
    ensures var i := Served(Waiters(clients), key, now, |clients|);
            longest == if i.Some? then clients[i.value] else null
  {
    ghost var ws, i: Option<nat> := Waiters(clients), None;
    longest := null;
    var biggest := 0;
    for n := 0 to |clients|
      invariant i == Served(ws, key, now, n)
      invariant longest == if i.Some? then clients[i.value] else null
      invariant biggest == if i.Some? then WaitTime(ws[i.value], now) else 0
    {
      var c := clients[n];
      if c.isBlpop && c.isBlocked && c.waitingForKey == Some(key) {
        var waiting := if now >= c.blockedAt then now - c.blockedAt else c.blockedAt - now;
        if waiting > biggest {
          biggest := waiting;
          longest := c;
          i := Some(n);
        }
      }
    }
  }

  /** handle_rpush after the key lookup: append, then hand the head to the client that has
      waited longest. */
  method RPush(list: List, clients: seq<Client>, key: string, items: seq<string>, now: int) returns (reply: Reply)
    requires list.Valid() && items != []
    modifies list, list.values, clients
    ensures list.Valid() && reply == Count(|old(list.Items())| + |items|)
    ensures var all, served := old(list.Items()) + items, Served(old(Waiters(clients)), key, now, |clients|);
            && list.Items() == (if served.Some? then all[1..] else all)
            && (served.Some? ==> clients[served.value].AsWaiter() == Idle)
            && (served.Some? ==>
                  clients[served.value].received == old(clients[served.value].received) + [(key, all[0])])
            && (forall c | c in clients && (served.None? || c != clients[served.value]) :: unchanged(c))
  {
    list.Append(items);
    reply := Count(list.size);
    assert Waiters(clients) == old(Waiters(clients));
    var longest := FindLongestWaiting(clients, key, now);
    if longest != null {
      longest.Deliver(key, list.values[0]);
      list.DropFront(1);
    }
  }
}
