/** The linked chain of set_handler.c and the commands that relink it in place. */
module SortedSetChain {
  import opened Seqs
  import opened SortedSets

  class ZSetEntry {
    const member: string
    const score: real
    var next: ZSetEntry?

    constructor (score: real, member: string)
      ensures this.score == score && this.member == member && next == null
    {
      this.score, this.member, next := score, member, null;
    }
  }

  /** The items that the nodes of a chain hold. */
  ghost predicate Holds(spine: seq<ZSetEntry>, items: seq<Item>) {
    |spine| == |items| && forall i | 0 <= i < |spine| :: items[i] == Item(spine[i].score, spine[i].member)
  }

  lemma {:induction false} EditsKeepHolds(spine: seq<ZSetEntry>, items: seq<Item>, i: nat, node: ZSetEntry)
    requires Holds(spine, items) && i <= |spine|
    ensures i < |spine| ==> Holds(RemoveAt(spine, i), RemoveAt(items, i))
    ensures Holds(InsertAt(spine, i, node), InsertAt(items, i, Item(node.score, node.member)))
  {
  }

  /** The link that leads to node i: null past the last node. */
  ghost function LinkOf(spine: seq<ZSetEntry>, i: nat): ZSetEntry? {
    if i < |spine| then spine[i] else null
  }

  /** Every node leads to the one after it, and the last one nowhere. */
  ghost predicate Linked(spine: seq<ZSetEntry>)
    reads spine
  {
    forall i {:trigger spine[i].next} | 0 <= i < |spine| :: spine[i].next == LinkOf(spine, i + 1)
  }

  lemma {:induction false} LinkedWithout(was: seq<ZSetEntry>, i: nat)
    requires i < |was|
    requires forall k {:trigger was[k].next} | 0 <= k < |was| && k != i && k + 1 != i ::
               was[k].next == LinkOf(was, k + 1)
    requires i > 0 ==> was[i - 1].next == LinkOf(was, i + 1)
    ensures Linked(RemoveAt(was, i))
  {
    var r := RemoveAt(was, i);
    forall k {:trigger r[k].next} | 0 <= k < |r| ensures r[k].next == LinkOf(r, k + 1) {
      assert r[k] == if k < i then was[k] else was[k + 1];
    }
  }

  lemma {:induction false} LinkedWith(was: seq<ZSetEntry>, i: nat, node: ZSetEntry)
    requires i <= |was| && node.next == LinkOf(was, i)
    requires forall k {:trigger was[k].next} | 0 <= k < |was| && k + 1 != i :: was[k].next == LinkOf(was, k + 1)
    requires i > 0 ==> was[i - 1].next == node
    ensures Linked(InsertAt(was, i, node))
  {
    var r := InsertAt(was, i, node);
    forall k {:trigger r[k].next} | 0 <= k < |r| ensures r[k].next == LinkOf(r, k + 1) {
      assert r[k] == if k < i then was[k] else if k == i then node else was[k - 1];
    }
  }

  /** What a command sends back; the other replies of these handlers are texts. */
  datatype Reply = NoReply | BadRequest | Null | Integer(n: int) | Array(members: seq<string>)

  class ZSet {
    var head: ZSetEntry?
    var length: int
    /** The nodes from head to the null link, and the (score, member) items they hold. */
    ghost var spine: seq<ZSetEntry>
    ghost var items: seq<Item>
    ghost var nodes: set<ZSetEntry>

    ghost predicate Valid()
      reads this, nodes
    {
      && (forall i | 0 <= i < |spine| :: spine[i] in nodes)
      && length == |spine|
      && head == Link(0)
      && Linked(spine)
      && Holds(spine, items)
      && Distinct(spine)
    }

    ghost function Link(i: nat): ZSetEntry?
      reads this
    {
      LinkOf(spine, i)
    }

    constructor ()
      ensures Valid() && items == [] && nodes == {}
    {
      head, length, spine, items, nodes := null, 0, [], [], {};
    }

    /** Takes node i out of the chain. */
    method Unlink(prev: ZSetEntry?, curr: ZSetEntry, ghost i: nat)
      requires Valid() && i < |spine| && curr == spine[i]
      requires prev == (if i == 0 then null else spine[i - 1])
      modifies this, nodes
      ensures Valid() && nodes == old(nodes)
      ensures items == RemoveAt(old(items), i)
    {
      ghost var was := spine;
      if prev == null {
        head := curr.next;
      } else {
        prev.next := curr.next;
      }
      assert forall k | 0 <= k < |was| && k + 1 != i :: was[k] != prev;
      LinkedWithout(was, i);
      EditsKeepDistinct(spine, i, curr);
      EditsKeepHolds(spine, items, i, curr);
      length := length - 1;
      spine, items := RemoveAt(spine, i), RemoveAt(items, i);
    }

    /** Puts a node in front of the chain. */
    method LinkFirst(newNode: ZSetEntry)
      requires Valid() && newNode !in nodes
      modifies this, newNode
      ensures Valid() && nodes == old(nodes) + {newNode}
      ensures items == InsertAt(old(items), 0, Item(newNode.score, newNode.member))
    {
      newNode.next := head;
      head := newNode;
      LinkedWith(spine, 0, newNode);
      EditsKeepDistinct(spine, 0, newNode);
      EditsKeepHolds(spine, items, 0, newNode);
      length := length + 1;
      nodes := nodes + {newNode};
      spine, items := InsertAt(spine, 0, newNode), InsertAt(items, 0, Item(newNode.score, newNode.member));
    }

    /** Puts a node into the chain after node i - 1. */
    method LinkAfter(prev: ZSetEntry, curr: ZSetEntry?, newNode: ZSetEntry, ghost i: nat)
      requires Valid() && 0 < i <= |spine| && prev == spine[i - 1] && curr == Link(i) && newNode !in nodes
      modifies this, nodes, newNode
      ensures Valid() && nodes == old(nodes) + {newNode}
      ensures items == InsertAt(old(items), i, Item(newNode.score, newNode.member))
    {
      ghost var was := spine;
      newNode.next := curr;
      prev.next := newNode;
      assert forall k | 0 <= k < |was| && k + 1 != i :: was[k] != prev;
      LinkedWith(was, i, newNode);
      EditsKeepDistinct(spine, i, newNode);
      EditsKeepHolds(spine, items, i, newNode);
      length := length + 1;
      nodes := nodes + {newNode};
      spine, items := InsertAt(spine, i, newNode), InsertAt(items, i, Item(newNode.score, newNode.member));
    }

    /** zset_remove */
    method Remove(member: string) returns (existed: bool)
      requires Valid()
      modifies this, nodes
      ensures Valid() && nodes == old(nodes)
      ensures existed == Has(old(items), member)
      ensures items == Removed(old(items), member)
    {
      var curr, prev := head, null;
      ghost var i := 0;
      while curr != null
        invariant 0 <= i <= |spine| && curr == Link(i)
        invariant prev == (if i == 0 then null else spine[i - 1])
        invariant forall j | 0 <= j < i :: items[j].member != member
        decreases |spine| - i
      {
        if curr.member == member {
          assert IndexOf(items, member) == i;
          Unlink(prev, curr, i);
          return true;
        }
        prev := curr;
        curr := curr.next;
        i := i + 1;
      }
      return false;
    }

    /** zset_add */
    method Add(score: real, member: string)
      requires Valid()
      modifies this, nodes
      ensures Valid() && fresh(nodes - old(nodes))
      ensures items == Inserted(old(items), Item(score, member))
      ensures var was, p := old(items), Position(old(items), Item(score, member));
              && items == was[..p] + [Item(score, member)] + was[p..]
              && (forall j | 0 <= j < p :: Lower(was[j].score, was[j].member, score, member))
              && (p < |was| ==> !Lower(was[p].score, was[p].member, score, member))
    {
      InsertedAfterLower(items, Item(score, member));
      var newNode := new ZSetEntry(score, member);
      var curr, prev := head, null;
      ghost var i := 0;
      while curr != null
        invariant 0 <= i <= |spine| && curr == Link(i)
        invariant prev == (if i == 0 then null else spine[i - 1])
        invariant forall j | 0 <= j < i :: Before(items[j], Item(score, member))
        decreases |spine| - i
      {
        if curr.score < score {
          prev := curr;
          curr := curr.next;
        } else if curr.score == score && CStrings.Less(curr.member, member) {
          prev := curr;
          curr := curr.next;
        } else {
          break;
        }
        i := i + 1;
      }
      assert Position(items, Item(score, member)) == i;
      if prev == null {
        LinkFirst(newNode);
      } else {
        LinkAfter(prev, curr, newNode, i);
      }
    }

    /** The update of one member, as ZADD makes it: zset_remove, then zset_add. */
    method Replace(score: real, member: string) returns (existed: bool)
      requires Valid() && Canonical(items)
      modifies this, nodes
      ensures Valid() && Canonical(items) && fresh(nodes - old(nodes))
      ensures existed == Has(old(items), member)
      ensures items == Put(old(items), Item(score, member))
      ensures length == old(length) + (if existed then 0 else 1)
    {
      PutKeepsCanonical(items, Item(score, member));
      existed := Remove(member);
      Add(score, member);
    }

    /** The loop of handle_zadd over its (score, member) arguments. */
    method ReplaceAll(atof: string -> real, args: seq<string>) returns (created: int)
      requires Valid() && Canonical(items) && |args| > 0
      modifies this, nodes
      ensures Valid() && Canonical(items) && fresh(nodes - old(nodes))
      ensures items == PutAll(old(items), PairsOf(atof, args, 1))
      ensures created == length - old(length)
    {
      ghost var target := PutAll(items, PairsOf(atof, args, 1));
      created := 0;
      var i := 1;
      while i < |args| - 1
        invariant Valid() && Canonical(items) && fresh(nodes - old(nodes))
        invariant 1 <= i && PutAll(items, PairsOf(atof, args, i)) == target
        invariant created == length - old(length)
      {
        PutAllStep(items, atof, args, i);
        var existed := Replace(atof(args[i]), args[i + 1]);
        if !existed {
          created := created + 1;
        }
        i := i + 2;
      }
      PutAllStep(items, atof, args, i);
    }

    /** handle_zadd of a single pair. */
    method ReplacePair(atof: string -> real, args: seq<string>) returns (created: int)
      requires Valid() && Canonical(items) && |args| == 3
      modifies this, nodes
      ensures Valid() && Canonical(items) && fresh(nodes - old(nodes))
      ensures items == PutAll(old(items), PairsOf(atof, args, 1))
      ensures created == length - old(length)
    {
      PutAllStep(items, atof, args, 1);
      var existed := Replace(atof(args[1]), args[2]);
      PutAllStep(items, atof, args, 3);
      created := if existed then 0 else 1;
    }

    /** handle_zadd on the set stored at args[0]; atof reads a score. */
    method ZAdd(atof: string -> real, args: seq<string>) returns (reply: Reply)
      requires Valid() && Canonical(items)
      modifies this, nodes
      ensures Valid() && Canonical(items) && fresh(nodes - old(nodes))
      ensures |args| < 3 ==> reply == NoReply && items == old(items)
      ensures |args| >= 3 && (|args| - 1) % 2 != 0 ==> reply == BadRequest && items == old(items)
      ensures |args| >= 3 && (|args| - 1) % 2 == 0 ==>
        && items == PutAll(old(items), PairsOf(atof, args, 1))
        && reply == Integer(length - old(length))
    {
      if |args| < 3 {
        return NoReply;
      }
      if (|args| - 1) % 2 != 0 {
        return BadRequest;
      }
      var created;
      if (|args| - 1) / 2 > 1 {
        created := ReplaceAll(atof, args);
      } else {
        created := ReplacePair(atof, args);
      }
      return Integer(created);
    }

    /** The update of one member, as ZREM makes it. */
    method RemoveOne(member: string) returns (existed: bool)
      requires Valid() && Canonical(items)
      modifies this, nodes
      ensures Valid() && Canonical(items) && nodes == old(nodes)
      ensures items == Removed(old(items), member)
      ensures length == old(length) - (if existed then 1 else 0)
    {
      RemovedKeepsCanonical(items, member);
      existed := Remove(member);
    }

    /** The loop of handle_zrem over its members. */
    method RemoveEach(args: seq<string>) returns (totalRemoved: int)
      requires Valid() && Canonical(items) && |args| > 0
      modifies this, nodes
      ensures Valid() && Canonical(items) && nodes == old(nodes)
      ensures items == RemovedAll(old(items), args[1..])
      ensures totalRemoved == old(length) - length
    {
      ghost var target := RemovedAll(items, args[1..]);
      totalRemoved := 0;
      for i := 1 to |args|
        invariant Valid() && Canonical(items) && nodes == old(nodes)
        invariant RemovedAll(items, args[i..]) == target
        invariant totalRemoved == old(length) - length
      {
        RemovedAllStep(items, args, i);
        var existed := RemoveOne(args[i]);
        if existed {
          totalRemoved := totalRemoved + 1;
        }
      }
    }

    /** handle_zrem on the set stored at args[0]. */
    method ZRem(args: seq<string>) returns (reply: Reply)
      requires Valid() && Canonical(items)
      modifies this, nodes
      ensures Valid() && Canonical(items) && nodes == old(nodes)
      ensures |args| < 2 ==> reply == NoReply && items == old(items)
      ensures |args| >= 2 ==>
        && items == RemovedAll(old(items), args[1..])
        && reply == Integer(old(length) - length)
    {
      if |args| < 2 {
        return NoReply;
      }
      var totalRemoved := RemoveEach(args);
      return Integer(totalRemoved);
    }

    /** handle_zrank on the set stored at the key. */
    method ZRank(member: string) returns (reply: Reply)
      requires Valid()
      requires Canonical(items)
      ensures var m := Scores(items);
              reply == if member in m then Integer(|Below(m, member)|) else Null
    {
      CanonicalRepresentsScores(items);
      ScoresMembership(items, Item(0.0, member));
      var ptr := head;
      var i := 0;
      while i < length
        invariant 0 <= i <= |spine| && ptr == Link(i)
        invariant forall j | 0 <= j < i :: spine[j].member != member
      {
        if ptr == null {
          break;
        }
        if member == ptr.member {
          assert IndexOf(items, member) == i;
          RankCountsBelow(items, Scores(items), member);
          return Integer(i);
        }
        ptr := ptr.next;
        i := i + 1;
      }
      return Null;
    }

    /** The two walks of handle_zrange: every ptr.next below is taken on a non-null ptr. */
    method Collect(startIndex: nat, endIndex: nat) returns (members: seq<string>)
      requires Valid() && startIndex <= endIndex < length
      ensures members == Names(items[startIndex..endIndex + 1])
    {
      var ptr := head;
      for i := 0 to startIndex
        invariant ptr == Link(i)
      {
        ptr := ptr.next;
      }
      ghost var names := Names(items);
      members := [];
      for i := startIndex to endIndex + 1
        invariant ptr == Link(i)
        invariant members == names[startIndex..i]
      {
        SliceGrows(names, startIndex, i);
        members := members + [ptr.member];
        ptr := ptr.next;
      }
      NamesOfSlice(items, startIndex, endIndex + 1);
    }

    /** The bounds of handle_zrange, resolved and clamped. */
    method Bounds(start: int, end: int) returns (startIndex: int, endIndex: int)
      requires Valid()
      ensures startIndex == if Resolved(start, length) < 0 then 0 else Resolved(start, length)
      ensures endIndex == if Resolved(end, length) >= length then length - 1 else Resolved(end, length)
    {
      var setLen := length;
      startIndex, endIndex := start, end;
      if startIndex < 0 { startIndex := startIndex + setLen; }
      if endIndex < 0 { endIndex := endIndex + setLen; }
      if startIndex < 0 { startIndex := 0; }
      if endIndex >= setLen { endIndex := setLen - 1; }
    }

    /** handle_zrange on the set stored at the key. */
    method ZRange(start: int, end: int) returns (reply: Reply)
      requires Valid()
      ensures reply == Array(Names(Slice(items, start, end)))
    {
      var startIndex, endIndex := Bounds(start, end);
      if startIndex > endIndex || startIndex >= length {
        return Array([]);
      }
      var members := Collect(startIndex, endIndex);
      return Array(members);
    }
  }
}
