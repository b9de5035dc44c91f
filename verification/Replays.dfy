/** Carrying out requests again elsewhere: on a replica, or from the append-only file. */
module Replays {
  import opened Seqs
  import opened Commands
  import opened Resp
  import opened Tables
  import opened Effects
  import opened Keyspace

  /** Surroundings without blocked clients; a repeatable request depends on nothing else. */
  const PLAIN := Env(0, false, _ => 0.0)

  /** Nobody is blocked on a key where requests are carried out again. */
  ghost predicate Unserved(env: nat -> Env) { forall i :: !env(i).served }

  /** The keyspace after the requests, one after the other. */
  function Fold(t: Keys, reqs: seq<Request>): (r: Effect)
    requires |t| == TABLE_SIZE
    ensures r.Done? ==> |r.table| == TABLE_SIZE
    decreases |reqs|
  {
    if reqs == [] then Done(t)
    else
      var r := Apply(t, reqs[0], PLAIN);
      if r.Done? then Fold(r.table, reqs[1..]) else Crash
  }

  lemma {:induction false} FoldSplits(t: Keys, a: seq<Request>, b: seq<Request>)
    requires |t| == TABLE_SIZE
    ensures Fold(t, a + b) == if Fold(t, a).Done? then Fold(Fold(t, a).table, b) else Crash
    decreases |a|
  {
    if a == [] {
      assert a + b == b;
    } else {
      assert (a + b)[1..] == a[1..] + b;
      var r := Apply(t, a[0], PLAIN);
      if r.Done? {
        FoldSplits(r.table, a[1..], b);
      }
    }
  }

  lemma {:induction false} FoldOne(t: Keys, req: Request)
    requires |t| == TABLE_SIZE
    ensures Fold(t, [req]) == Apply(t, req, PLAIN)
  {
    assert [req][1..] == [];
  }

  /** The commands that can change the keyspace. */
  predicate Changes(cmd: Cmd) {
    match cmd
    case SET | INCR | LPUSH | RPUSH | LPOP | BLPOP => true
    case ZADD | ZREM | GEOADD | GEOSEARCH | XADD => true
    case _ => false
  }

  lemma {:induction false} OthersKeep(t: Keys, req: Request, env: Env)
    requires |t| == TABLE_SIZE && !Changes(req.cmd)
    ensures Apply(t, req, env) == if Touches(req) && !KeyGiven(req) then Crash else Done(t)
  {
    if Touches(req) && KeyGiven(req) {
      var b := Bucket(req.args[0]);
      assert t[b := t[b]] == t;
    }
  }

  /** A command whose recording repeats it: either it changes nothing, or it is recorded under
      its own name and repeatable, and no blocked client took part. */
  predicate Faithful(req: Request, env: Env) {
    Changes(req.cmd) ==>
      (req.cmd.SET? || req.cmd.INCR? || req.cmd.LPUSH? || req.cmd.RPUSH? || req.cmd.LPOP? || req.cmd.XADD?)
      && Repeatable(req) && !env.served
  }

  lemma {:induction false} FaithfulApplies(t: Keys, req: Request, env: Env)
    requires |t| == TABLE_SIZE && Faithful(req, env)
    ensures Apply(t, req, env) == Apply(t, req, PLAIN)
  {
    if Changes(req.cmd) {
      RepeatableApplies(t, req, env, PLAIN);
    } else {
      OthersKeep(t, req, env);
      OthersKeep(t, req, PLAIN);
    }
  }

  lemma {:induction false} FoldFirst(t: Keys, req: Request, more: seq<Request>, r: Effect)
    requires |t| == TABLE_SIZE && Apply(t, req, PLAIN) == r
    ensures Fold(t, [req] + more) == if r.Done? then Fold(r.table, more) else Crash
  {
    assert ([req] + more)[1..] == more;
  }

  // ----- carrying out records -----

  /** Handling what the read loop yields; env(i), env(i + 1), … are the surroundings. */
  function HandleAll(t: Keys, items: seq<Read>, env: nat -> Env, i: nat): (r: Effect)
    requires |t| == TABLE_SIZE
    ensures r.Done? ==> |r.table| == TABLE_SIZE
    decreases |items|
  {
    if items == [] then Done(t)
    else
      var r := Apply(t, items[0].request, env(i));
      if r.Done? then HandleAll(r.table, items[1..], env, i + 1) else Crash
  }

  lemma {:induction false} HandleAllSplits(t: Keys, a: seq<Read>, b: seq<Read>, env: nat -> Env, i: nat)
    requires |t| == TABLE_SIZE
    ensures HandleAll(t, a + b, env, i) ==
      if HandleAll(t, a, env, i).Done? then HandleAll(HandleAll(t, a, env, i).table, b, env, i + |a|) else Crash
    decreases |a|
  {
    if a == [] {
      assert a + b == b;
    } else {
      assert (a + b)[1..] == a[1..] + b;
      var r := Apply(t, a[0].request, env(i));
      if r.Done? {
        HandleAllSplits(r.table, a[1..], b, env, i + 1);
      }
    }
  }

  lemma {:induction false} HandleOne(t: Keys, items: seq<Read>, env: nat -> Env, i: nat)
    requires |t| == TABLE_SIZE && |items| == 1
    ensures HandleAll(t, items, env, i) == Apply(t, items[0].request, env(i))
  {
    assert items[1..] == [];
  }

  lemma {:induction false} ReadBackAllSplits(a: seq<Request>, b: seq<Request>)
    ensures ReadBackAll(a + b) == ReadBackAll(a) + ReadBackAll(b) && |ReadBackAll(a)| == |a|
  {
    if a == [] {
      assert a + b == b;
    } else {
      assert (a + b)[1..] == a[1..] + b;
      ReadBackAllSplits(a[1..], b);
      ConcatAssociates([Read(ReadBack(a[0]), |Print(a[0])|)], ReadBackAll(a[1..]), ReadBackAll(b));
    }
  }

  /** The requests of a history that are recorded, in the file or on the replication link. */
  function RecordedOf(h: seq<Issued>, recorded: Cmd -> bool): seq<Request> {
    if h == [] then []
    else (if recorded(h[0].request.cmd) then [h[0].request] else []) + RecordedOf(h[1..], recorded)
  }

  lemma {:induction false} LoggedAreRecorded(h: seq<Issued>)
    ensures LoggedOf(h) == RecordedOf(h, Logged)
  {
    if h != [] {
      LoggedAreRecorded(h[1..]);
    }
  }

  /** Both ways of recording take every change but those of the unrecorded commands, and neither
      takes a BLPOP or a GEOSEARCH. */
  ghost predicate Records(recorded: Cmd -> bool) {
    && (forall cmd | Changes(cmd) && !Unrecorded(cmd) :: recorded(cmd))
    && !recorded(BLPOP) && !recorded(GEOSEARCH)
  }

  /** What carrying out a record comes to. */
  lemma {:induction false} RecordCarriedOut(t: Keys, c: Issued, recorded: Cmd -> bool, again: Env)
    requires |t| == TABLE_SIZE && Records(recorded) && Apply(t, c.request, c.env).Done?
    ensures recorded(c.request.cmd) ==> Apply(t, ReadBack(c.request), again) == CarriedOut(t, c.request, again)
    ensures !recorded(c.request.cmd) ==> CarriedOut(t, c.request, again) == Done(t)
  {
    if Unrecorded(c.request.cmd) {
      if recorded(c.request.cmd) {
        OthersKeep(t, ReadBack(c.request), again);
      }
    } else if !Changes(c.request.cmd) {
      OthersKeep(t, c.request, c.env);
      OthersKeep(t, c.request, again);
    }
  }

  /** Every command of the history repeats on the table that it meets. */
  ghost predicate RepeatsAlong(t: Keys, h: seq<Issued>, recorded: Cmd -> bool, env: nat -> Env, i: nat)
    requires |t| == TABLE_SIZE
    decreases |h|
  {
    h == [] ||
    (Repeats(t, h[0].request, h[0].env, env(i)) &&
     (var r := Apply(t, h[0].request, h[0].env);
      r.Done? ==> RepeatsAlong(r.table, h[1..], recorded, env, if recorded(h[0].request.cmd) then i + 1 else i)))
  }

  lemma {:induction false} HandleFirst(t: Keys, req: Request, more: seq<Request>, env: nat -> Env, i: nat, r: Effect)
    requires |t| == TABLE_SIZE && Apply(t, ReadBack(req), env(i)) == r && r.Done?
    ensures HandleAll(t, ReadBackAll([req] + more), env, i) == HandleAll(r.table, ReadBackAll(more), env, i + 1)
  {
    assert ([req] + more)[1..] == more;
  }

  /** Carrying out the records of a history whose commands all repeat leaves what it left. */
  lemma {:induction false} RecordsRepeat(t: Keys, h: seq<Issued>, recorded: Cmd -> bool, env: nat -> Env, i: nat)
    requires |t| == TABLE_SIZE && Records(recorded) && Unserved(env)
    requires ApplyAll(t, h).Done? && RepeatsAlong(t, h, recorded, env, i)
    ensures HandleAll(t, ReadBackAll(RecordedOf(h, recorded)), env, i) == ApplyAll(t, h)
    decreases |h|
  {
    if h != [] {
      var c := h[0];
      var r := Apply(t, c.request, c.env);
      RepeatsIff(t, c.request, c.env, env(i));
      RecordCarriedOut(t, c, recorded, env(i));
      var more := RecordedOf(h[1..], recorded);
      if recorded(c.request.cmd) {
        RecordsRepeat(r.table, h[1..], recorded, env, i + 1);
        HandleFirst(t, c.request, more, env, i, r);
      } else {
        RecordsRepeat(r.table, h[1..], recorded, env, i);
        assert [] + more == more;
      }
    }
  }
}
