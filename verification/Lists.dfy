/** Lists with blocked readers (list_handler.c), as values: what the list commands do to a
    list, which waiting client an RPUSH serves, and what every run conserves. */
module Lists {
  import opened Seqs
  import opened CStrings
  import opened Tables

  // ----- one list -----

  function Reversed(s: seq<string>): (r: seq<string>)
    ensures |r| == |s|
    ensures forall i | 0 <= i < |s| :: r[i] == s[|s| - 1 - i]
    ensures multiset(r) == multiset(s)
  {
    if s == [] then []
    else
      assert s == [s[0]] + s[1..];
      Reversed(s[1..]) + [s[0]]
  }

  /** A pop with these arguments takes k of n elements: one, or as many as the count says, or all
      when the count says more. */
  predicate TakesOf(args: seq<string>, n: nat, k: int) {
    if n == 0 then k == 0
    else if |args| != 2 then k == 1
    else 0 <= k <= n && k <= Atoi(args[1]) && (k == n || k == Atoi(args[1]))
  }

  /** A count below 0 for a list that is not empty. */
  predicate OutOfRange(args: seq<string>, n: nat) { |args| == 2 && Atoi(args[1]) < 0 && n > 0 }

  /** How many elements LPOP and RPOP remove from a list of n elements; None is the range error.
      Only a request with exactly one argument after the key carries a count. */
  function PopCount(args: seq<string>, n: nat): (r: Option<nat>)
    requires args != []
    ensures r.Some? ==> r.value <= n
    ensures if OutOfRange(args, n) then r.None? else r.Some? && TakesOf(args, n, r.value)
  {
    if n == 0 then Some(0)
    else if |args| != 2 then Some(1)
    else
      var count := Atoi(args[1]);
      if count < 0 then None else if count > n then Some(n) else Some(count)
  }

  // ----- waiting clients -----

  /** A client blocked by BLPOP on a key since a given clock, or not waiting; a timeout of 0 is
      none. */
  datatype Waiter = Idle | Waiting(key: string, blockedAt: int, timeoutAt: int)

  predicate WaitsFor(w: Waiter, key: string) { w.Waiting? && w.key == key }

  /** fabs(now - blocked_at) */
  function WaitTime(w: Waiter, now: int): nat
    requires w.Waiting?
  {
    if now >= w.blockedAt then now - w.blockedAt else w.blockedAt - now
  }

  /** Client i has waited longest among the first n, by a positive time; the first of equals. */
  ghost predicate LongestWait(ws: seq<Waiter>, key: string, now: int, n: nat, i: nat)
    requires n <= |ws|
  {
    && i < n && WaitsFor(ws[i], key) && WaitTime(ws[i], now) > 0
    && (forall j | 0 <= j < n && WaitsFor(ws[j], key) :: WaitTime(ws[j], now) <= WaitTime(ws[i], now))
    && (forall j | 0 <= j < i && WaitsFor(ws[j], key) :: WaitTime(ws[j], now) < WaitTime(ws[i], now))
  }

  /** The client that an RPUSH on the key serves, searching the first n. */
  function Served(ws: seq<Waiter>, key: string, now: int, n: nat): (r: Option<nat>)
    requires n <= |ws|
    ensures r.Some? ==> LongestWait(ws, key, now, n, r.value)
    ensures r.None? ==> forall j | 0 <= j < n && WaitsFor(ws[j], key) :: WaitTime(ws[j], now) == 0
  {
    if n == 0 then None
    else
      var best := Served(ws, key, now, n - 1);
      var w := ws[n - 1];
      if WaitsFor(w, key) && WaitTime(w, now) > (if best.Some? then WaitTime(ws[best.value], now) else 0)
      then Some(n - 1)
      else best
  }

  // ----- runs -----

  /** The lists by key, the waiting clients, and per key the elements handed out so far. */
  datatype State = State(lists: map<string, seq<string>>, waiters: seq<Waiter>, taken: map<string, seq<string>>)

  datatype Event =
    | RPush(key: string, items: seq<string>, now: int)
    | LPush(key: string, items: seq<string>)
    | LPop(key: string, args: seq<string>)
    | RPop(key: string, args: seq<string>)
    | Blpop(client: nat, key: string, now: int, timeoutAt: int)
    | Timeout(client: nat, now: int)

  function At(m: map<string, seq<string>>, key: string): seq<string> {
    if key in m then m[key] else []
  }

  /** Removes the first n elements of the key's list and hands them out, in order. */
  function TakeFront(s: State, key: string, n: nat): State
    requires n <= |At(s.lists, key)|
  {
    var l := At(s.lists, key);
    s.(lists := s.lists[key := l[n..]], taken := s.taken[key := At(s.taken, key) + l[..n]])
  }

  function TakeBack(s: State, key: string, n: nat): State
    requires n <= |At(s.lists, key)|
  {
    var l := At(s.lists, key);
    s.(lists := s.lists[key := l[..|l| - n]], taken := s.taken[key := At(s.taken, key) + l[|l| - n..]])
  }

  /** An RPUSH before it serves a client. */
  function Appended(s: State, key: string, items: seq<string>): State {
    s.(lists := s.lists[key := At(s.lists, key) + items])
  }

  /** Events that the server can see: a push carries an element, a pop its arguments, a client
      that waits sends nothing, and a timeout comes when it is due. */
  predicate Enabled(s: State, e: Event) {
    match e
    case RPush(_, items, _) => items != []
    case LPush(_, items) => items != []
    case LPop(_, args) => args != []
    case RPop(_, args) => args != []
    case Blpop(c, _, _, _) => c < |s.waiters| && s.waiters[c].Idle?
    case Timeout(c, now) =>
      c < |s.waiters| && s.waiters[c].Waiting? && s.waiters[c].timeoutAt != 0 && now >= s.waiters[c].timeoutAt
  }

  /** Hands the first element to the client that an RPUSH serves, if it serves one. */
  function Serve(s: State, key: string, served: Option<nat>): State
    requires At(s.lists, key) != [] && (served.Some? ==> served.value < |s.waiters|)
  {
    match served
    case None => s
    case Some(i) => TakeFront(s.(waiters := s.waiters[i := Idle]), key, 1)
  }

  /** A pop of the given number of elements, or its range error; a missing key stays missing. */
  function PopFront(s: State, key: string, count: Option<nat>): State
    requires count.Some? ==> count.value <= |At(s.lists, key)|
  {
    if count.Some? && key in s.lists then TakeFront(s, key, count.value) else s
  }

  function PopBack(s: State, key: string, count: Option<nat>): State
    requires count.Some? ==> count.value <= |At(s.lists, key)|
  {
    if count.Some? && key in s.lists then TakeBack(s, key, count.value) else s
  }

  function Step(s: State, e: Event): State
    requires Enabled(s, e)
  {
    match e
    case RPush(key, items, now) => Serve(Appended(s, key, items), key, Served(s.waiters, key, now, |s.waiters|))
    case LPush(key, items) => s.(lists := s.lists[key := Reversed(items) + At(s.lists, key)])
    case LPop(key, args) => PopFront(s, key, PopCount(args, |At(s.lists, key)|))
    case RPop(key, args) => PopBack(s, key, PopCount(args, |At(s.lists, key)|))
    case Blpop(c, key, now, timeoutAt) =>
      if At(s.lists, key) != [] then TakeFront(s, key, 1)
      else s.(waiters := s.waiters[c := Waiting(key, now, timeoutAt)])
    case Timeout(c, now) => GiveUp(s, c)
  }

  /** handle_endblpop: the client is released; if its list has an element by now, the client is
      sent the first one, which stays in the list. */
  function GiveUp(s: State, client: nat): State
    requires client < |s.waiters| && s.waiters[client].Waiting?
  {
    var key := s.waiters[client].key;
    s.(waiters := s.waiters[client := Idle],
       taken := s.taken[key := At(s.taken, key) + LeftBehind(s, client, key)])
  }

  /** What a timeout hands out without removing it from the key's list. */
  function LeftBehind(s: State, client: nat, key: string): seq<string>
    requires client < |s.waiters| && s.waiters[client].Waiting?
  {
    if s.waiters[client].key == key && At(s.lists, key) != [] then [At(s.lists, key)[0]] else []
  }

  /** What LPOP hands out and leaves. */
  lemma {:induction false} LPopTakes(s: State, key: string, args: seq<string>)
    requires args != []
    ensures var r, l := Step(s, LPop(key, args)), At(s.lists, key);
            var rest := At(r.lists, key);
            if OutOfRange(args, |l|) then rest == l && At(r.taken, key) == At(s.taken, key)
            else
              var k := |l| - |rest|;
              TakesOf(args, |l|, k) && rest == l[k..] && At(r.taken, key) == At(s.taken, key) + l[..k]
  {
    var l := At(s.lists, key);
    if key !in s.lists {
      assert At(s.taken, key) + l[..0] == At(s.taken, key);
    }
  }

  /** What RPOP hands out and leaves. */
  lemma {:induction false} RPopTakes(s: State, key: string, args: seq<string>)
    requires args != []
    ensures var r, l := Step(s, RPop(key, args)), At(s.lists, key);
            var rest := At(r.lists, key);
            if OutOfRange(args, |l|) then rest == l && At(r.taken, key) == At(s.taken, key)
            else
              var k := |l| - |rest|;
              && TakesOf(args, |l|, k) && rest == l[..|l| - k]
              && At(r.taken, key) == At(s.taken, key) + l[|l| - k..]
  {
    var l := At(s.lists, key);
    if key !in s.lists {
      assert At(s.taken, key) + l[|l|..] == At(s.taken, key);
    }
  }

  /** All the elements an event pushes to the key. */
  function PushedBy(e: Event, key: string): seq<string> {
    match e
    case RPush(k, items, _) => if k == key then items else []
    case LPush(k, items) => if k == key then items else []
    case _ => []
  }

  ghost predicate IsRun(states: seq<State>, events: seq<Event>) {
    && |states| == |events| + 1
    && forall i | 0 <= i < |events| :: Enabled(states[i], events[i]) && states[i + 1] == Step(states[i], events[i])
  }

  function PushedIn(events: seq<Event>, key: string): seq<string> {
    if events == [] then [] else PushedIn(events[..|events| - 1], key) + PushedBy(events[|events| - 1], key)
  }

  ghost predicate Start(s: State) {
    s.lists == map[] && s.taken == map[] && forall w | w in s.waiters :: w.Idle?
  }

  /** The elements of a key in the order handed out, then in the order held. */
  function History(s: State, key: string): seq<string> { At(s.taken, key) + At(s.lists, key) }

  lemma {:induction false} TakeFrontKeepsHistory(s: State, k: string, n: nat, key: string)
    requires n <= |At(s.lists, k)|
    ensures History(TakeFront(s, k, n), key) == History(s, key)
  {
    if k == key {
      var l := At(s.lists, k);
      ConcatAssociates(At(s.taken, k), l[..n], l[n..]);
      assert l == l[..n] + l[n..];
    }
  }

  lemma {:induction false} TakeBackConserves(s: State, k: string, n: nat, key: string)
    requires n <= |At(s.lists, k)|
    ensures multiset(History(TakeBack(s, k, n), key)) == multiset(History(s, key))
  {
    var l := At(s.lists, k);
    assert l == l[..|l| - n] + l[|l| - n..];
  }

  lemma {:induction false} RPushKeepsHistory(s: State, k: string, items: seq<string>, served: Option<nat>, key: string)
    requires items != [] && (served.Some? ==> served.value < |s.waiters|)
    ensures History(Serve(Appended(s, k, items), k, served), key) == History(s, key) + if k == key then items else []
  {
    if served.Some? {
      TakeFrontKeepsHistory(Appended(s, k, items).(waiters := s.waiters[served.value := Idle]), k, 1, key);
    }
  }

  lemma {:induction false} PopFrontKeepsHistory(s: State, k: string, count: Option<nat>, key: string)
    requires count.Some? ==> count.value <= |At(s.lists, k)|
    ensures History(PopFront(s, k, count), key) == History(s, key)
  {
    if count.Some? {
      TakeFrontKeepsHistory(s, k, count.value, key);
    }
  }

  lemma {:induction false} PopBackConserves(s: State, k: string, count: Option<nat>, key: string)
    requires count.Some? ==> count.value <= |At(s.lists, k)|
    ensures multiset(History(PopBack(s, k, count), key)) == multiset(History(s, key))
  {
    if count.Some? {
      TakeBackConserves(s, k, count.value, key);
    }
  }

  /** The event does not add to the key's list at the left or take from it at the right. */
  predicate QueueLike(e: Event, key: string) {
    match e
    case LPush(k, _) => k != key
    case RPop(k, _) => k != key
    case _ => true
  }

  function DuplicatedBy(s: State, e: Event, key: string): seq<string>
    requires Enabled(s, e)
  {
    if e.Timeout? then LeftBehind(s, e.client, key) else []
  }

  lemma {:induction false} StepKeepsHistory(s: State, e: Event, key: string)
    requires Enabled(s, e) && QueueLike(e, key) && DuplicatedBy(s, e, key) == []
    ensures History(Step(s, e), key) == History(s, key) + PushedBy(e, key)
  {
    match e
    case RPush(k, items, now) => RPushKeepsHistory(s, k, items, Served(s.waiters, k, now, |s.waiters|), key);
    case LPush(k, items) =>
    case LPop(k, args) => PopFrontKeepsHistory(s, k, PopCount(args, |At(s.lists, k)|), key);
    case RPop(k, args) =>
    case Blpop(c, k, now, timeoutAt) =>
      if At(s.lists, k) != [] { TakeFrontKeepsHistory(s, k, 1, key); }
    case Timeout(c, now) =>
  }

  lemma {:induction false} TimeoutDuplicates(s: State, client: nat, key: string)
    requires client < |s.waiters| && s.waiters[client].Waiting?
    ensures multiset(History(GiveUp(s, client), key))
         == multiset(History(s, key)) + multiset(LeftBehind(s, client, key))
  {
  }

  /** What the event adds to the held and handed-out elements of the key is what it pushes, and
      what a timeout hands out without removing. */
  ghost predicate Accounts(s: State, e: Event, key: string)
    requires Enabled(s, e)
  {
    multiset(History(Step(s, e), key))
      == multiset(History(s, key)) + multiset(PushedBy(e, key)) + multiset(DuplicatedBy(s, e, key))
  }

  lemma {:induction false} LPushAccounts(s: State, e: Event, key: string)
    requires e.LPush? && Enabled(s, e)
    ensures Accounts(s, e, key)
  {
  }

  lemma {:induction false} QueueStepAccounts(s: State, e: Event, key: string)
    requires Enabled(s, e) && !e.LPush? && !e.RPop? && !e.Timeout?
    ensures Accounts(s, e, key)
  {
    StepKeepsHistory(s, e, key);
  }

  lemma {:induction false} StepAccounts(s: State, e: Event, key: string)
    requires Enabled(s, e)
    ensures Accounts(s, e, key)
  {
    match e
    case LPush(k, items) => LPushAccounts(s, e, key);
    case RPop(k, args) => PopBackConserves(s, k, PopCount(args, |At(s.lists, k)|), key);
    case Timeout(c, now) => TimeoutDuplicates(s, c, key);
    case _ => QueueStepAccounts(s, e, key);
  }

  function DuplicatedIn(states: seq<State>, events: seq<Event>, key: string): seq<string>
    requires IsRun(states, events)
  {
    if events == [] then []
    else
      var n := |events| - 1;
      DuplicatedIn(states[..n + 1], events[..n], key) + DuplicatedBy(states[n], events[n], key)
  }

  /** The run before the last event, and the last step. */
  lemma {:induction false} LastStep(states: seq<State>, events: seq<Event>, n: nat)
    requires IsRun(states, events) && |events| == n + 1
    ensures IsRun(states[..n + 1], events[..n]) && states[..n + 1][0] == states[0] && states[..n + 1][n] == states[n]
    ensures Enabled(states[n], events[n]) && states[n + 1] == Step(states[n], events[n])
  {
  }

  lemma {:induction false} Sums(pushed: seq<string>, more: seq<string>, extra: seq<string>, again: seq<string>)
    ensures multiset(pushed + more) + multiset(extra + again)
      == multiset(pushed) + multiset(extra) + multiset(more) + multiset(again)
  {
  }

  lemma {:induction false} AccountedStep(s: State, e: Event, key: string, r: State, pushed: seq<string>,
      extra: seq<string>)
    requires Enabled(s, e) && r == Step(s, e) && multiset(History(s, key)) == multiset(pushed) + multiset(extra)
    ensures multiset(History(r, key)) == multiset(pushed + PushedBy(e, key)) + multiset(extra + DuplicatedBy(s, e, key))
  {
    StepAccounts(s, e, key);
    Sums(pushed, PushedBy(e, key), extra, DuplicatedBy(s, e, key));
  }

  lemma {:induction false} RunAccounts(states: seq<State>, events: seq<Event>, key: string)
    requires IsRun(states, events) && Start(states[0])
    ensures multiset(History(states[|events|], key))
         == multiset(PushedIn(events, key)) + multiset(DuplicatedIn(states, events, key))
    decreases |events|
  {
    if events != [] {
      var n := |events| - 1;
      LastStep(states, events, n);
      var before, past := states[..n + 1], events[..n];
      RunAccounts(before, past, key);
      AccountedStep(states[n], events[n], key, states[n + 1], PushedIn(past, key), DuplicatedIn(before, past, key));
    }
  }

  /** Conservation: in every run, for every key, the elements pushed are the elements handed
      out plus the elements still held, with multiplicity, exactly when no BLPOP on the key
      timed out while its list had an element. */
  lemma {:induction false} Conservation(states: seq<State>, events: seq<Event>, key: string)
    requires IsRun(states, events) && Start(states[0])
    ensures var s := states[|events|];
            multiset(PushedIn(events, key)) == multiset(At(s.taken, key)) + multiset(At(s.lists, key)) <==>
            DuplicatedIn(states, events, key) == []
  {
    RunAccounts(states, events, key);
    var pushed, extra := PushedIn(events, key), DuplicatedIn(states, events, key);
    if extra != [] {
      assert multiset(pushed)[extra[0]] < (multiset(pushed) + multiset(extra))[extra[0]];
    }
  }

  lemma {:induction false} QueueStep(s: State, e: Event, key: string, r: State)
    requires Enabled(s, e) && r == Step(s, e) && QueueLike(e, key) && DuplicatedBy(s, e, key) == []
    ensures History(r, key) == History(s, key) + PushedBy(e, key)
  {
    StepKeepsHistory(s, e, key);
  }

  /** First in, first out: when a key is used by RPUSH, LPOP and BLPOP only and no BLPOP on it
      timed out while its list had an element, the elements handed out are, in order, exactly
      those pushed first, and the list holds the rest in order. */
  lemma {:induction false} FirstInFirstOut(states: seq<State>, events: seq<Event>, key: string)
    requires IsRun(states, events) && Start(states[0])
    requires (forall e | e in events :: QueueLike(e, key)) && DuplicatedIn(states, events, key) == []
    ensures var s := states[|events|]; At(s.taken, key) + At(s.lists, key) == PushedIn(events, key)
    decreases |events|
  {
    if events != [] {
      var n := |events| - 1;
      LastStep(states, events, n);
      var before, past := states[..n + 1], events[..n];
      assert events[n] in events && forall e | e in past :: e in events;
      FirstInFirstOut(before, past, key);
      QueueStep(states[n], events[n], key, states[n + 1]);
    }
  }

  /** An RPUSH wakes a client exactly when one that waits on the key was blocked at another
      clock reading: a client blocked in the same millisecond is passed over and stays blocked
      although the list now holds an element for it. */
  lemma {:induction false} RPushWakesIff(s: State, key: string, items: seq<string>, now: int)
    requires items != []
    ensures Step(s, RPush(key, items, now)).waiters != s.waiters <==>
            exists i :: 0 <= i < |s.waiters| && WaitsFor(s.waiters[i], key) && s.waiters[i].blockedAt != now
    ensures Step(s, RPush(key, items, now)).waiters == s.waiters ==>
            Step(s, RPush(key, items, now)) == Appended(s, key, items)
  {
    var served := Served(s.waiters, key, now, |s.waiters|);
    if served.Some? {
      assert s.waiters[served.value] != Idle && Step(s, RPush(key, items, now)).waiters[served.value] == Idle;
    }
  }

  /** Client i, of those that wait on the key, was blocked first, and before now; of several
      blocked at once it is the first. */
  ghost predicate BlockedFirst(ws: seq<Waiter>, key: string, now: int, i: nat) {
    && i < |ws| && WaitsFor(ws[i], key) && ws[i].blockedAt < now
    && forall j | 0 <= j < |ws| && WaitsFor(ws[j], key) ::
         ws[j].blockedAt <= now && (ws[i].blockedAt < ws[j].blockedAt || (ws[i].blockedAt == ws[j].blockedAt && i <= j))
  }

  /** On a clock that does not go back, RPUSH hands the first element to the client that was
      blocked first. */
  lemma {:induction false} RPushServesFirst(s: State, key: string, items: seq<string>, now: int, i: nat)
    requires items != [] && BlockedFirst(s.waiters, key, now, i)
    ensures var r, all := Step(s, RPush(key, items, now)), At(s.lists, key) + items;
            && r.waiters == s.waiters[i := Idle] && At(r.lists, key) == all[1..]
            && At(r.taken, key) == At(s.taken, key) + [all[0]]
  {
    var served := Served(s.waiters, key, now, |s.waiters|);
    assert WaitTime(s.waiters[i], now) > 0;
    assert served == Some(i);
    var all := At(s.lists, key) + items;
    assert all[..1] == [all[0]];
  }

  /** LPUSH puts its elements in front, the last one first; RPUSH, with nobody to serve, at the end
      in order. */
  lemma {:induction false} PushesPut(s: State, key: string, items: seq<string>, now: int)
    requires items != []
    ensures var l, r := At(s.lists, key), At(Step(s, LPush(key, items)).lists, key);
            && |r| == |items| + |l| && r[|items|..] == l
            && forall i | 0 <= i < |items| :: r[i] == items[|items| - 1 - i]
    ensures (forall i | 0 <= i < |s.waiters| :: !WaitsFor(s.waiters[i], key)) ==>
      At(Step(s, RPush(key, items, now)).lists, key) == At(s.lists, key) + items
  {
  }

  /** A BLPOP that times out releases its client, and sends it an element that it leaves in the
      list, if there is one by now. */
  lemma {:induction false} TimeoutAnswers(s: State, c: nat, now: int)
    requires Enabled(s, Timeout(c, now))
    ensures var r, key := Step(s, Timeout(c, now)), s.waiters[c].key;
            && r.waiters == s.waiters[c := Idle] && r.lists == s.lists
            && At(r.taken, key) == At(s.taken, key) + (if At(s.lists, key) == [] then [] else [At(s.lists, key)[0]])
  {
  }

  /** BLPOP hands out the first element, or blocks its client. */
  lemma {:induction false} BlpopAnswers(s: State, c: nat, key: string, now: int, timeoutAt: int)
    requires Enabled(s, Blpop(c, key, now, timeoutAt))
    ensures var r, l := Step(s, Blpop(c, key, now, timeoutAt)), At(s.lists, key);
            if l == [] then r == s.(waiters := s.waiters[c := Waiting(key, now, timeoutAt)])
            else
              && r.waiters == s.waiters && l == [l[0]] + At(r.lists, key)
              && At(r.taken, key) == At(s.taken, key) + [l[0]]
  {
    var l := At(s.lists, key);
    if l != [] {
      assert l == l[..1] + l[1..] && l[..1] == [l[0]];
    }
  }

  // ----- LRANGE -----

  /** handle_lrange: a bound beyond the length, on either side, resets the start to 0. */
  function Range(l: seq<string>, start: int, end: int): (r: seq<string>) {
    var first, last := First(|l|, start, end), Last(|l|, end);
    if first >= |l| || first > last then []
    else if first == last then [l[first]]
    else l[first..(if last >= |l| then |l| - 1 else last) + 1]
  }

  function First(n: nat, start: int, end: int): (first: nat) {
    if Magnitude(start) > n || Magnitude(end) > n then 0
    else if start < 0 then n - Magnitude(start)
    else start
  }

  function Last(n: nat, end: int): int {
    if end < 0 then n - Magnitude(end) else end
  }

  /** abs */
  function Magnitude(i: int): nat { if i < 0 then -i else i }

  /** The elements between two bounds, where -k is the k-th from the end. */
  function Between(l: seq<string>, start: int, end: int): seq<string> {
    var n := |l|;
    FilterIndices(l, if start < 0 then n + start else start, if end < 0 then n + end else end, n)
  }

  /** The start lies behind the first element, and one of the bounds beyond the length. */
  predicate StartIsLost(n: nat, start: int, end: int) {
    || (end > n && (start > 0 || start < 0 < n + start))
    || (0 <= n + end && end <= n < start)
  }

  /** The elements from index lo to index hi, as far as there are any. */
  function Clamped(l: seq<string>, lo: int, hi: int): seq<string> {
    var a := if lo < 0 then 0 else if lo > |l| then |l| else lo;
    l[a..if hi + 1 < a then a else if hi + 1 > |l| then |l| else hi + 1]
  }

  lemma {:induction false} BetweenIsClamped(l: seq<string>, start: int, end: int, lo: int, hi: int)
    requires lo == (if start < 0 then |l| + start else start) && hi == (if end < 0 then |l| + end else end)
    ensures Between(l, start, end) == Clamped(l, lo, hi)
  {
    FilterIsSlice(l, lo, hi, |l|);
  }

  lemma {:induction false} RangeIsClamped(l: seq<string>, start: int, end: int)
    ensures Range(l, start, end) == Clamped(l, First(|l|, start, end), Last(|l|, end))
  {
  }

  lemma {:induction false} SameEnds(l: seq<string>, lo: int, hi: int, first: int, last: int)
    requires last == hi && (first == lo || (first <= 0 && lo <= 0) || (first >= |l| && lo >= |l|) || last < 0)
    ensures Clamped(l, first, last) == Clamped(l, lo, hi)
  {
  }

  lemma {:induction false} RangeIsBetween(l: seq<string>, start: int, end: int, lo: int, hi: int)
    requires lo == (if start < 0 then |l| + start else start) && hi == (if end < 0 then |l| + end else end)
    requires l == [] || !StartIsLost(|l|, start, end)
    ensures Range(l, start, end) == Between(l, start, end)
  {
    RangeIsClamped(l, start, end);
    BetweenIsClamped(l, start, end, lo, hi);
    SameEnds(l, lo, hi, First(|l|, start, end), Last(|l|, end));
  }

  lemma {:induction false} LostStartIsFirst(n: nat, start: int, end: int, lo: int, hi: int)
    requires lo == (if start < 0 then n + start else start) && hi == (if end < 0 then n + end else end)
    requires n > 0 && StartIsLost(n, start, end)
    ensures First(n, start, end) == 0 < lo && 0 <= Last(n, end) == hi
  {
  }

  /** With its start lost, LRANGE returns more, from the first element on. */
  lemma {:induction false} LostStartReturnsMore(l: seq<string>, start: int, end: int)
    requires l != [] && StartIsLost(|l|, start, end)
    ensures |Between(l, start, end)| < |Range(l, start, end)| && Range(l, start, end)[0] == l[0]
  {
    var lo, hi := if start < 0 then |l| + start else start, if end < 0 then |l| + end else end;
    RangeIsClamped(l, start, end);
    BetweenIsClamped(l, start, end, lo, hi);
    LostStartIsFirst(|l|, start, end, lo, hi);
  }

  /** LRANGE returns the elements between its bounds exactly when it does not lose its start. */
  lemma {:induction false} RangeIsBetweenIff(l: seq<string>, start: int, end: int)
    ensures Range(l, start, end) == Between(l, start, end) <==> l == [] || !StartIsLost(|l|, start, end)
  {
    if l == [] || !StartIsLost(|l|, start, end) {
      RangeIsBetween(l, start, end, if start < 0 then |l| + start else start, if end < 0 then |l| + end else end);
    } else {
      LostStartReturnsMore(l, start, end);
    }
  }

  // ----- no lost wakeup -----

  /** No client is blocked on a key whose list has an element. */
  ghost predicate NobodyMissed(s: State) {
    forall i | 0 <= i < |s.waiters| && s.waiters[i].Waiting? :: At(s.lists, s.waiters[i].key) == []
  }

  ghost predicate Awaited(s: State, key: string) { exists i :: 0 <= i < |s.waiters| && WaitsFor(s.waiters[i], key) }

  ghost predicate OneWaiter(s: State, key: string) {
    forall i, j | 0 <= i < j < |s.waiters| :: !WaitsFor(s.waiters[i], key) || !WaitsFor(s.waiters[j], key)
  }

  /** Some client that waits on the key was blocked at another clock reading. */
  ghost predicate Wakes(s: State, key: string, now: int) {
    exists i :: 0 <= i < |s.waiters| && WaitsFor(s.waiters[i], key) && s.waiters[i].blockedAt != now
  }

  /** A push that meets waiting clients serves them all: an LPUSH serves nobody, and an RPUSH one
      client one element. */
  ghost predicate ServesAll(s: State, e: Event) {
    match e
    case LPush(key, _) => !Awaited(s, key)
    case RPush(key, items, now) => Awaited(s, key) ==> Wakes(s, key, now) && (|items| == 1 || OneWaiter(s, key))
    case _ => true
  }

  lemma {:induction false} LPushMissesIff(s: State, key: string, items: seq<string>)
    requires NobodyMissed(s) && items != []
    ensures NobodyMissed(Step(s, LPush(key, items))) <==> !Awaited(s, key)
  {
    var r := Step(s, LPush(key, items));
    assert At(r.lists, key) == Reversed(items) + At(s.lists, key);
    if Awaited(s, key) {
      var i :| 0 <= i < |s.waiters| && WaitsFor(s.waiters[i], key);
      assert r.waiters[i] == s.waiters[i];
    }
  }

  /** An RPUSH that serves nobody. */
  lemma {:induction false} UnservedPush(s: State, key: string, items: seq<string>)
    requires NobodyMissed(s) && items != []
    ensures NobodyMissed(Appended(s, key, items)) <==> !Awaited(s, key)
  {
    assert At(Appended(s, key, items).lists, key) == At(s.lists, key) + items;
    if Awaited(s, key) {
      var i :| 0 <= i < |s.waiters| && WaitsFor(s.waiters[i], key);
      assert Appended(s, key, items).waiters[i] == s.waiters[i];
    }
  }

  /** An RPUSH that serves client c leaves the other elements, and the other clients. */
  lemma {:induction false} ServedPush(s: State, key: string, items: seq<string>, c: nat)
    requires NobodyMissed(s) && items != [] && c < |s.waiters| && WaitsFor(s.waiters[c], key)
    ensures NobodyMissed(Serve(Appended(s, key, items), key, Some(c))) <==> |items| == 1 || OneWaiter(s, key)
  {
    var r := Serve(Appended(s, key, items), key, Some(c));
    assert At(s.lists, key) == [] && [] + items == items;
    assert At(r.lists, key) == items[1..] && r.waiters == s.waiters[c := Idle];
    if !OneWaiter(s, key) {
      var j :| 0 <= j < |s.waiters| && j != c && WaitsFor(s.waiters[j], key);
      assert r.waiters[j] == s.waiters[j];
    }
  }

  lemma {:induction false} RPushMissesIff(s: State, key: string, items: seq<string>, now: int)
    requires NobodyMissed(s) && items != []
    ensures NobodyMissed(Step(s, RPush(key, items, now))) <==> ServesAll(s, RPush(key, items, now))
  {
    var served := Served(s.waiters, key, now, |s.waiters|);
    if served.Some? {
      assert Wakes(s, key, now) && Awaited(s, key);
      ServedPush(s, key, items, served.value);
    } else {
      UnservedPush(s, key, items);
    }
  }

  lemma {:induction false} OthersMissNobody(s: State, e: Event)
    requires Enabled(s, e) && NobodyMissed(s) && !e.RPush? && !e.LPush?
    ensures NobodyMissed(Step(s, e))
  {
    var r := Step(s, e);
    forall i | 0 <= i < |r.waiters| && r.waiters[i].Waiting? ensures At(r.lists, r.waiters[i].key) == [] {
      if r.waiters[i] == s.waiters[i] {
        assert At(s.lists, s.waiters[i].key) == [];
      }
    }
  }

  /** A step leaves a client blocked on a list that has an element exactly when it is a push that
      does not serve all the clients that it meets. */
  lemma {:induction false} StepMissesIff(s: State, e: Event)
    requires Enabled(s, e) && NobodyMissed(s)
    ensures NobodyMissed(Step(s, e)) <==> ServesAll(s, e)
  {
    match e
    case RPush(key, items, now) => RPushMissesIff(s, key, items, now);
    case LPush(key, items) => LPushMissesIff(s, key, items);
    case _ => OthersMissNobody(s, e);
  }

  lemma {:induction false} NobodyMissedAt(states: seq<State>, events: seq<Event>, n: nat)
    requires IsRun(states, events) && NobodyMissed(states[0]) && n <= |events|
    requires forall i | 0 <= i < n :: ServesAll(states[i], events[i])
    ensures NobodyMissed(states[n])
  {
    if n > 0 {
      NobodyMissedAt(states, events, n - 1);
      StepMissesIff(states[n - 1], events[n - 1]);
    }
  }

  /** No lost wakeup, over whole runs: between commands no client is ever blocked on a key whose
      list has an element, exactly when no LPUSH meets a client that waits on its key, and every
      RPUSH that meets one finds one that was blocked at another clock reading, and pushes one
      element or meets that one only. */
  lemma {:induction false} NoLostWakeup(states: seq<State>, events: seq<Event>)
    requires IsRun(states, events) && NobodyMissed(states[0])
    ensures (forall n | 0 <= n <= |events| :: NobodyMissed(states[n]))
       <==> (forall i | 0 <= i < |events| :: ServesAll(states[i], events[i]))
  {
    if forall i | 0 <= i < |events| :: ServesAll(states[i], events[i]) {
      forall n | 0 <= n <= |events| ensures NobodyMissed(states[n]) {
        NobodyMissedAt(states, events, n);
      }
    }
    if forall n | 0 <= n <= |events| :: NobodyMissed(states[n]) {
      forall i | 0 <= i < |events| ensures ServesAll(states[i], events[i]) {
        assert NobodyMissed(states[i]) && NobodyMissed(states[i + 1]);
        StepMissesIff(states[i], events[i]);
      }
    }
  }
}
