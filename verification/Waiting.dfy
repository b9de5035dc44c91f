/** The clients that WAIT blocks, and the one to which its reply goes (utility_handler.c, and the
    passes over the clients in main.c). */
module Waiting {
  import opened Tables

  /** is_waiting, is_blocked and timeout_at of a client. A blocked client is not read from. */
  datatype Blocking = Blocking(isWaiting: bool, isBlocked: bool, timeoutAt: int)

  /** The clients, and the one whose descriptor is in wait_client_fd. */
  datatype Waiters = Waiters(clients: seq<Blocking>, waiter: Option<nat>)

  ghost predicate ProperWaiters(w: Waiters) { w.waiter.Some? ==> w.waiter.value < |w.clients| }

  /** A WAIT that cannot be answered at once blocks its client. */
  function Begin(w: Waiters, c: nat, ms: int, now: int): Waiters
    requires c < |w.clients|
  {
    Waiters(w.clients[c := Blocking(true, true, if ms == 0 then 0 else now + ms)], Some(c))
  }

  predicate TimedOut(w: Waiters, now: int)
    requires ProperWaiters(w)
  {
    w.waiter.Some? && var at := w.clients[w.waiter.value].timeoutAt; at != 0 && now >= at
  }

  /** The end of a WAIT: every client's is_waiting is cleared, and is_blocked of the one that
      waited. */
  function End(w: Waiters): (r: Waiters)
    ensures |r.clients| == |w.clients|
  {
    Waiters(seq(|w.clients|, i requires 0 <= i < |w.clients| => EndFor(w.clients[i], w.waiter == Some(i))), None)
  }

  function EndFor(b: Blocking, isWaiter: bool): Blocking {
    b.(isWaiting := false, isBlocked := b.isBlocked && !isWaiter)
  }

  /** The pass of the event loop that releases the blocked clients whose time is up, and sends them
      a null reply; it passes over clients that are waiting. */
  function Expire(w: Waiters, now: int): (r: Waiters)
    ensures |r.clients| == |w.clients|
  {
    w.(clients := seq(|w.clients|, i requires 0 <= i < |w.clients| => ExpireFor(w.clients[i], now)))
  }

  function ExpireFor(b: Blocking, now: int): Blocking {
    if Due(b.timeoutAt, now) && !b.isWaiting then b.(isBlocked := false) else b
  }

  predicate Due(at: int, now: int) { at != 0 && now >= at }

  datatype Event = Begins(client: nat, ms: int, now: int) | Ends | Expires(now: int)

  predicate Enabled(w: Waiters, e: Event) {
    match e
    case Begins(c, _, _) => c < |w.clients|
    case Ends => w.waiter.Some?
    case Expires(_) => true
  }

  function Step(w: Waiters, e: Event): Waiters
    requires Enabled(w, e)
  {
    match e
    case Begins(c, ms, now) => Begin(w, c, ms, now)
    case Ends => End(w)
    case Expires(now) => Expire(w, now)
  }

  ghost predicate IsRun(states: seq<Waiters>, events: seq<Event>) {
    && |states| == |events| + 1 && ProperWaiters(states[0])
    && forall i | 0 <= i < |events| :: Enabled(states[i], events[i]) && states[i + 1] == Step(states[i], events[i])
  }

  lemma {:induction false} ProperAt(states: seq<Waiters>, events: seq<Event>, n: nat)
    requires IsRun(states, events) && n <= |events|
    ensures ProperWaiters(states[n])
  {
    if n > 0 {
      ProperAt(states, events, n - 1);
    }
  }

  // ----- when a WAIT times out -----

  /** Until its WAIT ends or another begins, the one that waits keeps its deadline. */
  lemma {:induction false} DeadlineStays(states: seq<Waiters>, events: seq<Event>, b: nat, n: nat)
    requires IsRun(states, events) && b < n <= |events| && events[b].Begins?
    requires forall k | b < k < n :: events[k].Expires?
    ensures var e, w := events[b], states[n];
            && w.waiter == Some(e.client) && e.client < |w.clients|
            && w.clients[e.client].timeoutAt == if e.ms == 0 then 0 else e.now + e.ms
  {
    assert Enabled(states[n - 1], events[n - 1]) && states[n] == Step(states[n - 1], events[n - 1]);
    if n > b + 1 {
      DeadlineStays(states, events, b, n - 1);
    }
  }

  /** A WAIT of ms milliseconds that began at step b times out at the clock readings from its
      beginning plus ms on; one of 0 milliseconds never does. */
  lemma {:induction false} TimesOutIff(states: seq<Waiters>, events: seq<Event>, b: nat, n: nat, now: int)
    requires IsRun(states, events) && b < n <= |events| && events[b].Begins?
    requires forall k | b < k < n :: events[k].Expires?
    ensures ProperWaiters(states[n])
    ensures var deadline := events[b].now + events[b].ms;
            TimedOut(states[n], now) <==> events[b].ms != 0 && deadline != 0 && now >= deadline
  {
    DeadlineStays(states, events, b, n);
  }

  // ----- whose reply is lost -----

  /** Only the client that will get the reply is blocked. */
  ghost predicate NobodyStranded(w: Waiters) {
    forall c | 0 <= c < |w.clients| && w.clients[c].isBlocked :: w.waiter == Some(c)
  }

  /** A WAIT that begins while another client, still blocked, waits. */
  predicate Overtakes(w: Waiters, e: Event) {
    && e.Begins? && w.waiter.Some? && w.waiter.value != e.client
    && w.waiter.value < |w.clients| && w.clients[w.waiter.value].isBlocked
  }

  /** A step leaves a client blocked for whom no reply is meant exactly when it overtakes one:
      there is one wait_client_fd. */
  lemma {:induction false} StrandsIff(w: Waiters, e: Event)
    requires Enabled(w, e) && ProperWaiters(w) && NobodyStranded(w)
    ensures ProperWaiters(Step(w, e))
    ensures NobodyStranded(Step(w, e)) <==> !Overtakes(w, e)
  {
    if Overtakes(w, e) {
      assert Step(w, e).clients[w.waiter.value].isBlocked;
    }
  }

  lemma {:induction false} NobodyStrandedAt(states: seq<Waiters>, events: seq<Event>, n: nat)
    requires IsRun(states, events) && n <= |events| && NobodyStranded(states[0])
    requires forall i | 0 <= i < n :: !Overtakes(states[i], events[i])
    ensures NobodyStranded(states[n])
  {
    if n > 0 {
      NobodyStrandedAt(states, events, n - 1);
      ProperAt(states, events, n - 1);
      StrandsIff(states[n - 1], events[n - 1]);
    }
  }

  /** Over any run every client that WAIT has blocked is at all times the one that will get the
      reply, exactly when no WAIT overtakes another. */
  lemma {:induction false} NobodyStrandedIff(states: seq<Waiters>, events: seq<Event>)
    requires IsRun(states, events) && NobodyStranded(states[0])
    ensures (forall n | 0 <= n <= |events| :: NobodyStranded(states[n]))
       <==> (forall i | 0 <= i < |events| :: !Overtakes(states[i], events[i]))
  {
    if forall i | 0 <= i < |events| :: !Overtakes(states[i], events[i]) {
      forall n | 0 <= n <= |events| ensures NobodyStranded(states[n]) {
        NobodyStrandedAt(states, events, n);
      }
    }
    if forall n | 0 <= n <= |events| :: NobodyStranded(states[n]) {
      forall i | 0 <= i < |events| ensures !Overtakes(states[i], events[i]) {
        assert NobodyStranded(states[i]) && NobodyStranded(states[i + 1]);
        ProperAt(states, events, i);
        StrandsIff(states[i], events[i]);
      }
    }
  }

  // ----- when an overtaken client is released -----

  /** Client a has been overtaken: it is blocked and marked as waiting, and another one waits. */
  ghost predicate Overtaken(w: Waiters, a: nat) {
    && ProperWaiters(w) && a < |w.clients| && w.waiter != Some(a)
    && w.clients[a].isWaiting && w.clients[a].isBlocked
  }

  ghost predicate EndedBy(events: seq<Event>, n: nat) { exists k :: 0 <= k < n && k < |events| && events[k].Ends? }

  /** Event i is a pass at which the time is up, and a WAIT has ended before it. */
  ghost predicate ReleasesAt(events: seq<Event>, i: nat, at: int) {
    i < |events| && events[i].Expires? && Due(at, events[i].now) && EndedBy(events, i)
  }

  ghost predicate ReleasedBy(events: seq<Event>, n: nat, at: int) {
    exists i: nat :: i < n && ReleasesAt(events, i, at)
  }

  lemma {:induction false} ReleasedByOneMore(events: seq<Event>, n: nat, at: int)
    requires n < |events|
    ensures EndedBy(events, n + 1) <==> EndedBy(events, n) || events[n].Ends?
    ensures ReleasedBy(events, n + 1, at) <==> ReleasedBy(events, n, at) || ReleasesAt(events, n, at)
  {
    if events[n].Ends? {
      assert 0 <= n < n + 1;
    }
    if EndedBy(events, n) {
      var k :| 0 <= k < n && k < |events| && events[k].Ends?;
      assert 0 <= k < n + 1;
    }
  }

  /** The marks of an overtaken client after n events. */
  lemma {:induction false} OvertakenAt(states: seq<Waiters>, events: seq<Event>, a: nat, n: nat)
    requires IsRun(states, events) && n <= |events| && Overtaken(states[0], a)
    requires forall e | e in events && e.Begins? :: e.client != a
    ensures a < |states[n].clients| && states[n].waiter != Some(a)
    ensures var at := states[0].clients[a].timeoutAt;
            states[n].clients[a] == Blocking(!EndedBy(events, n), !ReleasedBy(events, n, at), at)
  {
    if n > 0 {
      var e, at := events[n - 1], states[0].clients[a].timeoutAt;
      assert e in events;
      OvertakenAt(states, events, a, n - 1);
      ReleasedByOneMore(events, n - 1, at);
      assert states[n] == Step(states[n - 1], e);
    }
  }

  lemma {:induction false} OvertakingLeaves(w: Waiters, e: Event)
    requires Enabled(w, e) && Overtakes(w, e) && w.clients[w.waiter.value].isWaiting
    ensures Overtaken(Step(w, e), w.waiter.value)
    ensures Step(w, e).clients[w.waiter.value].timeoutAt == w.clients[w.waiter.value].timeoutAt
  {
  }

  lemma {:induction false} WaiterIsMarked(states: seq<Waiters>, events: seq<Event>, n: nat)
    requires IsRun(states, events) && n <= |events| && states[0].waiter.None?
    ensures ProperWaiters(states[n])
    ensures states[n].waiter.Some? ==> var b := states[n].clients[states[n].waiter.value]; b.isWaiting && b.isBlocked
  {
    if n > 0 {
      WaiterIsMarked(states, events, n - 1);
      assert states[n] == Step(states[n - 1], events[n - 1]);
    }
  }

  lemma {:induction false} RunFrom(states: seq<Waiters>, events: seq<Event>, j: nat)
    requires IsRun(states, events) && j <= |events|
    ensures IsRun(states[j..], events[j..])
  {
    ProperAt(states, events, j);
  }

  /** What becomes of a client a that event j overtakes, until it begins a WAIT again, which it
      cannot while it is blocked: it is released exactly when it has a timeout, a WAIT has ended
      since, and a later pass over the clients finds the timeout due. */
  lemma {:induction false} OvertakenReleasedIff(states: seq<Waiters>, events: seq<Event>, j: nat, a: nat, n: nat)
    requires IsRun(states, events) && j < n <= |events| && states[0].waiter.None?
    requires Overtakes(states[j], events[j]) && states[j].waiter == Some(a)
    requires forall e | e in events[j + 1..] && e.Begins? :: e.client != a
    ensures a < |states[n].clients| && states[n].waiter != Some(a)
    ensures !states[n].clients[a].isBlocked
       <==> ReleasedBy(events[j + 1..], n - j - 1, states[j].clients[a].timeoutAt)
  {
    WaiterIsMarked(states, events, j);
    OvertakingLeaves(states[j], events[j]);
    RunFrom(states, events, j + 1);
    OvertakenAt(states[j + 1..], events[j + 1..], a, n - j - 1);
    assert states[j + 1..][n - j - 1] == states[n];
  }

  /** Overtaken without a timeout, a client stays blocked for good. */
  lemma {:induction false} OvertakenForGood(states: seq<Waiters>, events: seq<Event>, j: nat, a: nat, n: nat)
    requires IsRun(states, events) && j < n <= |events| && states[0].waiter.None?
    requires Overtakes(states[j], events[j]) && states[j].waiter == Some(a) && states[j].clients[a].timeoutAt == 0
    requires forall e | e in events[j + 1..] && e.Begins? :: e.client != a
    ensures a < |states[n].clients| && states[n].clients[a].isBlocked && states[n].waiter != Some(a)
  {
    OvertakenReleasedIff(states, events, j, a, n);
  }

  /** WAIT by client 0 for 100 ms, then by client 1: when that WAIT has ended, client 0 is blocked
      until the pass at its own timeout, which sends it a null reply. */
  lemma {:induction false} ReleasedWithNull(now: int)
    requires now > 0
    ensures var idle := Blocking(false, false, 0);
            var w := Waiters([idle, idle], None);
            var overtaken := Begin(Begin(w, 0, 100, now), 1, 10, now);
            && Overtaken(overtaken, 0)
            && End(overtaken).clients[0] == Blocking(false, true, now + 100)
            && Expire(End(overtaken), now + 99).clients[0].isBlocked
            && !Expire(End(overtaken), now + 100).clients[0].isBlocked
  {
    var idle := Blocking(false, false, 0);
    var w := Waiters([idle, idle], None);
    var overtaken := Begin(Begin(w, 0, 100, now), 1, 10, now);
    assert overtaken.clients[0] == Blocking(true, true, now + 100);
  }
}
