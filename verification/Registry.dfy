/**
 The gateway's table of live agent connections (server/internal/gateway/registry.go) and the
 goroutines that use it (server/internal/gateway/gateway.go:51-76).

 `add` replaces the entry under the lock and closes the displaced connection after releasing
 it; `remove` runs deferred when a connection's handler ends; `Kick` looks up under the lock
 and closes outside it.  The state machine below lets these halves interleave freely.
 */
module Registry {
  import opened Wrappers

  type Device = nat
  /** One connection object; `HandleConnect` allocates a new one for every accepted socket. */
  type Conn = nat

  /** One completed critical section of `add`, with the entry it displaced. */
  datatype Added = Added(device: Device, conn: Conn, displaced: Option<Conn>)

  datatype State = State(
    conns: map<Device, Conn>,
    log: seq<Added>,        // every add so far, in lock order
    unreturned: set<Conn>,  // adds still between unlock and return
    removed: set<Conn>,     // connections whose deferred remove has run
    closed: set<Conn>,
    kicks: set<Conn>        // Kick calls between their lookup and their Close
  )

  const Init := State(map[], [], {}, {}, {}, {})

  datatype Event =
    | AddSwap(device: Device, conn: Conn)  // the locked half of add
    | AddReturn(entry: nat)                // closes the displaced connection and returns
    | Remove(device: Device, conn: Conn)
    | KickLookup(device: Device)
    | KickClose(conn: Conn)
    | Drop(conn: Conn)                     // the peer or the network closes a connection

  function Lookup(conns: map<Device, Conn>, d: Device): Option<Conn> {
    if d in conns then Some(conns[d]) else None
  }

  /** The table without the mapping of `d`, if that mapping is still `c`. */
  function Without(conns: map<Device, Conn>, d: Device, c: Conn): map<Device, Conn> {
    if Lookup(conns, d) == Some(c) then conns - {d} else conns
  }

  predicate Known(s: State, c: Conn) {
    exists i :: 0 <= i < |s.log| && s.log[i].conn == c
  }

  /** A handler adds its own new connection once, and removes it only after its add returned. */
  predicate Enabled(s: State, e: Event) {
    match e
    case AddSwap(_, c) => !Known(s, c)
    case AddReturn(i) => i < |s.log| && s.log[i].conn in s.unreturned
    case Remove(d, c) => c !in s.unreturned && exists i :: 0 <= i < |s.log| && s.log[i].device == d && s.log[i].conn == c
    case KickLookup(_) => true
    case KickClose(c) => c in s.kicks
    case Drop(c) => true
  }

  function Step(s: State, e: Event): State {
    match e
    case AddSwap(d, c) =>
      s.(conns := s.conns[d := c],
         log := s.log + [Added(d, c, Lookup(s.conns, d))],
         unreturned := s.unreturned + {c})
    case AddReturn(i) =>
      if i < |s.log| then
        var a := s.log[i];
        s.(unreturned := s.unreturned - {a.conn},
           closed := if a.displaced.Some? then s.closed + {a.displaced.value} else s.closed)
      else s
    case Remove(d, c) =>
      s.(conns := Without(s.conns, d, c),
         removed := s.removed + {c})
    case KickLookup(d) =>
      if d in s.conns then s.(kicks := s.kicks + {s.conns[d]}) else s
    case KickClose(c) => s.(kicks := s.kicks - {c}, closed := s.closed + {c})
    case Drop(c) => s.(closed := s.closed + {c})
  }

  /** The state after a schedule of events. */
  function Run(events: seq<Event>): State {
    if events == [] then Init else Step(Run(events[..|events| - 1]), events[|events| - 1])
  }

  /** A schedule the goroutines can follow: each event is enabled where it happens. */
  predicate Legal(events: seq<Event>) {
    events == [] ||
    (Legal(events[..|events| - 1]) && Enabled(Run(events[..|events| - 1]), events[|events| - 1]))
  }

  /** The newest add of a device, if it ever had one. */
  function Newest(log: seq<Added>, d: Device): (r: Option<Conn>)
    ensures r.Some? ==> exists i :: 0 <= i < |log| && log[i].device == d && log[i].conn == r.value
    ensures r.None? <==> forall i :: 0 <= i < |log| ==> log[i].device != d
  {
    if log == [] then None
    else if log[|log| - 1].device == d then Some(log[|log| - 1].conn)
    else Newest(log[..|log| - 1], d)
  }

  /** What the history of adds and removes says the table must hold for `d`. */
  function Expected(s: State, d: Device): Option<Conn> {
    var newest := Newest(s.log, d);
    if newest.Some? && newest.value in s.removed then None else newest
  }

  ghost predicate Inv(s: State) {
    && (forall d :: Lookup(s.conns, d) == Expected(s, d))
    && (forall i, j :: 0 <= i < j < |s.log| ==> s.log[i].conn != s.log[j].conn)
    && (forall c :: c in s.removed || c in s.unreturned ==> Known(s, c))
    && s.removed !! s.unreturned
    && (forall i :: 0 <= i < |s.log| ==> ClosedOrPending(s, i))
    && (forall i :: 0 <= i < |s.log| ==> Superseded(s, i))
  }

  /** The connection displaced by add `i` is closed once that add has returned. */
  ghost predicate ClosedOrPending(s: State, i: nat)
    requires i < |s.log|
  {
    s.log[i].displaced.Some? && s.log[i].conn !in s.unreturned ==> s.log[i].displaced.value in s.closed
  }

  /** An add that is not the newest of its device was removed, or a later add displaced it. */
  ghost predicate Superseded(s: State, i: nat)
    requires i < |s.log|
  {
    var a := s.log[i];
    Newest(s.log, a.device) == Some(a.conn) || a.conn in s.removed ||
    exists j :: i < j < |s.log| && s.log[j].device == a.device && s.log[j].displaced == Some(a.conn)
  }

  lemma NewestOfExtended(log: seq<Added>, a: Added, d: Device)
    ensures Newest(log + [a], d) == if a.device == d then Some(a.conn) else Newest(log, d)
  {
    assert (log + [a])[..|log|] == log;
  }

  lemma AddKeepsSuperseded(s: State, d: Device, c: Conn, i: nat)
    requires Inv(s) && Enabled(s, AddSwap(d, c)) && i < |Step(s, AddSwap(d, c)).log|
    ensures Superseded(Step(s, AddSwap(d, c)), i)
  {
    var a := Added(d, c, Lookup(s.conns, d));
    var s' := Step(s, AddSwap(d, c));
    NewestOfExtended(s.log, a, s'.log[i].device);
    if i < |s.log| {
      assert Superseded(s, i);
      var b := s.log[i];
      if b.conn !in s.removed && Newest(s.log, b.device) == Some(b.conn) && b.device == d {
        assert Expected(s, d) == Some(b.conn) == Lookup(s.conns, d);
        assert s'.log[|s.log|].displaced == Some(b.conn);
      } else if exists j :: i < j < |s.log| && s.log[j].device == b.device && s.log[j].displaced == Some(b.conn) {
        var j :| i < j < |s.log| && s.log[j].device == b.device && s.log[j].displaced == Some(b.conn);
        assert s'.log[j] == s.log[j];
      }
    }
  }

  /** Two adds with one connection are one add, so the newest connection names its device. */
  lemma AddKeepsInv(s: State, d: Device, c: Conn)
    requires Inv(s) && Enabled(s, AddSwap(d, c))
    ensures Inv(Step(s, AddSwap(d, c)))
  {
    var a := Added(d, c, Lookup(s.conns, d));
    var s' := Step(s, AddSwap(d, c));
    assert forall i :: 0 <= i < |s.log| ==> s'.log[i] == s.log[i];
    assert s'.log[|s.log|] == a;
    forall x: Device
      ensures Lookup(s'.conns, x) == Expected(s', x)
    {
      NewestOfExtended(s.log, a, x);
      assert Lookup(s.conns, x) == Expected(s, x);
      assert !Known(s, c);
    }
    forall i | 0 <= i < |s'.log|
      ensures Superseded(s', i)
    {
      AddKeepsSuperseded(s, d, c, i);
    }
    forall i | 0 <= i < |s'.log|
      ensures ClosedOrPending(s', i)
    {
      if i < |s.log| {
        assert ClosedOrPending(s, i);
      }
    }
    forall x | x in s'.removed || x in s'.unreturned
      ensures Known(s', x)
    {
      if x == c {
        assert s'.log[|s.log|].conn == x;
      } else {
        var i :| 0 <= i < |s.log| && s.log[i].conn == x;
        assert s'.log[i].conn == x;
      }
    }
  }

  lemma RemoveKeepsInv(s: State, d: Device, c: Conn)
    requires Inv(s) && Enabled(s, Remove(d, c))
    ensures Inv(Step(s, Remove(d, c)))
  {
    var s' := Step(s, Remove(d, c));
    var k :| 0 <= k < |s.log| && s.log[k].device == d && s.log[k].conn == c;
    forall x: Device
      ensures Lookup(s'.conns, x) == Expected(s', x)
    {
      assert Lookup(s.conns, x) == Expected(s, x);
      var newest := Newest(s.log, x);
      if newest == Some(c) {
        var i :| 0 <= i < |s.log| && s.log[i].device == x && s.log[i].conn == c;
        assert i == k && x == d;
      }
    }
    forall i | 0 <= i < |s'.log|
      ensures Superseded(s', i) && ClosedOrPending(s', i)
    {
      assert Superseded(s, i) && ClosedOrPending(s, i);
    }
    assert forall x :: Known(s, x) ==> Known(s', x);
  }

  lemma AddReturnKeepsInv(s: State, k: nat)
    requires Inv(s) && Enabled(s, AddReturn(k))
    ensures Inv(Step(s, AddReturn(k)))
  {
    var s' := Step(s, AddReturn(k));
    assert forall x :: Known(s, x) ==> Known(s', x);
    forall x: Device
      ensures Lookup(s'.conns, x) == Expected(s', x)
    {
      assert Lookup(s.conns, x) == Expected(s, x);
    }
    forall i | 0 <= i < |s'.log|
      ensures Superseded(s', i) && ClosedOrPending(s', i)
    {
      assert Superseded(s, i) && ClosedOrPending(s, i);
    }
  }

  lemma StepKeepsInv(s: State, e: Event)
    requires Inv(s) && Enabled(s, e)
    ensures Inv(Step(s, e))
  {
    match e
    case AddSwap(d, c) => AddKeepsInv(s, d, c);
    case AddReturn(i) => AddReturnKeepsInv(s, i);
    case Remove(d, c) => RemoveKeepsInv(s, d, c);
    case KickLookup(_) => FrameKeepsInv(s, Step(s, e));
    case KickClose(_) => FrameKeepsInv(s, Step(s, e));
    case Drop(_) => FrameKeepsInv(s, Step(s, e));
  }

  /** Kicks and dropped sockets change no entry: they only add to the closed connections. */
  lemma FrameKeepsInv(s: State, s': State)
    requires Inv(s)
    requires s'.conns == s.conns && s'.log == s.log && s'.unreturned == s.unreturned && s'.removed == s.removed
    requires s.closed <= s'.closed
    ensures Inv(s')
  {
    forall x: Device
      ensures Lookup(s'.conns, x) == Expected(s', x)
    {
      assert Lookup(s.conns, x) == Expected(s, x);
    }
    assert forall x :: Known(s, x) ==> Known(s', x);
    forall i | 0 <= i < |s'.log|
      ensures Superseded(s', i) && ClosedOrPending(s', i)
    {
      assert Superseded(s, i) && ClosedOrPending(s, i);
    }
  }

  lemma {:induction false} RunKeepsInv(events: seq<Event>)
    requires Legal(events)
    ensures Inv(Run(events))
  {
    if events != [] {
      RunKeepsInv(events[..|events| - 1]);
      StepKeepsInv(Run(events[..|events| - 1]), events[|events| - 1]);
    }
  }

  /**
   In every interleaving the table holds, for each device, its most recently added connection
   and no other, and it holds it exactly until that connection's own cleanup has run.
   */
  lemma {:induction false} TableIsNewest(events: seq<Event>, d: Device)
    requires Legal(events)
    ensures var s := Run(events);
            Lookup(s.conns, d) ==
            (match Newest(s.log, d)
             case None => None
             case Some(c) => if c in s.removed then None else Some(c))
  {
    RunKeepsInv(events);
    assert Lookup(Run(events).conns, d) == Expected(Run(events), d);
  }

  /** An older connection's deferred remove never takes a newer one out of the table. */
  lemma {:induction false} StaleRemoveIsHarmless(events: seq<Event>, d: Device, c: Conn)
    requires Legal(events) && Newest(Run(events).log, d) != Some(c)
    ensures Step(Run(events), Remove(d, c)).conns == Run(events).conns
  {
    TableIsNewest(events, d);
  }

  /** Every connection that an add displaced is closed as soon as that add has returned. */
  lemma {:induction false} DisplacedAreClosed(events: seq<Event>, i: nat)
    requires Legal(events) && i < |Run(events).log|
    ensures var s := Run(events);
      s.log[i].displaced.Some? && s.log[i].conn !in s.unreturned ==> s.log[i].displaced.value in s.closed
  {
    RunKeepsInv(events);
    assert ClosedOrPending(Run(events), i);
  }

  /** A connection that is no longer the newest of its device was displaced so, or had cleaned up itself. */
  lemma {:induction false} SupersededWereDisplaced(events: seq<Event>, i: nat)
    requires Legal(events) && i < |Run(events).log|
    requires Newest(Run(events).log, Run(events).log[i].device) != Some(Run(events).log[i].conn)
    ensures var s := Run(events); var c := s.log[i].conn;
            c in s.removed ||
            exists j :: i < j < |s.log| && s.log[j].device == s.log[i].device && s.log[j].displaced == Some(c)
  {
    RunKeepsInv(events);
    assert Superseded(Run(events), i);
  }

  /** Event `n` of the history closes `c`: its peer dropped, a kick, or the return of an add that displaced it. */
  ghost predicate ClosesAt(events: seq<Event>, n: int, c: Conn) {
    && 0 <= n < |events|
    && match events[n]
       case Drop(x) => x == c
       case KickClose(x) => x == c
       case AddReturn(i) => i < |Run(events[..n]).log| && Run(events[..n]).log[i].displaced == Some(c)
       case _ => false
  }

  /** A connection is closed only by its peer, by a kick, or by the add that displaced it. */
  lemma {:induction false} ClosedHasACause(events: seq<Event>, c: Conn)
    requires Legal(events)
    ensures c in Run(events).closed <==> exists n :: ClosesAt(events, n, c)
  {
    if events != [] {
      var last := |events| - 1;
      var before := events[..last];
      ClosedHasACause(before, c);
      forall n | 0 <= n < last
        ensures ClosesAt(events, n, c) <==> ClosesAt(before, n, c)
      {
        assert before[..n] == events[..n] && before[n] == events[n];
      }
      assert c in Run(events).closed <==> c in Run(before).closed || ClosesAt(events, last, c);
    }
  }

  lemma OneMore(events: seq<Event>, e: Event)
    requires Legal(events) && Enabled(Run(events), e)
    ensures Legal(events + [e]) && Run(events + [e]) == Step(Run(events), e)
  {
    assert (events + [e])[..|events|] == events;
  }

  /**
   The life of one connection, undisturbed: its add takes the entry over and closes the connection it
   displaced, and its cleanup empties the entry again.
   */
  lemma OneConnectionsLife(events: seq<Event>, d: Device, c: Conn)
    requires Legal(events) && forall i :: 0 <= i < |Run(events).log| ==> Run(events).log[i].conn != c
    ensures var n := |Run(events).log|;
      var up := events + [AddSwap(d, c)] + [AddReturn(n)];
      && Legal(up) && Run(up).conns == Run(events).conns[d := c]
      && (d in Run(events).conns ==> Run(up).closed == Run(events).closed + {Run(events).conns[d]})
      && (d !in Run(events).conns ==> Run(up).closed == Run(events).closed)
      && Legal(up + [Remove(d, c)]) && Run(up + [Remove(d, c)]).conns == Run(events).conns - {d}
  {
    var n := |Run(events).log|;
    var added := events + [AddSwap(d, c)];
    OneMore(events, AddSwap(d, c));
    assert Run(added).log[n] == Added(d, c, Lookup(Run(events).conns, d));
    OneMore(added, AddReturn(n));
    RunKeepsInv(events);
    assert c !in Run(events).unreturned;
    OneMore(added + [AddReturn(n)], Remove(d, c));
    assert Run(events).conns[d := c] - {d} == Run(events).conns - {d};
  }

  /**
   A kick finds the device's newest connection and closes that one only, whatever happens between
   its two halves; with no live connection in the table it does nothing.
   */
  lemma KickClosesTheNewest(events: seq<Event>, d: Device, between: seq<Event>)
    requires Legal(events + [KickLookup(d)] + between)
    requires forall k :: 0 <= k < |between| ==> !between[k].KickClose?
    ensures var s := Run(events); var t := Run(events + [KickLookup(d)] + between);
      match Newest(s.log, d)
      case None => Run(events + [KickLookup(d)]) == s
      case Some(c) =>
        if c in s.removed then Run(events + [KickLookup(d)]) == s
        else Enabled(t, KickClose(c)) && Step(t, KickClose(c)) == t.(kicks := t.kicks - {c}, closed := t.closed + {c})
  {
    var all := events + [KickLookup(d)] + between;
    LegalPrefix(all, |events|);
    LegalPrefix(all, |events| + 1);
    assert all[..|events|] == events && all[..|events| + 1] == events + [KickLookup(d)];
    assert (events + [KickLookup(d)])[..|events|] == events;
    TableIsNewest(events, d);
    var newest := Newest(Run(events).log, d);
    if newest.Some? && newest.value !in Run(events).removed {
      StaysKicked(events + [KickLookup(d)], between, newest.value);
    }
  }

  lemma {:induction false} LegalPrefix(events: seq<Event>, n: nat)
    requires Legal(events) && n <= |events|
    ensures Legal(events[..n])
  {
    if n < |events| {
      LegalPrefix(events[..|events| - 1], n);
      assert events[..|events| - 1][..n] == events[..n];
    } else {
      assert events[..n] == events;
    }
  }

  lemma {:induction false} StaysKicked(events: seq<Event>, more: seq<Event>, c: Conn)
    requires c in Run(events).kicks && forall k :: 0 <= k < |more| ==> !more[k].KickClose?
    ensures c in Run(events + more).kicks
  {
    if more == [] {
      assert events + more == events;
    } else {
      StaysKicked(events, more[..|more| - 1], c);
      assert (events + more)[..|events + more| - 1] == events + more[..|more| - 1];
    }
  }

  /**
   The registry object; each method is one critical section, and `events` is the history it has
   served.  What the methods promise is stated on that history.
   */
  class ConnTable {
    var conns: map<Device, Conn>
    ghost var events: seq<Event>

    ghost predicate Valid()
      reads this
    {
      Legal(events) && conns == Run(events).conns
    }

    constructor ()
      ensures Valid() && events == []
    {
      conns, events := map[], [];
    }

    /**
     The locked half of `add`.  The caller gets, to close after unlocking, the connection most
     recently added for the device, unless that one's own cleanup has run.
     */
    method Swap(d: Device, c: Conn) returns (displaced: Option<Conn>)
      requires Valid() && !Known(Run(events), c)
      modifies this
      ensures Valid() && events == old(events) + [AddSwap(d, c)]
      ensures displaced == Expected(Run(old(events)), d)
      ensures Run(events).log == Run(old(events)).log + [Added(d, c, displaced)]
    {
      TableIsNewest(events, d);
      OneMore(events, AddSwap(d, c));
      displaced := if d in conns then Some(conns[d]) else None;
      conns := conns[d := c];
      events := events + [AddSwap(d, c)];
    }

    /** The deferred cleanup: afterwards the table has lost this connection and no other. */
    method Remove(d: Device, c: Conn)
      requires Valid() && Enabled(Run(events), Event.Remove(d, c))
      modifies this
      ensures Valid() && events == old(events) + [Event.Remove(d, c)]
      ensures Lookup(conns, d) != Some(c) && forall x :: x != d ==> Lookup(conns, x) == Lookup(old(conns), x)
      ensures Newest(Run(old(events)).log, d) != Some(c) ==> conns == old(conns)
    {
      OneMore(events, Event.Remove(d, c));
      TableIsNewest(events, d);
      if d in conns && conns[d] == c {
        conns := conns - {d};
      }
      events := events + [Event.Remove(d, c)];
    }

    /** What `Send` and `Kick` find: the device's newest connection, or nothing once it cleaned up. */
    method Get(d: Device) returns (c: Option<Conn>)
      requires Valid()
      ensures c.Some? ==> Newest(Run(events).log, d) == c && c.value !in Run(events).removed
      ensures c.None? ==> Newest(Run(events).log, d).None? || Newest(Run(events).log, d).value in Run(events).removed
    {
      TableIsNewest(events, d);
      c := if d in conns then Some(conns[d]) else None;
    }
  }
}
