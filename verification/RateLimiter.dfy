/**
 The login limiter of the API server (server/internal/api/httputil.go).

 `RateLimiter.Allow` keeps, per key, only the admitted instants that were still
 inside the window at the last call, and compacts them in place.  The reference it is proved
 against is the sliding window over the *complete* admission history, which is
 never pruned: `Admits` below.
 */
module RateLimiter {

  /** Instants of `s` after `cutoff`, in order: what the compaction keeps. */
  function After(s: seq<int>, cutoff: int): (r: seq<int>)
    ensures |r| <= |s|
  {
    if s == [] then []
    else After(s[..|s| - 1], cutoff) + (if s[|s| - 1] > cutoff then [s[|s| - 1]] else [])
  }

  /** Number of admitted instants in the half-open window `(lo, hi]`. */
  function InWindow(s: seq<int>, lo: int, hi: int): (n: nat)
    ensures n <= |s|
  {
    if s == [] then 0
    else InWindow(s[..|s| - 1], lo, hi) + (if lo < s[|s| - 1] <= hi then 1 else 0)
  }

  /** The admissions in the window that ends at `t`. */
  function Load(s: seq<int>, window: int, t: int): nat {
    InWindow(s, t - window, t)
  }

  /** The positions of the admissions in `(lo, hi]`. */
  ghost function Positions(s: seq<int>, lo: int, hi: int): set<int> {
    set i | 0 <= i < |s| && lo < s[i] <= hi
  }

  lemma {:induction false} WindowCounts(s: seq<int>, lo: int, hi: int)
    ensures InWindow(s, lo, hi) == |Positions(s, lo, hi)|
  {
    if s == [] {
      assert Positions(s, lo, hi) == {};
    } else {
      var n := |s| - 1;
      WindowCounts(s[..n], lo, hi);
      assert Positions(s, lo, hi) == Positions(s[..n], lo, hi) + if lo < s[n] <= hi then {n} else {};
    }
  }

  /** The load counts the admissions after `t - window` and up to `t`. */
  lemma LoadCounts(s: seq<int>, window: int, t: int)
    ensures Load(s, window, t) == |set i | 0 <= i < |s| && t - window < s[i] <= t|
  {
    WindowCounts(s, t - window, t);
    assert Positions(s, t - window, t) == set i | 0 <= i < |s| && t - window < s[i] <= t;
  }

  /** The reference decision, over the whole history of admissions. */
  predicate Admits(history: seq<int>, limit: int, window: int, now: int) {
    Load(history, window, now) < limit
  }

  ghost predicate NonDecreasing(s: seq<int>) {
    forall i, j :: 0 <= i <= j < |s| ==> s[i] <= s[j]
  }

  ghost predicate Before(s: seq<int>, t: int) {
    forall i :: 0 <= i < |s| ==> s[i] <= t
  }

  /** The admission history produced by calls at the instants `calls`, from an empty limiter. */
  function History(calls: seq<int>, limit: int, window: int): (h: seq<int>)
    ensures forall x :: x in h ==> x in calls
  {
    if calls == [] then []
    else
      var h := History(calls[..|calls| - 1], limit, window);
      var now := calls[|calls| - 1];
      if Admits(h, limit, window, now) then h + [now] else h
  }

  lemma {:induction false} AfterIsInWindow(s: seq<int>, cutoff: int, now: int)
    requires Before(s, now)
    ensures |After(s, cutoff)| == InWindow(s, cutoff, now)
  {
    if s != [] {
      AfterIsInWindow(s[..|s| - 1], cutoff, now);
    }
  }

  lemma {:induction false} AfterTwice(s: seq<int>, c1: int, c2: int)
    requires c1 <= c2
    ensures After(After(s, c1), c2) == After(s, c2)
  {
    if s != [] {
      var s' := s[..|s| - 1];
      AfterTwice(s', c1, c2);
      if s[|s| - 1] > c1 {
        assert After(s, c1)[..|After(s, c1)| - 1] == After(s', c1);
      } else {
        assert After(s, c1) == After(s', c1);
        assert After(s, c2) == After(s', c2);
      }
    }
  }

  lemma {:induction false} AfterConcat(a: seq<int>, b: seq<int>, cutoff: int)
    requires |b| <= 1
    ensures After(a + b, cutoff) == After(a, cutoff) + After(b, cutoff)
  {
    if b == [] {
      assert a + b == a;
    } else {
      assert (a + b)[..|a|] == a && b[..0] == [];
    }
  }

  /** The pruned list still answers every cutoff from `c` on exactly as the full history does. */
  ghost predicate Agrees(kept: seq<int>, full: seq<int>, c: int) {
    forall c' :: c <= c' ==> After(kept, c') == After(full, c')
  }

  /** Pruning at a later cutoff, and then recording `fresh`, keeps the agreement. */
  lemma {:induction false} PruneAgrees(kept: seq<int>, full: seq<int>, c: int, cutoff: int, added: seq<int>)
    requires Agrees(kept, full, c) && c <= cutoff && |added| <= 1
    ensures Agrees(After(kept, cutoff) + added, full + added, cutoff)
  {
    forall c' | cutoff <= c'
      ensures After(After(kept, cutoff) + added, c') == After(full + added, c')
    {
      AfterTwice(kept, cutoff, c');
      AfterConcat(After(kept, cutoff), added, c');
      AfterConcat(full, added, c');
    }
  }

  /** Widening either end of the window can only raise the count. */
  lemma {:induction false} WindowMonotone(s: seq<int>, lo: int, lo': int, hi: int, hi': int)
    requires lo' <= lo && hi <= hi'
    ensures InWindow(s, lo, hi) <= InWindow(s, lo', hi')
  {
    if s != [] {
      WindowMonotone(s[..|s| - 1], lo, lo', hi, hi');
    }
  }

  lemma {:induction false} HistoryBefore(calls: seq<int>, limit: int, window: int)
    requires NonDecreasing(calls) && calls != []
    ensures Before(History(calls, limit, window), calls[|calls| - 1])
  {
    forall i | 0 <= i < |History(calls, limit, window)|
      ensures History(calls, limit, window)[i] <= calls[|calls| - 1]
    {
      assert History(calls, limit, window)[i] in calls;
    }
  }

  /** One more admission keeps the bound, at every instant. */
  lemma AdmissionKeepsBound(h: seq<int>, limit: int, window: int, now: int, t: int)
    requires Before(h, now) && Load(h, window, t) <= limit && Admits(h, limit, window, now)
    ensures Load(h + [now], window, t) <= limit
  {
    assert (h + [now])[..|h|] == h;
    if t - window < now <= t {
      WindowUpTo(h, t - window, now, t);
      WindowMonotone(h, t - window, now - window, now, now);
    }
  }

  lemma {:induction false} LoadStaysWithin(calls: seq<int>, limit: int, window: int, t: int)
    requires NonDecreasing(calls) && 0 <= limit
    ensures Load(History(calls, limit, window), window, t) <= limit
  {
    if calls != [] {
      var before, now := calls[..|calls| - 1], calls[|calls| - 1];
      var h := History(before, limit, window);
      LoadStaysWithin(before, limit, window, t);
      if Admits(h, limit, window, now) {
        if before != [] {
          HistoryBefore(before, limit, window);
        }
        AdmissionKeepsBound(h, limit, window, now, t);
      }
    }
  }

  /**
   The bound the limiter is for: with a clock that never goes back, whatever calls are made,
   the admissions inside every window of the configured length, at every instant,
   are at most `limit`.
   */
  lemma NeverOverLimit(calls: seq<int>, limit: int, window: int, t: int)
    requires NonDecreasing(calls) && 0 <= limit
    ensures var h := History(calls, limit, window);
      |set i | 0 <= i < |h| && t - window < h[i] <= t| <= limit
  {
    LoadStaysWithin(calls, limit, window, t);
    LoadCounts(History(calls, limit, window), window, t);
  }

  /** The next call is refused exactly when the window that ends now already holds `limit` admissions. */
  lemma DeniedExactlyAtLimit(calls: seq<int>, limit: int, window: int, now: int)
    requires NonDecreasing(calls) && 0 <= limit
    ensures var h := History(calls, limit, window);
      History(calls + [now], limit, window) == (if |set i | 0 <= i < |h| && now - window < h[i] <= now| == limit then h else h + [now])
  {
    var h := History(calls, limit, window);
    LoadStaysWithin(calls, limit, window, now);
    LoadCounts(h, window, now);
    assert (calls + [now])[..|calls|] == calls;
  }

  lemma {:induction false} WindowUpTo(s: seq<int>, lo: int, now: int, hi: int)
    requires Before(s, now) && now <= hi
    ensures InWindow(s, lo, hi) == InWindow(s, lo, now)
  {
    if s != [] {
      WindowUpTo(s[..|s| - 1], lo, now, hi);
    }
  }

  // ---------------------------------------------------------------------
  // Calls in any order

  /** What the limiter keeps for a key, and every admission it has made. */
  datatype Pruned = Pruned(kept: seq<int>, admitted: seq<int>)

  /** One call of the code, on the pruned list. */
  function Call(p: Pruned, now: int, limit: int, window: int): Pruned {
    var kept := After(p.kept, now - window);
    if |kept| < limit then Pruned(kept + [now], p.admitted + [now]) else Pruned(kept, p.admitted)
  }

  /**
   `Allow` reads its clock before it takes the lock, so callers can enter in another order than
   that of their readings.  This is what the code does with `calls` in the order of the lock.
   */
  function AnyOrder(calls: seq<int>, limit: int, window: int): Pruned {
    if calls == [] then Pruned([], [])
    else Call(AnyOrder(calls[..|calls| - 1], limit, window), calls[|calls| - 1], limit, window)
  }

  lemma OneMoreCall(calls: seq<int>, now: int, limit: int, window: int)
    ensures AnyOrder(calls + [now], limit, window) == Call(AnyOrder(calls, limit, window), now, limit, window)
  {
    assert (calls + [now])[..|calls|] == calls;
  }

  lemma OrderedCall(p: Pruned, now: int, limit: int, window: int)
    requires Before(p.admitted, now) && Agrees(p.kept, p.admitted, now - window)
    ensures var q := Call(p, now, limit, window);
      && q.admitted == (if Admits(p.admitted, limit, window, now) then p.admitted + [now] else p.admitted)
      && Agrees(q.kept, q.admitted, now - window)
  {
    var cutoff := now - window;
    AfterIsInWindow(p.admitted, cutoff, now);
    assert After(p.kept, cutoff) == After(p.admitted, cutoff);
    PruneAgrees(p.kept, p.admitted, cutoff, cutoff, if |After(p.kept, cutoff)| < limit then [now] else []);
    assert After(p.kept, cutoff) + [] == After(p.kept, cutoff) && p.admitted + [] == p.admitted;
  }

  /** With a clock that never goes back the pruned list decides like the complete history. */
  lemma {:induction false} OrderedCallsAgree(calls: seq<int>, limit: int, window: int)
    requires NonDecreasing(calls)
    ensures var p := AnyOrder(calls, limit, window);
      p.admitted == History(calls, limit, window) && (calls != [] ==> Agrees(p.kept, p.admitted, calls[|calls| - 1] - window))
  {
    if calls != [] {
      var before, now := calls[..|calls| - 1], calls[|calls| - 1];
      OrderedCallsAgree(before, limit, window);
      if before != [] {
        HistoryBefore(before, limit, window);
      }
      OrderedCall(AnyOrder(before, limit, window), now, limit, window);
    }
  }

  /** Any two admissions are at least a window apart. */
  ghost predicate Apart(s: seq<int>, window: int) {
    forall i, j :: 0 <= i < j < |s| ==> s[i] + window <= s[j]
  }

  lemma {:induction false} NoneInWindow(s: seq<int>, lo: int, hi: int)
    requires lo >= hi || forall i :: 0 <= i < |s| ==> s[i] <= lo
    ensures InWindow(s, lo, hi) == 0
  {
    if s != [] {
      NoneInWindow(s[..|s| - 1], lo, hi);
    }
  }

  lemma {:induction false} ApartMeansOne(s: seq<int>, window: int, t: int)
    requires Apart(s, window)
    ensures Load(s, window, t) <= 1
  {
    if s != [] {
      ApartMeansOne(s[..|s| - 1], window, t);
      if s[|s| - 1] <= t {
        NoneInWindow(s[..|s| - 1], t - window, t);
      }
    }
  }

  /** With limit 1 the list is always the last admission, so a late caller is refused. */
  ghost predicate Single(p: Pruned, window: int) {
    Apart(p.admitted, window) && p.kept == if p.admitted == [] then [] else [p.admitted[|p.admitted| - 1]]
  }

  lemma SingleCall(p: Pruned, now: int, window: int)
    requires window > 0 && Single(p, window)
    ensures Single(Call(p, now, 1, window), window)
  {
    if p.admitted != [] {
      var last := p.admitted[|p.admitted| - 1];
      assert p.kept[..0] == [];
      assert After(p.kept, now - window) == if last > now - window then [last] else [];
      assert forall i :: 0 <= i < |p.admitted| - 1 ==> p.admitted[i] + window <= last;
    }
  }

  lemma {:induction false} SingleAdmissionsStayApart(calls: seq<int>, window: int)
    requires window > 0
    ensures Single(AnyOrder(calls, 1, window), window)
  {
    if calls != [] {
      SingleAdmissionsStayApart(calls[..|calls| - 1], window);
      SingleCall(AnyOrder(calls[..|calls| - 1], 1, window), calls[|calls| - 1], window);
    }
  }

  lemma {:induction false} NothingAdmitted(calls: seq<int>, window: int)
    ensures AnyOrder(calls, 0, window).admitted == []
  {
    if calls != [] {
      NothingAdmitted(calls[..|calls| - 1], window);
    }
  }

  function Zeros(n: nat): seq<int> {
    seq(n, _ => 0)
  }

  /** `n` calls at instant 0 are all admitted and all kept. */
  lemma {:induction false} ZerosAreAdmitted(n: nat, limit: int, window: int)
    requires n <= limit && window > 0
    ensures AnyOrder(Zeros(n), limit, window) == Pruned(Zeros(n), Zeros(n))
    ensures After(Zeros(n), -window) == Zeros(n) && After(Zeros(n), 0) == [] && InWindow(Zeros(n), -1, window - 1) == n
  {
    if n > 0 {
      ZerosAreAdmitted(n - 1, limit, window);
      assert Zeros(n)[..n - 1] == Zeros(n - 1) && Zeros(n) == Zeros(n - 1) + [0];
      OneMoreCall(Zeros(n - 1), 0, limit, window);
    }
  }

  /** The window's worth of early calls, one that makes the list forget them, and a late one among them. */
  lemma LateCallerIsAdmitted(limit: int, window: int)
    requires limit >= 2 && window > 0
    ensures Load(AnyOrder(Zeros(limit) + [window] + [window - 1], limit, window).admitted, window, window - 1) == limit + 1
  {
    ZerosAreAdmitted(limit, limit, window);
    OneMoreCall(Zeros(limit), window, limit, window);
    OneMoreCall(Zeros(limit) + [window], window - 1, limit, window);
    LateCallsForget(limit, window);
    LateCallsCount(limit, window);
    assert AnyOrder(Zeros(limit) + [window] + [window - 1], limit, window).admitted == Zeros(limit) + [window] + [window - 1];
  }

  lemma LateCallsCount(limit: int, window: int)
    requires limit >= 2 && window > 0
    ensures Load(Zeros(limit) + [window] + [window - 1], window, window - 1) == limit + 1
  {
    ZerosAreAdmitted(limit, limit, window);
    CountExtends(Zeros(limit), window, -1, window - 1);
    CountExtends(Zeros(limit) + [window], window - 1, -1, window - 1);
  }

  lemma CountExtends(s: seq<int>, x: int, lo: int, hi: int)
    ensures InWindow(s + [x], lo, hi) == InWindow(s, lo, hi) + if lo < x <= hi then 1 else 0
  {
    assert (s + [x])[..|s|] == s;
  }

  lemma LateCallsForget(limit: int, window: int)
    requires limit >= 2 && window > 0
    ensures var early := Zeros(limit) + [window];
      && Call(Pruned(Zeros(limit), Zeros(limit)), window, limit, window) == Pruned([window], early)
      && Call(Pruned([window], early), window - 1, limit, window) == Pruned([window, window - 1], early + [window - 1])
  {
    ZerosAreAdmitted(limit, limit, window);
    AfterOne(window, -1);
    assert [] + [window] == [window] && [window] + [window - 1] == [window, window - 1];
  }

  lemma AfterOne(x: int, cutoff: int)
    requires x > cutoff
    ensures After([x], cutoff) == [x]
  {
    assert [x][..0] == [];
  }

  ghost predicate BoundedInAnyOrder(limit: int, window: int) {
    forall calls, t :: Load(AnyOrder(calls, limit, window).admitted, window, t) <= limit
  }

  /**
   The bound survives callers that enter out of order exactly for a limit of at most one (or an
   empty window): from two on, a late caller finds its window's hits already pruned away.
   */
  lemma BoundInAnyOrderIff(limit: int, window: int)
    requires 0 <= limit
    ensures BoundedInAnyOrder(limit, window) <==> limit <= 1 || window <= 0
  {
    if limit <= 1 || window <= 0 {
      forall calls, t
        ensures Load(AnyOrder(calls, limit, window).admitted, window, t) <= limit
      {
        if window <= 0 {
          NoneInWindow(AnyOrder(calls, limit, window).admitted, t - window, t);
        } else if limit == 1 {
          SingleAdmissionsStayApart(calls, window);
          ApartMeansOne(AnyOrder(calls, 1, window).admitted, window, t);
        } else {
          NothingAdmitted(calls, window);
        }
      }
    } else {
      LateCallerIsAdmitted(limit, window);
    }
  }

  /** A Go slice: the first `len` cells of a backing array that may be longer. */
  datatype Slice = Slice(buf: array<int>, len: nat)

  /**
   The in-place filter `kept := hits[:0]; for t in hits { if keep { kept = append(kept, t) } }`.
   Reader and writer share `buf`; the second invariant is that no cell is written before it
   was read.
   */
  method Compact(buf: array<int>, len: nat, cutoff: int) returns (kept: nat)
    requires len <= buf.Length
    modifies buf
    ensures kept <= len
    ensures buf[..kept] == After(old(buf[..len]), cutoff)
    ensures buf[len..] == old(buf[len..])
  {
    kept := 0;
    var i := 0;
    ghost var hits := buf[..len];
    while i < len
      invariant kept <= i <= len
      invariant buf[i..] == old(buf[i..])
      invariant buf[..kept] == After(hits[..i], cutoff)
    {
      assert hits[..i + 1][..i] == hits[..i];
      assert buf[i] == buf[i..][0] == hits[i];
      if buf[i] > cutoff {
        buf[kept] := buf[i];
        kept := kept + 1;
        assert buf[..kept] == buf[..kept - 1] + [hits[i]];
      }
      i := i + 1;
      assert buf[i..] == old(buf[i - 1..])[1..];
    }
    assert hits[..len] == hits;
  }

  class Limiter<Key(==)> {
    const limit: int
    const window: int
    var hits: map<Key, Slice>
    /** Every admission of every key, never pruned. */
    ghost var history: map<Key, seq<int>>
    /** The contents of the slices, the last clock reading, and which key each array serves. */
    ghost var kept: map<Key, seq<int>>
    ghost var clock: int
    ghost var owner: map<array<int>, Key>

    constructor (limit: int, window: int)
      ensures Valid() && owner == map[] && this.limit == limit && this.window == window
      ensures hits == map[] && history == map[]
    {
      this.limit, this.window := limit, window;
      hits, history, kept, clock, owner := map[], map[], map[], 0, map[];
    }

    ghost function Admitted(key: Key): seq<int>
      reads this
    {
      if key in history then history[key] else []
    }

    ghost predicate Valid()
      reads this, owner.Keys
    {
      && hits.Keys == kept.Keys == history.Keys
      && (forall k :: k in hits ==> Holds(k))
      && AllValid(kept, history, clock)
    }

    ghost predicate AllValid(kept: map<Key, seq<int>>, full: map<Key, seq<int>>, now: int) {
      kept.Keys == full.Keys && forall k :: k in kept ==> KeyValid(kept[k], full[k], now)
    }

    /** The slice of `k` is backed by its own array and holds what `kept` says. */
    ghost predicate Holds(k: Key)
      requires k in hits && k in kept
      reads this, owner.Keys
    {
      && hits[k].buf in owner && owner[hits[k].buf] == k
      && hits[k].len <= hits[k].buf.Length && hits[k].buf[..hits[k].len] == kept[k]
    }

    ghost predicate KeyValid(kept: seq<int>, full: seq<int>, now: int) {
      Before(full, now) && Agrees(kept, full, now - window) && WithinLimit(full)
    }

    /** The bound, on the class's own record of admissions. */
    ghost predicate WithinLimit(full: seq<int>) {
      0 <= limit ==> forall t :: Load(full, window, t) <= limit
    }

    lemma BoundStays(full: seq<int>, now: int)
      requires Before(full, now) && WithinLimit(full) && Admits(full, limit, window, now)
      ensures WithinLimit(full + [now])
    {
      if 0 <= limit {
        forall t
          ensures Load(full + [now], window, t) <= limit
        {
          AdmissionKeepsBound(full, limit, window, now, t);
        }
      }
    }

    /** What the passing of time alone does to a key that is not called. */
    lemma KeyStaysValid(kept: seq<int>, full: seq<int>, now: int, later: int)
      requires KeyValid(kept, full, now) && now <= later
      ensures KeyValid(kept, full, later)
    {
    }

    /** One key's lists are replaced, and time passes for all the others. */
    lemma AllStayValid(kept: map<Key, seq<int>>, full: map<Key, seq<int>>, now: int, later: int, key: Key, k: seq<int>, f: seq<int>)
      requires AllValid(kept, full, now) && now <= later && KeyValid(k, f, later)
      ensures AllValid(kept[key := k], full[key := f], later)
    {
      forall x | x in kept
        ensures KeyValid(kept[x], full[x], later)
      {
        KeyStaysValid(kept[x], full[x], now, later);
      }
    }

    /** The slice work of one call: compaction, decision and append, on one key. */
    method Step(s: Slice, now: int, ghost full: seq<int>) returns (r: Slice, ok: bool)
      requires s.len <= s.buf.Length && KeyValid(s.buf[..s.len], full, now)
      modifies s.buf
      ensures r.len <= r.buf.Length && (r.buf == s.buf || fresh(r.buf))
      ensures ok == Admits(full, limit, window, now)
      ensures KeyValid(r.buf[..r.len], full + if ok then [now] else [], now)
    {
      var cutoff := now - window;
      ghost var before := s.buf[..s.len];
      var n := Compact(s.buf, s.len, cutoff);
      r := Slice(s.buf, n);
      ok := n < limit;
      PruneAgrees(before, full, cutoff, cutoff, if ok then [now] else []);
      assert After(before, cutoff) == After(full, cutoff);
      AfterIsInWindow(full, cutoff, now);
      if ok {
        BoundStays(full, now);
        r := Append(r, now);
        assert r.buf[..r.len] == After(before, cutoff) + [now];
      } else {
        assert full + [] == full;
        assert r.buf[..r.len] == After(before, cutoff) + [];
      }
    }

    /** Go's read of a map entry: a missing key is the empty slice. */
    method HitsOf(key: Key) returns (s: Slice)
      requires Valid()
      ensures s.len <= s.buf.Length && KeyValid(s.buf[..s.len], Admitted(key), clock)
      ensures if key in hits then s == hits[key] else fresh(s.buf)
    {
      if key in hits {
        s := hits[key];
        assert s.buf[..s.len] == kept[key];
      } else {
        var empty := new int[0];
        s := Slice(empty, 0);
        assert s.buf[..s.len] == [];
      }
    }

    /**
     One call.  The answer is the reference decision over the complete history of the key;
     an admission extends that history and no other key is touched.
     */
    method Allow(key: Key, now: int) returns (ok: bool)
      requires Valid() && clock <= now
      modifies this, owner.Keys
      ensures Valid() && fresh(owner.Keys - old(owner.Keys)) && clock == now
      ensures var past := old(Admitted(key));
        ok <==> |set i | 0 <= i < |past| && now - window < past[i] <= now| < limit
      ensures history == old(history)[key := old(Admitted(key)) + if ok then [now] else []]
      ensures forall k :: k in history ==> WithinLimit(history[k])
    {
      ghost var past := Admitted(key);
      var slice := HitsOf(key);
      KeyStaysValid(slice.buf[..slice.len], past, clock, now);
      slice, ok := Step(slice, now, past);
      LoadCounts(past, window, now);
      past := past + if ok then [now] else [];
      Store(key, slice, past, now);
    }

    /** Writes one key's slice back; every other key keeps its slice and its meaning. */
    method Store(key: Key, slice: Slice, ghost full: seq<int>, ghost now: int)
      requires clock <= now && hits.Keys == kept.Keys == history.Keys
      requires forall k :: k in hits && k != key ==> Holds(k)
      requires AllValid(kept, history, clock)
      requires slice.len <= slice.buf.Length && KeyValid(slice.buf[..slice.len], full, now)
      requires slice.buf in owner ==> owner[slice.buf] == key
      modifies this
      ensures Valid() && clock == now
      ensures history == old(history)[key := full] && owner == old(owner)[slice.buf := key]
    {
      AllStayValid(kept, history, clock, now, key, slice.buf[..slice.len], full);
      Write(key, slice, full, now);
    }

    /** The assignment to the map, with its shadows; no other key's slice is touched. */
    method Write(key: Key, slice: Slice, ghost full: seq<int>, ghost now: int)
      requires hits.Keys == kept.Keys == history.Keys
      requires forall k :: k in hits && k != key ==> Holds(k)
      requires slice.len <= slice.buf.Length && (slice.buf in owner ==> owner[slice.buf] == key)
      modifies this
      ensures hits == old(hits)[key := slice] && forall k :: k in hits ==> k in kept && Holds(k)
      ensures kept == old(kept)[key := slice.buf[..slice.len]] && history == old(history)[key := full]
      ensures owner == old(owner)[slice.buf := key] && clock == now
    {
      clock := now;
      owner := owner[slice.buf := key];
      hits := hits[key := slice];
      kept := kept[key := slice.buf[..slice.len]];
      history := history[key := full];
      forall k | k in hits && k != key
        ensures Holds(k)
      {
        assert old(Holds(k)) && hits[k].buf != slice.buf;
      }
    }

    /** Go's append: in place while there is room, otherwise into a larger array. */
    method Append(s: Slice, x: int) returns (r: Slice)
      requires s.len <= s.buf.Length
      modifies s.buf
      ensures r.len == s.len + 1 <= r.buf.Length
      ensures r.buf[..r.len] == old(s.buf[..s.len]) + [x]
      ensures r.buf == s.buf || fresh(r.buf)
    {
      if s.len < s.buf.Length {
        s.buf[s.len] := x;
        r := Slice(s.buf, s.len + 1);
      } else {
        var bigger := new int[2 * s.len + 1];
        forall i | 0 <= i < s.len {
          bigger[i] := s.buf[i];
        }
        bigger[s.len] := x;
        r := Slice(bigger, s.len + 1);
      }
    }
  }
}
