/**
 * Model-backend leases and delayed idle stops (internal/llm/backend.go).
 *
 * Each critical section is one atomic step.  A timer that has gone off cannot
 * be stopped any more: its callback still runs, later, and takes the lock.
 */
module BackendLease {
  import opened Prelude
  import TagNames

  type Key = string

  datatype TimerStatus = Armed | Firing | Stopped | Finished

  datatype Timer = Timer(key: Key, due: int, status: TimerStatus)

  predicate Live(t: Timer) {
    t.status == Armed || t.status == Firing
  }

  /** A lease taken with an empty base URL or model has no key and does nothing. */
  datatype Lease = Lease(key: Option<Key>, open: bool)

  /** What happened to a key: a use began, the last use ended, a stop was decided. */
  datatype Entry =
    | Began(key: Key)
    | Freed(key: Key, stopDue: Option<int>)
    | Decided(key: Key, at: int)

  datatype Registry = Registry(
    counts: map<Key, nat>, pending: map<Key, nat>, timers: seq<Timer>, leases: seq<Lease>, log: seq<Entry>, now: int)

  const EMPTY := Registry(map[], map[], [], [], [], 0)

  // ------------------------------------------------------------------------ keys

  function TrimSlashes(s: string): string {
    if s != [] && s[|s| - 1] == '/' then TrimSlashes(s[..|s| - 1]) else s
  }

  function KeyOf(baseUrl: string, model: string): Option<Key> {
    var b, m := TrimSlashes(TagNames.TrimSpace(baseUrl)), TagNames.TrimSpace(model);
    if b == "" || m == "" then None else Some(b + ['\0'] + m)
  }

  lemma {:induction false} JoinedKeysDiffer(a: string, m: string, b: string, n: string)
    requires '\0' !in a && '\0' !in b
    ensures a + ['\0'] + m == b + ['\0'] + n <==> a == b && m == n
  {
    var s, t := a + ['\0'] + m, b + ['\0'] + n;
    if s == t {
      assert s[|a|] == '\0' && t[|b|] == '\0';
      SeparatorAt(a, m, |b|);
      SeparatorAt(b, n, |a|);
      assert a == s[..|a|] && b == t[..|a|] && m == s[|a| + 1..] && n == t[|a| + 1..];
    }
  }

  lemma {:induction false} SeparatorAt(a: string, m: string, i: nat)
    requires '\0' !in a && i < |a| + 1 + |m|
    ensures (a + ['\0'] + m)[i] == '\0' ==> i >= |a|
  {
    if i < |a| { assert (a + ['\0'] + m)[i] == a[i]; }
  }

  /** t is s without the slashes at its end. */
  ghost predicate WithoutSlashes(s: string, t: string) {
    && t <= s && (t != [] ==> t[|t| - 1] != '/')
    && forall k | |t| <= k < |s| :: s[k] == '/'
  }

  lemma {:induction false} SlashesGone(s: string)
    ensures WithoutSlashes(s, TrimSlashes(s))
  {
    if s != [] && s[|s| - 1] == '/' { SlashesGone(s[..|s| - 1]); }
  }

  lemma {:induction false} OneSlashless(s: string, t: string, u: string)
    requires WithoutSlashes(s, t) && WithoutSlashes(s, u)
    ensures t == u
  {
    assert t != [] ==> s[|t| - 1] == t[|t| - 1];
    assert u != [] ==> s[|u| - 1] == u[|u| - 1];
  }

  /** What identifies a backend: base URL and model, however the caller spells them. */
  ghost predicate Names(baseUrl: string, model: string, url: string, name: string) {
    (exists u :: TagNames.Bare(baseUrl, u) && WithoutSlashes(u, url)) && TagNames.Bare(model, name)
  }

  lemma {:induction false} NamesAre(a: string, m: string, u: string, x: string)
    requires '\0' !in a && Names(a, m, u, x)
    ensures u == TrimSlashes(TagNames.TrimSpace(a)) && x == TagNames.TrimSpace(m) && '\0' !in u
  {
    var w :| TagNames.Bare(a, w) && WithoutSlashes(w, u);
    TagNames.TrimIsBare(a);
    TagNames.TrimIsBare(m);
    TagNames.OneBare(a, w, TagNames.TrimSpace(a));
    TagNames.OneBare(m, x, TagNames.TrimSpace(m));
    SlashesGone(w);
    OneSlashless(w, u, TrimSlashes(w));
  }

  /**
   * A use is counted under a key exactly when both parts are left with
   * something, and two uses share their key exactly when both parts agree.
   */
  lemma {:induction false} KeysIdentify(a: string, m: string, u: string, x: string, b: string, n: string, v: string, y: string)
    requires '\0' !in a && '\0' !in b && Names(a, m, u, x) && Names(b, n, v, y)
    ensures KeyOf(a, m).Some? <==> u != "" && x != ""
    ensures KeyOf(a, m).Some? ==> (KeyOf(a, m) == KeyOf(b, n) <==> u == v && x == y)
  {
    NamesAre(a, m, u, x);
    NamesAre(b, n, v, y);
    JoinedKeysDiffer(u, x, v, y);
  }

  // ----------------------------------------------------------------------- steps

  datatype Event =
    | Begin(key: Option<Key>)
    | Release(id: nat, stopOnIdle: bool, delay: int)
    | Elapse(ticks: nat)
    | Fire(timer: nat)
    | Callback(timer: nat)

  function CountOf(s: Registry, k: Key): nat {
    if k in s.counts then s.counts[k] else 0
  }

  function SetTimer(ts: seq<Timer>, i: nat, status: TimerStatus): seq<Timer> {
    if i < |ts| then ts[i := ts[i].(status := status)] else ts
  }

  /** t.Stop(): too late for a timer that has gone off. */
  function StopTimer(ts: seq<Timer>, i: nat): seq<Timer> {
    if i < |ts| && ts[i].status == Armed then SetTimer(ts, i, Stopped) else ts
  }

  function BeginUse(s: Registry, k: Key): Registry {
    s.(counts := s.counts[k := CountOf(s, k) + 1],
       timers := if k in s.pending then StopTimer(s.timers, s.pending[k]) else s.timers,
       pending := s.pending - {k},
       leases := s.leases + [Lease(Some(k), true)],
       log := s.log + [Began(k)])
  }

  function EndUse(s: Registry, k: Key, stopOnIdle: bool, delay: int): Registry {
    var count := CountOf(s, k);
    if count > 1 then s.(counts := s.counts[k := count - 1])
    else if count != 1 then s
    else
      var idle := s.(counts := s.counts - {k});
      if !stopOnIdle then idle.(log := s.log + [Freed(k, None)])
      else if delay <= 0 then idle.(log := s.log + [Freed(k, None), Decided(k, s.now)])
      else idle.(pending := s.pending[k := |s.timers|],
                 timers := s.timers + [Timer(k, s.now + delay, Armed)],
                 log := s.log + [Freed(k, Some(s.now + delay))])
  }

  predicate Enabled(s: Registry, e: Event) {
    match e
    case Release(id, _, _) => id < |s.leases|
    case Fire(i) => i < |s.timers| && s.timers[i].status == Armed && s.timers[i].due <= s.now
    case Callback(i) => i < |s.timers| && s.timers[i].status == Firing
    case _ => true
  }

  function Apply(s: Registry, e: Event): Registry
    requires Enabled(s, e)
  {
    match e
    case Begin(None) => s.(leases := s.leases + [Lease(None, false)])
    case Begin(Some(k)) => BeginUse(s, k)
    case Release(id, stopOnIdle, delay) =>
      var lease := s.leases[id];
      if !lease.open || lease.key.None? then s
      else EndUse(s.(leases := s.leases[id := lease.(open := false)]), lease.key.value, stopOnIdle, delay)
    case Elapse(ticks) => s.(now := s.now + ticks)
    case Fire(i) => s.(timers := SetTimer(s.timers, i, Firing))
    case Callback(i) =>
      var k, done := s.timers[i].key, SetTimer(s.timers, i, Finished);
      if k !in s.pending then s.(timers := done)
      else s.(timers := done, pending := s.pending - {k}, log := s.log + [Decided(k, s.now)])
  }

  predicate Runs(s: Registry, es: seq<Event>)
    decreases |es|
  {
    es == [] || (Enabled(s, es[0]) && Runs(Apply(s, es[0]), es[1..]))
  }

  function Exec(s: Registry, es: seq<Event>): Registry
    requires Runs(s, es)
    decreases |es|
  {
    if es == [] then s else Exec(Apply(s, es[0]), es[1..])
  }

  // ------------------------------------------------------------------- invariant

  /** Leases on k that are still held. */
  function Held(leases: seq<Lease>, k: Key): nat {
    if leases == [] then 0
    else Held(leases[..|leases| - 1], k) + if leases[|leases| - 1] == Lease(Some(k), true) then 1 else 0
  }

  /** The last thing that happened to k. */
  function Last(log: seq<Entry>, k: Key): Option<Entry> {
    if log == [] then None
    else if log[|log| - 1].key == k then Some(log[|log| - 1])
    else Last(log[..|log| - 1], k)
  }

  ghost predicate CountsLeases(s: Registry) {
    forall k :: (k in s.counts ==> s.counts[k] > 0) && CountOf(s, k) == Held(s.leases, k)
  }

  /** The history of a key tells whether it is used, awaiting a stop, or neither. */
  ghost predicate KeyTells(s: Registry, k: Key) {
    var last := Last(s.log, k);
    && (k in s.counts <==> last.Some? && last.value.Began?)
    && (k in s.pending <==> last.Some? && last.value.Freed? && last.value.stopDue.Some?)
    && (k in s.pending ==>
         && s.pending[k] < |s.timers| && s.timers[s.pending[k]].key == k && Live(s.timers[s.pending[k]])
         && s.timers[s.pending[k]].due == last.value.stopDue.value)
  }

  ghost predicate Inv(s: Registry) {
    && CountsLeases(s)
    && (forall k :: KeyTells(s, k))
    && (forall i | 0 <= i < |s.timers| && s.timers[i].status == Firing :: s.timers[i].due <= s.now)
  }

  lemma {:induction false} HeldPush(leases: seq<Lease>, l: Lease, k: Key)
    ensures Held(leases + [l], k) == Held(leases, k) + if l == Lease(Some(k), true) then 1 else 0
  {
    assert (leases + [l])[..|leases|] == leases;
  }

  lemma {:induction false} HeldClose(leases: seq<Lease>, id: nat, k: Key)
    requires id < |leases| && leases[id].open
    ensures Held(leases[id := leases[id].(open := false)], k) == Held(leases, k) - if leases[id].key == Some(k) then 1 else 0
  {
    var n := |leases| - 1;
    var closed := leases[id := leases[id].(open := false)];
    if id == n {
      assert closed[..n] == leases[..n];
    } else {
      HeldClose(leases[..n], id, k);
      assert closed[..n] == leases[..n][id := leases[id].(open := false)];
    }
  }

  lemma {:induction false} LastPush(log: seq<Entry>, e: Entry, k: Key)
    ensures Last(log + [e], k) == if e.key == k then Some(e) else Last(log, k)
  {
    assert (log + [e])[..|log|] == log;
  }

  lemma {:induction false} BeginPreserves(s: Registry, k: Key)
    requires Inv(s)
    ensures Inv(BeginUse(s, k))
  {
    var t := BeginUse(s, k);
    forall j ensures (j in t.counts ==> t.counts[j] > 0) && CountOf(t, j) == Held(t.leases, j) {
      HeldPush(s.leases, Lease(Some(k), true), j);
    }
    forall j ensures KeyTells(t, j) {
      assert KeyTells(s, j) && KeyTells(s, k);
      LastPush(s.log, Began(k), j);
    }
  }

  lemma {:induction false} ReleaseCounts(s: Registry, id: nat, stopOnIdle: bool, delay: int)
    requires CountsLeases(s) && Enabled(s, Release(id, stopOnIdle, delay))
    ensures CountsLeases(Apply(s, Release(id, stopOnIdle, delay)))
  {
    var lease := s.leases[id];
    if lease.open && lease.key.Some? {
      var k := lease.key.value;
      var t := Apply(s, Release(id, stopOnIdle, delay));
      HeldClose(s.leases, id, k);
      assert CountOf(s, k) == Held(s.leases, k);
      forall j ensures (j in t.counts ==> t.counts[j] > 0) && CountOf(t, j) == Held(t.leases, j) {
        HeldClose(s.leases, id, j);
        assert CountOf(s, j) == Held(s.leases, j);
      }
    }
  }

  lemma {:induction false} ReleaseTells(s: Registry, id: nat, stopOnIdle: bool, delay: int, j: Key)
    requires Inv(s) && Enabled(s, Release(id, stopOnIdle, delay))
    ensures KeyTells(Apply(s, Release(id, stopOnIdle, delay)), j)
  {
    assert KeyTells(s, j);
    var lease := s.leases[id];
    if lease.open && lease.key.Some? {
      var k := lease.key.value;
      assert KeyTells(s, k) && CountOf(s, k) == Held(s.leases, k);
      HeldClose(s.leases, id, k);
      LastFreed(s, j, k, delay);
    }
  }

  lemma {:induction false} ReleasePreserves(s: Registry, id: nat, stopOnIdle: bool, delay: int)
    requires Inv(s) && Enabled(s, Release(id, stopOnIdle, delay))
    ensures Inv(Apply(s, Release(id, stopOnIdle, delay)))
  {
    ReleaseCounts(s, id, stopOnIdle, delay);
    forall j ensures KeyTells(Apply(s, Release(id, stopOnIdle, delay)), j) {
      ReleaseTells(s, id, stopOnIdle, delay, j);
    }
  }

  lemma {:induction false} LastFreed(s: Registry, j: Key, k: Key, delay: int)
    ensures Last(s.log + [Freed(k, None)], j) == if j == k then Some(Freed(k, None)) else Last(s.log, j)
    ensures Last(s.log + [Freed(k, Some(s.now + delay))], j) == if j == k then Some(Freed(k, Some(s.now + delay))) else Last(s.log, j)
    ensures Last(s.log + [Freed(k, None), Decided(k, s.now)], j) == if j == k then Some(Decided(k, s.now)) else Last(s.log, j)
  {
    LastPush(s.log, Freed(k, None), j);
    LastPush(s.log, Freed(k, Some(s.now + delay)), j);
    LastPush(s.log + [Freed(k, None)], Decided(k, s.now), j);
    assert s.log + [Freed(k, None), Decided(k, s.now)] == s.log + [Freed(k, None)] + [Decided(k, s.now)];
  }

  lemma {:induction false} CallbackPreserves(s: Registry, i: nat)
    requires Inv(s) && Enabled(s, Callback(i))
    ensures Inv(Apply(s, Callback(i)))
  {
    var k, t := s.timers[i].key, Apply(s, Callback(i));
    forall j ensures CountOf(t, j) == Held(t.leases, j) && (j in t.counts ==> t.counts[j] > 0) {
      assert CountOf(s, j) == Held(s.leases, j);
    }
    forall j ensures KeyTells(t, j) {
      assert KeyTells(s, j);
      if k in s.pending { LastPush(s.log, t.log[|s.log|], j); }
    }
  }

  lemma {:induction false} StepPreserves(s: Registry, e: Event)
    requires Inv(s) && Enabled(s, e)
    ensures Inv(Apply(s, e))
  {
    match e
    case Begin(None) =>
      var t := Apply(s, e);
      forall j ensures CountOf(t, j) == Held(t.leases, j) && (j in t.counts ==> t.counts[j] > 0) {
        HeldPush(s.leases, Lease(None, false), j);
        assert CountOf(s, j) == Held(s.leases, j);
      }
      forall j ensures KeyTells(t, j) { assert KeyTells(s, j); }
    case Begin(Some(k)) => BeginPreserves(s, k);
    case Release(id, stopOnIdle, delay) => ReleasePreserves(s, id, stopOnIdle, delay);
    case Callback(i) => CallbackPreserves(s, i);
    case _ =>
      var t := Apply(s, e);
      forall j ensures CountOf(t, j) == Held(t.leases, j) && (j in t.counts ==> t.counts[j] > 0) {
        assert CountOf(s, j) == Held(s.leases, j);
      }
      forall j ensures KeyTells(t, j) { assert KeyTells(s, j); }
  }

  lemma {:induction false} RunPreserves(s: Registry, es: seq<Event>)
    requires Inv(s) && Runs(s, es)
    ensures Inv(Exec(s, es))
    decreases |es|
  {
    if es != [] {
      StepPreserves(s, es[0]);
      RunPreserves(Apply(s, es[0]), es[1..]);
    }
  }

  lemma {:induction false} EmptyInv()
    ensures Inv(EMPTY)
  {
    forall k ensures KeyTells(EMPTY, k) {}
  }

  // ------------------------------------------------------------------- theorems

  /**
   * Whatever the interleaving, the count is the number of leases still held, a
   * pending stop means nobody holds one, and a stop is decided only then.
   */
  lemma {:induction false} StopsOnlyIdleBackends(es: seq<Event>, k: Key)
    requires Runs(EMPTY, es)
    ensures var s := Exec(EMPTY, es);
      && CountOf(s, k) == Held(s.leases, k)
      && (k in s.pending ==> Held(s.leases, k) == 0)
      && (Last(s.log, k).Some? && Last(s.log, k).value.Decided? ==> Held(s.leases, k) == 0 && k !in s.pending)
  {
    EmptyInv();
    RunPreserves(EMPTY, es);
    assert KeyTells(Exec(EMPTY, es), k);
  }

  /** Stopping idle backends is switched on whenever a lease is given back. */
  predicate StopsEnabled(es: seq<Event>) {
    forall i | 0 <= i < |es| && es[i].Release? :: es[i].stopOnIdle
  }

  ghost predicate NoneForgotten(s: Registry) {
    forall k :: Last(s.log, k) != Some(Freed(k, None))
  }

  lemma {:induction false} StepForgetsNone(s: Registry, e: Event)
    requires Inv(s) && Enabled(s, e) && NoneForgotten(s) && (e.Release? ==> e.stopOnIdle)
    ensures NoneForgotten(Apply(s, e))
  {
    var t := Apply(s, e);
    forall k ensures Last(t.log, k) != Some(Freed(k, None)) {
      match e
      case Begin(Some(b)) => LastPush(s.log, Began(b), k);
      case Release(id, _, delay) =>
        if s.leases[id].key.Some? { LastFreed(s, k, s.leases[id].key.value, delay); }
      case Callback(i) =>
        if |t.log| > |s.log| { LastPush(s.log, t.log[|s.log|], k); }
      case _ =>
    }
  }

  lemma {:induction false} RunForgetsNone(s: Registry, es: seq<Event>)
    requires Inv(s) && Runs(s, es) && NoneForgotten(s) && StopsEnabled(es)
    ensures NoneForgotten(Exec(s, es))
    decreases |es|
  {
    if es != [] {
      StepForgetsNone(s, es[0]);
      StepPreserves(s, es[0]);
      RunForgetsNone(Apply(s, es[0]), es[1..]);
    }
  }

  /**
   * With stopping switched on, a backend that was used and is idle has a live
   * pending timer or was stopped since its last release; once no timer is live,
   * it was stopped.
   */
  lemma {:induction false} IdleBackendsAreStopped(es: seq<Event>, k: Key)
    requires Runs(EMPTY, es) && forall i | 0 <= i < |es| && es[i].Release? :: es[i].stopOnIdle
    ensures var s := Exec(EMPTY, es);
      Last(s.log, k).Some? && Held(s.leases, k) == 0 ==>
        || Last(s.log, k).value.Decided?
        || (k in s.pending && s.pending[k] < |s.timers| && s.timers[s.pending[k]].key == k && Live(s.timers[s.pending[k]]))
  {
    EmptyInv();
    RunPreserves(EMPTY, es);
    RunForgetsNone(EMPTY, es);
    var s := Exec(EMPTY, es);
    assert KeyTells(s, k) && CountOf(s, k) == Held(s.leases, k);
    LastKey(s.log, k);
  }

  lemma {:induction false} LastKey(log: seq<Entry>, k: Key)
    ensures Last(log, k).Some? ==> Last(log, k).value.key == k
  {
    if log != [] { LastKey(log[..|log| - 1], k); }
  }

  // ----------------------------------------------------------------- grace period

  /** Every timer that may still act is the one its key is waiting for. */
  ghost predicate NoStale(s: Registry) {
    forall i | 0 <= i < |s.timers| && Live(s.timers[i]) :: s.timers[i].key in s.pending && s.pending[s.timers[i].key] == i
  }

  /** A new use arrives after the timer of its backend went off, before the callback ran. */
  predicate Overtakes(s: Registry, e: Event) {
    && e.Begin? && e.key.Some? && e.key.value in s.pending
    && var i := s.pending[e.key.value]; i < |s.timers| && s.timers[i].status == Firing
  }

  predicate NeverOvertaken(s: Registry, es: seq<Event>)
    requires Runs(s, es)
    decreases |es|
  {
    es == [] || (!Overtakes(s, es[0]) && NeverOvertaken(Apply(s, es[0]), es[1..]))
  }

  /** A run in which it happens has a moment at which it does. */
  lemma {:induction false} SomeOvertakes(s: Registry, es: seq<Event>) returns (i: nat)
    requires Runs(s, es) && !NeverOvertaken(s, es)
    ensures i < |es| && Runs(s, es[..i]) && Overtakes(Exec(s, es[..i]), es[i])
    decreases |es|
  {
    i := 0;
    if !Overtakes(s, es[0]) {
      var j := SomeOvertakes(Apply(s, es[0]), es[1..]);
      i := j + 1;
      assert es[..i][0] == es[0] && es[..i][1..] == es[1..][..j];
    } else {
      assert Exec(s, es[..0]) == s;
    }
  }

  lemma {:induction false} StepHonoursGrace(s: Registry, e: Event)
    requires Inv(s) && NoStale(s) && Enabled(s, e) && !Overtakes(s, e)
    ensures NoStale(Apply(s, e))
  {
    if e.Begin? && e.key.Some? { assert KeyTells(s, e.key.value); }
    if e.Callback? { assert KeyTells(s, s.timers[e.timer].key); }
    if e.Release? && s.leases[e.id].key.Some? { assert KeyTells(s, s.leases[e.id].key.value); }
  }

  lemma {:induction false} RunHonoursGrace(s: Registry, es: seq<Event>)
    requires Inv(s) && NoStale(s) && Runs(s, es) && NeverOvertaken(s, es)
    ensures Inv(Exec(s, es)) && NoStale(Exec(s, es))
    decreases |es|
  {
    if es != [] {
      StepHonoursGrace(s, es[0]);
      StepPreserves(s, es[0]);
      RunHonoursGrace(Apply(s, es[0]), es[1..]);
    }
  }

  // ------------------------------------------------ time between release and stop

  /** The time that passes in a run. */
  function Elapsed(es: seq<Event>): nat
    decreases |es|
  {
    if es == [] then 0 else (if es[0].Elapse? then es[0].ticks else 0) + Elapsed(es[1..])
  }

  predicate NoBegin(es: seq<Event>, k: Key) {
    forall i | 0 <= i < |es| :: es[i] != Begin(Some(k))
  }

  /** The release that ends the last use of k. */
  predicate Frees(s: Registry, r: Event, k: Key) {
    r.Release? && Enabled(s, r) && k in s.counts && k !in Apply(s, r).counts
  }

  /** The callback that decides to stop k. */
  predicate Stops(s: Registry, c: Event, k: Key) {
    c.Callback? && Enabled(s, c) && s.timers[c.timer].key == k && k in s.pending
  }

  /** From s: k is freed, not used again, and stopped before the delay asked for at its release has passed. */
  predicate EarlyStop(s: Registry, r: Event, mid: seq<Event>, c: Event, k: Key) {
    && Frees(s, r, k) && Runs(Apply(s, r), mid) && NoBegin(mid, k)
    && Stops(Exec(Apply(s, r), mid), c, k) && Elapsed(mid) < r.delay
  }

  /** Nobody uses k, and the stop awaited, if there is one, is that of timer i, due then. */
  predicate Waiting(s: Registry, k: Key, i: nat, due: int) {
    && k !in s.counts && i < |s.timers| && s.timers[i].due == due
    && (k in s.pending ==> s.pending[k] == i)
  }

  lemma {:induction false} WaitingStep(s: Registry, e: Event, k: Key, i: nat, due: int)
    requires Waiting(s, k, i, due) && Enabled(s, e) && e != Begin(Some(k))
    ensures Waiting(Apply(s, e), k, i, due)
  {
  }

  lemma {:induction false} WaitingRun(s: Registry, es: seq<Event>, k: Key, i: nat, due: int)
    requires Waiting(s, k, i, due) && Runs(s, es) && NoBegin(es, k)
    ensures Waiting(Exec(s, es), k, i, due)
    decreases |es|
  {
    if es != [] {
      assert es[0] != Begin(Some(k));
      WaitingStep(s, es[0], k, i, due);
      WaitingRun(Apply(s, es[0]), es[1..], k, i, due);
    }
  }

  lemma {:induction false} TimePasses(s: Registry, es: seq<Event>)
    requires Runs(s, es)
    ensures Exec(s, es).now == s.now + Elapsed(es)
    decreases |es|
  {
    if es != [] { TimePasses(Apply(s, es[0]), es[1..]); }
  }

  /** What a release that frees k leaves behind. */
  lemma {:induction false} FreedWaits(s: Registry, r: Event, k: Key)
    requires Frees(s, r, k) && Inv(s)
    ensures Apply(s, r).now == s.now && k !in Apply(s, r).counts
    ensures if r.stopOnIdle && r.delay > 0
      then k in Apply(s, r).pending && Apply(s, r).pending[k] == |s.timers| && Waiting(Apply(s, r), k, |s.timers|, s.now + r.delay)
      else k !in Apply(s, r).pending
  {
    assert KeyTells(s, k);
  }

  lemma {:induction false} NoStopWithoutTimer(s: Registry, es: seq<Event>, k: Key)
    requires k !in s.counts && k !in s.pending && Runs(s, es) && NoBegin(es, k)
    ensures k !in Exec(s, es).pending
    decreases |es|
  {
    if es != [] {
      assert es[0] != Begin(Some(k));
      NoStopWithoutTimer(Apply(s, es[0]), es[1..], k);
    }
  }

  /**
   * No backend is stopped before the delay asked for at its release has passed,
   * unless a use overtook a timer that had gone off.
   */
  lemma {:induction false} GraceIsHonoured(before: seq<Event>, r: Event, mid: seq<Event>, c: Event, k: Key)
    requires Runs(EMPTY, before) && NeverOvertaken(EMPTY, before)
    requires var s := Exec(EMPTY, before); Enabled(s, r) && Runs(Apply(s, r), mid) && NeverOvertaken(Apply(s, r), mid)
    ensures !EarlyStop(Exec(EMPTY, before), r, mid, c, k)
  {
    var s := Exec(EMPTY, before);
    EmptyInv();
    RunHonoursGrace(EMPTY, before);
    if EarlyStop(s, r, mid, c, k) {
      var t := Apply(s, r);
      FreedWaits(s, r, k);
      StepHonoursGrace(s, r);
      StepPreserves(s, r);
      RunHonoursGrace(t, mid);
      StopInTime(s, r, mid, c, k);
    }
  }

  lemma {:induction false} StopInTime(s: Registry, r: Event, mid: seq<Event>, c: Event, k: Key)
    requires Inv(s) && Frees(s, r, k) && Runs(Apply(s, r), mid) && NoBegin(mid, k)
    requires var u := Exec(Apply(s, r), mid); Inv(u) && NoStale(u) && Stops(u, c, k)
    ensures Elapsed(mid) >= r.delay
  {
    var t := Apply(s, r);
    FreedWaits(s, r, k);
    TimePasses(t, mid);
    if r.stopOnIdle && r.delay > 0 {
      WaitingRun(t, mid, k, |s.timers|, s.now + r.delay);
    } else {
      NoStopWithoutTimer(t, mid, k);
    }
  }

  /**
   * A release that frees its key with stopping on makes one timer, the one the
   * key then waits for; whatever happens later, as long as it is not stopped it
   * can go off exactly when the delay has passed.
   */
  lemma {:induction false} TimerGoesOffIff(s: Registry, r: Event, es: seq<Event>, k: Key)
    requires Inv(s) && Frees(s, r, k) && r.stopOnIdle && r.delay > 0 && Runs(Apply(s, r), es)
    ensures k in Apply(s, r).pending && var i := Apply(s, r).pending[k]; var u := Exec(Apply(s, r), es);
      && i < |u.timers| && u.timers[i].key == k
      && (u.timers[i].status == Armed ==> (Enabled(u, Fire(i)) <==> Elapsed(es) >= r.delay))
  {
    FreedWaits(s, r, k);
    ReleasedTimer(s, r, k);
    TimePasses(Apply(s, r), es);
    TimerKept(Apply(s, r), es, |s.timers|);
  }

  lemma {:induction false} ReleasedTimer(s: Registry, r: Event, k: Key)
    requires Frees(s, r, k) && r.stopOnIdle && r.delay > 0
    ensures var t := Apply(s, r); |t.timers| == |s.timers| + 1 && t.timers[|s.timers|] == Timer(k, s.now + r.delay, Armed)
  {
  }

  lemma {:induction false} TimerKept(s: Registry, es: seq<Event>, i: nat)
    requires i < |s.timers| && Runs(s, es)
    ensures var u := Exec(s, es); i < |u.timers| && u.timers[i].key == s.timers[i].key && u.timers[i].due == s.timers[i].due
    decreases |es|
  {
    if es != [] { TimerKept(Apply(s, es[0]), es[1..], i); }
  }

  lemma {:induction false} Cons(s: Registry, e: Event, es: seq<Event>)
    ensures Runs(s, [e] + es) <==> Enabled(s, e) && Runs(Apply(s, e), es)
    ensures Runs(s, [e] + es) ==> Exec(s, [e] + es) == Exec(Apply(s, e), es)
  {
    assert ([e] + es)[1..] == es;
  }

  /**
   * The exception is real in every state: when a use overtakes a timer that has
   * gone off, a release with any delay followed by the old callback stops the
   * backend at once.  The callback only checks that some stop is pending.
   */
  lemma {:induction false} OvertakenTimerStopsEarly(s: Registry, k: Key, delay: int)
    requires Inv(s) && Overtakes(s, Begin(Some(k))) && delay > 0
    ensures EarlyStop(Apply(s, Begin(Some(k))), Release(|s.leases|, true, delay), [], Callback(s.pending[k]), k)
  {
    var i := s.pending[k];
    assert KeyTells(s, k);
    assert k !in s.counts && CountOf(s, k) == 0;
    var a := Apply(s, Begin(Some(k)));
    assert a.counts[k] == 1 && a.timers == s.timers && a.leases[|s.leases|] == Lease(Some(k), true);
    var b := Apply(a, Release(|s.leases|, true, delay));
    assert b.pending[k] == |s.timers| && b.timers[i] == s.timers[i];
    assert Exec(b, []) == b;
  }

  /** Such a state is reached by an ordinary run with any positive delay: use, release, and wait. */
  lemma {:induction false} OvertakingHappens(k: Key, delay: nat)
    requires delay > 0
    ensures var es := [Begin(Some(k)), Release(0, true, delay), Elapse(delay), Fire(0)];
      Runs(EMPTY, es) && Overtakes(Exec(EMPTY, es), Begin(Some(k))) && |Exec(EMPTY, es).leases| == 1 && Exec(EMPTY, es).pending == map[k := 0]
  {
    var e0, e1, e2, e3 := Begin(Some(k)), Release(0, true, delay), Elapse(delay), Fire(0);
    var a := Apply(EMPTY, e0);
    assert a.leases == [Lease(Some(k), true)] && a.counts == map[k := 1];
    var b := Apply(a, e1);
    assert b.timers == [Timer(k, delay, Armed)] && b.pending == map[k := 0];
    var c := Apply(b, e2);
    var d := Apply(c, e3);
    Cons(c, e3, []);
    Cons(b, e2, [e3] + []);
    Cons(a, e1, [e2] + ([e3] + []));
    Cons(EMPTY, e0, [e1] + ([e2] + ([e3] + [])));
    assert [e0] + ([e1] + ([e2] + ([e3] + []))) == [e0, e1, e2, e3];
  }

  // ------------------------------------------------------- when the delay is kept

  /** The configuration is fixed: idle backends are stopped, this long after their last use. */
  predicate Configured(es: seq<Event>, delay: int) {
    forall i | 0 <= i < |es| && es[i].Release? :: es[i].stopOnIdle && es[i].delay == delay
  }

  /** Under this configuration no run stops a backend before its delay has passed. */
  ghost predicate DelayAlwaysKept(delay: int) {
    forall before, r, mid, c, k | Runs(EMPTY, before) && Configured(before + [r] + mid, delay) ::
      !EarlyStop(Exec(EMPTY, before), r, mid, c, k)
  }

  lemma {:induction false} ExecJoin(s: Registry, es: seq<Event>, fs: seq<Event>)
    requires Runs(s, es) && Runs(Exec(s, es), fs)
    ensures Runs(s, es + fs) && Exec(s, es + fs) == Exec(Exec(s, es), fs)
    decreases |es|
  {
    if es == [] {
      assert es + fs == fs;
    } else {
      assert (es + fs)[1..] == es[1..] + fs;
      ExecJoin(Apply(s, es[0]), es[1..], fs);
    }
  }

  /** Use, release and wait; the next use comes when the timer has gone off, and the old callback finds the new stop. */
  lemma {:induction false} DelayCutShort(k: Key, delay: nat)
    requires delay > 0
    ensures var before := [Begin(Some(k)), Release(0, true, delay), Elapse(delay), Fire(0), Begin(Some(k))];
      Runs(EMPTY, before) && EarlyStop(Exec(EMPTY, before), Release(1, true, delay), [], Callback(0), k)
  {
    var wait := [Begin(Some(k)), Release(0, true, delay), Elapse(delay), Fire(0)];
    OvertakingHappens(k, delay);
    EmptyInv();
    RunPreserves(EMPTY, wait);
    var s := Exec(EMPTY, wait);
    Cons(s, Begin(Some(k)), []);
    ExecJoin(EMPTY, wait, [Begin(Some(k))]);
    assert wait + [Begin(Some(k))] == [Begin(Some(k)), Release(0, true, delay), Elapse(delay), Fire(0), Begin(Some(k))];
    OvertakenTimerStopsEarly(s, k, delay);
  }

  /** The configured delay is kept in every run exactly when there is none. */
  lemma {:induction false} DelayKeptIff(delay: int)
    ensures DelayAlwaysKept(delay) <==> delay <= 0
  {
    if delay <= 0 {
      forall before, r, mid, c, k | Runs(EMPTY, before) && Configured(before + [r] + mid, delay)
        ensures !EarlyStop(Exec(EMPTY, before), r, mid, c, k)
      {
        assert (before + [r] + mid)[|before|] == r;
      }
    } else {
      var before := [Begin(Some("k")), Release(0, true, delay), Elapse(delay), Fire(0), Begin(Some("k"))];
      DelayCutShort("k", delay);
      assert Configured(before + [Release(1, true, delay)] + [], delay);
    }
  }

  // ------------------------------------------------------------------ operations

  /** The registry guarded by its mutex; `log` and `now` only observe it. */
  class Uses {
    var counts: map<Key, nat>
    var pending: map<Key, nat>
    var timers: seq<Timer>
    var leases: seq<Lease>
    ghost var log: seq<Entry>
    var now: int

    ghost function State(): Registry
      reads this
    {
      Registry(counts, pending, timers, leases, log, now)
    }

    constructor ()
      ensures State() == EMPTY
    {
      counts, pending, timers, leases, log, now := map[], map[], [], [], [], 0;
    }

    method BeginUse(baseUrl: string, model: string) returns (id: nat)
      modifies this
      ensures State() == Apply(old(State()), Begin(KeyOf(baseUrl, model))) && id == |old(leases)|
    {
      id := |leases|;
      var key := KeyOf(baseUrl, model);
      if key.None? {
        leases := leases + [Lease(None, false)];
        return;
      }
      var k := key.value;
      counts := counts[k := (if k in counts then counts[k] else 0) + 1];
      if k in pending {
        timers := StopTimer(timers, pending[k]);
        pending := pending - {k};
      }
      leases := leases + [Lease(Some(k), true)];
      log := log + [Began(k)];
    }

    /** The release closure; once.Do lets only its first call through. */
    method Release(id: nat, stopOnIdle: bool, delay: int) returns (stopNow: bool)
      requires id < |leases|
      modifies this
      ensures State() == Apply(old(State()), Event.Release(id, stopOnIdle, delay))
      ensures stopNow <==> log != old(log) && |log| > 0 && log[|log| - 1].Decided?
    {
      stopNow := false;
      var lease := leases[id];
      if !lease.open || lease.key.None? { return; }
      var k := lease.key.value;
      leases := leases[id := lease.(open := false)];
      var count := if k in counts then counts[k] else 0;
      if count > 1 {
        counts := counts[k := count - 1];
        return;
      }
      if count != 1 { return; }
      counts := counts - {k};
      if !stopOnIdle {
        log := log + [Freed(k, None)];
        return;
      }
      if delay <= 0 {
        log := log + [Freed(k, None), Decided(k, now)];
        stopNow := true;
        return;
      }
      pending := pending[k := |timers|];
      timers := timers + [Timer(k, now + delay, Armed)];
      log := log + [Freed(k, Some(now + delay))];
    }

    /** What the timer's goroutine does once it has the lock. */
    method TimerCallback(i: nat) returns (stop: bool)
      requires i < |timers| && timers[i].status == Firing
      modifies this
      ensures State() == Apply(old(State()), Callback(i))
      ensures stop <==> timers[i].key in old(pending)
    {
      var k := timers[i].key;
      timers := SetTimer(timers, i, Finished);
      if k !in pending { return false; }
      pending := pending - {k};
      log := log + [Decided(k, now)];
      stop := true;
    }
  }
}
