/**
 * The per-host request gate (internal/llm/gate.go): a concurrency cap, a
 * cooldown between requests, and the attempt loop.
 */
module RequestGate {
  import opened Prelude

  // ------------------------------------------------------------------- protocol

  /** One request: wanting a slot, holding one, waiting to start, running, done but not yet out. */
  datatype Phase = Arrived | Holding | Waiting(wake: Option<int>) | Running | Finished | Gone

  datatype Mark = Started(request: nat, at: int) | Ended(request: nat, at: int)

  /** `used` counts taken slots; a cap of at most zero means no slots. */
  datatype Gate = Gate(cap: int, cooldown: int, used: nat, lastFinish: Option<int>, requests: seq<Phase>, now: int, log: seq<Mark>)

  datatype Event =
    | Arrive
    | Acquire(id: nat)
    | ReadLast(id: nat)
    | Start(id: nat)
    | Finish(id: nat)
    | Leave(id: nat)
    | Elapse(ticks: nat)

  function Fresh(cap: int, cooldown: int): Gate {
    Gate(cap, cooldown, 0, None, [], 0, [])
  }

  predicate In(s: Gate, id: nat, p: Phase) {
    id < |s.requests| && s.requests[id] == p
  }

  predicate Enabled(s: Gate, e: Event) {
    match e
    case Acquire(id) => In(s, id, Arrived) && (s.cap > 0 ==> s.used < s.cap)
    case ReadLast(id) => In(s, id, Holding)
    case Start(id) =>
      && id < |s.requests| && s.requests[id].Waiting?
      && (s.requests[id].wake.Some? ==> s.requests[id].wake.value <= s.now)
    case Finish(id) => In(s, id, Running)
    case Leave(id) => In(s, id, Finished)
    case _ => true
  }

  function SetPhase(s: Gate, id: nat, p: Phase): Gate
    requires id < |s.requests|
  {
    s.(requests := s.requests[id := p])
  }

  /** The earliest start after the last finish the request saw. */
  function WakeAt(s: Gate): Option<int> {
    if s.cooldown > 0 && s.lastFinish.Some? then Some(s.lastFinish.value + s.cooldown) else None
  }

  function Apply(s: Gate, e: Event): Gate
    requires Enabled(s, e)
  {
    match e
    case Arrive => s.(requests := s.requests + [Arrived])
    case Acquire(id) => SetPhase(s, id, Holding).(used := if s.cap > 0 then s.used + 1 else s.used)
    case ReadLast(id) => SetPhase(s, id, Waiting(WakeAt(s)))
    case Start(id) => SetPhase(s, id, Running).(log := s.log + [Started(id, s.now)])
    case Finish(id) => SetPhase(s, id, Finished).(lastFinish := Some(s.now), log := s.log + [Ended(id, s.now)])
    case Leave(id) => SetPhase(s, id, Gone).(used := if s.cap > 0 && s.used > 0 then s.used - 1 else s.used)
    case Elapse(ticks) => s.(now := s.now + ticks)
  }

  predicate Runs(s: Gate, es: seq<Event>)
    decreases |es|
  {
    es == [] || (Enabled(s, es[0]) && Runs(Apply(s, es[0]), es[1..]))
  }

  function Exec(s: Gate, es: seq<Event>): Gate
    requires Runs(s, es)
    decreases |es|
  {
    if es == [] then s else Exec(Apply(s, es[0]), es[1..])
  }

  // ------------------------------------------------------------------- invariant

  /** Between acquire and release. */
  predicate Inside(p: Phase) {
    p.Holding? || p.Waiting? || p.Running? || p.Finished?
  }

  function InsideCount(ps: seq<Phase>): nat {
    if ps == [] then 0 else InsideCount(ps[..|ps| - 1]) + if Inside(ps[|ps| - 1]) then 1 else 0
  }

  lemma {:induction false} CountUpdate(ps: seq<Phase>, id: nat, p: Phase)
    requires id < |ps|
    ensures InsideCount(ps[id := p]) == InsideCount(ps) + (if Inside(p) then 1 else 0) - (if Inside(ps[id]) then 1 else 0)
  {
    var n := |ps| - 1;
    if id == n {
      assert ps[id := p][..n] == ps[..n];
    } else {
      CountUpdate(ps[..n], id, p);
      assert ps[id := p][..n] == ps[..n][id := p];
    }
  }

  /** Two requests inside count as two. */
  lemma {:induction false} TwoInside(ps: seq<Phase>, i: nat, j: nat)
    requires i < j < |ps| && Inside(ps[i]) && Inside(ps[j])
    ensures InsideCount(ps) >= 2
  {
    if j == |ps| - 1 {
      OneInside(ps[..j], i);
    } else {
      TwoInside(ps[..|ps| - 1], i, j);
    }
  }

  lemma {:induction false} OneInside(ps: seq<Phase>, i: nat)
    requires i < |ps| && Inside(ps[i])
    ensures InsideCount(ps) >= 1
  {
    if i < |ps| - 1 { OneInside(ps[..|ps| - 1], i); }
  }

  ghost predicate Capped(s: Gate) {
    s.cap > 0 ==> s.used == InsideCount(s.requests) && s.used <= s.cap
  }

  lemma {:induction false} StepCapped(s: Gate, e: Event)
    requires Capped(s) && Enabled(s, e)
    ensures Capped(Apply(s, e)) && Apply(s, e).cap == s.cap && Apply(s, e).cooldown == s.cooldown
  {
    match e
    case Arrive =>
    case Acquire(id) => CountUpdate(s.requests, id, Holding);
    case ReadLast(id) => CountUpdate(s.requests, id, Waiting(WakeAt(s)));
    case Start(id) => CountUpdate(s.requests, id, Running);
    case Finish(id) => CountUpdate(s.requests, id, Finished);
    case Leave(id) =>
      CountUpdate(s.requests, id, Gone);
      OneInside(s.requests, id);
    case Elapse(_) =>
  }

  lemma {:induction false} RunCapped(s: Gate, es: seq<Event>)
    requires Capped(s) && Runs(s, es)
    ensures Capped(Exec(s, es)) && Exec(s, es).cap == s.cap
    decreases |es|
  {
    if es != [] {
      StepCapped(s, es[0]);
      RunCapped(Apply(s, es[0]), es[1..]);
    }
  }

  /** With a cap, at most that many requests are between acquire and release. */
  lemma {:induction false} AtMostCapInside(cap: int, cooldown: int, es: seq<Event>)
    requires cap > 0 && Runs(Fresh(cap, cooldown), es)
    ensures InsideCount(Exec(Fresh(cap, cooldown), es).requests) <= cap
  {
    RunCapped(Fresh(cap, cooldown), es);
  }

  // -------------------------------------------------------------------- cooldown

  function Time(m: Mark): int {
    m.at
  }

  /** Every start comes at least the cooldown after every earlier finish. */
  ghost predicate Spaced(log: seq<Mark>, cooldown: int) {
    forall i, j | 0 <= i < j < |log| && log[i].Ended? && log[j].Started? :: Time(log[j]) >= Time(log[i]) + cooldown
  }

  /** With one slot, whoever waits knows the last finish. */
  ghost predicate Serial(s: Gate) {
    && s.cap == 1 && s.cooldown > 0 && Capped(s) && Spaced(s.log, s.cooldown)
    && (forall i | 0 <= i < |s.log| :: Time(s.log[i]) <= s.now)
    && (forall i | 0 <= i < |s.log| && s.log[i].Ended? :: s.lastFinish.Some? && Time(s.log[i]) <= s.lastFinish.value)
    && (forall r | 0 <= r < |s.requests| && s.requests[r].Waiting? :: s.requests[r].wake == WakeAt(s))
  }

  lemma {:induction false} OnlyOneInside(s: Gate, id: nat, r: nat)
    requires s.cap == 1 && Capped(s) && id < |s.requests| && r < |s.requests| && Inside(s.requests[id]) && Inside(s.requests[r])
    ensures id == r
  {
    if id < r { TwoInside(s.requests, id, r); }
    if r < id { TwoInside(s.requests, r, id); }
  }

  lemma {:induction false} StepSerial(s: Gate, e: Event)
    requires Serial(s) && Enabled(s, e)
    ensures Serial(Apply(s, e))
  {
    StepCapped(s, e);
    var t := Apply(s, e);
    if e.Finish? {
      forall r | 0 <= r < |t.requests| && t.requests[r].Waiting? ensures false {
        OnlyOneInside(s, e.id, r);
      }
    }
  }

  lemma {:induction false} RunSerial(s: Gate, es: seq<Event>)
    requires Serial(s) && Runs(s, es)
    ensures Serial(Exec(s, es)) && Exec(s, es).cooldown == s.cooldown
    decreases |es|
  {
    if es != [] {
      StepSerial(s, es[0]);
      StepCapped(s, es[0]);
      RunSerial(Apply(s, es[0]), es[1..]);
    }
  }

  /** Every run under this configuration spaces its requests. */
  ghost predicate AlwaysSpaced(cap: int, cooldown: int) {
    forall es | Runs(Fresh(cap, cooldown), es) :: Spaced(Exec(Fresh(cap, cooldown), es).log, cooldown)
  }

  /** Nothing starts before what has already finished, so no gap is asked for. */
  ghost predicate Ordered(s: Gate) {
    && (forall i | 0 <= i < |s.log| :: Time(s.log[i]) <= s.now)
    && (forall i, j | 0 <= i < j < |s.log| :: Time(s.log[i]) <= Time(s.log[j]))
  }

  lemma {:induction false} RunOrdered(s: Gate, es: seq<Event>)
    requires Ordered(s) && Runs(s, es)
    ensures Ordered(Exec(s, es))
    decreases |es|
  {
    if es != [] { RunOrdered(Apply(s, es[0]), es[1..]); }
  }

  lemma {:induction false} Cons(s: Gate, e: Event, es: seq<Event>)
    ensures Runs(s, [e] + es) <==> Enabled(s, e) && Runs(Apply(s, e), es)
    ensures Runs(s, [e] + es) ==> Exec(s, [e] + es) == Exec(Apply(s, e), es)
  {
    assert ([e] + es)[1..] == es;
  }

  /** Two requests that saw no finish: the second starts right as the first ends. */
  lemma {:induction false} NoGap(s: Gate) returns (es: seq<Event>)
    requires s.requests == [Waiting(None), Waiting(None)] && s.log == [] && s.cooldown > 0
    ensures Runs(s, es) && !Spaced(Exec(s, es).log, s.cooldown)
  {
    var s1 := Apply(s, Start(0));
    var s2 := Apply(s1, Finish(0));
    assert s2.requests == [Finished, Waiting(None)];
    var s3 := Apply(s2, Start(1));
    assert s3.log == [Started(0, s.now), Ended(0, s.now), Started(1, s.now)];
    assert Time(s3.log[2]) < Time(s3.log[1]) + s.cooldown;
    es := [];
    Cons(s2, Start(1), es);  es := [Start(1)] + es;
    Cons(s1, Finish(0), es); es := [Finish(0)] + es;
    Cons(s, Start(0), es);   es := [Start(0)] + es;
  }

  /** With more than one slot two requests get in together. */
  lemma {:induction false} Crowded(cap: int, cooldown: int) returns (es: seq<Event>)
    requires cap != 1 && cooldown > 0
    ensures Runs(Fresh(cap, cooldown), es) && !Spaced(Exec(Fresh(cap, cooldown), es).log, cooldown)
  {
    var s0 := Fresh(cap, cooldown);
    var s1 := Apply(s0, Arrive);
    var s2 := Apply(s1, Arrive);
    assert s2.requests == [Arrived, Arrived];
    var s3 := Apply(s2, Acquire(0));
    var s4 := Apply(s3, Acquire(1));
    assert s4.requests == [Holding, Holding];
    var s5 := Apply(s4, ReadLast(0));
    var s6 := Apply(s5, ReadLast(1));
    assert s6.requests == [Waiting(None), Waiting(None)];
    es := NoGap(s6);
    Cons(s5, ReadLast(1), es); es := [ReadLast(1)] + es;
    Cons(s4, ReadLast(0), es); es := [ReadLast(0)] + es;
    Cons(s3, Acquire(1), es);  es := [Acquire(1)] + es;
    Cons(s2, Acquire(0), es);  es := [Acquire(0)] + es;
    Cons(s1, Arrive, es);      es := [Arrive] + es;
    Cons(s0, Arrive, es);      es := [Arrive] + es;
  }

  /**
   * The cooldown separates every start from every earlier finish exactly when
   * the cap is one (or no cooldown is asked for): the wait is computed from the
   * finish seen after the slot was taken, and only the single slot keeps others
   * from finishing meanwhile.
   */
  lemma {:induction false} CooldownHoldsIffCapIsOne(cap: int, cooldown: int)
    ensures AlwaysSpaced(cap, cooldown) <==> cap == 1 || cooldown <= 0
  {
    if cap == 1 && cooldown > 0 {
      forall es | Runs(Fresh(cap, cooldown), es) ensures Spaced(Exec(Fresh(cap, cooldown), es).log, cooldown) {
        RunSerial(Fresh(cap, cooldown), es);
      }
    } else if cooldown <= 0 {
      forall es | Runs(Fresh(cap, cooldown), es) ensures Spaced(Exec(Fresh(cap, cooldown), es).log, cooldown) {
        RunOrdered(Fresh(cap, cooldown), es);
      }
    } else {
      var es := Crowded(cap, cooldown);
    }
  }

  // ----------------------------------------------------------- no wait beyond need

  /** A slot is to be had exactly while fewer than the cap are inside. */
  lemma {:induction false} AcquireIff(cap: int, cooldown: int, es: seq<Event>, id: nat)
    requires Runs(Fresh(cap, cooldown), es) && In(Exec(Fresh(cap, cooldown), es), id, Arrived)
    ensures var s := Exec(Fresh(cap, cooldown), es);
      Enabled(s, Acquire(id)) <==> cap <= 0 || InsideCount(s.requests) < cap
  {
    ConfigStays(Fresh(cap, cooldown), es);
    if cap > 0 { RunCapped(Fresh(cap, cooldown), es); }
  }

  lemma {:induction false} ConfigStays(s: Gate, es: seq<Event>)
    requires Runs(s, es)
    ensures Exec(s, es).cap == s.cap && Exec(s, es).cooldown == s.cooldown
    decreases |es|
  {
    if es != [] { ConfigStays(Apply(s, es[0]), es[1..]); }
  }

  /** The moment of a finish is what later requests read. */
  lemma {:induction false} FinishIsNoted(s: Gate, id: nat)
    requires Enabled(s, Finish(id))
    ensures Apply(s, Finish(id)).lastFinish == Some(s.now)
  {
  }

  /** However long others take, a request that has read the last finish starts exactly once the cooldown after it is over. */
  lemma {:induction false} StartsWhen(s: Gate, id: nat, es: seq<Event>)
    requires Enabled(s, ReadLast(id)) && Runs(Apply(s, ReadLast(id)), es) && Apart(id, es)
    ensures var u := Exec(Apply(s, ReadLast(id)), es);
      Enabled(u, Start(id)) <==> s.cooldown <= 0 || s.lastFinish.None? || u.now >= s.lastFinish.value + s.cooldown
  {
    StaysInPhase(id, Apply(s, ReadLast(id)), es);
  }

  // -------------------------------------------------------------------- attempts

  type Body = seq<int>

  datatype Reply = ConnectionError | Status(code: int)

  predicate Retryable(r: Reply) {
    r.ConnectionError? || r.code == 429 || r.code >= 500
  }

  /** A request's body is read once; getBody gives it again, or fails. */
  datatype Request = Request(body: Option<Body>, getBody: Option<nat -> Option<Body>>)

  ghost predicate Honest(req: Request) {
    req.getBody.Some? ==> req.body.Some? && forall k :: req.getBody.value(k) == req.body
  }

  datatype Result = BodyUnreadable | Response(code: int) | Failed(attempts: nat)

  function Limit(retryAttempts: int): nat {
    if retryAttempts < 0 then 0 else retryAttempts + 1
  }

  ghost predicate Unreadable(req: Request, readable: bool) {
    req.body.Some? && req.getBody.None? && !readable
  }

  /**
   * At most RetryAttempts + 1 attempts, all with the same body, until one is not
   * to be retried; a lost connection, 429 and the 500s are.
   */
  ghost predicate Answered(req: Request, readable: bool, retryAttempts: int, reply: nat -> Reply, r: Result, sent: seq<Option<Body>>) {
    && (r.BodyUnreadable? <==> Unreadable(req, readable))
    && (r.BodyUnreadable? ==> sent == [])
    && |sent| <= (if retryAttempts < 0 then 0 else retryAttempts + 1)
    && (Honest(req) ==> forall i | 0 <= i < |sent| :: sent[i] == req.body)
    && (forall i | 0 <= i < |sent| - 1 :: reply(i).ConnectionError? || reply(i).code == 429 || reply(i).code >= 500)
    && (r.Response? <==> |sent| > 0 && var last := reply(|sent| - 1); last.Status? && last.code != 429 && last.code < 500)
    && (r.Response? ==> reply(|sent| - 1) == Status(r.code))
    && (r.Failed? && Honest(req) ==> r.attempts == |sent| == if retryAttempts < 0 then 0 else retryAttempts + 1)
  }

  /**
   * `reply` says how the host answers each attempt, `sent` what each attempt
   * carried.  The transport drains the body, so each retry must rewind it.
   */
  method RoundTrip(req: Request, readable: bool, retryAttempts: int, reply: nat -> Reply) returns (r: Result, sent: seq<Option<Body>>)
    ensures Answered(req, readable, retryAttempts, reply, r, sent)
  {
    sent := [];
    var body, getBody := req.body, req.getBody;
    if body.Some? && getBody.None? {
      if !readable { return BodyUnreadable, sent; }
      var copy := body;
      getBody := Some(_ => copy);
    }
    var attempt, attempts := 0, 0;
    while attempt <= retryAttempts
      invariant attempts == attempt == |sent| <= Limit(retryAttempts)
      invariant (attempt == 0 || getBody.None?) ==> body == req.body
      invariant Honest(req) && getBody.Some? ==> forall k :: getBody.value(k) == req.body
      invariant getBody.None? ==> req.body.None?
      invariant Honest(req) ==> forall i | 0 <= i < |sent| :: sent[i] == req.body
      invariant forall i | 0 <= i < |sent| :: Retryable(reply(i))
      decreases retryAttempts - attempt
    {
      attempts := attempts + 1;
      if attempt > 0 && getBody.Some? {
        var again := getBody.value(attempt - 1);
        if again.None? { return Failed(attempts), sent; }
        body := again;
      }
      sent := sent + [body];
      body := if body.None? then None else Some([]);
      var answer := reply(attempt);
      if !Retryable(answer) { return Response(answer.code), sent; }
      attempt := attempt + 1;
    }
    r := Failed(attempts);
  }

  // ------------------------------------------------------------------- other requests

  ghost predicate NotBy(id: nat, e: Event) {
    (e.Acquire? || e.ReadLast? || e.Start? || e.Finish? || e.Leave?) ==> e.id != id
  }

  ghost predicate Apart(id: nat, es: seq<Event>) {
    forall i | 0 <= i < |es| :: NotBy(id, es[i])
  }

  ghost predicate Reaches(s: Gate, t: Gate) {
    exists es :: Runs(s, es) && Exec(s, es) == t
  }

  ghost predicate ReachesApart(id: nat, s: Gate, t: Gate) {
    exists es :: Apart(id, es) && Runs(s, es) && Exec(s, es) == t
  }

  lemma {:induction false} ExecJoin(s: Gate, es: seq<Event>, fs: seq<Event>)
    requires Runs(s, es) && Runs(Exec(s, es), fs)
    ensures Runs(s, es + fs) && Exec(s, es + fs) == Exec(Exec(s, es), fs)
    decreases |es|
  {
    if es == [] {
      assert es + fs == fs;
    } else {
      assert (es + fs)[1..] == es[1..] + fs;
      ExecJoin(Apply(s, es[0]), es[1..], fs);
    }
  }

  lemma {:induction false} Chain(s: Gate, t: Gate, u: Gate)
    requires Reaches(s, t) && Reaches(t, u)
    ensures Reaches(s, u)
  {
    var es :| Runs(s, es) && Exec(s, es) == t;
    var fs :| Runs(t, fs) && Exec(t, fs) == u;
    ExecJoin(s, es, fs);
  }

  lemma {:induction false} Stepped(start: Gate, s: Gate, e: Event)
    requires Reaches(start, s) && Enabled(s, e)
    ensures Reaches(start, Apply(s, e))
  {
    Cons(s, e, []);
    assert [e] + [] == [e];
    Chain(start, s, Apply(s, e));
  }

  lemma {:induction false} StaysInPhase(id: nat, s: Gate, es: seq<Event>)
    requires Apart(id, es) && Runs(s, es) && id < |s.requests|
    ensures var t := Exec(s, es); id < |t.requests| && t.requests[id] == s.requests[id] && t.cap == s.cap && t.cooldown == s.cooldown
    decreases |es|
  {
    if es != [] { StaysInPhase(id, Apply(s, es[0]), es[1..]); }
  }

  /** While the others act, the request stays where it is. */
  lemma {:induction false} Met(id: nat, start: Gate, s: Gate, t: Gate)
    requires Reaches(start, s) && ReachesApart(id, s, t) && id < |s.requests|
    ensures Reaches(start, t) && id < |t.requests| && t.requests[id] == s.requests[id]
  {
    var es :| Apart(id, es) && Runs(s, es) && Exec(s, es) == t;
    StaysInPhase(id, s, es);
    Chain(start, s, t);
  }

  lemma {:induction false} StaysCapped(s: Gate, t: Gate)
    requires Reaches(s, t)
    ensures Capped(s) ==> Capped(t)
  {
    var es :| Runs(s, es) && Exec(s, es) == t;
    if Capped(s) { RunCapped(s, es); }
  }

  // ------------------------------------------------------------------- the gate

  /** One host's gate; `now` is the clock, `requests` and `log` only observe. */
  class HostGate {
    const cap: int
    const cooldown: int
    var used: nat
    var lastFinish: Option<int>
    ghost var requests: seq<Phase>
    var now: int
    ghost var log: seq<Mark>

    ghost function State(): Gate
      reads this
    {
      Gate(cap, cooldown, used, lastFinish, requests, now, log)
    }

    constructor (cap: int, cooldown: int)
      ensures State() == Fresh(cap, cooldown)
    {
      this.cap, this.cooldown := cap, cooldown;
      used, lastFinish, requests, now, log := 0, None, [], 0, [];
    }

    /** Sending on the slots channel: without a free slot the request keeps waiting. */
    method TryAcquire(id: nat) returns (ok: bool)
      requires In(State(), id, Arrived)
      modifies this
      ensures ok <==> Enabled(old(State()), Acquire(id))
      ensures State() == if ok then Apply(old(State()), Acquire(id)) else old(State())
    {
      ok := cap <= 0 || used < cap;
      if ok {
        if cap > 0 { used := used + 1; }
        requests := requests[id := Holding];
      }
    }

    /** The moment the cooldown lets the request start. */
    method CooldownEnd(id: nat) returns (wake: Option<int>)
      requires In(State(), id, Holding)
      modifies this
      ensures State() == Apply(old(State()), ReadLast(id)) && requests[id] == Waiting(wake)
    {
      wake := None;
      if cooldown > 0 && lastFinish.Some? { wake := Some(lastFinish.value + cooldown); }
      requests := requests[id := Waiting(wake)];
    }

    /** The deferred clean-up: note the finish, then give the slot back. */
    method Done(id: nat)
      requires In(State(), id, Running)
      modifies this
      ensures var finished := Apply(old(State()), Finish(id)); Enabled(finished, Leave(id)) && State() == Apply(finished, Leave(id))
    {
      lastFinish := Some(now);
      log := log + [Ended(id, now)];
      if cap > 0 && used > 0 { used := used - 1; }
      requests := requests[id := Gone];
    }

    /** What the others do meanwhile, time passing included; callers know only the contract. */
    method Others(id: nat)
      modifies this
      ensures ReachesApart(id, old(State()), State())
    {
      assert Apart(id, []) && Runs(State(), []) && Exec(State(), []) == State();
    }

    /** Let the others act; whatever they do, the request finds itself where it was. */
    method Yield(id: nat, ghost start: Gate)
      requires Reaches(start, State()) && id < |requests|
      modifies this
      ensures Reaches(start, State()) && id < |requests| && requests[id] == old(requests)[id]
    {
      ghost var before := State();
      Others(id);
      Met(id, start, before, State());
    }

    /** time.Sleep until the cooldown is over, while the others go on. */
    method Sleep(id: nat, wake: Option<int>, ghost start: Gate)
      requires Reaches(start, State()) && id < |requests|
      modifies this
      ensures Reaches(start, State()) && id < |requests| && requests[id] == old(requests)[id]
      ensures wake.Some? ==> wake.value <= now
    {
      Yield(id, start);
      var ticks := if wake.Some? && now < wake.value then wake.value - now else 0;
      Stepped(start, State(), Elapse(ticks));
      now := now + ticks;
    }

    /** Wait out the cooldown, then begin: the request now runs. */
    method Begin(id: nat, ghost start: Gate)
      requires Reaches(start, State()) && In(State(), id, Holding)
      modifies this
      ensures Reaches(start, State()) && In(State(), id, Running)
    {
      Yield(id, start);
      Stepped(start, State(), ReadLast(id));
      var wake := CooldownEnd(id);
      Sleep(id, wake, start);
      Stepped(start, State(), Start(id));
      requests, log := requests[id := Running], log + [Started(id, now)];
    }

    /** The deferred function, whatever the outcome of the attempts. */
    method End(id: nat, ghost start: Gate)
      requires Reaches(start, State()) && In(State(), id, Running)
      modifies this
      ensures Reaches(start, State()) && In(State(), id, Gone)
    {
      Yield(id, start);
      ghost var s := State();
      Stepped(start, s, Finish(id));
      Stepped(start, Apply(s, Finish(id)), Leave(id));
      Done(id);
    }

    /**
     * One request through the transport.  An unreadable body never enters the
     * gate; None means that no slot is free yet.  Every other outcome, a failure
     * included, has left the gate again and given its slot back.
     */
    method Send(id: nat, req: Request, readable: bool, retryAttempts: int, reply: nat -> Reply)
      returns (r: Option<Result>, sent: seq<Option<Body>>)
      requires In(State(), id, Arrived)
      modifies this
      ensures Reaches(old(State()), State()) && (old(Capped(State())) ==> Capped(State()))
      ensures r.None? <==> !Unreadable(req, readable) && !Enabled(old(State()), Acquire(id))
      ensures r.None? || r.value.BodyUnreadable? ==> State() == old(State())
      ensures r.Some? ==> Answered(req, readable, retryAttempts, reply, r.value, sent)
      ensures r.Some? && !r.value.BodyUnreadable? ==> In(State(), id, Gone)
    {
      ghost var start := State();
      assert Runs(start, []) && Exec(start, []) == start;
      if req.body.Some? && req.getBody.None? && !readable {
        r, sent := Some(BodyUnreadable), [];
        return;
      }
      var ok := TryAcquire(id);
      if !ok {
        return None, [];
      }
      Stepped(start, start, Acquire(id));
      Begin(id, start);
      var answer;
      answer, sent := RoundTrip(req, readable, retryAttempts, reply);
      End(id, start);
      StaysCapped(start, State());
      r := Some(answer);
    }
  }
}
