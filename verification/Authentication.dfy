/** The interceptor that queues requests around a single credential refresh. Each section
    under its lock is one atomic step; everything else may happen between two sections. */
module Authentication {
  import opened Wrappers

  type Closure = nat
  type Credential = nat

  /** At most `maximumAttempts` refreshes in the past `interval`. */
  datatype RefreshWindow = RefreshWindow(interval: real, maximumAttempts: int)

  datatype Failure = ExcessiveRefresh | RefreshFailed

  /** What a completion closure is called with. */
  datatype Outcome =
    | Adapted(credential: Credential)
    | MissingCredential
    | AdaptFailed(failure: Failure)
    | DoNotRetry
    | Retry
    | RetryFailed(failure: Failure)

  /** The state under the lock. */
  datatype Locked = Locked(
    credential: Option<Credential>,
    isRefreshing: bool,
    timestamps: seq<real>,
    window: Option<RefreshWindow>,
    adapts: seq<Closure>,
    retries: seq<Closure>)

  /** A block on the serial queue: adapts to be tried again and requests to be retried, or
      all to be failed. */
  datatype Batch = Batch(failure: Option<Failure>, adapts: seq<Closure>, retries: seq<Closure>)

  /** What a section sets off outside the lock. */
  datatype Effect = Effect(started: bool, batch: Option<Batch>)
  const NO_EFFECT := Effect(false, None)

  // ---------- Sections ----------

  function CountFrom(timestamps: seq<real>, min: real): nat {
    if timestamps == [] then 0
    else CountFrom(timestamps[..|timestamps| - 1], min) + (if min <= timestamps[|timestamps| - 1] then 1 else 0)
  }

  predicate Excessive(m: Locked, now: real) {
    m.window.Some? && CountFrom(m.timestamps, now - m.window.value.interval) >= m.window.value.maximumAttempts
  }

  /** Both queues leave the lock as one batch. */
  function Flush(m: Locked, failure: Option<Failure>): (Locked, Effect) {
    (m.(adapts := [], retries := [], isRefreshing := false),
     Effect(false, Some(Batch(failure, m.adapts, m.retries))))
  }

  /** Asks the authenticator for a new credential, unless that was done too often.
      The clock is read once for the check and once for the time stamp. */
  function RefreshSection(m: Locked, checkedAt: real, startedAt: real): (Locked, Effect) {
    if Excessive(m, checkedAt) then Flush(m, Some(ExcessiveRefresh))
    else (m.(timestamps := m.timestamps + [startedAt], isRefreshing := true), Effect(true, None))
  }

  /** The outcome is known at once, or the adapt is queued. */
  function AdaptSection(m: Locked, c: Closure, requiresRefresh: bool, checkedAt: real, startedAt: real)
    : (Locked, Effect, Option<Outcome>)
  {
    if m.isRefreshing then (m.(adapts := m.adapts + [c]), NO_EFFECT, None)
    else if m.credential.None? then (m, NO_EFFECT, Some(MissingCredential))
    else if requiresRefresh then
      var r := RefreshSection(m.(adapts := m.adapts + [c]), checkedAt, startedAt);
      (r.0, r.1, None)
    else (m, NO_EFFECT, Some(Adapted(m.credential.value)))
  }

  function RetrySection(m: Locked, c: Closure, checkedAt: real, startedAt: real): (Locked, Effect) {
    var m' := m.(retries := m.retries + [c]);
    if m.isRefreshing then (m', NO_EFFECT) else RefreshSection(m', checkedAt, startedAt)
  }

  function SuccessSection(m: Locked, credential: Credential): (Locked, Effect) {
    Flush(m.(credential := Some(credential)), None)
  }

  function FailureSection(m: Locked, failure: Failure): (Locked, Effect) {
    Flush(m, Some(failure))
  }

  // ---------- The object ----------

  class AuthenticationInterceptor {
    var credential: Option<Credential>
    var isRefreshing: bool
    var refreshTimestamps: seq<real>
    const refreshWindow: Option<RefreshWindow>
    var adaptOperations: seq<Closure>
    var requestsToRetry: seq<Closure>

    ghost function St(): Locked
      reads this
    {
      Locked(credential, isRefreshing, refreshTimestamps, refreshWindow, adaptOperations, requestsToRetry)
    }

    constructor (initial: Option<Credential>, window: Option<RefreshWindow>)
      ensures St() == Locked(initial, false, [], window, [], [])
    {
      credential, isRefreshing, refreshTimestamps := initial, false, [];
      refreshWindow := window;
      adaptOperations, requestsToRetry := [], [];
    }

    method IsRefreshExcessive(now: real) returns (r: bool)
      ensures r == Excessive(St(), now)
    {
      if refreshWindow.None? {
        return false;
      }
      var refreshWindowMin := now - refreshWindow.value.interval;
      var attempts := 0;
      for i := 0 to |refreshTimestamps|
        invariant attempts == CountFrom(refreshTimestamps[..i], refreshWindowMin)
      {
        assert refreshTimestamps[..i + 1][..i] == refreshTimestamps[..i];
        if refreshWindowMin <= refreshTimestamps[i] {
          attempts := attempts + 1;
        }
      }
      assert refreshTimestamps[..|refreshTimestamps|] == refreshTimestamps;
      return attempts >= refreshWindow.value.maximumAttempts;
    }

    method HandleRefreshFailure(failure: Failure) returns (effect: Effect)
      modifies this
      ensures (St(), effect) == FailureSection(old(St()), failure)
    {
      var adapts, retries := adaptOperations, requestsToRetry;
      adaptOperations := [];
      requestsToRetry := [];
      isRefreshing := false;
      return Effect(false, Some(Batch(Some(failure), adapts, retries)));
    }

    method HandleRefreshSuccess(renewed: Credential) returns (effect: Effect)
      modifies this
      ensures (St(), effect) == SuccessSection(old(St()), renewed)
    {
      credential := Some(renewed);
      var adapts, retries := adaptOperations, requestsToRetry;
      adaptOperations := [];
      requestsToRetry := [];
      isRefreshing := false;
      return Effect(false, Some(Batch(None, adapts, retries)));
    }

    method Refresh(checkedAt: real, startedAt: real) returns (effect: Effect)
      modifies this
      ensures (St(), effect) == RefreshSection(old(St()), checkedAt, startedAt)
    {
      var excessive := IsRefreshExcessive(checkedAt);
      if excessive {
        effect := HandleRefreshFailure(ExcessiveRefresh);
        return;
      }
      refreshTimestamps := refreshTimestamps + [startedAt];
      isRefreshing := true;
      return Effect(true, None);
    }

    method Adapt(c: Closure, requiresRefresh: bool, checkedAt: real, startedAt: real)
      returns (effect: Effect, outcome: Option<Outcome>)
      modifies this
      ensures (St(), effect, outcome) == AdaptSection(old(St()), c, requiresRefresh, checkedAt, startedAt)
    {
      if isRefreshing {
        adaptOperations := adaptOperations + [c];
        return NO_EFFECT, None;
      }
      if credential.None? {
        return NO_EFFECT, Some(MissingCredential);
      }
      if requiresRefresh {
        adaptOperations := adaptOperations + [c];
        effect := Refresh(checkedAt, startedAt);
        return effect, None;
      }
      return NO_EFFECT, Some(Adapted(credential.value));
    }

    method RetryRequest(c: Closure, checkedAt: real, startedAt: real) returns (effect: Effect)
      modifies this
      ensures (St(), effect) == RetrySection(old(St()), c, checkedAt, startedAt)
    {
      requestsToRetry := requestsToRetry + [c];
      if isRefreshing {
        return NO_EFFECT;
      }
      effect := Refresh(checkedAt, startedAt);
    }
  }

  // ---------- Runs ----------

  /** A closure on its way: its outcome decided but not yet delivered, or a retry that
      passed its checks and has yet to enter the lock. */
  datatype Flight = Decided(c: Closure, outcome: Outcome) | Checked(c: Closure)

  datatype Call = Call(c: Closure, outcome: Outcome)

  /** The interceptor and what surrounds it: the clock, the refreshes the authenticator
      has not completed, the serial queue, closures on their way, and those called. */
  datatype World = World(
    locked: Locked,
    clock: real,
    outstanding: nat,
    queue: seq<Batch>,
    flights: seq<Flight>,
    called: seq<Call>,
    submitted: seq<Closure>)

  datatype Step =
    | AdaptCall(c: Closure, requiresRefresh: bool, checkedAt: real, startedAt: real)
    | RetryRefused(c: Closure, outcome: Outcome)
    | RetryChecked(c: Closure)
    | RetryLocked(i: nat, checkedAt: real, startedAt: real)
    | Deliver(i: nat)
    | RefreshSucceeded(credential: Credential)
    | RefreshFailedWith(failure: Failure)
    | QueueAdapt(requiresRefresh: bool, checkedAt: real, startedAt: real)
    | QueueFailAdapt
    | QueueRetry
    | QueueDone
    | SetCredential(value: Option<Credential>)
    | Tick(now: real)

  function Start(initial: Option<Credential>, window: Option<RefreshWindow>, clock: real): World {
    World(Locked(initial, false, [], window, [], []), clock, 0, [], [], [], [])
  }

  /** The two clock readings of a section, in order and no earlier than the last. */
  predicate Times(w: World, checkedAt: real, startedAt: real) {
    w.clock <= checkedAt <= startedAt
  }

  predicate Enabled(w: World, s: Step) {
    match s
    case AdaptCall(c, _, t, u) => c !in w.submitted && Times(w, t, u)
    case RetryRefused(c, outcome) =>
      && c !in w.submitted
      && (outcome == DoNotRetry
          || (outcome == MissingCredential && w.locked.credential.None?)
          || (outcome == Retry && w.locked.credential.Some?))
    case RetryChecked(c) => c !in w.submitted && w.locked.credential.Some?
    case RetryLocked(i, t, u) => i < |w.flights| && w.flights[i].Checked? && Times(w, t, u)
    case Deliver(i) => i < |w.flights| && w.flights[i].Decided?
    case RefreshSucceeded(_) => w.outstanding > 0
    case RefreshFailedWith(_) => w.outstanding > 0
    case QueueAdapt(_, t, u) =>
      w.queue != [] && w.queue[0].failure.None? && w.queue[0].adapts != [] && Times(w, t, u)
    case QueueFailAdapt => w.queue != [] && w.queue[0].failure.Some? && w.queue[0].adapts != []
    case QueueRetry => w.queue != [] && w.queue[0].adapts == [] && w.queue[0].retries != []
    case QueueDone => w.queue != [] && w.queue[0].adapts == [] && w.queue[0].retries == []
    case SetCredential(_) => true
    case Tick(now) => w.clock <= now
  }

  function Enqueued(queue: seq<Batch>, effect: Effect): seq<Batch> {
    if effect.batch.Some? then queue + [effect.batch.value] else queue
  }

  /** The world after a section left the lock in state `m` and set off `effect`. */
  function Left(w: World, m: Locked, effect: Effect): (r: World)
    ensures r.submitted == w.submitted
  {
    w.(locked := m,
       outstanding := w.outstanding + (if effect.started then 1 else 0),
       queue := Enqueued(w.queue, effect))
  }

  function Decide(w: World, c: Closure, outcome: Option<Outcome>): (r: World)
    ensures r.submitted == w.submitted
  {
    if outcome.Some? then w.(flights := w.flights + [Decided(c, outcome.value)]) else w
  }

  function CallWith(w: World, c: Closure, outcome: Outcome): (r: World)
    ensures r.submitted == w.submitted
  {
    w.(called := w.called + [Call(c, outcome)])
  }

  function Without<T>(s: seq<T>, i: nat): seq<T>
    requires i < |s|
  {
    s[..i] + s[i + 1..]
  }

  /** The batch at the head of the queue without its next closure. */
  function Rest(b: Batch): Batch {
    if b.adapts != [] then b.(adapts := b.adapts[1..])
    else if b.retries != [] then b.(retries := b.retries[1..])
    else b
  }

  function Next(w: World, s: Step): World
    requires Enabled(w, s)
  {
    match s
    case AdaptCall(c, requiresRefresh, t, u) =>
      var r := AdaptSection(w.locked, c, requiresRefresh, t, u);
      Decide(Left(w.(clock := u, submitted := w.submitted + [c]), r.0, r.1), c, r.2)
    case RetryRefused(c, outcome) =>
      w.(submitted := w.submitted + [c], flights := w.flights + [Decided(c, outcome)])
    case RetryChecked(c) =>
      w.(submitted := w.submitted + [c], flights := w.flights + [Checked(c)])
    case RetryLocked(i, t, u) =>
      var r := RetrySection(w.locked, w.flights[i].c, t, u);
      Left(w.(clock := u, flights := Without(w.flights, i)), r.0, r.1)
    case Deliver(i) =>
      CallWith(w.(flights := Without(w.flights, i)), w.flights[i].c, w.flights[i].outcome)
    case RefreshSucceeded(credential) =>
      var r := SuccessSection(w.locked, credential);
      Left(w.(outstanding := w.outstanding - 1), r.0, r.1)
    case RefreshFailedWith(failure) =>
      var r := FailureSection(w.locked, failure);
      Left(w.(outstanding := w.outstanding - 1), r.0, r.1)
    case QueueAdapt(requiresRefresh, t, u) =>
      var b := w.queue[0];
      var r := AdaptSection(w.locked, b.adapts[0], requiresRefresh, t, u);
      Decide(Left(w.(clock := u, queue := [Rest(b)] + w.queue[1..]), r.0, r.1), b.adapts[0], r.2)
    case QueueFailAdapt =>
      var b := w.queue[0];
      CallWith(w.(queue := [Rest(b)] + w.queue[1..]), b.adapts[0], AdaptFailed(b.failure.value))
    case QueueRetry =>
      var b := w.queue[0];
      CallWith(w.(queue := [Rest(b)] + w.queue[1..]), b.retries[0],
        if b.failure.Some? then RetryFailed(b.failure.value) else Retry)
    case QueueDone => w.(queue := w.queue[1..])
    case SetCredential(credential) => w.(locked := w.locked.(credential := credential))
    case Tick(now) => w.(clock := now)
  }

  /** `ws` is the run of the steps `steps` from its first world. */
  ghost predicate Run(ws: seq<World>, steps: seq<Step>) {
    && |ws| == |steps| + 1
    && (exists c, window, clock :: ws[0] == Start(c, window, clock))
    && forall i | 0 <= i < |steps| :: Enabled(ws[i], steps[i]) && ws[i + 1] == Next(ws[i], steps[i])
  }

  // ---------- Accounting ----------

  function BatchClosures(queue: seq<Batch>): multiset<Closure> {
    if queue == [] then multiset{}
    else multiset(queue[0].adapts) + multiset(queue[0].retries) + BatchClosures(queue[1..])
  }

  function CalledClosures(called: seq<Call>): seq<Closure> {
    seq(|called|, i requires 0 <= i < |called| => called[i].c)
  }

  function FlightClosures(flights: seq<Flight>): seq<Closure> {
    seq(|flights|, i requires 0 <= i < |flights| => flights[i].c)
  }

  /** Every closure the interceptor still owes a call, or has called. */
  function Accounted(w: World): multiset<Closure> {
    multiset(CalledClosures(w.called)) + multiset(FlightClosures(w.flights))
    + multiset(w.locked.adapts) + multiset(w.locked.retries) + BatchClosures(w.queue)
  }

  lemma {:induction false} BatchesCat(a: seq<Batch>, b: seq<Batch>)
    ensures BatchClosures(a + b) == BatchClosures(a) + BatchClosures(b)
  {
    if a == [] {
      assert a + b == b;
    } else {
      assert (a + b)[0] == a[0] && (a + b)[1..] == a[1..] + b;
      BatchesCat(a[1..], b);
    }
  }

  lemma OneBatch(b: Batch)
    ensures BatchClosures([b]) == multiset(b.adapts) + multiset(b.retries)
  {
    assert [b][1..] == [];
  }

  lemma CalledOne(called: seq<Call>, c: Closure, outcome: Outcome)
    ensures CalledClosures(called + [Call(c, outcome)]) == CalledClosures(called) + [c]
  {
  }

  lemma FlightOne(flights: seq<Flight>, f: Flight)
    ensures FlightClosures(flights + [f]) == FlightClosures(flights) + [f.c]
  {
  }

  lemma FlightGone(flights: seq<Flight>, i: nat)
    requires i < |flights|
    ensures multiset(FlightClosures(flights)) == multiset(FlightClosures(Without(flights, i))) + multiset{flights[i].c}
  {
    var all := FlightClosures(flights);
    assert FlightClosures(Without(flights, i)) == all[..i] + all[i + 1..];
    assert all == all[..i] + [all[i]] + all[i + 1..];
  }

  /** What a section holds, in its queues and in the batch it sent off. */
  function Held(m: Locked, effect: Effect): multiset<Closure> {
    multiset(m.adapts) + multiset(m.retries)
    + (if effect.batch.Some? then multiset(effect.batch.value.adapts) + multiset(effect.batch.value.retries) else multiset{})
  }

  /** A section that holds what the queues held, and `taken`, adds `taken`. */
  lemma SectionCounts(w: World, m: Locked, effect: Effect, taken: multiset<Closure>)
    requires Held(m, effect) == multiset(w.locked.adapts) + multiset(w.locked.retries) + taken
    ensures Accounted(Left(w, m, effect)) == Accounted(w) + taken
  {
    hide BatchClosures, CalledClosures, FlightClosures;
    var sent := if effect.batch.Some? then multiset(effect.batch.value.adapts) + multiset(effect.batch.value.retries) else multiset{};
    assert BatchClosures(Enqueued(w.queue, effect)) == BatchClosures(w.queue) + sent by {
      if effect.batch.Some? {
        BatchesCat(w.queue, [effect.batch.value]);
        OneBatch(effect.batch.value);
      }
    }
    forall c ensures Accounted(Left(w, m, effect))[c] == (Accounted(w) + taken)[c] {
      assert Held(m, effect)[c] == (multiset(w.locked.adapts) + multiset(w.locked.retries) + taken)[c];
    }
  }

  lemma AdaptHolds(m: Locked, c: Closure, requiresRefresh: bool, t: real, u: real)
    ensures var r := AdaptSection(m, c, requiresRefresh, t, u);
      Held(r.0, r.1) == multiset(m.adapts) + multiset(m.retries) + (if r.2.Some? then multiset{} else multiset{c})
  {
  }

  lemma RetryHolds(m: Locked, c: Closure, t: real, u: real)
    ensures var r := RetrySection(m, c, t, u);
      Held(r.0, r.1) == multiset(m.adapts) + multiset(m.retries) + multiset{c}
  {
  }

  lemma DecideCounts(w: World, c: Closure, outcome: Option<Outcome>)
    ensures Accounted(Decide(w, c, outcome)) == Accounted(w) + (if outcome.Some? then multiset{c} else multiset{})
  {
    if outcome.Some? { FlightOne(w.flights, Decided(c, outcome.value)); }
  }

  lemma CallCounts(w: World, c: Closure, outcome: Outcome)
    ensures Accounted(CallWith(w, c, outcome)) == Accounted(w) + multiset{c}
  {
    CalledOne(w.called, c, outcome);
  }

  lemma HeadCounts(w: World)
    requires w.queue != [] && (w.queue[0].adapts != [] || w.queue[0].retries != [])
    ensures var b := w.queue[0];
      Accounted(w) == Accounted(w.(queue := [Rest(b)] + w.queue[1..]))
        + multiset{if b.adapts != [] then b.adapts[0] else b.retries[0]}
  {
    var b := w.queue[0];
    assert b.adapts != [] ==> b.adapts == [b.adapts[0]] + b.adapts[1..];
    assert b.retries != [] ==> b.retries == [b.retries[0]] + b.retries[1..];
    var q := [Rest(b)] + w.queue[1..];
    assert q[0] == Rest(b) && q[1..] == w.queue[1..];
  }

  /** Every step moves closures, and a submission adds one; none is lost or doubled. */
  lemma StepAccounts(w: World, s: Step)
    requires Enabled(w, s) && multiset(w.submitted) == Accounted(w)
    ensures multiset(Next(w, s).submitted) == Accounted(Next(w, s))
  {
    hide Accounted, AdaptSection, RetrySection, BatchClosures, Left, Decide, CallWith, Held;
    match s
    case AdaptCall(c, requiresRefresh, t, u) =>
      var v := w.(clock := u, submitted := w.submitted + [c]);
      SameQueues(w, v);
      AdaptCounts(v, c, requiresRefresh, t, u);
    case RetryRefused(c, outcome) =>
      var v := w.(submitted := w.submitted + [c]);
      SameQueues(w, v);
      DecideCounts(v, c, Some(outcome));
      assert Next(w, s) == Decide(v, c, Some(outcome)) by { RefusedIs(w, c, outcome); }
    case RetryChecked(c) => CheckedCounts(w, c);
    case RetryLocked(i, t, u) =>
      var v := w.(clock := u, flights := Without(w.flights, i));
      var r := RetrySection(w.locked, w.flights[i].c, t, u);
      GoneCounts(w, v, i);
      RetryHolds(w.locked, w.flights[i].c, t, u);
      SectionCounts(v, r.0, r.1, multiset{w.flights[i].c});
    case Deliver(i) =>
      var v := w.(flights := Without(w.flights, i));
      GoneCounts(w, v, i);
      CallCounts(v, w.flights[i].c, w.flights[i].outcome);
    case RefreshSucceeded(credential) =>
      var v := w.(outstanding := w.outstanding - 1);
      var r := SuccessSection(w.locked, credential);
      SameQueues(w, v);
      FlushHolds(w.locked.(credential := Some(credential)), None);
      SectionCounts(v, r.0, r.1, multiset{});
    case RefreshFailedWith(failure) =>
      var v := w.(outstanding := w.outstanding - 1);
      var r := FailureSection(w.locked, failure);
      SameQueues(w, v);
      FlushHolds(w.locked, Some(failure));
      SectionCounts(v, r.0, r.1, multiset{});
    case QueueAdapt(requiresRefresh, t, u) =>
      var b := w.queue[0];
      var v := w.(queue := [Rest(b)] + w.queue[1..]);
      var v' := w.(clock := u, queue := [Rest(b)] + w.queue[1..]);
      HeadCounts(w);
      SameQueues(v, v');
      AdaptCounts(v', b.adapts[0], requiresRefresh, t, u);
    case QueueFailAdapt =>
      var b := w.queue[0];
      HeadCounts(w);
      CallCounts(w.(queue := [Rest(b)] + w.queue[1..]), b.adapts[0], AdaptFailed(b.failure.value));
    case QueueRetry =>
      var b := w.queue[0];
      HeadCounts(w);
      CallCounts(w.(queue := [Rest(b)] + w.queue[1..]), b.retries[0],
        if b.failure.Some? then RetryFailed(b.failure.value) else Retry);
    case QueueDone => DoneCounts(w);
    case SetCredential(value) =>
      SameQueues(w, w.(locked := w.locked.(credential := value)));
    case Tick(now) => SameQueues(w, w.(clock := now));
  }

  lemma RefusedIs(w: World, c: Closure, outcome: Outcome)
    requires Enabled(w, RetryRefused(c, outcome))
    ensures Next(w, RetryRefused(c, outcome)) == Decide(w.(submitted := w.submitted + [c]), c, Some(outcome))
  {
  }

  lemma FlushHolds(m: Locked, failure: Option<Failure>)
    ensures Held(Flush(m, failure).0, Flush(m, failure).1) == multiset(m.adapts) + multiset(m.retries)
  {
  }

  /** An adapt section takes its closure into the queues or decides it. */
  lemma AdaptCounts(w: World, c: Closure, requiresRefresh: bool, t: real, u: real)
    ensures var r := AdaptSection(w.locked, c, requiresRefresh, t, u);
      Accounted(Decide(Left(w, r.0, r.1), c, r.2)) == Accounted(w) + multiset{c}
  {
    hide Accounted, AdaptSection, Held, Left, Decide;
    var r := AdaptSection(w.locked, c, requiresRefresh, t, u);
    AdaptHolds(w.locked, c, requiresRefresh, t, u);
    SectionCounts(w, r.0, r.1, if r.2.Some? then multiset{} else multiset{c});
    DecideCounts(Left(w, r.0, r.1), c, r.2);
  }

  /** Accounting looks at the closures only. */
  lemma SameQueues(w: World, v: World)
    requires w.called == v.called && w.flights == v.flights && w.queue == v.queue
    requires w.locked.adapts == v.locked.adapts && w.locked.retries == v.locked.retries
    ensures Accounted(w) == Accounted(v)
  {
  }

  lemma CheckedCounts(w: World, c: Closure)
    ensures Accounted(w.(submitted := w.submitted + [c], flights := w.flights + [Checked(c)])) == Accounted(w) + multiset{c}
  {
    FlightOne(w.flights, Checked(c));
  }

  lemma GoneCounts(w: World, v: World, i: nat)
    requires i < |w.flights| && v.flights == Without(w.flights, i)
    requires w.called == v.called && w.queue == v.queue && w.locked == v.locked
    ensures Accounted(w) == Accounted(v) + multiset{w.flights[i].c}
  {
    FlightGone(w.flights, i);
  }

  lemma DoneCounts(w: World)
    requires Enabled(w, QueueDone)
    ensures Accounted(w.(queue := w.queue[1..])) == Accounted(w)
  {
  }

  // ---------- One refresh at a time ----------

  /** The lock's state agrees with the authenticator: while refreshing, exactly one
      refresh is outstanding; otherwise none is, and no closure is queued. */
  predicate SingleFlight(w: World) {
    if w.locked.isRefreshing then w.outstanding == 1
    else w.outstanding == 0 && w.locked.adapts == [] && w.locked.retries == []
  }

  lemma StepSingleFlight(w: World, s: Step)
    requires Enabled(w, s) && SingleFlight(w)
    ensures SingleFlight(Next(w, s))
  {
    hide CountFrom;
  }

  // ---------- How often refreshes start ----------

  /** Time stamps are in order, and no later than `clock`. */
  predicate Ordered(timestamps: seq<real>, clock: real) {
    && (forall i, j | 0 <= i < j < |timestamps| :: timestamps[i] <= timestamps[j])
    && (forall i | 0 <= i < |timestamps| :: timestamps[i] <= clock)
  }

  /** How many time stamps lie between `a` and `b`, ends included. */
  function CountIn(timestamps: seq<real>, a: real, b: real): nat {
    if timestamps == [] then 0
    else
      CountIn(timestamps[..|timestamps| - 1], a, b)
      + (if a <= timestamps[|timestamps| - 1] <= b then 1 else 0)
  }

  function CountWindow(timestamps: seq<real>, a: real, interval: real): nat {
    CountIn(timestamps, a, a + interval)
  }

  function Limit(window: RefreshWindow): nat {
    if window.maximumAttempts < 0 then 0 else window.maximumAttempts
  }

  /** No closed window of the configured length has more refreshes than allowed. */
  ghost predicate RateLimited(m: Locked) {
    m.window.Some? ==>
      forall a: real :: CountWindow(m.timestamps, a, m.window.value.interval) <= Limit(m.window.value)
  }

  lemma {:induction false} CountInAtMostFrom(timestamps: seq<real>, a: real, b: real, min: real)
    requires min <= a
    ensures CountIn(timestamps, a, b) <= CountFrom(timestamps, min)
  {
    if timestamps != [] { CountInAtMostFrom(timestamps[..|timestamps| - 1], a, b, min); }
  }

  /** A refresh that passes the check keeps the rate: any window that contains it reaches
      back no further than the check did. */
  lemma StartKeepsRate(m: Locked, checkedAt: real, startedAt: real)
    requires RateLimited(m) && !Excessive(m, checkedAt) && checkedAt <= startedAt
    ensures RateLimited(m.(timestamps := m.timestamps + [startedAt], isRefreshing := true))
  {
    hide CountFrom;
    if m.window.Some? {
      var window := m.window.value;
      var ts := m.timestamps + [startedAt];
      forall a: real ensures CountWindow(ts, a, window.interval) <= Limit(window) {
        assert ts[..|ts| - 1] == m.timestamps;
        assert CountWindow(m.timestamps, a, window.interval) <= Limit(window);
        if a <= startedAt <= a + window.interval {
          CountInAtMostFrom(m.timestamps, a, a + window.interval, checkedAt - window.interval);
        }
      }
    }
  }

  /** What a section leaves: the time stamps, or one more that passed the check. */
  predicate Stamped(m: Locked, m': Locked, checkedAt: real, startedAt: real) {
    && m'.window == m.window
    && (m'.timestamps == m.timestamps
        || (m'.timestamps == m.timestamps + [startedAt] && !Excessive(m, checkedAt)))
  }

  lemma SectionsStamp(m: Locked, c: Closure, requiresRefresh: bool, t: real, u: real)
    ensures Stamped(m, AdaptSection(m, c, requiresRefresh, t, u).0, t, u)
    ensures Stamped(m, RetrySection(m, c, t, u).0, t, u)
  {
    hide CountFrom;
  }

  lemma StampedKeepsRate(m: Locked, m': Locked, checkedAt: real, startedAt: real, clock: real)
    requires Stamped(m, m', checkedAt, startedAt) && RateLimited(m) && Ordered(m.timestamps, clock)
    requires clock <= checkedAt <= startedAt
    ensures RateLimited(m') && Ordered(m'.timestamps, startedAt)
  {
    hide CountFrom, CountIn, CountWindow;
    if m'.timestamps != m.timestamps {
      StartKeepsRate(m, checkedAt, startedAt);
    }
  }

  lemma StepKeepsRate(w: World, s: Step)
    requires Enabled(w, s) && RateLimited(w.locked) && Ordered(w.locked.timestamps, w.clock)
    ensures RateLimited(Next(w, s).locked) && Ordered(Next(w, s).locked.timestamps, Next(w, s).clock)
  {
    hide CountFrom, CountIn, AdaptSection, RetrySection, RateLimited;
    match s
    case AdaptCall(c, requiresRefresh, t, u) =>
      SectionsStamp(w.locked, c, requiresRefresh, t, u);
      StampedKeepsRate(w.locked, Next(w, s).locked, t, u, w.clock);
    case RetryLocked(i, t, u) =>
      SectionsStamp(w.locked, w.flights[i].c, false, t, u);
      StampedKeepsRate(w.locked, Next(w, s).locked, t, u, w.clock);
    case QueueAdapt(requiresRefresh, t, u) =>
      SectionsStamp(w.locked, w.queue[0].adapts[0], requiresRefresh, t, u);
      StampedKeepsRate(w.locked, Next(w, s).locked, t, u, w.clock);
    case _ => SameStamps(w.locked, Next(w, s).locked);
  }

  lemma SameStamps(m: Locked, m': Locked)
    requires m.timestamps == m'.timestamps && m.window == m'.window && RateLimited(m)
    ensures RateLimited(m')
  {
  }

  // ---------- Every run ----------

  /** What holds in every world of every run. */
  ghost predicate Inv(w: World) {
    && multiset(w.submitted) == Accounted(w)
    && (forall c :: multiset(w.submitted)[c] <= 1)
    && SingleFlight(w)
    && RateLimited(w.locked) && Ordered(w.locked.timestamps, w.clock)
  }

  lemma StepSubmits(w: World, s: Step)
    requires Enabled(w, s) && forall c :: multiset(w.submitted)[c] <= 1
    ensures forall c :: multiset(Next(w, s).submitted)[c] <= 1
  {
    hide AdaptSection, RetrySection, Excessive;
    var s' := Next(w, s).submitted;
    if s' != w.submitted {
      var c := s'[|s'| - 1];
      assert s' == w.submitted + [c] && c !in w.submitted;
      assert c !in multiset(w.submitted);
    }
  }

  lemma {:induction false} RunKeeps(ws: seq<World>, steps: seq<Step>, i: nat)
    requires Run(ws, steps) && i < |ws|
    ensures Inv(ws[i])
  {
    hide Accounted, SingleFlight, RateLimited, Ordered, Next, Enabled;
    if i == 0 {
      var c, window, clock :| ws[0] == Start(c, window, clock);
      StartInv(c, window, clock);
    } else {
      RunKeeps(ws, steps, i - 1);
      StepAccounts(ws[i - 1], steps[i - 1]);
      StepSingleFlight(ws[i - 1], steps[i - 1]);
      StepKeepsRate(ws[i - 1], steps[i - 1]);
      StepSubmits(ws[i - 1], steps[i - 1]);
    }
  }

  lemma StartInv(c: Option<Credential>, window: Option<RefreshWindow>, clock: real)
    ensures Inv(Start(c, window, clock))
  {
    var w := Start(c, window, clock);
    assert CalledClosures([]) == [] && FlightClosures([]) == [];
  }

  /** Nothing is under way any more. */
  predicate Quiescent(w: World) {
    w.outstanding == 0 && w.queue == [] && w.flights == []
  }

  /** Every closure is called at most once in any run, and when the run comes to rest,
      every submitted closure has been called exactly once. */
  lemma EveryClosureCalledOnce(ws: seq<World>, steps: seq<Step>, i: nat)
    requires Run(ws, steps) && i < |ws|
    ensures forall c :: multiset(CalledClosures(ws[i].called))[c] <= multiset(ws[i].submitted)[c] <= 1
    ensures Quiescent(ws[i]) ==> multiset(CalledClosures(ws[i].called)) == multiset(ws[i].submitted)
  {
    hide CalledClosures, RateLimited, Next, Enabled, Run;
    RunKeeps(ws, steps, i);
    var w := ws[i];
    forall c ensures multiset(CalledClosures(w.called))[c] <= multiset(w.submitted)[c] {
      assert multiset(w.submitted)[c] == Accounted(w)[c];
    }
    if Quiescent(w) {
      assert FlightClosures([]) == [];
      assert multiset(FlightClosures(w.flights)) == multiset{};
      assert BatchClosures(w.queue) == multiset{};
    }
  }

  /** Over `n` windows on end, at most `n` times the allowed number of refreshes start. */
  lemma {:induction false} RateOverTime(m: Locked, a: real, n: nat)
    requires m.window.Some? && m.window.value.interval >= 0.0 && RateLimited(m) && n >= 1
    ensures CountIn(m.timestamps, a, a + m.window.value.interval * (n as real)) <= n * Limit(m.window.value)
    decreases n
  {
    var d := m.window.value.interval;
    hide CountIn, Limit;
    if n == 1 {
      assert d * 1.0 == d;
      assert CountWindow(m.timestamps, a, d) <= Limit(m.window.value);
    } else {
      RateOverTime(m, a, n - 1);
      var mid := a + d * ((n - 1) as real);
      assert d * (n as real) == d * ((n - 1) as real) + d;
      CountInSplit(m.timestamps, a, mid, mid + d);
      assert CountWindow(m.timestamps, mid, d) <= Limit(m.window.value);
      assert n * Limit(m.window.value) == (n - 1) * Limit(m.window.value) + Limit(m.window.value);
    }
  }

  lemma {:induction false} CountInSplit(timestamps: seq<real>, a: real, mid: real, b: real)
    ensures CountIn(timestamps, a, b) <= CountIn(timestamps, a, mid) + CountIn(timestamps, mid, b)
  {
    if timestamps != [] { CountInSplit(timestamps[..|timestamps| - 1], a, mid, b); }
  }
}
