/** What the closures given to the interceptor are called with, and when a refresh starts. */
module Outcomes {
  import opened Wrappers
  import opened Authentication

  // ---------- What a step decides ----------

  /** The number of refreshes in the past window is at the limit. */
  predicate TooMany(m: Locked, now: real) {
    && m.window.Some?
    && CountIn(m.timestamps, now - m.window.value.interval, now) >= m.window.value.maximumAttempts
  }

  /** In this step the adapt `c` is tried: by its caller, or again after a refresh. */
  predicate Tries(w: World, s: Step, c: Closure)
    requires Enabled(w, s)
  {
    match s
    case AdaptCall(x, _, _, _) => x == c
    case QueueAdapt(_, _, _) => w.queue[0].adapts[0] == c
    case _ => false
  }

  /** In this step the retry `c` enters the lock. */
  predicate Enters(w: World, s: Step, c: Closure)
    requires Enabled(w, s)
  {
    s.RetryLocked? && w.flights[s.i].c == c
  }

  /** In step `s`, with `current` for a credential, it is decided that the closure `c` is
      called with `outcome`. */
  predicate Due(w: World, s: Step, current: Option<Credential>, c: Closure, outcome: Outcome)
    requires Enabled(w, s)
  {
    match outcome
    case Adapted(k) => Tries(w, s, c) && w.outstanding == 0 && current == Some(k) && !s.requiresRefresh
    case MissingCredential =>
      current == None && (s == RetryRefused(c, MissingCredential) || (Tries(w, s, c) && w.outstanding == 0))
    case DoNotRetry => s == RetryRefused(c, DoNotRetry)
    case Retry => (current.Some? && s == RetryRefused(c, Retry)) || (s.RefreshSucceeded? && c in w.locked.retries)
    case AdaptFailed(failure) =>
      || (s == RefreshFailedWith(failure) && c in w.locked.adapts)
      || (failure == ExcessiveRefresh && Tries(w, s, c) && w.outstanding == 0 && current.Some? && s.requiresRefresh
          && TooMany(w.locked, s.checkedAt))
    case RetryFailed(failure) =>
      || (s == RefreshFailedWith(failure) && c in w.locked.retries)
      || (failure == ExcessiveRefresh && Enters(w, s, c) && w.outstanding == 0 && TooMany(w.locked, s.checkedAt))
  }

  // ---------- What has been decided ----------

  predicate FatedIn(b: Batch, c: Closure, outcome: Outcome) {
    match b.failure
    case None => c in b.retries && outcome == Retry
    case Some(failure) =>
      (c in b.retries && outcome == RetryFailed(failure)) || (c in b.adapts && outcome == AdaptFailed(failure))
  }

  predicate QueueFates(queue: seq<Batch>, c: Closure, outcome: Outcome) {
    queue != [] && (FatedIn(queue[0], c, outcome) || QueueFates(queue[1..], c, outcome))
  }

  /** The closure `c` has been called with `outcome`, or it is decided that it will be. */
  predicate Fated(w: World, c: Closure, outcome: Outcome) {
    Call(c, outcome) in w.called || Decided(c, outcome) in w.flights || QueueFates(w.queue, c, outcome)
  }

  lemma {:induction false} QueueFatesCat(a: seq<Batch>, b: seq<Batch>, c: Closure, outcome: Outcome)
    ensures QueueFates(a + b, c, outcome) <==> QueueFates(a, c, outcome) || QueueFates(b, c, outcome)
  {
    hide FatedIn;
    if a == [] {
      assert a + b == b;
    } else {
      assert (a + b)[0] == a[0] && (a + b)[1..] == a[1..] + b;
      QueueFatesCat(a[1..], b, c, outcome);
    }
  }

  lemma OneBatchFates(b: Batch, c: Closure, outcome: Outcome)
    ensures QueueFates([b], c, outcome) <==> FatedIn(b, c, outcome)
  {
    hide FatedIn;
    assert [b][1..] == [] && !QueueFates([], c, outcome);
  }

  lemma LeftFates(w: World, m: Locked, effect: Effect, c: Closure, outcome: Outcome)
    ensures Fated(Left(w, m, effect), c, outcome)
       <==> Fated(w, c, outcome) || (effect.batch.Some? && FatedIn(effect.batch.value, c, outcome))
  {
    hide FatedIn, QueueFates;
    if effect.batch.Some? {
      QueueFatesCat(w.queue, [effect.batch.value], c, outcome);
      OneBatchFates(effect.batch.value, c, outcome);
    }
  }

  lemma DecideFates(w: World, x: Closure, decided: Option<Outcome>, c: Closure, outcome: Outcome)
    ensures Fated(Decide(w, x, decided), c, outcome)
       <==> Fated(w, c, outcome) || (x == c && decided == Some(outcome))
  {
    hide QueueFates;
  }

  lemma CallFates(w: World, x: Closure, y: Outcome, c: Closure, outcome: Outcome)
    ensures Fated(CallWith(w, x, y), c, outcome) <==> Fated(w, c, outcome) || (x == c && y == outcome)
  {
    hide QueueFates;
  }

  lemma HeadFates(w: World, b: Batch, tail: seq<Batch>, c: Closure, outcome: Outcome)
    ensures Fated(w.(queue := [b] + tail), c, outcome)
       <==> Fated(w.(queue := tail), c, outcome) || FatedIn(b, c, outcome)
  {
    hide FatedIn;
    assert ([b] + tail)[0] == b && ([b] + tail)[1..] == tail;
  }

  lemma DeliveredFates(w: World, i: nat, c: Closure, outcome: Outcome)
    requires i < |w.flights|
    ensures Fated(w, c, outcome)
       <==> Fated(w.(flights := Without(w.flights, i)), c, outcome) || w.flights[i] == Decided(c, outcome)
  {
    hide QueueFates;
    var rest := Without(w.flights, i);
    if Decided(c, outcome) in w.flights {
      var j :| 0 <= j < |w.flights| && w.flights[j] == Decided(c, outcome);
      assert j < i ==> rest[j] == w.flights[j];
      assert j > i ==> rest[j - 1] == w.flights[j];
    }
    if Decided(c, outcome) in rest {
      var j :| 0 <= j < |rest| && rest[j] == Decided(c, outcome);
      assert rest[j] == w.flights[if j < i then j else j + 1];
    }
  }

  lemma SameFates(w: World, w': World, c: Closure, outcome: Outcome)
    requires w'.called == w.called && w'.flights == w.flights && w'.queue == w.queue
    ensures Fated(w', c, outcome) <==> Fated(w, c, outcome)
  {
  }

  // ---------- Sections ----------

  lemma {:induction false} CountsAgree(timestamps: seq<real>, min: real, now: real)
    requires forall i | 0 <= i < |timestamps| :: timestamps[i] <= now
    ensures CountFrom(timestamps, min) == CountIn(timestamps, min, now)
  {
    if timestamps != [] { CountsAgree(timestamps[..|timestamps| - 1], min, now); }
  }

  /** The check counts the refreshes of the past window, at every moment of a run. */
  lemma ExcessiveIsTooMany(m: Locked, clock: real, now: real)
    requires Ordered(m.timestamps, clock) && clock <= now
    ensures Excessive(m, now) <==> TooMany(m, now)
  {
    hide CountFrom, CountIn;
    if m.window.Some? { CountsAgree(m.timestamps, now - m.window.value.interval, now); }
  }

  predicate Sound(w: World) {
    SingleFlight(w) && Ordered(w.locked.timestamps, w.clock)
  }

  /** What is decided of an adapt that finds no refresh under way; nothing, when it has to
      wait for one that starts. */
  function Decision(m: Locked, requiresRefresh: bool, now: real): Option<Outcome> {
    if m.credential.None? then Some(MissingCredential)
    else if !requiresRefresh then Some(Adapted(m.credential.value))
    else if TooMany(m, now) then Some(AdaptFailed(ExcessiveRefresh))
    else None
  }

  lemma TriedFates(w: World, x: Closure, requiresRefresh: bool, t: real, u: real, c: Closure, outcome: Outcome)
    requires SingleFlight(w) && (Excessive(w.locked, t) <==> TooMany(w.locked, t))
    ensures
      var m := w.locked;
      var r := AdaptSection(m, x, requiresRefresh, t, u);
      Fated(Decide(Left(w, r.0, r.1), x, r.2), c, outcome) <==>
        || Fated(w, c, outcome)
        || (c == x && w.outstanding == 0 && Decision(m, requiresRefresh, t) == Some(outcome))
  {
    hide Fated, Left, Decide, TooMany, Excessive;
    var r := AdaptSection(w.locked, x, requiresRefresh, t, u);
    LeftFates(w, r.0, r.1, c, outcome);
    DecideFates(Left(w, r.0, r.1), x, r.2, c, outcome);
    SameCheck(w.locked, w.locked.(adapts := w.locked.adapts + [x]), t);
  }

  lemma SameCheck(m: Locked, m': Locked, now: real)
    requires m'.timestamps == m.timestamps && m'.window == m.window
    ensures Excessive(m', now) <==> Excessive(m, now)
  {
    hide CountFrom;
  }

  lemma EnteredFates(w: World, x: Closure, t: real, u: real, c: Closure, outcome: Outcome)
    requires SingleFlight(w) && (Excessive(w.locked, t) <==> TooMany(w.locked, t))
    ensures
      var r := RetrySection(w.locked, x, t, u);
      Fated(Left(w, r.0, r.1), c, outcome) <==>
        || Fated(w, c, outcome)
        || (c == x && w.outstanding == 0 && TooMany(w.locked, t) && outcome == RetryFailed(ExcessiveRefresh))
  {
    hide Fated, Left, TooMany, Excessive;
    var r := RetrySection(w.locked, x, t, u);
    LeftFates(w, r.0, r.1, c, outcome);
    SameCheck(w.locked, w.locked.(retries := w.locked.retries + [x]), t);
  }

  // ---------- Steps ----------

  /** After a step a closure's fate is one that it had, or one that the step decides. */
  lemma StepFates(w: World, s: Step, c: Closure, outcome: Outcome)
    requires Enabled(w, s) && Sound(w)
    ensures Fated(Next(w, s), c, outcome) <==> Fated(w, c, outcome) || Due(w, s, w.locked.credential, c, outcome)
  {
    hide Fated, AdaptSection, RetrySection, Left, Decide, CallWith, Excessive, TooMany, Ordered, SuccessSection, FailureSection, FatedIn;
    if s.AdaptCall? || s.RetryLocked? || s.QueueAdapt? {
      ExcessiveIsTooMany(w.locked, w.clock, s.checkedAt);
    }
    match s
    case AdaptCall(x, requiresRefresh, t, u) =>
      var v := w.(clock := u, submitted := w.submitted + [x]);
      SameFates(w, v, c, outcome);
      TriedFates(v, x, requiresRefresh, t, u, c, outcome);
    case RetryRefused(x, y) =>
      RefusedIs(w, x, y);
      SameFates(w, w.(submitted := w.submitted + [x]), c, outcome);
      DecideFates(w.(submitted := w.submitted + [x]), x, Some(y), c, outcome);
    case RetryChecked(x) => CheckedFates(w, Next(w, s), x, c, outcome);
    case RetryLocked(i, t, u) =>
      var v := w.(flights := Without(w.flights, i));
      var v' := w.(clock := u, flights := Without(w.flights, i));
      DeliveredFates(w, i, c, outcome);
      SameFates(v, v', c, outcome);
      EnteredFates(v', w.flights[i].c, t, u, c, outcome);
    case Deliver(i) =>
      DeliveredFates(w, i, c, outcome);
      CallFates(w.(flights := Without(w.flights, i)), w.flights[i].c, w.flights[i].outcome, c, outcome);
    case RefreshSucceeded(credential) =>
      FlushFates(w, w.locked.(credential := Some(credential)), None, c, outcome);
      SectionsFlush(w.locked, credential, ExcessiveRefresh);
    case RefreshFailedWith(failure) =>
      FlushFates(w, w.locked, Some(failure), c, outcome);
      SectionsFlush(w.locked, 0, failure);
    case QueueAdapt(_, _, _) => HeadStepFates(w, s, c, outcome);
    case QueueFailAdapt => HeadStepFates(w, s, c, outcome);
    case QueueRetry => HeadStepFates(w, s, c, outcome);
    case QueueDone => HeadStepFates(w, s, c, outcome);
    case SetCredential(_) => SameFates(w, Next(w, s), c, outcome);
    case Tick(_) => SameFates(w, Next(w, s), c, outcome);
  }

  lemma HeadStepFates(w: World, s: Step, c: Closure, outcome: Outcome)
    requires Enabled(w, s) && Sound(w) && (s.QueueAdapt? || s.QueueFailAdapt? || s.QueueRetry? || s.QueueDone?)
    ensures Fated(Next(w, s), c, outcome) <==> Fated(w, c, outcome) || Due(w, s, w.locked.credential, c, outcome)
  {
    hide Fated, AdaptSection, Left, Decide, CallWith, Excessive, TooMany, Ordered, FatedIn;
    if s.QueueAdapt? { ExcessiveIsTooMany(w.locked, w.clock, s.checkedAt); }
    match s
    case QueueAdapt(requiresRefresh, t, u) =>
      var b, tail := w.queue[0], w.queue[1..];
      var v := w.(clock := u, queue := [Rest(b)] + tail);
      SplitQueue(w, c, outcome);
      HeadFates(w, Rest(b), tail, c, outcome);
      SameFates(w.(queue := [Rest(b)] + tail), v, c, outcome);
      RestFates(b, c, outcome);
      TriedFates(v, b.adapts[0], requiresRefresh, t, u, c, outcome);
    case QueueFailAdapt =>
      var b, tail := w.queue[0], w.queue[1..];
      SplitQueue(w, c, outcome);
      HeadFates(w, Rest(b), tail, c, outcome);
      RestFates(b, c, outcome);
      CallFates(w.(queue := [Rest(b)] + tail), b.adapts[0], AdaptFailed(b.failure.value), c, outcome);
    case QueueRetry =>
      var b, tail := w.queue[0], w.queue[1..];
      SplitQueue(w, c, outcome);
      HeadFates(w, Rest(b), tail, c, outcome);
      RestFates(b, c, outcome);
      CallFates(w.(queue := [Rest(b)] + tail), b.retries[0], if b.failure.Some? then RetryFailed(b.failure.value) else Retry, c, outcome);
    case QueueDone =>
      SplitQueue(w, c, outcome);
      RestFates(w.queue[0], c, outcome);
  }

  lemma CheckedFates(w: World, w': World, x: Closure, c: Closure, outcome: Outcome)
    requires w'.called == w.called && w'.flights == w.flights + [Checked(x)] && w'.queue == w.queue
    ensures Fated(w', c, outcome) <==> Fated(w, c, outcome)
  {
    hide QueueFates;
  }

  lemma SplitQueue(w: World, c: Closure, outcome: Outcome)
    requires w.queue != []
    ensures Fated(w, c, outcome) <==> Fated(w.(queue := w.queue[1..]), c, outcome) || FatedIn(w.queue[0], c, outcome)
  {
    hide Fated, FatedIn;
    assert w.queue == [w.queue[0]] + w.queue[1..];
    assert w.(queue := [w.queue[0]] + w.queue[1..]) == w;
    HeadFates(w, w.queue[0], w.queue[1..], c, outcome);
  }

  /** What the next closure of a batch is called with, and what is left. */
  lemma RestFates(b: Batch, c: Closure, outcome: Outcome)
    ensures FatedIn(b, c, outcome) <==>
      || FatedIn(Rest(b), c, outcome)
      || (b.adapts != [] && b.adapts[0] == c && b.failure.Some? && outcome == AdaptFailed(b.failure.value))
      || (b.adapts == [] && b.retries != [] && b.retries[0] == c
          && outcome == (if b.failure.Some? then RetryFailed(b.failure.value) else Retry))
    ensures b.adapts == [] && b.retries == [] ==> !FatedIn(b, c, outcome)
  {
    if b.adapts != [] {
      assert c in b.adapts <==> c == b.adapts[0] || c in b.adapts[1..];
    } else if b.retries != [] {
      assert c in b.retries <==> c == b.retries[0] || c in b.retries[1..];
    }
  }

  lemma SectionsFlush(m: Locked, credential: Credential, failure: Failure)
    ensures SuccessSection(m, credential) == Flush(m.(credential := Some(credential)), None)
    ensures FailureSection(m, failure) == Flush(m, Some(failure))
  {
  }

  lemma FlushFates(w: World, m: Locked, failure: Option<Failure>, c: Closure, outcome: Outcome)
    requires w.outstanding > 0
    ensures
      var r := Flush(m, failure);
      var flushed := Left(w.(outstanding := w.outstanding - 1), r.0, r.1);
      if failure.None? then
        Fated(flushed, c, outcome) <==> Fated(w, c, outcome) || (c in m.retries && outcome == Retry)
      else
        Fated(flushed, c, outcome) <==>
          || Fated(w, c, outcome)
          || (c in m.retries && outcome == RetryFailed(failure.value))
          || (c in m.adapts && outcome == AdaptFailed(failure.value))
  {
    hide Fated;
    var v := w.(outstanding := w.outstanding - 1);
    var r := Flush(m, failure);
    SameFates(w, v, c, outcome);
    LeftFates(v, r.0, r.1, c, outcome);
  }

  // ---------- Waiting for a refresh ----------

  /** A closure that has to wait stays in the lock until a refresh ends. */
  lemma WaitsForRefresh(w: World, s: Step, c: Closure)
    requires Enabled(w, s) && SingleFlight(w)
    ensures c in w.locked.adapts ==> c in Next(w, s).locked.adapts || s.RefreshSucceeded? || s.RefreshFailedWith?
    ensures c in w.locked.retries ==> c in Next(w, s).locked.retries || s.RefreshSucceeded? || s.RefreshFailedWith?
  {
    hide CountFrom;
  }

  /** An adapt that is tried is decided, or else waits: for the refresh under way, or for one
      that starts now. */
  lemma TriedOrWaits(w: World, s: Step, c: Closure)
    requires Enabled(w, s) && Sound(w) && Tries(w, s, c)
    ensures
      var w', decision := Next(w, s), Decision(w.locked, s.requiresRefresh, s.checkedAt);
      if w.outstanding > 0 then c in w'.locked.adapts && w'.outstanding == w.outstanding
      else if decision.Some? then Fated(w', c, decision.value) && w'.outstanding == 0
      else c in w'.locked.adapts && w'.outstanding == 1
  {
    hide Fated, TooMany, Excessive, Ordered, CountFrom;
    var decision := Decision(w.locked, s.requiresRefresh, s.checkedAt);
    ExcessiveIsTooMany(w.locked, w.clock, s.checkedAt);
    SameCheck(w.locked, w.locked.(adapts := w.locked.adapts + [c]), s.checkedAt);
    if w.outstanding == 0 && decision.Some? { StepFates(w, s, c, decision.value); }
  }

  lemma EntersOrWaits(w: World, s: Step, c: Closure)
    requires Enabled(w, s) && Sound(w) && Enters(w, s, c)
    ensures
      var w' := Next(w, s);
      if w.outstanding == 0 && TooMany(w.locked, s.checkedAt) then Fated(w', c, RetryFailed(ExcessiveRefresh)) && w'.outstanding == 0
      else c in w'.locked.retries && w'.outstanding == 1
  {
    hide Fated, TooMany, Excessive, Ordered, CountFrom;
    ExcessiveIsTooMany(w.locked, w.clock, s.checkedAt);
    SameCheck(w.locked, w.locked.(retries := w.locked.retries + [c]), s.checkedAt);
    if w.outstanding == 0 && TooMany(w.locked, s.checkedAt) { StepFates(w, s, c, RetryFailed(ExcessiveRefresh)); }
  }

  /** A refresh starts exactly when a retry enters the lock, or an adapt whose credential
      requires it is tried, and none is under way, and there were not too many. */
  lemma RefreshStarts(w: World, s: Step)
    requires Enabled(w, s) && Sound(w)
    ensures Next(w, s).outstanding > w.outstanding <==>
      && w.outstanding == 0
      && (s.RetryLocked? || ((s.AdaptCall? || s.QueueAdapt?) && w.locked.credential.Some? && s.requiresRefresh))
      && !TooMany(w.locked, s.checkedAt)
    ensures Next(w, s).locked.timestamps ==
      if Next(w, s).outstanding > w.outstanding then w.locked.timestamps + [s.startedAt] else w.locked.timestamps
  {
    hide TooMany, Excessive, Ordered, CountFrom;
    if s.AdaptCall? || s.RetryLocked? || s.QueueAdapt? {
      ExcessiveIsTooMany(w.locked, w.clock, s.checkedAt);
      var c := if s.AdaptCall? then s.c else if s.RetryLocked? then w.flights[s.i].c else w.queue[0].adapts[0];
      SameCheck(w.locked, w.locked.(adapts := w.locked.adapts + [c]), s.checkedAt);
      SameCheck(w.locked, w.locked.(retries := w.locked.retries + [c]), s.checkedAt);
    }
  }

  /** An adapt that waited for a refresh that succeeded is tried again. */
  predicate ToBeTried(queue: seq<Batch>, c: Closure) {
    exists i | 0 <= i < |queue| :: queue[i].failure.None? && c in queue[i].adapts
  }

  lemma TriedAgain(w: World, s: Step, c: Closure)
    requires Enabled(w, s)
    ensures s.RefreshSucceeded? && c in w.locked.adapts ==> ToBeTried(Next(w, s).queue, c)
    ensures ToBeTried(w.queue, c) ==> ToBeTried(Next(w, s).queue, c) || (s.QueueAdapt? && Tries(w, s, c))
  {
    hide AdaptSection, RetrySection;
    var q := Next(w, s).queue;
    if s.RefreshSucceeded? {
      assert q[|q| - 1] == Batch(None, w.locked.adapts, w.locked.retries);
    }
    if ToBeTried(w.queue, c) {
      var i :| 0 <= i < |w.queue| && w.queue[i].failure.None? && c in w.queue[i].adapts;
      QueueMoves(w, s, i);
      var b := w.queue[i];
      if i == 0 && (s.QueueAdapt? || s.QueueFailAdapt? || s.QueueRetry?) {
        assert s.QueueAdapt?;
        assert c == b.adapts[0] || c in b.adapts[1..];
      }
    }
  }

  /** A step takes nothing from the queue but the head, or the next closure of the head. */
  lemma QueueMoves(w: World, s: Step, i: nat)
    requires Enabled(w, s) && i < |w.queue|
    ensures var q := Next(w, s).queue;
      match s
      case QueueDone => |q| == |w.queue| - 1 && (i > 0 ==> q[i - 1] == w.queue[i])
      case QueueAdapt(_, _, _) => i < |q| && q[i] == if i == 0 then Rest(w.queue[0]) else w.queue[i]
      case QueueFailAdapt => i < |q| && q[i] == if i == 0 then Rest(w.queue[0]) else w.queue[i]
      case QueueRetry => i < |q| && q[i] == if i == 0 then Rest(w.queue[0]) else w.queue[i]
      case _ => i < |q| && q[i] == w.queue[i]
  {
    hide AdaptSection, RetrySection, SuccessSection, FailureSection;
  }

  // ---------- Every run ----------

  /** The credential last set or obtained. */
  function Latest(initial: Option<Credential>, steps: seq<Step>): Option<Credential> {
    if steps == [] then initial
    else
      match steps[|steps| - 1]
      case SetCredential(value) => value
      case RefreshSucceeded(renewed) => Some(renewed)
      case _ => Latest(initial, steps[..|steps| - 1])
  }

  lemma {:induction false} CredentialIsLatest(ws: seq<World>, steps: seq<Step>, i: nat)
    requires Run(ws, steps) && i < |ws|
    ensures ws[i].locked.credential == Latest(ws[0].locked.credential, steps[..i])
  {
    hide Enabled, Next;
    if i > 0 {
      CredentialIsLatest(ws, steps, i - 1);
      assert steps[..i][..i - 1] == steps[..i - 1];
      CredentialMoves(ws[i - 1], steps[i - 1]);
    }
  }

  lemma CredentialMoves(w: World, s: Step)
    requires Enabled(w, s)
    ensures Next(w, s).locked.credential ==
      match s
      case SetCredential(value) => value
      case RefreshSucceeded(renewed) => Some(renewed)
      case _ => w.locked.credential
  {
    hide Excessive;
  }

  /** In step `p` of a run it is decided that `c` is called with `outcome`. */
  ghost predicate DueAt(ws: seq<World>, steps: seq<Step>, p: nat, c: Closure, outcome: Outcome)
    requires Run(ws, steps) && p < |steps|
  {
    Due(ws[p], steps[p], Latest(ws[0].locked.credential, steps[..p]), c, outcome)
  }

  lemma {:induction false} RunFates(ws: seq<World>, steps: seq<Step>, i: nat, c: Closure, outcome: Outcome)
    requires Run(ws, steps) && i < |ws|
    ensures Fated(ws[i], c, outcome) <==> exists p | 0 <= p < i :: DueAt(ws, steps, p, c, outcome)
  {
    hide Enabled, Next, Fated, Due, Latest, Inv;
    if i == 0 {
      StartFates(ws, steps, c, outcome);
    } else {
      RunFates(ws, steps, i - 1, c, outcome);
      RunIsSound(ws, steps, i - 1);
      StepFates(ws[i - 1], steps[i - 1], c, outcome);
      CredentialIsLatest(ws, steps, i - 1);
      assert Fated(ws[i], c, outcome) <==> Fated(ws[i - 1], c, outcome) || DueAt(ws, steps, i - 1, c, outcome);
    }
  }

  lemma StartFates(ws: seq<World>, steps: seq<Step>, c: Closure, outcome: Outcome)
    requires Run(ws, steps)
    ensures !Fated(ws[0], c, outcome)
  {
  }

  lemma RunIsSound(ws: seq<World>, steps: seq<Step>, i: nat)
    requires Run(ws, steps) && i < |ws|
    ensures Sound(ws[i])
  {
    hide Run, Accounted, RateLimited, Ordered, SingleFlight;
    RunKeeps(ws, steps, i);
  }

  // ---------- One fate for each closure ----------

  lemma TwiceCounts(s: seq<Closure>, i: nat, j: nat)
    requires i < j < |s| && s[i] == s[j]
    ensures multiset(s)[s[i]] >= 2
  {
    assert s == s[..i] + [s[i]] + s[i + 1..j] + [s[j]] + s[j + 1..];
    var c := s[i];
    assert multiset(s) == multiset(s[..i]) + multiset{c} + multiset(s[i + 1..j]) + multiset{c} + multiset(s[j + 1..]);
  }

  lemma CalledCounts(called: seq<Call>, c: Closure, x: Outcome, y: Outcome)
    requires Call(c, x) in called
    ensures multiset(CalledClosures(called))[c] >= if Call(c, y) in called && x != y then 2 else 1
  {
    var i :| 0 <= i < |called| && called[i] == Call(c, x);
    var s := CalledClosures(called);
    assert s[i] == c && s[i] in s;
    if Call(c, y) in called && x != y {
      var j :| 0 <= j < |called| && called[j] == Call(c, y);
      TwiceCounts(s, if i < j then i else j, if i < j then j else i);
    }
  }

  lemma DecidedCounts(flights: seq<Flight>, c: Closure, x: Outcome, y: Outcome)
    requires Decided(c, x) in flights
    ensures multiset(FlightClosures(flights))[c] >= if Decided(c, y) in flights && x != y then 2 else 1
  {
    var i :| 0 <= i < |flights| && flights[i] == Decided(c, x);
    var s := FlightClosures(flights);
    assert s[i] == c && s[i] in s;
    if Decided(c, y) in flights && x != y {
      var j :| 0 <= j < |flights| && flights[j] == Decided(c, y);
      TwiceCounts(s, if i < j then i else j, if i < j then j else i);
    }
  }

  lemma {:induction false} QueuedCounts(queue: seq<Batch>, c: Closure, x: Outcome, y: Outcome)
    requires QueueFates(queue, c, x)
    ensures BatchClosures(queue)[c] >= if QueueFates(queue, c, y) && x != y then 2 else 1
  {
    var b, tail := queue[0], queue[1..];
    BatchCounts(b, c, x, y);
    BatchCounts(b, c, y, x);
    if QueueFates(tail, c, x) { QueuedCounts(tail, c, x, y); }
    if QueueFates(tail, c, y) { QueuedCounts(tail, c, y, x); }
  }

  lemma BatchCounts(b: Batch, c: Closure, x: Outcome, y: Outcome)
    ensures FatedIn(b, c, x) ==>
      (multiset(b.adapts) + multiset(b.retries))[c] >= if FatedIn(b, c, y) && x != y then 2 else 1
  {
  }

  /** While every closure is accounted for once, it has at most one fate. */
  lemma FateIsOne(w: World, c: Closure, x: Outcome, y: Outcome)
    requires Accounted(w)[c] <= 1 && Fated(w, c, x) && Fated(w, c, y)
    ensures x == y
  {
    hide CalledClosures, FlightClosures, BatchClosures, QueueFates;
    if Call(c, x) in w.called { CalledCounts(w.called, c, x, y); }
    if Call(c, y) in w.called { CalledCounts(w.called, c, y, x); }
    if Decided(c, x) in w.flights { DecidedCounts(w.flights, c, x, y); }
    if Decided(c, y) in w.flights { DecidedCounts(w.flights, c, y, x); }
    if QueueFates(w.queue, c, x) { QueuedCounts(w.queue, c, x, y); }
    if QueueFates(w.queue, c, y) { QueuedCounts(w.queue, c, y, x); }
  }

  /** In every run, whatever a closure has been called with was decided by an earlier step,
      by the credential that was the latest in that step. */
  lemma EveryCallIsDue(ws: seq<World>, steps: seq<Step>, i: nat, c: Closure, outcome: Outcome)
    requires Run(ws, steps) && i < |ws| && Call(c, outcome) in ws[i].called
    ensures exists p | 0 <= p < i :: DueAt(ws, steps, p, c, outcome)
  {
    hide Run, DueAt, QueueFates;
    RunFates(ws, steps, i, c, outcome);
  }

  /** And what a step decided is what the closure is called with, and with nothing else: at
      most once in any run, and exactly once when it comes to rest. */
  lemma EveryPromiseIsKept(ws: seq<World>, steps: seq<Step>, p: nat, i: nat, c: Closure, outcome: Outcome)
    requires Run(ws, steps) && p < i < |ws| && DueAt(ws, steps, p, c, outcome)
    ensures forall y :: Call(c, y) in ws[i].called ==> y == outcome
    ensures Quiescent(ws[i]) ==> Call(c, outcome) in ws[i].called
  {
    hide Run, DueAt, Accounted, SingleFlight, RateLimited, Ordered, QueueFates;
    RunFates(ws, steps, i, c, outcome);
    RunKeeps(ws, steps, i);
    var w := ws[i];
    forall y | Call(c, y) in w.called ensures y == outcome {
      assert multiset(w.submitted)[c] <= 1;
      FateIsOne(w, c, outcome, y);
    }
    if Quiescent(w) { NothingQueued(w, c, outcome); }
  }

  lemma NothingQueued(w: World, c: Closure, outcome: Outcome)
    requires Quiescent(w)
    ensures !QueueFates(w.queue, c, outcome) && Decided(c, outcome) !in w.flights
  {
  }

  // ---------- First in, first out ----------

  function QueuedRetries(queue: seq<Batch>): seq<Closure> {
    if queue == [] then [] else queue[0].retries + QueuedRetries(queue[1..])
  }

  function QueuedAdapts(queue: seq<Batch>): seq<Closure> {
    if queue == [] then [] else queue[0].adapts + QueuedAdapts(queue[1..])
  }

  /** The retries that have entered the lock and have not been called, in their order. */
  function RetryLine(w: World): seq<Closure> {
    QueuedRetries(w.queue) + w.locked.retries
  }

  /** The adapts that wait for a refresh, or for what follows it. */
  function AdaptLine(w: World): seq<Closure> {
    QueuedAdapts(w.queue) + w.locked.adapts
  }

  function RetryJoins(w: World, s: Step): seq<Closure>
    requires Enabled(w, s)
  {
    if s.RetryLocked? then [w.flights[s.i].c] else []
  }

  function RetryLeaves(w: World, s: Step): seq<Closure>
    requires Enabled(w, s)
  {
    if s.QueueRetry? then [w.queue[0].retries[0]] else []
  }

  /** An adapt that is tried waits if a refresh is under way or required. */
  function AdaptJoins(w: World, s: Step): seq<Closure>
    requires Enabled(w, s)
  {
    if (s.AdaptCall? || s.QueueAdapt?) && (w.outstanding > 0 || (w.locked.credential.Some? && s.requiresRefresh))
    then [if s.AdaptCall? then s.c else w.queue[0].adapts[0]] else []
  }

  function AdaptLeaves(w: World, s: Step): seq<Closure>
    requires Enabled(w, s)
  {
    if s.QueueAdapt? || s.QueueFailAdapt? then [w.queue[0].adapts[0]] else []
  }

  lemma {:induction false} LinesCat(a: seq<Batch>, b: Batch)
    ensures QueuedRetries(a + [b]) == QueuedRetries(a) + b.retries
    ensures QueuedAdapts(a + [b]) == QueuedAdapts(a) + b.adapts
  {
    if a == [] {
      assert a + [b] == [b] && [b][1..] == [];
      assert QueuedRetries([]) == [] && QueuedAdapts([]) == [];
      assert b.retries + [] == b.retries && b.adapts + [] == b.adapts;
    } else {
      var more := a[1..] + [b];
      assert a + [b] == [a[0]] + more && a == [a[0]] + a[1..];
      HeadLines(a[0], more);
      HeadLines(a[0], a[1..]);
      LinesCat(a[1..], b);
      assert a[0].retries + (QueuedRetries(a[1..]) + b.retries) == a[0].retries + QueuedRetries(a[1..]) + b.retries;
      assert a[0].adapts + (QueuedAdapts(a[1..]) + b.adapts) == a[0].adapts + QueuedAdapts(a[1..]) + b.adapts;
    }
  }

  /** A section leaves the lines as they are, and what it takes joins one of them. */
  lemma SectionLines(w: World, m: Locked, effect: Effect, adapts: seq<Closure>, retries: seq<Closure>)
    requires if effect.batch.Some? then m.adapts == m.retries == [] && effect.batch.value.adapts == adapts && effect.batch.value.retries == retries
             else m.adapts == adapts && m.retries == retries
    ensures RetryLine(Left(w, m, effect)) == QueuedRetries(w.queue) + retries
    ensures AdaptLine(Left(w, m, effect)) == QueuedAdapts(w.queue) + adapts
  {
    hide QueuedRetries, QueuedAdapts;
    if effect.batch.Some? { LinesCat(w.queue, effect.batch.value); }
  }

  lemma HeadLines(b: Batch, tail: seq<Batch>)
    ensures QueuedRetries([b] + tail) == b.retries + QueuedRetries(tail)
    ensures QueuedAdapts([b] + tail) == b.adapts + QueuedAdapts(tail)
  {
    assert ([b] + tail)[0] == b && ([b] + tail)[1..] == tail;
  }

  /** A section taken in world `v`, of which a closure may join one of the lines. */
  lemma AdaptLines(v: World, c: Closure, requiresRefresh: bool, t: real, u: real)
    requires SingleFlight(v)
    ensures
      var r := AdaptSection(v.locked, c, requiresRefresh, t, u);
      var v' := Decide(Left(v, r.0, r.1), c, r.2);
      var joins := if v.outstanding > 0 || (v.locked.credential.Some? && requiresRefresh) then [c] else [];
      RetryLine(v') == RetryLine(v) && AdaptLine(v') == AdaptLine(v) + joins
  {
    hide QueuedRetries, QueuedAdapts, Excessive, Left;
    var r := AdaptSection(v.locked, c, requiresRefresh, t, u);
    var joins := if v.outstanding > 0 || (v.locked.credential.Some? && requiresRefresh) then [c] else [];
    SectionLines(v, r.0, r.1, v.locked.adapts + joins, v.locked.retries);
    assert QueuedAdapts(v.queue) + (v.locked.adapts + joins) == AdaptLine(v) + joins;
  }

  lemma RetryLines(v: World, c: Closure, t: real, u: real)
    requires SingleFlight(v)
    ensures
      var r := RetrySection(v.locked, c, t, u);
      RetryLine(Left(v, r.0, r.1)) == RetryLine(v) + [c] && AdaptLine(Left(v, r.0, r.1)) == AdaptLine(v)
  {
    hide QueuedRetries, QueuedAdapts, Excessive, Left;
    var r := RetrySection(v.locked, c, t, u);
    SectionLines(v, r.0, r.1, v.locked.adapts, v.locked.retries + [c]);
    assert QueuedRetries(v.queue) + (v.locked.retries + [c]) == RetryLine(v) + [c];
  }

  lemma FlushLines(v: World, m: Locked, failure: Option<Failure>)
    requires m.adapts == v.locked.adapts && m.retries == v.locked.retries
    ensures
      var r := Flush(m, failure);
      RetryLine(Left(v, r.0, r.1)) == RetryLine(v) && AdaptLine(Left(v, r.0, r.1)) == AdaptLine(v)
  {
    hide QueuedRetries, QueuedAdapts, Left;
    var r := Flush(m, failure);
    SectionLines(v, r.0, r.1, v.locked.adapts, v.locked.retries);
  }

  /** The head of the queue loses its next closure. */
  lemma HeadLeaves(w: World, v: World)
    requires w.queue != [] && v.locked == w.locked && v.queue == [Rest(w.queue[0])] + w.queue[1..]
    ensures
      var b := w.queue[0];
      && RetryLine(w) == (if b.adapts == [] && b.retries != [] then [b.retries[0]] else []) + RetryLine(v)
      && AdaptLine(w) == (if b.adapts != [] then [b.adapts[0]] else []) + AdaptLine(v)
  {
    hide QueuedRetries, QueuedAdapts;
    var b := w.queue[0];
    assert w.queue == [b] + w.queue[1..];
    HeadLines(b, w.queue[1..]);
    HeadLines(Rest(b), w.queue[1..]);
    assert b.adapts != [] ==> b.adapts == [b.adapts[0]] + b.adapts[1..];
    assert b.retries != [] ==> b.retries == [b.retries[0]] + b.retries[1..];
  }

  lemma QueueLinesMove(w: World, s: Step)
    requires Enabled(w, s) && SingleFlight(w) && (s.QueueAdapt? || s.QueueFailAdapt? || s.QueueRetry? || s.QueueDone?)
    ensures RetryLine(w) + RetryJoins(w, s) == RetryLeaves(w, s) + RetryLine(Next(w, s))
    ensures AdaptLine(w) + AdaptJoins(w, s) == AdaptLeaves(w, s) + AdaptLine(Next(w, s))
  {
    hide AdaptSection, Left, Decide, QueuedRetries, QueuedAdapts;
    match s
    case QueueAdapt(requiresRefresh, t, u) =>
      var v := w.(clock := u, queue := [Rest(w.queue[0])] + w.queue[1..]);
      HeadLeaves(w, v);
      AdaptLines(v, w.queue[0].adapts[0], requiresRefresh, t, u);
    case QueueFailAdapt => HeadLeaves(w, w.(queue := [Rest(w.queue[0])] + w.queue[1..]));
    case QueueRetry => HeadLeaves(w, w.(queue := [Rest(w.queue[0])] + w.queue[1..]));
    case QueueDone =>
      assert w.queue == [w.queue[0]] + w.queue[1..];
      HeadLines(w.queue[0], w.queue[1..]);
  }

  /** What joins a line joins it at its end, and what leaves it leaves it in front. */
  lemma LinesMove(w: World, s: Step)
    requires Enabled(w, s) && SingleFlight(w)
    ensures RetryLine(w) + RetryJoins(w, s) == RetryLeaves(w, s) + RetryLine(Next(w, s))
    ensures AdaptLine(w) + AdaptJoins(w, s) == AdaptLeaves(w, s) + AdaptLine(Next(w, s))
  {
    hide AdaptSection, RetrySection, Left, Decide, QueuedRetries, QueuedAdapts;
    match s
    case AdaptCall(c, requiresRefresh, t, u) =>
      AdaptLines(w.(clock := u, submitted := w.submitted + [c]), c, requiresRefresh, t, u);
    case RetryLocked(i, t, u) => RetryLines(w.(clock := u, flights := Without(w.flights, i)), w.flights[i].c, t, u);
    case RefreshSucceeded(credential) =>
      FlushLines(w.(outstanding := w.outstanding - 1), w.locked.(credential := Some(credential)), None);
    case RefreshFailedWith(failure) => FlushLines(w.(outstanding := w.outstanding - 1), w.locked, Some(failure));
    case QueueAdapt(_, _, _) => QueueLinesMove(w, s);
    case QueueFailAdapt => QueueLinesMove(w, s);
    case QueueRetry => QueueLinesMove(w, s);
    case QueueDone => QueueLinesMove(w, s);
    case _ =>
  }

  /** What joined, and what left, in the first `i` steps of a run. */
  ghost function Joined(ws: seq<World>, steps: seq<Step>, i: nat): seq<Closure>
    requires Run(ws, steps) && i <= |steps|
  {
    if i == 0 then [] else Joined(ws, steps, i - 1) + RetryJoins(ws[i - 1], steps[i - 1])
  }

  ghost function Gone(ws: seq<World>, steps: seq<Step>, i: nat): seq<Closure>
    requires Run(ws, steps) && i <= |steps|
  {
    if i == 0 then [] else Gone(ws, steps, i - 1) + RetryLeaves(ws[i - 1], steps[i - 1])
  }

  /** In every run retries are called in the order in which they entered the lock. */
  lemma {:induction false} RetriesKeepTheirOrder(ws: seq<World>, steps: seq<Step>, i: nat)
    requires Run(ws, steps) && i <= |steps|
    ensures Joined(ws, steps, i) == Gone(ws, steps, i) + RetryLine(ws[i])
  {
    hide Enabled, Next, RetryLine, RetryJoins, RetryLeaves, SingleFlight, Ordered, AdaptLine, AdaptJoins, AdaptLeaves;
    if i == 0 {
      NoLine(ws, steps);
    } else {
      RetriesKeepTheirOrder(ws, steps, i - 1);
      RunIsSound(ws, steps, i - 1);
      var w, s := ws[i - 1], steps[i - 1];
      LinesMove(w, s);
      var gone := Gone(ws, steps, i - 1);
      assert gone + RetryLine(w) + RetryJoins(w, s) == gone + (RetryLeaves(w, s) + RetryLine(ws[i]));
      assert gone + (RetryLeaves(w, s) + RetryLine(ws[i])) == gone + RetryLeaves(w, s) + RetryLine(ws[i]);
    }
  }

  lemma NoLine(ws: seq<World>, steps: seq<Step>)
    requires Run(ws, steps)
    ensures RetryLine(ws[0]) == []
  {
  }
}
