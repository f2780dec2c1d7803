/** Which response serializers run and are completed, in every run of a request: serializers
    may be added, and the request finished, retried and cancelled, at any time. */
module Serializers {
  import opened Wrappers
  import opened RequestLifecycle

  // ---------- Serializers on their way ----------

  /** Serializers that wait for their queue, or whose completion is owed. */
  datatype Stage = InQueue | Owed

  function Of(stage: Stage, t: Thread): multiset<Serializer> {
    match t
    case Queued(x) => if stage == InQueue then multiset{x} else multiset{}
    case Running(x) => if stage == Owed then multiset{x} else multiset{}
    case Asking(x) => if stage == Owed then multiset{x} else multiset{}
    case Calling(rest) => if stage == Owed then multiset(rest) else multiset{}
    case _ => multiset{}
  }

  function All(stage: Stage, threads: seq<Thread>): multiset<Serializer> {
    if threads == [] then multiset{} else Of(stage, threads[0]) + All(stage, threads[1..])
  }

  lemma {:induction false} AllUpdate(stage: Stage, threads: seq<Thread>, i: nat, t: Thread)
    requires i < |threads|
    ensures All(stage, threads[i := t]) + Of(stage, threads[i]) == All(stage, threads) + Of(stage, t)
  {
    hide Of;
    if i == 0 {
      assert threads[0 := t][1..] == threads[1..];
    } else {
      assert threads[i := t][1..] == threads[1..][i - 1 := t] && threads[i := t][0] == threads[0];
      AllUpdate(stage, threads[1..], i - 1, t);
      Balance(Of(stage, threads[0]), All(stage, threads[1..][i - 1 := t]), Of(stage, threads[i]), All(stage, threads[1..]), Of(stage, t));
    }
  }

  lemma Balance(h: multiset<Serializer>, a: multiset<Serializer>, b: multiset<Serializer>, c: multiset<Serializer>, d: multiset<Serializer>)
    requires a + b == c + d
    ensures h + a + b == h + c + d
  {
    forall x ensures (h + a + b)[x] == (h + c + d)[x] {
      assert (a + b)[x] == (c + d)[x];
    }
  }

  lemma {:induction false} AllSpawn(stage: Stage, threads: seq<Thread>)
    ensures All(stage, threads + [Lookup]) == All(stage, threads)
  {
    if threads == [] {
      assert threads + [Lookup] == [Lookup];
    } else {
      assert (threads + [Lookup])[0] == threads[0] && (threads + [Lookup])[1..] == threads[1..] + [Lookup];
      AllSpawn(stage, threads[1..]);
    }
  }

  lemma {:induction false} NoneLeft(stage: Stage, threads: seq<Thread>)
    requires AllEnded(threads)
    ensures All(stage, threads) == multiset{}
  {
    if threads != [] { NoneLeft(stage, threads[1..]); }
  }

  // ---------- Steps ----------

  /** What a step of thread `i` changes outside the lock. */
  lemma ThreadMoves(w: World, i: nat)
    requires Enabled(w, ThreadStep(i))
    ensures var w' := Next(w, ThreadStep(i));
      && |w'.threads| == |w.threads| && w'.threads == w.threads[i := w'.threads[i]] && w'.appended == w.appended
      && match w.threads[i]
         case Lookup => w'.ran == w.ran && w'.called == w.called && w'.m == w.m && w'.undone == w.undone
           && w'.threads[i] == (if LookupSection(w.m).Some? then Queued(LookupSection(w.m).value) else Clear)
         case Clear => w'.ran == w.ran && w'.called == w.called && w'.undone == w.undone
           && w'.threads[i] == Calling(w.m.completions) && w'.m.completions == []
         case Queued(x) => w'.ran == w.ran + [x] && w'.called == w.called && w'.m == w.m && w'.undone == w.undone
           && w'.threads[i] == Running(x)
         case Running(x) => w'.ran == w.ran && w'.called == w.called && w'.undone == w.undone
           && w'.m.completions == w.m.completions + [x] && w'.threads[i] == Lookup
         case Asking(x) => w'.ran == w.ran && w'.called == w.called && w'.threads[i] == Ended
           && (if w.m.state == Cancelled then w'.m.completions == w.m.completions && w'.undone == w.undone + [x]
               else w'.m.completions == [] && w'.undone == w.undone + w.m.completions + [x])
         case Calling(rest) => w'.ran == w.ran && w'.m == w.m && w'.undone == w.undone
           && (if rest == [] then w'.called == w.called && w'.threads[i] == Ended
               else w'.called == w.called + [rest[0]] && w'.threads[i] == Calling(rest[1..]))
         case Ended => true
  {
    hide CanTransition, LookupSection, Cut;
  }

  lemma OthersMove(w: World, s: Step)
    requires Enabled(w, s) && !s.ThreadStep? && !s.AskStep?
    ensures var w' := Next(w, s);
      && (w'.ran, w'.called) == (w.ran, w.called)
      && (w'.threads == w.threads || w'.threads == w.threads + [Lookup])
      && (if s.ResetStep? && w.m.state != Cancelled then w'.m.completions == [] && w'.undone == w.undone + w.m.completions
          else w'.m.completions == w.m.completions && w'.undone == w.undone)
  {
    hide CanTransition, LookupSection, Cut;
    assert w.undone + [] == w.undone;
  }

  lemma Exchange(
    r': multiset<Serializer>, a': multiset<Serializer>, n: multiset<Serializer>,
    r: multiset<Serializer>, a: multiset<Serializer>, o: multiset<Serializer>, t: multiset<Serializer>)
    requires a' + o == a + n && r' + n == r + t + o
    ensures r' + a' == r + a + t
  {
    forall x ensures (r' + a')[x] == (r + a + t)[x] {
      assert (a' + o)[x] == (a + n)[x] && (r' + n)[x] == (r + t + o)[x];
    }
  }

  // ---------- What waits is attended to ----------

  /** On its way to clear the chain, or to retry. */
  predicate Busy(t: Thread) {
    t == Lookup || t == Clear || t.Queued? || t.Running? || t.Asking?
  }

  predicate SomeBusy(w: World) {
    exists i | 0 <= i < |w.threads| :: Busy(w.threads[i])
  }

  /** While something is left to be cleared, and no retry is awaited, something is on its way
      to clear it. */
  predicate Attended(w: World) {
    && (w.m.isFinishing ==> SomeBusy(w))
    && (!w.awaiting && !w.m.processingFinished ==> SomeBusy(w))
    && (!w.awaiting && (w.m.serializers != [] || w.m.completions != []) ==> SomeBusy(w))
  }

  lemma SpawnedIsBusy(w: World, yes: bool)
    ensures yes || SomeBusy(w) ==> exists i | 0 <= i < |Spawn(w, yes).threads| :: Busy(Spawn(w, yes).threads[i])
  {
    var t := Spawn(w, yes).threads;
    if yes {
      assert Busy(t[|w.threads|]);
    } else if SomeBusy(w) {
      var j :| 0 <= j < |w.threads| && Busy(w.threads[j]);
      assert Busy(t[j]);
    }
  }

  lemma AttendedStep(w: World, s: Step)
    requires Enabled(w, s) && Attended(w) && !Strands(w, s)
    ensures Attended(Next(w, s))
  {
    hide CanTransition, Cut;
    var w' := Next(w, s);
    match s
    case ThreadStep(i) => AttendedThread(w, i);
    case AskStep(i) =>
      assert Busy(w'.threads[i]);
    case AppendStep(_) => SpawnedIsBusy(w, AppendSection(w.m, s.s).1);
    case FinishStep => SpawnedIsBusy(w, FinishSection(w.m).1);
    case _ => assert w'.threads == w.threads;
  }

  lemma AttendedThread(w: World, i: nat)
    requires Enabled(w, ThreadStep(i)) && Attended(w) && !Strands(w, ThreadStep(i))
    ensures Attended(Next(w, ThreadStep(i)))
  {
    hide CanTransition, Cut;
    var w' := Next(w, ThreadStep(i));
    assert w'.threads == w.threads[i := w'.threads[i]];
    if w.threads[i] == Clear || w.threads[i].Asking? {
    } else if Busy(w.threads[i]) {
      assert Busy(w'.threads[i]);
    } else if SomeBusy(w) {
      var j :| 0 <= j < |w.threads| && Busy(w.threads[j]);
      assert Busy(w'.threads[j]);
    }
  }

  lemma {:induction false} RunIsAttended(ws: seq<World>, steps: seq<Step>, i: nat)
    requires Run(ws, steps) && i < |ws| && NoneStrands(ws, steps, i)
    ensures Attended(ws[i])
  {
    hide Next, Attended, Enabled, Strands;
    if i == 0 {
      assert Attended(INITIAL) by { InitialAttended(); }
    } else {
      RunIsAttended(ws, steps, i - 1);
      AttendedStep(ws[i - 1], steps[i - 1]);
    }
  }

  lemma InitialAttended()
    ensures Attended(INITIAL)
  {
  }

  lemma NoneBusy(w: World)
    requires AtRest(w)
    ensures !SomeBusy(w)
  {
  }

  // ---------- Every serializer that ran is accounted for ----------

  /** Completions that were called, wait under the lock, or were taken back. */
  function Handed(w: World): multiset<Serializer> {
    multiset(w.called) + multiset(w.m.completions) + multiset(w.undone)
  }

  predicate Settled(w: World) {
    multiset(w.ran) == Handed(w) + All(Owed, w.threads)
  }

  /** No step loses or doubles the completion of a serializer that ran. */
  lemma SettledStep(w: World, s: Step)
    requires Enabled(w, s) && Settled(w)
    ensures Settled(Next(w, s))
  {
    hide All, Next, LookupSection;
    var w' := Next(w, s);
    match s
    case ThreadStep(i) =>
      ThreadMoves(w, i);
      AllUpdate(Owed, w.threads, i, w'.threads[i]);
      OwedMoves(w, i);
      Exchange(Handed(w'), All(Owed, w'.threads), Of(Owed, w'.threads[i]),
        Handed(w), All(Owed, w.threads), Of(Owed, w.threads[i]), Started(w.threads[i]));
    case AskStep(i) => AskedIsOwed(w, i);
    case _ =>
      OthersMove(w, s);
      AllSpawn(Owed, w.threads);
  }

  lemma AskedIsOwed(w: World, i: nat)
    requires Enabled(w, AskStep(i))
    ensures var w' := Next(w, AskStep(i));
      && w'.ran == w.ran && Handed(w') == Handed(w) && All(Owed, w'.threads) == All(Owed, w.threads)
      && All(InQueue, w'.threads) == All(InQueue, w.threads)
  {
    hide All;
    var x := w.threads[i].s;
    AllUpdate(Owed, w.threads, i, Asking(x));
    AllUpdate(InQueue, w.threads, i, Asking(x));
    SameSum(All(Owed, w.threads[i := Asking(x)]), All(Owed, w.threads), multiset{x});
    SameSum(All(InQueue, w.threads[i := Asking(x)]), All(InQueue, w.threads), multiset{});
  }

  lemma SameSum(a: multiset<Serializer>, b: multiset<Serializer>, c: multiset<Serializer>)
    requires a + c == b + c
    ensures a == b
  {
    forall x ensures a[x] == b[x] {
      assert (a + c)[x] == (b + c)[x];
    }
  }

  function Started(t: Thread): multiset<Serializer> {
    if t.Queued? then multiset{t.s} else multiset{}
  }

  lemma OwedMoves(w: World, i: nat)
    requires Enabled(w, ThreadStep(i))
    ensures var w' := Next(w, ThreadStep(i));
      && |w'.threads| == |w.threads|
      && multiset(w'.ran) == multiset(w.ran) + Started(w.threads[i])
      && Handed(w') + Of(Owed, w'.threads[i]) == Handed(w) + Started(w.threads[i]) + Of(Owed, w.threads[i])
  {
    hide Next, LookupSection, Handed, Of;
    ThreadMoves(w, i);
    var w' := Next(w, ThreadStep(i));
    var t := w.threads[i];
    if t.Asking? {
      AskingHands(w, w', t.s);
    } else {
      HandedMoves(w, w', t, w'.threads[i]);
    }
  }

  lemma AskingHands(w: World, w': World, x: Serializer)
    requires w'.called == w.called
    requires if w.m.state == Cancelled then w'.m.completions == w.m.completions && w'.undone == w.undone + [x]
             else w'.m.completions == [] && w'.undone == w.undone + w.m.completions + [x]
    ensures Handed(w') + Of(Owed, Ended) == Handed(w) + Started(Asking(x)) + Of(Owed, Asking(x))
  {
  }

  lemma HandedMoves(w: World, w': World, t: Thread, t': Thread)
    requires !t.Ended? && !t.Asking? && w'.undone == w.undone
    requires t.Running? ==> w'.called == w.called && w'.m.completions == w.m.completions + [t.s] && t' == Lookup
    requires t.Clear? ==> w'.called == w.called && w'.m.completions == [] && t' == Calling(w.m.completions)
    requires t.Calling? && t.rest == [] ==> w'.called == w.called && w'.m == w.m && t' == Ended
    requires t.Calling? && t.rest != [] ==> w'.called == w.called + [t.rest[0]] && w'.m == w.m && t' == Calling(t.rest[1..])
    requires t.Queued? ==> w'.called == w.called && w'.m == w.m && t' == Running(t.s)
    requires t.Lookup? ==> w'.called == w.called && w'.m == w.m && (t'.Queued? || t'.Clear?)
    ensures Handed(w') + Of(Owed, t') == Handed(w) + Started(t) + Of(Owed, t)
  {
    hide Handed;
    match t
    case Running(x) => CompletionHands(w, w', w.m.completions + [x], multiset{x}, multiset{});
    case Clear => CompletionHands(w, w', [], multiset{}, multiset(w.m.completions));
    case Calling(rest) => if rest != [] { CallHands(w, w', rest); } else { SameHands(w, w'); }
    case _ => SameHands(w, w');
  }

  lemma SameHands(w: World, w': World)
    requires w'.called == w.called && w'.undone == w.undone && w'.m == w.m
    ensures Handed(w') == Handed(w)
  {
  }

  lemma CompletionHands(w: World, w': World, c: seq<Serializer>, a: multiset<Serializer>, b: multiset<Serializer>)
    requires w'.called == w.called && w'.undone == w.undone && w'.m.completions == c
    requires multiset(c) + b == multiset(w.m.completions) + a
    ensures Handed(w') + b == Handed(w) + a
  {
    forall x ensures (Handed(w') + b)[x] == (Handed(w) + a)[x] {
      assert (multiset(c) + b)[x] == (multiset(w.m.completions) + a)[x];
    }
  }

  lemma CallHands(w: World, w': World, rest: seq<Serializer>)
    requires rest != [] && w'.called == w.called + [rest[0]] && w'.m == w.m && w'.undone == w.undone
    ensures Handed(w') + multiset(rest[1..]) == Handed(w) + multiset(rest)
  {
    CallMoves(w.called, rest);
    var c, d := multiset(w.called + [rest[0]]), multiset(w.called);
    forall x ensures (Handed(w') + multiset(rest[1..]))[x] == (Handed(w) + multiset(rest))[x] {
      assert (c + multiset(rest[1..]))[x] == (d + multiset(rest))[x];
    }
  }

  lemma CallMoves(called: seq<Serializer>, rest: seq<Serializer>)
    requires rest != []
    ensures multiset(called + [rest[0]]) + multiset(rest[1..]) == multiset(called) + multiset(rest)
  {
    assert rest == [rest[0]] + rest[1..];
  }

  lemma {:induction false} RunSettles(ws: seq<World>, steps: seq<Step>, i: nat)
    requires Run(ws, steps) && i < |ws|
    ensures Settled(ws[i])
  {
    hide Next, Settled, Enabled;
    if i == 0 {
      assert Settled(INITIAL) by { InitialSettled(); }
    } else {
      RunSettles(ws, steps, i - 1);
      SettledStep(ws[i - 1], steps[i - 1]);
    }
  }

  lemma InitialSettled()
    ensures Settled(INITIAL)
  {
  }

  /** In every run that comes to rest, each time a serializer ran its completion was called,
      or was taken back by a retry, or still waits because a retry found the request
      cancelled. */
  lemma EachIsCompleted(ws: seq<World>, steps: seq<Step>, i: nat)
    requires Run(ws, steps) && i < |ws| && AtRest(ws[i])
    ensures var w := ws[i];
      multiset(w.ran) == multiset(w.called) + multiset(w.undone) + multiset(w.m.completions)
    ensures NoneStrands(ws, steps, i) ==> ws[i].m.completions == []
  {
    hide Next, Run, NoneStrands;
    RunSettles(ws, steps, i);
    NoneLeft(Owed, ws[i].threads);
    if NoneStrands(ws, steps, i) {
      RunIsAttended(ws, steps, i);
      NoneBusy(ws[i]);
    }
  }

  // ---------- Steps that a caller can tell are safe ----------

  /** In a chain: with a serializer, which has not handed in its completion. */
  predicate Active(t: Thread) {
    t.Queued? || t.Running? || t.Asking?
  }

  predicate SomeAsking(w: World) {
    exists i | 0 <= i < |w.threads| :: w.threads[i].Asking?
  }

  /** The steps that can lose or double a serializer: to add one while a chain is about to
      clear, or after the end of a chain before everything has come to rest; to finish while
      a chain that was not begun by `finish` has serializers left; to cancel while a
      serializer asks for a retry, and to ask for one when cancelled. */
  predicate Risky(w: World, s: Step)
    requires Enabled(w, s)
  {
    match s
    case AppendStep(_) => Clear in w.threads || (w.m.processingFinished && (SomeBusy(w) || w.m.serializers != []))
    case FinishStep => !w.m.isFinishing && SomeBusy(w) && |w.m.completions| < |w.m.serializers|
    case MoveStep(to) => to == Cancelled && CanTransition(w.m.state, Cancelled) && SomeAsking(w)
    case AskStep(_) => w.m.state == Cancelled
    case _ => false
  }

  /** How many serializers ended chains have cleared. */
  function Past(w: World): nat
    requires |w.m.serializers| <= |w.appended|
  {
    |w.appended| - |w.m.serializers|
  }

  predicate Begun(w: World) {
    exists i | 0 <= i < |w.threads| :: w.threads[i].Running? || w.threads[i].Asking?
  }

  /** The chain is the rest of what was added, and complete up to the serializer that is in
      progress. */
  predicate InOrder(w: World) {
    && |w.m.serializers| <= |w.appended| && w.m.serializers == w.appended[Past(w)..]
    && |w.m.completions| <= |w.m.serializers| && w.m.completions == w.m.serializers[..|w.m.completions|]
    && (forall i | 0 <= i < |w.threads| && Active(w.threads[i]) ::
      |w.m.completions| < |w.m.serializers| && w.threads[i].s == w.m.serializers[|w.m.completions|])
  }

  /** No two threads are busy while serializers are left, or may yet come. */
  predicate Alone(w: World) {
    && (|w.m.completions| < |w.m.serializers| || !w.m.processingFinished ==>
      forall i, j | 0 <= i < j < |w.threads| :: !(Busy(w.threads[i]) && Busy(w.threads[j])))
    && (|w.m.completions| < |w.m.serializers| ==> Clear !in w.threads)
    && (!w.m.processingFinished && !w.m.isFinishing ==> !SomeBusy(w))
    && (w.awaiting ==> !SomeBusy(w) && w.m.completions == [] && !w.m.isFinishing)
    && (w.awaiting && w.m.processingFinished ==> w.m.serializers != [])
    && (SomeAsking(w) ==> w.m.state != Cancelled)
  }

  /** What stands is the past and what of the chain has begun to run. */
  predicate Stands(w: World)
    requires InOrder(w)
  {
    w.standing == w.appended[..Past(w) + |w.m.completions| + (if Begun(w) then 1 else 0)]
  }

  /** The part of safety that says where the chain is. */
  predicate Tidy(w: World) {
    InOrder(w) && Alone(w) && Stands(w)
  }

  lemma OnlyBusy(w: World, i: nat, j: nat)
    requires Alone(w) && i < |w.threads| && j < |w.threads| && i != j && Busy(w.threads[i])
    requires |w.m.completions| < |w.m.serializers| || !w.m.processingFinished
    ensures !Busy(w.threads[j])
  {
    assert !(Busy(w.threads[if i < j then i else j]) && Busy(w.threads[if i < j then j else i]));
  }

  /** Threads of one world are those of another, or one more that looks up. */
  predicate Spawned(w: World, w': World) {
    w'.threads == w.threads || w'.threads == w.threads + [Lookup]
  }

  lemma SpawnedLike(w: World, w': World)
    requires Spawned(w, w')
    ensures Begun(w') <==> Begun(w)
    ensures SomeAsking(w') <==> SomeAsking(w)
    ensures Clear in w'.threads <==> Clear in w.threads
    ensures SomeBusy(w') <==> SomeBusy(w) || w'.threads != w.threads
  {
    assert forall i | 0 <= i < |w.threads| :: w'.threads[i] == w.threads[i];
    if w'.threads != w.threads { assert Busy(w'.threads[|w.threads|]); }
  }

  lemma AppendInOrder(w: World, x: Serializer)
    requires InOrder(w) && Stands(w)
    ensures var w' := Next(w, AppendStep(x)); InOrder(w') && Stands(w')
  {
    hide CanTransition, Begun;
    var w' := Next(w, AppendStep(x));
    SpawnedLike(w, w');
    BegunIsWithin(w);
    LongerInOrder(w, w', x);
    var b := Past(w) + |w.m.completions| + (if Begun(w) then 1 else 0);
    assert w'.appended[..b] == w.appended[..b];
  }

  lemma LongerInOrder(w: World, w': World, x: Serializer)
    requires InOrder(w) && Spawned(w, w') && w'.m.completions == w.m.completions
    requires w'.appended == w.appended + [x] && w'.m.serializers == w.m.serializers + [x]
    ensures InOrder(w') && Past(w') == Past(w)
  {
    var n, k := Past(w), |w.m.completions|;
    assert w'.appended[n..] == w.appended[n..] + [x];
    assert w'.m.serializers[..k] == w.m.serializers[..k];
    forall i | 0 <= i < |w'.threads| && Active(w'.threads[i])
      ensures k < |w'.m.serializers| && w'.threads[i].s == w'.m.serializers[k]
    {
      assert w'.threads[i] == w.threads[i];
    }
  }

  lemma BegunIsWithin(w: World)
    requires InOrder(w)
    ensures Past(w) + |w.m.completions| + (if Begun(w) then 1 else 0) <= |w.appended|
  {
    if Begun(w) {
      var i :| 0 <= i < |w.threads| && (w.threads[i].Running? || w.threads[i].Asking?);
      assert Active(w.threads[i]);
    }
  }

  lemma AppendAlone(w: World, x: Serializer)
    requires InOrder(w) && Alone(w) && !Risky(w, AppendStep(x))
    ensures Alone(Next(w, AppendStep(x)))
  {
    hide CanTransition;
    var w' := Next(w, AppendStep(x));
    SpawnedLike(w, w');
    if w.m.processingFinished {
      assert forall i | 0 <= i < |w.threads| :: !Busy(w.threads[i]) && w'.threads[i] == w.threads[i];
    } else {
      assert w'.threads == w.threads;
    }
  }

  lemma FinishTidy(w: World)
    requires Tidy(w) && !Risky(w, FinishStep)
    ensures Tidy(Next(w, FinishStep))
  {
    hide CanTransition;
    var w' := Next(w, FinishStep);
    SpawnedLike(w, w');
    if w'.threads != w.threads {
      assert forall i | 0 <= i < |w.threads| :: w'.threads[i] == w.threads[i];
      if |w.m.completions| < |w.m.serializers| || !w.m.processingFinished {
        assert forall i | 0 <= i < |w.threads| :: !Busy(w.threads[i]);
      }
    }
  }

  lemma MoveTidy(w: World, to: State)
    requires Tidy(w) && Enabled(w, MoveStep(to)) && !Risky(w, MoveStep(to))
    ensures Tidy(Next(w, MoveStep(to)))
  {
    var w' := Next(w, MoveStep(to));
    SpawnedLike(w, w');
  }

  lemma ResetTidy(w: World)
    requires Tidy(w) && Enabled(w, ResetStep)
    ensures Tidy(Next(w, ResetStep)) && Next(w, ResetStep).standing == w.standing
    ensures multiset(Next(w, ResetStep).undone) == multiset(w.undone)
  {
    hide CanTransition;
    var w' := Next(w, ResetStep);
    SpawnedLike(w, w');
    assert w.undone + [] == w.undone;
  }

  // Steps of thread `i`, when it is `t` and becomes `t'`.

  lemma OneChanged(w: World, w': World, i: nat)
    requires i < |w.threads| && |w'.threads| == |w.threads| && w'.threads == w.threads[i := w'.threads[i]]
    ensures Clear in w'.threads ==> Clear in w.threads || w'.threads[i] == Clear
    ensures SomeBusy(w') ==> SomeBusy(w) || Busy(w'.threads[i])
    ensures SomeAsking(w') ==> SomeAsking(w) || w'.threads[i].Asking?
    ensures forall j | 0 <= j < |w.threads| && j != i :: w'.threads[j] == w.threads[j]
  {
    if Clear in w'.threads && w'.threads[i] != Clear {
      var j :| 0 <= j < |w'.threads| && w'.threads[j] == Clear;
      assert w.threads[j] == Clear;
    }
  }

  lemma AskTidy(w: World, i: nat)
    requires Tidy(w) && Enabled(w, AskStep(i)) && !Risky(w, AskStep(i))
    ensures Tidy(Next(w, AskStep(i)))
  {
    hide CanTransition;
    var w' := Next(w, AskStep(i));
    OneChanged(w, w', i);
    assert Begun(w) by { assert w.threads[i].Running?; }
    assert Begun(w') by { assert w'.threads[i].Asking?; }
    assert Active(w.threads[i]) && Busy(w.threads[i]);
    forall j | 0 <= j < |w.threads| && j != i ensures !Busy(w'.threads[j]) {
      OnlyBusy(w, i, j);
    }
  }

  lemma LookupTidy(w: World, i: nat)
    requires Tidy(w) && i < |w.threads| && w.threads[i] == Lookup
    ensures Tidy(Next(w, ThreadStep(i)))
  {
    hide CanTransition, Cut;
    var w' := Next(w, ThreadStep(i));
    OneChanged(w, w', i);
    assert Busy(w.threads[i]);
    if |w.m.completions| < |w.m.serializers| || !w.m.processingFinished {
      forall j | 0 <= j < |w.threads| && j != i ensures !Busy(w'.threads[j]) {
        OnlyBusy(w, i, j);
      }
    }
    SameBegun(w, w', i);
  }

  /** A thread that neither begins nor ends a serializer. */
  lemma SameBegun(w: World, w': World, i: nat)
    requires i < |w.threads| && |w'.threads| == |w.threads| && w'.threads == w.threads[i := w'.threads[i]]
    requires !w.threads[i].Running? && !w.threads[i].Asking? && !w'.threads[i].Running? && !w'.threads[i].Asking?
    ensures Begun(w') <==> Begun(w)
  {
    if Begun(w) {
      var j :| 0 <= j < |w.threads| && (w.threads[j].Running? || w.threads[j].Asking?);
      assert w'.threads[j] == w.threads[j];
    }
  }

  lemma ClearTidy(w: World, i: nat)
    requires Tidy(w) && i < |w.threads| && w.threads[i] == Clear
    ensures Tidy(Next(w, ThreadStep(i)))
  {
    hide CanTransition, Cut;
    var w' := Next(w, ThreadStep(i));
    OneChanged(w, w', i);
    assert Busy(w.threads[i]);
    assert |w.m.completions| == |w.m.serializers| by { assert w.threads[i] in w.threads; }
    assert forall j | 0 <= j < |w.threads| :: !Active(w.threads[j]);
    assert !Begun(w) && !Begun(w');
  }

  lemma StartTidy(w: World, i: nat)
    requires Tidy(w) && i < |w.threads| && w.threads[i].Queued?
    ensures Tidy(Next(w, ThreadStep(i)))
  {
    hide CanTransition, Cut;
    var w' := Next(w, ThreadStep(i));
    OneChanged(w, w', i);
    assert Active(w.threads[i]) && Busy(w.threads[i]);
    forall j | 0 <= j < |w.threads| && j != i ensures !Busy(w'.threads[j]) {
      OnlyBusy(w, i, j);
    }
    assert !Begun(w);
    assert Begun(w') by { assert w'.threads[i].Running?; }
    var b := Past(w) + |w.m.completions|;
    assert w.appended[b] == w.m.serializers[|w.m.completions|];
    assert w.appended[..b] + [w.appended[b]] == w.appended[..b + 1];
  }

  lemma CompleteTidy(w: World, i: nat)
    requires Tidy(w) && i < |w.threads| && w.threads[i].Running?
    ensures Tidy(Next(w, ThreadStep(i)))
  {
    hide CanTransition, Cut;
    var w' := Next(w, ThreadStep(i));
    OneChanged(w, w', i);
    assert Active(w.threads[i]) && Busy(w.threads[i]);
    forall j | 0 <= j < |w.threads| && j != i ensures !Busy(w'.threads[j]) {
      OnlyBusy(w, i, j);
    }
    assert Begun(w) by { assert w.threads[i].Running?; }
    assert !Begun(w');
    var k := |w.m.completions|;
    assert w.m.serializers[..k] + [w.m.serializers[k]] == w.m.serializers[..k + 1];
  }

  lemma RetryTidy(w: World, i: nat)
    requires Tidy(w) && i < |w.threads| && w.threads[i].Asking?
    ensures var w' := Next(w, ThreadStep(i));
      Tidy(w') && w.standing == w'.standing + w.m.completions + [w.threads[i].s]
  {
    hide CanTransition;
    var w' := Next(w, ThreadStep(i));
    OneChanged(w, w', i);
    assert SomeAsking(w);
    assert Active(w.threads[i]) && Busy(w.threads[i]);
    forall j | 0 <= j < |w.threads| && j != i ensures !Busy(w'.threads[j]) {
      OnlyBusy(w, i, j);
    }
    assert Begun(w) by { assert w.threads[i].Asking?; }
    assert !Begun(w');
    var n, k := Past(w), |w.m.completions|;
    BegunIsWithin(w);
    assert w.appended[..n + k + 1] == w.appended[..n] + w.m.serializers[..k] + [w.m.serializers[k]];
  }

  lemma CallTidy(w: World, i: nat)
    requires Tidy(w) && i < |w.threads| && w.threads[i].Calling?
    ensures Tidy(Next(w, ThreadStep(i)))
  {
    hide CanTransition, Cut;
    var w' := Next(w, ThreadStep(i));
    OneChanged(w, w', i);
    SameBegun(w, w', i);
    assert w'.m == w.m && w'.appended == w.appended && w'.standing == w.standing;
    CalledTidy(w, w', i);
  }

  lemma CalledTidy(w: World, w': World, i: nat)
    requires Tidy(w) && i < |w.threads| == |w'.threads| && w'.threads == w.threads[i := w'.threads[i]]
    requires w'.m == w.m && w'.appended == w.appended && w'.standing == w.standing && w'.awaiting == w.awaiting
    requires w.threads[i].Calling? && (w'.threads[i].Calling? || w'.threads[i].Ended?)
    ensures Tidy(w')
  {
    hide CanTransition;
    OneChanged(w, w', i);
    SameBegun(w, w', i);
  }

  /** What stands and what a retry took back make up what ran. */
  predicate Kept(w: World) {
    multiset(w.ran) == multiset(w.standing) + multiset(w.undone)
  }

  predicate Listed(w: World) {
    forall x | x in w.ran :: x in w.appended
  }

  predicate Safe(w: World) {
    Tidy(w) && Attended(w) && Kept(w) && Listed(w)
  }

  lemma StepListed(w: World, s: Step)
    requires Tidy(w) && Listed(w) && Enabled(w, s)
    ensures Listed(Next(w, s))
  {
    hide CanTransition, LookupSection, Cut, Alone, Stands;
    if s.ThreadStep? && w.threads[s.i].Queued? { assert Active(w.threads[s.i]); }
  }

  lemma ThreadTidy(w: World, i: nat)
    requires Tidy(w) && Enabled(w, ThreadStep(i))
    ensures Tidy(Next(w, ThreadStep(i)))
  {
    hide Tidy, Next;
    match w.threads[i]
    case Lookup => LookupTidy(w, i);
    case Clear => ClearTidy(w, i);
    case Queued(_) => StartTidy(w, i);
    case Running(_) => CompleteTidy(w, i);
    case Asking(_) => RetryTidy(w, i);
    case Calling(_) => CallTidy(w, i);
  }

  lemma StepTidy(w: World, s: Step)
    requires Tidy(w) && Attended(w) && Enabled(w, s) && !Risky(w, s)
    ensures Tidy(Next(w, s))
  {
    hide Next, Alone, Stands, InOrder, Risky, Attended;
    match s
    case AppendStep(x) => AppendInOrder(w, x); AppendAlone(w, x);
    case FinishStep => FinishTidy(w);
    case ResetStep => ResetTidy(w);
    case MoveStep(to) => MoveTidy(w, to);
    case AskStep(i) => AskTidy(w, i);
    case ThreadStep(i) => ThreadTidy(w, i);
  }

  lemma StepKept(w: World, s: Step)
    requires Tidy(w) && Kept(w) && Enabled(w, s)
    ensures Kept(Next(w, s))
  {
    hide Tidy, CanTransition, LookupSection, Cut;
    var w' := Next(w, s);
    if s == ResetStep {
      ResetTidy(w);
      assert w'.ran == w.ran;
    } else if s.ThreadStep? && w.threads[s.i].Asking? {
      RetryTidy(w, s.i);
      RetryTakesBack(w, s.i);
    }
  }

  lemma RetryTakesBack(w: World, i: nat)
    requires Tidy(w) && Kept(w) && i < |w.threads| && w.threads[i].Asking?
    requires w.standing == Next(w, ThreadStep(i)).standing + w.m.completions + [w.threads[i].s]
    ensures Kept(Next(w, ThreadStep(i)))
  {
    hide CanTransition, Cut, InOrder, Stands;
    assert SomeAsking(w);
  }

  lemma NoneStrandsWhenSafe(w: World, s: Step)
    requires Tidy(w) && Enabled(w, s)
    ensures !Strands(w, s)
  {
    hide CanTransition, InOrder, Stands;
    if s.ThreadStep? && w.threads[s.i].Asking? { assert SomeAsking(w); }
  }

  predicate NoneRisky(ws: seq<World>, steps: seq<Step>, i: nat)
    requires Run(ws, steps) && i < |ws|
  {
    forall j | 0 <= j < i :: !Risky(ws[j], steps[j])
  }

  lemma {:induction false} RunIsSafe(ws: seq<World>, steps: seq<Step>, i: nat)
    requires Run(ws, steps) && i < |ws| && NoneRisky(ws, steps, i)
    ensures Safe(ws[i])
  {
    hide Next, Tidy, Attended, Kept, Listed, Enabled, Risky;
    if i == 0 {
      InitialSafe();
    } else {
      RunIsSafe(ws, steps, i - 1);
      NoneStrandsWhenSafe(ws[i - 1], steps[i - 1]);
      AttendedStep(ws[i - 1], steps[i - 1]);
      StepTidy(ws[i - 1], steps[i - 1]);
      StepKept(ws[i - 1], steps[i - 1]);
      StepListed(ws[i - 1], steps[i - 1]);
    }
  }

  lemma InitialSafe()
    ensures Safe(INITIAL)
  {
  }

  /** In every run without a risky step, whatever is added, finished, retried and cancelled:
      when it comes to rest, every serializer that was added stands, in the order in which
      they were added, and each has been completed exactly once. Without a retry, that is
      how they ran. */
  lemma SafeRunsServeAll(ws: seq<World>, steps: seq<Step>, i: nat)
    requires Run(ws, steps) && i < |ws| && NoneRisky(ws, steps, i) && AtRest(ws[i])
    ensures var w := ws[i];
      && w.standing == w.appended
      && multiset(w.called) == multiset(w.appended)
      && (w.undone == [] ==> w.ran == w.appended)
  {
    hide Next, Run, NoneRisky, Enabled;
    RunIsSafe(ws, steps, i);
    var w := ws[i];
    NoneBusy(w);
    assert !Begun(w) by { NoneBegun(w); }
    assert w.appended[..|w.appended|] == w.appended;
    RunSettles(ws, steps, i);
    NoneLeft(Owed, w.threads);
    SameSum(multiset(w.called), multiset(w.appended), multiset(w.undone));
    if w.undone == [] { AllStands(ws, steps, i); }
  }

  lemma NoneBegun(w: World)
    requires AtRest(w)
    ensures !Begun(w)
  {
  }

  // ---------- And risky steps are ----------

  /** `x` was added, has not run, and nothing is left that would run it. */
  predicate Gone(w: World, x: Serializer) {
    && x in w.appended && x !in w.ran && x !in w.m.serializers
    && forall i | 0 <= i < |w.threads| && Active(w.threads[i]) :: w.threads[i].s != x
  }

  /** One serializer is in progress twice at once. */
  predicate Twice(w: World) {
    exists i, j | 0 <= i < |w.threads| && 0 <= j < |w.threads| && i != j ::
      Active(w.threads[i]) && Active(w.threads[j]) && w.threads[i].s == w.threads[j].s
  }

  /** Serializers are left, no retry is awaited, and nothing is under way. */
  predicate Deserted(w: World) {
    !w.awaiting && !SomeBusy(w) && w.m.serializers != []
  }

  predicate Harmed(w: World) {
    (exists x | x in w.appended :: Gone(w, x)) || Twice(w) || Deserted(w)
  }

  /** A serializer that is gone stays so, unless the same one is added again. */
  lemma GoneForGood(w: World, s: Step, x: Serializer)
    requires Gone(w, x) && Enabled(w, s) && s != AppendStep(x)
    ensures Gone(Next(w, s), x)
  {
    hide CanTransition, Cut;
    if s.ThreadStep? && w.threads[s.i].Queued? { assert Active(w.threads[s.i]); }
    if s.AskStep? { assert Active(w.threads[s.i]); }
  }

  /** `steps` lead from `w` to `w'`. */
  predicate Leads(w: World, steps: seq<Step>, w': World)
    decreases |steps|
  {
    if steps == [] then w == w' else Enabled(w, steps[0]) && Leads(Next(w, steps[0]), steps[1..], w')
  }

  lemma LeadsOne(w: World, a: Step)
    requires Enabled(w, a)
    ensures Leads(w, [a], Next(w, a))
  {
    hide Next;
    assert [a][1..] == [];
    assert Leads(Next(w, a), [], Next(w, a));
  }

  lemma LeadsMore(w: World, a: Step, steps: seq<Step>, w': World)
    requires Enabled(w, a) && Leads(Next(w, a), steps, w')
    ensures Leads(w, [a] + steps, w')
  {
    hide Next;
    assert ([a] + steps)[0] == a && ([a] + steps)[1..] == steps;
  }

  /** What is under way by itself: threads, and the `finish` that follows a retry. */
  predicate UnderWay(w: World, steps: seq<Step>) {
    forall t | t in steps :: t.ThreadStep? || (t == FinishStep && w.awaiting)
  }

  lemma LateHarms(w: World, x: Serializer) returns (steps: seq<Step>, w': World)
    requires Safe(w) && Clear in w.threads && x !in w.appended
    ensures |steps| <= 3 && UnderWay(w, steps) && Leads(Next(w, AppendStep(x)), steps, w') && Gone(w', x)
  {
    hide CanTransition, Cut, Attended, Kept, Stands;
    var i :| 0 <= i < |w.threads| && w.threads[i] == Clear;
    var w1 := Next(w, AppendStep(x));
    assert w1.threads[i] == Clear;
    w' := Next(w1, ThreadStep(i));
    steps := [ThreadStep(i)];
    LeadsOne(w1, ThreadStep(i));
    assert forall j | 0 <= j < |w.threads| :: !Active(w.threads[j]);
    assert x in w'.appended;
  }

  /** A look-up next to a serializer in progress takes it again. */
  lemma LookupHarms(w: World, i: nat, j: nat) returns (w': World)
    requires i < |w.threads| && j < |w.threads| && i != j
    requires Active(w.threads[i]) && w.threads[j] == Lookup && LookupSection(w.m) == Some(w.threads[i].s)
    ensures Leads(w, [ThreadStep(j)], w') && Twice(w')
  {
    hide CanTransition, LookupSection, Cut;
    w' := Next(w, ThreadStep(j));
    LeadsOne(w, ThreadStep(j));
    assert Active(w'.threads[i]) && Active(w'.threads[j]);
  }

  /** Two look-ups take the same serializer. */
  lemma LookupsHarm(w: World, i: nat, j: nat) returns (w': World)
    requires i < |w.threads| && j < |w.threads| && i != j
    requires w.threads[i] == Lookup && w.threads[j] == Lookup && LookupSection(w.m).Some?
    ensures Leads(w, [ThreadStep(i)] + [ThreadStep(j)], w') && Twice(w')
  {
    hide CanTransition, Cut;
    var w1 := Next(w, ThreadStep(i));
    w' := LookupHarms(w1, i, j);
    LeadsMore(w, ThreadStep(i), [ThreadStep(j)], w');
  }

  /** A new look-up while a chain is busy. */
  lemma SecondHarms(w: World, i: nat, w1: World) returns (steps: seq<Step>, w': World)
    requires InOrder(w) && i < |w.threads| && Busy(w.threads[i]) && w.threads[i] != Clear
    requires w1.threads == w.threads + [Lookup] && w1.m.completions == w.m.completions
    requires w.m.serializers <= w1.m.serializers && |w1.m.completions| < |w1.m.serializers|
    ensures |steps| <= 3 && (forall t | t in steps :: t.ThreadStep?) && Leads(w1, steps, w') && Harmed(w')
  {
    hide CanTransition, Cut, Next, Leads;
    var e := |w.threads|;
    assert w1.threads[i] == w.threads[i] && w1.threads[e] == Lookup;
    if Active(w.threads[i]) {
      w' := LookupHarms(w1, i, e);
      steps := [ThreadStep(e)];
    } else {
      w' := LookupsHarm(w1, i, e);
      steps := [ThreadStep(i)] + [ThreadStep(e)];
    }
  }

  /** A serializer added between a retry and the `finish` that follows it, in a later chain. */
  lemma EarlyHarms(w: World, x: Serializer) returns (steps: seq<Step>, w': World)
    requires Safe(w) && w.m.processingFinished && !SomeBusy(w) && w.m.serializers != []
    ensures |steps| <= 3 && UnderWay(w, steps) && Leads(Next(w, AppendStep(x)), steps, w') && Harmed(w')
  {
    hide CanTransition, Cut, Kept, Stands, Leads;
    assert w.awaiting;
    var e := |w.threads|;
    var w1 := Next(w, AppendStep(x));
    assert w1.threads == w.threads + [Lookup];
    var w2 := Next(w1, ThreadStep(e));
    var w3 := Next(w2, FinishStep);
    assert w2.threads == w.threads + [Queued(w.m.serializers[0])];
    assert w3.threads == w2.threads + [Lookup];
    w' := LookupHarms(w3, e, e + 1);
    LeadsMore(w2, FinishStep, [ThreadStep(e + 1)], w');
    LeadsMore(w1, ThreadStep(e), [FinishStep] + [ThreadStep(e + 1)], w');
    steps := [ThreadStep(e)] + ([FinishStep] + [ThreadStep(e + 1)]);
  }

  /** A retry that will find the request cancelled. */
  lemma CancelledHarms(w: World, w1: World, i: nat) returns (steps: seq<Step>, w': World)
    requires Safe(w) && i < |w.threads| && Active(w.threads[i])
    requires w1.m.state == Cancelled && w1.m.serializers == w.m.serializers && w1.awaiting == w.awaiting
    requires |w1.threads| == |w.threads| && w1.threads == w.threads[i := w1.threads[i]] && w1.threads[i].Asking?
    ensures |steps| <= 3 && (forall t | t in steps :: t.ThreadStep?) && Leads(w1, steps, w') && Harmed(w')
  {
    hide CanTransition, Cut, Kept, Stands, LookupSection;
    w' := Next(w1, ThreadStep(i));
    steps := [ThreadStep(i)];
    LeadsOne(w1, ThreadStep(i));
    assert Busy(w.threads[i]);
    forall j | 0 <= j < |w'.threads| ensures !Busy(w'.threads[j]) {
      if j != i { OnlyBusy(w, i, j); }
    }
  }

  /** Every risky step, taken from any safe state, can go wrong: at most three steps of what
      is under way by itself lose a serializer for good, or have one in progress twice at
      once, or leave some with nothing under way. */
  lemma RiskIsReal(w: World, s: Step) returns (steps: seq<Step>, w': World)
    requires Safe(w) && Enabled(w, s) && Risky(w, s) && (s.AppendStep? ==> s.s !in w.appended)
    ensures |steps| <= 3 && UnderWay(w, steps) && Leads(Next(w, s), steps, w') && Harmed(w')
  {
    hide CanTransition, Cut, Kept, Stands, Leads, Harmed;
    match s
    case AppendStep(x) =>
      if Clear in w.threads {
        steps, w' := LateHarms(w, x);
        assert Harmed(w') by { GoneHarms(w', x); }
      } else if SomeBusy(w) {
        var i :| 0 <= i < |w.threads| && Busy(w.threads[i]);
        assert w.threads[i] in w.threads;
        steps, w' := SecondHarms(w, i, Next(w, s));
      } else {
        steps, w' := EarlyHarms(w, x);
      }
    case FinishStep =>
      var i :| 0 <= i < |w.threads| && Busy(w.threads[i]);
      assert w.threads[i] in w.threads;
      steps, w' := SecondHarms(w, i, Next(w, s));
    case MoveStep(to) =>
      var i :| 0 <= i < |w.threads| && w.threads[i].Asking?;
      steps, w' := CancelledHarms(w, Next(w, s), i);
    case AskStep(i) =>
      steps, w' := CancelledHarms(w, Next(w, s), i);
  }

  lemma GoneHarms(w: World, x: Serializer)
    requires Gone(w, x)
    ensures Harmed(w)
  {
  }

  // ---------- Two runs in which it goes wrong ----------

  /** `w'` is where step `s` leads from `w`. */
  predicate Goes(w: World, s: Step, w': World) {
    Enabled(w, s) && Next(w, s) == w'
  }

  lemma Longer(ws: seq<World>, steps: seq<Step>, s: Step, w': World) returns (ws': seq<World>, steps': seq<Step>)
    requires Run(ws, steps) && Goes(ws[|steps|], s, w')
    ensures Run(ws', steps') && |steps'| == |steps| + 1 && ws'[|steps'|] == w'
  {
    hide Enabled, Next;
    ws', steps' := ws + [w'], steps + [s];
  }

  /** After the end of a chain each addition starts processing anew: of two serializers added
      then, the first can run twice. */
  lemma AddedAfterTheEnd(x: Serializer, y: Serializer) returns (ws: seq<World>, steps: seq<Step>)
    ensures Run(ws, steps) && |steps| == 10
    ensures ws[10].appended == [x, y] && ws[10].ran == [x, x] && ws[10].undone == []
  {
    assert Run([INITIAL], []);
    hide Next, Run, Goes;
    var ended := Locked(Finished, [], [], true, false);
    var again := Locked(Resumed, [x, y], [], true, false);
    var w1 := World(Locked(Initialized, [], [], false, true), [Lookup], false, [], [], [], [], []);
    var w2 := w1.(threads := [Clear]);
    var w3 := World(ended, [Calling([])], false, [], [], [], [], []);
    var w4 := w3.(threads := [Ended]);
    var w5 := World(Locked(Resumed, [x], [], true, false), [Ended, Lookup], false, [x], [], [], [], []);
    var w6 := World(again, [Ended, Lookup, Lookup], false, [x, y], [], [], [], []);
    var w7 := w6.(threads := [Ended, Queued(x), Lookup]);
    var w8 := w6.(threads := [Ended, Queued(x), Queued(x)]);
    var w9 := w6.(threads := [Ended, Running(x), Queued(x)], ran := [x], standing := [x]);
    var w10 := w6.(threads := [Ended, Running(x), Running(x)], ran := [x, x], standing := [x, x]);
    Ends(w1, w2, w3, w4);
    BothAreAdded(x, y, w4, w5, w6);
    BothLookUp(x, w6, w7, w8);
    BothRun(x, w8, w9, w10);
    ws, steps := Longer([INITIAL], [], FinishStep, w1);
    ws, steps := Longer(ws, steps, ThreadStep(0), w2);
    ws, steps := Longer(ws, steps, ThreadStep(0), w3);
    ws, steps := Longer(ws, steps, ThreadStep(0), w4);
    ws, steps := Longer(ws, steps, AppendStep(x), w5);
    ws, steps := Longer(ws, steps, AppendStep(y), w6);
    ws, steps := Longer(ws, steps, ThreadStep(1), w7);
    ws, steps := Longer(ws, steps, ThreadStep(2), w8);
    ws, steps := Longer(ws, steps, ThreadStep(1), w9);
    ws, steps := Longer(ws, steps, ThreadStep(2), w10);
  }

  lemma Ends(w1: World, w2: World, w3: World, w4: World)
    requires w1 == World(Locked(Initialized, [], [], false, true), [Lookup], false, [], [], [], [], [])
    requires w2 == w1.(threads := [Clear])
    requires w3 == World(Locked(Finished, [], [], true, false), [Calling([])], false, [], [], [], [], [])
    requires w4 == w3.(threads := [Ended])
    ensures Goes(INITIAL, FinishStep, w1) && Goes(w1, ThreadStep(0), w2)
    ensures Goes(w2, ThreadStep(0), w3) && Goes(w3, ThreadStep(0), w4)
  {
  }

  lemma BothAreAdded(x: Serializer, y: Serializer, w4: World, w5: World, w6: World)
    requires w4 == World(Locked(Finished, [], [], true, false), [Ended], false, [], [], [], [], [])
    requires w5 == World(Locked(Resumed, [x], [], true, false), [Ended, Lookup], false, [x], [], [], [], [])
    requires w6 == World(Locked(Resumed, [x, y], [], true, false), [Ended, Lookup, Lookup], false, [x, y], [], [], [], [])
    ensures Goes(w4, AppendStep(x), w5) && Goes(w5, AppendStep(y), w6)
  {
  }

  lemma BothLookUp(x: Serializer, w6: World, w7: World, w8: World)
    requires w6.threads == [Ended, Lookup, Lookup] && LookupSection(w6.m) == Some(x)
    requires w7 == w6.(threads := [Ended, Queued(x), Lookup]) && w8 == w6.(threads := [Ended, Queued(x), Queued(x)])
    ensures Goes(w6, ThreadStep(1), w7) && Goes(w7, ThreadStep(2), w8)
  {
  }

  lemma BothRun(x: Serializer, w8: World, w9: World, w10: World)
    requires w8.threads == [Ended, Queued(x), Queued(x)] && w8.ran == w8.standing == []
    requires w9 == w8.(threads := [Ended, Running(x), Queued(x)], ran := [x], standing := [x])
    requires w10 == w8.(threads := [Ended, Running(x), Running(x)], ran := [x, x], standing := [x, x])
    ensures Goes(w8, ThreadStep(1), w9) && Goes(w9, ThreadStep(2), w10)
  {
  }

  /** Cancelled while its first serializer asks for a retry, a request comes to rest with no
      completion called. */
  lemma CancelledInRetry(x: Serializer, y: Serializer) returns (ws: seq<World>, steps: seq<Step>)
    ensures Run(ws, steps) && |steps| == 8 && AtRest(ws[8])
    ensures ws[8].appended == [x, y] && ws[8].ran == [x] && ws[8].called == []
  {
    assert Run([INITIAL], []);
    hide Next, Run, Goes;
    var w1 := World(Locked(Initialized, [x], [], false, false), [], true, [x], [], [], [], []);
    var w2 := World(Locked(Initialized, [x, y], [], false, false), [], true, [x, y], [], [], [], []);
    var w3 := World(Locked(Initialized, [x, y], [], false, true), [Lookup], false, [x, y], [], [], [], []);
    var w4 := w3.(threads := [Queued(x)]);
    var w5 := w3.(threads := [Running(x)], ran := [x], standing := [x]);
    var w6 := w5.(threads := [Asking(x)]);
    var w7 := w6.(m := Locked(Cancelled, [x, y], [], false, true));
    var w8 := w7.(threads := [Ended], undone := [x]);
    Begins(x, y, w1, w2, w3);
    AsksAndIsCancelled(x, y, w3, w4, w5, w6, w7, w8);
    ws, steps := Longer([INITIAL], [], AppendStep(x), w1);
    ws, steps := Longer(ws, steps, AppendStep(y), w2);
    ws, steps := Longer(ws, steps, FinishStep, w3);
    ws, steps := Longer(ws, steps, ThreadStep(0), w4);
    ws, steps := Longer(ws, steps, ThreadStep(0), w5);
    ws, steps := Longer(ws, steps, AskStep(0), w6);
    ws, steps := Longer(ws, steps, MoveStep(Cancelled), w7);
    ws, steps := Longer(ws, steps, ThreadStep(0), w8);
  }

  lemma Begins(x: Serializer, y: Serializer, w1: World, w2: World, w3: World)
    requires w1 == World(Locked(Initialized, [x], [], false, false), [], true, [x], [], [], [], [])
    requires w2 == World(Locked(Initialized, [x, y], [], false, false), [], true, [x, y], [], [], [], [])
    requires w3 == World(Locked(Initialized, [x, y], [], false, true), [Lookup], false, [x, y], [], [], [], [])
    ensures Goes(INITIAL, AppendStep(x), w1) && Goes(w1, AppendStep(y), w2) && Goes(w2, FinishStep, w3)
  {
  }

  lemma AsksAndIsCancelled(
    x: Serializer, y: Serializer, w3: World, w4: World, w5: World, w6: World, w7: World, w8: World)
    requires w3 == World(Locked(Initialized, [x, y], [], false, true), [Lookup], false, [x, y], [], [], [], [])
    requires w4 == w3.(threads := [Queued(x)])
    requires w5 == w3.(threads := [Running(x)], ran := [x], standing := [x])
    requires w6 == w5.(threads := [Asking(x)])
    requires w7 == w6.(m := Locked(Cancelled, [x, y], [], false, true))
    requires w8 == w7.(threads := [Ended], undone := [x])
    ensures Goes(w3, ThreadStep(0), w4) && Goes(w4, ThreadStep(0), w5) && Goes(w5, AskStep(0), w6)
    ensures Goes(w6, MoveStep(Cancelled), w7) && Goes(w7, ThreadStep(0), w8)
  {
  }
}
