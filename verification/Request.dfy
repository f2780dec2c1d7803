/** A request's lifecycle and the chain of its response serializers. Each section under
    the request's lock is one atomic step; everything else may happen in between. */
module RequestLifecycle {
  import opened Wrappers

  datatype State = Initialized | Resumed | Suspended | Cancelled | Finished

  predicate CanTransition(from: State, to: State) {
    match (from, to)
    case (Initialized, _) => true
    case (_, Initialized) => false
    case (Cancelled, _) => false
    case (Finished, _) => false
    case (Resumed, Cancelled) => true
    case (Suspended, Cancelled) => true
    case (Resumed, Suspended) => true
    case (Suspended, Resumed) => true
    case (Suspended, Suspended) => false
    case (Resumed, Resumed) => false
    case (_, Finished) => true
  }

  type AFError = nat

  /** A response serializer; when it is done, it hands in the completion of the same number. */
  type Serializer = nat

  /** The state under the lock. */
  datatype Locked = Locked(
    state: State,
    serializers: seq<Serializer>,
    completions: seq<Serializer>,
    processingFinished: bool,
    isFinishing: bool)

  const FRESH := Locked(Initialized, [], [], false, false)

  // ---------- Sections ----------

  /** Starts finishing, unless that is under way: whether to process serializers. */
  function FinishSection(m: Locked): (Locked, bool) {
    if m.isFinishing then (m, false) else (m.(isFinishing := true), true)
  }

  /** As many serializers are complete as there are completions; the next one is due. */
  function LookupSection(m: Locked): Option<Serializer> {
    if |m.completions| < |m.serializers| then Some(m.serializers[|m.completions|]) else None
  }

  /** The end of a chain: its completions are taken, to be called outside the lock. */
  function ClearSection(m: Locked): (Locked, seq<Serializer>) {
    (Locked(if CanTransition(m.state, Finished) then Finished else m.state, [], [], true, false), m.completions)
  }

  function CompleteSection(m: Locked, s: Serializer): Locked {
    m.(completions := m.completions + [s])
  }

  /** A serializer is added; a finished chain is taken up again. */
  function AppendSection(m: Locked, s: Serializer): (Locked, bool) {
    (m.(serializers := m.serializers + [s], state := if m.state == Finished then Resumed else m.state),
     m.processingFinished)
  }

  function ResetSection(m: Locked): Locked {
    m.(isFinishing := false, completions := [])
  }

  function MoveSection(m: Locked, to: State): (Locked, bool) {
    if CanTransition(m.state, to) then (m.(state := to), true) else (m, false)
  }

  // ---------- The object ----------

  class Request {
    var state: State
    var responseSerializers: seq<Serializer>
    var responseSerializerCompletions: seq<Serializer>
    var responseSerializerProcessingFinished: bool
    var isFinishing: bool
    var error: Option<AFError>

    /** What decides about states and serializers; the error does not. */
    ghost function St(): Locked
      reads this
    {
      Locked(state, responseSerializers, responseSerializerCompletions, responseSerializerProcessingFinished, isFinishing)
    }

    constructor ()
      ensures St() == FRESH && error == None
    {
      state := Initialized;
      responseSerializers, responseSerializerCompletions := [], [];
      responseSerializerProcessingFinished, isFinishing := false, false;
      error := None;
    }

    method Finish(reason: Option<AFError>) returns (process: bool)
      modifies this
      ensures (St(), process) == FinishSection(old(St()))
      ensures error == if process && reason.Some? then reason else old(error)
    {
      if isFinishing {
        return false;
      }
      isFinishing := true;
      if reason.Some? {
        error := reason;
      }
      return true;
    }

    method AppendResponseSerializer(s: Serializer) returns (process: bool)
      modifies this
      ensures (St(), process) == AppendSection(old(St()), s) && error == old(error)
      ensures state == if old(state) == Finished then Resumed else old(state)
    {
      responseSerializers := responseSerializers + [s];
      if state == Finished {
        state := Resumed;
      }
      return responseSerializerProcessingFinished;
    }

    method NextResponseSerializer() returns (next: Option<Serializer>)
      ensures next == LookupSection(St())
    {
      var index := |responseSerializerCompletions|;
      if index < |responseSerializers| {
        return Some(responseSerializers[index]);
      }
      return None;
    }

    method TakeCompletions() returns (completions: seq<Serializer>)
      modifies this
      ensures (St(), completions) == ClearSection(old(St())) && error == old(error)
      ensures state == if old(state) == Cancelled then Cancelled else Finished
    {
      completions := responseSerializerCompletions;
      responseSerializers := [];
      responseSerializerCompletions := [];
      if CanTransition(state, Finished) {
        state := Finished;
      }
      responseSerializerProcessingFinished := true;
      isFinishing := false;
    }

    method ResponseSerializerDidComplete(s: Serializer)
      modifies this
      ensures St() == CompleteSection(old(St()), s) && error == old(error)
    {
      responseSerializerCompletions := responseSerializerCompletions + [s];
    }

    method Reset()
      modifies this
      ensures St() == ResetSection(old(St())) && error == None
    {
      error := None;
      isFinishing := false;
      responseSerializerCompletions := [];
    }

    method Cancel() returns (moved: bool)
      modifies this
      ensures (St(), moved) == MoveSection(old(St()), Cancelled) && error == old(error)
      ensures moved <==> old(state) != Cancelled && old(state) != Finished
      ensures state == if moved then Cancelled else old(state)
    {
      if !CanTransition(state, Cancelled) {
        return false;
      }
      state := Cancelled;
      return true;
    }

    method Suspend() returns (moved: bool)
      modifies this
      ensures (St(), moved) == MoveSection(old(St()), Suspended) && error == old(error)
      ensures moved <==> old(state) != Cancelled && old(state) != Finished && old(state) != Suspended
      ensures state == if moved then Suspended else old(state)
    {
      if !CanTransition(state, Suspended) {
        return false;
      }
      state := Suspended;
      return true;
    }

    method Resume() returns (moved: bool)
      modifies this
      ensures (St(), moved) == MoveSection(old(St()), Resumed) && error == old(error)
      ensures moved <==> old(state) != Cancelled && old(state) != Finished && old(state) != Resumed
      ensures state == if moved then Resumed else old(state)
    {
      if !CanTransition(state, Resumed) {
        return false;
      }
      state := Resumed;
      return true;
    }
  }

  // ---------- Runs ----------

  /** Something under way outside the lock: about to look up the next serializer, about to
      clear at the end of a chain, a serializer waiting for its queue, running, or having
      asked for a retry instead of handing in a completion, completions being called, or
      nothing any more. */
  datatype Thread =
    | Lookup | Clear | Queued(s: Serializer) | Running(s: Serializer) | Asking(s: Serializer)
    | Calling(rest: seq<Serializer>) | Ended

  /** A request and what surrounds it. It is awaiting `finish` at first and after a retry.
      `standing` are the serializers that ran, less those that a retry took back; `undone`
      are the ones whose completions a retry took back or never got. */
  datatype World = World(
    m: Locked,
    threads: seq<Thread>,
    awaiting: bool,
    appended: seq<Serializer>,
    ran: seq<Serializer>,
    standing: seq<Serializer>,
    undone: seq<Serializer>,
    called: seq<Serializer>)

  datatype Step =
    | AppendStep(s: Serializer)
    | FinishStep
    | ResetStep
    | MoveStep(to: State)
    | AskStep(i: nat)
    | ThreadStep(i: nat)

  const INITIAL := World(FRESH, [], true, [], [], [], [], [])

  /** A failed task is retried instead of finished, a failed serializer asks for a retry. */
  predicate Enabled(w: World, s: Step) {
    match s
    case ResetStep => w.awaiting
    case MoveStep(to) => to == Cancelled || to == Suspended || to == Resumed
    case AskStep(i) => i < |w.threads| && w.threads[i].Running?
    case ThreadStep(i) => i < |w.threads| && !w.threads[i].Ended?
    case _ => true
  }

  function Spawn(w: World, yes: bool): World {
    if yes then w.(threads := w.threads + [Lookup]) else w
  }

  function Cut(s: seq<Serializer>, n: nat): seq<Serializer> {
    if n <= |s| then s[..|s| - n] else []
  }

  /** A retry: nothing, once cancelled; else the request is reset and performed again. */
  function Retried(w: World, asking: seq<Serializer>): World {
    if w.m.state == Cancelled then w.(undone := w.undone + asking)
    else w.(
      m := ResetSection(w.m),
      awaiting := true,
      standing := Cut(w.standing, |w.m.completions| + |asking|),
      undone := w.undone + w.m.completions + asking)
  }

  function Next(w: World, s: Step): World
    requires Enabled(w, s)
  {
    match s
    case AppendStep(x) =>
      var r := AppendSection(w.m, x);
      Spawn(w.(m := r.0, appended := w.appended + [x]), r.1)
    case FinishStep =>
      var r := FinishSection(w.m);
      Spawn(w.(m := r.0, awaiting := false), r.1)
    case ResetStep => Retried(w, [])
    case MoveStep(to) => w.(m := MoveSection(w.m, to).0)
    case AskStep(i) => w.(threads := w.threads[i := Asking(w.threads[i].s)])
    case ThreadStep(i) =>
      match w.threads[i]
      case Lookup =>
        w.(threads := w.threads[i := if LookupSection(w.m).Some? then Queued(LookupSection(w.m).value) else Clear])
      case Clear =>
        var r := ClearSection(w.m);
        w.(m := r.0, threads := w.threads[i := Calling(r.1)])
      case Queued(x) => w.(threads := w.threads[i := Running(x)], ran := w.ran + [x], standing := w.standing + [x])
      case Running(x) => w.(m := CompleteSection(w.m, x), threads := w.threads[i := Lookup])
      case Asking(x) => Retried(w.(threads := w.threads[i := Ended]), [x])
      case Calling(rest) =>
        if rest == [] then w.(threads := w.threads[i := Ended])
        else w.(threads := w.threads[i := Calling(rest[1..])], called := w.called + [rest[0]])
      case Ended => w
  }

  predicate Run(ws: seq<World>, steps: seq<Step>) {
    && |ws| == |steps| + 1 && ws[0] == INITIAL
    && forall i | 0 <= i < |steps| :: Enabled(ws[i], steps[i]) && ws[i + 1] == Next(ws[i], steps[i])
  }

  /** In every run, once cancelled, a request stays cancelled. */
  lemma {:induction false} CancelledForGood(ws: seq<World>, steps: seq<Step>, i: nat, j: nat)
    requires Run(ws, steps) && i <= j < |ws| && ws[i].m.state == Cancelled
    ensures ws[j].m.state == Cancelled
    decreases j
  {
    hide Next;
    if i < j {
      CancelledForGood(ws, steps, i, j - 1);
      StateMoves(ws[j - 1], steps[j - 1]);
    }
  }

  /** A step leaves the state, moves it as permitted, or takes up a finished request again. */
  lemma StateMoves(w: World, s: Step)
    requires Enabled(w, s)
    ensures var a, b := w.m.state, Next(w, s).m.state;
      a == b || CanTransition(a, b) || (a == Finished && b == Resumed && s.AppendStep?)
  {
    hide Cut, LookupSection;
  }

  /** A request is resumed, suspended or cancelled unless it is cancelled, finished, or is so
      already; and the state says so. */
  lemma MoveOutcome(m: Locked, to: State)
    requires to == Cancelled || to == Suspended || to == Resumed
    ensures MoveSection(m, to) ==
      if m.state == Cancelled || m.state == Finished || m.state == to then (m, false) else (m.(state := to), true)
    ensures ClearSection(m).0.state == if m.state == Cancelled then Cancelled else Finished
  {
  }

  /** In every run a finished request has no serializers left to run. */
  lemma {:induction false} FinishedIsServed(ws: seq<World>, steps: seq<Step>, i: nat)
    requires Run(ws, steps) && i < |ws| && ws[i].m.state == Finished
    ensures ws[i].m.serializers == [] && ws[i].m.processingFinished
  {
    hide Next;
    if i > 0 {
      if ws[i - 1].m.state == Finished { FinishedIsServed(ws, steps, i - 1); }
      FinishedStep(ws[i - 1], steps[i - 1]);
    }
  }

  lemma FinishedStep(w: World, s: Step)
    requires Enabled(w, s) && Next(w, s).m.state == Finished
    requires w.m.state == Finished ==> w.m.serializers == [] && w.m.processingFinished
    ensures Next(w, s).m.serializers == [] && Next(w, s).m.processingFinished
  {
    hide Cut, LookupSection;
  }

  /** Where no retry took anything back, all that ran stands. */
  lemma {:induction false} AllStands(ws: seq<World>, steps: seq<Step>, i: nat)
    requires Run(ws, steps) && i < |ws| && ws[i].undone == []
    ensures ws[i].standing == ws[i].ran
  {
    hide Next;
    if i > 0 {
      StandingStep(ws[i - 1], steps[i - 1]);
      AllStands(ws, steps, i - 1);
    }
  }

  lemma StandingStep(w: World, s: Step)
    requires Enabled(w, s) && Next(w, s).undone == []
    ensures w.undone == [] && (w.standing == w.ran ==> Next(w, s).standing == Next(w, s).ran)
  {
    hide CanTransition, LookupSection;
  }

  // ---------- One chain ----------

  /** A step of a run with one chain: serializers are added before it has ended. */
  predicate ChainStep(w: World, s: Step) {
    Enabled(w, s) && (s.AppendStep? ==> !w.m.processingFinished)
  }

  predicate ChainRun(ws: seq<World>, steps: seq<Step>) {
    Run(ws, steps) && forall i | 0 <= i < |steps| :: ChainStep(ws[i], steps[i])
  }

  /** A serializer is added after the chain looked for another one and before it clears. */
  predicate Late(w: World, s: Step) {
    s.AppendStep? && Clear in w.threads
  }

  /** The retry that a serializer asked for finds the request cancelled. */
  predicate Strands(w: World, s: Step)
    requires Enabled(w, s)
  {
    s.ThreadStep? && w.threads[s.i].Asking? && w.m.state == Cancelled
  }

  predicate NoneLate(ws: seq<World>, steps: seq<Step>, i: nat)
    requires i <= |steps| && |steps| <= |ws|
  {
    forall j | 0 <= j < i :: !Late(ws[j], steps[j])
  }

  predicate NoneStrands(ws: seq<World>, steps: seq<Step>, i: nat)
    requires Run(ws, steps) && i < |ws|
  {
    forall j | 0 <= j < i :: !Strands(ws[j], steps[j])
  }

  predicate AllEnded(threads: seq<Thread>) {
    forall i | 0 <= i < |threads| :: threads[i] == Ended
  }

  /** Before `finish`, at first or after a retry. */
  predicate Waiting(w: World) {
    && w.awaiting && AllEnded(w.threads) && w.standing == [] && w.called == []
    && w.m.serializers == w.appended && w.m.completions == []
    && !w.m.isFinishing && !w.m.processingFinished
  }

  /** While serializers run: one thread, the last; the serializers before number `k` are
      complete. */
  predicate Processing(w: World) {
    && !w.awaiting && |w.threads| >= 1 && AllEnded(w.threads[..|w.threads| - 1]) && w.called == []
    && w.m.isFinishing && !w.m.processingFinished && w.m.serializers == w.appended
    && (var k := |w.m.completions|;
        && k <= |w.appended| && w.m.completions == w.appended[..k]
        && match w.threads[|w.threads| - 1]
           case Lookup => w.standing == w.appended[..k]
           case Queued(x) => k < |w.appended| && x == w.appended[k] && w.standing == w.appended[..k]
           case Running(x) => k < |w.appended| && x == w.appended[k] && w.standing == w.appended[..k + 1]
           case Asking(x) => k < |w.appended| && x == w.appended[k] && w.standing == w.appended[..k + 1]
           case Clear => w.standing == w.appended[..k]
           case _ => false)
  }

  /** A thread that a repeated `finish` left: it finds nothing to do. */
  predicate Idle(t: Thread) {
    t == Lookup || t == Clear || t == Calling([]) || t == Ended
  }

  /** After the chain: thread `c` calls what is left to call, in order. */
  predicate CompletedAt(w: World, c: nat) {
    && !w.awaiting && c < |w.threads| && w.standing <= w.appended
    && w.m.serializers == [] && w.m.completions == [] && w.m.processingFinished
    && (match w.threads[c]
        case Calling(rest) => w.called + rest == w.standing
        case Ended => w.called == w.standing
        case _ => false)
    && (forall i | 0 <= i < |w.threads| && i != c :: Idle(w.threads[i]))
  }

  predicate Completed(w: World) {
    exists c: nat | c < |w.threads| :: CompletedAt(w, c)
  }

  /** After a retry that found the request cancelled: finishing, with nothing under way. */
  predicate Stranded(w: World) {
    && !w.awaiting && AllEnded(w.threads) && w.standing <= w.appended && w.called == []
    && w.m.isFinishing && !w.m.processingFinished && w.m.serializers == w.appended != []
  }

  /** A serializer is lost: the chain will not run it, or did not. */
  predicate Lost(w: World) {
    w.standing != w.appended && (w.m.processingFinished || Clear in w.threads)
  }

  predicate ChainInv(w: World) {
    Waiting(w) || Processing(w) || Completed(w) || Stranded(w)
  }

  lemma WaitingStep(w: World, s: Step)
    requires Waiting(w) && ChainStep(w, s)
    ensures Waiting(Next(w, s)) || Processing(Next(w, s))
    ensures !Late(w, s) && !Strands(w, s) && !(Clear in Next(w, s).threads) && !Next(w, s).m.processingFinished
  {
    hide CanTransition;
    assert w.appended[..0] == [];
    var w' := Next(w, s);
    if s == FinishStep { assert w'.threads[..|w'.threads| - 1] == w.threads; }
    forall t | t in w'.threads ensures t != Clear {
      var i :| 0 <= i < |w'.threads| && w'.threads[i] == t;
    }
  }

  /** The last thread steps. */
  lemma ProcessingThread(w: World)
    requires Processing(w)
    ensures var w' := Next(w, ThreadStep(|w.threads| - 1));
      var t := w.threads[|w.threads| - 1];
      if t.Asking? then (if w.m.state == Cancelled then Stranded(w') else Waiting(w'))
      else if t.Clear? then CompletedAt(w', |w.threads| - 1)
      else Processing(w')
  {
    hide CanTransition;
    var k := |w.m.completions|;
    var last := |w.threads| - 1;
    var w' := Next(w, ThreadStep(last));
    assert w'.threads[..last] == w.threads[..last];
    forall i | 0 <= i < last ensures w.threads[i] == Ended == w'.threads[i] {
      assert w.threads[..last][i] == Ended;
    }
    if k < |w.appended| {
      assert w.appended[..k] + [w.appended[k]] == w.appended[..k + 1];
      assert Cut(w.appended[..k + 1], k + 1) == [];
    } else {
      assert w.appended[..k] == w.appended;
    }
    assert [] + w'.standing == w'.standing;
  }

  lemma OnlyLastIsLive(w: World, i: nat)
    requires Processing(w) && i < |w.threads| && w.threads[i] != Ended
    ensures i == |w.threads| - 1
  {
    assert forall j | 0 <= j < |w.threads| - 1 :: w.threads[..|w.threads| - 1][j] == w.threads[j];
  }

  lemma LostInChain(w: World)
    requires Processing(w)
    ensures Clear in w.threads <==> w.threads[|w.threads| - 1] == Clear
  {
    if Clear in w.threads {
      var i :| 0 <= i < |w.threads| && w.threads[i] == Clear;
      OnlyLastIsLive(w, i);
    }
  }

  lemma AddedInChain(w: World, x: Serializer)
    requires Processing(w)
    ensures Processing(Next(w, AppendStep(x)))
    ensures Lost(Next(w, AppendStep(x))) <==> Clear in w.threads
  {
    var k := |w.m.completions|;
    var w' := Next(w, AppendStep(x));
    assert w'.appended[..k] == w.appended[..k];
    assert k < |w.appended| ==> w'.appended[..k + 1] == w.appended[..k + 1];
    assert |w.standing| <= |w.appended|;
  }

  lemma ProcessingStep(w: World, s: Step)
    requires Processing(w) && ChainStep(w, s)
    ensures ChainInv(Next(w, s))
    ensures Lost(Next(w, s)) <==> Lost(w) || Late(w, s)
    ensures Stranded(Next(w, s)) <==> Strands(w, s)
  {
    hide CanTransition, Processing, Waiting, Stranded, CompletedAt;
    LostInChain(w);
    var w' := Next(w, s);
    match s
    case AppendStep(x) => AddedInChain(w, x); NotBoth(w');
    case ThreadStep(i) =>
      OnlyLastIsLive(w, i);
      ProcessingThread(w);
      ProcessingLost(w);
    case AskStep(i) =>
      OnlyLastIsLive(w, i);
      AskedInChain(w);
    case _ => QuietInChain(w, s);
  }

  lemma NotBoth(w: World)
    requires Processing(w)
    ensures !Stranded(w)
  {
    var t := w.threads[|w.threads| - 1];
  }

  lemma ProcessingLost(w: World)
    requires Processing(w)
    ensures var last := |w.threads| - 1;
      var w' := Next(w, ThreadStep(last));
      && (Lost(w') <==> Lost(w))
      && (Stranded(w') <==> w.threads[last].Asking? && w.m.state == Cancelled)
  {
    hide CanTransition;
    ProcessingThread(w);
    var last := |w.threads| - 1;
    var w' := Next(w, ThreadStep(last));
    LostInChain(w);
    if w.threads[last].Asking? {
      forall t | t in w'.threads ensures t != Clear {
        var i :| 0 <= i < |w'.threads| && w'.threads[i] == t;
        assert i < last ==> w.threads[..last][i] == Ended;
      }
    } else if !w.threads[last].Clear? {
      LostInChain(w');
      var k := |w.m.completions|;
      assert k == |w.appended| ==> w.appended[..k] == w.appended;
    }
  }

  lemma AskedInChain(w: World)
    requires Processing(w) && w.threads[|w.threads| - 1].Running?
    ensures var w' := Next(w, AskStep(|w.threads| - 1)); Processing(w') && !Lost(w') && !Lost(w) && !Stranded(w')
  {
    var last := |w.threads| - 1;
    var w' := Next(w, AskStep(last));
    assert w'.threads[..last] == w.threads[..last];
    LostInChain(w);
    LostInChain(w');
  }

  lemma QuietInChain(w: World, s: Step)
    requires Processing(w) && ChainStep(w, s) && (s == FinishStep || s.MoveStep? || s == ResetStep)
    ensures Processing(Next(w, s)) && (Lost(Next(w, s)) <==> Lost(w)) && !Stranded(Next(w, s))
  {
    hide CanTransition;
    NotBoth(Next(w, s));
  }

  lemma CompletedStep(w: World, s: Step, c: nat)
    requires CompletedAt(w, c) && ChainStep(w, s)
    ensures CompletedAt(Next(w, s), c) && !Late(w, s) && !Strands(w, s) && !Stranded(Next(w, s))
    ensures Lost(Next(w, s)) <==> Lost(w)
  {
    hide CanTransition;
    if s.ThreadStep? && w.threads[s.i].Calling? && w.threads[s.i].rest != [] {
      var rest := w.threads[s.i].rest;
      assert s.i == c;
      assert w.called + [rest[0]] + rest[1..] == w.called + rest;
    }
  }

  lemma StrandedStep(w: World, s: Step)
    requires Stranded(w) && ChainStep(w, s)
    ensures Stranded(Next(w, s)) && !Lost(Next(w, s)) && !Late(w, s) && !Strands(w, s)
  {
    hide CanTransition;
    var w' := Next(w, s);
    forall t | t in w'.threads ensures t != Clear {
      var i :| 0 <= i < |w'.threads| && w'.threads[i] == t;
    }
  }

  lemma {:induction false} ChainKeeps(ws: seq<World>, steps: seq<Step>, i: nat)
    requires ChainRun(ws, steps) && i < |ws|
    ensures ChainInv(ws[i])
    ensures Lost(ws[i]) <==> !NoneLate(ws, steps, i)
    ensures Stranded(ws[i]) <==> !NoneStrands(ws, steps, i)
  {
    hide Next, ChainInv, Enabled, ChainStep, Lost, Late, Stranded, Strands;
    if i == 0 {
      InitialInv();
    } else {
      var w, s := ws[i - 1], steps[i - 1];
      ChainKeeps(ws, steps, i - 1);
      assert ChainStep(w, s);
      ChainInvStep(w, s);
      assert NoneLate(ws, steps, i) <==> (NoneLate(ws, steps, i - 1) && !Late(w, s));
      assert NoneStrands(ws, steps, i) <==> (NoneStrands(ws, steps, i - 1) && !Strands(w, s));
    }
  }

  lemma InitialInv()
    ensures ChainInv(INITIAL) && !Lost(INITIAL) && !Stranded(INITIAL)
  {
  }

  lemma ChainInvStep(w: World, s: Step)
    requires ChainInv(w) && ChainStep(w, s)
    ensures ChainInv(Next(w, s))
    ensures Lost(Next(w, s)) <==> Lost(w) || Late(w, s)
    ensures Stranded(Next(w, s)) <==> Stranded(w) || Strands(w, s)
  {
    hide Next, CompletedAt, Late, Strands;
    if Waiting(w) {
      WaitingStep(w, s);
      forall t | t in w.threads ensures t != Clear {
        var i :| 0 <= i < |w.threads| && w.threads[i] == t;
      }
      if Processing(Next(w, s)) { NotBoth(Next(w, s)); }
    } else if Processing(w) {
      ProcessingStep(w, s);
      NotBoth(w);
    } else if Completed(w) {
      var c: nat :| c < |w.threads| && CompletedAt(w, c);
      CompletedStep(w, s, c);
      CompletedHolds(w, c);
      CompletedHolds(Next(w, s), c);
    } else {
      StrandedStep(w, s);
      forall t | t in w.threads ensures t != Clear {
        var i :| 0 <= i < |w.threads| && w.threads[i] == t;
      }
    }
  }

  lemma CompletedHolds(w: World, c: nat)
    requires CompletedAt(w, c)
    ensures Completed(w) && !Stranded(w)
  {
  }

  /** Finished, with nothing under way any more. */
  predicate AtRest(w: World) {
    !w.awaiting && AllEnded(w.threads)
  }

  /** In a run with one chain, under any number of `finish` calls, retries and state changes:
      what stands of the serializers that ran is in order, each once; their completions are
      called in order, each once, and none before the last serializer ran; and at rest every
      serializer that was added has been completed if and only if none was added late and no
      retry found the request cancelled. */
  lemma SerializersRunInOrder(ws: seq<World>, steps: seq<Step>, i: nat)
    requires ChainRun(ws, steps) && i < |ws|
    ensures var w := ws[i];
      && w.called <= w.standing <= w.appended
      && (w.undone == [] ==> w.ran == w.standing)
      && (w.called != [] ==> (w.standing == w.appended <==> NoneLate(ws, steps, i)))
      && (AtRest(w) ==> (w.called == w.appended <==> NoneLate(ws, steps, i) && NoneStrands(ws, steps, i)))
  {
    hide Next, ChainStep, Run, NoneLate, NoneStrands;
    ChainKeeps(ws, steps, i);
    var w := ws[i];
    if w.undone == [] { AllStands(ws, steps, i); }
    if Completed(w) {
      var c: nat :| c < |w.threads| && CompletedAt(w, c);
      CompletedHolds(w, c);
    }
  }

  /** A serializer added between the last look-up of a chain and its clearing never runs. */
  lemma LateIsLost(x: Serializer) returns (ws: seq<World>, steps: seq<Step>)
    ensures ChainRun(ws, steps) && |steps| == 5 && !NoneLate(ws, steps, 5)
    ensures ws[5].appended == [x] && ws[5].ran == [] && AtRest(ws[5])
  {
    steps := [FinishStep, ThreadStep(0), AppendStep(x), ThreadStep(0), ThreadStep(0)];
    var w1 := Next(INITIAL, FinishStep);
    var w2 := Next(w1, ThreadStep(0));
    var w3 := Next(w2, AppendStep(x));
    var w4 := Next(w3, ThreadStep(0));
    var w5 := Next(w4, ThreadStep(0));
    ws := [INITIAL, w1, w2, w3, w4, w5];
    assert Late(ws[2], steps[2]) by { assert w2.threads == [Clear]; }
    assert w5.threads == [Ended];
  }

  /** A chain never halts half way: until all is completed, or a retry is awaited or found
      the request cancelled, something can take a step. */
  lemma ChainNeverStuck(ws: seq<World>, steps: seq<Step>, i: nat)
    requires ChainRun(ws, steps) && i < |ws| && !ws[i].awaiting && NoneStrands(ws, steps, i)
    ensures (ws[i].m.processingFinished && ws[i].called == ws[i].standing)
         || exists k | 0 <= k < |ws[i].threads| :: ChainStep(ws[i], ThreadStep(k))
  {
    hide Next, Run, NoneLate, NoneStrands, Lost;
    ChainKeeps(ws, steps, i);
    var w := ws[i];
    if Processing(w) {
      assert ChainStep(w, ThreadStep(|w.threads| - 1));
    } else {
      var c: nat :| c < |w.threads| && CompletedAt(w, c);
      if w.called != w.standing { assert ChainStep(w, ThreadStep(c)); }
    }
  }

  /** How much thread `i` of a chain has left to do. */
  function Remaining(w: World, i: nat): nat
    requires i < |w.threads| && |w.m.completions| <= |w.appended|
  {
    var k := |w.m.completions|;
    match w.threads[i]
    case Lookup => 5 * (|w.appended| - k) + |w.appended| + 5
    case Queued(_) => 5 * (|w.appended| - k) + |w.appended| + 4
    case Running(_) => 5 * (|w.appended| - k) + |w.appended| + 3
    case Asking(_) => 1
    case Clear => |w.appended| + 3
    case Calling(rest) => |rest| + 1
    case Ended => 0
  }

  /** The thread that drives the chain. */
  predicate Drives(w: World, i: nat) {
    (Processing(w) && i == |w.threads| - 1) || CompletedAt(w, i)
  }

  /** Each of its steps shortens what is left, and nothing lengthens it but an addition: a
      chain whose thread keeps being scheduled ends, or ends its attempt with a retry. */
  lemma ChainEnds(w: World, s: Step, i: nat)
    requires Drives(w, i) && ChainStep(w, s)
    ensures |Next(w, s).threads| > i && |Next(w, s).m.completions| <= |Next(w, s).appended|
    ensures !s.AppendStep? ==> Remaining(Next(w, s), i) <= Remaining(w, i)
    ensures s == ThreadStep(i) ==> Remaining(Next(w, s), i) < Remaining(w, i)
  {
    hide CanTransition;
    if Processing(w) && s.ThreadStep? { OnlyLastIsLive(w, s.i); }
    if Processing(w) && s.AskStep? { OnlyLastIsLive(w, s.i); }
  }
}
