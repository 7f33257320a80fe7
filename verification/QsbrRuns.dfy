/** What runs of the reclamation protocol (src/core/qsbr.rs) achieve: what a writer replaces is
    freed, single calls do what they say among any interference, and a pass that nothing
    disturbs is the sequential `maintenance`. */
module QsbrRuns {
  import opened Options
  import opened Qsbr

  /// Reclamation makes progress

  /** An object waits in the queue with a tag below `b`. */
  ghost predicate Waits(g: seq<GarbageEntry>, o: Obj, b: nat) {
    exists i :: 0 <= i < |g| && g[i].obj == o && g[i].epoch < b
  }

  /** Threads that entered since the epoch was `b` hold no older epoch. */
  ghost predicate Recent(s: State, since: set<Tid>, b: nat) {
    forall t :: t in since ==> t in s.threads && RecentThread(s.threads[t], b)
  }

  ghost predicate RecentThread(th: Thread, b: nat) {
    match th.pc
    case Entering(g) => g >= b && th.localEpoch == 0
    case Pinned => th.localEpoch >= b
    case _ => th.localEpoch == 0
  }

  /** The object has been dropped, or it waits for the pass that is under way, which will not
      find a minimum below `b`. */
  ghost predicate Due(s: State, o: Obj, b: nat) {
    || o in s.dropped
    || match s.writer
       case Running => false
       case Bumped => Waits(s.garbage, o, b)
       case Started(current) => current >= b && Waits(s.garbage, o, b)
       case Scanning(w) => w.current >= b && w.minEpoch >= b && Waits(s.garbage, o, b)
       case Sampling(w) => w.current >= b && w.minEpoch >= b && Waits(s.garbage, o, b)
       case Sweeping(m, _, _, todo, _) => m >= b && Waits(todo, o, b)
  }

  /** Who has started to enter, one step later. */
  function Since(since: set<Tid>, step: Step): set<Tid> {
    if step.LoadEpoch? then since + {step.t} else since
  }

  /** A sample is 0, or of a thread that has entered since. */
  predicate Timely(s: State, since: set<Tid>, step: Step)
    requires Enabled(s, step)
  {
    step.ReadEpoch? ==>
      var t := s.writer.walk.cur.value;
      s.threads[t].localEpoch == 0 || t in since
  }

  /** During a run every sample is 0, or of a thread whose last `enter` began in this run. */
  ghost predicate AllTimely(s: State, since: set<Tid>, steps: seq<Step>)
    requires Legal(s, steps)
    decreases |steps|
  {
    steps == [] || (Timely(s, since, steps[0]) && AllTimely(Apply(s, steps[0]), Since(since, steps[0]), steps[1..]))
  }

  lemma RecentStep(s: State, step: Step, since: set<Tid>, b: nat)
    requires Enabled(s, step) && Recent(s, since, b) && b <= s.epoch
    requires step.LoadEpoch? ==> ThreadOk(s, step.t)
    ensures b <= Apply(s, step).epoch && Recent(Apply(s, step), Since(since, step), b)
  {
  }

  lemma DueStep(s: State, step: Step, since: set<Tid>, b: nat, o: Obj)
    requires Enabled(s, step) && Due(s, o, b) && Recent(s, since, b) && b <= s.epoch && Timely(s, since, step)
    requires !step.EndSweep? && !s.writer.Running?
    ensures Due(Apply(s, step), o, b) && !Apply(s, step).writer.Running?
  {
    hide Recent, Waits;
    match step
    case ReadEpoch =>
      RecentSample(s, since, b, s.writer.walk.cur.value);
    case SweepOne =>
      if o !in s.dropped {
        WaitsOn(s.writer.todo, o, b);
      }
    case _ =>
  }

  lemma RecentSample(s: State, since: set<Tid>, b: nat, t: Tid)
    requires t in s.threads && Recent(s, since, b) && (s.threads[t].localEpoch == 0 || t in since)
    ensures s.threads[t].localEpoch == 0 || s.threads[t].localEpoch >= b
  {
  }

  lemma WaitsOn(todo: seq<GarbageEntry>, o: Obj, b: nat)
    requires todo != [] && Waits(todo, o, b)
    ensures (todo[0].obj == o && todo[0].epoch < b) || Waits(todo[1..], o, b)
  {
    var i :| 0 <= i < |todo| && todo[i].obj == o && todo[i].epoch < b;
    if i > 0 {
      assert todo[1..][i - 1] == todo[i];
    }
  }

  lemma {:induction false} DueRun(s: State, steps: seq<Step>, since: set<Tid>, b: nat, o: Obj)
    requires Inv(s) && Legal(s, steps) && AllTimely(s, since, steps)
    requires Due(s, o, b) && Recent(s, since, b) && b <= s.epoch && !s.writer.Running?
    requires forall i :: 0 <= i < |steps| ==> !steps[i].EndSweep?
    ensures Due(After(s, steps), o, b) && !After(s, steps).writer.Running?
    decreases |steps|
  {
    hide Inv, Apply, Enabled, Due, Recent, Timely;
    if steps == [] {
      assert After(s, steps) == s;
    } else {
      var step, s1 := steps[0], Apply(s, steps[0]);
      assert !step.EndSweep?;
      StepInv(s, step);
      ThreadsAreOk(s, step);
      RecentStep(s, step, since, b);
      DueStep(s, step, since, b, o);
      assert forall i :: 0 <= i < |steps[1..]| ==> steps[1..][i] == steps[i + 1];
      DueRun(s1, steps[1..], Since(since, step), b, o);
    }
  }

  lemma ThreadsAreOk(s: State, step: Step)
    requires Inv(s) && Enabled(s, step)
    ensures step.LoadEpoch? ==> ThreadOk(s, step.t)
  {
    hide ListInv, ObjectsInv, HeldInv, TagsInv, ScanInv;
  }

  /** Before a pass everything that was published and no longer is waits in the queue. */
  lemma BumpMakesDue(s: State, o: Obj)
    requires Enabled(s, Bump) && Inv(s) && Somewhere(s, o) && !Current(s.cells, o)
    ensures var s' := Apply(s, Bump);
            Due(s', o, s'.epoch) && Recent(s', {}, s'.epoch) && !s'.writer.Running?
  {
    hide ThreadsInv, ListInv, ObjectsInv, HeldInv, ScanInv;
    if o !in s.dropped {
      var i :| 0 <= i < |s.garbage| && s.garbage[i].obj == o;
      assert s.garbage[i].epoch < s.epoch + 1;
    }
  }

  lemma DeferredStep(s: State, step: Step, o: Obj)
    requires Enabled(s, step) && Inv(s) && (Retired(Garbage(s), o) || o in s.dropped)
    ensures var s' := Apply(s, step); Retired(Garbage(s'), o) || o in s'.dropped
  {
    hide ThreadsInv, ListInv, ObjectsInv, HeldInv, TagsInv, ScanInv;
    if Retired(Garbage(s), o) {
      var g := Garbage(s);
      var i :| 0 <= i < |g| && g[i].obj == o;
      var s' := Apply(s, step);
      match step
      case Defer(p) => assert Garbage(s')[i] == g[i];
      case SweepOne =>
        var w := s.writer;
        if w.todo[0].epoch >= w.minEpoch {
          assert Garbage(s') == g;
        } else if i < |w.kept| {
          assert Garbage(s')[i] == g[i];
        } else if i > |w.kept| {
          assert Garbage(s')[i - 1] == g[i];
        }
      case _ => assert Garbage(s') == g;
    }
  }

  ghost predicate Somewhere(s: State, o: Obj) {
    Current(s.cells, o) || o in s.pending || Retired(Garbage(s), o) || o in s.dropped
  }

  lemma SomewhereStep(s: State, step: Step, o: Obj)
    requires Enabled(s, step) && Inv(s) && (Somewhere(s, o) || s.unused <= o < Apply(s, step).unused)
    ensures Somewhere(Apply(s, step), o)
  {
    hide Inv;
    var s' := Apply(s, step);
    if Retired(Garbage(s), o) || o in s.dropped {
      DeferredStep(s, step, o);
    } else {
      match step
      case Defer(p) =>
        assert Garbage(s')[|s.garbage|].obj == p;
      case Swap(c) =>
        assert s'.cells[c] == s.unused;
        if Current(s.cells, o) {
          var d :| d in s.cells && s.cells[d] == o;
          assert d != c ==> s'.cells[d] == o;
        }
      case _ => assert s'.cells == s.cells && s'.pending == s.pending && s'.unused == s.unused;
    }
  }

  /** No object leaks: whatever was published, before a run or during it, is published still,
      pending, in the queue, or dropped. */
  lemma {:induction false} NothingLeaks(s: State, steps: seq<Step>, o: Obj)
    requires Legal(s, steps) && Inv(s) && (Somewhere(s, o) || s.unused <= o < After(s, steps).unused)
    ensures Somewhere(After(s, steps), o)
    decreases |steps|
  {
    hide Inv, Apply, Enabled, Somewhere;
    if steps == [] {
      assert After(s, steps) == s;
    } else {
      var s1 := Apply(s, steps[0]);
      StepInv(s, steps[0]);
      if Somewhere(s, o) || s.unused <= o < s1.unused {
        SomewhereStep(s, steps[0], o);
      }
      NothingLeaks(s1, steps[1..], o);
    }
  }

  lemma DueEnds(s: State, b: nat, o: Obj)
    requires Due(s, o, b) && Enabled(s, EndSweep)
    ensures o in Apply(s, EndSweep).dropped
  {
  }

  /** Reclamation makes progress. What a writer has replaced is freed: an object that was
      published once, and no longer is when a pass begins, has been dropped when that pass ends,
      if every online worker that the pass finds pinned entered after the pass began. */
  lemma ReplacedIsFreed(init: State, before: seq<Step>, between: seq<Step>, during: seq<Step>, o: Obj)
    requires Init(init) && Legal(init, before) && Legal(After(init, before), between)
    requires Current(After(init, before).cells, o)
    requires Enabled(After(After(init, before), between), Bump)
    requires !Current(After(After(init, before), between).cells, o)
    requires Legal(Apply(After(After(init, before), between), Bump), during)
    requires AllTimely(Apply(After(After(init, before), between), Bump), {}, during)
    requires forall i :: 0 <= i < |during| ==> !during[i].EndSweep?
    requires Enabled(After(Apply(After(After(init, before), between), Bump), during), EndSweep)
    ensures o in Apply(After(Apply(After(After(init, before), between), Bump), during), EndSweep).dropped
  {
    hide Inv, Init, Apply, Enabled, After, Legal, Due, Recent, AllTimely, Retired, Current, Garbage;
    var s := After(init, before);
    var s0 := After(s, between);
    var s1 := Apply(s0, Bump);
    InitInv(init);
    RunInv(init, before);
    NothingLeaks(s, between, o);
    RunInv(s, between);
    StepInv(s0, Bump);
    BumpMakesDue(s0, o);
    DueRun(s1, during, {}, s1.epoch, o);
    DueEnds(After(s1, during), s1.epoch, o);
  }

  /// Single calls, whatever the other threads do meanwhile

  /** A thread that has begun to `enter` pins the epoch that it loaded, until it leaves. */
  lemma {:induction false} EnterPins(s: State, steps: seq<Step>, t: Tid, e: nat)
    requires Legal(s, steps) && t in s.threads && Pins(s.threads[t], e)
    requires forall i :: 0 <= i < |steps| ==> steps[i] != Leave(t)
    ensures t in After(s, steps).threads && Pins(After(s, steps).threads[t], e)
    decreases |steps|
  {
    if steps == [] {
      assert After(s, steps) == s;
    } else {
      assert steps[0] != Leave(t);
      PinsStep(s, steps[0], t, e);
      hide Enabled, Apply, Pins;
      assert forall i :: 0 <= i < |steps[1..]| ==> steps[1..][i] == steps[i + 1];
      EnterPins(Apply(s, steps[0]), steps[1..], t, e);
    }
  }

  predicate Pins(th: Thread, e: nat) {
    th.pc == Entering(e) || (th.pc.Pinned? && th.localEpoch == e)
  }

  lemma PinsStep(s: State, step: Step, t: Tid, e: nat)
    requires Enabled(s, step) && t in s.threads && Pins(s.threads[t], e) && step != Leave(t)
    ensures t in Apply(s, step).threads && Pins(Apply(s, step).threads[t], e)
  {
  }

  /** `enter` publishes the epoch that was current when it loaded it. */
  lemma EnterTakesEpoch(s: State, t: Tid, during: seq<Step>)
    requires Enabled(s, LoadEpoch(t)) && Legal(Apply(s, LoadEpoch(t)), during)
    requires forall i :: 0 <= i < |during| ==> during[i] != Leave(t)
    ensures var s' := After(Apply(s, LoadEpoch(t)), during);
            t in s'.threads && (s'.threads[t].pc.Pinned? ==> s'.threads[t].localEpoch == s.epoch)
  {
    EnterPins(Apply(s, LoadEpoch(t)), during, t, s.epoch);
  }

  /** Whether `t` is offline after these steps. */
  function LastSet(offline: bool, steps: seq<Step>, t: Tid): bool {
    if steps == [] then offline
    else
      var last := steps[|steps| - 1];
      if last == GoOffline(t) then true
      else if last == GoOnline(t) then false
      else LastSet(offline, steps[..|steps| - 1], t)
  }

  /** A worker is offline exactly when it was the last thing it said. */
  lemma {:induction false} OfflineIsLastSet(s: State, steps: seq<Step>, t: Tid)
    requires Legal(s, steps) && t in s.threads
    ensures t in After(s, steps).threads
    ensures After(s, steps).threads[t].offline == LastSet(s.threads[t].offline, steps, t)
    decreases |steps|
  {
    if steps == [] {
      assert After(s, steps) == s;
    } else {
      var n := |steps| - 1;
      LegalSplit(s, steps, n);
      assert steps[n..] == [steps[n]];
      OfflineIsLastSet(s, steps[..n], t);
      OneStep(After(s, steps[..n]), steps[n]);
    }
  }

  lemma OneStep(s: State, step: Step)
    requires Legal(s, [step])
    ensures Enabled(s, step) && After(s, [step]) == Apply(s, step)
  {
    assert [step][1..] == [];
  }

  lemma FirstStep(s: State, steps: seq<Step>)
    requires Legal(s, steps) && steps != []
    ensures Enabled(s, steps[0]) && Legal(Apply(s, steps[0]), steps[1..])
    ensures After(s, steps) == After(Apply(s, steps[0]), steps[1..])
  {
    hide Enabled, Apply;
  }

  lemma StepInFront(s: State, steps: seq<Step>)
    requires steps != [] && Enabled(s, steps[0]) && Legal(Apply(s, steps[0]), steps[1..])
    ensures Legal(s, steps) && After(s, steps) == After(Apply(s, steps[0]), steps[1..])
  {
    hide Enabled, Apply;
  }

  lemma NoSteps(s: State)
    ensures Legal(s, []) && After(s, []) == s
  {
  }

  lemma {:induction false} LegalSplit(s: State, steps: seq<Step>, n: nat)
    requires Legal(s, steps) && n <= |steps|
    ensures Legal(s, steps[..n]) && Legal(After(s, steps[..n]), steps[n..])
    ensures After(After(s, steps[..n]), steps[n..]) == After(s, steps)
    decreases n
  {
    hide Enabled, Apply, Legal, After;
    if n == 0 {
      NoSteps(s);
      assert steps[..n] == [] && steps[n..] == steps;
    } else {
      FirstStep(s, steps);
      LegalSplit(Apply(s, steps[0]), steps[1..], n - 1);
      assert steps[..n][1..] == steps[1..][..n - 1] && steps[1..][n - 1..] == steps[n..];
      StepInFront(s, steps[..n]);
    }
  }

  /** Between the load of the head and the compare-exchange a registration remembers the head. */
  lemma {:induction false} HeadRemembered(s: State, steps: seq<Step>, t: Tid, h: Option<Tid>)
    requires Legal(s, steps) && t in s.threads
    requires s.threads[t].pc == HeadLoaded(h) || s.threads[t].pc == Linked(h)
    requires forall i :: 0 <= i < |steps| ==> steps[i] != CompareExchange(t)
    ensures var s' := After(s, steps);
            t in s'.threads && (s'.threads[t].pc == HeadLoaded(h) || s'.threads[t].pc == Linked(h))
    decreases |steps|
  {
    if steps == [] {
      assert After(s, steps) == s;
    } else {
      assert steps[0] != CompareExchange(t);
      HeadRememberedStep(s, steps[0], t, h);
      hide Enabled, Apply;
      assert forall i :: 0 <= i < |steps[1..]| ==> steps[1..][i] == steps[i + 1];
      HeadRemembered(Apply(s, steps[0]), steps[1..], t, h);
    }
  }

  lemma HeadRememberedStep(s: State, step: Step, t: Tid, h: Option<Tid>)
    requires Enabled(s, step) && t in s.threads && step != CompareExchange(t)
    requires s.threads[t].pc == HeadLoaded(h) || s.threads[t].pc == Linked(h)
    ensures var s' := Apply(s, step);
            t in s'.threads && (s'.threads[t].pc == HeadLoaded(h) || s'.threads[t].pc == Linked(h))
  {
  }

  /** One turn of `register_worker` puts the thread in front of the list exactly when nobody
      else registered since it loaded the head; otherwise it changes no list and tries again. */
  lemma AttemptSucceeds(init: State, before: seq<Step>, t: Tid, during: seq<Step>)
    requires Init(init) && Legal(init, before) && Enabled(After(init, before), LoadHead(t))
    requires Legal(Apply(After(init, before), LoadHead(t)), during)
    requires forall i :: 0 <= i < |during| ==> during[i] != CompareExchange(t)
    requires Enabled(After(Apply(After(init, before), LoadHead(t)), during), CompareExchange(t))
    ensures var s, s2 := After(init, before), After(Apply(After(init, before), LoadHead(t)), during);
            var s3 := Apply(s2, CompareExchange(t));
            if |s2.chain| == |s.chain| then s3.chain == [t] + s.chain && s3.threads[t].pc.Quiescent?
            else s3.chain == s2.chain && s3.threads[t].pc.Unregistered?
  {
    hide Inv, Init, After, Legal, EndsWith;
    var s := After(init, before);
    var s1 := Apply(s, LoadHead(t));
    var s2 := After(s1, during);
    InitInv(init);
    RunInv(init, before);
    StepInv(s, LoadHead(t));
    RunInv(s1, during);
    HeadRemembered(s1, during, t, s.head);
    RegistrationsStay(s1, during);
    HeadsDiffer(s, s2);
  }

  lemma HeadsDiffer(s: State, s': State)
    requires Inv(s) && Inv(s') && EndsWith(s'.chain, s.chain)
    ensures |s'.chain| == |s.chain| ==> s'.chain == s.chain
    ensures s'.head == s.head <==> |s'.chain| == |s.chain|
  {
    hide ThreadsInv, ObjectsInv, HeldInv, TagsInv, ScanInv;
    var k := |s'.chain| - |s.chain|;
    assert k < |s'.chain| ==> s'.chain[k] == s'.chain[k..][0];
  }

  /// Single calls that nothing disturbs

  /** Entering, loading a cell and leaving is possible from any state in which the worker is
      quiescent and online: nobody blocks a reader, and a reader leaves no trace. */
  lemma UndisturbedRead(s: State, t: Tid, c: Cell)
    requires Inv(s) && t in s.threads && s.threads[t].pc.Quiescent? && !s.threads[t].offline && c in s.cells
    ensures Legal(s, [LoadEpoch(t), StoreEpoch(t), LoadCell(t, c), Leave(t)])
    ensures After(s, [LoadEpoch(t), StoreEpoch(t), LoadCell(t, c), Leave(t)]) == s
  {
    hide ListInv, ObjectsInv, HeldInv, TagsInv, ScanInv;
    assert ThreadOk(s, t);
    var a := Apply(s, LoadEpoch(t));
    var b := Apply(a, StoreEpoch(t));
    var d := Apply(b, LoadCell(t, c));
    assert Apply(d, Leave(t)) == s;
    FourSteps(s, LoadEpoch(t), StoreEpoch(t), LoadCell(t, c), Leave(t));
  }

  lemma TwoSteps(s: State, w: Step, x: Step)
    requires Enabled(s, w) && Enabled(Apply(s, w), x)
    ensures Legal(s, [w, x]) && After(s, [w, x]) == Apply(Apply(s, w), x)
  {
    hide Enabled, Apply;
    assert [w, x][1..] == [x] && [x][1..] == [];
    assert Legal(Apply(s, w), [x]) && After(Apply(s, w), [x]) == Apply(Apply(s, w), x);
  }

  lemma ThreeSteps(s: State, w: Step, x: Step, y: Step)
    requires Enabled(s, w) && Enabled(Apply(s, w), x) && Enabled(Apply(Apply(s, w), x), y)
    ensures Legal(s, [w, x, y]) && After(s, [w, x, y]) == Apply(Apply(Apply(s, w), x), y)
  {
    hide Enabled, Apply;
    TwoSteps(Apply(s, w), x, y);
    assert [w, x, y][1..] == [x, y];
  }

  lemma FourSteps(s: State, w: Step, x: Step, y: Step, z: Step)
    requires Enabled(s, w) && Enabled(Apply(s, w), x) && Enabled(Apply(Apply(s, w), x), y)
    requires Enabled(Apply(Apply(Apply(s, w), x), y), z)
    ensures Legal(s, [w, x, y, z]) && After(s, [w, x, y, z]) == Apply(Apply(Apply(Apply(s, w), x), y), z)
  {
    hide Enabled, Apply;
    ThreeSteps(Apply(s, w), x, y, z);
    assert [w, x, y, z][1..] == [x, y, z];
  }

  /** A quiescent worker may go offline and come back at any time. */
  lemma UndisturbedPause(s: State, t: Tid)
    requires t in s.threads && s.threads[t].pc.Quiescent? && !s.threads[t].offline
    ensures Legal(s, [GoOffline(t), GoOnline(t)]) && After(s, [GoOffline(t), GoOnline(t)]) == s
  {
    TwoSteps(s, GoOffline(t), GoOnline(t));
    assert Apply(Apply(s, GoOffline(t)), GoOnline(t)).threads == s.threads;
  }

  /** Steps that always move the epoch. */
  function Bumps(steps: seq<Step>): nat {
    if steps == [] then 0 else (if steps[0].Bump? || steps[0].OtherManagerBumps? then 1 else 0) + Bumps(steps[1..])
  }

  function ScanEndings(steps: seq<Step>): nat {
    if steps == [] then 0 else (if steps[0].EndScan? then 1 else 0) + ScanEndings(steps[1..])
  }

  /** The epoch rises by one with every pass and with every move of another manager, by one
      more at most when a scan ends, and otherwise stays. */
  lemma {:induction false} EpochRises(s: State, steps: seq<Step>)
    requires Legal(s, steps)
    ensures s.epoch + Bumps(steps) <= After(s, steps).epoch <= s.epoch + Bumps(steps) + ScanEndings(steps)
    decreases |steps|
  {
    if steps == [] {
    } else {
      EpochRisesStep(s, steps[0]);
      hide Enabled, Apply;
      EpochRises(Apply(s, steps[0]), steps[1..]);
    }
  }

  lemma EpochRisesStep(s: State, step: Step)
    requires Enabled(s, step)
    ensures var e := s.epoch + if step.Bump? || step.OtherManagerBumps? then 1 else 0;
            e <= Apply(s, step).epoch <= e + if step.EndScan? then 1 else 0
  {
  }

  /** Registering puts the thread in front of the list, and publishes no object and drops none. */
  lemma UndisturbedRegister(s: State, t: Tid)
    requires Inv(s) && t in s.threads && s.threads[t].pc.Unregistered?
    ensures Legal(s, [LoadHead(t), Link(t), CompareExchange(t)])
    ensures var s' := After(s, [LoadHead(t), Link(t), CompareExchange(t)]);
            && s'.chain == [t] + s.chain && t in s'.threads
            && s'.threads[t] == Thread(Quiescent, 0, false, NodeAt(s.chain, 0), {})
            && s' == s.(threads := s'.threads, head := s'.head, chain := s'.chain)
            && s'.threads == s.threads[t := s'.threads[t]]
  {
    hide ObjectsInv, HeldInv, TagsInv, ScanInv;
    assert ThreadOk(s, t);
    var a := Apply(s, LoadHead(t));
    var b := Apply(a, Link(t));
    assert Enabled(b, CompareExchange(t));
    hide Inv, Legal, After;
    ThreeSteps(s, LoadHead(t), Link(t), CompareExchange(t));
  }

  /** Replacing what a cell publishes and retiring what it replaced: a fresh object is
      published there, and the old one waits in the queue with the current epoch. */
  lemma UndisturbedReplace(s: State, c: Cell)
    requires Inv(s) && s.writer.Running? && c in s.cells
    ensures Legal(s, [Swap(c), Defer(s.cells[c])])
    ensures After(s, [Swap(c), Defer(s.cells[c])])
         == s.(cells := s.cells[c := s.unused], unused := s.unused + 1,
               garbage := s.garbage + [GarbageEntry(s.cells[c], s.epoch)])
    ensures !Current(s.cells, s.unused) && s.unused !in s.pending && !Retired(s.garbage, s.unused)
            && s.unused !in s.dropped
  {
    SwappedObject(s, c);
    SwapAndDefer(s, c);
    hide Inv, Legal, After, Apply, Enabled, Current, Retired;
    TwoSteps(s, Swap(c), Defer(s.cells[c]));
  }

  lemma SwapAndDefer(s: State, c: Cell)
    requires s.writer.Running? && c in s.cells && s.cells[c] !in s.pending
    ensures Enabled(s, Swap(c)) && Enabled(Apply(s, Swap(c)), Defer(s.cells[c]))
    ensures Apply(Apply(s, Swap(c)), Defer(s.cells[c]))
         == s.(cells := s.cells[c := s.unused], unused := s.unused + 1,
               garbage := s.garbage + [GarbageEntry(s.cells[c], s.epoch)])
  {
    assert s.pending + {s.cells[c]} - {s.cells[c]} == s.pending;
  }

  lemma SwappedObject(s: State, c: Cell)
    requires Inv(s) && s.writer.Running? && c in s.cells
    ensures s.cells[c] !in s.pending
    ensures !Current(s.cells, s.unused) && s.unused !in s.pending && !Retired(s.garbage, s.unused)
            && s.unused !in s.dropped
  {
    hide ThreadsInv, ListInv, HeldInv, TagsInv, ScanInv;
    assert Garbage(s) == s.garbage;
  }

  /// One pass that nothing disturbs

  /** The steps of `maintenance` after its first and before its last one. */
  predicate PassStep(step: Step) {
    || step.LoadCurrent? || step.LoadWorkers? || step.ReadOffline? || step.ReadEpoch? || step.EndScan?
    || step.SweepOne?
  }

  /** What a scan reads from one worker. */
  function SampleOf(threads: map<Tid, Thread>, t: Tid): seq<nat> {
    if t in threads && !threads[t].offline then [threads[t].localEpoch] else []
  }

  function OnlineEpochs(threads: map<Tid, Thread>, nodes: seq<Tid>): seq<nat> {
    if nodes == [] then []
    else OnlineEpochs(threads, nodes[..|nodes| - 1]) + SampleOf(threads, nodes[|nodes| - 1])
  }

  function Objects(g: seq<GarbageEntry>): seq<Obj> {
    if g == [] then [] else [g[0].obj] + Objects(g[1..])
  }

  /** The minimum that a pass finds that begins in `s` and that nothing disturbs. */
  function PassMin(s: State): nat {
    MinEpoch(s.epoch + 1, OnlineEpochs(s.threads, s.chain))
  }

  /** The state after that pass. */
  function Passed(s: State): State {
    var m := PassMin(s);
    s.(epoch := if m == s.epoch + 1 then s.epoch + 2 else s.epoch + 1,
       garbage := Retain(s.garbage, m), dropped := s.dropped + Objects(Discard(s.garbage, m)))
  }

  /** The pass that began in `s0` has come to `s`. */
  ghost predicate PassAt(s0: State, s: State) {
    && s == s0.(epoch := s.epoch, writer := s.writer, dropped := s.dropped)
    && match s.writer
       case Running => false
       case Bumped => s.epoch == s0.epoch + 1 && s.dropped == s0.dropped
       case Started(current) => s.epoch == s0.epoch + 1 == current && s.dropped == s0.dropped
       case Scanning(w) => s.epoch == s0.epoch + 1 && s.dropped == s0.dropped && WalkedSoFar(s0, w)
       case Sampling(w) =>
         && s.epoch == s0.epoch + 1 && s.dropped == s0.dropped && WalkedSoFar(s0, w)
         && w.cur.Some? && w.cur.value in s0.threads && !s0.threads[w.cur.value].offline
       case Sweeping(m, _, _, todo, _) =>
         && m == PassMin(s0) && s.epoch == Passed(s0).epoch
         && s.dropped + Objects(Discard(todo, m)) == Passed(s0).dropped
  }

  predicate WalkedSoFar(s0: State, w: Walk) {
    w.current == s0.epoch + 1 && w.start == s0.chain && w.samples == OnlineEpochs(s0.threads, w.visited)
  }

  lemma OneMoreVisited(s: State, w: Walk)
    requires w.cur.Some? && w.cur.value in s.threads
    ensures OnlineEpochs(s.threads, Advance(s, w).visited)
         == OnlineEpochs(s.threads, w.visited) + SampleOf(s.threads, w.cur.value)
  {
    assert (w.visited + [w.cur.value])[..|w.visited|] == w.visited;
  }

  lemma ReadOfflinePass(s0: State, s: State)
    requires PassAt(s0, s) && Enabled(s, ReadOffline)
    ensures PassAt(s0, Apply(s, ReadOffline))
  {
    hide OnlineEpochs, Retain, Discard, Objects, MinEpoch;
    OneMoreVisited(s, s.writer.walk);
    assert Apply(s, ReadOffline) == AfterReadOffline(s, s.writer.walk);
  }

  lemma ReadEpochPass(s0: State, s: State)
    requires PassAt(s0, s) && Enabled(s, ReadEpoch)
    ensures PassAt(s0, Apply(s, ReadEpoch))
  {
    hide OnlineEpochs, Retain, Discard, Objects, MinEpoch;
    OneMoreVisited(s, s.writer.walk);
    assert Apply(s, ReadEpoch) == AfterReadEpoch(s, s.writer.walk);
  }

  lemma EndScanPass(s0: State, s: State)
    requires PassAt(s0, s) && Enabled(s, EndScan) && Inv(s)
    ensures PassAt(s0, Apply(s, EndScan))
  {
    hide OnlineEpochs, Retain, Discard, Objects, MinEpoch, Inv, WalkAt;
    ScanEnds(s);
    ScanMinimum(s);
    WholeWalk(s.chain, s.writer.walk);
    assert Apply(s, EndScan) == AfterScan(s, s.writer.walk);
  }

  lemma SweepPass(s0: State, s: State)
    requires PassAt(s0, s) && Enabled(s, SweepOne)
    ensures PassAt(s0, Apply(s, SweepOne))
  {
    hide OnlineEpochs, Retain, Discard, Objects, MinEpoch;
    DiscardOne(s.writer.todo, s.writer.minEpoch, s.dropped);
    assert Apply(s, SweepOne) == AfterSweepOne(s, s.writer);
  }

  lemma StartPass(s0: State, s: State, step: Step)
    requires PassAt(s0, s) && (step.LoadCurrent? || step.LoadWorkers?) && Enabled(s, step)
    ensures PassAt(s0, Apply(s, step))
  {
    hide Retain, Discard, Objects, MinEpoch;
    NoneVisited(s0.threads);
    hide OnlineEpochs;
  }

  lemma PassAtStep(s0: State, s: State, step: Step)
    requires PassAt(s0, s) && PassStep(step) && Enabled(s, step) && Inv(s)
    ensures PassAt(s0, Apply(s, step))
  {
    hide PassAt, Inv, Enabled, Apply;
    match step
    case ReadOffline => ReadOfflinePass(s0, s);
    case ReadEpoch => ReadEpochPass(s0, s);
    case EndScan => EndScanPass(s0, s);
    case SweepOne => SweepPass(s0, s);
    case _ => StartPass(s0, s, step);
  }

  lemma NoneVisited(threads: map<Tid, Thread>)
    ensures OnlineEpochs(threads, []) == []
  {
  }

  lemma ScanMinimum(s: State)
    requires s.writer.Scanning? && Inv(s)
    ensures s.writer.walk.minEpoch == MinEpoch(s.writer.walk.current, s.writer.walk.samples)
  {
    hide ThreadsInv, ListInv, ObjectsInv, HeldInv, ScanInv;
  }

  lemma DiscardOne(todo: seq<GarbageEntry>, m: nat, dropped: seq<Obj>)
    requires todo != []
    ensures (if todo[0].epoch >= m then dropped else dropped + [todo[0].obj]) + Objects(Discard(todo[1..], m))
         == dropped + Objects(Discard(todo, m))
  {
    if todo[0].epoch >= m {
      assert Discard(todo, m) == Discard(todo[1..], m);
    } else {
      var e, rest := todo[0], Discard(todo[1..], m);
      assert Discard(todo, m) == [e] + rest;
      assert ([e] + rest)[1..] == rest;
    }
  }

  lemma {:induction false} PassAtRun(s0: State, s: State, steps: seq<Step>)
    requires PassAt(s0, s) && Legal(s, steps) && Inv(s)
    requires forall i :: 0 <= i < |steps| ==> PassStep(steps[i])
    ensures PassAt(s0, After(s, steps)) && Inv(After(s, steps))
    decreases |steps|
  {
    hide PassAt, Inv, Enabled, Apply;
    if steps == [] {
      assert After(s, steps) == s;
    } else {
      assert PassStep(steps[0]);
      StepInv(s, steps[0]);
      PassAtStep(s0, s, steps[0]);
      assert forall i :: 0 <= i < |steps[1..]| ==> steps[1..][i] == steps[i + 1];
      PassAtRun(s0, Apply(s, steps[0]), steps[1..]);
    }
  }

  lemma PassAtEnd(s0: State, s: State)
    requires PassAt(s0, s) && Enabled(s, EndSweep) && Inv(s) && s0.writer.Running?
    ensures Apply(s, EndSweep) == Passed(s0)
  {
    hide Inv, PassMin, Retain, MinEpoch;
    EndSweepStep(s);
    assert Objects(Discard([], PassMin(s0))) == [];
  }

  /** A pass that no other thread disturbs does what `maintenance` does on its own: it moves
      the epoch by one, or by two when no online worker is behind, keeps the entries at least
      as young as the oldest online epoch, drops the others in order, and changes nothing else. */
  lemma UndisturbedPass(init: State, before: seq<Step>, during: seq<Step>)
    requires Init(init) && Legal(init, before) && Enabled(After(init, before), Bump)
    requires Legal(Apply(After(init, before), Bump), during)
    requires forall i :: 0 <= i < |during| ==> PassStep(during[i])
    requires Enabled(After(Apply(After(init, before), Bump), during), EndSweep)
    ensures Apply(After(Apply(After(init, before), Bump), during), EndSweep) == Passed(After(init, before))
  {
    var s := After(init, before);
    var s1 := Apply(s, Bump);
    InitInv(init);
    RunInv(init, before);
    StepInv(s, Bump);
    assert PassAt(s, s1);
    hide *;
    PassAtRun(s, s1, during);
    assert s.writer.Running? by { BumpRuns(s); }
    PassAtEnd(s, After(s1, during));
  }

  lemma BumpRuns(s: State)
    requires Enabled(s, Bump)
    ensures s.writer.Running?
  {
  }

  lemma WalkGoesOn(s: State)
    requires ListInv(s) && ScanInv(s) && (s.writer.Scanning? || s.writer.Sampling?)
    ensures s.writer.Sampling? ==> Enabled(s, ReadEpoch)
    ensures s.writer.Scanning? ==> Enabled(s, ReadOffline) || Enabled(s, EndScan)
  {
    hide ListInv, Covered;
    if s.writer.walk.cur.Some? {
      WalkHere(s, s.writer.walk);
    }
  }

  /** Inside a pass the writer always has a next step, whatever the others have done. */
  lemma PassGoesOn(s: State)
    requires Inv(s) && !s.writer.Running?
    ensures Enabled(s, EndSweep) || exists step :: PassStep(step) && Enabled(s, step)
  {
    hide ThreadsInv, ObjectsInv, HeldInv, TagsInv, ListInv, ScanInv;
    match s.writer
    case Scanning(_) => WalkGoesOn(s); assert PassStep(ReadOffline) && PassStep(EndScan);
    case Sampling(_) => WalkGoesOn(s); assert PassStep(ReadEpoch);
    case Bumped => assert PassStep(LoadCurrent) && Enabled(s, LoadCurrent);
    case Started(_) => assert PassStep(LoadWorkers) && Enabled(s, LoadWorkers);
    case Sweeping(_, _, _, _, _) => assert PassStep(SweepOne);
  }
}
