/** Quiescent-state-based reclamation (src/core/qsbr.rs, src/core/rcu.rs) with lock-free
    worker registration (src/core/query.rs), as interleaved atomic steps over sequentially
    consistent memory.

    One manager is followed: its writer thread, its list of workers and the objects it
    retires. The epoch is shared with other managers, which may advance it at any moment. */
module Qsbr {
  import opened Options

  /** An object published through an `AtomicPtr`, named by its order of allocation. */
  type Obj = nat

  type Tid = nat

  /** An `AtomicPtr` that readers load and the writer swaps. */
  type Cell = nat

  datatype GarbageEntry = GarbageEntry(obj: Obj, epoch: nat)

  /** Where a reader thread is. `HeadLoaded` and `Linked` are inside `register_worker`,
      `Entering` is between the load and the store of `enter`. */
  datatype Pc =
    | Unregistered
    | HeadLoaded(head: Option<Tid>)
    | Linked(head: Option<Tid>)
    | Quiescent
    | Entering(global: nat)
    | Pinned

  /** A reader thread with its `WorkerState`, the `next` link of its `WorkerNode`, and the
      objects it has loaded since its last `enter`. */
  datatype Thread = Thread(pc: Pc, localEpoch: nat, offline: bool, next: Option<Tid>, held: set<Obj>)

  /** The walk of `maintenance` over the worker list. The last four fields are history: how
      many nodes are still to visit, the list as it was when its head was loaded, the nodes
      visited, and the local epochs read. */
  datatype Walk = Walk(cur: Option<Tid>, minEpoch: nat, current: nat,
                       left: nat, start: seq<Tid>, visited: seq<Tid>, samples: seq<nat>)

  /** Where the writer thread is. All but `Running` are inside `maintenance`; `Sampling` is
      between the loads of `is_offline` and of `local_epoch` of one worker. */
  datatype Writer =
    | Running
    | Bumped
    | Started(current: nat)
    | Scanning(walk: Walk)
    | Sampling(walk: Walk)
    | Sweeping(minEpoch: nat, current: nat, samples: seq<nat>, todo: seq<GarbageEntry>, kept: seq<GarbageEntry>)

  /** `chain` is history: the list of registered nodes, newest first. `pending` holds the
      objects swapped out and not yet handed to `defer_free`. */
  datatype State = State(
    epoch: nat,
    threads: map<Tid, Thread>,
    head: Option<Tid>,
    chain: seq<Tid>,
    cells: map<Cell, Obj>,
    unused: Obj,
    pending: set<Obj>,
    garbage: seq<GarbageEntry>,
    dropped: seq<Obj>,
    writer: Writer)

  datatype Step =
    | LoadHead(t: Tid)
    | Link(t: Tid)
    | CompareExchange(t: Tid)
    | LoadEpoch(t: Tid)
    | StoreEpoch(t: Tid)
    | LoadCell(t: Tid, c: Cell)
    | Leave(t: Tid)
    | GoOffline(t: Tid)
    | GoOnline(t: Tid)
    | Swap(c: Cell)
    | Defer(o: Obj)
    | Bump
    | LoadCurrent
    | LoadWorkers
    | ReadOffline
    | ReadEpoch
    | EndScan
    | SweepOne
    | EndSweep
    | OtherManagerBumps

  predicate Registered(pc: Pc) {
    pc.Quiescent? || pc.Entering? || pc.Pinned?
  }

  predicate Enabled(s: State, step: Step) {
    match step
    case LoadHead(t) => t in s.threads && s.threads[t].pc.Unregistered?
    case Link(t) => t in s.threads && s.threads[t].pc.HeadLoaded?
    case CompareExchange(t) => t in s.threads && s.threads[t].pc.Linked?
    case LoadEpoch(t) => t in s.threads && s.threads[t].pc.Quiescent? && !s.threads[t].offline
    case StoreEpoch(t) => t in s.threads && s.threads[t].pc.Entering?
    case LoadCell(t, c) => t in s.threads && s.threads[t].pc.Pinned? && c in s.cells
    case Leave(t) => t in s.threads && s.threads[t].pc.Pinned?
    case GoOffline(t) => t in s.threads && s.threads[t].pc.Quiescent?
    case GoOnline(t) => t in s.threads && s.threads[t].pc.Quiescent?
    case Swap(c) => s.writer.Running? && c in s.cells
    case Defer(o) => s.writer.Running? && o in s.pending
    case Bump => s.writer.Running? && s.pending == {}
    case LoadCurrent => s.writer.Bumped?
    case LoadWorkers => s.writer.Started?
    case ReadOffline => s.writer.Scanning? && s.writer.walk.cur.Some? && s.writer.walk.cur.value in s.threads
    case ReadEpoch => s.writer.Sampling? && s.writer.walk.cur.Some? && s.writer.walk.cur.value in s.threads
    case EndScan => s.writer.Scanning? && s.writer.walk.cur.None?
    case SweepOne => s.writer.Sweeping? && s.writer.todo != []
    case EndSweep => s.writer.Sweeping? && s.writer.todo == []
    case OtherManagerBumps => true
  }

  function SetThread(s: State, t: Tid, th: Thread): State {
    s.(threads := s.threads[t := th])
  }

  /** The minimum kept by the scan after it read the local epoch `e`. */
  function Lower(minEpoch: nat, e: nat): nat {
    if e != 0 && e < minEpoch then e else minEpoch
  }

  /** `curr_ptr = node.next.load(…)`. */
  function Advance(s: State, w: Walk): Walk
    requires w.cur.Some? && w.cur.value in s.threads
  {
    w.(cur := s.threads[w.cur.value].next, left := if w.left == 0 then 0 else w.left - 1,
       visited := w.visited + [w.cur.value])
  }

  function AfterReadOffline(s: State, w: Walk): State
    requires w.cur.Some? && w.cur.value in s.threads
  {
    s.(writer := if s.threads[w.cur.value].offline then Scanning(Advance(s, w)) else Sampling(w))
  }

  function AfterReadEpoch(s: State, w: Walk): State
    requires w.cur.Some? && w.cur.value in s.threads
  {
    var e := s.threads[w.cur.value].localEpoch;
    s.(writer := Scanning(Advance(s, w).(minEpoch := Lower(w.minEpoch, e), samples := w.samples + [e])))
  }

  function AfterScan(s: State, w: Walk): State {
    s.(epoch := if w.minEpoch == w.current then s.epoch + 1 else s.epoch,
       writer := Sweeping(w.minEpoch, w.current, w.samples, s.garbage, []))
  }

  function AfterSweepOne(s: State, w: Writer): State
    requires w.Sweeping? && w.todo != []
  {
    var e := w.todo[0];
    if e.epoch >= w.minEpoch then s.(writer := w.(todo := w.todo[1..], kept := w.kept + [e]))
    else s.(writer := w.(todo := w.todo[1..]), dropped := s.dropped + [e.obj])
  }

  /** Steps that change one thread and nothing else. */
  predicate MovesThread(step: Step) {
    || step.LoadHead? || step.LoadEpoch? || step.StoreEpoch? || step.LoadCell? || step.Leave?
    || step.GoOffline? || step.GoOnline?
  }

  /** The thread after one of its own steps. */
  function Moved(s: State, step: Step): Thread
    requires MovesThread(step) && Enabled(s, step)
  {
    var th := s.threads[step.t];
    match step
    case LoadHead(_) => th.(pc := HeadLoaded(s.head))
    case LoadEpoch(_) => th.(pc := Entering(s.epoch))
    case StoreEpoch(_) => th.(pc := Pinned, localEpoch := th.pc.global)
    case LoadCell(_, c) => th.(held := th.held + {s.cells[c]})
    case Leave(_) => th.(pc := Quiescent, localEpoch := 0, held := {})
    case GoOffline(_) => th.(offline := true)
    case GoOnline(_) => th.(offline := false)
  }

  function Apply(s: State, step: Step): State
    requires Enabled(s, step)
  {
    if MovesThread(step) then SetThread(s, step.t, Moved(s, step))
    else
      match step
      case Link(t) =>
        var h := s.threads[t].pc.head;
        SetThread(s, t, s.threads[t].(pc := Linked(h), next := h))
      case CompareExchange(t) =>
        if s.head == s.threads[t].pc.head then
          SetThread(s, t, s.threads[t].(pc := Quiescent)).(head := Some(t), chain := [t] + s.chain)
        else SetThread(s, t, s.threads[t].(pc := Unregistered))
      case Swap(c) =>
        s.(cells := s.cells[c := s.unused], unused := s.unused + 1, pending := s.pending + {s.cells[c]})
      case Defer(o) => s.(pending := s.pending - {o}, garbage := s.garbage + [GarbageEntry(o, s.epoch)])
      case Bump => s.(epoch := s.epoch + 1, writer := Bumped)
      case LoadCurrent => s.(writer := Started(s.epoch))
      case LoadWorkers =>
        var current := s.writer.current;
        s.(writer := Scanning(Walk(s.head, current, current, |s.chain|, s.chain, [], [])))
      case ReadOffline => AfterReadOffline(s, s.writer.walk)
      case ReadEpoch => AfterReadEpoch(s, s.writer.walk)
      case EndScan => AfterScan(s, s.writer.walk)
      case SweepOne => AfterSweepOne(s, s.writer)
      case EndSweep => s.(writer := Running, garbage := s.writer.kept)
      case OtherManagerBumps => s.(epoch := s.epoch + 1)
  }

  ghost predicate Init(s: State) {
    && s.epoch >= 1
    && (forall t :: t in s.threads ==> s.threads[t] == Thread(Unregistered, 0, false, None, {}))
    && s.head.None? && s.chain == []
    && (forall c :: c in s.cells ==> s.cells[c] < s.unused)
    && (forall c, d :: c in s.cells && d in s.cells && s.cells[c] == s.cells[d] ==> c == d)
    && s.pending == {} && s.garbage == [] && s.dropped == [] && s.writer.Running?
  }

  ghost predicate Legal(s: State, steps: seq<Step>)
    decreases |steps|
  {
    steps == [] || (Enabled(s, steps[0]) && Legal(Apply(s, steps[0]), steps[1..]))
  }

  ghost function After(s: State, steps: seq<Step>): State
    requires Legal(s, steps)
    decreases |steps|
  {
    if steps == [] then s else After(Apply(s, steps[0]), steps[1..])
  }

  /// Invariants

  ghost predicate ThreadOk(s: State, t: Tid)
    requires t in s.threads
  {
    var th := s.threads[t];
    match th.pc
    case Entering(g) => 1 <= g <= s.epoch && th.localEpoch == 0 && th.held == {} && !th.offline
    case Pinned => 1 <= th.localEpoch <= s.epoch && !th.offline
    case Linked(h) => th.localEpoch == 0 && th.held == {} && !th.offline && th.next == h
    case Quiescent => th.localEpoch == 0 && th.held == {}
    case Unregistered => th.localEpoch == 0 && th.held == {} && !th.offline
    case HeadLoaded(_) => th.localEpoch == 0 && th.held == {} && !th.offline
  }

  ghost predicate ThreadsInv(s: State) {
    s.epoch >= 1 && forall t :: t in s.threads ==> ThreadOk(s, t)
  }

  function NodeAt(chain: seq<Tid>, i: nat): Option<Tid> {
    if i < |chain| then Some(chain[i]) else None
  }

  /** Walking `next` from the head gives exactly the registered threads, each once. */
  ghost predicate ListInv(s: State) {
    && s.head == NodeAt(s.chain, 0)
    && (forall i :: 0 <= i < |s.chain| ==>
          s.chain[i] in s.threads && s.threads[s.chain[i]].next == NodeAt(s.chain, i + 1))
    && (forall i, j :: 0 <= i < j < |s.chain| ==> s.chain[i] != s.chain[j])
    && (forall t :: t in s.threads ==> (Registered(s.threads[t].pc) <==> t in s.chain))
  }

  /** All entries not yet dropped. */
  function Undropped(w: Writer, garbage: seq<GarbageEntry>): seq<GarbageEntry> {
    if w.Sweeping? then w.kept + w.todo else garbage
  }

  function Garbage(s: State): seq<GarbageEntry> {
    Undropped(s.writer, s.garbage)
  }

  ghost predicate Retired(g: seq<GarbageEntry>, o: Obj) {
    exists i :: 0 <= i < |g| && g[i].obj == o
  }

  ghost predicate Current(cells: map<Cell, Obj>, o: Obj) {
    exists c :: c in cells && cells[c] == o
  }

  /** Every object is in one place: current in one cell, pending, retired once, or dropped once. */
  ghost predicate Placed(cells: map<Cell, Obj>, unused: Obj, pending: set<Obj>, g: seq<GarbageEntry>,
      dropped: seq<Obj>) {
    && (forall c :: c in cells ==> cells[c] < unused && cells[c] !in pending && cells[c] !in dropped)
    && (forall c, d :: c in cells && d in cells && cells[c] == cells[d] ==> c == d)
    && (forall o :: o in pending ==> o < unused && o !in dropped)
    && (forall i :: 0 <= i < |g| ==>
          g[i].obj < unused && g[i].obj !in pending && g[i].obj !in dropped && !Current(cells, g[i].obj))
    && (forall i, j :: 0 <= i < j < |g| ==> g[i].obj != g[j].obj)
    && (forall o :: o in dropped ==> o < unused)
    && (forall i, j :: 0 <= i < j < |dropped| ==> dropped[i] != dropped[j])
  }

  ghost predicate ObjectsInv(s: State) {
    Placed(s.cells, s.unused, s.pending, Garbage(s), s.dropped)
  }

  ghost predicate Holds(s: State, t: Tid, o: Obj) {
    t in s.threads && o in s.threads[t].held
  }

  /** A held object is not dropped, and if retired, its tag is no older than the holder's epoch. */
  ghost predicate HeldInv(s: State) {
    && (forall t, o :: Holds(s, t, o) ==> Current(s.cells, o) || o in s.pending || Retired(Garbage(s), o))
    && (forall t, i :: 0 <= i < |Garbage(s)| && Holds(s, t, Garbage(s)[i].obj) ==>
          s.threads[t].localEpoch <= Garbage(s)[i].epoch)
  }

  ghost predicate TagsBelow(g: seq<GarbageEntry>, bound: nat) {
    forall i :: 0 <= i < |g| ==> g[i].epoch < bound
  }

  ghost predicate TagsInv(s: State) {
    match s.writer
    case Running => TagsBelow(s.garbage, s.epoch + 1)
    case Bumped => s.pending == {} && TagsBelow(s.garbage, s.epoch)
    case Started(current) => s.pending == {} && current <= s.epoch && TagsBelow(s.garbage, current)
    case Scanning(w) =>
      s.pending == {} && w.current <= s.epoch && TagsBelow(s.garbage, w.current)
          && w.minEpoch == MinEpoch(w.current, w.samples)
    case Sampling(w) =>
      s.pending == {} && w.current <= s.epoch && TagsBelow(s.garbage, w.current)
          && w.minEpoch == MinEpoch(w.current, w.samples)
    case Sweeping(m, current, samples, todo, kept) =>
      && s.pending == {} && current <= s.epoch && TagsBelow(s.garbage, current) && m == MinEpoch(current, samples)
      && TagsBelow(kept + todo, current) && Retain(s.garbage, m) == kept + Retain(todo, m)
  }

  /** The minimum over a scan's samples of nonzero epochs, starting from the current epoch. */
  function MinEpoch(current: nat, samples: seq<nat>): nat {
    if samples == [] then current
    else Lower(MinEpoch(current, samples[..|samples| - 1]), samples[|samples| - 1])
  }

  /** `retain(|entry| entry.epoch >= minEpoch)`. */
  function Retain(g: seq<GarbageEntry>, minEpoch: nat): seq<GarbageEntry> {
    if g == [] then []
    else (if g[0].epoch >= minEpoch then [g[0]] else []) + Retain(g[1..], minEpoch)
  }

  /** Every holder of an entry of `g` pins it with an epoch of at least `m`, or is in `rest`. */
  ghost predicate Covered(s: State, g: seq<GarbageEntry>, m: nat, rest: seq<Tid>) {
    forall t, i :: 0 <= i < |g| && Holds(s, t, g[i].obj) ==> m <= s.threads[t].localEpoch || t in rest
  }

  /** The nodes that a walk has still to visit. */
  function Rest(chain: seq<Tid>, left: nat): seq<Tid> {
    if left <= |chain| then chain[|chain| - left..] else []
  }

  /** What `retain` drops, in the order in which it drops it. */
  function Discard(g: seq<GarbageEntry>, minEpoch: nat): seq<GarbageEntry> {
    if g == [] then []
    else (if g[0].epoch >= minEpoch then [] else [g[0]]) + Discard(g[1..], minEpoch)
  }

  /** `Retain` and `Discard` split the entries by their tags and lose none. */
  lemma {:induction false} RetainOrDiscard(g: seq<GarbageEntry>, m: nat)
    ensures multiset(Retain(g, m)) + multiset(Discard(g, m)) == multiset(g)
    ensures forall e :: e in Retain(g, m) ==> e.epoch >= m
    ensures forall e :: e in Discard(g, m) ==> e.epoch < m
  {
    if g == [] {
    } else {
      var rest := g[1..];
      RetainOrDiscard(rest, m);
      assert g == [g[0]] + rest;
      assert Retain(g, m) == if g[0].epoch >= m then [g[0]] + Retain(rest, m) else Retain(rest, m);
      assert Discard(g, m) == if g[0].epoch >= m then Discard(rest, m) else [g[0]] + Discard(rest, m);
      hide Retain, Discard;
    }
  }

  /** `MinEpoch` is the least of the current epoch and the nonzero samples. */
  lemma {:induction false} MinEpochIsLeast(current: nat, samples: seq<nat>)
    ensures var m := MinEpoch(current, samples);
            && m <= current && (forall e :: e in samples && e != 0 ==> m <= e)
            && (m == current || (m in samples && m != 0))
  {
    if samples == [] {
    } else {
      var last := |samples| - 1;
      MinEpochIsLeast(current, samples[..last]);
      assert samples == samples[..last] + [samples[last]];
    }
  }

  /** A walk stands at the node `left` places before the end of the list: nodes registered
      since it began were put in front of it, and it has visited the others once each. */
  ghost predicate WalkAt(chain: seq<Tid>, w: Walk) {
    && w.left <= |w.start| <= |chain|
    && chain[|chain| - |w.start|..] == w.start
    && w.cur == NodeAt(chain, |chain| - w.left)
    && w.visited == w.start[..|w.start| - w.left]
  }

  ghost predicate ScanInv(s: State) {
    match s.writer
    case Scanning(w) => WalkAt(s.chain, w) && Covered(s, s.garbage, w.minEpoch, Rest(s.chain, w.left))
    case Sampling(w) => w.left > 0 && WalkAt(s.chain, w) && Covered(s, s.garbage, w.minEpoch, Rest(s.chain, w.left))
    case Sweeping(m, _, _, todo, kept) => Covered(s, kept + todo, m, [])
    case Running => true
    case Bumped => true
    case Started(_) => true
  }

  ghost predicate Inv(s: State) {
    ThreadsInv(s) && ListInv(s) && ObjectsInv(s) && HeldInv(s) && TagsInv(s) && ScanInv(s)
  }

  lemma InitInv(s: State)
    requires Init(s)
    ensures Inv(s)
  {
  }

  /// Each step keeps the invariant

  /** Any change to one thread that keeps its link and its place in the list, that makes it
      hold only more current objects, and that moves its epoch only when it holds nothing. */
  lemma ThreadStep(s: State, t: Tid, th: Thread)
    requires Inv(s) && t in s.threads
    requires th.next == s.threads[t].next && Registered(th.pc) == Registered(s.threads[t].pc)
    requires ThreadOk(SetThread(s, t, th), t)
    requires forall o :: o in th.held ==> o in s.threads[t].held || Current(s.cells, o)
    requires th.held != {} ==> th.localEpoch == s.threads[t].localEpoch
    ensures Inv(SetThread(s, t, th))
  {
    hide ThreadsInv, ListInv, HeldInv, ScanInv, ThreadOk;
    ThreadsFrame(s, t, th);
    ListFrame(s, t, th);
    HeldFrame(s, t, th);
    ScanFrame(s, t, th);
  }

  lemma ThreadsFrame(s: State, t: Tid, th: Thread)
    requires ThreadsInv(s) && t in s.threads && ThreadOk(SetThread(s, t, th), t)
    ensures ThreadsInv(SetThread(s, t, th))
  {
    var s' := SetThread(s, t, th);
    forall u | u in s'.threads ensures ThreadOk(s', u) {
      if u != t {
        assert ThreadOk(s, u);
      }
    }
  }

  lemma ListFrame(s: State, t: Tid, th: Thread)
    requires ListInv(s) && t in s.threads
    requires th.next == s.threads[t].next && Registered(th.pc) == Registered(s.threads[t].pc)
    ensures ListInv(SetThread(s, t, th))
  {
  }

  /** Such a change lets no thread hold a retired object that it did not hold before. */
  lemma HeldFrame(s: State, t: Tid, th: Thread)
    requires ObjectsInv(s) && HeldInv(s) && t in s.threads
    requires forall o :: o in th.held ==> o in s.threads[t].held || Current(s.cells, o)
    requires th.held != {} ==> th.localEpoch == s.threads[t].localEpoch
    ensures HeldInv(SetThread(s, t, th))
    ensures forall u, i :: 0 <= i < |Garbage(s)| && Holds(SetThread(s, t, th), u, Garbage(s)[i].obj) ==>
              Holds(s, u, Garbage(s)[i].obj) && SetThread(s, t, th).threads[u].localEpoch == s.threads[u].localEpoch
  {
    var s' := SetThread(s, t, th);
    var g := Garbage(s);
    forall u, i | 0 <= i < |g| && Holds(s', u, g[i].obj)
      ensures Holds(s, u, g[i].obj) && s'.threads[u].localEpoch == s.threads[u].localEpoch
    {
      assert !Current(s.cells, g[i].obj);
    }
    forall u, o | Holds(s', u, o) ensures Current(s.cells, o) || o in s.pending || Retired(g, o) {
      if !Current(s.cells, o) {
        assert Holds(s, u, o);
      }
    }
  }

  lemma CoverFrame(s: State, t: Tid, th: Thread, m: nat, rest: seq<Tid>)
    requires ObjectsInv(s) && HeldInv(s) && t in s.threads && Covered(s, Garbage(s), m, rest)
    requires forall o :: o in th.held ==> o in s.threads[t].held || Current(s.cells, o)
    requires th.held != {} ==> th.localEpoch == s.threads[t].localEpoch
    ensures Covered(SetThread(s, t, th), Garbage(s), m, rest)
  {
    HeldFrame(s, t, th);
    var s', g := SetThread(s, t, th), Garbage(s);
    forall u, i | 0 <= i < |g| && Holds(s', u, g[i].obj) ensures m <= s'.threads[u].localEpoch || u in rest {
      assert Holds(s, u, g[i].obj);
    }
  }

  /** A pass under way is not disturbed by it. */
  lemma ScanFrame(s: State, t: Tid, th: Thread)
    requires t in s.threads && ObjectsInv(s) && HeldInv(s) && ScanInv(s)
    requires forall o :: o in th.held ==> o in s.threads[t].held || Current(s.cells, o)
    requires th.held != {} ==> th.localEpoch == s.threads[t].localEpoch
    ensures ScanInv(SetThread(s, t, th))
  {
    hide ObjectsInv, HeldInv, Covered, WalkAt, Rest, Current;
    match s.writer
    case Scanning(w) => CoverFrame(s, t, th, w.minEpoch, Rest(s.chain, w.left));
    case Sampling(w) => CoverFrame(s, t, th, w.minEpoch, Rest(s.chain, w.left));
    case Sweeping(m, _, _, _, _) => CoverFrame(s, t, th, m, []);
    case Running =>
    case Bumped =>
    case Started(_) =>
  }

  /** `Link`: a node that is not in the list yet gets its `next` link. */
  lemma LinkKeeps(s: State, t: Tid, h: Option<Tid>)
    requires t in s.threads && s.threads[t].pc == HeadLoaded(h) && Inv(s)
    ensures Inv(SetThread(s, t, s.threads[t].(pc := Linked(h), next := h)))
  {
    var th' := s.threads[t].(pc := Linked(h), next := h);
    var s' := SetThread(s, t, th');
    assert ThreadOk(s, t) && t !in s.chain;
    assert ListInv(s');
    hide ListInv;
    ThreadsFrame(s, t, th');
    HeldFrame(s, t, th');
    hide ThreadsInv, ListInv, HeldInv, ScanInv;
    ScanFrame(s, t, th');
  }

  lemma LinkStep(s: State, t: Tid)
    requires Enabled(s, Link(t)) && Inv(s)
    ensures Inv(Apply(s, Link(t)))
  {
    hide Inv;
    LinkKeeps(s, t, s.threads[t].pc.head);
  }

  /** A successful `compare_exchange` puts the node in front of the list. */
  lemma RegisterStep(s: State, t: Tid)
    requires Inv(s) && Enabled(s, CompareExchange(t)) && s.head == s.threads[t].pc.head
    ensures Inv(Apply(s, CompareExchange(t)))
  {
    var s' := Apply(s, CompareExchange(t));
    var th' := s'.threads[t];
    var mid := SetThread(s, t, th');
    assert ThreadOk(s, t);
    assert ThreadsInv(s') by {
      forall u | u in s'.threads ensures ThreadOk(s', u) {
        if u != t { assert ThreadOk(s, u); }
      }
    }
    hide ThreadsInv, ListInv, ObjectsInv, HeldInv, Covered, TagsInv, WalkAt, Rest;
    RegisteredList(s, t);
    HeldFrame(s, t, th');
    SameHeld(mid, s');
    assert ObjectsInv(s') by { SamePlaces(s, s'); }
    assert TagsInv(s') by { SameTags(s, s'); }
    match s.writer
    case Scanning(w) =>
      LongerList(s.chain, t, w);
      CoverFrame(s, t, th', w.minEpoch, Rest(s.chain, w.left));
      SameCover(mid, s', s.garbage, w.minEpoch, Rest(s.chain, w.left));
    case Sampling(w) =>
      LongerList(s.chain, t, w);
      CoverFrame(s, t, th', w.minEpoch, Rest(s.chain, w.left));
      SameCover(mid, s', s.garbage, w.minEpoch, Rest(s.chain, w.left));
    case Sweeping(m, _, _, todo, kept) =>
      CoverFrame(s, t, th', m, []);
      SameCover(mid, s', kept + todo, m, []);
    case Running =>
    case Bumped =>
    case Started(_) =>
  }

  lemma SamePlaces(s: State, s': State)
    requires ObjectsInv(s) && s'.cells == s.cells && s'.unused == s.unused && s'.pending == s.pending
    requires s'.dropped == s.dropped && s'.writer == s.writer && s'.garbage == s.garbage
    ensures ObjectsInv(s')
  {
  }

  lemma SameTags(s: State, s': State)
    requires TagsInv(s) && s'.epoch == s.epoch && s'.pending == s.pending && s'.writer == s.writer
             && s'.garbage == s.garbage
    ensures TagsInv(s')
  {
  }

  lemma SameHeld(s: State, s': State)
    requires HeldInv(s) && s'.threads == s.threads && s'.cells == s.cells && s'.pending == s.pending
             && Garbage(s') == Garbage(s)
    ensures HeldInv(s')
  {
    forall t, o | Holds(s', t, o) ensures Current(s'.cells, o) || o in s'.pending || Retired(Garbage(s'), o) {
      assert Holds(s, t, o);
    }
    var g := Garbage(s');
    forall t, i | 0 <= i < |g| && Holds(s', t, g[i].obj) ensures s'.threads[t].localEpoch <= g[i].epoch {
      assert Holds(s, t, g[i].obj);
    }
  }

  lemma SameCover(s: State, s': State, g: seq<GarbageEntry>, m: nat, rest: seq<Tid>)
    requires Covered(s, g, m, rest) && s'.threads == s.threads
    ensures Covered(s', g, m, rest)
  {
    forall t, i | 0 <= i < |g| && Holds(s', t, g[i].obj) ensures m <= s'.threads[t].localEpoch || t in rest {
      assert Holds(s, t, g[i].obj);
    }
  }

  lemma RegisteredList(s: State, t: Tid)
    requires t in s.threads && ListInv(s) && s.threads[t].pc.Linked? && s.head == s.threads[t].next
    ensures ListInv(SetThread(s, t, s.threads[t].(pc := Quiescent)).(head := Some(t), chain := [t] + s.chain))
  {
    var s' := SetThread(s, t, s.threads[t].(pc := Quiescent)).(head := Some(t), chain := [t] + s.chain);
    var chain, chain' := s.chain, s'.chain;
    assert t !in chain;
    forall i | 0 <= i < |chain'|
      ensures chain'[i] in s'.threads && s'.threads[chain'[i]].next == NodeAt(chain', i + 1)
    {
      if i > 0 {
        assert chain'[i] == chain[i - 1] && chain'[i] != t;
        assert NodeAt(chain', i + 1) == NodeAt(chain, i);
      }
    }
    forall i, j | 0 <= i < j < |chain'| ensures chain'[i] != chain'[j] {
      assert chain'[j] == chain[j - 1];
      if i > 0 { assert chain'[i] == chain[i - 1]; }
    }
    forall u | u in s'.threads ensures Registered(s'.threads[u].pc) <==> u in chain' {
      assert u in chain' <==> u == t || u in chain;
      if u != t { assert s'.threads[u] == s.threads[u]; }
    }
  }

  lemma LongerList(chain: seq<Tid>, t: Tid, w: Walk)
    requires WalkAt(chain, w)
    ensures WalkAt([t] + chain, w) && Rest([t] + chain, w.left) == Rest(chain, w.left)
  {
    assert ([t] + chain)[1 + |chain| - |w.start|..] == chain[|chain| - |w.start|..];
    assert ([t] + chain)[1 + |chain| - w.left..] == chain[|chain| - w.left..];
  }

  /** `swap_ptr`: the cell gets a new object, the old one awaits `defer_free`. */
  lemma SwapStep(s: State, c: Cell)
    requires Inv(s) && Enabled(s, Swap(c))
    ensures Inv(Apply(s, Swap(c)))
  {
    var s' := Apply(s, Swap(c));
    var g := Garbage(s);
    assert Garbage(s') == g;
    assert ThreadsInv(s') by {
      forall u | u in s'.threads ensures ThreadOk(s', u) { assert ThreadOk(s, u); }
    }
    forall i | 0 <= i < |g| ensures !Current(s'.cells, g[i].obj) && g[i].obj != s.cells[c] {
      assert !Current(s.cells, g[i].obj);
    }
    forall t, o | Holds(s', t, o) ensures Current(s'.cells, o) || o in s'.pending || Retired(g, o) {
      assert Holds(s, t, o);
      if Current(s.cells, o) {
        var d :| d in s.cells && s.cells[d] == o;
        assert d != c ==> s'.cells[d] == o;
      }
    }
    forall t, i | 0 <= i < |g| && Holds(s', t, g[i].obj) ensures s'.threads[t].localEpoch <= g[i].epoch {
      assert Holds(s, t, g[i].obj);
    }
  }

  /** The object moves from the pending ones to the queue. */
  lemma DeferPlaced(cells: map<Cell, Obj>, unused: Obj, pending: set<Obj>, g: seq<GarbageEntry>, dropped: seq<Obj>,
                    o: Obj, epoch: nat)
    requires o in pending && Placed(cells, unused, pending, g, dropped)
    ensures Placed(cells, unused, pending - {o}, g + [GarbageEntry(o, epoch)], dropped)
  {
    var g' := g + [GarbageEntry(o, epoch)];
    assert forall i :: 0 <= i < |g'| ==> g'[i].obj == if i < |g| then g[i].obj else o;
  }

  lemma DeferHeld(s: State, o: Obj)
    requires s.writer.Running? && o in s.pending && HeldInv(s) && ThreadsInv(s)
    ensures HeldInv(s.(pending := s.pending - {o}, garbage := s.garbage + [GarbageEntry(o, s.epoch)]))
  {
    var s' := s.(pending := s.pending - {o}, garbage := s.garbage + [GarbageEntry(o, s.epoch)]);
    var g, g' := s.garbage, s'.garbage;
    forall t, p | Holds(s', t, p) ensures Current(s'.cells, p) || p in s'.pending || Retired(g', p) {
      assert Holds(s, t, p);
      if p == o {
        assert g'[|g|].obj == p;
      } else if Retired(g, p) {
        var i :| 0 <= i < |g| && g[i].obj == p;
        assert g'[i].obj == p;
      }
    }
    forall t, i | 0 <= i < |g'| && Holds(s', t, g'[i].obj) ensures s'.threads[t].localEpoch <= g'[i].epoch {
      assert Holds(s, t, g'[i].obj) && ThreadOk(s, t) && Garbage(s) == g;
      if i < |g| {
        assert Garbage(s)[i] == g'[i];
      }
    }
  }

  lemma DeferThreads(s: State, o: Obj)
    requires ThreadsInv(s)
    ensures ThreadsInv(s.(pending := s.pending - {o}, garbage := s.garbage + [GarbageEntry(o, s.epoch)]))
  {
    var s' := s.(pending := s.pending - {o}, garbage := s.garbage + [GarbageEntry(o, s.epoch)]);
    forall u | u in s'.threads ensures ThreadOk(s', u) {
      assert ThreadOk(s, u);
    }
  }

  /** `defer_free`: every thread that may hold the object pins an epoch no newer than its tag. */
  lemma DeferKeeps(s: State, o: Obj)
    requires s.writer.Running? && o in s.pending && Inv(s)
    ensures Inv(s.(pending := s.pending - {o}, garbage := s.garbage + [GarbageEntry(o, s.epoch)]))
  {
    hide ThreadsInv, HeldInv, Placed;
    DeferThreads(s, o);
    DeferHeld(s, o);
    DeferPlaced(s.cells, s.unused, s.pending, s.garbage, s.dropped, o, s.epoch);
  }

  lemma DeferStep(s: State, o: Obj)
    requires Enabled(s, Defer(o)) && Inv(s)
    ensures Inv(Apply(s, Defer(o)))
  {
    hide Inv;
    DeferKeeps(s, o);
  }

  /** Steps that move only the shared epoch and the writer, and keep the undropped entries. */
  lemma WriterFrame(s: State, epoch: nat, w: Writer)
    requires Inv(s) && s.epoch <= epoch && Undropped(w, s.garbage) == Garbage(s)
    ensures var s' := s.(epoch := epoch, writer := w); ThreadsInv(s') && ListInv(s') && ObjectsInv(s') && HeldInv(s')
  {
    var s' := s.(epoch := epoch, writer := w);
    assert Garbage(s') == Garbage(s);
    forall u | u in s'.threads ensures ThreadOk(s', u) { assert ThreadOk(s, u); }
    SameHeld(s, s');
  }

  lemma EpochStep(s: State, step: Step)
    requires Inv(s) && Enabled(s, step) && (step.Bump? || step.LoadCurrent? || step.OtherManagerBumps?)
    ensures Inv(Apply(s, step))
  {
    var s' := Apply(s, step);
    WriterFrame(s, s'.epoch, s'.writer);
    match s.writer
    case Scanning(w) => SameCover(s, s', s.garbage, w.minEpoch, Rest(s.chain, w.left));
    case Sampling(w) => SameCover(s, s', s.garbage, w.minEpoch, Rest(s.chain, w.left));
    case Sweeping(m, _, _, todo, kept) => SameCover(s, s', kept + todo, m, []);
    case Running =>
    case Bumped =>
    case Started(_) =>
  }

  /** A walk begins with every registered node ahead of it. */
  lemma LoadWorkersStep(s: State)
    requires Inv(s) && Enabled(s, LoadWorkers)
    ensures Inv(Apply(s, LoadWorkers))
  {
    var s' := Apply(s, LoadWorkers);
    WriterFrame(s, s.epoch, s'.writer);
    assert s.chain[0..] == s.chain;
    forall t, i | 0 <= i < |s.garbage| && Holds(s', t, s.garbage[i].obj) ensures t in s.chain {
      assert ThreadOk(s, t);
    }
  }

  /** Following `next` moves a walk one place towards the end of the list. */
  lemma WalkOn(chain: seq<Tid>, w: Walk, w': Walk)
    requires WalkAt(chain, w) && w.left > 0
    requires w'.cur == NodeAt(chain, |chain| - w.left + 1) && w'.left == w.left - 1 && w'.start == w.start
    requires w'.visited == w.visited + [chain[|chain| - w.left]]
    ensures WalkAt(chain, w') && Rest(chain, w.left) == [chain[|chain| - w.left]] + Rest(chain, w.left - 1)
  {
    var k, j := |chain| - w.left, |w.start| - w.left;
    assert chain[k..] == [chain[k]] + chain[k + 1..];
    assert w.start[j] == chain[|chain| - |w.start|..][j] == chain[k];
    assert w.start[..j + 1] == w.start[..j] + [chain[k]];
  }

  lemma ListNode(s: State, i: nat)
    requires ListInv(s) && i < |s.chain|
    ensures s.chain[i] in s.threads && s.threads[s.chain[i]].next == NodeAt(s.chain, i + 1)
  {
  }

  lemma WalkNode(chain: seq<Tid>, w: Walk)
    requires WalkAt(chain, w) && w.cur.Some?
    ensures 0 < w.left <= |chain| && chain[|chain| - w.left] == w.cur.value
  {
  }

  /** The node that a walk stands at. */
  lemma WalkHere(s: State, w: Walk)
    requires ListInv(s) && WalkAt(s.chain, w) && w.cur.Some?
    ensures 0 < w.left <= |s.chain|
    ensures w.cur.value in s.threads && s.chain[|s.chain| - w.left] == w.cur.value
    ensures s.threads[w.cur.value].next == NodeAt(s.chain, |s.chain| - w.left + 1)
  {
    hide ListInv, WalkAt, NodeAt;
    WalkNode(s.chain, w);
    ListNode(s, |s.chain| - w.left);
  }

  /** Passing a node accounts for its thread. */
  lemma CoverNode(s: State, g: seq<GarbageEntry>, m: nat, node: Tid, m': nat, rest: seq<Tid>)
    requires Covered(s, g, m, [node] + rest) && m' <= m
    requires node in s.threads && (s.threads[node].held != {} ==> m' <= s.threads[node].localEpoch)
    ensures Covered(s, g, m', rest)
  {
    forall t, i | 0 <= i < |g| && Holds(s, t, g[i].obj) ensures m' <= s.threads[t].localEpoch || t in rest {
    }
  }

  /** The scan invariant after a node was passed with the minimum lowered to `m'`. */
  lemma PassNode(s: State, s': State, w: Walk, w': Walk)
    requires ListInv(s) && WalkAt(s.chain, w) && w.cur.Some? && w.cur.value in s.threads
    requires Covered(s, s.garbage, w.minEpoch, Rest(s.chain, w.left))
    requires w' == Advance(s, w).(minEpoch := w'.minEpoch, samples := w'.samples) && w'.minEpoch <= w.minEpoch
    requires s.threads[w.cur.value].held != {} ==> w'.minEpoch <= s.threads[w.cur.value].localEpoch
    requires s'.threads == s.threads
    ensures WalkAt(s.chain, w') && Covered(s', s.garbage, w'.minEpoch, Rest(s.chain, w'.left))
  {
    WalkHere(s, w);
    hide ListInv, WalkAt, Covered, Rest;
    WalkOn(s.chain, w, w');
    CoverNode(s, s.garbage, w.minEpoch, w.cur.value, w'.minEpoch, Rest(s.chain, w.left - 1));
    SameCover(s, s', s.garbage, w'.minEpoch, Rest(s.chain, w'.left));
  }

  lemma HolderIsPinned(s: State, t: Tid)
    requires ThreadsInv(s) && t in s.threads
    ensures s.threads[t].held != {} ==> s.threads[t].localEpoch != 0 && !s.threads[t].offline
  {
    assert ThreadOk(s, t);
  }

  lemma OneMoreSample(current: nat, samples: seq<nat>, e: nat)
    ensures MinEpoch(current, samples + [e]) == Lower(MinEpoch(current, samples), e)
  {
    assert (samples + [e])[..|samples|] == samples;
  }

  lemma ReadOfflineStep(s: State, w: Walk)
    requires w.cur.Some? && w.cur.value in s.threads && s.writer == Scanning(w) && Inv(s)
    ensures Inv(AfterReadOffline(s, w))
  {
    hide ThreadsInv, ListInv, ObjectsInv, HeldInv, Covered, MinEpoch, WalkAt, Rest, TagsBelow;
    var s' := AfterReadOffline(s, w);
    HolderIsPinned(s, w.cur.value);
    WriterFrame(s, s.epoch, s'.writer);
    if s.threads[w.cur.value].offline {
      PassNode(s, s', w, Advance(s, w));
    } else {
      WalkHere(s, w);
      SameCover(s, s', s.garbage, w.minEpoch, Rest(s.chain, w.left));
    }
  }

  lemma ReadEpochStep(s: State, w: Walk)
    requires w.cur.Some? && w.cur.value in s.threads && s.writer == Sampling(w) && Inv(s)
    ensures Inv(AfterReadEpoch(s, w))
  {
    hide ThreadsInv, ListInv, ObjectsInv, HeldInv, Covered, MinEpoch, WalkAt, Rest, TagsBelow;
    var s' := AfterReadEpoch(s, w);
    HolderIsPinned(s, w.cur.value);
    OneMoreSample(w.current, w.samples, s.threads[w.cur.value].localEpoch);
    WriterFrame(s, s.epoch, s'.writer);
    PassNode(s, s', w, s'.writer.walk);
  }

  lemma EndScanStep(s: State, w: Walk)
    requires w.cur.None? && s.writer == Scanning(w) && Inv(s)
    ensures Inv(AfterScan(s, w))
  {
    hide ThreadsInv, ListInv, ObjectsInv, HeldInv, Covered, MinEpoch, TagsBelow;
    var s' := AfterScan(s, w);
    assert [] + Retain(s.garbage, w.minEpoch) == Retain(s.garbage, w.minEpoch);
    assert [] + s.garbage == s.garbage;
    WriterFrame(s, s'.epoch, s'.writer);
    assert Rest(s.chain, w.left) == [];
    SameCover(s, s', s.garbage, w.minEpoch, []);
  }

  lemma KeepOne(kept: seq<GarbageEntry>, todo: seq<GarbageEntry>, m: nat)
    requires todo != [] && todo[0].epoch >= m
    ensures kept + [todo[0]] + todo[1..] == kept + todo
    ensures kept + [todo[0]] + Retain(todo[1..], m) == kept + Retain(todo, m)
  {
    var e, rest := todo[0], todo[1..];
    var kept' := Retain(rest, m);
    assert Retain(todo, m) == [e] + kept';
    hide Retain;
    assert todo == [e] + rest;
    assert kept + [e] + rest == kept + ([e] + rest);
    assert kept + [e] + kept' == kept + ([e] + kept');
  }

  /** Sweeping an entry: one that is dropped has a tag below the epoch of every thread that
      holds any undropped entry, so nobody holds it. */
  lemma SweepStep(s: State, w: Writer)
    requires w.Sweeping? && w.todo != [] && s.writer == w && Inv(s)
    ensures Inv(AfterSweepOne(s, w))
  {
    var e, rest := w.todo[0], w.todo[1..];
    if e.epoch < w.minEpoch {
      DropStep(s, w);
    } else {
      hide ThreadsInv, ListInv, ObjectsInv, HeldInv, Covered, MinEpoch, TagsBelow, Retain;
      var s' := AfterSweepOne(s, w);
      KeepOne(w.kept, w.todo, w.minEpoch);
      WriterFrame(s, s.epoch, s'.writer);
      SameCover(s, s', w.kept + w.todo, w.minEpoch, []);
    }
  }

  /** Nobody holds an entry whose tag is below an epoch that covers all holders. */
  lemma Unheld(s: State, g: seq<GarbageEntry>, m: nat, i: nat)
    requires g == Garbage(s) && HeldInv(s) && Covered(s, g, m, []) && i < |g| && g[i].epoch < m
    ensures forall t :: !Holds(s, t, g[i].obj)
  {
    hide Retired, Current, Undropped;
    forall t | Holds(s, t, g[i].obj) ensures false {
    }
  }

  /** Taking entry `n` out of the undropped ones and dropping its object. */
  lemma DropPlaced(cells: map<Cell, Obj>, unused: Obj, pending: set<Obj>, g: seq<GarbageEntry>,
      dropped: seq<Obj>, n: nat)
    requires Placed(cells, unused, pending, g, dropped) && n < |g|
    ensures Placed(cells, unused, pending, g[..n] + g[n + 1..], dropped + [g[n].obj])
  {
    var g', o := g[..n] + g[n + 1..], g[n].obj;
    assert !Current(cells, o);
    forall i | 0 <= i < |g'| ensures g'[i] == g[if i < n then i else i + 1] {
    }
    assert forall c :: c in cells ==> cells[c] != o;
  }

  lemma DropHeld(s: State, s': State, g: seq<GarbageEntry>, m: nat, n: nat)
    requires g == Garbage(s) && HeldInv(s) && Covered(s, g, m, []) && n < |g| && g[n].epoch < m
    requires s'.threads == s.threads && s'.cells == s.cells && s'.pending == s.pending
    requires Garbage(s') == g[..n] + g[n + 1..]
    ensures HeldInv(s') && Covered(s', Garbage(s'), m, [])
  {
    hide Undropped, Current;
    var g' := Garbage(s');
    Unheld(s, g, m, n);
    assert forall i :: 0 <= i < |g'| ==> g'[i] == g[if i < n then i else i + 1];
    forall t, o | Holds(s', t, o) ensures Current(s'.cells, o) || o in s'.pending || Retired(g', o) {
      assert Holds(s, t, o) && o != g[n].obj;
      if Retired(g, o) {
        var i :| 0 <= i < |g| && g[i].obj == o;
        assert g'[if i < n then i else i - 1].obj == o;
      }
    }
    forall t, i | 0 <= i < |g'| && Holds(s', t, g'[i].obj)
      ensures s'.threads[t].localEpoch <= g'[i].epoch && m <= s'.threads[t].localEpoch
    {
      assert Holds(s, t, g[if i < n then i else i + 1].obj);
    }
  }

  lemma TagsWithout(g: seq<GarbageEntry>, bound: nat, n: nat)
    requires TagsBelow(g, bound) && n < |g|
    ensures TagsBelow(g[..n] + g[n + 1..], bound)
  {
    var g' := g[..n] + g[n + 1..];
    assert forall i :: 0 <= i < |g'| ==> g'[i] == g[if i < n then i else i + 1];
  }

  lemma DropStep(s: State, w: Writer)
    requires w.Sweeping? && w.todo != [] && w.todo[0].epoch < w.minEpoch && s.writer == w && Inv(s)
    ensures Inv(AfterSweepOne(s, w))
  {
    hide ThreadsInv, ListInv, HeldInv, Covered, MinEpoch, Placed, TagsBelow;
    var s' := AfterSweepOne(s, w);
    var n := |w.kept|;
    var g, g' := w.kept + w.todo, w.kept + w.todo[1..];
    assert g[n] == w.todo[0];
    assert g' == g[..n] + g[n + 1..];
    assert ThreadsInv(s') && ListInv(s') by { SameThreads(s, s'); }
    TagsWithout(g, w.current, n);
    DropPlaced(s.cells, s.unused, s.pending, g, s.dropped, n);
    DropHeld(s, s', g, w.minEpoch, n);
  }

  lemma SameThreads(s: State, s': State)
    requires ThreadsInv(s) && ListInv(s)
    requires s'.threads == s.threads && s'.head == s.head && s'.chain == s.chain && s'.epoch == s.epoch
    ensures ThreadsInv(s') && ListInv(s')
  {
    forall u | u in s'.threads ensures ThreadOk(s', u) { assert ThreadOk(s, u); }
  }

  lemma EndSweepStep(s: State)
    requires Inv(s) && Enabled(s, EndSweep)
    ensures Inv(Apply(s, EndSweep))
    ensures Apply(s, EndSweep).garbage == Retain(s.garbage, s.writer.minEpoch)
  {
    var s' := Apply(s, EndSweep);
    var kept := s.writer.kept;
    assert kept + [] == kept;
    assert Garbage(s) == kept == Garbage(s');
    forall u | u in s'.threads ensures ThreadOk(s', u) { assert ThreadOk(s, u); }
    forall t, o | Holds(s', t, o) ensures Current(s'.cells, o) || o in s'.pending || Retired(kept, o) {
      assert Holds(s, t, o);
    }
    forall t, i | 0 <= i < |kept| && Holds(s', t, kept[i].obj) ensures s'.threads[t].localEpoch <= kept[i].epoch {
      assert Holds(s, t, kept[i].obj);
    }
  }

  lemma MovedOk(s: State, step: Step)
    requires s.epoch >= 1 && MovesThread(step) && Enabled(s, step) && ThreadOk(s, step.t)
    ensures var th := Moved(s, step);
            && th.next == s.threads[step.t].next && Registered(th.pc) == Registered(s.threads[step.t].pc)
            && (forall o :: o in th.held ==> o in s.threads[step.t].held || Current(s.cells, o))
            && (th.held != {} ==> th.localEpoch == s.threads[step.t].localEpoch)
            && ThreadOk(SetThread(s, step.t, th), step.t)
  {
  }

  lemma ReaderStep(s: State, step: Step)
    requires MovesThread(step) && Enabled(s, step) && Inv(s)
    ensures Inv(Apply(s, step))
  {
    assert s.epoch >= 1 && step.t in s.threads && ThreadOk(s, step.t);
    hide Inv, Enabled, Moved, ThreadOk;
    MovedOk(s, step);
    ThreadStep(s, step.t, Moved(s, step));
  }

  lemma CasStep(s: State, t: Tid)
    requires Enabled(s, CompareExchange(t)) && Inv(s)
    ensures Inv(Apply(s, CompareExchange(t)))
  {
    if s.head == s.threads[t].pc.head {
      RegisterStep(s, t);
    } else {
      assert ThreadOk(s, t);
      hide Inv;
      ThreadStep(s, t, s.threads[t].(pc := Unregistered));
    }
  }

  /** Every step keeps the invariant. */
  lemma StepInv(s: State, step: Step)
    requires Enabled(s, step) && Inv(s)
    ensures Inv(Apply(s, step))
  {
    hide Inv;
    if MovesThread(step) {
      ReaderStep(s, step);
    } else {
      match step
      case Link(t) => LinkStep(s, t);
      case CompareExchange(t) => CasStep(s, t);
      case Swap(c) => SwapStep(s, c);
      case Defer(o) => DeferStep(s, o);
      case LoadWorkers => LoadWorkersStep(s);
      case ReadOffline => ReadOfflineStep(s, s.writer.walk);
      case ReadEpoch => ReadEpochStep(s, s.writer.walk);
      case EndScan => EndScanStep(s, s.writer.walk);
      case SweepOne => SweepStep(s, s.writer);
      case EndSweep => EndSweepStep(s);
      case _ => EpochStep(s, step);
    }
  }

  lemma {:induction false} RunInv(s: State, steps: seq<Step>)
    requires Inv(s) && Legal(s, steps)
    ensures Inv(After(s, steps))
    decreases |steps|
  {
    hide Inv, Apply, Enabled;
    if steps == [] {
    } else {
      StepInv(s, steps[0]);
      RunInv(Apply(s, steps[0]), steps[1..]);
    }
  }

  /// Main results, over every run

  /** No interleaving ever drops an object that a reader loaded since it entered. */
  lemma NoUseAfterDrop(init: State, steps: seq<Step>)
    requires Init(init) && Legal(init, steps)
    ensures var s := After(init, steps);
            forall t, o :: t in s.threads && o in s.threads[t].held ==> o !in s.dropped
  {
    InitInv(init);
    RunInv(init, steps);
    var s := After(init, steps);
    forall t, o | t in s.threads && o in s.threads[t].held ensures o !in s.dropped {
      assert Holds(s, t, o);
    }
  }

  lemma {:induction false} HeldStays(s: State, steps: seq<Step>, t: Tid, o: Obj)
    requires Legal(s, steps) && t in s.threads && o in s.threads[t].held
    requires forall i :: 0 <= i < |steps| ==> steps[i] != Leave(t)
    ensures t in After(s, steps).threads && o in After(s, steps).threads[t].held
    decreases |steps|
  {
    if steps == [] {
      assert After(s, steps) == s;
    } else {
      assert steps[0] != Leave(t);
      HeldStep(s, steps[0], t, o);
      hide Enabled, Apply;
      assert forall i :: 0 <= i < |steps[1..]| ==> steps[1..][i] == steps[i + 1];
      HeldStays(Apply(s, steps[0]), steps[1..], t, o);
    }
  }

  lemma HeldStep(s: State, step: Step, t: Tid, o: Obj)
    requires Enabled(s, step) && t in s.threads && o in s.threads[t].held && step != Leave(t)
    ensures t in Apply(s, step).threads && o in Apply(s, step).threads[t].held
  {
  }

  /** The same, said of what a reader does: the object that it loads from a cell, between an
      `enter` and the next `leave`, is not dropped before that `leave`, whatever happens
      meanwhile. */
  lemma LoadedIsSafe(init: State, before: seq<Step>, t: Tid, c: Cell, during: seq<Step>)
    requires Init(init) && Legal(init, before) && Enabled(After(init, before), LoadCell(t, c))
    requires Legal(Apply(After(init, before), LoadCell(t, c)), during)
    requires forall i :: 0 <= i < |during| ==> during[i] != Leave(t)
    ensures After(init, before).cells[c] !in After(Apply(After(init, before), LoadCell(t, c)), during).dropped
  {
    var s := After(init, before);
    var s1 := Apply(s, LoadCell(t, c));
    assert s.cells[c] in s1.threads[t].held;
    InitInv(init);
    RunInv(init, before);
    StepInv(s, LoadCell(t, c));
    hide Apply, Enabled, After, Legal;
    HeldStays(s1, during, t, s.cells[c]);
    RunInv(s1, during);
    var s2 := After(s1, during);
    hide ThreadsInv, ListInv, TagsInv, ScanInv;
    assert Holds(s2, t, s.cells[c]);
    HeldNotDropped(s2, t, s.cells[c]);
  }

  lemma HeldNotDropped(s: State, t: Tid, o: Obj)
    requires ObjectsInv(s) && HeldInv(s) && Holds(s, t, o)
    ensures o !in s.dropped
  {
  }

  /** Every object is dropped at most once, and what is dropped is neither current nor waiting. */
  lemma DroppedOnce(init: State, steps: seq<Step>)
    requires Init(init) && Legal(init, steps)
    ensures var s := After(init, steps);
            && (forall i, j :: 0 <= i < j < |s.dropped| ==> s.dropped[i] != s.dropped[j])
            && (forall o :: o in s.dropped ==> !Current(s.cells, o) && o !in s.pending && !Retired(Garbage(s), o))
  {
    InitInv(init);
    RunInv(init, steps);
  }

  /** A finished pass leaves exactly the entries whose tag is at least the minimum epoch that
      it found, in their order. */
  lemma PassRetains(init: State, steps: seq<Step>)
    requires Init(init) && Legal(init, steps) && Enabled(After(init, steps), EndSweep)
    ensures var s := After(init, steps);
            Apply(s, EndSweep).garbage == Retain(s.garbage, MinEpoch(s.writer.current, s.writer.samples))
  {
    InitInv(init);
    RunInv(init, steps);
    EndSweepStep(After(init, steps));
  }

  lemma {:induction false} RetainNone(g: seq<GarbageEntry>, m: nat)
    requires TagsBelow(g, m)
    ensures Retain(g, m) == []
  {
    if g == [] {
    } else {
      assert forall i :: 0 <= i < |g[1..]| ==> g[1..][i] == g[i + 1];
      RetainNone(g[1..], m);
    }
  }

  lemma {:induction false} AllQuiescent(current: nat, samples: seq<nat>)
    requires forall i :: 0 <= i < |samples| ==> samples[i] == 0
    ensures MinEpoch(current, samples) == current
  {
    if samples == [] {
    } else {
      AllQuiescent(current, samples[..|samples| - 1]);
    }
  }

  /** A pass that reads 0 from every online worker empties the queue. */
  lemma QuiescentPassEmpties(init: State, steps: seq<Step>)
    requires Init(init) && Legal(init, steps) && Enabled(After(init, steps), EndSweep)
    requires forall i :: 0 <= i < |After(init, steps).writer.samples| ==> After(init, steps).writer.samples[i] == 0
    ensures Apply(After(init, steps), EndSweep).garbage == []
  {
    var s := After(init, steps);
    InitInv(init);
    RunInv(init, steps);
    PassRetains(init, steps);
    AllQuiescent(s.writer.current, s.writer.samples);
    RetainNone(s.garbage, s.writer.current);
  }

  /// The list

  /** The node reached by following `next` from the head `k` times. */
  function Follow(s: State, k: nat): Option<Tid> {
    if k == 0 then s.head
    else
      var n := Follow(s, k - 1);
      if n.Some? && n.value in s.threads then s.threads[n.value].next else None
  }

  lemma {:induction false} FollowChain(s: State, k: nat)
    requires ListInv(s) && k <= |s.chain|
    ensures Follow(s, k) == NodeAt(s.chain, k)
  {
    if k == 0 {
    } else {
      FollowChain(s, k - 1);
    }
  }

  /** Following the links from the head ends after `|chain|` nodes; it meets no node twice,
      and it meets every thread whose registration has completed. */
  ghost predicate Acyclic(s: State) {
    && Follow(s, |s.chain|) == None
    && (forall j, k :: 0 <= j < k < |s.chain| ==> Follow(s, j).Some? && Follow(s, j) != Follow(s, k))
    && (forall t :: t in s.threads && Registered(s.threads[t].pc) ==> Met(s, t))
  }

  ghost predicate Met(s: State, t: Tid) {
    exists k :: 0 <= k < |s.chain| && Follow(s, k) == Some(t)
  }

  lemma FollowedChain(s: State)
    requires ListInv(s)
    ensures Acyclic(s)
  {
    FollowChain(s, |s.chain|);
    forall j, k | 0 <= j < k < |s.chain| ensures Follow(s, j).Some? && Follow(s, j) != Follow(s, k) {
      FollowChain(s, j);
      FollowChain(s, k);
    }
    forall t | t in s.threads && Registered(s.threads[t].pc) ensures Met(s, t) {
      var k :| 0 <= k < |s.chain| && s.chain[k] == t;
      FollowChain(s, k);
    }
  }

  /** The list that the links form is acyclic and complete after every run. */
  lemma ListIsAcyclic(init: State, steps: seq<Step>)
    requires Init(init) && Legal(init, steps)
    ensures Acyclic(After(init, steps))
  {
    InitInv(init);
    RunInv(init, steps);
    FollowedChain(After(init, steps));
  }

  ghost predicate EndsWith<T>(a: seq<T>, b: seq<T>) {
    |b| <= |a| && a[|a| - |b|..] == b
  }

  lemma EndsWithOn<T>(a: seq<T>, b: seq<T>, c: seq<T>)
    requires EndsWith(a, b) && EndsWith(b, c)
    ensures EndsWith(a, c)
  {
    assert a[|a| - |c|..] == a[|a| - |b|..][|b| - |c|..];
  }

  lemma StepKeepsList(s: State, step: Step)
    requires Enabled(s, step)
    ensures EndsWith(Apply(s, step).chain, s.chain)
  {
  }

  /** Registrations are never lost: the list only ever grows at its front. */
  lemma {:induction false} RegistrationsStay(s: State, steps: seq<Step>)
    requires Legal(s, steps)
    ensures EndsWith(After(s, steps).chain, s.chain)
    decreases |steps|
  {
    hide Enabled, Apply;
    if steps == [] {
      assert After(s, steps) == s;
    } else {
      var s1 := Apply(s, steps[0]);
      StepKeepsList(s, steps[0]);
      RegistrationsStay(s1, steps[1..]);
      EndsWithOn(After(s, steps).chain, s1.chain, s.chain);
    }
  }

  lemma {:induction false} WalkKeepsStart(s: State, steps: seq<Step>)
    requires Legal(s, steps) && (s.writer.Scanning? || s.writer.Sampling?)
    requires forall i :: 0 <= i < |steps| ==> !steps[i].EndScan?
    ensures var w := After(s, steps).writer; (w.Scanning? || w.Sampling?) && w.walk.start == s.writer.walk.start
    decreases |steps|
  {
    if steps == [] {
    } else {
      var s1 := Apply(s, steps[0]);
      assert !steps[0].EndScan?;
      WalkKeepsStart(s1, steps[1..]);
    }
  }

  lemma WalkStarts(s: State)
    requires Enabled(s, LoadWorkers)
    ensures var w := Apply(s, LoadWorkers).writer; w.Scanning? && w.walk.start == s.chain
  {
  }

  lemma WholeWalk(chain: seq<Tid>, w: Walk)
    requires WalkAt(chain, w) && w.cur.None?
    ensures w.visited == w.start
  {
  }

  lemma ScanEnds(s: State)
    requires Enabled(s, EndScan) && Inv(s)
    ensures s.writer.Scanning? && WalkAt(s.chain, s.writer.walk) && s.writer.walk.cur.None?
  {
    hide ThreadsInv, ListInv, ObjectsInv, HeldInv, TagsInv, Covered, WalkAt;
  }

  /** When a scan ends it has visited every thread whose registration was complete when it
      loaded the head, each once and in list order. */
  lemma ScanVisitsAll(init: State, before: seq<Step>, during: seq<Step>)
    requires Init(init) && Legal(init, before) && Enabled(After(init, before), LoadWorkers)
    requires Legal(Apply(After(init, before), LoadWorkers), during)
    requires forall i :: 0 <= i < |during| ==> !during[i].EndScan?
    requires Enabled(After(Apply(After(init, before), LoadWorkers), during), EndScan)
    ensures After(Apply(After(init, before), LoadWorkers), during).writer.walk.visited == After(init, before).chain
  {
    hide Inv, Init, Apply, Enabled, After, Legal;
    InitInv(init);
    RunInv(init, before);
    var s := After(init, before);
    var s1 := Apply(s, LoadWorkers);
    StepInv(s, LoadWorkers);
    WalkStarts(s);
    RunInv(s1, during);
    WalkKeepsStart(s1, during);
    ScanEnds(After(s1, during));
    WholeWalk(After(s1, during).chain, After(s1, during).writer.walk);
  }
}
