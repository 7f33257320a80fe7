/** The objects of src/core/qsbr.rs as one thread runs them: worker states, the linked list
    of worker nodes, and a manager's garbage queue. */
module QsbrManager {
  import opened Options
  import opened Qsbr

  /** `GLOBAL_EPOCH`. */
  class EpochCounter {
    var value: nat

    constructor ()
      ensures value == 1
    {
      value := 1;
    }

    method FetchAdd()
      modifies this
      ensures value == old(value) + 1
    {
      value := value + 1;
    }
  }

  class WorkerState {
    var localEpoch: nat
    var isOffline: bool

    constructor ()
      ensures localEpoch == 0 && !isOffline
    {
      localEpoch, isOffline := 0, false;
    }

    method Enter(global: EpochCounter)
      modifies this`localEpoch
      ensures localEpoch == global.value
    {
      var epoch := global.value;
      localEpoch := epoch;
    }

    method Leave()
      modifies this`localEpoch
      ensures localEpoch == 0
    {
      localEpoch := 0;
    }
  }

  class WorkerNode {
    const worker: WorkerState
    var next: WorkerNode?

    constructor (worker: WorkerState)
      ensures this.worker == worker && next == null
    {
      this.worker, next := worker, null;
    }
  }

  function FirstOf(nodes: seq<WorkerNode>, i: nat): WorkerNode? {
    if i < |nodes| then nodes[i] else null
  }

  /** The local epochs that a scan reads: those of the online workers, in list order. */
  ghost function Samples(nodes: seq<WorkerNode>): seq<nat>
    reads nodes, set n | n in nodes :: n.worker
  {
    if nodes == [] then []
    else
      var last := nodes[|nodes| - 1];
      Samples(nodes[..|nodes| - 1]) + (if last.worker.isOffline then [] else [last.worker.localEpoch])
  }

  /** The worker list that managers and readers share; `nodes` are its nodes from the head. */
  class WorkerList {
    var head: WorkerNode?
    ghost var nodes: seq<WorkerNode>

    ghost predicate Valid()
      reads this, nodes
    {
      && head == FirstOf(nodes, 0)
      && (forall i :: 0 <= i < |nodes| ==> nodes[i].next == FirstOf(nodes, i + 1))
      && (forall i, j :: 0 <= i < j < |nodes| ==> nodes[i] != nodes[j])
    }

    constructor ()
      ensures Valid() && nodes == []
    {
      head, nodes := null, [];
    }

    /** Another thread's registration, from its successful compare-exchange. */
    method RivalRegisters()
      requires Valid()
      modifies this
      ensures Valid() && |nodes| == |old(nodes)| + 1 && nodes[1..] == old(nodes) && fresh(nodes[0]) && head == nodes[0]
    {
      var worker := new WorkerState();
      var node := new WorkerNode(worker);
      node.next := head;
      head := node;
      nodes := [node] + nodes;
      assert forall i :: 0 < i < |nodes| ==> nodes[i] == old(nodes)[i - 1];
    }

    /** `rivals` other threads register, one after the other. */
    method Interfere(rivals: nat)
      requires Valid()
      modifies this
      ensures Valid() && |nodes| == |old(nodes)| + rivals && nodes[rivals..] == old(nodes)
      ensures forall i :: 0 <= i < rivals ==> fresh(nodes[i])
      ensures if rivals == 0 then head == old(head) else head == nodes[0]
    {
      for i := 0 to rivals
        invariant Valid() && |nodes| == |old(nodes)| + i && nodes[i..] == old(nodes)
        invariant forall j :: 0 <= j < i ==> fresh(nodes[j])
        invariant if i == 0 then head == old(head) else head == nodes[0]
      {
        ghost var before := nodes;
        RivalRegisters();
        assert forall j :: 0 < j < |nodes| ==> nodes[j] == before[j - 1];
        assert nodes[i + 1..] == before[i..];
      }
    }

    /** One turn of the loop in `register_worker`: load the head, link, compare-exchange.
        Meanwhile `rivals` other threads register. */
    method Attempt(node: WorkerNode, rivals: nat) returns (linked: bool)
      requires Valid() && node !in nodes
      modifies this, node`next
      ensures Valid() && (linked <==> rivals == 0)
      ensures linked ==> nodes == [node] + old(nodes)
      ensures !linked ==> |nodes| == |old(nodes)| + rivals && nodes[rivals..] == old(nodes) && node !in nodes
    {
      var loaded := head;
      node.next := loaded;
      Interfere(rivals);
      linked := head == loaded;
      if linked {
        assert nodes[0..] == nodes;
        head := node;
        nodes := [node] + nodes;
        assert forall i :: 0 < i < |nodes| ==> nodes[i] == old(nodes)[i - 1];
      } else {
        assert forall i :: rivals <= i < |nodes| ==> nodes[i] == old(nodes)[i - rivals];
      }
    }

    /** `register_worker`: `rivals[k]` other threads register during the `k`-th attempt. No
        registration is lost, neither this one nor any other: those that made an attempt fail
        are all in the list. */
    method Register(rivals: seq<nat>) returns (worker: WorkerState)
      requires Valid()
      modifies this
      ensures Valid() && fresh(worker) && worker.localEpoch == 0 && !worker.isOffline
      ensures EndsWith(nodes, old(nodes)) && |nodes| == |old(nodes)| + Overtook(rivals) + 1
      ensures fresh(nodes[0]) && nodes[0].worker == worker
      ensures rivals == [] ==> nodes[1..] == old(nodes)
    {
      hide EndsWith;
      worker := new WorkerState();
      var node := new WorkerNode(worker);
      EndsWithItself(nodes);
      var linked := false;
      for k := 0 to |rivals|
        invariant Valid() && EndsWith(nodes, old(nodes))
        invariant |nodes| + Overtook(rivals[k..]) == |old(nodes)| + Overtook(rivals)
        invariant fresh(node) && node.worker == worker && worker.localEpoch == 0 && !worker.isOffline
        invariant node !in nodes && (k == 0 ==> nodes == old(nodes))
      {
        ghost var before := nodes;
        assert rivals[k..][0] == rivals[k] && rivals[k..][1..] == rivals[k + 1..];
        linked := Attempt(node, rivals[k]);
        if linked {
          EndsWithPushed(nodes, 1, before, old(nodes));
          return;
        }
        EndsWithPushed(nodes, rivals[k], before, old(nodes));
      }
      ghost var before := nodes;
      linked := Attempt(node, 0);
      EndsWithPushed(nodes, 1, before, old(nodes));
    }
  }

  /** How many threads register during attempts that fail: an attempt fails exactly when
      somebody does. */
  function Overtook(rivals: seq<nat>): nat {
    if rivals == [] || rivals[0] == 0 then 0 else rivals[0] + Overtook(rivals[1..])
  }

  lemma EndsWithItself(a: seq<WorkerNode>)
    ensures EndsWith(a, a)
  {
  }

  lemma EndsWithPushed(a: seq<WorkerNode>, n: nat, b: seq<WorkerNode>, c: seq<WorkerNode>)
    requires n <= |a| && a[n..] == b && EndsWith(b, c)
    ensures EndsWith(a, c)
  {
    assert a[|a| - |c|..] == a[n..][|b| - |c|..];
  }

  class Manager {
    const workers: WorkerList
    var garbage: seq<GarbageEntry>

    constructor (workers: WorkerList)
      ensures this.workers == workers && garbage == []
    {
      this.workers, garbage := workers, [];
    }

    /** `defer_free`, with `None` for a null pointer. */
    method DeferFree(obj: Option<Obj>, global: EpochCounter)
      modifies this`garbage
      ensures garbage == old(garbage) + if obj.None? then [] else [GarbageEntry(obj.value, global.value)]
    {
      if obj.None? {
        return;
      }
      garbage := garbage + [GarbageEntry(obj.value, global.value)];
    }

    /** The walk of `maintenance` over the worker list. */
    method OldestEpoch(current: nat) returns (minEpoch: nat)
      requires workers.Valid()
      ensures minEpoch == MinEpoch(current, Samples(workers.nodes))
    {
      hide MinEpoch;
      minEpoch := current;
      var cur := workers.head;
      ghost var nodes, i := workers.nodes, 0;
      assert MinEpoch(current, []) == current by { MinEpochIsLeast(current, []); }
      while cur != null
        invariant i <= |nodes| && cur == FirstOf(nodes, i)
        invariant minEpoch == MinEpoch(current, Samples(nodes[..i]))
        decreases |nodes| - i
      {
        assert nodes[..i + 1][..i] == nodes[..i];
        if !cur.worker.isOffline {
          var epoch := cur.worker.localEpoch;
          OneMoreSample(current, Samples(nodes[..i]), epoch);
          if epoch != 0 && epoch < minEpoch {
            minEpoch := epoch;
          }
        } else {
          assert Samples(nodes[..i]) + [] == Samples(nodes[..i]);
        }
        cur := cur.next;
        i := i + 1;
      }
      assert nodes[..i] == nodes;
    }

    /** One undisturbed pass. It keeps exactly the entries that are as young as the oldest
        online reader, drops the others, and moves the epoch on. */
    method Maintenance(global: EpochCounter) returns (dropped: seq<GarbageEntry>)
      requires workers.Valid()
      modifies this`garbage, global
      ensures var m := MinEpoch(old(global.value) + 1, old(Samples(workers.nodes)));
              && garbage == Retain(old(garbage), m) && dropped == Discard(old(garbage), m)
              && global.value == old(global.value) + if m == old(global.value) + 1 then 2 else 1
    {
      hide MinEpoch, Retain, Discard, Samples;
      global.FetchAdd();
      var current := global.value;
      var minEpoch := OldestEpoch(current);
      if minEpoch == current {
        global.FetchAdd();
      }
      dropped := RetainFrom(minEpoch);
    }

    /** `self.garbage.retain(|entry| entry.epoch >= min_epoch)`. */
    method RetainFrom(minEpoch: nat) returns (dropped: seq<GarbageEntry>)
      modifies this`garbage
      ensures garbage == Retain(old(garbage), minEpoch) && dropped == Discard(old(garbage), minEpoch)
    {
      var kept: seq<GarbageEntry> := [];
      dropped := [];
      for i := 0 to |garbage|
        invariant garbage == old(garbage)
        invariant kept + Retain(garbage[i..], minEpoch) == Retain(garbage, minEpoch)
        invariant dropped + Discard(garbage[i..], minEpoch) == Discard(garbage, minEpoch)
      {
        var entry := garbage[i];
        assert garbage[i..][0] == entry && garbage[i..][1..] == garbage[i + 1..];
        if entry.epoch >= minEpoch {
          kept := kept + [entry];
        } else {
          dropped := dropped + [entry];
        }
      }
      garbage := kept;
    }
  }
}
