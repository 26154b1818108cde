// The processor, the ready queues and the device queues.
module Scheduling {
  import opened Allocator
  import opened ReadyQueues

  // The devices of one type, each with its queue.
  class IODevice {
    var container: seq<seq<Process>>
    const size: nat

    constructor (s: nat)
      ensures size == s && |container| == s && AllOf(container) == multiset{}
    {
      container := seq(s, i => []);
      size := s;
      new;
      AllEmpty(container);
    }

    method AddProcess(i: nat, toAdd: Process)
      requires i < |container|
      modifies this
      ensures container == old(container)[i := old(container)[i] + [toAdd]]
      ensures AllOf(container) == AllOf(old(container)) + multiset{toAdd}
    {
      AllPush(container, i, toAdd);
      container := container[i := container[i] + [toAdd]];
    }

    // The first process of queue i leaves it.
    method PopFront(i: nat) returns (p: Process)
      requires i < |container| && container[i] != []
      modifies this
      ensures p == old(container)[i][0] && container == old(container)[i := old(container)[i][1..]]
      ensures AllOf(old(container)) == AllOf(container) + multiset{p}
    {
      p := container[i][0];
      AllPush(container[i := container[i][1..]], i, p);
      AllPop(container, i);
      container := container[i := container[i][1..]];
    }
  }

  // Everyone in some queue, as often as they stand there.
  ghost function AllOf(qs: seq<seq<Process>>): multiset<Process> {
    if qs == [] then multiset{} else multiset(qs[0]) + AllOf(qs[1..])
  }

  lemma {:induction false} AllEmpty(qs: seq<seq<Process>>)
    requires forall i :: 0 <= i < |qs| ==> qs[i] == []
    ensures AllOf(qs) == multiset{}
  {
    if qs != [] {
      AllEmpty(qs[1..]);
    }
  }

  lemma {:induction false} AllChange(qs: seq<seq<Process>>, i: nat, q: seq<Process>)
    requires i < |qs|
    ensures AllOf(qs[i := q]) + multiset(qs[i]) == AllOf(qs) + multiset(q)
  {
    if i == 0 {
      assert qs[0 := q][1..] == qs[1..];
    } else {
      assert qs[i := q][1..] == qs[1..][i - 1 := q];
      AllChange(qs[1..], i - 1, q);
      Swap(multiset(qs[0]), AllOf(qs[1..][i - 1 := q]), multiset(qs[i]), AllOf(qs[1..]), multiset(q));
    }
  }

  lemma Swap(m: multiset<Process>, a: multiset<Process>, b: multiset<Process>, c: multiset<Process>, d: multiset<Process>)
    requires a + b == c + d
    ensures (m + a) + b == (m + c) + d
  {
    assert (m + a) + b == m + (a + b) && (m + c) + d == m + (c + d);
  }

  lemma Cancel(a: multiset<Process>, b: multiset<Process>, c: multiset<Process>)
    requires a + c == b + c
    ensures a == b
  {
    forall x ensures a[x] == b[x] {
      assert (a + c)[x] == (b + c)[x];
    }
  }

  lemma AllPush(qs: seq<seq<Process>>, i: nat, p: Process)
    requires i < |qs|
    ensures AllOf(qs[i := qs[i] + [p]]) == AllOf(qs) + multiset{p}
  {
    AllChange(qs, i, qs[i] + [p]);
    assert AllOf(qs) + multiset(qs[i] + [p]) == (AllOf(qs) + multiset{p}) + multiset(qs[i]);
    Cancel(AllOf(qs[i := qs[i] + [p]]), AllOf(qs) + multiset{p}, multiset(qs[i]));
  }

  lemma AllPop(qs: seq<seq<Process>>, i: nat)
    requires i < |qs| && qs[i] != []
    ensures AllOf(qs) == AllOf(qs[i := qs[i][1..]]) + multiset{qs[i][0]}
  {
    var q, x := qs[i][1..], qs[i][0];
    AllChange(qs, i, q);
    assert qs[i] == [x] + q;
    assert AllOf(qs[i := q]) + multiset(qs[i]) == (AllOf(qs[i := q]) + multiset{x}) + multiset(q);
    Cancel(AllOf(qs), AllOf(qs[i := q]) + multiset{x}, multiset(q));
  }

  // Nobody runs after nobody was ready; otherwise the earliest of the highest priority does.
  ghost predicate Succeeds(before: seq<Process>, prio: map<Process, int>, p: Process?, after: seq<Process>) {
    if p == null then before == [] && after == []
    else
      var q: Process := p;
      exists at: nat :: TakenAt(before, prio, at, q, after)
  }

  // The priority that p has to beat.
  ghost function PriorityOf(prio: map<Process, int>, p: Process?): int {
    if p != null && p in prio then prio[p] else -1
  }

  // p became ready: it runs if it outranks the process that ran, which then is the last to have become
  // ready; otherwise it is itself the last.
  ghost predicate Joins(p: Process, prio: map<Process, int>, ran: Process?, before: seq<Process>, runs: Process?, after: seq<Process>) {
    if PriorityOf(prio, p) > PriorityOf(prio, ran)
    then runs == p && after == before + (if ran == null then [] else [ran])
    else runs == ran && after == before + [p]
  }

  // The processes' own records show the priorities.
  ghost predicate ShowsPriorities(prio: map<Process, int>)
    reads prio.Keys
  {
    forall p {:trigger prio[p]} :: p in prio ==> p.priority == prio[p]
  }

  class Scheduler {
    var currentProcess: Process?
    var rQ: seq<seq<Process>>
    ghost var ready: seq<Process>          // the ready processes in order of arrival
    ghost var prio: map<Process, int>      // the priorities of all processes in memory

    constructor ()
      ensures Valid() && currentProcess == null && ready == [] && prio == map[]
    {
      currentProcess, rQ, ready, prio := null, seq(LEVELS, i => []), [], map[];
    }

    ghost predicate Queues()
      reads this
    {
      Split(rQ, ready, prio) && Levelled(ready, prio)
    }

    // The running process has the highest priority; when nobody runs, nobody is ready.
    ghost predicate Valid()
      reads this
    {
      && Queues()
      && (currentProcess == null ==> ready == [])
      && (currentProcess != null ==>
            currentProcess in prio && 0 <= prio[currentProcess] && forall p :: p in ready ==> prio[p] <= prio[currentProcess])
    }

    ghost function RunningPriority(): int
      reads this
    {
      PriorityOf(prio, currentProcess)
    }

    // The processes running or ready.
    ghost function Here(): multiset<Process>
      reads this
    {
      multiset(ready) + if currentProcess == null then multiset{} else multiset{currentProcess}
    }

    method CurrentPriority() returns (r: int)
      requires Valid() && ShowsPriorities(prio)
      ensures r == RunningPriority()
    {
      if currentProcess != null {
        return currentProcess.priority;
      }
      return -1;
    }

    // A process that outranks the running one runs at once; any other queues up.
    method AddProcess(p: Process)
      requires Valid() && ShowsPriorities(prio) && p in prio && 0 <= prio[p] < LEVELS
      modifies this
      ensures Valid() && prio == old(prio) && Here() == old(Here()) + multiset{p}
      ensures Joins(p, prio, old(currentProcess), old(ready), currentProcess, ready)
      decreases if p in prio && prio[p] > RunningPriority() then 2 else 0
    {
      var priority := p.priority;
      var current := CurrentPriority();
      if priority > current {
        ContextSwitch(p);
      } else {
        SplitPush(rQ, ready, prio, p);
        rQ := rQ[priority := rQ[priority] + [p]];
        ready := ready + [p];
      }
    }

    method ContextSwitch(otherProcess: Process)
      requires Valid() && ShowsPriorities(prio) && otherProcess in prio && RunningPriority() < prio[otherProcess] < LEVELS
      requires 0 <= prio[otherProcess]
      modifies this
      ensures Valid() && prio == old(prio) && currentProcess == otherProcess
      ensures ready == old(ready) + if old(currentProcess) == null then [] else [old(currentProcess)]
      decreases 1
    {
      if currentProcess != null {
        AddProcess(currentProcess);
      }
      currentProcess := otherProcess;
    }

    // The earliest of the ready processes with the highest priority leaves its queue; at is its place
    // in the order of arrival.
    method ChooseNewProcess() returns (p: Process?, ghost at: nat)
      requires Queues()
      modifies this`rQ, this`ready
      ensures Queues()
      ensures p == null ==> old(ready) == [] && ready == []
      ensures p != null ==>
                var q: Process := p; TakenAt(old(ready), prio, at, q, ready)
    {
      var i := 4;
      while i >= 0 && rQ[i] == []
        invariant -1 <= i <= 4 && forall l :: i < l < LEVELS ==> rQ[l] == []
        modifies {}
      {
        i := i - 1;
      }
      forall j | 0 <= j < |ready| ensures prio[ready[j]] <= i {
        NoneAbove(rQ, ready, prio, i, ready[j]);
      }
      assert ready != [] ==> 0 <= prio[ready[0]] <= i;
      p, at := null, 0;
      if i >= 0 {
        SplitPop(rQ, ready, prio, i);
        at := FirstAt(ready, prio, i);
        forall j | 0 <= j < at ensures prio[ready[j]] < i {
          NoneBefore(ready, prio, i, j);
        }
        p := rQ[i][0];
        rQ := rQ[i := rQ[i][1..]];
        ready := ready[..at] + ready[at + 1..];
      }
    }

    // The running process has left; the next one runs.
    method RunNext()
      requires Queues()
      modifies this`rQ, this`ready, this`currentProcess
      ensures Valid() && Here() == old(multiset(ready)) && Succeeds(old(ready), prio, currentProcess, ready)
    {
      ghost var ready0, at := ready, 0;
      currentProcess, at := ChooseNewProcess();
      if currentProcess != null {
        TakenOut(ready0, at);
      }
    }

    // A new process is in memory.
    ghost method Admit(p: Process, k: int)
      requires Valid() && p !in prio && 0 <= k < LEVELS
      modifies this`prio
      ensures Valid() && prio == old(prio)[p := k] && currentProcess != p
    {
      SplitForget(rQ, ready, prio, prio[p := k]);
      prio := prio[p := k];
    }

    // The running process is no longer in memory.
    ghost method Dismiss(p: Process)
      requires Valid() && currentProcess == p && p !in ready
      modifies this`prio
      ensures Queues() && prio == old(prio) - {p}
    {
      SplitForget(rQ, ready, prio, prio - {p});
      prio := prio - {p};
    }
  }

  lemma TakenOut(s: seq<Process>, i: nat)
    requires i < |s|
    ensures multiset(s) == multiset(s[..i] + s[i + 1..]) + multiset{s[i]}
  {
    assert s == s[..i] + [s[i]] + s[i + 1..];
  }
}
