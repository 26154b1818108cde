// The simulator: memory, scheduler and devices under the commands typed at the console.
module Machine {
  import opened Blocks
  import opened Allocator
  import opened ReadyQueues
  import opened Scheduling

  // The priorities of exactly the processes in memory.
  ghost predicate Matches(live: set<(Process, Block)>, prio: map<Process, int>) {
    && (forall x {:trigger x in live} :: x in live ==> x.0 in prio && x.1.Held? && prio[x.0] == x.1.priority)
    && (forall p {:trigger p in prio} :: p in prio ==> exists x :: x in live && x.0 == p)
  }

  ghost predicate InRange(prio: map<Process, int>) {
    forall p :: p in prio ==> 0 <= prio[p] < LEVELS
  }

  class Simulator {
    const ram: Memory
    const scheduler: Scheduler
    const harddisks: IODevice
    const printers: IODevice

    // Every process in memory stands in exactly one place: the processor, a ready queue or a device
    // queue; and whoever stands there is in memory.
    ghost predicate Placed()
      reads this, scheduler, harddisks, printers
    {
      scheduler.Here() + AllOf(harddisks.container) + AllOf(printers.container) == multiset(scheduler.prio.Keys)
    }

    ghost predicate Apart() {
      harddisks != printers
    }

    ghost predicate Scheduled()
      reads this, scheduler, harddisks, printers
    {
      && Apart() && scheduler.Valid() && InRange(scheduler.prio) && Placed()
      && harddisks.size >= 1 && printers.size >= 1 && |harddisks.container| == harddisks.size && |printers.container| == printers.size
    }

    ghost predicate Resident()
      reads this, ram, scheduler
    {
      |ram.nodes| == |ram.blocks| && Matches(Live(ram.nodes, ram.blocks), scheduler.prio)
    }

    ghost predicate Valid()
      reads this, ram, ram.nodes, scheduler, harddisks, printers
    {
      ram.Valid() && Scheduled() && Resident()
    }

    constructor (bytes: int, disks: nat, prints: nat, repaired: bool)
      requires bytes >= 1 && disks >= 1 && prints >= 1
      ensures Valid() && ram.blocks == [Hole(0, bytes)] && scheduler.prio == map[] && scheduler.currentProcess == null
      ensures harddisks.size == disks && printers.size == prints && ram.repaired == repaired && ram.numOfProcesses == 1
    {
      ram := new Memory(bytes, repaired);
      scheduler := new Scheduler();
      harddisks := new IODevice(disks);
      printers := new IODevice(prints);
    }

    // Where a process is in memory.
    lemma InMemory(p: Process) returns (i: nat)
      requires ram.Strung() && Resident() && p in scheduler.prio
      ensures i < |ram.nodes| && ram.nodes[i] == p && ram.blocks[i].Held? && ram.blocks[i].priority == scheduler.prio[p]
      ensures !p.empty && p.priority == scheduler.prio[p]
    {
      var x :| x in Live(ram.nodes, ram.blocks) && x.0 == p;
      i :| 0 <= i < |ram.nodes| && ram.blocks[i].Held? && x == (ram.nodes[i], ram.blocks[i]);
      assert ShowsAt(ram.nodes, ram.blocks, i);
    }

    lemma RecordsShow()
      requires ram.Strung() && Resident()
      ensures ShowsPriorities(scheduler.prio)
    {
      forall p | p in scheduler.prio ensures p.priority == scheduler.prio[p] {
        var i := InMemory(p);
      }
    }

    ghost predicate SameScheduler(ran: Process?, ready: seq<Process>, prio: map<Process, int>)
      reads scheduler
    {
      scheduler.currentProcess == ran && scheduler.ready == ready && scheduler.prio == prio
    }

    // A new process in memory is handed to the scheduler.
    method Start(temp: Process, ghost k: int)
      requires ram.Strung() && Scheduled() && |ram.nodes| == |ram.blocks| && temp !in scheduler.prio && 0 <= k < LEVELS
      requires Matches(Live(ram.nodes, ram.blocks), scheduler.prio[temp := k])
      modifies scheduler
      ensures Scheduled() && Resident() && scheduler.prio == old(scheduler.prio)[temp := k]
      ensures ram.Strung() && (Valid() <==> old(ram.Valid()))
      ensures Joins(temp, scheduler.prio, old(scheduler.currentProcess), old(scheduler.ready), scheduler.currentProcess, scheduler.ready)
    {
      Admit(temp, k);
      RecordsShow();
      MakeReady(temp);
    }

    // Known to the scheduler, but not yet in its place.
    ghost method Admit(temp: Process, k: int)
      requires Scheduled() && temp !in scheduler.prio && 0 <= k < LEVELS
      modifies scheduler
      ensures Waiting(temp) && scheduler.prio == old(scheduler.prio)[temp := k]
      ensures scheduler.currentProcess == old(scheduler.currentProcess) && scheduler.ready == old(scheduler.ready)
    {
      ghost var keys := scheduler.prio.Keys;
      assert multiset(keys + {temp}) == multiset(keys) + multiset{temp};
      scheduler.Admit(temp, k);
      assert scheduler.prio.Keys == keys + {temp};
      OneMore(scheduler.Here(), temp, AllOf(harddisks.container), AllOf(printers.container));
    }

    // Every process but p is in its place.
    ghost predicate Waiting(p: Process)
      reads this, scheduler, harddisks, printers
    {
      && Apart() && scheduler.Valid() && InRange(scheduler.prio) && p in scheduler.prio
      && scheduler.Here() + multiset{p} + AllOf(harddisks.container) + AllOf(printers.container) == multiset(scheduler.prio.Keys)
      && harddisks.size >= 1 && printers.size >= 1 && |harddisks.container| == harddisks.size && |printers.container| == printers.size
    }

    method MakeReady(temp: Process)
      requires Waiting(temp) && ShowsPriorities(scheduler.prio)
      modifies scheduler
      ensures Scheduled() && scheduler.prio == old(scheduler.prio)
      ensures Joins(temp, scheduler.prio, old(scheduler.currentProcess), old(scheduler.ready), scheduler.currentProcess, scheduler.ready)
    {
      scheduler.AddProcess(temp);
    }

    // The allocator's part of command A.
    method Reserve(priority: int, size: nat) returns (temp: Process?)
      requires ram.Valid() && Resident()
      modifies ram, ram.nodes
      ensures temp == null ==> ram.Valid()
      ensures ram.Strung() && |ram.nodes| == |ram.blocks| && (temp == null <==> FirstFit(old(ram.blocks), size) == -1)
      ensures ram.Valid() <==> !LeavesEmptyBlock(old(ram.blocks), size) && (ram.repaired || !LeavesStaleLink(old(ram.blocks), size))
      ensures temp == null ==> Resident() && ram.blocks == old(ram.blocks)
      ensures temp != null ==>
                ram.blocks == Allocate(old(ram.blocks), FirstFit(old(ram.blocks), size), old(ram.numOfProcesses), Clamped(priority), size)
      ensures temp != null ==> ram.numOfProcesses == old(ram.numOfProcesses) + 1 && temp.processNumber == old(ram.numOfProcesses)
      ensures temp == null ==> ram.numOfProcesses == old(ram.numOfProcesses)
      ensures temp != null ==> Grants(priority, temp.priority) && temp.priority == Clamped(priority)
      ensures temp != null ==> fresh(temp) && Matches(Live(ram.nodes, ram.blocks), scheduler.prio[temp := Clamped(priority)])
    {
      ghost var nodes0, blocks0, prio0 := ram.nodes, ram.blocks, scheduler.prio;
      ghost var n0 := ram.numOfProcesses;
      temp := ram.Insert(priority, size);
      if temp != null {
        ghost var k := FirstFit(blocks0, size);
        LiveAllocated(nodes0, blocks0, ram.nodes, k, n0, Clamped(priority), size, temp);
        MatchesMore(Live(nodes0, blocks0), prio0, temp, Held(n0, Clamped(priority), blocks0[k].start, size));
      }
    }

    // Command A: a process of that priority and size, in the first hole that fits.
    // It runs at once if it outranks the running process; without a hole the scheduler is as before.
    method Insert(priority: int, size: nat) returns (created: bool, ghost p: Process?)
      requires Valid()
      modifies ram, ram.nodes, scheduler
      ensures ram.Strung() && Scheduled() && Resident()
      ensures created <==> FirstFit(old(ram.blocks), size) != -1
      ensures if created
              then ram.blocks == Allocate(old(ram.blocks), FirstFit(old(ram.blocks), size), old(ram.numOfProcesses), Clamped(priority), size)
              else ram.blocks == old(ram.blocks)
      ensures created <==> p != null
      ensures p != null ==>
                && fresh(p) && scheduler.prio == old(scheduler.prio)[p := Clamped(priority)]
                && Joins(p, scheduler.prio, old(scheduler.currentProcess), old(scheduler.ready), scheduler.currentProcess, scheduler.ready)
      ensures ram.numOfProcesses == old(ram.numOfProcesses) + if created then 1 else 0
      ensures p != null ==>
                p.processNumber == old(ram.numOfProcesses) && p.priority == scheduler.prio[p] && Grants(priority, scheduler.prio[p])
      ensures p == null ==> SameScheduler(old(scheduler.currentProcess), old(scheduler.ready), old(scheduler.prio))
      ensures Valid() <==> !LeavesEmptyBlock(old(ram.blocks), size) && (ram.repaired || !LeavesStaleLink(old(ram.blocks), size))
    {
      var temp := Reserve(priority, size);
      created, p := temp != null, temp;
      if temp == null {
        return;
      }
      Start(temp, Clamped(priority));
      assert p.priority == Clamped(priority) == scheduler.prio[p];
    }

    // The memory of a process is freed.
    method Vacate(p: Process, ghost i: nat)
      requires ram.Valid() && Resident() && i < |ram.nodes| && ram.nodes[i] == p && ram.blocks[i].Held? && !p.empty
      modifies ram, ram.nodes
      ensures ram.Rows() && Sound(ram.blocks, ram.maxVal) && ram.blocks == Free(old(ram.blocks), i)
      ensures ram.Valid() <==> ram.repaired || !LosesRoot(old(ram.blocks), ram.maxVal, i)
      ensures |ram.nodes| == |ram.blocks| && Matches(Live(ram.nodes, ram.blocks), scheduler.prio - {p})
    {
      ghost var live, b := Live(ram.nodes, ram.blocks), ram.blocks[i];
      OneBlockEach(ram.nodes, ram.blocks, i);
      MatchesLess(live, scheduler.prio, p, b);
      ram.DeleteProcess(p, i);
    }

    // The running process leaves the machine for good, another takes its place.
    method Replace(p: Process)
      requires Scheduled() && scheduler.currentProcess == p
      requires ram.Rows() && |ram.nodes| == |ram.blocks| && Matches(Live(ram.nodes, ram.blocks), scheduler.prio - {p})
      modifies scheduler
      ensures ram.Rows() && Resident() && (Valid() <==> old(ram.Valid()))
      ensures Scheduled() && scheduler.prio == old(scheduler.prio) - {p}
      ensures Succeeds(old(scheduler.ready), scheduler.prio, scheduler.currentProcess, scheduler.ready)
    {
      ghost var keys, ready := scheduler.prio.Keys, scheduler.ready;
      assert p !in ready by {
        assert multiset(keys)[p] <= 1;
        assert scheduler.Here() == multiset(ready) + multiset{p};
      }
      assert multiset(keys) == multiset(keys - {p}) + multiset{p};
      scheduler.Dismiss(p);
      assert scheduler.prio.Keys == keys - {p};
      scheduler.RunNext();
      Cancel(multiset(ready) + AllOf(harddisks.container) + AllOf(printers.container), multiset(keys - {p}), multiset{p});
    }

    // Command t: the running process ends. Its memory is freed and the next process runs.
    method FinishProcess()
      requires Valid()
      modifies ram, ram.nodes, scheduler
      ensures ram.Rows() && Scheduled() && Resident()
      ensures old(scheduler.currentProcess) == null ==>
                Valid() && ram.blocks == old(ram.blocks) && SameScheduler(null, old(scheduler.ready), old(scheduler.prio))
      ensures old(scheduler.currentProcess) != null ==>
                && scheduler.prio == old(scheduler.prio) - {old(scheduler.currentProcess)}
                && Succeeds(old(scheduler.ready), scheduler.prio, scheduler.currentProcess, scheduler.ready)
      ensures old(scheduler.currentProcess) != null ==>
                exists i: nat ::
                  && i < |old(ram.nodes)| && old(ram.nodes)[i] == old(scheduler.currentProcess)
                  && ram.blocks == Free(old(ram.blocks), i)
                  && (Valid() <==> ram.repaired || !LosesRoot(old(ram.blocks), ram.maxVal, i))
    {
      if scheduler.currentProcess == null {
        return;
      }
      var p: Process := scheduler.currentProcess;
      ghost var i := InMemory(p);
      Vacate(p, i);
      Replace(p);
      assert i < |old(ram.nodes)| && old(ram.nodes)[i] == p;
    }

    // Commands d and p: the running process goes to a device queue, the index being brought into range.
    method SendToDevice(i: int, dev: IODevice)
      requires Valid() && (dev == harddisks || dev == printers)
      modifies scheduler, dev
      ensures Valid()
      ensures Sent(old(scheduler.currentProcess), if i < 0 then 0 else if i > dev.size - 1 then dev.size - 1 else i, old(dev.container), dev.container)
      ensures scheduler.prio == old(scheduler.prio)
      ensures old(scheduler.currentProcess) == null ==> SameScheduler(null, old(scheduler.ready), old(scheduler.prio))
      ensures old(scheduler.currentProcess) != null ==>
                Succeeds(old(scheduler.ready), scheduler.prio, scheduler.currentProcess, scheduler.ready)
    {
      var k := i;
      if k < 0 {
        k := 0;
      } else if k > dev.size - 1 {
        k := dev.size - 1;
      }
      if scheduler.currentProcess != null {
        Send(scheduler.currentProcess, k, dev);
      }
    }

    // A process, if any, is at the end of queue k; the other queues are as before.
    static ghost predicate Sent(p: Process?, k: nat, before: seq<seq<Process>>, after: seq<seq<Process>>) {
      if p == null then after == before
      else k < |before| && |after| == |before| && after == before[k := after[k]] && |after[k]| == |before[k]| + 1
           && after[k][..|before[k]|] == before[k] && after[k][|before[k]|] == p
    }

    method Send(p: Process, k: nat, dev: IODevice)
      requires Scheduled() && (dev == harddisks || dev == printers) && k < |dev.container| && scheduler.currentProcess == p
      modifies scheduler, dev
      ensures Scheduled() && scheduler.prio == old(scheduler.prio)
      ensures Sent(p, k, old(dev.container), dev.container)
      ensures Succeeds(old(scheduler.ready), scheduler.prio, scheduler.currentProcess, scheduler.ready)
    {
      Enqueue(p, k, dev);
      scheduler.RunNext();
    }

    method Enqueue(p: Process, k: nat, dev: IODevice)
      requires Scheduled() && (dev == harddisks || dev == printers) && k < |dev.container| && scheduler.currentProcess == p
      modifies dev
      ensures dev.container == old(dev.container)[k := old(dev.container)[k] + [p]]
      ensures multiset(scheduler.ready) + AllOf(harddisks.container) + AllOf(printers.container) == multiset(scheduler.prio.Keys)
    {
      dev.AddProcess(k, p);
    }

    // Commands D and P: the first process of a device queue, if any, is ready again.
    method ReleaseProcess(i: nat, dev: IODevice)
      requires Valid() && (dev == harddisks || dev == printers) && i < dev.size
      modifies scheduler, dev
      ensures Valid() && scheduler.prio == old(scheduler.prio)
      ensures if old(dev.container)[i] == []
              then dev.container == old(dev.container) && SameScheduler(old(scheduler.currentProcess), old(scheduler.ready), old(scheduler.prio))
              else dev.container == old(dev.container)[i := old(dev.container)[i][1..]]
                   && Joins(old(dev.container)[i][0], scheduler.prio, old(scheduler.currentProcess), old(scheduler.ready),
                            scheduler.currentProcess, scheduler.ready)
    {
      RecordsShow();
      if dev.container[i] != [] {
        Release(i, dev);
      }
    }

    method Release(i: nat, dev: IODevice)
      requires Scheduled() && (dev == harddisks || dev == printers) && i < |dev.container| && dev.container[i] != []
      requires ShowsPriorities(scheduler.prio)
      modifies scheduler, dev
      ensures Scheduled() && scheduler.prio == old(scheduler.prio)
      ensures dev.container == old(dev.container)[i := old(dev.container)[i][1..]]
      ensures Joins(old(dev.container)[i][0], scheduler.prio, old(scheduler.currentProcess), old(scheduler.ready),
                    scheduler.currentProcess, scheduler.ready)
    {
      var temp := Dequeue(i, dev);
      MakeReady(temp);
    }

    method Dequeue(i: nat, dev: IODevice) returns (temp: Process)
      requires Scheduled() && (dev == harddisks || dev == printers) && i < |dev.container| && dev.container[i] != []
      modifies dev
      ensures dev.container == old(dev.container)[i := old(dev.container)[i][1..]] && Waiting(temp)
      ensures temp == old(dev.container)[i][0]
    {
      temp := dev.PopFront(i);
      assert temp in multiset(scheduler.prio.Keys) by {
        assert multiset{temp}[temp] > 0;
      }
    }
  }

  lemma OneMore(h: multiset<Process>, p: Process, a: multiset<Process>, b: multiset<Process>)
    ensures h + multiset{p} + a + b == h + a + b + multiset{p}
  {
  }

  lemma OneBlockEach(nodes: seq<Process>, blocks: seq<Block>, i: nat)
    requires |nodes| == |blocks| && i < |nodes| && blocks[i].Held? && Distinct(nodes)
    ensures (nodes[i], blocks[i]) in Live(nodes, blocks)
    ensures forall x :: x in Live(nodes, blocks) && x.0 == nodes[i] ==> x.1 == blocks[i]
  {
  }

  lemma MatchesMore(live: set<(Process, Block)>, prio: map<Process, int>, p: Process, b: Block)
    requires Matches(live, prio) && p !in prio && b.Held?
    ensures Matches(live + {(p, b)}, prio[p := b.priority])
  {
    forall q {:trigger q in prio} | q in prio[p := b.priority] ensures exists x :: x in live + {(p, b)} && x.0 == q {
      if q == p {
        assert (p, b) in live + {(p, b)};
      } else {
        var x :| x in live && x.0 == q;
        assert x in live + {(p, b)};
      }
    }
  }

  lemma MatchesLess(live: set<(Process, Block)>, prio: map<Process, int>, p: Process, b: Block)
    requires Matches(live, prio) && (p, b) in live && forall x :: x in live && x.0 == p ==> x.1 == b
    ensures Matches(live - {(p, b)}, prio - {p})
  {
    forall q | q in prio - {p} ensures exists x :: x in live - {(p, b)} && x.0 == q {
      var x :| x in live && x.0 == q;
      assert x in live - {(p, b)};
    }
  }
}
