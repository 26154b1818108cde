// The allocator's doubly linked list of blocks.
module Allocator {
  import opened Blocks

  class Process {
    var processNumber: int
    var priority: int
    var start: int
    var end: int
    var size: int
    var prev: Process?
    var next: Process?
    var empty: bool

    constructor (n: int, pr: int, st: int, e: int, si: int, p: Process?, ne: Process?, em: bool)
      ensures processNumber == n && priority == pr && start == st && end == e && size == si && prev == p && next == ne && empty == em
    {
      processNumber, priority, start, end, size, prev, next, empty := n, pr, st, e, si, p, ne, em;
    }
  }

  // ---------- the list as a sequence of nodes ----------

  function After(nodes: seq<Process>, i: int): Process? {
    if 0 <= i + 1 < |nodes| then nodes[i + 1] else null
  }

  function Before(nodes: seq<Process>, i: int): Process? {
    if 0 < i <= |nodes| then nodes[i - 1] else null
  }

  // Node k of the list taken out.
  function Without(nodes: seq<Process>, k: nat): seq<Process>
    requires k < |nodes|
  {
    nodes[..k] + nodes[k + 1..]
  }

  // Where node i of the shorter list stood, and what comes before and after it there.
  lemma WithoutAt(nodes: seq<Process>, k: nat, i: nat)
    requires k < |nodes| && i < |nodes| - 1
    ensures var r, t := Without(nodes, k), if i < k then i else i + 1;
            && |r| == |nodes| - 1 && r[i] == nodes[t]
            && After(r, i) == (if t + 1 == k then After(nodes, k) else After(nodes, t))
            && Before(r, i) == (if t == k + 1 then Before(nodes, k) else Before(nodes, t))
  {
  }

  // A new node put before node k.
  function With(nodes: seq<Process>, k: nat, x: Process): seq<Process>
    requires k <= |nodes|
  {
    nodes[..k] + [x] + nodes[k..]
  }

  lemma WithAt(nodes: seq<Process>, k: nat, x: Process, i: nat)
    requires k < |nodes| && i <= |nodes|
    ensures var r, t := With(nodes, k, x), if i <= k then i else i - 1;
            && |r| == |nodes| + 1 && r[i] == (if i == k then x else nodes[t])
            && (i + 1 != k && i != k ==> After(r, i) == After(nodes, t)) && (i == k ==> After(r, i) == nodes[k])
            && Before(r, i) == (if i == k + 1 then x else Before(nodes, t))
  {
  }

  // Node i shows block i and leads to node i + 1.
  ghost predicate ShowsAt(nodes: seq<Process>, blocks: seq<Block>, i: nat)
    reads nodes
    requires i < |nodes| == |blocks|
  {
    nodes[i].next == After(nodes, i) && Pictures(nodes[i], blocks[i])
  }

  ghost predicate Pictures(p: Process, x: Block)
    reads p
  {
    && (p.empty <==> x.Hole?) && p.start == x.start && p.size == x.size && p.end == x.start + x.size - 1
    && (if x.Held? then p.processNumber == x.pid && p.priority == x.priority else p.processNumber == -1)
  }

  ghost predicate BackAt(nodes: seq<Process>, i: nat)
    reads nodes
    requires i < |nodes|
  {
    nodes[i].prev == Before(nodes, i)
  }

  ghost predicate Distinct(nodes: seq<Process>) {
    forall i, j :: 0 <= i < j < |nodes| ==> nodes[i] != nodes[j]
  }

  ghost predicate Chain(nodes: seq<Process>, blocks: seq<Block>)
    reads nodes
  {
    && |nodes| == |blocks| && Distinct(nodes)
    && forall i: nat {:trigger ShowsAt(nodes, blocks, i)} :: i < |nodes| ==> ShowsAt(nodes, blocks, i)
  }

  // The list but for the pointer to node k.
  ghost predicate ChainBut(nodes: seq<Process>, blocks: seq<Block>, k: nat)
    reads nodes
  {
    && |nodes| == |blocks| && Distinct(nodes) && k < |nodes|
    && (forall i: nat {:trigger ShowsAt(nodes, blocks, i)} :: i < |nodes| && i + 1 != k ==> ShowsAt(nodes, blocks, i))
    && (k > 0 ==> Pictures(nodes[k - 1], blocks[k - 1]))
  }

  ghost predicate Backward(nodes: seq<Process>)
    reads nodes
  {
    forall i: nat {:trigger BackAt(nodes, i)} :: i < |nodes| ==> BackAt(nodes, i)
  }

  // The hole taken in full has a block after it: the program as written leaves that block's back
  // pointer at the discarded hole.
  predicate LeavesStaleLink(blocks: seq<Block>, size: nat) {
    var k := FirstFit(blocks, size);
    k != -1 && blocks[k].size == size && k + 1 < |blocks|
  }

  // A request of no bytes is placed in the first hole, if there is one, as a block of size 0.
  predicate LeavesEmptyBlock(blocks: seq<Block>, size: nat) {
    size == 0 && FirstFit(blocks, size) != -1
  }

  // The first block, freed, merges into a hole after it that does not then fill the memory: the
  // program as written goes on from the discarded block.
  predicate LosesRoot(blocks: seq<Block>, max: nat, i: nat)
    requires i < |blocks|
  {
    var (b, j) := MergeBack(Released(blocks, i), i);
    DropsFirst(b, j, max)
  }

  // Block j is the first, and the hole after it swallows it without filling the memory.
  predicate DropsFirst(b: seq<Block>, j: nat, max: nat) {
    j == 0 && HoleAt(b, 1) && b[0].size + b[1].size < max
  }

  // Both defects within four requests: then another request of 2 takes the hole in full, and the end
  // of the first process loses the root.
  lemma BothDefects()
    ensures var b := Free(Allocate(Allocate(Allocate([Hole(0, 10)], 0, 1, 0, 4), 1, 2, 0, 2), 2, 3, 0, 4), 1);
            LeavesStaleLink(b, 2) && LosesRoot(b, 10, 0)
  {
    HoleBetween();
    var b := [Held(1, 0, 0, 4), Hole(4, 2), Held(3, 0, 6, 4)];
    assert b[1..][0] == Hole(4, 2);
    assert Released(b, 0) == [Hole(0, 4), Hole(4, 2), Held(3, 0, 6, 4)];
  }

  // ---------- the processes in memory ----------

  ghost function Live(nodes: seq<Process>, blocks: seq<Block>): set<(Process, Block)>
    requires |nodes| == |blocks|
  {
    set i | 0 <= i < |nodes| && blocks[i].Held? :: (nodes[i], blocks[i])
  }

  lemma LiveReleased(nodes: seq<Process>, b: seq<Block>, i: nat)
    requires |nodes| == |b| && i < |b| && b[i].Held? && Distinct(nodes)
    ensures Live(nodes, Released(b, i)) == Live(nodes, b) - {(nodes[i], b[i])}
  {
    var c := Released(b, i);
    forall x | x in Live(nodes, b) - {(nodes[i], b[i])} ensures x in Live(nodes, c) {
      var k :| 0 <= k < |nodes| && b[k].Held? && x == (nodes[k], b[k]);
      assert c[k] == b[k];
    }
    forall x | x in Live(nodes, c) ensures x in Live(nodes, b) - {(nodes[i], b[i])} {
      var k :| 0 <= k < |nodes| && c[k].Held? && x == (nodes[k], c[k]);
      assert b[k] == c[k] && nodes[k] != nodes[i];
    }
  }

  // Merging two holes drops one node and no process.
  lemma LiveJoined(nodes: seq<Process>, b: seq<Block>, nodes': seq<Process>, k: nat)
    requires |nodes| == |b| == |nodes'| + 1 && k + 1 < |b| && b[k].Hole? && b[k + 1].Hole?
    requires forall t :: 0 <= t < |nodes'| && t != k ==> nodes'[t] == nodes[if t < k then t else t + 1]
    ensures |Joined(b, k)| == |nodes'| && Live(nodes', Joined(b, k)) == Live(nodes, b)
  {
    var c := Joined(b, k);
    forall x | x in Live(nodes, b) ensures x in Live(nodes', c) {
      var t :| 0 <= t < |nodes| && b[t].Held? && x == (nodes[t], b[t]);
      var u := if t < k then t else t - 1;
      assert c[u] == b[t] && nodes'[u] == nodes[t];
    }
    forall x | x in Live(nodes', c) ensures x in Live(nodes, b) {
      var t :| 0 <= t < |nodes'| && c[t].Held? && x == (nodes'[t], c[t]);
      var u := if t < k then t else t + 1;
      assert c[t] == b[u] && nodes'[t] == nodes[u];
    }
  }

  lemma LiveAllocated(nodes: seq<Process>, b: seq<Block>, nodes': seq<Process>, k: nat, pid: int, priority: int, size: nat, temp: Process)
    requires |nodes| == |b| && k < |b| && Fits(b[k], size)
    requires nodes' == if b[k].size > size then With(nodes, k, temp) else nodes[k := temp]
    ensures var c := Allocate(b, k, pid, priority, size);
            |c| == |nodes'| && Live(nodes', c) == Live(nodes, b) + {(temp, Held(pid, priority, b[k].start, size))}
  {
    var c := Allocate(b, k, pid, priority, size);
    var shift := |c| - |b|;
    forall x | x in Live(nodes, b) ensures x in Live(nodes', c) {
      var t :| 0 <= t < |nodes| && b[t].Held? && x == (nodes[t], b[t]);
      var u := if t < k then t else t + shift;
      assert c[u] == b[t] && nodes'[u] == nodes[t];
    }
    assert c[k] == Held(pid, priority, b[k].start, size) && nodes'[k] == temp;
    forall x | x in Live(nodes', c) ensures x in Live(nodes, b) + {(temp, c[k])} {
      var t :| 0 <= t < |nodes'| && c[t].Held? && x == (nodes'[t], c[t]);
      if t != k {
        var u := if t < k then t else t - shift;
        assert c[t] == b[u] && nodes'[t] == nodes[u];
      }
    }
  }

  class Memory {
    var maxVal: int
    var numOfProcesses: int
    var root: Process?
    const repaired: bool      // false for the program as written
    ghost var nodes: seq<Process>
    ghost var blocks: seq<Block>

    // The list from the root on.
    ghost predicate Strung()
      reads this, nodes
    {
      maxVal >= 1 && Chain(nodes, blocks) && nodes != [] && root == nodes[0]
    }

    ghost predicate Listed()
      reads this, nodes
    {
      Strung() && Sound(blocks, maxVal)
    }

    ghost predicate Valid()
      reads this, nodes
    {
      Listed() && Backward(nodes)
    }

    constructor (m: int, repaired: bool)
      requires m >= 1
      ensures Valid() && blocks == [Hole(0, m)] && fresh(nodes) && maxVal == m && this.repaired == repaired && numOfProcesses == 1
      ensures nodes == [root] && root.priority == 0
    {
      maxVal, numOfProcesses, this.repaired := m, 1, repaired;
      var p := new Process(-1, 0, 0, m - 1, m - 0, null, null, true);
      root := p;
      nodes, blocks := [p], [Hole(0, m)];
      new;
      assert TileAt(blocks, 0);
    }

    // The new block takes the front of a larger hole.
    method SplitHole(currptr: Process, temp: Process, size: nat, ghost k: nat)
      requires Valid() && k < |nodes| && currptr == nodes[k] && Fits(blocks[k], size) && blocks[k].size > size
      requires temp !in nodes && temp.next == currptr && temp.prev == currptr.prev && !temp.empty
      requires Pictures(temp, Held(temp.processNumber, temp.priority, blocks[k].start, size))
      modifies this`nodes, this`blocks, currptr
      ensures nodes == With(old(nodes), k, temp)
      ensures blocks == Allocate(old(blocks), k, temp.processNumber, temp.priority, size)
      ensures ChainBut(nodes, blocks, k) && Backward(nodes)
    {
      assert ShowsAt(nodes, blocks, k);
      currptr.start := temp.end + 1;
      currptr.size := currptr.size - size;
      currptr.prev := temp;
      blocks := Allocate(blocks, k, temp.processNumber, temp.priority, size);
      nodes := With(nodes, k, temp);
      forall i: nat | i < |nodes| ensures BackAt(nodes, i) && (i + 1 != k ==> ShowsAt(nodes, blocks, i)) {
        var t := if i <= k then i else i - 1;
        WithAt(old(nodes), k, temp, i);
        SplitAt(old(blocks), k, temp.processNumber, temp.priority, size, i);
        assert old(ShowsAt(nodes, blocks, t)) && old(BackAt(nodes, t));
      }
      assert k > 0 ==> old(ShowsAt(nodes, blocks, k - 1));
    }

    // The new node leads on to what followed the hole; that block's back pointer stays as it is in the
    // program as written.
    method LeadOn(currptr: Process, temp: Process, ghost after: Process?)
      requires after == currptr.next && currptr != temp && temp != after
      modifies temp`next, (if after == null then {} else {after})`prev
      ensures temp.next == after && (after != null ==> after.prev == if repaired then temp else old(after.prev))
    {
      temp.next := currptr.next;
      if repaired && currptr.next != null {
        currptr.next.prev := temp;
      }
    }

    // The new block takes the place of a hole of its size.
    method ReplaceHole(currptr: Process, temp: Process, size: nat, ghost k: nat)
      requires Valid() && k < |nodes| && currptr == nodes[k] && Fits(blocks[k], size) && blocks[k].size == size
      requires temp !in nodes && temp.prev == currptr.prev && !temp.empty
      requires Pictures(temp, Held(temp.processNumber, temp.priority, blocks[k].start, size))
      modifies this`nodes, this`blocks, temp`next, nodes
      ensures nodes == old(nodes)[k := temp]
      ensures blocks == Allocate(old(blocks), k, temp.processNumber, temp.priority, size)
      ensures ChainBut(nodes, blocks, k) && BackAt(nodes, k) && (Backward(nodes) <==> repaired || k + 1 == |nodes|)
    {
      assert ShowsAt(nodes, blocks, k) && BackAt(nodes, k);
      assert k + 1 < |nodes| ==> BackAt(nodes, k + 1);
      LeadOn(currptr, temp, After(nodes, k));
      blocks := Allocate(blocks, k, temp.processNumber, temp.priority, size);
      nodes := nodes[k := temp];
      forall i: nat | i < |nodes|
        ensures (repaired || i != k + 1 ==> BackAt(nodes, i)) && (i + 1 != k ==> ShowsAt(nodes, blocks, i))
      {
        assert old(ShowsAt(nodes, blocks, i)) && old(BackAt(nodes, i));
      }
      assert k > 0 ==> old(ShowsAt(nodes, blocks, k - 1));
      assert !repaired && k + 1 < |nodes| ==> !BackAt(nodes, k + 1);
    }

    // Leads to the new block from the one before it, or from the root.
    method Hook(temp: Process, nStart: int, ghost k: nat)
      requires ChainBut(nodes, blocks, k) && temp == nodes[k] && BackAt(nodes, k) && (nStart == 0 <==> k == 0)
      requires maxVal >= 1 && (k > 0 ==> root == nodes[0])
      modifies this`root, if k > 0 then {nodes[k - 1]} else {}
      ensures Strung() && (Backward(nodes) <==> old(Backward(nodes)))
    {
      if nStart == 0 {
        root := temp;
      } else {
        temp.prev.next := temp;
      }
      forall i: nat | i < |nodes| ensures ShowsAt(nodes, blocks, i) && (BackAt(nodes, i) <==> old(BackAt(nodes, i))) {
        assert i + 1 != k ==> old(ShowsAt(nodes, blocks, i));
      }
    }

    // Puts a new process at the front of the hole currptr.
    method Place(currptr: Process, priority: int, size: nat, ghost k: nat) returns (temp: Process)
      requires Valid() && k < |nodes| && currptr == nodes[k] && Fits(blocks[k], size)
      modifies this, nodes
      ensures Strung() && (Sound(blocks, maxVal) <==> size >= 1) && fresh(temp) && maxVal == old(maxVal) && numOfProcesses == old(numOfProcesses)
      ensures blocks == Allocate(old(blocks), k, old(numOfProcesses), priority, size)
      ensures temp.priority == priority && temp.processNumber == old(numOfProcesses)
      ensures nodes == if old(blocks)[k].size > size then With(old(nodes), k, temp) else old(nodes)[k := temp]
      ensures Backward(nodes) <==> repaired || !(old(blocks)[k].size == size && k + 1 < |old(blocks)|)
    {
      AllocateSound(blocks, maxVal, k, numOfProcesses, priority, size);
      OnlyFirstAtZero(blocks, maxVal, k);
      assert ShowsAt(nodes, blocks, k) && BackAt(nodes, k);
      var nStart := currptr.start;
      var nEnd := nStart + size - 1;
      temp := new Process(numOfProcesses, priority, nStart, nEnd, size, currptr.prev, currptr, false);
      if currptr.size > size {
        SplitHole(currptr, temp, size, k);
        assert BackAt(nodes, k);
      } else {
        ReplaceHole(currptr, temp, size, k);
      }
      Hook(temp, nStart, k);
    }

    // First fit: the holes are tried from the root on; the search ends at the last block.
    method Search(size: nat) returns (currptr: Process, ghost k: nat)
      requires Valid()
      ensures k < |nodes| && currptr == nodes[k] && (currptr.empty && currptr.size >= size <==> Fits(blocks[k], size))
      ensures FirstFit(blocks, size) == if Fits(blocks[k], size) then k else -1
    {
      currptr, k := root, 0;
      assert ShowsAt(nodes, blocks, 0);
      while currptr.next != null && !(currptr.empty && currptr.size >= size)
        invariant k < |nodes| && currptr == nodes[k] && ShowsAt(nodes, blocks, k)
        invariant forall j :: 0 <= j < k ==> !Fits(blocks[j], size)
        decreases |nodes| - k
      {
        assert ShowsAt(nodes, blocks, k + 1);
        currptr := currptr.next;
        k := k + 1;
      }
      if Fits(blocks[k], size) {
        FirstFitIs(blocks, size, k);
      } else {
        NoFit(blocks, size);
      }
    }

    method Count()
      requires Strung()
      modifies this`numOfProcesses
      ensures Strung() && numOfProcesses == old(numOfProcesses) + 1 && (Backward(nodes) <==> old(Backward(nodes)))
    {
      numOfProcesses := numOfProcesses + 1;
    }

    // A new process in the first hole that fits; null if none does.
    method Insert(priority: int, size: nat) returns (temp: Process?)
      requires Valid()
      modifies this, nodes
      ensures Strung() && maxVal == old(maxVal)
      ensures temp == null ==> FirstFit(old(blocks), size) == -1
      ensures temp == null ==> blocks == old(blocks) && nodes == old(nodes) && numOfProcesses == old(numOfProcesses)
      ensures temp != null ==> fresh(temp) && temp.processNumber == old(numOfProcesses) == numOfProcesses - 1
      ensures temp != null ==> Grants(priority, temp.priority)
      ensures temp != null ==>
                var k := FirstFit(old(blocks), size);
                && k != -1 && blocks == Allocate(old(blocks), k, old(numOfProcesses), Clamped(priority), size)
                && nodes == if old(blocks)[k].size > size then With(old(nodes), k, temp) else old(nodes)[k := temp]
      ensures Valid() <==> !LeavesEmptyBlock(old(blocks), size) && (repaired || !LeavesStaleLink(old(blocks), size))
    {
      var pr := if priority < 0 then 0 else if priority > 4 then 4 else priority;
      var currptr, k := Search(size);
      temp := null;
      if currptr.empty && currptr.size >= size {
        var placed := Place(currptr, pr, size, k);
        Count();
        temp := placed;
      }
    }

    // Both directions of the links, wherever the root points.
    ghost predicate Rows()
      reads this, nodes
    {
      maxVal >= 1 && Chain(nodes, blocks) && Backward(nodes) && nodes != []
    }

    method Release(currptr: Process, ghost i: nat)
      requires Rows() && i < |nodes| && currptr == nodes[i]
      modifies this`blocks, currptr
      ensures Rows() && blocks == Released(old(blocks), i) && currptr.priority == -1
      ensures old(blocks)[i].Held? ==> Live(nodes, blocks) == Live(old(nodes), old(blocks)) - {(currptr, old(blocks)[i])}
    {
      assert ShowsAt(nodes, blocks, i);
      if blocks[i].Held? {
        LiveReleased(nodes, blocks, i);
      }
      currptr.processNumber := -1;
      currptr.priority := -1;
      currptr.empty := true;
      blocks := Released(blocks, i);
      forall j: nat | j < |nodes| ensures ShowsAt(nodes, blocks, j) && BackAt(nodes, j) {
        assert old(ShowsAt(nodes, blocks, j)) && old(BackAt(nodes, j));
      }
    }

    // The node before takes over the node's end and links past it.
    static method BypassBack(currptr: Process, ghost before: Process, ghost after: Process?)
      requires before == currptr.prev && after == currptr.next && currptr != before && currptr != after && before != after
      modifies before`end, before`size, before`next, (if after == null then {} else {after})`prev
      ensures before.end == currptr.end && before.size == old(before.size) + currptr.size && before.next == after
      ensures after != null ==> after.prev == before
    {
      currptr.prev.end := currptr.end;
      currptr.prev.size := currptr.prev.size + currptr.size;
      currptr.prev.next := currptr.next;
      if currptr.next != null {
        currptr.next.prev := currptr.prev;
      }
    }

    // Hole i is swallowed by the hole before it.
    method SwallowedBack(currptr: Process, ghost i: nat)
      requires Rows() && 0 < i < |nodes| && currptr == nodes[i] && blocks[i].Hole? && blocks[i - 1].Hole? && currptr.prev == nodes[i - 1]
      requires blocks[i].start == blocks[i - 1].start + blocks[i - 1].size
      modifies this`nodes, this`blocks, nodes
      ensures Rows() && nodes == Without(old(nodes), i) && blocks == Joined(old(blocks), i - 1)
    {
      assert ShowsAt(nodes, blocks, i) && ShowsAt(nodes, blocks, i - 1) && BackAt(nodes, i);
      assert i + 1 < |nodes| ==> BackAt(nodes, i + 1);
      BypassBack(currptr, nodes[i - 1], After(nodes, i));
      blocks := Joined(blocks, i - 1);
      nodes := Without(nodes, i);
      forall j: nat | j < |nodes| ensures ShowsAt(nodes, blocks, j) && BackAt(nodes, j) {
        var t := if j < i then j else j + 1;
        WithoutAt(old(nodes), i, j);
        JoinedAt(old(blocks), i - 1, j);
        assert old(ShowsAt(nodes, blocks, t)) && old(BackAt(nodes, t));
      }
    }

    // The node after takes over the node's start and links past it.
    static method BypassOn(currptr: Process, ghost before: Process?, ghost after: Process)
      requires before == currptr.prev && after == currptr.next && currptr != before && currptr != after && before != after
      modifies after`start, after`size, after`prev, (if before == null then {} else {before})`next
      ensures after.start == currptr.start && after.size == old(after.size) + currptr.size && after.prev == before
      ensures before != null ==> before.next == after
    {
      currptr.next.start := currptr.start;
      currptr.next.size := currptr.next.size + currptr.size;
      currptr.next.prev := currptr.prev;
      if currptr.prev != null {
        currptr.prev.next := currptr.next;
      }
    }

    // Hole j is swallowed by the hole after it.
    method SwallowedOn(currptr: Process, ghost j: nat)
      requires Rows() && j + 1 < |nodes| && currptr == nodes[j] && blocks[j].Hole? && blocks[j + 1].Hole? && currptr.next == nodes[j + 1]
      requires blocks[j + 1].start == blocks[j].start + blocks[j].size
      modifies this`nodes, this`blocks, nodes
      ensures Rows() && nodes == Without(old(nodes), j) && blocks == Joined(old(blocks), j)
    {
      assert ShowsAt(nodes, blocks, j) && ShowsAt(nodes, blocks, j + 1) && BackAt(nodes, j);
      BypassOn(currptr, Before(nodes, j), nodes[j + 1]);
      blocks := Joined(blocks, j);
      nodes := Without(nodes, j);
      forall i: nat | i < |nodes| ensures ShowsAt(nodes, blocks, i) && BackAt(nodes, i) {
        var t := if i < j then i else i + 1;
        WithoutAt(old(nodes), j, i);
        JoinedAt(old(blocks), j, i);
        assert old(ShowsAt(nodes, blocks, t)) && old(BackAt(nodes, t));
      }
    }

    // The hole before block i, if there is one, swallows it.
    method MergeBackward(toDel: Process, ghost i: nat) returns (currptr: Process, ghost j: nat)
      requires Rows() && i < |nodes| && toDel == nodes[i] && blocks[i].Hole? && Tiles(blocks, maxVal)
      modifies this`nodes, this`blocks, nodes
      ensures Rows() && j < |nodes| && currptr == nodes[j] && (blocks, j) == MergeBack(old(blocks), i)
      ensures nodes == (if j == i then old(nodes) else Without(old(nodes), i)) && Tiles(blocks, maxVal) && blocks[j].Hole?
      ensures Live(nodes, blocks) == Live(old(nodes), old(blocks))
    {
      currptr, j := toDel, i;
      assert BackAt(nodes, i) && TileAt(blocks, i);
      if i > 0 {
        assert ShowsAt(nodes, blocks, i - 1);
      }
      if currptr.prev != null && currptr.prev.empty {
        JoinedTiles(blocks, maxVal, i - 1);
        currptr := currptr.prev;
        SwallowedBack(toDel, i);
        j := i - 1;
        LiveJoined(old(nodes), old(blocks), nodes, j);
      }
    }

    // The hole after block j, if there is one, swallows it.
    method MergeForward(currptr: Process, ghost j: nat)
      requires Rows() && j < |nodes| && currptr == nodes[j] && blocks[j].Hole? && Tiles(blocks, maxVal) && root == nodes[0]
      modifies this`nodes, this`blocks, this`root, nodes
      ensures Rows() && blocks == MergeOn(old(blocks), j) && Tiles(blocks, maxVal)
      ensures nodes == if HoleAt(old(blocks), j + 1) then Without(old(nodes), j) else old(nodes)
      ensures Live(nodes, blocks) == Live(old(nodes), old(blocks))
      ensures root == nodes[0] <==>
              repaired || !DropsFirst(old(blocks), j, maxVal)
    {
      assert ShowsAt(nodes, blocks, j);
      if j + 1 < |nodes| {
        assert ShowsAt(nodes, blocks, j + 1);
      }
      if currptr.next != null && currptr.next.empty {
        JoinedTiles(blocks, maxVal, j);
        assert TileAt(blocks, j + 1);
        var wasRoot := currptr == root;
        var heir := currptr.next;
        SwallowedOn(currptr, j);
        LiveJoined(old(nodes), old(blocks), nodes, j);
        assert ShowsAt(nodes, blocks, j);
        WholeMemory(blocks, maxVal, j);
        if heir.size >= maxVal || (repaired && wasRoot) {
          root := heir;
        }
      }
    }

    // Hole i is merged with a hole before it, then with one after it.
    method MergeBoth(toDel: Process, ghost i: nat)
      requires Rows() && i < |nodes| && toDel == nodes[i] && blocks[i].Hole? && Tiles(blocks, maxVal) && root == nodes[0]
      modifies this`nodes, this`blocks, this`root, nodes
      ensures Rows() && blocks == Coalesce(old(blocks), i)
      ensures Live(nodes, blocks) == Live(old(nodes), old(blocks))
      ensures root == nodes[0] <==>
              repaired || !DropsFirst(MergeBack(old(blocks), i).0, MergeBack(old(blocks), i).1, maxVal)
    {
      var currptr, j := MergeBackward(toDel, i);
      MergeForward(currptr, j);
    }

    // Frees the process in block i.
    method DeleteProcess(toDel: Process, ghost i: nat)
      requires Valid() && i < |nodes| && toDel == nodes[i] && !toDel.empty
      modifies this`nodes, this`blocks, this`root, nodes
      ensures Rows() && blocks == Free(old(blocks), i) && Sound(blocks, maxVal)
      ensures Live(nodes, blocks) == Live(old(nodes), old(blocks)) - {(toDel, old(blocks)[i])}
      ensures Valid() <==> repaired || !LosesRoot(old(blocks), maxVal, i)
    {
      assert ShowsAt(nodes, blocks, i);
      ghost var b0 := blocks;
      Release(toDel, i);
      ReleasedTiles(b0, maxVal, i);
      MergeBoth(toDel, i);
      FreeSound(b0, maxVal, i);
      RowsValid();
    }

    lemma RowsValid()
      requires Rows() && Sound(blocks, maxVal)
      ensures Valid() <==> root == nodes[0]
    {
    }
  }

  // A block as large as the memory is the only one.
  lemma WholeMemory(b: seq<Block>, max: nat, j: nat)
    requires Tiles(b, max) && j < |b|
    ensures b[j].size >= max ==> j == 0 && |b| == 1
  {
    assert TileAt(b, 0) && TileAt(b, |b| - 1);
    if j > 0 {
      StartsGrow(b, max, 0, j);
    }
    if j < |b| - 1 {
      StartsGrow(b, max, j, |b| - 1);
    }
  }

  function Clamped(priority: int): int {
    if priority < 0 then 0 else if priority > 4 then 4 else priority
  }

  // The priority asked for, from 0 to 4; beyond the bounds the nearer one.
  predicate Grants(asked: int, priority: int) {
    (0 <= asked <= 4 ==> priority == asked) && (asked < 0 ==> priority == 0) && (asked > 4 ==> priority == 4)
  }

  // Two priorities granted compare as those requested, up to the bounds.
  lemma GrantedCompare(a: int, b: int, p: int, q: int)
    requires Grants(a, p) && Grants(b, q)
    ensures p < q <==> a < b && a < 4 && b > 0
    ensures p == q <==> a == b || (a <= 0 && b <= 0) || (a >= 4 && b >= 4)
  {
  }

  lemma FirstFitIs(b: seq<Block>, size: nat, k: nat)
    requires k < |b| && Fits(b[k], size) && forall j :: 0 <= j < k ==> !Fits(b[j], size)
    ensures FirstFit(b, size) == k
  {
    var i := FirstFit(b, size);
  }

  lemma NoFit(b: seq<Block>, size: nat)
    requires forall j :: 0 <= j < |b| ==> !Fits(b[j], size)
    ensures FirstFit(b, size) == -1
  {
  }

  lemma OnlyFirstAtZero(b: seq<Block>, max: nat, k: nat)
    requires Tiles(b, max) && k < |b|
    ensures b[k].start == 0 <==> k == 0
  {
    assert TileAt(b, 0);
    if k > 0 {
      StartsGrow(b, max, 0, k);
    }
  }
}
