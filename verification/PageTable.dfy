// The page table: frames with time stamps, against the list of pages by recency.
module PageTable {
  import opened Lists
  import opened Recency

  const INT_MAX := 0x7FFF_FFFF
  const UINT_RANGE := 0x1_0000_0000

  // What a frame shows; a free one has -1 throughout.
  datatype Cell = Cell(page: int, pid: int, stamp: int)

  const FREE := Cell(-1, -1, -1)

  class PageEntry {
    var page: int
    var pid: int
    var timeSlice: int

    constructor (p: int, id: int, ts: int)
      ensures page == p && pid == id && timeSlice == ts
    {
      page, pid, timeSlice := p, id, ts;
    }
  }

  class Process {
    const pid: int

    constructor (pid: int)
      ensures this.pid == pid
    {
      this.pid := pid;
    }
  }

  // ---------- cells sorted by stamp ----------

  function KeyOf(c: Cell): Key { Key(c.pid, c.page) }

  // Frame order[k] holds page k of the list; its stamp is later than those after it.
  ghost predicate InPlace(cells: seq<Cell>, order: seq<nat>, recent: seq<Key>, k: nat)
    requires k < |order| == |recent|
  {
    && order[k] < |cells| && cells[order[k]].stamp >= 1 && KeyOf(cells[order[k]]) == recent[k]
    && recent[k].pid >= 1 && (k > 0 ==> order[k - 1] < |cells| && cells[order[k - 1]].stamp > cells[order[k]].stamp)
  }

  ghost predicate FreeOrListed(cells: seq<Cell>, order: seq<nat>, i: nat)
    requires i < |cells|
  {
    cells[i] == FREE || (cells[i].stamp != -1 && i in order)
  }

  // Sorted by stamp, the occupied frames hold the list.
  ghost predicate Sorted(cells: seq<Cell>, order: seq<nat>, recent: seq<Key>) {
    && |order| == |recent| && NoRepeats(recent)
    && (forall k: nat {:trigger InPlace(cells, order, recent, k)} :: k < |order| ==> InPlace(cells, order, recent, k))
    && (forall i: nat {:trigger FreeOrListed(cells, order, i)} :: i < |cells| ==> FreeOrListed(cells, order, i))
  }

  // No stamp is later than now.
  ghost predicate UpTo(cells: seq<Cell>, now: int) {
    forall i :: 0 <= i < |cells| ==> cells[i].stamp <= now
  }

  lemma {:induction false} Falling(cells: seq<Cell>, order: seq<nat>, recent: seq<Key>, j: nat, k: nat)
    requires Sorted(cells, order, recent) && j < k < |order|
    ensures order[j] < |cells| && order[k] < |cells| && cells[order[j]].stamp > cells[order[k]].stamp && order[j] != order[k]
    decreases k
  {
    assert InPlace(cells, order, recent, k) && InPlace(cells, order, recent, k - 1);
    if j < k - 1 {
      Falling(cells, order, recent, j, k - 1);
    }
  }

  // Writing a page into frame i, which becomes the latest.
  function Written(cells: seq<Cell>, i: nat, x: Key, now: int): seq<Cell>
    requires i < |cells|
  {
    cells[i := Cell(x.page, x.pid, now)]
  }

  function Minus<T>(s: seq<T>, k: nat): seq<T>
    requires k < |s|
  {
    s[..k] + s[k + 1..]
  }

  // The frame at position k of the order takes page x, which stands nowhere else in the list.
  lemma Promoted(cells: seq<Cell>, order: seq<nat>, recent: seq<Key>, k: nat, x: Key, now: int)
    requires Sorted(cells, order, recent) && UpTo(cells, now - 1) && now >= 1 && x.pid >= 1
    requires k < |order| && forall j :: 0 <= j < |recent| && j != k ==> recent[j] != x
    ensures order[k] < |cells|
    ensures Sorted(Written(cells, order[k], x, now), [order[k]] + Minus(order, k), [x] + Minus(recent, k))
  {
    assert InPlace(cells, order, recent, k);
    var i := order[k];
    var cells', order', recent' := Written(cells, i, x, now), [i] + Minus(order, k), [x] + Minus(recent, k);
    forall j: nat | j < |order'| ensures InPlace(cells', order', recent', j) {
      if j > 0 {
        var j0 := if j <= k then j - 1 else j;
        assert InPlace(cells, order, recent, j0);
        if j0 < k { Falling(cells, order, recent, j0, k); }
        if k < j0 { Falling(cells, order, recent, k, j0); }
        if j > 1 {
          var j1 := if j - 1 <= k then j - 2 else j - 1;
          Falling(cells, order, recent, j1, j0);
          if j1 < k { Falling(cells, order, recent, j1, k); }
          if k < j1 { Falling(cells, order, recent, k, j1); }
        }
      }
    }
    forall j: nat | j < |cells'| ensures FreeOrListed(cells', order', j) {
      assert FreeOrListed(cells, order, j);
      if j != i && j in order {
        var m :| 0 <= m < |order| && order[m] == j;
        assert order'[if m < k then m + 1 else m] == j;
      }
      assert order'[0] == i;
    }
  }

  // A free frame takes a page that no frame holds.
  lemma Filled(cells: seq<Cell>, order: seq<nat>, recent: seq<Key>, i: nat, x: Key, now: int)
    requires Sorted(cells, order, recent) && UpTo(cells, now - 1) && now >= 1 && x.pid >= 1
    requires i < |cells| && cells[i] == FREE && x !in recent
    ensures Sorted(Written(cells, i, x, now), [i] + order, [x] + recent)
  {
    var cells', order', recent' := Written(cells, i, x, now), [i] + order, [x] + recent;
    forall j: nat | j < |order'| ensures InPlace(cells', order', recent', j) {
      if j > 0 {
        assert InPlace(cells, order, recent, j - 1);
      }
    }
    forall j: nat | j < |cells'| ensures FreeOrListed(cells', order', j) {
      assert FreeOrListed(cells, order, j);
      if j != i && j in order {
        var m :| 0 <= m < |order| && order[m] == j;
        assert order'[m + 1] == j;
      }
      assert order'[0] == i;
    }
  }

  // The frame at position k of the order becomes free.
  lemma Cleared(cells: seq<Cell>, order: seq<nat>, recent: seq<Key>, k: nat)
    requires Sorted(cells, order, recent) && k < |order|
    ensures order[k] < |cells| && Sorted(cells[order[k] := FREE], Minus(order, k), Minus(recent, k))
  {
    assert InPlace(cells, order, recent, k);
    var i := order[k];
    var cells', order', recent' := cells[i := FREE], Minus(order, k), Minus(recent, k);
    forall j: nat | j < |order'| ensures InPlace(cells', order', recent', j) {
      var j0 := if j < k then j else j + 1;
      assert InPlace(cells, order, recent, j0);
      if j0 < k { Falling(cells, order, recent, j0, k); } else { Falling(cells, order, recent, k, j0); }
      if j > 0 {
        var j1 := if j - 1 < k then j - 1 else j;
        Falling(cells, order, recent, j1, j0);
        if j1 < k { Falling(cells, order, recent, j1, k); } else { Falling(cells, order, recent, k, j1); }
      }
    }
    forall j: nat | j < |cells'| ensures FreeOrListed(cells', order', j) {
      assert FreeOrListed(cells, order, j);
      if j != i && j in order {
        var m :| 0 <= m < |order| && order[m] == j;
        assert order'[if m < k then m else m - 1] == j;
      }
    }
  }

  // ---------- counting the frames ----------

  ghost function Frames(n: nat): (s: set<nat>)
    ensures |s| == n && forall i: nat :: i in s <==> i < n
  {
    if n == 0 then {} else Frames(n - 1) + {n - 1}
  }

  ghost function Members(s: seq<nat>): set<nat> {
    set x | x in s
  }

  lemma {:induction false} MembersCount(s: seq<nat>)
    requires forall i, j :: 0 <= i < j < |s| ==> s[i] != s[j]
    ensures |Members(s)| == |s|
  {
    if s != [] {
      assert s[0] !in s[1..];
      MembersCount(s[1..]);
      assert Members(s) == Members(s[1..]) + {s[0]};
    }
  }

  // With a free frame the list is shorter than the table, without one as long.
  lemma Occupied(cells: seq<Cell>, order: seq<nat>, recent: seq<Key>)
    requires Sorted(cells, order, recent)
    ensures |order| <= |cells|
    ensures (exists i :: 0 <= i < |cells| && cells[i] == FREE) <==> |order| < |cells|
  {
    var all, used := Frames(|cells|), Members(order);
    forall i, j | 0 <= i < j < |order| ensures order[i] != order[j] {
      Falling(cells, order, recent, i, j);
    }
    MembersCount(order);
    forall x | x in used ensures x in all && cells[x] != FREE {
      var k :| 0 <= k < |order| && order[k] == x;
      assert InPlace(cells, order, recent, k);
    }
    SubsetCount(used, all);
    if i :| 0 <= i < |cells| && cells[i] == FREE {
      assert used <= all - {i};
      SubsetCount(used, all - {i});
    } else {
      forall x | x in all ensures x in used {
        assert FreeOrListed(cells, order, x);
      }
      SubsetCount(all, used);
    }
  }

  // ---------- one access is one step of the list ----------

  ghost predicate IsLeast(cells: seq<Cell>, i: nat) {
    && i < |cells| && (forall j :: 0 <= j < |cells| ==> cells[i].stamp <= cells[j].stamp)
    && (forall j :: 0 <= j < i ==> cells[i].stamp < cells[j].stamp)
  }

  // The least stamp belongs to a free frame if there is one, otherwise to the last page of the list.
  lemma LeastUsed(cells: seq<Cell>, order: seq<nat>, recent: seq<Key>, i: nat)
    requires Sorted(cells, order, recent) && IsLeast(cells, i)
    ensures cells[i] == FREE || (|order| == |cells| && i == order[|order| - 1])
  {
    Occupied(cells, order, recent);
    assert FreeOrListed(cells, order, i);
    if cells[i] != FREE {
      var k :| 0 <= k < |order| && order[k] == i;
      assert InPlace(cells, order, recent, k);
      if k < |order| - 1 {
        Falling(cells, order, recent, k, |order| - 1);
      }
    }
  }

  // A page that is in memory gets a new stamp.
  lemma HitStep(cells: seq<Cell>, order: seq<nat>, recent: seq<Key>, i: nat, now: int) returns (order': seq<nat>)
    requires Sorted(cells, order, recent) && UpTo(cells, now - 1) && now >= 1
    requires i < |cells| && cells[i] != FREE
    ensures Sorted(Written(cells, i, KeyOf(cells[i]), now), order', Used(recent, KeyOf(cells[i]), |cells|))
  {
    assert FreeOrListed(cells, order, i);
    var k :| 0 <= k < |order| && order[k] == i;
    var x := KeyOf(cells[i]);
    assert InPlace(cells, order, recent, k);
    WithoutAt(recent, x, k);
    Promoted(cells, order, recent, k, x, now);
    Occupied(cells, order, recent);
    order' := [i] + Minus(order, k);
  }

  // A page that is not takes the frame with the least stamp.
  lemma MissStep(cells: seq<Cell>, order: seq<nat>, recent: seq<Key>, i: nat, x: Key, now: int) returns (order': seq<nat>)
    requires Sorted(cells, order, recent) && UpTo(cells, now - 1) && now >= 1
    requires IsLeast(cells, i) && x !in recent && x.pid >= 1
    ensures Sorted(Written(cells, i, x, now), order', Used(recent, x, |cells|))
  {
    LeastUsed(cells, order, recent, i);
    WithoutAbsent(recent, x);
    Occupied(cells, order, recent);
    if cells[i] == FREE {
      Filled(cells, order, recent, i, x, now);
      order' := [i] + order;
    } else {
      var last := |order| - 1;
      Promoted(cells, order, recent, last, x, now);
      order' := [i] + Minus(order, last);
      assert [x] + Minus(recent, last) == ([x] + recent)[..|cells|];
    }
  }

  // A page is in the list exactly when some frame holds it.
  lemma HeldSomewhere(cells: seq<Cell>, order: seq<nat>, recent: seq<Key>, x: Key)
    requires Sorted(cells, order, recent) && x.pid >= 1
    ensures x in recent <==> exists i :: 0 <= i < |cells| && KeyOf(cells[i]) == x
  {
    if x in recent {
      var k :| 0 <= k < |recent| && recent[k] == x;
      assert InPlace(cells, order, recent, k);
      assert KeyOf(cells[order[k]]) == x;
    }
    if i :| 0 <= i < |cells| && KeyOf(cells[i]) == x {
      assert FreeOrListed(cells, order, i);
      var k :| 0 <= k < |order| && order[k] == i;
      assert InPlace(cells, order, recent, k);
    }
  }

  // ---------- a process ends ----------

  lemma {:induction false} DroppedSkips(l: seq<Key>, k: nat, pid: int)
    requires k < |l| && l[k].pid == pid
    ensures Dropped(Minus(l, k), pid) == Dropped(l, pid)
  {
    if k == 0 {
      assert Minus(l, 0) == l[1..];
    } else {
      DroppedSkips(l[1..], k - 1, pid);
      assert Minus(l, k)[0] == l[0] && Minus(l, k)[1..] == Minus(l[1..], k - 1);
    }
  }

  lemma {:induction false} DroppedNone(l: seq<Key>, pid: int)
    requires forall i :: 0 <= i < |l| ==> l[i].pid != pid
    ensures Dropped(l, pid) == l
  {
    if l != [] {
      DroppedNone(l[1..], pid);
    }
  }

  // ---------- the table ----------

  // The page an address lies in: the address is taken as unsigned, the quotient as signed.
  function PageOf(num: int, pageSize: nat): int
    requires pageSize >= 1
  {
    var page := (num % UINT_RANGE) / pageSize;
    if page > INT_MAX then page - UINT_RANGE else page
  }

  // The page of an address: the block of pageSize bytes it lies in, an address below 0 being taken
  // 2^32 higher; a page above 2^31 - 1 is counted 2^32 lower.
  lemma PageHolds(num: int, pageSize: nat)
    requires pageSize >= 1 && -0x8000_0000 <= num <= 0x7FFF_FFFF
    ensures 0 <= num ==> pageSize * PageOf(num, pageSize) <= num < pageSize * (PageOf(num, pageSize) + 1)
    ensures num < 0 ==>
              var page := PageOf(num, pageSize) + if PageOf(num, pageSize) < 0 then 0x1_0000_0000 else 0;
              pageSize * page <= num + 0x1_0000_0000 < pageSize * (page + 1)
    ensures PageOf(num, pageSize) < 0 <==> num < 0 && pageSize == 1
  {
    var address := if num < 0 then num + 0x1_0000_0000 else num;
    Unsigned(num, address);
    Quotient(address, pageSize, address / pageSize);
    PageSmall(address, pageSize, address / pageSize);
  }

  lemma Unsigned(num: int, address: int)
    requires -0x8000_0000 <= num <= 0x7FFF_FFFF && address == if num < 0 then num + 0x1_0000_0000 else num
    ensures num % UINT_RANGE == address
  {
  }

  lemma Quotient(address: nat, pageSize: nat, page: nat)
    requires pageSize >= 1 && page == address / pageSize
    ensures pageSize * page <= address < pageSize * (page + 1)
  {
    assert address == pageSize * page + address % pageSize;
    assert pageSize * (page + 1) == pageSize * page + pageSize;
  }

  lemma AtLeastTimes(a: nat, k: nat, page: nat)
    requires a >= k
    ensures a * page >= k * page
  {
    assert a * page == k * page + (a - k) * page;
  }

  lemma PageSmall(address: nat, pageSize: nat, page: nat)
    requires pageSize >= 1 && page == address / pageSize && address <= 0xFFFF_FFFF
    ensures page <= address && (pageSize == 1 ==> page == address) && (pageSize >= 2 ==> page <= 0x7FFF_FFFF)
  {
    Quotient(address, pageSize, page);
    AtLeastTimes(pageSize, 1, page);
    if pageSize >= 2 {
      AtLeastTimes(pageSize, 2, page);
    }
  }

  // Two addresses from 0 on lie on one page exactly if no multiple of pageSize parts them.
  lemma OnePage(a: int, b: int, pageSize: nat)
    requires pageSize >= 1 && 0 <= a <= b <= 0x7FFF_FFFF
    ensures PageOf(a, pageSize) == PageOf(b, pageSize) <==> !exists k: int :: a < Multiple(k, pageSize) <= b
  {
    PageHolds(a, pageSize);
    PageHolds(b, pageSize);
    var p, q := PageOf(a, pageSize), PageOf(b, pageSize);
    if p == q {
      forall k: int ensures !(a < Multiple(k, pageSize) <= b) {
        if a < Multiple(k, pageSize) <= b {
          Between(k, p, pageSize);
        }
      }
    } else {
      if q < p {
        Between(q, p, pageSize);
      }
      Between(p, q, pageSize);
      assert a < Multiple(p + 1, pageSize) <= b;
    }
  }

  function Multiple(k: int, pageSize: nat): int { pageSize * k }

  lemma Between(j: int, k: int, pageSize: nat)
    ensures j < k ==> pageSize * (j + 1) <= pageSize * k
    ensures k < j ==> pageSize * (k + 1) <= pageSize * j
  {
    if j < k {
      Further(j + 1, k - j - 1, pageSize);
    }
    if k < j {
      Further(k + 1, j - k - 1, pageSize);
    }
  }

  lemma Further(j: int, d: nat, pageSize: nat)
    ensures pageSize * (j + d) >= pageSize * j
  {
    assert pageSize * (j + d) == pageSize * j + pageSize * d;
  }

  class Memory {
    var processCounter: int
    const size: nat
    const pageSize: nat
    const numOfFrames: nat
    const pageTable: array<PageEntry>
    var timeSlice: int
    ghost var cells: seq<Cell>
    ghost var order: seq<nat>        // the occupied frames, the latest used first
    ghost var recent: seq<Key>       // their pages

    ghost predicate ShownAt(i: nat)
      reads this`cells, pageTable, pageTable[..]
      requires i < pageTable.Length && i < |cells|
    {
      pageTable[i].page == cells[i].page && pageTable[i].pid == cells[i].pid && pageTable[i].timeSlice == cells[i].stamp
    }

    ghost predicate Shown()
      reads this`cells, pageTable, pageTable[..]
    {
      && |cells| == pageTable.Length == numOfFrames
      && (forall i: nat, j: nat :: i < j < pageTable.Length ==> pageTable[i] != pageTable[j])
      && (forall i: nat {:trigger ShownAt(i)} :: i < pageTable.Length ==> ShownAt(i))
    }

    ghost predicate Valid()
      reads this, pageTable, pageTable[..]
    {
      && Shown() && Sorted(cells, order, recent) && UpTo(cells, timeSlice) && timeSlice >= 0 && processCounter >= 0
      && forall i :: 0 <= i < |cells| ==> cells[i].pid <= processCounter
    }

    constructor (s: nat, ps: nat)
      requires ps >= 1
      ensures Valid() && recent == [] && numOfFrames == s / ps && processCounter == 0
      ensures fresh(pageTable) && fresh(pageTable[..])
    {
      size, pageSize, numOfFrames := s, ps, s / ps;
      processCounter, timeSlice := 0, 0;
      order, recent := [], [];
      var first := new PageEntry(-1, -1, -1);
      var table := new PageEntry[s / ps](_ => first);
      pageTable := table;
      cells := seq(s / ps, _ => FREE);
      new;
      for i := 0 to numOfFrames
        invariant |cells| == pageTable.Length == numOfFrames && fresh(pageTable) && fresh(pageTable[..])
        invariant forall k: nat :: k < i ==> ShownAt(k) && pageTable[k] != first
        invariant forall k: nat :: i <= k < pageTable.Length ==> pageTable[k] == first
        invariant forall j: nat, k: nat :: j < k < i ==> pageTable[j] != pageTable[k]
        invariant cells == seq(s / ps, _ => FREE) && order == [] && recent == []
        invariant processCounter == 0 && timeSlice == 0
      {
        pageTable[i] := new PageEntry(-1, -1, -1);
      }
    }

    // The frame with the least stamp, the first of several; -1 if there are no frames.
    method LeastUsedFrame() returns (index: int)
      requires Shown() && UpTo(cells, INT_MAX - 1)
      ensures if numOfFrames == 0 then index == -1 else index >= 0 && IsLeast(cells, index)
    {
      var min := INT_MAX;
      index := -1;
      for i := 0 to pageTable.Length
        invariant -1 <= index < i || (i == 0 && index == -1)
        invariant i > 0 ==> index >= 0 && min == cells[index].stamp
        invariant i == 0 ==> min == INT_MAX
        invariant forall j :: 0 <= j < i ==> min <= cells[j].stamp
        invariant forall j :: 0 <= j < index ==> min < cells[j].stamp
      {
        assert ShownAt(i);
        if pageTable[i].timeSlice < min {
          min := pageTable[i].timeSlice;
          index := i;
        }
      }
    }

    // Frame i shows the page, written in place.
    method Overwrite(i: nat, page: int, pid: int, stamp: int)
      requires Shown() && i < pageTable.Length
      modifies this`cells, pageTable[i]
      ensures Shown() && cells == old(cells)[i := Cell(page, pid, stamp)]
    {
      pageTable[i].page := page;
      pageTable[i].pid := pid;
      pageTable[i].timeSlice := stamp;
      cells := cells[i := Cell(page, pid, stamp)];
      forall j: nat | j < pageTable.Length ensures ShownAt(j) {
        assert old(ShownAt(j));
      }
    }

    // Frame i gets a new entry.
    method Replace(i: nat, page: int, pid: int, stamp: int)
      requires Shown() && i < pageTable.Length
      modifies this`cells, pageTable
      ensures Shown() && cells == old(cells)[i := Cell(page, pid, stamp)]
      ensures forall j: nat :: j < pageTable.Length ==> pageTable[j] == old(pageTable[j]) || fresh(pageTable[j])
    {
      pageTable[i] := new PageEntry(page, pid, stamp);
      cells := cells[i := Cell(page, pid, stamp)];
      forall j: nat | j < pageTable.Length ensures ShownAt(j) {
        assert old(ShownAt(j));
      }
    }

    // A new process and its first page.
    method CreateNewProcess() returns (pid: int)
      requires Valid() && numOfFrames >= 1 && timeSlice + 1 < INT_MAX
      modifies this, pageTable
      ensures Valid() && pid == processCounter == old(processCounter) + 1 && timeSlice == old(timeSlice) + 1
      ensures recent == Used(old(recent), Key(pid, 0), numOfFrames)
      ensures exists i: nat :: i < |cells| && IsLeast(old(cells), i) && cells == old(cells)[i := Cell(0, pid, timeSlice)]
      ensures forall j: nat :: j < pageTable.Length ==> pageTable[j] == old(pageTable[j]) || fresh(pageTable[j])
    {
      NewPidNowhere(cells, order, recent, processCounter);
      processCounter := processCounter + 1;
      timeSlice := timeSlice + 1;
      pid := processCounter;
      var luf := LeastUsedFrame();
      order := MissStep(cells, order, recent, luf, Key(pid, 0), timeSlice);
      recent := Used(recent, Key(pid, 0), numOfFrames);
      Replace(luf, 0, pid, timeSlice);
    }

    // The frame that holds a page, if there is one.
    method Find(pid: int, page: int) returns (found: bool, at: nat)
      requires Shown()
      ensures found ==> at < |cells| && KeyOf(cells[at]) == Key(pid, page)
      ensures !found ==> forall i :: 0 <= i < |cells| ==> KeyOf(cells[i]) != Key(pid, page)
    {
      var index := -1;
      for i := 0 to pageTable.Length
        invariant index == -1 && forall j :: 0 <= j < i ==> KeyOf(cells[j]) != Key(pid, page)
      {
        assert ShownAt(i);
        if pageTable[i].timeSlice == -1 && index != -1 {
          index := i;     // never taken: index is still -1
        }
        if pid == pageTable[i].pid && page == pageTable[i].page {
          return true, i;
        }
      }
      return false, 0;
    }

    // A process uses an address.
    method AccessAddress(p: Process?, num: int)
      requires Valid() && numOfFrames >= 1 && pageSize >= 1 && timeSlice + 1 < INT_MAX
      requires p != null ==> 1 <= p.pid <= processCounter
      modifies this, pageTable[..]
      ensures Valid() && processCounter == old(processCounter)
      ensures p == null ==> cells == old(cells) && timeSlice == old(timeSlice)
      ensures p != null ==> timeSlice == old(timeSlice) + 1
      ensures p != null ==>
                exists i: nat ::
                  && i < |cells| && cells == old(cells)[i := Cell(PageOf(num, pageSize), p.pid, timeSlice)]
                  && if Misses(old(recent), Access(p.pid, PageOf(num, pageSize))) then IsLeast(old(cells), i)
                     else KeyOf(old(cells)[i]) == Key(p.pid, PageOf(num, pageSize))
      ensures recent == if p == null then old(recent) else Used(old(recent), Key(p.pid, PageOf(num, pageSize)), numOfFrames)
    {
      if p == null {
        return;
      }
      var page := PageOf(num, pageSize);
      timeSlice := timeSlice + 1;
      var found, i := Find(p.pid, page);
      HeldSomewhere(cells, order, recent, Key(p.pid, page));
      if found {
        order := HitStep(cells, order, recent, i, timeSlice);
        recent := Used(recent, Key(p.pid, page), numOfFrames);
        Overwrite(i, page, p.pid, timeSlice);
      } else {
        var luf := LeastUsedFrame();
        order := MissStep(cells, order, recent, luf, Key(p.pid, page), timeSlice);
        recent := Used(recent, Key(p.pid, page), numOfFrames);
        Overwrite(luf, page, p.pid, timeSlice);
      }
    }

    // The frames of a process become free.
    method Terminate(pid: int)
      requires Valid()
      modifies this`cells, this`order, this`recent, pageTable[..]
      ensures Valid() && recent == Dropped(old(recent), pid)
      ensures |cells| == |old(cells)|
      ensures forall i :: 0 <= i < |cells| ==> cells[i] == if old(cells)[i].pid == pid then FREE else old(cells)[i]
    {
      for i := 0 to pageTable.Length
        invariant Valid() && Dropped(recent, pid) == Dropped(old(recent), pid)
        invariant forall j :: 0 <= j < i ==> cells[j] == FREE || cells[j].pid != pid
        invariant |cells| == |old(cells)|
        invariant forall j :: 0 <= j < |cells| ==> cells[j] == if j < i && old(cells)[j].pid == pid then FREE else old(cells)[j]
      {
        assert ShownAt(i);
        if pageTable[i].pid == pid {
          order, recent := ClearStep(cells, order, recent, i, pid);
          Overwrite(i, -1, -1, -1);
        }
      }
      NoneLeft(cells, order, recent, pid);
    }
  }

  lemma NewPidNowhere(cells: seq<Cell>, order: seq<nat>, recent: seq<Key>, counter: int)
    requires Sorted(cells, order, recent) && forall i :: 0 <= i < |cells| ==> cells[i].pid <= counter
    ensures Key(counter + 1, 0) !in recent
  {
    forall k | 0 <= k < |recent| ensures recent[k].pid <= counter {
      assert InPlace(cells, order, recent, k);
    }
  }

  lemma ClearStep(cells: seq<Cell>, order: seq<nat>, recent: seq<Key>, i: nat, pid: int)
    returns (order': seq<nat>, recent': seq<Key>)
    requires Sorted(cells, order, recent) && i < |cells| && cells[i].pid == pid
    ensures Sorted(cells[i := FREE], order', recent') && Dropped(recent', pid) == Dropped(recent, pid)
  {
    assert FreeOrListed(cells, order, i);
    if cells[i] == FREE {
      order', recent' := order, recent;
      assert cells[i := FREE] == cells;
    } else {
      var k :| 0 <= k < |order| && order[k] == i;
      assert InPlace(cells, order, recent, k);
      Cleared(cells, order, recent, k);
      DroppedSkips(recent, k, pid);
      order', recent' := Minus(order, k), Minus(recent, k);
    }
  }

  lemma NoneLeft(cells: seq<Cell>, order: seq<nat>, recent: seq<Key>, pid: int)
    requires Sorted(cells, order, recent) && forall j :: 0 <= j < |cells| ==> cells[j] == FREE || cells[j].pid != pid
    ensures Dropped(recent, pid) == recent
  {
    forall k | 0 <= k < |recent| ensures recent[k].pid != pid {
      assert InPlace(cells, order, recent, k);
    }
    DroppedNone(recent, pid);
  }
}
