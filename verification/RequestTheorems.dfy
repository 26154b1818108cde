// What holds in every reachable state: exclusion, the queue against its history, replies, wake-ups,
// shutdown and the length of the queue.
module RequestTheorems {
  import opened RequestQueue
  import opened RequestInvariant
  import opened RequestSteps

  // Never two owners of a mutex.
  lemma MutualExclusion(s: State, t: nat, u: nat)
    requires Reachable(s) && t <= s.n && u <= s.n
    ensures HoldsServer(s.pcs[t]) && HoldsServer(s.pcs[u]) ==> t == u
    ensures HoldsServer(s.pcs[t]) ==> !ServerHolds(s.server)
    ensures HoldsClient(s.pcs[t]) && HoldsClient(s.pcs[u]) ==> t == u
  {
    ReachableInv(s);
    assert CallerOk(s, t) && CallerOk(s, u);
  }

  // ---------- the queue and its history ----------

  // The linked list from a request on.
  ghost function Listed(reqs: seq<Request>, i: int): seq<nat>
    decreases |reqs| - i
  {
    if 0 <= i < |reqs| then [i] + (if reqs[i].next > i then Listed(reqs, reqs[i].next) else []) else []
  }

  ghost function InService(s: State): seq<nat> {
    if s.server.Taken? || s.server.Serve? then [s.server.r] else []
  }

  ghost function Ids(from: nat, upto: nat): seq<nat>
    decreases upto - from
  {
    if from >= upto then [] else [from] + Ids(from + 1, upto)
  }

  lemma {:induction false} ListedIds(reqs: seq<Request>, i: nat)
    requires i < |reqs|
    requires forall k :: i <= k < |reqs| ==> reqs[k].next == if k + 1 < |reqs| then k + 1 else NULL
    ensures Listed(reqs, i) == Ids(i, |reqs|)
    decreases |reqs| - i
  {
    if i + 1 < |reqs| {
      ListedIds(reqs, i + 1);
    } else {
      assert Ids(i + 1, |reqs|) == [];
    }
  }

  lemma {:induction false} IdsSplit(s: seq<nat>, k: nat)
    requires k <= |s| && forall i :: 0 <= i < |s| ==> s[i] == i
    ensures s == s[..k] + Ids(k, |s|)
    decreases |s| - k
  {
    if k < |s| {
      IdsSplit(s, k + 1);
      assert s[..k + 1] == s[..k] + [k];
    }
  }

  lemma QueueIds(s: State)
    requires Inv(s)
    ensures Listed(s.reqs, s.first) == Ids(Head(s), |s.reqs|)
  {
    if Head(s) < |s.reqs| {
      forall k | Head(s) <= k < |s.reqs| ensures s.reqs[k].next == if k + 1 < |s.reqs| then k + 1 else NULL {
        assert RequestOk(s, k);
      }
      ListedIds(s.reqs, Head(s));
    }
  }

  // The first head requests, and those after them.
  lemma HistoryParts(enqueued: seq<nat>, head: nat, before: seq<nat>, listed: seq<nat>)
    requires head <= |enqueued| && forall i :: 0 <= i < |enqueued| ==> enqueued[i] == i
    requires before == enqueued[..head] && listed == Ids(head, |enqueued|)
    ensures enqueued == before + listed && |listed| == |enqueued| - head
    ensures listed != [] ==> listed[|listed| - 1] == |enqueued| - 1
  {
    IdsSplit(enqueued, head);
    assert |enqueued| == |before| + |listed|;
    assert listed != [] ==> enqueued[|enqueued| - 1] == listed[|listed| - 1];
  }

  lemma ServedAndTaken(s: State)
    requires Inv(s)
    ensures Head(s) <= |s.enqueued| == |s.reqs| && s.served + InService(s) == s.enqueued[..Head(s)]
  {
  }

  // Served, in service, queued: together the requests in the order they were enqueued.
  lemma QueueIsHistory(s: State)
    requires Reachable(s)
    ensures s.enqueued == s.served + InService(s) + Listed(s.reqs, s.first)
    ensures s.last == if Listed(s.reqs, s.first) == [] then NULL else Listed(s.reqs, s.first)[|Listed(s.reqs, s.first)| - 1]
  {
    ReachableInv(s);
    QueueIds(s);
    ServedAndTaken(s);
    HistoryParts(s.enqueued, Head(s), s.served + InService(s), Listed(s.reqs, s.first));
  }

  // ---------- replies ----------

  // A synchronous call that returns does so after its own request was served, once, with its text.
  lemma SyncReturns(s: State, t: nat)
    requires Reachable(s) && t <= s.n && s.pcs[t].Leave?
    ensures var r := s.pcs[t].r;
            && r < |s.reqs| && s.reqs[r].caller == t && (s.reqs[r].sync <==> s.reqs[r].op != WRITE)
            && (s.reqs[r].sync ==> s.reqs[r].done && multiset(s.served)[r] == 1)
            && (s.reqs[r].op == READ ==> s.pcs[t].got == s.reqs[r].text)
  {
    ReachableInv(s);
    assert CallerOk(s, t);
    assert RequestOk(s, s.pcs[t].r);
    if s.reqs[s.pcs[t].r].sync {
      OnceIn(s.served, s.pcs[t].r);
    }
  }

  lemma OnceIn(a: seq<nat>, r: nat)
    requires r < |a| && forall i :: 0 <= i < |a| ==> a[i] == i
    ensures multiset(a)[r] == 1
  {
    assert a == a[..r] + [r] + a[r + 1..];
    assert r !in a[..r] && r !in a[r + 1..];
  }

  lemma CallerLeavesText(s: State, t: nat, r: nat)
    requires t < |s.pcs| && s.n < |s.pcs| && r < |s.reqs|
    ensures var s' := CallerStep(s, t); s'.served == s.served && r < |s'.reqs| && s'.reqs[r] == s.reqs[r].(next := s'.reqs[r].next)
  {
    if s.pcs[t].Link? {
      assert CallerStep(s, t) == LinkStep(s, t);
    }
  }

  lemma ServerLeavesText(s: State, input: string, r: nat)
    requires r < |s.reqs| && ServerOk(s)
    ensures var s' := ServerStep(s, input);
            && r < |s'.reqs| && s'.reqs[r].op == s.reqs[r].op && s'.reqs[r].caller == s.reqs[r].caller
            && (r < |s.served| ==> s'.reqs[r].text == s.reqs[r].text)
            && (r == |s.served| < |s'.served| && s.reqs[r].op == READ ==> s'.reqs[r].text == input)
  {
  }

  // Serving a read request gives it the line typed; no step changes it afterwards.
  lemma TextStays(s: State, a: Action, r: nat)
    requires Reachable(s) && Enabled(s, a) && r < |s.reqs|
    ensures var s' := Next(s, a);
            && r < |s'.reqs| && s'.reqs[r].op == s.reqs[r].op && s'.reqs[r].caller == s.reqs[r].caller
            && (r < |s.served| ==> s'.reqs[r].text == s.reqs[r].text)
            && (r == |s.served| < |s'.served| && s.reqs[r].op == READ ==> a.Run? && s'.reqs[r].text == a.input)
  {
    assert ServerOk(s) by { ReachableInv(s); }
    match a
    case Run(t, input) =>
      if t == s.n + 1 {
        ServerLeavesText(s, input, r);
      } else {
        CallerLeavesText(s, t, r);
      }
    case Spurious(_) =>
  }

  // ---------- wake-ups ----------

  predicate BeingServed(s: State, r: nat) {
    s.server == Taken(r) || s.server == Serve(r) || s.server == Relock(r) || s.server == Flag(r)
  }

  // No lost wake-up: whoever waits, waits for something that is still to come.
  lemma CallerWaits(s: State, t: nat)
    requires Reachable(s) && t <= s.n && s.pcs[t].Wait?
    ensures var r := s.pcs[t].r;
            (r in Listed(s.reqs, s.first) || BeingServed(s, r) || s.server == Reply(r)) && s.server != Ended
  {
    ReachableInv(s);
    var r := s.pcs[t].r;
    assert CallerOk(s, t);
    assert RequestOk(s, r);
    QueueIds(s);
    if r >= Head(s) {
      InIds(r, Head(s), |s.reqs|);
    }
    NobodyLeft(s, t);
  }

  lemma NobodyLeft(s: State, t: nat)
    requires Inv(s) && t <= s.n && s.pcs[t].Wait? && CallerOk(s, t)
    ensures s.server != Ended
  {
    assert RequestOk(s, |s.reqs| - 1);
  }

  lemma {:induction false} InIds(r: nat, from: nat, upto: nat)
    requires from <= r < upto
    ensures r in Ids(from, upto)
    decreases upto - from
  {
    if from < r {
      InIds(r, from + 1, upto);
    }
  }

  lemma ServerWaits(s: State)
    requires Reachable(s) && s.server == TakeWait
    ensures Listed(s.reqs, s.first) == [] || exists t: nat :: t <= s.n && s.serverMutex == t && s.pcs[t].Signal?
  {
    ReachableInv(s);
    if s.first != NULL {
      var t: nat := s.serverMutex;
      assert t <= s.n && s.serverMutex == t && s.pcs[t].Signal?;
    }
  }

  lemma MainWaits(s: State)
    requires Reachable(s) && s.pcs[s.n] == JoinWait
    ensures s.clientThreads > 0 || exists t: nat :: t < s.n && s.clientMutex == t && s.pcs[t] == ExitSignal
  {
    ReachableInv(s);
    if s.clientThreads <= 0 {
      var t: nat := s.clientMutex;
      assert t < s.n && s.clientMutex == t && s.pcs[t] == ExitSignal;
    }
  }

  // What a sleeping thread waits for.
  ghost predicate Awaited(s: State, t: nat)
    requires Sleeps(s, t)
  {
    if t < |s.pcs| then (if s.pcs[t].Wait? then s.pcs[t].r < |s.reqs| && s.reqs[s.pcs[t].r].done else s.clientThreads <= 0)
    else 0 <= s.first < |s.reqs|
  }

  lemma ThreeSteps(s: State, a: Action, b: Action, c: Action)
    requires Enabled(s, a) && Enabled(Next(s, a), b) && Enabled(Next(Next(s, a), b), c)
    ensures Leads(s, [a, b, c], Next(Next(Next(s, a), b), c))
  {
    var s1, s2 := Next(s, a), Next(Next(s, a), b);
    assert Leads(Next(s2, c), [], Next(s2, c));
    assert [c][1..] == [] && [b, c][1..] == [c] && [a, b, c][1..] == [b, c];
    assert Leads(s2, [c], Next(s2, c));
    assert Leads(s1, [b, c], Next(s2, c));
  }

  // Every wait tests again: one that ends unsignalled while what it waits for has not come, nobody
  // holding a mutex, is back asleep two steps later, and nothing else has changed.
  lemma SpuriousReturns(s: State, t: nat)
    requires Reachable(s) && Sleeps(s, t) && !Awaited(s, t) && s.serverMutex == NOBODY && s.clientMutex == NOBODY
    ensures Leads(s, [Spurious(t), Run(t, ""), Run(t, "")], s)
  {
    var a, b := Spurious(t), Run(t, "");
    var s1 := Next(s, a);
    var s2 := Next(s1, b);
    assert s2.pcs == if t < |s.pcs| then s.pcs[t := if s.pcs[t].Wait? then Test(s.pcs[t].r) else JoinTest] else s.pcs;
    assert Next(s2, b).pcs == s.pcs;
    ThreeSteps(s, a, b, b);
  }

  // ---------- shutdown ----------

  lemma AllServed(s: State)
    requires Inv(s) && Quitting(s.pcs[s.n]) && !HasRequest(s.pcs[s.n])
    ensures |s.served| == |s.reqs|
  {
    if s.reqs != [] {
      assert RequestOk(s, |s.reqs| - 1);
      GoneOwesNothing(s, |s.reqs| - 1);
    }
  }

  lemma QuitIsLast(s: State, i: nat)
    requires Inv(s) && i < |s.reqs| && s.reqs[i].op == QUIT
    ensures i == |s.reqs| - 1 && Quitting(s.pcs[s.n])
  {
    assert RequestOk(s, i);
  }

  lemma EndServesAll(s: State)
    requires Inv(s) && s.server == Ended
    ensures |s.served| == |s.reqs|
  {
    assert RequestOk(s, |s.reqs| - 1);
  }

  lemma NothingListed(s: State)
    requires Inv(s) && |s.served| == |s.reqs|
    ensures s.served == s.enqueued && Listed(s.reqs, s.first) == []
  {
  }

  // When main enqueues the quit request, every other has been served; nobody enqueues after it.
  lemma QuitComesLast(s: State)
    requires Reachable(s)
    ensures s.pcs[s.n].Link? ==> s.served == s.enqueued && Listed(s.reqs, s.first) == []
    ensures s.server == Ended ==> s.served == s.enqueued && Listed(s.reqs, s.first) == []
    ensures forall i :: 0 <= i < |s.reqs| && s.reqs[i].op == QUIT ==> i == |s.reqs| - 1 && forall u :: 0 <= u < s.n ==> s.pcs[u] == Gone
  {
    ReachableInv(s);
    if s.pcs[s.n].Link? {
      AllServed(s);
      NothingListed(s);
    }
    if s.server == Ended {
      EndServesAll(s);
      NothingListed(s);
    }
    forall i: nat | i < |s.reqs| && s.reqs[i].op == QUIT
      ensures i == |s.reqs| - 1 && forall u :: 0 <= u < s.n ==> s.pcs[u] == Gone
    {
      QuitIsLast(s, i);
    }
  }

  // ---------- the length of the queue ----------

  // Each client has at most one write and one read unserved.
  function Slot(q: Request): int { 2 * q.caller + if q.op == READ then 1 else 0 }

  lemma WithoutOne(a: seq<int>, k: nat, i: nat)
    requires i < |a| && a[i] == k - 1 && forall m :: 0 <= m < |a| ==> 0 <= a[m] < k
    requires forall m, j :: 0 <= m < j < |a| ==> a[m] != a[j]
    ensures var b := a[..i] + a[i + 1..];
            && (forall m :: 0 <= m < |b| ==> 0 <= b[m] < k - 1)
            && (forall m, j :: 0 <= m < j < |b| ==> b[m] != b[j])
  {
    var b := a[..i] + a[i + 1..];
    forall m | 0 <= m < |b| ensures 0 <= b[m] < k - 1 {
      assert b[m] == a[if m < i then m else m + 1];
      assert m < i ==> a[m] != a[i];
    }
  }

  lemma {:induction false} Pigeons(a: seq<int>, k: nat)
    requires forall i :: 0 <= i < |a| ==> 0 <= a[i] < k
    requires forall i, j :: 0 <= i < j < |a| ==> a[i] != a[j]
    ensures |a| <= k
  {
    if a != [] {
      assert 0 <= a[0] < k;
      if k - 1 in a {
        var i :| 0 <= i < |a| && a[i] == k - 1;
        WithoutOne(a, k, i);
        Pigeons(a[..i] + a[i + 1..], k - 1);
      } else {
        Pigeons(a, k - 1);
      }
    }
  }

  // While the last request is not to quit, no other is, and each is a client's.
  lemma UnservedSlot(s: State, i: nat)
    requires Inv(s) && |s.served| <= i < |s.reqs| && s.reqs[|s.reqs| - 1].op != QUIT
    ensures s.reqs[i].op != QUIT && 0 <= Slot(s.reqs[i]) < 2 * s.n
  {
    assert RequestOk(s, i);
  }

  lemma UnservedSlots(s: State, i: nat, j: nat)
    requires Inv(s) && |s.served| <= i < j < |s.reqs| && s.reqs[i].op != QUIT && s.reqs[j].op != QUIT
    ensures Slot(s.reqs[i]) != Slot(s.reqs[j])
  {
    assert PairOk(s, i, j);
    assert RequestOk(s, i) && RequestOk(s, j);
  }

  lemma UnservedApart(s: State, i: nat, j: nat)
    requires Inv(s) && |s.served| <= i < j < |s.reqs| && s.reqs[|s.reqs| - 1].op != QUIT
    ensures Slot(s.reqs[i]) != Slot(s.reqs[j])
  {
    UnservedSlot(s, i);
    UnservedSlot(s, j);
    UnservedSlots(s, i, j);
  }

  lemma UnservedBound(s: State)
    requires Inv(s) && |s.served| < |s.reqs| && s.reqs[|s.reqs| - 1].op != QUIT
    ensures |s.reqs| - |s.served| <= 2 * s.n
  {
    var k, m := |s.served|, |s.reqs| - |s.served|;
    var a := seq(m, i requires 0 <= i < m => Slot(s.reqs[k + i]));
    forall i | 0 <= i < |a| ensures 0 <= a[i] < 2 * s.n {
      UnservedSlot(s, k + i);
    }
    forall i, j | 0 <= i < j < |a| ensures a[i] != a[j] {
      UnservedApart(s, k + i, k + j);
    }
    Pigeons(a, 2 * s.n);
  }

  // The queue never holds more than two requests for each client; the quit request comes alone.
  lemma QueueBound(s: State)
    requires Reachable(s)
    ensures |Listed(s.reqs, s.first)| <= |s.reqs| - |s.served| <= if s.n == 0 then 1 else 2 * s.n
  {
    ReachableInv(s);
    QueueIds(s);
    IdsLength(Head(s), |s.reqs|);
    if |s.served| < |s.reqs| {
      if s.reqs[|s.reqs| - 1].op == QUIT {
        OnlyQuit(s);
      } else {
        UnservedBound(s);
      }
    }
  }

  lemma OnlyQuit(s: State)
    requires Inv(s) && s.reqs != [] && s.reqs[|s.reqs| - 1].op == QUIT
    ensures |s.reqs| - |s.served| <= 1
  {
    assert RequestOk(s, |s.reqs| - 1);
    if |s.served| < |s.reqs| {
      assert RequestOk(s, |s.served|);
      GoneOwesNothing(s, |s.served|);
    }
  }

  lemma GoneOwesNothing(s: State, i: nat)
    requires Inv(s) && i < |s.reqs| && Quitting(s.pcs[s.n])
    ensures s.reqs[i].op == QUIT || i < |s.served|
  {
    assert RequestOk(s, i);
    assert CallerOk(s, s.reqs[i].caller);
  }

  lemma {:induction false} IdsLength(from: nat, upto: nat)
    ensures |Ids(from, upto)| == if from <= upto then upto - from else 0
    decreases upto - from
  {
    if from < upto {
      IdsLength(from + 1, upto);
    }
  }
}
