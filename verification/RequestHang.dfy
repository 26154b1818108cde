// Exactly when the program hangs. The creation loop compares its counter with client_threads, which
// clients that exit meanwhile count down; main may then wait for clients it never created.
module RequestHang {
  import opened RequestQueue
  import opened RequestInvariant
  import opened RequestSteps
  import opened RequestTheorems

  ghost predicate Running(s: State) {
    exists t: nat :: t <= s.n + 1 && Enabled(s, Run(t, ""))
  }

  // Main has not returned and no thread can take a step.
  ghost predicate Hung(s: State)
    requires |s.pcs| == s.n + 1
  {
    s.pcs[s.n] != Gone && !Running(s)
  }

  // Main waits for clients it has not created; the others have all left, and the server sleeps or was
  // never needed.
  ghost predicate Starved(s: State)
    requires |s.pcs| == s.n + 1
  {
    && s.pcs[s.n] == JoinWait && s.count < s.n
    && (forall u :: 0 <= u < s.n ==> s.pcs[u] == if u < s.count then Gone else Unborn)
    && (s.server == Absent || s.server == TakeWait)
  }

  lemma OwnerRuns(s: State)
    requires Inv(s) && (s.serverMutex != NOBODY || s.clientMutex != NOBODY)
    ensures Running(s)
  {
    var t: nat := if s.serverMutex != NOBODY then s.serverMutex else s.clientMutex;
    if t <= s.n {
      assert CallerOk(s, t);
    }
    assert Enabled(s, Run(t, ""));
  }

  // A thread that cannot run sleeps, has left or has not been born.
  lemma Idle(s: State, t: nat)
    requires Inv(s) && !Running(s) && t <= s.n
    ensures s.pcs[t] == Unborn || s.pcs[t].Wait? || s.pcs[t] == JoinWait || s.pcs[t] == Gone
  {
    if s.serverMutex != NOBODY || s.clientMutex != NOBODY {
      OwnerRuns(s);
    }
    assert !Enabled(s, Run(t, ""));
  }

  lemma ServerIdle(s: State)
    requires Inv(s) && !Running(s)
    ensures s.server == Absent || s.server == TakeWait || s.server == Ended
  {
    if s.serverMutex != NOBODY || s.clientMutex != NOBODY {
      OwnerRuns(s);
    }
    assert !Enabled(s, Run(s.n + 1, ""));
  }

  // Nobody waits for a reply in vain.
  lemma NoCallerWaits(s: State, t: nat)
    requires Reachable(s) && !Running(s) && t <= s.n
    ensures !s.pcs[t].Wait?
  {
    ReachableInv(s);
    ServerIdle(s);
    if s.pcs[t].Wait? {
      CallerWaits(s, t);
      assert CallerOk(s, t);
      assert Listed(s.reqs, s.first) != [];
      ServerSleeps(s);
    }
  }

  lemma ServerSleeps(s: State)
    requires Inv(s) && s.server == TakeWait && !Running(s)
    ensures Listed(s.reqs, s.first) == []
  {
    if s.serverMutex != NOBODY {
      OwnerRuns(s);
    }
  }

  lemma HungIsStarved(s: State)
    requires Reachable(s) && Hung(s)
    ensures Starved(s)
  {
    ReachableInv(s);
    ServerIdle(s);
    Idle(s, s.n);
    NoCallerWaits(s, s.n);
    assert CallerOk(s, s.n);
    forall u | 0 <= u < s.n ensures s.pcs[u] == if u < s.count then Gone else Unborn {
      Idle(s, u);
      NoCallerWaits(s, u);
      assert CallerOk(s, u);
    }
    MainStarves(s);
    ServerStays(s);
  }

  lemma ServerStays(s: State)
    requires Inv(s) && s.pcs[s.n] == JoinWait
    ensures s.server != Ended
  {
    if s.reqs != [] {
      assert RequestOk(s, |s.reqs| - 1);
    }
  }

  // Main can only wait for clients that do not exist.
  lemma MainStarves(s: State)
    requires Reachable(s) && Inv(s) && !Running(s) && s.pcs[s.n] == JoinWait
    requires forall u :: 0 <= u < s.n ==> s.pcs[u] == if u < s.count then Gone else Unborn
    ensures s.count < s.n
  {
    if s.clientMutex != NOBODY {
      OwnerRuns(s);
    }
    if s.count == s.n {
      EveryoneOut(s.pcs[..s.n]);
    }
  }

  lemma {:induction false} EveryoneOut(pcs: seq<Pc>)
    requires forall u :: 0 <= u < |pcs| ==> pcs[u] == Gone
    ensures Out(pcs) == |pcs|
  {
    if pcs != [] {
      EveryoneOut(pcs[1..]);
    }
  }

  // A reachable state hangs exactly when main waits for clients it never created.
  lemma HungIffStarved(s: State)
    requires Reachable(s)
    ensures Hung(s) <==> Starved(s)
    ensures s.count == s.n ==> !Hung(s)
  {
    if Hung(s) {
      HungIsStarved(s);
    }
  }

  // ---------- no way out ----------

  // What stays true once main starves, whatever wakes up without a signal.
  ghost predicate Trapped(s: State) {
    && |s.pcs| == s.n + 1 && s.count < s.n && s.clientThreads > 0 && s.first == NULL
    && (s.pcs[s.n] == JoinWait || s.pcs[s.n] == JoinWoken || s.pcs[s.n] == JoinTest)
    && (forall u :: 0 <= u < s.n ==> s.pcs[u] == if u < s.count then Gone else Unborn)
    && (s.server == Absent || s.server == TakeWait || s.server == TakeWoken || s.server == TakeTest)
  }

  lemma StarvedIsTrapped(s: State)
    requires Inv(s) && Starved(s)
    ensures Trapped(s)
  {
  }

  lemma TrappedStays(s: State, a: Action)
    requires Trapped(s) && Enabled(s, a)
    ensures Trapped(Next(s, a)) && Next(s, a).reqs == s.reqs && Next(s, a).count == s.count && Next(s, a).n == s.n
  {
  }

  lemma {:induction false} TrappedForever(s: State, acts: seq<Action>, s': State)
    requires Trapped(s) && Leads(s, acts, s')
    ensures Trapped(s') && s'.reqs == s.reqs && s'.count == s.count && s'.n == s.n
    decreases |acts|
  {
    if acts != [] {
      TrappedStays(s, acts[0]);
      TrappedForever(Next(s, acts[0]), acts[1..], s');
    }
  }

  // A hang is for good: not even a wait that ends without a signal leads out of it.
  lemma HangIsForever(s: State, acts: seq<Action>, s': State)
    requires Reachable(s) && Hung(s) && Leads(s, acts, s')
    ensures |s'.pcs| == s'.n + 1 && s'.n == s.n && s'.pcs[s.n] != Gone && s'.reqs == s.reqs && s'.count == s.count < s.n
  {
    ReachableInv(s);
    HungIsStarved(s);
    StarvedIsTrapped(s);
    TrappedForever(s, acts, s');
  }

  // ---------- which numbers of clients can hang ----------

  lemma {:induction false} LeadsFurther(s: State, acts: seq<Action>, s': State, a: Action)
    requires Leads(s, acts, s') && Enabled(s', a)
    ensures Leads(s, acts + [a], Next(s', a))
    decreases |acts|
  {
    if acts == [] {
      assert Leads(Next(s, a), [], Next(s', a));
      assert [a][1..] == [] && acts + [a] == [a];
    } else {
      LeadsFurther(Next(s, acts[0]), acts[1..], s', a);
      assert (acts + [a])[1..] == acts[1..] + [a];
    }
  }

  // One step of a run that has come as far as s.
  lemma Go(s: State, t: nat) returns (s': State)
    requires Reachable(s) && Enabled(s, Run(t, ""))
    ensures Reachable(s') && s' == Next(s, Run(t, "")) && s'.n == s.n
  {
    var acts :| Leads(Init(s.n), acts, s);
    s' := Next(s, Run(t, ""));
    LeadsFurther(Init(s.n), acts, s, Run(t, ""));
    ReachableInv(s);
    NextKeeps(s, Run(t, ""));
  }

  // Main has created some clients and all of them have left; no one else is at work.
  ghost predicate Calm(s: State) {
    && |s.pcs| == s.n + 1 && s.pcs[s.n] == Create && s.count <= s.n
    && (forall u :: 0 <= u < s.n ==> s.pcs[u] == if u < s.count then Gone else Unborn)
    && s.serverMutex == NOBODY && s.clientMutex == NOBODY && s.clientThreads == s.n - s.count && s.first == NULL
    && (s.server == Absent || s.server == TakeWait) && (s.running <==> s.server != Absent)
  }

  // The next client enqueues its read request and waits.
  lemma NextAsks(s: State) returns (s': State)
    requires Reachable(s) && Calm(s) && s.count < s.clientThreads
    ensures Reachable(s') && s'.n == s.n && |s'.reqs| == |s.reqs| + 1 && s'.first == |s.reqs|
    ensures s'.reqs[|s.reqs|] == Request(s.count, READ, true, NULL, false, "")
    ensures s' == s.(pcs := s.pcs[s.count := Wait(|s.reqs|)], server := s'.server, running := true, count := s.count + 1,
                     reqs := s'.reqs, first := s'.first, last := s'.last, enqueued := s'.enqueued)
    ensures s'.server == TakeLock || s'.server == TakeWoken
  {
    var c := s.count;
    s' := Go(s, s.n);
    s' := Go(s', c);
    s' := Go(s', c);
    s' := Go(s', c);
    s' := Go(s', c);
    s' := Go(s', c);
  }

  // The server takes the only request and is given an empty line.
  lemma ServerServes(s: State, r: nat) returns (s': State)
    requires Reachable(s) && (s.server == TakeLock || s.server == TakeWoken) && s.serverMutex == NOBODY
    requires s.first == r < |s.reqs| && s.reqs[r].op == READ && s.reqs[r].sync && s.reqs[r].next == NULL && s.reqs[r].text == ""
    ensures Reachable(s') && s'.n == s.n
    ensures s' == s.(server := Relock(r), first := NULL, last := NULL, served := s.served + [r])
  {
    s' := Go(s, s.n + 1);
    s' := Go(s', s.n + 1);
    s' := Go(s', s.n + 1);
    s' := Go(s', s.n + 1);
    assert s.reqs[r := s.reqs[r]] == s.reqs;
  }

  // The server wakes the client.
  lemma ServerReplies(s: State, r: nat, c: nat) returns (s': State)
    requires Reachable(s) && s.server == Relock(r) && s.serverMutex == NOBODY
    requires r < |s.reqs| && s.reqs[r].op == READ && s.reqs[r].caller == c < s.n && s.pcs[c] == Wait(r)
    ensures Reachable(s') && s'.n == s.n
    ensures s' == s.(server := TakeLock, pcs := s.pcs[c := Woken(r)], reqs := s.reqs[r := s.reqs[r].(done := true)])
  {
    s' := Go(s, s.n + 1);
    s' := Go(s', s.n + 1);
    s' := Go(s', s.n + 1);
    s' := Go(s', s.n + 1);
  }

  // With an empty queue it goes back to sleep.
  lemma ServerSleepsAgain(s: State) returns (s': State)
    requires Reachable(s) && s.server == TakeLock && s.serverMutex == NOBODY && s.first == NULL
    ensures Reachable(s') && s'.n == s.n && s' == s.(server := TakeWait)
  {
    s' := Go(s, s.n + 1);
    s' := Go(s', s.n + 1);
  }

  // The client sees the empty line.
  lemma ClientReturns(s: State, r: nat, c: nat) returns (s': State)
    requires Reachable(s) && s.serverMutex == NOBODY && c < s.n && s.pcs[c] == Woken(r)
    requires r < |s.reqs| && s.reqs[r].op == READ && s.reqs[r].done && s.reqs[r].text == ""
    ensures Reachable(s') && s'.n == s.n && s' == s.(pcs := s.pcs[c := ExitLock])
  {
    s' := Go(s, c);
    s' := Go(s', c);
    s' := Go(s', c);
  }

  lemma ClientExits(s: State, c: nat) returns (s': State)
    requires Reachable(s) && s.clientMutex == NOBODY && c < s.n && s.pcs[c] == ExitLock && s.pcs[s.n] == Create
    ensures Reachable(s') && s'.n == s.n
    ensures s' == s.(pcs := s.pcs[c := Gone], clientThreads := s.clientThreads - 1)
  {
    s' := Go(s, c);
    s' := Go(s', c);
    s' := Go(s', c);
    s' := Go(s', c);
  }

  // A client can come and go before main creates the next one.
  lemma NextClient(s: State) returns (s': State)
    requires Reachable(s) && Calm(s) && s.count < s.clientThreads
    ensures Reachable(s') && Calm(s') && s'.n == s.n && s'.count == s.count + 1
  {
    var r, c := |s.reqs|, s.count;
    s' := NextAsks(s);
    s' := ServerServes(s', r);
    s' := ServerReplies(s', r, c);
    s' := ServerSleepsAgain(s');
    s' := ClientReturns(s', r, c);
    s' := ClientExits(s', c);
  }

  // Until half of them have: then the loop ends.
  lemma {:induction false} HalfTheClients(s: State) returns (s': State)
    requires Reachable(s) && Calm(s) && 2 * s.count <= s.n + 1
    ensures Reachable(s') && Calm(s') && s'.n == s.n && s'.clientThreads <= s'.count && 2 * s'.count <= s.n + 1
    decreases s.n - s.count
  {
    s' := s;
    if s.count < s.clientThreads {
      s' := NextClient(s);
      s' := HalfTheClients(s');
    }
  }

  lemma ReachableInit(n: nat)
    ensures Reachable(Init(n)) && Calm(Init(n))
  {
    assert Leads(Init(n), [], Init(n));
  }

  // With two clients or more, main can end up waiting for a client that does not exist.
  lemma SomeRunHangs(n: nat) returns (s: State)
    requires n >= 2
    ensures Reachable(s) && s.n == n && Hung(s)
  {
    ReachableInit(n);
    s := HalfTheClients(Init(n));
    s := Go(s, n);
    s := Go(s, n);
    s := Go(s, n);
    assert Starved(s);
    HungIffStarved(s);
  }

  // The program can hang exactly when it has at least two clients; it has four.
  lemma HangsIffTwoClients(n: nat)
    ensures (exists s :: Reachable(s) && s.n == n && Hung(s)) <==> n >= 2
  {
    if n >= 2 {
      var s := SomeRunHangs(n);
    }
    forall s | Reachable(s) && s.n == n && Hung(s) ensures n >= 2 {
      ReachableInv(s);
      HungIsStarved(s);
    }
  }
}
