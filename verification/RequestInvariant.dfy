// What every step keeps: who holds the mutexes, what the queue holds, who waits for what.
module RequestInvariant {
  import opened RequestQueue

  predicate HoldsServer(pc: Pc) {
    pc.Enter? || pc.Link? || pc.Signal? || pc.Test? || pc.Leave?
  }

  predicate HoldsClient(pc: Pc) {
    pc == ExitCount || pc == ExitSignal || pc == ExitUnlock || pc == JoinTest || pc == JoinUnlock
  }

  predicate ServerHolds(pc: ServerPc) {
    pc == TakeTest || pc.Taken? || pc.Flag? || pc.Reply? || pc.Release?
  }

  predicate Asking(pc: Pc) { pc.Lock? || pc.Enter? || pc.Link? }

  predicate HasRequest(pc: Pc) {
    pc.Signal? || pc.Test? || pc.Wait? || pc.Woken? || pc.Leave?
  }

  predicate Joining(pc: Pc) {
    pc == Create || pc == JoinLock || pc == JoinTest || pc == JoinWait || pc == JoinWoken
  }

  predicate Exiting(pc: Pc) { pc == ExitLock || pc == ExitCount || pc == ExitSignal || pc == ExitUnlock }

  predicate ClientPc(pc: Pc) {
    pc == Unborn || pc == Gone || Exiting(pc) || (Asking(pc) && pc.op != QUIT) || HasRequest(pc)
  }

  predicate MainPc(pc: Pc) {
    pc == Gone || Joining(pc) || pc == JoinUnlock || (Asking(pc) && pc.op == QUIT) || HasRequest(pc)
  }

  // Requests that may still be unserved when their caller is here.
  predicate MayOwe(pc: Pc) { (Asking(pc) && pc.op == READ) || HasRequest(pc) }

  ghost predicate Latest(s: State, t: nat, r: nat) {
    forall i :: r < i < |s.reqs| ==> s.reqs[i].caller != t
  }

  ghost predicate Settled(s: State, t: nat) {
    forall i :: |s.served| <= i < |s.reqs| ==> s.reqs[i].caller != t
  }

  ghost predicate Current(s: State, t: nat, pc: Pc)
    requires HasRequest(pc)
  {
    && pc.r < |s.reqs| && s.reqs[pc.r].caller == t && Latest(s, t, pc.r) && s.running
    && (pc.Test? || pc.Wait? || pc.Woken? ==> s.reqs[pc.r].sync)
    && (pc.Wait? ==> !s.reqs[pc.r].done || s.server == Reply(pc.r))
    && (pc.Leave? ==> (s.reqs[pc.r].sync ==> s.reqs[pc.r].done) && (s.reqs[pc.r].op == READ ==> pc.got == s.reqs[pc.r].text))
  }

  ghost predicate CallerOk(s: State, t: nat)
    requires t < |s.pcs|
  {
    var pc := s.pcs[t];
    && (s.serverMutex == t <==> HoldsServer(pc))
    && (s.clientMutex == t <==> HoldsClient(pc))
    && (if t == s.n then MainPc(pc) else ClientPc(pc) && (t < s.count <==> pc != Unborn))
    && (pc.Link? ==> s.running)
    && (HasRequest(pc) ==> Current(s, t, pc))
    && (!MayOwe(pc) ==> Settled(s, t))
  }

  // The first request not yet dequeued.
  function Head(s: State): nat {
    |s.served| + if s.server.Taken? || s.server.Serve? then 1 else 0
  }

  predicate WaitsFor(pc: Pc, i: nat) {
    (pc.Signal? || pc.Test? || pc.Wait? || pc.Woken?) && pc.r == i
  }

  ghost predicate RequestOk(s: State, i: nat)
    requires i < |s.reqs| && |s.pcs| == s.n + 1
  {
    var q := s.reqs[i];
    && q.caller <= s.n && (q.sync <==> q.op != WRITE) && (q.caller == s.n <==> q.op == QUIT)
    && (q.done ==> q.sync && i < |s.served|)
    && (i < |s.served| && q.sync && !q.done ==> s.server == Relock(i) || s.server == Flag(i))
    && (q.sync && (i >= |s.served| || !q.done) ==> WaitsFor(s.pcs[q.caller], i))
    && (i >= Head(s) ==> q.next == if i + 1 < |s.reqs| then i + 1 else NULL)
    && (q.op == QUIT ==> i == |s.reqs| - 1 && (HasRequest(s.pcs[s.n]) || s.pcs[s.n] == Gone))
  }

  // Of two unserved requests of one caller the first writes and the second reads.
  ghost predicate PairOk(s: State, i: nat, j: nat)
    requires i < |s.reqs| && j < |s.reqs|
  {
    |s.served| <= i < j && s.reqs[i].caller == s.reqs[j].caller ==> s.reqs[i].op == WRITE && s.reqs[j].op == READ
  }

  ghost predicate ServerOk(s: State) {
    && (s.server.Taken? || s.server.Serve? ==> s.server.r == |s.served| < |s.reqs|)
    && (s.server.Relock? || s.server.Flag? || s.server.Reply? || s.server.Release? ==>
          s.server.r == |s.served| - 1 && |s.served| <= |s.reqs| && s.reqs[s.server.r].sync
          && (s.reqs[s.server.r].done <==> s.server.Reply? || s.server.Release?))
    && (s.server == TakeWait ==> s.first == NULL || (0 <= s.serverMutex < |s.pcs| && s.pcs[s.serverMutex].Signal?))
    && (s.server == Ended ==> s.reqs != [] && s.reqs[|s.reqs| - 1].op == QUIT && s.reqs[|s.reqs| - 1].done)
    && (s.running <==> s.server != Absent)
    && (!s.running ==> s.reqs == [])
  }

  predicate Quitting(pc: Pc) {
    pc == JoinUnlock || Asking(pc) || HasRequest(pc) || pc == Gone
  }

  ghost predicate MainOk(s: State)
    requires |s.pcs| == s.n + 1
  {
    var pc := s.pcs[s.n];
    && (Quitting(pc) ==> forall u :: 0 <= u < s.n ==> s.pcs[u] == Gone)
    && (pc == JoinWait ==> s.clientThreads > 0 || (0 <= s.clientMutex < s.n && s.pcs[s.clientMutex] == ExitSignal))
    && (pc != Create ==> 2 * s.count >= s.n)
  }

  // Clients that have counted themselves out.
  predicate CountedOut(pc: Pc) { pc == ExitSignal || pc == ExitUnlock || pc == Gone }

  function Out(pcs: seq<Pc>): nat {
    if pcs == [] then 0 else (if CountedOut(pcs[0]) then 1 else 0) + Out(pcs[1..])
  }

  ghost predicate Basic(s: State) {
    && |s.pcs| == s.n + 1 && s.count <= s.n
    && -1 <= s.serverMutex <= s.n + 1 && -1 <= s.clientMutex <= s.n
    && (s.serverMutex == s.n + 1 <==> ServerHolds(s.server))
    && |s.served| <= Head(s) <= |s.reqs| && |s.enqueued| == |s.reqs|
    && (forall i :: 0 <= i < |s.enqueued| ==> s.enqueued[i] == i)
    && (forall i :: 0 <= i < |s.served| ==> s.served[i] == i)
    && s.first == (if Head(s) < |s.reqs| then Head(s) else NULL)
    && s.last == (if Head(s) < |s.reqs| then |s.reqs| - 1 else NULL)
  }

  ghost predicate Inv(s: State) {
    && Basic(s) && ServerOk(s) && MainOk(s)
    && s.clientThreads == s.n - Out(s.pcs[..s.n])
    && (forall t: nat {:trigger CallerOk(s, t)} :: t <= s.n ==> CallerOk(s, t))
    && (forall i: nat {:trigger RequestOk(s, i)} :: i < |s.reqs| ==> RequestOk(s, i))
    && (forall i: nat, j: nat {:trigger PairOk(s, i, j)} :: i < |s.reqs| && j < |s.reqs| ==> PairOk(s, i, j))
  }

  lemma InitInv(n: nat)
    ensures Inv(Init(n))
  {
    var s := Init(n);
    NoneOut(s.pcs[..n]);
    forall t: nat | t <= n ensures CallerOk(s, t) {
    }
  }

  lemma {:induction false} NoneOut(pcs: seq<Pc>)
    requires forall i :: 0 <= i < |pcs| ==> pcs[i] == Unborn
    ensures Out(pcs) == 0
  {
    if pcs != [] {
      NoneOut(pcs[1..]);
    }
  }

  lemma {:induction false} OutUpdate(pcs: seq<Pc>, t: nat, pc: Pc)
    requires t < |pcs|
    ensures Out(pcs[t := pc]) == Out(pcs) - (if CountedOut(pcs[t]) then 1 else 0) + (if CountedOut(pc) then 1 else 0)
  {
    if t > 0 {
      assert pcs[t := pc][1..] == pcs[1..][t - 1 := pc];
      OutUpdate(pcs[1..], t - 1, pc);
    } else {
      assert pcs[t := pc][1..] == pcs[1..];
    }
  }

  // How a move of one thread counts.
  lemma OutAt(s: State, t: nat, pc: Pc)
    requires |s.pcs| == s.n + 1 && t <= s.n
    ensures Out(At(s, t, pc).pcs[..s.n]) ==
            Out(s.pcs[..s.n]) + (if t == s.n || CountedOut(s.pcs[t]) == CountedOut(pc) then 0 else if CountedOut(pc) then 1 else -1)
  {
    if t < s.n {
      assert At(s, t, pc).pcs[..s.n] == s.pcs[..s.n][t := pc];
      OutUpdate(s.pcs[..s.n], t, pc);
    } else {
      assert At(s, t, pc).pcs[..s.n] == s.pcs[..s.n];
    }
  }
}
