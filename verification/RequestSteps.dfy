// Every step keeps the invariant.
module RequestSteps {
  import opened RequestQueue
  import opened RequestInvariant

  // ---------- a client or main moves on ----------

  predicate HandsOver(owner: int, owner': int, t: nat) {
    owner' == owner || (owner == NOBODY && owner' == t) || (owner == t && owner' == NOBODY)
  }

  // t goes to pc, perhaps taking or giving back a mutex; nothing else changes but the count of clients.
  ghost predicate Moves(s: State, s': State, t: nat, pc: Pc) {
    && |s.pcs| == s.n + 1 && t <= s.n
    && s' == s.(pcs := s.pcs[t := pc], serverMutex := s'.serverMutex, clientMutex := s'.clientMutex, clientThreads := s'.clientThreads)
    && HandsOver(s.serverMutex, s'.serverMutex, t) && HandsOver(s.clientMutex, s'.clientMutex, t)
  }

  lemma MoveCaller(s: State, s': State, t: nat, pc: Pc, u: nat)
    requires Moves(s, s', t, pc) && u <= s.n && u != t && CallerOk(s, u)
    ensures CallerOk(s', u)
  {
  }

  // A thread that stops waiting for a request has been answered.
  ghost predicate Answered(s: State, before: Pc, pc: Pc) {
    forall i: nat {:trigger s.reqs[i]} :: i < |s.reqs| && WaitsFor(before, i) && !WaitsFor(pc, i) ==>
      !s.reqs[i].sync || (i < |s.served| && s.reqs[i].done)
  }

  lemma MoveRequest(s: State, s': State, t: nat, pc: Pc, i: nat)
    requires Moves(s, s', t, pc) && i < |s.reqs| && RequestOk(s, i)
    requires Answered(s, s.pcs[t], pc)
    requires t == s.n && (HasRequest(s.pcs[t]) || s.pcs[t] == Gone) ==> HasRequest(pc) || pc == Gone
    ensures RequestOk(s', i)
  {
  }

  lemma Move(s: State, s': State, t: nat, pc: Pc)
    requires Inv(s) && Moves(s, s', t, pc) && Answered(s, s.pcs[t], pc)
    requires t == s.n && (HasRequest(s.pcs[t]) || s.pcs[t] == Gone) ==> HasRequest(pc) || pc == Gone
    requires CallerOk(s', t) && MainOk(s')
    requires s.pcs[t].Signal? && !pc.Signal? ==> s.server != TakeWait
    requires s'.clientThreads - s.clientThreads == if t == s.n || CountedOut(s.pcs[t]) == CountedOut(pc) then 0 else if CountedOut(pc) then -1 else 1
    ensures Inv(s')
  {
    OutAt(s, t, pc);
    assert s'.pcs == At(s, t, pc).pcs;
    assert CallerOk(s, t);
    forall u: nat | u <= s.n ensures CallerOk(s', u) {
      if u != t {
        assert CallerOk(s, u);
        MoveCaller(s, s', t, pc, u);
      }
    }
    forall i: nat | i < |s.reqs| ensures RequestOk(s', i) {
      assert RequestOk(s, i);
      MoveRequest(s, s', t, pc, i);
    }
    forall i: nat, j: nat | i < |s.reqs| && j < |s.reqs| ensures PairOk(s', i, j) {
      assert PairOk(s, i, j);
    }
  }

  lemma LockKeeps(s: State, t: nat)
    requires Inv(s) && t <= s.n && (s.pcs[t].Lock? || s.pcs[t].Woken?) && s.serverMutex == NOBODY
    ensures Inv(CallerStep(s, t))
  {
    var s' := CallerStep(s, t);
    assert CallerOk(s, t);
    Move(s, s', t, s'.pcs[t]);
  }

  lemma TestKeeps(s: State, t: nat)
    requires Inv(s) && t <= s.n && s.pcs[t].Test?
    ensures Inv(CallerStep(s, t))
  {
    var s' := CallerStep(s, t);
    assert CallerOk(s, t);
    assert RequestOk(s, s.pcs[t].r);
    Move(s, s', t, s'.pcs[t]);
  }

  lemma LeaveCaller(s: State, t: nat)
    requires Basic(s) && t <= s.n && s.pcs[t].Leave? && CallerOk(s, t) && s.pcs[t].r < |s.reqs| && RequestOk(s, s.pcs[t].r)
    ensures CallerOk(CallerStep(s, t), t)
  {
    var s', r := CallerStep(s, t), s.pcs[t].r;
    if s.reqs[r].op != WRITE {
      forall i | |s.served| <= i < |s.reqs| ensures s.reqs[i].caller != t {
        assert r < i;
      }
      assert Settled(s', t);
    }
  }

  lemma LeaveMain(s: State, t: nat)
    requires Basic(s) && MainOk(s) && t <= s.n && s.pcs[t].Leave? && CallerOk(s, t) && s.pcs[t].r < |s.reqs| && RequestOk(s, s.pcs[t].r)
    ensures MainOk(CallerStep(s, t))
  {
  }

  lemma LeaveKeeps(s: State, t: nat)
    requires Inv(s) && t <= s.n && s.pcs[t].Leave?
    ensures Inv(CallerStep(s, t))
  {
    var s' := CallerStep(s, t);
    assert CallerOk(s, t);
    assert RequestOk(s, s.pcs[t].r);
    LeaveCaller(s, t);
    LeaveMain(s, t);
    Move(s, s', t, s'.pcs[t]);
  }

  lemma ExitCaller(s: State, t: nat)
    requires Basic(s) && t < s.n && Exiting(s.pcs[t]) && s.pcs[t] != ExitSignal && CallerEnabled(s, t) && CallerOk(s, t)
    ensures CallerOk(CallerStep(s, t), t)
  {
  }

  lemma ExitMain(s: State, t: nat)
    requires Basic(s) && MainOk(s) && t < s.n && Exiting(s.pcs[t]) && s.pcs[t] != ExitSignal && CallerEnabled(s, t)
    requires CallerOk(s, t) && CallerOk(s, s.n)
    ensures MainOk(CallerStep(s, t))
  {
  }

  lemma ExitKeeps(s: State, t: nat)
    requires Inv(s) && t < s.n && Exiting(s.pcs[t]) && s.pcs[t] != ExitSignal && CallerEnabled(s, t)
    ensures Inv(CallerStep(s, t))
  {
    var s' := CallerStep(s, t);
    assert CallerOk(s, t) && CallerOk(s, s.n);
    ExitCaller(s, t);
    ExitMain(s, t);
    Move(s, s', t, s'.pcs[t]);
  }

  // ---------- main ----------

  lemma {:induction false} AllOut(pcs: seq<Pc>, u: nat)
    requires Out(pcs) >= |pcs| && u < |pcs|
    ensures CountedOut(pcs[u])
  {
    OutAtMost(pcs[1..], |pcs| - 1);
    if u > 0 {
      AllOut(pcs[1..], u - 1);
    }
  }

  lemma {:induction false} OutAtMost(pcs: seq<Pc>, k: nat)
    requires forall u :: k <= u < |pcs| ==> !CountedOut(pcs[u])
    ensures Out(pcs) <= k
    decreases |pcs|
  {
    if pcs != [] {
      OutAtMost(pcs[1..], if k == 0 then 0 else k - 1);
    }
  }

  lemma JoinTestKeeps(s: State)
    requires Inv(s) && s.pcs[s.n] == JoinTest
    ensures Inv(CallerStep(s, s.n))
  {
    var s' := CallerStep(s, s.n);
    assert CallerOk(s, s.n);
    if s.clientThreads <= 0 {
      forall u | 0 <= u < s.n ensures s'.pcs[u] == Gone {
        AllOut(s.pcs[..s.n], u);
        assert CallerOk(s, u);
      }
    }
    Move(s, s', s.n, s'.pcs[s.n]);
  }

  lemma JoinKeeps(s: State)
    requires Inv(s) && (s.pcs[s.n] == JoinLock || s.pcs[s.n] == JoinWoken || s.pcs[s.n] == JoinUnlock) && CallerEnabled(s, s.n)
    ensures Inv(CallerStep(s, s.n))
  {
    var s' := CallerStep(s, s.n);
    assert CallerOk(s, s.n);
    Move(s, s', s.n, s'.pcs[s.n]);
  }

  lemma JoinWakes(s: State)
    requires Inv(s) && s.pcs[s.n] == JoinWait
    ensures Inv(At(s, s.n, JoinWoken))
  {
    assert CallerOk(s, s.n);
    Move(s, At(s, s.n, JoinWoken), s.n, JoinWoken);
  }

  lemma ExitSignalKeeps(s: State, t: nat)
    requires Inv(s) && t <= s.n && s.pcs[t] == ExitSignal
    ensures Inv(CallerStep(s, t))
  {
    assert CallerOk(s, t);
    if s.clientThreads <= 0 && s.pcs[s.n] == JoinWait {
      JoinWakes(s);
      ExitSignalled(At(s, s.n, JoinWoken), t);
    } else {
      ExitSignalled(s, t);
    }
  }

  lemma ExitSignalled(s: State, t: nat)
    requires Inv(s) && t < s.n && s.pcs[t] == ExitSignal && (s.pcs[s.n] == JoinWait ==> s.clientThreads > 0)
    ensures Inv(At(s, t, ExitUnlock))
  {
    assert CallerOk(s, t);
    Move(s, At(s, t, ExitUnlock), t, ExitUnlock);
  }

  lemma CreateEndsKeeps(s: State)
    requires Inv(s) && s.pcs[s.n] == Create && s.count >= s.clientThreads
    ensures Inv(CallerStep(s, s.n))
  {
    var s' := CallerStep(s, s.n);
    assert CallerOk(s, s.n);
    forall u | s.count <= u < s.n ensures !CountedOut(s.pcs[..s.n][u]) {
      assert CallerOk(s, u);
    }
    OutAtMost(s.pcs[..s.n], s.count);
    Move(s, s', s.n, JoinLock);
  }

  lemma CallerWakes(s: State, t: nat)
    requires Inv(s) && t <= s.n && s.pcs[t].Wait?
    ensures Inv(At(s, t, Woken(s.pcs[t].r)))
  {
    assert CallerOk(s, t);
    Move(s, At(s, t, Woken(s.pcs[t].r)), t, Woken(s.pcs[t].r));
  }

  // ---------- the server moves on ----------

  ghost predicate ServerMoves(s: State, s': State, pc: ServerPc) {
    && s' == s.(server := pc, serverMutex := s'.serverMutex)
    && HandsOver(s.serverMutex, s'.serverMutex, s.n + 1)
  }

  lemma ServerMove(s: State, s': State, pc: ServerPc)
    requires Inv(s) && ServerMoves(s, s', pc) && ServerOk(s') && Head(s') == Head(s)
    requires s'.serverMutex == s.n + 1 <==> ServerHolds(pc)
    requires s.server.Relock? || s.server.Flag? ==> pc == Relock(s.server.r) || pc == Flag(s.server.r)
    requires s.server.Reply? && s.server.r < |s.reqs| && s.reqs[s.server.r].caller <= s.n ==> s.pcs[s.reqs[s.server.r].caller] != Wait(s.server.r)
    ensures Inv(s')
  {
    forall u: nat | u <= s.n ensures CallerOk(s', u) {
      assert CallerOk(s, u);
    }
    forall i: nat | i < |s.reqs| ensures RequestOk(s', i) {
      assert RequestOk(s, i);
    }
    forall i: nat, j: nat | i < |s.reqs| && j < |s.reqs| ensures PairOk(s', i, j) {
      assert PairOk(s, i, j);
    }
  }

  lemma ServerLockKeeps(s: State, input: string)
    requires Inv(s) && (s.server == TakeLock || s.server == TakeWoken || s.server.Relock?) && s.serverMutex == NOBODY
    ensures Inv(ServerStep(s, input))
  {
    ServerMove(s, ServerStep(s, input), ServerStep(s, input).server);
  }

  lemma ServerUnlockKeeps(s: State, input: string)
    requires Inv(s) && (s.server.Taken? || s.server.Release?)
    ensures Inv(ServerStep(s, input))
  {
    if s.server.Release? {
      assert RequestOk(s, s.server.r);
    }
    ServerMove(s, ServerStep(s, input), ServerStep(s, input).server);
  }

  lemma ServerSleepsKeeps(s: State, input: string)
    requires Inv(s) && s.server == TakeTest && s.first == NULL
    ensures Inv(ServerStep(s, input))
  {
    ServerMove(s, ServerStep(s, input), TakeWait);
  }

  lemma ServerWakes(s: State)
    requires Inv(s) && s.server == TakeWait
    ensures Inv(s.(server := TakeWoken))
  {
    ServerMove(s, s.(server := TakeWoken), TakeWoken);
  }

  lemma ReplyKeeps(s: State, input: string)
    requires Inv(s) && s.server.Reply?
    ensures Inv(ServerStep(s, input))
  {
    var r := s.server.r;
    assert RequestOk(s, r);
    var t := s.reqs[r].caller;
    var s1 := s;
    if s.pcs[t] == Wait(r) {
      CallerWakes(s, t);
      s1 := At(s, t, Woken(r));
    }
    ServerMove(s1, ServerStep(s, input), Release(r));
  }

  // ---------- entering server_request ----------

  lemma StartKeeps(s: State)
    requires Inv(s) && !s.running
    ensures Inv(s.(running := true, server := TakeLock))
  {
    var s' := s.(running := true, server := TakeLock);
    forall u: nat | u <= s.n ensures CallerOk(s', u) {
      assert CallerOk(s, u);
    }
  }

  lemma EnterKeeps(s: State, t: nat)
    requires Inv(s) && t <= s.n && s.pcs[t].Enter?
    ensures Inv(CallerStep(s, t))
  {
    if s.running {
      Entered(s, t);
    } else {
      StartKeeps(s);
      Entered(s.(running := true, server := TakeLock), t);
    }
  }

  lemma Entered(s: State, t: nat)
    requires Inv(s) && s.running && t <= s.n && s.pcs[t].Enter?
    ensures Inv(At(s, t, Link(s.pcs[t].op, s.pcs[t].text)))
  {
    assert CallerOk(s, t);
    Move(s, At(s, t, Link(s.pcs[t].op, s.pcs[t].text)), t, Link(s.pcs[t].op, s.pcs[t].text));
  }

  lemma SignalKeeps(s: State, t: nat)
    requires Inv(s) && t <= s.n && s.pcs[t].Signal?
    ensures Inv(CallerStep(s, t))
  {
    if s.server == TakeWait {
      ServerWakes(s);
      Signalled(s.(server := TakeWoken), t);
    } else {
      Signalled(s, t);
    }
  }

  lemma Signalled(s: State, t: nat)
    requires Inv(s) && s.server != TakeWait && t <= s.n && s.pcs[t].Signal?
    ensures Inv(SignalStep(s, t))
  {
    assert CallerOk(s, t);
    assert RequestOk(s, s.pcs[t].r);
    Move(s, SignalStep(s, t), t, SignalStep(s, t).pcs[t]);
  }

  function Born(s: State): State
    requires s.count < |s.pcs|
  {
    At(s, s.count, Lock(READ, "")).(count := s.count + 1)
  }

  lemma BornCaller(s: State, u: nat)
    requires |s.pcs| == s.n + 1 && s.count < s.n && u <= s.n && CallerOk(s, u)
    ensures CallerOk(Born(s), u)
  {
  }

  lemma BornRequest(s: State, i: nat)
    requires |s.pcs| == s.n + 1 && s.count < s.n && CallerOk(s, s.count) && i < |s.reqs| && RequestOk(s, i)
    ensures RequestOk(Born(s), i)
  {
  }

  lemma CreateKeeps(s: State)
    requires Inv(s) && s.pcs[s.n] == Create && s.count < s.clientThreads
    ensures Inv(CallerStep(s, s.n))
  {
    BornKeeps(s);
  }

  lemma BornKeeps(s: State)
    requires Inv(s) && s.pcs[s.n] == Create && s.count < s.n
    ensures Inv(Born(s))
  {
    var s' := Born(s);
    assert CallerOk(s, s.count);
    OutAt(s, s.count, Lock(READ, ""));
    forall u: nat | u <= s.n ensures CallerOk(s', u) {
      assert CallerOk(s, u);
      BornCaller(s, u);
    }
    forall i: nat | i < |s.reqs| ensures RequestOk(s', i) {
      assert RequestOk(s, i);
      BornRequest(s, i);
    }
    forall i: nat, j: nat | i < |s.reqs| && j < |s.reqs| ensures PairOk(s', i, j) {
      assert PairOk(s, i, j);
    }
  }

  // ---------- the queue ----------

  lemma LinkRequest(s: State, t: nat, i: nat)
    requires Inv(s) && t <= s.n && s.pcs[t].Link? && CallerOk(s, t)
    requires i < |LinkStep(s, t).reqs|
    ensures RequestOk(LinkStep(s, t), i)
  {
    if i < |s.reqs| {
      assert RequestOk(s, i);
      assert CallerOk(s, s.reqs[i].caller);
    }
  }

  lemma LinkPair(s: State, t: nat, i: nat, j: nat)
    requires Inv(s) && t <= s.n && s.pcs[t].Link? && CallerOk(s, t)
    requires i < |LinkStep(s, t).reqs| && j < |LinkStep(s, t).reqs|
    ensures PairOk(LinkStep(s, t), i, j)
  {
    if i < |s.reqs| {
      assert RequestOk(s, i);
      if j < |s.reqs| {
        assert PairOk(s, i, j);
      }
    }
  }

  lemma LinkCaller(s: State, t: nat, u: nat)
    requires Basic(s) && t <= s.n && s.pcs[t].Link? && u <= s.n && CallerOk(s, t) && CallerOk(s, u)
    ensures CallerOk(LinkStep(s, t), u)
  {
    var s' := LinkStep(s, t);
    forall i | 0 <= i < |s.reqs| ensures s'.reqs[i] == s.reqs[i].(next := s'.reqs[i].next) {
    }
  }

  lemma LinkRest(s: State, t: nat)
    requires Inv(s) && t <= s.n && s.pcs[t].Link? && CallerOk(s, t) && CallerOk(s, s.n)
    ensures Basic(LinkStep(s, t)) && ServerOk(LinkStep(s, t)) && MainOk(LinkStep(s, t))
  {
    NotEnded(s, t);
  }

  // Once the server has served the quit request nobody enqueues any more.
  lemma NotEnded(s: State, t: nat)
    requires Inv(s) && t <= s.n && s.pcs[t].Link? && CallerOk(s, t)
    ensures s.server != Ended
  {
    if s.reqs != [] {
      assert RequestOk(s, |s.reqs| - 1);
      LastNotServed(s, t);
    }
  }

  lemma LastNotServed(s: State, t: nat)
    requires Basic(s) && ServerOk(s) && MainOk(s) && t <= s.n && s.pcs[t].Link? && CallerOk(s, t)
    requires s.reqs != [] && RequestOk(s, |s.reqs| - 1)
    ensures s.server != Ended
  {
  }

  lemma LinkKeeps(s: State, t: nat)
    requires Inv(s) && t <= s.n && s.pcs[t].Link?
    ensures Inv(CallerStep(s, t))
  {
    var s' := LinkStep(s, t);
    assert CallerOk(s, t) && CallerOk(s, s.n);
    LinkRest(s, t);
    OutAt(s, t, s'.pcs[t]);
    assert s'.pcs == At(s, t, s'.pcs[t]).pcs;
    forall u: nat | u <= s.n ensures CallerOk(s', u) {
      assert CallerOk(s, u);
      LinkCaller(s, t, u);
    }
    forall i: nat | i < |s'.reqs| ensures RequestOk(s', i) {
      LinkRequest(s, t, i);
    }
    forall i: nat, j: nat | i < |s'.reqs| && j < |s'.reqs| ensures PairOk(s', i, j) {
      LinkPair(s, t, i, j);
    }
  }

  lemma DequeueKeeps(s: State, input: string)
    requires Inv(s) && s.server == TakeTest && s.first != NULL
    ensures Inv(ServerStep(s, input))
  {
    var s' := ServerStep(s, input);
    assert RequestOk(s, s.first);
    forall u: nat | u <= s.n ensures CallerOk(s', u) {
      assert CallerOk(s, u);
    }
    forall i: nat | i < |s.reqs| ensures RequestOk(s', i) {
      assert RequestOk(s, i);
    }
    forall i: nat, j: nat | i < |s.reqs| && j < |s.reqs| ensures PairOk(s', i, j) {
      assert PairOk(s, i, j);
    }
  }

  lemma ServedCaller(s: State, input: string, u: nat)
    requires Basic(s) && ServerOk(s) && s.server.Serve? && RequestOk(s, s.server.r) && u <= s.n && CallerOk(s, u)
    ensures CallerOk(ServerStep(s, input), u)
  {
  }

  lemma ServedRequest(s: State, input: string, i: nat)
    requires Basic(s) && ServerOk(s) && s.server.Serve? && RequestOk(s, s.server.r) && i < |s.reqs| && RequestOk(s, i)
    ensures RequestOk(ServerStep(s, input), i)
  {
  }

  lemma ServeKeeps(s: State, input: string)
    requires Inv(s) && s.server.Serve?
    ensures Inv(ServerStep(s, input))
  {
    var s', r := ServerStep(s, input), s.server.r;
    assert RequestOk(s, r);
    forall u: nat | u <= s.n ensures CallerOk(s', u) {
      assert CallerOk(s, u);
      ServedCaller(s, input, u);
    }
    forall i: nat | i < |s.reqs| ensures RequestOk(s', i) {
      assert RequestOk(s, i);
      ServedRequest(s, input, i);
    }
    forall i: nat, j: nat | i < |s.reqs| && j < |s.reqs| ensures PairOk(s', i, j) {
      assert PairOk(s, i, j);
    }
  }

  lemma FlagKeeps(s: State, input: string)
    requires Inv(s) && s.server.Flag?
    ensures Inv(ServerStep(s, input))
  {
    var s', r := ServerStep(s, input), s.server.r;
    assert RequestOk(s, r);
    forall u: nat | u <= s.n ensures CallerOk(s', u) {
      assert CallerOk(s, u);
    }
    forall i: nat | i < |s.reqs| ensures RequestOk(s', i) {
      assert RequestOk(s, i);
    }
    forall i: nat, j: nat | i < |s.reqs| && j < |s.reqs| ensures PairOk(s', i, j) {
      assert PairOk(s, i, j);
    }
  }

  // ---------- every step ----------

  lemma CallerKeeps(s: State, t: nat)
    requires Inv(s) && t <= s.n && CallerEnabled(s, t)
    ensures Inv(CallerStep(s, t))
  {
    assert CallerOk(s, t);
    match s.pcs[t]
    case Lock(_, _) => LockKeeps(s, t);
    case Enter(_, _) => EnterKeeps(s, t);
    case Link(_, _) => LinkKeeps(s, t);
    case Signal(_) => SignalKeeps(s, t);
    case Test(_) => TestKeeps(s, t);
    case Woken(_) => LockKeeps(s, t);
    case Leave(_, _) => LeaveKeeps(s, t);
    case ExitLock => ExitKeeps(s, t);
    case ExitCount => ExitKeeps(s, t);
    case ExitSignal => ExitSignalKeeps(s, t);
    case ExitUnlock => ExitKeeps(s, t);
    case Create => if s.count < s.clientThreads { CreateKeeps(s); } else { CreateEndsKeeps(s); }
    case JoinTest => JoinTestKeeps(s);
    case JoinLock => JoinKeeps(s);
    case JoinWoken => JoinKeeps(s);
    case JoinUnlock => JoinKeeps(s);
  }

  lemma ServerKeeps(s: State, input: string)
    requires Inv(s) && ServerEnabled(s)
    ensures Inv(ServerStep(s, input))
  {
    match s.server
    case TakeLock => ServerLockKeeps(s, input);
    case TakeWoken => ServerLockKeeps(s, input);
    case Relock(_) => ServerLockKeeps(s, input);
    case TakeTest => if s.first == NULL { ServerSleepsKeeps(s, input); } else { DequeueKeeps(s, input); }
    case Taken(_) => ServerUnlockKeeps(s, input);
    case Serve(_) => ServeKeeps(s, input);
    case Flag(_) => FlagKeeps(s, input);
    case Reply(_) => ReplyKeeps(s, input);
    case Release(_) => ServerUnlockKeeps(s, input);
  }

  lemma WakeKeeps(s: State, t: nat)
    requires Inv(s) && Sleeps(s, t)
    ensures Inv(WakeStep(s, t))
  {
    if t <= s.n {
      assert CallerOk(s, t);
      if s.pcs[t].Wait? {
        CallerWakes(s, t);
      } else {
        JoinWakes(s);
      }
    } else {
      ServerWakes(s);
    }
  }

  lemma NextKeeps(s: State, a: Action)
    requires Inv(s) && Enabled(s, a)
    ensures Inv(Next(s, a)) && Next(s, a).n == s.n
  {
    match a
    case Run(t, input) =>
      if t == s.n + 1 {
        ServerKeeps(s, input);
      } else {
        CallerKeeps(s, t);
      }
    case Spurious(t) => WakeKeeps(s, t);
  }

  lemma {:induction false} LeadsKeeps(s: State, acts: seq<Action>, s': State)
    requires Inv(s) && Leads(s, acts, s')
    ensures Inv(s') && s'.n == s.n
    decreases |acts|
  {
    if acts != [] {
      NextKeeps(s, acts[0]);
      LeadsKeeps(Next(s, acts[0]), acts[1..], s');
    }
  }

  lemma ReachableInv(s: State)
    requires Reachable(s)
    ensures Inv(s)
  {
    var acts :| Leads(Init(s.n), acts, s);
    InitInv(s.n);
    LeadsKeeps(Init(s.n), acts, s);
  }
}
