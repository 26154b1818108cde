// Clients, one server and main as threads that take turns: one step is what a thread does between two
// points where another may run. Mutexes and condition variables are part of the state.
module RequestQueue {

  datatype Op = READ | WRITE | QUIT

  // Where a client or main is. Clients go through server_request and the exit; main creates the
  // clients, joins them and goes through server_request once.
  datatype Pc =
    | Unborn
    | Lock(op: Op, text: string)      // about to lock the server's mutex
    | Enter(op: Op, text: string)     // holds it
    | Link(op: Op, text: string)      // holds it, the server runs
    | Signal(r: nat)                  // holds it, request r is in the queue
    | Test(r: nat)                    // holds it, about to test done_flag
    | Wait(r: nat)                    // waits on the request's condition, without the mutex
    | Woken(r: nat)                   // must lock the mutex again
    | Leave(r: nat, got: string)      // holds it, about to unlock
    | ExitLock | ExitCount | ExitSignal | ExitUnlock
    | Create | JoinLock | JoinTest | JoinWait | JoinWoken | JoinUnlock
    | Gone

  datatype ServerPc =
    | Absent | TakeLock | TakeTest | TakeWait | TakeWoken
    | Taken(r: nat)                   // holds the mutex, r dequeued
    | Serve(r: nat)                   // without the mutex
    | Relock(r: nat)
    | Flag(r: nat)                    // holds the mutex
    | Reply(r: nat)                   // holds the mutex, done_flag set
    | Release(r: nat)                 // holds the mutex
    | Ended

  datatype Request = Request(caller: nat, op: Op, sync: bool, next: int, done: bool, text: string)

  const NULL := -1
  const NOBODY := -1

  datatype State = State(
    n: nat,                  // clients are 0..n-1, main is n, the server is n + 1
    pcs: seq<Pc>,            // clients and main
    server: ServerPc,
    serverMutex: int,        // its owner
    clientMutex: int,
    running: bool,
    clientThreads: int,
    count: nat,              // clients created
    reqs: seq<Request>,      // every request ever made, in the order of enqueuing
    first: int,
    last: int,
    enqueued: seq<nat>,      // history
    served: seq<nat>)

  function Init(n: nat): State {
    State(n, seq(n, i => Unborn) + [Create], Absent, NOBODY, NOBODY, false, n, 0, [], NULL, NULL, [], [])
  }

  // ---------- steps ----------

  function At(s: State, t: nat, pc: Pc): State
    requires t < |s.pcs|
  {
    s.(pcs := s.pcs[t := pc])
  }

  function IsSync(op: Op): bool { op != WRITE }

  // Creates the server thread the first time.
  function EnterStep(s: State, t: nat): State
    requires t < |s.pcs| && s.pcs[t].Enter?
  {
    var s1 := if s.running then s else s.(running := true, server := TakeLock);
    At(s1, t, Link(s.pcs[t].op, s.pcs[t].text))
  }

  // Builds the request and puts it at the end of the linked queue.
  function LinkStep(s: State, t: nat): State
    requires t < |s.pcs| && s.pcs[t].Link?
  {
    var r := |s.reqs|;
    var request := Request(t, s.pcs[t].op, IsSync(s.pcs[t].op), NULL, false, if s.pcs[t].op == WRITE then s.pcs[t].text else "");
    var reqs := if s.first != NULL && 0 <= s.last < r then s.reqs[s.last := s.reqs[s.last].(next := r)] else s.reqs;
    At(s.(reqs := reqs + [request], first := if s.first == NULL then r else s.first, last := r, enqueued := s.enqueued + [r]),
       t, Signal(r))
  }

  function SignalStep(s: State, t: nat): State
    requires t < |s.pcs| && s.pcs[t].Signal?
  {
    var r := s.pcs[t].r;
    var s1 := if s.server == TakeWait then s.(server := TakeWoken) else s;
    At(s1, t, if r < |s.reqs| && s.reqs[r].sync then Test(r) else Leave(r, ""))
  }

  // The wait loop: sleeping releases the mutex; leaving it copies the text of a read request.
  function TestStep(s: State, t: nat): State
    requires t < |s.pcs| && s.pcs[t].Test?
  {
    var r := s.pcs[t].r;
    if r < |s.reqs| && s.reqs[r].done
    then At(s, t, Leave(r, if s.reqs[r].op == READ then s.reqs[r].text else ""))
    else At(s.(serverMutex := NOBODY), t, Wait(r))
  }

  // What a thread does after server_request returns.
  function Onwards(op: Op, got: string): Pc {
    match op
    case READ => if got == "" then ExitLock else Lock(WRITE, got)
    case WRITE => Lock(READ, "")
    case QUIT => Gone
  }

  function LeaveStep(s: State, t: nat): State
    requires t < |s.pcs| && s.pcs[t].Leave?
  {
    var r := s.pcs[t].r;
    At(s.(serverMutex := NOBODY), t, if r < |s.reqs| then Onwards(s.reqs[r].op, s.pcs[t].got) else Gone)
  }

  function ExitSignalStep(s: State, t: nat): State
    requires t < |s.pcs| && s.n < |s.pcs|
  {
    var s1 := if s.clientThreads <= 0 && s.pcs[s.n] == JoinWait then At(s, s.n, JoinWoken) else s;
    At(s1, t, ExitUnlock)
  }

  // The creation loop tests client_threads without holding the mutex that guards it.
  function CreateStep(s: State, t: nat): State
    requires t < |s.pcs|
  {
    if s.count < s.clientThreads && s.count < |s.pcs|
    then At(s, s.count, Lock(READ, "")).(count := s.count + 1)
    else At(s, t, JoinLock)
  }

  function JoinTestStep(s: State, t: nat): State
    requires t < |s.pcs|
  {
    if s.clientThreads > 0 then At(s.(clientMutex := NOBODY), t, JoinWait) else At(s, t, JoinUnlock)
  }

  predicate CallerEnabled(s: State, t: nat)
    requires t < |s.pcs|
  {
    match s.pcs[t]
    case Unborn | Wait(_) | JoinWait | Gone => false
    case Lock(_, _) | Woken(_) => s.serverMutex == NOBODY
    case ExitLock | JoinLock | JoinWoken => s.clientMutex == NOBODY
    case _ => true
  }

  function CallerStep(s: State, t: nat): State
    requires t < |s.pcs| && s.n < |s.pcs|
  {
    match s.pcs[t]
    case Lock(op, text) => At(s.(serverMutex := t), t, Enter(op, text))
    case Enter(_, _) => EnterStep(s, t)
    case Link(_, _) => LinkStep(s, t)
    case Signal(_) => SignalStep(s, t)
    case Test(_) => TestStep(s, t)
    case Woken(r) => At(s.(serverMutex := t), t, Test(r))
    case Leave(_, _) => LeaveStep(s, t)
    case ExitLock => At(s.(clientMutex := t), t, ExitCount)
    case ExitCount => At(s.(clientThreads := s.clientThreads - 1), t, ExitSignal)
    case ExitSignal => ExitSignalStep(s, t)
    case ExitUnlock => At(s.(clientMutex := NOBODY), t, Gone)
    case Create => CreateStep(s, t)
    case JoinLock | JoinWoken => At(s.(clientMutex := t), t, JoinTest)
    case JoinTest => JoinTestStep(s, t)
    case JoinUnlock => At(s.(clientMutex := NOBODY), t, Lock(QUIT, ""))
    case _ => s
  }

  // ---------- the server's steps ----------

  function TakeTestStep(s: State): State {
    if !(0 <= s.first < |s.reqs|) then s.(server := TakeWait, serverMutex := NOBODY)
    else
      var next := s.reqs[s.first].next;
      s.(server := Taken(s.first), first := next, last := if next == NULL then NULL else s.last)
  }

  // A read request gets the line typed at the console.
  function ServeStep(s: State, r: nat, input: string): State
    requires r < |s.reqs|
  {
    var q := s.reqs[r];
    s.(reqs := if q.op == READ then s.reqs[r := q.(text := input)] else s.reqs,
       served := s.served + [r],
       server := if q.sync then Relock(r) else if q.op == QUIT then Ended else TakeLock)
  }

  function ReplyStep(s: State, r: nat): State
    requires r < |s.reqs|
  {
    var t := s.reqs[r].caller;
    var s1 := if t < |s.pcs| && s.pcs[t] == Wait(r) then At(s, t, Woken(r)) else s;
    s1.(server := Release(r))
  }

  predicate ServerEnabled(s: State) {
    match s.server
    case Absent | TakeWait | Ended => false
    case TakeLock | TakeWoken | Relock(_) => s.serverMutex == NOBODY
    case _ => true
  }

  function ServerStep(s: State, input: string): State {
    match s.server
    case TakeLock | TakeWoken => s.(serverMutex := s.n + 1, server := TakeTest)
    case TakeTest => TakeTestStep(s)
    case Taken(r) => s.(serverMutex := NOBODY, server := Serve(r))
    case Serve(r) => if r < |s.reqs| then ServeStep(s, r, input) else s
    case Relock(r) => s.(serverMutex := s.n + 1, server := Flag(r))
    case Flag(r) => if r < |s.reqs| then s.(reqs := s.reqs[r := s.reqs[r].(done := true)], server := Reply(r)) else s
    case Reply(r) => if r < |s.reqs| then ReplyStep(s, r) else s
    case Release(r) => s.(serverMutex := NOBODY, server := if r < |s.reqs| && s.reqs[r].op == QUIT then Ended else TakeLock)
    case _ => s
  }

  // ---------- runs ----------

  // A thread runs, with the line typed if it is the server reading; or a wait ends without a signal.
  datatype Action = Run(t: nat, input: string) | Spurious(t: nat)

  predicate Sleeps(s: State, t: nat) {
    (t < |s.pcs| && (s.pcs[t].Wait? || s.pcs[t] == JoinWait)) || (t == s.n + 1 && s.server == TakeWait)
  }

  function WakeStep(s: State, t: nat): State
    requires Sleeps(s, t)
  {
    if t < |s.pcs| then At(s, t, if s.pcs[t].Wait? then Woken(s.pcs[t].r) else JoinWoken)
    else s.(server := TakeWoken)
  }

  predicate Enabled(s: State, a: Action) {
    match a
    case Run(t, _) => if t == s.n + 1 then ServerEnabled(s) else t <= s.n && |s.pcs| == s.n + 1 && CallerEnabled(s, t)
    case Spurious(t) => |s.pcs| == s.n + 1 && Sleeps(s, t)
  }

  function Next(s: State, a: Action): State
    requires Enabled(s, a)
  {
    match a
    case Run(t, input) => if t == s.n + 1 then ServerStep(s, input) else CallerStep(s, t)
    case Spurious(t) => WakeStep(s, t)
  }

  // s' comes out of s by the actions.
  ghost predicate Leads(s: State, acts: seq<Action>, s': State)
    decreases |acts|
  {
    if acts == [] then s == s'
    else Enabled(s, acts[0]) && Leads(Next(s, acts[0]), acts[1..], s')
  }

  ghost predicate Reachable(s: State) {
    |s.pcs| == s.n + 1 && exists acts :: Leads(Init(s.n), acts, s)
  }
}
