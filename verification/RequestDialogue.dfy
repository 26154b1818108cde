// What each thread asks for over a run: a client reads a line and writes it, over and over, until it
// reads an empty one; main asks the server to quit, once.
module RequestDialogue {
  import opened RequestQueue
  import opened RequestInvariant
  import opened RequestSteps

  // What a request says: its operation and the text it carries.
  datatype Line = Line(op: Op, text: string)

  function Says(q: Request): Line { Line(q.op, q.text) }

  // The requests of one thread, in the order of enqueuing.
  function Asked(reqs: seq<Request>, t: nat): seq<Line> {
    if reqs == [] then []
    else
      var q := reqs[|reqs| - 1];
      Asked(reqs[..|reqs| - 1], t) + if q.caller == t then [Says(q)] else []
  }

  // Reads and writes by turns, each write with the line, not empty, that the read before it got.
  ghost predicate Alternates(m: seq<Line>) {
    && (forall i :: 0 <= i < |m| ==> m[i].op == if i % 2 == 0 then READ else WRITE)
    && (forall i :: 0 < i < |m| && i % 2 == 1 ==> m[i].text == m[i - 1].text != "")
  }

  predicate Ended(pc: Pc) { Exiting(pc) || pc == Gone }

  // How far a client is with its requests.
  ghost predicate ClientTalks(m: seq<Line>, pc: Pc) {
    && Alternates(m)
    && (pc == Unborn ==> m == [])
    && (Asking(pc) ==> pc.op == if |m| % 2 == 0 then READ else WRITE)
    && (Asking(pc) && pc.op == WRITE ==> pc.text == m[|m| - 1].text != "")
    && (HasRequest(pc) ==> m != [])
    && (Ended(pc) ==> |m| % 2 == 1 && m[|m| - 1].text == "")
  }

  ghost predicate MainTalks(m: seq<Line>, pc: Pc) {
    m == if HasRequest(pc) || pc == Gone then [Line(QUIT, "")] else []
  }

  ghost predicate Talks(s: State, t: nat) {
    && t < |s.pcs|
    && if t == s.n then MainTalks(Asked(s.reqs, t), s.pcs[t]) else ClientTalks(Asked(s.reqs, t), s.pcs[t])
  }

  // ---------- what a change of the requests does ----------

  // Marks and links are not part of what is said.
  lemma {:induction false} AskedAlike(a: seq<Request>, b: seq<Request>, t: nat)
    requires |a| == |b| && forall i :: 0 <= i < |a| ==> a[i].caller == b[i].caller && Says(a[i]) == Says(b[i])
    ensures Asked(a, t) == Asked(b, t)
  {
    if a != [] {
      AskedAlike(a[..|a| - 1], b[..|b| - 1], t);
    }
  }

  lemma AskedMore(reqs: seq<Request>, q: Request, t: nat)
    ensures Asked(reqs + [q], t) == Asked(reqs, t) + if q.caller == t then [Says(q)] else []
  {
    assert (reqs + [q])[..|reqs|] == reqs;
  }

  // The latest request of a thread is the last it asked for.
  lemma {:induction false} AskedLast(reqs: seq<Request>, t: nat, r: nat)
    requires r < |reqs| && reqs[r].caller == t && forall i :: r < i < |reqs| ==> reqs[i].caller != t
    ensures Asked(reqs, t) != [] && Asked(reqs, t)[|Asked(reqs, t)| - 1] == Says(reqs[r])
  {
    if r < |reqs| - 1 {
      AskedLast(reqs[..|reqs| - 1], t, r);
    }
  }

  // A new text for one thread's latest request.
  lemma {:induction false} AskedText(reqs: seq<Request>, t: nat, r: nat, text: string)
    requires r < |reqs| && reqs[r].caller == t && forall i :: r < i < |reqs| ==> reqs[i].caller != t
    ensures var m, m' := Asked(reqs, t), Asked(reqs[r := reqs[r].(text := text)], t);
            m != [] && m' == m[..|m| - 1] + [Line(reqs[r].op, text)]
  {
    var reqs', before := reqs[r := reqs[r].(text := text)], reqs[..|reqs| - 1];
    if r < |reqs| - 1 {
      AskedText(before, t, r, text);
      assert reqs'[..|reqs| - 1] == before[r := before[r].(text := text)];
    } else {
      assert reqs'[..|reqs| - 1] == before;
    }
  }

  lemma {:induction false} AskedOthers(reqs: seq<Request>, t: nat, r: nat, text: string)
    requires r < |reqs| && reqs[r].caller != t
    ensures Asked(reqs[r := reqs[r].(text := text)], t) == Asked(reqs, t)
  {
    var reqs', before := reqs[r := reqs[r].(text := text)], reqs[..|reqs| - 1];
    if r < |reqs| - 1 {
      AskedOthers(before, t, r, text);
      assert reqs'[..|reqs| - 1] == before[r := before[r].(text := text)];
    } else {
      assert reqs'[..|reqs| - 1] == before;
    }
  }

  // ---------- one step ----------

  // Where a thread may go without a new request.
  predicate Onward(pc: Pc, pc': Pc) {
    || pc' == pc || (HasRequest(pc) && HasRequest(pc'))
    || (Asking(pc) && Asking(pc') && pc'.op == pc.op && pc'.text == pc.text)
    || (Exiting(pc) && Ended(pc'))
    || (pc == Unborn && pc' == Lock(READ, ""))
  }

  lemma ClientGoesOn(m: seq<Line>, pc: Pc, pc': Pc)
    requires ClientTalks(m, pc) && Onward(pc, pc')
    ensures ClientTalks(m, pc')
  {
  }

  // A client whose request returned goes on by what it got.
  lemma ClientReturns(m: seq<Line>, pc: Pc, q: Request)
    requires ClientTalks(m, pc) && pc.Leave? && m[|m| - 1] == Says(q)
    requires q.op == READ ==> pc.got == q.text
    ensures ClientTalks(m, Onwards(q.op, pc.got))
  {
  }

  // A client adds the request it was about to make.
  lemma ClientAsks(m: seq<Line>, pc: Pc, r: nat)
    requires ClientTalks(m, pc) && pc.Link?
    ensures ClientTalks(m + [Line(pc.op, if pc.op == WRITE then pc.text else "")], Signal(r))
  {
  }

  lemma ClientReads(m: seq<Line>, pc: Pc, input: string)
    requires ClientTalks(m, pc) && HasRequest(pc) && !pc.Leave? && m[|m| - 1].op == READ
    ensures ClientTalks(m[..|m| - 1] + [Line(READ, input)], pc)
  {
  }

  ghost predicate SameSayings(s: State, s': State) {
    |s.reqs| == |s'.reqs| && forall i :: 0 <= i < |s.reqs| ==> s.reqs[i].caller == s'.reqs[i].caller && Says(s.reqs[i]) == Says(s'.reqs[i])
  }

  predicate HasAsked(pc: Pc) { HasRequest(pc) || pc == Gone }

  // Where the thread goes needs no new request.
  ghost predicate Quiet(s: State, s': State, t: nat) {
    && t < |s.pcs| == |s'.pcs| && s.n == s'.n && SameSayings(s, s')
    && if t == s.n then HasAsked(s.pcs[t]) == HasAsked(s'.pcs[t]) else Onward(s.pcs[t], s'.pcs[t])
  }

  lemma TalksOn(s: State, s': State, t: nat)
    requires Quiet(s, s', t) && Talks(s, t)
    ensures Talks(s', t)
  {
    AskedAlike(s.reqs, s'.reqs, t);
    if t != s.n {
      ClientGoesOn(Asked(s.reqs, t), s.pcs[t], s'.pcs[t]);
    }
  }

  lemma LinkAsks(s: State, u: nat, t: nat)
    requires u < |s.pcs| && s.pcs[u].Link?
    ensures var pc := s.pcs[u];
            Asked(LinkStep(s, u).reqs, t) ==
            Asked(s.reqs, t) + if t == u then [Line(pc.op, if pc.op == WRITE then pc.text else "")] else []
  {
    var s' := LinkStep(s, u);
    var q, before := s'.reqs[|s.reqs|], s'.reqs[..|s.reqs|];
    assert s'.reqs == before + [q];
    AskedAlike(s.reqs, before, t);
    AskedMore(before, q, t);
  }

  lemma LinkTalks(s: State, u: nat, t: nat)
    requires |s.pcs| == s.n + 1 && u <= s.n && t <= s.n && s.pcs[u].Link? && CallerOk(s, u) && Talks(s, t)
    ensures Talks(LinkStep(s, u), t)
  {
    LinkAsks(s, u, t);
    var m, s' := Asked(s.reqs, t), LinkStep(s, u);
    if t != u {
      assert Asked(s'.reqs, t) == m && s'.pcs[t] == s.pcs[t];
    } else if t != s.n {
      ClientAsks(m, s.pcs[t], |s.reqs|);
    }
  }

  lemma LeaveTalks(s: State, t: nat)
    requires |s.pcs| == s.n + 1 && t <= s.n && s.pcs[t].Leave? && CallerOk(s, t) && Talks(s, t)
    requires RequestOk(s, s.pcs[t].r)
    ensures Talks(LeaveStep(s, t), t)
  {
    var r := s.pcs[t].r;
    AskedLast(s.reqs, t, r);
    if t != s.n {
      ClientReturns(Asked(s.reqs, t), s.pcs[t], s.reqs[r]);
    }
  }

  lemma ServeTalks(s: State, input: string, t: nat)
    requires Inv(s) && s.server.Serve? && t <= s.n && Talks(s, t)
    ensures Talks(ServerStep(s, input), t)
  {
    var s', r := ServerStep(s, input), s.server.r;
    assert RequestOk(s, r);
    if s.reqs[r].op != READ {
      assert Quiet(s, s', t);
      TalksOn(s, s', t);
    } else if s.reqs[r].caller != t {
      AskedOthers(s.reqs, t, r, input);
    } else {
      assert CallerOk(s, t);
      AskedLast(s.reqs, t, r);
      AskedText(s.reqs, t, r, input);
      ClientReads(Asked(s.reqs, t), s.pcs[t], input);
    }
  }

  lemma ServerTalks(s: State, input: string, t: nat)
    requires Inv(s) && ServerEnabled(s) && t <= s.n && Talks(s, t)
    ensures Talks(ServerStep(s, input), t)
  {
    if s.server.Serve? {
      ServeTalks(s, input, t);
    } else {
      ServerQuiet(s, input, t);
      TalksOn(s, ServerStep(s, input), t);
    }
  }

  // A step of another thread: this one stays, or is created or woken.
  lemma OtherSteps(s: State, u: nat, t: nat)
    requires |s.pcs| == s.n + 1 && u <= s.n && t <= s.n && t != u && CallerOk(s, u) && CallerOk(s, t)
    requires CallerEnabled(s, u) && !s.pcs[u].Link?
    ensures Quiet(s, CallerStep(s, u), t)
  {
  }

  lemma OwnRequest(s: State, t: nat)
    requires |s.pcs| == s.n + 1 && t <= s.n && CallerEnabled(s, t)
    requires (Asking(s.pcs[t]) || HasRequest(s.pcs[t])) && !s.pcs[t].Link? && !s.pcs[t].Leave?
    ensures Quiet(s, CallerStep(s, t), t)
  {
  }

  lemma OwnStep(s: State, t: nat)
    requires |s.pcs| == s.n + 1 && t <= s.n && CallerOk(s, t)
    requires CallerEnabled(s, t) && !s.pcs[t].Link? && !s.pcs[t].Leave?
    ensures Quiet(s, CallerStep(s, t), t)
  {
    if Asking(s.pcs[t]) || HasRequest(s.pcs[t]) {
      OwnRequest(s, t);
    }
  }

  lemma CallerTalks(s: State, u: nat, t: nat)
    requires Inv(s) && u <= s.n && CallerEnabled(s, u) && t <= s.n && Talks(s, t)
    ensures Talks(CallerStep(s, u), t)
  {
    assert CallerOk(s, u) && CallerOk(s, t);
    if s.pcs[u].Link? {
      LinkTalks(s, u, t);
    } else if u != t {
      OtherSteps(s, u, t);
      TalksOn(s, CallerStep(s, u), t);
    } else if s.pcs[t].Leave? {
      assert RequestOk(s, s.pcs[t].r);
      LeaveTalks(s, t);
    } else {
      OwnStep(s, t);
      TalksOn(s, CallerStep(s, t), t);
    }
  }

  lemma Wakes(s: State, u: nat, t: nat)
    requires |s.pcs| == s.n + 1 && Sleeps(s, u) && t <= s.n && CallerOk(s, t)
    ensures Quiet(s, WakeStep(s, u), t)
  {
  }

  lemma ServerQuiet(s: State, input: string, t: nat)
    requires |s.pcs| == s.n + 1 && ServerEnabled(s) && !s.server.Serve? && t <= s.n
    ensures Quiet(s, ServerStep(s, input), t)
  {
  }

  lemma TalksKept(s: State, a: Action, t: nat)
    requires Inv(s) && Enabled(s, a) && t <= s.n && Talks(s, t)
    ensures Talks(Next(s, a), t)
  {
    match a
    case Run(u, input) =>
      if u == s.n + 1 {
        ServerTalks(s, input, t);
      } else {
        CallerTalks(s, u, t);
      }
    case Spurious(u) =>
      assert CallerOk(s, t);
      Wakes(s, u, t);
      TalksOn(s, WakeStep(s, u), t);
  }

  lemma {:induction false} RunTalks(s: State, acts: seq<Action>, s': State, t: nat)
    requires Inv(s) && Leads(s, acts, s') && t <= s.n && Talks(s, t)
    ensures Talks(s', t)
    decreases |acts|
  {
    if acts != [] {
      NextKeeps(s, acts[0]);
      TalksKept(s, acts[0], t);
      RunTalks(Next(s, acts[0]), acts[1..], s', t);
    }
  }

  // ---------- in every reachable state ----------

  lemma InitTalks(n: nat, t: nat)
    requires t <= n
    ensures Talks(Init(n), t)
  {
  }

  lemma ReachableTalks(s: State, t: nat)
    requires Reachable(s) && t <= s.n
    ensures Talks(s, t)
  {
    var acts :| Leads(Init(s.n), acts, s);
    InitInv(s.n);
    InitTalks(s.n, t);
    RunTalks(Init(s.n), acts, s, t);
  }

  // A client reads and writes by turns, beginning with a read; each write carries the line that the
  // read before it got, and a client that has gone got an empty line last.
  lemma ClientDialogue(s: State, t: nat)
    requires Reachable(s) && t < s.n
    ensures var m := Asked(s.reqs, t);
            && (forall i :: 0 <= i < |m| ==> m[i].op == if i % 2 == 0 then READ else WRITE)
            && (forall i :: 0 < i < |m| && i % 2 == 1 ==> m[i].text == m[i - 1].text != "")
            && (s.pcs[t] == Gone ==> m != [] && m[|m| - 1] == Line(READ, ""))
  {
    ReachableTalks(s, t);
    if s.pcs[t] == Gone {
      LastRead(Asked(s.reqs, t), s.pcs[t]);
    }
  }

  lemma LastRead(m: seq<Line>, pc: Pc)
    requires ClientTalks(m, pc) && Ended(pc)
    ensures m != [] && m[|m| - 1] == Line(READ, "")
  {
    assert m[|m| - 1].op == READ;
  }

  // Main asks to quit once, and when it returns that is the last request of all, served and done.
  lemma MainQuits(s: State)
    requires Reachable(s) && s.pcs[s.n] == Gone
    ensures Asked(s.reqs, s.n) == [Line(QUIT, "")]
    ensures s.reqs != [] && s.reqs[|s.reqs| - 1].op == QUIT && s.reqs[|s.reqs| - 1].done && s.served == s.enqueued
  {
    ReachableTalks(s, s.n);
    ReachableInv(s);
    var i := AskedBy(s.reqs, s.n, 0);
    assert RequestOk(s, i);
  }

  // Each line asked for is a request.
  lemma {:induction false} AskedBy(reqs: seq<Request>, t: nat, k: nat) returns (i: nat)
    requires k < |Asked(reqs, t)|
    ensures i < |reqs| && reqs[i].caller == t && Says(reqs[i]) == Asked(reqs, t)[k]
  {
    if k < |Asked(reqs[..|reqs| - 1], t)| {
      i := AskedBy(reqs[..|reqs| - 1], t, k);
    } else {
      i := |reqs| - 1;
    }
  }
}
