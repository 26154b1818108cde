// Five queues by priority against one list of the ready processes in order of arrival.
module ReadyQueues {

  const LEVELS := 5

  // Those of one priority, in order of arrival.
  ghost function OfLevel<P>(ready: seq<P>, prio: map<P, int>, k: int): seq<P> {
    if ready == [] then [] else Alone(ready[0], prio, k) + OfLevel(ready[1..], prio, k)
  }

  ghost function Alone<P>(p: P, prio: map<P, int>, k: int): seq<P> {
    if p in prio && prio[p] == k then [p] else []
  }

  ghost predicate Levelled<P>(ready: seq<P>, prio: map<P, int>) {
    forall p :: p in ready ==> p in prio && 0 <= prio[p] < LEVELS
  }

  // The process at place at is the earliest of the highest priority; the others stay.
  ghost predicate TakenAt<P>(before: seq<P>, prio: map<P, int>, at: nat, p: P, after: seq<P>) {
    && Levelled(before, prio) && at < |before| && p == before[at] && after == before[..at] + before[at + 1..]
    && (forall j :: 0 <= j < |before| ==> prio[before[j]] <= prio[p])
    && (forall j :: 0 <= j < at ==> prio[before[j]] < prio[p])
  }

  ghost predicate Split<P>(rQ: seq<seq<P>>, ready: seq<P>, prio: map<P, int>) {
    |rQ| == LEVELS && forall k :: 0 <= k < LEVELS ==> rQ[k] == OfLevel(ready, prio, k)
  }

  lemma LevelFirst<P>(x: P, rest: seq<P>, prio: map<P, int>, k: int)
    ensures OfLevel([x] + rest, prio, k) == Alone(x, prio, k) + OfLevel(rest, prio, k)
  {
    assert ([x] + rest)[1..] == rest;
  }

  lemma Regroup<P>(a: seq<P>, b: seq<P>, c: seq<P>)
    ensures (a + b) + c == a + (b + c)
  {
  }

  lemma {:induction false} LevelPush<P>(ready: seq<P>, prio: map<P, int>, p: P, k: int)
    ensures OfLevel(ready + [p], prio, k) == OfLevel(ready, prio, k) + Alone(p, prio, k)
  {
    if ready == [] {
      assert ready + [p] == [p] + [];
      LevelFirst(p, [], prio, k);
    } else {
      assert ready + [p] == [ready[0]] + (ready[1..] + [p]);
      LevelFirst(ready[0], ready[1..] + [p], prio, k);
      LevelPush(ready[1..], prio, p, k);
      Regroup(Alone(ready[0], prio, k), OfLevel(ready[1..], prio, k), Alone(p, prio, k));
    }
  }

  lemma SplitPush<P>(rQ: seq<seq<P>>, ready: seq<P>, prio: map<P, int>, p: P)
    requires Split(rQ, ready, prio) && p in prio && 0 <= prio[p] < LEVELS
    ensures Split(rQ[prio[p] := rQ[prio[p]] + [p]], ready + [p], prio)
  {
    var rQ', ready' := rQ[prio[p] := rQ[prio[p]] + [p]], ready + [p];
    forall k | 0 <= k < LEVELS ensures rQ'[k] == OfLevel(ready', prio, k) {
      LevelPush(ready, prio, p, k);
    }
  }

  // Where the first process of a level stands in the order of arrival.
  ghost function FirstAt<P>(ready: seq<P>, prio: map<P, int>, k: int): (i: nat)
    requires OfLevel(ready, prio, k) != []
    ensures i < |ready| && ready[i] in prio && prio[ready[i]] == k
  {
    if ready[0] in prio && prio[ready[0]] == k then 0 else 1 + FirstAt(ready[1..], prio, k)
  }

  lemma {:induction false} NoneBefore<P>(ready: seq<P>, prio: map<P, int>, k: int, j: nat)
    requires OfLevel(ready, prio, k) != [] && j < FirstAt(ready, prio, k)
    ensures ready[j] !in prio || prio[ready[j]] != k
  {
    if j > 0 {
      NoneBefore(ready[1..], prio, k, j - 1);
    }
  }

  // The list without the process at place i.
  ghost function RemovedAt<P>(s: seq<P>, i: nat): seq<P>
    requires i < |s|
  {
    if i == 0 then s[1..] else [s[0]] + RemovedAt(s[1..], i - 1)
  }

  lemma {:induction false} RemovedIsSpliced<P>(s: seq<P>, i: nat)
    requires i < |s|
    ensures RemovedAt(s, i) == s[..i] + s[i + 1..]
  {
    if i > 0 {
      RemovedIsSpliced(s[1..], i - 1);
      assert s[1..][i..] == s[i + 1..];
    }
  }

  lemma LevelNext<P>(ready: seq<P>, prio: map<P, int>, k: int)
    requires OfLevel(ready, prio, k) != [] && FirstAt(ready, prio, k) > 0
    ensures OfLevel(ready, prio, k) == OfLevel(ready[1..], prio, k)
    ensures FirstAt(ready, prio, k) == FirstAt(ready[1..], prio, k) + 1
    ensures Alone(ready[0], prio, k) == []
  {
  }

  lemma PopLater<P>(x: P, tail: seq<P>, y: P, rest: seq<P>, prio: map<P, int>, k: int)
    requires OfLevel(tail, prio, k) == [y] + OfLevel(rest, prio, k) && Alone(x, prio, k) == []
    ensures OfLevel([x] + tail, prio, k) == [y] + OfLevel([x] + rest, prio, k)
  {
    LevelFirst(x, tail, prio, k);
    LevelFirst(x, rest, prio, k);
  }

  // Its level loses its first process,
  lemma {:induction false} LevelPop<P>(ready: seq<P>, prio: map<P, int>, k: int)
    requires OfLevel(ready, prio, k) != []
    ensures var i := FirstAt(ready, prio, k);
            OfLevel(ready, prio, k) == [ready[i]] + OfLevel(RemovedAt(ready, i), prio, k)
  {
    var i := FirstAt(ready, prio, k);
    if i > 0 {
      LevelNext(ready, prio, k);
      LevelPop(ready[1..], prio, k);
      assert ready == [ready[0]] + ready[1..];
      PopLater(ready[0], ready[1..], ready[i], RemovedAt(ready[1..], i - 1), prio, k);
    }
  }

  // and the other levels stay.
  lemma {:induction false} LevelStays<P>(ready: seq<P>, prio: map<P, int>, i: nat, l: int)
    requires i < |ready| && Alone(ready[i], prio, l) == []
    ensures OfLevel(RemovedAt(ready, i), prio, l) == OfLevel(ready, prio, l)
  {
    if i > 0 {
      LevelStays(ready[1..], prio, i - 1, l);
      LevelFirst(ready[0], RemovedAt(ready[1..], i - 1), prio, l);
    }
  }

  lemma SplitPop<P>(rQ: seq<seq<P>>, ready: seq<P>, prio: map<P, int>, k: nat)
    requires Split(rQ, ready, prio) && k < LEVELS && rQ[k] != []
    ensures var i := FirstAt(ready, prio, k);
            rQ[k][0] == ready[i] && Split(rQ[k := rQ[k][1..]], ready[..i] + ready[i + 1..], prio)
  {
    var i := FirstAt(ready, prio, k);
    var rQ', ready' := rQ[k := rQ[k][1..]], RemovedAt(ready, i);
    RemovedIsSpliced(ready, i);
    LevelPop(ready, prio, k);
    forall l | 0 <= l < LEVELS ensures rQ'[l] == OfLevel(ready', prio, l) {
      if l != k {
        LevelStays(ready, prio, i, l);
      }
    }
  }

  lemma {:induction false} LevelHas<P>(ready: seq<P>, prio: map<P, int>, p: P)
    requires p in ready && p in prio
    ensures p in OfLevel(ready, prio, prio[p])
  {
    if ready[0] != p {
      LevelHas(ready[1..], prio, p);
    }
  }

  // With the levels above k empty, nobody ready has a higher priority.
  lemma NoneAbove<P>(rQ: seq<seq<P>>, ready: seq<P>, prio: map<P, int>, k: int, p: P)
    requires Split(rQ, ready, prio) && Levelled(ready, prio) && p in ready
    requires -1 <= k && forall l :: k < l < LEVELS ==> rQ[l] == []
    ensures prio[p] <= k
  {
    LevelHas(ready, prio, p);
  }

  // The prios of processes not in the list do not matter.
  lemma {:induction false} LevelForget<P>(ready: seq<P>, prio: map<P, int>, prio': map<P, int>, k: int)
    requires forall p :: p in ready ==> p in prio && p in prio' && prio[p] == prio'[p]
    ensures OfLevel(ready, prio, k) == OfLevel(ready, prio', k)
  {
    if ready != [] {
      LevelForget(ready[1..], prio, prio', k);
    }
  }

  lemma SplitForget<P>(rQ: seq<seq<P>>, ready: seq<P>, prio: map<P, int>, prio': map<P, int>)
    requires Split(rQ, ready, prio)
    requires forall p :: p in ready ==> p in prio && p in prio' && prio[p] == prio'[p]
    ensures Split(rQ, ready, prio')
  {
    forall k | 0 <= k < LEVELS ensures rQ[k] == OfLevel(ready, prio', k) {
      LevelForget(ready, prio, prio', k);
    }
  }
}
