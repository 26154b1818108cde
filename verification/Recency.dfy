// Least-recently-used replacement as a list of pages, the latest used first.
module Recency {
  import opened Lists

  // A page of a process.
  datatype Key = Key(pid: int, page: int)

  datatype Op = Create(pid: int) | Access(pid: int, page: int) | Terminate(pid: int)

  function Cut(l: seq<Key>, frames: nat): seq<Key> {
    if |l| <= frames then l else l[..frames]
  }

  // The page comes first; with every frame taken, the last page goes.
  function Used(l: seq<Key>, x: Key, frames: nat): seq<Key> {
    Cut([x] + Without(l, x), frames)
  }

  function Dropped(l: seq<Key>, pid: int): seq<Key> {
    if l == [] then [] else (if l[0].pid == pid then [] else [l[0]]) + Dropped(l[1..], pid)
  }

  function Step(l: seq<Key>, op: Op, frames: nat): seq<Key> {
    match op
    case Create(pid) => Used(l, Key(pid, 0), frames)
    case Access(pid, page) => Used(l, Key(pid, page), frames)
    case Terminate(pid) => Dropped(l, pid)
  }

  // The list after a trace of operations, the latest operation last.
  function After(ops: seq<Op>, frames: nat): seq<Key> {
    if ops == [] then [] else Step(After(ops[..|ops| - 1], frames), ops[|ops| - 1], frames)
  }

  predicate Misses(l: seq<Key>, op: Op) {
    op.Access? && Key(op.pid, op.page) !in l
  }

  // The steps of a trace that miss.
  ghost function MissesOf(ops: seq<Op>, frames: nat): set<nat> {
    set i: nat | i < |ops| && Misses(After(ops[..i], frames), ops[i])
  }

  // ---------- no frame holds a page twice, and no list outgrows the frames ----------

  lemma {:induction false} DroppedMembers(l: seq<Key>, pid: int)
    requires NoRepeats(l)
    ensures NoRepeats(Dropped(l, pid)) && forall y :: y in Dropped(l, pid) <==> y in l && y.pid != pid
    ensures |Dropped(l, pid)| <= |l|
  {
    if l != [] {
      DroppedMembers(l[1..], pid);
      assert forall y :: y in l <==> y == l[0] || y in l[1..];
    }
  }

  lemma StepBounded(l: seq<Key>, op: Op, frames: nat)
    requires NoRepeats(l) && |l| <= frames
    ensures NoRepeats(Step(l, op, frames)) && |Step(l, op, frames)| <= frames
  {
    match op
    case Create(pid) => WithoutMembers(l, Key(pid, 0));
    case Access(pid, page) => WithoutMembers(l, Key(pid, page));
    case Terminate(pid) => DroppedMembers(l, pid);
  }

  lemma {:induction false} AfterBounded(ops: seq<Op>, frames: nat)
    ensures NoRepeats(After(ops, frames)) && |After(ops, frames)| <= frames
  {
    if ops != [] {
      AfterBounded(ops[..|ops| - 1], frames);
      StepBounded(After(ops[..|ops| - 1], frames), ops[|ops| - 1], frames);
    }
  }

  // ---------- inclusion: fewer frames hold a prefix ----------

  lemma {:induction false} WithoutPrefix(a: seq<Key>, b: seq<Key>, x: Key)
    requires a <= b && NoRepeats(b)
    ensures Without(a, x) <= Without(b, x)
  {
    if a != [] {
      assert a[0] == b[0] && a[1..] <= b[1..];
      if a[0] != x {
        WithoutPrefix(a[1..], b[1..], x);
      }
    }
  }

  lemma {:induction false} DroppedPrefix(a: seq<Key>, b: seq<Key>, pid: int)
    requires a <= b
    ensures Dropped(a, pid) <= Dropped(b, pid)
  {
    if a != [] {
      assert a[0] == b[0] && a[1..] <= b[1..];
      DroppedPrefix(a[1..], b[1..], pid);
    }
  }

  lemma UsedPrefix(a: seq<Key>, b: seq<Key>, x: Key, frames: nat, more: nat)
    requires a <= b && NoRepeats(b) && frames <= more
    ensures Used(a, x, frames) <= Used(b, x, more)
  {
    WithoutPrefix(a, b, x);
    var a', b' := [x] + Without(a, x), [x] + Without(b, x);
    assert a' <= b';
  }

  // On any trace the pages in memory with fewer frames are a prefix of those with more.
  lemma {:induction false} Inclusion(ops: seq<Op>, frames: nat, more: nat)
    requires frames <= more
    ensures After(ops, frames) <= After(ops, more)
  {
    if ops != [] {
      var before, op := ops[..|ops| - 1], ops[|ops| - 1];
      Inclusion(before, frames, more);
      AfterBounded(before, more);
      var a, b := After(before, frames), After(before, more);
      match op
      case Create(pid) => UsedPrefix(a, b, Key(pid, 0), frames, more);
      case Access(pid, page) => UsedPrefix(a, b, Key(pid, page), frames, more);
      case Terminate(pid) => DroppedPrefix(a, b, pid);
    }
  }

  // More frames never cause more misses: what misses with them misses with fewer.
  lemma MoreFramesFewerMisses(ops: seq<Op>, frames: nat, more: nat)
    requires frames <= more
    ensures MissesOf(ops, more) <= MissesOf(ops, frames) && |MissesOf(ops, more)| <= |MissesOf(ops, frames)|
  {
    forall i | i in MissesOf(ops, more) ensures i in MissesOf(ops, frames) {
      Inclusion(ops[..i], frames, more);
    }
    SubsetCount(MissesOf(ops, more), MissesOf(ops, frames));
  }
}
