// Memory as a row of blocks: first fit, freeing with coalescing, and what both keep.
module Blocks {

  datatype Block =
    | Hole(start: nat, size: nat)
    | Held(pid: int, priority: int, start: nat, size: nat)

  // ---------- the invariant ----------

  ghost predicate TileAt(b: seq<Block>, i: nat)
    requires i < |b|
  {
    b[i].size >= 1 && b[i].start == if i == 0 then 0 else b[i - 1].start + b[i - 1].size
  }

  // The blocks fill 0..max-1 without gap or overlap.
  ghost predicate Tiles(b: seq<Block>, max: nat) {
    && b != [] && (forall i: nat {:trigger TileAt(b, i)} :: i < |b| ==> TileAt(b, i))
    && b[|b| - 1].start + b[|b| - 1].size == max
  }

  ghost predicate Coalesced(b: seq<Block>) {
    forall i :: 0 <= i < |b| - 1 ==> b[i].Held? || b[i + 1].Held?
  }

  ghost predicate Sound(b: seq<Block>, max: nat) {
    Tiles(b, max) && Coalesced(b)
  }

  // ---------- first fit ----------

  predicate Fits(x: Block, size: nat) { x.Hole? && x.size >= size }

  function FirstFit(b: seq<Block>, size: nat): (i: int)
    ensures -1 <= i < |b|
    ensures i == -1 ==> forall j :: 0 <= j < |b| ==> !Fits(b[j], size)
    ensures i != -1 ==> Fits(b[i], size) && forall j :: 0 <= j < i ==> !Fits(b[j], size)
  {
    if b == [] then -1
    else if Fits(b[0], size) then 0
    else
      var i := FirstFit(b[1..], size);
      assert forall j :: 1 <= j < |b| ==> b[j] == b[1..][j - 1];
      if i == -1 then -1 else i + 1
  }

  lemma {:induction false} StartsGrow(b: seq<Block>, max: nat, i: nat, j: nat)
    requires Tiles(b, max) && i < j < |b|
    ensures b[i].start + b[i].size <= b[j].start
    decreases j
  {
    assert TileAt(b, j) && TileAt(b, j - 1);
    if i < j - 1 {
      StartsGrow(b, max, i, j - 1);
    }
  }

  // The first hole that fits is the one with the lowest address; there is none only if no hole fits.
  lemma FirstFitIsLowest(b: seq<Block>, max: nat, size: nat)
    requires Tiles(b, max)
    ensures FirstFit(b, size) == -1 <==> forall j :: 0 <= j < |b| ==> !Fits(b[j], size)
    ensures FirstFit(b, size) != -1 ==>
              forall j :: 0 <= j < |b| && Fits(b[j], size) ==> b[FirstFit(b, size)].start <= b[j].start
  {
    var i := FirstFit(b, size);
    if i != -1 {
      forall j | 0 <= j < |b| && Fits(b[j], size) ensures b[i].start <= b[j].start {
        if i < j {
          StartsGrow(b, max, i, j);
        }
      }
    }
  }

  // ---------- allocating and freeing ----------

  // The front of the hole is taken; what is left stays a hole.
  function Allocate(b: seq<Block>, i: nat, pid: int, priority: int, size: nat): seq<Block>
    requires i < |b| && Fits(b[i], size)
  {
    var held := Held(pid, priority, b[i].start, size);
    if b[i].size > size then b[..i] + [held, Hole(b[i].start + size, b[i].size - size)] + b[i + 1..]
    else b[i := held]
  }

  lemma SplitAt(b: seq<Block>, k: nat, pid: int, priority: int, size: nat, i: nat)
    requires k < |b| && Fits(b[k], size) && b[k].size > size && i <= |b|
    ensures var c := Allocate(b, k, pid, priority, size);
            && |c| == |b| + 1
            && c[i] == if i < k then b[i] else if i == k then Held(pid, priority, b[k].start, size)
                       else if i == k + 1 then Hole(b[k].start + size, b[k].size - size) else b[i - 1]
  {
  }

  // Freed, without regard to its neighbours.
  function Released(b: seq<Block>, i: nat): seq<Block>
    requires i < |b|
  {
    b[i := Hole(b[i].start, b[i].size)]
  }

  // Blocks i and i + 1 as one hole.
  function Joined(b: seq<Block>, i: nat): seq<Block>
    requires i + 1 < |b|
  {
    b[..i] + [Hole(b[i].start, b[i].size + b[i + 1].size)] + b[i + 2..]
  }

  lemma JoinedAt(b: seq<Block>, k: nat, i: nat)
    requires k + 1 < |b| && i < |b| - 1
    ensures |Joined(b, k)| == |b| - 1
    ensures Joined(b, k)[i] ==
            if i == k then Hole(b[k].start, b[k].size + b[k + 1].size) else b[if i < k then i else i + 1]
  {
  }

  predicate HoleAt(b: seq<Block>, i: int) { 0 <= i < |b| && b[i].Hole? }

  function MergeBack(b: seq<Block>, i: nat): (seq<Block>, nat)
    requires i < |b|
  {
    if HoleAt(b, i - 1) then (Joined(b, i - 1), i - 1) else (b, i)
  }

  function MergeOn(b: seq<Block>, i: nat): seq<Block>
    requires i < |b|
  {
    if HoleAt(b, i + 1) then Joined(b, i) else b
  }

  // Hole i is merged with a hole before it, then with one after it.
  function Coalesce(b: seq<Block>, i: nat): seq<Block>
    requires i < |b|
  {
    var (b1, j) := MergeBack(b, i);
    MergeOn(b1, j)
  }

  function Free(b: seq<Block>, i: nat): seq<Block>
    requires i < |b|
  {
    Coalesce(Released(b, i), i)
  }

  // ---------- what they keep ----------

  lemma AllocateTiles(b: seq<Block>, max: nat, i: nat, pid: int, priority: int, size: nat)
    requires Tiles(b, max) && i < |b| && Fits(b[i], size) && size >= 1
    ensures Tiles(Allocate(b, i, pid, priority, size), max)
  {
    var c := Allocate(b, i, pid, priority, size);
    assert TileAt(b, i);
    forall k: nat | k < |c| ensures TileAt(c, k) {
      if |c| > |b| && k > i {
        assert TileAt(b, k - 1);
      } else {
        assert TileAt(b, k);
      }
    }
  }

  // A request of at least one byte keeps the memory sound, a request of none leaves an empty block.
  lemma AllocateSound(b: seq<Block>, max: nat, i: nat, pid: int, priority: int, size: nat)
    requires Sound(b, max) && i < |b| && Fits(b[i], size)
    ensures Sound(Allocate(b, i, pid, priority, size), max) <==> size >= 1
  {
    if size >= 1 {
      AllocateTiles(b, max, i, pid, priority, size);
    } else {
      assert TileAt(b, i);
      assert !TileAt(Allocate(b, i, pid, priority, size), i);
    }
  }

  lemma ReleasedTiles(b: seq<Block>, max: nat, i: nat)
    requires Tiles(b, max) && i < |b|
    ensures Tiles(Released(b, i), max)
  {
    var c := Released(b, i);
    forall k: nat | k < |c| ensures TileAt(c, k) {
      assert TileAt(b, k);
    }
  }

  lemma JoinedTiles(b: seq<Block>, max: nat, i: nat)
    requires Tiles(b, max) && i + 1 < |b|
    ensures Tiles(Joined(b, i), max)
  {
    var c := Joined(b, i);
    assert TileAt(b, i) && TileAt(b, i + 1);
    forall k: nat | k < |c| ensures TileAt(c, k) {
      if k > i {
        assert TileAt(b, k + 1) && c[k] == b[k + 1];
        assert k > i + 1 ==> c[k - 1] == b[k];
      } else {
        assert TileAt(b, k) && c[k].start == b[k].start;
        assert k > 0 ==> c[k - 1] == b[k - 1];
      }
    }
    assert c[|c| - 1].start + c[|c| - 1].size == b[|b| - 1].start + b[|b| - 1].size;
  }

  // Holes are apart but perhaps around block i.
  ghost predicate CoalescedBut(b: seq<Block>, i: nat) {
    forall k :: 0 <= k < |b| - 1 && k != i && k + 1 != i ==> b[k].Held? || b[k + 1].Held?
  }

  lemma FreeTiles(b: seq<Block>, max: nat, i: nat)
    requires Tiles(b, max) && i < |b|
    ensures Tiles(Free(b, i), max)
  {
    var b0 := Released(b, i);
    ReleasedTiles(b, max, i);
    if HoleAt(b0, i - 1) {
      JoinedTiles(b0, max, i - 1);
    }
    var (b1, j) := MergeBack(b0, i);
    if HoleAt(b1, j + 1) {
      JoinedTiles(b1, max, j);
    }
  }

  lemma FreeApart(b: seq<Block>, i: nat)
    requires Coalesced(b) && i < |b| && b[i].Held?
    ensures Coalesced(Free(b, i))
  {
    var b0 := Released(b, i);
    assert CoalescedBut(b0, i);
    MergeBackApart(b0, i);
    var (b1, j) := MergeBack(b0, i);
    if HoleAt(b1, j + 1) {
      MergeOnApart(b1, j);
    }
  }

  lemma FreeSound(b: seq<Block>, max: nat, i: nat)
    requires Sound(b, max) && i < |b| && b[i].Held?
    ensures Sound(Free(b, i), max)
  {
    FreeTiles(b, max, i);
    FreeApart(b, i);
  }

  lemma MergeBackApart(b0: seq<Block>, i: nat)
    requires i < |b0| && CoalescedBut(b0, i) && (i >= 2 ==> b0[i - 2].Held? || b0[i - 1].Held?)
    requires b0[i].Hole?
    ensures var (b1, j) := MergeBack(b0, i);
            j < |b1| && b1[j].Hole? && CoalescedBut(b1, j) && (j > 0 ==> b1[j - 1].Held?)
            && (j + 2 < |b1| ==> b1[j + 1].Held? || b1[j + 2].Held?)
  {
    var (b1, j) := MergeBack(b0, i);
    if j != i {
      assert forall k :: i <= k < |b1| ==> b1[k] == b0[k + 1];
      assert forall k :: 0 <= k < j ==> b1[k] == b0[k];
      assert i + 2 < |b0| ==> b0[i + 1].Held? || b0[i + 2].Held?;
    }
  }

  lemma MergeOnApart(b1: seq<Block>, j: nat)
    requires j + 1 < |b1| && b1[j].Hole? && b1[j + 1].Hole? && CoalescedBut(b1, j) && (j > 0 ==> b1[j - 1].Held?)
    requires j + 2 < |b1| ==> b1[j + 1].Held? || b1[j + 2].Held?
    ensures Coalesced(Joined(b1, j))
  {
    var c := Joined(b1, j);
    forall k | 0 <= k < |c| - 1 ensures c[k].Held? || c[k + 1].Held? {
      if k > j {
        assert c[k] == b1[k + 1] && c[k + 1] == b1[k + 2];
      } else if k == j {
        assert c[k + 1] == b1[j + 2];
      }
    }
  }

  // ---------- what one undoes of the other ----------

  // Freeing what was just allocated gives back the same row of blocks.
  lemma FreeUndoesAllocate(b: seq<Block>, max: nat, i: nat, pid: int, priority: int, size: nat)
    requires Sound(b, max) && i < |b| && Fits(b[i], size) && size >= 1
    ensures var c := Allocate(b, i, pid, priority, size); i < |c| && Free(c, i) == b
  {
    var c := Allocate(b, i, pid, priority, size);
    assert !HoleAt(b, i - 1) && !HoleAt(b, i + 1);
    if b[i].size > size {
      assert Released(c, i) == b[..i] + [Hole(b[i].start, size), Hole(b[i].start + size, b[i].size - size)] + b[i + 1..];
      assert Joined(Released(c, i), i) == b;
    } else {
      assert Released(c, i) == b;
    }
  }

  // The processes in memory, in the order of their addresses.
  ghost function Residents(b: seq<Block>): seq<Block> {
    if b == [] then [] else IfHeld(b[0]) + Residents(b[1..])
  }

  ghost function IfHeld(x: Block): seq<Block> {
    if x.Held? then [x] else []
  }

  lemma Associate(a: seq<Block>, b: seq<Block>, c: seq<Block>)
    ensures (a + b) + c == a + (b + c)
  {
  }

  lemma {:induction false} ResidentsConcat(a: seq<Block>, b: seq<Block>)
    ensures Residents(a + b) == Residents(a) + Residents(b)
  {
    if a == [] {
      assert a + b == b;
    } else {
      assert (a + b)[1..] == a[1..] + b;
      ResidentsConcat(a[1..], b);
      Associate(IfHeld(a[0]), Residents(a[1..]), Residents(b));
    }
  }

  lemma ResidentsSplit(b: seq<Block>, a: seq<Block>, xs: seq<Block>, c: seq<Block>)
    requires b == a + xs + c
    ensures Residents(b) == Residents(a) + Residents(xs) + Residents(c)
  {
    ResidentsConcat(a + xs, c);
    ResidentsConcat(a, xs);
  }

  lemma ResidentsOne(x: Block)
    ensures Residents([x]) == IfHeld(x)
  {
    assert [x][1..] == [];
  }

  lemma ResidentsTwo(x: Block, y: Block)
    ensures Residents([x, y]) == IfHeld(x) + IfHeld(y)
  {
    ResidentsOne(x);
    ResidentsOne(y);
    ResidentsConcat([x], [y]);
    assert [x] + [y] == [x, y];
  }

  lemma AllocateShape(b: seq<Block>, i: nat, pid: int, priority: int, size: nat)
    requires i < |b| && Fits(b[i], size)
    ensures var held, rest := Held(pid, priority, b[i].start, size), Hole(b[i].start + size, b[i].size - size);
            Allocate(b, i, pid, priority, size) == b[..i] + (if b[i].size > size then [held, rest] else [held]) + b[i + 1..]
    ensures b == b[..i] + [b[i]] + b[i + 1..]
  {
  }

  lemma ReleasedShape(b: seq<Block>, i: nat)
    requires i < |b|
    ensures Released(b, i) == b[..i] + [Hole(b[i].start, b[i].size)] + b[i + 1..]
    ensures b == b[..i] + [b[i]] + b[i + 1..]
  {
  }

  lemma ResidentsAround(b: seq<Block>, i: nat)
    requires i < |b|
    ensures Residents(b) == Residents(b[..i]) + IfHeld(b[i]) + Residents(b[i + 1..])
  {
    ReleasedShape(b, i);
    ResidentsSplit(b, b[..i], [b[i]], b[i + 1..]);
    ResidentsOne(b[i]);
  }

  lemma ReleasedResidents(b: seq<Block>, i: nat)
    requires i < |b|
    ensures Residents(Released(b, i)) == Residents(b[..i]) + Residents(b[i + 1..])
  {
    ReleasedShape(b, i);
    ResidentsSplit(Released(b, i), b[..i], [Hole(b[i].start, b[i].size)], b[i + 1..]);
    ResidentsOne(Hole(b[i].start, b[i].size));
    Associate(Residents(b[..i]), [], Residents(b[i + 1..]));
  }

  lemma FreedResidents(b: seq<Block>, i: nat)
    requires i < |b| && b[i].Held?
    ensures Residents(Free(b, i)) == Residents(Released(b, i))
  {
    MergesKeepResidents(Released(b, i), i);
  }

  lemma AllocatedResidents(b: seq<Block>, i: nat, pid: int, priority: int, size: nat)
    requires i < |b| && Fits(b[i], size)
    ensures Residents(Allocate(b, i, pid, priority, size)) ==
            Residents(b[..i]) + [Held(pid, priority, b[i].start, size)] + Residents(b[i + 1..])
  {
    var held, rest := Held(pid, priority, b[i].start, size), Hole(b[i].start + size, b[i].size - size);
    AllocateShape(b, i, pid, priority, size);
    ResidentsOne(held);
    ResidentsTwo(held, rest);
    ResidentsSplit(Allocate(b, i, pid, priority, size), b[..i], if b[i].size > size then [held, rest] else [held], b[i + 1..]);
  }

  // Allocating adds one process and moves none.
  lemma AllocateResidents(b: seq<Block>, i: nat, pid: int, priority: int, size: nat)
    requires i < |b| && Fits(b[i], size)
    ensures Residents(Allocate(b, i, pid, priority, size)) ==
            Residents(b[..i]) + [Held(pid, priority, b[i].start, size)] + Residents(b[i + 1..])
    ensures Residents(b) == Residents(b[..i]) + Residents(b[i + 1..])
  {
    AllocatedResidents(b, i, pid, priority, size);
    ResidentsAround(b, i);
  }

  lemma JoinedResidents(b: seq<Block>, i: nat)
    requires i + 1 < |b| && b[i].Hole? && b[i + 1].Hole?
    ensures Residents(Joined(b, i)) == Residents(b)
  {
    var whole := Hole(b[i].start, b[i].size + b[i + 1].size);
    ResidentsSplit(b, b[..i], [b[i], b[i + 1]], b[i + 2..]);
    ResidentsSplit(Joined(b, i), b[..i], [whole], b[i + 2..]);
    ResidentsTwo(b[i], b[i + 1]);
    ResidentsOne(whole);
  }

  // Freeing removes that process and moves no other.
  lemma FreeResidents(b: seq<Block>, i: nat)
    requires i < |b| && b[i].Held?
    ensures Residents(b) == Residents(b[..i]) + [b[i]] + Residents(b[i + 1..])
    ensures Residents(Free(b, i)) == Residents(b[..i]) + Residents(b[i + 1..])
  {
    ResidentsAround(b, i);
    ReleasedResidents(b, i);
    FreedResidents(b, i);
  }

  lemma MergesKeepResidents(b0: seq<Block>, i: nat)
    requires i < |b0| && b0[i].Hole?
    ensures Residents(Coalesce(b0, i)) == Residents(b0)
  {
    var (b1, j) := MergeBack(b0, i);
    if HoleAt(b0, i - 1) {
      JoinedResidents(b0, i - 1);
    }
    if HoleAt(b1, j + 1) {
      JoinedResidents(b1, j);
    }
  }

  // Memory of ten bytes after three requests of 4, 2 and 4 and the end of the second.
  lemma HoleBetween()
    ensures var b := Allocate([Hole(0, 10)], 0, 1, 0, 4);
            var c := Allocate(b, 1, 2, 0, 2);
            var d := Allocate(c, 2, 3, 0, 4);
            FirstFit(b, 2) == 1 && FirstFit(c, 4) == 2 && Free(d, 1) == [Held(1, 0, 0, 4), Hole(4, 2), Held(3, 0, 6, 4)]
  {
    var b := Allocate([Hole(0, 10)], 0, 1, 0, 4);
    assert b == [Held(1, 0, 0, 4), Hole(4, 6)];
    var c := Allocate(b, 1, 2, 0, 2);
    assert c == [Held(1, 0, 0, 4), Held(2, 0, 4, 2), Hole(6, 4)];
    var d := Allocate(c, 2, 3, 0, 4);
    assert d == [Held(1, 0, 0, 4), Held(2, 0, 4, 2), Held(3, 0, 6, 4)];
    assert Released(d, 1) == [Held(1, 0, 0, 4), Hole(4, 2), Held(3, 0, 6, 4)];
  }
}
