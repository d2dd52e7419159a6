/** The recycled frames (frame.c) and their delivery to the destinations of a stream (stream.c). */
module FrameHeap {
  import opened Numbers
  import opened FrameExchanger

  class Heap {
    const slots: array<Maybe>
    const refCount: array<int>
    var takeAt: nat
    var putAt: nat
    ghost var taken: nat             // frames taken in all
    ghost var free: seq<nat>         // the frames in the slots, oldest first
    ghost var out: set<nat>          // the frames in use
    ghost var returning: set<nat>    // no longer referenced, not yet back in a slot

    ghost predicate Valid()
      reads this, slots, refCount
    {
      var n := slots.Length;
      && n > 0 && refCount.Length == n && takeAt < n && putAt < n
      && takeAt == taken % n && putAt == (taken + |free|) % n
      && (forall k: nat :: taken <= k < taken + n ==> slots[k % n] == if k < taken + |free| then Frame(free[k - taken]) else Null)
      && Counts(n, refCount[..], free, out, returning)
    }

    constructor (n: nat)
      requires n > 0
      ensures Valid() && fresh(slots) && fresh(refCount) && slots.Length == n && out == {} && returning == {} && |free| == n
    {
      slots := new Maybe[n](i => Frame(i));
      refCount := new int[n](_ => 0);
      takeAt, putAt, taken := 0, 0, 0;
      free, out, returning := seq(n, i => i), {}, {};
      new;
      forall k: nat | k < n ensures k % n == k { DivModIs(k, n, 0, k); }
      DivModIs(n, n, 1, 0);
    }

    /** `new_frame`: it fails only when no frame is free. */
    method NewFrame() returns (f: Maybe)
      requires Valid()
      modifies this, slots, refCount
      ensures Valid()
      ensures f == Null <==> old(|out| + |returning|) == slots.Length
      ensures f == Null ==> out == old(out) && free == old(free) && refCount[..] == old(refCount[..])
      ensures f != Null ==>
                && f.id == old(free)[0] && out == old(out) + {f.id} && free == old(free)[1..] && f.id < refCount.Length
                && refCount[..] == old(refCount[..])[f.id := 1]
      ensures returning == old(returning)
    {
      ghost var n := slots.Length;
      assert slots[taken % n] == if |free| > 0 then Frame(free[0]) else Null;
      FirstTaken(n, refCount[..], free, out, returning);
      hide Counts;
      if slots[takeAt] != Null {
        f := slots[takeAt];
        NextIs(taken, n);
        OneLapOn(taken, n);
        forall k: nat | taken < k < taken + n ensures k % n != taken % n { SlotsApart(taken, k, n); }
        slots[takeAt] := Null;
        takeAt := Next(takeAt, slots.Length);
        refCount[f.id] := 1;
        taken := taken + 1;
        out, free := out + {f.id}, free[1..];
      } else {
        f := Null;
      }
    }

    /** `ref_frame`. */
    method RefFrame(id: nat)
      requires Valid() && id in out
      modifies refCount
      ensures Valid() && id < refCount.Length && refCount[..] == old(refCount[..])[id := old(refCount[id]) + 1]
    {
      refCount[id] := refCount[id] + 1;
    }

    /** The first half of `unref_frame`, under the lock of the frame. */
    method DropReference(id: nat) returns (r: int)
      requires Valid() && id in out
      modifies refCount, this`out, this`returning
      ensures Valid() && id < refCount.Length && r == old(refCount[id]) - 1 >= 0
      ensures refCount[..] == old(refCount[..])[id := r]
      ensures r > 0 ==> out == old(out) && returning == old(returning)
      ensures r == 0 ==> out == old(out) - {id} && returning == old(returning) + {id}
    {
      refCount[id] := refCount[id] - 1;
      r := refCount[id];
      if r == 0 { out, returning := out - {id}, returning + {id}; }
    }

    /** The second half, under the lock of the heap: there is always an empty slot to put the frame in. */
    method PutBack(id: nat) returns (ok: bool)
      requires Valid() && id in returning
      modifies this`putAt, this`free, this`returning, slots
      ensures ok
      ensures Valid() && free == old(free) + [id] && returning == old(returning) - {id}
    {
      ghost var n := slots.Length;
      FreeSlotLeft(n, refCount[..], free, out, returning);
      assert slots[(taken + |free|) % n] == Null;
      if slots[putAt] != Null { return false; }
      NextIs(taken + |free|, n);
      forall k: nat | taken <= k < taken + n && k != taken + |free| ensures k % n != (taken + |free|) % n {
        if k < taken + |free| { SlotsApart(k, taken + |free|, n); } else { SlotsApart(taken + |free|, k, n); }
      }
      slots[putAt] := Frame(id);
      putAt := Next(putAt, slots.Length);
      free, returning := free + [id], returning - {id};
      ok := true;
    }

    /** `unref_frame` of a frame without a destructor. */
    method UnrefFrame(id: nat)
      requires Valid() && id in out
      modifies this`putAt, this`free, this`returning, this`out, slots, refCount
      ensures Valid() && id < refCount.Length && refCount[..] == old(refCount[..])[id := old(refCount[id]) - 1]
      ensures returning == old(returning)
      ensures if old(refCount[id]) == 1 then out == old(out) - {id} && free == old(free) + [id]
              else out == old(out) && free == old(free)
    {
      var r := DropReference(id);
      if r > 0 { return; }
      var ok := PutBack(id);
    }

    /** `deliver_frame_to_stream`: every waiting destination gets a reference, which it keeps or gives
        back; the stream gives back its own. */
    method DeliverToStream(id: nat, dests: seq<Destination>)
      requires Valid() && id in out
      modifies this`putAt, this`free, this`returning, this`out, slots, refCount
      ensures Valid() && id < refCount.Length && refCount[..] == old(refCount[..])[id := old(refCount[id]) + Kept(dests) - 1]
      ensures if old(refCount[id]) + Kept(dests) == 1 then out == old(out) - {id} && free == old(free) + [id]
              else out == old(out) && free == old(free)
    {
      var i := 0;
      while i < |dests|
        invariant 0 <= i <= |dests| && Valid() && id in out && out == old(out) && free == old(free)
        invariant refCount[..] == old(refCount[..])[id := old(refCount[id]) + Kept(dests[..i])]
      {
        assert dests[..i + 1][..i] == dests[..i];
        if dests[i].waiting {
          RefFrame(id);
          if !dests[i].keeps { UnrefFrame(id); }
        }
        i := i + 1;
      }
      assert dests[..i] == dests;
      UnrefFrame(id);
    }
  }

  /** Every frame is in exactly one place, and referenced just when it is in use. */
  ghost predicate Counts(n: nat, refs: seq<int>, free: seq<nat>, out: set<nat>, returning: set<nat>) {
    && |refs| == n && |free| + |out| + |returning| == n
    && (forall id :: id in free ==> id < n && refs[id] == 0 && id !in returning)
    && (forall id :: id in returning ==> id < n && refs[id] == 0)
    && (forall id :: id in out ==> id < n && refs[id] >= 1)
    && (forall i, j :: 0 <= i < j < |free| ==> free[i] != free[j])
  }

  lemma FirstTaken(n: nat, refs: seq<int>, free: seq<nat>, out: set<nat>, returning: set<nat>)
    requires Counts(n, refs, free, out, returning)
    ensures free == [] <==> |out| + |returning| == n
    ensures free != [] ==> free[0] < n == |refs| && Counts(n, refs[free[0] := 1], free[1..], out + {free[0]}, returning)
  {
    if free != [] {
      var id, more := free[0], out + {free[0]};
      assert id in free && id !in out;
      assert |more| == |out| + 1 && forall x :: x in free[1..] ==> x in free && x != id;
    }
  }

  lemma FreeSlotLeft(n: nat, refs: seq<int>, free: seq<nat>, out: set<nat>, returning: set<nat>)
    requires Counts(n, refs, free, out, returning) && returning != {}
    ensures |free| < n
  {
    assert |returning| > 0;
  }

  datatype Destination = Destination(waiting: bool, keeps: bool)

  /** The destinations that keep the frame. */
  function Kept(dests: seq<Destination>): nat {
    if dests == [] then 0
    else Kept(dests[..|dests| - 1]) + if dests[|dests| - 1].waiting && dests[|dests| - 1].keeps then 1 else 0
  }
}
