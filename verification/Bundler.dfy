/** The bundler's record of which slots of a process it has handled: everything up to
    min, the scattered slots in done, and the gaps still missing. */
module Bundler {
  import opened Lists

  class Slots {
    var min: int
    var current: int
    var missing: seq<int>
    var done: set<int>

    /** The slots handled so far. */
    ghost predicate Processed(s: int)
      reads this
    {
      0 <= s <= min || s in done
    }

    ghost predicate Valid()
      reads this
    {
      && -1 <= min <= current && (min == current ==> current == -1)
      && (forall s {:trigger s in done} :: s in done ==> min < s <= current)
      && (current >= 0 ==> current in done)
      && (forall s {:trigger s in missing} {:trigger Processed(s)} :: s in missing <==>
        0 <= s <= current && !Processed(s))
      && (forall i, j {:trigger missing[i], missing[j]} :: 0 <= i < j < |missing| ==> missing[i] != missing[j])
    }

    constructor ()
      ensures Valid()
      ensures forall s :: !Processed(s)
      ensures min == -1 && current == -1 && missing == [] && done == {}
    {
      min, current, missing, done := -1, -1, [], {};
    }

    /** list without any occurrence of x. */
    static method Drop(x: int, list: seq<int>) returns (r: seq<int>)
      ensures forall v :: v in r <==> v in list && v != x
      ensures (forall i, j {:trigger list[i], list[j]} :: 0 <= i < j < |list| ==> list[i] != list[j]) ==>
                forall i, j {:trigger r[i], r[j]} :: 0 <= i < j < |r| ==> r[i] != r[j]
    {
      r := [];
      for i := 0 to |list|
        invariant forall v :: v in r <==> v in list[..i] && v != x
        invariant (forall i, j {:trigger list[i], list[j]} :: 0 <= i < j < |list| ==> list[i] != list[j]) ==>
                    forall i, j {:trigger r[i], r[j]} :: 0 <= i < j < |r| ==> r[i] != r[j]
      {
        assert list[..i + 1] == list[..i] + [list[i]];
        if list[i] != x {
          if forall i, j {:trigger list[i], list[j]} :: 0 <= i < j < |list| ==> list[i] != list[j] {
            assert list[i] !in list[..i];
          }
          r := r + [list[i]];
        }
      }
      assert list[..|list|] == list;
    }

    /** Moves min over the slots handled without a gap. */
    method DelDone()
      requires Valid()
      modifies this`min, this`done
      ensures Valid()
      ensures forall s {:trigger Processed(s)} {:trigger old(Processed(s))} :: Processed(s) <==> old(Processed(s))
      ensures min + 1 < current ==> !Processed(min + 1)
    {
      if min + 1 < current {
        var i := min + 1;
        while i < current
          invariant min + 1 == i <= current && Valid()
          invariant forall s {:trigger Processed(s)} {:trigger old(Processed(s))} :: Processed(s) <==> old(Processed(s))
        {
          if i !in done { break; }
          min := i;
          done := done - {i};
          i := i + 1;
        }
      }
    }

    /** Notes the slots between current and slot that have not arrived. */
    method AddGap(slot: nat)
      requires Valid() && current + 1 < slot
      modifies this`missing
      ensures forall s {:trigger s in missing} :: s in missing <==> s in old(missing) || current < s < slot
      ensures forall i, j {:trigger missing[i], missing[j]} :: 0 <= i < j < |missing| ==> missing[i] != missing[j]
    {
      for i := current + 1 to slot
        invariant forall s {:trigger s in missing} :: s in missing <==> s in old(missing) || current < s < i
        invariant forall i, j {:trigger missing[i], missing[j]} :: 0 <= i < j < |missing| ==> missing[i] != missing[j]
      {
        if i !in done {
          if i !in missing { missing := missing + [i]; }
        }
      }
    }

    /** Records the arrival of a slot, possibly not the first one. */
    method Arrive(slot: nat)
      requires Valid()
      modifies this
      ensures Valid()
      ensures forall s {:trigger Processed(s)} {:trigger old(Processed(s))} :: Processed(s) <==>
        old(Processed(s)) || s == slot
      ensures current == if slot > old(current) then slot else old(current)
    {
      if current + 1 < slot {
        AddGap(slot);
      } else {
        missing := Drop(slot, missing);
      }
      if min < slot { done := done + {slot}; }
      if slot > current { current := slot; }
      DelDone();
    }

    /** Any arrivals, in any order: what counts as handled is exactly what arrived, what is
        missing is exactly the rest up to the highest, each once. */
    method Replay(arrivals: seq<nat>)
      requires Valid() && forall s :: !Processed(s)
      modifies this
      ensures Valid()
      ensures forall s {:trigger Processed(s)} :: Processed(s) <==> s in arrivals
      ensures forall s {:trigger s in missing} :: s in missing <==> s !in arrivals && 0 <= s && exists a ::
        a in arrivals && s < a
      ensures forall i, j {:trigger missing[i], missing[j]} :: 0 <= i < j < |missing| ==> missing[i] != missing[j]
      ensures arrivals != [] ==> current in arrivals
      ensures forall a {:trigger a in arrivals} :: a in arrivals ==> a <= current
    {
      for i := 0 to |arrivals|
        invariant Valid()
        invariant forall s {:trigger Processed(s)} :: Processed(s) <==> s in arrivals[..i]
        invariant i > 0 ==> current in arrivals[..i]
        invariant forall a {:trigger a in arrivals[..i]} :: a in arrivals[..i] ==> a <= current
        invariant i == 0 ==> current < 0 || Processed(current)
      {
        Arrive(arrivals[i]);
        assert arrivals[..i + 1] == arrivals[..i] + [arrivals[i]];
      }
      assert arrivals[..|arrivals|] == arrivals;
      forall s ensures s in missing <==> s !in arrivals && 0 <= s && exists a :: a in arrivals && s < a {
        if s in missing { assert !Processed(s) && current in arrivals && s < current; }
        if s !in arrivals && 0 <= s && exists a :: a in arrivals && s < a {
          var a :| a in arrivals && s < a;
          assert a <= current && !Processed(s);
        }
      }
    }

    /** Once every slot up to the highest has arrived, nothing is missing. */
    method ReplayAll(arrivals: seq<nat>, n: nat)
      requires Valid() && forall s :: !Processed(s)
      requires forall s :: 0 <= s <= n ==> s in arrivals
      requires forall a {:trigger a in arrivals} :: a in arrivals ==> a <= n
      modifies this
      ensures Valid() && missing == [] && current == n
    {
      Replay(arrivals);
      assert n in arrivals;
      assert forall s :: s !in missing;
      SomeMember(missing);
    }
  }
}
