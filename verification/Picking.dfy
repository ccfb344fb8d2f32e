/** What it means for one sequence to be the wanted elements of another, in order. */
module Picking {

  /** `at` lists, in rising order, exactly the positions in s that hold a wanted element, and `out` those elements. */
  ghost predicate Picks<T(!new)>(s: seq<T>, wanted: T -> bool, out: seq<T>, at: seq<nat>) {
    && |out| == |at|
    && (forall i, j :: 0 <= i < j < |at| ==> at[i] < at[j])
    && (forall i :: 0 <= i < |at| ==> at[i] < |s| && out[i] == s[at[i]] && wanted(out[i]))
    && (forall k :: 0 <= k < |s| && wanted(s[k]) ==> k in at)
  }

  lemma PicksNothing<T(!new)>(wanted: T -> bool)
    ensures Picks([], wanted, [], [])
  {
  }

  lemma PicksNext<T(!new)>(s: seq<T>, x: T, wanted: T -> bool, out: seq<T>, at: seq<nat>)
    requires Picks(s, wanted, out, at)
    ensures wanted(x) ==> Picks(s + [x], wanted, out + [x], at + [|s|])
    ensures !wanted(x) ==> Picks(s + [x], wanted, out, at)
  {
    assert |s| in at + [|s|];
    forall k | 0 <= k < |s| && wanted((s + [x])[k]) ensures k in at {
      assert (s + [x])[k] == s[k];
    }
  }

  lemma PicksAgain<T(!new)>(s: seq<T>, t: seq<T>, wanted: T -> bool, out: seq<T>, at: seq<nat>,
                            out': seq<T>, at': seq<nat>)
    requires Picks(s, wanted, out, at) && Picks(t, wanted, out', at')
    ensures Picks(s + t, wanted, out + out', at + Moved(at', |s|))
  {
    var all := at + Moved(at', |s|);
    forall k | 0 <= k < |s + t| && wanted((s + t)[k]) ensures k in all {
      if k < |s| {
        assert s[k] == (s + t)[k];
      } else {
        assert t[k - |s|] == (s + t)[k];
        var i :| 0 <= i < |at'| && at'[i] == k - |s|;
        assert all[|at| + i] == k;
      }
    }
  }

  function Moved(at: seq<nat>, offset: nat): (r: seq<nat>)
    ensures |r| == |at|
  {
    seq(|at|, i requires 0 <= i < |at| => at[i] + offset)
  }

  /** There is only one such choice. */
  lemma PicksOnce<T(!new)>(s: seq<T>, wanted: T -> bool, out: seq<T>, at: seq<nat>, out': seq<T>, at': seq<nat>)
    requires Picks(s, wanted, out, at) && Picks(s, wanted, out', at')
    ensures at == at' && out == out'
  {
    var next := if |at| < |at'| then at'[|at|] else 0;
    var next' := if |at'| < |at| then at[|at'|] else 0;
    forall i | 0 <= i < |at| && i < |at'| ensures at[i] == at'[i] {
      SamePosition(s, wanted, out, at, out', at', i);
    }
    assert |at| < |at'| ==> next in at;
    assert |at'| < |at| ==> next' in at';
  }

  lemma {:induction false} SamePosition<T(!new)>(s: seq<T>, wanted: T -> bool, out: seq<T>, at: seq<nat>,
                                                 out': seq<T>, at': seq<nat>, i: nat)
    requires Picks(s, wanted, out, at) && Picks(s, wanted, out', at') && i < |at| && i < |at'|
    ensures at[i] == at'[i]
    decreases i
  {
    forall j | 0 <= j < i ensures at[j] == at'[j] {
      SamePosition(s, wanted, out, at, out', at', j);
    }
    assert at[i] in at' && at'[i] in at;
  }

  /** When everything is wanted, everything is picked. */
  lemma PicksAll<T(!new)>(s: seq<T>, wanted: T -> bool, out: seq<T>, at: seq<nat>)
    requires Picks(s, wanted, out, at) && forall k :: 0 <= k < |s| ==> wanted(s[k])
    ensures out == s
  {
    var every: seq<nat> := seq(|s|, i => i);
    forall k | 0 <= k < |s| ensures k in every {
      assert every[k] == k;
    }
    PicksOnce(s, wanted, out, at, s, every);
  }
}
