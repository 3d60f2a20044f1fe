/** EBS snapshots: looking one up for a volume and pruning the old ones. */
module Snapshots {
  import opened Wrappers
  import opened Arithmetic

  datatype Snapshot = Snapshot(id: string, volume: string, startedAt: int)

  function SortKey(x: Snapshot, newestFirst: bool): int {
    if newestFirst then -x.startedAt else x.startedAt
  }

  predicate Ordered(s: seq<Snapshot>, newestFirst: bool) {
    s == [] || ((forall y :: y in s[1..] ==> SortKey(s[0], newestFirst) <= SortKey(y, newestFirst))
                && Ordered(s[1..], newestFirst))
  }

  lemma {:induction false} OrderedAt(s: seq<Snapshot>, newestFirst: bool, i: nat, j: nat)
    requires Ordered(s, newestFirst) && i <= j < |s|
    ensures SortKey(s[i], newestFirst) <= SortKey(s[j], newestFirst)
  {
    if 0 < i {
      OrderedAt(s[1..], newestFirst, i - 1, j - 1);
    } else if 0 < j {
      assert s[j] == s[1..][j - 1];
    }
  }

  /** EC2 gives every snapshot its own identifier. */
  predicate DistinctIds(s: seq<Snapshot>) {
    forall i, j :: 0 <= i < j < |s| ==> s[i].id != s[j].id
  }

  function Elems(s: seq<Snapshot>): set<Snapshot> {
    set x | x in s
  }

  function Of(s: seq<Snapshot>, volume: string): set<Snapshot> {
    set x | x in s && x.volume == volume
  }

  function Minus(s: seq<Snapshot>, dead: set<Snapshot>): seq<Snapshot> {
    if s == [] then [] else (if s[0] in dead then [] else [s[0]]) + Minus(s[1..], dead)
  }

  lemma {:induction false} MinusMembers(s: seq<Snapshot>, dead: set<Snapshot>)
    ensures forall x :: x in Minus(s, dead) <==> x in s && x !in dead
  {
    if s == [] {
    } else {
      MinusMembers(s[1..], dead);
    }
  }

  lemma {:induction false} MinusDistinct(s: seq<Snapshot>, dead: set<Snapshot>)
    requires DistinctIds(s)
    ensures DistinctIds(Minus(s, dead))
  {
    if s == [] {
    } else {
      var rest := s[1..];
      MinusDistinct(rest, dead);
      MinusMembers(rest, dead);
      forall x | x in Minus(rest, dead) ensures x.id != s[0].id {
        var i :| 0 <= i < |rest| && rest[i] == x;
        assert s[i + 1] == x;
      }
    }
  }

  lemma {:induction false} MinusMinus(s: seq<Snapshot>, a: set<Snapshot>, b: set<Snapshot>)
    ensures Minus(Minus(s, a), b) == Minus(s, a + b)
  {
    if s == [] {
    } else {
      MinusMinus(s[1..], a, b);
      var rest := Minus(s[1..], a);
      assert Minus(s, a) == (if s[0] in a then [] else [s[0]]) + rest;
      if s[0] in a {
        assert Minus(s, a) == rest;
      } else {
        assert ([s[0]] + rest)[1..] == rest;
      }
    }
  }

  // ----- what the two operations promise -----

  /** What find_snapshot_id may return: the identifier of a newest (or oldest) snapshot of the volume, if it has one. */
  ghost predicate IsAnswer(s: seq<Snapshot>, volume: string, mostRecent: bool, r: Option<string>) {
    if Of(s, volume) == {} then r.None?
    else r.Some? && exists x :: x in Of(s, volume) && x.id == r.value && Extreme(x, Of(s, volume), mostRecent)
  }

  ghost predicate Extreme(x: Snapshot, all: set<Snapshot>, mostRecent: bool) {
    forall y :: y in all ==> if mostRecent then y.startedAt <= x.startedAt else x.startedAt <= y.startedAt
  }

  /**
   * Exactly min(keep, n) of the volume's n snapshots are left, none of them older than one that was deleted;
   * the rest of the list, other volumes' snapshots included, is as it was and in its order.
   */
  ghost predicate Pruned(before: seq<Snapshot>, after: seq<Snapshot>, volume: string, keep: nat) {
    var all, kept := Of(before, volume), Of(after, volume);
    && kept <= all && |kept| == Min(keep, |all|)
    && after == Minus(before, all - kept)
    && forall x, y :: x in kept && y in all - kept ==> x.startedAt >= y.startedAt
  }

  // ----- the operations -----

  function Insert(x: Snapshot, s: seq<Snapshot>, newestFirst: bool): seq<Snapshot> {
    if s == [] || SortKey(x, newestFirst) <= SortKey(s[0], newestFirst) then [x] + s
    else [s[0]] + Insert(x, s[1..], newestFirst)
  }

  function Sorted(s: seq<Snapshot>, newestFirst: bool): seq<Snapshot> {
    if s == [] then [] else Insert(s[0], Sorted(s[1..], newestFirst), newestFirst)
  }

  lemma {:induction false} InsertPermutes(x: Snapshot, s: seq<Snapshot>, newestFirst: bool)
    ensures multiset(Insert(x, s, newestFirst)) == multiset(s) + multiset{x}
  {
    if s != [] && SortKey(x, newestFirst) > SortKey(s[0], newestFirst) {
      InsertPermutes(x, s[1..], newestFirst);
      assert s == [s[0]] + s[1..];
    }
  }

  lemma {:induction false} InsertOrders(x: Snapshot, s: seq<Snapshot>, newestFirst: bool)
    requires Ordered(s, newestFirst)
    ensures Ordered(Insert(x, s, newestFirst), newestFirst)
  {
    if s == [] || SortKey(x, newestFirst) <= SortKey(s[0], newestFirst) {
      assert ([x] + s)[1..] == s;
    } else {
      var t := Insert(x, s[1..], newestFirst);
      InsertOrders(x, s[1..], newestFirst);
      InsertPermutes(x, s[1..], newestFirst);
      assert ([s[0]] + t)[1..] == t;
      forall y | y in t ensures SortKey(s[0], newestFirst) <= SortKey(y, newestFirst) {
        assert y in multiset(t);
      }
    }
  }

  lemma {:induction false} SortedPermutes(s: seq<Snapshot>, newestFirst: bool)
    ensures multiset(Sorted(s, newestFirst)) == multiset(s)
  {
    if s == [] {
    } else {
      SortedPermutes(s[1..], newestFirst);
      InsertPermutes(s[0], Sorted(s[1..], newestFirst), newestFirst);
      assert s == [s[0]] + s[1..];
    }
  }

  lemma {:induction false} SortedOrders(s: seq<Snapshot>, newestFirst: bool)
    ensures Ordered(Sorted(s, newestFirst), newestFirst)
  {
    if s == [] {
    } else {
      SortedOrders(s[1..], newestFirst);
      InsertOrders(s[0], Sorted(s[1..], newestFirst), newestFirst);
    }
  }

  /** Ruby's sort by start time: equal times may come in any order, and callers here rely on no particular one. */
  method Sort(s: seq<Snapshot>, newestFirst: bool) returns (r: seq<Snapshot>)
    ensures multiset(r) == multiset(s) && Ordered(r, newestFirst)
  {
    r := Sorted(s, newestFirst);
    SortedPermutes(s, newestFirst);
    SortedOrders(s, newestFirst);
  }

  lemma {:induction false} NoneTwice(s: seq<Snapshot>)
    requires DistinctIds(s)
    ensures forall x :: multiset(s)[x] <= 1
    ensures |Elems(s)| == |s|
  {
    if s == [] {
    } else {
      var rest := s[1..];
      NoneTwice(rest);
      assert s == [s[0]] + rest;
      assert s[0] !in rest;
      assert Elems(s) == {s[0]} + Elems(rest);
    }
  }

  lemma TwiceCounts(s: seq<Snapshot>, i: nat, j: nat)
    requires i < j < |s| && s[i] == s[j]
    ensures multiset(s)[s[i]] >= 2
  {
    assert s == s[..j] + s[j..];
    assert s[..j][i] in multiset(s[..j]) && s[j..][0] in multiset(s[j..]);
  }

  lemma SortKeepsDistinct(r: seq<Snapshot>, s: seq<Snapshot>)
    requires multiset(r) == multiset(s) && DistinctIds(s)
    ensures DistinctIds(r)
  {
    SameMembers(r, s);
    NoneTwice(s);
    forall i, j | 0 <= i < j < |r| ensures r[i].id != r[j].id {
      if r[i] == r[j] { TwiceCounts(r, i, j); }
      assert r[i] in s && r[j] in s;
    }
  }

  lemma SameMembers(r: seq<Snapshot>, s: seq<Snapshot>)
    requires multiset(r) == multiset(s)
    ensures forall x :: x in r <==> x in s
  {
    assert forall x :: x in r <==> x in multiset(r);
    assert forall x :: x in s <==> x in multiset(s);
  }

  lemma {:induction false} NothingDead(s: seq<Snapshot>)
    ensures Minus(s, {}) == s
  {
    if s == [] {
    } else {
      NothingDead(s[1..]);
    }
  }

  lemma SplitElems(s: seq<Snapshot>, n: nat)
    requires DistinctIds(s) && n <= |s|
    ensures Elems(s) == Elems(s[..n]) + Elems(s[n..]) && Elems(s[..n]) !! Elems(s[n..])
    ensures |Elems(s)| == |s| && |Elems(s[..n])| == n
  {
    NoneTwice(s);
    NoneTwice(s[..n]);
    assert s == s[..n] + s[n..];
    forall x | x in s[..n] ensures x !in s[n..] {
      var i :| 0 <= i < n && s[i] == x;
      forall j | n <= j < |s| ensures s[j] != x {}
    }
  }

  lemma KeptAreNewer(s: seq<Snapshot>, n: nat)
    requires n <= |s| && forall k, l :: 0 <= k < l < |s| ==> s[k].startedAt >= s[l].startedAt
    ensures forall x, y :: x in s[..n] && y in s[n..] ==> x.startedAt >= y.startedAt
  {
  }

  lemma OfMinus(s: seq<Snapshot>, volume: string, kept: set<Snapshot>, dead: set<Snapshot>)
    requires Of(s, volume) == kept + dead && kept !! dead
    ensures Of(Minus(s, dead), volume) == kept && Of(s, volume) - kept == dead
  {
    MinusMembers(s, dead);
    forall x ensures x in Of(Minus(s, dead), volume) <==> x in kept {
      assert x in Of(s, volume) <==> x in kept || x in dead;
    }
  }

  /** Deleting everything behind the first `keep` of the volume's snapshots, newest first, prunes. */
  lemma PruneDone(before: seq<Snapshot>, ours: seq<Snapshot>, after: seq<Snapshot>, volume: string, keep: nat)
    requires DistinctIds(before) && DistinctIds(ours)
    requires Elems(ours) == Of(before, volume)
    requires forall k, l :: 0 <= k < l < |ours| ==> ours[k].startedAt >= ours[l].startedAt
    requires after == Minus(before, Elems(ours[Min(keep, |ours|)..]))
    ensures Pruned(before, after, volume, keep) && DistinctIds(after)
  {
    var n := Min(keep, |ours|);
    var kept, dead := Elems(ours[..n]), Elems(ours[n..]);
    assert forall x, y :: x in kept && y in dead ==> x.startedAt >= y.startedAt by { KeptAreNewer(ours, n); }
    assert DistinctIds(after) by { MinusDistinct(before, dead); }
    SplitElems(ours, n);
    OfMinus(before, volume, kept, dead);
  }

  /** One more deletion by identifier. */
  lemma DeleteStep(s: seq<Snapshot>, dead: seq<Snapshot>, j: nat)
    requires DistinctIds(s) && DistinctIds(dead) && j < |dead| && dead[j] in s
    ensures var now := Minus(s, Elems(dead[..j]));
            Minus(now, set x | x in now && x.id == dead[j].id) == Minus(s, Elems(dead[..j + 1]))
  {
    var gone, now := Elems(dead[..j]), Minus(s, Elems(dead[..j]));
    MinusMembers(s, gone);
    assert dead[j] in now by {
      forall i | 0 <= i < j ensures dead[i] != dead[j] {}
    }
    forall x | x in now && x.id == dead[j].id ensures x == dead[j] {
      assert x in s;
    }
    assert (set x | x in now && x.id == dead[j].id) == {dead[j]};
    assert dead[..j + 1] == dead[..j] + [dead[j]];
    assert Elems(dead[..j + 1]) == gone + {dead[j]};
    MinusMinus(s, gone, {dead[j]});
  }

  class Ec2 {
    var snapshots: seq<Snapshot>

    constructor (snapshots: seq<Snapshot>)
      ensures this.snapshots == snapshots
    {
      this.snapshots := snapshots;
    }

    /** None is the exception "Cannot find snapshot id!". */
    method FindSnapshotId(volume: string, mostRecent: bool) returns (r: Option<string>)
      ensures IsAnswer(snapshots, volume, mostRecent, r)
    {
      r := None;
      var sorted := Sort(snapshots, !mostRecent);
      SameMembers(sorted, snapshots);
      ghost var last: int := -1;
      for i := 0 to |sorted|
        invariant -1 <= last < i
        invariant last == -1 ==> r.None?
        invariant last >= 0 ==> r == Some(sorted[last].id) && sorted[last].volume == volume
        invariant forall j :: last < j < i ==> sorted[j].volume != volume
      {
        if sorted[i].volume == volume {
          r := Some(sorted[i].id);
          last := i;
        }
      }
      if last == -1 {
        assert Of(snapshots, volume) == {};
      } else {
        assert sorted[last] in Of(snapshots, volume);
        forall y | y in Of(snapshots, volume)
          ensures SortKey(y, !mostRecent) <= SortKey(sorted[last], !mostRecent)
        {
          var j :| 0 <= j < |sorted| && sorted[j] == y;
          OrderedAt(sorted, !mostRecent, j, last);
        }
        assert Extreme(sorted[last], Of(snapshots, volume), mostRecent);
      }
    }

    method DeleteSnapshot(id: string)
      modifies this
      ensures snapshots == Minus(old(snapshots), set x | x in old(snapshots) && x.id == id)
    {
      var dead := set x | x in snapshots && x.id == id;
      snapshots := Minus(snapshots, dead);
    }

    method Prune(volume: string, keep: nat)
      requires DistinctIds(snapshots)
      modifies this
      ensures Pruned(old(snapshots), snapshots, volume, keep) && DistinctIds(snapshots)
    {
      ghost var before := snapshots;
      var sorted := Sort(snapshots, true);
      SortKeepsDistinct(sorted, snapshots);
      var oldSnapshots := Select(sorted, volume);
      assert Elems(oldSnapshots) == Of(before, volume) by { SameMembers(sorted, before); }
      if |oldSnapshots| > keep {
        assert forall x :: x in oldSnapshots[keep..] ==> x in Elems(oldSnapshots);
        DeleteAll(oldSnapshots[keep..]);
      } else {
        assert Elems(oldSnapshots[|oldSnapshots|..]) == {};
        NothingDead(snapshots);
      }
      PruneDone(before, oldSnapshots, snapshots, volume, keep);
    }

    /** The loop of prune that picks the volume's snapshots from the sorted list. */
    static method Select(sorted: seq<Snapshot>, volume: string) returns (ours: seq<Snapshot>)
      requires DistinctIds(sorted) && Ordered(sorted, true)
      ensures Elems(ours) == Of(sorted, volume) && DistinctIds(ours)
      ensures forall k, l :: 0 <= k < l < |ours| ==> ours[k].startedAt >= ours[l].startedAt
    {
      ours := [];
      ghost var at: seq<nat> := [];
      for i := 0 to |sorted|
        invariant |at| == |ours|
        invariant forall k :: 0 <= k < |at| ==> at[k] < i && sorted[at[k]] == ours[k]
        invariant forall k, l :: 0 <= k < l < |at| ==> at[k] < at[l]
        invariant forall x :: x in ours <==> x in sorted[..i] && x.volume == volume
      {
        assert sorted[..i + 1] == sorted[..i] + [sorted[i]];
        if sorted[i].volume == volume {
          ours := ours + [sorted[i]];
          at := at + [i];
        }
      }
      assert sorted[..|sorted|] == sorted;
      forall k, l | 0 <= k < l < |ours| ensures ours[k].startedAt >= ours[l].startedAt {
        OrderedAt(sorted, true, at[k], at[l]);
      }
    }

    /** The deletions of one prune, one request each. */
    method DeleteAll(dead: seq<Snapshot>)
      requires DistinctIds(snapshots) && forall x :: x in dead ==> x in snapshots
      requires DistinctIds(dead)
      modifies this
      ensures snapshots == Minus(old(snapshots), Elems(dead))
    {
      NothingDead(snapshots);
      assert Elems(dead[..0]) == {};
      for j := 0 to |dead|
        invariant snapshots == Minus(old(snapshots), Elems(dead[..j]))
      {
        assert dead[j] in dead;
        DeleteSnapshot(dead[j].id);
        DeleteStep(old(snapshots), dead, j);
      }
      assert dead[..|dead|] == dead;
    }
  }

  // ----- what the two operations mean together -----

  lemma PruneTouchesNoOther(before: seq<Snapshot>, after: seq<Snapshot>, volume: string, keep: nat, other: string)
    requires Pruned(before, after, volume, keep) && other != volume
    ensures Of(after, other) == Of(before, other)
  {
    MinusMembers(before, Of(before, volume) - Of(after, volume));
  }

  lemma {:induction false} SomeExtreme(all: set<Snapshot>, mostRecent: bool)
    requires all != {}
    ensures exists x :: x in all && Extreme(x, all, mostRecent)
  {
    var x :| x in all;
    var rest := all - {x};
    if rest == {} {
      assert all == {x};
      assert Extreme(x, all, mostRecent);
    } else {
      SomeExtreme(rest, mostRecent);
      var y :| y in rest && Extreme(y, rest, mostRecent);
      assert Extreme(x, all, mostRecent) || Extreme(y, all, mostRecent);
    }
  }

  /** What an answer is, spelled out. */
  lemma AnswerIs(s: seq<Snapshot>, volume: string, mostRecent: bool, r: Option<string>)
    requires IsAnswer(s, volume, mostRecent, r)
    ensures r.None? <==> forall y :: y in s ==> y.volume != volume
    ensures r.Some? ==>
              exists x ::
                && x in s && x.volume == volume && x.id == r.value
                && forall y :: y in s && y.volume == volume ==>
                     if mostRecent then y.startedAt <= x.startedAt else y.startedAt >= x.startedAt
  {
    assert forall y :: y in Of(s, volume) <==> y in s && y.volume == volume;
  }

  ghost predicate TiedNewest(all: set<Snapshot>) {
    exists x, y :: x in all && y in all && x != y && Extreme(x, all, true) && Extreme(y, all, true)
  }

  /** The newest snapshot of the volume is as new after a prune as before, and it is one of the old ones. */
  lemma NewestStays(before: seq<Snapshot>, after: seq<Snapshot>, volume: string, keep: nat, x: Snapshot)
    requires Pruned(before, after, volume, keep) && keep >= 1
    requires x in Of(after, volume) && Extreme(x, Of(after, volume), true)
    ensures x in Of(before, volume) && Extreme(x, Of(before, volume), true)
  {
  }

  lemma IdsTell(s: seq<Snapshot>, x: Snapshot, y: Snapshot)
    requires DistinctIds(s) && x in s && y in s && x.id == y.id
    ensures x == y
  {
  }

  /**
   * Keeping at least one, prune never changes what find_snapshot_id finds as the most recent snapshot, whatever
   * order the sort gives equal times, exactly if no two of the volume's snapshots tie for newest.
   */
  lemma AnswerKeptExactly(before: seq<Snapshot>, after: seq<Snapshot>, volume: string, keep: nat)
    requires DistinctIds(before) && Pruned(before, after, volume, keep) && keep >= 1
    ensures (forall r, q :: IsAnswer(before, volume, true, r) && IsAnswer(after, volume, true, q) ==> r == q) <==>
            !TiedNewest(Of(before, volume))
  {
    var all, kept := Of(before, volume), Of(after, volume);
    if all != {} {
      assert kept != {} by { assert |kept| >= 1; }
      SomeExtreme(kept, true);
      var z :| z in kept && Extreme(z, kept, true);
      NewestStays(before, after, volume, keep, z);
      if TiedNewest(all) {
        var x, y :| x in all && y in all && x != y && Extreme(x, all, true) && Extreme(y, all, true);
        var w := if x == z then y else x;
        if w.id == z.id { IdsTell(before, w, z); }
        assert IsAnswer(before, volume, true, Some(w.id)) && IsAnswer(after, volume, true, Some(z.id));
      } else {
        forall r, q | IsAnswer(before, volume, true, r) && IsAnswer(after, volume, true, q) ensures r == q {
          var x :| x in all && x.id == r.value && Extreme(x, all, true);
          var y :| y in kept && y.id == q.value && Extreme(y, kept, true);
          NewestStays(before, after, volume, keep, y);
        }
      }
    }
  }

  /** One round of backup: a new snapshot, then a prune. */
  ghost predicate Round(s: seq<Snapshot>, x: Snapshot, t: seq<Snapshot>, volume: string, keep: nat) {
    x.volume == volume && DistinctIds(s + [x]) && Pruned(s + [x], t, volume, keep)
  }

  function Latest(history: seq<Snapshot>, keep: nat): seq<Snapshot> {
    history[|history| - Min(keep, |history|)..]
  }

  ghost predicate Increasing(history: seq<Snapshot>) {
    forall i, j :: 0 <= i < j < |history| ==> history[i].startedAt < history[j].startedAt
  }

  lemma {:induction false} IncreasingDistinct(h: seq<Snapshot>)
    requires Increasing(h)
    ensures |Elems(h)| == |h|
  {
    if h == [] {
    } else {
      var rest := h[1..];
      IncreasingDistinct(rest);
      assert h[0] !in rest;
      assert Elems(h) == {h[0]} + Elems(rest);
    }
  }

  lemma OfAppend(s: seq<Snapshot>, x: Snapshot, volume: string, l: seq<Snapshot>)
    requires x.volume == volume && Of(s, volume) == Elems(l)
    ensures Of(s + [x], volume) == Elems(l + [x])
  {
    forall y ensures y in Of(s + [x], volume) <==> y in Elems(l + [x]) {
      assert y in Of(s, volume) <==> y in Elems(l);
      assert y in s + [x] <==> y in s || y == x;
      assert y in l + [x] <==> y in l || y == x;
    }
  }

  lemma LatestAppend(h: seq<Snapshot>, x: Snapshot, keep: nat)
    requires Increasing(h + [x])
    ensures Increasing(Latest(h, keep) + [x]) && Latest(Latest(h, keep) + [x], keep) == Latest(h + [x], keep)
  {
    assert Latest(h, keep) + [x] == (h + [x])[|h| - Min(keep, |h|)..];
  }

  lemma RoundKeepsLatest(s: seq<Snapshot>, h: seq<Snapshot>, x: Snapshot, t: seq<Snapshot>, volume: string, keep: nat)
    requires Increasing(h + [x]) && Of(s, volume) == Elems(h) && Round(s, x, t, volume, keep)
    ensures Of(t, volume) == Elems(Latest(h + [x], keep))
  {
    OfAppend(s, x, volume, h);
    IncreasingDistinct(h + [x]);
    NewestAreLatest(h + [x], Of(t, volume), keep);
  }

  lemma Same(a: set<Snapshot>, b: set<Snapshot>)
    requires a <= b && |a| == |b|
    ensures a == b
  {
    assert |b - a| == 0;
  }

  lemma AtMost(a: set<Snapshot>, b: set<Snapshot>)
    requires a <= b
    ensures |a| <= |b|
  {
    assert |b - a| == |b| - |a|;
  }

  /** As many as `keep` allows, none older than one left out, from a sequence in order of time are its last ones. */
  lemma NewestAreLatest(l: seq<Snapshot>, kept: set<Snapshot>, keep: nat)
    requires Increasing(l) && kept <= Elems(l) && |kept| == Min(keep, |l|)
    requires forall x, y :: x in kept && y in Elems(l) - kept ==> x.startedAt >= y.startedAt
    ensures kept == Elems(Latest(l, keep))
  {
    var first := |l| - Min(keep, |l|);
    forall j | first <= j < |l| ensures l[j] in kept {
      if l[j] !in kept {
        assert l[j] in Elems(l) - kept;
        forall x | x in kept ensures x in Elems(l[j + 1..]) {
          var i :| 0 <= i < |l| && l[i] == x;
          assert x == l[j + 1..][i - (j + 1)];
        }
        IncreasingDistinct(l[j + 1..]);
        AtMost(kept, Elems(l[j + 1..]));
      }
    }
    IncreasingDistinct(l[first..]);
    Same(Elems(l[first..]), kept);
  }

  /** Rounds that add history[m], history[m + 1], ... to a volume that has the first m snapshots of the history. */
  ghost predicate Rotation(states: seq<seq<Snapshot>>, history: seq<Snapshot>, m: nat, volume: string, keep: nat) {
    && m <= |history| && |states| == |history| - m + 1 && Increasing(history)
    && Of(states[0], volume) == Elems(history[..m])
    && forall i :: 0 <= i < |history| - m ==> Round(states[i], history[m + i], states[i + 1], volume, keep)
  }

  /** What it should have after k rounds: what it started with, and from the first round on the latest `keep` so far. */
  function After(history: seq<Snapshot>, m: nat, keep: nat, k: nat): seq<Snapshot>
    requires m + k <= |history|
  {
    if k == 0 then history[..m] else Latest(history[..m + k], keep)
  }

  lemma AfterNext(history: seq<Snapshot>, m: nat, keep: nat, k: nat, l: seq<Snapshot>)
    requires Increasing(history) && m + k < |history| && l == After(history, m, keep, k) + [history[m + k]]
    ensures Increasing(l) && Latest(l, keep) == After(history, m, keep, k + 1)
  {
    var h, x := history[..m + k], history[m + k];
    assert history[..m + k + 1] == h + [x];
    if k > 0 { LatestAppend(h, x, keep); }
  }

  lemma RotationStep(states: seq<seq<Snapshot>>, history: seq<Snapshot>, m: nat, volume: string, keep: nat, k: nat,
                     s: seq<Snapshot>, t: seq<Snapshot>, l: seq<Snapshot>, next: seq<Snapshot>)
    requires Rotation(states, history, m, volume, keep) && k + 1 < |states| && s == states[k] && t == states[k + 1]
    requires l == After(history, m, keep, k) && next == After(history, m, keep, k + 1) && Of(s, volume) == Elems(l)
    ensures Of(t, volume) == Elems(next)
  {
    var x := history[m + k];
    assert Round(s, x, t, volume, keep);
    AfterNext(history, m, keep, k, l + [x]);
    RoundKeepsLatest(s, l, x, t, volume, keep);
  }

  /**
   * Backing up and pruning round after round, whatever snapshots were there at the start: after every round the
   * volume has exactly its latest `keep` snapshots.
   */
  lemma {:induction false} RotationKeepsLatest(states: seq<seq<Snapshot>>, history: seq<Snapshot>, m: nat,
                                               volume: string, keep: nat, k: nat, now: seq<Snapshot>)
    requires Rotation(states, history, m, volume, keep) && k < |states| && now == After(history, m, keep, k)
    ensures Of(states[k], volume) == Elems(now)
  {
    if k == 0 {
    } else {
      var l := After(history, m, keep, k - 1);
      RotationKeepsLatest(states, history, m, volume, keep, k - 1, l);
      RotationStep(states, history, m, volume, keep, k - 1, states[k - 1], states[k], l, now);
    }
  }
}
