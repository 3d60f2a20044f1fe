/** Whole runs of the OSD recipe: how often each device is prepared, and when all are deployed. */
module Deployment {
  import opened Journals

  /** An entry of node['ceph']['osd_devices']; `deployed` is its status attribute. */
  datatype Device = Device(osd: Osd, deployed: bool)

  /**
   * How one device fares in one run. With DiesUnsaved the run ends after ceph-disk-prepare and before the status is
   * saved; with ActivateFails it ends after that.
   */
  datatype Result = Succeeds | PrepareFails | DiesUnsaved | ActivateFails

  /** The disks, the saved device list, and the positions ceph-disk-prepare has succeeded on so far. */
  datatype Node = Node(disks: seq<Disk>, devices: seq<Device>, prepared: seq<nat>)

  function Listed(osds: seq<Osd>): (devices: seq<Device>)
    ensures |devices| == |osds|
    ensures forall i :: 0 <= i < |osds| ==> devices[i] == Device(osds[i], false)
  {
    seq(|osds|, i requires 0 <= i < |osds| => Device(osds[i], false))
  }

  /** The device list is worked out only when none is saved; false when the run dies on the way. */
  function WithList(n: Node, journal: int, stop: Stop): (Node, bool) {
    if n.devices != [] then (n, true)
    else (n.(disks := Left(n.disks, journal, stop), devices := Listed(Saved(n.disks, journal, stop))),
          !Stops(n.disks, stop))
  }

  /** Prepared, with nothing saved of it. */
  function Touched(n: Node, i: nat): Node {
    n.(prepared := n.prepared + [i])
  }

  function Marked(n: Node, i: nat): Node
    requires i < |n.devices|
  {
    Touched(n, i).(devices := n.devices[i := n.devices[i].(deployed := true)])
  }

  /** The deployment loop from device i on; a failing command or a death ends the run (false). */
  function Deployed(n: Node, results: nat -> Result, i: nat): (Node, bool)
    requires i <= |n.devices|
    decreases |n.devices| - i
  {
    if i == |n.devices| then (n, true)
    else if n.devices[i].deployed then Deployed(n, results, i + 1)
    else if results(i).PrepareFails? then (n, false)
    else if results(i).DiesUnsaved? then (Touched(n, i), false)
    else
      var m := Marked(n, i);
      if results(i).ActivateFails? then (m, false) else Deployed(m, results, i + 1)
  }

  /** One attempt to run the recipe: where its planning dies, if it plans, and how each device fares. */
  datatype Attempt = Attempt(stop: Stop, results: nat -> Result)

  function Converged(n: Node, journal: int, attempt: Attempt): (Node, bool) {
    var (a, ok) := WithList(n, journal, attempt.stop);
    if !ok then (a, false) else Deployed(a, attempt.results, 0)
  }

  class OsdNode {
    const host: Host
    var devices: seq<Device>
    var prepared: seq<nat>

    ghost function Value(): Node
      reads this, host
    {
      Node(host.disks, devices, prepared)
    }

    constructor (host: Host, devices: seq<Device>)
      ensures this.host == host && this.devices == devices && prepared == []
    {
      this.host, this.devices, this.prepared := host, devices, [];
    }

    method Converge(attempt: Attempt) returns (ok: bool)
      requires host.journal > 0
      modifies this, host
      ensures (Value(), ok) == Converged(old(Value()), host.journal, attempt)
    {
      var results := attempt.results;
      if devices == [] {
        var saved, finished := host.AssignJournals(attempt.stop);
        devices := Listed(saved);
        if !finished {
          return false;
        }
      }
      ghost var n := Value();
      for i := 0 to |devices|
        invariant host.disks == n.disks && |devices| == |n.devices|
        invariant Deployed(Value(), results, i) == Deployed(n, results, 0)
      {
        if devices[i].deployed {
          continue;
        }
        if results(i).PrepareFails? {
          return false;
        }
        prepared := prepared + [i];
        if results(i).DiesUnsaved? {
          return false;
        }
        devices := devices[i := devices[i].(deployed := true)];
        if results(i).ActivateFails? {
          return false;
        }
      }
      return true;
    }
  }

  // ----- one run -----

  ghost predicate Inv(n: Node) {
    && (n.devices == [] ==> n.prepared == [])
    && forall i :: i in n.prepared ==> i < |n.devices|
  }

  predicate DeployedAt(devices: seq<Device>, i: nat) {
    i < |devices| && devices[i].deployed
  }

  /** What a run does to a node: it prepares devices and marks some as deployed, and nothing else changes. */
  ghost predicate Advanced(n: Node, m: Node) {
    && m.disks == n.disks && |m.devices| == |n.devices| && n.prepared <= m.prepared
    && forall i :: 0 <= i < |n.devices| ==>
         m.devices[i].osd == n.devices[i].osd && (n.devices[i].deployed ==> m.devices[i].deployed)
  }

  lemma MarkAdvances(n: Node, i: nat)
    requires Inv(n) && i < |n.devices|
    ensures Inv(Touched(n, i)) && Advanced(n, Touched(n, i))
    ensures Inv(Marked(n, i)) && Advanced(n, Marked(n, i))
  {
  }

  lemma AdvancesOn(n: Node, m: Node, k: Node)
    requires Advanced(n, m) && Advanced(m, k)
    ensures Advanced(n, k)
  {
  }

  lemma {:induction false} DeployAdvances(n: Node, results: nat -> Result, i: nat)
    requires Inv(n) && i <= |n.devices|
    ensures var (m, ok) := Deployed(n, results, i);
            && Inv(m) && Advanced(n, m)
            && (ok ==> forall j :: i <= j < |n.devices| ==> m.devices[j].deployed)
    decreases |n.devices| - i
  {
    if i == |n.devices| {
    } else if n.devices[i].deployed {
      DeployAdvances(n, results, i + 1);
    } else {
      var m := Marked(n, i);
      MarkAdvances(n, i);
      if results(i).Succeeds? {
        DeployAdvances(m, results, i + 1);
        AdvancesOn(n, m, Deployed(m, results, i + 1).0);
      }
    }
  }

  lemma {:induction false} AllDeployedStays(n: Node, results: nat -> Result, i: nat)
    requires i <= |n.devices| && forall j :: i <= j < |n.devices| ==> n.devices[j].deployed
    ensures Deployed(n, results, i) == (n, true)
    decreases |n.devices| - i
  {
    if i == |n.devices| {
    } else {
      AllDeployedStays(n, results, i + 1);
    }
  }

  function Times(prepared: seq<nat>, i: nat): nat {
    multiset(prepared)[i]
  }

  /** A loop from device k on gets to device i and dies between preparing it and saving that. */
  ghost predicate DiesFrom(devices: seq<Device>, results: nat -> Result, k: nat, i: nat) {
    && k <= i < |devices| && !devices[i].deployed && results(i).DiesUnsaved?
    && forall j :: k <= j < i ==> devices[j].deployed || results(j).Succeeds?
  }

  lemma TouchedTimes(prepared: seq<nat>, k: nat, i: nat)
    ensures Times(prepared + [k], i) == Times(prepared, i) + if i == k then 1 else 0
  {
  }

  lemma MarkedDies(devices: seq<Device>, results: nat -> Result, k: nat, i: nat, more: seq<Device>)
    requires k < |devices| && more == devices[k := devices[k].(deployed := true)]
    requires !devices[k].deployed && results(k).Succeeds?
    ensures DiesFrom(more, results, k + 1, i) <==> DiesFrom(devices, results, k, i)
  {
  }

  /** One run prepares a device when it marks it as deployed or dies just before. */
  lemma {:induction false} DeployCounts(n: Node, results: nat -> Result, k: nat, i: nat, m: Node)
    requires k <= |n.devices| && m == Deployed(n, results, k).0
    ensures |m.devices| == |n.devices| && (DeployedAt(n.devices, i) ==> DeployedAt(m.devices, i))
    ensures Times(m.prepared, i) == Times(n.prepared, i)
              + (if DeployedAt(m.devices, i) && !DeployedAt(n.devices, i) then 1 else 0)
              + (if DiesFrom(n.devices, results, k, i) then 1 else 0)
    decreases |n.devices| - k
  {
    if k == |n.devices| {
    } else if n.devices[k].deployed {
      DeployCounts(n, results, k + 1, i, m);
    } else {
      TouchedTimes(n.prepared, k, i);
      if results(k).Succeeds? {
        MarkedDies(n.devices, results, k, i, Marked(n, k).devices);
        DeployCounts(Marked(n, k), results, k + 1, i, m);
      }
    }
  }

  /** A loop from device k on gets as far as device i: everything before was deployed or succeeds. */
  ghost predicate GetsTo(devices: seq<Device>, results: nat -> Result, k: nat, i: nat) {
    i <= |devices| && forall j :: k <= j < i ==> devices[j].deployed || results(j).Succeeds?
  }

  /**
   * What one loop does to device i: it is prepared if the loop gets to it undeployed and ceph-disk-prepare works, and
   * marked unless the run dies before that. The loop finishes exactly if every undeployed device succeeds.
   */
  lemma {:induction false} LoopExactly(n: Node, results: nat -> Result, k: nat, i: nat, m: Node, ok: bool)
    requires k <= i < |n.devices| && (m, ok) == Deployed(n, results, k)
    ensures m.disks == n.disks && |m.devices| == |n.devices| && m.devices[i].osd == n.devices[i].osd
    ensures m.devices[i].deployed <==>
            || n.devices[i].deployed
            || (GetsTo(n.devices, results, k, i) && (results(i).Succeeds? || results(i).ActivateFails?))
    ensures Times(m.prepared, i) == Times(n.prepared, i) +
              if !n.devices[i].deployed && GetsTo(n.devices, results, k, i) && !results(i).PrepareFails? then 1 else 0
    ensures ok <==> GetsTo(n.devices, results, k, |n.devices|)
    decreases |n.devices| - k
  {
    LoopKeeps(n, results, k, m);
    if k == i {
      LoopAt(n, results, k, m, ok);
    } else if n.devices[k].deployed {
      LoopExactly(n, results, k + 1, i, m, ok);
    } else {
      TouchedTimes(n.prepared, k, i);
      if results(k).Succeeds? {
        var p := Marked(n, k);
        MarkedGetsTo(n.devices, results, k, i, p.devices);
        MarkedGetsTo(n.devices, results, k, |n.devices|, p.devices);
        LoopExactly(p, results, k + 1, i, m, ok);
      }
    }
  }

  lemma LoopAt(n: Node, results: nat -> Result, k: nat, m: Node, ok: bool)
    requires k < |n.devices| && (m, ok) == Deployed(n, results, k)
    ensures |m.devices| == |n.devices|
    ensures m.devices[k].deployed <==> n.devices[k].deployed || results(k).Succeeds? || results(k).ActivateFails?
    ensures Times(m.prepared, k) == Times(n.prepared, k) +
              if !n.devices[k].deployed && !results(k).PrepareFails? then 1 else 0
    ensures ok <==> GetsTo(n.devices, results, k, |n.devices|)
  {
    TouchedTimes(n.prepared, k, k);
    if n.devices[k].deployed {
      LoopBelow(n, results, k + 1, k, m, ok);
    } else if results(k).Succeeds? {
      MarkedGetsTo(n.devices, results, k, |n.devices|, Marked(n, k).devices);
      LoopBelow(Marked(n, k), results, k + 1, k, m, ok);
    }
  }

  lemma MarkedGetsTo(devices: seq<Device>, results: nat -> Result, k: nat, i: nat, more: seq<Device>)
    requires k < |devices| && more == devices[k := devices[k].(deployed := true)] && results(k).Succeeds?
    ensures GetsTo(more, results, k + 1, i) <==> GetsTo(devices, results, k, i)
  {
  }

  lemma {:induction false} LoopKeeps(n: Node, results: nat -> Result, k: nat, m: Node)
    requires k <= |n.devices| && m == Deployed(n, results, k).0
    ensures m.disks == n.disks && |m.devices| == |n.devices|
    ensures forall i :: 0 <= i < |n.devices| ==> m.devices[i].osd == n.devices[i].osd
    decreases |n.devices| - k
  {
    if k == |n.devices| {
    } else if n.devices[k].deployed {
      LoopKeeps(n, results, k + 1, m);
    } else if results(k).Succeeds? {
      LoopKeeps(Marked(n, k), results, k + 1, m);
    }
  }

  /** A loop leaves the devices before it alone. */
  lemma {:induction false} LoopBelow(n: Node, results: nat -> Result, k: nat, i: nat, m: Node, ok: bool)
    requires i < k <= |n.devices| && (m, ok) == Deployed(n, results, k)
    ensures |m.devices| == |n.devices| && m.devices[i] == n.devices[i] && Times(m.prepared, i) == Times(n.prepared, i)
    ensures ok <==> GetsTo(n.devices, results, k, |n.devices|)
    decreases |n.devices| - k
  {
    if k == |n.devices| {
    } else if n.devices[k].deployed {
      LoopBelow(n, results, k + 1, i, m, ok);
    } else {
      TouchedTimes(n.prepared, k, i);
      if results(k).Succeeds? {
        MarkedGetsTo(n.devices, results, k, |n.devices|, Marked(n, k).devices);
        LoopBelow(Marked(n, k), results, k + 1, i, m, ok);
      }
    }
  }

  // ----- any number of runs -----

  function Runs(n: Node, journal: int, runs: seq<Attempt>): Node
    decreases |runs|
  {
    if runs == [] then n else Converged(Runs(n, journal, runs[..|runs| - 1]), journal, runs[|runs| - 1]).0
  }

  /** This run dies at device i, prepared and not saved. */
  ghost predicate DiesAt(n: Node, journal: int, attempt: Attempt, i: nat) {
    var (a, ok) := WithList(n, journal, attempt.stop);
    ok && DiesFrom(a.devices, attempt.results, 0, i)
  }

  ghost function Deaths(n: Node, journal: int, runs: seq<Attempt>, i: nat): nat
    decreases |runs|
  {
    if runs == [] then 0
    else
      var init := runs[..|runs| - 1];
      Deaths(n, journal, init, i) + if DiesAt(Runs(n, journal, init), journal, runs[|runs| - 1], i) then 1 else 0
  }

  lemma ConvergeCounts(n: Node, journal: int, attempt: Attempt, i: nat, m: Node)
    requires m == Converged(n, journal, attempt).0
    ensures DeployedAt(n.devices, i) ==> DeployedAt(m.devices, i)
    ensures Times(m.prepared, i) == Times(n.prepared, i)
              + (if DeployedAt(m.devices, i) && !DeployedAt(n.devices, i) then 1 else 0)
              + (if DiesAt(n, journal, attempt, i) then 1 else 0)
  {
    var (a, ok) := WithList(n, journal, attempt.stop);
    if ok {
      DeployCounts(a, attempt.results, 0, i, m);
    }
  }

  /**
   * Over any number of runs, however they end, a device has been prepared once if it became deployed, and once more
   * for each run that died between preparing it and saving that; none that came deployed is prepared at all.
   */
  lemma {:induction false} PreparedExactly(n: Node, journal: int, runs: seq<Attempt>, i: nat, m: Node)
    requires n.prepared == [] && m == Runs(n, journal, runs)
    ensures Times(m.prepared, i) == Deaths(n, journal, runs, i)
              + if DeployedAt(m.devices, i) && !DeployedAt(n.devices, i) then 1 else 0
    ensures DeployedAt(n.devices, i) ==> DeployedAt(m.devices, i) && Times(m.prepared, i) == 0
    decreases |runs|
  {
    if runs == [] {
    } else {
      var init := runs[..|runs| - 1];
      PreparedExactly(n, journal, init, i, Runs(n, journal, init));
      ConvergeCounts(Runs(n, journal, init), journal, runs[|runs| - 1], i, m);
      if DeployedAt(n.devices, i) {
        NoDeath(Runs(n, journal, init), journal, runs[|runs| - 1], i);
      }
    }
  }

  lemma NoDeath(n: Node, journal: int, attempt: Attempt, i: nat)
    requires DeployedAt(n.devices, i)
    ensures !DiesAt(n, journal, attempt, i)
  {
  }

  /** A device is prepared at most once exactly if no run died so at it, or one did and it is not deployed yet. */
  lemma PreparedAtMostOnce(n: Node, journal: int, runs: seq<Attempt>, i: nat, m: Node)
    requires n.prepared == [] && m == Runs(n, journal, runs)
    ensures Times(m.prepared, i) <= 1 <==>
            || Deaths(n, journal, runs, i) == 0
            || (Deaths(n, journal, runs, i) == 1 && !DeployedAt(m.devices, i))
  {
    PreparedExactly(n, journal, runs, i, m);
  }

  /** So it can be prepared again: one run dies at the first device, and the next one succeeds. */
  lemma PreparedTwice(n: Node, journal: int, first: Attempt, second: Attempt)
    requires n.prepared == [] && n.devices != [] && !n.devices[0].deployed
    requires first.results(0).DiesUnsaved? && second.results(0).Succeeds?
    ensures Times(Runs(n, journal, [first, second]).prepared, 0) == 2
  {
    var runs, m := [first, second], Runs(n, journal, [first, second]);
    assert runs[..1] == [first] && [first][..0] == [];
    var p := Runs(n, journal, [first]);
    assert Runs(n, journal, []) == n;
    assert p == Deployed(n, first.results, 0).0 == Touched(n, 0);
    ConvergeCounts(n, journal, first, 0, p);
    DeployAdvances(Marked(p, 0), second.results, 1);
    assert DeployedAt(m.devices, 0);
    ConvergeCounts(p, journal, second, 0, m);
  }

  lemma {:induction false} RunsKeepInv(n: Node, journal: int, runs: seq<Attempt>)
    requires Inv(n)
    ensures Inv(Runs(n, journal, runs))
    decreases |runs|
  {
    if runs == [] {
    } else {
      var p, last := Runs(n, journal, runs[..|runs| - 1]), runs[|runs| - 1];
      RunsKeepInv(n, journal, runs[..|runs| - 1]);
      var (a, ok) := WithList(p, journal, last.stop);
      if ok { DeployAdvances(a, last.results, 0); }
    }
  }

  /** After a run that finishes every device is deployed, and no further run changes a list with a device in it. */
  lemma FinishedRunDeploysAll(n: Node, journal: int, runs: seq<Attempt>, last: Attempt, next: Attempt)
    requires Inv(n) && Converged(Runs(n, journal, runs), journal, last).1
    ensures var m := Converged(Runs(n, journal, runs), journal, last).0;
            && (forall i :: 0 <= i < |m.devices| ==> m.devices[i].deployed)
            && (m.devices != [] ==> Converged(m, journal, next) == (m, true))
  {
    RunsKeepInv(n, journal, runs);
    var a := WithList(Runs(n, journal, runs), journal, last.stop).0;
    DeployAdvances(a, last.results, 0);
    AllDeployedStays(Deployed(a, last.results, 0).0, next.results, 0);
  }
}
