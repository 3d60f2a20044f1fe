/** What is left on the disks when runs of the OSD recipe die while they plan, and which list is kept. */
module Planning {
  import opened Journals
  import opened JournalBounds
  import opened Deployment

  function OsdsOf(devices: seq<Device>): (osds: seq<Osd>)
    ensures |osds| == |devices|
    ensures forall i :: 0 <= i < |osds| ==> osds[i] == devices[i].osd
  {
    seq(|devices|, i requires 0 <= i < |devices| => devices[i].osd)
  }

  /** Deploying changes neither the disks nor what the list says of each device. */
  lemma ConvergePlans(n: Node, journal: int, attempt: Attempt)
    requires Inv(n)
    ensures var m := Converged(n, journal, attempt).0;
            && Inv(m)
            && if n.devices != [] then m.disks == n.disks && OsdsOf(m.devices) == OsdsOf(n.devices)
               else m.disks == Left(n.disks, journal, attempt.stop)
                    && OsdsOf(m.devices) == Saved(n.disks, journal, attempt.stop)
  {
    var (a, ok) := WithList(n, journal, attempt.stop);
    assert n.devices == [] ==> OsdsOf(a.devices) == Saved(n.disks, journal, attempt.stop);
    if ok {
      DeployAdvances(a, attempt.results, 0);
      assert OsdsOf(Deployed(a, attempt.results, 0).0.devices) == OsdsOf(a.devices);
    }
  }

  /** Once a list with a device in it is saved, no later run changes the list or carves anything. */
  lemma {:induction false} SavedListIsFinal(n: Node, journal: int, runs: seq<Attempt>, k: nat)
    requires Inv(n) && k <= |runs| && Runs(n, journal, runs[..k]).devices != []
    ensures OsdsOf(Runs(n, journal, runs).devices) == OsdsOf(Runs(n, journal, runs[..k]).devices)
    ensures Runs(n, journal, runs).disks == Runs(n, journal, runs[..k]).disks
    decreases |runs|
  {
    if k == |runs| {
      assert runs[..k] == runs;
    } else {
      var init := runs[..|runs| - 1];
      assert init[..k] == runs[..k];
      SavedListIsFinal(n, journal, init, k);
      RunsKeepInv(n, journal, init);
      ConvergePlans(Runs(n, journal, init), journal, runs[|runs| - 1]);
    }
  }

  /** Run k found no list, and node `m` has the list and the disks that this run left. */
  ghost predicate PlannedBy(n: Node, journal: int, runs: seq<Attempt>, k: nat, m: Node) {
    && k < |runs| && Runs(n, journal, runs[..k]).devices == [] && m.devices != []
    && OsdsOf(m.devices) == Saved(Runs(n, journal, runs[..k]).disks, journal, runs[k].stop)
    && m.disks == Left(Runs(n, journal, runs[..k]).disks, journal, runs[k].stop)
  }

  /**
   * The list of any later time is what one run had saved when it finished or died: a prefix of its walk, over
   * the disks as that run found them, for good.
   */
  lemma {:induction false} SavedListIsAPrefix(n: Node, journal: int, runs: seq<Attempt>, m: Node)
    requires Inv(n) && n.devices == [] && m == Runs(n, journal, runs) && m.devices != []
    ensures exists k: nat :: PlannedBy(n, journal, runs, k, m)
    decreases |runs|
  {
    var last := |runs| - 1;
    var init := runs[..last];
    var p := Runs(n, journal, init);
    RunsKeepInv(n, journal, init);
    ConvergePlans(p, journal, runs[last]);
    if p.devices == [] {
      assert PlannedBy(n, journal, runs, last, m);
    } else {
      SavedListIsAPrefix(n, journal, init, p);
      var k: nat :| PlannedBy(n, journal, init, k, p);
      assert init[..k] == runs[..k] && init[k] == runs[k];
      assert PlannedBy(n, journal, runs, k, m);
    }
  }

  // ----- which devices are on the list, by the disks as found and by where the runs die -----

  /** How many block devices a walk gets through. */
  function Reach(disks: seq<Disk>, stop: Stop): (k: nat)
    ensures k <= |disks|
  {
    if Stops(disks, stop) then stop.device else |disks|
  }

  /** A run that does not find a list saves one with a device in it: it gets past an eligible disk. */
  predicate Saves(disks: seq<Disk>, attempt: Attempt) {
    EligibleUpTo(disks, Reach(disks, attempt.stop)) != []
  }

  /** No run before run k saves a device. */
  predicate Plans(disks: seq<Disk>, runs: seq<Attempt>, k: nat) {
    k <= |runs| && forall j :: 0 <= j < k ==> !Saves(disks, runs[j])
  }

  predicate FirstSaves(disks: seq<Disk>, runs: seq<Attempt>, k: nat) {
    k < |runs| && Plans(disks, runs, k) && Saves(disks, runs[k])
  }

  lemma SavedDevices(disks: seq<Disk>, journal: int, stop: Stop)
    ensures Devices(Saved(disks, journal, stop)) == EligibleUpTo(disks, Reach(disks, stop))
    ensures |Saved(disks, journal, stop)| == |EligibleUpTo(disks, Reach(disks, stop))|
  {
    SsdsAre(disks);
    var k := Reach(disks, stop);
    WalkVisitsTheEligible(disks, Ssds(disks), journal, k, Walk(disks, Ssds(disks), journal, k));
  }

  lemma LeftGrows(disks: seq<Disk>, journal: int, stop: Stop, now: seq<Disk>)
    requires now == Left(disks, journal, stop)
    ensures AllGrown(disks, now)
  {
    SsdsAre(disks);
    var k := if !Stops(disks, stop) then |disks| else if stop.carved then stop.device + 1 else stop.device;
    WalkGrows(disks, Ssds(disks), journal, k, Walk(disks, Ssds(disks), journal, k));
  }

  lemma {:induction false} EligibleGrown(disks: seq<Disk>, now: seq<Disk>, k: nat)
    requires AllGrown(disks, now) && k <= |disks|
    ensures EligibleUpTo(now, k) == EligibleUpTo(disks, k)
  {
    if k == 0 {
    } else {
      EligibleGrown(disks, now, k - 1);
      EligibleKept(disks[k - 1], now[k - 1]);
    }
  }

  lemma {:induction false} RunsGrow(n: Node, journal: int, runs: seq<Attempt>, m: Node)
    requires Inv(n) && m == Runs(n, journal, runs)
    ensures AllGrown(n.disks, m.disks)
    decreases |runs|
  {
    if runs == [] {
    } else {
      var init, last := runs[..|runs| - 1], runs[|runs| - 1];
      var p := Runs(n, journal, init);
      RunsGrow(n, journal, init, p);
      RunsKeepInv(n, journal, init);
      ConvergeGrows(p, journal, last, m);
      GrowsOn(n.disks, p.disks, m.disks);
    }
  }

  lemma ConvergeGrows(p: Node, journal: int, attempt: Attempt, m: Node)
    requires Inv(p) && m == Converged(p, journal, attempt).0
    ensures AllGrown(p.disks, m.disks)
  {
    ConvergePlans(p, journal, attempt);
    if p.devices == [] {
      LeftGrows(p.disks, journal, attempt.stop, m.disks);
    }
  }

  /** What a run that finds no list saves, on the disks as the first run found them. */
  lemma ConvergeSaves(disks: seq<Disk>, p: Node, journal: int, attempt: Attempt, m: Node)
    requires Inv(p) && p.devices == [] && AllGrown(disks, p.disks) && m == Converged(p, journal, attempt).0
    ensures Devices(OsdsOf(m.devices)) == EligibleUpTo(disks, Reach(disks, attempt.stop))
    ensures m.devices != [] <==> Saves(disks, attempt)
  {
    ConvergePlans(p, journal, attempt);
    SavedDevices(p.disks, journal, attempt.stop);
    EligibleGrown(disks, p.disks, Reach(disks, attempt.stop));
  }

  lemma {:induction false} NothingSaved(n: Node, journal: int, runs: seq<Attempt>, m: Node)
    requires Inv(n) && n.devices == [] && m == Runs(n, journal, runs) && Plans(n.disks, runs, |runs|)
    ensures m.devices == []
    decreases |runs|
  {
    if runs == [] {
    } else {
      var init, last := runs[..|runs| - 1], runs[|runs| - 1];
      var p := Runs(n, journal, init);
      NothingSaved(n, journal, init, p);
      RunsKeepInv(n, journal, init);
      RunsGrow(n, journal, init, p);
      ConvergeSaves(n.disks, p, journal, last, m);
    }
  }

  lemma PlansPrefix(disks: seq<Disk>, runs: seq<Attempt>, k: nat)
    requires Plans(disks, runs, k)
    ensures Plans(disks, runs[..k], k)
  {
  }

  /**
   * The first run that gets past an eligible disk decides the list for good: the eligible disks it got past, and
   * whatever is behind the device it died at never becomes an OSD.
   */
  lemma ListIsWhatItReached(n: Node, journal: int, runs: seq<Attempt>, k: nat, m: Node)
    requires Inv(n) && n.devices == [] && FirstSaves(n.disks, runs, k) && m == Runs(n, journal, runs)
    ensures Devices(OsdsOf(m.devices)) == EligibleUpTo(n.disks, Reach(n.disks, runs[k].stop))
    ensures OsdsOf(Runs(n, journal, runs[..k + 1]).devices) == OsdsOf(m.devices)
  {
    var init := runs[..k];
    var p, q := Runs(n, journal, init), Runs(n, journal, runs[..k + 1]);
    assert runs[..k + 1][..k] == init;
    PlansPrefix(n.disks, runs, k);
    NothingSaved(n, journal, init, p);
    RunsKeepInv(n, journal, init);
    RunsGrow(n, journal, init, p);
    ConvergeSaves(n.disks, p, journal, runs[k], q);
    SavedListIsFinal(n, journal, runs, k + 1);
  }

  lemma {:induction false} FirstToSave(disks: seq<Disk>, runs: seq<Attempt>, k: nat) returns (i: nat)
    requires k <= |runs| && !Plans(disks, runs, k)
    ensures FirstSaves(disks, runs, i)
    decreases k
  {
    if Plans(disks, runs, k - 1) {
      i := k - 1;
    } else {
      i := FirstToSave(disks, runs, k - 1);
    }
  }

  predicate NoneEligibleFrom(disks: seq<Disk>, k: nat) {
    forall d :: k <= d < |disks| ==> !Eligible(disks[d])
  }

  lemma {:induction false} EligibleBeyond(disks: seq<Disk>, k: nat, n: nat)
    requires k <= n <= |disks|
    ensures |EligibleUpTo(disks, k)| <= |EligibleUpTo(disks, n)|
    ensures EligibleUpTo(disks, k) == EligibleUpTo(disks, n) <==> forall d :: k <= d < n ==> !Eligible(disks[d])
    ensures EligibleUpTo(disks, k) != EligibleUpTo(disks, n) ==> |EligibleUpTo(disks, k)| < |EligibleUpTo(disks, n)|
    decreases n
  {
    if k == n {
    } else {
      EligibleBeyond(disks, k, n - 1);
    }
  }

  /** Every eligible disk is on the list, in order. */
  predicate AllListed(disks: seq<Disk>, devices: seq<Device>) {
    Devices(OsdsOf(devices)) == EligibleUpTo(disks, |disks|)
  }

  /**
   * Every eligible disk becomes an OSD, after any runs whatever, exactly if there is none, or if the first run that
   * gets past one does not die before the last one.
   */
  lemma AllListedExactly(n: Node, journal: int, runs: seq<Attempt>, m: Node)
    requires Inv(n) && n.devices == [] && m == Runs(n, journal, runs)
    ensures AllListed(n.disks, m.devices) <==>
            || NoneEligibleFrom(n.disks, 0)
            || exists k: nat :: FirstSaves(n.disks, runs, k)
                                && NoneEligibleFrom(n.disks, Reach(n.disks, runs[k].stop))
  {
    EligibleBeyond(n.disks, 0, |n.disks|);
    if Plans(n.disks, runs, |runs|) {
      NothingSaved(n, journal, runs, m);
      assert OsdsOf(m.devices) == [];
    } else {
      var i := FirstToSave(n.disks, runs, |runs|);
      var r := Reach(n.disks, runs[i].stop);
      ListIsWhatItReached(n, journal, runs, i, m);
      EligibleBeyond(n.disks, r, |n.disks|);
      EligibleBeyond(n.disks, 0, r);
      forall k: nat | FirstSaves(n.disks, runs, k) ensures k == i {
      }
    }
  }

  /** An eligible disk left out: the first run dies at the second of two, and no later run puts it on the list. */
  lemma LeftOutForGood(n: Node, journal: int, carved: bool, results: nat -> Result, more: seq<Attempt>)
    requires n.devices == [] && n.prepared == [] && |n.disks| == 2 && Eligible(n.disks[0]) && Eligible(n.disks[1])
    ensures Devices(OsdsOf(Runs(n, journal, [Attempt(At(1, carved), results)] + more).devices)) == [0]
    ensures EligibleUpTo(n.disks, |n.disks|) == [0, 1]
  {
    var runs := [Attempt(At(1, carved), results)] + more;
    assert EligibleUpTo(n.disks, 0) == [];
    assert EligibleUpTo(n.disks, 1) == [0];
    assert FirstSaves(n.disks, runs, 0);
    ListIsWhatItReached(n, journal, runs, 0, Runs(n, journal, runs));
  }

  // ----- the partitions nobody knows of -----

  /** Whether the OSD by which `more` is longer has its journal on disk s. */
  function LastOn(osds: seq<Osd>, more: seq<Osd>, s: nat): nat {
    if |more| > |osds| && more[|osds|].journal.Some? && more[|osds|].journal.value.ssd == s then 1 else 0
  }

  /** Whether this attempt carves a partition on disk s and dies before the list with it is saved. */
  function LeakOf(disks: seq<Disk>, journal: int, stop: Stop, s: nat): nat {
    if !Stops(disks, stop) || !stop.carved then 0
    else
      var p := Walk(disks, Ssds(disks), journal, stop.device);
      LastOn(p.osds, Visit(p, Ssds(disks), journal, stop.device).osds, s)
  }

  function Leaks(n: Node, journal: int, runs: seq<Attempt>, s: nat): nat
    decreases |runs|
  {
    if runs == [] then 0
    else
      var init := runs[..|runs| - 1];
      var p := Runs(n, journal, init);
      Leaks(n, journal, init, s) + if p.devices == [] then LeakOf(p.disks, journal, runs[|runs| - 1].stop, s) else 0
  }

  lemma {:induction false} CarveCarve(d: Disk, journal: int, a: nat, b: nat)
    ensures Carve(Carve(d, journal, a), journal, b) == Carve(d, journal, a + b)
  {
    if b == 0 {
    } else {
      CarveCarve(d, journal, a, b - 1);
    }
  }

  lemma CarveMore(d: Disk, e: Disk, f: Disk, journal: int, a: nat, b: nat, c: nat)
    requires CarvedTimes(d, e, journal, a) && CarvedTimes(e, f, journal, b) && c == a + b
    ensures CarvedTimes(d, f, journal, c)
  {
    CarveCarve(d, journal, a, b);
  }

  lemma VisitLeaks(d: Disk, p: Plan, ssds: seq<nat>, journal: int, n: nat, s: nat, q: Plan, k: nat)
    requires n < |p.disks| && Within(ssds, p.disks) && s < |p.disks| && q == Visit(p, ssds, journal, n)
    requires k == OnDisk(p.osds, s) && CarvedTimes(d, p.disks[s], journal, k)
    ensures CarvedTimes(d, q.disks[s], journal, k + LastOn(p.osds, q.osds, s))
  {
    VisitCarvesOn(d, p, ssds, journal, n, s, q, k, OnDisk(q.osds, s));
    VisitLasts(p, ssds, journal, n, s, q);
  }

  lemma VisitLasts(p: Plan, ssds: seq<nat>, journal: int, n: nat, s: nat, q: Plan)
    requires n < |p.disks| && Within(ssds, p.disks) && q == Visit(p, ssds, journal, n)
    ensures OnDisk(q.osds, s) == OnDisk(p.osds, s) + LastOn(p.osds, q.osds, s)
  {
    VisitAppends(p, ssds, journal, n);
    if Eligible(p.disks[n]) {
      OnDiskAppend(p.osds, q.osds, s);
    }
  }

  /** What a walk leaves behind, with its plan p when it ends or comes to the device it dies at, and q after that. */
  lemma WalkLeaves(disks: seq<Disk>, journal: int, stop: Stop, s: nat, k: nat, p: Plan, q: Plan)
    requires k == if Stops(disks, stop) then stop.device else |disks|
    requires p == Walk(disks, Ssds(disks), journal, k)
    requires q == if Stops(disks, stop) && stop.carved then Visit(p, Ssds(disks), journal, k) else p
    ensures Saved(disks, journal, stop) == p.osds && Left(disks, journal, stop) == q.disks
    ensures LeakOf(disks, journal, stop, s) == LastOn(p.osds, q.osds, s)
  {
  }

  lemma LeakCarves(disks: seq<Disk>, journal: int, s: nat, k: nat, p: Plan, q: Plan, carved: bool, saved: nat)
    requires s < |disks| && k <= |disks| && p == Walk(disks, Ssds(disks), journal, k) && saved == OnDisk(p.osds, s)
    requires carved ==> k < |disks|
    requires q == if carved then Visit(p, Ssds(disks), journal, k) else p
    ensures CarvedTimes(disks[s], q.disks[s], journal, saved + LastOn(p.osds, q.osds, s))
  {
    WalkCarves(disks, Ssds(disks), journal, k, p, s, saved);
    if carved {
      VisitLeaks(disks[s], p, Ssds(disks), journal, k, s, q, saved);
    }
  }

  /** A walk, finished or not, leaves each disk carved once per journal saved and once more for its leak. */
  lemma WalkAccounts(disks: seq<Disk>, journal: int, stop: Stop, s: nat, saved: nat, leak: nat, now: Disk)
    requires s < |disks| && now == Left(disks, journal, stop)[s]
    requires saved == OnDisk(Saved(disks, journal, stop), s) && leak == LeakOf(disks, journal, stop, s)
    ensures CarvedTimes(disks[s], now, journal, saved + leak)
  {
    var k := if Stops(disks, stop) then stop.device else |disks|;
    var carved := Stops(disks, stop) && stop.carved;
    var p := Walk(disks, Ssds(disks), journal, k);
    var q := if carved then Visit(p, Ssds(disks), journal, k) else p;
    WalkLeaves(disks, journal, stop, s, k, p, q);
    LeakCarves(disks, journal, s, k, p, q, carved, saved);
  }

  lemma PlanningAccounts(p: Node, journal: int, attempt: Attempt, m: Node, s: nat, osds: seq<Osd>, leak: nat)
    requires Inv(p) && p.devices == [] && m == Converged(p, journal, attempt).0 && s < |p.disks|
    requires osds == OsdsOf(m.devices) && leak == LeakOf(p.disks, journal, attempt.stop, s)
    ensures |m.disks| == |p.disks| && CarvedTimes(p.disks[s], m.disks[s], journal, OnDisk(osds, s) + leak)
  {
    ConvergePlans(p, journal, attempt);
    WalkAccounts(p.disks, journal, attempt.stop, s, OnDisk(osds, s), leak, m.disks[s]);
  }

  lemma LaterRunLeaves(p: Node, journal: int, attempt: Attempt, m: Node)
    requires Inv(p) && p.devices != [] && m == Converged(p, journal, attempt).0
    ensures m.disks == p.disks && OsdsOf(m.devices) == OsdsOf(p.devices)
  {
    ConvergePlans(p, journal, attempt);
  }

  /** One more run carves disk s once for each journal it adds to the list, and for its leak. */
  lemma RunAccounts(p: Node, journal: int, attempt: Attempt, m: Node, s: nat, was: nat, now: nat, leak: nat)
    requires Inv(p) && m == Converged(p, journal, attempt).0 && s < |p.disks|
    requires was == OnDisk(OsdsOf(p.devices), s) && now == OnDisk(OsdsOf(m.devices), s)
    requires leak == if p.devices == [] then LeakOf(p.disks, journal, attempt.stop, s) else 0
    ensures |m.disks| == |p.disks| && was <= now && CarvedTimes(p.disks[s], m.disks[s], journal, now - was + leak)
  {
    if p.devices == [] {
      assert OsdsOf(p.devices) == [];
      PlanningAccounts(p, journal, attempt, m, s, OsdsOf(m.devices), leak);
    } else {
      LaterRunLeaves(p, journal, attempt, m);
    }
  }

  lemma RunAccountsOn(d: Disk, p: Node, journal: int, attempt: Attempt, m: Node, s: nat, so: nat, was: nat, now: nat,
                      leak: nat, k: nat)
    requires Inv(p) && m == Converged(p, journal, attempt).0 && s < |p.disks|
    requires was == OnDisk(OsdsOf(p.devices), s) && now == OnDisk(OsdsOf(m.devices), s)
    requires leak == if p.devices == [] then LeakOf(p.disks, journal, attempt.stop, s) else 0
    requires CarvedTimes(d, p.disks[s], journal, so) && k + was == so + now + leak
    ensures |m.disks| == |p.disks| && CarvedTimes(d, m.disks[s], journal, k)
  {
    RunAccounts(p, journal, attempt, m, s, was, now, leak);
    CarveMore(d, p.disks[s], m.disks[s], journal, so, now - was + leak, k);
  }

  /**
   * After any runs, however they fail, a disk has been carved exactly once for each saved journal on it and once
   * for each run that died between a carving on it and the save.
   */
  lemma {:induction false} PartitionsAccountedFor(n: Node, journal: int, runs: seq<Attempt>, s: nat, m: Node, k: nat)
    requires Inv(n) && n.devices == [] && s < |n.disks|
    requires m == Runs(n, journal, runs) && k == OnDisk(OsdsOf(m.devices), s) + Leaks(n, journal, runs, s)
    ensures |m.disks| == |n.disks| && CarvedTimes(n.disks[s], m.disks[s], journal, k)
    decreases |runs|
  {
    if runs == [] {
      assert OsdsOf(n.devices) == [];
    } else {
      var init, last := runs[..|runs| - 1], runs[|runs| - 1];
      var p, leaks, more := Runs(n, journal, init), Leaks(n, journal, init, s), Leaks(n, journal, runs, s);
      var was, now := OnDisk(OsdsOf(p.devices), s), OnDisk(OsdsOf(m.devices), s);
      PartitionsAccountedFor(n, journal, init, s, p, was + leaks);
      RunsKeepInv(n, journal, init);
      RunAccountsOn(n.disks[s], p, journal, last, m, s, was + leaks, was, now, more - leaks, k);
    }
  }

  // ----- when nothing is lost, and when all comes out as one undisturbed run plans it -----

  lemma PartitionsCounted(n: Node, journal: int, runs: seq<Attempt>, s: nat, m: Node)
    requires Inv(n) && n.devices == [] && s < |n.disks| && m == Runs(n, journal, runs)
    ensures |m.disks| == |n.disks|
    ensures |m.disks[s].parts| == |n.disks[s].parts| + OnDisk(OsdsOf(m.devices), s) + Leaks(n, journal, runs, s)
  {
    PartitionsAccountedFor(n, journal, runs, s, m, OnDisk(OsdsOf(m.devices), s) + Leaks(n, journal, runs, s));
  }

  predicate InPlan(osds: seq<Osd>, device: nat, o: Osd) {
    o in osds && o.device == device && o.journal.Some?
  }

  /** Such a run loses a partition: it dies right after carving for a device that an undisturbed run gives one. */
  ghost predicate Loses(disks: seq<Disk>, journal: int, stop: Stop) {
    Stops(disks, stop) && stop.carved && exists o :: InPlan(Planned(disks, journal).osds, stop.device, o)
  }

  /** The first n devices are in the list of a walk over more, and the rest of that list is about later devices. */
  ghost predicate Extends(osds: seq<Osd>, more: seq<Osd>, n: nat) {
    osds <= more && forall i :: |osds| <= i < |more| ==> more[i].device >= n
  }

  lemma {:induction false} WalkExtends(disks: seq<Disk>, ssds: seq<nat>, journal: int, n: nat, k: nat, p: Plan, q: Plan)
    requires n <= k <= |disks| && Within(ssds, disks)
    requires p == Walk(disks, ssds, journal, n) && q == Walk(disks, ssds, journal, k)
    ensures Extends(p.osds, q.osds, n)
    decreases k
  {
    if n == k {
    } else {
      var r := Walk(disks, ssds, journal, k - 1);
      WalkExtends(disks, ssds, journal, n, k - 1, p, r);
      VisitExtends(p.osds, r, ssds, journal, n, k - 1, q);
    }
  }

  lemma VisitExtends(osds: seq<Osd>, r: Plan, ssds: seq<nat>, journal: int, n: nat, k: nat, q: Plan)
    requires n <= k < |r.disks| && Within(ssds, r.disks) && Extends(osds, r.osds, n) && q == Visit(r, ssds, journal, k)
    ensures Extends(osds, q.osds, n)
  {
    VisitAppends(r, ssds, journal, k);
  }

  lemma {:induction false} WalkBelow(disks: seq<Disk>, ssds: seq<nat>, journal: int, n: nat, p: Plan)
    requires n <= |disks| && Within(ssds, disks) && p == Walk(disks, ssds, journal, n)
    ensures forall i :: 0 <= i < |p.osds| ==> p.osds[i].device < n
  {
    if n == 0 {
    } else {
      var r := Walk(disks, ssds, journal, n - 1);
      WalkBelow(disks, ssds, journal, n - 1, r);
      VisitAppends(r, ssds, journal, n - 1);
    }
  }

  /** Whatever OSD a visit appends is about this device, with a journal on some disk or none. */
  lemma VisitLeaksOn(p: Plan, ssds: seq<nat>, journal: int, n: nat, q: Plan)
    requires n < |p.disks| && Within(ssds, p.disks) && q == Visit(p, ssds, journal, n)
    ensures forall s: nat :: LastOn(p.osds, q.osds, s) > 0 ==> s < |p.disks|
    ensures |q.osds| > |p.osds| && q.osds[|p.osds|].journal.Some? ==>
              LastOn(p.osds, q.osds, q.osds[|p.osds|].journal.value.ssd) > 0
  {
  }

  lemma PlanHasOne(osds: seq<Osd>, more: seq<Osd>, all: seq<Osd>, d: nat)
    requires forall i :: 0 <= i < |osds| ==> osds[i].device < d
    requires |more| == |osds| || (|more| == |osds| + 1 && more[|osds|].device == d)
    requires osds <= more && Extends(more, all, d + 1)
    ensures (exists o :: InPlan(all, d, o)) <==> |more| > |osds| && more[|osds|].journal.Some?
  {
    if o :| InPlan(all, d, o) {
      var i :| 0 <= i < |all| && all[i] == o;
      assert i < |more|;
      assert more[i] == o;
    }
    if |more| > |osds| && more[|osds|].journal.Some? {
      assert all[|osds|] == more[|osds|];
      assert InPlan(all, d, more[|osds|]);
    }
  }

  ghost predicate LeaksSome(disks: seq<Disk>, journal: int, stop: Stop) {
    exists s: nat :: s < |disks| && LeakOf(disks, journal, stop, s) > 0
  }

  /** Losing in these terms is leaking a partition on some disk. */
  lemma LosesExactly(disks: seq<Disk>, journal: int, stop: Stop)
    ensures Loses(disks, journal, stop) <==> LeaksSome(disks, journal, stop)
  {
    if Stops(disks, stop) && stop.carved {
      var ssds, d := Ssds(disks), stop.device;
      var p := Walk(disks, ssds, journal, d);
      var q := Visit(p, ssds, journal, d);
      WalkBelow(disks, ssds, journal, d, p);
      WalkExtends(disks, ssds, journal, d + 1, |disks|, q, Planned(disks, journal));
      VisitAppends(p, ssds, journal, d);
      PlanHasOne(p.osds, q.osds, Planned(disks, journal).osds, d);
      VisitLeaksOn(p, ssds, journal, d, q);
      WalkLeaves(disks, journal, stop, 0, d, p, q);
      forall s: nat ensures LeakOf(disks, journal, stop, s) == LastOn(p.osds, q.osds, s) {
        WalkLeaves(disks, journal, stop, s, d, p, q);
      }
    }
  }

  ghost predicate NoLeaks(n: Node, journal: int, runs: seq<Attempt>) {
    forall s: nat :: s < |n.disks| ==> Leaks(n, journal, runs, s) == 0
  }

  /** As long as nothing is saved and nothing lost, the disks are as found. */
  lemma UntouchedSoFar(n: Node, journal: int, runs: seq<Attempt>, m: Node)
    requires Inv(n) && n.devices == [] && m == Runs(n, journal, runs) && m.devices == [] && NoLeaks(n, journal, runs)
    ensures m.disks == n.disks
  {
    assert OsdsOf(m.devices) == [];
    RunsGrow(n, journal, runs, m);
    forall s: nat | s < |n.disks| ensures m.disks[s] == n.disks[s] {
      PartitionsAccountedFor(n, journal, runs, s, m, 0);
    }
  }

  /** Run k finds no list and loses a partition. */
  ghost predicate LosesAt(disks: seq<Disk>, journal: int, runs: seq<Attempt>, k: nat) {
    k < |runs| && Plans(disks, runs, k) && Loses(disks, journal, runs[k].stop)
  }

  /**
   * Over any runs, no partition is lost on any disk exactly if no run dies right after a carving while nothing is
   * saved, at a device that an undisturbed run over the disks as found gives a journal.
   */
  lemma {:induction false} NothingLostExactly(n: Node, journal: int, runs: seq<Attempt>)
    requires Inv(n) && n.devices == []
    ensures NoLeaks(n, journal, runs) <==> forall k: nat :: !LosesAt(n.disks, journal, runs, k)
    decreases |runs|
  {
    if runs == [] {
    } else {
      var init := runs[..|runs| - 1];
      var p := Runs(n, journal, init);
      NothingLostExactly(n, journal, init);
      LosesSplit(n.disks, journal, runs, init);
      LeaksAdd(n, journal, runs, init, p);
      if NoLeaks(n, journal, init) {
        LosesLast(n, journal, runs, init, p);
      }
    }
  }

  lemma LosesBefore(disks: seq<Disk>, journal: int, runs: seq<Attempt>, k: nat)
    requires k < |runs| - 1
    ensures LosesAt(disks, journal, runs, k) <==> LosesAt(disks, journal, runs[..|runs| - 1], k)
  {
  }

  lemma LosesSplit(disks: seq<Disk>, journal: int, runs: seq<Attempt>, init: seq<Attempt>)
    requires runs != [] && init == runs[..|runs| - 1]
    ensures (forall k: nat :: !LosesAt(disks, journal, runs, k)) <==>
            (forall k: nat :: !LosesAt(disks, journal, init, k)) && !LosesAt(disks, journal, runs, |runs| - 1)
  {
    forall k: nat | k < |init| ensures LosesAt(disks, journal, runs, k) <==> LosesAt(disks, journal, init, k) {
      LosesBefore(disks, journal, runs, k);
    }
  }

  lemma PlansInit(disks: seq<Disk>, runs: seq<Attempt>, init: seq<Attempt>)
    requires runs != [] && init == runs[..|runs| - 1]
    ensures Plans(disks, runs, |init|) <==> Plans(disks, init, |init|)
  {
  }

  lemma LosesLast(n: Node, journal: int, runs: seq<Attempt>, init: seq<Attempt>, p: Node)
    requires Inv(n) && n.devices == [] && runs != [] && init == runs[..|runs| - 1] && p == Runs(n, journal, init)
    requires NoLeaks(n, journal, init)
    ensures LosesAt(n.disks, journal, runs, |runs| - 1) <==>
            p.devices == [] && LeaksSome(p.disks, journal, runs[|runs| - 1].stop)
  {
    ListedYet(n, journal, init, p);
    PlansInit(n.disks, runs, init);
    if p.devices == [] {
      UntouchedSoFar(n, journal, init, p);
      LosesExactly(n.disks, journal, runs[|runs| - 1].stop);
    }
  }

  lemma LeaksAdd(n: Node, journal: int, runs: seq<Attempt>, init: seq<Attempt>, p: Node)
    requires Inv(n) && runs != [] && init == runs[..|runs| - 1] && p == Runs(n, journal, init)
    ensures NoLeaks(n, journal, runs) <==>
            NoLeaks(n, journal, init) && !(p.devices == [] && LeaksSome(p.disks, journal, runs[|runs| - 1].stop))
  {
    var last := runs[|runs| - 1];
    RunsGrow(n, journal, init, p);
    forall s: nat | s < |n.disks|
      ensures Leaks(n, journal, runs, s) == Leaks(n, journal, init, s)
                + if p.devices == [] then LeakOf(p.disks, journal, last.stop, s) else 0
    {
    }
  }

  lemma ListedYet(n: Node, journal: int, runs: seq<Attempt>, m: Node)
    requires Inv(n) && n.devices == [] && m == Runs(n, journal, runs)
    ensures m.devices == [] <==> Plans(n.disks, runs, |runs|)
  {
    if Plans(n.disks, runs, |runs|) {
      NothingSaved(n, journal, runs, m);
    } else {
      var i := FirstToSave(n.disks, runs, |runs|);
      ListIsWhatItReached(n, journal, runs, i, m);
    }
  }

  /** No eligible disk, no partition, wherever the walk stops. */
  lemma NothingPlanned(disks: seq<Disk>, journal: int, stop: Stop)
    requires EligibleUpTo(disks, |disks|) == []
    ensures Left(disks, journal, stop) == disks && Saved(disks, journal, stop) == []
  {
    var ssds, r := Ssds(disks), Reach(disks, stop);
    SsdsAre(disks);
    NobodyEligible(disks, ssds, journal, r);
    if r < |disks| { EligibleBeyond(disks, 0, |disks|); }
    StopsQuietly(disks, journal, stop, r, Plan(disks, 0, []));
  }

  lemma {:induction false} EligiblePrefix(disks: seq<Disk>, k: nat, n: nat)
    requires k <= n <= |disks| && EligibleUpTo(disks, n) == []
    ensures EligibleUpTo(disks, k) == []
    decreases n
  {
    if k < n {
      EligiblePrefix(disks, k, n - 1);
    }
  }

  lemma {:induction false} NobodyEligible(disks: seq<Disk>, ssds: seq<nat>, journal: int, k: nat)
    requires k <= |disks| && Within(ssds, disks) && EligibleUpTo(disks, |disks|) == []
    ensures Walk(disks, ssds, journal, k) == Plan(disks, 0, [])
  {
    EligiblePrefix(disks, k, |disks|);
    if k == 0 {
    } else {
      NobodyEligible(disks, ssds, journal, k - 1);
    }
  }

  /**
   * If the first run does not die while it plans, the SSDs are carved exactly as it planned: no later run,
   * wherever it dies, makes another partition or moves a journal.
   */
  lemma {:induction false} PlannedOnce(n: Node, journal: int, runs: seq<Attempt>)
    requires n.devices == [] && n.prepared == [] && runs != [] && !Stops(n.disks, runs[0].stop)
    ensures var m := Runs(n, journal, runs);
            && m.disks == Planned(n.disks, journal).disks
            && OsdsOf(m.devices) == Planned(n.disks, journal).osds
    decreases |runs|
  {
    var init, last := runs[..|runs| - 1], runs[|runs| - 1];
    var p := Runs(n, journal, init);
    RunsKeepInv(n, journal, init);
    ConvergePlans(p, journal, last);
    if init != [] {
      PlannedOnce(n, journal, init);
      if p.devices == [] {
        assert OsdsOf(p.devices) == [];
        SsdsAre(n.disks);
        WalkVisitsTheEligible(n.disks, Ssds(n.disks), journal, |n.disks|, Planned(n.disks, journal));
        assert EligibleUpTo(n.disks, |n.disks|) == [];
        NothingPlanned(n.disks, journal, Never);
        NothingPlanned(n.disks, journal, last.stop);
      }
    }
  }

  lemma {:induction false} NoMoreOsds(disks: seq<Disk>, ssds: seq<nat>, journal: int, n: nat, k: nat, p: Plan)
    requires n <= k <= |disks| && AllSsds(ssds, disks) && p == Walk(disks, ssds, journal, n)
    requires NoneEligibleFrom(disks, n)
    ensures Walk(disks, ssds, journal, k) == p
    decreases k
  {
    if n == k {
    } else {
      NoMoreOsds(disks, ssds, journal, n, k - 1, p);
      WalkGrows(disks, ssds, journal, k - 1, p);
      EligibleKept(disks[k - 1], p.disks[k - 1]);
    }
  }

  /** A walk that gets past the last eligible disk leaves what an undisturbed one leaves. */
  lemma ReachesAll(disks: seq<Disk>, journal: int, stop: Stop)
    requires NoneEligibleFrom(disks, Reach(disks, stop))
    ensures Left(disks, journal, stop) == Planned(disks, journal).disks
    ensures Saved(disks, journal, stop) == Planned(disks, journal).osds
  {
    var ssds, r := Ssds(disks), Reach(disks, stop);
    var p := Walk(disks, ssds, journal, r);
    SsdsAre(disks);
    NoMoreOsds(disks, ssds, journal, r, |disks|, p);
    StopsQuietly(disks, journal, stop, r, p);
  }

  /** A walk that dies at a disk which is not eligible has carved nothing for it. */
  lemma StopsQuietly(disks: seq<Disk>, journal: int, stop: Stop, r: nat, p: Plan)
    requires r == Reach(disks, stop) && p == Walk(disks, Ssds(disks), journal, r)
    requires r < |disks| ==> !Eligible(disks[r])
    ensures Left(disks, journal, stop) == p.disks && Saved(disks, journal, stop) == p.osds
  {
    var ssds := Ssds(disks);
    var q := if Stops(disks, stop) && stop.carved then Visit(p, ssds, journal, r) else p;
    WalkLeaves(disks, journal, stop, 0, r, p, q);
    if Stops(disks, stop) && stop.carved {
      SsdsAre(disks);
      WalkGrows(disks, ssds, journal, r, p);
      EligibleKept(disks[r], p.disks[r]);
      VisitAppends(p, ssds, journal, r);
    }
  }

  /** The disks are carved, and the list reads, as one undisturbed walk over the disks as found would have it. */
  predicate AsPlanned(disks: seq<Disk>, journal: int, m: Node) {
    m.disks == Planned(disks, journal).disks && OsdsOf(m.devices) == Planned(disks, journal).osds
  }

  lemma ListedAndKept(n: Node, journal: int, runs: seq<Attempt>, m: Node)
    requires Inv(n) && n.devices == [] && m == Runs(n, journal, runs)
    requires AllListed(n.disks, m.devices) && NoLeaks(n, journal, runs)
    ensures AsPlanned(n.disks, journal, m)
  {
    AllListedExactly(n, journal, runs, m);
    if Plans(n.disks, runs, |runs|) {
      NothingSaved(n, journal, runs, m);
      UntouchedSoFar(n, journal, runs, m);
      assert OsdsOf(m.devices) == [];
      NothingPlanned(n.disks, journal, Never);
    } else {
      var k := FirstToSave(n.disks, runs, |runs|);
      ListedByFirst(n, journal, runs, k, m);
    }
  }

  lemma ListedByFirst(n: Node, journal: int, runs: seq<Attempt>, k: nat, m: Node)
    requires Inv(n) && n.devices == [] && m == Runs(n, journal, runs) && FirstSaves(n.disks, runs, k)
    requires AllListed(n.disks, m.devices) && NoLeaks(n, journal, runs)
    ensures AsPlanned(n.disks, journal, m)
  {
    var init, stop := runs[..k], runs[k].stop;
    var p, q := Runs(n, journal, init), Runs(n, journal, runs[..k + 1]);
    assert runs[..k + 1][..k] == init;
    PlansPrefix(n.disks, runs, k);
    NothingSaved(n, journal, init, p);
    LeaksGrow(n, journal, runs, k);
    UntouchedSoFar(n, journal, init, p);
    ListIsWhatItReached(n, journal, runs, k, m);
    EligibleBeyond(n.disks, Reach(n.disks, stop), |n.disks|);
    ReachesAll(n.disks, journal, stop);
    RunsKeepInv(n, journal, init);
    ConvergePlans(p, journal, runs[k]);
    assert q.devices != [];
    SavedListIsFinal(n, journal, runs, k + 1);
  }

  lemma {:induction false} LeaksGrow(n: Node, journal: int, runs: seq<Attempt>, k: nat)
    requires k <= |runs| && NoLeaks(n, journal, runs)
    ensures NoLeaks(n, journal, runs[..k])
    decreases |runs|
  {
    if k == |runs| {
      assert runs[..k] == runs;
    } else {
      var init := runs[..|runs| - 1];
      assert init[..k] == runs[..k];
      forall s: nat | s < |n.disks| ensures Leaks(n, journal, init, s) == 0 {
        assert Leaks(n, journal, runs, s) == 0;
      }
      LeaksGrow(n, journal, init, k);
    }
  }

  /**
   * Whatever runs there were, all came out as one undisturbed walk plans it exactly if every eligible disk is listed
   * and no partition is lost; AllListedExactly and NothingLostExactly say when.
   */
  lemma AsPlannedExactly(n: Node, journal: int, runs: seq<Attempt>, m: Node)
    requires Inv(n) && n.devices == [] && m == Runs(n, journal, runs)
    ensures AsPlanned(n.disks, journal, m) <==> AllListed(n.disks, m.devices) && NoLeaks(n, journal, runs)
  {
    if AllListed(n.disks, m.devices) && NoLeaks(n, journal, runs) {
      ListedAndKept(n, journal, runs, m);
    }
    if AsPlanned(n.disks, journal, m) {
      OsdsAreTheEligible(n.disks, journal);
      forall s: nat | s < |n.disks| ensures Leaks(n, journal, runs, s) == 0 {
        PartitionsCounted(n, journal, runs, s, m);
        var p := Planned(n.disks, journal);
        WalkCarves(n.disks, Ssds(n.disks), journal, |n.disks|, p, s, OnDisk(OsdsOf(m.devices), s));
      }
    }
  }

  /** A lost partition: the first run dies after carving for the one eligible disk, and nothing says so. */
  lemma PartitionLost(n: Node, journal: int, results: nat -> Result)
    requires n.devices == [] && |n.disks| == 2
    requires IsSsd(n.disks[0]) && HasRoom(n.disks[0]) && Eligible(n.disks[1])
    ensures var m := Runs(n, journal, [Attempt(At(1, true), results)]);
            m.devices == [] && m.disks == [Carved(n.disks[0], journal), n.disks[1]]
  {
    var ssds := Ssds(n.disks);
    assert SsdsUpTo(n.disks, 1) == [0];
    assert ssds == [0];
    assert Walk(n.disks, ssds, journal, 0) == Plan(n.disks, 0, []);
    assert Walk(n.disks, ssds, journal, 1) == Plan(n.disks, 0, []);
    var runs := [Attempt(At(1, true), results)];
    assert Runs(n, journal, runs[..0]) == n;
  }

  /** A run that finishes is the last one to change anything, with a list or without. */
  lemma FinishedRunIsLast(n: Node, journal: int, runs: seq<Attempt>, last: Attempt, next: Attempt)
    requires Inv(n) && Converged(Runs(n, journal, runs), journal, last).1
    ensures var m := Converged(Runs(n, journal, runs), journal, last).0; Converged(m, journal, next).0 == m
  {
    FinishedRunDeploysAll(n, journal, runs, last, next);
    var p, m := Runs(n, journal, runs), Converged(Runs(n, journal, runs), journal, last).0;
    RunsKeepInv(n, journal, runs);
    ConvergePlans(p, journal, last);
    if m.devices == [] {
      assert OsdsOf(m.devices) == [];
      SavedDevices(p.disks, journal, last.stop);
      NothingPlanned(p.disks, journal, last.stop);
      NothingPlanned(m.disks, journal, next.stop);
    }
  }
}
