/** The Ceph OSD recipe's journal assignment: one SSD partition for each unused rotational disk. */
module Journals {
  import opened Wrappers

  /** Sizes in MB. */
  datatype Part = Part(start: int, end: int)

  /** A block device with its partitions as parted lists them; the devices are named by their position. */
  datatype Disk = Disk(name: string, rotational: bool, total: int, parts: seq<Part>)

  datatype Journal = Journal(ssd: nat, number: nat)

  datatype Osd = Osd(device: nat, journal: Option<Journal>)

  const GAP := 100
  const DEFAULT_JOURNAL := 5120

  predicate IncludesSd(name: string) {
    "sd" <= name || (name != "" && IncludesSd(name[1..]))
  }

  predicate IsSsd(d: Disk) {
    IncludesSd(d.name) && !d.rotational
  }

  /** Rotational and without any partition. */
  predicate Eligible(d: Disk) {
    IncludesSd(d.name) && d.rotational && |d.parts| == 0
  }

  // ----- one partition -----

  function LastEnd(d: Disk): int {
    if d.parts == [] then 0 else d.parts[|d.parts| - 1].end
  }

  predicate HasRoom(d: Disk) {
    LastEnd(d) + GAP < d.total
  }

  function Carved(d: Disk, journal: int): Disk {
    var start := LastEnd(d) + GAP;
    var end := if d.total > start + journal then start + journal else d.total;
    d.(parts := d.parts + [Part(start, end)])
  }

  /** How many partitions `journal` long, each after a gap, fit into `free` MB, the last one cut short. */
  function Fits(free: int, journal: int): (n: nat)
    requires journal > 0
    ensures n == 0 <==> free <= 0
    ensures n > 0 ==> (n - 1) * (journal + GAP) < free <= n * (journal + GAP)
    decreases if free > 0 then free else 0
  {
    if free <= 0 then 0 else 1 + Fits(free - (journal + GAP), journal)
  }

  function Room(d: Disk, journal: int): nat
    requires journal > 0
  {
    Fits(d.total - LastEnd(d) - GAP, journal)
  }

  // ----- one disk, then all of them, as functions -----

  function SsdsUpTo(disks: seq<Disk>, n: nat): (ssds: seq<nat>)
    requires n <= |disks|
    ensures forall s :: s in ssds <==> 0 <= s < n && IsSsd(disks[s])
    ensures forall i, j :: 0 <= i < j < |ssds| ==> ssds[i] != ssds[j]
  {
    if n == 0 then [] else SsdsUpTo(disks, n - 1) + if IsSsd(disks[n - 1]) then [n - 1] else []
  }

  predicate Within(ssds: seq<nat>, disks: seq<Disk>) {
    forall k :: 0 <= k < |ssds| ==> ssds[k] < |disks|
  }

  /** ssd_device: the SSDs in device order. */
  function Ssds(disks: seq<Disk>): (ssds: seq<nat>)
    ensures forall s :: s in ssds <==> 0 <= s < |disks| && IsSsd(disks[s])
    ensures forall i, j :: 0 <= i < j < |ssds| ==> ssds[i] != ssds[j]
    ensures Within(ssds, disks)
  {
    assert forall k :: 0 <= k < |SsdsUpTo(disks, |disks|)| ==> SsdsUpTo(disks, |disks|)[k] in SsdsUpTo(disks, |disks|);
    SsdsUpTo(disks, |disks|)
  }

  /** The first SSD at or after position k that still has room. */
  function Scan(disks: seq<Disk>, ssds: seq<nat>, k: nat): (r: nat)
    requires Within(ssds, disks) && k <= |ssds|
    ensures k <= r <= |ssds|
    decreases |ssds| - k
  {
    if k == |ssds| || HasRoom(disks[ssds[k]]) then k else Scan(disks, ssds, k + 1)
  }

  lemma {:induction false} ScanFinds(disks: seq<Disk>, ssds: seq<nat>, k: nat)
    requires Within(ssds, disks) && k <= |ssds|
    ensures var r := Scan(disks, ssds, k);
            && (forall i :: k <= i < r ==> !HasRoom(disks[ssds[i]]))
            && (r < |ssds| ==> HasRoom(disks[ssds[r]]))
    decreases |ssds| - k
  {
    if k < |ssds| && !HasRoom(disks[ssds[k]]) {
      ScanFinds(disks, ssds, k + 1);
    }
  }

  function Wrap(index: nat, count: nat): nat {
    if index >= count then 0 else index
  }

  /** The disks as carved so far, the SSD index of the next search, and the OSDs found. */
  datatype Plan = Plan(disks: seq<Disk>, index: nat, osds: seq<Osd>)

  function Visit(p: Plan, ssds: seq<nat>, journal: int, n: nat): (q: Plan)
    requires Within(ssds, p.disks) && n < |p.disks|
    ensures |q.disks| == |p.disks|
  {
    if !Eligible(p.disks[n]) then p
    else if ssds == [] then p.(osds := p.osds + [Osd(n, None)])
    else
      var k := Scan(p.disks, ssds, Wrap(p.index, |ssds|));
      if k == |ssds| then Plan(p.disks, k + 1, p.osds + [Osd(n, None)])
      else
        var s := ssds[k];
        Plan(p.disks[s := Carved(p.disks[s], journal)], k + 2,
             p.osds + [Osd(n, Some(Journal(s, |p.disks[s].parts| + 1)))])
  }

  /** The plan after the first n block devices, with `ssds` to carve from. */
  function Walk(disks: seq<Disk>, ssds: seq<nat>, journal: int, n: nat): (p: Plan)
    requires Within(ssds, disks) && n <= |disks|
    ensures |p.disks| == |disks|
  {
    if n == 0 then Plan(disks, 0, []) else Visit(Walk(disks, ssds, journal, n - 1), ssds, journal, n - 1)
  }

  function Planned(disks: seq<Disk>, journal: int): (p: Plan)
    ensures |p.disks| == |disks|
  {
    Walk(disks, Ssds(disks), journal, |disks|)
  }

  /**
   * Where a run dies in the walk over the block devices: at the given device, before or after its journal was
   * carved but before the list with it is saved.
   */
  datatype Stop = Never | At(device: nat, carved: bool)

  predicate Stops(disks: seq<Disk>, stop: Stop) {
    stop.At? && stop.device < |disks|
  }

  /** The device list the walk has saved when it ends or dies. */
  function Saved(disks: seq<Disk>, journal: int, stop: Stop): seq<Osd> {
    Walk(disks, Ssds(disks), journal, if Stops(disks, stop) then stop.device else |disks|).osds
  }

  /** The disks it leaves behind. */
  function Left(disks: seq<Disk>, journal: int, stop: Stop): (now: seq<Disk>)
    ensures |now| == |disks|
  {
    var n := if !Stops(disks, stop) then |disks| else if stop.carved then stop.device + 1 else stop.device;
    Walk(disks, Ssds(disks), journal, n).disks
  }

  // ----- the recipe -----

  class Host {
    var disks: seq<Disk>
    const journal: int

    constructor (disks: seq<Disk>, configured: Option<int>)
      requires configured.Some? ==> configured.value > 0
      ensures this.disks == disks
      ensures journal == if configured.Some? then configured.value else DEFAULT_JOURNAL
    {
      this.disks := disks;
      journal := if configured.Some? then configured.value else DEFAULT_JOURNAL;
    }

    /** ssd_device */
    method FindSsds() returns (ssds: seq<nat>)
      ensures ssds == Ssds(disks)
    {
      ssds := [];
      for i := 0 to |disks|
        invariant ssds == SsdsUpTo(disks, i)
      {
        if IncludesSd(disks[i].name) && !disks[i].rotational {
          ssds := ssds + [i];
        }
      }
    }

    /** mkpart: the number of the new partition, or nothing when the disk is full. */
    method MakePartition(s: nat) returns (number: Option<nat>)
      requires s < |disks| && journal > 0
      modifies this`disks
      ensures number == if HasRoom(old(disks)[s]) then Some(|old(disks)[s].parts| + 1) else None
      ensures disks == if HasRoom(old(disks)[s]) then old(disks)[s := Carved(old(disks)[s], journal)] else old(disks)
    {
      var d := disks[s];
      var start := LastEnd(d) + GAP;
      var end := start + journal;
      if start < d.total {
        var made := if d.total > end then Part(start, end) else Part(start, d.total);
        disks := disks[s := d.(parts := d.parts + [made])];
        return Some(|d.parts| + 1);
      }
      return None;
    }

    /** The search from `from` on for an SSD with room, and the index the next search resumes at. */
    method FindJournal(ssds: seq<nat>, from: nat) returns (found: Option<Journal>, index: nat)
      requires journal > 0 && Within(ssds, disks) && from <= |ssds|
      modifies this`disks
      ensures var k := Scan(old(disks), ssds, from);
              if k == |ssds| then found == None && index == k + 1 && disks == old(disks)
              else
                && found == Some(Journal(ssds[k], |old(disks)[ssds[k]].parts| + 1)) && index == k + 2
                && disks == old(disks)[ssds[k] := Carved(old(disks)[ssds[k]], journal)]
    {
      ghost var before := disks;
      ghost var k := Scan(before, ssds, from);
      found, index := None, from;
      while found.None?
        invariant from <= index <= |ssds|
        invariant found.None? ==> disks == before && Scan(before, ssds, index) == k
        invariant found.Some? ==>
                    && index == k + 1
                    && found == Some(Journal(ssds[k], |before[ssds[k]].parts| + 1))
                    && disks == before[ssds[k] := Carved(before[ssds[k]], journal)]
        decreases |ssds| - index
      {
        if index >= |ssds| {
          break;
        }
        var number := MakePartition(ssds[index]);
        if number.Some? {
          found := Some(Journal(ssds[index], number.value));
        }
        index := index + 1;
      }
      index := index + 1;
    }

    /** One round of the loop over the block devices. */
    method VisitDevice(ssds: seq<nat>, n: nat, index: nat, osds: seq<Osd>) returns (next: nat, more: seq<Osd>)
      requires journal > 0 && Within(ssds, disks) && n < |disks|
      modifies this`disks
      ensures Plan(disks, next, more) == Visit(Plan(old(disks), index, osds), ssds, journal, n)
    {
      next, more := index, osds;
      if IncludesSd(disks[n].name) {
        if |disks[n].parts| == 0 && disks[n].rotational {
          var found: Option<Journal> := None;
          if ssds != [] {
            next := if index >= |ssds| then 0 else index;
            found, next := FindJournal(ssds, next);
          }
          more := osds + [Osd(n, found)];
        }
      }
    }

    /** The walk; `saved` is the list node.save has stored, with ok == false when the run died in the walk. */
    method AssignJournals(stop: Stop) returns (saved: seq<Osd>, ok: bool)
      requires journal > 0
      modifies this`disks
      ensures disks == Left(old(disks), journal, stop)
      ensures saved == Saved(old(disks), journal, stop)
      ensures ok <==> !Stops(old(disks), stop)
    {
      ghost var before := disks;
      var osds: seq<Osd> := [];
      saved := [];
      var ssds := FindSsds();
      var index: nat := 0;
      for n := 0 to |disks|
        invariant |disks| == |before| && saved == osds
        invariant Stops(before, stop) ==> n <= stop.device
        invariant Plan(disks, index, osds) == Walk(before, ssds, journal, n)
      {
        if stop == At(n, false) {
          return saved, false;
        }
        index, osds := VisitDevice(ssds, n, index, osds);
        if stop == At(n, true) {
          return saved, false;
        }
        saved := osds;
      }
      return saved, true;
    }
  }
}
