/** How many journals the assignment makes, where they lie, and how they are laid out. */
module JournalBounds {
  import opened Arithmetic
  import opened Journals

  // ----- the disks keep their identity -----

  predicate Distinct(ssds: seq<nat>) {
    forall i, j :: 0 <= i < j < |ssds| ==> ssds[i] != ssds[j]
  }

  predicate AllSsds(ssds: seq<nat>, disks: seq<Disk>) {
    forall k :: 0 <= k < |ssds| ==> ssds[k] < |disks| && IsSsd(disks[ssds[k]])
  }

  lemma SsdsAre(disks: seq<Disk>)
    ensures AllSsds(Ssds(disks), disks) && Distinct(Ssds(disks))
  {
  }

  /** `e` is `d` after some partitions more; a rotational disk gets none. */
  predicate Grown(d: Disk, e: Disk) {
    e == d.(parts := e.parts) && d.parts <= e.parts && (d.rotational ==> e == d)
  }

  predicate AllGrown(disks: seq<Disk>, now: seq<Disk>) {
    |now| == |disks| && forall i :: 0 <= i < |disks| ==> Grown(disks[i], now[i])
  }

  lemma GrownSsds(disks: seq<Disk>, now: seq<Disk>, ssds: seq<nat>)
    requires AllGrown(disks, now) && AllSsds(ssds, disks)
    ensures AllSsds(ssds, now)
  {
  }

  lemma GrowsOn(disks: seq<Disk>, now: seq<Disk>, later: seq<Disk>)
    requires AllGrown(disks, now) && AllGrown(now, later)
    ensures AllGrown(disks, later)
  {
  }

  lemma VisitGrows(p: Plan, ssds: seq<nat>, journal: int, n: nat)
    requires n < |p.disks| && AllSsds(ssds, p.disks)
    ensures AllGrown(p.disks, Visit(p, ssds, journal, n).disks)
  {
  }

  lemma {:induction false} WalkGrows(disks: seq<Disk>, ssds: seq<nat>, journal: int, n: nat, q: Plan)
    requires n <= |disks| && AllSsds(ssds, disks) && q == Walk(disks, ssds, journal, n)
    ensures AllGrown(disks, q.disks)
  {
    if n == 0 {
    } else {
      var p := Walk(disks, ssds, journal, n - 1);
      WalkGrows(disks, ssds, journal, n - 1, p);
      GrownSsds(disks, p.disks, ssds);
      VisitGrows(p, ssds, journal, n - 1);
      GrowsOn(disks, p.disks, q.disks);
    }
  }

  // ----- the eligible disks, in order -----

  function EligibleUpTo(disks: seq<Disk>, n: nat): seq<nat>
    requires n <= |disks|
  {
    if n == 0 then [] else EligibleUpTo(disks, n - 1) + if Eligible(disks[n - 1]) then [n - 1] else []
  }

  function Devices(osds: seq<Osd>): seq<nat> {
    if osds == [] then [] else Devices(osds[..|osds| - 1]) + [osds[|osds| - 1].device]
  }

  /** A visit appends at most one OSD, and one exactly when the disk is eligible. */
  lemma VisitAppends(p: Plan, ssds: seq<nat>, journal: int, n: nat)
    requires n < |p.disks| && Within(ssds, p.disks)
    ensures var q := Visit(p, ssds, journal, n);
            if Eligible(p.disks[n])
            then |q.osds| == |p.osds| + 1 && q.osds[..|p.osds|] == p.osds && q.osds[|p.osds|].device == n
            else q == p
  {
  }

  lemma {:induction false} WalkVisitsTheEligible(disks: seq<Disk>, ssds: seq<nat>, journal: int, n: nat, q: Plan)
    requires n <= |disks| && AllSsds(ssds, disks) && q == Walk(disks, ssds, journal, n)
    ensures Devices(q.osds) == EligibleUpTo(disks, n) && |q.osds| == |EligibleUpTo(disks, n)|
  {
    if n == 0 {
    } else {
      var p := Walk(disks, ssds, journal, n - 1);
      WalkVisitsTheEligible(disks, ssds, journal, n - 1, p);
      WalkGrows(disks, ssds, journal, n - 1, p);
      VisitAppends(p, ssds, journal, n - 1);
      assert Grown(disks[n - 1], p.disks[n - 1]);
      EligibleKept(disks[n - 1], p.disks[n - 1]);
      if Eligible(disks[n - 1]) {
        DevicesAppend(p.osds, q.osds);
      }
    }
  }

  lemma DevicesAppend(osds: seq<Osd>, more: seq<Osd>)
    requires |more| == |osds| + 1 && more[..|osds|] == osds
    ensures Devices(more) == Devices(osds) + [more[|osds|].device]
  {
  }

  lemma EligibleKept(d: Disk, e: Disk)
    requires Grown(d, e)
    ensures Eligible(e) <==> Eligible(d)
  {
  }

  /** Every eligible disk becomes one OSD, in the order of the block devices. */
  lemma OsdsAreTheEligible(disks: seq<Disk>, journal: int)
    ensures Devices(Planned(disks, journal).osds) == EligibleUpTo(disks, |disks|)
  {
    SsdsAre(disks);
    WalkVisitsTheEligible(disks, Ssds(disks), journal, |disks|, Planned(disks, journal));
  }

  // ----- which disks these are, on the disks as found -----

  /** The name has "sd" somewhere in it. */
  ghost predicate HasSd(name: string) {
    exists k :: 0 <= k < |name| - 1 && name[k] == 's' && name[k + 1] == 'd'
  }

  lemma {:induction false} IncludesSdExactly(name: string)
    ensures IncludesSd(name) <==> HasSd(name)
  {
    if name == "" {
    } else {
      var rest := name[1..];
      IncludesSdExactly(rest);
      if IncludesSd(rest) {
        var k :| 0 <= k < |rest| - 1 && rest[k] == 's' && rest[k + 1] == 'd';
        assert name[k + 1] == 's' && name[k + 1 + 1] == 'd';
      }
      if "sd" <= name { assert name[0] == 's' && name[0 + 1] == 'd'; }
      if k :| 0 <= k < |name| - 1 && name[k] == 's' && name[k + 1] == 'd' {
        if k > 0 { assert rest[k - 1] == 's' && rest[k - 1 + 1] == 'd'; }
      }
    }
  }

  /** Numbers below n, in increasing order. */
  predicate Ascending(s: seq<nat>, n: nat) {
    (forall i :: 0 <= i < |s| ==> s[i] < n) && forall i, j :: 0 <= i < j < |s| ==> s[i] < s[j]
  }

  lemma AscendingNext(s: seq<nat>, n: nat)
    requires Ascending(s, n)
    ensures Ascending(s, n + 1) && Ascending(s + [n], n + 1)
  {
  }

  lemma {:induction false} EligibleAre(disks: seq<Disk>, n: nat, e: seq<nat>)
    requires n <= |disks| && e == EligibleUpTo(disks, n)
    ensures Ascending(e, n)
    ensures forall d: nat :: d in e <==> d < n && HasSd(disks[d].name) && disks[d].rotational && disks[d].parts == []
  {
    if n == 0 {
    } else {
      var before := EligibleUpTo(disks, n - 1);
      EligibleAre(disks, n - 1, before);
      IncludesSdExactly(disks[n - 1].name);
      AscendingNext(before, n - 1);
    }
  }

  lemma {:induction false} SsdsInOrder(disks: seq<Disk>, n: nat, ssds: seq<nat>)
    requires n <= |disks| && ssds == SsdsUpTo(disks, n)
    ensures Ascending(ssds, n)
    ensures forall s: nat :: s in ssds <==> s < n && HasSd(disks[s].name) && !disks[s].rotational
  {
    if n == 0 {
    } else {
      var before := SsdsUpTo(disks, n - 1);
      SsdsInOrder(disks, n - 1, before);
      IncludesSdExactly(disks[n - 1].name);
      AscendingNext(before, n - 1);
    }
  }

  /** The SSDs come as the block devices do: every non-rotational disk whose name has "sd" in it, in order. */
  lemma SsdsAreExactly(disks: seq<Disk>)
    ensures forall s: nat :: s in Ssds(disks) <==> s < |disks| && HasSd(disks[s].name) && !disks[s].rotational
    ensures Ascending(Ssds(disks), |disks|)
  {
    SsdsInOrder(disks, |disks|, Ssds(disks));
  }

  lemma {:induction false} DevicesAt(osds: seq<Osd>)
    ensures |Devices(osds)| == |osds| && forall i :: 0 <= i < |osds| ==> Devices(osds)[i] == osds[i].device
  {
    if osds == [] {
    } else {
      DevicesAt(osds[..|osds| - 1]);
    }
  }

  /**
   * A disk becomes an OSD exactly if its name has "sd" in it, it is rotational and it had no partition; each does
   * so once, in order. The walk leaves it as it was, and no journal is on it.
   */
  lemma OsdsExactly(disks: seq<Disk>, journal: int, p: Plan)
    requires p == Planned(disks, journal)
    ensures forall d: nat :: (exists i :: 0 <= i < |p.osds| && p.osds[i].device == d) <==>
              d < |disks| && HasSd(disks[d].name) && disks[d].rotational && disks[d].parts == []
    ensures forall i, j :: 0 <= i < j < |p.osds| ==> p.osds[i].device < p.osds[j].device
    ensures forall i :: 0 <= i < |p.osds| ==>
              p.osds[i].device < |disks| && p.disks[p.osds[i].device] == disks[p.osds[i].device]
    ensures forall i, j :: 0 <= i < |p.osds| && 0 <= j < |p.osds| && p.osds[i].journal.Some? ==>
              p.osds[i].journal.value.ssd != p.osds[j].device
  {
    OsdsAreTheEligible(disks, journal);
    EligibleAre(disks, |disks|, EligibleUpTo(disks, |disks|));
    DevicesAt(p.osds);
    SsdsAre(disks);
    WalkGrows(disks, Ssds(disks), journal, |disks|, p);
    JournalsDistinct(disks, journal);
    var devices := Devices(p.osds);
    forall i | 0 <= i < |p.osds|
      ensures p.osds[i].device in devices && p.osds[i].device < |disks| && disks[p.osds[i].device].rotational
    {
      assert devices[i] in devices;
    }
    forall d: nat | d in devices ensures exists i :: 0 <= i < |p.osds| && p.osds[i].device == d {
      var i :| 0 <= i < |devices| && devices[i] == d;
      assert p.osds[i].device == d;
    }
  }

  // ----- counting journals against room -----

  function TotalRoom(disks: seq<Disk>, ssds: seq<nat>, journal: int): nat
    requires Within(ssds, disks) && journal > 0
  {
    if ssds == [] then 0 else Room(disks[ssds[0]], journal) + TotalRoom(disks, ssds[1..], journal)
  }

  function Assigned(osds: seq<Osd>): (n: nat)
    ensures n <= |osds|
  {
    if osds == [] then 0
    else Assigned(osds[..|osds| - 1]) + if osds[|osds| - 1].journal.Some? then 1 else 0
  }

  lemma AssignedAppend(osds: seq<Osd>, more: seq<Osd>)
    requires |more| == |osds| + 1 && more[..|osds|] == osds
    ensures Assigned(more) == Assigned(osds) + if more[|osds|].journal.Some? then 1 else 0
  {
  }

  lemma {:induction false} RoomElsewhere(disks: seq<Disk>, ssds: seq<nat>, journal: int, s: nat, d: Disk)
    requires Within(ssds, disks) && journal > 0 && s < |disks| && s !in ssds
    ensures TotalRoom(disks[s := d], ssds, journal) == TotalRoom(disks, ssds, journal)
  {
    if ssds == [] {
    } else {
      RoomElsewhere(disks, ssds[1..], journal, s, d);
    }
  }

  lemma {:induction false} RoomReplaced(disks: seq<Disk>, ssds: seq<nat>, journal: int, k: nat, d: Disk)
    requires Within(ssds, disks) && journal > 0 && k < |ssds| && Distinct(ssds)
    ensures TotalRoom(disks[ssds[k] := d], ssds, journal)
            == TotalRoom(disks, ssds, journal) - Room(disks[ssds[k]], journal) + Room(d, journal)
    decreases ssds
  {
    if k == 0 {
      RoomElsewhere(disks, ssds[1..], journal, ssds[0], d);
    } else {
      assert ssds[0] != ssds[k] && ssds[1..][k - 1] == ssds[k];
      RoomReplaced(disks, ssds[1..], journal, k - 1, d);
    }
  }

  predicate Full(disks: seq<Disk>, ssds: seq<nat>)
    requires Within(ssds, disks)
  {
    forall k :: 0 <= k < |ssds| ==> !HasRoom(disks[ssds[k]])
  }

  lemma {:induction false} NoRoomAtAll(disks: seq<Disk>, ssds: seq<nat>, journal: int)
    requires Within(ssds, disks) && journal > 0
    ensures TotalRoom(disks, ssds, journal) == 0 <==> Full(disks, ssds)
  {
    if ssds == [] {
    } else {
      NoRoomAtAll(disks, ssds[1..], journal);
      assert forall k :: 0 < k < |ssds| ==> ssds[k] == ssds[1..][k - 1];
      assert HasRoom(disks[ssds[0]]) <==> Room(disks[ssds[0]], journal) > 0;
    }
  }

  lemma CarvedRoom(d: Disk, journal: int)
    requires journal > 0 && HasRoom(d)
    ensures Room(d, journal) > 0 && Room(Carved(d, journal), journal) == Room(d, journal) - 1
  {
  }

  /**
   * The account kept over the walk: journals made plus room left is the room there was (`c`), and while room is
   * left at least half of the disks have a journal, more than half if the next search does not start in front.
   */
  ghost predicate Account(c: nat, ssds: seq<nat>, p: Plan, journal: int)
    requires journal > 0 && Within(ssds, p.disks)
  {
    var room := TotalRoom(p.disks, ssds, journal);
    && Assigned(p.osds) + room == c
    && (room > 0 ==> 2 * Assigned(p.osds) >= |p.osds| + if Wrap(p.index, |ssds|) != 0 then 1 else 0)
  }

  lemma VisitAccount(c: nat, ssds: seq<nat>, p: Plan, journal: int, n: nat, q: Plan)
    requires journal > 0 && n < |p.disks| && Within(ssds, p.disks) && Distinct(ssds) && Account(c, ssds, p, journal)
    requires q == Visit(p, ssds, journal, n)
    ensures Account(c, ssds, q, journal)
  {
    VisitAppends(p, ssds, journal, n);
    if Eligible(p.disks[n]) {
      AssignedAppend(p.osds, q.osds);
    }
    if Eligible(p.disks[n]) && ssds != [] {
      var k := Scan(p.disks, ssds, Wrap(p.index, |ssds|));
      ScanFinds(p.disks, ssds, Wrap(p.index, |ssds|));
      if k == |ssds| {
        if Wrap(p.index, |ssds|) == 0 { NoRoomAtAll(p.disks, ssds, journal); }
      } else {
        var d := p.disks[ssds[k]];
        CarvedRoom(d, journal);
        RoomReplaced(p.disks, ssds, journal, k, Carved(d, journal));
      }
    }
  }

  lemma {:induction false} WalkAccount(disks: seq<Disk>, ssds: seq<nat>, journal: int, n: nat, q: Plan, c: nat)
    requires journal > 0 && n <= |disks| && Within(ssds, disks) && Distinct(ssds) && q == Walk(disks, ssds, journal, n)
    requires c == TotalRoom(disks, ssds, journal)
    ensures Account(c, ssds, q, journal)
  {
    if n == 0 {
    } else {
      var p := Walk(disks, ssds, journal, n - 1);
      WalkAccount(disks, ssds, journal, n - 1, p, c);
      VisitAccount(c, ssds, p, journal, n - 1, q);
    }
  }

  /**
   * With h eligible disks and room for c journals, the walk makes at least min(c, ceil(h/2)) and at most
   * min(c, h) of them, and the room it leaves is what it did not use.
   */
  lemma JournalCount(disks: seq<Disk>, journal: int, p: Plan, h: nat, c: nat)
    requires journal > 0 && p == Planned(disks, journal)
    requires h == |EligibleUpTo(disks, |disks|)| && c == TotalRoom(disks, Ssds(disks), journal)
    ensures Min(c, (h + 1) / 2) <= Assigned(p.osds) <= Min(c, h)
    ensures TotalRoom(p.disks, Ssds(disks), journal) == c - Assigned(p.osds)
  {
    SsdsAre(disks);
    WalkAccount(disks, Ssds(disks), journal, |disks|, p, c);
    WalkVisitsTheEligible(disks, Ssds(disks), journal, |disks|, p);
  }

  // ----- two misses in a row -----

  ghost predicate TwoMisses(osds: seq<Osd>, m: nat) {
    m + 1 < |osds| && osds[m].journal.None? && osds[m + 1].journal.None?
  }

  ghost predicate NoneFrom(osds: seq<Osd>, m: nat) {
    forall j :: m <= j < |osds| ==> osds[j].journal.None?
  }

  /** After a miss the next search starts at the front; after two of them nothing is left to find. */
  ghost predicate MissState(p: Plan, ssds: seq<nat>, m: nat)
    requires Within(ssds, p.disks)
  {
    && (p.osds != [] && p.osds[|p.osds| - 1].journal.None? ==> Wrap(p.index, |ssds|) == 0)
    && (TwoMisses(p.osds, m) ==> Full(p.disks, ssds) && NoneFrom(p.osds, m))
  }

  lemma VisitMiss(p: Plan, ssds: seq<nat>, journal: int, n: nat)
    requires n < |p.disks| && Within(ssds, p.disks)
    ensures var q := Visit(p, ssds, journal, n);
            Eligible(p.disks[n]) && q.osds[|q.osds| - 1].journal.None? ==>
              && q.disks == p.disks
              && Wrap(q.index, |ssds|) == 0
              && (Wrap(p.index, |ssds|) == 0 ==> Full(p.disks, ssds))
    ensures var q := Visit(p, ssds, journal, n);
            Full(p.disks, ssds) ==>
              q.disks == p.disks && (Eligible(p.disks[n]) ==> q.osds[|q.osds| - 1].journal.None?)
  {
    if ssds != [] { ScanFinds(p.disks, ssds, Wrap(p.index, |ssds|)); }
  }

  lemma AppendMiss(p: Plan, q: Plan, ssds: seq<nat>, m: nat)
    requires Within(ssds, p.disks) && Within(ssds, q.disks) && MissState(p, ssds, m)
    requires |q.osds| == |p.osds| + 1 && q.osds[..|p.osds|] == p.osds
    requires q.osds[|p.osds|].journal.None? ==>
               && q.disks == p.disks && Wrap(q.index, |ssds|) == 0
               && (Wrap(p.index, |ssds|) == 0 ==> Full(p.disks, ssds))
    requires Full(p.disks, ssds) ==> q.disks == p.disks && q.osds[|p.osds|].journal.None?
    ensures MissState(q, ssds, m)
  {
  }

  lemma VisitKeepsMiss(p: Plan, ssds: seq<nat>, journal: int, n: nat, m: nat)
    requires n < |p.disks| && Within(ssds, p.disks) && MissState(p, ssds, m)
    ensures MissState(Visit(p, ssds, journal, n), ssds, m)
  {
    VisitAppends(p, ssds, journal, n);
    VisitMiss(p, ssds, journal, n);
    if Eligible(p.disks[n]) {
      AppendMiss(p, Visit(p, ssds, journal, n), ssds, m);
    }
  }

  lemma {:induction false} WalkMisses(disks: seq<Disk>, ssds: seq<nat>, journal: int, n: nat, q: Plan, m: nat)
    requires n <= |disks| && Within(ssds, disks) && q == Walk(disks, ssds, journal, n)
    ensures MissState(q, ssds, m)
  {
    if n == 0 {
    } else {
      var p := Walk(disks, ssds, journal, n - 1);
      WalkMisses(disks, ssds, journal, n - 1, p, m);
      VisitKeepsMiss(p, ssds, journal, n - 1, m);
    }
  }

  /** Two eligible disks in a row without a journal: every SSD is full and no later disk gets a journal. */
  lemma TwoMissesMeanFull(disks: seq<Disk>, journal: int, m: nat)
    requires TwoMisses(Planned(disks, journal).osds, m)
    ensures Full(Planned(disks, journal).disks, Ssds(disks))
    ensures NoneFrom(Planned(disks, journal).osds, m)
  {
    WalkMisses(disks, Ssds(disks), journal, |disks|, Planned(disks, journal), m);
  }

  // ----- no journal is shared -----

  /** A partition of an SSD that was not there before. */
  ghost predicate OnSsd(disks: seq<Disk>, now: seq<Disk>, j: Journal) {
    j.ssd < |disks| == |now| && IsSsd(disks[j.ssd]) && |disks[j.ssd].parts| < j.number <= |now[j.ssd].parts|
  }

  ghost predicate Placed(disks: seq<Disk>, p: Plan) {
    && (forall i :: 0 <= i < |p.osds| && p.osds[i].journal.Some? ==> OnSsd(disks, p.disks, p.osds[i].journal.value))
    && (forall i, j :: 0 <= i < j < |p.osds| && p.osds[i].journal.Some? ==> p.osds[i].journal != p.osds[j].journal)
  }

  /** The new journal, if any, is the partition just made. */
  lemma VisitPlaces(p: Plan, ssds: seq<nat>, journal: int, n: nat)
    requires n < |p.disks| && AllSsds(ssds, p.disks)
    ensures var q := Visit(p, ssds, journal, n);
            Eligible(p.disks[n]) && q.osds[|q.osds| - 1].journal.Some? ==>
              var j := q.osds[|q.osds| - 1].journal.value;
              && j.ssd < |p.disks| && IsSsd(p.disks[j.ssd])
              && j.number == |p.disks[j.ssd].parts| + 1 == |q.disks[j.ssd].parts|
  {
  }

  /** One more OSD, whose journal is a partition just made, keeps the journals apart. */
  lemma AppendPlaced(disks: seq<Disk>, p: Plan, q: Plan)
    requires Placed(disks, p) && AllGrown(disks, p.disks) && AllGrown(p.disks, q.disks)
    requires |q.osds| == |p.osds| + 1 && q.osds[..|p.osds|] == p.osds
    requires q.osds[|p.osds|].journal.Some? ==>
               var j := q.osds[|p.osds|].journal.value;
               && j.ssd < |p.disks| && IsSsd(p.disks[j.ssd])
               && j.number == |p.disks[j.ssd].parts| + 1 == |q.disks[j.ssd].parts|
    ensures Placed(disks, q)
  {
  }

  lemma VisitKeepsPlaced(disks: seq<Disk>, p: Plan, ssds: seq<nat>, journal: int, n: nat)
    requires n < |p.disks| && AllSsds(ssds, p.disks) && Placed(disks, p) && AllGrown(disks, p.disks)
    ensures Placed(disks, Visit(p, ssds, journal, n))
  {
    VisitAppends(p, ssds, journal, n);
    VisitGrows(p, ssds, journal, n);
    VisitPlaces(p, ssds, journal, n);
    if Eligible(p.disks[n]) {
      AppendPlaced(disks, p, Visit(p, ssds, journal, n));
    }
  }

  lemma {:induction false} WalkPlaces(disks: seq<Disk>, ssds: seq<nat>, journal: int, n: nat, q: Plan)
    requires n <= |disks| && AllSsds(ssds, disks) && q == Walk(disks, ssds, journal, n)
    ensures Placed(disks, q)
  {
    if n == 0 {
    } else {
      var p := Walk(disks, ssds, journal, n - 1);
      WalkPlaces(disks, ssds, journal, n - 1, p);
      WalkGrows(disks, ssds, journal, n - 1, p);
      GrownSsds(disks, p.disks, ssds);
      VisitKeepsPlaced(disks, p, ssds, journal, n - 1);
    }
  }

  /** Every journal is a new partition of an SSD, and no two OSDs share one. */
  lemma JournalsDistinct(disks: seq<Disk>, journal: int)
    ensures Placed(disks, Planned(disks, journal))
  {
    SsdsAre(disks);
    WalkPlaces(disks, Ssds(disks), journal, |disks|, Planned(disks, journal));
  }

  // ----- the layout of one SSD -----

  /** `n` attempts to make a partition. */
  function Carve(d: Disk, journal: int, n: nat): Disk {
    if n == 0 then d
    else
      var e := Carve(d, journal, n - 1);
      if HasRoom(e) then Carved(e, journal) else e
  }

  predicate Fitting(parts: seq<Part>, i: nat, total: int, journal: int)
    requires i < |parts|
  {
    var p := parts[i];
    && p.start == (if i == 0 then 0 else parts[i - 1].end) + GAP
    && p.start < p.end <= total
    && (p.end == p.start + journal || (i == |parts| - 1 && p.end == total && p.end < p.start + journal))
  }

  /** New partitions start one gap after their predecessor, lie inside the disk, and only the last may be short. */
  ghost predicate LaidOut(d: Disk, e: Disk, journal: int) {
    && d.parts <= e.parts && e == d.(parts := e.parts)
    && forall i :: |d.parts| <= i < |e.parts| ==> Fitting(e.parts, i, d.total, journal)
  }

  lemma CarvedLaidOut(d: Disk, e: Disk, journal: int)
    requires journal > 0 && LaidOut(d, e, journal) && HasRoom(e)
    ensures LaidOut(d, Carved(e, journal), journal)
  {
    var f, n := Carved(e, journal), |e.parts|;
    forall i | |d.parts| <= i < n + 1 ensures Fitting(f.parts, i, d.total, journal) {
      if i < n {
        assert Fitting(e.parts, i, d.total, journal);
        assert f.parts[i] == e.parts[i] && (i > 0 ==> f.parts[i - 1] == e.parts[i - 1]);
      }
    }
  }

  /**
   * Repeated partitioning makes as many partitions as fit, laid out in order; Room is the rounded-up quotient
   * of the space behind the first gap and the length of a journal with its gap.
   */
  lemma {:induction false} CarveLayout(d: Disk, journal: int, n: nat)
    requires journal > 0
    ensures var e, room := Carve(d, journal, n), Room(d, journal);
            && LaidOut(d, e, journal)
            && |e.parts| == |d.parts| + Min(n, room)
            && Room(e, journal) == room - Min(n, room)
            && (room == 0 <==> d.total <= LastEnd(d) + GAP)
            && (room > 0 ==> (room - 1) * (journal + GAP) < d.total - LastEnd(d) - GAP <= room * (journal + GAP))
  {
    if n == 0 {
    } else {
      CarveLayout(d, journal, n - 1);
      var e := Carve(d, journal, n - 1);
      if HasRoom(e) {
        CarvedRoom(e, journal);
        CarvedLaidOut(d, e, journal);
      }
    }
  }

  lemma OneMore(a: int, p: int)
    ensures (a + 1) * p == a * p + p
  {
  }

  lemma {:induction false} ProductGrows(a: int, b: int, p: int)
    requires p > 0 && a < b
    ensures a * p + p <= b * p
    decreases b - a
  {
    OneMore(b - 1, p);
    if a + 1 < b {
      ProductGrows(a, b - 1, p);
    }
  }

  lemma QuotientIs(x: int, p: int, n: int)
    requires p > 0 && n * p <= x < n * p + p
    ensures x / p == n
  {
    var q := x / p;
    assert x == q * p + x % p;
    if q < n { ProductGrows(q, n, p); }
    if n < q { ProductGrows(n, q, p); }
  }

  /** The number of journals a disk takes, as a formula: the rounded-up quotient. */
  lemma RoomIsCeiling(d: Disk, journal: int, n: nat)
    requires journal > 0 && n == Room(d, journal)
    ensures var free, pitch := d.total - LastEnd(d) - GAP, journal + GAP;
            n == if free <= 0 then 0 else (free + pitch - 1) / pitch
  {
    var free, pitch := d.total - LastEnd(d) - GAP, journal + GAP;
    if free > 0 {
      OneMore(n - 1, pitch);
      QuotientIs(free + pitch - 1, pitch, n);
    }
  }

  function OnDisk(osds: seq<Osd>, s: nat): nat {
    if osds == [] then 0
    else
      var last := osds[|osds| - 1].journal;
      OnDisk(osds[..|osds| - 1], s) + if last.Some? && last.value.ssd == s then 1 else 0
  }

  lemma OnDiskAppend(osds: seq<Osd>, more: seq<Osd>, s: nat)
    requires |more| == |osds| + 1 && more[..|osds|] == osds
    ensures OnDisk(more, s) == OnDisk(osds, s) +
              if more[|osds|].journal.Some? && more[|osds|].journal.value.ssd == s then 1 else 0
  {
  }

  lemma VisitCarves(p: Plan, ssds: seq<nat>, journal: int, n: nat, s: nat)
    requires n < |p.disks| && Within(ssds, p.disks) && s < |p.disks|
    ensures var q := Visit(p, ssds, journal, n);
            if Eligible(p.disks[n]) && q.osds[|q.osds| - 1].journal.Some? && q.osds[|q.osds| - 1].journal.value.ssd == s
            then HasRoom(p.disks[s]) && q.disks[s] == Carved(p.disks[s], journal)
            else q.disks[s] == p.disks[s]
  {
    if ssds != [] { ScanFinds(p.disks, ssds, Wrap(p.index, |ssds|)); }
  }

  lemma VisitOnDisk(p: Plan, ssds: seq<nat>, journal: int, n: nat, s: nat, q: Plan)
    requires n < |p.disks| && Within(ssds, p.disks) && s < |p.disks| && q == Visit(p, ssds, journal, n)
    ensures || (OnDisk(q.osds, s) == OnDisk(p.osds, s) && q.disks[s] == p.disks[s])
            || (OnDisk(q.osds, s) == OnDisk(p.osds, s) + 1
                && HasRoom(p.disks[s]) && q.disks[s] == Carved(p.disks[s], journal))
  {
    VisitAppends(p, ssds, journal, n);
    VisitCarves(p, ssds, journal, n, s);
    if Eligible(p.disks[n]) {
      OnDiskAppend(p.osds, q.osds, s);
    }
  }

  /** `e` is `d` carved k times, every time with room for it: k partitions more. */
  predicate CarvedTimes(d: Disk, e: Disk, journal: int, k: nat) {
    e == Carve(d, journal, k) && |e.parts| == |d.parts| + k
  }

  lemma CarvedOnceMore(d: Disk, e: Disk, journal: int, k: nat)
    requires CarvedTimes(d, e, journal, k) && HasRoom(e)
    ensures CarvedTimes(d, Carved(e, journal), journal, k + 1)
  {
  }

  lemma VisitCarvesOn(d: Disk, p: Plan, ssds: seq<nat>, journal: int, n: nat, s: nat, q: Plan, k: nat, m: nat)
    requires n < |p.disks| && Within(ssds, p.disks) && s < |p.disks| && q == Visit(p, ssds, journal, n)
    requires k == OnDisk(p.osds, s) && CarvedTimes(d, p.disks[s], journal, k) && m == OnDisk(q.osds, s)
    ensures CarvedTimes(d, q.disks[s], journal, m)
  {
    VisitOnDisk(p, ssds, journal, n, s, q);
    if m == k + 1 {
      CarvedOnceMore(d, p.disks[s], journal, k);
    }
  }

  /** Disk s is carved once for every journal that `osds` puts on it. */
  ghost predicate CarvedFor(d: Disk, p: Plan, journal: int, s: nat) {
    s < |p.disks| && CarvedTimes(d, p.disks[s], journal, OnDisk(p.osds, s))
  }

  lemma StartCarved(disks: seq<Disk>, journal: int, s: nat)
    requires s < |disks|
    ensures CarvedFor(disks[s], Plan(disks, 0, []), journal, s)
  {
  }

  lemma VisitCarvesFor(d: Disk, p: Plan, ssds: seq<nat>, journal: int, n: nat, s: nat, q: Plan)
    requires n < |p.disks| && Within(ssds, p.disks) && CarvedFor(d, p, journal, s) && q == Visit(p, ssds, journal, n)
    ensures CarvedFor(d, q, journal, s)
  {
    VisitCarvesOn(d, p, ssds, journal, n, s, q, OnDisk(p.osds, s), OnDisk(q.osds, s));
  }

  lemma {:induction false} WalkCarvesFor(disks: seq<Disk>, ssds: seq<nat>, journal: int, n: nat, s: nat)
    requires n <= |disks| && Within(ssds, disks) && s < |disks|
    ensures CarvedFor(disks[s], Walk(disks, ssds, journal, n), journal, s)
  {
    if n == 0 {
      StartCarved(disks, journal, s);
    } else {
      var p := Walk(disks, ssds, journal, n - 1);
      WalkCarvesFor(disks, ssds, journal, n - 1, s);
      VisitCarvesFor(disks[s], p, ssds, journal, n - 1, s, Visit(p, ssds, journal, n - 1));
    }
  }

  lemma WalkCarves(disks: seq<Disk>, ssds: seq<nat>, journal: int, n: nat, q: Plan, s: nat, m: nat)
    requires n <= |disks| && Within(ssds, disks) && s < |disks| && q == Walk(disks, ssds, journal, n)
    requires m == OnDisk(q.osds, s)
    ensures CarvedTimes(disks[s], q.disks[s], journal, m)
  {
    WalkCarvesFor(disks, ssds, journal, n, s);
  }

  /**
   * Each disk ends up with one partition more for every journal the walk put on it, and laid out as CarveLayout
   * says.
   */
  lemma DiskIsCarved(disks: seq<Disk>, journal: int, s: nat)
    requires journal > 0 && s < |disks|
    ensures var p := Planned(disks, journal);
            && CarvedTimes(disks[s], p.disks[s], journal, OnDisk(p.osds, s))
            && LaidOut(disks[s], p.disks[s], journal)
  {
    var p := Planned(disks, journal);
    WalkCarves(disks, Ssds(disks), journal, |disks|, p, s, OnDisk(p.osds, s));
    CarveLayout(disks[s], journal, OnDisk(p.osds, s));
  }

  /** In figures: what an empty SSD of 16000 MB gets with journals of the default length. */
  lemma WorkedLayout(d: Disk)
    requires d.parts == [] && d.total == 16000
    ensures Carve(d, DEFAULT_JOURNAL, 4).parts
            == [Part(100, 5220), Part(5320, 10440), Part(10540, 15660), Part(15760, 16000)]
    ensures !HasRoom(Carve(d, DEFAULT_JOURNAL, 4))
  {
    assert Carve(d, DEFAULT_JOURNAL, 1).parts == [Part(100, 5220)];
    assert Carve(d, DEFAULT_JOURNAL, 2).parts == [Part(100, 5220), Part(5320, 10440)];
    assert Carve(d, DEFAULT_JOURNAL, 3).parts == [Part(100, 5220), Part(5320, 10440), Part(10540, 15660)];
  }
}
