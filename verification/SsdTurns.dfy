/** The order in which the assignment turns to the SSDs: round the even places of the list, not round all. */
module SsdTurns {
  import opened Journals
  import opened JournalBounds

  /** How often place j of e comes up when h turns go round, from place 0 on. */
  function Turns(h: nat, e: nat, j: nat): nat
    requires e > 0
  {
    h / e + if j < h % e then 1 else 0
  }

  lemma NextTurn(h: nat, e: nat)
    requires e > 0
    ensures (h + 1) % e == if h % e + 1 == e then 0 else h % e + 1
    ensures (h + 1) / e == if h % e + 1 == e then h / e + 1 else h / e
  {
    var q, r := h / e, h % e;
    assert h == q * e + r;
    OneMore(q, e);
    if r + 1 == e {
      QuotientIs(h + 1, e, q + 1);
    } else {
      QuotientIs(h + 1, e, q);
    }
    assert h + 1 == ((h + 1) / e) * e + (h + 1) % e;
  }

  lemma TurnsNext(h: nat, e: nat, j: nat)
    requires e > 0 && j < e
    ensures Turns(h + 1, e, j) == Turns(h, e, j) + if j == h % e then 1 else 0
  {
    NextTurn(h, e);
  }

  lemma NoTurnsYet(e: nat, j: nat)
    requires e > 0
    ensures 0 % e == 0 && Turns(0, e, j) == 0
  {
    QuotientIs(0, e, 0);
    assert 0 == (0 / e) * e + 0 % e;
  }

  /** The number of even places. */
  function Evens(ssds: seq<nat>): nat {
    (|ssds| + 1) / 2
  }

  /** Place 2j has an odd neighbour behind it and is asked for more journals by h disks than it has room for. */
  predicate Overbooked(disks: seq<Disk>, ssds: seq<nat>, journal: int, h: nat, j: nat)
    requires journal > 0 && Within(ssds, disks)
  {
    2 * j + 1 < |ssds| && Turns(h, Evens(ssds), j) > Room(disks[ssds[2 * j]], journal)
  }

  /** After h turns, place 2j has given a journal at each of its turns and its odd neighbour none. */
  predicate PlaceInTurn(disks: seq<Disk>, now: seq<Disk>, ssds: seq<nat>, journal: int, h: nat, j: nat)
    requires journal > 0 && Within(ssds, disks) && Within(ssds, now)
  {
    2 * j + 1 < |ssds| ==>
      && Room(now[ssds[2 * j]], journal) == Room(disks[ssds[2 * j]], journal) - Turns(h, Evens(ssds), j)
      && now[ssds[2 * j + 1]] == disks[ssds[2 * j + 1]]
  }

  ghost predicate InTurn(disks: seq<Disk>, p: Plan, ssds: seq<nat>, journal: int)
    requires journal > 0 && Within(ssds, disks) && |p.disks| == |disks|
  {
    ssds != [] ==>
      && Wrap(p.index, |ssds|) == 2 * (|p.osds| % Evens(ssds))
      && forall j: nat :: PlaceInTurn(disks, p.disks, ssds, journal, |p.osds|, j)
  }

  ghost predicate NoneOverbooked(disks: seq<Disk>, ssds: seq<nat>, journal: int, h: nat)
    requires journal > 0 && Within(ssds, disks)
  {
    forall j: nat :: !Overbooked(disks, ssds, journal, h, j)
  }

  /** One more disk, and still nobody overbooked: its turn is served in place, or missed at a last lone place. */
  lemma VisitInTurn(disks: seq<Disk>, p: Plan, ssds: seq<nat>, journal: int, n: nat, q: Plan)
    requires journal > 0 && |p.disks| == |disks| && n < |disks| && Within(ssds, disks) && Distinct(ssds)
    requires InTurn(disks, p, ssds, journal) && Eligible(p.disks[n]) && q == Visit(p, ssds, journal, n)
    requires NoneOverbooked(disks, ssds, journal, |p.osds| + 1)
    ensures InTurn(disks, q, ssds, journal)
  {
    if ssds != [] {
      var h, e := |p.osds|, Evens(ssds);
      var t := h % e;
      NextTurn(h, e);
      TurnsNext(h, e, t);
      assert PlaceInTurn(disks, p.disks, ssds, journal, h, t) && !Overbooked(disks, ssds, journal, h + 1, t);
      ScanFinds(p.disks, ssds, 2 * t);
      var served := HasRoom(p.disks[ssds[2 * t]]);
      assert served || 2 * t + 1 == |ssds|;
      var next := |q.osds|;
      assert next == h + 1;
      forall j: nat ensures PlaceInTurn(disks, q.disks, ssds, journal, next, j) {
        if 2 * j + 1 < |ssds| {
          assert PlaceInTurn(disks, p.disks, ssds, journal, h, j);
          TurnsNext(h, e, j);
          if j == t { CarvedRoom(p.disks[ssds[2 * t]], journal); }
        }
      }
    }
  }

  /** The first disk that overbooks a place gets its journal from the odd neighbour, which still has room. */
  lemma VisitOverbooks(disks: seq<Disk>, p: Plan, ssds: seq<nat>, journal: int, n: nat, q: Plan, j: nat)
    requires journal > 0 && |p.disks| == |disks| && n < |disks| && Within(ssds, disks) && Distinct(ssds)
    requires InTurn(disks, p, ssds, journal) && Eligible(p.disks[n]) && q == Visit(p, ssds, journal, n)
    requires NoneOverbooked(disks, ssds, journal, |p.osds|) && Overbooked(disks, ssds, journal, |p.osds| + 1, j)
    requires HasRoom(disks[ssds[2 * j + 1]])
    ensures q.disks[ssds[2 * j + 1]] == Carved(disks[ssds[2 * j + 1]], journal)
  {
    var h, e := |p.osds|, Evens(ssds);
    TurnsNext(h, e, j);
    assert !Overbooked(disks, ssds, journal, h, j);
    assert PlaceInTurn(disks, p.disks, ssds, journal, h, j);
    assert !HasRoom(p.disks[ssds[2 * j]]);
    assert Scan(p.disks, ssds, 2 * j) == Scan(p.disks, ssds, 2 * j + 1) == 2 * j + 1;
  }

  lemma FewerTurns(disks: seq<Disk>, ssds: seq<nat>, journal: int, h: nat)
    requires journal > 0 && Within(ssds, disks) && NoneOverbooked(disks, ssds, journal, h + 1)
    ensures NoneOverbooked(disks, ssds, journal, h)
  {
    forall j: nat ensures !Overbooked(disks, ssds, journal, h, j) {
      assert !Overbooked(disks, ssds, journal, h + 1, j);
      if 2 * j + 1 < |ssds| { TurnsNext(h, Evens(ssds), j); }
    }
  }

  lemma {:induction false} WalkInTurn(disks: seq<Disk>, ssds: seq<nat>, journal: int, n: nat, q: Plan)
    requires journal > 0 && n <= |disks| && Within(ssds, disks) && Distinct(ssds)
    requires q == Walk(disks, ssds, journal, n) && NoneOverbooked(disks, ssds, journal, |q.osds|)
    ensures InTurn(disks, q, ssds, journal)
  {
    if n == 0 {
      if ssds != [] {
        NoTurnsYet(Evens(ssds), 0);
        forall j: nat ensures PlaceInTurn(disks, q.disks, ssds, journal, 0, j) {
          NoTurnsYet(Evens(ssds), j);
        }
      }
    } else {
      var p := Walk(disks, ssds, journal, n - 1);
      VisitAppends(p, ssds, journal, n - 1);
      if Eligible(p.disks[n - 1]) {
        FewerTurns(disks, ssds, journal, |p.osds|);
        WalkInTurn(disks, ssds, journal, n - 1, p);
        VisitInTurn(disks, p, ssds, journal, n - 1, q);
      } else {
        WalkInTurn(disks, ssds, journal, n - 1, p);
      }
    }
  }

  /** Some SSD at an odd place of the list has a partition more. */
  ghost predicate OddServed(disks: seq<Disk>, now: seq<Disk>, ssds: seq<nat>)
    requires Within(ssds, disks) && Within(ssds, now)
  {
    exists j: nat :: NeighbourServed(disks, now, ssds, j)
  }

  predicate NeighbourServed(disks: seq<Disk>, now: seq<Disk>, ssds: seq<nat>, j: nat)
    requires Within(ssds, disks) && Within(ssds, now)
  {
    2 * j + 1 < |ssds| && |now[ssds[2 * j + 1]].parts| > |disks[ssds[2 * j + 1]].parts|
  }

  ghost predicate OddHaveRoom(disks: seq<Disk>, ssds: seq<nat>)
    requires Within(ssds, disks)
  {
    forall k :: 0 <= k < |ssds| && k % 2 == 1 ==> HasRoom(disks[ssds[k]])
  }

  lemma FirstServed(disks: seq<Disk>, p: Plan, ssds: seq<nat>, journal: int, n: nat, q: Plan)
    requires journal > 0 && |p.disks| == |disks| && n < |disks| && Within(ssds, disks) && Distinct(ssds)
    requires OddHaveRoom(disks, ssds) && InTurn(disks, p, ssds, journal) && q == Visit(p, ssds, journal, n)
    requires |q.osds| == |p.osds| + 1 && Eligible(p.disks[n])
    requires NoneOverbooked(disks, ssds, journal, |p.osds|) && !NoneOverbooked(disks, ssds, journal, |q.osds|)
    ensures OddServed(disks, q.disks, ssds)
  {
    var j: nat :| Overbooked(disks, ssds, journal, |q.osds|, j);
    VisitOverbooks(disks, p, ssds, journal, n, q, j);
    assert NeighbourServed(disks, q.disks, ssds, j);
  }

  lemma ServedStays(disks: seq<Disk>, p: Plan, ssds: seq<nat>, journal: int, n: nat, q: Plan)
    requires |p.disks| == |disks| && n < |disks| && Within(ssds, disks) && AllSsds(ssds, p.disks)
    requires OddServed(disks, p.disks, ssds) && q == Visit(p, ssds, journal, n)
    ensures OddServed(disks, q.disks, ssds)
  {
    VisitGrows(p, ssds, journal, n);
    var j: nat :| NeighbourServed(disks, p.disks, ssds, j);
    assert Grown(p.disks[ssds[2 * j + 1]], q.disks[ssds[2 * j + 1]]);
    assert NeighbourServed(disks, q.disks, ssds, j);
  }

  /** Before a visit: the odd neighbours are still there, and while nobody is overbooked all is in turn. */
  ghost predicate Ready(disks: seq<Disk>, p: Plan, ssds: seq<nat>, journal: int)
    requires journal > 0 && Within(ssds, disks) && |p.disks| == |disks|
  {
    AllSsds(ssds, p.disks) && (NoneOverbooked(disks, ssds, journal, |p.osds|) ==> InTurn(disks, p, ssds, journal))
  }

  /** Once somebody is overbooked, an odd place has been served. */
  ghost predicate Served(disks: seq<Disk>, p: Plan, ssds: seq<nat>, journal: int)
    requires journal > 0 && Within(ssds, disks) && |p.disks| == |disks|
  {
    NoneOverbooked(disks, ssds, journal, |p.osds|) || (Within(ssds, p.disks) && OddServed(disks, p.disks, ssds))
  }

  lemma WalkReady(disks: seq<Disk>, ssds: seq<nat>, journal: int, n: nat, p: Plan)
    requires journal > 0 && n <= |disks| && AllSsds(ssds, disks) && Distinct(ssds) && p == Walk(disks, ssds, journal, n)
    ensures Ready(disks, p, ssds, journal)
  {
    WalkGrows(disks, ssds, journal, n, p);
    GrownSsds(disks, p.disks, ssds);
    if NoneOverbooked(disks, ssds, journal, |p.osds|) {
      WalkInTurn(disks, ssds, journal, n, p);
    }
  }

  lemma VisitServes(disks: seq<Disk>, p: Plan, ssds: seq<nat>, journal: int, n: nat, q: Plan)
    requires journal > 0 && |p.disks| == |disks| && n < |disks| && AllSsds(ssds, disks) && Distinct(ssds)
    requires OddHaveRoom(disks, ssds) && q == Visit(p, ssds, journal, n)
    requires Ready(disks, p, ssds, journal) && Served(disks, p, ssds, journal)
    ensures Served(disks, q, ssds, journal)
  {
    VisitAppends(p, ssds, journal, n);
    if !NoneOverbooked(disks, ssds, journal, |p.osds|) {
      ServedStays(disks, p, ssds, journal, n, q);
    } else if !NoneOverbooked(disks, ssds, journal, |q.osds|) {
      FirstServed(disks, p, ssds, journal, n, q);
    }
  }

  lemma NobodyYet(disks: seq<Disk>, ssds: seq<nat>, journal: int)
    requires journal > 0 && Within(ssds, disks)
    ensures NoneOverbooked(disks, ssds, journal, 0)
  {
    forall j: nat ensures !Overbooked(disks, ssds, journal, 0, j) {
      if 2 * j + 1 < |ssds| { NoTurnsYet(Evens(ssds), j); }
    }
  }

  lemma {:induction false} WalkServes(disks: seq<Disk>, ssds: seq<nat>, journal: int, n: nat, q: Plan)
    requires journal > 0 && n <= |disks| && AllSsds(ssds, disks) && Distinct(ssds) && OddHaveRoom(disks, ssds)
    requires q == Walk(disks, ssds, journal, n)
    ensures Served(disks, q, ssds, journal)
  {
    if n == 0 {
      NobodyYet(disks, ssds, journal);
    } else {
      var p := Walk(disks, ssds, journal, n - 1);
      WalkServes(disks, ssds, journal, n - 1, p);
      WalkReady(disks, ssds, journal, n - 1, p);
      VisitServes(disks, p, ssds, journal, n - 1, q);
    }
  }

  /**
   * No round robin: the eligible disks go round the even places of the SSD list only, and the SSDs at odd places
   * are untouched as long as each even place with a neighbour has room for its own turns.
   */
  lemma OddSsdsGetNothing(disks: seq<Disk>, journal: int, p: Plan, k: nat)
    requires journal > 0 && p == Planned(disks, journal) && k < |Ssds(disks)| && k % 2 == 1
    requires NoneOverbooked(disks, Ssds(disks), journal, |EligibleUpTo(disks, |disks|)|)
    ensures p.disks[Ssds(disks)[k]] == disks[Ssds(disks)[k]]
  {
    var ssds := Ssds(disks);
    SsdsAre(disks);
    WalkVisitsTheEligible(disks, ssds, journal, |disks|, Planned(disks, journal));
    WalkInTurn(disks, ssds, journal, |disks|, Planned(disks, journal));
    assert PlaceInTurn(disks, p.disks, ssds, journal, |p.osds|, k / 2);
  }

  /**
   * When the SSDs at odd places have room, one of them gets a journal if and only if some even place in front of
   * one is overbooked by the number of eligible disks.
   */
  lemma OddSsdsServedExactly(disks: seq<Disk>, journal: int, p: Plan)
    requires journal > 0 && p == Planned(disks, journal) && OddHaveRoom(disks, Ssds(disks))
    ensures OddServed(disks, p.disks, Ssds(disks)) <==>
            exists j: nat :: Overbooked(disks, Ssds(disks), journal, |EligibleUpTo(disks, |disks|)|, j)
  {
    var ssds, h := Ssds(disks), |EligibleUpTo(disks, |disks|)|;
    SsdsAre(disks);
    WalkVisitsTheEligible(disks, ssds, journal, |disks|, Planned(disks, journal));
    if NoneOverbooked(disks, ssds, journal, h) {
      forall j: nat ensures !NeighbourServed(disks, p.disks, ssds, j) {
        if 2 * j + 1 < |ssds| { OddSsdsGetNothing(disks, journal, p, 2 * j + 1); }
      }
    } else {
      WalkServes(disks, ssds, journal, |disks|, Planned(disks, journal));
    }
  }
}
