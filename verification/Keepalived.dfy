/** The keepalived recipe: MASTER or BACKUP for each node, fixed from the elected node on its first run. */
module Keepalived {
  import opened Names
  import opened Election

  datatype Instance = Instance(routerId: string, priority: string, state: string)

  const MASTER := Instance("lsb01", "110", "MASTER")
  const BACKUP := Instance("lsb02", "101", "BACKUP")

  function Number(digits: string): int {
    if digits == "" then 0 else 10 * Number(digits[..|digits| - 1]) + (digits[|digits| - 1] as int - '0' as int)
  }

  /** The MASTER has the higher priority, by which keepalived chooses, and a router identifier of its own. */
  lemma MasterOutranksBackup()
    ensures Number(MASTER.priority) == 110 && Number(BACKUP.priority) == 101
    ensures Number(MASTER.priority) > Number(BACKUP.priority) && MASTER.routerId != BACKUP.routerId
    ensures MASTER.state == "MASTER" && BACKUP.state == "BACKUP"
  {
    assert Number("11") == 10 * Number("1") + 1 && Number("10") == 10 * Number("1");
    assert "110"[..2] == "11" && "101"[..2] == "10" && "11"[..1] == "1" && "10"[..1] == "1";
  }

  /** Role members, tag and the instances the nodes have written into their attributes. */
  datatype Ha = Ha(members: set<Name>, tagged: set<Name>, instances: map<Name, Instance>)

  const EMPTY := Ha({}, {}, map[])

  /** One run of the recipe on `n`, whose searches returned `masters` and `seen`. */
  function ConvergeWith(h: Ha, n: Name, masters: set<Name>, seen: set<Name>): Ha {
    match Answer(masters, seen)
    case NoMembers => h
    case Elected(m) =>
      var role := if n == m then MASTER else BACKUP;
      h.(tagged := TagsAfter(h.tagged, n, masters, seen),
         instances := if n in h.instances then h.instances else h.instances[n := role])
  }

  /** A run that dies once the election is over: tags are saved at once, attributes when a run is over. */
  function Visited(h: Ha, n: Name, masters: set<Name>, seen: set<Name>, dies: bool): Ha {
    if dies then h.(tagged := TagsAfter(h.tagged, n, masters, seen)) else ConvergeWith(h, n, masters, seen)
  }

  class Cluster {
    const store: TagStore
    var members: set<Name>
    var instances: map<Name, Instance>

    ghost function Value(): Ha
      reads this, store
    {
      Ha(members, store.tagged, instances)
    }

    constructor ()
      ensures Value() == EMPTY && fresh(store)
    {
      store := new TagStore();
      members, instances := {}, map[];
    }

    method Join(n: Name)
      modifies this`members
      ensures Value() == old(Value()).(members := old(members) + {n})
    {
      members := members + {n};
    }

    /** The recipe; an exception in the election or a death after it (ok == false) comes before anything is written. */
    method Converge(n: Name, masters: set<Name>, seen: set<Name>, dies: bool) returns (ok: bool)
      modifies this`instances, store
      ensures ok <==> (masters != {} || seen != {}) && !dies
      ensures Value() == Visited(old(Value()), n, masters, seen, dies)
    {
      var elected := store.KeepalivedMaster(n, masters, seen);
      if elected.NoMembers? || dies {
        return false;
      }
      if n == elected.name {
        if n !in instances {
          instances := instances[n := Instance("lsb01", "110", "MASTER")];
        }
      } else {
        if n !in instances {
          instances := instances[n := Instance("lsb02", "101", "BACKUP")];
        }
      }
      return true;
    }
  }

  // ----- every run in which the search for the tag is up to date, nodes joining at any time -----

  /** `seen` is what the second search, for the members of the role, returns; the run may die after the election. */
  datatype Event = Join(node: Name) | Converge(node: Name, seen: set<Name>, dies: bool)

  /** With `upToDate` the second search is up to date as well. */
  predicate Enabled(h: Ha, e: Event, upToDate: bool) {
    e.Converge? ==> e.node in h.members && (upToDate ==> e.seen == h.members)
  }

  function Step(h: Ha, e: Event): Ha {
    match e
    case Join(n) => h.(members := h.members + {n})
    case Converge(n, seen, dies) => Visited(h, n, h.tagged * h.members, seen, dies)
  }

  ghost predicate Run(h: Ha, events: seq<Event>, k: Ha, upToDate: bool)
    decreases events
  {
    if events == [] then h == k
    else Enabled(h, events[0], upToDate) && Run(Step(h, events[0]), events[1..], k, upToDate)
  }

  /** A run of this node has lived. */
  predicate Ran(events: seq<Event>, n: Name) {
    exists e :: e in events && e.Converge? && e.node == n && !e.dies
  }

  ghost predicate Inv(h: Ha) {
    && h.tagged <= h.members && h.instances.Keys <= h.members
    && (forall a, b :: a in h.tagged && b in h.tagged ==> a == b)
    && (forall n :: n in h.instances ==> h.instances[n] == BACKUP || (h.instances[n] == MASTER && n in h.tagged))
  }

  /** With both searches up to date: the tagged node is MASTER, and while there is none the least member has not run. */
  ghost predicate FreshInv(h: Ha) {
    && (forall n :: n in h.tagged && n in h.instances ==> h.instances[n] == MASTER)
    && (h.tagged == {} && h.members != {} ==> Least(h.members) !in h.instances)
  }

  /** What later runs may not undo: a tag once given and an instance once written. */
  ghost predicate Kept(h: Ha, k: Ha) {
    && h.members <= k.members
    && (h.tagged != {} ==> k.tagged == h.tagged)
    && (forall n :: n in h.instances ==> n in k.instances && k.instances[n] == h.instances[n])
  }

  lemma StepKeepsInv(h: Ha, e: Event, upToDate: bool)
    requires Inv(h) && (upToDate ==> FreshInv(h)) && Enabled(h, e, upToDate)
    ensures Inv(Step(h, e)) && (upToDate ==> FreshInv(Step(h, e))) && Kept(h, Step(h, e))
    ensures upToDate && e.Converge? && !e.dies ==> e.node in Step(h, e).instances
  {
    match e
    case Join(n) =>
      if h.tagged == {} && h.members != {} {
        GrowLeast(h.members, n);
        if n in h.members { assert h.members + {n} == h.members; }
      }
    case Converge(n, seen, _) =>
      var masters := h.tagged * h.members;
      assert masters == h.tagged;
      if masters != {} {
        var t := Least(masters);
        assert masters == {t};
      }
  }

  lemma {:induction false} RunKeepsInv(h: Ha, events: seq<Event>, k: Ha, upToDate: bool)
    requires Inv(h) && (upToDate ==> FreshInv(h)) && Run(h, events, k, upToDate)
    ensures Inv(k) && (upToDate ==> FreshInv(k)) && Kept(h, k)
    ensures upToDate ==> forall n :: Ran(events, n) ==> n in k.instances
    decreases events
  {
    if events == [] {
    } else {
      var h1 := Step(h, events[0]);
      StepKeepsInv(h, events[0], upToDate);
      RunKeepsInv(h1, events[1..], k, upToDate);
      forall n | upToDate && Ran(events, n) ensures n in k.instances {
        var e :| e in events && e.Converge? && e.node == n && !e.dies;
        if e != events[0] {
          assert e in events[1..];
          assert Ran(events[1..], n);
        }
      }
    }
  }

  /**
   * An up-to-date search for the tag is enough, whatever members the second search finds and whatever runs die: over
   * every run at most one node is ever tagged, only that node can be MASTER, and neither tag nor instance ever changes.
   */
  lemma AtMostOneMaster(before: seq<Event>, h: Ha, after: seq<Event>, k: Ha, a: Name, b: Name)
    requires Run(EMPTY, before, h, false) && Run(h, after, k, false)
    ensures a in h.tagged && b in k.tagged ==> a == b
    ensures a in h.instances && b in k.instances && h.instances[a] == k.instances[b] == MASTER ==> a == b
    ensures a in h.instances ==>
              && (h.instances[a] == BACKUP || (h.instances[a] == MASTER && a in h.tagged))
              && a in k.instances && k.instances[a] == h.instances[a]
  {
    RunKeepsInv(EMPTY, before, h, false);
    RunKeepsInv(h, after, k, false);
  }

  /**
   * With both searches up to date, whatever runs die, at any point of any run: of the nodes that have run to the
   * end the tagged one is MASTER with priority 110 and every other is BACKUP with 101.
   */
  lemma OneMaster(events: seq<Event>, h: Ha, a: Name)
    requires Run(EMPTY, events, h, true)
    ensures Ran(events, a) ==> a in h.instances
    ensures a in h.instances ==> h.instances[a] == if a in h.tagged then MASTER else BACKUP
  {
    RunKeepsInv(EMPTY, events, h, true);
  }

  /** Once every member has run the recipe to the end there is exactly one MASTER, whatever other runs died. */
  lemma ExactlyOneMaster(events: seq<Event>, h: Ha)
    requires Run(EMPTY, events, h, true) && h.members != {}
    requires forall n :: n in h.members ==> Ran(events, n)
    ensures exists m :: h.tagged == {m}
                        && (forall n :: n in h.members <==> n in h.instances)
                        && forall n :: n in h.members ==> h.instances[n] == (if n == m then MASTER else BACKUP)
  {
    RunKeepsInv(EMPTY, events, h, true);
    assert Least(h.members) in h.instances;
    var m :| m in h.tagged;
    assert h.tagged == {m};
  }

  // ----- every run with any searches at all: exactly when there are two MASTERs or a tagged BACKUP -----

  predicate OneMasterAtMost(h: Ha) {
    forall a, b :: a in h.instances && b in h.instances && h.instances[a] == h.instances[b] == MASTER ==> a == b
  }

  predicate NoTaggedBackup(h: Ha) {
    forall a :: a in h.tagged && a in h.instances ==> h.instances[a] == MASTER
  }

  /** The second MASTER comes from a node's first whole run that elects the node itself while there is one already. */
  lemma SecondMasterExactly(h: Ha, n: Name, masters: set<Name>, seen: set<Name>, dies: bool)
    requires OneMasterAtMost(h)
    ensures !OneMasterAtMost(Visited(h, n, masters, seen, dies)) <==>
            && !dies && n !in h.instances && Answer(masters, seen) == Elected(n)
            && exists m :: m in h.instances && h.instances[m] == MASTER
  {
    var k := Visited(h, n, masters, seen, dies);
    if !dies && n !in h.instances && Answer(masters, seen) == Elected(n) {
      assert k.instances[n] == MASTER;
      if m :| m in h.instances && h.instances[m] == MASTER {
        assert k.instances[m] == MASTER && m != n;
      }
    }
  }

  /**
   * A tagged BACKUP comes from a run that finds no tag and whose least member is a settled BACKUP, or from a node's
   * first whole run when an earlier one died with the tag, which the search does not show and so elects another.
   */
  lemma TaggedBackupExactly(h: Ha, n: Name, masters: set<Name>, seen: set<Name>, dies: bool)
    requires NoTaggedBackup(h)
    ensures !NoTaggedBackup(Visited(h, n, masters, seen, dies)) <==>
            || (masters == {} && seen != {} && n == Least(seen) && n in h.instances && h.instances[n] != MASTER)
            || (!dies && n !in h.instances && n in h.tagged && n !in masters
                && exists m :: m != n && Answer(masters, seen) == Elected(m))
  {
    var k := Visited(h, n, masters, seen, dies);
    if masters == {} && seen != {} && n == Least(seen) {
      assert n in k.tagged;
    } else if !dies && n !in h.instances && n in h.tagged && n !in masters {
      assert n in k.tagged;
    }
  }

  /** A run of the recipe on a node, with whatever its two searches returned; it may die after the election. */
  datatype Search = Search(node: Name, masters: set<Name>, seen: set<Name>, dies: bool)

  function After(h: Ha, c: Search): Ha {
    Visited(h, c.node, c.masters, c.seen, c.dies)
  }

  /** The state after a sequence of runs, last one outermost. */
  function Exec(h: Ha, runs: seq<Search>): Ha
    decreases |runs|
  {
    if runs == [] then h else After(Exec(h, runs[..|runs| - 1]), runs[|runs| - 1])
  }

  predicate ElectsItself(c: Search) {
    Answer(c.masters, c.seen) == Elected(c.node)
  }

  /** A run that lives, in which a search found somebody. */
  predicate Whole(c: Search) {
    !c.dies && !Answer(c.masters, c.seen).NoMembers?
  }

  /** Run k is the first whole one on its node. */
  predicate First(runs: seq<Search>, k: nat) {
    k < |runs| && Whole(runs[k]) && forall j :: 0 <= j < k && runs[j].node == runs[k].node ==> !Whole(runs[j])
  }

  /** This run tags its node. */
  predicate Tags(c: Search) {
    c.masters == {} && c.seen != {} && c.node == Least(c.seen)
  }

  /** This run takes the tag of node n away. */
  predicate Trims(c: Search, n: Name) {
    n in c.masters && n != Least(c.masters)
  }

  lemma {:induction false} InstanceHasFirst(runs: seq<Search>, h: Ha, n: Name) returns (k: nat)
    requires h.instances == map[] && n in Exec(h, runs).instances
    ensures First(runs, k) && runs[k].node == n
    decreases |runs|
  {
    var init := runs[..|runs| - 1];
    if n in Exec(h, init).instances {
      k := InstanceHasFirst(init, h, n);
    } else {
      k := |runs| - 1;
      forall j | 0 <= j < k && runs[j].node == n ensures !Whole(runs[j]) {
        if Whole(init[j]) {
          var i := FirstOf(init, j);
          FirstFixesRole(init, h, i);
        }
      }
    }
  }

  lemma {:induction false} FirstOf(runs: seq<Search>, j: nat) returns (i: nat)
    requires j < |runs| && Whole(runs[j])
    ensures First(runs, i) && runs[i].node == runs[j].node && i <= j
    decreases j
  {
    if First(runs, j) {
      i := j;
    } else {
      var l :| 0 <= l < j && runs[l].node == runs[j].node && Whole(runs[l]);
      i := FirstOf(runs, l);
    }
  }

  /** The first whole run fixes the node's role for good. */
  lemma {:induction false} FirstFixesRole(runs: seq<Search>, h: Ha, k: nat)
    requires h.instances == map[] && First(runs, k)
    ensures var now := Exec(h, runs).instances;
            runs[k].node in now && now[runs[k].node] == if ElectsItself(runs[k]) then MASTER else BACKUP
    decreases |runs|, 0
  {
    var init := runs[..|runs| - 1];
    if k < |init| {
      FirstFixesRole(init, h, k);
    } else if runs[k].node in Exec(h, init).instances {
      var j := InstanceHasFirst(init, h, runs[k].node);
      assert false;
    }
  }

  /** Two nodes end up MASTER exactly if two nodes each elected themselves in their first whole run. */
  lemma TwoMastersExactly(runs: seq<Search>, h: Ha)
    requires h.instances == map[]
    ensures !OneMasterAtMost(Exec(h, runs)) <==>
            exists i: nat, j: nat :: First(runs, i) && First(runs, j) && runs[i].node != runs[j].node
                                     && ElectsItself(runs[i]) && ElectsItself(runs[j])
  {
    var k := Exec(h, runs);
    if !OneMasterAtMost(k) {
      var a, b :| a in k.instances && b in k.instances && k.instances[a] == k.instances[b] == MASTER && a != b;
      var i := InstanceHasFirst(runs, h, a);
      var j := InstanceHasFirst(runs, h, b);
      FirstFixesRole(runs, h, i);
      FirstFixesRole(runs, h, j);
    }
    if i: nat, j: nat :| First(runs, i) && First(runs, j) && runs[i].node != runs[j].node
                         && ElectsItself(runs[i]) && ElectsItself(runs[j]) {
      FirstFixesRole(runs, h, i);
      FirstFixesRole(runs, h, j);
    }
  }

  /** Run j gives node n its tag, and no run up to k takes it away. */
  ghost predicate TagHeld(runs: seq<Search>, n: Name, j: nat, k: nat) {
    && j < k <= |runs| && runs[j].node == n && Tags(runs[j])
    && forall l :: j < l < k ==> !Trims(runs[l], n)
  }

  lemma {:induction false} TagHasSource(runs: seq<Search>, h: Ha, n: Name) returns (j: nat)
    requires h.tagged == {} && n in Exec(h, runs).tagged
    ensures TagHeld(runs, n, j, |runs|)
    decreases |runs|
  {
    var init, last := runs[..|runs| - 1], |runs| - 1;
    if runs[last].node == n && Tags(runs[last]) {
      j := last;
    } else {
      j := TagHasSource(init, h, n);
    }
  }

  lemma {:induction false} HeldIsTagged(runs: seq<Search>, h: Ha, n: Name, j: nat)
    requires TagHeld(runs, n, j, |runs|)
    ensures n in Exec(h, runs).tagged
    decreases |runs|
  {
    var init, last := runs[..|runs| - 1], |runs| - 1;
    if j < last {
      assert !Trims(runs[last], n);
      HeldIsTagged(init, h, n, j);
    }
  }

  /** Run i made its node a BACKUP, and the node has its tag from run j, then or later. */
  ghost predicate TagsABackup(runs: seq<Search>, i: nat, j: nat) {
    && First(runs, i) && !ElectsItself(runs[i])
    && TagHeld(runs, runs[i].node, j, if i < j then j + 1 else i + 1)
  }

  lemma TaggedBackupHasCause(runs: seq<Search>, h: Ha, now: Ha, a: Name) returns (i: nat, j: nat)
    requires h.instances == map[] && h.tagged == {} && now == Exec(h, runs)
    requires a in now.tagged && a in now.instances && now.instances[a] != MASTER
    ensures TagsABackup(runs, i, j)
  {
    j := TagHasSource(runs, h, a);
    i := InstanceHasFirst(runs, h, a);
    FirstFixesRole(runs, h, i);
  }

  lemma CauseTagsABackup(runs: seq<Search>, h: Ha, i: nat, j: nat)
    requires h.instances == map[] && TagsABackup(runs, i, j) && |runs| == if i < j then j + 1 else i + 1
    ensures !NoTaggedBackup(Exec(h, runs))
  {
    FirstFixesRole(runs, h, i);
    HeldIsTagged(runs, h, runs[i].node, j);
  }

  /**
   * At some point a tagged node is BACKUP exactly if some node elected another in its first whole run, and got its
   * tag in another of its runs: a later one, or an earlier one which died, and nobody had trimmed it in between.
   */
  lemma TaggedBackupOverRuns(runs: seq<Search>, h: Ha)
    requires h.instances == map[] && h.tagged == {}
    ensures (exists m :: 0 <= m <= |runs| && !NoTaggedBackup(Exec(h, runs[..m]))) <==>
            exists i: nat, j: nat :: TagsABackup(runs, i, j)
  {
    if m :| 0 <= m <= |runs| && !NoTaggedBackup(Exec(h, runs[..m])) {
      var now := Exec(h, runs[..m]);
      var a :| a in now.tagged && a in now.instances && now.instances[a] != MASTER;
      var i, j := TaggedBackupHasCause(runs[..m], h, now, a);
      CauseInPrefix(runs, m, i, j);
    }
    if i: nat, j: nat :| TagsABackup(runs, i, j) {
      var m := if i < j then j + 1 else i + 1;
      CauseInPrefix(runs, m, i, j);
      CauseTagsABackup(runs[..m], h, i, j);
    }
  }

  lemma CauseInPrefix(runs: seq<Search>, m: nat, i: nat, j: nat)
    requires m <= |runs|
    ensures TagsABackup(runs[..m], i, j) ==> TagsABackup(runs, i, j)
    ensures TagsABackup(runs, i, j) && m == (if i < j then j + 1 else i + 1) ==> TagsABackup(runs[..m], i, j)
  {
  }

  /** A run that dies can do it too: "b" dies with its tag, and its next run finds "a" and not the tag. */
  lemma DeathCanTagABackup()
    ensures var h := Ha({"a", "b"}, {}, map[]);
            var k := Visited(Visited(h, "b", {}, {"b"}, true), "b", {}, {"a", "b"}, false);
            k.tagged == {"b"} && k.instances == map["b" := BACKUP]
  {
    BeforeTotal("a", "a");
    LeastIs("a", {"a", "b"});
    LeastIs("b", {"b"});
  }

  /** A stale second search alone can leave a tagged BACKUP: "b" ran when it saw "a", and leads when it does not. */
  lemma StaleMembersCanTagABackup()
    ensures var h := Ha({"a", "b"}, {}, map[]);
            var k := Step(Step(h, Converge("b", {"a", "b"}, false)), Converge("b", {"b"}, false));
            k.tagged == {"b"} && k.instances == map["b" := BACKUP]
  {
    BeforeTotal("a", "a");
    LeastIs("a", {"a", "b"});
    LeastIs("b", {"b"});
  }

  /** With a stale search for the tag there can be two: "b" does not see "a" yet, "a" not the tag of "b". */
  lemma StaleSearchesGiveTwoMasters()
    ensures var h := Ha({"a", "b"}, {}, map[]);
            var h1 := ConvergeWith(h, "b", {}, {"b"});
            var h2 := ConvergeWith(h1, "a", {}, {"a", "b"});
            h2.tagged == {"a", "b"} && h2.instances["a"] == h2.instances["b"] == MASTER
  {
  }
}
