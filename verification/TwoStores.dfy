/** The PLUMgrid plugin as a protocol over two stores: the Neutron database and the Director. */
module TwoStores {
  import opened Wrappers

  type Id = nat
  type Attrs = string
  type Tenant = string

  datatype Kind = Network | Router
  datatype Key = Key(kind: Kind, id: Id)
  datatype Group = Group(tenant: Tenant, byDefault: bool)
  datatype Rule = Rule(group: Id, attrs: Attrs)

  /** What either side holds; a floating IP maps to the port it is associated with. */
  datatype Store = Store(
    resources: map<Key, Attrs>,
    fips: map<Id, Option<Id>>,
    groups: map<Id, Group>,
    rules: map<Id, Rule>)

  const EMPTY := Store(map[], map[], map[], map[])

  /** Identifiers are never used twice: `next` is the next one. */
  datatype State = State(db: Store, director: Store, next: Id)

  const INITIAL := State(EMPTY, EMPTY, 0)

  /** The default security group a call may have to make first: its rules, and whether the Director carries that out. */
  datatype Defaults = Defaults(tenant: Tenant, starters: seq<Attrs>, ok: bool)

  /**
   * One API call. dbOk: the database layer accepts the request; dirOk: the Director carries out the call
   * made to it; undoOk: it carries out the compensating call made after a failure; keyed: the request has the
   * port_id key (the database layer chooses the port when it has not).
   */
  datatype Call =
    | CreateNetwork(attrs: Attrs, defaults: Defaults, dbOk: bool, dirOk: bool)
    | CreateRouter(attrs: Attrs, dbOk: bool, dirOk: bool)
    | Update(key: Key, attrs: Attrs, dirOk: bool)
    | Delete(key: Key, dirOk: bool)
    | CreateFip(port: Option<Id>, dbOk: bool, dirOk: bool, undoOk: bool)
    | UpdateFip(fip: Id, port: Option<Id>, keyed: bool, dbOk: bool, dirOk: bool, undoOk: bool)
    | DeleteFip(fip: Id, dirOk: bool)
    | Disassociate(on: Id, dirOk: bool)
    | CreateGroup(starters: seq<Attrs>, defaults: Defaults, dbOk: bool, dirOk: bool)
    | DeleteGroup(group: Id, dbOk: bool, dirOk: bool)
    | CreateRules(into: Id, rules: seq<Attrs>, dbOk: bool, dirOk: bool)
    | DeleteRule(rule: Id, dirOk: bool)

  // ----- the changes to one store -----

  function OnPort(s: Store, p: Id): set<Id> {
    set i | i in s.fips && s.fips[i] == Some(p)
  }

  function SetFip(s: Store, i: Id, port: Option<Id>): Store {
    if i in s.fips then s.(fips := s.fips[i := port]) else s
  }

  function DropFip(s: Store, i: Id): Store {
    s.(fips := s.fips - {i})
  }

  function ClearFips(s: Store, ids: set<Id>): Store {
    s.(fips := map i | i in s.fips :: if i in ids then None else s.fips[i])
  }

  /** A bulk of rules of a group under consecutive fresh identifiers. */
  function Numbered(first: Id, group: Id, rules: seq<Attrs>): (m: map<Id, Rule>)
    ensures forall i :: i in m <==> first <= i < first + |rules|
    ensures forall i :: i in m ==> m[i].group == group
    decreases rules
  {
    if rules == [] then map[] else Numbered(first + 1, group, rules[1..])[first := Rule(group, rules[0])]
  }

  predicate HasDefault(s: Store, tenant: Tenant) {
    exists g :: g in s.groups && s.groups[g] == Group(tenant, true)
  }

  function WithGroup(s: Store, id: Id, g: Group, starters: seq<Attrs>): Store {
    s.(groups := s.groups[id := g], rules := s.rules + Numbered(id + 1, id, starters))
  }

  function DropGroup(s: Store, g: Id): Store {
    s.(groups := s.groups - {g}, rules := map r | r in s.rules && s.rules[r].group != g :: s.rules[r])
  }

  // ----- the calls as functions: the state afterwards, and whether the caller got an exception (false) -----

  /** Into both stores, or with a refusing Director into neither; the identifiers are used up either way. */
  function GroupMade(s: State, g: Group, starters: seq<Attrs>, dirOk: bool): (State, bool) {
    var next := s.next + 1 + |starters|;
    if !dirOk then (s.(next := next), false)
    else (State(WithGroup(s.db, s.next, g, starters), WithGroup(s.director, s.next, g, starters), next), true)
  }

  /** _ensure_default_security_group */
  function DefaultEnsured(s: State, d: Defaults): (State, bool) {
    if HasDefault(s.db, d.tenant) then (s, true) else GroupMade(s, Group(d.tenant, true), d.starters, d.ok)
  }

  /** When the Director refuses the network, the database forgets the new default group; the Director does not. */
  function NetworkCreated(s: State, attrs: Attrs, d: Defaults, dirOk: bool): (State, bool) {
    var key := Key(Network, s.next);
    var (a, ok) := DefaultEnsured(s.(next := s.next + 1), d);
    if !ok || !dirOk then (a.(db := s.db), false)
    else (a.(db := a.db.(resources := a.db.resources[key := attrs]),
             director := a.director.(resources := a.director.resources[key := attrs])), true)
  }

  function GroupCreated(s: State, starters: seq<Attrs>, d: Defaults, dbOk: bool, dirOk: bool): (State, bool) {
    var (a, ok) := DefaultEnsured(s, d);
    if !ok || !dbOk then (a.(db := s.db), false)
    else
      var (b, made) := GroupMade(a, Group(d.tenant, false), starters, dirOk);
      if made then (b, true) else (b.(db := s.db), false)
  }

  /** disassociate_floatingips: finds the port's floating IP in the database, tells the Director, then the database. */
  function Disassociated(s: State, p: Id, dirOk: bool): (State, bool) {
    var found := OnPort(s.db, p);
    if |found| > 1 || (|found| == 1 && !dirOk) then (s, false)
    else (s.(db := ClearFips(s.db, found), director := ClearFips(s.director, found)), true)
  }

  function FipDeleted(s: State, i: Id, dirOk: bool): (State, bool) {
    if i !in s.db.fips || !dirOk then (s, false)
    else (s.(db := DropFip(s.db, i), director := DropFip(s.director, i)), true)
  }

  function FipCreated(s: State, port: Option<Id>, dirOk: bool, undoOk: bool): (State, bool) {
    var made := s.(db := s.db.(fips := s.db.fips[s.next := port]), next := s.next + 1);
    if dirOk then (made.(director := s.director.(fips := s.director.fips[s.next := port])), true)
    else (FipDeleted(made, s.next, undoOk).0, false)
  }

  /** Without the key the exception handler itself fails before it compensates. */
  function FipUpdated(s: State, i: Id, port: Option<Id>, keyed: bool, dbOk: bool, dirOk: bool, undoOk: bool)
    : (State, bool)
  {
    var accepted := dbOk && i in s.db.fips;
    var t := if accepted then s.(db := SetFip(s.db, i, port)) else s;
    if accepted && dirOk then (t.(director := SetFip(s.director, i, port)), true)
    else if keyed && port.Some? then (Disassociated(t, port.value, undoOk).0, false)
    else (t, false)
  }

  function Stepped(s: State, c: Call): (State, bool) {
    match c
    case CreateNetwork(attrs, defaults, dbOk, dirOk) =>
      if !dbOk then (s, false) else NetworkCreated(s, attrs, defaults, dirOk)
    case CreateRouter(attrs, dbOk, dirOk) =>
      if !dbOk then (s, false)
      else
        var key := Key(Router, s.next);
        if !dirOk then (s.(next := s.next + 1), false)
        else (State(s.db.(resources := s.db.resources[key := attrs]),
                    s.director.(resources := s.director.resources[key := attrs]), s.next + 1), true)
    case Update(key, attrs, dirOk) =>
      if key !in s.db.resources || !dirOk then (s, false)
      else (s.(db := s.db.(resources := s.db.resources[key := attrs]),
               director := s.director.(resources := s.director.resources[key := attrs])), true)
    case Delete(key, dirOk) =>
      if key !in s.db.resources || !dirOk then (s, false)
      else (s.(db := s.db.(resources := s.db.resources - {key}),
               director := s.director.(resources := s.director.resources - {key})), true)
    case CreateFip(port, dbOk, dirOk, undoOk) =>
      if !dbOk then (s, false) else FipCreated(s, port, dirOk, undoOk)
    case UpdateFip(i, port, keyed, dbOk, dirOk, undoOk) => FipUpdated(s, i, port, keyed, dbOk, dirOk, undoOk)
    case DeleteFip(i, dirOk) => FipDeleted(s, i, dirOk)
    case Disassociate(p, dirOk) => Disassociated(s, p, dirOk)
    case CreateGroup(starters, defaults, dbOk, dirOk) => GroupCreated(s, starters, defaults, dbOk, dirOk)
    case DeleteGroup(g, dbOk, dirOk) =>
      if g !in s.db.groups || !dbOk || !dirOk then (s, false)
      else (s.(db := DropGroup(s.db, g), director := DropGroup(s.director, g)), true)
    case CreateRules(g, rules, dbOk, dirOk) =>
      if !dbOk || g !in s.db.groups then (s, false)
      else
        var made, next := Numbered(s.next, g, rules), s.next + |rules|;
        if !dirOk then (s.(next := next), false)
        else (State(s.db.(rules := s.db.rules + made),
                    s.director.(rules := s.director.rules + made), next), true)
    case DeleteRule(r, dirOk) =>
      if r !in s.db.rules then (s, false)
      else
        var t := s.(db := s.db.(rules := s.db.rules - {r}));
        if !dirOk then (t, false)
        else (t.(director := s.director.(rules := s.director.rules - {r})), true)
  }

  function Step(s: State, c: Call): State {
    Stepped(s, c).0
  }

  /** The state after a sequence of calls, last call outermost. */
  function Exec(s: State, calls: seq<Call>): State
    decreases calls
  {
    if calls == [] then s else Step(Exec(s, calls[..|calls| - 1]), calls[|calls| - 1])
  }

  // ----- the plugin, writing to the two stores -----

  class Plugin {
    var db: Store
    var director: Store
    var next: Id

    ghost function Value(): State
      reads this
    {
      State(db, director, next)
    }

    constructor ()
      ensures Value() == INITIAL
    {
      db, director, next := EMPTY, EMPTY, 0;
    }

    /** create_network: one database transaction around two Director calls. */
    method CreateNetwork(attrs: Attrs, defaults: Defaults, dbOk: bool, dirOk: bool) returns (ok: bool)
      modifies this
      ensures (Value(), ok) == Stepped(old(Value()), Call.CreateNetwork(attrs, defaults, dbOk, dirOk))
    {
      if !dbOk {
        return false;
      }
      var begin := db;
      var key := Key(Network, next);
      next := next + 1;
      db := db.(resources := db.resources[key := attrs]);
      var ensured := EnsureDefaultSecurityGroup(defaults);
      if !ensured || !dirOk {
        db := begin;
        return false;
      }
      director := director.(resources := director.resources[key := attrs]);
      return true;
    }

    /** create_router: one database transaction around the Director call. */
    method CreateRouter(attrs: Attrs, dbOk: bool, dirOk: bool) returns (ok: bool)
      modifies this
      ensures (Value(), ok) == Stepped(old(Value()), Call.CreateRouter(attrs, dbOk, dirOk))
    {
      if !dbOk {
        return false;
      }
      var begin := db;
      var key := Key(Router, next);
      next := next + 1;
      db := db.(resources := db.resources[key := attrs]);
      if !dirOk {
        db := begin;
        return false;
      }
      director := director.(resources := director.resources[key := attrs]);
      return true;
    }

    /** update_network and update_router. */
    method Update(key: Key, attrs: Attrs, dirOk: bool) returns (ok: bool)
      modifies this
      ensures (Value(), ok) == Stepped(old(Value()), Call.Update(key, attrs, dirOk))
    {
      if key !in db.resources {
        return false;
      }
      var begin := db;
      db := db.(resources := db.resources[key := attrs]);
      if !dirOk {
        db := begin;
        return false;
      }
      director := director.(resources := director.resources[key := attrs]);
      return true;
    }

    /** delete_network and delete_router. */
    method Delete(key: Key, dirOk: bool) returns (ok: bool)
      modifies this
      ensures (Value(), ok) == Stepped(old(Value()), Call.Delete(key, dirOk))
    {
      if key !in db.resources {
        return false;
      }
      var begin := db;
      db := db.(resources := db.resources - {key});
      if !dirOk {
        db := begin;
        return false;
      }
      director := director.(resources := director.resources - {key});
      return true;
    }

    method CreateFloatingIp(port: Option<Id>, dbOk: bool, dirOk: bool, undoOk: bool) returns (ok: bool)
      modifies this
      ensures (Value(), ok) == Stepped(old(Value()), CreateFip(port, dbOk, dirOk, undoOk))
    {
      if !dbOk {
        return false;
      }
      var fip := next;
      next := next + 1;
      db := db.(fips := db.fips[fip := port]);
      if dirOk {
        director := director.(fips := director.fips[fip := port]);
        return true;
      }
      var _ := DeleteFloatingIp(fip, undoOk);
      return false;
    }

    method UpdateFloatingIp(fip: Id, port: Option<Id>, keyed: bool, dbOk: bool, dirOk: bool, undoOk: bool)
        returns (ok: bool)
      modifies this
      ensures (Value(), ok) == Stepped(old(Value()), UpdateFip(fip, port, keyed, dbOk, dirOk, undoOk))
    {
      if dbOk && fip in db.fips {
        db := SetFip(db, fip, port);
        if dirOk {
          director := SetFip(director, fip, port);
          return true;
        }
      }
      if keyed && port.Some? {
        var _ := DisassociateFloatingIps(port.value, undoOk);
      }
      return false;
    }

    method DeleteFloatingIp(fip: Id, dirOk: bool) returns (ok: bool)
      modifies this
      ensures (Value(), ok) == Stepped(old(Value()), DeleteFip(fip, dirOk))
    {
      if fip !in db.fips {
        return false;
      }
      if !dirOk {
        return false;
      }
      director := DropFip(director, fip);
      db := DropFip(db, fip);
      return true;
    }

    method DisassociateFloatingIps(port: Id, dirOk: bool) returns (ok: bool)
      modifies this
      ensures (Value(), ok) == Stepped(old(Value()), Disassociate(port, dirOk))
    {
      var found := OnPort(db, port);
      if |found| > 1 {
        return false;
      }
      if |found| == 1 {
        if !dirOk {
          return false;
        }
        director := ClearFips(director, found);
      }
      db := ClearFips(db, found);
      if found == {} {
        assert director.fips == ClearFips(director, found).fips;
      }
      return true;
    }

    /** The part of create_security_group that a default group and any other share. */
    method MakeGroup(g: Group, starters: seq<Attrs>, dirOk: bool) returns (ok: bool)
      modifies this
      ensures (Value(), ok) == GroupMade(old(Value()), g, starters, dirOk)
    {
      var begin := db;
      var id := next;
      next := next + 1 + |starters|;
      db := WithGroup(db, id, g, starters);
      if !dirOk {
        db := begin;
        return false;
      }
      director := WithGroup(director, id, g, starters);
      return true;
    }

    method EnsureDefaultSecurityGroup(d: Defaults) returns (ok: bool)
      modifies this
      ensures ok <==> HasDefault(old(db), d.tenant) || d.ok
      ensures HasDefault(old(db), d.tenant) ==> Value() == old(Value())
      ensures !HasDefault(old(db), d.tenant) ==>
                Value() == GroupMade(old(Value()), Group(d.tenant, true), d.starters, d.ok).0
    {
      var present := HasDefault(db, d.tenant);
      if present {
        return true;
      }
      ok := MakeGroup(Group(d.tenant, true), d.starters, d.ok);
    }

    method CreateSecurityGroup(starters: seq<Attrs>, defaults: Defaults, dbOk: bool, dirOk: bool) returns (ok: bool)
      modifies this
      ensures (Value(), ok) == Stepped(old(Value()), CreateGroup(starters, defaults, dbOk, dirOk))
    {
      var begin := db;
      ok := EnsureDefaultSecurityGroup(defaults);
      if !ok || !dbOk {
        db := begin;
        return false;
      }
      ok := MakeGroup(Group(defaults.tenant, false), starters, dirOk);
      if !ok {
        db := begin;
      }
    }

    /** dbOk == false: the group is in use, or a default group and the caller not an administrator. */
    method DeleteSecurityGroup(group: Id, dbOk: bool, dirOk: bool) returns (ok: bool)
      modifies this
      ensures (Value(), ok) == Stepped(old(Value()), DeleteGroup(group, dbOk, dirOk))
    {
      if group !in db.groups || !dbOk {
        return false;
      }
      var begin := db;
      db := DropGroup(db, group);
      if !dirOk {
        db := begin;
        return false;
      }
      director := DropGroup(director, group);
      return true;
    }

    method CreateSecurityGroupRules(group: Id, rules: seq<Attrs>, dbOk: bool, dirOk: bool) returns (ok: bool)
      modifies this
      ensures (Value(), ok) == Stepped(old(Value()), CreateRules(group, rules, dbOk, dirOk))
    {
      if !dbOk || group !in db.groups {
        return false;
      }
      var begin := db;
      var made := Numbered(next, group, rules);
      next := next + |rules|;
      db := db.(rules := db.rules + made);
      if !dirOk {
        db := begin;
        return false;
      }
      director := director.(rules := director.rules + made);
      return true;
    }

    /** No transaction spans this one: the database has forgotten the rule before the Director is asked. */
    method DeleteSecurityGroupRule(rule: Id, dirOk: bool) returns (ok: bool)
      modifies this
      ensures (Value(), ok) == Stepped(old(Value()), DeleteRule(rule, dirOk))
    {
      if rule !in db.rules {
        return false;
      }
      db := db.(rules := db.rules - {rule});
      if !dirOk {
        return false;
      }
      director := director.(rules := director.rules - {rule});
      return true;
    }
  }

  // ----- what every call keeps -----

  ghost predicate ResourcesInv(s: State) {
    && s.db.resources == s.director.resources
    && forall k :: k in s.db.resources ==> k.id < s.next
  }

  ghost predicate FipsInv(s: State) {
    && s.director.fips.Keys <= s.db.fips.Keys
    && forall i :: i in s.db.fips ==> i < s.next
  }

  ghost predicate GroupsInv(s: State) {
    && (forall g :: g in s.db.groups ==> g in s.director.groups && s.director.groups[g] == s.db.groups[g])
    && (forall g :: g in s.director.groups ==> g < s.next)
  }

  ghost predicate RulesInv(s: State) {
    && (forall r :: r in s.db.rules ==> r in s.director.rules && s.director.rules[r] == s.db.rules[r])
    && (forall r :: r in s.director.rules ==> r < s.next && s.director.rules[r].group < s.next)
  }

  ghost predicate Inv(s: State) {
    ResourcesInv(s) && FipsInv(s) && GroupsInv(s) && RulesInv(s)
  }

  lemma DisassociateKeeps(s: State, p: Id, dirOk: bool)
    requires FipsInv(s)
    ensures var t := Disassociated(s, p, dirOk).0;
            && FipsInv(t) && t.next == s.next
            && t.db.fips.Keys == s.db.fips.Keys && t.director.fips.Keys == s.director.fips.Keys
            && t.db.(fips := s.db.fips) == s.db && t.director.(fips := s.director.fips) == s.director
  {
  }

  /** State t is sound, and so is it when the database falls back to s. */
  ghost predicate SoundBeside(s: State, t: State) {
    && Inv(t) && Inv(t.(db := s.db)) && s.next <= t.next
    && t.db.(groups := s.db.groups, rules := s.db.rules) == s.db
    && t.director.(groups := s.director.groups, rules := s.director.rules) == s.director
  }

  lemma GroupMadeKeeps(s: State, g: Group, starters: seq<Attrs>, dirOk: bool)
    requires Inv(s)
    ensures SoundBeside(s, GroupMade(s, g, starters, dirOk).0)
  {
  }

  lemma DefaultEnsuredKeeps(s: State, d: Defaults)
    requires Inv(s)
    ensures SoundBeside(s, DefaultEnsured(s, d).0)
  {
    GroupMadeKeeps(s, Group(d.tenant, true), d.starters, d.ok);
  }

  lemma NetworkCreatedKeeps(s: State, attrs: Attrs, d: Defaults, dirOk: bool)
    requires Inv(s)
    ensures Inv(NetworkCreated(s, attrs, d, dirOk).0) && s.next <= NetworkCreated(s, attrs, d, dirOk).0.next
  {
    DefaultEnsuredKeeps(s.(next := s.next + 1), d);
  }

  lemma GroupCreatedKeeps(s: State, starters: seq<Attrs>, d: Defaults, dbOk: bool, dirOk: bool)
    requires Inv(s)
    ensures var t := GroupCreated(s, starters, d, dbOk, dirOk).0; Inv(t) && s.next <= t.next
  {
    var (a, ok) := DefaultEnsured(s, d);
    DefaultEnsuredKeeps(s, d);
    GroupMadeKeeps(a, Group(d.tenant, false), starters, dirOk);
    GroupMadeKeeps(a.(db := s.db), Group(d.tenant, false), starters, dirOk);
  }

  lemma FipUpdatedKeeps(s: State, i: Id, port: Option<Id>, keyed: bool, dbOk: bool, dirOk: bool, undoOk: bool)
    requires FipsInv(s)
    ensures var t := FipUpdated(s, i, port, keyed, dbOk, dirOk, undoOk).0;
            && FipsInv(t) && t.next == s.next
            && t.db.fips.Keys == s.db.fips.Keys && t.director.fips.Keys == s.director.fips.Keys
            && t.db.(fips := s.db.fips) == s.db && t.director.(fips := s.director.fips) == s.director
  {
    var t := if dbOk && i in s.db.fips then s.(db := SetFip(s.db, i, port)) else s;
    assert FipsInv(t);
    if port.Some? {
      DisassociateKeeps(t, port.value, undoOk);
    }
  }

  lemma GroupDeletedKeeps(s: State, c: Call)
    requires Inv(s) && c.DeleteGroup?
    ensures Inv(Step(s, c)) && s.next <= Step(s, c).next
  {
  }

  lemma RulesCreatedKeep(s: State, c: Call)
    requires Inv(s) && c.CreateRules?
    ensures Inv(Step(s, c)) && s.next <= Step(s, c).next
  {
  }

  lemma StepKeepsInv(s: State, c: Call)
    requires Inv(s)
    ensures Inv(Step(s, c)) && s.next <= Step(s, c).next
  {
    match c
    case CreateNetwork(attrs, defaults, _, dirOk) => NetworkCreatedKeeps(s, attrs, defaults, dirOk);
    case CreateGroup(starters, defaults, dbOk, dirOk) => GroupCreatedKeeps(s, starters, defaults, dbOk, dirOk);
    case DeleteGroup(_, _, _) => GroupDeletedKeeps(s, c);
    case CreateRules(_, _, _, _) => RulesCreatedKeep(s, c);
    case UpdateFip(i, port, keyed, dbOk, dirOk, undoOk) => FipUpdatedKeeps(s, i, port, keyed, dbOk, dirOk, undoOk);
    case Disassociate(p, dirOk) => DisassociateKeeps(s, p, dirOk);
    case _ =>
  }

  lemma {:induction false} ExecKeepsInv(s: State, calls: seq<Call>)
    requires Inv(s)
    ensures Inv(Exec(s, calls)) && s.next <= Exec(s, calls).next
    decreases calls
  {
    if calls == [] {
    } else {
      var init := calls[..|calls| - 1];
      ExecKeepsInv(s, init);
      StepKeepsInv(Exec(s, init), calls[|calls| - 1]);
    }
  }

  /**
   * Over every sequence of calls, any of them failing at the Director: networks and routers agree, the Director's
   * floating IPs are among the database's, the database's groups and rules among the Director's.
   */
  lemma WhoMayRunAhead(calls: seq<Call>, s: State)
    requires s == Exec(INITIAL, calls)
    ensures s.db.resources == s.director.resources
    ensures s.director.fips.Keys <= s.db.fips.Keys
    ensures forall g :: g in s.db.groups ==> g in s.director.groups && s.director.groups[g] == s.db.groups[g]
    ensures forall r :: r in s.db.rules ==> r in s.director.rules && s.director.rules[r] == s.db.rules[r]
  {
    ExecKeepsInv(INITIAL, calls);
  }

  // ----- exactly which calls drive the stores apart -----

  /** The Director gets a new default group and the same call then fails, so that the database forgets the group. */
  predicate LeavesGroup(s: State, c: Call) {
    match c
    case CreateNetwork(_, d, dbOk, dirOk) => dbOk && !HasDefault(s.db, d.tenant) && d.ok && !dirOk
    case CreateGroup(_, d, dbOk, dirOk) => !HasDefault(s.db, d.tenant) && d.ok && !(dbOk && dirOk)
    case _ => false
  }

  /** The identifier of that group; its rules have the ones after it. */
  function LeftId(s: State, c: Call): Id {
    if c.CreateNetwork? then s.next + 1 else s.next
  }

  function LeftStarters(c: Call): seq<Attrs> {
    if c.CreateNetwork? || c.CreateGroup? then c.defaults.starters else []
  }

  /**
   * Whether a call made while the stores agree leaves them agreeing, in terms of the stores before the call and of
   * what the Director answers to it.
   */
  predicate Harmless(s: State, c: Call) {
    match c
    case CreateFip(_, dbOk, dirOk, undoOk) => !dbOk || dirOk || undoOk
    case DeleteRule(r, dirOk) => r !in s.db.rules || dirOk
    case UpdateFip(i, port, keyed, dbOk, dirOk, undoOk) =>
      || !dbOk || i !in s.db.fips || dirOk || s.db.fips[i] == port
      || (keyed && port.Some? && undoOk && OnPort(s.db, port.value) == {})
    case _ => !LeavesGroup(s, c)
  }

  lemma DisassociateKeepsAgreement(s: State, p: Id, dirOk: bool)
    requires s.db == s.director
    ensures var t := Disassociated(s, p, dirOk).0; t.db == t.director
  {
  }

  lemma FailedUpdateAgreesExactly(s: State, i: Id, port: Option<Id>, keyed: bool, undoOk: bool)
    requires Inv(s) && s.db == s.director && i in s.db.fips && s.db.fips[i] != port
    ensures var t := FipUpdated(s, i, port, keyed, true, false, undoOk).0;
            t.db == t.director <==> keyed && port.Some? && undoOk && OnPort(s.db, port.value) == {}
  {
    var t := s.(db := SetFip(s.db, i, port));
    assert t.db.fips[i] == port && t.director.fips[i] == s.db.fips[i];
    if keyed && port.Some? {
      var found := OnPort(t.db, port.value);
      assert found == OnPort(s.db, port.value) + {i};
      if OnPort(s.db, port.value) == {} {
        assert found == {i};
        assert ClearFips(t.db, found).fips == ClearFips(s.db, found).fips;
      } else {
        var j :| j in OnPort(s.db, port.value);
        AtLeastTwo(found, i, j);
      }
    }
  }

  lemma AtLeastTwo(found: set<Id>, i: Id, j: Id)
    requires i != j && {i, j} <= found
    ensures |found| > 1
  {
    assert |found - {i, j}| == |found| - |{i, j}|;
  }

  lemma UpdateAgreesExactly(s: State, c: Call)
    requires Inv(s) && s.db == s.director && c.UpdateFip?
    ensures Step(s, c).db == Step(s, c).director <==> Harmless(s, c)
  {
    var UpdateFip(i, port, keyed, dbOk, dirOk, undoOk) := c;
    if dbOk && i in s.db.fips && !dirOk {
      if s.db.fips[i] == port {
        assert SetFip(s.db, i, port).fips == s.db.fips;
        if port.Some? { DisassociateKeepsAgreement(s, port.value, undoOk); }
      } else {
        FailedUpdateAgreesExactly(s, i, port, keyed, undoOk);
      }
    } else if !(dbOk && i in s.db.fips) && port.Some? {
      DisassociateKeepsAgreement(s, port.value, undoOk);
    }
  }

  /** What a call that creates a group or a network does when it fails after the Director took a default group. */
  lemma LeavesExactly(s: State, c: Call)
    requires (c.CreateNetwork? || c.CreateGroup?) && !Stepped(s, c).1
    ensures var t := Step(s, c);
            && t.db == s.db
            && t.director == if LeavesGroup(s, c)
                             then WithGroup(s.director, LeftId(s, c), Group(c.defaults.tenant, true), LeftStarters(c))
                             else s.director
  {
  }

  lemma GroupCallAgreesExactly(s: State, c: Call)
    requires Inv(s) && s.db == s.director && (c.CreateNetwork? || c.CreateGroup?)
    ensures Step(s, c).db == Step(s, c).director <==> Harmless(s, c)
  {
    if !Stepped(s, c).1 {
      LeavesExactly(s, c);
      assert LeavesGroup(s, c) ==> LeftId(s, c) in Step(s, c).director.groups && LeftId(s, c) !in s.db.groups;
    }
  }

  /** The condition is exact: from agreeing stores a call leaves them agreeing if and only if it is harmless. */
  lemma AgreementLostExactly(s: State, c: Call)
    requires Inv(s) && s.db == s.director
    ensures Step(s, c).db == Step(s, c).director <==> Harmless(s, c)
  {
    match c
    case CreateNetwork(_, _, _, _) => GroupCallAgreesExactly(s, c);
    case CreateGroup(_, _, _, _) => GroupCallAgreesExactly(s, c);
    case UpdateFip(_, _, _, _, _, _) => UpdateAgreesExactly(s, c);
    case CreateFip(port, dbOk, dirOk, undoOk) =>
      if dbOk && !dirOk {
        assert s.next !in s.director.fips;
        if undoOk {
          assert Step(s, c).db.fips == s.db.fips && Step(s, c).director.fips == s.director.fips;
        } else {
          assert s.next in Step(s, c).db.fips;
        }
      }
    case DeleteRule(r, dirOk) =>
      if r in s.db.rules && !dirOk {
        assert r !in Step(s, c).db.rules && r in Step(s, c).director.rules;
      }
    case _ =>
  }

  /** A run without a harmful call ends with identical stores. */
  lemma {:induction false} HarmlessRunsAgree(calls: seq<Call>)
    requires forall i :: 0 <= i < |calls| ==> Harmless(Exec(INITIAL, calls[..i]), calls[i])
    ensures Exec(INITIAL, calls).db == Exec(INITIAL, calls).director
    decreases calls
  {
    if calls == [] {
    } else {
      var init := calls[..|calls| - 1];
      forall i | 0 <= i < |init| ensures Harmless(Exec(INITIAL, init[..i]), init[i]) {
        assert init[..i] == calls[..i];
      }
      HarmlessRunsAgree(init);
      ExecKeepsInv(INITIAL, init);
      AgreementLostExactly(Exec(INITIAL, init), calls[|calls| - 1]);
    }
  }

  // ----- what has leaked after a run, and for how long -----

  /** A rule, a group, that only the Director has; a floating IP that only the database has. */
  predicate Leaked(s: State, r: Id) {
    r in s.director.rules && r !in s.db.rules
  }

  predicate LeftBehind(s: State, g: Id) {
    g in s.director.groups && g !in s.db.groups
  }

  predicate Orphaned(s: State, i: Id) {
    i in s.db.fips && i !in s.director.fips
  }

  /** The Director refuses to delete rule r, or keeps it with a default group the database forgets. */
  predicate Leaks(s: State, c: Call, r: Id) {
    || (c == DeleteRule(r, false) && r in s.db.rules)
    || (LeavesGroup(s, c) && LeftId(s, c) < r <= LeftId(s, c) + |LeftStarters(c)|)
  }

  /** A deletion of the group of rule r that goes through. */
  predicate Clears(s: State, c: Call, r: Id) {
    && c.DeleteGroup? && c.dbOk && c.dirOk && c.group in s.db.groups
    && r in s.director.rules && s.director.rules[r].group == c.group
  }

  lemma GroupCallLeaks(s: State, c: Call, x: Id)
    requires Inv(s) && (c.CreateNetwork? || c.CreateGroup?)
    ensures Leaked(Step(s, c), x) <==> Leaked(s, x) || Leaks(s, c, x)
    ensures LeftBehind(Step(s, c), x) <==> LeftBehind(s, x) || (LeavesGroup(s, c) && LeftId(s, c) == x)
  {
    if Stepped(s, c).1 {
      ReturnedLeaksNothing(s, c, x);
    } else {
      LeavesExactly(s, c);
    }
  }

  lemma ReturnedLeaksNothing(s: State, c: Call, x: Id)
    requires Inv(s) && (c.CreateNetwork? || c.CreateGroup?) && Stepped(s, c).1
    ensures Leaked(Step(s, c), x) <==> Leaked(s, x)
    ensures LeftBehind(Step(s, c), x) <==> LeftBehind(s, x)
    ensures !Leaks(s, c, x) && !LeavesGroup(s, c)
  {
  }

  lemma LeakStep(s: State, c: Call, r: Id)
    requires Inv(s)
    ensures Leaked(Step(s, c), r) <==> (Leaked(s, r) && !Clears(s, c, r)) || Leaks(s, c, r)
  {
    match c
    case CreateNetwork(_, _, _, _) => GroupCallLeaks(s, c, r);
    case CreateGroup(_, _, _, _) => GroupCallLeaks(s, c, r);
    case UpdateFip(i, port, keyed, dbOk, dirOk, undoOk) => FipUpdatedKeeps(s, i, port, keyed, dbOk, dirOk, undoOk);
    case Disassociate(p, dirOk) => DisassociateKeeps(s, p, dirOk);
    case _ =>
  }

  ghost predicate LeakedAt(calls: seq<Call>, r: Id, k: nat) {
    && k < |calls| && Leaks(Exec(INITIAL, calls[..k]), calls[k], r)
    && forall j :: k < j < |calls| ==> !Clears(Exec(INITIAL, calls[..j]), calls[j], r)
  }

  lemma LeakedBefore(calls: seq<Call>, init: seq<Call>, n: nat, r: Id, k: nat)
    requires |calls| == n + 1 && init == calls[..n] && k < n
    ensures LeakedAt(calls, r, k) <==> LeakedAt(init, r, k) && !Clears(Exec(INITIAL, init), calls[n], r)
  {
    assert forall j :: 0 <= j <= n ==> init[..j] == calls[..j];
    assert init[..n] == init;
  }

  lemma LeakedSplit(calls: seq<Call>, init: seq<Call>, n: nat, r: Id, s: State)
    requires |calls| == n + 1 && init == calls[..n] && s == Exec(INITIAL, init)
    ensures (exists k: nat :: LeakedAt(calls, r, k)) <==>
            Leaks(s, calls[n], r) || (!Clears(s, calls[n], r) && exists k: nat :: LeakedAt(init, r, k))
  {
    assert LeakedAt(calls, r, n) <==> Leaks(s, calls[n], r);
    forall k: nat | k < n ensures LeakedAt(calls, r, k) <==> LeakedAt(init, r, k) && !Clears(s, calls[n], r) {
      LeakedBefore(calls, init, n, r, k);
    }
  }

  /**
   * The Director keeps exactly the rules whose deletion it refused after the database had dropped them, until their
   * group is deleted, and the rules of the default groups that failed calls left it.
   */
  lemma {:induction false} LeakedExactly(calls: seq<Call>, r: Id)
    ensures Leaked(Exec(INITIAL, calls), r) <==> exists k: nat :: LeakedAt(calls, r, k)
    decreases calls
  {
    if calls == [] {
    } else {
      var n := |calls| - 1;
      var init := calls[..n];
      LeakedExactly(init, r);
      ExecKeepsInv(INITIAL, init);
      LeakStep(Exec(INITIAL, init), calls[n], r);
      LeakedSplit(calls, init, n, r, Exec(INITIAL, init));
    }
  }

  lemma LeftStep(s: State, c: Call, g: Id)
    requires Inv(s)
    ensures LeftBehind(Step(s, c), g) <==> LeftBehind(s, g) || (LeavesGroup(s, c) && LeftId(s, c) == g)
  {
    match c
    case CreateNetwork(_, _, _, _) => GroupCallLeaks(s, c, g);
    case CreateGroup(_, _, _, _) => GroupCallLeaks(s, c, g);
    case UpdateFip(i, port, keyed, dbOk, dirOk, undoOk) => FipUpdatedKeeps(s, i, port, keyed, dbOk, dirOk, undoOk);
    case Disassociate(p, dirOk) => DisassociateKeeps(s, p, dirOk);
    case _ =>
  }

  ghost predicate LeftAt(calls: seq<Call>, g: Id, k: nat) {
    && k < |calls| && LeavesGroup(Exec(INITIAL, calls[..k]), calls[k])
    && LeftId(Exec(INITIAL, calls[..k]), calls[k]) == g
  }

  /** The Director's groups are ahead by exactly the default groups of failed calls, and no later call removes one. */
  lemma {:induction false} GroupsLeftExactly(calls: seq<Call>, g: Id)
    ensures LeftBehind(Exec(INITIAL, calls), g) <==> exists k: nat :: LeftAt(calls, g, k)
    decreases calls
  {
    if calls == [] {
    } else {
      var n := |calls| - 1;
      var init := calls[..n];
      var s := Exec(INITIAL, init);
      GroupsLeftExactly(init, g);
      ExecKeepsInv(INITIAL, init);
      LeftStep(s, calls[n], g);
      assert forall k :: 0 <= k <= n ==> init[..k] == calls[..k];
      if LeftBehind(s, g) {
        var k: nat :| LeftAt(init, g, k);
        assert LeftAt(calls, g, k);
      }
      if LeavesGroup(s, calls[n]) && LeftId(s, calls[n]) == g {
        assert LeftAt(calls, g, n);
      }
      if k: nat :| LeftAt(calls, g, k) {
        if k < n { assert LeftAt(init, g, k); }
      }
    }
  }

  predicate Strands(c: Call) {
    c.CreateFip? && c.dbOk && !c.dirOk && !c.undoOk
  }

  lemma OrphanStep(s: State, c: Call, i: Id)
    requires Inv(s)
    ensures Orphaned(Step(s, c), i) <==> (Orphaned(s, i) && c != DeleteFip(i, true)) || (Strands(c) && s.next == i)
  {
    match c
    case UpdateFip(j, port, keyed, dbOk, dirOk, undoOk) => FipUpdatedKeeps(s, j, port, keyed, dbOk, dirOk, undoOk);
    case Disassociate(p, dirOk) => DisassociateKeeps(s, p, dirOk);
    case _ =>
  }

  ghost predicate StrandedAt(calls: seq<Call>, i: Id, k: nat) {
    && k < |calls| && Strands(calls[k]) && Exec(INITIAL, calls[..k]).next == i
    && forall j :: k < j < |calls| ==> calls[j] != DeleteFip(i, true)
  }

  lemma StrandedBefore(calls: seq<Call>, init: seq<Call>, n: nat, i: Id, k: nat)
    requires |calls| == n + 1 && init == calls[..n] && k < n
    ensures StrandedAt(calls, i, k) <==> StrandedAt(init, i, k) && calls[n] != DeleteFip(i, true)
  {
    assert init[..k] == calls[..k];
  }

  /**
   * The database is ahead by exactly the floating IPs whose creation and whose compensating deletion were both
   * refused, until a later deletion of the same floating IP goes through.
   */
  lemma {:induction false} OrphanedExactly(calls: seq<Call>, i: Id)
    ensures Orphaned(Exec(INITIAL, calls), i) <==> exists k: nat :: StrandedAt(calls, i, k)
    decreases calls
  {
    if calls == [] {
    } else {
      var n := |calls| - 1;
      var init := calls[..n];
      var s := Exec(INITIAL, init);
      OrphanedExactly(init, i);
      ExecKeepsInv(INITIAL, init);
      OrphanStep(s, calls[n], i);
      assert StrandedAt(calls, i, n) <==> Strands(calls[n]) && s.next == i;
      forall k: nat | k < n
        ensures StrandedAt(calls, i, k) <==> StrandedAt(init, i, k) && calls[n] != DeleteFip(i, true)
      {
        StrandedBefore(calls, init, n, i, k);
      }
    }
  }

  // ----- what a floating IP update that raises has changed -----

  /** Taking the port away from the one floating IP on it. */
  lemma StripsOne(s: State, p: Id, undoOk: bool)
    ensures var t := Disassociated(s, p, undoOk).0;
            t.db.fips == s.db.fips <==> !(undoOk && |OnPort(s.db, p)| == 1)
    ensures !(undoOk && |OnPort(s.db, p)| == 1) ==> Disassociated(s, p, undoOk).0 == s
  {
    var found := OnPort(s.db, p);
    var t := Disassociated(s, p, undoOk).0;
    if |found| == 1 && undoOk {
      var i :| i in found;
      assert t.db.fips[i] == None && s.db.fips[i] == Some(p);
    } else if |found| == 0 {
      assert found == {};
      assert t.db.fips == s.db.fips && t.director.fips == s.director.fips;
    }
  }

  /** An update the database refuses changes nothing, unless its compensation strips the port of its one owner. */
  lemma RefusedUpdateChangesNothingExactly(s: State, i: Id, port: Option<Id>, keyed: bool, dbOk: bool, dirOk: bool,
                                           undoOk: bool)
    requires !dbOk || i !in s.db.fips
    ensures Step(s, UpdateFip(i, port, keyed, dbOk, dirOk, undoOk)) == s <==>
            !(keyed && port.Some? && undoOk && |OnPort(s.db, port.value)| == 1)
  {
    if keyed && port.Some? {
      StripsOne(s, port.value, undoOk);
    }
  }

  /** What happens in that one case: the owner loses the port, in both stores. */
  lemma RefusedUpdateStripsThePort(s: State, i: Id, p: Id, dirOk: bool, owner: Id)
    requires OnPort(s.db, p) == {owner}
    ensures var (t, ok) := Stepped(s, UpdateFip(i, Some(p), true, false, dirOk, true));
            && !ok && t.db.fips == s.db.fips[owner := None]
            && (owner in s.director.fips ==> t.director.fips == s.director.fips[owner := None])
  {
  }

  /** The compensation of an update of floating IP i takes effect: nobody else is on the port. */
  predicate Compensates(s: State, i: Id, port: Option<Id>, keyed: bool, undoOk: bool) {
    keyed && port.Some? && undoOk && OnPort(s.db, port.value) <= {i}
  }

  /** An update the database accepted and the Director refused leaves floating IP i this way, and no other changed. */
  lemma RevokedUpdateLeaves(s: State, i: Id, port: Option<Id>, keyed: bool, undoOk: bool)
    requires i in s.db.fips
    ensures var t := Step(s, UpdateFip(i, port, keyed, true, false, undoOk));
            var undone := Compensates(s, i, port, keyed, undoOk);
            && t.db == s.db.(fips := s.db.fips[i := if undone then None else port])
            && t.director == if undone then SetFip(s.director, i, None) else s.director
  {
    if keyed && port.Some? {
      var u := s.(db := SetFip(s.db, i, port));
      var found := OnPort(u.db, port.value);
      assert found == OnPort(s.db, port.value) + {i};
      if OnPort(s.db, port.value) <= {i} {
        assert found == {i};
      } else {
        var j :| j in OnPort(s.db, port.value) && j != i;
        AtLeastTwo(found, i, j);
      }
    }
  }

  /** So the database is unchanged exactly if that is where floating IP i was before. */
  lemma RevokedUpdateChangesNothingExactly(s: State, i: Id, port: Option<Id>, keyed: bool, undoOk: bool)
    requires i in s.db.fips
    ensures var t := Step(s, UpdateFip(i, port, keyed, true, false, undoOk));
            var undone := Compensates(s, i, port, keyed, undoOk);
            && (t.db == s.db <==> s.db.fips[i] == if undone then None else port)
            && (t.director == s.director <==>
                !undone || i !in s.director.fips || s.director.fips[i] == None)
  {
    RevokedUpdateLeaves(s, i, port, keyed, undoOk);
    assert s.db.fips[i := s.db.fips[i]] == s.db.fips;
    if i in s.director.fips {
      assert s.director.fips[i := s.director.fips[i]] == s.director.fips;
    }
  }

  // ----- which floating IPs the two stores associate differently -----

  predicate Differs(s: State, i: Id) {
    i in s.db.fips && i in s.director.fips && s.db.fips[i] != s.director.fips[i]
  }

  /** The database moves floating IP i, and the Director, which refuses, has it elsewhere. */
  predicate Strays(s: State, c: Call, i: Id) {
    && c.UpdateFip? && c.fip == i && c.dbOk && !c.dirOk && i in s.db.fips
    && i in s.director.fips && s.director.fips[i] != c.port && !Compensates(s, i, c.port, c.keyed, c.undoOk)
  }

  /** Both stores get to know the same of floating IP i: a new place, none, or that it is gone. */
  predicate Mends(s: State, c: Call, i: Id) {
    || (c.UpdateFip? && c.fip == i && c.dbOk && i in s.db.fips)
    || c == DeleteFip(i, true)
    || (c.Disassociate? && c.dirOk && OnPort(s.db, c.on) == {i})
    || (c.UpdateFip? && !(c.dbOk && c.fip in s.db.fips) && c.keyed && c.port.Some? && c.undoOk
        && OnPort(s.db, c.port.value) == {i})
  }

  lemma DisassociatedDiffers(s: State, p: Id, dirOk: bool, i: Id)
    requires Inv(s)
    ensures Differs(Disassociated(s, p, dirOk).0, i) <==> Differs(s, i) && !(dirOk && OnPort(s.db, p) == {i})
  {
    var found := OnPort(s.db, p);
    if |found| == 1 && dirOk {
      var j :| j in found;
      assert |found - {j}| == 0;
    }
  }

  lemma UpdateDiffers(s: State, c: Call, i: Id)
    requires Inv(s) && c.UpdateFip?
    ensures Differs(Step(s, c), i) <==> Strays(s, c, i) || (Differs(s, i) && !Mends(s, c, i))
  {
    var UpdateFip(j, port, keyed, dbOk, dirOk, undoOk) := c;
    if dbOk && j in s.db.fips {
      if !dirOk { RevokedUpdateLeaves(s, j, port, keyed, undoOk); }
    } else if keyed && port.Some? {
      DisassociatedDiffers(s, port.value, undoOk, i);
    }
  }

  lemma DifferStep(s: State, c: Call, i: Id)
    requires Inv(s)
    ensures Differs(Step(s, c), i) <==> Strays(s, c, i) || (Differs(s, i) && !Mends(s, c, i))
  {
    match c
    case CreateNetwork(attrs, d, _, dirOk) => DefaultEnsuredKeeps(s.(next := s.next + 1), d);
    case CreateGroup(starters, d, dbOk, dirOk) =>
      DefaultEnsuredKeeps(s, d);
      GroupMadeKeeps(DefaultEnsured(s, d).0, Group(d.tenant, false), starters, dirOk);
    case UpdateFip(_, _, _, _, _, _) => UpdateDiffers(s, c, i);
    case Disassociate(p, dirOk) => DisassociatedDiffers(s, p, dirOk, i);
    case _ =>
  }

  ghost predicate StrayedAt(calls: seq<Call>, i: Id, k: nat) {
    && k < |calls| && Strays(Exec(INITIAL, calls[..k]), calls[k], i)
    && forall j :: k < j < |calls| ==> !Mends(Exec(INITIAL, calls[..j]), calls[j], i)
  }

  lemma StrayedBefore(calls: seq<Call>, init: seq<Call>, n: nat, i: Id, k: nat)
    requires |calls| == n + 1 && init == calls[..n] && k < n
    ensures StrayedAt(calls, i, k) <==> StrayedAt(init, i, k) && !Mends(Exec(INITIAL, init), calls[n], i)
  {
    assert forall j :: 0 <= j <= n ==> init[..j] == calls[..j];
    assert init[..n] == init;
  }

  lemma StrayedSplit(calls: seq<Call>, init: seq<Call>, n: nat, i: Id, s: State)
    requires |calls| == n + 1 && init == calls[..n] && s == Exec(INITIAL, init)
    ensures (exists k: nat :: StrayedAt(calls, i, k)) <==>
            Strays(s, calls[n], i) || (!Mends(s, calls[n], i) && exists k: nat :: StrayedAt(init, i, k))
  {
    assert StrayedAt(calls, i, n) <==> Strays(s, calls[n], i);
    forall k: nat | k < n ensures StrayedAt(calls, i, k) <==> StrayedAt(init, i, k) && !Mends(s, calls[n], i) {
      StrayedBefore(calls, init, n, i, k);
    }
  }

  /**
   * After any run the two stores associate a floating IP differently exactly if an update was accepted by the
   * database, refused by the Director, which had it elsewhere, and not compensated, and nothing has mended it since.
   */
  lemma {:induction false} AssociatedDifferentlyExactly(calls: seq<Call>, i: Id)
    ensures Differs(Exec(INITIAL, calls), i) <==> exists k: nat :: StrayedAt(calls, i, k)
    decreases calls
  {
    if calls == [] {
    } else {
      var n := |calls| - 1;
      var init := calls[..n];
      AssociatedDifferentlyExactly(init, i);
      ExecKeepsInv(INITIAL, init);
      DifferStep(Exec(INITIAL, init), calls[n], i);
      StrayedSplit(calls, init, n, i, Exec(INITIAL, init));
    }
  }

  // ----- what a call inside a transaction achieves -----

  /** A rule's text is stored under its own identifier. */
  lemma {:induction false} NumberedAt(first: Id, group: Id, rules: seq<Attrs>, k: nat)
    requires k < |rules|
    ensures Numbered(first, group, rules)[first + k] == Rule(group, rules[k])
    decreases rules
  {
    if k == 0 {
    } else {
      NumberedAt(first + 1, group, rules[1..], k - 1);
    }
  }

  ghost predicate Transactional(c: Call) {
    || c.CreateNetwork? || c.CreateRouter? || c.Update? || c.Delete?
    || c.CreateGroup? || c.DeleteGroup? || c.CreateRules?
  }

  /**
   * A call inside a transaction that raises has left the database as it was, and the Director too, with one
   * exception: a default group which it took just before, and which it keeps with its rules.
   */
  lemma TransactionsAreAtomic(s: State, c: Call)
    requires Inv(s) && Transactional(c) && !Stepped(s, c).1
    ensures var t := Step(s, c);
            && t.db == s.db
            && (t.director == s.director <==> !LeavesGroup(s, c))
            && (LeavesGroup(s, c) ==>
                 && LeftId(s, c) !in s.director.groups
                 && t.director == WithGroup(s.director, LeftId(s, c), Group(c.defaults.tenant, true), LeftStarters(c)))
  {
    if c.CreateNetwork? || c.CreateGroup? {
      LeavesExactly(s, c);
      assert LeavesGroup(s, c) ==> LeftId(s, c) in Step(s, c).director.groups && LeftId(s, c) !in s.director.groups;
    }
  }

  /** Both stores have the fresh group g besides what they had, with its rules under the identifiers after it. */
  ghost predicate HasGroup(s: State, t: State, id: Id, g: Group, starters: seq<Attrs>) {
    && id !in s.director.groups
    && t.db.groups == s.db.groups[id := g] && t.director.groups == s.director.groups[id := g]
    && HasRules(s, t, id + 1, id, starters)
  }

  /** Both stores have the rules under fresh consecutive identifiers, besides the rules they had. */
  ghost predicate HasRules(s: State, t: State, first: Id, group: Id, rules: seq<Attrs>) {
    && (forall k :: first <= k < first + |rules| ==> k !in s.director.rules)
    && RulesAdded(s.db.rules, t.db.rules, first, group, rules)
    && RulesAdded(s.director.rules, t.director.rules, first, group, rules)
  }

  ghost predicate RulesAdded(before: map<Id, Rule>, after: map<Id, Rule>, first: Id, group: Id, rules: seq<Attrs>) {
    && (forall k :: k in after <==> k in before || first <= k < first + |rules|)
    && (forall k :: first <= k < first + |rules| ==> after[k] == Rule(group, rules[k - first]))
    && forall k :: k in before && !(first <= k < first + |rules|) ==> after[k] == before[k]
  }

  lemma NumberedAdds(before: map<Id, Rule>, first: Id, group: Id, rules: seq<Attrs>)
    ensures RulesAdded(before, before + Numbered(first, group, rules), first, group, rules)
  {
    forall k | first <= k < first + |rules| ensures Numbered(first, group, rules)[k] == Rule(group, rules[k - first]) {
      NumberedAt(first, group, rules, k - first);
    }
  }

  lemma GroupMadeHas(s: State, g: Group, starters: seq<Attrs>)
    requires Inv(s)
    ensures HasGroup(s, GroupMade(s, g, starters, true).0, s.next, g, starters)
  {
    AddedHas(s, GroupMade(s, g, starters, true).0, s.next + 1, s.next, starters);
  }

  lemma AddedHas(s: State, t: State, first: Id, group: Id, rules: seq<Attrs>)
    requires RulesInv(s) && s.next <= first
    requires t.db.rules == s.db.rules + Numbered(first, group, rules)
    requires t.director.rules == s.director.rules + Numbered(first, group, rules)
    ensures HasRules(s, t, first, group, rules)
  {
    NumberedAdds(s.db.rules, first, group, rules);
    NumberedAdds(s.director.rules, first, group, rules);
  }

  /** The tenant has a default group: the one it had, or a new one with its starter rules. */
  ghost predicate HasOrGets(s: State, t: State, d: Defaults) {
    if exists g :: g in s.db.groups && s.db.groups[g] == Group(d.tenant, true)
    then t.db == s.db && t.director == s.director
    else HasGroup(s, t, s.next, Group(d.tenant, true), d.starters)
  }

  lemma EnsuredHas(s: State, d: Defaults)
    requires Inv(s) && DefaultEnsured(s, d).1
    ensures HasOrGets(s, DefaultEnsured(s, d).0, d)
  {
    GroupMadeHas(s, Group(d.tenant, true), d.starters);
  }

  /** The state between the two parts of a call: all that changed since is the network. */
  ghost predicate OnlyResources(s: State, t: State) {
    t.db.(resources := s.db.resources) == s.db && t.director.(resources := s.director.resources) == s.director
  }

  /** The tenant's default group, if it was missing, and then nothing but the network. */
  ghost predicate DefaultThenNetwork(s: State, t: State, d: Defaults) {
    exists a :: HasOrGets(s.(next := s.next + 1), a, d) && OnlyResources(a, t)
  }

  /** The tenant's default group, if it was missing, and then a group with the given rules. */
  ghost predicate DefaultThenGroup(s: State, t: State, d: Defaults, starters: seq<Attrs>) {
    exists a, id :: HasOrGets(s, a, d) && HasGroup(a, t, id, Group(d.tenant, false), starters)
  }

  lemma ReturnedNetwork(s: State, attrs: Attrs, d: Defaults)
    requires Inv(s) && NetworkCreated(s, attrs, d, true).1
    ensures var t := NetworkCreated(s, attrs, d, true).0;
            && Key(Network, s.next) !in s.db.resources
            && t.db.resources == t.director.resources == s.db.resources[Key(Network, s.next) := attrs]
            && DefaultThenNetwork(s, t, d)
  {
    var b := s.(next := s.next + 1);
    var a, t := DefaultEnsured(b, d).0, NetworkCreated(s, attrs, d, true).0;
    EnsuredHas(b, d);
    DefaultEnsuredKeeps(b, d);
    assert OnlyResources(a, t);
  }

  lemma ReturnedGroup(s: State, starters: seq<Attrs>, d: Defaults)
    requires Inv(s) && GroupCreated(s, starters, d, true, true).1
    ensures DefaultThenGroup(s, GroupCreated(s, starters, d, true, true).0, d, starters)
  {
    var a := DefaultEnsured(s, d).0;
    EnsuredHas(s, d);
    DefaultEnsuredKeeps(s, d);
    GroupMadeHas(a, Group(d.tenant, false), starters);
  }

  lemma ReturnedRules(s: State, g: Id, rules: seq<Attrs>)
    requires Inv(s) && g in s.db.groups
    ensures HasRules(s, Step(s, CreateRules(g, rules, true, true)), s.next, g, rules)
  {
    AddedHas(s, Step(s, CreateRules(g, rules, true, true)), s.next, g, rules);
  }

  /** The rules of other groups, and only those, are left, unchanged. */
  ghost predicate RulesOutside(before: Store, after: Store, g: Id) {
    && (forall r :: r in after.rules <==> r in before.rules && before.rules[r].group != g)
    && forall r :: r in after.rules ==> after.rules[r] == before.rules[r]
  }

  /** Everything but groups and rules is as before. */
  ghost predicate OnlyGroupsAndRules(s: State, t: State) {
    && t.db.(groups := s.db.groups, rules := s.db.rules) == s.db
    && t.director.(groups := s.director.groups, rules := s.director.rules) == s.director
  }

  /** A transactional call that returns has made one change to both stores, under fresh identifiers, and no other. */
  lemma ReturnedMeansBoth(s: State, c: Call)
    requires Inv(s) && Transactional(c) && Stepped(s, c).1
    ensures var t := Step(s, c);
            match c
            case CreateNetwork(attrs, d, _, _) =>
              && Key(Network, s.next) !in s.db.resources
              && t.db.resources == t.director.resources == s.db.resources[Key(Network, s.next) := attrs]
              && DefaultThenNetwork(s, t, d)
            case CreateRouter(attrs, _, _) =>
              && Key(Router, s.next) !in s.db.resources && OnlyResources(s, t)
              && t.db.resources == t.director.resources == s.db.resources[Key(Router, s.next) := attrs]
            case Update(key, attrs, _) =>
              OnlyResources(s, t) && t.db.resources == t.director.resources == s.db.resources[key := attrs]
            case Delete(key, _) =>
              OnlyResources(s, t) && t.db.resources == t.director.resources == s.db.resources - {key}
            case CreateGroup(starters, d, _, _) =>
              DefaultThenGroup(s, t, d, starters)
            case DeleteGroup(g, _, _) =>
              && OnlyGroupsAndRules(s, t)
              && t.db.groups == s.db.groups - {g} && t.director.groups == s.director.groups - {g}
              && RulesOutside(s.db, t.db, g) && RulesOutside(s.director, t.director, g)
            case CreateRules(g, rules, _, _) =>
              && OnlyGroupsAndRules(s, t) && HasRules(s, t, s.next, g, rules)
              && t.db.groups == s.db.groups && t.director.groups == s.director.groups
            case _ => true
  {
    match c
    case CreateNetwork(attrs, d, _, _) => ReturnedNetwork(s, attrs, d);
    case CreateGroup(starters, d, dbOk, dirOk) =>
      assert dbOk && dirOk;
      ReturnedGroup(s, starters, d);
    case CreateRules(g, rules, _, _) => ReturnedRules(s, g, rules);
    case _ =>
  }

  // ----- what the other calls achieve, and when any call returns -----

  /** Floating IP i is on `port`, and no other floating IP has changed. */
  ghost predicate FipIs(fips: map<Id, Option<Id>>, before: map<Id, Option<Id>>, i: Id, port: Option<Id>) {
    && fips.Keys == before.Keys + {i} && fips[i] == port
    && forall j :: j in before && j != i ==> fips[j] == before[j]
  }

  /** Everything but the floating IPs is as before. */
  ghost predicate OnlyFips(s: State, t: State) {
    t.db.(fips := s.db.fips) == s.db && t.director.(fips := s.director.fips) == s.director
  }

  /** What the database had on port p is on no port; all else in `fips` is where it was. */
  ghost predicate PortFreed(fips: map<Id, Option<Id>>, before: map<Id, Option<Id>>, db: map<Id, Option<Id>>, p: Id) {
    && fips.Keys == before.Keys
    && forall i :: i in before ==> fips[i] == if i in db && db[i] == Some(p) then None else before[i]
  }

  /** A call outside a transaction that returns has done in both stores what was asked for, and nothing else. */
  lemma ReturnedMeansDone(s: State, c: Call)
    requires Inv(s) && !Transactional(c) && Stepped(s, c).1
    ensures var t := Step(s, c);
            match c
            case CreateFip(port, _, _, _) =>
              && s.next !in s.db.fips && s.next !in s.director.fips && OnlyFips(s, t)
              && FipIs(t.db.fips, s.db.fips, s.next, port) && FipIs(t.director.fips, s.director.fips, s.next, port)
            case UpdateFip(i, port, _, _, _, _) =>
              && OnlyFips(s, t) && FipIs(t.db.fips, s.db.fips, i, port)
              && if i in s.director.fips then FipIs(t.director.fips, s.director.fips, i, port)
                 else t.director.fips == s.director.fips
            case DeleteFip(i, _) =>
              OnlyFips(s, t) && t.db.fips == s.db.fips - {i} && t.director.fips == s.director.fips - {i}
            case Disassociate(p, _) =>
              && OnlyFips(s, t) && PortFreed(t.db.fips, s.db.fips, s.db.fips, p)
              && PortFreed(t.director.fips, s.director.fips, s.db.fips, p)
            case DeleteRule(r, _) =>
              && OnlyGroupsAndRules(s, t) && t.db.groups == s.db.groups && t.director.groups == s.director.groups
              && t.db.rules == s.db.rules - {r} && t.director.rules == s.director.rules - {r}
            case _ => true
  {
  }

  /** What such a call has changed when it raises; RefusedUpdate... and RevokedUpdate... say more of an update. */
  lemma RaisedMeans(s: State, c: Call)
    requires Inv(s) && !Transactional(c) && !Stepped(s, c).1
    ensures var t := Step(s, c);
            match c
            case CreateFip(port, dbOk, _, undoOk) =>
              && t.director == s.director && OnlyFips(s, t)
              && if dbOk && !undoOk then s.next !in s.db.fips && FipIs(t.db.fips, s.db.fips, s.next, port)
                 else t.db == s.db
            case UpdateFip(_, _, _, _, _, _) =>
              && OnlyFips(s, t) && t.db.fips.Keys == s.db.fips.Keys && t.director.fips.Keys == s.director.fips.Keys
              && t.next == s.next
            case DeleteFip(_, _) => t == s
            case Disassociate(_, _) => t == s
            case DeleteRule(r, _) => t.director == s.director && t.db == s.db.(rules := s.db.rules - {r})
            case _ => true
  {
    match c
    case UpdateFip(i, port, keyed, dbOk, dirOk, undoOk) => FipUpdatedKeeps(s, i, port, keyed, dbOk, dirOk, undoOk);
    case CreateFip(port, dbOk, _, undoOk) =>
      assert s.next !in s.db.fips && s.next !in s.director.fips;
      assert undoOk ==> Step(s, c).db.fips == s.db.fips && Step(s, c).director.fips == s.director.fips;
    case DeleteRule(r, _) =>
      assert r !in s.db.rules ==> s.db.rules - {r} == s.db.rules;
    case _ =>
  }

  /** What a call needs to return: the database takes it, what it names is there, and the Director does its part. */
  predicate Succeeds(s: State, c: Call) {
    match c
    case CreateNetwork(_, d, dbOk, dirOk) => dbOk && (d.ok || HasDefault(s.db, d.tenant)) && dirOk
    case CreateRouter(_, dbOk, dirOk) => dbOk && dirOk
    case Update(key, _, dirOk) => key in s.db.resources && dirOk
    case Delete(key, dirOk) => key in s.db.resources && dirOk
    case CreateFip(_, dbOk, dirOk, _) => dbOk && dirOk
    case UpdateFip(i, _, _, dbOk, dirOk, _) => i in s.db.fips && dbOk && dirOk
    case DeleteFip(i, dirOk) => i in s.db.fips && dirOk
    case Disassociate(p, dirOk) =>
      (forall i, j :: i in s.db.fips && j in s.db.fips && s.db.fips[i] == s.db.fips[j] == Some(p) ==> i == j)
      && (dirOk || forall i :: i in s.db.fips ==> s.db.fips[i] != Some(p))
    case CreateGroup(_, d, dbOk, dirOk) => dbOk && (d.ok || HasDefault(s.db, d.tenant)) && dirOk
    case DeleteGroup(g, dbOk, dirOk) => g in s.db.groups && dbOk && dirOk
    case CreateRules(g, _, dbOk, dirOk) => g in s.db.groups && dbOk && dirOk
    case DeleteRule(r, dirOk) => r in s.db.rules && dirOk
  }

  lemma AtMostOne(found: set<Id>)
    ensures |found| <= 1 <==> forall i, j :: i in found && j in found ==> i == j
    ensures |found| == 0 <==> forall i :: i !in found
  {
    if i, j :| i in found && j in found && i != j {
      AtLeastTwo(found, i, j);
    } else if i :| i in found {
      assert found == {i};
    }
  }

  /** Every call returns exactly when nothing stands against it. */
  lemma ReturnsExactly(s: State, c: Call)
    ensures Stepped(s, c).1 <==> Succeeds(s, c)
  {
    match c
    case Disassociate(p, dirOk) => DisassociatedReturns(s, p, dirOk);
    case _ =>
  }

  lemma DisassociatedReturns(s: State, p: Id, dirOk: bool)
    ensures Disassociated(s, p, dirOk).1 <==> Succeeds(s, Disassociate(p, dirOk))
  {
    var found := OnPort(s.db, p);
    AtMostOne(found);
    assert forall i :: i in found <==> i in s.db.fips && s.db.fips[i] == Some(p);
  }

  // ----- one default group to a tenant -----

  ghost predicate OneDefault(s: Store) {
    forall g, h :: g in s.groups && h in s.groups && s.groups[g] == s.groups[h] && s.groups[g].byDefault ==> g == h
  }

  lemma GroupMadeDefaults(s: State, g: Group, starters: seq<Attrs>, dirOk: bool)
    requires OneDefault(s.db) && (g.byDefault ==> !HasDefault(s.db, g.tenant))
    ensures OneDefault(GroupMade(s, g, starters, dirOk).0.db)
  {
    if g.byDefault {
      assert g == Group(g.tenant, true);
      assert forall h :: h in s.db.groups ==> s.db.groups[h] != g;
    }
  }

  lemma StepKeepsOneDefault(s: State, c: Call)
    requires OneDefault(s.db)
    ensures OneDefault(Step(s, c).db)
  {
    match c
    case CreateNetwork(_, d, _, _) => EnsuredKeepsOneDefault(s.(next := s.next + 1), d);
    case CreateGroup(starters, d, _, dirOk) =>
      EnsuredKeepsOneDefault(s, d);
      GroupMadeDefaults(DefaultEnsured(s, d).0, Group(d.tenant, false), starters, dirOk);
    case _ =>
  }

  lemma EnsuredKeepsOneDefault(s: State, d: Defaults)
    requires OneDefault(s.db)
    ensures OneDefault(DefaultEnsured(s, d).0.db)
  {
    if !HasDefault(s.db, d.tenant) {
      GroupMadeDefaults(s, Group(d.tenant, true), d.starters, d.ok);
    }
  }

  /** Over every run the database never has two default groups for one tenant, however many the Director has. */
  lemma {:induction false} OneDefaultGroup(calls: seq<Call>)
    ensures OneDefault(Exec(INITIAL, calls).db)
    decreases calls
  {
    if calls == [] {
    } else {
      OneDefaultGroup(calls[..|calls| - 1]);
      StepKeepsOneDefault(Exec(INITIAL, calls[..|calls| - 1]), calls[|calls| - 1]);
    }
  }
}
