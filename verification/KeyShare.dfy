/** The openssh_key provider: one elected node makes a key pair, the other members of the role copy it. */
module KeyShare {
  import opened Names
  import opened Wrappers

  datatype KeyName = PrivateKey | PublicKey | AuthorizedKey

  /** node['openssh']['shared']: a missing key is nil. */
  type Shared = map<KeyName, string>

  datatype Pair = Pair(private: string, public: string)

  datatype Machine = Machine(
    shared: Shared,
    privateFile: Option<string>,
    publicFile: Option<string>,
    authorizedFile: Option<seq<string>>)

  datatype World = World(tagged: set<Name>, machines: map<Name, Machine>)

  // ----- the election -----

  function ElectedNode(self: Name, masters: seq<Name>, nodes: set<Name>): Name {
    if masters != [] then masters[0] else if nodes == {} then self else Least(nodes)
  }

  function TagsAfter(tagged: set<Name>, self: Name, masters: seq<Name>, nodes: set<Name>): set<Name> {
    if masters == [] && (nodes == {} || self == Least(nodes)) then tagged + {self} else tagged
  }

  /** One election: the caller, the tagged nodes as its first search lists them, the members its second one finds. */
  datatype Election = Election(self: Name, masters: seq<Name>, nodes: set<Name>)

  /** The tags before and after each of a row of elections whose searches for the tag are up to date. */
  ghost predicate Elections(tags: seq<set<Name>>, calls: seq<Election>) {
    && |tags| == |calls| + 1
    && forall k :: 0 <= k < |calls| ==> Follow(tags[k], calls[k], tags[k + 1])
  }

  ghost predicate Follow(tagged: set<Name>, c: Election, after: set<Name>) {
    && (forall n :: n in c.masters <==> n in tagged)
    && after == TagsAfter(tagged, c.self, c.masters, c.nodes)
  }

  /** The caller finds itself first among the members, or alone. */
  predicate ComesFirst(c: Election) {
    c.nodes == {} || (c.self in c.nodes && forall n :: n in c.nodes ==> Before(c.self, n))
  }

  lemma ComesFirstIs(c: Election)
    ensures ComesFirst(c) <==> c.nodes == {} || c.self == Least(c.nodes)
  {
    if ComesFirst(c) && c.nodes != {} { LeastIs(c.self, c.nodes); }
  }

  lemma FirstListed(masters: seq<Name>)
    ensures masters == [] || masters[0] in masters
  {
  }

  lemma {:induction false} NoTagYet(tags: seq<set<Name>>, calls: seq<Election>, k: nat)
    requires Elections(tags, calls) && tags[0] == {} && k <= |calls|
    requires forall j :: 0 <= j < k ==> !ComesFirst(calls[j])
    ensures tags[k] == {}
  {
    if k == 0 {
    } else {
      NoTagYet(tags, calls, k - 1);
      ComesFirstIs(calls[k - 1]);
      assert Follow(tags[k - 1], calls[k - 1], tags[k]);
    }
  }

  /** A tag stays, and every later election answers its holder, whatever members have joined. */
  lemma {:induction false} TagSticks(tags: seq<set<Name>>, calls: seq<Election>, i: nat, k: nat, t: Name)
    requires Elections(tags, calls) && i <= k <= |calls| && tags[i] == {t}
    ensures tags[k] == {t}
    ensures k < |calls| ==> ElectedNode(calls[k].self, calls[k].masters, calls[k].nodes) == t
    decreases k
  {
    if i < k {
      TagSticks(tags, calls, i, k - 1, t);
      assert Follow(tags[k - 1], calls[k - 1], tags[k]);
    }
    if k < |calls| {
      assert Follow(tags[k], calls[k], tags[k + 1]);
      var m := calls[k].masters;
      assert m != [] by { assert t in m; }
      assert m[0] in m;
    }
  }

  /**
   * Exactly the first caller that finds itself first among the members, or finds none, gets the tag, for good:
   * a smaller name that joins later changes nothing.
   */
  lemma FirstCallerIsTagged(tags: seq<set<Name>>, calls: seq<Election>, i: nat, k: nat)
    requires Elections(tags, calls) && tags[0] == {} && i < k <= |calls|
    requires ComesFirst(calls[i]) && forall j :: 0 <= j < i ==> !ComesFirst(calls[j])
    ensures tags[i] == {} && tags[k] == {calls[i].self}
    ensures ElectedNode(calls[i].self, calls[i].masters, calls[i].nodes) == calls[i].self
    ensures k < |calls| ==> ElectedNode(calls[k].self, calls[k].masters, calls[k].nodes) == calls[i].self
  {
    NoTagYet(tags, calls, i);
    ComesFirstIs(calls[i]);
    assert Follow(tags[i], calls[i], tags[i + 1]);
    FirstListed(calls[i].masters);
    TagSticks(tags, calls, i + 1, k, calls[i].self);
  }

  // ----- the two branches of the action -----

  function WithLine(file: Option<seq<string>>, line: string): seq<string> {
    if file.None? then [line] else if line in file.value then file.value else file.value + [line]
  }

  /** The line is added at the end unless it is there; nothing else in the file changes. */
  lemma LineAppended(file: Option<seq<string>>, line: string, r: seq<string>)
    requires r == WithLine(file, line)
    ensures line in r
    ensures file.Some? ==> file.value <= r && |r| <= |file.value| + 1 && (line in file.value ==> r == file.value)
    ensures file.None? ==> |r| == 1
  {
  }

  function AfterKeygen(m: Machine, keygen: Option<Pair>): Machine {
    if m.privateFile.None? && keygen.Some?
    then m.(privateFile := Some(keygen.value.private), publicFile := Some(keygen.value.public))
    else m
  }

  predicate Readable(m: Machine) {
    m.privateFile.Some? && m.publicFile.Some?
  }

  function Triple(private: string, public: string): Shared {
    map[PrivateKey := private, PublicKey := public, AuthorizedKey := public]
  }

  lemma AllThreeSet(s: Shared, private: string, public: string)
    ensures s[PrivateKey := private][PublicKey := public][AuthorizedKey := public] == Triple(private, public)
  {
    var t := s[PrivateKey := private][PublicKey := public][AuthorizedKey := public];
    forall k: KeyName ensures k in t && k in Triple(private, public) && t[k] == Triple(private, public)[k] {
      match k
      case PrivateKey =>
      case PublicKey =>
      case AuthorizedKey =>
    }
  }

  /**
   * The elected node, when its run dies after `cut` of: making the key files, saving the keys, authorizing the
   * public key. Reading a key file that is not there is an exception.
   */
  function Generated(m: Machine, keygen: Option<Pair>, cut: nat): (Machine, bool) {
    if cut == 0 then (m, false)
    else
      var k := AfterKeygen(m, keygen);
      if !Readable(k) || cut == 1 then (k, false)
      else
        var saved := k.(shared := Triple(k.privateFile.value, k.publicFile.value));
        if cut == 2 then (saved, false)
        else (saved.(authorizedFile := Some(WithLine(saved.authorizedFile, saved.publicFile.value))), true)
  }

  const ALL_KEYS := [PrivateKey, PublicKey, AuthorizedKey]

  function SavedKey(m: Machine, key: KeyName, from: Shared): Machine {
    if key in from then m.(shared := m.shared[key := from[key]]) else m
  }

  function WrittenKey(m: Machine, key: KeyName, from: Shared): Machine {
    if key !in from then m
    else
      match key
      case PrivateKey => m.(privateFile := Some(from[key]))
      case PublicKey => m.(publicFile := Some(from[key]))
      case AuthorizedKey => m.(authorizedFile := Some([from[key]]))
  }

  /** What a whole copy does: three saves, one after the other, and then three files. */
  const WHOLE: nat := 6

  /** The first `cut` actions of a copy. */
  function Copied(m: Machine, from: Shared, cut: nat): Machine
    requires cut <= WHOLE
  {
    if cut == 0 then m
    else if cut <= 3 then SavedKey(Copied(m, from, cut - 1), ALL_KEYS[cut - 1], from)
    else WrittenKey(Copied(m, from, cut - 1), ALL_KEYS[cut - 4], from)
  }

  function Upto(cut: nat): (c: nat)
    ensures c <= WHOLE
  {
    if cut < WHOLE then cut else WHOLE
  }

  /**
   * action :create on `self`, in a run that dies after `cut` actions; `attrs` holds the shared attributes of the
   * nodes the search returned.
   */
  function Created(w: World, self: Name, masters: seq<Name>, nodes: set<Name>,
                   keygen: Option<Pair>, attrs: map<Name, Shared>, cut: nat): (World, bool)
    requires self in w.machines
  {
    var elected := ElectedNode(self, masters, nodes);
    var tagged := TagsAfter(w.tagged, self, masters, nodes);
    var m := w.machines[self];
    if PrivateKey in m.shared then (w.(tagged := tagged), true)
    else if self == elected then
      var (g, ok) := Generated(m, keygen, cut);
      (World(tagged, w.machines[self := g]), ok)
    else if elected in attrs then
      (World(tagged, w.machines[self := Copied(m, attrs[elected], Upto(cut))]), cut >= WHOLE)
    else (w.(tagged := tagged), true)
  }

  /** Every run holds the election first, whether it has anything to do or not, and changes no other machine. */
  lemma EveryRunElects(w: World, self: Name, masters: seq<Name>, nodes: set<Name>, keygen: Option<Pair>,
                       attrs: map<Name, Shared>, cut: nat)
    requires self in w.machines
    ensures var v := Created(w, self, masters, nodes, keygen, attrs, cut).0;
            && v.tagged == TagsAfter(w.tagged, self, masters, nodes)
            && v.machines.Keys == w.machines.Keys
            && (forall n :: n in w.machines && n != self ==> v.machines[n] == w.machines[n])
            && (PrivateKey in w.machines[self].shared ==> v.machines[self] == w.machines[self])
  {
  }

  class ChefServer {
    var tagged: set<Name>
    var machines: map<Name, Machine>

    ghost function Value(): World
      reads this
    {
      World(tagged, machines)
    }

    constructor (machines: map<Name, Machine>)
      ensures Value() == World({}, machines)
    {
      this.tagged, this.machines := {}, machines;
    }

    method NodeElection(self: Name, masters: seq<Name>, nodes: set<Name>) returns (r: Name)
      modifies this`tagged
      ensures r == ElectedNode(self, masters, nodes)
      ensures tagged == TagsAfter(old(tagged), self, masters, nodes)
    {
      if masters == [] {
        if nodes == {} || self == Least(nodes) {
          if self !in tagged {
            tagged := tagged + {self};
          }
        }
        if nodes == {} {
          return self;
        }
        return Least(nodes);
      }
      return masters[0];
    }

    /** The branch of the elected node; node.save stores its three keys at once. */
    method Generate(self: Name, keygen: Option<Pair>, cut: nat) returns (ok: bool)
      requires self in machines
      modifies this`machines
      ensures var (g, done) := Generated(old(machines)[self], keygen, cut);
              ok == done && machines == old(machines)[self := g]
    {
      var m := machines[self];
      if cut == 0 {
        assert machines == machines[self := m];
        return false;
      }
      if m.privateFile.None? {
        if keygen.Some? {
          m := m.(privateFile := Some(keygen.value.private), publicFile := Some(keygen.value.public));
          machines := machines[self := m];
        }
      }
      assert machines == old(machines)[self := m];
      if m.privateFile.None? || m.publicFile.None? || cut == 1 {
        return false;
      }
      var pub := m.publicFile.value;
      m := m.(shared := m.shared[PrivateKey := m.privateFile.value]);
      m := m.(shared := m.shared[PublicKey := pub]);
      m := m.(shared := m.shared[AuthorizedKey := pub]);
      AllThreeSet(old(machines)[self].shared, m.privateFile.value, pub);
      machines := machines[self := m];
      if cut == 2 {
        return false;
      }
      m := m.(authorizedFile := Some(WithLine(m.authorizedFile, pub)));
      machines := machines[self := m];
      return true;
    }

    /** The branch of the others: every key is saved by itself, and the files come last. */
    method Copy(self: Name, from: Shared, cut: nat) returns (ok: bool)
      requires self in machines
      modifies this`machines
      ensures ok <==> cut >= WHOLE
      ensures machines == old(machines)[self := Copied(old(machines)[self], from, Upto(cut))]
    {
      var m := machines[self];
      assert machines == machines[self := m];
      for i := 0 to |ALL_KEYS|
        invariant i <= cut && m == Copied(old(machines)[self], from, i)
        invariant machines == old(machines)[self := m]
      {
        if i == cut {
          return false;
        }
        m := SavedKey(m, ALL_KEYS[i], from);
        machines := machines[self := m];
      }
      for i := 0 to |ALL_KEYS|
        invariant 3 + i <= cut && m == Copied(old(machines)[self], from, 3 + i)
        invariant machines == old(machines)[self := m]
      {
        if 3 + i == cut {
          return false;
        }
        m := WrittenKey(m, ALL_KEYS[i], from);
        machines := machines[self := m];
      }
      return true;
    }

    method Create(self: Name, masters: seq<Name>, nodes: set<Name>, keygen: Option<Pair>, attrs: map<Name, Shared>,
                  cut: nat)
      returns (ok: bool)
      requires self in machines
      modifies this
      ensures (Value(), ok) == Created(old(Value()), self, masters, nodes, keygen, attrs, cut)
    {
      var keygenNode := NodeElection(self, masters, nodes);
      ok := true;
      if self == keygenNode && PrivateKey !in machines[self].shared {
        ok := Generate(self, keygen, cut);
      } else if self != keygenNode && PrivateKey !in machines[self].shared {
        if keygenNode in attrs {
          ok := Copy(self, attrs[keygenNode], cut);
        }
      }
    }
  }

  // ----- every run with up-to-date searches and a fixed set of role members -----

  /**
   * One run of the provider: the order the search lists tagged nodes in, what ssh-keygen would make, and after how
   * many actions the run dies.
   */
  datatype Event = Create(node: Name, masters: seq<Name>, keygen: Option<Pair>, cut: nat)

  ghost predicate Enabled(w: World, e: Event) {
    e.node in w.machines && forall n :: n in e.masters <==> n in w.tagged
  }

  function SharedOf(w: World): map<Name, Shared> {
    map n | n in w.machines :: w.machines[n].shared
  }

  function Step(w: World, e: Event): World {
    if e.node !in w.machines then w
    else Created(w, e.node, e.masters, w.machines.Keys, e.keygen, SharedOf(w), e.cut).0
  }

  /** The one node that can ever generate. */
  function Generator(w: World): Name
    requires w.machines != map[]
  {
    Least(w.machines.Keys)
  }

  function KeysOf(w: World, n: Name): Shared
    requires n in w.machines
  {
    w.machines[n].shared
  }

  ghost predicate Complete(s: Shared) {
    PrivateKey in s && PublicKey in s && s == Triple(s[PrivateKey], s[PublicKey])
  }

  ghost predicate Initial(w: World) {
    && w.machines != map[] && w.tagged == {}
    && forall n :: n in w.machines ==> w.machines[n].shared == map[]
  }

  ghost predicate Inv(w: World) {
    && w.machines != map[]
    && w.tagged <= {Generator(w)}
    && (KeysOf(w, Generator(w)) == map[] || Complete(KeysOf(w, Generator(w))))
    && forall n :: n in w.machines && PrivateKey !in KeysOf(w, n) ==> KeysOf(w, n) == map[]
  }

  lemma Elects(w: World, e: Event)
    requires Inv(w) && Enabled(w, e)
    ensures ElectedNode(e.node, e.masters, w.machines.Keys) == Generator(w)
    ensures Step(w, e).tagged <= {Generator(w)}
  {
    if e.masters != [] { assert e.masters[0] in w.tagged; }
  }

  /** One step rewrites at most the node's own machine. */
  lemma StepShape(w: World, e: Event)
    requires Inv(w) && Enabled(w, e)
    ensures var m := w.machines[e.node];
            var m' := if PrivateKey in m.shared then m
                      else if e.node == Generator(w) then Generated(m, e.keygen, e.cut).0
                      else Copied(m, KeysOf(w, Generator(w)), Upto(e.cut));
            Step(w, e).machines == w.machines[e.node := m']
  {
    Elects(w, e);
    assert w.machines == w.machines[e.node := w.machines[e.node]];
  }

  /** Its place in the order of the saves. */
  function Rank(key: KeyName): nat {
    match key
    case PrivateKey => 0
    case PublicKey => 1
    case AuthorizedKey => 2
  }

  /** The first keys of a triple. */
  function FirstKeys(s: Shared, j: nat): Shared {
    map k | k in s && Rank(k) < j :: s[k]
  }

  /** A copy that died after `cut` actions: the first keys are saved, and files are only written after all three. */
  lemma CopiedIs(m: Machine, s: Shared, cut: nat)
    requires m.shared == map[] && Complete(s) && cut <= WHOLE
    ensures Copied(m, s, cut) == Machine(
              FirstKeys(s, cut),
              if cut >= 4 then Some(s[PrivateKey]) else m.privateFile,
              if cut >= 5 then Some(s[PublicKey]) else m.publicFile,
              if cut >= 6 then Some([s[AuthorizedKey]]) else m.authorizedFile)
  {
  }

  lemma FirstKeysAre(s: Shared, j: nat)
    requires Complete(s)
    ensures PrivateKey in FirstKeys(s, j) <==> j > 0
    ensures FirstKeys(s, 0) == map[] && (FirstKeys(s, j) == s <==> j >= 3)
  {
    assert AuthorizedKey in s && PrivateKey in s;
    assert j < 3 ==> AuthorizedKey !in FirstKeys(s, j);
  }

  lemma StepKeepsInv(w: World, e: Event)
    requires Inv(w) && Enabled(w, e)
    ensures Inv(Step(w, e))
    ensures forall n :: n in w.machines && (n != e.node || KeysOf(w, n) != map[]) ==>
              Step(w, e).machines[n] == w.machines[n]
  {
    var g, n, v := Generator(w), e.node, Step(w, e);
    var m, s := w.machines[n], KeysOf(w, g);
    Elects(w, e);
    StepShape(w, e);
    assert v.machines.Keys == w.machines.Keys;
    if PrivateKey !in m.shared && n != g {
      if s == map[] {
        NothingToCopy(m, Upto(e.cut));
      } else {
        CopiedIs(m, s, Upto(e.cut));
        FirstKeysAre(s, Upto(e.cut));
      }
    }
  }

  lemma {:induction false} NothingToCopy(m: Machine, cut: nat)
    requires cut <= WHOLE
    ensures Copied(m, map[], cut) == m
  {
    if cut == 0 {
    } else {
      NothingToCopy(m, cut - 1);
    }
  }

  // ----- whole histories -----

  /** The worlds between the runs: ws[k] is what run k finds. */
  ghost predicate History(ws: seq<World>, events: seq<Event>) {
    && |ws| == |events| + 1 && Initial(ws[0])
    && forall k :: 0 <= k < |events| ==> Follows(ws[k], events[k], ws[k + 1])
  }

  ghost predicate Follows(w: World, e: Event, v: World) {
    Enabled(w, e) && v == Step(w, e)
  }

  lemma {:induction false} HistoryKeepsInv(ws: seq<World>, events: seq<Event>, k: nat)
    requires History(ws, events) && k <= |events|
    ensures Inv(ws[k]) && ws[k].machines.Keys == ws[0].machines.Keys
  {
    if k == 0 {
    } else {
      HistoryKeepsInv(ws, events, k - 1);
      FollowsKeeps(ws[k - 1], events[k - 1], ws[k]);
    }
  }

  /** One run, in terms of the node's own machine before and after it. */
  lemma FollowsKeeps(w: World, e: Event, v: World)
    requires Inv(w) && Follows(w, e, v)
    ensures Inv(v) && v.machines.Keys == w.machines.Keys && e.node in w.machines
    ensures forall n :: n in w.machines && (n != e.node || KeysOf(w, n) != map[]) ==> v.machines[n] == w.machines[n]
    ensures KeysOf(w, e.node) == map[] ==>
              v.machines[e.node] == if e.node == Generator(w) then Generated(w.machines[e.node], e.keygen, e.cut).0
                                    else Copied(w.machines[e.node], KeysOf(w, Generator(w)), Upto(e.cut))
  {
    StepKeepsInv(w, e);
    StepShape(w, e);
  }

  /** A node with a key in its attributes is settled: no later run changes its attributes or its files. */
  lemma {:induction false} Settled(ws: seq<World>, events: seq<Event>, i: nat, k: nat, n: Name)
    requires History(ws, events) && i <= k <= |events|
    requires n in ws[i].machines && KeysOf(ws[i], n) != map[]
    ensures n in ws[k].machines && ws[k].machines[n] == ws[i].machines[n]
    decreases k
  {
    if i == k {
    } else {
      Settled(ws, events, i, k - 1, n);
      HistoryKeepsInv(ws, events, k - 1);
      FollowsKeeps(ws[k - 1], events[k - 1], ws[k]);
    }
  }

  // ----- the copies -----

  /** Run k of node n starts to copy: the generator g has its keys, and the run does not die at once. */
  predicate Starts(ws: seq<World>, events: seq<Event>, g: Name, n: Name, k: nat) {
    && k < |events| < |ws| && events[k].node == n && events[k].cut > 0
    && g in ws[k].machines && KeysOf(ws[k], g) != map[]
  }

  ghost predicate FirstStart(ws: seq<World>, events: seq<Event>, g: Name, n: Name, k: nat) {
    Starts(ws, events, g, n, k) && forall j: nat :: j < k ==> !Starts(ws, events, g, n, j)
  }

  lemma {:induction false} FirstOf(ws: seq<World>, events: seq<Event>, g: Name, n: Name, k: nat) returns (i: nat)
    requires Starts(ws, events, g, n, k)
    ensures FirstStart(ws, events, g, n, i)
    decreases k
  {
    if j: nat :| j < k && Starts(ws, events, g, n, j) {
      i := FirstOf(ws, events, g, n, j);
    } else {
      i := k;
    }
  }

  lemma {:induction false} NotStarted(ws: seq<World>, events: seq<Event>, g: Name, n: Name, k: nat)
    requires History(ws, events) && k <= |events| && g == Generator(ws[0]) && n in ws[0].machines && n != g
    requires forall j: nat :: j < k ==> !Starts(ws, events, g, n, j)
    ensures n in ws[k].machines && ws[k].machines[n] == ws[0].machines[n]
  {
    if k == 0 {
    } else {
      NotStarted(ws, events, g, n, k - 1);
      HistoryKeepsInv(ws, events, k - 1);
      FollowsKeeps(ws[k - 1], events[k - 1], ws[k]);
      if events[k - 1].node == n {
        assert !Starts(ws, events, g, n, k - 1);
        NothingToCopy(ws[0].machines[n], Upto(events[k - 1].cut));
      }
    }
  }

  /** The machine a copy of the triple s leaves when it dies after `cut` actions. */
  function CutCopy(m: Machine, s: Shared, cut: nat): Machine
    requires Complete(s)
  {
    Machine(FirstKeys(s, cut),
            if cut >= 4 then Some(s[PrivateKey]) else m.privateFile,
            if cut >= 5 then Some(s[PublicKey]) else m.publicFile,
            if cut >= 6 then Some([s[AuthorizedKey]]) else m.authorizedFile)
  }

  /**
   * The first run that starts to copy decides for good what the node gets: a run that dies after one or two saves
   * leaves it with part of the triple, one that dies later with all of it but not all files.
   */
  lemma CopyIsFinal(ws: seq<World>, events: seq<Event>, g: Name, n: Name, i: nat, k: nat, s: Shared)
    requires History(ws, events) && g == Generator(ws[0]) && n in ws[0].machines && n != g
    requires FirstStart(ws, events, g, n, i) && i < k <= |events|
    requires g in ws[k].machines && s == KeysOf(ws[k], g)
    ensures n in ws[k].machines && Complete(s)
    ensures ws[k].machines[n] == CutCopy(ws[0].machines[n], s, Upto(events[i].cut))
  {
    var cut := Upto(events[i].cut);
    HistoryKeepsInv(ws, events, i);
    NotStarted(ws, events, g, n, i);
    Settled(ws, events, i, k, g);
    FollowsKeeps(ws[i], events[i], ws[i + 1]);
    CopiedIs(ws[0].machines[n], s, cut);
    FirstKeysAre(s, cut);
    Settled(ws, events, i + 1, k, n);
  }

  /** A private key without the rest of the generator's triple: the guard of the action never lets a run complete it. */
  predicate Stuck(w: World, g: Name, n: Name)
    requires g in w.machines && n in w.machines
  {
    PrivateKey in KeysOf(w, n) && KeysOf(w, n) != KeysOf(w, g)
  }

  /** A node is stuck exactly if its first run that started to copy died after the first or second of the saves. */
  lemma StuckExactly(ws: seq<World>, events: seq<Event>, g: Name, n: Name, k: nat)
    requires History(ws, events) && g == Generator(ws[0]) && n in ws[0].machines && n != g && k == |events|
    ensures n in ws[k].machines && g in ws[k].machines
    ensures Stuck(ws[k], g, n) <==> exists i: nat :: FirstStart(ws, events, g, n, i) && events[i].cut < 3
  {
    HistoryKeepsInv(ws, events, k);
    if j: nat :| Starts(ws, events, g, n, j) {
      var i := FirstOf(ws, events, g, n, j);
      CopyIsFinal(ws, events, g, n, i, k, KeysOf(ws[k], g));
      FirstKeysAre(KeysOf(ws[k], g), Upto(events[i].cut));
    } else {
      NotStarted(ws, events, g, n, k);
    }
  }

  /**
   * Over every history, whatever runs die, a node's keys are unset or the first one, two or three of the one
   * generator's triple, they never change once set, and they are set by a node's first live run that follows
   * the generation.
   */
  lemma OneTriple(ws: seq<World>, events: seq<Event>, g: Name, n: Name, i: nat, k: nat)
    requires History(ws, events) && g == Generator(ws[0]) && n in ws[0].machines && i <= k == |events|
    ensures g in ws[k].machines && n in ws[i].machines && n in ws[k].machines
    ensures KeysOf(ws[k], n) != map[] ==>
              Complete(KeysOf(ws[k], g)) && exists j: nat :: KeysOf(ws[k], n) == FirstKeys(KeysOf(ws[k], g), j)
    ensures KeysOf(ws[i], n) != map[] ==> KeysOf(ws[k], n) == KeysOf(ws[i], n)
    ensures Starts(ws, events, g, n, i) ==> KeysOf(ws[k], n) != map[]
  {
    HistoryKeepsInv(ws, events, i);
    HistoryKeepsInv(ws, events, k);
    if KeysOf(ws[i], n) != map[] {
      Settled(ws, events, i, k, n);
    }
    if n == g {
      if KeysOf(ws[k], g) != map[] { FirstKeysAre(KeysOf(ws[k], g), 3); }
    } else if j: nat :| Starts(ws, events, g, n, j) {
      var f := FirstOf(ws, events, g, n, j);
      CopyIsFinal(ws, events, g, n, f, k, KeysOf(ws[k], g));
      FirstKeysAre(KeysOf(ws[k], g), Upto(events[f].cut));
    } else {
      NotStarted(ws, events, g, n, k);
    }
  }

  // ----- the generation -----

  /** The pair that ssh-keygen made in the first run of node g that lived to call a working one, among the first k. */
  function MadeBy(events: seq<Event>, g: Name, k: nat): Option<Pair>
    requires k <= |events|
  {
    if k == 0 then None
    else if MadeBy(events, g, k - 1).Some? then MadeBy(events, g, k - 1)
    else if events[k - 1].node == g && events[k - 1].cut > 0 then events[k - 1].keygen
    else None
  }

  lemma {:induction false} MadeByFirst(events: seq<Event>, g: Name, k: nat)
    requires k <= |events|
    ensures match MadeBy(events, g, k)
            case None => forall j :: 0 <= j < k && events[j].node == g && events[j].cut > 0 ==> events[j].keygen.None?
            case Some(pair) =>
              exists j ::
                && 0 <= j < k && events[j].node == g && events[j].cut > 0 && events[j].keygen == Some(pair)
                && forall i :: 0 <= i < j && events[i].node == g && events[i].cut > 0 ==> events[i].keygen.None?
  {
    if k == 0 {
    } else {
      MadeByFirst(events, g, k - 1);
    }
  }

  /** The key pair the generator reads: its own files, or what ssh-keygen made where no private key was. */
  function PairOf(m: Machine, made: Option<Pair>): Option<Pair> {
    if m.privateFile.None? then made
    else if m.publicFile.None? then None
    else Some(Pair(m.privateFile.value, m.publicFile.value))
  }

  /** Run k gets to the save: both key files were there, or ssh-keygen has made them by then. */
  predicate Generates(m: Machine, events: seq<Event>, g: Name, k: nat) {
    && k < |events| && events[k].node == g && events[k].cut >= 2
    && PairOf(m, MadeBy(events, g, k + 1)).Some?
  }

  /** What the generator's machine looks like before it has its keys. */
  ghost predicate Waiting(m0: Machine, m: Machine, made: Option<Pair>) {
    && m.shared == map[] && m.authorizedFile == m0.authorizedFile
    && if m0.privateFile.Some? || made.None? then m == m0
       else m.privateFile == Some(made.value.private) && m.publicFile == Some(made.value.public)
  }

  /** Its machine once it has them, when the run that generated them died after `cut` actions. */
  ghost predicate HasGenerated(m0: Machine, m: Machine, pair: Pair, cut: nat) {
    && m.shared.Keys == {PrivateKey, PublicKey, AuthorizedKey}
    && m.shared[PrivateKey] == pair.private && m.shared[PublicKey] == m.shared[AuthorizedKey] == pair.public
    && m.privateFile == Some(pair.private) && m.publicFile == Some(pair.public)
    && m.authorizedFile == if cut >= 3 then Some(WithLine(m0.authorizedFile, pair.public)) else m0.authorizedFile
  }

  lemma KeysOfTriple(private: string, public: string)
    ensures Triple(private, public).Keys == {PrivateKey, PublicKey, AuthorizedKey}
  {
  }

  lemma GeneratedIsComplete(m0: Machine, m: Machine, pair: Pair, cut: nat)
    requires HasGenerated(m0, m, pair, cut)
    ensures Complete(m.shared)
  {
    KeysOfTriple(pair.private, pair.public);
    assert m.shared == Triple(pair.private, pair.public);
  }

  lemma GenerateStep(m0: Machine, m: Machine, made: Option<Pair>, keygen: Option<Pair>, cut: nat, now: Option<Pair>,
                     v: Machine)
    requires Waiting(m0, m, made) && v == Generated(m, keygen, cut).0
    requires now == if made.Some? then made else if cut > 0 then keygen else None
    ensures if cut >= 2 && PairOf(m0, now).Some? then HasGenerated(m0, v, PairOf(m0, now).value, cut)
            else Waiting(m0, v, now)
  {
  }

  /** After k runs the generator is still waiting. */
  ghost predicate Waits(ws: seq<World>, events: seq<Event>, g: Name, k: nat) {
    && k <= |events| && k < |ws| && g in ws[0].machines && g in ws[k].machines
    && Waiting(ws[0].machines[g], ws[k].machines[g], MadeBy(events, g, k))
  }

  lemma StartWaits(ws: seq<World>, events: seq<Event>, g: Name)
    requires History(ws, events) && g == Generator(ws[0])
    ensures Waits(ws, events, g, 0)
  {
  }

  lemma WaitsOn(m0: Machine, w: World, events: seq<Event>, g: Name, k: nat, v: World)
    requires Inv(w) && g == Generator(w) && k < |events| && Follows(w, events[k], v)
    requires Waiting(m0, w.machines[g], MadeBy(events, g, k)) && !Generates(m0, events, g, k)
    ensures g in v.machines && Waiting(m0, v.machines[g], MadeBy(events, g, k + 1))
  {
    var e := events[k];
    FollowsKeeps(w, e, v);
    if e.node == g {
      GenerateStep(m0, w.machines[g], MadeBy(events, g, k), e.keygen, e.cut, MadeBy(events, g, k + 1), v.machines[g]);
    }
  }

  lemma WaitsNext(ws: seq<World>, events: seq<Event>, g: Name, k: nat)
    requires History(ws, events) && g == Generator(ws[0]) && k < |events| && Waits(ws, events, g, k)
    requires !Generates(ws[0].machines[g], events, g, k)
    ensures Waits(ws, events, g, k + 1)
  {
    HistoryKeepsInv(ws, events, k);
    WaitsOn(ws[0].machines[g], ws[k], events, g, k, ws[k + 1]);
  }

  lemma {:induction false} StillWaits(ws: seq<World>, events: seq<Event>, g: Name, k: nat)
    requires History(ws, events) && g == Generator(ws[0]) && k <= |events|
    requires forall j: nat :: j < k ==> !Generates(ws[0].machines[g], events, g, j)
    ensures Waits(ws, events, g, k)
  {
    if k == 0 {
      StartWaits(ws, events, g);
    } else {
      StillWaits(ws, events, g, k - 1);
      WaitsNext(ws, events, g, k - 1);
    }
  }

  lemma StillWaiting(ws: seq<World>, events: seq<Event>, g: Name, k: nat)
    requires History(ws, events) && g == Generator(ws[0]) && k <= |events|
    requires forall j: nat :: j < k ==> !Generates(ws[0].machines[g], events, g, j)
    ensures g in ws[k].machines && Waiting(ws[0].machines[g], ws[k].machines[g], MadeBy(events, g, k))
  {
    StillWaits(ws, events, g, k);
  }

  ghost predicate FirstGenerates(m: Machine, events: seq<Event>, g: Name, i: nat) {
    Generates(m, events, g, i) && forall j: nat :: j < i ==> !Generates(m, events, g, j)
  }

  lemma {:induction false} FirstGeneration(m: Machine, events: seq<Event>, g: Name, k: nat) returns (i: nat)
    requires Generates(m, events, g, k)
    ensures FirstGenerates(m, events, g, i)
    decreases k
  {
    if j: nat :| j < k && Generates(m, events, g, j) {
      i := FirstGeneration(m, events, g, j);
    } else {
      i := k;
    }
  }

  /**
   * The first such run decides for good: the keys are the pair found or made by then, and if the run dies before its
   * last action, the generator never lets its own key in.
   */
  lemma GenerationIsFinal(ws: seq<World>, events: seq<Event>, g: Name, i: nat, k: nat)
    requires History(ws, events) && g == Generator(ws[0]) && FirstGenerates(ws[0].machines[g], events, g, i)
    requires i < k <= |events|
    ensures g in ws[k].machines && Complete(KeysOf(ws[k], g))
    ensures var pair := PairOf(ws[0].machines[g], MadeBy(events, g, i + 1)).value;
            HasGenerated(ws[0].machines[g], ws[k].machines[g], pair, events[i].cut)
  {
    var e := events[i];
    var m0, made, now := ws[0].machines[g], MadeBy(events, g, i), MadeBy(events, g, i + 1);
    StillWaiting(ws, events, g, i);
    HistoryKeepsInv(ws, events, i);
    FollowsKeeps(ws[i], e, ws[i + 1]);
    GenerateStep(m0, ws[i].machines[g], made, e.keygen, e.cut, now, ws[i + 1].machines[g]);
    GeneratedIsComplete(m0, ws[i + 1].machines[g], PairOf(m0, now).value, e.cut);
    Settled(ws, events, i + 1, k, g);
  }

  /**
   * The generator has its keys exactly if one of its runs did not die before the save and found both key files:
   * there from the start or, where no private key was, made by ssh-keygen in one of its runs so far.
   */
  lemma GeneratorGenerates(ws: seq<World>, events: seq<Event>, g: Name, k: nat)
    requires History(ws, events) && g == Generator(ws[0]) && k == |events|
    ensures g in ws[k].machines
    ensures KeysOf(ws[k], g) != map[] <==> exists i: nat :: Generates(ws[0].machines[g], events, g, i)
  {
    if j: nat :| Generates(ws[0].machines[g], events, g, j) {
      var i := FirstGeneration(ws[0].machines[g], events, g, j);
      GenerationIsFinal(ws, events, g, i, k);
    } else {
      StillWaiting(ws, events, g, k);
    }
  }

  /** Whatever was authorized on the generator stays authorized, in its place; at most its own key comes behind. */
  lemma AuthorizedStay(ws: seq<World>, events: seq<Event>, g: Name, k: nat)
    requires History(ws, events) && g == Generator(ws[0]) && k == |events| && ws[0].machines[g].authorizedFile.Some?
    ensures g in ws[k].machines && ws[k].machines[g].authorizedFile.Some?
    ensures var was, now := ws[0].machines[g].authorizedFile.value, ws[k].machines[g].authorizedFile.value;
            was <= now && |now| <= |was| + 1
            && (now != was ==> KeysOf(ws[k], g) != map[] && PublicKey in KeysOf(ws[k], g)
                               && now == was + [KeysOf(ws[k], g)[PublicKey]])
  {
    var m := ws[0].machines[g];
    if j: nat :| Generates(m, events, g, j) {
      var i := FirstGeneration(m, events, g, j);
      GenerationIsFinal(ws, events, g, i, k);
      var line := PairOf(m, MadeBy(events, g, i + 1)).value.public;
      LineAppended(m.authorizedFile, line, WithLine(m.authorizedFile, line));
    } else {
      StillWaiting(ws, events, g, k);
    }
  }

  // ----- the tag -----

  /** Over every history exactly the generator is tagged, from its first run on. */
  lemma {:induction false} TaggedExactly(ws: seq<World>, events: seq<Event>, g: Name, k: nat)
    requires History(ws, events) && g == Generator(ws[0]) && k <= |events|
    ensures ws[k].tagged == if exists j :: 0 <= j < k && events[j].node == g then {g} else {}
  {
    if k == 0 {
    } else {
      TaggedExactly(ws, events, g, k - 1);
      HistoryKeepsInv(ws, events, k - 1);
      assert Follows(ws[k - 1], events[k - 1], ws[k]);
      TagStep(ws[k - 1], events[k - 1]);
    }
  }

  lemma TagStep(w: World, e: Event)
    requires Inv(w) && Enabled(w, e)
    ensures Step(w, e).tagged == if e.node == Generator(w) then {e.node} else w.tagged
  {
    Elects(w, e);
    if e.masters != [] { assert e.masters[0] in w.tagged; }
  }

  // ----- what it is for -----

  /** No run of node n dies. */
  predicate NeverDies(events: seq<Event>, n: Name) {
    forall j :: 0 <= j < |events| && events[j].node == n ==> events[j].cut >= WHOLE
  }

  /** The files of a node that has the triple `s` let it log in, and let in every holder of `s`. */
  ghost predicate Installed(m: Machine, s: Shared)
    requires Complete(s)
  {
    && m.privateFile == Some(s[PrivateKey])
    && m.publicFile == Some(s[PublicKey])
    && m.authorizedFile.Some? && s[PublicKey] in m.authorizedFile.value
  }

  lemma GeneratorInstalled(ws: seq<World>, events: seq<Event>, g: Name, k: nat)
    requires History(ws, events) && g == Generator(ws[0]) && k == |events| && NeverDies(events, g)
    requires g in ws[k].machines && KeysOf(ws[k], g) != map[]
    ensures Complete(KeysOf(ws[k], g)) && Installed(ws[k].machines[g], KeysOf(ws[k], g))
  {
    GeneratorGenerates(ws, events, g, k);
    var j: nat :| Generates(ws[0].machines[g], events, g, j);
    var i := FirstGeneration(ws[0].machines[g], events, g, j);
    GenerationIsFinal(ws, events, g, i, k);
  }

  lemma MemberInstalled(ws: seq<World>, events: seq<Event>, g: Name, n: Name, j: nat, k: nat)
    requires History(ws, events) && g == Generator(ws[0]) && k == |events| && NeverDies(events, n)
    requires n in ws[0].machines && n != g && Starts(ws, events, g, n, j)
    ensures g in ws[k].machines && n in ws[k].machines && Complete(KeysOf(ws[k], g))
    ensures KeysOf(ws[k], n) == KeysOf(ws[k], g) && Installed(ws[k].machines[n], KeysOf(ws[k], g))
  {
    HistoryKeepsInv(ws, events, k);
    var i := FirstOf(ws, events, g, n, j);
    CopyIsFinal(ws, events, g, n, i, k, KeysOf(ws[k], g));
    FirstKeysAre(KeysOf(ws[k], g), Upto(events[i].cut));
  }

  /** The member is the generator, or has run when the generator had its keys. */
  ghost predicate HasRun(ws: seq<World>, events: seq<Event>, g: Name, n: Name) {
    n == g || exists j: nat :: Starts(ws, events, g, n, j)
  }

  /**
   * Login without a password: once the generator has its keys, then everybody has run, and none of these runs
   * died, any member can log in to any member.
   */
  lemma PasswordlessMesh(ws: seq<World>, events: seq<Event>, g: Name, k: nat, a: Name, b: Name)
    requires History(ws, events) && g == Generator(ws[0]) && k == |events|
    requires g in ws[k].machines && KeysOf(ws[k], g) != map[]
    requires a in ws[0].machines && NeverDies(events, a) && HasRun(ws, events, g, a)
    requires b in ws[0].machines && NeverDies(events, b) && HasRun(ws, events, g, b)
    ensures a in ws[k].machines && b in ws[k].machines && Complete(KeysOf(ws[k], a))
    ensures ws[k].machines[a].privateFile == Some(KeysOf(ws[k], a)[PrivateKey])
    ensures ws[k].machines[b].authorizedFile.Some?
            && KeysOf(ws[k], a)[PublicKey] in ws[k].machines[b].authorizedFile.value
  {
    if a == g || b == g { GeneratorInstalled(ws, events, g, k); }
    if a != g {
      var j: nat :| Starts(ws, events, g, a, j);
      MemberInstalled(ws, events, g, a, j, k);
    }
    if b != g {
      var j: nat :| Starts(ws, events, g, b, j);
      MemberInstalled(ws, events, g, b, j, k);
    }
  }

  // ----- exactly who can log in where, whatever runs died -----

  predicate HasPrivate(m: Machine, s: Shared)
    requires PrivateKey in s
  {
    m.privateFile == Some(s[PrivateKey])
  }

  predicate LetsIn(m: Machine, s: Shared)
    requires PublicKey in s
  {
    m.authorizedFile.Some? && s[PublicKey] in m.authorizedFile.value
  }

  /** Member n gets the private key file, unless it was there: the generator always, others by their fourth action. */
  ghost predicate GetsPrivate(ws: seq<World>, events: seq<Event>, g: Name, n: Name) {
    n == g || exists i: nat :: FirstStart(ws, events, g, n, i) && events[i].cut >= 4
  }

  /** Member n gets the public key authorized, unless it was: by the last action of the run that decides. */
  ghost predicate GetsAuthorized(ws: seq<World>, events: seq<Event>, g: Name, n: Name) {
    && |ws| > 0 && g in ws[0].machines
    && if n == g then exists i: nat :: FirstGenerates(ws[0].machines[g], events, g, i) && events[i].cut >= 3
       else exists i: nat :: FirstStart(ws, events, g, n, i) && events[i].cut >= WHOLE
  }

  lemma SameFirst(ws: seq<World>, events: seq<Event>, g: Name, n: Name, i: nat, j: nat)
    requires FirstStart(ws, events, g, n, i) && FirstStart(ws, events, g, n, j)
    ensures i == j
  {
  }

  lemma MemberFiles(ws: seq<World>, events: seq<Event>, g: Name, n: Name, k: nat, s: Shared)
    requires History(ws, events) && g == Generator(ws[0]) && k == |events| && n in ws[0].machines && n != g
    requires g in ws[k].machines && s == KeysOf(ws[k], g) && Complete(s)
    ensures n in ws[k].machines
    ensures HasPrivate(ws[k].machines[n], s) <==> HasPrivate(ws[0].machines[n], s) || GetsPrivate(ws, events, g, n)
    ensures LetsIn(ws[k].machines[n], s) <==> LetsIn(ws[0].machines[n], s) || GetsAuthorized(ws, events, g, n)
  {
    if j: nat :| Starts(ws, events, g, n, j) {
      var i := FirstOf(ws, events, g, n, j);
      CopyIsFinal(ws, events, g, n, i, k, s);
      forall l: nat | FirstStart(ws, events, g, n, l) ensures l == i {
        SameFirst(ws, events, g, n, i, l);
      }
    } else {
      NotStarted(ws, events, g, n, k);
    }
  }

  lemma GeneratorFiles(ws: seq<World>, events: seq<Event>, g: Name, k: nat, s: Shared)
    requires History(ws, events) && g == Generator(ws[0]) && k == |events|
    requires g in ws[k].machines && s == KeysOf(ws[k], g) && Complete(s)
    ensures HasPrivate(ws[k].machines[g], s)
    ensures LetsIn(ws[k].machines[g], s) <==> LetsIn(ws[0].machines[g], s) || GetsAuthorized(ws, events, g, g)
  {
    GeneratorGenerates(ws, events, g, k);
    var j: nat :| Generates(ws[0].machines[g], events, g, j);
    var i := FirstGeneration(ws[0].machines[g], events, g, j);
    GenerationIsFinal(ws, events, g, i, k);
    forall l: nat | FirstGenerates(ws[0].machines[g], events, g, l) ensures l == i {
    }
  }

  /**
   * Once the generator has its keys, member a can log in to member b with them exactly if a's deciding run lived to
   * write the private key and b's to authorize the public one, or the files said so from the start.
   */
  lemma LoginExactly(ws: seq<World>, events: seq<Event>, g: Name, k: nat, a: Name, b: Name, s: Shared)
    requires History(ws, events) && g == Generator(ws[0]) && k == |events|
    requires g in ws[k].machines && s == KeysOf(ws[k], g) && s != map[]
    requires a in ws[0].machines && b in ws[0].machines
    ensures a in ws[k].machines && b in ws[k].machines && Complete(s)
    ensures HasPrivate(ws[k].machines[a], s) && LetsIn(ws[k].machines[b], s) <==>
            && (HasPrivate(ws[0].machines[a], s) || GetsPrivate(ws, events, g, a))
            && (LetsIn(ws[0].machines[b], s) || GetsAuthorized(ws, events, g, b))
  {
    HistoryKeepsInv(ws, events, k);
    GeneratorFiles(ws, events, g, k, s);
    if a != g { MemberFiles(ws, events, g, a, k, s); }
    if b != g { MemberFiles(ws, events, g, b, k, s); }
  }

  // ----- every run with any search results at all: exactly when there are two key pairs -----

  /** A run of the provider with whatever its two searches returned. */
  datatype Search = Search(node: Name, masters: seq<Name>, nodes: set<Name>, keygen: Option<Pair>, cut: nat)

  function After(w: World, c: Search): World {
    if c.node !in w.machines then w
    else Created(w, c.node, c.masters, c.nodes, c.keygen, SharedOf(w), c.cut).0
  }

  predicate HasKey(w: World, n: Name) {
    n in w.machines && PrivateKey in w.machines[n].shared
  }

  ghost predicate OneKeyAtMost(w: World) {
    forall a, b :: HasKey(w, a) && HasKey(w, b) ==>
      w.machines[a].shared[PrivateKey] == w.machines[b].shared[PrivateKey]
  }

  /** A run on a node without a key that elects the node itself and finds, or makes, a key other than one in use. */
  ghost predicate SecondKey(w: World, c: Search) {
    && c.node in w.machines && !HasKey(w, c.node) && ElectedNode(c.node, c.masters, c.nodes) == c.node && c.cut >= 2
    && var m := AfterKeygen(w.machines[c.node], c.keygen);
       Readable(m) && exists n :: HasKey(w, n) && w.machines[n].shared[PrivateKey] != m.privateFile.value
  }

  lemma {:induction false} CopiedPrivate(m: Machine, from: Shared, cut: nat)
    requires cut <= WHOLE && PrivateKey !in m.shared
    ensures var c := Copied(m, from, cut).shared;
            && (PrivateKey in c <==> cut > 0 && PrivateKey in from)
            && (PrivateKey in c ==> c[PrivateKey] == from[PrivateKey])
  {
    if cut == 0 {
    } else {
      CopiedPrivate(m, from, cut - 1);
    }
  }

  /** From one key in use to two: exactly by such a run. */
  lemma SecondKeyExactly(w: World, c: Search)
    requires OneKeyAtMost(w)
    ensures OneKeyAtMost(After(w, c)) <==> !SecondKey(w, c)
  {
    var v, n := After(w, c), c.node;
    if n in w.machines && !HasKey(w, n) {
      var elected := ElectedNode(n, c.masters, c.nodes);
      if elected != n && elected in w.machines {
        CopiedPrivate(w.machines[n], SharedOf(w)[elected], Upto(c.cut));
        assert HasKey(v, n) ==> HasKey(w, elected);
      }
      if SecondKey(w, c) {
        var m := AfterKeygen(w.machines[n], c.keygen);
        var x :| HasKey(w, x) && w.machines[x].shared[PrivateKey] != m.privateFile.value;
        assert HasKey(v, x) && HasKey(v, n);
      }
    }
  }

  lemma KeysStay(w: World, c: Search, n: Name)
    requires HasKey(w, n)
    ensures HasKey(After(w, c), n) && After(w, c).machines[n] == w.machines[n]
  {
  }

  /** ws[k] is what run k finds; members keep their places, searches are what they like. */
  ghost predicate StaleHistory(ws: seq<World>, calls: seq<Search>) {
    |ws| == |calls| + 1 && forall k :: 0 <= k < |calls| ==> ws[k + 1] == After(ws[k], calls[k])
  }

  lemma {:induction false} KeysStayOn(ws: seq<World>, calls: seq<Search>, i: nat, k: nat, n: Name)
    requires StaleHistory(ws, calls) && i <= k <= |calls| && HasKey(ws[i], n)
    ensures HasKey(ws[k], n) && ws[k].machines[n] == ws[i].machines[n]
    decreases k
  {
    if i == k {
    } else {
      KeysStayOn(ws, calls, i, k - 1, n);
      KeysStay(ws[k - 1], calls[k - 1], n);
    }
  }

  /** Two key pairs are in use at the end exactly if some run was such a second-key run. */
  lemma {:induction false} TwoKeysExactly(ws: seq<World>, calls: seq<Search>, k: nat)
    requires StaleHistory(ws, calls) && k <= |calls| && OneKeyAtMost(ws[0])
    ensures !OneKeyAtMost(ws[k]) <==> exists i :: 0 <= i < k && SecondKey(ws[i], calls[i])
  {
    if k == 0 {
    } else {
      TwoKeysExactly(ws, calls, k - 1);
      var w, c := ws[k - 1], calls[k - 1];
      assert ws[k] == After(w, c);
      if OneKeyAtMost(w) {
        SecondKeyExactly(w, c);
      } else {
        var a, b :| HasKey(w, a) && HasKey(w, b)
                    && w.machines[a].shared[PrivateKey] != w.machines[b].shared[PrivateKey];
        KeysStay(w, c, a);
        KeysStay(w, c, b);
      }
    }
  }

  /** Two stale searches do it: "b" does not see "a" yet, and "a" does not see the tag of "b" yet. */
  lemma StaleSearchesGiveTwoKeys(p: Pair, q: Pair, w: World)
    requires p.private != q.private && w == World({}, map["a" := Machine(map[], None, None, None),
                                                          "b" := Machine(map[], None, None, None)])
    ensures !OneKeyAtMost(After(After(w, Search("b", [], {"b"}, Some(p), WHOLE)),
                                Search("a", [], {"a", "b"}, Some(q), WHOLE)))
  {
    BeforeTotal("a", "a");
    LeastIs("a", {"a", "b"});
    LeastIs("b", {"b"});
    var v := After(w, Search("b", [], {"b"}, Some(p), WHOLE));
    assert HasKey(v, "b") && v.machines["b"].shared[PrivateKey] == p.private;
    assert SecondKey(v, Search("a", [], {"a", "b"}, Some(q), WHOLE));
    SecondKeyExactly(v, Search("a", [], {"a", "b"}, Some(q), WHOLE));
  }
}
