/** keepalived_master: electing, sticking with and trimming the tagged master of a role. */
module Election {
  import opened Names

  /** What a call gives its caller; NoMembers is the exception raised by asking an empty list for its first name. */
  datatype Outcome = Elected(name: Name) | NoMembers

  function Answer(masters: set<Name>, members: set<Name>): Outcome {
    if masters != {} then Elected(Least(masters))
    else if members != {} then Elected(Least(members))
    else NoMembers
  }

  /** The tags left by one undisturbed call of `self`, whose two searches returned `masters` and `members`. */
  function TagsAfter(tagged: set<Name>, self: Name, masters: set<Name>, members: set<Name>): set<Name> {
    if masters != {} then tagged - (masters - {Least(masters)})
    else if members != {} && self == Least(members) then tagged + {self}
    else tagged
  }

  /** The tag as the Chef server holds it: the set of nodes that carry it. */
  class TagStore {
    var tagged: set<Name>

    constructor ()
      ensures tagged == {}
    {
      tagged := {};
    }

    method KeepalivedMaster(self: Name, masters: set<Name>, members: set<Name>) returns (r: Outcome)
      modifies this
      ensures r == Answer(masters, members)
      ensures tagged == TagsAfter(old(tagged), self, masters, members)
    {
      if masters == {} {
        if members == {} {
          return NoMembers;
        }
        var first := Least(members);
        if self == first {
          if self !in tagged {
            tagged := tagged + {self};
          }
        }
        return Elected(first);
      }
      var head := Least(masters);
      var tail := masters - {head};
      if |masters| == 1 {
        assert tail == {} by { assert |tail| == 0; }
        return Elected(head);
      }
      while tail != {}
        invariant tail <= masters - {head}
        invariant tagged == old(tagged) - (masters - {head} - tail)
        decreases tail
      {
        var m := Least(tail);
        tagged := tagged - {m};
        tail := tail - {m};
      }
      return Elected(head);
    }
  }

  // ----- calls of many nodes, interleaved write by write, with searches as stale as they like -----

  /** How far a node's call has come: after its search it may still have to choose or to untag. */
  datatype Phase = Idle | Choosing | Trimming(head: Name, pending: set<Name>)

  /** `ever` collects every name tagged so far: an index can still list any of them. */
  datatype State = State(tagged: set<Name>, ever: set<Name>, phase: map<Name, Phase>)

  const INITIAL := State({}, {}, map[])

  function PhaseOf(s: State, n: Name): Phase {
    if n in s.phase then s.phase[n] else Idle
  }

  /**
   * One atomic action. Search sees any subset of the names ever tagged; Choose sees any list of members;
   * Abort is a client that dies half way; FreshCall is a whole call, undisturbed, with an up-to-date search.
   */
  datatype Action =
    | Search(node: Name, view: set<Name>)
    | Choose(node: Name, members: set<Name>)
    | Untag(node: Name, victim: Name)
    | Abort(node: Name)
    | FreshCall(node: Name, members: set<Name>)

  predicate Enabled(s: State, a: Action) {
    match a
    case Search(n, view) => PhaseOf(s, n).Idle? && view <= s.ever
    case Choose(n, _) => PhaseOf(s, n).Choosing?
    case Untag(n, v) => PhaseOf(s, n).Trimming? && v in PhaseOf(s, n).pending
    case Abort(_) => true
    case FreshCall(n, _) => PhaseOf(s, n).Idle?
  }

  function AfterSearch(view: set<Name>): Phase {
    if view == {} then Choosing
    else if view == {Least(view)} then Idle
    else Trimming(Least(view), view - {Least(view)})
  }

  function AfterUntag(p: Phase, v: Name): Phase
    requires p.Trimming?
  {
    if p.pending <= {v} then Idle else Trimming(p.head, p.pending - {v})
  }

  function Apply(s: State, a: Action): State
    requires Enabled(s, a)
  {
    match a
    case Search(n, view) => s.(phase := s.phase[n := AfterSearch(view)])
    case Choose(n, members) =>
      var chosen := if members != {} && n == Least(members) then {n} else {};
      State(s.tagged + chosen, s.ever + chosen, s.phase[n := Idle])
    case Untag(n, v) =>
      State(s.tagged - {v}, s.ever, s.phase[n := AfterUntag(PhaseOf(s, n), v)])
    case Abort(n) => s.(phase := s.phase[n := Idle])
    case FreshCall(n, members) =>
      var tagged := TagsAfter(s.tagged, n, s.tagged, members);
      s.(tagged := tagged, ever := s.ever + tagged)
  }

  ghost predicate Run(s: State, acts: seq<Action>, t: State)
    decreases acts
  {
    if acts == [] then s == t
    else Enabled(s, acts[0]) && Run(Apply(s, acts[0]), acts[1..], t)
  }

  ghost predicate Inv(s: State) {
    && s.tagged <= s.ever
    && (s.ever != {} ==> Least(s.ever) in s.tagged)
    && forall n :: n in s.phase && s.phase[n].Trimming? ==> SafeTrim(s.phase[n], s.ever)
  }

  /** What a pending trim may still delete has a smaller name beside it that was tagged once. */
  ghost predicate SafeTrim(p: Phase, ever: set<Name>)
    requires p.Trimming?
  {
    p.head in ever && p.pending <= ever && forall v :: v in p.pending ==> v != p.head && Before(p.head, v)
  }

  lemma GrowLeast(s: set<Name>, n: Name)
    requires s != {}
    ensures Least(s + {n}) == Least(s) || Least(s + {n}) == n
  {
    var l := Least(s + {n});
    if l != n {
      assert IsLeast(l, s);
      LeastIs(l, s);
    }
  }

  lemma StepKeepsInv(s: State, a: Action)
    requires Inv(s) && Enabled(s, a)
    ensures Inv(Apply(s, a))
    ensures s.ever <= Apply(s, a).ever
  {
    var t := Apply(s, a);
    match a
    case Search(n, view) =>
    case Choose(n, members) =>
      if s.ever != {} { GrowLeast(s.ever, n); }
      assert t.ever == s.ever || t.ever == s.ever + {n};
    case Untag(n, v) =>
      var p := s.phase[n];
      if v == Least(s.ever) {
        BeforeAntisymmetric(p.head, v);
        assert false;
      }
    case Abort(n) =>
    case FreshCall(n, members) =>
      if s.ever == {} {
        assert t.ever == t.tagged;
        if t.tagged != {} { assert t.tagged == {n}; }
      } else {
        LeastIs(Least(s.ever), s.tagged);
        assert t.ever == s.ever;
      }
  }

  lemma {:induction false} RunKeepsInv(s: State, acts: seq<Action>, t: State)
    requires Inv(s) && Run(s, acts, t)
    ensures Inv(t) && s.ever <= t.ever
    decreases acts
  {
    if acts == [] {
    } else {
      StepKeepsInv(s, acts[0]);
      RunKeepsInv(Apply(s, acts[0]), acts[1..], t);
    }
  }

  /** However stale the searches and whatever the interleaving, the least name ever tagged is tagged. */
  lemma LeastEverTaggedIsTagged(acts: seq<Action>, s: State)
    requires Run(INITIAL, acts, s)
    ensures s.tagged <= s.ever
    ensures s.ever != {} ==> Least(s.ever) in s.tagged
  {
    RunKeepsInv(INITIAL, acts, s);
  }

  /** A name that was tagged and is still the least ever tagged when the run ends has its tag at both ends. */
  lemma LeastKeepsItsTag(before: seq<Action>, s: State, after: seq<Action>, t: State, x: Name)
    requires Run(INITIAL, before, s) && Run(s, after, t)
    requires x in s.ever && forall y :: y in t.ever ==> Before(x, y)
    ensures x in s.tagged && x in t.tagged
  {
    RunKeepsInv(INITIAL, before, s);
    RunKeepsInv(s, after, t);
    LeastIs(x, s.ever);
    LeastIs(x, t.ever);
  }

  /** No other name is safe: any idle node can untag it with a search that is merely stale. */
  lemma OnlyTheLeastIsSafe(acts: seq<Action>, s: State, x: Name, n: Name)
    requires Run(INITIAL, acts, s)
    requires x in s.ever && x != Least(s.ever) && PhaseOf(s, n).Idle?
    ensures exists more, t :: Run(s, more, t) && x !in t.tagged
  {
    var l := Least(s.ever);
    var view := {l, x};
    LeastIs(l, view);
    assert view - {l} == {x};
    var a0, a1 := Search(n, view), Untag(n, x);
    var s1 := Apply(s, a0);
    assert view != {l} && s1.phase[n] == Trimming(l, {x});
    var t := Apply(s1, a1);
    assert [a0, a1][1..] == [a1] && [a1][1..] == [];
    assert Run(s1, [a1], t);
    assert Run(s, [a0, a1], t) && x !in t.tagged;
  }

  predicate Settling(a: Action) {
    a.FreshCall? || a.Untag? || a.Abort?
  }

  /** Fresh calls and left-over trims change nothing once only `l` is tagged, and fresh calls answer `l`. */
  lemma {:induction false} SettledStays(s: State, acts: seq<Action>, t: State)
    requires Inv(s) && s.ever != {} && s.tagged == {Least(s.ever)} && Run(s, acts, t)
    requires forall a :: a in acts ==> Settling(a)
    ensures t.ever == s.ever && t.tagged == s.tagged
    decreases acts
  {
    if acts == [] {
    } else {
      var a, l := acts[0], Least(s.ever);
      var s1 := Apply(s, a);
      StepKeepsInv(s, a);
      assert a in acts;
      LeastIs(l, s.tagged);
      assert s1.ever == s.ever;
      assert s1.tagged == s.tagged;
      SettledStays(s1, acts[1..], t);
    }
  }

  /**
   * From whatever stale searches left behind, one up-to-date call leaves exactly the least name ever
   * tagged, and as long as no further stale search comes, every later up-to-date call answers that name.
   */
  lemma FreshCallSettles(acts: seq<Action>, s: State, n: Name, members: set<Name>, more: seq<Action>, t: State)
    requires Run(INITIAL, acts, s) && s.ever != {} && PhaseOf(s, n).Idle?
    requires Run(Apply(s, FreshCall(n, members)), more, t)
    requires forall a :: a in more ==> Settling(a)
    ensures Answer(s.tagged, members) == Elected(Least(s.ever))
    ensures Apply(s, FreshCall(n, members)).tagged == t.tagged == {Least(s.ever)}
    ensures forall others :: Answer(t.tagged, others) == Elected(Least(s.ever))
  {
    RunKeepsInv(INITIAL, acts, s);
    var a := FreshCall(n, members);
    StepKeepsInv(s, a);
    LeastIs(Least(s.ever), s.tagged);
    assert Apply(s, a).ever == s.ever;
    assert Apply(s, a).tagged == {Least(s.ever)};
    SettledStays(Apply(s, a), more, t);
  }

  // ----- the first election -----

  ghost predicate AllFresh(acts: seq<Action>, members: set<Name>) {
    forall a :: a in acts ==> a.FreshCall? && a.members == members
  }

  ghost predicate Called(acts: seq<Action>, n: Name) {
    exists a :: a in acts && a.FreshCall? && a.node == n
  }

  lemma {:induction false} FirstElectionFrom(s: State, acts: seq<Action>, members: set<Name>, t: State, l: Name)
    requires Run(s, acts, t) && AllFresh(acts, members) && IsLeast(l, members)
    requires s.ever == s.tagged && (s.tagged == {} || s.tagged == {l})
    ensures t.tagged == if s.tagged == {l} || Called(acts, l) then {l} else {}
    decreases acts
  {
    if acts == [] {
    } else {
      var a, rest := acts[0], acts[1..];
      assert a in acts;
      assert forall b :: b in acts <==> b == a || b in rest;
      LeastIs(l, members);
      LeastIs(l, {l});
      FirstElectionFrom(Apply(s, a), rest, members, t, l);
    }
  }

  /**
   * From no tag at all, with up-to-date calls of fixed members: the least member is tagged as soon as it has called,
   * nobody else ever is, and with a member there every call answers the least one.
   */
  lemma FirstElection(acts: seq<Action>, members: set<Name>, t: State, l: Name)
    requires Run(INITIAL, acts, t) && AllFresh(acts, members) && IsLeast(l, members)
    ensures t.tagged == if Called(acts, l) then {l} else {}
    ensures Answer(t.tagged, members) == Elected(l) && Answer({}, {}) == NoMembers
  {
    FirstElectionFrom(INITIAL, acts, members, t, l);
    LeastIs(l, members);
    LeastIs(l, {l});
  }

  // ----- an undisturbed call is a run of the small steps -----

  function TrimAll(n: Name, pending: set<Name>): seq<Action>
    decreases pending
  {
    if pending == {} then [] else
      var m := Least(pending);
      [Untag(n, m)] + TrimAll(n, pending - {m})
  }

  function CallActions(n: Name, view: set<Name>, members: set<Name>): seq<Action> {
    [Search(n, view)] +
    if view == {} then [Choose(n, members)] else TrimAll(n, view - {Least(view)})
  }

  lemma {:induction false} TrimAllRuns(s: State, n: Name) returns (t: State)
    requires PhaseOf(s, n).Trimming? && PhaseOf(s, n).pending != {}
    ensures Run(s, TrimAll(n, PhaseOf(s, n).pending), t)
    ensures t.tagged == s.tagged - PhaseOf(s, n).pending && t.ever == s.ever && PhaseOf(t, n) == Idle
    decreases PhaseOf(s, n).pending
  {
    var pending := PhaseOf(s, n).pending;
    var m := Least(pending);
    var a := Untag(n, m);
    var s1 := Apply(s, a);
    var acts := TrimAll(n, pending);
    assert acts[0] == a && acts[1..] == TrimAll(n, pending - {m});
    if pending == {m} {
      t := s1;
      assert acts[1..] == [];
      assert Run(s1, acts[1..], t);
    } else {
      assert pending == (pending - {m}) + {m};
      t := TrimAllRuns(s1, n);
      assert s.tagged - {m} - (pending - {m}) == s.tagged - pending;
    }
  }

  /** The whole-call function is what the small steps of one node compute when nobody interferes. */
  lemma CallIsARun(s: State, n: Name, view: set<Name>, members: set<Name>)
    requires Enabled(s, Search(n, view))
    ensures exists t :: Run(s, CallActions(n, view, members), t) && PhaseOf(t, n) == Idle
                        && t.tagged == TagsAfter(s.tagged, n, view, members)
  {
    var acts := CallActions(n, view, members);
    var s1, t := Apply(s, acts[0]), s;
    if view == {} {
      t := Apply(s1, Choose(n, members));
      assert acts[1..] == [Choose(n, members)] && acts[1..][1..] == [];
      assert Run(t, acts[1..][1..], t);
    } else {
      var tail := view - {Least(view)};
      assert acts[1..] == TrimAll(n, tail);
      assert view == tail + {Least(view)};
      if tail == {} {
        t := s1;
      } else {
        t := TrimAllRuns(s1, n);
      }
    }
    assert Run(s1, acts[1..], t);
    assert Run(s, acts, t);
  }
}
