/** The device-mapper path of a logical volume, built from its volume group and its name. */
module DeviceMapper {
  import opened Wrappers
  import opened Sequences

  const PREFIX := "/dev/mapper/"

  /** to_dm_name: every hyphen doubled. */
  function ToDmName(name: string): string {
    if name == "" then "" else (if name[0] == '-' then "--" else [name[0]]) + ToDmName(name[1..])
  }

  function DevicePath(group: string, name: string): string {
    PREFIX + ToDmName(group) + "-" + ToDmName(name)
  }

  // ----- reading a path back -----

  /** Halves every run of hyphens; a run of odd length is no doubled name. */
  function FromDmName(dm: string): Option<string> {
    if dm == "" then Some("")
    else if dm[0] != '-' then Prepend(dm[0], FromDmName(dm[1..]))
    else if |dm| >= 2 && dm[1] == '-' then Prepend('-', FromDmName(dm[2..]))
    else None
  }

  function Prepend(c: char, s: Option<string>): Option<string> {
    if s.None? then None else Some([c] + s.value)
  }

  /** Takes doubled hyphens as the group's until a hyphen stands alone: that one separates. */
  function Split(dm: string): Option<(string, string)> {
    if dm == "" then None
    else if dm[0] != '-' then PrependFirst(dm[0], Split(dm[1..]))
    else if |dm| >= 2 && dm[1] == '-' then PrependFirst('-', Split(dm[2..]))
    else
      var name := FromDmName(dm[1..]);
      if name.None? then None else Some(("", name.value))
  }

  function PrependFirst(c: char, s: Option<(string, string)>): Option<(string, string)> {
    if s.None? then None else Some(([c] + s.value.0, s.value.1))
  }

  function Decode(path: string): Option<(string, string)> {
    if PREFIX <= path then Split(path[|PREFIX|..]) else None
  }

  // ----- what the path determines -----

  /** Moves the hyphens at the head of the volume name to the end of the group. */
  function Normal(group: string, name: string): (string, string)
    decreases name
  {
    if name != "" && name[0] == '-' then Normal(group + "-", name[1..]) else (group, name)
  }

  lemma {:induction false} FromToDmName(name: string)
    ensures FromDmName(ToDmName(name)) == Some(name)
  {
    if name == "" {
    } else {
      FromToDmName(name[1..]);
      var head := if name[0] == '-' then "--" else [name[0]];
      assert ToDmName(name)[|head|..] == ToDmName(name[1..]);
      assert [name[0]] + name[1..] == name;
    }
  }

  /** A volume name that does not start with a hyphen keeps its first character when doubled. */
  lemma {:induction false} SplitUndoes(group: string, name: string)
    requires name == "" || name[0] != '-'
    ensures Split(ToDmName(group) + "-" + ToDmName(name)) == Some((group, name))
  {
    var dm := ToDmName(group) + "-" + ToDmName(name);
    if group == "" {
      assert dm[1..] == ToDmName(name);
      FromToDmName(name);
      assert name != "" ==> ToDmName(name)[0] == name[0];
    } else {
      SplitUndoes(group[1..], name);
      var head := if group[0] == '-' then "--" else [group[0]];
      assert dm[|head|..] == ToDmName(group[1..]) + "-" + ToDmName(name);
      assert [group[0]] + group[1..] == group;
    }
  }

  lemma {:induction false} ToDmNameAppend(a: string, b: string)
    ensures ToDmName(a + b) == ToDmName(a) + ToDmName(b)
  {
    if a == "" {
      assert a + b == b;
    } else {
      ToDmNameAppend(a[1..], b);
      var head := if a[0] == '-' then "--" else [a[0]];
      assert (a + b)[0] == a[0] && (a + b)[1..] == a[1..] + b;
      assert ToDmName(a + b) == head + ToDmName(a[1..] + b);
      ConcatAssociative(head, ToDmName(a[1..]), ToDmName(b));
    }
  }

  lemma {:induction false} PlainName(name: string)
    requires '-' !in name
    ensures ToDmName(name) == name
  {
    if name == "" {
    } else {
      assert name[0] in name;
      PlainName(name[1..]);
      assert [name[0]] + name[1..] == name;
    }
  }

  lemma HyphenDoubled(h: string)
    requires h == ['-']
    ensures ToDmName(h) == h + h
  {
    assert h[1..] == "";
  }

  lemma TwoWords(a: string, b: string, h: string)
    requires '-' !in a && '-' !in b && h == ['-']
    ensures ToDmName(a + h + b) == a + (h + h) + b
  {
    PlainName(a);
    PlainName(b);
    HyphenDoubled(h);
    ToDmNameAppend(a + h, b);
    ToDmNameAppend(a, h);
  }

  /** The path in full, for a group of two words and a volume of one. */
  lemma PathInWords(a: string, b: string, name: string)
    requires '-' !in a && '-' !in b && '-' !in name
    ensures DevicePath(a + ['-'] + b, name) == "/dev/mapper/" + (a + (['-'] + ['-']) + b) + "-" + name
  {
    TwoWords(a, b, ['-']);
    PlainName(name);
  }

  lemma MoveHyphen(group: string, rest: string)
    ensures DevicePath(group + "-", rest) == DevicePath(group, "-" + rest)
  {
    ToDmNameAppend(group, "-");
    ToDmNameAppend("-", rest);
    assert ToDmName("-") == "-" + "-";
    Regroup(PREFIX, ToDmName(group), "-", ToDmName(rest));
  }

  lemma Regroup(p: string, g: string, h: string, r: string)
    ensures p + (g + (h + h)) + h + r == p + g + h + ((h + h) + r)
  {
  }

  /** Only the total length of the run around the separator shows, not where in it the separator is. */
  lemma {:induction false} PathOfNormal(group: string, name: string)
    ensures var (g, n) := Normal(group, name);
            DevicePath(g, n) == DevicePath(group, name) && (n == "" || n[0] != '-')
    decreases name
  {
    if name != "" && name[0] == '-' {
      PathOfNormal(group + "-", name[1..]);
      MoveHyphen(group, name[1..]);
      assert "-" + name[1..] == name;
    }
  }

  /** The decoder finds the group and the name, up to hyphens it must count to the group. */
  lemma DecodePath(group: string, name: string)
    ensures Decode(DevicePath(group, name)) == Some(Normal(group, name))
  {
    var (g, n) := Normal(group, name);
    PathOfNormal(group, name);
    SplitUndoes(g, n);
    assert DevicePath(g, n)[|PREFIX|..] == ToDmName(g) + "-" + ToDmName(n);
  }

  /** Both parts come back exactly when the volume name does not start with a hyphen. */
  lemma RecoveredExactly(group: string, name: string)
    ensures Decode(DevicePath(group, name)) == Some((group, name)) <==> name == "" || name[0] != '-'
  {
    DecodePath(group, name);
    PathOfNormal(group, name);
  }

  /** Two volumes share a device path exactly when moving hyphens from name to group makes them equal. */
  lemma CollideExactly(group1: string, name1: string, group2: string, name2: string)
    ensures DevicePath(group1, name1) == DevicePath(group2, name2) <==> Normal(group1, name1) == Normal(group2, name2)
  {
    DecodePath(group1, name1);
    DecodePath(group2, name2);
    PathOfNormal(group1, name1);
    PathOfNormal(group2, name2);
  }

  lemma Injective(group1: string, name1: string, group2: string, name2: string)
    requires name1 == "" || name1[0] != '-'
    requires name2 == "" || name2[0] != '-'
    requires DevicePath(group1, name1) == DevicePath(group2, name2)
    ensures group1 == group2 && name1 == name2
  {
    RecoveredExactly(group1, name1);
    RecoveredExactly(group2, name2);
  }

  /** Without the restriction on names: a path has a second owner exactly when a hyphen touches the separator. */
  lemma SharedExactly(group: string, name: string)
    ensures (exists g, n :: (g, n) != (group, name) && DevicePath(g, n) == DevicePath(group, name)) <==>
            (name != "" && name[0] == '-') || (group != "" && group[|group| - 1] == '-')
  {
    if name != "" && name[0] == '-' {
      PathOfNormal(group, name);
      var (g, n) := Normal(group, name);
      assert (g, n) != (group, name) && DevicePath(g, n) == DevicePath(group, name);
    } else if group != "" && group[|group| - 1] == '-' {
      var g, n := group[..|group| - 1], "-" + name;
      assert g + "-" == group && n[1..] == name;
      assert Normal(g, n) == Normal(group, name);
      CollideExactly(g, n, group, name);
      assert (g, n) != (group, name) && DevicePath(g, n) == DevicePath(group, name);
    } else {
      forall g, n | DevicePath(g, n) == DevicePath(group, name) ensures (g, n) == (group, name) {
        CollideExactly(g, n, group, name);
        NormalPrefix(g, n);
      }
    }
  }

  lemma {:induction false} NormalPrefix(group: string, name: string)
    ensures var (g, n) := Normal(group, name);
            (g, n) == (group, name) || (g != "" && g[|g| - 1] == '-')
    decreases name
  {
    if name != "" && name[0] == '-' {
      NormalPrefix(group + "-", name[1..]);
    }
  }

  // ----- the decoder accepts nothing else -----

  lemma {:induction false} ToFromDmName(dm: string)
    ensures FromDmName(dm).Some? ==> ToDmName(FromDmName(dm).value) == dm
  {
    if dm == "" {
    } else {
      if dm[0] != '-' {
        ToFromDmName(dm[1..]);
        assert [dm[0]] + dm[1..] == dm;
      } else if |dm| >= 2 && dm[1] == '-' {
        ToFromDmName(dm[2..]);
        assert "--" + dm[2..] == dm;
      }
    }
  }

  lemma {:induction false} SplitSound(dm: string)
    ensures Split(dm).Some? ==>
              var (g, n) := Split(dm).value; ToDmName(g) + "-" + ToDmName(n) == dm
  {
    if dm != "" && Split(dm).Some? {
      var (g, n) := Split(dm).value;
      if dm[0] != '-' {
        SplitSound(dm[1..]);
        assert g[1..] == Split(dm[1..]).value.0;
        assert [dm[0]] + dm[1..] == dm;
      } else if |dm| >= 2 && dm[1] == '-' {
        SplitSound(dm[2..]);
        assert g[1..] == Split(dm[2..]).value.0;
        assert "--" + dm[2..] == dm;
      } else {
        ToFromDmName(dm[1..]);
        assert "-" + dm[1..] == dm;
      }
    }
  }

  /** Whatever the decoder accepts is the path of what it returns. */
  lemma DecodeSound(path: string)
    ensures Decode(path).Some? ==> DevicePath(Decode(path).value.0, Decode(path).value.1) == path
  {
    if PREFIX <= path {
      SplitSound(path[|PREFIX|..]);
      assert path == PREFIX + path[|PREFIX|..];
    }
  }
}
