/** Reading the printer's text back: lines, then nested sections. */
module CollectdReader {
  import opened Wrappers
  import opened Sequences
  import opened Collectd

  // ----- one literal -----

  function ReadNat(s: string): Option<nat> {
    if s == "" || !('0' <= s[|s| - 1] <= '9') then None
    else
      var d := s[|s| - 1] as int - 48;
      if |s| == 1 then Some(d)
      else
        var front := ReadNat(s[..|s| - 1]);
        if front.None? then None else Some(10 * front.value + d)
  }

  /** Only the digits that print the number: no leading zero. */
  function ReadWhole(s: string): Option<nat> {
    var n := ReadNat(s);
    if n.Some? && NatText(n.value) == s then n else None
  }

  function ReadScalar(s: string): Option<Scalar> {
    if s == "true" then Some(Flag(true))
    else if s == "false" then Some(Flag(false))
    else if |s| >= 2 && s[0] == '"' && s[|s| - 1] == '"' then Some(Text(s[1..|s| - 1]))
    else if s != "" && s[0] == '-' then
      var n := ReadWhole(s[1..]);
      if n.None? || n.value == 0 then None else Some(Num(0 - n.value))
    else
      var n := ReadWhole(s);
      if n.None? then None else Some(Num(n.value))
  }

  // ----- one line -----

  /** A printed key is one word that cannot be taken for a section. */
  predicate KeyOk(key: string) {
    ' ' !in key && '\n' !in key && (key == "" || key[0] != '<')
  }

  /** A tag is one word that cannot be taken for the end of a section. */
  predicate TagOk(tag: string) {
    ' ' !in tag && '\n' !in tag && (tag == "" || tag[0] != '/')
  }

  predicate ScalarOk(v: Scalar) {
    v.Text? ==> '\n' !in v.s
  }

  function FirstSpace(s: string): (k: nat)
    ensures k <= |s| && ' ' !in s[..k] && (k < |s| ==> s[k] == ' ')
  {
    if s == "" || s[0] == ' ' then 0 else FirstSpace(s[1..]) + 1
  }

  function ReadFooter(s: string, level: nat): Option<Line> {
    if |s| >= 1 && s[|s| - 1] == '>' && TagOk(s[..|s| - 1]) then Some(Footer(level, s[..|s| - 1])) else None
  }

  function ReadHeader(s: string, level: nat): Option<Line> {
    var k := FirstSpace(s);
    var t := s[k..];
    if |t| >= 4 && " \"" <= t && t[|t| - 2..] == "\">"
    then Some(Header(level, s[..k], t[2..|t| - 2])) else None
  }

  function ReadSetting(s: string, level: nat): Option<Line> {
    var k := FirstSpace(s);
    if k == |s| then None
    else
      var v := ReadScalar(s[k + 1..]);
      if v.None? then None else Some(SettingLine(level, s[..k], v.value))
  }

  function ReadAt(s: string, level: nat): Option<Line> {
    if "  " <= s then ReadAt(s[2..], level + 1)
    else if "</" <= s then ReadFooter(s[2..], level)
    else if "<" <= s then ReadHeader(s[1..], level)
    else ReadSetting(s, level)
  }

  function ReadLine(s: string): Option<Line> {
    if s == "" then Some(Blank) else ReadAt(s, 0)
  }

  predicate LineOk(l: Line) {
    match l
    case Blank => true
    case SettingLine(_, key, v) => KeyOk(key) && ScalarOk(v)
    case Header(_, tag, name) => TagOk(tag) && '\n' !in name
    case Footer(_, tag) => TagOk(tag)
  }

  // ----- the nesting -----

  datatype Taken = Bad | Taken(items: seq<Item>, rest: seq<Line>)

  function Then(item: Item, t: Taken): Taken {
    if t.Bad? then Bad else Taken([item] + t.items, t.rest)
  }

  /** The items at this level, up to the end of the enclosing section; each line must be indented by its depth. */
  function Take(lines: seq<Line>, level: nat): (t: Taken)
    ensures t.Taken? ==> |t.rest| <= |lines|
    decreases |lines|, 0
  {
    if lines == [] then Taken([], [])
    else
      match lines[0]
      case Blank => Bad
      case Footer(l, _) => if l + 1 == level then Taken([], lines) else Bad
      case SettingLine(l, key, v) => if l != level then Bad else Then(Setting(key, v), Take(lines[1..], level))
      case Header(l, tag, name) =>
        if l != level then Bad
        else
          var inner := TakeBody(lines[1..], level + 1);
          if inner.Bad? || inner.rest == [] || inner.rest[0] != Footer(level, tag) then Bad
          else Then(Section(tag, name, inner.items), Take(inner.rest[1..], level))
  }

  /** Nothing at all is one empty line. */
  function TakeBody(lines: seq<Line>, level: nat): (t: Taken)
    ensures t.Taken? ==> |t.rest| <= |lines|
    decreases |lines|, 1
  {
    if lines != [] && lines[0].Blank? then Taken([], lines[1..])
    else
      var t := Take(lines, level);
      if t.Taken? && t.items == [] then Bad else t
  }

  // ----- the text -----

  function Split(s: string): (lines: seq<string>)
    ensures lines != []
  {
    if s == "" then [""]
    else
      var r := Split(s[1..]);
      if s[0] == '\n' then [""] + r else [[s[0]] + r[0]] + r[1..]
  }

  function ReadAll(texts: seq<string>): Option<seq<Line>> {
    if texts == [] then Some([])
    else
      var l, rest := ReadLine(texts[0]), ReadAll(texts[1..]);
      if l.None? || rest.None? then None else Some([l.value] + rest.value)
  }

  function Read(text: string, level: nat): Option<seq<Item>> {
    var lines := ReadAll(Split(text));
    if lines.None? then None
    else
      var t := TakeBody(lines.value, level);
      if t.Bad? || t.rest != [] then None else Some(t.items)
  }

  predicate ItemOk(item: Item)
    decreases item
  {
    match item
    case Setting(key, v) => KeyOk(key) && ScalarOk(v)
    case Section(tag, name, body) => TagOk(tag) && '\n' !in name && AllOk(body)
  }

  predicate AllOk(items: seq<Item>)
    decreases items
  {
    items == [] || (ItemOk(items[0]) && AllOk(items[1..]))
  }

  // ----- literals and lines come back -----

  lemma {:induction false} NatComesBack(n: nat)
    ensures NatText(n) != "" && ReadNat(NatText(n)) == Some(n)
    ensures forall c :: c in NatText(n) ==> '0' <= c <= '9'
  {
    if n >= 10 {
      NatComesBack(n / 10);
      var t := NatText(n);
      assert t[..|t| - 1] == NatText(n / 10) && t[|t| - 1] == Digit(n % 10);
    }
  }

  lemma NumComesBack(n: int)
    ensures Literal(Num(n)) != "" && Literal(Num(n))[0] != ' '
    ensures ReadScalar(Literal(Num(n))) == Some(Num(n)) && '\n' !in Literal(Num(n))
  {
    var t := Literal(Num(n));
    if n < 0 {
      NatComesBack(-n);
      assert t[0] == '-' && t[1..] == NatText(-n);
      assert ReadWhole(t[1..]) == Some(-n);
    } else {
      NatComesBack(n);
      assert t[0] in NatText(n);
    }
  }

  lemma ScalarComesBack(v: Scalar)
    ensures Literal(v) != "" && Literal(v)[0] != ' '
    ensures ReadScalar(Literal(v)) == Some(v)
    ensures ScalarOk(v) ==> '\n' !in Literal(v)
  {
    match v
    case Num(n) => NumComesBack(n);
    case Flag(b) =>
    case Text(s) =>
      var t := "\"" + s + "\"";
      assert t[0] == '"' && t[|t| - 1] == '"' && t[1..|t| - 1] == s;
  }

  lemma {:induction false} FirstSpaceAt(word: string, rest: string)
    requires ' ' !in word
    ensures FirstSpace(word + " " + rest) == |word|
  {
    if word == "" {
    } else {
      FirstSpaceAt(word[1..], rest);
      assert (word + " " + rest)[1..] == word[1..] + " " + rest;
    }
  }

  lemma {:induction false} IndentRead(s: string, level: nat, above: nat)
    ensures ReadAt(Indent(level) + s, above) == ReadAt(s, above + level)
    ensures '\n' !in Indent(level)
  {
    if level == 0 {
      assert Indent(0) + s == s;
    } else {
      IndentRead(s, level - 1, above + 1);
      assert Indent(level) + s == "  " + (Indent(level - 1) + s);
      assert (Indent(level) + s)[2..] == Indent(level - 1) + s;
    }
  }

  lemma SettingComesBack(level: nat, key: string, v: Scalar)
    requires KeyOk(key) && ScalarOk(v)
    ensures ReadAt(key + " " + Literal(v), level) == Some(SettingLine(level, key, v))
  {
    var lit := Literal(v);
    var s := key + " " + lit;
    ScalarComesBack(v);
    FirstSpaceAt(key, lit);
    assert s[..|key|] == key && s[|key| + 1..] == lit;
    assert s[0] == if key == "" then ' ' else key[0];
    assert key == "" ==> s[1] == lit[0];
    assert key != "" ==> key[0] in key;
  }

  lemma HeaderRead(level: nat, tag: string, name: string)
    requires TagOk(tag) && '\n' !in name
    ensures ReadHeader(tag + " " + ("\"" + name + "\">"), level) == Some(Header(level, tag, name))
  {
    var quoted := "\"" + name + "\">";
    var r, t := tag + " " + quoted, " " + quoted;
    FirstSpaceAt(tag, quoted);
    assert r[..|tag|] == tag && r[|tag|..] == t;
    assert t[..2] == " \"" && t[2..|t| - 2] == name && t[|t| - 2..] == "\">";
    assert '\n' !in t;
  }

  lemma HeaderComesBack(level: nat, tag: string, name: string)
    requires TagOk(tag) && '\n' !in name
    ensures ReadAt("<" + tag + " \"" + name + "\">", level) == Some(Header(level, tag, name))
  {
    var s := "<" + tag + " \"" + name + "\">";
    var r := tag + " " + ("\"" + name + "\">");
    assert s == "<" + r && s[1..] == r;
    assert s[0] == '<' && s[..1] == "<";
    assert s[1] == if tag == "" then ' ' else tag[0];
    assert ReadAt(s, level) == ReadHeader(r, level);
    HeaderRead(level, tag, name);
  }

  lemma FooterComesBack(level: nat, tag: string)
    requires TagOk(tag)
    ensures ReadAt("</" + tag + ">", level) == Some(Footer(level, tag))
  {
    var s := "</" + tag + ">";
    assert s[0] == '<' && s[..2] == "</" && s[2..] == tag + ">";
    assert ReadAt(s, level) == ReadFooter(tag + ">", level);
    assert (tag + ">")[..|tag|] == tag;
  }

  lemma IndentedRead(r: string, level: nat)
    requires r != "" && '\n' !in r
    ensures ReadLine(Indent(level) + r) == ReadAt(r, level) && '\n' !in Indent(level) + r
  {
    var s := Indent(level) + r;
    assert s != "";
    IndentRead(r, level, 0);
    assert forall c :: c in s ==> c in Indent(level) || c in r;
  }

  lemma LineComesBack(l: Line)
    requires LineOk(l)
    ensures ReadLine(Render(l)) == Some(l) && '\n' !in Render(l)
  {
    match l
    case Blank =>
    case SettingLine(level, key, v) =>
      assert '\n' !in Literal(v) by { ScalarComesBack(v); }
      IndentedRead(key + " " + Literal(v), level);
      SettingComesBack(level, key, v);
    case Header(level, tag, name) =>
      IndentedRead("<" + tag + " \"" + name + "\">", level);
      HeaderComesBack(level, tag, name);
    case Footer(level, tag) =>
      IndentedRead("</" + tag + ">", level);
      FooterComesBack(level, tag);
  }

  // ----- the nesting comes back -----

  /** Where the items of one level end: with the text, or at the end of the enclosing section. */
  predicate Ends(rest: seq<Line>, level: nat) {
    rest == [] || (rest[0].Footer? && rest[0].level + 1 == level)
  }

  lemma {:induction false} TakeLines(items: seq<Item>, level: nat, rest: seq<Line>)
    requires Ends(rest, level)
    ensures Take(Lines(items, level) + rest, level) == Taken(items, rest)
    decreases items
  {
    if items == [] {
      assert Lines(items, level) + rest == rest;
    } else {
      var more := Lines(items[1..], level) + rest;
      TakeLines(items[1..], level, rest);
      TakeItem(items[0], level, more);
      ConcatAssociative(ItemLines(items[0], level), Lines(items[1..], level), rest);
      assert [items[0]] + items[1..] == items;
    }
  }

  lemma TakeOrBlank(items: seq<Item>, level: nat, rest: seq<Line>)
    requires Take(Lines(items, level) + rest, level) == Taken(items, rest)
    ensures TakeBody(OrBlank(Lines(items, level)) + rest, level) == Taken(items, rest)
  {
    if items == [] {
      assert ([Blank] + rest)[1..] == rest;
    } else {
      ItemStarts(items[0], level);
    }
  }

  lemma ItemStarts(item: Item, level: nat)
    ensures !ItemLines(item, level)[0].Blank?
  {
  }

  lemma TakeSetting(key: string, v: Scalar, level: nat, more: seq<Line>)
    ensures Take([SettingLine(level, key, v)] + more, level) == Then(Setting(key, v), Take(more, level))
  {
  }

  lemma TakeSection(tag: string, name: string, body: seq<Item>, level: nat, inner: seq<Line>, more: seq<Line>)
    requires TakeBody(inner, level + 1) == Taken(body, [Footer(level, tag)] + more)
    ensures Take([Header(level, tag, name)] + inner, level) == Then(Section(tag, name, body), Take(more, level))
  {
  }

  lemma {:induction false} TakeItem(item: Item, level: nat, more: seq<Line>)
    ensures Take(ItemLines(item, level) + more, level) == Then(item, Take(more, level))
    decreases item
  {
    match item
    case Setting(key, v) => TakeSetting(key, v, level, more);
    case Section(tag, name, body) =>
      var foot := [Footer(level, tag)] + more;
      var inner := Lines(body, level + 1);
      TakeLines(body, level + 1, foot);
      TakeOrBlank(body, level + 1, foot);
      TakeSection(tag, name, body, level, OrBlank(inner) + foot, more);
      ConcatAssociative([Header(level, tag, name)], OrBlank(inner), foot);
      ConcatAssociative([Header(level, tag, name)] + OrBlank(inner), [Footer(level, tag)], more);
  }

  // ----- the lines come back -----

  lemma {:induction false} SplitLine(line: string, rest: string)
    requires '\n' !in line
    ensures Split(line) == [line] && Split(line + "\n" + rest) == [line] + Split(rest)
  {
    if line == "" {
      assert ("\n" + rest)[1..] == rest;
      assert line + "\n" + rest == "\n" + rest;
    } else {
      SplitLine(line[1..], rest);
      assert (line + "\n" + rest)[1..] == line[1..] + "\n" + rest;
      assert [line[0]] + line[1..] == line;
    }
  }

  lemma {:induction false} SplitJoin(lines: seq<string>)
    requires lines != [] && forall i :: 0 <= i < |lines| ==> '\n' !in lines[i]
    ensures Split(Join(lines)) == lines
  {
    SplitLine(lines[0], Join(lines[1..]));
    if |lines| == 1 {
      assert lines == [lines[0]];
    } else {
      SplitJoin(lines[1..]);
      assert [lines[0]] + lines[1..] == lines;
    }
  }

  lemma {:induction false} ReadRendered(lines: seq<Line>)
    requires forall i :: 0 <= i < |lines| ==> LineOk(lines[i])
    ensures ReadAll(RenderAll(lines)) == Some(lines)
    ensures forall i :: 0 <= i < |lines| ==> '\n' !in RenderAll(lines)[i]
  {
    if lines == [] {
    } else {
      LineComesBack(lines[0]);
      ReadRendered(lines[1..]);
      assert RenderAll(lines)[1..] == RenderAll(lines[1..]);
      assert [lines[0]] + lines[1..] == lines;
    }
  }

  predicate LinesOk(lines: seq<Line>) {
    forall i :: 0 <= i < |lines| ==> LineOk(lines[i])
  }

  lemma {:induction false} OkItemsOkLines(items: seq<Item>, level: nat)
    requires AllOk(items)
    ensures LinesOk(Lines(items, level))
    decreases items
  {
    if items == [] {
    } else {
      OkItemOkLines(items[0], level);
      OkItemsOkLines(items[1..], level);
    }
  }

  lemma {:induction false} OkItemOkLines(item: Item, level: nat)
    requires ItemOk(item)
    ensures LinesOk(ItemLines(item, level))
    decreases item
  {
    match item
    case Setting(key, v) =>
    case Section(tag, name, body) => OkItemsOkLines(body, level + 1);
  }

  lemma ComesBack(items: seq<Item>, level: nat)
    requires AllOk(items)
    ensures Read(Printed(items, level), level) == Some(items)
  {
    var lines := Lines(items, level);
    OkItemsOkLines(items, level);
    var full := OrBlank(lines);
    assert Join(RenderAll(full)) == Printed(items, level);
    ReadRendered(full);
    SplitJoin(RenderAll(full));
    TakeLines(items, level, []);
    TakeOrBlank(items, level, []);
    assert full + [] == full;
  }

  // ----- what is read is clean, and prints as the text it was read from -----

  lemma ScalarPrints(s: string)
    requires ReadScalar(s).Some?
    ensures Literal(ReadScalar(s).value) == s
    ensures '\n' !in s ==> ScalarOk(ReadScalar(s).value)
  {
    if s == "true" || s == "false" {
    } else if |s| >= 2 && s[0] == '"' && s[|s| - 1] == '"' {
      QuotedIs(s, s[1..|s| - 1]);
    } else if s[0] == '-' {
      assert s == "-" + s[1..];
      WholePrints(s[1..]);
    } else {
      WholePrints(s);
    }
  }

  lemma QuotedIs(s: string, t: string)
    requires |s| >= 2 && s[0] == '"' && s[|s| - 1] == '"' && t == s[1..|s| - 1]
    ensures Literal(Text(t)) == s && ('\n' !in s ==> '\n' !in t)
  {
    assert s == "\"" + t + "\"";
  }

  lemma WholePrints(s: string)
    requires ReadWhole(s).Some?
    ensures Literal(Num(ReadWhole(s).value)) == s
    ensures ReadWhole(s).value > 0 ==> Literal(Num(0 - ReadWhole(s).value)) == "-" + s
  {
  }

  lemma {:induction false} IndentCommutes(level: nat)
    ensures Indent(level) + "  " == "  " + Indent(level)
  {
    if level == 0 {
    } else {
      IndentCommutes(level - 1);
    }
  }

  lemma HeaderText(s: string, tag: string, name: string, t: string)
    requires s == tag + t && t == " \"" + name + "\">"
    ensures "<" + tag + " \"" + name + "\">" == "<" + s
  {
  }

  lemma HeaderPrints(s: string, level: nat)
    requires '\n' !in s && !("/" <= s) && ReadHeader(s, level).Some?
    ensures var l := ReadHeader(s, level).value; LineOk(l) && Render(l) == Indent(level) + ("<" + s)
  {
    var k := FirstSpace(s);
    var tag, t := s[..k], s[k..];
    var name := t[2..|t| - 2];
    HeaderText(s, tag, name, t);
    assert TagOk(tag) by {
      if tag != "" { assert tag[0] == s[0] && s[..1] == [s[0]]; }
    }
  }

  lemma SettingPrints(s: string, level: nat)
    requires '\n' !in s && !("<" <= s) && ReadSetting(s, level).Some?
    ensures var l := ReadSetting(s, level).value; LineOk(l) && Render(l) == Indent(level) + s
  {
    var k := FirstSpace(s);
    var key, lit := s[..k], s[k + 1..];
    ScalarPrints(lit);
    assert s == key + " " + lit;
    assert KeyOk(key) by {
      if key != "" { assert key[0] == s[0]; }
    }
  }

  lemma {:induction false} LinePrints(s: string, above: nat)
    requires '\n' !in s && ReadAt(s, above).Some?
    ensures var l := ReadAt(s, above).value; LineOk(l) && Render(l) == Indent(above) + s
  {
    if "  " <= s {
      LinePrints(s[2..], above + 1);
      IndentCommutes(above);
      assert s == "  " + s[2..];
      ConcatAssociative("  ", Indent(above), s[2..]);
      ConcatAssociative(Indent(above), "  ", s[2..]);
    } else if "</" <= s {
      var tag := s[2..|s| - 1];
      assert s == "</" + tag + ">" && s[2..][..|s[2..]| - 1] == tag;
    } else if "<" <= s {
      assert s == "<" + s[1..];
      HeaderPrints(s[1..], above);
    } else {
      SettingPrints(s, above);
    }
  }

  lemma {:induction false} LinesPrint(texts: seq<string>)
    requires ReadAll(texts).Some? && forall i :: 0 <= i < |texts| ==> '\n' !in texts[i]
    ensures LinesOk(ReadAll(texts).value) && RenderAll(ReadAll(texts).value) == texts
  {
    if texts == [] {
    } else {
      if texts[0] != "" { LinePrints(texts[0], 0); }
      LinesPrint(texts[1..]);
      var l, rest := ReadLine(texts[0]).value, ReadAll(texts[1..]).value;
      RenderAppend([l], rest);
      assert Render(l) == texts[0];
      assert [texts[0]] + texts[1..] == texts;
    }
  }

  lemma {:induction false} JoinSplit(s: string, lines: seq<string>)
    requires lines == Split(s)
    ensures Join(lines) == s
    decreases s
  {
    if s == "" {
    } else {
      var r := Split(s[1..]);
      JoinSplit(s[1..], r);
      JoinSplitStep(s[0], s[1..], r, lines);
      assert [s[0]] + s[1..] == s;
    }
  }

  lemma JoinSplitStep(c: char, s: string, r: seq<string>, lines: seq<string>)
    requires r != [] && Join(r) == s
    requires lines == if c == '\n' then [""] + r else [[c] + r[0]] + r[1..]
    ensures Join(lines) == [c] + s
  {
    if c == '\n' {
      JoinAppend([""], r);
    } else {
      assert [r[0]] + r[1..] == r;
      JoinFirst([c], r[0], r[1..]);
    }
  }

  lemma {:induction false} SplitHasNoNewline(s: string)
    ensures forall i :: 0 <= i < |Split(s)| ==> '\n' !in Split(s)[i]
  {
    if s == "" {
    } else {
      SplitHasNoNewline(s[1..]);
    }
  }

  lemma JoinFirst(front: string, head: string, rest: seq<string>)
    ensures Join([front + head] + rest) == front + Join([head] + rest)
  {
    JoinAppend([front + head], rest);
    JoinAppend([head], rest);
    ConcatAssociative(front, head, "\n" + Join(rest));
    ConcatAssociative(front + head, "\n", Join(rest));
    ConcatAssociative(head, "\n", Join(rest));
  }

  /** The items taken are the ones whose lines were read. */
  ghost predicate TakenFrom(lines: seq<Line>, level: nat, items: seq<Item>, rest: seq<Line>) {
    lines == Lines(items, level) + rest && AllOk(items) && LinesOk(rest)
  }

  lemma ConsTaken(item: Item, lines: seq<Line>, level: nat, items: seq<Item>, tail: seq<Line>, rest: seq<Line>)
    requires ItemOk(item) && TakenFrom(tail, level, items, rest) && lines == ItemLines(item, level) + tail
    ensures TakenFrom(lines, level, [item] + items, rest)
  {
    LinesCons(item, items, level);
    ConcatAssociative(ItemLines(item, level), Lines(items, level), rest);
  }

  lemma {:induction false} TakePrints(lines: seq<Line>, level: nat)
    requires LinesOk(lines) && Take(lines, level).Taken?
    ensures TakenFrom(lines, level, Take(lines, level).items, Take(lines, level).rest)
    decreases |lines|, 0
  {
    if lines == [] || lines[0].Footer? {
      assert [] + lines == lines;
    } else {
      var tail := lines[1..];
      assert lines == [lines[0]] + tail;
      match lines[0]
      case SettingLine(_, key, v) =>
        TakePrints(tail, level);
        ConsTaken(Setting(key, v), lines, level, Take(tail, level).items, tail, Take(tail, level).rest);
      case Header(_, tag, name) =>
        BodyPrints(tail, level + 1);
        var inner := TakeBody(tail, level + 1);
        TakePrints(inner.rest[1..], level);
        SectionTaken(lines, level, Section(tag, name, inner.items), inner, Take(inner.rest[1..], level));
    }
  }

  lemma SectionTaken(lines: seq<Line>, level: nat, item: Item, inner: Taken, more: Taken)
    requires item.Section? && inner.Taken? && more.Taken? && item.body == inner.items
    requires ItemOk(item) && inner.rest != [] && inner.rest[0] == Footer(level, item.tag)
    requires lines == [Header(level, item.tag, item.name)] + (OrBlank(Lines(inner.items, level + 1)) + inner.rest)
    requires TakenFrom(inner.rest[1..], level, more.items, more.rest)
    ensures TakenFrom(lines, level, [item] + more.items, more.rest)
  {
    var head, body := [Header(level, item.tag, item.name)], OrBlank(Lines(inner.items, level + 1));
    var foot, after := [inner.rest[0]], inner.rest[1..];
    assert inner.rest == foot + after;
    ConcatAssociative(head, body, inner.rest);
    ConcatAssociative(head + body, foot, after);
    ConsTaken(item, lines, level, more.items, after, more.rest);
  }

  lemma {:induction false} BodyPrints(lines: seq<Line>, level: nat)
    requires LinesOk(lines) && TakeBody(lines, level).Taken?
    ensures var t := TakeBody(lines, level);
            lines == OrBlank(Lines(t.items, level)) + t.rest && AllOk(t.items) && LinesOk(t.rest)
    decreases |lines|, 1
  {
    if lines != [] && lines[0].Blank? {
      assert lines == [Blank] + lines[1..];
    } else {
      TakePrints(lines, level);
    }
  }

  /** What is read is clean, and the text it was read from is its own. */
  lemma ReadPrints(text: string, level: nat)
    requires Read(text, level).Some?
    ensures AllOk(Read(text, level).value) && Printed(Read(text, level).value, level) == text
  {
    var lines := ReadAll(Split(text)).value;
    JoinSplit(text, Split(text));
    SplitHasNoNewline(text);
    LinesPrint(Split(text));
    BodyPrints(lines, level);
    var items := Read(text, level).value;
    assert OrBlank(Lines(items, level)) + [] == OrBlank(Lines(items, level));
    assert Join(RenderAll(OrBlank(Lines(items, level)))) == Printed(items, level);
  }

  // ----- the main results -----

  /**
   * The text of an option tree reads back as that tree, arrays flattened and hashes repeated, exactly when
   * no text in it holds a line break and every key is one word that does not look like a section.
   */
  lemma PrinterRoundTrip(options: seq<Entry>, level: nat)
    ensures Read(Printed(Flatten(options), level), level) == Some(Flatten(options)) <==> AllOk(Flatten(options))
  {
    var text := Printed(Flatten(options), level);
    if AllOk(Flatten(options)) {
      ComesBack(Flatten(options), level);
    } else if Read(text, level).Some? {
      ReadPrints(text, level);
    }
  }

  /** Two trees printed alike are alike up to that flattening. */
  lemma PrinterInjective(a: seq<Entry>, b: seq<Entry>, level: nat)
    requires AllOk(Flatten(a)) && AllOk(Flatten(b))
    requires Printed(Flatten(a), level) == Printed(Flatten(b), level)
    ensures Flatten(a) == Flatten(b)
  {
    PrinterRoundTrip(a, level);
    PrinterRoundTrip(b, level);
  }

  /** The reader is complete: it takes a text, any text, exactly if some clean tree prints as it. */
  lemma TakesExactly(text: string, level: nat)
    ensures Read(text, level).Some? <==> exists a :: AllOk(a) && Printed(a, level) == text
  {
    if a :| AllOk(a) && Printed(a, level) == text {
      ComesBack(a, level);
    }
    if Read(text, level).Some? {
      ReadPrints(text, level);
    }
  }

  /** So a tree that is not clean prints like one that is exactly if the reader takes its text. */
  lemma CollidesExactly(b: seq<Item>, level: nat)
    ensures (exists a :: AllOk(a) && a != b && Printed(a, level) == Printed(b, level)) <==>
            !AllOk(b) && Read(Printed(b, level), level).Some?
  {
    TakesExactly(Printed(b, level), level);
    if a :| AllOk(a) && a != b && Printed(a, level) == Printed(b, level) && AllOk(b) {
      ComesBack(a, level);
      ComesBack(b, level);
    }
  }

  lemma PrintedAppend(a: seq<Item>, b: seq<Item>, level: nat)
    requires Lines(a, level) != [] && Lines(b, level) != []
    ensures Printed(a + b, level) == Printed(a, level) + "\n" + Printed(b, level)
  {
    LinesAppend(a, b, level);
    RenderAppend(Lines(a, level), Lines(b, level));
    JoinAppend(RenderAll(Lines(a, level)), RenderAll(Lines(b, level)));
  }

  lemma QuoteBreak(front: string, x: string, second: string)
    ensures front + ("\"" + (x + ("\"\n" + second)) + "\"") == front + ("\"" + x + "\"") + "\n" + (second + "\"")
  {
  }

  lemma SettingText(key: string, s: string, level: nat, front: string)
    requires front == Indent(level) + (key + " ")
    ensures Printed([Setting(key, Text(s))], level) == front + ("\"" + s + "\"")
  {
    SettingChunk(key, Text(s), level);
    ConcatAssociative(Indent(level), key + " ", "\"" + s + "\"");
  }

  /** Such a tree: a value with a closing quote and a line break in it prints like two settings. */
  lemma OneSettingLikeTwo(a: string, x: string, b: string, y: string, level: nat)
    ensures Printed([Setting(a, Text(x + ("\"\n" + (Indent(level) + (b + " ") + ("\"" + y)))))], level)
            == Printed([Setting(a, Text(x)), Setting(b, Text(y))], level)
  {
    var front, next := Indent(level) + (a + " "), Indent(level) + (b + " ");
    var second := next + ("\"" + y);
    SettingText(a, x + ("\"\n" + second), level, front);
    SettingText(a, x, level, front);
    SettingText(b, y, level, next);
    QuoteBreak(front, x, second);
    ConcatAssociative(next, "\"" + y, "\"");
    assert [Setting(a, Text(x)), Setting(b, Text(y))] == [Setting(a, Text(x))] + [Setting(b, Text(y))];
    PrintedAppend([Setting(a, Text(x))], [Setting(b, Text(y))], level);
  }
}
