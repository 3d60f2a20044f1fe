/** The collectd configuration printer, and a reader that takes its output back. */
module Collectd {
  import opened Sequences

  // ----- what is printed -----

  datatype Key = Symbol(text: string) | Plain(text: string)

  /** Num is a Fixnum; whatever is neither Fixnum nor boolean is printed through its to_s, as Text. */
  datatype Scalar = Num(n: int) | Flag(b: bool) | Text(s: string)

  datatype Value = One(scalar: Scalar) | Many(scalars: seq<Scalar>) | Blocks(blocks: seq<Block>)

  datatype Block = Block(name: string, options: seq<Entry>)

  /** The options hash in its insertion order. */
  datatype Entry = Entry(key: Key, value: Value)

  // ----- what the text means -----

  /** Arrays have become repeated settings and hashes repeated sections. */
  datatype Item = Setting(key: string, value: Scalar) | Section(tag: string, name: string, body: seq<Item>)

  function Upcase(c: char): char { if 'a' <= c <= 'z' then (c as int - 32) as char else c }

  function Downcase(c: char): char { if 'A' <= c <= 'Z' then (c as int + 32) as char else c }

  function DowncaseAll(s: string): string {
    if s == "" then "" else [Downcase(s[0])] + DowncaseAll(s[1..])
  }

  /** Ruby's capitalize */
  function Capitalize(s: string): string {
    if s == "" then "" else [Upcase(s[0])] + DowncaseAll(s[1..])
  }

  /** Ruby's split('_'), up to empty parts at the end, which print as nothing. */
  function Words(s: string): (words: seq<string>)
    ensures words != []
  {
    if s == "" then [""]
    else
      var rest := Words(s[1..]);
      if s[0] == '_' then [""] + rest else [[s[0]] + rest[0]] + rest[1..]
  }

  function CapitalizeAndJoin(words: seq<string>): string {
    if words == [] then "" else Capitalize(words[0]) + CapitalizeAndJoin(words[1..])
  }

  /** collectd_key */
  function PrintedKey(key: Key): string {
    match key
    case Symbol(text) => CapitalizeAndJoin(Words(text))
    case Plain(text) => text
  }

  /** The letters of a symbol in order, without the underscores. */
  function Letters(s: string): string {
    if s == "" then "" else if s[0] == '_' then Letters(s[1..]) else [Downcase(s[0])] + Letters(s[1..])
  }

  lemma DowncaseUpcase(c: char)
    ensures Downcase(Upcase(c)) == Downcase(c) == Downcase(Downcase(c))
  {
  }

  lemma {:induction false} DowncaseAllTwice(s: string)
    ensures DowncaseAll(DowncaseAll(s)) == DowncaseAll(s)
  {
    if s == "" {
    } else {
      DowncaseUpcase(s[0]);
      DowncaseAllTwice(s[1..]);
    }
  }

  lemma CapitalizeLetters(s: string)
    ensures DowncaseAll(Capitalize(s)) == DowncaseAll(s)
  {
    if s != "" {
      DowncaseUpcase(s[0]);
      DowncaseAllTwice(s[1..]);
    }
  }

  lemma {:induction false} DowncaseAppend(a: string, b: string)
    ensures DowncaseAll(a + b) == DowncaseAll(a) + DowncaseAll(b)
  {
    if a == "" {
      assert a + b == b;
    } else {
      DowncaseAppend(a[1..], b);
      assert (a + b)[0] == a[0] && (a + b)[1..] == a[1..] + b;
      ConcatAssociative([Downcase(a[0])], DowncaseAll(a[1..]), DowncaseAll(b));
    }
  }

  /** A symbol key is printed with its own letters in their order: only case changes and underscores go. */
  lemma {:induction false} KeyKeepsLetters(text: string)
    ensures DowncaseAll(PrintedKey(Symbol(text))) == Letters(text)
  {
    if text == "" {
    } else {
      var rest := Words(text[1..]);
      KeyKeepsLetters(text[1..]);
      var words := Words(text);
      DowncaseAppend(Capitalize(words[0]), CapitalizeAndJoin(words[1..]));
      CapitalizeLetters(words[0]);
      if text[0] == '_' {
        assert words[1..] == rest;
      } else {
        assert words[1..] == rest[1..];
        DowncaseAppend(Capitalize(rest[0]), CapitalizeAndJoin(rest[1..]));
        CapitalizeLetters(rest[0]);
        assert words[0][0] == text[0] && words[0][1..] == rest[0];
        ConcatAssociative([Downcase(text[0])], DowncaseAll(rest[0]), DowncaseAll(CapitalizeAndJoin(rest[1..])));
      }
    }
  }

  lemma {:induction false} DowncaseAllAt(s: string, i: nat)
    requires i < |s|
    ensures |DowncaseAll(s)| == |s| && DowncaseAll(s)[i] == Downcase(s[i])
  {
    if i == 0 {
      if s[1..] != "" { DowncaseAllAt(s[1..], 0); }
    } else {
      DowncaseAllAt(s[1..], i - 1);
    }
  }

  lemma {:induction false} OneWord(w: string)
    requires '_' !in w
    ensures Words(w) == [w]
  {
    if w == "" {
    } else {
      assert w[0] in w;
      OneWord(w[1..]);
      assert [w[0]] + w[1..] == w;
    }
  }

  lemma WordsCons(c: char, s: string, rest: seq<string>)
    requires rest == Words(s)
    ensures Words([c] + s) == if c == '_' then [""] + rest else [[c] + rest[0]] + rest[1..]
  {
    assert ([c] + s)[1..] == s;
  }

  lemma {:induction false} WordsAppend(a: string, b: string)
    ensures Words(a + "_" + b) == Words(a) + Words(b)
  {
    if a == "" {
      WordsCons('_', b, Words(b));
      assert a + "_" + b == ['_'] + b;
    } else {
      var c, rest := a[0], a[1..];
      var front, back := Words(rest), Words(b);
      WordsAppend(rest, b);
      WordsCons(c, rest, front);
      WordsCons(c, rest + "_" + b, front + back);
      assert a == [c] + rest && a + "_" + b == [c] + (rest + "_" + b);
      WordsGlue(c, front, back);
    }
  }

  lemma WordsGlue(c: char, front: seq<string>, back: seq<string>)
    requires front != []
    ensures [""] + (front + back) == [""] + front + back
    ensures [[c] + (front + back)[0]] + (front + back)[1..] == [[c] + front[0]] + front[1..] + back
  {
    assert (front + back)[1..] == front[1..] + back;
  }

  lemma JoinCons(w: string, rest: seq<string>)
    ensures CapitalizeAndJoin([w] + rest) == Capitalize(w) + CapitalizeAndJoin(rest)
  {
    assert ([w] + rest)[1..] == rest;
  }

  lemma {:induction false} JoinWords(a: seq<string>, b: seq<string>)
    ensures CapitalizeAndJoin(a + b) == CapitalizeAndJoin(a) + CapitalizeAndJoin(b)
  {
    if a == [] {
      assert a + b == b;
    } else {
      var w, rest := a[0], a[1..];
      JoinWords(rest, b);
      JoinCons(w, rest);
      JoinCons(w, rest + b);
      assert a == [w] + rest;
      ConcatAssociative([w], rest, b);
      ConcatAssociative(Capitalize(w), CapitalizeAndJoin(rest), CapitalizeAndJoin(b));
    }
  }

  /**
   * A word comes out with its first letter large and every other small, whatever they were, and a symbol of several
   * words is printed word by word.
   */
  lemma KeyIsCamelCase(w: string, a: string, b: string)
    requires '_' !in w
    ensures |PrintedKey(Symbol(w))| == |w|
    ensures forall i :: 0 <= i < |w| ==>
              var c := PrintedKey(Symbol(w))[i];
              if i == 0 && 'a' <= w[0] <= 'z' then c as int - w[0] as int == 'A' as int - 'a' as int
              else if i == 0 then c == w[0]
              else if 'A' <= w[i] <= 'Z' then c as int - w[i] as int == 'a' as int - 'A' as int
              else c == w[i]
    ensures PrintedKey(Symbol(a + "_" + b)) == PrintedKey(Symbol(a)) + PrintedKey(Symbol(b))
    ensures PrintedKey(Plain(w)) == w
  {
    OneWord(w);
    assert CapitalizeAndJoin([w]) == Capitalize(w) + CapitalizeAndJoin([]);
    if |w| > 1 { DowncaseAllAt(w[1..], 0); }
    forall i | 1 <= i < |w| ensures Capitalize(w)[i] == Downcase(w[i]) {
      DowncaseAllAt(w[1..], i - 1);
    }
    WordsAppend(a, b);
    JoinWords(Words(a), Words(b));
  }

  function Flatten(options: seq<Entry>): (items: seq<Item>)
    decreases options
  {
    if options == [] then [] else FlattenEntry(options[0]) + Flatten(options[1..])
  }

  function FlattenEntry(e: Entry): seq<Item>
    decreases e
  {
    match e.value
    case One(scalar) => [Setting(PrintedKey(e.key), scalar)]
    case Many(scalars) => Settings(PrintedKey(e.key), scalars)
    case Blocks(blocks) => Sections(e.key.text, blocks)
  }

  function Settings(key: string, scalars: seq<Scalar>): seq<Item> {
    if scalars == [] then [] else [Setting(key, scalars[0])] + Settings(key, scalars[1..])
  }

  function Sections(tag: string, blocks: seq<Block>): seq<Item>
    decreases blocks
  {
    if blocks == [] then []
    else [Section(tag, blocks[0].name, Flatten(blocks[0].options))] + Sections(tag, blocks[1..])
  }

  /** The items of one entry: an array gives a setting to each element, a hash a section to each name. */
  ghost predicate ItemsOf(e: Entry, items: seq<Item>) {
    match e.value
    case One(scalar) => |items| == 1 && items[0] == Setting(PrintedKey(e.key), scalar)
    case Many(scalars) =>
      |items| == |scalars| && forall i :: 0 <= i < |items| ==> items[i] == Setting(PrintedKey(e.key), scalars[i])
    case Blocks(blocks) =>
      |items| == |blocks| && forall i :: 0 <= i < |items| ==>
        && items[i].Section? && items[i].tag == e.key.text && items[i].name == blocks[i].name
        && items[i].body == Flatten(blocks[i].options)
  }

  lemma {:induction false} SettingsAt(key: string, scalars: seq<Scalar>)
    ensures |Settings(key, scalars)| == |scalars|
    ensures forall i :: 0 <= i < |scalars| ==> Settings(key, scalars)[i] == Setting(key, scalars[i])
  {
    if scalars == [] {
    } else {
      SettingsAt(key, scalars[1..]);
    }
  }

  lemma {:induction false} SectionsAt(tag: string, blocks: seq<Block>)
    ensures |Sections(tag, blocks)| == |blocks|
    ensures forall i :: 0 <= i < |blocks| ==>
              Sections(tag, blocks)[i] == Section(tag, blocks[i].name, Flatten(blocks[i].options))
  {
    if blocks == [] {
    } else {
      SectionsAt(tag, blocks[1..]);
    }
  }

  function Concat(parts: seq<seq<Item>>): seq<Item> {
    if parts == [] then [] else parts[0] + Concat(parts[1..])
  }

  /** What flattening a tree gives: the items of its entries, one entry after the other, down to every level. */
  lemma {:induction false} FlattenExactly(options: seq<Entry>) returns (parts: seq<seq<Item>>)
    ensures |parts| == |options| && Flatten(options) == Concat(parts)
    ensures forall i :: 0 <= i < |parts| ==> ItemsOf(options[i], parts[i])
  {
    if options == [] {
      parts := [];
    } else {
      var e := options[0];
      var rest := FlattenExactly(options[1..]);
      match e.value {
        case One(_) =>
        case Many(scalars) => SettingsAt(PrintedKey(e.key), scalars);
        case Blocks(blocks) => SectionsAt(e.key.text, blocks);
      }
      parts := [FlattenEntry(e)] + rest;
      assert parts[1..] == rest;
    }
  }

  // ----- its layout in lines -----

  function Digit(d: nat): char
    requires d < 10
  {
    (d + 48) as char
  }

  function NatText(n: nat): string {
    if n < 10 then [Digit(n)] else NatText(n / 10) + [Digit(n % 10)]
  }

  /** collectd_option */
  function Literal(v: Scalar): string {
    match v
    case Num(n) => if n < 0 then "-" + NatText(-n) else NatText(n)
    case Flag(b) => if b then "true" else "false"
    case Text(s) => "\"" + s + "\""
  }

  function Indent(level: nat): string {
    if level == 0 then "" else "  " + Indent(level - 1)
  }

  /** A line of output; the level is how deep it is indented. */
  datatype Line =
    | Blank
    | SettingLine(level: nat, key: string, value: Scalar)
    | Header(level: nat, tag: string, name: string)
    | Footer(level: nat, tag: string)

  function Render(l: Line): string {
    match l
    case Blank => ""
    case SettingLine(level, key, v) => Indent(level) + (key + " " + Literal(v))
    case Header(level, tag, name) => Indent(level) + ("<" + tag + " \"" + name + "\">")
    case Footer(level, tag) => Indent(level) + ("</" + tag + ">")
  }

  function RenderAll(lines: seq<Line>): (texts: seq<string>)
    ensures |texts| == |lines|
    ensures forall i :: 0 <= i < |lines| ==> texts[i] == Render(lines[i])
  {
    seq(|lines|, i requires 0 <= i < |lines| => Render(lines[i]))
  }

  /** An empty body still puts one empty line between header and footer. */
  function OrBlank(lines: seq<Line>): seq<Line> {
    if lines == [] then [Blank] else lines
  }

  function ItemLines(item: Item, level: nat): (lines: seq<Line>)
    ensures lines != []
    decreases item
  {
    match item
    case Setting(key, v) => [SettingLine(level, key, v)]
    case Section(tag, name, body) =>
      [Header(level, tag, name)] + OrBlank(Lines(body, level + 1)) + [Footer(level, tag)]
  }

  function Lines(items: seq<Item>, level: nat): seq<Line>
    decreases items
  {
    if items == [] then [] else ItemLines(items[0], level) + Lines(items[1..], level)
  }

  function Join(lines: seq<string>): string {
    if lines == [] then "" else if |lines| == 1 then lines[0] else lines[0] + "\n" + Join(lines[1..])
  }

  /** The text of a configuration. */
  function Printed(items: seq<Item>, level: nat): string {
    Join(RenderAll(Lines(items, level)))
  }

  // ----- the printer -----

  lemma {:induction false} JoinAppend(a: seq<string>, b: seq<string>)
    ensures Join(a + b) == if a == [] then Join(b) else if b == [] then Join(a) else Join(a) + "\n" + Join(b)
  {
    if a == [] {
      assert a + b == b;
    } else if b == [] {
      assert a + b == a;
    } else {
      JoinAppend(a[1..], b);
      assert (a + b)[1..] == a[1..] + b;
      if |a| == 1 {
        assert a[1..] + b == b;
      }
    }
  }

  lemma LinesCons(x: Item, rest: seq<Item>, level: nat)
    ensures Lines([x] + rest, level) == ItemLines(x, level) + Lines(rest, level)
  {
  }

  lemma {:induction false} LinesAppend(a: seq<Item>, b: seq<Item>, level: nat)
    ensures Lines(a + b, level) == Lines(a, level) + Lines(b, level)
  {
    if a == [] {
      assert a + b == b;
    } else {
      var x, rest := a[0], a[1..];
      LinesAppend(rest, b, level);
      LinesCons(x, rest, level);
      LinesCons(x, rest + b, level);
      assert a == [x] + rest;
      ConcatAssociative([x], rest, b);
      ConcatAssociative(ItemLines(x, level), Lines(rest, level), Lines(b, level));
    }
  }

  /** The chunks collected so far are the text of these items. */
  ghost predicate Collected(output: seq<string>, items: seq<Item>, level: nat) {
    (output == [] <==> items == []) && Join(output) == Printed(items, level)
  }

  lemma RenderAppend(a: seq<Line>, b: seq<Line>)
    ensures RenderAll(a + b) == RenderAll(a) + RenderAll(b)
  {
  }

  lemma CollectOne(output: seq<string>, items: seq<Item>, chunk: string, item: Item, level: nat)
    requires Collected(output, items, level) && chunk == Printed([item], level)
    ensures Collected(output + [chunk], items + [item], level)
  {
    LinesAppend(items, [item], level);
    JoinAppend(output, [chunk]);
    RenderAppend(Lines(items, level), Lines([item], level));
    JoinAppend(RenderAll(Lines(items, level)), RenderAll(Lines([item], level)));
    assert items != [] ==> Lines(items, level) != [];
  }

  lemma SettingChunk(key: string, v: Scalar, level: nat)
    ensures Printed([Setting(key, v)], level) == Render(SettingLine(level, key, v))
  {
    assert Lines([Setting(key, v)], level) == [SettingLine(level, key, v)];
  }

  lemma SectionChunk(tag: string, name: string, body: seq<Item>, level: nat)
    ensures Printed([Section(tag, name, body)], level)
            == Render(Header(level, tag, name)) + "\n" + Printed(body, level + 1) + "\n" + Render(Footer(level, tag))
  {
    var h, b, f := [Header(level, tag, name)], OrBlank(Lines(body, level + 1)), [Footer(level, tag)];
    assert Lines([Section(tag, name, body)], level) == h + b + f;
    assert Join(RenderAll(b)) == Printed(body, level + 1);
    RenderAppend(h + b, f);
    RenderAppend(h, b);
    JoinAppend(RenderAll(h) + RenderAll(b), RenderAll(f));
    JoinAppend(RenderAll(h), RenderAll(b));
  }

  lemma FlattenCons(e: Entry, rest: seq<Entry>)
    ensures Flatten([e] + rest) == FlattenEntry(e) + Flatten(rest)
  {
  }

  lemma {:induction false} FlattenAppend(a: seq<Entry>, b: seq<Entry>)
    ensures Flatten(a + b) == Flatten(a) + Flatten(b)
  {
    if a == [] {
      assert a + b == b;
    } else {
      var e, rest := a[0], a[1..];
      FlattenAppend(rest, b);
      FlattenCons(e, rest);
      FlattenCons(e, rest + b);
      assert a == [e] + rest;
      ConcatAssociative([e], rest, b);
      ConcatAssociative(FlattenEntry(e), Flatten(rest), Flatten(b));
    }
  }

  lemma FlattenNext(options: seq<Entry>, i: nat)
    requires i < |options|
    ensures Flatten(options[..i + 1]) == Flatten(options[..i]) + FlattenEntry(options[i])
  {
    assert options[..i + 1] == options[..i] + [options[i]];
    FlattenAppend(options[..i], [options[i]]);
    assert Flatten([options[i]]) == FlattenEntry(options[i]) + Flatten([]);
  }

  lemma {:induction false} SettingsNext(key: string, scalars: seq<Scalar>, j: nat)
    requires j < |scalars|
    ensures Settings(key, scalars[..j + 1]) == Settings(key, scalars[..j]) + [Setting(key, scalars[j])]
  {
    if j == 0 {
      assert scalars[..1] == [scalars[0]];
      assert Settings(key, [scalars[0]]) == [Setting(key, scalars[0])] + Settings(key, []);
    } else {
      SettingsNext(key, scalars[1..], j - 1);
      assert scalars[..j + 1][1..] == scalars[1..][..j];
      assert scalars[..j][1..] == scalars[1..][..j - 1];
    }
  }

  lemma {:induction false} SectionsNext(tag: string, blocks: seq<Block>, j: nat)
    requires j < |blocks|
    ensures Sections(tag, blocks[..j + 1])
            == Sections(tag, blocks[..j]) + [Section(tag, blocks[j].name, Flatten(blocks[j].options))]
  {
    if j == 0 {
      assert blocks[..1] == [blocks[0]];
      var first := Section(tag, blocks[0].name, Flatten(blocks[0].options));
      assert Sections(tag, [blocks[0]]) == [first] + Sections(tag, []);
    } else {
      SectionsNext(tag, blocks[1..], j - 1);
      assert blocks[..j + 1][1..] == blocks[1..][..j];
      assert blocks[..j][1..] == blocks[1..][..j - 1];
    }
  }

  /** collectd_settings */
  method CollectdSettings(options: seq<Entry>, level: nat) returns (text: string)
    ensures text == Printed(Flatten(options), level)
    decreases options
  {
    var output: seq<string> := [];
    for i := 0 to |options|
      invariant Collected(output, Flatten(options[..i]), level)
    {
      FlattenNext(options, i);
      output := EntryChunks(output, Flatten(options[..i]), options[i], level);
    }
    assert options[..|options|] == options;
    return Join(output);
  }

  /** One round of the loop over the options. */
  method EntryChunks(output: seq<string>, ghost done: seq<Item>, e: Entry, level: nat) returns (more: seq<string>)
    requires Collected(output, done, level)
    ensures Collected(more, done + FlattenEntry(e), level)
    decreases e
  {
    match e.value
    case Many(scalars) =>
      more := output;
      assert done + [] == done;
      for j := 0 to |scalars|
        invariant Collected(more, done + Settings(PrintedKey(e.key), scalars[..j]), level)
      {
        ghost var before := done + Settings(PrintedKey(e.key), scalars[..j]);
        var chunk := Indent(level) + (PrintedKey(e.key) + " " + Literal(scalars[j]));
        ghost var item := Setting(PrintedKey(e.key), scalars[j]);
        SettingChunk(item.key, item.value, level);
        CollectOne(more, before, chunk, item, level);
        SettingsNext(PrintedKey(e.key), scalars, j);
        assert before + [item] == done + Settings(PrintedKey(e.key), scalars[..j + 1]);
        more := more + [chunk];
      }
      assert scalars[..|scalars|] == scalars;
    case Blocks(blocks) =>
      more := BlockChunks(output, done, e.key.text, blocks, level);
    case One(scalar) =>
      var chunk := Indent(level) + (PrintedKey(e.key) + " " + Literal(scalar));
      SettingChunk(PrintedKey(e.key), scalar, level);
      CollectOne(output, done, chunk, Setting(PrintedKey(e.key), scalar), level);
      more := output + [chunk];
  }

  /** The loop over a hash of sub-options: one nested block for each name. */
  method BlockChunks(output: seq<string>, ghost done: seq<Item>, tag: string, blocks: seq<Block>, level: nat)
    returns (more: seq<string>)
    requires Collected(output, done, level)
    ensures Collected(more, done + Sections(tag, blocks), level)
    decreases blocks
  {
    more := output;
    assert done + [] == done;
    for j := 0 to |blocks|
      invariant Collected(more, done + Sections(tag, blocks[..j]), level)
    {
      ghost var before := done + Sections(tag, blocks[..j]);
      var b := blocks[j];
      var inner := CollectdSettings(b.options, level + 1);
      var chunk := Indent(level) + ("<" + tag + " \"" + b.name + "\">") + "\n" + inner + "\n"
                   + (Indent(level) + ("</" + tag + ">"));
      ghost var item := Section(tag, b.name, Flatten(b.options));
      SectionChunk(tag, b.name, item.body, level);
      CollectOne(more, before, chunk, item, level);
      SectionsNext(tag, blocks, j);
      assert before + [item] == done + Sections(tag, blocks[..j + 1]);
      more := more + [chunk];
    }
    assert blocks[..|blocks|] == blocks;
  }
}
