/** packages/cli/src/installers.ts: the editor on texts, between splitting them into lines and joining the lines. */
module PluginText {
  import opened Prelude
  import opened PluginYaml
  import opened PluginEditor

  // ---------------------------------------------------------------- lines and texts

  function StripReturn(line: string): string {
    if line != "" && line[|line| - 1] == '\r' then line[..|line| - 1] else line
  }

  /** JavaScript's `split(/\r?\n/)`. */
  function SplitLines(source: string): (lines: seq<string>)
    ensures lines != []
  {
    var parts := Split(source, '\n');
    seq(|parts|, i requires 0 <= i < |parts| => if i + 1 < |parts| then StripReturn(parts[i]) else parts[i])
  }

  datatype Source = Source(lines: seq<string>, trailing: bool)

  function Read(source: string): Source {
    var lines := SplitLines(source);
    if lines[|lines| - 1] == "" then Source(lines[..|lines| - 1], true) else Source(lines, false)
  }

  function JoinLines(lines: seq<string>): string {
    if lines == [] then "" else if |lines| == 1 then lines[0] else lines[0] + "\n" + JoinLines(lines[1..])
  }

  datatype TextEdit = TextEdit(text: string, changed: bool)

  function AddText(source: string, name: string): TextEdit {
    var read := Read(source);
    var edit := AddLines(read.lines, name);
    TextEdit(JoinLines(edit.lines) + (if edit.changed || read.trailing then "\n" else ""), edit.changed)
  }

  predicate IsPlain(s: string) { '\n' !in s && '\r' !in s }

  predicate IsClean(lines: seq<string>) { forall i :: 0 <= i < |lines| ==> IsPlain(lines[i]) }

  lemma {:induction false} SplitJoined(lines: seq<string>)
    requires lines != [] && IsClean(lines)
    ensures Split(JoinLines(lines), '\n') == lines
    ensures Split(JoinLines(lines) + "\n", '\n') == lines + [""]
    decreases |lines|
  {
    if |lines| == 1 {
      SplitFirst(lines[0], '\n', "");
      assert lines[0] + "\n" + "" == lines[0] + "\n";
      assert Split("", '\n') == [""];
      SplitAlone(lines[0], '\n');
      assert lines == [lines[0]];
    } else {
      SplitJoined(lines[1..]);
      SplitFirst(lines[0], '\n', JoinLines(lines[1..]));
      SplitFirst(lines[0], '\n', JoinLines(lines[1..]) + "\n");
      assert lines[0] + "\n" + (JoinLines(lines[1..]) + "\n") == JoinLines(lines) + "\n";
      assert lines == [lines[0]] + lines[1..];
      assert [lines[0]] + (lines[1..] + [""]) == lines + [""];
    }
  }

  /** Clean lines are read back from their text. */
  lemma ReadsBack(lines: seq<string>, trailing: bool)
    requires lines != [] && IsClean(lines) && (!trailing ==> lines[|lines| - 1] != "")
    ensures Read(JoinLines(lines) + (if trailing then "\n" else "")) == Source(lines, trailing)
  {
    SplitJoined(lines);
    hide Split, JoinLines, SplitLines;
    if trailing {
      SplitsInto(JoinLines(lines) + "\n", lines + [""]);
      assert (lines + [""])[..|lines|] == lines;
    } else {
      SplitsInto(JoinLines(lines), lines);
      assert JoinLines(lines) + "" == JoinLines(lines);
    }
  }

  lemma SplitsInto(text: string, parts: seq<string>)
    requires Split(text, '\n') == parts && IsClean(parts)
    ensures SplitLines(text) == parts
  {
    hide Split;
    var lines := SplitLines(text);
    forall i | 0 <= i < |parts| ensures lines[i] == parts[i] {
      assert parts[i] != "" ==> parts[i][|parts[i]| - 1] in parts[i];
    }
  }

  /**
   An edit that reports no change leaves the located lines, whose last line is not empty when the source's was not.
   */
  lemma UnchangedEnds(lines: seq<string>, name: string)
    requires !AddLines(lines, name).changed
    ensures Locate(lines).Some? && AddLines(lines, name).lines == Locate(lines).value.lines
    ensures lines != [] && lines[|lines| - 1] != "" ==>
              AddLines(lines, name).lines != [] && AddLines(lines, name).lines[|AddLines(lines, name).lines| - 1] != ""
  {
    UnchangedLines(lines, name);
    hide AddLines, Locate;
    if lines != [] && lines[|lines| - 1] != "" { LastOfLocated(lines); }
  }

  lemma UnchangedLines(lines: seq<string>, name: string)
    requires !AddLines(lines, name).changed
    ensures Locate(lines).Some? && AddLines(lines, name).lines == Locate(lines).value.lines
  {
    var at := Locate(lines);
    if at.Some? {
      LocatedHeader(lines);
      hide Locate, AddToBody, IsPlugins, BlockEnd, Body, WithBody;
      var l, h := at.value.lines, at.value.header;
      UnchangedBody(Body(l, h), name);
      SameBody(l, h);
    }
  }

  lemma SameBody(l: seq<string>, h: nat)
    requires h < |l|
    ensures WithBody(l, h, Body(l, h)) == l
  {
    hide BlockEnd;
  }

  lemma UnchangedBody(body: seq<string>, name: string)
    requires !AddToBody(body, name).changed
    ensures AddToBody(body, name).lines == body
  {
    DroppingDisabled(body, name);
    hide WithoutDisabled, DisabledLists, IsEnabled, IsNullEnabled, InlineEnabled, ListedIn, Keys, NoTop;
  }

  lemma LastOfLocated(lines: seq<string>)
    requires Locate(lines).Some? && lines != [] && lines[|lines| - 1] != ""
    ensures var l := Locate(lines).value.lines; l != [] && l[|l| - 1] != ""
  {
    hide IsPlugins;
    var p, q, m := First(lines, IsPlugins), First(lines, IsEmptyMap), First(lines, IsInlineMap);
    hide PluginsMap, ExpandMap, IsEmptyMap;
    if p == |lines| && q == |lines| { LastOfExpanded(lines, m); }
  }

  lemma LastOfExpanded(lines: seq<string>, m: nat)
    requires m < |lines| && PluginsMap(lines[m]).Some? && lines[|lines| - 1] != ""
    ensures var l := ExpandMap(lines, m); l != [] && l[|l| - 1] != ""
  {
    var items := Items(ParseList(PluginsMap(lines[m]).value));
    var l := ExpandMap(lines, m);
    hide PluginsMap, ParseList;
    if m + 1 < |lines| { assert l[|l| - 1] == lines[|lines| - 1]; }
    else if items != [] { assert l[|l| - 1] == items[|items| - 1]; }
    else { assert l[|l| - 1] == ENABLED; }
  }

  lemma SettledFacts(after: seq<string>, name: string)
    requires IsSettled(after, name)
    ensures after != [] && AddLines(after, name) == Edit(after, false)
  {
    hide Locate, AddLines, HasPlugin, Body, Keys;
  }

  lemma LastIsNotEmpty(source: string)
    requires !Read(source).trailing
    ensures var lines := Read(source).lines; lines != [] && lines[|lines| - 1] != ""
  {
    hide SplitLines;
  }

  // ---------------------------------------------------------------- edits keep lines clean

  lemma {:induction false} PlainSkip(s: string)
    requires IsPlain(s)
    ensures IsPlain(SkipBlanks(s)) && IsPlain(TrimEnd(s)) && IsPlain(Unquote(s))
    ensures forall c :: After(s, c).Some? ==> IsPlain(After(s, c).value)
    decreases |s|
  {
    if s != "" {
      PlainSkip(s[1..]);
      PlainSkip(s[..|s| - 1]);
    }
  }

  lemma {:induction false} PlainBracketed(s: string, isEnd: string -> bool)
    requires IsPlain(s) && Bracketed(s, isEnd).Some?
    ensures IsPlain(Bracketed(s, isEnd).value)
    decreases |s|
  {
    if Bracketed(s[1..], isEnd).Some? { PlainBracketed(s[1..], isEnd); }
  }

  lemma {:induction false} PlainSplit(s: string, separator: char)
    requires IsPlain(s)
    ensures forall part :: part in Split(s, separator) ==> IsPlain(part)
    decreases |s|
  {
    if s != "" {
      PlainSplit(s[1..], separator);
      var rest := Split(s[1..], separator);
      assert rest[0] in rest && IsPlain([s[0]]) && IsPlain([s[0]] + rest[0]);
      forall part | part in Split(s, separator) ensures IsPlain(part) {
        assert part == "" || part == [s[0]] + rest[0] || part in rest;
      }
    }
  }

  lemma PlainParse(text: string)
    requires IsPlain(text)
    ensures forall v :: v in ParseList(text) ==> IsPlain(v)
  {
    PlainSplit(text, ',');
    hide IsPlain, Split, ValueOf;
    var entries := Split(text, ',');
    forall v | v in Values(entries) ensures IsPlain(v) {
      var j :| 0 <= j < |entries| && Values(entries)[j] == v;
      PlainValue(entries[j]);
    }
  }

  lemma PlainValue(entry: string)
    requires IsPlain(entry)
    ensures IsPlain(ValueOf(entry))
  {
    PlainSkip(entry);
    PlainSkip(SkipBlanks(entry));
    PlainSkip(Trim(entry));
  }

  lemma PlainInline(line: string)
    requires IsPlain(line)
    ensures InlineEnabled(line).Some? ==> IsPlain(InlineEnabled(line).value)
    ensures PluginsMap(line).Some? ==> IsPlain(PluginsMap(line).value)
  {
    if InlineEnabled(line).Some? {
      PlainSkip(line[|ENABLED|..]);
      PlainBracketed(After(line[|ENABLED|..], '[').value, IsTail);
    }
    if PluginsMap(line).Some? {
      PlainSkip(line[|PLUGINS|..]);
      var a := After(line[|PLUGINS|..], '{').value;
      PlainSkip(a);
      var inner := SkipBlanks(a);
      PlainSkip(inner[|ENABLED_IN_MAP|..]);
      PlainBracketed(After(inner[|ENABLED_IN_MAP|..], '[').value, IsMapEnd);
    }
  }

  lemma CleanConcat(a: seq<string>, b: seq<string>)
    ensures IsClean(a + b) <==> IsClean(a) && IsClean(b)
  {
    if IsClean(a + b) {
      assert forall i :: 0 <= i < |a| ==> a[i] == (a + b)[i];
      assert forall i :: 0 <= i < |b| ==> b[i] == (a + b)[|a| + i];
    }
  }

  lemma CleanPart(lines: seq<string>, from: nat, to: nat)
    requires IsClean(lines) && from <= to <= |lines|
    ensures IsClean(lines[from..to])
  {
  }

  lemma CleanItems(values: seq<string>)
    requires forall v :: v in values ==> IsPlain(v)
    ensures IsClean(Items(values)) && IsClean([PLUGINS]) && IsClean([ENABLED])
  {
    forall i | 0 <= i < |values| ensures IsPlain(Item(values[i])) {
      assert values[i] in values;
    }
  }

  /** What an edit puts in place of a part of the lines. */
  lemma CleanSplice(lines: seq<string>, from: nat, added: seq<string>, to: nat)
    requires IsClean(lines) && IsClean(added) && from <= to <= |lines|
    ensures IsClean(lines[..from] + added + lines[to..])
  {
    CleanPart(lines, 0, from);
    CleanPart(lines, to, |lines|);
    hide IsClean;
    CleanConcat(lines[..from], added);
    CleanConcat(lines[..from] + added, lines[to..]);
    assert lines[0..from] == lines[..from] && lines[to..|lines|] == lines[to..];
  }

  lemma {:induction false} CleanDrop(lines: seq<string>, name: string)
    requires IsClean(lines)
    ensures IsClean(DropListed(lines, name))
    decreases |lines|
  {
    if lines != [] && !IsSub(lines[0]) { CleanDrop(lines[1..], name); }
  }

  lemma CleanAddToBody(body: seq<string>, name: string)
    requires IsClean(body) && IsPlain(name)
    ensures IsClean(AddToBody(body, name).lines)
  {
    var d := First(body, IsDisabled);
    if d < |body| {
      CleanPart(body, d + 1, |body|);
      CleanDrop(body[d + 1..], name);
      CleanSplice(body, d + 1, DropListed(body[d + 1..], name), |body|);
      assert body[..d + 1] + DropListed(body[d + 1..], name) + body[|body|..] == WithoutDisabled(body, name);
    }
    hide IsDisabled, DropListed;
    CleanEnable(WithoutDisabled(body, name), name, DisabledLists(body, name));
  }

  lemma CleanEnable(b: seq<string>, name: string, changed: bool)
    requires IsClean(b) && IsPlain(name)
    ensures IsClean(Enable(b, name, changed).lines)
  {
    hide IsInlineEnabled, InlineEnabled, IsNullEnabled, IsEnabled, ListedIn, IsPlain;
    var i, n, k := First(b, IsInlineEnabled), First(b, IsNullEnabled), First(b, IsEnabled);
    CleanItems([name]);
    CleanConcat([ENABLED], Items([name]));
    assert [ENABLED] + Items([name]) == [ENABLED, Item(name)] && Items([name]) == [Item(name)];
    if i < |b| {
      assert IsInlineEnabled(b[i]);
      var values := InlineValues(b[i]);
      CleanItems(UniqueValues(values + [name]));
      CleanConcat([ENABLED], Items(UniqueValues(values + [name])));
      CleanSplice(b, i, [ENABLED] + Items(UniqueValues(values + [name])), i + 1);
      Reassociate(b[..i], [ENABLED], Items(UniqueValues(values + [name])));
    } else if n < |b| {
      CleanSplice(b, n, [ENABLED, Item(name)], n + 1);
    } else if k < |b| {
      CleanSplice(b, k + 1, [Item(name)], k + 1);
    } else {
      CleanConcat([ENABLED, Item(name)], b);
    }
  }

  lemma InlineValues(line: string) returns (values: seq<string>)
    requires IsInlineEnabled(line) && IsPlain(line)
    ensures values == ParseList(InlineEnabled(line).value) && forall v :: v in values ==> IsPlain(v)
  {
    PlainInline(line);
    values := ParseList(InlineEnabled(line).value);
    PlainParse(InlineEnabled(line).value);
  }

  lemma CleanRemoveFromBody(body: seq<string>, name: string)
    requires IsClean(body)
    ensures IsClean(RemoveFromBody(body, name).lines)
  {
    hide IsInlineEnabled, InlineEnabled, IsEnabled, ListedIn, IsPlain, DropListed;
    var i, k := First(body, IsInlineEnabled), First(body, IsEnabled);
    if i < |body| {
      assert IsInlineEnabled(body[i]);
      var values := InlineValues(body[i]);
      CleanItems(Without(values, name));
      CleanConcat([ENABLED], Items(Without(values, name)));
      CleanSplice(body, i, [ENABLED] + Items(Without(values, name)), i + 1);
      Reassociate(body[..i], [ENABLED], Items(Without(values, name)));
    } else if k < |body| {
      CleanPart(body, k + 1, |body|);
      CleanDrop(body[k + 1..], name);
      CleanSplice(body, k + 1, DropListed(body[k + 1..], name), |body|);
      assert body[..k + 1] + DropListed(body[k + 1..], name) + body[|body|..]
          == body[..k + 1] + DropListed(body[k + 1..], name);
    }
  }

  lemma CleanExpand(lines: seq<string>, m: nat)
    requires IsClean(lines) && m < |lines| && PluginsMap(lines[m]).Some?
    ensures IsClean(ExpandMap(lines, m))
  {
    PlainInline(lines[m]);
    PlainParse(PluginsMap(lines[m]).value);
    var values := ParseList(PluginsMap(lines[m]).value);
    hide PluginsMap, ParseList, IsPlain;
    CleanItems(values);
    CleanConcat([PLUGINS], [ENABLED]);
    CleanConcat([PLUGINS] + [ENABLED], Items(values));
    CleanSplice(lines, m, [PLUGINS] + [ENABLED] + Items(values), m + 1);
    assert [PLUGINS] + [ENABLED] == [PLUGINS, ENABLED];
    Reassociate(lines[..m], [PLUGINS, ENABLED], Items(values));
  }

  lemma CleanLocated(lines: seq<string>)
    requires IsClean(lines)
    ensures Locate(lines).Some? ==> IsClean(Locate(lines).value.lines)
    ensures LocateForRemoval(lines).Some? ==> IsClean(LocateForRemoval(lines).value.lines)
  {
    hide IsPlugins, IsEmptyMap, PluginsMap, IsPlain, ExpandMap;
    var q, m := First(lines, IsEmptyMap), First(lines, IsInlineMap);
    CleanItems([]);
    if q < |lines| { CleanSplice(lines, q, [PLUGINS], q + 1); }
    if m < |lines| { CleanExpand(lines, m); }
  }

  lemma CleanWithBody(lines: seq<string>, h: nat, body: seq<string>)
    requires h < |lines| && IsClean(lines) && IsClean(body)
    ensures IsClean(WithBody(lines, h, body)) && IsClean(Body(lines, h))
  {
    hide BlockEnd, IsPlain;
    CleanSplice(lines, h + 1, body, BlockEnd(lines, h));
    CleanPart(lines, h + 1, BlockEnd(lines, h));
  }

  /** An addition makes clean lines from clean lines and a name on one line. */
  lemma AddStaysClean(lines: seq<string>, name: string)
    requires IsClean(lines) && IsPlain(name)
    ensures IsClean(AddLines(lines, name).lines)
  {
    CleanLocated(lines);
    CleanItems([name]);
    assert Items([name]) == [Item(name)];
    hide Locate, AddToBody, IsPlain, Body, WithBody;
    if Locate(lines).Some? && Locate(lines).value.header < |Locate(lines).value.lines| {
      var l, h := Locate(lines).value.lines, Locate(lines).value.header;
      CleanWithBody(l, h, []);
      CleanAddToBody(Body(l, h), name);
      CleanWithBody(l, h, AddToBody(Body(l, h), name).lines);
    } else {
      CleanAppended(lines, name);
    }
  }

  lemma CleanAppended(lines: seq<string>, name: string)
    requires IsClean(lines) && IsPlain(name)
    ensures IsClean(Appended(lines, name))
  {
    CleanItems([name]);
    assert Items([name]) == [Item(name)] && IsPlain("");
    hide IsPlain, SkipBlanks;
    CleanConcat(lines, [""]);
    CleanConcat(FrontOf(lines), [PLUGINS, ENABLED, Item(name)]);
  }

  lemma RemoveStaysClean(lines: seq<string>, name: string)
    requires IsClean(lines)
    ensures IsClean(RemoveLines(lines, name).lines)
  {
    CleanLocated(lines);
    hide LocateForRemoval, RemoveFromBody, IsPlain, Body, WithBody, First;
    if RemovalApplies(lines) {
      var l, h := LocateForRemoval(lines).value.lines, LocateForRemoval(lines).value.header;
      CleanWithBody(l, h, []);
      CleanRemoveFromBody(Body(l, h), name);
      CleanWithBody(l, h, RemoveFromBody(Body(l, h), name).lines);
    }
  }

  // ---------------------------------------------------------------- the edits on texts

  /** Line ends apart, the source holds no carriage return. */
  predicate IsLineText(source: string) { IsClean(Read(source).lines) }

  /** The text after an addition reads as the edited lines, with a line end that is new when something was changed. */
  lemma AddReads(source: string, name: string)
    requires IsLineText(source) && IsPlain(name)
    ensures var edit := AddLines(Read(source).lines, name);
            Read(AddText(source, name).text) == Source(edit.lines, edit.changed || Read(source).trailing)
  {
    hide AddLines, Read, JoinLines, IsClean, Locate, HeaderOf, IsPlain;
    var read := Read(source);
    var edit := AddLines(read.lines, name);
    AddStaysClean(read.lines, name);
    AddIsNotEmpty(read.lines, name);
    if !edit.changed && !read.trailing {
      LastIsNotEmpty(source);
      UnchangedEnds(read.lines, name);
    }
    ReadsBack(edit.lines, edit.changed || read.trailing);
  }

  lemma AddIsNotEmpty(lines: seq<string>, name: string)
    ensures AddLines(lines, name).lines != []
  {
    hide Locate, AddToBody, BlockEnd;
  }

  /** On texts: a second addition of the plugin reports no change and returns the same text. */
  lemma TextIsSettled(source: string, name: string)
    requires IsName(name) && IsPlain(name) && OneEnabledKey(Read(source).lines) && IsLineText(source)
    ensures var once := AddText(source, name); AddText(once.text, name) == TextEdit(once.text, false)
  {
    AddReads(source, name);
    hide AddLines, IsSettled, Read, JoinLines, OneEnabledKey, IsClean, IsName, Locate, IsLineText, IsPlain;
    AddIsSettled(Read(source).lines, name);
    SettledFacts(AddLines(Read(source).lines, name).lines, name);
  }

  /** On texts: every line outside the block is kept, in order. */
  lemma TextKeepsTheRest(source: string, name: string)
    requires IsLineText(source) && IsPlain(name)
    ensures KeepsRest(Read(source).lines, Read(AddText(source, name).text).lines, HeaderOf(Read(source).lines))
  {
    AddReads(source, name);
    AddKeepsTheRest(Read(source).lines, name);
  }

  /** `removeHermesPluginFromConfigYaml`: without an enabled key the source itself is returned. */
  function RemoveText(source: string, name: string): TextEdit {
    var read := Read(source);
    if !RemovalApplies(read.lines) then TextEdit(source, false)
    else
      var edit := RemoveLines(read.lines, name);
      TextEdit(JoinLines(edit.lines) + (if edit.changed || read.trailing then "\n" else ""), edit.changed)
  }

  /** The text after a removal reads as the edited lines, and is the source when nothing is edited. */
  lemma RemoveReads(source: string, name: string)
    requires IsLineText(source)
    ensures var edit := RemoveLines(Read(source).lines, name);
            && Read(RemoveText(source, name).text).lines == edit.lines
               && RemoveText(source, name).changed == edit.changed
            && (!RemovalApplies(Read(source).lines) ==> RemoveText(source, name).text == source)
  {
    hide Read, JoinLines, IsClean, LocateForRemoval, RemovalApplies, RemoveFromBody, Body, WithBody;
    var lines := Read(source).lines;
    if RemovalApplies(lines) {
      var edit := RemoveLines(lines, name);
      RemoveStaysClean(lines, name);
      RemovalEnds(lines, name);
      if !Read(source).trailing { LastIsNotEmpty(source); }
      ReadsBack(edit.lines, edit.changed || Read(source).trailing);
    }
  }

  /**
   On texts: a removal returns the source when it has nothing to edit, and keeps the lines outside the block
   otherwise.
   */
  lemma RemovalTextKeepsTheRest(source: string, name: string)
    requires IsLineText(source)
    ensures if RemovalApplies(Read(source).lines) then
              KeepsRest(Read(source).lines, Read(RemoveText(source, name).text).lines,
                        RemovalHeaderOf(Read(source).lines))
            else RemoveText(source, name) == TextEdit(source, false)
  {
    hide *;
    RemoveReads(source, name);
    RemoveKeepsTheRest(Read(source).lines, name);
  }

  /** A removal that finds nothing to remove leaves the located lines. */
  lemma RemovalEnds(lines: seq<string>, name: string)
    requires RemovalApplies(lines)
    ensures RemoveLines(lines, name).lines != []
    ensures !RemoveLines(lines, name).changed && lines != [] && lines[|lines| - 1] != "" ==>
              RemoveLines(lines, name).lines[|RemoveLines(lines, name).lines| - 1] != ""
  {
    var l, h := LocateForRemoval(lines).value.lines, LocateForRemoval(lines).value.header;
    var body := Body(l, h);
    if !RemoveFromBody(body, name).changed {
      UnremovedBody(body, name);
      SameBody(l, h);
      if lines != [] && lines[|lines| - 1] != "" { LastOfLocatedForRemoval(lines); }
    }
  }

  lemma UnremovedBody(body: seq<string>, name: string)
    requires !RemoveFromBody(body, name).changed
    ensures RemoveFromBody(body, name).lines == body
  {
    hide IsInlineEnabled, IsEnabled, DropListed, ListedIn;
    var k := First(body, IsEnabled);
    if k < |body| { DropMeaning(body[k + 1..], name); }
  }

  lemma LastOfLocatedForRemoval(lines: seq<string>)
    requires LocateForRemoval(lines).Some? && lines != [] && lines[|lines| - 1] != ""
    ensures var l := LocateForRemoval(lines).value.lines; l != [] && l[|l| - 1] != ""
  {
    hide IsPlugins, PluginsMap, ExpandMap;
    if First(lines, IsPlugins) == |lines| { LastOfExpanded(lines, First(lines, IsInlineMap)); }
  }
}
