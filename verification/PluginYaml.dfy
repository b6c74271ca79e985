/**
 packages/cli/src/installers.ts: adding a plugin to, and removing it from, the line-oriented `plugins` block of a YAML
 configuration. White space is blank and tab; lines hold no carriage return.
 */
module PluginYaml {
  import opened Prelude

  // ---------------------------------------------------------------- what the patterns match

  predicate IsBlank(c: char) { c == ' ' || c == '\t' }

  function SkipBlanks(s: string): string { if s != "" && IsBlank(s[0]) then SkipBlanks(s[1..]) else s }

  /** Blanks and perhaps a comment. */
  predicate IsTail(s: string) { SkipBlanks(s) == "" || SkipBlanks(s)[0] == '#' }

  predicate IsHeader(line: string, key: string) { key <= line && IsTail(line[|key|..]) }

  const PLUGINS := "plugins:"
  const ENABLED := "  enabled:"
  const DISABLED := "  disabled:"

  predicate IsPlugins(line: string) { IsHeader(line, PLUGINS) }
  predicate IsEnabled(line: string) { IsHeader(line, ENABLED) }
  predicate IsDisabled(line: string) { IsHeader(line, DISABLED) }

  /** A top-level key. */
  predicate IsTop(line: string) { line != "" && !IsBlank(line[0]) && line[0] != '#' && ':' in line[1..] }

  /** A key of the block: two blanks, then something that is not a list item. */
  predicate IsSub(line: string) {
    |line| >= 3 && line[0] == ' ' && line[1] == ' ' && !IsBlank(line[2]) && line[2] != '-' && ':' in line[3..]
  }

  predicate IsNullEnabled(line: string) {
    ENABLED <= line && var rest := SkipBlanks(line[|ENABLED|..]); IsHeader(rest, "null") || IsHeader(rest, "~")
  }

  /** The text before the last bracket that only an end of the given form follows. */
  function Bracketed(s: string, isEnd: string -> bool): Option<string>
    decreases |s|
  {
    if s == "" then None
    else
      var later := Bracketed(s[1..], isEnd);
      if later.Some? then Some([s[0]] + later.value) else if s[0] == ']' && isEnd(s[1..]) then Some("") else None
  }

  /** Blanks and then the character, when the text starts with it. */
  function After(s: string, c: char): Option<string> {
    var rest := SkipBlanks(s);
    if rest != "" && rest[0] == c then Some(rest[1..]) else None
  }

  function InlineEnabled(line: string): Option<string> {
    if ENABLED <= line
      && After(line[|ENABLED|..], '[').Some? then Bracketed(After(line[|ENABLED|..], '[').value, IsTail)
    else None
  }

  predicate IsInlineEnabled(line: string) { InlineEnabled(line).Some? }

  predicate IsQuote(c: char) { c == '\'' || c == '"' }

  predicate IsNameAndTail(s: string, name: string) {
    name <= s && (IsTail(s[|name|..]) || (|s| > |name| && IsQuote(s[|name|]) && IsTail(s[|name| + 1..])))
  }

  /** `hermesPluginIsListed` */
  predicate Lists(line: string, name: string) {
    var s := SkipBlanks(line);
    s != "" && s[0] == '-' &&
    var item := SkipBlanks(s[1..]);
    IsNameAndTail(item, name) || (item != "" && IsQuote(item[0]) && IsNameAndTail(item[1..], name))
  }

  function Item(value: string): string { "  - " + value }

  /** `plugins: {}` */
  predicate IsEmptyMap(line: string) {
    && PLUGINS <= line && After(line[|PLUGINS|..], '{').Some?
    && IsMapEnd(After(line[|PLUGINS|..], '{').value)
  }

  /** A closing brace, and after it blanks and perhaps a comment. */
  predicate IsMapEnd(s: string) { After(s, '}').Some? && IsTail(After(s, '}').value) }

  const ENABLED_IN_MAP := "enabled:"

  /** The text between the brackets of `plugins: {enabled: [...]}`. */
  function PluginsMap(line: string): Option<string> {
    if PLUGINS <= line && After(line[|PLUGINS|..], '{').Some? then
      var inner := SkipBlanks(After(line[|PLUGINS|..], '{').value);
      if ENABLED_IN_MAP <= inner && After(inner[|ENABLED_IN_MAP|..], '[').Some? then
        Bracketed(After(inner[|ENABLED_IN_MAP|..], '[').value, IsMapEnd)
      else None
    else None
  }

  predicate IsInlineMap(line: string) { PluginsMap(line).Some? }

  function TrimEnd(s: string): string { if s != "" && IsBlank(s[|s| - 1]) then TrimEnd(s[..|s| - 1]) else s }

  function Trim(s: string): string { TrimEnd(SkipBlanks(s)) }

  /** At most one quote is taken from each end. */
  function Unquote(s: string): string {
    var t := if s != "" && IsQuote(s[0]) then s[1..] else s;
    if t != "" && IsQuote(t[|t| - 1]) then t[..|t| - 1] else t
  }

  function NotEmpty(values: seq<string>): (kept: seq<string>)
    ensures forall v :: v in kept <==> v in values && v != ""
  {
    if values == [] then [] else (if values[0] == "" then [] else [values[0]]) + NotEmpty(values[1..])
  }

  function ValueOf(entry: string): string { Unquote(Trim(entry)) }

  function Values(entries: seq<string>): (values: seq<string>)
    ensures |values| == |entries| && forall i :: 0 <= i < |entries| ==> values[i] == ValueOf(entries[i])
  {
    seq(|entries|, i requires 0 <= i < |entries| => ValueOf(entries[i]))
  }

  /** `parseInlineYamlList` */
  function ParseList(text: string): seq<string> { NotEmpty(Values(Split(text, ','))) }

  predicate IsName(name: string) { name != "" && !IsBlank(name[0]) }

  /** The three forms of the `enabled` key. */
  predicate IsEnabledKey(line: string) { IsEnabled(line) || IsNullEnabled(line) || InlineEnabled(line).Some? }

  // ---------------------------------------------------------------- the edit of a block, on its own lines

  /** The first line from `start` that satisfies the predicate. */
  function First(lines: seq<string>, p: string -> bool): (i: nat)
    ensures i <= |lines| && (i < |lines| ==> p(lines[i])) && forall j :: 0 <= j < i ==> !p(lines[j])
  {
    if lines == [] || p(lines[0]) then 0 else 1 + First(lines[1..], p)
  }

  /** A list without the plugin; the list ends at the next key. */
  function DropListed(lines: seq<string>, name: string): seq<string> {
    if lines == [] || IsSub(lines[0]) then lines
    else (if Lists(lines[0], name) then [] else [lines[0]]) + DropListed(lines[1..], name)
  }

  predicate ListedIn(lines: seq<string>, name: string) {
    lines != [] && !IsSub(lines[0]) && (Lists(lines[0], name) || ListedIn(lines[1..], name))
  }

  function WithoutDisabled(body: seq<string>, name: string): seq<string> {
    var d := First(body, IsDisabled);
    if d < |body| then body[..d + 1] + DropListed(body[d + 1..], name) else body
  }

  predicate DisabledLists(body: seq<string>, name: string) {
    var d := First(body, IsDisabled);
    d < |body| && ListedIn(body[d + 1..], name)
  }

  function Items(values: seq<string>): (lines: seq<string>)
    ensures |lines| == |values|
  {
    seq(|values|, i requires 0 <= i < |values| => Item(values[i]))
  }

  function UniqueValues(values: seq<string>): (kept: seq<string>)
    ensures forall v :: v in kept <==> v in values
  {
    if values == [] then []
    else
      var last, earlier := values[|values| - 1], UniqueValues(values[..|values| - 1]);
      assert values == values[..|values| - 1] + [last];
      if last in earlier then earlier else earlier + [last]
  }

  datatype Edit = Edit(lines: seq<string>, changed: bool)

  /** The lines after `plugins:` up to the next top-level key, with the plugin enabled. */
  function AddToBody(body: seq<string>, name: string): Edit {
    Enable(WithoutDisabled(body, name), name, DisabledLists(body, name))
  }

  /** The inline and the null form are rewritten as a block; a missing key is put first. */
  function Enable(b: seq<string>, name: string, changed: bool): Edit {
    var i, n, k := First(b, IsInlineEnabled), First(b, IsNullEnabled), First(b, IsEnabled);
    if i < |b| then
      Edit(b[..i] + [ENABLED] + Items(UniqueValues(ParseList(InlineEnabled(b[i]).value) + [name])) + b[i + 1..], true)
    else if n < |b| then Edit(b[..n] + [ENABLED, Item(name)] + b[n + 1..], true)
    else if k < |b| && ListedIn(b[k + 1..], name) then Edit(b, changed)
    else if k == |b| then Edit([ENABLED, Item(name)] + b, true)
    else Edit(b[..k + 1] + [Item(name)] + b[k + 1..], true)
  }

  // ---------------------------------------------------------------- facts about the patterns

  lemma SkipTwo(s: string)
    requires |s| >= 3 && s[0] == ' ' && s[1] == ' ' && !IsBlank(s[2])
    ensures SkipBlanks(s) == s[2..]
  {
    assert s[1..][0] == ' ' && s[1..][1..] == s[2..];
    assert SkipBlanks(s) == SkipBlanks(s[1..]) == SkipBlanks(s[2..]);
  }

  lemma KeyIsSub(line: string, key: string)
    requires key == ENABLED || key == DISABLED
    requires key <= line
    ensures IsSub(line) && !IsTop(line) && forall name :: !Lists(line, name)
  {
    assert line[..|key|] == key;
    assert line[0] == key[0] && line[1] == key[1] && line[2] == key[2] && line[|key| - 1] == key[|key| - 1] == ':';
    assert line[3..][|key| - 4] == ':';
    SkipTwo(line);
  }

  lemma EnabledKeyIsSub(line: string)
    ensures IsEnabledKey(line) ==>
              ENABLED <= line && IsSub(line) && !IsTop(line) && !IsDisabled(line) && forall name :: !Lists(line, name)
    ensures IsDisabled(line) ==> IsSub(line) && !IsTop(line) && forall name :: !Lists(line, name)
  {
    if IsEnabledKey(line) {
      KeyIsSub(line, ENABLED);
      assert DISABLED <= line ==> line[2] == DISABLED[2];
      assert line[2] == ENABLED[2];
    }
    if IsDisabled(line) { KeyIsSub(line, DISABLED); }
  }

  /** The forms of the key exclude each other. */
  lemma FormsDiffer(line: string)
    ensures IsEnabled(line) ==> !IsNullEnabled(line) && InlineEnabled(line).None?
    ensures IsNullEnabled(line) ==> InlineEnabled(line).None?
  {
    if ENABLED <= line {
      var rest := SkipBlanks(line[|ENABLED|..]);
      assert "null" <= rest ==> rest[0] == "null"[0];
      assert "~" <= rest ==> rest[0] == "~"[0];
    }
  }

  lemma ItemIsPlain(value: string)
    ensures !IsSub(Item(value)) && !IsTop(Item(value)) && !IsEnabledKey(Item(value)) && !IsDisabled(Item(value))
        && !IsPlugins(Item(value))
    ensures IsName(value) ==> Lists(Item(value), value)
  {
    var line := Item(value);
    assert line[0] == ' ' && line[1] == ' ' && line[2] == '-' && line[3] == ' ';
    EnabledKeyIsSub(line);
    assert line[0] != PLUGINS[0];
    if IsName(value) {
      SkipTwo(line);
      assert line[2..][1..] == " " + value;
      assert (" " + value)[1..] == value;
      assert SkipBlanks(" " + value) == value;
      assert value[|value|..] == "";
    }
  }

  lemma EnabledIsKey()
    ensures IsEnabled(ENABLED) && IsSub(ENABLED) && !IsTop(ENABLED) && !IsDisabled(ENABLED) && !IsPlugins(ENABLED)
    ensures IsPlugins(PLUGINS) && IsTop(PLUGINS)
  {
    assert ENABLED[|ENABLED|..] == "" && PLUGINS[|PLUGINS|..] == "";
    EnabledKeyIsSub(ENABLED);
    assert PLUGINS[1..][6] == ':';
    assert ENABLED[0] != PLUGINS[0];
  }

  // ---------------------------------------------------------------- facts about lists

  function Keys(lines: seq<string>): nat {
    if lines == [] then 0 else (if IsEnabledKey(lines[0]) then 1 else 0) + Keys(lines[1..])
  }

  lemma {:induction false} KeysConcat(a: seq<string>, b: seq<string>)
    ensures Keys(a + b) == Keys(a) + Keys(b)
    decreases |a|
  {
    if a == [] { assert a + b == b; }
    else {
      assert (a + b)[1..] == a[1..] + b;
      KeysConcat(a[1..], b);
    }
  }

  lemma {:induction false} NoKeys(lines: seq<string>)
    ensures Keys(lines) == 0 <==> forall i :: 0 <= i < |lines| ==> !IsEnabledKey(lines[i])
    decreases |lines|
  {
    hide IsEnabledKey;
    if lines != [] {
      NoKeys(lines[1..]);
      assert forall i :: 0 < i < |lines| ==> lines[i] == lines[1..][i - 1];
    }
  }

  predicate NoTop(lines: seq<string>) { forall i :: 0 <= i < |lines| ==> !IsTop(lines[i]) }

  lemma {:induction false} DropMeaning(lines: seq<string>, name: string)
    ensures !ListedIn(DropListed(lines, name), name)
    ensures !ListedIn(lines, name) <==> DropListed(lines, name) == lines
    ensures |DropListed(lines, name)| <= |lines|
    ensures Keys(DropListed(lines, name)) == Keys(lines)
    ensures NoTop(lines) ==> NoTop(DropListed(lines, name))
    decreases |lines|
  {
    if lines != [] && !IsSub(lines[0]) {
      hide Lists, IsEnabledKey, IsTop, IsSub;
      DropMeaning(lines[1..], name);
      EnabledKeyIsSub(lines[0]);
      var rest := DropListed(lines[1..], name);
      assert lines == [lines[0]] + lines[1..];
      assert ([lines[0]] + rest)[1..] == rest && [] + rest == rest;
      assert NoTop(lines) ==> NoTop(lines[1..]);
    }
  }

  /** A key ends the list. */
  lemma {:induction false} ListEndsAtKey(x: seq<string>, y: seq<string>, name: string)
    requires y == [] || IsSub(y[0])
    ensures ListedIn(x + y, name) == ListedIn(x, name)
    decreases |x|
  {
    if x == [] { assert x + y == y; }
    else {
      assert (x + y)[1..] == x[1..] + y;
      ListEndsAtKey(x[1..], y, name);
    }
  }

  lemma {:induction false} ItemsListed(values: seq<string>, rest: seq<string>, name: string)
    requires name in values && IsName(name)
    ensures ListedIn(Items(values) + rest, name)
    decreases |values|
  {
    var lines := Items(values) + rest;
    ItemIsPlain(values[0]);
    assert lines[0] == Item(values[0]);
    if values[0] != name {
      assert lines[1..] == Items(values[1..]) + rest;
      ItemsListed(values[1..], rest, name);
    }
  }

  lemma ItemsArePlain(values: seq<string>)
    ensures Keys(Items(values)) == 0 && NoTop(Items(values))
    ensures forall i :: 0 <= i < |Items(values)| ==> !IsDisabled(Items(values)[i])
  {
    forall i | 0 <= i < |values| ensures !IsEnabledKey(Items(values)[i]) && !IsTop(Items(values)[i])
        && !IsDisabled(Items(values)[i]) {
      ItemIsPlain(values[i]);
    }
    NoKeys(Items(values));
  }

  lemma FirstAt(lines: seq<string>, p: string -> bool, i: nat)
    requires i <= |lines| && (i < |lines| ==> p(lines[i])) && forall j :: 0 <= j < i ==> !p(lines[j])
    ensures First(lines, p) == i
  {
  }

  // ---------------------------------------------------------------- the edited block

  /** The enabled list has the plugin, and a disabled list does not. */
  predicate HasPlugin(body: seq<string>, name: string) {
    var k := First(body, IsEnabled);
    k < |body| && ListedIn(body[k + 1..], name) && !DisabledLists(body, name)
  }

  /** One block-style key, the plugin under it, and no disabled list with it: nothing is left to do. */
  lemma StableBody(u: seq<string>, h: string, w: seq<string>, name: string)
    requires IsEnabled(h) && Keys(u) == 0 && Keys(w) == 0 && ListedIn(w, name) && !DisabledLists(u + [h] + w, name)
    ensures HasPlugin(u + [h] + w, name) && AddToBody(u + [h] + w, name) == Edit(u + [h] + w, false)
  {
    var r := u + [h] + w;
    NoKeys(u);
    NoKeys(w);
    FormsDiffer(h);
    hide IsEnabled, IsNullEnabled, InlineEnabled, IsDisabled, ListedIn, Lists, DropListed, Keys, DisabledLists,
         WithoutDisabled;
    forall j | 0 <= j < |r| && j != |u| ensures !IsEnabledKey(r[j]) {
      assert r[j] == if j < |u| then u[j] else w[j - |u| - 1];
    }
    assert r[|u|] == h && r[|u| + 1..] == w;
    FirstAt(r, IsEnabled, |u|);
    FirstAt(r, IsNullEnabled, |r|);
    FirstAt(r, IsInlineEnabled, |r|);
    DroppingDisabled(r, name);
  }

  lemma OneKey(u: seq<string>, h: string, w: seq<string>)
    requires IsEnabled(h) && Keys(u) == 0 && Keys(w) == 0
    ensures Keys(u + [h] + w) == 1
  {
    KeysConcat(u, [h]);
    KeysConcat(u + [h], w);
    assert [h][1..] == [];
    assert Keys([h]) == 1 + Keys([h][1..]);
  }

  /** Putting a key and plain lines where a key was, or before everything, leaves the disabled list as it is. */
  lemma DisabledStays(u: seq<string>, replaced: seq<string>, h: string, added: seq<string>, rest: seq<string>,
                      name: string)
    requires IsSub(h) && !IsDisabled(h) && (forall i :: 0 <= i < |added| ==> !IsDisabled(added[i]))
    requires if replaced == [] then u == [] else |replaced| == 1 && IsSub(replaced[0]) && !IsDisabled(replaced[0])
    ensures DisabledLists(u + [h] + (added + rest), name) == DisabledLists(u + replaced + rest, name)
  {
    hide IsSub, IsDisabled, ListedIn, DisabledLists;
    if First(u, IsDisabled) < |u| {
      DisabledBefore(u, replaced + rest, name);
      DisabledBefore(u, [h] + (added + rest), name);
      assert u + replaced + rest == u + (replaced + rest) && u + [h] + (added + rest) == u + ([h] + (added + rest));
    } else {
      DisabledAfter(u + replaced, rest, name);
      DisabledAfter(u + [h] + added, rest, name);
      assert u + [h] + added + rest == u + [h] + (added + rest);
    }
  }

  lemma DisabledBefore(u: seq<string>, y: seq<string>, name: string)
    requires First(u, IsDisabled) < |u| && (y == [] || IsSub(y[0]))
    ensures DisabledLists(u + y, name) == DisabledLists(u, name)
  {
    hide First, IsDisabled, DisabledLists, ListedIn, IsSub;
    var d, all := First(u, IsDisabled), u + y;
    assert forall j :: 0 <= j <= d ==> all[j] == u[j];
    DisabledAt(u, d, name);
    DisabledAt(all, d, name);
    assert all[d + 1..] == u[d + 1..] + y;
    ListEndsAtKey(u[d + 1..], y, name);
  }

  lemma DisabledAt(body: seq<string>, d: nat, name: string)
    requires d < |body| && IsDisabled(body[d]) && forall j :: 0 <= j < d ==> !IsDisabled(body[j])
    ensures DisabledLists(body, name) == ListedIn(body[d + 1..], name)
  {
    FirstAt(body, IsDisabled, d);
  }

  lemma DisabledAfter(front: seq<string>, rest: seq<string>, name: string)
    requires forall i :: 0 <= i < |front| ==> !IsDisabled(front[i])
    ensures DisabledLists(front + rest, name) == DisabledLists(rest, name)
  {
    hide IsDisabled, ListedIn;
    var t := First(rest, IsDisabled);
    FirstIn(front, rest, t);
    assert t < |rest| ==> (front + rest)[|front| + t + 1..] == rest[t + 1..];
  }

  lemma FirstIn(front: seq<string>, rest: seq<string>, t: nat)
    requires forall i :: 0 <= i < |front| ==> !IsDisabled(front[i])
    requires t == First(rest, IsDisabled)
    ensures First(front + rest, IsDisabled) == |front| + t
  {
    hide IsDisabled;
    var all := front + rest;
    forall j | 0 <= j < |front| + t ensures !IsDisabled(all[j]) {
      assert all[j] == if j < |front| then front[j] else rest[j - |front|];
    }
    FirstAt(all, IsDisabled, |front| + t);
  }

  lemma DroppingDisabled(body: seq<string>, name: string)
    ensures !DisabledLists(WithoutDisabled(body, name), name)
    ensures Keys(WithoutDisabled(body, name)) == Keys(body)
    ensures NoTop(body) ==> NoTop(WithoutDisabled(body, name))
    ensures !DisabledLists(body, name) ==> WithoutDisabled(body, name) == body
  {
    hide IsDisabled, ListedIn, DropListed, IsTop, IsEnabledKey;
    var d, b := First(body, IsDisabled), WithoutDisabled(body, name);
    if d < |body| {
      DropMeaning(body[d + 1..], name);
      var dropped := DropListed(body[d + 1..], name);
      FirstAt(b, IsDisabled, d);
      assert b[d + 1..] == dropped;
      KeysConcat(body[..d + 1], dropped);
      KeysConcat(body[..d + 1], body[d + 1..]);
      assert body == body[..d + 1] + body[d + 1..];
      if NoTop(body) { assert NoTop(body[d + 1..]); }
    } else {
      FirstAt(b, IsDisabled, d);
    }
  }

  /** Replacing the key at `i` by a block-style key with items. */
  lemma ReplaceKey(b: seq<string>, i: nat, h: string, values: seq<string>, name: string)
    requires i < |b| && IsEnabledKey(b[i]) && Keys(b) <= 1 && !DisabledLists(b, name) && IsEnabled(h)
    requires IsName(name) && name in values
    ensures var r := b[..i] + [h] + (Items(values) + b[i + 1..]);
            HasPlugin(r, name) && AddToBody(r, name) == Edit(r, false) && Keys(r) == 1 && (NoTop(b) ==> NoTop(r))
  {
    SplitKeys(b, i);
    ItemsArePlain(values);
    ItemsListed(values, b[i + 1..], name);
    KeysConcat(Items(values), b[i + 1..]);
    EnabledKeyIsSub(b[i]);
    EnabledKeyIsSub(h);
    hide IsEnabled, IsNullEnabled, InlineEnabled, IsDisabled, ListedIn, Lists, Keys, DisabledLists, IsTop, IsSub,
         IsName, AddToBody, HasPlugin, Items;
    DisabledStays(b[..i], [b[i]], h, Items(values), b[i + 1..], name);
    assert b[..i] + [b[i]] + b[i + 1..] == b;
    StableBody(b[..i], h, Items(values) + b[i + 1..], name);
    OneKey(b[..i], h, Items(values) + b[i + 1..]);
    NoTopParts(b, i, h, Items(values));
  }

  lemma NoTopParts(b: seq<string>, i: nat, h: string, items: seq<string>)
    requires i < |b| && !IsTop(h) && NoTop(items)
    ensures NoTop(b) ==> NoTop(b[..i] + [h] + (items + b[i + 1..]))
  {
    hide IsTop;
  }

  lemma SplitKeys(b: seq<string>, i: nat)
    requires i < |b| && IsEnabledKey(b[i]) && Keys(b) <= 1
    ensures Keys(b[..i]) == 0 && Keys(b[i + 1..]) == 0
  {
    assert b == b[..i] + ([b[i]] + b[i + 1..]);
    KeysConcat(b[..i], [b[i]] + b[i + 1..]);
    KeysConcat([b[i]], b[i + 1..]);
  }

  /**
   In a block with at most one enabled key, an edit puts the plugin in its list and takes it from the disabled list,
   and a second edit finds nothing to change.
   */
  lemma BodyIsSettled(body: seq<string>, name: string)
    requires IsName(name) && Keys(body) <= 1
    ensures var r := AddToBody(body, name).lines;
            HasPlugin(r, name) && AddToBody(r, name) == Edit(r, false) && Keys(r) == 1 && (NoTop(body) ==> NoTop(r))
  {
    DroppingDisabled(body, name);
    hide AddToBody, WithoutDisabled, DisabledLists, HasPlugin, NoTop, IsName, Keys;
    assert AddToBody(body, name) == Enable(WithoutDisabled(body, name), name, DisabledLists(body, name)) by {
      AddIsEnable(body, name);
    }
    EnableSettles(WithoutDisabled(body, name), name, DisabledLists(body, name));
  }

  lemma AddIsEnable(body: seq<string>, name: string)
    ensures AddToBody(body, name) == Enable(WithoutDisabled(body, name), name, DisabledLists(body, name))
  {
  }

  lemma EnableSettles(b: seq<string>, name: string, changed: bool)
    requires IsName(name) && Keys(b) <= 1 && !DisabledLists(b, name)
    ensures var r := Enable(b, name, changed).lines;
            HasPlugin(r, name) && AddToBody(r, name) == Edit(r, false) && Keys(r) == 1 && (NoTop(b) ==> NoTop(r))
  {
    EnabledIsKey();
    hide AddToBody, DisabledLists, HasPlugin, IsEnabled, IsNullEnabled, InlineEnabled, ListedIn, NoTop, IsName, Keys;
    var i, n, k := First(b, IsInlineEnabled), First(b, IsNullEnabled), First(b, IsEnabled);
    if i < |b| {
      var values := UniqueValues(ParseList(InlineEnabled(b[i]).value) + [name]);
      ReplaceKey(b, i, ENABLED, values, name);
      Reassociate(b[..i] + [ENABLED], Items(values), b[i + 1..]);
    } else if n < |b| {
      ReplaceKey(b, n, ENABLED, [name], name);
      OneItem(b[..n], ENABLED, name, b[n + 1..]);
    } else if k < |b| && ListedIn(b[k + 1..], name) {
      SplitKeys(b, k);
      assert b[..k] + [b[k]] + b[k + 1..] == b;
      StableBody(b[..k], b[k], b[k + 1..], name);
      OneKey(b[..k], b[k], b[k + 1..]);
    } else if k == |b| {
      NewKey(b, name);
    } else {
      ReplaceKey(b, k, b[k], [name], name);
      OneItem(b[..k], b[k], name, b[k + 1..]);
      assert b[..k] + [b[k]] == b[..k + 1];
    }
  }

  lemma Reassociate(front: seq<string>, items: seq<string>, rest: seq<string>)
    ensures front + (items + rest) == front + items + rest
  {
  }

  lemma OneItem(front: seq<string>, h: string, name: string, rest: seq<string>)
    ensures front + [h] + (Items([name]) + rest) == front + [h] + [Item(name)] + rest
    ensures front + [h] + (Items([name]) + rest) == front + [h, Item(name)] + rest
  {
  }

  lemma NewKey(b: seq<string>, name: string)
    requires IsName(name) && !DisabledLists(b, name)
    requires forall j :: 0 <= j < |b| ==> !IsEnabledKey(b[j])
    ensures var r := [ENABLED, Item(name)] + b;
            HasPlugin(r, name) && AddToBody(r, name) == Edit(r, false) && Keys(r) == 1 && (NoTop(b) ==> NoTop(r))
  {
    EnabledIsKey();
    NoKeys(b);
    ItemsArePlain([name]);
    ItemsListed([name], b, name);
    KeysConcat(Items([name]), b);
    hide IsEnabledKey, IsEnabled, IsDisabled, IsTop, IsSub, IsName, DisabledLists, HasPlugin, AddToBody, ListedIn, Keys;
    DisabledStays([], [], ENABLED, Items([name]), b, name);
    OneItem([], ENABLED, name, b);
    assert [] + [] + b == b && [] + [ENABLED, Item(name)] + b == [ENABLED, Item(name)] + b;
    StableBody([], ENABLED, Items([name]) + b, name);
    OneKey([], ENABLED, Items([name]) + b);
    NoTopInFront(b, name);
  }

  lemma NoTopInFront(b: seq<string>, name: string)
    ensures NoTop(b) ==> NoTop([ENABLED, Item(name)] + b)
  {
    EnabledIsKey();
    ItemIsPlain(name);
    hide IsTop;
  }
}
