/**
 packages/cli/src/installers.ts: which plugins a configuration enables, and what an addition and a removal do to the
 plugins they are not about.
 */
module PluginOthers {
  import opened Prelude
  import opened PluginYaml
  import opened PluginEditor
  import opened PluginText
  import opened PluginLines

  // ---------------------------------------------------------------- the plugins that a block enables

  /** The inline list of the key has an entry with the value. */
  ghost predicate HasEntry(line: string, v: string) {
    InlineEnabled(line).Some? && v != "" && exists e :: e in Split(InlineEnabled(line).value, ',') && ValueOf(e) == v
  }

  /** An entry of the inline list, or a line of the block-style list. */
  ghost predicate EnabledBy(block: seq<string>, v: string) {
    || (exists k :: 0 <= k < |block| && HasEntry(block[k], v))
    || exists k :: 0 <= k < |block| && IsEnabled(block[k]) && ListedUnder(block, k, v)
  }

  /** An entry with another value names the plugin when it is written as a list item. */
  ghost predicate HidesEntry(entries: seq<string>, v: string) {
    exists e :: e in entries && ValueOf(e) != v && Lists(Item(ValueOf(e)), v)
  }

  /** Lines below a key that is no list, or entries that name the plugin only as list items. */
  ghost predicate HidesAt(block: seq<string>, k: nat, v: string) {
    k < |block|
    && (((IsNullEnabled(block[k]) || InlineEnabled(block[k]).Some?) && ListedUnder(block, k, v))
        || (InlineEnabled(block[k]).Some? && HidesEntry(Split(InlineEnabled(block[k]).value, ','), v)))
  }

  /** List items before any key. */
  ghost predicate HidesAtTop(block: seq<string>, v: string) {
    exists j :: 0 <= j < |block| && Lists(block[j], v) && forall m :: 0 <= m <= j ==> !IsSub(block[m])
  }

  /** The block has the plugin in a place where it is not enabled, but is once the key is a block-style list. */
  ghost predicate Hides(block: seq<string>, v: string) {
    || (exists k :: 0 <= k < |block| && HidesAt(block, k, v))
    || ((forall k :: 0 <= k < |block| ==> !IsEnabledKey(block[k])) && HidesAtTop(block, v))
  }

  lemma BlockAtKey(b: seq<string>, k: nat, v: string)
    requires Keys(b) <= 1 && k < |b| && IsEnabledKey(b[k])
    ensures EnabledBy(b, v) <==> HasEntry(b[k], v) || (IsEnabled(b[k]) && ListedIn(b[k + 1..], v))
    ensures Hides(b, v) <==>
              || (!IsEnabled(b[k]) && ListedIn(b[k + 1..], v))
              || (InlineEnabled(b[k]).Some? && HidesEntry(Split(InlineEnabled(b[k]).value, ','), v))
  {
    OnlyKey(b, k);
    FormsDiffer(b[k]);
    ListedAt(b, k, v);
    hide IsEnabled, IsNullEnabled, InlineEnabled, Keys, ListedIn, ListedUnder, HidesEntry, HidesAtTop, Split;
    forall j | 0 <= j < |b| && j != k ensures !HidesAt(b, j, v) && !HasEntry(b[j], v) && !IsEnabled(b[j]) {}
    assert HidesAt(b, k, v) ==> Hides(b, v);
  }

  lemma BlockWithoutKey(b: seq<string>, v: string)
    requires Keys(b) == 0
    ensures !EnabledBy(b, v) && (Hides(b, v) <==> ListedIn(b, v))
  {
    NoKeys(b);
    ListedExactly(b, v);
    hide IsEnabled, IsNullEnabled, InlineEnabled, Keys, ListedIn, ListedUnder, HidesEntry, Lists, IsSub;
    forall j | 0 <= j < |b| ensures !HidesAt(b, j, v) && !HasEntry(b[j], v) && !IsEnabled(b[j]) {}
  }

  // ---------------------------------------------------------------- an addition, in the block

  /** The enabled key is found again when the disabled list is thinned, with the same lines in its list. */
  lemma KeyStays(body: seq<string>, k: nat, name: string, v: string) returns (at: nat)
    requires k < |body| && IsEnabledKey(body[k])
    ensures var b := WithoutDisabled(body, name);
            at < |b| && b[at] == body[k] && ListedIn(b[at + 1..], v) == ListedIn(body[k + 1..], v)
  {
    var d := First(body, IsDisabled);
    EnabledKeyIsSub(body[k]);
    hide Lists, IsSub, DropListed, IsDisabled, IsEnabledKey, ListedIn, First;
    if d == |body| {
      at := k;
    } else if k < d {
      at := k;
      EnabledKeyIsSub(body[d]);
      ListBefore(body, k, d, body[..d + 1] + DropListed(body[d + 1..], name), v);
    } else {
      at := KeyAfter(body, k, d, name);
    }
  }

  lemma ListBefore(body: seq<string>, k: nat, d: nat, b: seq<string>, v: string)
    requires k < d < |body| && d < |b| && b[..d + 1] == body[..d + 1] && IsSub(body[d])
    ensures b[k] == body[k] && ListedIn(b[k + 1..], v) == ListedIn(body[k + 1..], v)
  {
    hide IsSub, ListedIn;
    var list := body[k + 1..d];
    assert b[k] == b[..d + 1][k] && b[d] == b[..d + 1][d];
    assert b[k + 1..d] == b[..d + 1][k + 1..d] == body[..d + 1][k + 1..d] == list;
    assert body[k + 1..] == list + body[d..] && b[k + 1..] == list + b[d..];
    ListEndsAtKey(list, body[d..], v);
    ListEndsAtKey(list, b[d..], v);
  }

  lemma KeyAfter(body: seq<string>, k: nat, d: nat, name: string) returns (at: nat)
    requires d < k < |body| && IsSub(body[k])
    ensures var b := body[..d + 1] + DropListed(body[d + 1..], name);
            at < |b| && b[at] == body[k] && b[at + 1..] == body[k + 1..]
  {
    hide Lists, IsSub, DropListed, Thinned;
    var rest := body[d + 1..];
    var n, kept := DropThins(rest, name);
    assert rest[k - d - 1] == body[k];
    at := d + 1 + |kept| + (k - d - 1 - n);
    TailOf(body[..d + 1] + kept, rest, n, k - d - 1);
    assert body[..d + 1] + (kept + rest[n..]) == body[..d + 1] + kept + rest[n..];
  }

  lemma TailOf(front: seq<string>, rest: seq<string>, n: nat, x: nat)
    requires n <= x < |rest|
    ensures var b := front + rest[n..]; b[|front| + x - n] == rest[x] && b[|front| + x - n + 1..] == rest[x + 1..]
  {
  }

  lemma TopStays(body: seq<string>, name: string, v: string)
    ensures ListedIn(WithoutDisabled(body, name), v) == ListedIn(body, v)
  {
    var d := First(body, IsDisabled);
    if d < |body| {
      EnabledKeyIsSub(body[d]);
      hide IsSub, DropListed, IsDisabled, ListedIn, First;
      var b := WithoutDisabled(body, name);
      assert body == body[..d] + body[d..] && b == body[..d] + b[d..];
      ListEndsAtKey(body[..d], body[d..], v);
      ListEndsAtKey(body[..d], b[d..], v);
    }
  }

  lemma ThinnedEnables(body: seq<string>, name: string, v: string)
    requires Keys(body) <= 1
    ensures var b := WithoutDisabled(body, name); EnabledBy(b, v) == EnabledBy(body, v) && Hides(b, v) == Hides(body, v)
  {
    DroppingDisabled(body, name);
    NoKeys(body);
    hide WithoutDisabled, Keys, EnabledBy, Hides, ListedIn, HasEntry, HidesEntry, Split, IsEnabled, InlineEnabled,
         IsEnabledKey, DisabledLists, NoTop;
    if k :| 0 <= k < |body| && IsEnabledKey(body[k]) {
      var at := KeyStays(body, k, name, v);
      BlockAtKey(body, k, v);
      BlockAtKey(WithoutDisabled(body, name), at, v);
    } else {
      BlockWithoutKey(body, v);
      BlockWithoutKey(WithoutDisabled(body, name), v);
      TopStays(body, name, v);
    }
  }

  /** What is enabled by a block-style key with items that stand where another key stood. */
  lemma ItemsEnable(u: seq<string>, h: string, values: seq<string>, w: seq<string>, v: string)
    requires IsEnabled(h) && Keys(u) == 0 && Keys(w) == 0
    ensures EnabledBy(u + [h] + (Items(values) + w), v) <==>
              (exists x :: x in values && Lists(Item(x), v)) || ListedIn(w, v)
  {
    ItemsArePlain(values);
    KeysConcat(Items(values), w);
    OneKey(u, h, Items(values) + w);
    FormsDiffer(h);
    ItemsNamed(values, w, v);
    hide Keys, IsEnabled, InlineEnabled, EnabledBy, Hides, ListedIn, Items, StillNames, Lists, HidesEntry, Split;
    var b := u + [h] + (Items(values) + w);
    assert b[|u|] == h && b[|u| + 1..] == Items(values) + w;
    BlockAtKey(b, |u|, v);
    forall x ensures StillNames(x, v) <==> Lists(Item(x), v) { ItemNames(x, v); }
  }

  /** An edit enables what was enabled or hidden, and beside it only what the item of the plugin names. */
  ghost predicate EnablesBeside(before: seq<string>, after: seq<string>, name: string, v: string) {
    && (EnabledBy(before, v) || Hides(before, v) ==> EnabledBy(after, v))
    && (EnabledBy(after, v) ==> Lists(Item(name), v) || EnabledBy(before, v) || Hides(before, v))
  }

  lemma BodyEnables(body: seq<string>, name: string, v: string)
    requires IsName(name) && IsName(v) && Keys(body) <= 1
    ensures EnablesBeside(body, AddToBody(body, name).lines, name, v)
  {
    AddIsEnable(body, name);
    DroppingDisabled(body, name);
    ThinnedEnables(body, name, v);
    hide AddToBody, Enable, WithoutDisabled, DisabledLists, Keys, NoTop, EnabledBy, Hides, IsName, Lists;
    var b := WithoutDisabled(body, name);
    NoKeys(b);
    hide IsEnabledKey;
    if k :| 0 <= k < |b| && IsEnabledKey(b[k]) {
      KeyEnables(b, k, name, DisabledLists(body, name), v);
    } else {
      NewKeyEnables(b, name, DisabledLists(body, name), v);
    }
  }

  lemma NewKeyEnables(b: seq<string>, name: string, changed: bool, v: string)
    requires IsName(name) && Keys(b) == 0
    ensures EnablesBeside(b, Enable(b, name, changed).lines, name, v)
  {
    EnableWithoutKey(b, name, changed);
    EnabledIsKey();
    BlockWithoutKey(b, v);
    hide IsEnabled, IsNullEnabled, InlineEnabled, Keys, EnabledBy, Hides, Lists, ListedIn, IsName, Items, Enable;
    ItemsEnable([], ENABLED, [name], b, v);
    OneItem([], ENABLED, name, b);
    assert [] + [ENABLED, Item(name)] + b == [ENABLED, Item(name)] + b;
    assert name in [name];
  }

  lemma EnableWithoutKey(b: seq<string>, name: string, changed: bool)
    requires Keys(b) == 0
    ensures Enable(b, name, changed).lines == [ENABLED, Item(name)] + b
  {
    NoKeys(b);
    hide IsEnabled, IsNullEnabled, InlineEnabled, Keys, First;
    FirstAt(b, IsEnabled, |b|);
    FirstAt(b, IsNullEnabled, |b|);
    FirstAt(b, IsInlineEnabled, |b|);
  }

  lemma KeyEnables(b: seq<string>, k: nat, name: string, changed: bool, v: string)
    requires IsName(name) && IsName(v) && Keys(b) <= 1 && k < |b| && IsEnabledKey(b[k])
    ensures EnablesBeside(b, Enable(b, name, changed).lines, name, v)
  {
    SplitKeys(b, k);
    hide *;
    if InlineEnabled(b[k]).Some? {
      InlineEnables(b, k, name, v);
      EnableInline(b, k, name, changed);
    } else {
      ListEnables(b, k, name, changed, v);
    }
  }

  lemma EnableInline(b: seq<string>, k: nat, name: string, changed: bool)
    requires Keys(b) <= 1 && k < |b| && IsEnabledKey(b[k]) && InlineEnabled(b[k]).Some?
    ensures Enable(b, name, changed).lines
         == b[..k] + [ENABLED] + Items(UniqueValues(ParseList(InlineEnabled(b[k]).value) + [name])) + b[k + 1..]
  {
    EnableAt(b, k, name, changed);
  }

  lemma EnableItem(b: seq<string>, k: nat, name: string, changed: bool)
    requires Keys(b) <= 1 && k < |b| && IsEnabledKey(b[k]) && InlineEnabled(b[k]).None?
    requires IsEnabled(b[k]) ==> !ListedIn(b[k + 1..], name)
    ensures Enable(b, name, changed).lines
         == b[..k] + [if IsEnabled(b[k]) then b[k] else ENABLED] + (Items([name]) + b[k + 1..])
  {
    EnableAt(b, k, name, changed);
    FormsDiffer(b[k]);
    hide IsEnabled, IsNullEnabled, InlineEnabled, Keys, ListedIn, Enable;
    OneItem(b[..k], if IsEnabled(b[k]) then b[k] else ENABLED, name, b[k + 1..]);
    assert b[..k] + [b[k]] == b[..k + 1];
  }

  lemma ListEnables(b: seq<string>, k: nat, name: string, changed: bool, v: string)
    requires Keys(b) <= 1 && k < |b| && IsEnabledKey(b[k]) && InlineEnabled(b[k]).None?
    requires Keys(b[..k]) == 0 && Keys(b[k + 1..]) == 0
    ensures EnablesBeside(b, Enable(b, name, changed).lines, name, v)
  {
    EnabledIsKey();
    hide *;
    if IsEnabled(b[k]) && ListedIn(b[k + 1..], name) {
      SameEnables(b, k, name, v);
      EnableNothing(b, k, name, changed);
    } else {
      OneEnables(b, k, if IsEnabled(b[k]) then b[k] else ENABLED, name, v);
      EnableItem(b, k, name, changed);
    }
  }

  lemma EnableNothing(b: seq<string>, k: nat, name: string, changed: bool)
    requires Keys(b) <= 1 && k < |b| && IsEnabled(b[k]) && ListedIn(b[k + 1..], name)
    ensures Enable(b, name, changed).lines == b
  {
    EnableAt(b, k, name, changed);
    FormsDiffer(b[k]);
  }

  lemma InlineEnables(b: seq<string>, k: nat, name: string, v: string)
    requires k < |b| && InlineEnabled(b[k]).Some? && IsName(v)
    requires Keys(b[..k]) == 0 && Keys(b[k + 1..]) == 0 && Keys(b) <= 1
    ensures var values := UniqueValues(ParseList(InlineEnabled(b[k]).value) + [name]);
            EnablesBeside(b, b[..k] + [ENABLED] + Items(values) + b[k + 1..], name, v)
  {
    EnabledIsKey();
    BlockAtKey(b, k, v);
    FormsDiffer(b[k]);
    hide IsEnabled, IsNullEnabled, InlineEnabled, Keys, EnabledBy, Hides, Lists, ListedIn, IsName, Items, HasEntry,
         HidesEntry, ParseList, UniqueValues, Split;
    var values := UniqueValues(ParseList(InlineEnabled(b[k]).value) + [name]);
    ItemsEnable(b[..k], ENABLED, values, b[k + 1..], v);
    Reassociate(b[..k] + [ENABLED], Items(values), b[k + 1..]);
    InlineNames(b[k], name, v);
  }

  lemma OneEnables(b: seq<string>, k: nat, h: string, name: string, v: string)
    requires IsEnabled(h) && k < |b| && Keys(b) <= 1 && Keys(b[..k]) == 0 && Keys(b[k + 1..]) == 0
    requires IsEnabledKey(b[k]) && InlineEnabled(b[k]).None?
    ensures EnablesBeside(b, b[..k] + [h] + (Items([name]) + b[k + 1..]), name, v)
  {
    BlockAtKey(b, k, v);
    NoEntry(b[k], v);
    hide IsEnabled, IsNullEnabled, InlineEnabled, Keys, EnabledBy, Hides, Lists, ListedIn, Items, HasEntry, HidesEntry,
         Split;
    ItemsEnable(b[..k], h, [name], b[k + 1..], v);
    assert name in [name];
  }

  lemma SameEnables(b: seq<string>, k: nat, name: string, v: string)
    requires k < |b| && IsEnabled(b[k]) && Keys(b) <= 1
    ensures EnablesBeside(b, b, name, v)
  {
    FormsDiffer(b[k]);
    BlockAtKey(b, k, v);
    hide IsEnabled, IsNullEnabled, InlineEnabled, Keys, EnabledBy, Hides, Lists, ListedIn;
  }

  lemma NoEntry(line: string, v: string)
    requires InlineEnabled(line).None?
    ensures !HasEntry(line, v)
  {
  }

  /** The items of an inline list name the values of its entries, what the entries hide, and the plugin. */
  lemma InlineNames(line: string, name: string, v: string)
    requires InlineEnabled(line).Some? && IsName(v)
    ensures (exists x :: x in UniqueValues(ParseList(InlineEnabled(line).value) + [name]) && Lists(Item(x), v)) <==>
              || Lists(Item(name), v) || HasEntry(line, v)
              || HidesEntry(Split(InlineEnabled(line).value, ','), v)
  {
    var entries := Split(InlineEnabled(line).value, ',');
    var values := UniqueValues(ParseList(InlineEnabled(line).value) + [name]);
    NamedEntries(entries, v);
    hide InlineEnabled, Lists, IsName, Split, ValueOf, Item, HidesEntry, UniqueValues, NotEmpty;
    var kept := NotEmpty(Values(entries));
    forall x ensures x in values <==> x == name || x in kept {
      assert x in kept + [name] <==> x in kept || x == name;
    }
    if x :| x in kept && Lists(Item(x), v) { assert x in values; }
    assert name in values;
  }

  lemma NamedEntries(entries: seq<string>, v: string)
    requires IsName(v)
    ensures (exists x :: x in NotEmpty(Values(entries)) && Lists(Item(x), v)) <==>
              (exists e :: e in entries && ValueOf(e) == v) || HidesEntry(entries, v)
  {
    ItemIsPlain(v);
    ItemNames("", v);
    assert !StillNames("", v);
    hide Lists, ValueOf, Item, NotEmpty, StillNames;
    var kept := NotEmpty(Values(entries));
    forall x ensures x in kept <==> x != "" && exists e :: e in entries && ValueOf(e) == x {
      ValueIsOfEntry(entries, x);
    }
    if x :| x in kept && Lists(Item(x), v) {
      var e :| e in entries && ValueOf(e) == x;
    }
    if e :| e in entries && ValueOf(e) == v { assert v in kept; }
    if HidesEntry(entries, v) {
      var e :| e in entries && ValueOf(e) != v && Lists(Item(ValueOf(e)), v);
      assert ValueOf(e) in kept;
    }
  }

  // ---------------------------------------------------------------- the document

  ghost predicate HasMapEntry(line: string, v: string) {
    PluginsMap(line).Some? && v != "" && exists e :: e in Split(PluginsMap(line).value, ',') && ValueOf(e) == v
  }

  /** The configuration enables the plugin. */
  ghost predicate Enables(lines: seq<string>, v: string) {
    exists h: nat, e: nat ::
      OpensBlock(lines, h) && IsBlockEnd(lines, h, e)
      && if IsPlugins(lines[h]) then EnabledBy(lines[h + 1..e], v) else HasMapEntry(lines[h], v)
  }

  /** The plugin is not enabled, and comes to be when the form of the block changes. */
  ghost predicate HidesPlugin(lines: seq<string>, v: string) {
    exists h: nat, e: nat :: OpensBlock(lines, h) && IsBlockEnd(lines, h, e) && HidesBelow(lines, h, e, v)
  }

  ghost predicate HidesBelow(lines: seq<string>, h: nat, e: nat, v: string)
    requires h < e <= |lines|
  {
    var below := lines[h + 1..e];
    if IsPlugins(lines[h]) then Hides(below, v)
    else if PluginsMap(lines[h]).Some? then
      HidesAtTop(below, v) || HidesEntry(Split(PluginsMap(lines[h]).value, ','), v)
    else EnabledBy(below, v) || Hides(below, v)
  }

  lemma OpensOnce(lines: seq<string>, h: nat, g: nat)
    requires OpensBlock(lines, h) && OpensBlock(lines, g)
    ensures h == g
  {
    hide IsPlugins, IsEmptyMap, PluginsMap;
  }

  lemma AtHeader(lines: seq<string>, h: nat, v: string)
    requires OpensBlock(lines, h)
    ensures var e := BlockEnd(lines, h);
            && h < |lines|
            && (Enables(lines, v) <==>
                  if IsPlugins(lines[h]) then EnabledBy(lines[h + 1..e], v) else HasMapEntry(lines[h], v))
            && (HidesPlugin(lines, v) <==> HidesBelow(lines, h, e, v))
  {
    BlockEndExactly(lines, h);
    forall g: nat, e: nat | OpensBlock(lines, g) && IsBlockEnd(lines, g, e)
      ensures g == h && e == BlockEnd(lines, h)
    {
      OpensOnce(lines, g, h);
      BlockEndIsUnique(lines, h, e);
    }
    assert h < |lines|;
    hide OpensBlock, IsBlockEnd, IsPlugins, EnabledBy, HasMapEntry, HidesBelow, BlockEnd;
  }

  lemma NoHeaderEnables(lines: seq<string>, v: string)
    requires Locate(lines).None?
    ensures !Enables(lines, v) && !HidesPlugin(lines, v)
  {
    forall h: nat | OpensBlock(lines, h) ensures false {
      HeaderIsLocated(lines, h);
    }
    hide OpensBlock, IsBlockEnd, IsPlugins, EnabledBy, HasMapEntry, HidesBelow, Locate;
  }

  lemma HeaderIsLocated(lines: seq<string>, h: nat)
    requires OpensBlock(lines, h)
    ensures Locate(lines).Some?
  {
    hide IsPlugins, IsEmptyMap, PluginsMap;
    if IsPlugins(lines[h]) { assert First(lines, IsPlugins) <= h; }
    else if IsEmptyMap(lines[h]) { assert First(lines, IsEmptyMap) <= h; }
    else {
      assert IsInlineMap(lines[h]);
      assert First(lines, IsInlineMap) <= h;
    }
  }

  /** The located block enables what the document enables, and for the inline forms what the lines below hide. */
  lemma LocatedEnables(lines: seq<string>, v: string)
    requires Locate(lines).Some? && OneEnabledKey(lines) && IsName(v)
    ensures var l, h := Locate(lines).value.lines, Locate(lines).value.header;
            h < |l| && ((EnabledBy(Body(l, h), v) || Hides(Body(l, h), v)) <==>
                          (Enables(lines, v) || HidesPlugin(lines, v)))
  {
    LocatedExactly(lines);
    LocatedHeader(lines);
    var l, h := Locate(lines).value.lines, Locate(lines).value.header;
    var below, block := lines[h + 1..BlockEnd(lines, h)], Body(l, h);
    AtHeader(lines, h, v);
    hide Locate, OpensBlock, IsPlugins, IsEmptyMap, PluginsMap, EnabledBy, Hides, BlockEnd, Body, HasMapEntry,
         HidesAtTop, HidesEntry, Split, IsName, Enables, HidesPlugin, KeptValues, Items, Keys;
    if !IsPlugins(lines[h]) {
      if PluginsMap(lines[h]).Some? {
        MapIsNoOtherForm(lines[h]);
        var values :| KeptValues(Split(PluginsMap(lines[h]).value, ','), values, {""})
                      && block == [ENABLED] + Items(values) + below;
        MapBlockEnables(lines[h], values, below, v);
      } else {
        assert !HasMapEntry(lines[h], v) by { NoMapEntry(lines[h], v); }
      }
    }
  }

  lemma NoMapEntry(line: string, v: string)
    requires PluginsMap(line).None?
    ensures !HasMapEntry(line, v)
  {
  }

  lemma {:induction false} KeptAreNotEmpty(entries: seq<string>, values: seq<string>)
    requires KeptValues(entries, values, {""})
    ensures values == NotEmpty(Values(entries))
    decreases |entries|
  {
    hide ValueOf;
    if entries != [] {
      FirstEntry(entries);
      var kept := NotEmpty(Values(entries));
      if ValueOf(entries[0]) == "" {
        KeptAreNotEmpty(entries[1..], values);
      } else {
        KeptAreNotEmpty(entries[1..], values[1..]);
        assert values == [values[0]] + values[1..] && kept == [kept[0]] + kept[1..];
      }
    }
  }

  lemma MapBlockEnables(line: string, values: seq<string>, below: seq<string>, v: string)
    requires PluginsMap(line).Some? && IsName(v) && KeptValues(Split(PluginsMap(line).value, ','), values, {""})
    requires Keys([ENABLED] + Items(values) + below) <= 1
    ensures var b := [ENABLED] + Items(values) + below;
            (EnabledBy(b, v) || Hides(b, v)) <==>
              HasMapEntry(line, v) || HidesAtTop(below, v) || HidesEntry(Split(PluginsMap(line).value, ','), v)
  {
    var entries := Split(PluginsMap(line).value, ',');
    EnabledIsKey();
    FormsDiffer(ENABLED);
    KeptAreNotEmpty(entries, values);
    NamedEntries(entries, v);
    ListedExactly(below, v);
    var b := [ENABLED] + (Items(values) + below);
    assert b == [ENABLED] + Items(values) + below && [] + [ENABLED] + (Items(values) + below) == b;
    assert b[1..] == Items(values) + below;
    hide PluginsMap, Keys, IsEnabled, InlineEnabled, IsNullEnabled, EnabledBy, Hides, ListedIn, Items, Lists, IsName,
         Split, NotEmpty, ValueOf, HidesEntry, Item, KeptValues, IsSub;
    SplitKeys(b, 0);
    KeysConcat(Items(values), below);
    BlockAtKey(b, 0, v);
    ItemsEnable([], ENABLED, values, below, v);
    assert HasMapEntry(line, v) <==> exists e :: e in entries && ValueOf(e) == v by { NameIsNotEmpty(v); }
  }

  lemma NameIsNotEmpty(v: string)
    requires IsName(v)
    ensures v != ""
  {
  }

  /** An addition enables the plugin, keeps every plugin that is enabled, and beside them enables only hidden ones. */
  ghost predicate AddsBeside(before: seq<string>, after: seq<string>, name: string, v: string) {
    && (Enables(before, v) || HidesPlugin(before, v) ==> Enables(after, v))
    && (Enables(after, v) ==> Lists(Item(name), v) || Enables(before, v) || HidesPlugin(before, v))
  }

  lemma AddKeepsOthers(lines: seq<string>, name: string, v: string)
    requires IsName(name) && IsName(v) && OneEnabledKey(lines)
    ensures AddsBeside(lines, AddLines(lines, name).lines, name, v)
  {
    hide *;
    if Locate(lines).Some? {
      LocatedAdds(lines, name, v);
    } else {
      AppendedAdds(lines, name, v);
    }
  }

  lemma LocatedAdds(lines: seq<string>, name: string, v: string)
    requires IsName(name) && IsName(v) && OneEnabledKey(lines) && Locate(lines).Some?
    ensures AddsBeside(lines, AddLines(lines, name).lines, name, v)
  {
    LocatedHeader(lines);
    LocatedEnables(lines, v);
    hide AddToBody, NoTop, HasPlugin, Keys, Body, Locate, IsPlugins, IsName, Enables, HidesPlugin, EnabledBy, Hides,
         Lists, WithBody;
    var l, h := Locate(lines).value.lines, Locate(lines).value.header;
    BodyEnables(Body(l, h), name, v);
    EditedEnables(l, h, Body(l, h), name, v);
  }

  lemma EditedEnables(l: seq<string>, h: nat, body: seq<string>, name: string, v: string)
    requires h < |l| && IsPlugins(l[h]) && (forall i :: 0 <= i < h ==> !IsPlugins(l[i])) && IsName(name)
    requires body == Body(l, h) && Keys(body) <= 1
    ensures Enables(WithBody(l, h, AddToBody(body, name).lines), v) <==> EnabledBy(AddToBody(body, name).lines, v)
  {
    BodyHasNoTop(l, h);
    BodyIsSettled(body, name);
    hide AddToBody, NoTop, HasPlugin, Keys, IsPlugins, IsName, EnabledBy, Enables, Body, Locate, WithBody;
    var edited := AddToBody(body, name).lines;
    RebuiltBody(l, h, edited);
    BlockStyleEnables(WithBody(l, h, edited), h, v);
  }

  lemma BlockStyleEnables(lines: seq<string>, h: nat, v: string)
    requires Locate(lines) == Some(Located(lines, h))
    ensures h < |lines| && (Enables(lines, v) <==> EnabledBy(Body(lines, h), v))
  {
    LocatedHeader(lines);
    hide Locate, IsPlugins, EnabledBy, Enables, BlockEnd;
    AtHeader(lines, h, v);
  }

  lemma AppendedAdds(lines: seq<string>, name: string, v: string)
    requires IsName(name) && Locate(lines).None?
    ensures AddsBeside(lines, AddLines(lines, name).lines, name, v)
  {
    NoHeaderEnables(lines, v);
    var front := FrontOf(lines);
    AppendedHeader(lines, front, name);
    EmptyBody(name);
    assert AddLines(lines, name) == Edit(Appended(lines, name), true);
    hide AddLines, AddToBody, Locate, First, IsPlugins, IsName, SkipBlanks, Body, BlockEnd, Enables, HidesPlugin,
         EnabledBy, Lists, Keys, WithBody;
    BodyAtEnd(front, PLUGINS, ENABLED, Item(name));
    assert Keys([]) == 0 by { NoKeys([]); }
    EditedEnables(front + [PLUGINS], |front|, [], name, v);
    assert front + [PLUGINS, ENABLED, Item(name)] == Appended(lines, name);
    AppendedBlock(name, v);
  }

  lemma AppendedBlock(name: string, v: string)
    ensures EnabledBy([ENABLED, Item(name)], v) <==> Lists(Item(name), v)
  {
    EnabledIsKey();
    NoKeys([]);
    OneItem([], ENABLED, name, []);
    hide Lists, EnabledBy, IsEnabled, ListedIn, Items, Keys;
    assert [] + [ENABLED] + (Items([name]) + []) == [ENABLED, Item(name)] by {
      assert [] + [ENABLED, Item(name)] + [] == [ENABLED, Item(name)];
    }
    ItemsEnable([], ENABLED, [name], [], v);
    assert !ListedIn([], v) by { NothingListed(v); }
    assert name in [name];
  }

  lemma NothingListed(v: string)
    ensures !ListedIn([], v)
  {
  }

  // ---------------------------------------------------------------- bare names

  /** A name without blanks, quotes and comment signs, as both plugins of the installers have. */
  predicate IsBare(name: string) {
    name != "" && forall i :: 0 <= i < |name| ==> !IsBlank(name[i]) && !IsQuote(name[i]) && name[i] != '#'
  }

  lemma BareIsAll(s: string, v: string, name: string)
    requires IsNameAndTail(s, v) && IsNameAndTail(s, name) && IsBare(v) && IsBare(name)
    ensures v == name
  {
    if |v| < |name| { assert s[|v|] == name[|v|]; TailStarts(s, v); }
    if |name| < |v| { assert s[|name|] == v[|name|]; TailStarts(s, name); }
    assert s[..|v|] == v && s[..|name|] == name;
  }

  lemma TailStarts(s: string, name: string)
    requires IsNameAndTail(s, name) && |s| > |name|
    ensures IsBlank(s[|name|]) || IsQuote(s[|name|]) || s[|name|] == '#'
  {
    assert s[|name|..][0] == s[|name|];
  }

  /** A line lists at most one bare name. */
  lemma BareAlone(line: string, v: string, name: string)
    requires Lists(line, v) && Lists(line, name) && IsBare(v) && IsBare(name)
    ensures v == name
  {
    var item := SkipBlanks(SkipBlanks(line)[1..]);
    hide SkipBlanks, IsTail, IsNameAndTail;
    if IsNameAndTail(item, v) && IsNameAndTail(item, name) {
      BareIsAll(item, v, name);
    } else if IsNameAndTail(item, v) {
      StartsWithName(item, v);
    } else if IsNameAndTail(item, name) {
      StartsWithName(item, name);
    } else {
      BareIsAll(item[1..], v, name);
    }
  }

  lemma StartsWithName(s: string, name: string)
    requires IsNameAndTail(s, name) && IsBare(name)
    ensures s != "" && !IsQuote(s[0])
  {
  }

  lemma BareItem(name: string, v: string)
    requires IsBare(name) && IsName(v)
    ensures Lists(Item(name), v) <==> v == name
  {
    ItemIsPlain(v);
    ItemNames(name, v);
    if StillNames(name, v) && v != name {
      assert SkipBlanks(name) == name;
      assert IsNameAndTail(name, v);
      if |v| < |name| { TailStarts(name, v); }
    }
  }

  lemma BareIsName(name: string)
    requires IsBare(name)
    ensures IsName(name)
  {
  }

  /** After an addition exactly the plugin, the enabled plugins and the hidden ones are enabled. */
  lemma AddEnablesExactly(lines: seq<string>, name: string, v: string)
    requires IsBare(name) && IsName(v) && OneEnabledKey(lines)
    ensures Enables(AddLines(lines, name).lines, v) <==> v == name || Enables(lines, v) || HidesPlugin(lines, v)
  {
    BareIsName(name);
    BareItem(name, v);
    AddKeepsOthers(lines, name, v);
    AddKeepsOthers(lines, name, name);
    hide IsBare, IsName, OneEnabledKey, AddLines, Enables, HidesPlugin, Lists;
    if v == name { AddEnables(lines, name); }
  }

  lemma AddEnables(lines: seq<string>, name: string)
    requires IsName(name) && OneEnabledKey(lines)
    ensures Enables(AddLines(lines, name).lines, name)
  {
    AddIsSettled(lines, name);
    var after := AddLines(lines, name).lines;
    hide OneEnabledKey, AddLines, Enables, Locate, Keys, IsName, Body;
    var h := Locate(after).value.header;
    BlockStyleEnables(after, h, name);
    PluginIsEnabledBy(Body(after, h), name);
  }

  lemma PluginIsEnabledBy(body: seq<string>, name: string)
    requires HasPlugin(body, name)
    ensures EnabledBy(body, name)
  {
    hide IsEnabled, ListedIn, DisabledLists, ListedUnder, HasEntry;
    ListedAt(body, First(body, IsEnabled), name);
  }

  // ---------------------------------------------------------------- a removal

  lemma {:induction false} DropKeepsOthers(lines: seq<string>, name: string, v: string)
    requires IsBare(v) && IsBare(name) && v != name
    ensures ListedIn(DropListed(lines, name), v) == ListedIn(lines, v)
    decreases |lines|
  {
    hide Lists, IsSub, IsBare;
    if lines != [] && !IsSub(lines[0]) {
      var rest := DropListed(lines[1..], name);
      DropKeepsOthers(lines[1..], name, v);
      if Lists(lines[0], name) {
        if Lists(lines[0], v) { BareAlone(lines[0], v, name); }
        assert [] + rest == rest;
      } else {
        assert ([lines[0]] + rest)[1..] == rest;
      }
    }
  }

  /** A removal leaves enabled what was enabled, the plugin apart; a rewritten inline list shows what it hid. */
  lemma BodyRemoves(body: seq<string>, name: string, v: string)
    requires IsBare(name) && IsBare(v) && v != name && Keys(body) <= 1
    requires First(body, IsInlineEnabled) < |body| || First(body, IsEnabled) < |body|
    ensures EnabledBy(RemoveFromBody(body, name).lines, v) <==> EnabledBy(body, v) || Hides(body, v)
    ensures NoTop(body) ==> NoTop(RemoveFromBody(body, name).lines)
  {
    hide IsEnabled, InlineEnabled, IsBare, Keys, ListedIn, Items, DropListed, Hides, EnabledBy, IsTop, ParseList;
    var i, k := First(body, IsInlineEnabled), First(body, IsEnabled);
    if i < |body| {
      InlineForm(body[i]);
      InlineRemoves(body, i, name, v);
      Reassociate(body[..i] + [ENABLED], Items(Without(ParseList(InlineEnabled(body[i]).value), name)), body[i + 1..]);
    } else {
      ListRemoves(body, k, name, v);
      RemovalLeavesNone(body, name);
    }
  }

  lemma InlineRemoves(body: seq<string>, i: nat, name: string, v: string)
    requires IsBare(name) && IsBare(v) && v != name && Keys(body) <= 1
    requires i < |body| && InlineEnabled(body[i]).Some?
    ensures var kept := Without(ParseList(InlineEnabled(body[i]).value), name);
            var after := body[..i] + [ENABLED] + (Items(kept) + body[i + 1..]);
            && (EnabledBy(after, v) <==> EnabledBy(body, v) || Hides(body, v))
            && (NoTop(body) ==> NoTop(after))
  {
    var entries := Split(InlineEnabled(body[i]).value, ',');
    var kept := Without(ParseList(InlineEnabled(body[i]).value), name);
    EnabledIsKey();
    FormsDiffer(body[i]);
    SplitKeys(body, i);
    BareIsName(v);
    ItemsArePlain(kept);
    BareItem(name, v);
    BlockAtKey(body, i, v);
    NamedEntries(entries, v);
    hide IsEnabled, IsNullEnabled, InlineEnabled, Keys, EnabledBy, Hides, Lists, ListedIn, IsName, Items, HidesEntry,
         Split, IsBare, NotEmpty, Without, ValueOf, Item, IsTop;
    NoTopParts(body, i, ENABLED, Items(kept));
    ItemsEnable(body[..i], ENABLED, kept, body[i + 1..], v);
    assert HasEntry(body[i], v) <==> exists e :: e in entries && ValueOf(e) == v by { NameIsNotEmpty(v); }
  }

  lemma ListRemoves(body: seq<string>, k: nat, name: string, v: string)
    requires IsBare(name) && IsBare(v) && v != name && Keys(body) <= 1 && k < |body| && IsEnabled(body[k])
    ensures EnabledBy(body[..k + 1] + DropListed(body[k + 1..], name), v) <==> EnabledBy(body, v) || Hides(body, v)
  {
    FormsDiffer(body[k]);
    SplitKeys(body, k);
    BlockAtKey(body, k, v);
    DropMeaning(body[k + 1..], name);
    DropKeepsOthers(body[k + 1..], name, v);
    NoEntry(body[k], v);
    hide IsEnabled, IsNullEnabled, InlineEnabled, Keys, EnabledBy, Hides, ListedIn, IsBare, DropListed, HasEntry,
         HidesEntry, Split;
    var rest := DropListed(body[k + 1..], name);
    var after := body[..k + 1] + rest;
    assert body[..k + 1] == body[..k] + [body[k]];
    OneKey(body[..k], body[k], rest);
    assert after[k] == body[k] && after[k + 1..] == rest;
    BlockAtKey(after, k, v);
  }

  /** The block that a removal finds has at most one enabled key. */
  predicate OneKeyForRemoval(lines: seq<string>) {
    var at := LocateForRemoval(lines);
    at.Some? && at.value.header < |at.value.lines| ==> Keys(Body(at.value.lines, at.value.header)) <= 1
  }

  /** The removal does not look for the empty map; another header is found first, or none is there. */
  ghost predicate HasOneHeader(lines: seq<string>) {
    || (exists j :: 0 <= j < |lines| && IsPlugins(lines[j]))
    || forall j :: 0 <= j < |lines| ==> !IsEmptyMap(lines[j])
  }

  /**
   A removal keeps every other bare name enabled. It enables no other, but for those that an inline form hid; two
   inline headers apart.
   */
  lemma RemoveKeepsOthers(lines: seq<string>, name: string, v: string)
    requires IsBare(name) && IsBare(v) && v != name && OneKeyForRemoval(lines)
    ensures Enables(lines, v) ==> Enables(RemoveLines(lines, name).lines, v)
    ensures HasOneHeader(lines) ==>
              (Enables(RemoveLines(lines, name).lines, v) <==>
               Enables(lines, v) || (RemovalApplies(lines) && HidesPlugin(lines, v)))
  {
    hide *;
    if RemovalApplies(lines) {
      RemovalEnables(lines, name, v);
      OneHeaderLocates(lines);
      BareIsName(v);
      if LocateForRemoval(lines) == Locate(lines) {
        OneKeyEither(lines);
        LocatedEnables(lines, v);
        LocatedHeader(lines);
      } else {
        EmptyMapEnablesNone(lines, v);
      }
    } else {
      NothingRemoved(lines, name);
    }
  }

  lemma NothingRemoved(lines: seq<string>, name: string)
    requires !RemovalApplies(lines)
    ensures RemoveLines(lines, name).lines == lines
  {
  }

  lemma OneKeyEither(lines: seq<string>)
    requires OneKeyForRemoval(lines) && LocateForRemoval(lines) == Locate(lines)
    ensures OneEnabledKey(lines)
  {
    hide Locate, LocateForRemoval, Keys, Body;
  }

  lemma OneHeaderLocates(lines: seq<string>)
    requires RemovalApplies(lines)
    ensures LocateForRemoval(lines).Some? && Locate(lines).Some?
    ensures HasOneHeader(lines) ==> LocateForRemoval(lines) == Locate(lines)
    ensures LocateForRemoval(lines) != Locate(lines) ==>
              First(lines, IsPlugins) == |lines| && First(lines, IsEmptyMap) < |lines|
  {
    hide IsPlugins, IsEmptyMap, PluginsMap, ExpandMap, Body, IsEnabled, InlineEnabled;
    if j :| 0 <= j < |lines| && IsPlugins(lines[j]) { assert First(lines, IsPlugins) <= j; }
  }

  lemma EmptyMapEnablesNone(lines: seq<string>, v: string)
    requires First(lines, IsPlugins) == |lines| && First(lines, IsEmptyMap) < |lines|
    ensures !Enables(lines, v)
  {
    var q := First(lines, IsEmptyMap);
    assert OpensBlock(lines, q) by { hide IsPlugins, IsEmptyMap, PluginsMap; }
    if PluginsMap(lines[q]).Some? { MapIsNoOtherForm(lines[q]); }
    NoMapEntry(lines[q], v);
    AtHeader(lines, q, v);
    hide IsPlugins, IsEmptyMap, PluginsMap, Enables, HidesPlugin, HasMapEntry, EnabledBy;
  }

  lemma RemovalEnables(lines: seq<string>, name: string, v: string)
    requires IsBare(name) && IsBare(v) && v != name && OneKeyForRemoval(lines) && RemovalApplies(lines)
    ensures var l, h := LocateForRemoval(lines).value.lines, LocateForRemoval(lines).value.header;
            Enables(RemoveLines(lines, name).lines, v) <==> EnabledBy(Body(l, h), v) || Hides(Body(l, h), v)
  {
    RemovalHeader(lines);
    hide IsBare, LocateForRemoval, IsPlugins, Keys, RemoveFromBody, Body, EnabledBy, Hides, Enables, First, NoTop,
         WithBody, Locate;
    var l, h := LocateForRemoval(lines).value.lines, LocateForRemoval(lines).value.header;
    BodyHasNoTop(l, h);
    BodyRemoves(Body(l, h), name, v);
    var edited := RemoveFromBody(Body(l, h), name).lines;
    RebuiltBody(l, h, edited);
    BlockStyleEnables(WithBody(l, h, edited), h, v);
  }

  lemma RemovalHeader(lines: seq<string>)
    requires LocateForRemoval(lines).Some?
    ensures var l, h := LocateForRemoval(lines).value.lines, LocateForRemoval(lines).value.header;
            h < |l| && IsPlugins(l[h]) && forall i :: 0 <= i < h ==> !IsPlugins(l[i])
  {
    EnabledIsKey();
    hide IsPlugins, PluginsMap, Items;
  }

  // ---------------------------------------------------------------- on texts

  /** On texts: exactly the plugin, the enabled plugins and the hidden ones are enabled after an addition. */
  lemma TextAddEnablesExactly(source: string, name: string, v: string)
    requires IsLineText(source) && IsPlain(name) && IsBare(name) && IsName(v) && OneEnabledKey(Read(source).lines)
    ensures var before, after := Read(source).lines, Read(AddText(source, name).text).lines;
            Enables(after, v) <==> v == name || Enables(before, v) || HidesPlugin(before, v)
  {
    hide *;
    AddReads(source, name);
    AddEnablesExactly(Read(source).lines, name, v);
  }

  /** On texts: every other plugin stays enabled, whatever the names are. */
  lemma TextAddKeepsOthers(source: string, name: string, v: string)
    requires IsLineText(source) && IsPlain(name) && IsName(name) && IsName(v) && OneEnabledKey(Read(source).lines)
    ensures Enables(Read(source).lines, v) ==> Enables(Read(AddText(source, name).text).lines, v)
  {
    hide *;
    AddReads(source, name);
    AddKeepsOthers(Read(source).lines, name, v);
    BesideKeeps(Read(source).lines, AddLines(Read(source).lines, name).lines, name, v);
  }

  lemma BesideKeeps(before: seq<string>, after: seq<string>, name: string, v: string)
    requires AddsBeside(before, after, name, v)
    ensures Enables(before, v) ==> Enables(after, v)
  {
    hide Enables, HidesPlugin, Lists;
  }

  /** On texts: which lines an addition changes, and when it reports a change. */
  lemma TextAddExactly(source: string, name: string)
    requires IsLineText(source) && IsPlain(name) && name != "" && OneEnabledKey(Read(source).lines)
    ensures var after := AddText(source, name);
            AddedTo(Read(source).lines, Edit(Read(after.text).lines, after.changed), name)
  {
    hide AddedTo, AddLines, Read, JoinLines, OneEnabledKey, IsLineText, IsPlain;
    AddReads(source, name);
    AddExactly(Read(source).lines, name);
  }

  /** On texts: a removal keeps every other bare name enabled. */
  lemma TextRemoveKeepsOthers(source: string, name: string, v: string)
    requires IsLineText(source) && IsBare(name) && IsBare(v) && v != name && OneKeyForRemoval(Read(source).lines)
    ensures var before, after := Read(source).lines, Read(RemoveText(source, name).text).lines;
            && (Enables(before, v) ==> Enables(after, v))
            && (HasOneHeader(before) ==>
                  (Enables(after, v) <==> Enables(before, v) || (RemovalApplies(before) && HidesPlugin(before, v))))
  {
    hide *;
    RemoveReads(source, name);
    RemoveKeepsOthers(Read(source).lines, name, v);
  }

  /** On texts: which lines a removal changes, and when it reports a change. */
  lemma TextRemoveExactly(source: string, name: string)
    requires IsLineText(source)
    ensures var after := RemoveText(source, name);
            RemovedFrom(Read(source).lines, Edit(Read(after.text).lines, after.changed), name)
  {
    hide RemovedFrom, RemoveLines, Read, JoinLines, IsLineText, RemovalApplies;
    RemoveReads(source, name);
    RemoveExactly(Read(source).lines, name);
  }
}
