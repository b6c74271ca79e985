/**
 packages/cli/src/installers.ts: which lines an addition and a removal change, said line by line: entries go from the
 disabled list, the enabled key is rewritten or given an item, and every other line stays in its place.
 */
module PluginLines {
  import opened Prelude
  import opened PluginYaml
  import opened PluginEditor

  // ---------------------------------------------------------------- lists of the block

  /** The list under the key at `k` ends at `e`: at the next key or with the block. */
  ghost predicate EndsList(body: seq<string>, k: nat, e: nat) {
    k < e <= |body| && (forall j :: k < j < e ==> !IsSub(body[j])) && (e < |body| ==> IsSub(body[e]))
  }

  /** A line of the list under the key at `k` names the plugin. */
  ghost predicate ListedUnder(body: seq<string>, k: nat, name: string) {
    exists j :: k < j < |body| && Lists(body[j], name) && forall m :: k < m <= j ==> !IsSub(body[m])
  }

  /** Lines without those that name the plugin; the others in their order. */
  ghost predicate Thinned(lines: seq<string>, kept: seq<string>, name: string) {
    if lines == [] then kept == []
    else if Lists(lines[0], name) then Thinned(lines[1..], kept, name)
    else kept != [] && kept[0] == lines[0] && Thinned(lines[1..], kept[1..], name)
  }

  /** The list under the key at `k` loses the lines that name the plugin. */
  ghost predicate WithoutListed(body: seq<string>, k: nat, after: seq<string>, name: string) {
    exists e: nat, kept: seq<string> :: IsThinnedList(body, k, e, kept, after, name)
  }

  ghost predicate IsThinnedList(body: seq<string>, k: nat, e: nat, kept: seq<string>, after: seq<string>,
                                name: string) {
    EndsList(body, k, e) && Thinned(body[k + 1..e], kept, name) && after == body[..k + 1] + kept + body[e..]
  }

  lemma {:induction false} ListedExactly(lines: seq<string>, name: string)
    ensures ListedIn(lines, name) <==>
              exists j :: 0 <= j < |lines| && Lists(lines[j], name) && forall m :: 0 <= m <= j ==> !IsSub(lines[m])
    decreases |lines|
  {
    hide Lists, IsSub;
    if lines != [] {
      var rest := lines[1..];
      ListedExactly(rest, name);
      assert forall j :: 0 <= j < |rest| ==> rest[j] == lines[j + 1];
      if ListedIn(lines, name) && !Lists(lines[0], name) {
        var j :| 0 <= j < |rest| && Lists(rest[j], name) && forall m :: 0 <= m <= j ==> !IsSub(rest[m]);
        assert Lists(lines[j + 1], name);
        forall m | 0 <= m <= j + 1 ensures !IsSub(lines[m]) { if m > 0 { assert lines[m] == rest[m - 1]; } }
      }
      if j :| 0 <= j < |lines| && Lists(lines[j], name) && forall m :: 0 <= m <= j ==> !IsSub(lines[m]) {
        assert !IsSub(lines[0]);
        if j > 0 { assert Lists(rest[j - 1], name); }
      }
    }
  }

  lemma ListedAt(body: seq<string>, k: nat, name: string)
    requires k < |body|
    ensures ListedIn(body[k + 1..], name) <==> ListedUnder(body, k, name)
  {
    var rest := body[k + 1..];
    ListedExactly(rest, name);
    hide Lists, IsSub, ListedIn;
    assert forall j :: 0 <= j < |rest| ==> rest[j] == body[k + 1 + j];
    if j :| 0 <= j < |rest| && Lists(rest[j], name) && forall m :: 0 <= m <= j ==> !IsSub(rest[m]) {
      forall m | k < m <= k + 1 + j ensures !IsSub(body[m]) { assert body[m] == rest[m - k - 1]; }
      assert Lists(body[k + 1 + j], name);
    }
    if j :| k < j < |body| && Lists(body[j], name) && forall m :: k < m <= j ==> !IsSub(body[m]) {
      assert Lists(rest[j - k - 1], name);
    }
  }

  lemma {:induction false} DropThins(lines: seq<string>, name: string) returns (e: nat, kept: seq<string>)
    ensures e <= |lines| && (forall j :: 0 <= j < e ==> !IsSub(lines[j])) && (e < |lines| ==> IsSub(lines[e]))
    ensures Thinned(lines[..e], kept, name) && DropListed(lines, name) == kept + lines[e..]
    decreases |lines|
  {
    hide Lists, IsSub;
    if lines == [] || IsSub(lines[0]) {
      e, kept := 0, [];
    } else {
      var rest, below := DropThins(lines[1..], name);
      e := rest + 1;
      kept := (if Lists(lines[0], name) then [] else [lines[0]]) + below;
      assert lines[..e][1..] == lines[1..][..rest] && lines[1..][rest..] == lines[e..];
      assert kept[|kept| - |below|..] == below;
      forall j | 0 <= j < e ensures !IsSub(lines[j]) { if j > 0 { assert lines[j] == lines[1..][j - 1]; } }
    }
  }

  lemma DropAt(body: seq<string>, k: nat, name: string)
    requires k < |body|
    ensures WithoutListed(body, k, body[..k + 1] + DropListed(body[k + 1..], name), name)
  {
    hide Lists, IsSub, DropListed, Thinned;
    var rest := body[k + 1..];
    var n, kept := DropThins(rest, name);
    var e := k + 1 + n;
    forall j | k < j < e ensures !IsSub(body[j]) { assert body[j] == rest[j - k - 1]; }
    assert rest[..n] == body[k + 1..e] && rest[n..] == body[e..];
    assert e < |body| ==> body[e] == rest[n];
    assert body[..k + 1] + (kept + body[e..]) == body[..k + 1] + kept + body[e..];
    assert IsThinnedList(body, k, e, kept, body[..k + 1] + DropListed(rest, name), name);
  }

  // ---------------------------------------------------------------- values of an inline list

  /** The values of the entries in their order, without the dropped ones. */
  ghost predicate KeptValues(entries: seq<string>, values: seq<string>, dropped: set<string>) {
    if entries == [] then values == []
    else if ValueOf(entries[0]) in dropped then KeptValues(entries[1..], values, dropped)
    else values != [] && values[0] == ValueOf(entries[0]) && KeptValues(entries[1..], values[1..], dropped)
  }

  /** The value comes before every entry of the other value. */
  ghost predicate ComesFirst(entries: seq<string>, value: string, other: string) {
    forall y :: 0 <= y < |entries| && ValueOf(entries[y]) == other ==>
                  exists x :: 0 <= x < y && ValueOf(entries[x]) == value
  }

  /** Every value of the entries and the plugin, once, in the order of the entries; a new plugin comes last. */
  ghost predicate Merged(values: seq<string>, entries: seq<string>, name: string) {
    && (forall v :: v in values <==> v == name || (v != "" && exists e :: e in entries && ValueOf(e) == v))
    && (forall i, j :: 0 <= i < j < |values| ==>
                         values[i] != values[j] && ComesFirst(entries, values[i], values[j]))
  }

  lemma {:induction false} KeptNotEmpty(entries: seq<string>)
    ensures KeptValues(entries, NotEmpty(Values(entries)), {""})
    decreases |entries|
  {
    hide ValueOf;
    if entries != [] {
      KeptNotEmpty(entries[1..]);
      FirstEntry(entries);
    }
  }

  lemma {:induction false} KeptWithout(entries: seq<string>, name: string)
    ensures KeptValues(entries, Without(NotEmpty(Values(entries)), name), {"", name})
    decreases |entries|
  {
    hide ValueOf;
    if entries != [] {
      KeptWithout(entries[1..], name);
      FirstEntry(entries);
      var kept := NotEmpty(Values(entries));
      var rest := Without(NotEmpty(Values(entries[1..])), name);
      if ValueOf(entries[0]) != "" {
        assert Without(kept, name) == (if kept[0] == name then [] else [kept[0]]) + rest;
        assert ([kept[0]] + rest)[1..] == rest && [] + rest == rest;
      }
    }
  }

  lemma FirstEntry(entries: seq<string>)
    requires entries != []
    ensures var kept, rest := NotEmpty(Values(entries)), NotEmpty(Values(entries[1..]));
            if ValueOf(entries[0]) == "" then kept == rest
            else kept != [] && kept[0] == ValueOf(entries[0]) && kept[1..] == rest
  {
    hide ValueOf;
    var values, rest := Values(entries), NotEmpty(Values(entries[1..]));
    assert values[1..] == Values(entries[1..]);
    assert NotEmpty(values) == (if values[0] == "" then [] else [values[0]]) + rest;
    assert ([values[0]] + rest)[1..] == rest && [] + rest == rest;
  }

  /** Every occurrence of the second value has the first value before it. */
  ghost predicate Precedes(all: seq<string>, first: string, second: string) {
    forall y :: 0 <= y < |all| && all[y] == second ==> first in all[..y]
  }

  lemma PrecedesWithOneMore(front: seq<string>, last: string, first: string, second: string)
    requires Precedes(front, first, second) && (last == second ==> first in front)
    ensures Precedes(front + [last], first, second)
  {
    var all := front + [last];
    forall y | 0 <= y < |all| && all[y] == second ensures first in all[..y] {
      assert all[..y] == if y < |front| then front[..y] else front;
    }
  }

  /** Unique values stand in the order of their first occurrences. */
  lemma {:induction false} UniqueInOrder(all: seq<string>, i: nat, j: nat)
    requires i < j < |UniqueValues(all)|
    ensures UniqueValues(all)[i] != UniqueValues(all)[j] && Precedes(all, UniqueValues(all)[i], UniqueValues(all)[j])
    decreases |all|
  {
    hide Precedes;
    var front, last := all[..|all| - 1], all[|all| - 1];
    var u, w := UniqueValues(all), UniqueValues(front);
    assert front + [last] == all;
    assert w[i] in front;
    if j < |w| {
      UniqueInOrder(front, i, j);
    } else {
      NowhereBefore(front, w[i], last);
    }
    PrecedesWithOneMore(front, last, u[i], u[j]);
  }

  lemma NowhereBefore(front: seq<string>, first: string, second: string)
    requires second !in front
    ensures Precedes(front, first, second)
  {
  }

  /** Leaving out empty values keeps the order. */
  lemma {:induction false} NotEmptyOrder(values: seq<string>, y: nat) returns (p: nat)
    requires y < |values| && values[y] != ""
    ensures p < |NotEmpty(values)| && NotEmpty(values)[p] == values[y]
    ensures forall v :: v in NotEmpty(values)[..p] ==> v in values[..y]
    decreases y
  {
    var rest := NotEmpty(values[1..]);
    if y == 0 {
      p := 0;
    } else {
      var q := NotEmptyOrder(values[1..], y - 1);
      p := if values[0] == "" then q else q + 1;
      assert NotEmpty(values) == (if values[0] == "" then [] else [values[0]]) + rest;
      assert NotEmpty(values)[..p] == (if values[0] == "" then [] else [values[0]]) + rest[..q];
      assert values[..y] == [values[0]] + values[1..][..y - 1];
    }
  }

  lemma UniqueMerges(entries: seq<string>, name: string)
    requires name != ""
    ensures Merged(UniqueValues(NotEmpty(Values(entries)) + [name]), entries, name)
  {
    hide ValueOf, NotEmpty, UniqueValues;
    var values := Values(entries);
    var all := NotEmpty(values) + [name];
    var u := UniqueValues(all);
    forall v ensures v in u <==> v == name || (v != "" && exists e :: e in entries && ValueOf(e) == v) {
      ValueIsOfEntry(entries, v);
    }
    forall i, j | 0 <= i < j < |u| ensures u[i] != u[j] && ComesFirst(entries, u[i], u[j]) {
      assert u[j] in u;
      UniqueInOrder(all, i, j);
      MergedOrder(entries, name, u[i], u[j]);
    }
  }

  lemma ValueIsOfEntry(entries: seq<string>, v: string)
    ensures v in Values(entries) <==> exists e :: e in entries && ValueOf(e) == v
  {
    hide ValueOf;
    var values := Values(entries);
    if v in values {
      var x :| 0 <= x < |values| && values[x] == v;
      assert entries[x] in entries;
    }
    if e :| e in entries && ValueOf(e) == v {
      var x :| 0 <= x < |entries| && entries[x] == e;
      assert values[x] == v;
    }
  }

  lemma MergedOrder(entries: seq<string>, name: string, first: string, second: string)
    requires var all := NotEmpty(Values(entries)) + [name];
             second != "" && Precedes(all, first, second)
    ensures ComesFirst(entries, first, second)
  {
    hide ValueOf;
    var values := Values(entries);
    var kept := NotEmpty(values);
    var all := kept + [name];
    forall y | 0 <= y < |entries| && ValueOf(entries[y]) == second
      ensures exists x :: 0 <= x < y && ValueOf(entries[x]) == first
    {
      var p := NotEmptyOrder(values, y);
      assert all[p] == second && all[..p] == kept[..p];
      var x :| 0 <= x < y && values[x] == first;
      assert ValueOf(entries[x]) == first;
    }
  }

  // ---------------------------------------------------------------- an addition, in the block

  ghost predicate IsFirstDisabled(body: seq<string>, d: nat) {
    d < |body| && IsDisabled(body[d]) && forall j :: 0 <= j < d ==> !IsDisabled(body[j])
  }

  /** The first disabled list loses the lines that name the plugin. */
  ghost predicate Undisabled(body: seq<string>, thinned: seq<string>, name: string) {
    || ((forall d :: 0 <= d < |body| ==> !IsDisabled(body[d])) && thinned == body)
    || exists d :: IsFirstDisabled(body, d) && WithoutListed(body, d, thinned, name)
  }

  /** The key at `k` is rewritten as a block-style key with the values below it. */
  ghost predicate Rewritten(b: seq<string>, k: nat, values: seq<string>, after: seq<string>) {
    k < |b| && after == b[..k] + [ENABLED] + Items(values) + b[k + 1..]
  }

  /** One line lists the plugin that did not, or an inline or null key becomes a list. */
  ghost predicate EnabledAtKey(b: seq<string>, k: nat, after: seq<string>, name: string) {
    && k < |b|
    && (IsEnabled(b[k]) ==>
          after == if ListedUnder(b, k, name) then b else b[..k + 1] + [Item(name)] + b[k + 1..])
    && (IsNullEnabled(b[k]) ==> Rewritten(b, k, [name], after))
    && (InlineEnabled(b[k]).Some? ==>
          exists values ::
            Merged(values, Split(InlineEnabled(b[k]).value, ','), name) && Rewritten(b, k, values, after))
  }

  ghost predicate Enabled(b: seq<string>, after: seq<string>, name: string) {
    || ((forall k :: 0 <= k < |b| ==> !IsEnabledKey(b[k])) && after == [ENABLED, Item(name)] + b)
    || exists k :: 0 <= k < |b| && IsEnabledKey(b[k]) && EnabledAtKey(b, k, after, name)
  }

  lemma UndisabledExactly(body: seq<string>, name: string)
    ensures Undisabled(body, WithoutDisabled(body, name), name)
  {
    hide IsDisabled, DropListed, WithoutListed;
    var d := First(body, IsDisabled);
    if d < |body| {
      DropAt(body, d, name);
      assert IsFirstDisabled(body, d);
    }
  }

  lemma OnlyKey(b: seq<string>, k: nat)
    requires Keys(b) <= 1 && k < |b| && IsEnabledKey(b[k])
    ensures forall j :: 0 <= j < |b| && j != k ==> !IsEnabledKey(b[j])
  {
    SplitKeys(b, k);
    NoKeys(b[..k]);
    NoKeys(b[k + 1..]);
    hide IsEnabledKey, Keys;
    forall j | 0 <= j < |b| && j != k ensures !IsEnabledKey(b[j]) {
      assert b[j] == if j < k then b[..k][j] else b[k + 1..][j - k - 1];
    }
  }

  lemma OtherForms(b: seq<string>, k: nat)
    requires Keys(b) <= 1 && k < |b| && IsEnabledKey(b[k])
    ensures First(b, IsEnabled) == (if IsEnabled(b[k]) then k else |b|)
    ensures First(b, IsNullEnabled) == (if IsNullEnabled(b[k]) then k else |b|)
    ensures First(b, IsInlineEnabled) == (if InlineEnabled(b[k]).Some? then k else |b|)
  {
    OnlyKey(b, k);
    InlineForm(b[k]);
    forall j | 0 <= j < |b| && j != k ensures !IsEnabled(b[j]) && !IsNullEnabled(b[j]) && !IsInlineEnabled(b[j]) {
      assert !IsEnabledKey(b[j]);
    }
    hide *;
    FirstOnly(b, k, IsEnabled);
    FirstOnly(b, k, IsNullEnabled);
    FirstOnly(b, k, IsInlineEnabled);
  }

  lemma FirstOnly(b: seq<string>, k: nat, p: string -> bool)
    requires k < |b| && forall j :: 0 <= j < |b| && j != k ==> !p(b[j])
    ensures First(b, p) == if p(b[k]) then k else |b|
  {
    FirstAt(b, p, if p(b[k]) then k else |b|);
  }

  lemma EnabledExactly(b: seq<string>, name: string, changed: bool)
    requires Keys(b) <= 1 && name != ""
    ensures Enabled(b, Enable(b, name, changed).lines, name)
  {
    hide IsEnabled, IsNullEnabled, InlineEnabled, Keys, ListedIn, EnabledAtKey;
    if k :| 0 <= k < |b| && IsEnabledKey(b[k]) {
      EnabledByKey(b, k, name, changed);
    } else {
      FirstAt(b, IsEnabled, |b|);
      FirstAt(b, IsNullEnabled, |b|);
      FirstAt(b, IsInlineEnabled, |b|);
    }
  }

  lemma EnabledByKey(b: seq<string>, k: nat, name: string, changed: bool)
    requires Keys(b) <= 1 && k < |b| && IsEnabledKey(b[k]) && name != ""
    ensures EnabledAtKey(b, k, Enable(b, name, changed).lines, name)
  {
    EnableAt(b, k, name, changed);
    FormsDiffer(b[k]);
    ListedAt(b, k, name);
    hide IsEnabled, IsNullEnabled, InlineEnabled, Keys, ListedIn, ListedUnder, First, Merged, Items, UniqueValues,
         ParseList, Enable;
    if InlineEnabled(b[k]).Some? {
      InlineMerges(b, k, name);
    } else if IsNullEnabled(b[k]) {
      OneItem(b[..k], ENABLED, name, b[k + 1..]);
      Reassociate(b[..k] + [ENABLED], Items([name]), b[k + 1..]);
    }
  }

  lemma EnableAt(b: seq<string>, k: nat, name: string, changed: bool)
    requires Keys(b) <= 1 && k < |b| && IsEnabledKey(b[k])
    ensures Enable(b, name, changed).lines ==
            if InlineEnabled(b[k]).Some? then
              b[..k] + [ENABLED] + Items(UniqueValues(ParseList(InlineEnabled(b[k]).value) + [name])) + b[k + 1..]
            else if IsNullEnabled(b[k]) then b[..k] + [ENABLED, Item(name)] + b[k + 1..]
            else if ListedIn(b[k + 1..], name) then b else b[..k + 1] + [Item(name)] + b[k + 1..]
  {
    OtherForms(b, k);
    hide IsEnabled, IsNullEnabled, InlineEnabled, Keys, ListedIn, First, Items, UniqueValues, ParseList;
  }

  lemma InlineMerges(b: seq<string>, k: nat, name: string)
    requires k < |b| && InlineEnabled(b[k]).Some? && name != ""
    ensures var values := UniqueValues(ParseList(InlineEnabled(b[k]).value) + [name]);
            Merged(values, Split(InlineEnabled(b[k]).value, ','), name)
            && Rewritten(b, k, values, b[..k] + [ENABLED] + Items(values) + b[k + 1..])
  {
    hide InlineEnabled, Merged, Items, UniqueValues, Split;
    UniqueMerges(Split(InlineEnabled(b[k]).value, ','), name);
  }

  lemma InlineForm(line: string)
    ensures IsInlineEnabled(line) <==> InlineEnabled(line).Some?
  {
  }

  /** An edit of the block reports a change exactly when it changes a line. */
  lemma ChangedExactly(body: seq<string>, name: string)
    requires Keys(body) <= 1
    ensures AddToBody(body, name).changed <==> AddToBody(body, name).lines != body
  {
    AddIsEnable(body, name);
    DroppingDisabled(body, name);
    hide AddToBody, WithoutDisabled, DisabledLists, Keys, NoTop;
    EnableChanges(WithoutDisabled(body, name), name, DisabledLists(body, name));
    if DisabledLists(body, name) { EnableLeavesDisabled(WithoutDisabled(body, name), name, true); }
  }

  /** What follows from a change that the enabling makes itself. */
  lemma EnableChanges(b: seq<string>, name: string, changed: bool)
    requires Keys(b) <= 1
    ensures Enable(b, name, changed).changed == (changed || Enable(b, name, changed).lines != b)
  {
    hide IsNullEnabled, InlineEnabled, ListedIn, Keys, IsEnabled;
    EnabledIsKey();
    var i, n, k := First(b, IsInlineEnabled), First(b, IsNullEnabled), First(b, IsEnabled);
    var r := Enable(b, name, changed).lines;
    FormsDiffer(ENABLED);
    if i < |b| {
      InlineForm(b[i]);
      assert r[i] == ENABLED;
    } else if n < |b| {
      assert r[n] == ENABLED;
    } else if !(k < |b| && ListedIn(b[k + 1..], name)) {
      assert |r| > |b|;
    }
  }

  /** The enabling keeps the disabled list, so a disabled plugin is not among its lines. */
  lemma EnableLeavesDisabled(b: seq<string>, name: string, changed: bool)
    requires Keys(b) <= 1 && !DisabledLists(b, name)
    ensures !DisabledLists(Enable(b, name, changed).lines, name)
  {
    hide IsEnabled, IsNullEnabled, InlineEnabled, ListedIn, Keys, DisabledLists, IsDisabled, Items, IsSub;
    EnabledIsKey();
    var i, n, k := First(b, IsInlineEnabled), First(b, IsNullEnabled), First(b, IsEnabled);
    if i < |b| {
      InlineForm(b[i]);
      var values := UniqueValues(ParseList(InlineEnabled(b[i]).value) + [name]);
      KeyReplaced(b, i, ENABLED, values, name);
      Reassociate(b[..i] + [ENABLED], Items(values), b[i + 1..]);
    } else if n < |b| {
      KeyReplaced(b, n, ENABLED, [name], name);
      OneItem(b[..n], ENABLED, name, b[n + 1..]);
    } else if k < |b| {
      if !ListedIn(b[k + 1..], name) {
        KeyReplaced(b, k, b[k], [name], name);
        OneItem(b[..k], b[k], name, b[k + 1..]);
        assert b[..k] + [b[k]] == b[..k + 1];
      }
    } else {
      ItemsArePlain([name]);
      DisabledStays([], [], ENABLED, Items([name]), b, name);
      OneItem([], ENABLED, name, b);
      assert [] + [] + b == b && [] + [ENABLED, Item(name)] + b == [ENABLED, Item(name)] + b;
    }
  }

  lemma KeyReplaced(b: seq<string>, i: nat, h: string, values: seq<string>, name: string)
    requires i < |b| && IsEnabledKey(b[i]) && IsEnabled(h)
    ensures DisabledLists(b[..i] + [h] + (Items(values) + b[i + 1..]), name) == DisabledLists(b, name)
  {
    ItemsArePlain(values);
    EnabledKeyIsSub(b[i]);
    EnabledKeyIsSub(h);
    hide IsEnabled, IsNullEnabled, InlineEnabled, IsDisabled, Lists, DisabledLists, IsTop, IsSub, Items;
    DisabledStays(b[..i], [b[i]], h, Items(values), b[i + 1..], name);
    assert b[..i] + [b[i]] + b[i + 1..] == b;
  }

  // ---------------------------------------------------------------- an addition, in the document

  /** The block below the line at `h` ends at `e`: at the next top-level key or with the document. */
  ghost predicate IsBlockEnd(lines: seq<string>, h: nat, e: nat) {
    h < e <= |lines| && (forall j :: h < j < e ==> !IsTop(lines[j])) && (e < |lines| ==> IsTop(lines[e]))
  }

  /** The first bare `plugins:`; without one the first empty map; without that the first inline map. */
  ghost predicate OpensBlock(lines: seq<string>, h: nat) {
    && h < |lines|
    && if IsPlugins(lines[h]) then forall j :: 0 <= j < h ==> !IsPlugins(lines[j])
       else
         && (forall j :: 0 <= j < |lines| ==> !IsPlugins(lines[j]))
         && if IsEmptyMap(lines[h]) then forall j :: 0 <= j < h ==> !IsEmptyMap(lines[j])
            else
              && PluginsMap(lines[h]).Some? && (forall j :: 0 <= j < |lines| ==> !IsEmptyMap(lines[j]))
              && forall j :: 0 <= j < h ==> PluginsMap(lines[j]).None?
  }

  ghost predicate HasNoHeader(lines: seq<string>) {
    forall j :: 0 <= j < |lines| ==> !IsPlugins(lines[j]) && !IsEmptyMap(lines[j]) && PluginsMap(lines[j]).None?
  }

  /** The lines of the block in block style: an inline map gives an enabled key with its values. */
  ghost predicate IsBlock(line: string, below: seq<string>, block: seq<string>) {
    if IsPlugins(line) || IsEmptyMap(line) then block == below
    else
      && PluginsMap(line).Some?
      && exists values ::
           KeptValues(Split(PluginsMap(line).value, ','), values, {""}) && block == [ENABLED] + Items(values) + below
  }

  ghost predicate IsInPlace(lines: seq<string>, h: nat, e: nat, edited: seq<string>, after: seq<string>) {
    h < e <= |lines|
    && after == lines[..h] + [if IsPlugins(lines[h]) then lines[h] else PLUGINS] + edited + lines[e..]
  }

  ghost predicate IsAddition(lines: seq<string>, h: nat, e: nat, block: seq<string>, thinned: seq<string>,
                             edited: seq<string>, edit: Edit, name: string) {
    && OpensBlock(lines, h) && IsBlockEnd(lines, h, e) && IsBlock(lines[h], lines[h + 1..e], block)
    && Undisabled(block, thinned, name) && Enabled(thinned, edited, name) && IsInPlace(lines, h, e, edited, edit.lines)
    && (edit.changed <==> edited != block)
  }

  ghost predicate AddedTo(lines: seq<string>, edit: Edit, name: string) {
    if HasNoHeader(lines) then
      && edit.changed
      && var blank := if lines != [] && SkipBlanks(lines[|lines| - 1]) != "" then [""] else [];
         edit.lines == lines + blank + ["plugins:", "  enabled:", "  - " + name]
    else
      exists h: nat, e: nat, block: seq<string>, thinned: seq<string>, edited: seq<string> ::
        IsAddition(lines, h, e, block, thinned, edited, edit, name)
  }

  lemma BlockEndExactly(lines: seq<string>, h: nat)
    requires h < |lines|
    ensures IsBlockEnd(lines, h, BlockEnd(lines, h))
  {
    hide IsTop;
    var rest := lines[h + 1..];
    forall j | h < j < BlockEnd(lines, h) ensures !IsTop(lines[j]) { assert lines[j] == rest[j - h - 1]; }
  }

  lemma LocatedExactly(lines: seq<string>)
    requires Locate(lines).Some?
    ensures var l, h := Locate(lines).value.lines, Locate(lines).value.header;
            OpensBlock(lines, h) && h < |l| && IsBlock(lines[h], lines[h + 1..BlockEnd(lines, h)], Body(l, h))
  {
    hide IsPlugins, IsEmptyMap, PluginsMap, BlockEnd, ExpandMap;
    var p, q, m := First(lines, IsPlugins), First(lines, IsEmptyMap), First(lines, IsInlineMap);
    if p == |lines| && q < |lines| {
      ReplacedHeader(lines, q, []);
      assert lines[..q] + [PLUGINS] + [] + lines[q + 1..] == lines[..q] + [PLUGINS] + lines[q + 1..];
      assert [] + lines[q + 1..BlockEnd(lines, q)] == lines[q + 1..BlockEnd(lines, q)];
    } else if p == |lines| {
      ExpandedBlock(lines, m);
    }
  }

  /** The block below a rewritten header: the added lines, and then the lines that were there. */
  lemma ReplacedHeader(lines: seq<string>, h: nat, below: seq<string>)
    requires h < |lines| && NoTop(below)
    ensures var l := lines[..h] + [PLUGINS] + below + lines[h + 1..];
            Body(l, h) == below + lines[h + 1..BlockEnd(lines, h)]
  {
    var l, tail := lines[..h] + [PLUGINS] + below + lines[h + 1..], lines[h + 1..];
    hide IsTop;
    assert l[h + 1..] == below + tail;
    var f := First(tail, IsTop);
    forall j | 0 <= j < |below| + f ensures !IsTop((below + tail)[j]) {
      assert (below + tail)[j] == if j < |below| then below[j] else tail[j - |below|];
    }
    FirstAt(below + tail, IsTop, |below| + f);
    assert l[h + 1..][..|below| + f] == below + tail[..f];
  }

  lemma ExpandedBlock(lines: seq<string>, m: nat)
    requires m < |lines| && PluginsMap(lines[m]).Some?
    ensures m < |ExpandMap(lines, m)|
    ensures exists values ::
              KeptValues(Split(PluginsMap(lines[m]).value, ','), values, {""})
              && Body(ExpandMap(lines, m), m) == [ENABLED] + Items(values) + lines[m + 1..BlockEnd(lines, m)]
  {
    var entries := Split(PluginsMap(lines[m]).value, ',');
    var values := NotEmpty(Values(entries));
    KeptNotEmpty(entries);
    hide PluginsMap, BlockEnd, Items, NoTop, KeptValues, NotEmpty, Split, Body;
    BlockHasNoTop(values);
    ReplacedHeader(lines, m, [ENABLED] + Items(values));
    MapAsBlock(lines[..m], Items(values), lines[m + 1..]);
  }

  /** Which lines an addition changes, in every form of the block, and when it reports a change. */
  lemma AddExactly(lines: seq<string>, name: string)
    requires name != "" && OneEnabledKey(lines)
    ensures AddedTo(lines, AddLines(lines, name), name)
  {
    if Locate(lines).Some? {
      var h, e, block, thinned, edited := AdditionParts(lines, name);
      HeaderIsFound(lines, h, e, block, thinned, edited, AddLines(lines, name), name);
      hide IsAddition, AddLines, HasNoHeader, Locate;
    } else {
      hide IsPlugins, IsEmptyMap, PluginsMap;
      assert HasNoHeader(lines) by {
        assert forall j :: 0 <= j < |lines| ==> !IsInlineMap(lines[j]);
      }
      assert lines + [] == lines;
    }
  }

  lemma AdditionParts(lines: seq<string>, name: string)
      returns (h: nat, e: nat, block: seq<string>, thinned: seq<string>, edited: seq<string>)
    requires name != "" && OneEnabledKey(lines) && Locate(lines).Some?
    ensures IsAddition(lines, h, e, block, thinned, edited, AddLines(lines, name), name)
  {
    LocatedHeader(lines);
    LocatedExactly(lines);
    LocatedPlace(lines);
    AddIsEdit(lines, name);
    hide *;
    var l := Locate(lines).value.lines;
    h := Locate(lines).value.header;
    e, block := BlockEnd(lines, h), Body(l, h);
    edited := AddToBody(block, name).lines;
    BlockEndExactly(lines, h);
    AddIsInPlace(lines, l, h, edited);
    thinned := EditedExactly(block, name);
    ChangedExactly(block, name);
    AdditionOf(lines, h, e, block, thinned, edited, AddLines(lines, name), name);
  }

  lemma LocatedPlace(lines: seq<string>)
    requires Locate(lines).Some?
    ensures var l, h := Locate(lines).value.lines, Locate(lines).value.header;
            && h < |lines| && h < |l| && l[..h] == lines[..h] && l[BlockEnd(l, h)..] == lines[BlockEnd(lines, h)..]
            && l[h] == if IsPlugins(lines[h]) then lines[h] else PLUGINS
  {
    LocatedRest(lines);
  }

  lemma AddIsEdit(lines: seq<string>, name: string)
    requires OneEnabledKey(lines) && Locate(lines).Some?
    requires Locate(lines).value.header < |Locate(lines).value.lines|
    ensures var l, h := Locate(lines).value.lines, Locate(lines).value.header;
            var edit := AddToBody(Body(l, h), name);
            Keys(Body(l, h)) <= 1 && AddLines(lines, name) == Edit(WithBody(l, h, edit.lines), edit.changed)
  {
    hide Locate, AddToBody, Body, WithBody, Keys;
  }

  lemma AdditionOf(lines: seq<string>, h: nat, e: nat, block: seq<string>, thinned: seq<string>, edited: seq<string>,
                   edit: Edit, name: string)
    requires OpensBlock(lines, h) && IsBlockEnd(lines, h, e) && IsBlock(lines[h], lines[h + 1..e], block)
    requires Undisabled(block, thinned, name) && Enabled(thinned, edited, name)
    requires IsInPlace(lines, h, e, edited, edit.lines) && (edit.changed <==> edited != block)
    ensures IsAddition(lines, h, e, block, thinned, edited, edit, name)
  {
  }

  lemma HeaderIsFound(lines: seq<string>, h: nat, e: nat, block: seq<string>, thinned: seq<string>,
                      edited: seq<string>, edit: Edit, name: string)
    requires IsAddition(lines, h, e, block, thinned, edited, edit, name)
    ensures !HasNoHeader(lines)
  {
    hide IsPlugins, IsEmptyMap, PluginsMap, IsBlock, IsBlockEnd, Undisabled, Enabled, IsInPlace;
  }

  lemma AddIsInPlace(lines: seq<string>, l: seq<string>, h: nat, edited: seq<string>)
    requires h < |lines| && h < |l| && l[..h] == lines[..h] && l[BlockEnd(l, h)..] == lines[BlockEnd(lines, h)..]
    requires l[h] == if IsPlugins(lines[h]) then lines[h] else PLUGINS
    ensures IsInPlace(lines, h, BlockEnd(lines, h), edited, WithBody(l, h, edited))
  {
    hide BlockEnd, IsPlugins;
    assert l[..h + 1] == l[..h] + [l[h]];
  }

  lemma EditedExactly(block: seq<string>, name: string) returns (thinned: seq<string>)
    requires Keys(block) <= 1 && name != ""
    ensures Undisabled(block, thinned, name) && Enabled(thinned, AddToBody(block, name).lines, name)
  {
    thinned := WithoutDisabled(block, name);
    AddIsEnable(block, name);
    DroppingDisabled(block, name);
    UndisabledExactly(block, name);
    hide WithoutDisabled, AddToBody, Keys, Undisabled, Enabled, Enable;
    EnabledExactly(thinned, name, DisabledLists(block, name));
  }

  // ---------------------------------------------------------------- a removal

  /** The first bare `plugins:`, and without one the first inline map. */
  ghost predicate OpensForRemoval(lines: seq<string>, h: nat) {
    && h < |lines|
    && if IsPlugins(lines[h]) then forall j :: 0 <= j < h ==> !IsPlugins(lines[j])
       else
         && (forall j :: 0 <= j < |lines| ==> !IsPlugins(lines[j]))
         && PluginsMap(lines[h]).Some? && forall j :: 0 <= j < h ==> PluginsMap(lines[j]).None?
  }

  /** The first inline key, and without one the first block-style key. */
  ghost predicate IsKeyForRemoval(b: seq<string>, k: nat) {
    && k < |b|
    && if InlineEnabled(b[k]).Some? then forall j :: 0 <= j < k ==> InlineEnabled(b[j]).None?
       else
         && (forall j :: 0 <= j < |b| ==> InlineEnabled(b[j]).None?)
         && IsEnabled(b[k]) && forall j :: 0 <= j < k ==> !IsEnabled(b[j])
  }

  /** The list of the key loses the plugin, and an inline list becomes a block-style list. */
  ghost predicate RemovedAtKey(b: seq<string>, k: nat, after: seq<string>, name: string) {
    && k < |b|
    && if InlineEnabled(b[k]).Some? then
         exists values ::
           KeptValues(Split(InlineEnabled(b[k]).value, ','), values, {"", name}) && Rewritten(b, k, values, after)
       else WithoutListed(b, k, after, name)
  }

  /** The list that a removal edits: its document has a block, and the block has a key. */
  ghost predicate IsListFor(lines: seq<string>, h: nat, e: nat, block: seq<string>, k: nat) {
    && OpensForRemoval(lines, h) && IsBlockEnd(lines, h, e) && IsBlock(lines[h], lines[h + 1..e], block)
    && IsKeyForRemoval(block, k)
  }

  ghost predicate HasList(lines: seq<string>) {
    exists h: nat, e: nat, block: seq<string>, k: nat :: IsListFor(lines, h, e, block, k)
  }

  ghost predicate IsRemoval(lines: seq<string>, h: nat, e: nat, block: seq<string>, k: nat, edited: seq<string>,
                            edit: Edit, name: string) {
    && IsListFor(lines, h, e, block, k) && RemovedAtKey(block, k, edited, name)
    && IsInPlace(lines, h, e, edited, edit.lines) && (edit.changed <==> edited != block)
  }

  ghost predicate RemovedFrom(lines: seq<string>, edit: Edit, name: string) {
    if HasList(lines) then
      exists h: nat, e: nat, block: seq<string>, k: nat, edited: seq<string> ::
        IsRemoval(lines, h, e, block, k, edited, edit, name)
    else edit == Edit(lines, false)
  }

  lemma MapIsNoOtherForm(line: string)
    requires PluginsMap(line).Some?
    ensures !IsPlugins(line) && !IsEmptyMap(line)
  {
    var s := After(line[|PLUGINS|..], '{').value;
    var inner := SkipBlanks(s);
    assert inner[0] == ENABLED_IN_MAP[0];
  }

  lemma LocatedForRemoval(lines: seq<string>)
    requires LocateForRemoval(lines).Some?
    ensures var l, h := LocateForRemoval(lines).value.lines, LocateForRemoval(lines).value.header;
            OpensForRemoval(lines, h) && h < |l| && IsBlock(lines[h], lines[h + 1..BlockEnd(lines, h)], Body(l, h))
  {
    hide IsPlugins, IsEmptyMap, PluginsMap, BlockEnd, ExpandMap;
    var p, m := First(lines, IsPlugins), First(lines, IsInlineMap);
    if p == |lines| {
      MapIsNoOtherForm(lines[m]);
      ExpandedBlock(lines, m);
    }
  }

  /** A key found in the block is found by the removal. */
  lemma ListIsFound(lines: seq<string>, h: nat, e: nat, block: seq<string>, k: nat)
    requires IsListFor(lines, h, e, block, k)
    ensures RemovalApplies(lines)
  {
    HeaderForRemoval(lines, h);
    BlockEndIsUnique(lines, h, e);
    hide IsPlugins, IsEmptyMap, PluginsMap, BlockEnd, ExpandMap, First, LocateForRemoval, IsKeyForRemoval, IsEnabled,
         InlineEnabled, OpensForRemoval, IsBlockEnd;
    if IsPlugins(lines[h]) {
      KeyIsFound(block, k);
    } else {
      ExpandedKey(lines, h);
    }
  }

  lemma HeaderForRemoval(lines: seq<string>, h: nat)
    requires OpensForRemoval(lines, h)
    ensures LocateForRemoval(lines) == Some(Located(if IsPlugins(lines[h]) then lines else ExpandMap(lines, h), h))
    ensures !IsPlugins(lines[h]) ==> PluginsMap(lines[h]).Some? && !IsEmptyMap(lines[h])
  {
    if !IsPlugins(lines[h]) { MapIsNoOtherForm(lines[h]); }
    hide IsPlugins, IsEmptyMap, PluginsMap, ExpandMap;
    FirstAt(lines, IsPlugins, if IsPlugins(lines[h]) then h else |lines|);
    if !IsPlugins(lines[h]) { FirstAt(lines, IsInlineMap, h); }
  }

  lemma BlockEndIsUnique(lines: seq<string>, h: nat, e: nat)
    requires h < |lines| && IsBlockEnd(lines, h, e)
    ensures e == BlockEnd(lines, h)
  {
    hide IsTop;
    BlockEndExactly(lines, h);
  }

  lemma KeyIsFound(block: seq<string>, k: nat)
    requires IsKeyForRemoval(block, k)
    ensures First(block, IsInlineEnabled) == (if InlineEnabled(block[k]).Some? then k else |block|)
    ensures InlineEnabled(block[k]).None? ==> First(block, IsEnabled) == k
  {
    hide IsEnabled, InlineEnabled, First;
    FirstAt(block, IsInlineEnabled, if InlineEnabled(block[k]).Some? then k else |block|);
    if InlineEnabled(block[k]).None? { FirstAt(block, IsEnabled, k); }
  }

  lemma ExpandedKey(lines: seq<string>, m: nat)
    requires m < |lines| && PluginsMap(lines[m]).Some?
    ensures var body := Body(ExpandMap(lines, m), m); First(body, IsEnabled) < |body|
  {
    ExpandedBlock(lines, m);
    EnabledIsKey();
    hide PluginsMap, IsEnabled, ExpandMap, Body, BlockEnd, KeptValues, Items;
    var body := Body(ExpandMap(lines, m), m);
    assert body[0] == ENABLED && IsEnabled(body[0]);
  }

  /** Which lines a removal changes, in every form of the block, and when it reports a change. */
  lemma RemoveExactly(lines: seq<string>, name: string)
    ensures RemovedFrom(lines, RemoveLines(lines, name), name)
  {
    hide IsListFor, IsRemoval, RemovalApplies;
    if RemovalApplies(lines) {
      var h, e, block, k, edited := RemovalParts(lines, name);
      assert IsListFor(lines, h, e, block, k) by { RemovalHasList(lines, h, e, block, k, edited, name); }
    } else if HasList(lines) {
      var h: nat, e: nat, block: seq<string>, k: nat :| IsListFor(lines, h, e, block, k);
      ListIsFound(lines, h, e, block, k);
    }
  }

  lemma RemovalHasList(lines: seq<string>, h: nat, e: nat, block: seq<string>, k: nat, edited: seq<string>,
                       name: string)
    requires IsRemoval(lines, h, e, block, k, edited, RemoveLines(lines, name), name)
    ensures IsListFor(lines, h, e, block, k)
  {
    hide IsListFor, RemovedAtKey, RemoveLines, IsInPlace;
  }

  lemma RemovalParts(lines: seq<string>, name: string)
      returns (h: nat, e: nat, block: seq<string>, k: nat, edited: seq<string>)
    requires RemovalApplies(lines)
    ensures IsRemoval(lines, h, e, block, k, edited, RemoveLines(lines, name), name)
  {
    LocatedForRemoval(lines);
    RemovalPlace(lines);
    RemoveIsEdit(lines, name);
    hide *;
    var l := LocateForRemoval(lines).value.lines;
    h := LocateForRemoval(lines).value.header;
    e, block := BlockEnd(lines, h), Body(l, h);
    edited := RemoveFromBody(block, name).lines;
    BlockEndExactly(lines, h);
    AddIsInPlace(lines, l, h, edited);
    k := KeyRemoval(block, name);
    RemovalOf(lines, h, e, block, k, edited, RemoveLines(lines, name), name);
  }

  lemma RemovalPlace(lines: seq<string>)
    requires LocateForRemoval(lines).Some?
    ensures var l, h := LocateForRemoval(lines).value.lines, LocateForRemoval(lines).value.header;
            && h < |lines| && h < |l| && l[..h] == lines[..h] && l[BlockEnd(l, h)..] == lines[BlockEnd(lines, h)..]
            && l[h] == if IsPlugins(lines[h]) then lines[h] else PLUGINS
  {
    RemovalLocatedRest(lines);
  }

  lemma RemoveIsEdit(lines: seq<string>, name: string)
    requires RemovalApplies(lines)
    ensures LocateForRemoval(lines).Some?
    ensures LocateForRemoval(lines).value.header < |LocateForRemoval(lines).value.lines|
    ensures var l, h := LocateForRemoval(lines).value.lines, LocateForRemoval(lines).value.header;
            var block := Body(l, h);
            var edit := RemoveFromBody(block, name);
            && (First(block, IsInlineEnabled) < |block| || First(block, IsEnabled) < |block|)
            && RemoveLines(lines, name) == Edit(WithBody(l, h, edit.lines), edit.changed)
  {
    hide LocateForRemoval, RemoveFromBody, Body, WithBody, First;
  }

  lemma RemovalOf(lines: seq<string>, h: nat, e: nat, block: seq<string>, k: nat, edited: seq<string>, edit: Edit,
                  name: string)
    requires OpensForRemoval(lines, h) && IsBlockEnd(lines, h, e) && IsBlock(lines[h], lines[h + 1..e], block)
    requires IsKeyForRemoval(block, k) && RemovedAtKey(block, k, edited, name)
    requires IsInPlace(lines, h, e, edited, edit.lines) && (edit.changed <==> edited != block)
    ensures IsRemoval(lines, h, e, block, k, edited, edit, name)
  {
  }

  lemma KeyRemoval(block: seq<string>, name: string) returns (k: nat)
    requires First(block, IsInlineEnabled) < |block| || First(block, IsEnabled) < |block|
    ensures IsKeyForRemoval(block, k)
    ensures var edit := RemoveFromBody(block, name);
            RemovedAtKey(block, k, edit.lines, name) && (edit.changed <==> edit.lines != block)
  {
    hide IsEnabled, InlineEnabled, ListedIn, DropListed, Items, Split, KeptValues, WithoutListed, NotEmpty;
    var i := First(block, IsInlineEnabled);
    forall j | 0 <= j < |block| ensures IsInlineEnabled(block[j]) <==> InlineEnabled(block[j]).Some? {
      InlineForm(block[j]);
    }
    if i < |block| {
      k := i;
      var entries := Split(InlineEnabled(block[k]).value, ',');
      KeptWithout(entries, name);
      EnabledIsKey();
      FormsDiffer(block[k]);
      assert RemoveFromBody(block, name).lines[k] == ENABLED != block[k];
    } else {
      k := First(block, IsEnabled);
      DropAt(block, k, name);
      DropMeaning(block[k + 1..], name);
      assert block == block[..k + 1] + block[k + 1..];
    }
  }
}
