/**
 packages/cli/src/installers.ts: the editor on whole configurations, splicing an array of lines by absolute indices.
 */
module PluginEditor {
  import opened Prelude
  import opened PluginYaml

  // ---------------------------------------------------------------- what the editor computes

  /** A document with a block-style `plugins:` line at `header`, if it has one or an inline form that is rewritten. */
  datatype Located = Located(lines: seq<string>, header: nat)

  function ExpandMap(lines: seq<string>, m: nat): seq<string>
    requires m < |lines| && PluginsMap(lines[m]).Some?
  {
    lines[..m] + [PLUGINS, ENABLED] + Items(ParseList(PluginsMap(lines[m]).value)) + lines[m + 1..]
  }

  function Locate(lines: seq<string>): Option<Located> {
    var p, q, m := First(lines, IsPlugins), First(lines, IsEmptyMap), First(lines, IsInlineMap);
    if p < |lines| then Some(Located(lines, p))
    else if q < |lines| then Some(Located(lines[..q] + [PLUGINS] + lines[q + 1..], q))
    else if m < |lines| then Some(Located(ExpandMap(lines, m), m))
    else None
  }

  /** The removal does not look for the empty map. */
  function LocateForRemoval(lines: seq<string>): Option<Located> {
    var p, m := First(lines, IsPlugins), First(lines, IsInlineMap);
    if p < |lines| then Some(Located(lines, p))
    else if m < |lines| then Some(Located(ExpandMap(lines, m), m))
    else None
  }

  function BlockEnd(lines: seq<string>, header: nat): (end: nat)
    requires header < |lines|
    ensures header < end <= |lines|
  {
    header + 1 + First(lines[header + 1..], IsTop)
  }

  function Body(lines: seq<string>, header: nat): seq<string>
    requires header < |lines|
  {
    lines[header + 1..BlockEnd(lines, header)]
  }

  function WithBody(lines: seq<string>, header: nat, body: seq<string>): seq<string>
    requires header < |lines|
  {
    lines[..header + 1] + body + lines[BlockEnd(lines, header)..]
  }

  function FrontOf(lines: seq<string>): seq<string> {
    if lines != [] && SkipBlanks(lines[|lines| - 1]) != "" then lines + [""] else lines
  }

  function Appended(lines: seq<string>, name: string): seq<string> { FrontOf(lines) + [PLUGINS, ENABLED, Item(name)] }

  function AddLines(lines: seq<string>, name: string): Edit {
    var at := Locate(lines);
    if at.None? || at.value.header >= |at.value.lines| then Edit(Appended(lines, name), true)
    else
      var l, h := at.value.lines, at.value.header;
      var edit := AddToBody(Body(l, h), name);
      Edit(WithBody(l, h, edit.lines), edit.changed)
  }

  /** Taking the plugin from the enabled list of a block. */
  function RemoveFromBody(body: seq<string>, name: string): Edit {
    var i, k := First(body, IsInlineEnabled), First(body, IsEnabled);
    if i < |body| then
      Edit(body[..i] + [ENABLED] + Items(Without(ParseList(InlineEnabled(body[i]).value), name)) + body[i + 1..], true)
    else if k < |body| then Edit(body[..k + 1] + DropListed(body[k + 1..], name), ListedIn(body[k + 1..], name))
    else Edit(body, false)
  }

  function Without(values: seq<string>, name: string): (kept: seq<string>)
    ensures forall v :: v in kept <==> v in values && v != name
  {
    if values == [] then [] else (if values[0] == name then [] else [values[0]]) + Without(values[1..], name)
  }

  // ---------------------------------------------------------------- the document around the block

  lemma FirstThrough(front: seq<string>, x: string, rest: seq<string>, p: string -> bool)
    requires p(x) && forall i :: 0 <= i < |front| ==> !p(front[i])
    ensures First(front + [x] + rest, p) == |front|
  {
    FirstAt(front + [x] + rest, p, |front|);
  }

  lemma LocatedHeader(lines: seq<string>)
    requires Locate(lines).Some?
    ensures var at := Locate(lines).value;
            at.header < |at.lines| && IsPlugins(at.lines[at.header]) && forall i :: 0 <= i < at.header ==>
              !IsPlugins(at.lines[i])
  {
    EnabledIsKey();
  }

  /** The block of a rebuilt document is the block it was given. */
  lemma RebuiltEnd(lines: seq<string>, header: nat, body: seq<string>)
    requires header < |lines| && NoTop(body)
    ensures var after := WithBody(lines, header, body);
            header < |after| && Body(after, header) == body
              && forall again :: WithBody(after, header, again) == WithBody(lines, header, again)
  {
    var e := BlockEnd(lines, header);
    var post := lines[e..];
    var after := WithBody(lines, header, body);
    hide IsTop;
    assert after[header + 1..] == body + post;
    assert post != [] ==> IsTop(post[0]);
    forall j | 0 <= j < |body| ensures !IsTop((body + post)[j]) {}
    FirstAt(body + post, IsTop, |body|);
    assert BlockEnd(after, header) == header + 1 + |body|;
    forall again ensures WithBody(after, header, again) == WithBody(lines, header, again) {
      assert after[..header + 1] == lines[..header + 1] && after[header + 1 + |body|..] == post;
    }
  }

  /** And its header is found again. */
  lemma RebuiltBody(lines: seq<string>, header: nat, body: seq<string>)
    requires header < |lines| && IsPlugins(lines[header]) && forall i :: 0 <= i < header ==> !IsPlugins(lines[i])
    requires NoTop(body)
    ensures var after := WithBody(lines, header, body);
            Locate(after) == Some(Located(after, header)) && Body(after, header) == body
            && forall again :: WithBody(after, header, again) == WithBody(lines, header, again)
  {
    RebuiltEnd(lines, header, body);
    hide IsPlugins, IsTop;
    var post := lines[BlockEnd(lines, header)..];
    assert WithBody(lines, header, body) == lines[..header] + [lines[header]] + (body + post);
    FirstThrough(lines[..header], lines[header], body + post, IsPlugins);
  }

  lemma BodyHasNoTop(lines: seq<string>, header: nat)
    requires header < |lines|
    ensures NoTop(Body(lines, header))
  {
    hide IsTop;
    var rest := lines[header + 1..];
    forall i | 0 <= i < |Body(lines, header)|
      ensures !IsTop(Body(lines, header)[i]) { assert Body(lines, header)[i] == rest[i]; }
  }

  /** The block, however it was written, has at most one enabled key. */
  predicate OneEnabledKey(lines: seq<string>) {
    var at := Locate(lines);
    at.Some? && at.value.header < |at.value.lines| ==> Keys(Body(at.value.lines, at.value.header)) <= 1
  }

  /**
   After an edit the block is found, the plugin is enabled in it and not disabled, and a second edit changes nothing.
   */
  lemma AddIsSettled(lines: seq<string>, name: string)
    requires IsName(name) && OneEnabledKey(lines)
    ensures IsSettled(AddLines(lines, name).lines, name)
  {
    if Locate(lines).Some? { LocatedSettles(lines, name); } else { AppendedSettles(lines, name); }
  }

  /** The statement of AddIsSettled for one result. */
  predicate IsSettled(after: seq<string>, name: string) {
    var at := Locate(after);
    && at.Some? && at.value.lines == after && at.value.header < |after| && HasPlugin(Body(after, at.value.header), name)
    && Keys(Body(after, at.value.header)) <= 1
    && AddLines(after, name) == Edit(after, false)
  }

  lemma LocatedSettles(lines: seq<string>, name: string)
    requires IsName(name) && OneEnabledKey(lines) && Locate(lines).Some?
    ensures IsSettled(AddLines(lines, name).lines, name)
  {
    LocatedHeader(lines);
    var l, h := Locate(lines).value.lines, Locate(lines).value.header;
    BodyHasNoTop(l, h);
    hide AddToBody, NoTop, HasPlugin, Keys, Body, Locate, IsPlugins, IsName;
    SettledAt(l, h, Body(l, h), name);
  }

  lemma AppendedSettles(lines: seq<string>, name: string)
    requires IsName(name) && Locate(lines).None?
    ensures IsSettled(AddLines(lines, name).lines, name)
  {
    assert AddLines(lines, name) == Edit(Appended(lines, name), true);
    var front := FrontOf(lines);
    AppendedHeader(lines, front, name);
    EmptyBody(name);
    hide AddLines, IsSettled, AddToBody, HasPlugin, Locate, First, IsPlugins, IsName, SkipBlanks, Body, BlockEnd;
    var l := front + [PLUGINS];
    SettledAt(l, |front|, [], name);
    BodyAtEnd(front, PLUGINS, ENABLED, Item(name));
    SettledIs(Appended(lines, name), |front|, name);
  }

  lemma BodyAtEnd(front: seq<string>, header: string, a: string, b: string)
    requires BlockEnd(front + [header], |front|) == |front| + 1
    ensures WithBody(front + [header], |front|, [a, b]) == front + [header, a, b]
  {
    hide BlockEnd;
    var l := front + [header];
    assert l[..|front| + 1] == l && l[|front| + 1..] == [];
  }

  lemma SettledIs(after: seq<string>, h: nat, name: string)
    requires Locate(after) == Some(Located(after, h)) && h < |after| && HasPlugin(Body(after, h), name)
        && Keys(Body(after, h)) <= 1
    requires AddLines(after, name) == Edit(after, false)
    ensures IsSettled(after, name)
  {
    hide Locate, AddLines, HasPlugin, Keys, Body;
  }

  lemma EmptyBody(name: string)
    ensures AddToBody([], name) == Edit([ENABLED, Item(name)], true)
  {
    assert [ENABLED, Item(name)] + [] == [ENABLED, Item(name)];
  }

  lemma AppendedHeader(lines: seq<string>, front: seq<string>, name: string)
    requires Locate(lines).None? && (front == lines || front == lines + [""])
    ensures var l := front + [PLUGINS];
            IsPlugins(l[|front|]) && (forall i :: 0 <= i < |front| ==> !IsPlugins(l[i])) && Body(l, |front|) == []
            && BlockEnd(l, |front|) == |l|
  {
    EnabledIsKey();
    var l := front + [PLUGINS];
    forall i | 0 <= i < |front| ensures !IsPlugins(l[i]) {
      if i < |lines| { assert l[i] == lines[i]; } else { assert l[i] == "" && |PLUGINS| > 0; }
    }
    assert l[|front| + 1..] == [];
  }

  /** Everything said about the edit of a block, at its place in a document. */
  lemma SettledAt(l: seq<string>, h: nat, body: seq<string>, name: string)
    requires h < |l| && IsPlugins(l[h]) && forall i :: 0 <= i < h ==> !IsPlugins(l[i])
    requires body == Body(l, h) && NoTop(body) && Keys(body) <= 1 && IsName(name)
    ensures var after := WithBody(l, h, AddToBody(body, name).lines);
            && Locate(after) == Some(Located(after, h)) && HasPlugin(Body(after, h), name) && Keys(Body(after, h)) <= 1
            && AddLines(after, name) == Edit(after, false)
  {
    BodyIsSettled(body, name);
    hide AddToBody, HasPlugin, NoTop, Keys, IsPlugins, IsName;
    var edited := AddToBody(body, name).lines;
    var after := WithBody(l, h, edited);
    RebuiltBody(l, h, edited);
    hide Locate;
    assert WithBody(after, h, edited) == WithBody(l, h, edited) == after;
  }

  // ---------------------------------------------------------------- removal

  /** The block that a removal finds has an enabled key in the two forms it looks for. */
  predicate RemovalApplies(lines: seq<string>) {
    var at := LocateForRemoval(lines);
    && at.Some? && at.value.header < |at.value.lines|
    && var body := Body(at.value.lines, at.value.header);
       First(body, IsInlineEnabled) < |body| || First(body, IsEnabled) < |body|
  }

  function RemoveLines(lines: seq<string>, name: string): Edit {
    if !RemovalApplies(lines) then Edit(lines, false)
    else
      var l, h := LocateForRemoval(lines).value.lines, LocateForRemoval(lines).value.header;
      var edit := RemoveFromBody(Body(l, h), name);
      Edit(WithBody(l, h, edit.lines), edit.changed)
  }

  /** The enabled list of the block has the plugin. */
  predicate EnabledIn(body: seq<string>, name: string) {
    var k := First(body, IsEnabled);
    k < |body| && ListedIn(body[k + 1..], name)
  }

  /** In a block-style list a removal leaves no occurrence, and says whether there was one. */
  lemma RemovalLeavesNone(body: seq<string>, name: string)
    requires First(body, IsInlineEnabled) == |body|
    ensures var r := RemoveFromBody(body, name);
            !EnabledIn(r.lines, name) && (r.changed <==> EnabledIn(body, name)) && (NoTop(body) ==> NoTop(r.lines))
  {
    hide IsEnabled, IsTop, IsInlineEnabled, DropListed, ListedIn;
    var k := First(body, IsEnabled);
    if k < |body| {
      var rest := body[k + 1..];
      DropMeaning(rest, name);
      EnabledAfter(body[..k + 1], k, DropListed(rest, name), name);
      NoTopSplit(body, k + 1, DropListed(rest, name));
    }
  }

  lemma EnabledAfter(front: seq<string>, k: nat, rest: seq<string>, name: string)
    requires |front| == k + 1 && IsEnabled(front[k]) && forall j :: 0 <= j < k ==> !IsEnabled(front[j])
    ensures EnabledIn(front + rest, name) == ListedIn(rest, name)
  {
    hide IsEnabled, ListedIn;
    FirstAt(front + rest, IsEnabled, k);
    assert (front + rest)[k + 1..] == rest;
  }

  lemma NoTopSplit(body: seq<string>, n: nat, rest: seq<string>)
    requires n <= |body| && (NoTop(body[n..]) ==> NoTop(rest))
    ensures NoTop(body) ==> NoTop(body[..n] + rest)
  {
    hide IsTop;
  }

  /** Past blanks and at most one quote comes the name, and after it at most a quote, blanks and a comment. */
  predicate StillNames(value: string, name: string) {
    var s := SkipBlanks(value);
    IsNameAndTail(s, name) || (s != "" && IsQuote(s[0]) && IsNameAndTail(s[1..], name))
  }

  lemma ItemNames(value: string, name: string)
    ensures Lists(Item(value), name) <==> StillNames(value, name)
  {
    var line := Item(value);
    assert line[0] == ' ' && line[1] == ' ' && line[2] == '-' && line[3] == ' ' && line[4..] == value;
    SkipTwo(line);
    assert line[2..][1..] == " " + value && (" " + value)[1..] == value;
    assert SkipBlanks(" " + value) == SkipBlanks(value);
  }

  lemma {:induction false} ItemsNamed(values: seq<string>, rest: seq<string>, name: string)
    ensures ListedIn(Items(values) + rest, name) <==>
              (exists v :: v in values && StillNames(v, name)) || ListedIn(rest, name)
    decreases |values|
  {
    hide StillNames, Lists, IsSub;
    if values == [] {
      assert Items(values) + rest == rest;
    } else {
      var lines := Items(values) + rest;
      ItemIsPlain(values[0]);
      ItemNames(values[0], name);
      ItemsNamed(values[1..], rest, name);
      assert lines[0] == Item(values[0]) && lines[1..] == Items(values[1..]) + rest;
      assert forall v :: v in values <==> v == values[0] || v in values[1..];
    }
  }

  /**
   In the inline form the plugin stays listed exactly when a line below the key lists it, or an entry does whose value
   is not the bare name: one that still has a quote, or a comment, beside the name.
   */
  lemma InlineRemoval(body: seq<string>, name: string)
    requires First(body, IsInlineEnabled) < |body| && Keys(body) <= 1 && IsName(name)
    ensures var i := First(body, IsInlineEnabled);
            EnabledIn(RemoveFromBody(body, name).lines, name) <==>
            || (exists e ::
                  e in Split(InlineEnabled(body[i]).value, ',') && ValueOf(e) != name && StillNames(ValueOf(e), name))
            || ListedIn(body[i + 1..], name)
  {
    var i := First(body, IsInlineEnabled);
    var entries := Split(InlineEnabled(body[i]).value, ',');
    var kept := Without(NotEmpty(Values(entries)), name);
    SplitKeys(body, i);
    KeptEntries(entries, name);
    hide ListedIn, Keys, InlineEnabled, StillNames, ValueOf, IsName, Split, Values, NotEmpty, Without;
    assert RemoveFromBody(body, name).lines == body[..i] + [ENABLED] + Items(kept) + body[i + 1..];
    hide RemoveFromBody, EnabledIn, Items;
    EnabledAt(body[..i], Items(kept) + body[i + 1..], name);
    ItemsNamed(kept, body[i + 1..], name);
    Reassociate(body[..i] + [ENABLED], Items(kept), body[i + 1..]);
  }

  lemma KeptEntries(entries: seq<string>, name: string)
    requires IsName(name)
    ensures (exists v :: v in Without(NotEmpty(Values(entries)), name) && StillNames(v, name)) <==>
            (exists e :: e in entries && ValueOf(e) != name && StillNames(ValueOf(e), name))
  {
    assert !StillNames("", name);
    hide StillNames, ValueOf;
    var values := Values(entries);
    if e :| e in entries && ValueOf(e) != name && StillNames(ValueOf(e), name) {
      var j :| 0 <= j < |entries| && entries[j] == e;
      assert values[j] in Without(NotEmpty(values), name);
    }
    if v :| v in Without(NotEmpty(values), name) && StillNames(v, name) {
      var j :| 0 <= j < |values| && values[j] == v;
      assert ValueOf(entries[j]) == v;
    }
  }

  /** An entry in two pairs of quotes stays, and so does one that ends in a comment. */
  lemma EntriesThatStay(name: string, q: char, comment: string)
    requires IsName(name) && IsQuote(q) && !IsQuote(name[0])
    requires comment != "" && comment[0] == '#' && !IsBlank(comment[|comment| - 1]) && !IsQuote(comment[|comment| - 1])
    ensures var e := [q, q] + name + [q, q]; ValueOf(e) != name && StillNames(ValueOf(e), name)
    ensures var e := name + " " + comment; ValueOf(e) != name && StillNames(ValueOf(e), name)
  {
    var quoted := [q, q] + name + [q, q];
    assert Trim(quoted) == quoted;
    var once := [q] + name + [q];
    assert quoted[1..] == once + [q] && (once + [q])[..|once|] == once;
    assert ValueOf(quoted) == once && |once| != |name|;
    assert once[0] == q && once[1..] == name + [q] && SkipBlanks(once) == once;
    assert (name + [q])[|name|..] == [q] && (name + [q])[|name| + 1..] == "";
    var commented := name + " " + comment;
    assert commented[|commented| - 1] == comment[|comment| - 1] && commented[0] == name[0];
    assert ValueOf(commented) == commented && |commented| != |name|;
    assert commented[|name|..] == " " + comment && (" " + comment)[1..] == comment;
    assert SkipBlanks(" " + comment) == comment && SkipBlanks(commented) == commented;
  }

  /** Two blocks from which the plugin "x" is not removed. */
  lemma RemovalMissesEntries()
    ensures EnabledIn(RemoveFromBody([ENABLED + (" [" + "''x''" + "]")], "x").lines, "x")
    ensures EnabledIn(RemoveFromBody([ENABLED + (" [" + "x #c" + "]")], "x").lines, "x")
  {
    hide StillNames, ValueOf, RemoveFromBody, EnabledIn;
    TwoEntries();
    OneEntryStays("''x''");
    OneEntryStays("x #c");
  }

  lemma TwoEntries()
    ensures ValueOf("''x''") != "x" && StillNames(ValueOf("''x''"), "x")
    ensures ValueOf("x #c") != "x" && StillNames(ValueOf("x #c"), "x")
  {
    hide StillNames, ValueOf;
    EntriesThatStay("x", '\'', "#c");
    assert ['\'', '\''] + "x" + ['\'', '\''] == "''x''" && "x" + " " + "#c" == "x #c";
  }

  lemma OneEntryStays(entry: string)
    requires ',' !in entry && ']' !in entry && ValueOf(entry) != "x" && StillNames(ValueOf(entry), "x")
    ensures EnabledIn(RemoveFromBody([ENABLED + (" [" + entry + "]")], "x").lines, "x")
  {
    var tail := " [" + entry + "]";
    var line := ENABLED + tail;
    var body := [line];
    InlineOf(entry);
    hide Bracketed, StillNames, ValueOf, InlineEnabled, IsNullEnabled, IsEnabled;
    SplitAlone(entry, ',');
    assert body[1..] == [] && Keys([]) == 0;
    assert Keys(body) <= 1;
    assert First(body, IsInlineEnabled) == 0;
    assert entry in [entry];
    hide Split, RemoveFromBody, EnabledIn, Keys, First;
    InlineRemoval(body, "x");
  }

  lemma InlineOf(entry: string)
    requires ']' !in entry
    ensures InlineEnabled(ENABLED + (" [" + entry + "]")) == Some(entry)
  {
    var tail := " [" + entry + "]";
    var line := ENABLED + tail;
    assert line[|ENABLED|..] == tail;
    assert tail[0] == ' ' && tail[1..] == "[" + entry + "]" && tail[1..][0] == '[' && tail[1..][1..] == entry + "]";
    assert SkipBlanks(tail) == tail[1..];
    BracketedAtEnd(entry);
  }

  lemma {:induction false} BracketedAtEnd(entry: string)
    requires ']' !in entry
    ensures Bracketed(entry + "]", IsTail) == Some(entry)
    decreases |entry|
  {
    var s := entry + "]";
    if entry == "" {
      assert s[1..] == "" && Bracketed("", IsTail).None?;
    } else {
      assert s[1..] == entry[1..] + "]" && s[0] == entry[0] && [entry[0]] + entry[1..] == entry;
      BracketedAtEnd(entry[1..]);
    }
  }

  lemma EnabledAt(u: seq<string>, w: seq<string>, name: string)
    requires Keys(u) == 0
    ensures EnabledIn(u + [ENABLED] + w, name) == ListedIn(w, name)
  {
    NoKeys(u);
    EnabledIsKey();
    hide Keys, ListedIn;
    FirstThrough(u, ENABLED, w, IsEnabled);
    assert (u + [ENABLED] + w)[|u| + 1..] == w;
  }

  lemma StableHasNoInline(body: seq<string>, name: string)
    requires HasPlugin(body, name) && Keys(body) <= 1
    ensures First(body, IsInlineEnabled) == |body| && EnabledIn(body, name)
  {
    var k := First(body, IsEnabled);
    FormsDiffer(body[k]);
    SplitKeys(body, k);
    NoKeys(body[..k]);
    NoKeys(body[k + 1..]);
    hide IsEnabled, InlineEnabled, ListedIn, DisabledLists;
    forall j | 0 <= j < |body| ensures !IsInlineEnabled(body[j]) {
      if j < k { assert body[j] == body[..k][j]; }
      if j > k { assert body[j] == body[k + 1..][j - k - 1]; }
    }
    FirstAt(body, IsInlineEnabled, |body|);
  }

  /** A removal after an addition takes the plugin from the list it was put in, and says so. */
  lemma RemoveUndoesAdd(lines: seq<string>, name: string)
    requires IsName(name) && OneEnabledKey(lines)
    ensures var added := AddLines(lines, name).lines;
            var removed := RemoveLines(added, name);
            removed.changed && Locate(removed.lines).Some?
            && var at := Locate(removed.lines).value;
               at.lines == removed.lines && at.header < |at.lines| && !EnabledIn(Body(at.lines, at.header), name)
  {
    AddIsSettled(lines, name);
    SettledRemoval(AddLines(lines, name).lines, name);
  }

  lemma SettledRemoval(added: seq<string>, name: string)
    requires IsSettled(added, name)
    ensures var removed := RemoveLines(added, name);
            removed.changed && Locate(removed.lines).Some?
            && var at := Locate(removed.lines).value;
               at.lines == removed.lines && at.header < |at.lines| && !EnabledIn(Body(at.lines, at.header), name)
  {
    var h := Locate(added).value.header;
    LocatedHeader(added);
    FirstAt(added, IsPlugins, h);
    var body := Body(added, h);
    BodyHasNoTop(added, h);
    StableHasNoInline(body, name);
    RemovalLeavesNone(body, name);
    assert First(body, IsEnabled) < |body|;
    hide AddLines, Body, EnabledIn, HasPlugin, Keys, Locate, IsPlugins, NoTop, RemoveFromBody;
    RebuiltBody(added, h, RemoveFromBody(body, name).lines);
  }

  // ---------------------------------------------------------------- the lines outside the block

  /** The line that opens the block, in any of the forms that an addition looks for. */
  function HeaderOf(lines: seq<string>): Option<nat> {
    var p, q, m := First(lines, IsPlugins), First(lines, IsEmptyMap), First(lines, IsInlineMap);
    if p < |lines| then Some(p) else if q < |lines| then Some(q) else if m < |lines| then Some(m) else None
  }

  function RemovalHeaderOf(lines: seq<string>): Option<nat> {
    var p, m := First(lines, IsPlugins), First(lines, IsInlineMap);
    if p < |lines| then Some(p) else if m < |lines| then Some(m) else None
  }

  /**
   Outside the block all lines are kept, in order. The line that opens it stays unless it is an inline form, which
   becomes the bare key. Without a block something is appended.
   */
  predicate KeepsRest(lines: seq<string>, after: seq<string>, header: Option<nat>) {
    match header
    case None => lines <= after
    case Some(h) =>
      && h < |lines|
      && var rest := lines[BlockEnd(lines, h)..];
         && |after| >= h + 1 + |rest| && after[..h] == lines[..h] && after[|after| - |rest|..] == rest
         && after[h] == if IsPlugins(lines[h]) then lines[h] else PLUGINS
  }

  /** The same lines follow the block when its header is rewritten, with lines that are no keys below it. */
  lemma RewrittenRest(lines: seq<string>, h: nat, below: seq<string>)
    requires h < |lines| && NoTop(below)
    ensures var l := lines[..h] + [PLUGINS] + below + lines[h + 1..];
            l[..h] == lines[..h] && l[h] == PLUGINS && l[BlockEnd(l, h)..] == lines[BlockEnd(lines, h)..]
  {
    var l, tail := lines[..h] + [PLUGINS] + below + lines[h + 1..], lines[h + 1..];
    hide IsTop;
    assert l[h + 1..] == below + tail;
    var f := First(tail, IsTop);
    forall j | 0 <= j < |below| + f ensures !IsTop((below + tail)[j]) {
      assert (below + tail)[j] == if j < |below| then below[j] else tail[j - |below|];
    }
    FirstAt(below + tail, IsTop, |below| + f);
    assert l[BlockEnd(l, h)..] == lines[BlockEnd(lines, h)..];
  }

  lemma ExpandedRest(lines: seq<string>, m: nat)
    requires m < |lines| && PluginsMap(lines[m]).Some?
    ensures var l := ExpandMap(lines, m);
            m < |l| && l[..m] == lines[..m] && l[m] == PLUGINS && l[BlockEnd(l, m)..] == lines[BlockEnd(lines, m)..]
  {
    var values := ParseList(PluginsMap(lines[m]).value);
    hide PluginsMap, ParseList, BlockEnd, Items, NoTop;
    BlockHasNoTop(values);
    RewrittenRest(lines, m, [ENABLED] + Items(values));
    MapAsBlock(lines[..m], Items(values), lines[m + 1..]);
  }

  lemma BlockHasNoTop(values: seq<string>)
    ensures NoTop([ENABLED] + Items(values))
  {
    ItemsArePlain(values);
    EnabledIsKey();
    hide IsTop, Items;
  }

  lemma MapAsBlock(front: seq<string>, items: seq<string>, rest: seq<string>)
    ensures front + [PLUGINS, ENABLED] + items + rest == front + [PLUGINS] + ([ENABLED] + items) + rest
  {
  }

  lemma LocatedRest(lines: seq<string>)
    ensures Locate(lines).Some? <==> HeaderOf(lines).Some?
    ensures Locate(lines).Some? ==>
              var l, h := Locate(lines).value.lines, HeaderOf(lines).value;
              && Locate(lines).value.header == h && h < |l| && h < |lines| && l[..h] == lines[..h]
              && l[h] == (if IsPlugins(lines[h]) then lines[h] else PLUGINS)
              && l[BlockEnd(l, h)..] == lines[BlockEnd(lines, h)..]
  {
    hide IsPlugins, IsEmptyMap, PluginsMap, BlockEnd, ExpandMap;
    var p, q, m := First(lines, IsPlugins), First(lines, IsEmptyMap), First(lines, IsInlineMap);
    if p == |lines| && q < |lines| {
      RewrittenRest(lines, q, []);
      assert lines[..q] + [PLUGINS] + [] + lines[q + 1..] == lines[..q] + [PLUGINS] + lines[q + 1..];
    } else if p == |lines| && m < |lines| {
      ExpandedRest(lines, m);
    }
  }

  lemma RemovalLocatedRest(lines: seq<string>)
    ensures LocateForRemoval(lines).Some? <==> RemovalHeaderOf(lines).Some?
    ensures LocateForRemoval(lines).Some? ==>
              var l, h := LocateForRemoval(lines).value.lines, RemovalHeaderOf(lines).value;
              && LocateForRemoval(lines).value.header == h && h < |l| && h < |lines| && l[..h] == lines[..h]
              && l[h] == (if IsPlugins(lines[h]) then lines[h] else PLUGINS)
              && l[BlockEnd(l, h)..] == lines[BlockEnd(lines, h)..]
  {
    hide IsPlugins, PluginsMap, BlockEnd, ExpandMap;
    var p, m := First(lines, IsPlugins), First(lines, IsInlineMap);
    if p == |lines| && m < |lines| { ExpandedRest(lines, m); }
  }

  lemma RebuiltRest(lines: seq<string>, l: seq<string>, h: nat, body: seq<string>)
    requires h < |lines| && h < |l| && l[..h] == lines[..h] && l[BlockEnd(l, h)..] == lines[BlockEnd(lines, h)..]
    requires l[h] == if IsPlugins(lines[h]) then lines[h] else PLUGINS
    ensures KeepsRest(lines, WithBody(l, h, body), Some(h))
  {
    hide BlockEnd, IsPlugins;
    var after, rest := WithBody(l, h, body), lines[BlockEnd(lines, h)..];
    assert l[..h + 1][..h] == l[..h];
    assert after[..h] == l[..h] && after[h] == l[h] && |after| == h + 1 + |body| + |rest|;
    assert after[|after| - |rest|..] == rest;
  }

  /** An addition keeps every line outside the block, whatever form the block has, and appends when there is none. */
  lemma AddKeepsTheRest(lines: seq<string>, name: string)
    ensures KeepsRest(lines, AddLines(lines, name).lines, HeaderOf(lines))
  {
    LocatedRest(lines);
    hide Locate, HeaderOf, AddToBody, IsPlugins, BlockEnd, WithBody, Body;
    if Locate(lines).Some? {
      var l, h := Locate(lines).value.lines, Locate(lines).value.header;
      RebuiltRest(lines, l, h, AddToBody(Body(l, h), name).lines);
    }
  }

  /** So does a removal, which changes nothing when it finds no enabled key. */
  lemma RemoveKeepsTheRest(lines: seq<string>, name: string)
    ensures if RemovalApplies(lines) then KeepsRest(lines, RemoveLines(lines, name).lines, RemovalHeaderOf(lines))
            else RemoveLines(lines, name) == Edit(lines, false)
  {
    RemovalLocatedRest(lines);
    hide LocateForRemoval, RemovalHeaderOf, RemoveFromBody, IsPlugins, BlockEnd, WithBody, Body, First;
    if RemovalApplies(lines) {
      var l, h := LocateForRemoval(lines).value.lines, LocateForRemoval(lines).value.header;
      RebuiltRest(lines, l, h, RemoveFromBody(Body(l, h), name).lines);
    }
  }

  // ---------------------------------------------------------------- the procedures

  /** `lines.findIndex` between two indices; -1 when there is none. */
  method FindBetween(lines: seq<string>, start: nat, to: nat, p: string -> bool) returns (index: int)
    requires start <= to <= |lines|
    ensures var i := First(lines[start..to], p); index == if i < to - start then start + i else -1
  {
    index := start;
    while index < to
      invariant start <= index <= to && forall j :: start <= j < index ==> !p(lines[j])
    {
      if p(lines[index]) {
        FirstAt(lines[start..to], p, index - start);
        return;
      }
      index := index + 1;
    }
    FirstAt(lines[start..to], p, to - start);
    index := -1;
  }

  method NextTopLevelKey(lines: seq<string>, start: nat) returns (end: nat)
    requires start < |lines|
    ensures end == BlockEnd(lines, start)
  {
    var index := FindBetween(lines, start + 1, |lines|, IsTop);
    assert lines[start + 1..|lines|] == lines[start + 1..];
    end := if index == -1 then |lines| else index;
  }

  /** `removePluginFromList`: lines are spliced out while the end of the block moves down. */
  method RemovePluginFromList(lines: seq<string>, keyIndex: nat, blockEnd: nat, name: string)
      returns (after: seq<string>, changed: bool)
    requires keyIndex < blockEnd <= |lines|
    ensures after == lines[..keyIndex + 1] + DropListed(lines[keyIndex + 1..blockEnd], name) + lines[blockEnd..]
    ensures changed == ListedIn(lines[keyIndex + 1..blockEnd], name)
  {
    hide Lists, IsSub, DropListed, ListedIn;
    after, changed := lines, false;
    var index, end := keyIndex + 1, blockEnd;
    ghost var listed := lines[keyIndex + 1..blockEnd];
    while index < end && !IsSub(after[index])
      invariant keyIndex < index <= end <= |after| && after[end..] == lines[blockEnd..]
      invariant after[..index] + DropListed(after[index..end], name) == lines[..keyIndex + 1] + DropListed(listed, name)
      invariant ListedIn(listed, name) <==> changed || ListedIn(after[index..end], name)
      decreases end - index
    {
      DropStep(after[index..end], name);
      assert after[index..end][1..] == after[index + 1..end];
      if Lists(after[index], name) {
        SpliceOut(after, index, end);
        after := after[..index] + after[index + 1..];
        end := end - 1;
        changed := true;
      } else {
        KeepOne(after, index, DropListed(after[index + 1..end], name));
        index := index + 1;
      }
    }
    DropEnd(after[index..end], name);
    assert after == after[..index] + after[index..end] + after[end..];
  }

  lemma DropStep(list: seq<string>, name: string)
    requires list != [] && !IsSub(list[0])
    ensures DropListed(list, name) == if Lists(list[0], name) then DropListed(list[1..], name)
            else [list[0]] + DropListed(list[1..], name)
    ensures ListedIn(list, name) <==> Lists(list[0], name) || ListedIn(list[1..], name)
  {
    hide Lists;
    assert [] + DropListed(list[1..], name) == DropListed(list[1..], name);
  }

  lemma DropEnd(list: seq<string>, name: string)
    requires list == [] || IsSub(list[0])
    ensures DropListed(list, name) == list && !ListedIn(list, name)
  {
  }

  lemma SpliceOut(lines: seq<string>, index: nat, end: nat)
    requires index < end <= |lines|
    ensures var after := lines[..index] + lines[index + 1..];
            after[..index] == lines[..index] && after[index..end - 1] == lines[index + 1..end]
              && after[end - 1..] == lines[end..]
  {
  }

  lemma KeepOne(lines: seq<string>, index: nat, rest: seq<string>)
    requires index < |lines|
    ensures lines[..index] + ([lines[index]] + rest) == lines[..index + 1] + rest
  {
  }

  /** `addHermesPluginToConfigYaml` between splitting the text and joining the lines. */
  method AddHermesPlugin(source: seq<string>, name: string) returns (lines: seq<string>, changed: bool)
    ensures Edit(lines, changed) == AddLines(source, name)
  {
    lines, changed := source, false;
    assert source[0..|source|] == source;
    var header := FindBetween(lines, 0, |lines|, IsPlugins);
    var empty := FindBetween(lines, 0, |lines|, IsEmptyMap);
    if header == -1 && empty != -1 {
      lines := lines[..empty] + [PLUGINS] + lines[empty + 1..];
      header := empty;
    }
    if header == -1 {
      var m := FindBetween(lines, 0, |lines|, IsInlineMap);
      if m != -1 {
        lines := ExpandMap(lines, m);
        header := m;
      }
    }
    if header == -1 {
      if lines != [] && SkipBlanks(lines[|lines| - 1]) != "" { lines := lines + [""]; }
      return lines + [PLUGINS, ENABLED, Item(name)], true;
    }
    assert Locate(source) == Some(Located(lines, header));
    lines, changed := EditBlock(lines, header, name);
  }

  /** `removeHermesPluginFromConfigYaml`, likewise. */
  method RemoveHermesPlugin(source: seq<string>, name: string) returns (lines: seq<string>, changed: bool)
    ensures Edit(lines, changed) == RemoveLines(source, name)
  {
    lines := source;
    assert source[0..|source|] == source;
    var header := FindBetween(lines, 0, |lines|, IsPlugins);
    var m := FindBetween(lines, 0, |lines|, IsInlineMap);
    if header == -1 && m != -1 {
      lines := ExpandMap(lines, m);
      header := m;
    }
    if header == -1 { return source, false; }
    assert LocateForRemoval(source) == Some(Located(lines, header));
    hide LocateForRemoval, ExpandMap, IsEnabled, IsPlugins, InlineEnabled, IsTop, RemoveFromBody, Body, WithBody, First;
    var found;
    found, lines, changed := RemoveFromBlock(lines, header, name);
    if !found { lines := source; }
  }

  /** The block part of a removal; `found` says whether the block has an enabled key in the two forms it looks for. */
  method RemoveFromBlock(source: seq<string>, header: nat, name: string)
      returns (found: bool, lines: seq<string>, changed: bool)
    requires header < |source|
    ensures var body := Body(source, header);
            found == (First(body, IsInlineEnabled) < |body| || First(body, IsEnabled) < |body|)
    ensures var edit := RemoveFromBody(Body(source, header), name);
            changed == edit.changed && (found ==> lines == WithBody(source, header, edit.lines))
  {
    hide IsEnabled, ListedIn, DropListed, InlineEnabled, IsTop;
    lines := source;
    var end := NextTopLevelKey(lines, header);
    ghost var body := Body(lines, header);
    assert body == lines[header + 1..end];
    hide Body, WithBody, BlockEnd;
    var enabled := FindBetween(lines, header + 1, end, IsEnabled);
    var inlined := FindBetween(lines, header + 1, end, IsInlineEnabled);
    if inlined != -1 {
      var kept := Without(ParseList(InlineEnabled(lines[inlined]).value), name);
      lines := RewriteInline(lines, header, inlined, kept);
      return true, lines, true;
    }
    if enabled == -1 { return false, lines, false; }
    found := true;
    lines, changed := RemovePluginFromList(lines, enabled, end, name);
    KeyInBlock(source, header, enabled, DropListed(source[enabled + 1..end], name));
  }

  /** A list that follows a key of the block, seen from the block and from the document. */
  lemma KeyInBlock(lines: seq<string>, header: nat, key: nat, rest: seq<string>)
    requires header < |lines| && header < key < BlockEnd(lines, header)
    ensures var body, k, end := Body(lines, header), key - header - 1, BlockEnd(lines, header);
            body[k + 1..] == lines[key + 1..end]
            && lines[..key + 1] + rest + lines[end..] == WithBody(lines, header, body[..k + 1] + rest)
  {
    hide BlockEnd;
    var body, k, end := Body(lines, header), key - header - 1, BlockEnd(lines, header);
    assert lines[..key + 1] == lines[..header + 1] + body[..k + 1];
  }

  method EditBlock(source: seq<string>, header: nat, name: string) returns (lines: seq<string>, changed: bool)
    requires header < |source|
    ensures var edit := AddToBody(Body(source, header), name);
            lines == WithBody(source, header, edit.lines) && changed == edit.changed
  {
    BodyHasNoTop(source, header);
    DroppingDisabled(Body(source, header), name);
    ghost var b := WithoutDisabled(Body(source, header), name);
    lines, changed := TakeFromDisabled(source, header, name);
    RebuiltEnd(source, header, b);
    AddIsEnable(Body(source, header), name);
    hide Body, WithBody, WithoutDisabled, DisabledLists, NoTop, AddToBody, Enable;
    lines, changed := EnablePlugin(lines, header, name, changed);
  }

  method TakeFromDisabled(source: seq<string>, header: nat, name: string) returns (lines: seq<string>, changed: bool)
    requires header < |source|
    ensures lines == WithBody(source, header, WithoutDisabled(Body(source, header), name))
    ensures changed == DisabledLists(Body(source, header), name)
  {
    hide IsDisabled, IsTop, ListedIn, DropListed;
    lines, changed := source, false;
    var end := NextTopLevelKey(lines, header);
    ghost var body := Body(source, header);
    var disabled := FindBetween(lines, header + 1, end, IsDisabled);
    if disabled != -1 {
      lines, changed := RemovePluginFromList(lines, disabled, end, name);
      ghost var d := disabled - header - 1;
      assert body[d + 1..] == source[disabled + 1..end];
      assert source[..disabled + 1] == source[..header + 1] + body[..d + 1];
      assert lines == source[..header + 1] + (body[..d + 1] + DropListed(body[d + 1..], name)) + source[end..];
    } else {
      assert lines == source[..header + 1] + body + source[end..];
    }
  }

  method EnablePlugin(source: seq<string>, header: nat, name: string, already: bool)
      returns (lines: seq<string>, changed: bool)
    requires header < |source|
    ensures var edit := Enable(Body(source, header), name, already);
            lines == WithBody(source, header, edit.lines) && changed == edit.changed
  {
    hide IsEnabled, IsNullEnabled, InlineEnabled, IsTop, ListedIn;
    var end := NextTopLevelKey(source, header);
    ghost var b := Body(source, header);
    assert b == source[header + 1..end];
    hide Body, BlockEnd, WithBody;
    var nulled := FindBetween(source, header + 1, end, IsNullEnabled);
    var inlined := FindBetween(source, header + 1, end, IsInlineEnabled);
    if inlined != -1 {
      var values := UniqueValues(ParseList(InlineEnabled(source[inlined]).value) + [name]);
      lines := RewriteInline(source, header, inlined, values);
      changed := true;
    } else if nulled != -1 {
      lines := Splice(source, header, nulled, 1, [ENABLED, Item(name)]);
      changed := true;
    } else {
      lines, changed := EnableInBlock(source, header, name, already);
    }
  }

  method EnableInBlock(source: seq<string>, header: nat, name: string, already: bool)
      returns (lines: seq<string>, changed: bool)
    requires header < |source|
    requires var b := Body(source, header); First(b, IsInlineEnabled) == |b| && First(b, IsNullEnabled) == |b|
    ensures var edit := Enable(Body(source, header), name, already);
            lines == WithBody(source, header, edit.lines) && changed == edit.changed
  {
    hide IsEnabled, IsNullEnabled, InlineEnabled, IsTop, ListedIn;
    var end := NextTopLevelKey(source, header);
    ghost var b := Body(source, header);
    assert b == source[header + 1..end] && WithBody(source, header, b) == source;
    hide Body, BlockEnd, WithBody;
    var enabled := FindBetween(source, header + 1, end, IsEnabled);
    if enabled == -1 {
      lines := Splice(source, header, header + 1, 0, [ENABLED, Item(name)]);
      assert b[..0] + [ENABLED, Item(name)] + b[0..] == [ENABLED, Item(name)] + b;
      return lines, true;
    }
    assert source[enabled + 1..end] == b[enabled - header..];
    var listed := PluginListContains(source, enabled, end, name);
    if listed { return source, already; }
    lines := Splice(source, header, enabled + 1, 0, [Item(name)]);
    return lines, true;
  }

  /** The line of an inline list becomes a block-style key with items. */
  method RewriteInline(source: seq<string>, header: nat, at: nat, values: seq<string>) returns (lines: seq<string>)
    requires header < |source| && header < at < BlockEnd(source, header)
    ensures var b, k := Body(source, header), at - header - 1;
            lines == WithBody(source, header, b[..k] + [ENABLED] + Items(values) + b[k + 1..])
  {
    lines := Splice(source, header, at, 1, [ENABLED] + Items(values));
    Reassociate(Body(source, header)[..at - header - 1], [ENABLED], Items(values));
  }

  /** `lines.splice` inside the block. */
  method Splice(source: seq<string>, header: nat, at: nat, gone: nat, added: seq<string>) returns (lines: seq<string>)
    requires header < |source| && header < at && at + gone <= |source| && at + gone <= BlockEnd(source, header)
    ensures var b, k := Body(source, header), at - header - 1;
            lines == WithBody(source, header, b[..k] + added + b[k + gone..])
  {
    lines := source[..at] + added + source[at + gone..];
    ghost var end, k := BlockEnd(source, header), at - header - 1;
    hide BlockEnd;
    ghost var pre, b, post := source[..header + 1], source[header + 1..end], source[end..];
    assert source == pre + b + post;
    SpliceParts(pre, b, post, k, gone, added);
  }

  lemma SpliceParts(pre: seq<string>, b: seq<string>, post: seq<string>, k: nat, gone: nat, added: seq<string>)
    requires k + gone <= |b|
    ensures var all := pre + b + post;
            all[..|pre| + k] + added + all[|pre| + k + gone..] == pre + (b[..k] + added + b[k + gone..]) + post
  {
  }

  /** `pluginListContains` for a block-style key. */
  method PluginListContains(lines: seq<string>, keyIndex: nat, blockEnd: nat, name: string) returns (found: bool)
    requires keyIndex < blockEnd <= |lines|
    ensures found == ListedIn(lines[keyIndex + 1..blockEnd], name)
  {
    hide Lists, IsSub;
    found := false;
    var index := keyIndex + 1;
    while index < blockEnd && !IsSub(lines[index])
      invariant keyIndex < index <= blockEnd
      invariant ListedIn(lines[keyIndex + 1..blockEnd], name) == ListedIn(lines[index..blockEnd], name)
    {
      assert lines[index..blockEnd][0] == lines[index] && lines[index..blockEnd][1..] == lines[index + 1..blockEnd];
      if Lists(lines[index], name) { return true; }
      index := index + 1;
    }
  }
}
