/**
 packages/cli/src/installers.ts: what the patterns of the editor match, said by concatenation: a line matches when it
 is put together from parts of the given kinds.
 */
module PluginPatterns {
  import opened Prelude
  import opened PluginYaml

  ghost predicate AreBlanks(s: string) { forall i :: 0 <= i < |s| ==> s[i] == ' ' || s[i] == '\t' }

  ghost predicate IsComment(s: string) { s == "" || s[0] == '#' }

  ghost predicate IsQuoteOrNone(s: string) { s == "" || s == "'" || s == "\"" }

  /** Blanks, and after them nothing or a comment. */
  ghost predicate IsEnd(s: string) { exists a, c :: AreBlanks(a) && IsComment(c) && s == a + c }

  lemma {:induction false} BlanksApart(s: string) returns (a: string)
    ensures AreBlanks(a) && s == a + SkipBlanks(s) && (SkipBlanks(s) == "" || !IsBlank(SkipBlanks(s)[0]))
    decreases |s|
  {
    if s != "" && IsBlank(s[0]) {
      var rest := BlanksApart(s[1..]);
      a := [s[0]] + rest;
      assert SkipBlanks(s) == SkipBlanks(s[1..]);
      Concatenated([s[0]], rest, SkipBlanks(s[1..]));
      assert s == [s[0]] + s[1..];
    } else {
      a := "";
      assert SkipBlanks(s) == s && "" + s == s;
    }
  }

  lemma {:induction false} SkipOver(a: string, s: string)
    requires AreBlanks(a) && (s == "" || !IsBlank(s[0]))
    ensures SkipBlanks(a + s) == s
    decreases |a|
  {
    if a == "" { assert a + s == s; }
    else {
      assert (a + s)[1..] == a[1..] + s && (a + s)[0] == a[0];
      SkipOver(a[1..], s);
    }
  }

  lemma TailExactly(s: string)
    ensures IsTail(s) <==> IsEnd(s)
  {
    if IsTail(s) {
      var a := BlanksApart(s);
      assert s == a + SkipBlanks(s) && IsComment(SkipBlanks(s));
    }
    if IsEnd(s) {
      var a, c :| AreBlanks(a) && IsComment(c) && s == a + c;
      SkipOver(a, c);
    }
  }

  /** A key alone on its line. */
  lemma HeaderExactly(line: string, key: string)
    ensures IsHeader(line, key) <==> exists end :: IsEnd(end) && line == key + end
  {
    if IsHeader(line, key) {
      TailExactly(line[|key|..]);
      assert line == key + line[|key|..];
    }
    if end :| IsEnd(end) && line == key + end {
      TailExactly(end);
      assert line[|key|..] == end;
    }
  }

  /** A top-level key: a character that is no blank and no comment sign, and then text up to a colon. */
  lemma TopExactly(line: string)
    ensures IsTop(line) <==>
              exists c, a, b :: c !in {' ', '\t', '#'} && ':' !in a && line == [c] + (a + ":" + b)
  {
    if IsTop(line) {
      var a, b := FirstColon(line[1..]);
      assert line == [line[0]] + line[1..];
      assert line[0] !in {' ', '\t', '#'} && ':' !in a && line == [line[0]] + (a + ":" + b);
    }
    if c, a, b :| c !in {' ', '\t', '#'} && ':' !in a && line == [c] + (a + ":" + b) {
      assert line[1..][|a|] == ':';
    }
  }

  /** A key of the block: two blanks, a character that is no blank and no dash, and then text up to a colon. */
  lemma SubExactly(line: string)
    ensures IsSub(line) <==>
              exists c, a, b :: c !in {' ', '\t', '-'} && ':' !in a && line == "  " + ([c] + (a + ":" + b))
  {
    if IsSub(line) {
      var a, b := FirstColon(line[3..]);
      assert line == "  " + ([line[2]] + line[3..]);
      assert line[2] !in {' ', '\t', '-'} && ':' !in a && line == "  " + ([line[2]] + (a + ":" + b));
    }
    if c, a, b :| c !in {' ', '\t', '-'} && ':' !in a && line == "  " + ([c] + (a + ":" + b)) {
      assert line[2] == c && line[3..][|a|] == ':';
    }
  }

  lemma {:induction false} FirstColon(s: string) returns (a: string, b: string)
    requires ':' in s
    ensures ':' !in a && s == a + ":" + b
    decreases |s|
  {
    if s[0] == ':' {
      a, b := "", s[1..];
      assert s == "" + ":" + s[1..];
    } else {
      a, b := FirstColon(s[1..]);
      assert s == [s[0]] + (a + ":" + b) == [s[0]] + a + ":" + b;
      a := [s[0]] + a;
    }
  }

  // ---------------------------------------------------------------- list items

  /** A dash, the name with at most one quote on each side, and nothing after it but a comment. */
  ghost predicate IsItemOf(line: string, name: string, a: string, b: string, q: string, r: string, end: string) {
    && AreBlanks(a) && AreBlanks(b) && IsQuoteOrNone(q) && IsQuoteOrNone(r) && IsEnd(end)
    && line == a + "-" + b + q + name + r + end
  }

  lemma ListsExactly(line: string, name: string)
    requires IsName(name)
    ensures Lists(line, name) <==> exists a, b, q, r, end :: IsItemOf(line, name, a, b, q, r, end)
  {
    hide Lists, IsItemOf, IsName;
    if Lists(line, name) { var a, b, q, r, end := ListParts(line, name); }
    if a, b, q, r, end :| IsItemOf(line, name, a, b, q, r, end) { ListMatches(line, name, a, b, q, r, end); }
  }

  lemma ListParts(line: string, name: string) returns (a: string, b: string, q: string, r: string, end: string)
    requires Lists(line, name)
    ensures IsItemOf(line, name, a, b, q, r, end)
  {
    hide IsNameAndTail, IsEnd;
    a := BlanksApart(line);
    var s := SkipBlanks(line);
    b := BlanksApart(s[1..]);
    var item := SkipBlanks(s[1..]);
    hide SkipBlanks;
    assert s == "-" + (b + item);
    q, r, end := ItemParts(item, name);
    Joined(a, b, q, name, r, end);
  }

  lemma Joined(a: string, b: string, q: string, name: string, r: string, end: string)
    ensures a + ("-" + (b + (q + name + r + end))) == a + "-" + b + q + name + r + end
  {
  }

  lemma ListMatches(line: string, name: string, a: string, b: string, q: string, r: string, end: string)
    requires IsName(name) && IsItemOf(line, name, a, b, q, r, end)
    ensures Lists(line, name)
  {
    hide IsNameAndTail, IsEnd;
    var item := q + name + r + end;
    var dashed := "-" + (b + item);
    Joined(a, b, q, name, r, end);
    assert dashed[0] == '-' && dashed[1..] == b + item;
    assert item[0] == if q == "" then name[0] else q[0];
    SkipOver(a, dashed);
    SkipOver(b, item);
    ItemMatches(name, q, r, end);
  }

  lemma NameAndTail(name: string, r: string, end: string)
    requires IsQuoteOrNone(r) && IsEnd(end)
    ensures IsNameAndTail(name + r + end, name)
  {
    var s := name + r + end;
    TailExactly(end);
    assert s[|name|..] == r + end;
    if r == "" { assert r + end == end; } else { assert s[|name|] == r[0] && s[|name| + 1..] == end; }
  }

  lemma TailParts(s: string, name: string) returns (r: string, end: string)
    requires IsNameAndTail(s, name)
    ensures IsQuoteOrNone(r) && IsEnd(end) && s == name + r + end
  {
    var rest := s[|name|..];
    assert s == name + rest;
    if IsTail(rest) {
      TailExactly(rest);
      r, end := "", rest;
      assert name + "" + rest == name + rest;
    } else {
      TailExactly(s[|name| + 1..]);
      r, end := [s[|name|]], s[|name| + 1..];
      assert rest == r + end;
    }
  }

  lemma ItemParts(item: string, name: string) returns (q: string, r: string, end: string)
    requires IsNameAndTail(item, name) || (item != "" && IsQuote(item[0]) && IsNameAndTail(item[1..], name))
    ensures IsQuoteOrNone(q) && IsQuoteOrNone(r) && IsEnd(end) && item == q + name + r + end
  {
    hide IsNameAndTail;
    if IsNameAndTail(item, name) {
      q := "";
      r, end := TailParts(item, name);
      assert "" + name + r + end == name + r + end;
    } else {
      q := [item[0]];
      r, end := TailParts(item[1..], name);
      assert item == q + item[1..] && q + name + r + end == q + (name + r + end);
    }
  }

  lemma ItemMatches(name: string, q: string, r: string, end: string)
    requires IsQuoteOrNone(q) && IsQuoteOrNone(r) && IsEnd(end)
    ensures var item := q + name + r + end;
            IsNameAndTail(item, name) || (item != "" && IsQuote(item[0]) && IsNameAndTail(item[1..], name))
  {
    hide IsNameAndTail, IsEnd;
    NameAndTail(name, r, end);
    var item := q + name + r + end;
    if q == "" { assert item == name + r + end; }
    else { assert item[1..] == name + r + end && item[0] == q[0]; }
  }

  // ---------------------------------------------------------------- entries of an inline list

  ghost predicate StartsBlank(s: string) { s != "" && IsBlank(s[0]) }

  ghost predicate EndsBlank(s: string) { s != "" && IsBlank(s[|s| - 1]) }

  /** Blanks on both sides are cut off, and then at most one quote on each side. */
  ghost predicate IsEntryOf(entry: string, value: string, a: string, q: string, r: string, b: string) {
    && AreBlanks(a) && AreBlanks(b) && IsQuoteOrNone(q) && IsQuoteOrNone(r) && entry == a + q + value + r + b
    && !StartsBlank(q + value + r) && !EndsBlank(q + value + r)
    && (q == "" ==> value + r == "" || !IsQuote((value + r)[0]))
    && (r == "" ==> value == "" || !IsQuote(value[|value| - 1]))
  }

  lemma ValueExactly(entry: string, value: string)
    ensures ValueOf(entry) == value <==> exists a, q, r, b :: IsEntryOf(entry, value, a, q, r, b)
  {
    hide ValueOf, IsEntryOf;
    if ValueOf(entry) == value { var a, q, r, b := EntryParts(entry); }
    if a, q, r, b :| IsEntryOf(entry, value, a, q, r, b) { EntryValue(entry, value, a, q, r, b); }
  }

  lemma EntryParts(entry: string) returns (a: string, q: string, r: string, b: string)
    ensures IsEntryOf(entry, ValueOf(entry), a, q, r, b)
  {
    a := BlanksApart(entry);
    var s := SkipBlanks(entry);
    b := BlanksBehind(s);
    var m := TrimEnd(s);
    hide SkipBlanks, TrimEnd;
    q, r := QuoteParts(m);
    assert m != "" ==> m[0] == s[0];
    hide Unquote;
    Surrounded(a, q, ValueOf(entry), r, b);
  }

  lemma Surrounded(a: string, q: string, value: string, r: string, b: string)
    ensures a + ((q + value + r) + b) == a + q + value + r + b
  {
  }

  lemma EntryValue(entry: string, value: string, a: string, q: string, r: string, b: string)
    requires IsEntryOf(entry, value, a, q, r, b)
    ensures ValueOf(entry) == value
  {
    hide Unquote, Trim;
    Surrounded(a, q, value, r, b);
    TrimsTo(a, q + value + r, b);
    QuotesOff(value, q, r);
  }

  lemma {:induction false} BlanksBehind(s: string) returns (b: string)
    ensures AreBlanks(b) && s == TrimEnd(s) + b && !EndsBlank(TrimEnd(s))
    decreases |s|
  {
    if EndsBlank(s) {
      var rest := BlanksBehind(s[..|s| - 1]);
      b := rest + [s[|s| - 1]];
      assert s == s[..|s| - 1] + [s[|s| - 1]];
    } else {
      b := "";
    }
  }

  lemma {:induction false} TrimOver(m: string, b: string)
    requires AreBlanks(b) && !EndsBlank(m)
    ensures TrimEnd(m + b) == m
    decreases |b|
  {
    if b == "" { assert m + b == m; }
    else {
      var last := |b| - 1;
      assert (m + b)[..|m + b| - 1] == m + b[..last] && (m + b)[|m + b| - 1] == b[last];
      TrimOver(m, b[..last]);
    }
  }

  lemma TrimsTo(a: string, m: string, b: string)
    requires AreBlanks(a) && AreBlanks(b) && !StartsBlank(m) && !EndsBlank(m)
    ensures Trim(a + (m + b)) == m
  {
    if m == "" {
      assert a + (m + b) == (a + b) + "" && AreBlanks(a + b);
      SkipOver(a + b, "");
    } else {
      assert (m + b)[0] == m[0];
      SkipOver(a, m + b);
      TrimOver(m, b);
    }
  }

  lemma QuoteParts(m: string) returns (q: string, r: string)
    ensures IsQuoteOrNone(q) && IsQuoteOrNone(r) && m == q + Unquote(m) + r
    ensures q == "" ==> Unquote(m) + r == "" || !IsQuote((Unquote(m) + r)[0])
    ensures r == "" ==> Unquote(m) == "" || !IsQuote(Unquote(m)[|Unquote(m)| - 1])
  {
    var t := if m != "" && IsQuote(m[0]) then m[1..] else m;
    var u := if t != "" && IsQuote(t[|t| - 1]) then t[..|t| - 1] else t;
    assert u == Unquote(m);
    hide Unquote;
    q := FrontQuote(m, t);
    r := BackQuote(t, u);
    Concatenated(q, u, r);
  }

  lemma Concatenated(a: string, b: string, c: string)
    ensures a + (b + c) == a + b + c
  {
  }

  lemma FrontQuote(m: string, t: string) returns (q: string)
    requires t == if m != "" && IsQuote(m[0]) then m[1..] else m
    ensures IsQuoteOrNone(q) && m == q + t && (q == "" ==> t == "" || !IsQuote(t[0]))
  {
    q := if m != "" && IsQuote(m[0]) then [m[0]] else "";
  }

  lemma BackQuote(t: string, u: string) returns (r: string)
    requires u == if t != "" && IsQuote(t[|t| - 1]) then t[..|t| - 1] else t
    ensures IsQuoteOrNone(r) && t == u + r && (r == "" ==> u == "" || !IsQuote(u[|u| - 1]))
  {
    r := if t != "" && IsQuote(t[|t| - 1]) then [t[|t| - 1]] else "";
  }

  lemma QuotesOff(value: string, q: string, r: string)
    requires IsQuoteOrNone(q) && IsQuoteOrNone(r)
    requires q == "" ==> value + r == "" || !IsQuote((value + r)[0])
    requires r == "" ==> value == "" || !IsQuote(value[|value| - 1])
    ensures Unquote(q + value + r) == value
  {
    var m := q + value + r;
    Concatenated(q, value, r);
    var t := if m != "" && IsQuote(m[0]) then m[1..] else m;
    FrontOff(m, q, value + r);
    BackOff(t, value, r);
  }

  lemma FrontOff(m: string, q: string, t: string)
    requires IsQuoteOrNone(q) && m == q + t && (q == "" ==> t == "" || !IsQuote(t[0]))
    ensures (if m != "" && IsQuote(m[0]) then m[1..] else m) == t
  {
    if q == "" { assert m == t; } else { assert m[0] == q[0] && m[1..] == t; }
  }

  lemma BackOff(t: string, value: string, r: string)
    requires IsQuoteOrNone(r) && t == value + r && (r == "" ==> value == "" || !IsQuote(value[|value| - 1]))
    ensures (if t != "" && IsQuote(t[|t| - 1]) then t[..|t| - 1] else t) == value
  {
    if r == "" { assert t == value; } else { assert t[|t| - 1] == r[0] && t[..|t| - 1] == value; }
  }

  // ---------------------------------------------------------------- inline lists

  /** The bracket after the text is the last one that only such an end follows. */
  ghost predicate ClosesAt(s: string, inner: string, rest: string, isEnd: string -> bool) {
    && s == inner + "]" + rest && isEnd(rest)
    && forall i :: 0 <= i < |rest| && rest[i] == ']' ==> !isEnd(rest[i + 1..])
  }

  lemma {:induction false} BracketedExactly(s: string, inner: string, isEnd: string -> bool)
    ensures Bracketed(s, isEnd) == Some(inner) <==> exists rest :: ClosesAt(s, inner, rest, isEnd)
    decreases |s|
  {
    if Bracketed(s, isEnd) == Some(inner) { var rest := BracketedParts(s, inner, isEnd); }
    if rest :| ClosesAt(s, inner, rest, isEnd) { BracketedFound(s, inner, rest, isEnd); }
  }

  lemma {:induction false} BracketedParts(s: string, inner: string, isEnd: string -> bool) returns (rest: string)
    requires Bracketed(s, isEnd) == Some(inner)
    ensures ClosesAt(s, inner, rest, isEnd)
    decreases |s|
  {
    var later := Bracketed(s[1..], isEnd);
    if later.Some? {
      rest := BracketedParts(s[1..], later.value, isEnd);
      assert s == [s[0]] + s[1..];
      assert [s[0]] + (later.value + "]" + rest) == [s[0]] + later.value + "]" + rest;
    } else {
      rest := s[1..];
      assert s == "" + "]" + rest;
      forall i | 0 <= i < |rest| && rest[i] == ']' ensures !isEnd(rest[i + 1..]) {
        NoneFound(rest, i, isEnd);
      }
    }
  }

  lemma {:induction false} NoneFound(s: string, i: nat, isEnd: string -> bool)
    requires Bracketed(s, isEnd).None? && i < |s| && s[i] == ']'
    ensures !isEnd(s[i + 1..])
    decreases |s|
  {
    if i > 0 {
      NoneFound(s[1..], i - 1, isEnd);
      assert s[1..][i..] == s[i + 1..];
    }
  }

  lemma LaterBracket(s: string, inner: string, rest: string, isEnd: string -> bool)
    requires ClosesAt(s, inner, rest, isEnd)
    ensures |inner| < |s| && s[|inner|] == ']' && isEnd(s[|inner| + 1..])
  {
    assert s[|inner| + 1..] == rest;
  }

  lemma {:induction false} BracketedFound(s: string, inner: string, rest: string, isEnd: string -> bool)
    requires ClosesAt(s, inner, rest, isEnd)
    ensures Bracketed(s, isEnd) == Some(inner)
    decreases |s|
  {
    if inner == "" {
      assert s[0] == ']' && s[1..] == rest;
      if Bracketed(rest, isEnd).Some? {
        var later := Bracketed(rest, isEnd).value;
        var end := BracketedParts(rest, later, isEnd);
        LaterBracket(rest, later, end, isEnd);
      }
    } else {
      assert s[0] == inner[0] && s[1..] == inner[1..] + "]" + rest;
      BracketedFound(s[1..], inner[1..], rest, isEnd);
      assert [inner[0]] + inner[1..] == inner;
    }
  }

  lemma AfterExactly(s: string, c: char, rest: string)
    requires !IsBlank(c)
    ensures After(s, c) == Some(rest) <==> exists a :: AreBlanks(a) && s == a + [c] + rest
  {
    if After(s, c) == Some(rest) {
      var a := BlanksApart(s);
      assert SkipBlanks(s) == [c] + rest;
      assert s == a + [c] + rest;
    }
    if a :| AreBlanks(a) && s == a + [c] + rest {
      assert s == a + ([c] + rest) && ([c] + rest)[0] == c && ([c] + rest)[1..] == rest;
      SkipOver(a, [c] + rest);
    }
  }

  /** `  enabled: [inner]` and a comment. */
  ghost predicate IsInlineOf(line: string, inner: string, a: string, s: string, rest: string) {
    AreBlanks(a) && line == ENABLED + a + "[" + s && ClosesAt(s, inner, rest, IsTail)
  }

  lemma InlineExactly(line: string, inner: string)
    ensures InlineEnabled(line) == Some(inner) <==> exists a, s, rest :: IsInlineOf(line, inner, a, s, rest)
  {
    hide Bracketed, ClosesAt, IsTail, After;
    if InlineEnabled(line) == Some(inner) {
      var from := line[|ENABLED|..];
      var s := After(from, '[').value;
      AfterExactly(from, '[', s);
      var a :| AreBlanks(a) && from == a + ['['] + s;
      BracketedExactly(s, inner, IsTail);
      var rest :| ClosesAt(s, inner, rest, IsTail);
      assert line == ENABLED + from && ENABLED + from == ENABLED + a + "[" + s;
      assert IsInlineOf(line, inner, a, s, rest);
    }
    if a, s, rest :| IsInlineOf(line, inner, a, s, rest) {
      assert line[|ENABLED|..] == a + ['['] + s;
      AfterExactly(line[|ENABLED|..], '[', s);
      BracketedExactly(s, inner, IsTail);
    }
  }

  /** `plugins: {enabled: [inner]}` and a comment. */
  ghost predicate IsMapOf(line: string, inner: string, a: string, b: string, c: string, s: string, rest: string) {
    && AreBlanks(a) && AreBlanks(b) && AreBlanks(c)
    && line == PLUGINS + a + "{" + b + ENABLED_IN_MAP + c + "[" + s && ClosesAt(s, inner, rest, IsMapEnd)
  }

  lemma MapExactly(line: string, inner: string)
    ensures PluginsMap(line) == Some(inner) <==> exists a, b, c, s, rest :: IsMapOf(line, inner, a, b, c, s, rest)
  {
    hide PluginsMap, IsMapOf;
    if PluginsMap(line) == Some(inner) { var a, b, c, s, rest := MapParts(line, inner); }
    if a, b, c, s, rest :| IsMapOf(line, inner, a, b, c, s, rest) { MapMatches(line, inner, a, b, c, s, rest); }
  }

  lemma MapParts(line: string, inner: string) returns (a: string, b: string, c: string, s: string, rest: string)
    requires PluginsMap(line) == Some(inner)
    ensures IsMapOf(line, inner, a, b, c, s, rest)
  {
    hide Bracketed, ClosesAt, IsMapEnd, After, SkipBlanks;
    var from := line[|PLUGINS|..];
    var open := After(from, '{').value;
    var key := SkipBlanks(open);
    var list := key[|ENABLED_IN_MAP|..];
    s := After(list, '[').value;
    AfterExactly(from, '{', open);
    a :| AreBlanks(a) && from == a + ['{'] + open;
    b := BlanksApart(open);
    AfterExactly(list, '[', s);
    c :| AreBlanks(c) && list == c + ['['] + s;
    BracketedExactly(s, inner, IsMapEnd);
    rest :| ClosesAt(s, inner, rest, IsMapEnd);
    assert line == PLUGINS + from;
    assert key == ENABLED_IN_MAP + list;
    MapJoined(a, b, c, s);
  }

  lemma MapJoined(a: string, b: string, c: string, s: string)
    ensures PLUGINS + (a + ['{'] + (b + (ENABLED_IN_MAP + (c + ['['] + s))))
         == PLUGINS + a + "{" + b + ENABLED_IN_MAP + c + "[" + s
  {
  }

  lemma MapMatches(line: string, inner: string, a: string, b: string, c: string, s: string, rest: string)
    requires IsMapOf(line, inner, a, b, c, s, rest)
    ensures PluginsMap(line) == Some(inner)
  {
    hide Bracketed, ClosesAt, IsMapEnd, After, SkipBlanks;
    var list := c + ['['] + s;
    var key := ENABLED_IN_MAP + list;
    var open := b + key;
    MapJoined(a, b, c, s);
    assert line[|PLUGINS|..] == a + ['{'] + open;
    AfterExactly(line[|PLUGINS|..], '{', open);
    assert key[0] == ENABLED_IN_MAP[0] && key[|ENABLED_IN_MAP|..] == list;
    SkipOver(b, key);
    AfterExactly(list, '[', s);
    BracketedExactly(s, inner, IsMapEnd);
  }
}
