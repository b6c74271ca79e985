/** packages/core/src/audit/log.ts: the JSON lines file, its scan for an entry id, and the append. */
module AuditLog {
  import opened Prelude

  datatype Entry = Entry(id: Option<string>, body: string)

  /** JSON.stringify, and the entry id that JSON.parse finds in a line; parse throws on other text. */
  datatype Codec = Codec(stringify: Entry -> string, parse: string -> Result<Option<string>>)

  /** JSON text of an entry is one line that is not empty and reads back. */
  ghost predicate Faithful(codec: Codec) {
    forall e :: var line := codec.stringify(e); line != "" && '\n' !in line && codec.parse(line) == Ok(e.id)
  }

  /** The text of a log. */
  function Render(codec: Codec, entries: seq<Entry>): string {
    if entries == [] then "" else codec.stringify(entries[0]) + "\n" + Render(codec, entries[1..])
  }

  /** An empty entry id counts as none. */
  predicate HasKey(e: Entry) { e.id.Some? && e.id.value != "" }

  predicate Contains(entries: seq<Entry>, id: string) { exists e :: e in entries && e.id == Some(id) }

  /** What an append makes of a log: a keyed entry is added once, others always. */
  function Appended(entries: seq<Entry>, e: Entry): seq<Entry> {
    if HasKey(e) && Contains(entries, e.id.value) then entries else entries + [e]
  }

  /** Lines in order: the first with the id, or the first that cannot be parsed, decides. */
  function Scan(codec: Codec, lines: seq<string>, id: string): Result<bool> {
    if lines == [] then Ok(false)
    else if lines[0] == "" then Scan(codec, lines[1..], id)
    else
      var found :- codec.parse(lines[0]);
      if found == Some(id) then Ok(true) else Scan(codec, lines[1..], id)
  }

  method HasJsonLineEntry(codec: Codec, source: string, id: string) returns (result: Result<bool>)
    ensures result == Scan(codec, Split(source, '\n'), id)
  {
    if source == "" { return Ok(false); }
    var lines := Split(source, '\n');
    var i := 0;
    while i < |lines|
      invariant 0 <= i <= |lines|
      invariant Scan(codec, lines, id) == Scan(codec, lines[i..], id)
    {
      assert lines[i..][1..] == lines[i + 1..];
      if lines[i] != "" {
        var found := codec.parse(lines[i]);
        if found.Thrown? { return Thrown(found.message); }
        if found.value == Some(id) { return Ok(true); }
      }
      i := i + 1;
    }
    result := Ok(false);
  }

  // ---------------------------------------------------------------- lines

  /** The scan of a well-formed log finds an id exactly when an entry has it. */
  lemma {:induction false} ScanFindsEntries(codec: Codec, entries: seq<Entry>, id: string)
    requires Faithful(codec)
    ensures Scan(codec, Split(Render(codec, entries), '\n'), id) == Ok(Contains(entries, id))
    decreases |entries|
  {
    if entries == [] {
      assert Split("", '\n') == [""];
      assert [""][1..] == [];
    } else {
      var e, rest := entries[0], entries[1..];
      var line := codec.stringify(e);
      ScanFindsEntries(codec, rest, id);
      SplitFirst(line, '\n', Render(codec, rest));
      assert ([line] + Split(Render(codec, rest), '\n'))[1..] == Split(Render(codec, rest), '\n');
      assert entries == [e] + rest;
      assert Contains(entries, id) <==> e.id == Some(id) || Contains(rest, id);
    }
  }

  lemma {:induction false} RenderAppends(codec: Codec, entries: seq<Entry>, e: Entry)
    ensures Render(codec, entries + [e]) == Render(codec, entries) + (codec.stringify(e) + "\n")
    decreases |entries|
  {
    if entries == [] {
      assert [] + [e] == [e];
      assert [e][1..] == [];
      assert codec.stringify(e) + "\n" + "" == codec.stringify(e) + "\n";
    } else {
      assert (entries + [e])[1..] == entries[1..] + [e];
      RenderAppends(codec, entries[1..], e);
      var head, tail := codec.stringify(entries[0]) + "\n", Render(codec, entries[1..]);
      assert head + (tail + (codec.stringify(e) + "\n")) == (head + tail) + (codec.stringify(e) + "\n");
    }
  }

  /** Distinct logs have distinct texts, so the text says which entries were appended, and in which order. */
  lemma {:induction false} RenderIsInjective(codec: Codec, a: seq<Entry>, b: seq<Entry>)
    requires Faithful(codec) && Render(codec, a) == Render(codec, b)
    requires forall e, f :: codec.stringify(e) == codec.stringify(f) ==> e == f
    ensures a == b
    decreases |a|
  {
    if a != [] { SplitFirst(codec.stringify(a[0]), '\n', Render(codec, a[1..])); }
    if b != [] { SplitFirst(codec.stringify(b[0]), '\n', Render(codec, b[1..])); }
    assert a == [] <==> b == [] by {
      assert Split("", '\n') == [""];
    }
    if a != [] {
      var left, right := Split(Render(codec, a), '\n'), Split(Render(codec, b), '\n');
      assert left[0] == codec.stringify(a[0]) && right[0] == codec.stringify(b[0]);
      var n := |codec.stringify(a[0])| + 1;
      assert Render(codec, a)[n..] == Render(codec, a[1..]) && Render(codec, b)[n..] == Render(codec, b[1..]);
      RenderIsInjective(codec, a[1..], b[1..]);
      assert a == [a[0]] + a[1..] && b == [b[0]] + b[1..];
    }
  }

  // ---------------------------------------------------------------- the append

  class LogFile {
    var text: string

    /** `appendJsonLine` inside the lock. */
    method AppendJsonLine(codec: Codec, value: Entry) returns (done: Result<bool>)
      requires Faithful(codec)
      modifies this
      ensures forall entries :: old(text) == Render(codec, entries) ==>
                done.Ok? && text == Render(codec, Appended(entries, value))
      ensures text == old(text) || text == old(text) + (codec.stringify(value) + "\n")
      ensures done.Thrown? ==> text == old(text)
    {
      var payload := codec.stringify(value) + "\n";
      if HasKey(value) {
        var found := HasJsonLineEntry(codec, text, value.id.value);
        forall entries | text == Render(codec, entries) ensures found == Ok(Contains(entries, value.id.value)) {
          ScanFindsEntries(codec, entries, value.id.value);
        }
        if found.Thrown? { return Thrown(found.message); }
        if found.value { return Ok(false); }
      }
      forall entries | text == Render(codec, entries) ensures text + payload == Render(codec, entries + [value]) {
        RenderAppends(codec, entries, value);
      }
      text := text + payload;
      done := Ok(true);
    }
  }
}
