/** JavaScript values as the schema runtime sees them. */
module JsonValues {
  import opened Prelude

  /** `Object` lists its entries in the order of `Object.entries`. */
  datatype Value =
    | Undefined
    | Null
    | Boolean(b: bool)
    | Number(n: real)
    | Text(s: string)
    | Array(items: seq<Value>)
    | Object(fields: seq<Field>)
  {
    predicate IsRecord() { Array? || Object? }
    predicate IsPrimitive() { Null? || Boolean? || Number? || Text? }
  }

  datatype Field = Field(key: string, value: Value)

  function Max(a: nat, b: nat): nat { if a < b then b else a }

  /** Nesting depth. A string, and so every property name, has height zero. */
  function Height(v: Value): nat
    decreases v
  {
    match v
    case Array(items) => 1 + ItemsHeight(items)
    case Object(fields) => 1 + FieldsHeight(fields)
    case _ => 0
  }

  function ItemsHeight(items: seq<Value>): nat
    decreases items
  {
    if items == [] then 0 else Max(Height(items[0]), ItemsHeight(items[1..]))
  }

  function FieldsHeight(fields: seq<Field>): nat
    decreases fields
  {
    if fields == [] then 0 else Max(Height(fields[0].value), FieldsHeight(fields[1..]))
  }

  /** `Object.entries(value)` without the undefined entries; an array is keyed by its indices. */
  function Entries(v: Value): seq<Field> {
    match v
    case Array(items) => IndexedEntries(items, 0)
    case Object(fields) => DefinedEntries(fields)
    case _ => []
  }

  function IndexedEntries(items: seq<Value>, from: nat): seq<Field> {
    if items == [] then []
    else
      (if items[0].Undefined? then [] else [Field(Decimal(from), items[0])]) + IndexedEntries(items[1..], from + 1)
  }

  function DefinedEntries(fields: seq<Field>): seq<Field> {
    if fields == [] then []
    else (if fields[0].value.Undefined? then [] else [fields[0]]) + DefinedEntries(fields[1..])
  }

  /** `Object.fromEntries(entries)[key]`: of several entries with one key the last one wins. */
  function Lookup(entries: seq<Field>, key: string): Option<Value> {
    if entries == [] then None
    else if entries[|entries| - 1].key == key then Some(entries[|entries| - 1].value)
    else Lookup(entries[..|entries| - 1], key)
  }

  predicate HasKey(entries: seq<Field>, key: string) { Lookup(entries, key).Some? }

  /** What `JSON.stringify` keeps of a value: undefined items print as null, undefined fields vanish. */
  function Printed(v: Value): Value
    decreases v
  {
    match v
    case Array(items) => Array(PrintedItems(items))
    case Object(fields) => Object(PrintedFields(fields))
    case _ => v
  }

  function PrintedItems(items: seq<Value>): (printed: seq<Value>)
    ensures |printed| == |items|
    decreases items
  {
    if items == [] then []
    else [if items[0].Undefined? then Null else Printed(items[0])] + PrintedItems(items[1..])
  }

  function PrintedFields(fields: seq<Field>): seq<Field>
    decreases fields
  {
    if fields == [] then []
    else
      (if fields[0].value.Undefined? then [] else [Field(fields[0].key, Printed(fields[0].value))])
      + PrintedFields(fields[1..])
  }

  lemma {:induction false} ItemIsLower(items: seq<Value>, i: nat)
    requires i < |items|
    ensures Height(items[i]) <= ItemsHeight(items)
  {
    if i > 0 { ItemIsLower(items[1..], i - 1); }
  }

  lemma {:induction false} IndexedEntriesAreItems(items: seq<Value>, from: nat, e: Field)
    requires e in IndexedEntries(items, from)
    ensures Height(e.value) <= ItemsHeight(items)
  {
    if items != [] && e in IndexedEntries(items[1..], from + 1) {
      IndexedEntriesAreItems(items[1..], from + 1, e);
    }
  }

  lemma {:induction false} DefinedEntriesAreFields(fields: seq<Field>, e: Field)
    requires e in DefinedEntries(fields)
    ensures Height(e.value) <= FieldsHeight(fields)
  {
    if fields != [] && e in DefinedEntries(fields[1..]) {
      DefinedEntriesAreFields(fields[1..], e);
    }
  }

  /** Going from a record to one of its entries, or to the name of one, loses height. */
  lemma EntryIsLower(v: Value, e: Field)
    requires e in Entries(v)
    ensures Height(e.value) < Height(v) && Height(Text(e.key)) < Height(v)
  {
    match v {
      case Array(items) => IndexedEntriesAreItems(items, 0, e);
      case Object(fields) => DefinedEntriesAreFields(fields, e);
      case _ =>
    }
  }

  lemma {:induction false} LookupIsEntry(entries: seq<Field>, key: string)
    requires HasKey(entries, key)
    ensures Field(key, Lookup(entries, key).value) in entries
  {
    var last := entries[|entries| - 1];
    if last.key == key {
      assert last == Field(key, last.value);
    } else {
      LookupIsEntry(entries[..|entries| - 1], key);
    }
  }

  /** A key is present exactly when some entry carries it. */
  lemma {:induction false} HasKeyIffEntry(entries: seq<Field>, key: string)
    ensures HasKey(entries, key) <==> exists i :: 0 <= i < |entries| && entries[i].key == key
  {
    if entries != [] {
      HasKeyIffEntry(entries[..|entries| - 1], key);
    }
  }
}
