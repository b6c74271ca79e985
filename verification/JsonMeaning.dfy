/** What the schema runtime takes from values, stated without its functions: types, properties, constants and prints. */
module JsonMeaning {
  import opened Prelude
  import opened JsonValues

  // ---------------------------------------------------------------- properties

  /** `v` has the property `key` with the defined value `w`; an array has its indices as properties. */
  ghost predicate HasField(v: Value, key: string, w: Value) {
    && w != Undefined
    && match v
       case Array(items) => exists i :: 0 <= i < |items| && items[i] == w && key == Decimal(i)
       case Object(fields) => exists i :: 0 <= i < |fields| && fields[i] == Field(key, w) && IsLast(fields, i)
       case _ => false
  }

  /** No defined field after it has its key. */
  predicate IsLast(fields: seq<Field>, i: nat)
    requires i < |fields|
  {
    forall j :: i < j < |fields| ==> fields[j].key != fields[i].key || fields[j].value == Undefined
  }

  /** The places of a record that hold a defined value. */
  function DefinedPlaces(v: Value): set<nat> {
    match v
    case Array(items) => set i: nat | i < |items| && items[i] != Undefined
    case Object(fields) => set i: nat | i < |fields| && fields[i].value != Undefined
    case _ => {}
  }

  lemma {:induction false} LookupFirst(first: seq<Field>, rest: seq<Field>, key: string)
    ensures Lookup(first + rest, key) == if HasKey(rest, key) then Lookup(rest, key) else Lookup(first, key)
    decreases |rest|
  {
    if rest == [] {
      assert first + rest == first;
    } else {
      var all := first + rest;
      assert all[..|all| - 1] == first + rest[..|rest| - 1];
      LookupFirst(first, rest[..|rest| - 1], key);
    }
  }

  ghost predicate IsItemFrom(items: seq<Value>, from: nat, key: string, w: Value) {
    w != Undefined && exists i :: 0 <= i < |items| && items[i] == w && key == Decimal(from + i)
  }

  lemma DecimalsDiffer(i: nat, j: nat)
    requires Decimal(i) == Decimal(j)
    ensures i == j
  {
    DecimalRoundTrip(i);
    DecimalRoundTrip(j);
  }

  lemma {:induction false} IndexedMeaning(items: seq<Value>, from: nat, key: string, w: Value)
    ensures Lookup(IndexedEntries(items, from), key) == Some(w) <==> IsItemFrom(items, from, key, w)
    ensures |IndexedEntries(items, from)| == |set i: nat | i < |items| && items[i] != Undefined|
    decreases |items|
  {
    if items != [] {
      IndexedMeaning(items[1..], from + 1, key, w);
      var head := if items[0].Undefined? then [] else [Field(Decimal(from), items[0])];
      var tail := IndexedEntries(items[1..], from + 1);
      LookupFirst(head, tail, key);
      ItemStep(items, from, key, w);
      PlacesStep(items);
      hide IsItemFrom, IndexedEntries;
      if HasKey(tail, key) && head != [] && head[0].key == key {
        IndexedMeaning(items[1..], from + 1, key, Lookup(tail, key).value);
        LaterDiffers(items, from, Lookup(tail, key).value);
      }
      assert IndexedEntries(items, from) == head + tail by { ConsIndexed(items, from); }
    }
  }

  lemma ConsIndexed(items: seq<Value>, from: nat)
    requires items != []
    ensures IndexedEntries(items, from)
            == (if items[0].Undefined? then [] else [Field(Decimal(from), items[0])])
              + IndexedEntries(items[1..], from + 1)
  {
  }

  lemma LaterDiffers(items: seq<Value>, from: nat, w: Value)
    requires items != []
    ensures !IsItemFrom(items[1..], from + 1, Decimal(from), w)
  {
    if IsItemFrom(items[1..], from + 1, Decimal(from), w) {
      var i :| 0 <= i < |items[1..]| && items[1..][i] == w && Decimal(from) == Decimal(from + 1 + i);
      DecimalsDiffer(from, from + 1 + i);
    }
  }

  lemma ItemStep(items: seq<Value>, from: nat, key: string, w: Value)
    requires items != []
    ensures IsItemFrom(items, from, key, w) <==>
            (w != Undefined && items[0] == w && key == Decimal(from)) || IsItemFrom(items[1..], from + 1, key, w)
  {
    if i :| 0 <= i < |items| && items[i] == w && key == Decimal(from + i) {
      if i > 0 { assert items[1..][i - 1] == w; }
    }
    if i :| 0 <= i < |items[1..]| && items[1..][i] == w && key == Decimal(from + 1 + i) {
      assert items[i + 1] == w && from + (i + 1) == from + 1 + i;
    }
  }

  lemma PlacesStep(items: seq<Value>)
    requires items != []
    ensures |set i: nat | i < |items| && items[i] != Undefined|
            == (if items[0] == Undefined then 0 else 1) + |set i: nat | i < |items[1..]| && items[1..][i] != Undefined|
  {
    var all := set i: nat | i < |items| && items[i] != Undefined;
    var rest := set i: nat | i < |items[1..]| && items[1..][i] != Undefined;
    var moved := set i | i in rest :: i + 1;
    MovedSize(rest, moved);
    assert all == (if items[0] == Undefined then {} else {0}) + moved by {
      forall i | i in all && i > 0 ensures i in moved { assert i - 1 in rest; }
    }
  }

  lemma {:induction false} MovedSize(places: set<nat>, moved: set<nat>)
    requires moved == set i | i in places :: i + 1
    ensures |moved| == |places|
    decreases |places|
  {
    if places != {} {
      var p :| p in places;
      var others := set i | i in places - {p} :: i + 1;
      MovedSize(places - {p}, others);
      assert p + 1 !in others;
      forall x | x in moved ensures x in others + {p + 1} {
        var i :| i in places && i + 1 == x;
        if i != p { assert i in places - {p}; }
      }
      forall x | x in others + {p + 1} ensures x in moved {
        if x == p + 1 { assert p in places; }
      }
      assert moved == others + {p + 1};
    }
  }

  ghost predicate IsField(fields: seq<Field>, key: string, w: Value) {
    w != Undefined && exists i :: 0 <= i < |fields| && fields[i] == Field(key, w) && IsLast(fields, i)
  }

  lemma {:induction false} DefinedMeaning(fields: seq<Field>, key: string, w: Value)
    ensures Lookup(DefinedEntries(fields), key) == Some(w) <==> IsField(fields, key, w)
    ensures |DefinedEntries(fields)| == |set i: nat | i < |fields| && fields[i].value != Undefined|
    decreases |fields|
  {
    if fields != [] {
      var rest := fields[1..];
      DefinedMeaning(rest, key, w);
      var head := if fields[0].value.Undefined? then [] else [fields[0]];
      LookupFirst(head, DefinedEntries(rest), key);
      FieldStep(fields, key, w);
      FieldPlaces(fields);
      hide IsField, DefinedEntries;
      assert DefinedEntries(fields) == head + DefinedEntries(rest) by { ConsDefined(fields); }
      if fields[0].key != key {
      } else if HasKey(DefinedEntries(rest), key) {
        DefinedMeaning(rest, key, Lookup(DefinedEntries(rest), key).value);
        FieldHidden(fields, key, Lookup(DefinedEntries(rest), key).value);
      } else {
        forall x ensures !IsField(rest, key, x) { DefinedMeaning(rest, key, x); }
        FieldShown(fields, key);
      }
    }
  }

  lemma ConsDefined(fields: seq<Field>)
    requires fields != []
    ensures DefinedEntries(fields)
            == (if fields[0].value.Undefined? then [] else [fields[0]]) + DefinedEntries(fields[1..])
  {
  }

  lemma FieldStep(fields: seq<Field>, key: string, w: Value)
    requires fields != []
    ensures IsField(fields, key, w) <==>
            (w != Undefined && fields[0] == Field(key, w) && IsLast(fields, 0)) || IsField(fields[1..], key, w)
  {
    var rest := fields[1..];
    forall i | 0 <= i < |rest| ensures IsLast(rest, i) <==> IsLast(fields, i + 1) {
      assert forall j :: i < j < |rest| ==> rest[j] == fields[j + 1];
      assert forall j :: i + 1 < j < |fields| ==> fields[j] == rest[j - 1];
    }
    if i :| w != Undefined && 0 <= i < |fields| && fields[i] == Field(key, w) && IsLast(fields, i) {
      if i > 0 { assert rest[i - 1] == Field(key, w) && IsLast(rest, i - 1); }
    }
    if i :| w != Undefined && 0 <= i < |rest| && rest[i] == Field(key, w) && IsLast(rest, i) {
      assert fields[i + 1] == Field(key, w) && IsLast(fields, i + 1);
    }
  }

  lemma FieldHidden(fields: seq<Field>, key: string, w: Value)
    requires fields != [] && IsField(fields[1..], key, w) && fields[0].key == key
    ensures !IsLast(fields, 0)
  {
    var i :| 0 <= i < |fields[1..]| && fields[1..][i] == Field(key, w) && IsLast(fields[1..], i);
    assert fields[i + 1] == Field(key, w);
  }

  lemma {:induction false} LastOfKey(fields: seq<Field>, key: string, i: nat) returns (last: nat)
    requires i < |fields| && fields[i].key == key && fields[i].value != Undefined
    ensures last < |fields| && fields[last].key == key && fields[last].value != Undefined && IsLast(fields, last)
    decreases |fields| - i
  {
    if IsLast(fields, i) {
      last := i;
    } else {
      var j :| i < j < |fields| && fields[j].key == key && fields[j].value != Undefined;
      last := LastOfKey(fields, key, j);
    }
  }

  lemma FieldShown(fields: seq<Field>, key: string)
    requires fields != [] && fields[0].key == key && forall x :: !IsField(fields[1..], key, x)
    ensures IsLast(fields, 0)
  {
    if !IsLast(fields, 0) {
      var rest := fields[1..];
      var j :| 0 < j < |fields| && fields[j].key == key && fields[j].value != Undefined;
      assert rest[j - 1] == fields[j];
      var last := LastOfKey(rest, key, j - 1);
      assert IsField(rest, key, rest[last].value);
    }
  }

  lemma FieldPlaces(fields: seq<Field>)
    requires fields != []
    ensures |set i: nat | i < |fields| && fields[i].value != Undefined|
            == (if fields[0].value == Undefined then 0 else 1)
               + |set i: nat | i < |fields[1..]| && fields[1..][i].value != Undefined|
  {
    var all := set i: nat | i < |fields| && fields[i].value != Undefined;
    var rest := set i: nat | i < |fields[1..]| && fields[1..][i].value != Undefined;
    var moved := set i | i in rest :: i + 1;
    MovedSize(rest, moved);
    assert all == (if fields[0].value == Undefined then {} else {0}) + moved by {
      forall i | i in all && i > 0 ensures i in moved { assert i - 1 in rest; }
    }
  }

  /** Looking a key up among the entries finds the property, and there is one entry for each defined place. */
  lemma EntriesMeaning(v: Value, key: string, w: Value)
    requires v.IsRecord()
    ensures Lookup(Entries(v), key) == Some(w) <==> HasField(v, key, w)
    ensures |Entries(v)| == |DefinedPlaces(v)|
  {
    match v {
      case Array(items) =>
        IndexedMeaning(items, 0, key, w);
        assert IsItemFrom(items, 0, key, w) <==> HasField(v, key, w) by {
          assert forall i: nat :: Decimal(0 + i) == Decimal(i);
        }
      case Object(fields) =>
        DefinedMeaning(fields, key, w);
        assert IsField(fields, key, w) <==> HasField(v, key, w);
    }
  }

  // ---------------------------------------------------------------- types and constants

  function Whole(k: int): Value { Number(k as real) }

  /** The value has the shape that the type names; a type of another name excludes nothing. */
  ghost predicate HasType(v: Value, name: string) {
    && (name == "array" ==> exists items :: v == Array(items))
    && (name == "boolean" ==> v == Boolean(true) || v == Boolean(false))
    && (name == "integer" ==> exists k :: v == Whole(k))
    && (name == "null" ==> v == Null)
    && (name == "number" ==> exists n :: v == Number(n))
    && (name == "object" ==> exists fields :: v == Object(fields))
    && (name == "string" ==> exists s :: v == Text(s))
  }

  /** The value is the constant, and the constant is no array and no object, which are equal to nothing. */
  ghost predicate IsConstant(v: Value, constant: Value) {
    v == constant && v != Undefined && (forall items :: v != Array(items)) && forall fields :: v != Object(fields)
  }

  // ---------------------------------------------------------------- prints

  predicate PrintsNull(item: Value) { item == Undefined || item == Null }

  /** `JSON.stringify` gives one text: undefined items count as null, undefined fields do not count. */
  ghost predicate SamePrint(a: Value, b: Value)
    decreases a, b
  {
    if a.Array? && b.Array? then
      |a.items| == |b.items|
      && forall i :: 0 <= i < |a.items| ==>
           (PrintsNull(a.items[i]) && PrintsNull(b.items[i]))
           || (!PrintsNull(a.items[i]) && !PrintsNull(b.items[i]) && SamePrint(a.items[i], b.items[i]))
    else if a.Object? && b.Object? then SameFields(a.fields, b.fields)
    else a == b
  }

  ghost predicate SameFields(f: seq<Field>, g: seq<Field>)
    decreases f, g
  {
    if f != [] && f[0].value == Undefined then SameFields(f[1..], g)
    else if g != [] && g[0].value == Undefined then SameFields(f, g[1..])
    else if f == [] || g == [] then f == g
    else f[0].key == g[0].key && SamePrint(f[0].value, g[0].value) && SameFields(f[1..], g[1..])
  }

  lemma {:induction false} PrintedAt(items: seq<Value>, i: nat)
    requires i < |items|
    ensures PrintedItems(items)[i] == if items[i] == Undefined then Null else Printed(items[i])
  {
    if i > 0 { PrintedAt(items[1..], i - 1); }
  }

  lemma PrintedNull(v: Value)
    ensures Printed(v) == Null <==> v == Null
  {
  }

  /** The printed form is equal exactly when the texts are. */
  lemma {:induction false} PrintMeaning(a: Value, b: Value)
    ensures Printed(a) == Printed(b) <==> SamePrint(a, b)
    decreases a, b
  {
    if a.Array? && b.Array? {
      if |a.items| == |b.items| {
        forall i | 0 <= i < |a.items|
          ensures PrintedItems(a.items)[i] == PrintedItems(b.items)[i] <==>
                  (PrintsNull(a.items[i]) && PrintsNull(b.items[i]))
                  || (!PrintsNull(a.items[i]) && !PrintsNull(b.items[i]) && SamePrint(a.items[i], b.items[i]))
        {
          PrintedAt(a.items, i);
          PrintedAt(b.items, i);
          PrintedNull(a.items[i]);
          PrintedNull(b.items[i]);
          PrintMeaning(a.items[i], b.items[i]);
        }
        assert PrintedItems(a.items) == PrintedItems(b.items) <==>
               forall i :: 0 <= i < |a.items| ==> PrintedItems(a.items)[i] == PrintedItems(b.items)[i];
      }
    } else if a.Object? && b.Object? {
      FieldsMeaning(a.fields, b.fields);
    }
  }

  lemma {:induction false} FieldsMeaning(f: seq<Field>, g: seq<Field>)
    ensures PrintedFields(f) == PrintedFields(g) <==> SameFields(f, g)
    decreases f, g
  {
    if f != [] && f[0].value == Undefined {
      FieldsMeaning(f[1..], g);
    } else if g != [] && g[0].value == Undefined {
      FieldsMeaning(f, g[1..]);
    } else if f != [] && g != [] {
      PrintMeaning(f[0].value, g[0].value);
      FieldsMeaning(f[1..], g[1..]);
      var x, y := Field(f[0].key, Printed(f[0].value)), Field(g[0].key, Printed(g[0].value));
      assert PrintedFields(f) == [x] + PrintedFields(f[1..]) && PrintedFields(g) == [y] + PrintedFields(g[1..]);
      ConsEqual(x, PrintedFields(f[1..]), y, PrintedFields(g[1..]));
    }
  }

  lemma ConsEqual<T>(x: T, xs: seq<T>, y: T, ys: seq<T>)
    ensures [x] + xs == [y] + ys <==> x == y && xs == ys
  {
    assert ([x] + xs)[0] == x && ([y] + ys)[0] == y && ([x] + xs)[1..] == xs && ([y] + ys)[1..] == ys;
  }
}
