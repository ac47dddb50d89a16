/**
  The generated map codecs. A record is a CBOR map from field names to values; the writer emits the fields in
  declaration order, and the reader takes them in any order and leaves absent ones at their zero value.
 */
module Codec {
  import opened Prelude
  import opened Cbor

  /** A codec from another package, for field types that are not generated here. */
  datatype Foreign = Foreign(zero: int, write: int -> Option<Bytes>, read: Bytes -> Option<(int, Bytes)>)

  datatype Type =
    | U64 | I64 | Boolean | ByteString
    | External(codec: Foreign)
    | Nullable(inner: Type)
    | List(element: Type)
    | Record(fields: seq<Field>)

  datatype Field = Field(name: Bytes, typ: Type)

  datatype Value =
    | Int(i: int) | Flag(b: bool) | Blob(bytes: Bytes) | Alien(x: int)
    | Null | Just(v: Value)
    | Items(items: seq<Value>)
    | Struct(values: seq<Value>)

  /** The codec returns what it wrote, stops where that ends, and never starts with the null byte. */
  ghost predicate Sound(codec: Foreign) {
    forall x, rest: Bytes :: codec.write(x).Some? ==>
      && |codec.write(x).value| > 0 && codec.write(x).value[0] != CBOR_NULL
      && codec.read(codec.write(x).value + rest) == Some((x, rest))
  }

  ghost predicate Distinct(fields: seq<Field>) {
    forall i, j :: 0 <= i < j < |fields| ==> fields[i].name != fields[j].name
  }

  ghost predicate WellFormed(t: Type) {
    match t
    case External(codec) => Sound(codec)
    case Nullable(inner) => WellFormed(inner) && (inner.Record? || inner.External?)
    case List(element) => WellFormed(element)
    case Record(fields) =>
      && |fields| <= MAX_LENGTH && Distinct(fields)
      && (forall i :: 0 <= i < |fields| ==> |fields[i].name| <= MAX_LENGTH && WellFormed(fields[i].typ))
    case _ => true
  }

  /** A value of the Go type. */
  ghost predicate Has(t: Type, v: Value) {
    match t
    case U64 => v.Int? && 0 <= v.i < TWO_64
    case I64 => v.Int? && -TWO_63 <= v.i < TWO_63
    case Boolean => v.Flag?
    case ByteString => v.Blob?
    case External(_) => v.Alien?
    case Nullable(inner) => v.Null? || (v.Just? && Has(inner, v.v))
    case List(element) => v.Items? && forall i :: 0 <= i < |v.items| ==> Has(element, v.items[i])
    case Record(fields) => v.Struct? && |v.values| == |fields| && forall i :: 0 <= i < |fields| ==> Has(fields[i].typ, v.values[i])
  }

  /** The lengths the writer accepts. */
  ghost predicate InBounds(t: Type, v: Value)
    requires Has(t, v)
  {
    match t
    case ByteString => |v.bytes| <= BYTE_ARRAY_MAX_LEN
    case External(codec) => codec.write(v.x).Some?
    case Nullable(inner) => v.Just? ==> InBounds(inner, v.v)
    case List(element) => |v.items| <= MAX_LENGTH && forall i :: 0 <= i < |v.items| ==> InBounds(element, v.items[i])
    case Record(fields) => forall i :: 0 <= i < |fields| ==> InBounds(fields[i].typ, v.values[i])
    case _ => true
  }

  // Writing ------------------------------------------------------------------------------------------------------

  function Concat(parts: seq<Bytes>): Bytes {
    if parts == [] then [] else parts[0] + Concat(parts[1..])
  }

  /** Map entries with the given encoded values, for some fields in any order. */
  function Entries(fields: seq<Field>, parts: seq<Bytes>, order: seq<nat>): Bytes
    requires |parts| == |fields| && forall i :: 0 <= i < |order| ==> order[i] < |fields|
  {
    if order == [] then [] else Text(fields[order[0]].name) + parts[order[0]] + Entries(fields, parts, order[1..])
  }

  function InOrder(n: nat): seq<nat> {
    seq(n, i => i)
  }

  function Encode(t: Type, v: Value): Bytes
    requires Has(t, v)
  {
    match t
    case U64 => Header(MAJ_UNSIGNED, v.i)
    case I64 => EncodeInt(v.i)
    case Boolean => Header(MAJ_OTHER, if v.b then 21 else 20)
    case ByteString => Header(MAJ_BYTES, |v.bytes|) + v.bytes
    case External(codec) => if codec.write(v.x).Some? then codec.write(v.x).value else []
    case Nullable(inner) => if v.Null? then [CBOR_NULL] else Encode(inner, v.v)
    case List(element) =>
      var parts := seq(|v.items|, i requires 0 <= i < |v.items| => Encode(element, v.items[i]));
      Header(MAJ_ARRAY, |v.items|) + Concat(parts)
    case Record(fields) =>
      var parts := seq(|fields|, i requires 0 <= i < |fields| => Encode(fields[i].typ, v.values[i]));
      Header(MAJ_MAP, |fields|) + Entries(fields, parts, InOrder(|fields|))
  }

  // Reading ------------------------------------------------------------------------------------------------------

  function Zero(t: Type): Value {
    match t
    case U64 => Int(0)
    case I64 => Int(0)
    case Boolean => Flag(false)
    case ByteString => Blob([])
    case External(codec) => Alien(codec.zero)
    case Nullable(_) => Null
    case List(_) => Items([])
    case Record(fields) => Struct(seq(|fields|, i requires 0 <= i < |fields| => Zero(fields[i].typ)))
  }

  type Read<T> = Option<(T, Bytes)>

  /** Which field a key names. */
  function FindField(fields: seq<Field>, name: Bytes): (k: Option<nat>)
    ensures k.Some? ==> k.value < |fields| && fields[k.value].name == name
    ensures k.None? ==> forall i :: 0 <= i < |fields| ==> fields[i].name != name
  {
    if fields == [] then None
    else if fields[|fields| - 1].name == name then Some(|fields| - 1)
    else FindField(fields[..|fields| - 1], name)
  }

  /** A header of the wanted major type whose argument is not too large. */
  function Expect(maj: nat, most: nat, b: Bytes): Read<nat> {
    var h := ReadHeader(b);
    if h.None? || h.value.0 != maj || h.value.1 > most then None else Some((h.value.1, h.value.2))
  }

  /**
    Reads a value into a field that holds `held`. An empty list, an empty byte string and null leave the field's
    value as it was, which shows when a key comes twice. `scan` is what skipping an unknown field's value leaves.
   */
  function Decode(scan: Bytes -> Bytes, t: Type, held: Value, b: Bytes): Read<Value>
    decreases t, 0
  {
    match t
    case Nullable(inner) =>
      if b == [] then None
      else if b[0] == CBOR_NULL then Some((held, b[1..]))
      else
        var r := Decode(scan, inner, Zero(inner), b);
        if r.None? then None else Some((Just(r.value.0), r.value.1))
    case External(codec) =>
      var r := codec.read(b);
      if r.None? then None else Some((Alien(r.value.0), r.value.1))
    case I64 =>
      var r := DecodeInt(b);
      if r.None? then None else Some((Int(r.value.0), r.value.1))
    case U64 =>
      var h := Expect(MAJ_UNSIGNED, TWO_64, b);
      if h.None? then None else Some((Int(h.value.0), h.value.1))
    case Boolean =>
      var h := Expect(MAJ_OTHER, TWO_64, b);
      if h.None? || (h.value.0 != 20 && h.value.0 != 21) then None else Some((Flag(h.value.0 == 21), h.value.1))
    case ByteString =>
      var h := Expect(MAJ_BYTES, BYTE_ARRAY_MAX_LEN, b);
      if h.None? then None
      else
        var n := if h.value.0 == 0 && held.Blob? then |held.bytes| else h.value.0;
        if |h.value.1| < n then None else Some((Blob(h.value.1[..n]), h.value.1[n..]))
    case List(element) =>
      var h := Expect(MAJ_ARRAY, MAX_LENGTH, b);
      if h.None? then None
      else if h.value.0 == 0 then Some((held, h.value.1))
      else
        var r := DecodeItems(scan, element, h.value.0, h.value.1);
        if r.None? then None else Some((Items(r.value.0), r.value.1))
    case Record(fields) =>
      var h := Expect(MAJ_MAP, MAX_LENGTH, b);
      if h.None? then None
      else
        var r := DecodeEntries(scan, fields, Zero(t).values, h.value.0, h.value.1);
        if r.None? then None else Some((Struct(r.value.0), r.value.1))
  }

  function DecodeItems(scan: Bytes -> Bytes, element: Type, n: nat, b: Bytes): Read<seq<Value>>
    decreases element, 1, n
  {
    if n == 0 then Some(([], b))
    else
      var first := Decode(scan, element, Zero(element), b);
      if first.None? then None
      else
        var others := DecodeItems(scan, element, n - 1, first.value.1);
        if others.None? then None else Some(([first.value.0] + others.value.0, others.value.1))
  }

  function DecodeEntries(scan: Bytes -> Bytes, fields: seq<Field>, values: seq<Value>, n: nat, b: Bytes): Read<seq<Value>>
    requires |values| == |fields|
    decreases fields, 1, n
  {
    if n == 0 then Some((values, b))
    else
      var entry := DecodeEntry(scan, fields, values, b);
      if entry.None? then None else DecodeEntries(scan, fields, entry.value.0, n - 1, entry.value.1)
  }

  function DecodeEntry(scan: Bytes -> Bytes, fields: seq<Field>, values: seq<Value>, b: Bytes): (r: Read<seq<Value>>)
    requires |values| == |fields|
    ensures r.Some? ==> |r.value.0| == |fields|
    decreases fields, 0
  {
    var name := ReadText(b);
    if name.None? then None
    else
      var k := FindField(fields, name.value.0);
      if k.None? then Some((values, scan(name.value.1)))
      else
        var r := Decode(scan, fields[k.value].typ, values[k.value], name.value.1);
        if r.None? then None else Some((values[k.value := r.value.0], r.value.1))
  }

  // The round trip -----------------------------------------------------------------------------------------------

  lemma ExpectReads(maj: nat, most: nat, n: nat, rest: Bytes)
    requires maj < 8 && n < TWO_64 && n <= most
    ensures Expect(maj, most, Header(maj, n) + rest) == Some((n, rest))
  {
    HeaderReads(maj, n, rest);
  }

  /** These bytes, followed by any others, are read as the value, and exactly the others are left. */
  ghost predicate ReadsBack(scan: Bytes -> Bytes, t: Type, b: Bytes, v: Value) {
    forall rest: Bytes :: Decode(scan, t, Zero(t), b + rest) == Some((v, rest))
  }

  /** Any value within the limits is read back from what was written for it. */
  lemma {:induction false} RoundTrip(scan: Bytes -> Bytes, t: Type, v: Value)
    requires WellFormed(t) && Has(t, v) && InBounds(t, v)
    ensures ReadsBack(scan, t, Encode(t, v), v)
    decreases t
  {
    match t
    case U64 => U64ReadsBack(scan, v.i);
    case I64 => forall rest: Bytes { IntRoundTrip(v.i, rest); }
    case Boolean => BooleanReadsBack(scan, v.b);
    case ByteString => BlobReadsBack(scan, v.bytes);
    case External(codec) =>
    case Nullable(inner) =>
      if v.Just? {
        RoundTrip(scan, inner, v.v);
        NotNull(inner, v.v);
        JustReadsBack(scan, inner, Encode(inner, v.v), v.v);
      } else {
        NullReadsBack(scan, inner);
      }
    case List(element) =>
      var parts := seq(|v.items|, i requires 0 <= i < |v.items| => Encode(element, v.items[i]));
      forall i | 0 <= i < |v.items| ensures ReadsBack(scan, element, parts[i], v.items[i]) { RoundTrip(scan, element, v.items[i]); }
      ListReadsBack(scan, element, parts, v.items);
    case Record(fields) =>
      var parts := seq(|fields|, i requires 0 <= i < |fields| => Encode(fields[i].typ, v.values[i]));
      forall i | 0 <= i < |fields| ensures ReadsBack(scan, fields[i].typ, parts[i], v.values[i]) { RoundTrip(scan, fields[i].typ, v.values[i]); }
      RecordReadsBack(scan, fields, parts, v.values);
  }

  lemma U64ReadsBack(scan: Bytes -> Bytes, i: nat)
    requires i < TWO_64
    ensures ReadsBack(scan, U64, Header(MAJ_UNSIGNED, i), Int(i))
  {
    forall rest: Bytes { ExpectReads(MAJ_UNSIGNED, TWO_64, i, rest); }
  }

  lemma BooleanReadsBack(scan: Bytes -> Bytes, flag: bool)
    ensures ReadsBack(scan, Boolean, Header(MAJ_OTHER, if flag then 21 else 20), Flag(flag))
  {
    var n := if flag then 21 else 20;
    forall rest: Bytes { ExpectReads(MAJ_OTHER, TWO_64, n, rest); }
  }

  lemma BlobReadsBack(scan: Bytes -> Bytes, bytes: Bytes)
    requires |bytes| <= BYTE_ARRAY_MAX_LEN
    ensures ReadsBack(scan, ByteString, Header(MAJ_BYTES, |bytes|) + bytes, Blob(bytes))
  {
    forall rest: Bytes ensures Decode(scan, ByteString, Blob([]), Header(MAJ_BYTES, |bytes|) + bytes + rest) == Some((Blob(bytes), rest)) {
      ExpectReads(MAJ_BYTES, BYTE_ARRAY_MAX_LEN, |bytes|, bytes + rest);
      assert Header(MAJ_BYTES, |bytes|) + bytes + rest == Header(MAJ_BYTES, |bytes|) + (bytes + rest);
      assert (bytes + rest)[..|bytes|] == bytes && (bytes + rest)[|bytes|..] == rest;
    }
  }

  /** Encodings of records and foreign values never look like null. */
  lemma {:induction false} NotNull(t: Type, v: Value)
    requires WellFormed(t) && Has(t, v) && InBounds(t, v) && (t.Record? || t.External?)
    ensures |Encode(t, v)| > 0 && Encode(t, v)[0] != CBOR_NULL
  {
    if t.External? { assert t.codec.write(v.x).value + [] == t.codec.write(v.x).value; }
  }

  lemma NullReadsBack(scan: Bytes -> Bytes, inner: Type)
    ensures ReadsBack(scan, Nullable(inner), [CBOR_NULL], Null)
  {
    forall rest: Bytes ensures ([CBOR_NULL] + rest)[1..] == rest { }
  }

  lemma JustReadsBack(scan: Bytes -> Bytes, inner: Type, b: Bytes, v: Value)
    requires |b| > 0 && b[0] != CBOR_NULL && ReadsBack(scan, inner, b, v)
    ensures ReadsBack(scan, Nullable(inner), b, Just(v))
  {
  }

  lemma {:induction false} ItemsReadBack(scan: Bytes -> Bytes, element: Type, parts: seq<Bytes>, items: seq<Value>, rest: Bytes)
    requires |parts| == |items| && forall i :: 0 <= i < |items| ==> ReadsBack(scan, element, parts[i], items[i])
    ensures DecodeItems(scan, element, |items|, Concat(parts) + rest) == Some((items, rest))
    decreases |items|
  {
    if items == [] {
      assert Concat(parts) + rest == rest;
    } else {
      var more := Concat(parts[1..]) + rest;
      assert Concat(parts) + rest == parts[0] + more;
      assert ReadsBack(scan, element, parts[0], items[0]);
      ItemsReadBack(scan, element, parts[1..], items[1..], rest);
      assert [items[0]] + items[1..] == items;
    }
  }

  lemma {:induction false} CountedItemsRead(scan: Bytes -> Bytes, element: Type, items: seq<Value>, body: Bytes, rest: Bytes)
    requires |items| <= MAX_LENGTH && DecodeItems(scan, element, |items|, body) == Some((items, rest))
    ensures Decode(scan, List(element), Items([]), Header(MAJ_ARRAY, |items|) + body) == Some((Items(items), rest))
  {
    ExpectReads(MAJ_ARRAY, MAX_LENGTH, |items|, body);
  }

  lemma {:induction false} ListReadsBack(scan: Bytes -> Bytes, element: Type, parts: seq<Bytes>, items: seq<Value>)
    requires |parts| == |items| <= MAX_LENGTH && forall i :: 0 <= i < |items| ==> ReadsBack(scan, element, parts[i], items[i])
    ensures ReadsBack(scan, List(element), Header(MAJ_ARRAY, |items|) + Concat(parts), Items(items))
  {
    var b := Header(MAJ_ARRAY, |items|) + Concat(parts);
    forall rest: Bytes ensures Decode(scan, List(element), Items([]), b + rest) == Some((Items(items), rest)) {
      ItemsReadBack(scan, element, parts, items, rest);
      CountedItemsRead(scan, element, items, Concat(parts) + rest, rest);
      assert b + rest == Header(MAJ_ARRAY, |items|) + (Concat(parts) + rest);
    }
  }

  // Records ------------------------------------------------------------------------------------------------------

  ghost predicate Indices(n: nat, order: seq<nat>) {
    (forall i :: 0 <= i < |order| ==> order[i] < n) && (forall i, j :: 0 <= i < j < |order| ==> order[i] != order[j])
  }

  /** The values of the listed fields, and what was there for the others. */
  ghost function Filled(held: seq<Value>, values: seq<Value>, order: seq<nat>): seq<Value>
    requires |held| == |values|
  {
    seq(|held|, k requires 0 <= k < |held| => if k in order then values[k] else held[k])
  }

  /** Distinct keys whose encoded values are read back. */
  ghost predicate Readable(scan: Bytes -> Bytes, fields: seq<Field>, parts: seq<Bytes>, values: seq<Value>) {
    && |parts| == |fields| && |values| == |fields| && Distinct(fields)
    && forall i :: 0 <= i < |fields| ==> |fields[i].name| <= MAX_LENGTH && ReadsBack(scan, fields[i].typ, parts[i], values[i])
  }

  lemma {:induction false} EntryReadsBack(scan: Bytes -> Bytes, fields: seq<Field>, parts: seq<Bytes>, values: seq<Value>, held: seq<Value>, k: nat, rest: Bytes)
    requires Readable(scan, fields, parts, values) && |held| == |fields| && k < |fields| && held[k] == Zero(fields[k].typ)
    ensures DecodeEntry(scan, fields, held, Text(fields[k].name) + parts[k] + rest) == Some((held[k := values[k]], rest))
  {
    assert Text(fields[k].name) + parts[k] + rest == Text(fields[k].name) + (parts[k] + rest);
    TextReads(fields[k].name, parts[k] + rest);
    assert FindField(fields, fields[k].name) == Some(k);
    assert ReadsBack(scan, fields[k].typ, parts[k], values[k]);
  }

  lemma {:induction false} EntriesStep(fields: seq<Field>, parts: seq<Bytes>, order: seq<nat>, rest: Bytes)
    requires |parts| == |fields| && |order| > 0 && forall i :: 0 <= i < |order| ==> order[i] < |fields|
    ensures Entries(fields, parts, order) + rest
         == Text(fields[order[0]].name) + parts[order[0]] + (Entries(fields, parts, order[1..]) + rest)
  {
    var name, part, others := Text(fields[order[0]].name), parts[order[0]], Entries(fields, parts, order[1..]);
    assert name + part + others + rest == name + part + (others + rest);
  }

  lemma FilledStep(held: seq<Value>, values: seq<Value>, order: seq<nat>)
    requires |held| == |values| && |order| > 0 && order[0] < |held|
    ensures Filled(held[order[0] := values[order[0]]], values, order[1..]) == Filled(held, values, order)
  {
    assert order == [order[0]] + order[1..];
  }

  lemma {:induction false} DecodeStep(scan: Bytes -> Bytes, fields: seq<Field>, held: seq<Value>, held': seq<Value>, n: nat, b: Bytes, more: Bytes)
    requires |held| == |fields| && DecodeEntry(scan, fields, held, b) == Some((held', more))
    ensures |held'| == |fields| && DecodeEntries(scan, fields, held, n + 1, b) == DecodeEntries(scan, fields, held', n, more)
  {
  }

  /** The fields that are still to come hold their zero value. */
  ghost predicate Untouched(fields: seq<Field>, held: seq<Value>, order: seq<nat>) {
    && |held| == |fields| && Indices(|fields|, order)
    && forall i :: 0 <= i < |order| ==> held[order[i]] == Zero(fields[order[i]].typ)
  }

  lemma {:induction false} UntouchedStep(fields: seq<Field>, held: seq<Value>, order: seq<nat>, v: Value)
    requires Untouched(fields, held, order) && |order| > 0
    ensures Untouched(fields, held[order[0] := v], order[1..])
  {
  }

  lemma {:induction false} NoEntriesReadBack(scan: Bytes -> Bytes, fields: seq<Field>, parts: seq<Bytes>, values: seq<Value>, held: seq<Value>, rest: Bytes)
    requires |held| == |fields| == |values| == |parts|
    ensures DecodeEntries(scan, fields, held, 0, Entries(fields, parts, []) + rest) == Some((Filled(held, values, []), rest))
  {
    assert Entries(fields, parts, []) + rest == rest;
    assert Filled(held, values, []) == held;
  }

  /** One entry more in front of entries that are read back. */
  lemma {:induction false} MoreEntriesReadBack(scan: Bytes -> Bytes, fields: seq<Field>, parts: seq<Bytes>, values: seq<Value>, held: seq<Value>, order: seq<nat>, rest: Bytes)
    requires Readable(scan, fields, parts, values) && Untouched(fields, held, order) && |order| > 0
    requires var held', order' := held[order[0] := values[order[0]]], order[1..];
      DecodeEntries(scan, fields, held', |order'|, Entries(fields, parts, order') + rest) == Some((Filled(held', values, order'), rest))
    ensures DecodeEntries(scan, fields, held, |order|, Entries(fields, parts, order) + rest) == Some((Filled(held, values, order), rest))
  {
    FirstEntryReads(scan, fields, parts, values, held, order, rest);
    FilledStep(held, values, order);
  }

  lemma {:induction false} EntriesReadBack(scan: Bytes -> Bytes, fields: seq<Field>, parts: seq<Bytes>, values: seq<Value>, held: seq<Value>, order: seq<nat>, rest: Bytes)
    requires Readable(scan, fields, parts, values) && Untouched(fields, held, order)
    ensures DecodeEntries(scan, fields, held, |order|, Entries(fields, parts, order) + rest) == Some((Filled(held, values, order), rest))
    decreases |order|
  {
    if order == [] {
      NoEntriesReadBack(scan, fields, parts, values, held, rest);
    } else {
      UntouchedStep(fields, held, order, values[order[0]]);
      EntriesReadBack(scan, fields, parts, values, held[order[0] := values[order[0]]], order[1..], rest);
      MoreEntriesReadBack(scan, fields, parts, values, held, order, rest);
    }
  }

  lemma {:induction false} FirstEntryReads(scan: Bytes -> Bytes, fields: seq<Field>, parts: seq<Bytes>, values: seq<Value>, held: seq<Value>, order: seq<nat>, rest: Bytes)
    requires Readable(scan, fields, parts, values) && Untouched(fields, held, order) && |order| > 0
    ensures DecodeEntries(scan, fields, held, |order|, Entries(fields, parts, order) + rest)
         == DecodeEntries(scan, fields, held[order[0] := values[order[0]]], |order| - 1, Entries(fields, parts, order[1..]) + rest)
  {
    var k, more := order[0], Entries(fields, parts, order[1..]) + rest;
    EntryReadsBack(scan, fields, parts, values, held, k, more);
    EntriesStep(fields, parts, order, rest);
    DecodeStep(scan, fields, held, held[k := values[k]], |order| - 1, Entries(fields, parts, order) + rest, more);
  }

  /** The map entries of some fields, in any order: those fields get their values, the others their zero value. */
  lemma {:induction false} SomeFieldsReadBack(scan: Bytes -> Bytes, fields: seq<Field>, parts: seq<Bytes>, values: seq<Value>, order: seq<nat>)
    requires Readable(scan, fields, parts, values) && Indices(|fields|, order) && |order| <= MAX_LENGTH
    ensures ReadsBack(scan, Record(fields), Header(MAJ_MAP, |order|) + Entries(fields, parts, order), Struct(Filled(Zero(Record(fields)).values, values, order)))
  {
    var t, body := Record(fields), Entries(fields, parts, order);
    forall rest: Bytes ensures Decode(scan, t, Zero(t), Header(MAJ_MAP, |order|) + body + rest) == Some((Struct(Filled(Zero(t).values, values, order)), rest)) {
      ExpectReads(MAJ_MAP, MAX_LENGTH, |order|, body + rest);
      assert Header(MAJ_MAP, |order|) + body + rest == Header(MAJ_MAP, |order|) + (body + rest);
      EntriesReadBack(scan, fields, parts, values, Zero(t).values, order, rest);
    }
  }

  /** Every field once, in any order: the order of distinct keys does not matter. */
  lemma {:induction false} AnyOrderReadsBack(scan: Bytes -> Bytes, fields: seq<Field>, parts: seq<Bytes>, values: seq<Value>, order: seq<nat>)
    requires Readable(scan, fields, parts, values) && Indices(|fields|, order) && |order| <= MAX_LENGTH
    requires forall k :: 0 <= k < |fields| ==> k in order
    ensures ReadsBack(scan, Record(fields), Header(MAJ_MAP, |order|) + Entries(fields, parts, order), Struct(values))
  {
    SomeFieldsReadBack(scan, fields, parts, values, order);
    assert Filled(Zero(Record(fields)).values, values, order) == values;
  }

  lemma {:induction false} RecordReadsBack(scan: Bytes -> Bytes, fields: seq<Field>, parts: seq<Bytes>, values: seq<Value>)
    requires Readable(scan, fields, parts, values) && |fields| <= MAX_LENGTH
    ensures ReadsBack(scan, Record(fields), Header(MAJ_MAP, |fields|) + Entries(fields, parts, InOrder(|fields|)), Struct(values))
  {
    var order := InOrder(|fields|);
    forall k | 0 <= k < |fields| ensures k in order { assert order[k] == k; }
    AnyOrderReadsBack(scan, fields, parts, values, order);
  }

  /**
    The decoded record does not depend on the order of its distinct keys: any arrangement of the entries written for
    a value is read as that value.
   */
  lemma {:induction false} OrderDoesNotMatter(scan: Bytes -> Bytes, fields: seq<Field>, v: Value, order: seq<nat>)
    requires WellFormed(Record(fields)) && Has(Record(fields), v) && InBounds(Record(fields), v)
    requires Indices(|fields|, order) && |order| == |fields| && forall k :: 0 <= k < |fields| ==> k in order
    ensures var parts := seq(|fields|, i requires 0 <= i < |fields| => Encode(fields[i].typ, v.values[i]));
      ReadsBack(scan, Record(fields), Header(MAJ_MAP, |fields|) + Entries(fields, parts, order), v)
  {
    var parts := seq(|fields|, i requires 0 <= i < |fields| => Encode(fields[i].typ, v.values[i]));
    forall i | 0 <= i < |fields| ensures ReadsBack(scan, fields[i].typ, parts[i], v.values[i]) { RoundTrip(scan, fields[i].typ, v.values[i]); }
    AnyOrderReadsBack(scan, fields, parts, v.values, order);
  }
}
