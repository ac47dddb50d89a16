/** The writer and the reader step by step, and what is known of every input the reader accepts. */
module CodecMethods {
  import opened Prelude
  import opened Cbor
  import opened Codec

  // Accepted inputs ----------------------------------------------------------------------------------------------

  /** A value of the type that the writer accepts. */
  ghost predicate Fits(t: Type, v: Value) {
    Has(t, v) && InBounds(t, v)
  }

  /** The zero value can be written. A foreign one may not be: an undefined CID has no encoding. Pointers are null. */
  ghost predicate ZeroWrites(t: Type) {
    match t
    case External(codec) => codec.write(codec.zero).Some?
    case Record(fields) => forall i :: 0 <= i < |fields| ==> ZeroWrites(fields[i].typ)
    case _ => true
  }

  lemma {:induction false} ZeroFits(t: Type)
    ensures Has(t, Zero(t)) && (InBounds(t, Zero(t)) <==> ZeroWrites(t))
    decreases t
  {
    if t.Record? { forall i | 0 <= i < |t.fields| { ZeroFits(t.fields[i].typ); } }
  }

  /** Whatever a foreign codec reads it can write. */
  ghost predicate Rewrites(t: Type) {
    match t
    case External(codec) => forall b: Bytes :: codec.read(b).Some? ==> codec.write(codec.read(b).value.0).Some?
    case Nullable(inner) => Rewrites(inner)
    case List(element) => Rewrites(element)
    case Record(fields) => forall i :: 0 <= i < |fields| ==> Rewrites(fields[i].typ)
    case _ => true
  }

  lemma ExpectBounds(maj: nat, most: nat, b: Bytes)
    requires Expect(maj, most, b).Some?
    ensures Expect(maj, most, b).value.0 <= most && Expect(maj, most, b).value.0 < TWO_64
  {
    HeaderIsUnique(b);
  }

  lemma DecodedIntFits(b: Bytes)
    requires DecodeInt(b).Some?
    ensures -TWO_63 <= DecodeInt(b).value.0 < TWO_63
  {
  }

  /** The input gives a value of its own; null and an empty list or byte string leave what is there. */
  predicate Sets(t: Type, b: Bytes) {
    match t
    case Nullable(_) => b != [] && b[0] != CBOR_NULL
    case List(_) => Expect(MAJ_ARRAY, MAX_LENGTH, b).Some? && Expect(MAJ_ARRAY, MAX_LENGTH, b).value.0 > 0
    case ByteString => Expect(MAJ_BYTES, BYTE_ARRAY_MAX_LEN, b).Some? && Expect(MAJ_BYTES, BYTE_ARRAY_MAX_LEN, b).value.0 > 0
    case _ => true
  }

  /** An entry with a known key: the field, and the input from its value on. */
  datatype Entry = Entry(field: nat, at: Bytes)

  /** The entries with known keys, as the reader meets them. */
  function Known(scan: Bytes -> Bytes, fields: seq<Field>, held: seq<Value>, n: nat, b: Bytes): seq<Entry>
    requires |held| == |fields|
    decreases n
  {
    var entry := if n == 0 then None else DecodeEntry(scan, fields, held, b);
    if entry.None? then [] else First(fields, b) + Known(scan, fields, entry.value.0, n - 1, entry.value.1)
  }

  function First(fields: seq<Field>, b: Bytes): (entries: seq<Entry>)
    ensures |entries| <= 1
  {
    var name := ReadText(b);
    var k := if name.None? then None else FindField(fields, name.value.0);
    if k.None? then [] else [Entry(k.value, name.value.1)]
  }

  /** The last value that the entries give to a field. */
  function LastSet(t: Type, k: nat, entries: seq<Entry>): Option<Bytes> {
    if entries == [] then None
    else
      var later, first := LastSet(t, k, entries[1..]), entries[0];
      if later.Some? then later else if first.field == k && Sets(t, first.at) then Some(first.at) else None
  }

  /**
    Nothing that cannot be written is left in the input's value: in every record each field is given, last, a value of
    which the same is true, or its zero value can be written.
   */
  ghost predicate Complete(scan: Bytes -> Bytes, t: Type, b: Bytes)
    decreases t, 0
  {
    match t
    case Nullable(inner) => Sets(t, b) ==> Complete(scan, inner, b)
    case List(element) => Sets(t, b) ==> var h := Expect(MAJ_ARRAY, MAX_LENGTH, b).value; CompleteItems(scan, element, h.0, h.1)
    case Record(fields) =>
      var h := Expect(MAJ_MAP, MAX_LENGTH, b);
      h.Some? ==>
        var entries := Known(scan, fields, Zero(t).values, h.value.0, h.value.1);
        forall i :: 0 <= i < |fields| ==>
          var at := LastSet(fields[i].typ, i, entries);
          if at.Some? then Complete(scan, fields[i].typ, at.value) else ZeroWrites(fields[i].typ)
    case _ => true
  }

  ghost predicate CompleteItems(scan: Bytes -> Bytes, element: Type, n: nat, b: Bytes)
    decreases element, 1, n
  {
    n > 0 ==>
      && Complete(scan, element, b)
      && var first := Decode(scan, element, Zero(element), b);
      first.Some? ==> CompleteItems(scan, element, n - 1, first.value.1)
  }

  /** Whether a field can be written that held something writable or not, after these entries. */
  ghost predicate StillFits(scan: Bytes -> Bytes, t: Type, k: nat, entries: seq<Entry>, before: bool) {
    var at := LastSet(t, k, entries);
    if at.Some? then Complete(scan, t, at.value) else before
  }

  ghost predicate AllHave(fields: seq<Field>, values: seq<Value>) {
    |values| == |fields| && forall i :: 0 <= i < |fields| ==> Has(fields[i].typ, values[i])
  }

  /** Whatever the input: a value that was read has its type, and exactly when the input is complete can it be written. */
  lemma {:induction false} DecodedFits(scan: Bytes -> Bytes, t: Type, held: Value, b: Bytes)
    requires Rewrites(t) && Has(t, held) && Decode(scan, t, held, b).Some?
    ensures var v := Decode(scan, t, held, b).value.0;
      Has(t, v) && (InBounds(t, v) <==> if Sets(t, b) then Complete(scan, t, b) else InBounds(t, held))
    decreases t, 0
  {
    match t
    case U64 => ExpectBounds(MAJ_UNSIGNED, TWO_64, b);
    case I64 => DecodedIntFits(b);
    case Boolean =>
    case ByteString => ExpectBounds(MAJ_BYTES, BYTE_ARRAY_MAX_LEN, b);
    case External(codec) =>
    case Nullable(inner) => if b[0] != CBOR_NULL { ZeroFits(inner); DecodedAnew(scan, inner, b); }
    case List(element) =>
      ExpectBounds(MAJ_ARRAY, MAX_LENGTH, b);
      var h := Expect(MAJ_ARRAY, MAX_LENGTH, b).value;
      if h.0 > 0 { DecodedItemsFit(scan, element, h.0, h.1); }
    case Record(fields) => DecodedRecordFits(scan, fields, b);
  }

  lemma {:induction false} DecodedRecordFits(scan: Bytes -> Bytes, fields: seq<Field>, b: Bytes)
    requires Rewrites(Record(fields)) && Decode(scan, Record(fields), Zero(Record(fields)), b).Some?
    ensures var t := Record(fields); var v := Decode(scan, t, Zero(t), b).value.0;
      Has(t, v) && (InBounds(t, v) <==> Complete(scan, t, b))
    decreases fields, 2
  {
    var t := Record(fields);
    var h := Expect(MAJ_MAP, MAX_LENGTH, b).value;
    var zero, entries := Zero(t).values, Known(scan, fields, Zero(t).values, h.0, h.1);
    ZeroFits(t);
    DecodedEntriesHave(scan, fields, zero, h.0, h.1);
    var values := DecodeEntries(scan, fields, zero, h.0, h.1).value.0;
    forall i | 0 <= i < |fields|
      ensures InBounds(fields[i].typ, values[i]) <==> StillFits(scan, fields[i].typ, i, entries, ZeroWrites(fields[i].typ))
    {
      DecodedEntriesFit(scan, fields, zero, h.0, h.1, i);
      ZeroFits(fields[i].typ);
    }
  }

  /** The same of a value that is read into a fresh variable. */
  lemma {:induction false} DecodedAnew(scan: Bytes -> Bytes, t: Type, b: Bytes)
    requires Rewrites(t) && Decode(scan, t, Zero(t), b).Some?
    ensures var v := Decode(scan, t, Zero(t), b).value.0; Has(t, v) && (InBounds(t, v) <==> Complete(scan, t, b))
    decreases t, 1
  {
    ZeroFits(t);
    DecodedFits(scan, t, Zero(t), b);
  }

  ghost predicate ItemsHave(element: Type, items: seq<Value>) {
    forall i :: 0 <= i < |items| ==> Has(element, items[i])
  }

  ghost predicate ItemsInBounds(element: Type, items: seq<Value>)
    requires ItemsHave(element, items)
  {
    forall i :: 0 <= i < |items| ==> InBounds(element, items[i])
  }

  lemma ItemsCons(element: Type, first: Value, others: seq<Value>)
    requires Has(element, first) && ItemsHave(element, others)
    ensures ItemsHave(element, [first] + others)
    ensures ItemsInBounds(element, [first] + others) <==> InBounds(element, first) && ItemsInBounds(element, others)
  {
    var all := [first] + others;
    forall i | 0 <= i < |others| ensures all[i + 1] == others[i] { }
    if ItemsInBounds(element, all) { assert InBounds(element, all[0]); }
  }

  lemma {:induction false} DecodedItemsFit(scan: Bytes -> Bytes, element: Type, n: nat, b: Bytes)
    requires Rewrites(element) && DecodeItems(scan, element, n, b).Some?
    ensures var items := DecodeItems(scan, element, n, b).value.0;
      |items| == n && ItemsHave(element, items) && (ItemsInBounds(element, items) <==> CompleteItems(scan, element, n, b))
    decreases element, 2, n
  {
    if n > 0 {
      DecodedAnew(scan, element, b);
      var first := Decode(scan, element, Zero(element), b).value;
      DecodedItemsFit(scan, element, n - 1, first.1);
      ItemsCons(element, first.0, DecodeItems(scan, element, n - 1, first.1).value.0);
    }
  }

  /** At most one entry in front: it counts for its own field, unless a later one sets that. */
  lemma StillFitsOnwards(scan: Bytes -> Bytes, t: Type, k: nat, first: seq<Entry>, others: seq<Entry>, before: bool)
    requires |first| <= 1
    ensures StillFits(scan, t, k, first + others, before) <==> StillFits(scan, t, k, others, StillFits(scan, t, k, first, before))
  {
    if first == [] {
      assert first + others == others;
    } else {
      assert first == [first[0]];
      OneSet(t, k, first[0]);
      SetBefore(t, k, first[0], others);
    }
  }

  lemma {:induction false} OneSet(t: Type, k: nat, e: Entry)
    ensures LastSet(t, k, [e]) == if e.field == k && Sets(t, e.at) then Some(e.at) else None
  {
    assert [e][1..] == [];
  }

  lemma {:induction false} SetBefore(t: Type, k: nat, e: Entry, entries: seq<Entry>)
    ensures LastSet(t, k, [e] + entries) == if LastSet(t, k, entries).Some? then LastSet(t, k, entries) else LastSet(t, k, [e])
  {
    OneSet(t, k, e);
    assert ([e] + entries)[1..] == entries;
  }

  lemma {:induction false} DecodedEntriesHave(scan: Bytes -> Bytes, fields: seq<Field>, held: seq<Value>, n: nat, b: Bytes)
    requires Rewrites(Record(fields)) && AllHave(fields, held) && DecodeEntries(scan, fields, held, n, b).Some?
    ensures AllHave(fields, DecodeEntries(scan, fields, held, n, b).value.0)
    decreases fields, 1, n
  {
    if n > 0 {
      DecodedEntryHas(scan, fields, held, b);
      var entry := DecodeEntry(scan, fields, held, b).value;
      DecodedEntriesHave(scan, fields, entry.0, n - 1, entry.1);
    }
  }

  lemma {:induction false} DecodedEntryHas(scan: Bytes -> Bytes, fields: seq<Field>, held: seq<Value>, b: Bytes)
    requires Rewrites(Record(fields)) && AllHave(fields, held) && DecodeEntry(scan, fields, held, b).Some?
    ensures AllHave(fields, DecodeEntry(scan, fields, held, b).value.0)
    decreases fields, 0
  {
    var name := ReadText(b).value;
    var k := FindField(fields, name.0);
    if k.Some? { DecodedFits(scan, fields[k.value].typ, held[k.value], name.1); }
  }

  lemma {:induction false} DecodedEntriesFit(scan: Bytes -> Bytes, fields: seq<Field>, held: seq<Value>, n: nat, b: Bytes, i: nat)
    requires Rewrites(Record(fields)) && AllHave(fields, held) && DecodeEntries(scan, fields, held, n, b).Some? && i < |fields|
    ensures var values, t := DecodeEntries(scan, fields, held, n, b).value.0, fields[i].typ;
      && |values| == |fields| && Has(t, values[i])
      && (InBounds(t, values[i]) <==> StillFits(scan, t, i, Known(scan, fields, held, n, b), InBounds(t, held[i])))
    decreases fields, 1, n
  {
    if n > 0 {
      var entry, t := DecodeEntry(scan, fields, held, b).value, fields[i].typ;
      DecodedEntryHas(scan, fields, held, b);
      DecodedEntryFits(scan, fields, held, b, i);
      DecodedEntriesFit(scan, fields, entry.0, n - 1, entry.1, i);
      StillFitsOnwards(scan, t, i, First(fields, b), Known(scan, fields, entry.0, n - 1, entry.1), InBounds(t, held[i]));
    }
  }

  lemma {:induction false} DecodedEntryFits(scan: Bytes -> Bytes, fields: seq<Field>, held: seq<Value>, b: Bytes, i: nat)
    requires Rewrites(Record(fields)) && AllHave(fields, held) && DecodeEntry(scan, fields, held, b).Some? && i < |fields|
    ensures var values, t := DecodeEntry(scan, fields, held, b).value.0, fields[i].typ;
      Has(t, values[i]) && (InBounds(t, values[i]) <==> StillFits(scan, t, i, First(fields, b), InBounds(t, held[i])))
    decreases fields, 0
  {
    var name := ReadText(b).value;
    var k := FindField(fields, name.0);
    if k.Some? { OneSet(fields[i].typ, i, Entry(k.value, name.1)); }
    if k == Some(i) { DecodedFits(scan, fields[i].typ, held[i], name.1); }
  }

  /**
    Accepted input, in any key order and with keys repeated or unknown, can be written again exactly when it is
    complete, and then what is written means the same.
   */
  lemma Normalised(scan: Bytes -> Bytes, t: Type, b: Bytes)
    requires WellFormed(t) && Rewrites(t) && Decode(scan, t, Zero(t), b).Some?
    ensures var v := Decode(scan, t, Zero(t), b).value.0;
      Has(t, v) && (InBounds(t, v) <==> Complete(scan, t, b)) && (Complete(scan, t, b) ==> ReadsBack(scan, t, Encode(t, v), v))
  {
    DecodedAnew(scan, t, b);
    if Complete(scan, t, b) { RoundTrip(scan, t, Decode(scan, t, Zero(t), b).value.0); }
  }

  /**
    What a repeated key does: null and an empty list leave the value that was there, and an empty byte string takes as
    many bytes of the input as were there.
   */
  lemma {:induction false} RepeatedKeys(scan: Bytes -> Bytes, inner: Type, held: Value, before: Bytes, rest: Bytes)
    ensures Decode(scan, Nullable(inner), held, [0xf6] + rest) == Some((held, rest))
    ensures Decode(scan, List(inner), held, [0x80] + rest) == Some((held, rest))
    ensures Decode(scan, ByteString, Blob(before), [0x40] + rest) ==
      if |rest| < |before| then None else Some((Blob(rest[..|before|]), rest[|before|..]))
  {
    assert ([0xf6] + rest)[1..] == rest;
    EmptyHeader(4, rest);
    EmptyHeader(2, rest);
  }

  lemma {:induction false} EmptyHeader(maj: nat, rest: Bytes)
    requires maj < 8
    ensures ReadHeader([maj * 32] + rest) == Some((maj, 0, rest))
  {
    HeaderBytes(maj, 0);
    HeaderReads(maj, 0, rest);
  }

  /** Every record in the type can be written with any of its fields left out. */
  ghost predicate ZerosWrite(t: Type) {
    match t
    case Nullable(inner) => ZerosWrite(inner)
    case List(element) => ZerosWrite(element)
    case Record(fields) => forall i :: 0 <= i < |fields| ==> ZeroWrites(fields[i].typ) && ZerosWrite(fields[i].typ)
    case _ => true
  }

  /** Of such a type all accepted input is complete. */
  lemma {:induction false} AlwaysComplete(scan: Bytes -> Bytes, t: Type, b: Bytes)
    requires ZerosWrite(t)
    ensures Complete(scan, t, b)
    decreases t, 0
  {
    match t
    case Nullable(inner) => AlwaysComplete(scan, inner, b);
    case List(element) =>
      var h := Expect(MAJ_ARRAY, MAX_LENGTH, b);
      if h.Some? { AlwaysCompleteItems(scan, element, h.value.0, h.value.1); }
    case Record(fields) =>
      forall i, at | 0 <= i < |fields| ensures Complete(scan, fields[i].typ, at) { AlwaysComplete(scan, fields[i].typ, at); }
    case _ =>
  }

  lemma {:induction false} AlwaysCompleteItems(scan: Bytes -> Bytes, element: Type, n: nat, b: Bytes)
    requires ZerosWrite(element)
    ensures CompleteItems(scan, element, n, b)
    decreases element, 1, n
  {
    if n > 0 {
      AlwaysComplete(scan, element, b);
      var first := Decode(scan, element, Zero(element), b);
      if first.Some? { AlwaysCompleteItems(scan, element, n - 1, first.value.1); }
    }
  }

  ghost predicate Given(entries: seq<Entry>, k: nat) {
    exists j :: 0 <= j < |entries| && entries[j].field == k
  }

  lemma {:induction false} SetIffGiven(codec: Foreign, k: nat, entries: seq<Entry>)
    ensures LastSet(External(codec), k, entries).Some? <==> Given(entries, k)
    decreases |entries|
  {
    if entries != [] {
      SetIffGiven(codec, k, entries[1..]);
      if Given(entries[1..], k) {
        var j :| 0 <= j < |entries| - 1 && entries[1..][j].field == k;
        assert entries[j + 1].field == k;
      }
      if Given(entries, k) && entries[0].field != k {
        var j :| 0 <= j < |entries| && entries[j].field == k;
        assert entries[1..][j - 1].field == k;
      }
    }
  }

  /**
    A record whose only values without a writable zero are foreign fields of its own: accepted input can be written
    again exactly when the keys of those fields are among its entries.
   */
  lemma {:induction false} RewritableIffGiven(scan: Bytes -> Bytes, fields: seq<Field>, b: Bytes)
    requires Rewrites(Record(fields)) && Decode(scan, Record(fields), Zero(Record(fields)), b).Some?
    requires forall i :: 0 <= i < |fields| ==> fields[i].typ.External? || (ZeroWrites(fields[i].typ) && ZerosWrite(fields[i].typ))
    ensures var t, h := Record(fields), Expect(MAJ_MAP, MAX_LENGTH, b).value;
      var v, entries := Decode(scan, t, Zero(t), b).value.0, Known(scan, fields, Zero(t).values, h.0, h.1);
      Has(t, v) && (InBounds(t, v) <==> forall i :: 0 <= i < |fields| && !ZeroWrites(fields[i].typ) ==> Given(entries, i))
  {
    var t, h := Record(fields), Expect(MAJ_MAP, MAX_LENGTH, b).value;
    var entries := Known(scan, fields, Zero(t).values, h.0, h.1);
    DecodedAnew(scan, t, b);
    forall i | 0 <= i < |fields|
      ensures StillFits(scan, fields[i].typ, i, entries, ZeroWrites(fields[i].typ)) <==> (!ZeroWrites(fields[i].typ) ==> Given(entries, i))
    {
      if fields[i].typ.External? {
        SetIffGiven(fields[i].typ.codec, i, entries);
      } else {
        var at := LastSet(fields[i].typ, i, entries);
        if at.Some? { AlwaysComplete(scan, fields[i].typ, at.value); }
      }
    }
    assert Complete(scan, t, b) <==> forall i :: 0 <= i < |fields| ==> StillFits(scan, fields[i].typ, i, entries, ZeroWrites(fields[i].typ));
  }

  // Writing ------------------------------------------------------------------------------------------------------

  lemma {:induction false} ConcatSnoc(parts: seq<Bytes>, last: Bytes)
    ensures Concat(parts + [last]) == Concat(parts) + last
    decreases |parts|
  {
    if parts == [] {
      assert Concat([last]) == last + Concat([]);
    } else {
      assert (parts + [last])[1..] == parts[1..] + [last];
      ConcatSnoc(parts[1..], last);
    }
  }

  lemma {:induction false} EntriesSnoc(fields: seq<Field>, parts: seq<Bytes>, order: seq<nat>, k: nat)
    requires |parts| == |fields| && k < |fields| && forall i :: 0 <= i < |order| ==> order[i] < |fields|
    ensures Entries(fields, parts, order + [k]) == Entries(fields, parts, order) + Text(fields[k].name) + parts[k]
    decreases |order|
  {
    if order == [] {
      assert Entries(fields, parts, [k]) == Text(fields[k].name) + parts[k] + Entries(fields, parts, []);
    } else {
      assert (order + [k])[1..] == order[1..] + [k];
      EntriesSnoc(fields, parts, order[1..], k);
    }
  }

  lemma {:induction false} FieldWritten(fields: seq<Field>, parts: seq<Bytes>, i: nat)
    requires |parts| == |fields| && i < |fields|
    ensures Entries(fields, parts, InOrder(i + 1)) == Entries(fields, parts, InOrder(i)) + Text(fields[i].name) + parts[i]
  {
    EntriesSnoc(fields, parts, InOrder(i), i);
    assert InOrder(i + 1) == InOrder(i) + [i];
  }

  lemma {:induction false} ItemWritten(parts: seq<Bytes>, i: nat)
    requires i < |parts|
    ensures Concat(parts[..i + 1]) == Concat(parts[..i]) + parts[i]
  {
    ConcatSnoc(parts[..i], parts[i]);
    assert parts[..i + 1] == parts[..i] + [parts[i]];
  }

  /** Writing succeeds exactly within the limits. */
  method Marshal(t: Type, v: Value) returns (r: Option<Bytes>)
    requires Has(t, v)
    ensures r == if InBounds(t, v) then Some(Encode(t, v)) else None
    decreases t, 1
  {
    match t {
      case U64 => return Some(Header(MAJ_UNSIGNED, v.i));
      case I64 => return Some(EncodeInt(v.i));
      case Boolean => return Some(Header(MAJ_OTHER, if v.b then 21 else 20));
      case ByteString =>
        if |v.bytes| > BYTE_ARRAY_MAX_LEN { return None; }
        return Some(Header(MAJ_BYTES, |v.bytes|) + v.bytes);
      case External(codec) => return codec.write(v.x);
      case Nullable(inner) =>
        if v.Null? { return Some([CBOR_NULL]); }
        r := Marshal(inner, v.v);
      case List(element) =>
        if |v.items| > MAX_LENGTH { return None; }
        var body := MarshalItems(element, v.items);
        return if body.None? then None else Some(Header(MAJ_ARRAY, |v.items|) + body.value);
      case Record(fields) =>
        var body := MarshalFields(fields, v.values);
        return if body.None? then None else Some(Header(MAJ_MAP, |fields|) + body.value);
    }
  }

  method MarshalItems(element: Type, items: seq<Value>) returns (r: Option<Bytes>)
    requires forall i :: 0 <= i < |items| ==> Has(element, items[i])
    ensures r.Some? <==> forall i :: 0 <= i < |items| ==> InBounds(element, items[i])
    ensures r.Some? ==> r.value == Concat(seq(|items|, i requires 0 <= i < |items| => Encode(element, items[i])))
    decreases element, 2
  {
    ghost var parts := seq(|items|, i requires 0 <= i < |items| => Encode(element, items[i]));
    var out: Bytes := [];
    for i := 0 to |items|
      invariant forall j :: 0 <= j < i ==> InBounds(element, items[j])
      invariant out == Concat(parts[..i])
    {
      var part := Marshal(element, items[i]);
      if part.None? { return None; }
      ItemWritten(parts, i);
      out := out + part.value;
    }
    assert parts[..|items|] == parts;
    return Some(out);
  }

  method MarshalFields(fields: seq<Field>, values: seq<Value>) returns (r: Option<Bytes>)
    requires |values| == |fields| && forall i :: 0 <= i < |fields| ==> Has(fields[i].typ, values[i])
    ensures r.Some? <==> forall i :: 0 <= i < |fields| ==> InBounds(fields[i].typ, values[i])
    ensures r.Some? ==> r.value == Entries(fields, seq(|fields|, i requires 0 <= i < |fields| => Encode(fields[i].typ, values[i])), InOrder(|fields|))
    decreases fields, 2
  {
    ghost var parts := seq(|fields|, i requires 0 <= i < |fields| => Encode(fields[i].typ, values[i]));
    var out: Bytes := [];
    for i := 0 to |fields|
      invariant FitUpTo(fields, values, i) && out == Entries(fields, parts, InOrder(i))
    {
      out := out + Text(fields[i].name);
      var part := Marshal(fields[i].typ, values[i]);
      if part.None? { return None; }
      assert part.value == parts[i];
      FieldWritten(fields, parts, i);
      out := out + part.value;
    }
    return Some(out);
  }

  ghost predicate FitUpTo(fields: seq<Field>, values: seq<Value>, n: nat)
    requires n <= |fields| == |values| && forall i :: 0 <= i < |fields| ==> Has(fields[i].typ, values[i])
  {
    forall i :: 0 <= i < n ==> InBounds(fields[i].typ, values[i])
  }

  // Reading ------------------------------------------------------------------------------------------------------

  /** The reader, for every input: a value read into a field that holds `held`. */
  method Unmarshal(scan: Bytes -> Bytes, t: Type, held: Value, b: Bytes) returns (r: Read<Value>)
    ensures r == Decode(scan, t, held, b)
    decreases t, 1
  {
    match t {
      case List(element) =>
        var h := Expect(MAJ_ARRAY, MAX_LENGTH, b);
        if h.None? { return None; }
        if h.value.0 == 0 { return Some((held, h.value.1)); }
        var items := UnmarshalItems(scan, element, h.value.0, h.value.1);
        return if items.None? then None else Some((Items(items.value.0), items.value.1));
      case Record(fields) =>
        var h := Expect(MAJ_MAP, MAX_LENGTH, b);
        if h.None? { return None; }
        var values := UnmarshalFields(scan, fields, h.value.0, h.value.1);
        return if values.None? then None else Some((Struct(values.value.0), values.value.1));
      case Nullable(inner) =>
        if b == [] { return None; }
        if b[0] == CBOR_NULL { return Some((held, b[1..])); }
        var v := Unmarshal(scan, inner, Zero(inner), b);
        return if v.None? then None else Some((Just(v.value.0), v.value.1));
      case _ => return Decode(scan, t, held, b);
    }
  }

  method UnmarshalItems(scan: Bytes -> Bytes, element: Type, n: nat, b: Bytes) returns (r: Read<seq<Value>>)
    ensures r == DecodeItems(scan, element, n, b)
    decreases element, 2
  {
    var items: seq<Value>, rest := [], b;
    ghost var whole := DecodeItems(scan, element, n, b);
    PrependStep([], Null, whole);
    for i := 0 to n
      invariant StillToRead(scan, element, n - i, rest, items, whole)
    {
      var v := Unmarshal(scan, element, Zero(element), rest);
      ItemsStep(scan, element, n - i, rest, items);
      if v.None? { return None; }
      items, rest := items + [v.value.0], v.value.1;
    }
    AllRead(scan, element, rest, items, whole);
    return Some((items, rest));
  }

  /** Some items have been read, and with the rest of the input they make up the whole. */
  ghost predicate StillToRead(scan: Bytes -> Bytes, element: Type, n: nat, b: Bytes, items: seq<Value>, whole: Read<seq<Value>>) {
    whole == Prepend(items, DecodeItems(scan, element, n, b))
  }

  lemma {:induction false} AllRead(scan: Bytes -> Bytes, element: Type, b: Bytes, items: seq<Value>, whole: Read<seq<Value>>)
    requires StillToRead(scan, element, 0, b, items, whole)
    ensures whole == Some((items, b))
  {
    assert items + [] == items;
  }

  ghost function Prepend(items: seq<Value>, r: Read<seq<Value>>): Read<seq<Value>> {
    if r.None? then None else Some((items + r.value.0, r.value.1))
  }

  lemma PrependStep(items: seq<Value>, v: Value, r: Read<seq<Value>>)
    ensures Prepend(items, Prepend([v], r)) == Prepend(items + [v], r) && Prepend([], r) == r
  {
    if r.Some? { assert [] + r.value.0 == r.value.0; }
    if r.Some? { assert items + ([v] + r.value.0) == items + [v] + r.value.0; }
  }

  lemma {:induction false} ItemsStep(scan: Bytes -> Bytes, element: Type, n: nat, b: Bytes, items: seq<Value>)
    requires n > 0
    ensures var first := Decode(scan, element, Zero(element), b);
      Prepend(items, DecodeItems(scan, element, n, b)) ==
        if first.None? then None else Prepend(items + [first.value.0], DecodeItems(scan, element, n - 1, first.value.1))
  {
    var first := Decode(scan, element, Zero(element), b);
    if first.Some? { PrependStep(items, first.value.0, DecodeItems(scan, element, n - 1, first.value.1)); }
  }

  /** The loop over the map's entries, each filling one field in place. */
  method UnmarshalFields(scan: Bytes -> Bytes, fields: seq<Field>, n: nat, b: Bytes) returns (r: Read<seq<Value>>)
    ensures r == DecodeEntries(scan, fields, Zero(Record(fields)).values, n, b)
    decreases fields, 2
  {
    var values, rest := Zero(Record(fields)).values, b;
    for i := 0 to n
      invariant |values| == |fields|
      invariant DecodeEntries(scan, fields, Zero(Record(fields)).values, n, b) == DecodeEntries(scan, fields, values, n - i, rest)
    {
      var name := ReadText(rest);
      if name.None? { return None; }
      var k := FindField(fields, name.value.0);
      if k.None? {
        rest := scan(name.value.1);
      } else {
        var v := Unmarshal(scan, fields[k.value].typ, values[k.value], name.value.1);
        if v.None? { return None; }
        values, rest := values[k.value := v.value.0], v.value.1;
      }
    }
    return Some((values, rest));
  }
}
