/** The record types with generated codecs: their fields, in the order they are written. */
module ApiTypes {
  import opened Prelude
  import opened Cbor
  import opened Codec
  import opened CodecMethods

  /** Codecs of other packages that the records use. */
  datatype Packages = Packages(cid: Foreign, proposal: Foreign, piece: Foreign)

  function Ascii(s: string): (b: Bytes)
    requires forall i :: 0 <= i < |s| ==> s[i] < 128 as char
    ensures |b| == |s| && forall i :: 0 <= i < |s| ==> b[i] == s[i] as int
  {
    seq(|s|, i requires 0 <= i < |s| => s[i] as int)
  }

  function SealedRef(): Type {
    Record([Field(Ascii("SectorID"), U64), Field(Ascii("Offset"), U64), Field(Ascii("Size"), U64)])
  }

  function SealedRefs(): Type {
    Record([Field(Ascii("Refs"), List(SealedRef()))])
  }

  /** Also the fields of a seal seed. */
  function SealTicket(): Type {
    Record([Field(Ascii("Value"), ByteString), Field(Ascii("Epoch"), I64)])
  }

  function DealSchedule(): Type {
    Record([Field(Ascii("StartEpoch"), I64), Field(Ascii("EndEpoch"), I64)])
  }

  function PieceDealInfo(packages: Packages): Type {
    Record([Field(Ascii("PublishCid"), Nullable(External(packages.cid))), Field(Ascii("DealID"), U64),
            Field(Ascii("DealProposal"), Nullable(External(packages.proposal))), Field(Ascii("DealSchedule"), DealSchedule()),
            Field(Ascii("KeepUnsealed"), Boolean)])
  }

  function SectorPiece(packages: Packages): Type {
    Record([Field(Ascii("Piece"), External(packages.piece)), Field(Ascii("DealInfo"), Nullable(PieceDealInfo(packages)))])
  }

  lemma RefsWellFormed()
    ensures WellFormed(SealedRef()) && WellFormed(SealedRefs())
  {
    assert Distinct(SealedRef().fields) by {
      var names := [Ascii("SectorID"), Ascii("Offset"), Ascii("Size")];
      forall i | 0 <= i < 3 ensures SealedRef().fields[i].name == names[i] { }
    }
  }

  lemma EpochsWellFormed()
    ensures WellFormed(SealTicket()) && WellFormed(DealSchedule())
  {
    assert Ascii("StartEpoch")[0] != Ascii("EndEpoch")[0];
    assert Ascii("Value")[0] != Ascii("Epoch")[0];
  }

  lemma InfoNamesDistinct(packages: Packages)
    ensures Distinct(PieceDealInfo(packages).fields)
  {
    var names := [Ascii("PublishCid"), Ascii("DealID"), Ascii("DealProposal"), Ascii("DealSchedule"), Ascii("KeepUnsealed")];
    assert names[2][4] != names[3][4] && names[2][0] != names[4][0] && names[3][0] != names[4][0];
    forall i | 0 <= i < 5 ensures PieceDealInfo(packages).fields[i].name == names[i] { }
  }

  lemma PieceDealInfoWellFormed(packages: Packages)
    requires Sound(packages.cid) && Sound(packages.proposal)
    ensures WellFormed(PieceDealInfo(packages))
  {
    EpochsWellFormed();
    InfoNamesDistinct(packages);
  }

  lemma SectorPieceWellFormed(packages: Packages)
    requires Sound(packages.cid) && Sound(packages.proposal) && Sound(packages.piece)
    ensures WellFormed(SectorPiece(packages))
  {
    PieceDealInfoWellFormed(packages);
  }

  /** A sector piece comes back whole: no deal, a deal without proposal or publish message, any epochs. */
  lemma {:induction false} SectorPieceRoundTrip(scan: Bytes -> Bytes, packages: Packages, piece: Value)
    requires Sound(packages.cid) && Sound(packages.proposal) && Sound(packages.piece)
    requires Fits(SectorPiece(packages), piece)
    ensures ReadsBack(scan, SectorPiece(packages), Encode(SectorPiece(packages), piece), piece)
  {
    SectorPieceWellFormed(packages);
    RoundTrip(scan, SectorPiece(packages), piece);
  }

  /** The bytes of single values. */
  lemma {:induction false} IntBytes(i: int)
    requires -TWO_63 <= i < TWO_63
    ensures Encode(I64, Int(i)) == if i >= 0 then Header(0, i) else Header(1, -1 - i)
  {
    if i < 0 { NegativeArgumentExact(i); }
  }

  lemma {:induction false} OneByteValues(flag: bool, inner: Type)
    ensures Encode(Boolean, Flag(flag)) == [if flag then 0xf5 else 0xf4] && Encode(Nullable(inner), Null) == [0xf6]
    ensures Encode(ByteString, Blob([])) == [0x40] && Encode(List(inner), Items([])) == [0x80]
  {
    HeaderBytes(7, if flag then 21 else 20);
    HeaderBytes(2, 0);
    HeaderBytes(4, 0);
  }

  /** The bytes of a record with three fields: a map of three, each key before its value, in the order of declaration. */
  lemma {:induction false} ThreeFields(fields: seq<Field>, v: Value)
    requires |fields| == 3 && Has(Record(fields), v)
    ensures Encode(Record(fields), v) == [163] +
      (Text(fields[0].name) + Encode(fields[0].typ, v.values[0]) + Text(fields[1].name) + Encode(fields[1].typ, v.values[1])
        + Text(fields[2].name) + Encode(fields[2].typ, v.values[2]))
  {
    var parts := seq(|fields|, i requires 0 <= i < |fields| => Encode(fields[i].typ, v.values[i]));
    ThreeEntries(fields, parts);
    MapOfThree();
  }

  lemma {:induction false} MapOfThree()
    ensures Header(MAJ_MAP, 3) == [163]
  {
    HeaderBytes(5, 3);
  }

  lemma {:induction false} ThreeEntries(fields: seq<Field>, parts: seq<Bytes>)
    requires |fields| == 3 && |parts| == 3
    ensures Entries(fields, parts, InOrder(3))
         == Text(fields[0].name) + parts[0] + Text(fields[1].name) + parts[1] + Text(fields[2].name) + parts[2]
  {
    FieldWritten(fields, parts, 0);
    FieldWritten(fields, parts, 1);
    FieldWritten(fields, parts, 2);
    assert InOrder(0) == [];
  }

  /** The same for two fields, with what is written for each. */
  lemma {:induction false} TwoFields(fields: seq<Field>, v: Value, key0: Bytes, value0: Bytes, key1: Bytes, value1: Bytes)
    requires |fields| == 2 && Has(Record(fields), v)
    requires Text(fields[0].name) == key0 && Encode(fields[0].typ, v.values[0]) == value0
    requires Text(fields[1].name) == key1 && Encode(fields[1].typ, v.values[1]) == value1
    ensures Encode(Record(fields), v) == [162] + (key0 + value0 + key1 + value1)
  {
    var parts := seq(|fields|, i requires 0 <= i < |fields| => Encode(fields[i].typ, v.values[i]));
    TwoEntries(fields, parts);
    MapOfTwo();
  }

  lemma {:induction false} MapOfTwo()
    ensures Header(MAJ_MAP, 2) == [162]
  {
    HeaderBytes(5, 2);
  }

  lemma {:induction false} TwoEntries(fields: seq<Field>, parts: seq<Bytes>)
    requires |fields| == 2 && |parts| == 2
    ensures Entries(fields, parts, InOrder(2)) == Text(fields[0].name) + parts[0] + Text(fields[1].name) + parts[1]
  {
    FieldWritten(fields, parts, 0);
    FieldWritten(fields, parts, 1);
    assert InOrder(0) == [];
  }

  lemma {:induction false} DealScheduleBytes(v: Value, start: int, end: int)
    requires v == Struct([Int(start), Int(end)]) && Has(DealSchedule(), v)
    ensures Encode(DealSchedule(), v) == [162] + (([106] + Ascii("StartEpoch")) + EncodeInt(start) + ([104] + Ascii("EndEpoch")) + EncodeInt(end))
  {
    ShortText(Ascii("StartEpoch"));
    ShortText(Ascii("EndEpoch"));
    TwoFields(DealSchedule().fields, v, [106] + Ascii("StartEpoch"), EncodeInt(start), [104] + Ascii("EndEpoch"), EncodeInt(end));
  }

  lemma {:induction false} SealTicketBytes(v: Value, value: Bytes, epoch: int)
    requires v == Struct([Blob(value), Int(epoch)]) && Has(SealTicket(), v)
    ensures Encode(SealTicket(), v) == [162] + (([101] + Ascii("Value")) + (Header(2, |value|) + value) + ([101] + Ascii("Epoch")) + EncodeInt(epoch))
  {
    ShortText(Ascii("Value"));
    ShortText(Ascii("Epoch"));
    TwoFields(SealTicket().fields, v, [101] + Ascii("Value"), Header(2, |value|) + value, [101] + Ascii("Epoch"), EncodeInt(epoch));
  }

  /** The bytes of a sector piece: the piece as its package writes it, and null without a deal. */
  lemma {:induction false} SectorPieceBytes(packages: Packages, v: Value, piece: int, info: Value, written: Bytes)
    requires v == Struct([Alien(piece), info]) && Has(SectorPiece(packages), v) && packages.piece.write(piece).Some?
    requires Has(Nullable(PieceDealInfo(packages)), info)
    requires written == if info.Null? then [0xf6] else Encode(PieceDealInfo(packages), info.v)
    ensures Encode(SectorPiece(packages), v) ==
      [162] + (([101] + Ascii("Piece")) + packages.piece.write(piece).value + ([104] + Ascii("DealInfo")) + written)
  {
    ShortText(Ascii("Piece"));
    ShortText(Ascii("DealInfo"));
    TwoFields(SectorPiece(packages).fields, v, [101] + Ascii("Piece"), packages.piece.write(piece).value, [104] + Ascii("DealInfo"), written);
  }

  lemma {:induction false} FirstThree(fields: seq<Field>, parts: seq<Bytes>)
    requires |fields| == 5 && |parts| == 5
    ensures Entries(fields, parts, InOrder(3))
         == Text(fields[0].name) + parts[0] + Text(fields[1].name) + parts[1] + Text(fields[2].name) + parts[2]
  {
    FieldWritten(fields, parts, 0);
    FieldWritten(fields, parts, 1);
    FieldWritten(fields, parts, 2);
    assert InOrder(0) == [];
  }

  lemma {:induction false} LastTwo(fields: seq<Field>, parts: seq<Bytes>)
    requires |fields| == 5 && |parts| == 5
    ensures Entries(fields, parts, InOrder(5))
         == Entries(fields, parts, InOrder(3)) + Text(fields[3].name) + parts[3] + Text(fields[4].name) + parts[4]
  {
    FieldWritten(fields, parts, 3);
    FieldWritten(fields, parts, 4);
  }

  /** The bytes of a record with five fields, from what is written for them. */
  lemma {:induction false} FiveFields(fields: seq<Field>, v: Value, keys: seq<Bytes>, parts: seq<Bytes>)
    requires |fields| == 5 && Has(Record(fields), v) && |parts| == 5 && |keys| == 5
    requires forall i :: 0 <= i < 5 ==> parts[i] == Encode(fields[i].typ, v.values[i]) && keys[i] == Text(fields[i].name)
    ensures Encode(Record(fields), v) == [165] +
      (keys[0] + parts[0] + keys[1] + parts[1] + keys[2] + parts[2] + keys[3] + parts[3] + keys[4] + parts[4])
  {
    FirstThree(fields, parts);
    LastTwo(fields, parts);
    HeaderBytes(5, 5);
    assert parts == seq(|fields|, i requires 0 <= i < |fields| => Encode(fields[i].typ, v.values[i]));
  }

  /** The keys of deal information, as they are written. */
  lemma {:induction false} PieceDealInfoKeys(packages: Packages)
    ensures var fields := PieceDealInfo(packages).fields;
      && Text(fields[0].name) == [106] + Ascii("PublishCid") && Text(fields[1].name) == [102] + Ascii("DealID")
      && Text(fields[2].name) == [108] + Ascii("DealProposal") && Text(fields[3].name) == [108] + Ascii("DealSchedule")
      && Text(fields[4].name) == [108] + Ascii("KeepUnsealed")
  {
    ShortText(Ascii("PublishCid"));
    ShortText(Ascii("DealID"));
    ShortText(Ascii("DealProposal"));
    ShortText(Ascii("DealSchedule"));
    ShortText(Ascii("KeepUnsealed"));
  }

  lemma {:induction false} SealedRefBytes(v: Value, sector: nat, offset: nat, size: nat)
    requires v == Struct([Int(sector), Int(offset), Int(size)]) && Has(SealedRef(), v)
    ensures Encode(SealedRef(), v) ==
      [163] + (([104] + Ascii("SectorID")) + Header(0, sector) + ([102] + Ascii("Offset")) + Header(0, offset) + ([100] + Ascii("Size")) + Header(0, size))
  {
    ThreeFields(SealedRef().fields, v);
    ShortText(Ascii("SectorID"));
    ShortText(Ascii("Offset"));
    ShortText(Ascii("Size"));
  }

  /** The packages' codecs can write what they read; a zero CID, piece or proposal they may refuse to write. */
  ghost predicate Rewriting(packages: Packages) {
    Rewrites(External(packages.cid)) && Rewrites(External(packages.proposal)) && Rewrites(External(packages.piece))
  }

  lemma EpochsRewrite()
    ensures Rewrites(DealSchedule()) && ZeroWrites(DealSchedule()) && ZerosWrite(DealSchedule())
  {
  }

  lemma InfoRewrites(packages: Packages)
    requires Rewrites(External(packages.cid)) && Rewrites(External(packages.proposal))
    ensures Rewrites(PieceDealInfo(packages)) && ZerosWrite(PieceDealInfo(packages))
  {
    EpochsRewrite();
    assert Rewrites(Nullable(External(packages.cid))) && Rewrites(Nullable(External(packages.proposal)));
  }

  /** Whatever is accepted as deal information can be written again: its foreign values are behind pointers. */
  lemma {:induction false} PieceDealInfoRewritable(scan: Bytes -> Bytes, packages: Packages, b: Bytes)
    requires Sound(packages.cid) && Sound(packages.proposal)
    requires Rewrites(External(packages.cid)) && Rewrites(External(packages.proposal))
    requires Decode(scan, PieceDealInfo(packages), Zero(PieceDealInfo(packages)), b).Some?
    ensures var t := PieceDealInfo(packages); var v := Decode(scan, t, Zero(t), b).value.0;
      Fits(t, v) && ReadsBack(scan, t, Encode(t, v), v)
  {
    PieceDealInfoWellFormed(packages);
    InfoRewrites(packages);
    AlwaysComplete(scan, PieceDealInfo(packages), b);
    Normalised(scan, PieceDealInfo(packages), b);
  }

  /** What is accepted as a sector piece can be written again exactly when it names a piece, or the zero piece can be written. */
  lemma {:induction false} SectorPieceRewritable(scan: Bytes -> Bytes, packages: Packages, b: Bytes)
    requires Rewriting(packages) && Decode(scan, SectorPiece(packages), Zero(SectorPiece(packages)), b).Some?
    ensures var t, h := SectorPiece(packages), Expect(MAJ_MAP, MAX_LENGTH, b).value;
      var v, entries := Decode(scan, t, Zero(t), b).value.0, Known(scan, t.fields, Zero(t).values, h.0, h.1);
      Has(t, v) && (InBounds(t, v) <==> packages.piece.write(packages.piece.zero).Some? || Given(entries, 0))
  {
    var fields := SectorPiece(packages).fields;
    InfoRewrites(packages);
    assert fields[0].typ == External(packages.piece) && fields[1].typ == Nullable(PieceDealInfo(packages));
    RewritableIffGiven(scan, fields, b);
  }

  /** The empty map is accepted as a sector piece, and if the zero piece cannot be written, what it means cannot be. */
  lemma {:induction false} EmptySectorPiece(scan: Bytes -> Bytes, packages: Packages, rest: Bytes)
    requires packages.piece.write(packages.piece.zero).None?
    ensures var t := SectorPiece(packages);
      Decode(scan, t, Zero(t), Header(MAJ_MAP, 0) + rest) == Some((Zero(t), rest)) && Has(t, Zero(t)) && !InBounds(t, Zero(t))
  {
    var t := SectorPiece(packages);
    ExpectReads(MAJ_MAP, MAX_LENGTH, 0, rest);
    ZeroFits(t);
    assert t.fields[0].typ == External(packages.piece) && !ZeroWrites(t.fields[0].typ);
  }

  lemma RefInBounds(v: Value)
    requires Has(SealedRef(), v)
    ensures InBounds(SealedRef(), v)
  {
    forall i | 0 <= i < 3 ensures InBounds(SealedRef().fields[i].typ, v.values[i]) {
      assert SealedRef().fields[i].typ == U64 && Has(SealedRef().fields[i].typ, v.values[i]);
    }
  }

  /** A list of sealed references comes back when it has at most 8192 entries, and is refused otherwise. */
  method WriteSealedRefs(refs: seq<Value>) returns (r: Option<Bytes>)
    requires forall i :: 0 <= i < |refs| ==> Has(SealedRef(), refs[i])
    ensures r.Some? <==> |refs| <= MAX_LENGTH
    ensures r.Some? ==> forall scan: Bytes -> Bytes :: ReadsBack(scan, SealedRefs(), r.value, Struct([Items(refs)]))
  {
    var v := Struct([Items(refs)]);
    assert SealedRefs().fields[0].typ == List(SealedRef());
    r := Marshal(SealedRefs(), v);
    RefsWellFormed();
    forall i | 0 <= i < |refs| ensures InBounds(SealedRef(), refs[i]) { RefInBounds(refs[i]); }
    assert InBounds(SealedRefs(), v) <==> InBounds(List(SealedRef()), Items(refs));
    if r.Some? { forall scan: Bytes -> Bytes { RoundTrip(scan, SealedRefs(), v); } }
  }
}
