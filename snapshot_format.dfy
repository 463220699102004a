/**
 * The pure parts of the snapshot writer: the eight allocation spaces and the
 * names of their constants, the choice between embedding the snapshot as it
 * is or compressed, the text of the generated C++ declarations, and the
 * token sequence of the startup blob.
 */
module SnapshotFormat {
  import opened Common
  import opened Decimal
  import opened ByteLiteral

  // ---------------------------------------------------------------------------
  // Spaces and the serializer's reservations

  /** The heap spaces whose reservations the snapshot records. */
  datatype Space =
    | NewSpace | OldPointerSpace | OldDataSpace | CodeSpace
    | MapSpace | CellSpace | PropertyCellSpace | LoSpace

  /** The order in which both the generated constants and the blob list the spaces. */
  const Spaces: seq<Space> :=
    [NewSpace, OldPointerSpace, OldDataSpace, CodeSpace,
     MapSpace, CellSpace, PropertyCellSpace, LoSpace]

  /** Every space occurs in `Spaces`, exactly once. */
  lemma SpacesEnumerated()
    ensures |Spaces| == 8
    ensures forall s: Space :: s in Spaces
    ensures forall i, j :: 0 <= i < j < |Spaces| ==> Spaces[i] != Spaces[j]
  {
    forall s: Space
      ensures s in Spaces
    {
      match s
      case NewSpace => assert Spaces[0] == s;
      case OldPointerSpace => assert Spaces[1] == s;
      case OldDataSpace => assert Spaces[2] == s;
      case CodeSpace => assert Spaces[3] == s;
      case MapSpace => assert Spaces[4] == s;
      case CellSpace => assert Spaces[5] == s;
      case PropertyCellSpace => assert Spaces[6] == s;
      case LoSpace => assert Spaces[7] == s;
    }
  }

  /** The name part of the `<prefix><name>_space_used_` constant of a space. */
  function SpaceName(s: Space): string
  {
    match s
    case NewSpace => "new"
    case OldPointerSpace => "pointer"
    case OldDataSpace => "data"
    case CodeSpace => "code"
    case MapSpace => "map"
    case CellSpace => "cell"
    case PropertyCellSpace => "property_cell"
    case LoSpace => "lo"
  }

  /** The space a constant name refers to, if any. */
  function SpaceOfName(name: string): (r: Option<Space>)
  {
    if name == "new" then Some(NewSpace)
    else if name == "pointer" then Some(OldPointerSpace)
    else if name == "data" then Some(OldDataSpace)
    else if name == "code" then Some(CodeSpace)
    else if name == "map" then Some(MapSpace)
    else if name == "cell" then Some(CellSpace)
    else if name == "property_cell" then Some(PropertyCellSpace)
    else if name == "lo" then Some(LoSpace)
    else None
  }

  /** Each constant name identifies its space: no two spaces share a name. */
  lemma SpaceNameRoundTrip(s: Space)
    ensures SpaceOfName(SpaceName(s)) == Some(s)
  {
    match s
    case NewSpace =>
    case OldPointerSpace =>
      assert "pointer" != "new" by { assert "pointer"[0] != "new"[0]; }
    case OldDataSpace =>
      assert "data"[0] != "new"[0] && "data"[0] != "pointer"[0];
    case CodeSpace =>
      assert "code"[0] != "new"[0] && "code"[0] != "pointer"[0] && "code"[0] != "data"[0];
    case MapSpace =>
      assert "map"[0] != "new"[0] && "map"[0] != "pointer"[0] && "map"[0] != "data"[0] && "map"[0] != "code"[0];
    case CellSpace =>
      assert "cell"[0] != "new"[0] && "cell"[0] != "pointer"[0] && "cell"[0] != "data"[0];
      assert "cell"[1] != "code"[1] && "cell"[0] != "map"[0];
    case PropertyCellSpace =>
      assert "property_cell"[0] != "new"[0] && "property_cell"[0] != "data"[0];
      assert "property_cell"[1] != "pointer"[1] && "property_cell"[0] != "code"[0];
      assert "property_cell"[0] != "map"[0] && "property_cell"[0] != "cell"[0];
    case LoSpace =>
      assert "lo"[0] != "new"[0] && "lo"[0] != "pointer"[0] && "lo"[0] != "data"[0];
      assert "lo"[0] != "code"[0] && "lo"[0] != "map"[0] && "lo"[0] != "cell"[0];
      assert "lo"[0] != "property_cell"[0];
  }

  /** `Serializer::FinalAllocationChunks`: the chunk sizes reserved in each space. */
  type Reservations = Space -> seq<uint32>

  /** Every space was reserved in exactly one chunk. */
  predicate SingleChunks(ser: Reservations)
  {
    forall i :: 0 <= i < |Spaces| ==> |ser(Spaces[i])| == 1
  }

  function FirstBadFrom(ser: Reservations, i: nat): (k: nat)
    requires i <= 8
    ensures i <= k <= 8
    ensures forall j :: i <= j < k ==> |ser(Spaces[j])| == 1
    ensures k < 8 ==> |ser(Spaces[k])| != 1
    decreases 8 - i
  {
    if i == 8 || |ser(Spaces[i])| != 1 then i else FirstBadFrom(ser, i + 1)
  }

  /**
   * Position in `Spaces` of the first space whose chunk list does not have
   * exactly one entry, or 8 when there is none: how far a writer that checks
   * the spaces in order gets before its check fails.
   */
  function FirstBadSpace(ser: Reservations): (k: nat)
    ensures k <= 8
    ensures forall j :: 0 <= j < k ==> |ser(Spaces[j])| == 1
    ensures k < 8 ==> |ser(Spaces[k])| != 1
    ensures k == 8 <==> SingleChunks(ser)
  {
    FirstBadFrom(ser, 0)
  }

  // ---------------------------------------------------------------------------
  // What is embedded: the bytes as they are, or compressed

  /** `Compressor::Compress` followed by `output()`: `None` when compression fails. */
  type Compressor = seq<byte> -> Option<seq<byte>>

  /**
   * The bytes a data block embeds. `Uncompressed` is the case where the
   * writer embeds the source list itself; `Compressed` keeps the length of the
   * source it was made from.
   */
  datatype Embedded =
    | Uncompressed(bytes: seq<byte>)
    | Compressed(bytes: seq<byte>, originalLength: nat)

  /**
   * The data a block embeds for `source`, or `None` when the configured
   * compressor fails (the writer then aborts).
   */
  function Choose(source: seq<byte>, compressor: Option<Compressor>): (r: Option<Embedded>)
    ensures r.None? <==> compressor.Some? && compressor.value(source).None?
    ensures r.Some? ==> (r.value.Uncompressed? <==> compressor.None?)
    ensures r.Some? && compressor.None? ==> r.value.bytes == source
    ensures r.Some? && compressor.Some? ==>
      r.value.bytes == compressor.value(source).value && r.value.originalLength == |source|
  {
    match compressor
    case None => Some(Uncompressed(source))
    case Some(compress) =>
      match compress(source)
      case None => None
      case Some(output) => Some(Compressed(output, |source|))
  }

  // ---------------------------------------------------------------------------
  // The generated source file

  const Quote: char := 34 as char

  /** Printed first: a banner, the includes and the opening of both namespaces. */
  const FilePrefix: string :=
    "// Autogenerated snapshot file. Do not edit.\n\n"
    + "#include " + [Quote] + "src/v8.h" + [Quote] + "\n"
    + "#include " + [Quote] + "src/base/platform/platform.h" + [Quote] + "\n\n"
    + "#include " + [Quote] + "src/snapshot.h" + [Quote] + "\n\n"
    + "namespace v8 {\n"
    + "namespace internal {\n\n"

  /** Printed last: the closing of both namespaces. */
  const FileSuffix: string :=
    "}  // namespace internal\n"
    + "}  // namespace v8\n"

  function DataHead(prefix: string): string
  {
    "const byte Snapshot::" + prefix + "data_[] = {\n"
  }

  function SizeHead(prefix: string): string
  {
    "const int Snapshot::" + prefix + "size_ = "
  }

  function RawDataHead(prefix: string): string
  {
    "const byte* Snapshot::" + prefix + "raw_data_ = "
  }

  function AliasRest(prefix: string): string
  {
    "Snapshot::" + prefix + "data_;\n"
    + "const int Snapshot::" + prefix + "raw_size_ = Snapshot::" + prefix + "size_;\n"
  }

  function NullRest(prefix: string): string
  {
    "NULL;\n" + "const int Snapshot::" + prefix + "raw_size_ = "
  }

  /** The raw pointer and size declared as aliases of `data_` and `size_`. */
  function AliasLines(prefix: string): string
  {
    RawDataHead(prefix) + AliasRest(prefix)
  }

  /** A NULL raw pointer, and the start of the raw size declaration. */
  function NullHead(prefix: string): string
  {
    RawDataHead(prefix) + NullRest(prefix)
  }

  function RawLines(prefix: string, e: Embedded): string
  {
    match e
    case Uncompressed(_) => AliasLines(prefix)
    case Compressed(_, n) => NullHead(prefix) + IntText(n) + ";\n"
  }

  /** The declarations printed for one embedded snapshot. */
  function DataText(prefix: string, e: Embedded): string
  {
    DataHead(prefix) + Literal(e.bytes) + "};\n" + SizeHead(prefix)
    + IntText(|e.bytes|) + ";\n" + RawLines(prefix, e) + "\n"
  }

  /** The same text, grouped the way the reader takes it apart: each part before the rest. */
  lemma DataTextParts(prefix: string, e: Embedded)
    ensures DataText(prefix, e)
      == DataHead(prefix)
         + (Literal(e.bytes)
            + ("};\n" + SizeHead(prefix)
               + (IntText(|e.bytes|)
                  + (";\n" + RawLines(prefix, e) + "\n"))))
  {
    Regroup(DataHead(prefix), Literal(e.bytes), "};\n", SizeHead(prefix),
            IntText(|e.bytes|), ";\n", RawLines(prefix, e), "\n");
  }

  /** The `<prefix><name>_space_used_` constant; `%d` prints the uint32 as an int. */
  function SizeVarLine(prefix: string, name: string, chunk: uint32): string
  {
    "const int Snapshot::" + prefix + name + "_space_used_ = " + Int32Text(chunk) + ";\n"
  }

  /** The constants of the first `k` spaces, which all have exactly one chunk. */
  function MetaLines(prefix: string, ser: Reservations, k: nat): string
    requires k <= FirstBadSpace(ser)
  {
    if k == 0 then ""
    else MetaLines(prefix, ser, k - 1) + SizeVarLine(prefix, SpaceName(Spaces[k - 1]), ser(Spaces[k - 1])[0])
  }

  /** One more space whose chunk check passes extends the constants by its line. */
  lemma MetaLinesNext(before: string, prefix: string, ser: Reservations, i: nat)
    requires i < 8 && i <= FirstBadSpace(ser) && |ser(Spaces[i])| == 1
    ensures i + 1 <= FirstBadSpace(ser)
    ensures before + MetaLines(prefix, ser, i) + SizeVarLine(prefix, SpaceName(Spaces[i]), ser(Spaces[i])[0])
      == before + MetaLines(prefix, ser, i + 1)
  {
    AppendAssoc(before, MetaLines(prefix, ser, i), SizeVarLine(prefix, SpaceName(Spaces[i]), ser(Spaces[i])[0]));
  }

  /** The complete block of space constants for one snapshot, with its closing blank line. */
  function MetaText(prefix: string, ser: Reservations): string
    requires SingleChunks(ser)
  {
    MetaLines(prefix, ser, FirstBadSpace(ser)) + "\n"
  }

  // ---------------------------------------------------------------------------
  // Reading the declarations back

  /** The raw pointer of a data block: an alias of the block's data, or NULL. */
  datatype RawPointer = AliasOfData | Null

  /** What the declarations of one data block define. */
  datatype Declaration = Declaration(data: seq<byte>, size: int, rawData: RawPointer, rawSize: int)

  /** Reads the declarations of a data block with the given name prefix. */
  function ReadDataBlock(prefix: string, text: string): Option<Declaration>
  {
    match After(text, DataHead(prefix))
    case None => None
    case Some(r) => ReadLiteralPart(prefix, r)
  }

  /** Reads the literal up to its closing brace, then the size declaration. */
  function ReadLiteralPart(prefix: string, r: string): Option<Declaration>
  {
    var j := IndexOf(r, '}');
    match Decode(r[..j])
    case None => None
    case Some(data) =>
      match After(r[j..], "};\n" + SizeHead(prefix))
      case None => None
      case Some(r2) => ReadSizePart(prefix, data, r2)
  }

  /** Reads the value of `size_`, then the raw declarations. */
  function ReadSizePart(prefix: string, data: seq<byte>, r: string): Option<Declaration>
  {
    var m := IndexOf(r, ';');
    match ReadInt(r[..m])
    case None => None
    case Some(size) => ReadRawPart(prefix, data, size, r[m..])
  }

  /** Reads the raw pointer and raw size: aliases of `data_` and `size_`, or NULL and a number. */
  function ReadRawPart(prefix: string, data: seq<byte>, size: int, r: string): Option<Declaration>
  {
    if r == ";\n" + AliasLines(prefix) + "\n" then
      Some(Declaration(data, size, AliasOfData, size))
    else
      match After(r, ";\n" + NullHead(prefix))
      case None => None
      case Some(r3) =>
        var n := IndexOf(r3, ';');
        match ReadInt(r3[..n])
        case None => None
        case Some(rawSize) =>
          if r3[n..] == ";\n\n" then Some(Declaration(data, size, Null, rawSize)) else None
  }

  /** What the declarations of `e` are meant to define. */
  function Declares(e: Embedded): Declaration
  {
    match e
    case Uncompressed(b) => Declaration(b, |b|, AliasOfData, |b|)
    case Compressed(b, n) => Declaration(b, |b|, Null, n)
  }

  lemma NoSemicolonInInt(i: int)
    ensures forall k :: 0 <= k < |IntText(i)| ==> IntText(i)[k] != ';'
  {
    IntTextChars(i);
  }

  lemma AliasIsNotNull(prefix: string, rest: string)
    ensures ";\n" + AliasLines(prefix) + "\n" != ";\n" + NullHead(prefix) + rest
  {
    var h := ";\n" + RawDataHead(prefix);
    var x := AliasRest(prefix) + "\n";
    var y := NullRest(prefix) + rest;
    assert ";\n" + AliasLines(prefix) + "\n" == h + x;
    assert ";\n" + NullHead(prefix) + rest == h + y;
    assert x[0] == 'S';
    assert y[0] == 'N';
    assert (h + x)[|h|] == x[0];
    assert (h + y)[|h|] == y[0];
  }

  /** Reading a printed int up to the `;` that follows it gives the int back. */
  lemma ReadIntThen(i: int, rest: string)
    requires rest != [] && rest[0] == ';'
    ensures var m := IndexOf(IntText(i) + rest, ';');
      ReadInt((IntText(i) + rest)[..m]) == Some(i) && (IntText(i) + rest)[m..] == rest
  {
    NoSemicolonInInt(i);
    IntTextReads(i);
    IndexOfConcat(IntText(i), rest, ';');
  }

  lemma ReadRawLines(prefix: string, data: seq<byte>, e: Embedded)
    ensures ReadRawPart(prefix, data, |data|, ";\n" + RawLines(prefix, e) + "\n")
      == Some(match e
              case Uncompressed(_) => Declaration(data, |data|, AliasOfData, |data|)
              case Compressed(_, n) => Declaration(data, |data|, Null, n))
  {
    if e.Compressed? {
      var tail := IntText(e.originalLength) + ";\n\n";
      assert ";\n" + RawLines(prefix, e) + "\n" == ";\n" + NullHead(prefix) + tail;
      AliasIsNotNull(prefix, tail);
      AfterConcat(";\n" + NullHead(prefix), tail);
      ReadIntThen(e.originalLength, ";\n\n");
    }
  }

  lemma ReadSizeLine(prefix: string, data: seq<byte>, e: Embedded)
    ensures ReadSizePart(prefix, data, IntText(|data|) + (";\n" + RawLines(prefix, e) + "\n"))
      == ReadRawPart(prefix, data, |data|, ";\n" + RawLines(prefix, e) + "\n")
  {
    ReadIntThen(|data|, ";\n" + RawLines(prefix, e) + "\n");
  }

  lemma ReadLiteralLines(prefix: string, bytes: seq<byte>, tail: string)
    ensures ReadLiteralPart(prefix, Literal(bytes) + ("};\n" + SizeHead(prefix) + tail))
      == ReadSizePart(prefix, bytes, tail)
  {
    var lit := Literal(bytes);
    var t1 := "};\n" + SizeHead(prefix) + tail;
    LiteralChars(bytes);
    IndexOfConcat(lit, t1, '}');
    DecodeLiteral(bytes);
    AfterConcat("};\n" + SizeHead(prefix), tail);
  }

  /**
   * Reading the printed declarations back recovers what they were meant to
   * define: the embedded bytes, a size equal to their count, and a raw
   * pointer and size that alias them or are NULL and the original length.
   */
  lemma ReadDataText(prefix: string, e: Embedded)
    ensures ReadDataBlock(prefix, DataText(prefix, e)) == Some(Declares(e))
  {
    var rest := ";\n" + RawLines(prefix, e) + "\n";
    var tail2 := IntText(|e.bytes|) + rest;
    var tail1 := "};\n" + SizeHead(prefix) + tail2;
    DataTextParts(prefix, e);
    AfterConcat(DataHead(prefix), Literal(e.bytes) + tail1);
    ReadLiteralLines(prefix, e.bytes, tail2);
    ReadSizeLine(prefix, e.bytes, e);
    ReadRawLines(prefix, e.bytes, e);
  }

  /**
   * The declarations printed for `source`: `size_` is the number of bytes the
   * literal lists; without a compressor those are the source bytes and the raw
   * pointer and size alias them; with one they are its output, the raw pointer
   * is NULL and the raw size is the uncompressed length.
   */
  lemma DeclaredData(prefix: string, source: seq<byte>, compressor: Option<Compressor>)
    requires Choose(source, compressor).Some?
    ensures var d := ReadDataBlock(prefix, DataText(prefix, Choose(source, compressor).value));
      d.Some?
      && d.value.size == |d.value.data|
      && d.value.rawSize == |source|
      && (d.value.rawData == Null <==> compressor.Some?)
      && (compressor.None? ==> d.value.data == source)
      && (compressor.Some? ==> d.value.data == compressor.value(source).value)
  {
    ReadDataText(prefix, Choose(source, compressor).value);
  }

  // ---------------------------------------------------------------------------
  // Reading the space constants back

  /** Reads one `<prefix><name>_space_used_` constant: its space, its value and the text after it. */
  function ReadSizeVar(prefix: string, t: string): Option<((Space, int), string)>
  {
    match After(t, "const int Snapshot::" + prefix)
    case None => None
    case Some(r) => ReadNamedSize(r)
  }

  /** Reads `<name>_space_used_`, then the value. */
  function ReadNamedSize(r: string): Option<((Space, int), string)>
  {
    var k := IndexOf(r, ' ');
    match Before(r[..k], "_space_used_")
    case None => None
    case Some(name) =>
      match SpaceOfName(name)
      case None => None
      case Some(space) => ReadSizeValue(space, r[k..])
  }

  /** Reads ` = <int>;` and the line break of a constant. */
  function ReadSizeValue(space: Space, r: string): Option<((Space, int), string)>
  {
    match After(r, " = ")
    case None => None
    case Some(r2) =>
      var m := IndexOf(r2, ';');
      match ReadInt(r2[..m])
      case None => None
      case Some(v) =>
        match After(r2[m..], ";\n")
        case None => None
        case Some(rest) => Some(((space, v), rest))
  }

  /** `ReadSizeVar` for a fixed prefix, as a reader to repeat. */
  function SizeVarReader(prefix: string): string -> Option<((Space, int), string)>
  {
    u => ReadSizeVar(prefix, u)
  }

  /** Reads a block of space constants: eight of them and the closing blank line. */
  function ReadMeta(prefix: string, t: string): Option<seq<(Space, int)>>
  {
    match ReadMany(SizeVarReader(prefix), t, 8)
    case None => None
    case Some((es, rest)) => if rest == "\n" then Some(es) else None
  }

  /** Each space with the value `%d` prints for its single chunk, in `Spaces` order. */
  function MetaValues(ser: Reservations): (r: seq<(Space, int)>)
    requires SingleChunks(ser)
    ensures |r| == 8
  {
    seq(8, i requires 0 <= i < 8 => (Spaces[i], AsInt32(ser(Spaces[i])[0])))
  }

  lemma NameHasNoSpace(s: Space)
    ensures forall i :: 0 <= i < |SpaceName(s) + "_space_used_"| ==> (SpaceName(s) + "_space_used_")[i] != ' '
  {
  }

  lemma ReadSizeValueOf(s: Space, v: uint32, rest: string)
    ensures ReadSizeValue(s, " = " + (Int32Text(v) + (";\n" + rest))) == Some(((s, AsInt32(v)), rest))
  {
    var tail := ";\n" + rest;
    AfterConcat(" = ", Int32Text(v) + tail);
    ReadIntThen(AsInt32(v), tail);
    AfterConcat(";\n", rest);
  }

  lemma ReadNamedSizeOf(s: Space, value: string)
    requires value != [] && value[0] == ' '
    ensures ReadNamedSize(SpaceName(s) + "_space_used_" + value) == ReadSizeValue(s, value)
  {
    var name := SpaceName(s);
    NameHasNoSpace(s);
    IndexOfConcat(name + "_space_used_", value, ' ');
    BeforeConcat(name, "_space_used_");
    SpaceNameRoundTrip(s);
  }

  lemma ReadSizeVarOf(prefix: string, s: Space, v: uint32, rest: string)
    ensures ReadSizeVar(prefix, SizeVarLine(prefix, SpaceName(s), v) + rest) == Some(((s, AsInt32(v)), rest))
  {
    var head := "const int Snapshot::" + prefix;
    var value := " = " + (Int32Text(v) + (";\n" + rest));
    var r := SpaceName(s) + "_space_used_" + value;
    assert SizeVarLine(prefix, SpaceName(s), v) + rest == head + r;
    AfterConcat(head, r);
    ReadNamedSizeOf(s, value);
    ReadSizeValueOf(s, v, rest);
  }

  lemma MetaLinesSnoc(prefix: string, ser: Reservations, k: nat, rest: string)
    requires SingleChunks(ser) && 0 < k <= 8
    ensures MetaLines(prefix, ser, k) + rest
      == MetaLines(prefix, ser, k - 1) + (SizeVarLine(prefix, SpaceName(Spaces[k - 1]), ser(Spaces[k - 1])[0]) + rest)
  {
    assert FirstBadSpace(ser) == 8;
    AppendAssoc(MetaLines(prefix, ser, k - 1), SizeVarLine(prefix, SpaceName(Spaces[k - 1]), ser(Spaces[k - 1])[0]), rest);
  }

  lemma MetaValuesSnoc(ser: Reservations, k: nat)
    requires SingleChunks(ser) && 0 < k <= 8
    ensures MetaValues(ser)[..k] == MetaValues(ser)[..k - 1] + [(Spaces[k - 1], AsInt32(ser(Spaces[k - 1])[0]))]
  {
    assert MetaValues(ser)[k - 1] == (Spaces[k - 1], AsInt32(ser(Spaces[k - 1])[0]));
  }

  lemma {:induction false} ReadMetaLines(prefix: string, ser: Reservations, k: nat, rest: string)
    requires SingleChunks(ser) && k <= 8
    ensures ReadMany(SizeVarReader(prefix), MetaLines(prefix, ser, k) + rest, k) == Some((MetaValues(ser)[..k], rest))
  {
    var read := SizeVarReader(prefix);
    if k == 0 {
      assert MetaLines(prefix, ser, k) + rest == rest;
    } else {
      var v := ser(Spaces[k - 1])[0];
      var line := SizeVarLine(prefix, SpaceName(Spaces[k - 1]), v);
      var before := MetaLines(prefix, ser, k - 1);
      MetaLinesSnoc(prefix, ser, k, rest);
      ReadMetaLines(prefix, ser, k - 1, line + rest);
      ReadSizeVarOf(prefix, Spaces[k - 1], v, rest);
      assert read(line + rest) == Some(((Spaces[k - 1], AsInt32(v)), rest));
      ReadManySnoc(read, before + (line + rest), k - 1);
      MetaValuesSnoc(ser, k);
    }
  }

  /**
   * Reading the constants block back gives each space, in `Spaces` order,
   * with its single chunk size as `%d` shows it.
   */
  lemma ReadMetaText(prefix: string, ser: Reservations)
    requires SingleChunks(ser)
    ensures ReadMeta(prefix, MetaText(prefix, ser)) == Some(MetaValues(ser))
  {
    assert FirstBadSpace(ser) == 8;
    ReadMetaLines(prefix, ser, 8, "\n");
    assert MetaValues(ser)[..8] == MetaValues(ser);
  }

  // ---------------------------------------------------------------------------
  // The startup blob

  /** One `SnapshotByteSink` write: `PutBlob` or `PutInt`. */
  datatype Token = Blob(bytes: seq<byte>) | Int(value: uint32)

  /** The `PutInt` tokens for the first `k` spaces' single chunks. */
  function SizeTokens(ser: Reservations, k: nat): (t: seq<Token>)
    requires k <= FirstBadSpace(ser)
    ensures |t| == k
  {
    if k == 0 then [] else SizeTokens(ser, k - 1) + [Int(ser(Spaces[k - 1])[0])]
  }

  /**
   * What the blob writer puts into its sink: each snapshot followed by the
   * chunk sizes of all its spaces (`FirstBadSpace` is the number of spaces
   * when every space has a single chunk).
   */
  function BlobTokens(startup: seq<byte>, ser: Reservations, context: seq<byte>, contextSer: Reservations): seq<Token>
    requires SingleChunks(ser) && SingleChunks(contextSer)
  {
    [Blob(startup)] + SizeTokens(ser, FirstBadSpace(ser)) + [Blob(context)] + SizeTokens(contextSer, FirstBadSpace(contextSer))
  }

  /** The single chunk size of each space, in `Spaces` order. */
  function ChunkSizes(ser: Reservations): (r: seq<uint32>)
    requires SingleChunks(ser)
    ensures |r| == 8
  {
    seq(8, i requires 0 <= i < 8 => ser(Spaces[i])[0])
  }

  /** What a reader of the blob recovers from it. */
  datatype BlobContents = BlobContents(
    startup: seq<byte>, startupSizes: seq<uint32>,
    context: seq<byte>, contextSizes: seq<uint32>)

  /** The values of the `n` `Int` tokens starting at `from`, if they are all `Int`s. */
  function IntsAt(t: seq<Token>, from: nat, n: nat): (r: Option<seq<uint32>>)
    requires from + n <= |t|
    ensures r.Some? ==> |r.value| == n
  {
    if n == 0 then Some([])
    else if !t[from + n - 1].Int? then None
    else
      match IntsAt(t, from, n - 1)
      case None => None
      case Some(init) => Some(init + [t[from + n - 1].value])
  }

  /** Reads a blob: a snapshot, its eight sizes, a context snapshot, its eight sizes. */
  function ParseBlob(t: seq<Token>): Option<BlobContents>
  {
    if |t| != 18 || !t[0].Blob? || !t[9].Blob? then None
    else
      match (IntsAt(t, 1, 8), IntsAt(t, 10, 8))
      case (Some(s), Some(c)) => Some(BlobContents(t[0].bytes, s, t[9].bytes, c))
      case _ => None
  }

  lemma {:induction false} SizeTokensAt(ser: Reservations, k: nat, i: nat)
    requires k <= FirstBadSpace(ser) && i < k
    ensures SizeTokens(ser, k)[i] == Int(ser(Spaces[i])[0])
  {
    if i < k - 1 {
      SizeTokensAt(ser, k - 1, i);
    }
  }

  lemma {:induction false} ReadSizeTokens(t: seq<Token>, from: nat, ser: Reservations, n: nat)
    requires n <= 8 && SingleChunks(ser) && from + n <= |t|
    requires t[from..from + n] == SizeTokens(ser, n)
    ensures IntsAt(t, from, n) == Some(ChunkSizes(ser)[..n])
  {
    if n > 0 {
      assert t[from..from + n - 1] == t[from..from + n][..n - 1];
      ReadSizeTokens(t, from, ser, n - 1);
      assert t[from + n - 1] == t[from..from + n][n - 1];
      SizeTokensAt(ser, n, n - 1);
      assert ChunkSizes(ser)[..n] == ChunkSizes(ser)[..n - 1] + [ChunkSizes(ser)[n - 1]];
    }
  }

  /**
   * The blob carries both snapshots and all sixteen chunk sizes: reading it
   * gives back each snapshot's bytes and its sizes in `Spaces` order.
   */
  lemma BlobRoundTrip(startup: seq<byte>, ser: Reservations, context: seq<byte>, contextSer: Reservations)
    requires SingleChunks(ser) && SingleChunks(contextSer)
    ensures ParseBlob(BlobTokens(startup, ser, context, contextSer))
      == Some(BlobContents(startup, ChunkSizes(ser), context, ChunkSizes(contextSer)))
  {
    var t := BlobTokens(startup, ser, context, contextSer);
    assert FirstBadSpace(ser) == 8 && FirstBadSpace(contextSer) == 8;
    assert t[1..9] == SizeTokens(ser, 8);
    assert t[10..18] == SizeTokens(contextSer, 8);
    ReadSizeTokens(t, 1, ser, 8);
    ReadSizeTokens(t, 10, contextSer, 8);
    assert ChunkSizes(ser)[..8] == ChunkSizes(ser);
    assert ChunkSizes(contextSer)[..8] == ChunkSizes(contextSer);
  }
}
