/**
 * The snapshot writer's effect, written as functions: each step takes what
 * has been produced so far (the source text, the raw files, the blob file and
 * whether the process is still running) to what the corresponding writer
 * member leaves behind. A step taken after the process has exited changes
 * nothing, as exit(1) ends the program.
 */
module WriterSpec {
  import opened Common
  import opened ByteLiteral
  import opened SnapshotFormat

  /** Why the process stopped. */
  datatype Failure =
    | OpenFailed(path: string)                       // fopen(path, "wb") returned NULL
    | CompressionFailed                              // Compressor::Compress returned false
    | RawWriteFailed                                 // fwrite to a raw file fell short
    | BlobWriteFailed                                // fwrite of the startup blob fell short
    | ChunkCheckFailed(space: Space, chunks: nat)    // CHECK_EQ(1, chunks.length()) failed

  datatype Status = Running | Exited(failure: Failure)

  /** A file opened with fopen(path, "wb"): what has been written, and how many more bytes it takes. */
  datatype FileState = FileState(path: string, contents: seq<byte>, room: nat)

  /**
   * fwrite of `data`: the file takes as many bytes as it has room for, and the
   * count written falls short exactly when the data does not fit.
   */
  function Fwrite(f: FileState, data: seq<byte>): (r: (FileState, nat))
    ensures r.1 <= |data| && (r.1 == |data| <==> |data| <= f.room)
    ensures r.0.path == f.path && r.0.contents == f.contents + data[..r.1]
    ensures r.0.room == f.room - r.1
  {
    var n := Min(|data|, f.room);
    (FileState(f.path, f.contents + data[..n], f.room - n), n)
  }

  /** Everything the writer has produced so far. */
  datatype Outputs = Outputs(
    text: string,                  // printed to the generated source file
    raw: Option<FileState>,        // the startup raw file, if configured
    rawContext: Option<FileState>, // the context raw file, if configured
    blob: Option<FileState>,       // the startup blob file, if configured
    status: Status)

  /** Which raw file a data block goes to. */
  datatype RawSlot = StartupRaw | ContextRaw

  function RawOf(o: Outputs, slot: RawSlot): Option<FileState>
  {
    match slot
    case StartupRaw => o.raw
    case ContextRaw => o.rawContext
  }

  function WithRaw(o: Outputs, slot: RawSlot, f: FileState): Outputs
  {
    match slot
    case StartupRaw => o.(raw := Some(f))
    case ContextRaw => o.(rawContext := Some(f))
  }

  function Print(o: Outputs, s: string): Outputs
  {
    if o.status.Running? then o.(text := o.text + s) else o
  }

  /**
   * One data block: choose the data (aborting when compression fails), copy
   * exactly that data to the raw file if there is one (aborting on a short
   * write), then print its declarations.
   */
  function DataStep(o: Outputs, prefix: string, source: seq<byte>, slot: RawSlot,
                    compressor: Option<Compressor>): Outputs
  {
    if !o.status.Running? then o
    else
      match Choose(source, compressor)
      case None => o.(status := Exited(CompressionFailed))
      case Some(e) =>
        match RawOf(o, slot)
        case None => o.(text := o.text + DataText(prefix, e))
        case Some(f) =>
          var (f', n) := Fwrite(f, e.bytes);
          if n != |e.bytes| then WithRaw(o, slot, f').(status := Exited(RawWriteFailed))
          else WithRaw(o, slot, f').(text := o.text + DataText(prefix, e))
  }

  /**
   * The eight space constants: printed in order until a space whose chunk
   * list is not exactly one long, where the check aborts.
   */
  function MetaStep(o: Outputs, prefix: string, ser: Reservations): Outputs
  {
    if !o.status.Running? then o
    else
      var k := FirstBadSpace(ser);
      if k < 8 then
        o.(text := o.text + MetaLines(prefix, ser, k),
           status := Exited(ChunkCheckFailed(Spaces[k], |ser(Spaces[k])|)))
      else o.(text := o.text + MetaText(prefix, ser))
  }

  /** The generated source file, in the writer's fixed order. */
  function FileStep(o: Outputs, startup: seq<byte>, ser: Reservations,
                    context: seq<byte>, contextSer: Reservations,
                    compressor: Option<Compressor>): Outputs
  {
    var o1 := Print(o, FilePrefix);
    var o2 := DataStep(o1, "", startup, StartupRaw, compressor);
    var o3 := DataStep(o2, "context_", context, ContextRaw, compressor);
    var o4 := MetaStep(o3, "context_", contextSer);
    var o5 := MetaStep(o4, "", ser);
    Print(o5, FileSuffix)
  }

  /**
   * The startup blob, if a blob file is configured: the sink is filled with
   * the uncompressed snapshots and their chunk sizes (the same checks as the
   * space constants), its encoding is written in one fwrite, and a short write
   * aborts.
   */
  function BlobStep(o: Outputs, startup: seq<byte>, ser: Reservations,
                    context: seq<byte>, contextSer: Reservations,
                    encode: seq<Token> -> seq<byte>): Outputs
  {
    if !o.status.Running? || o.blob.None? then o
    else if FirstBadSpace(ser) < 8 then
      var k := FirstBadSpace(ser);
      o.(status := Exited(ChunkCheckFailed(Spaces[k], |ser(Spaces[k])|)))
    else if FirstBadSpace(contextSer) < 8 then
      var k := FirstBadSpace(contextSer);
      o.(status := Exited(ChunkCheckFailed(Spaces[k], |contextSer(Spaces[k])|)))
    else
      var data := encode(BlobTokens(startup, ser, context, contextSer));
      var (f, n) := Fwrite(o.blob.value, data);
      o.(blob := Some(f), status := if n == |data| then Running else Exited(BlobWriteFailed))
  }

  /** A whole `WriteSnapshot`: the source file, then the blob. */
  function SnapshotRun(o: Outputs, startup: seq<byte>, ser: Reservations,
                       context: seq<byte>, contextSer: Reservations,
                       compressor: Option<Compressor>, encode: seq<Token> -> seq<byte>): Outputs
  {
    BlobStep(FileStep(o, startup, ser, context, contextSer, compressor),
             startup, ser, context, contextSer, encode)
  }

  // ---------------------------------------------------------------------------
  // Properties of a run

  /** A raw file, if there is one, has room for `n` more bytes. */
  predicate Fits(f: Option<FileState>, n: nat)
  {
    f.None? || n <= f.value.room
  }

  /** `before` followed by the complete source text for two embedded snapshots. */
  function FullText(before: string, e: Embedded, c: Embedded, ser: Reservations, contextSer: Reservations): string
    requires SingleChunks(ser) && SingleChunks(contextSer)
  {
    before + FilePrefix + DataText("", e) + DataText("context_", c)
    + MetaText("context_", contextSer) + MetaText("", ser) + FileSuffix
  }

  /** What a successful data step leaves in a raw file: the old contents and exactly the embedded bytes. */
  function AfterRaw(f: Option<FileState>, bytes: seq<byte>): Option<FileState>
    requires Fits(f, |bytes|)
  {
    match f
    case None => None
    case Some(g) => Some(FileState(g.path, g.contents + bytes, g.room - |bytes|))
  }

  lemma DataStepOk(o: Outputs, prefix: string, source: seq<byte>, slot: RawSlot, compressor: Option<Compressor>)
    requires o.status.Running?
    ensures var r := DataStep(o, prefix, source, slot, compressor);
      var e := Choose(source, compressor);
      (r.status.Running? <==> e.Some? && Fits(RawOf(o, slot), |e.value.bytes|))
      && (r.status.Running? ==>
            r.text == o.text + DataText(prefix, e.value)
            && RawOf(r, slot) == AfterRaw(RawOf(o, slot), e.value.bytes))
      && r.blob == o.blob
      && (slot == StartupRaw ==> r.rawContext == o.rawContext)
      && (slot == ContextRaw ==> r.raw == o.raw)
  {
    var e := Choose(source, compressor);
    if e.Some? {
      var block := DataText(prefix, e.value);
      var bytes := e.value.bytes;
      var r := DataStep(o, prefix, source, slot, compressor);
      match RawOf(o, slot)
      case None =>
        assert r == o.(text := o.text + block);
      case Some(f) =>
        var (f', n) := Fwrite(f, bytes);
        assert bytes[..|bytes|] == bytes;
        if n == |bytes| {
          assert r == WithRaw(o, slot, f').(text := o.text + block);
          assert Some(f') == AfterRaw(RawOf(o, slot), bytes);
        } else {
          assert r == WithRaw(o, slot, f').(status := Exited(RawWriteFailed));
        }
    }
  }

  /** The source file after the prefix and both data blocks. */
  function DataBlocks(o: Outputs, startup: seq<byte>, context: seq<byte>, compressor: Option<Compressor>): Outputs
  {
    var o1 := Print(o, FilePrefix);
    var o2 := DataStep(o1, "", startup, StartupRaw, compressor);
    DataStep(o2, "context_", context, ContextRaw, compressor)
  }

  lemma DataBlocksOutcome(o: Outputs, startup: seq<byte>, context: seq<byte>, compressor: Option<Compressor>)
    requires o.status.Running?
    ensures var r := DataBlocks(o, startup, context, compressor);
      var e := Choose(startup, compressor);
      var c := Choose(context, compressor);
      (r.status.Running? <==>
        e.Some? && c.Some? && Fits(o.raw, |e.value.bytes|) && Fits(o.rawContext, |c.value.bytes|))
      && (r.status.Running? ==>
            r.text == o.text + FilePrefix + DataText("", e.value) + DataText("context_", c.value)
            && r.raw == AfterRaw(o.raw, e.value.bytes)
            && r.rawContext == AfterRaw(o.rawContext, c.value.bytes))
      && r.blob == o.blob
  {
    var o1 := Print(o, FilePrefix);
    var o2 := DataStep(o1, "", startup, StartupRaw, compressor);
    DataStepOk(o1, "", startup, StartupRaw, compressor);
    if o2.status.Running? {
      DataStepOk(o2, "context_", context, ContextRaw, compressor);
    }
  }

  lemma MetaStepOk(o: Outputs, prefix: string, ser: Reservations)
    requires o.status.Running?
    ensures var r := MetaStep(o, prefix, ser);
      (r.status.Running? <==> SingleChunks(ser))
      && (r.status.Running? ==> r.text == o.text + MetaText(prefix, ser))
      && r.raw == o.raw && r.rawContext == o.rawContext && r.blob == o.blob
  {
  }

  /** The constants block stops at a space whose chunk check fails. */
  lemma MetaStepStops(o: Outputs, prefix: string, ser: Reservations, i: nat)
    requires o.status.Running? && i < 8 && i <= FirstBadSpace(ser) && |ser(Spaces[i])| != 1
    ensures MetaStep(o, prefix, ser)
      == o.(text := o.text + MetaLines(prefix, ser, i), status := Exited(ChunkCheckFailed(Spaces[i], |ser(Spaces[i])|)))
  {
    assert FirstBadSpace(ser) == i;
  }

  /** The constants block is complete when every space passes its chunk check. */
  lemma MetaStepCompletes(o: Outputs, prefix: string, ser: Reservations)
    requires o.status.Running? && FirstBadSpace(ser) == 8
    ensures MetaStep(o, prefix, ser) == o.(text := o.text + (MetaLines(prefix, ser, 8) + "\n"))
  {
  }

  /** The part of the source file after the data blocks. */
  function ConstantsAndSuffix(o: Outputs, ser: Reservations, contextSer: Reservations): Outputs
  {
    Print(MetaStep(MetaStep(o, "context_", contextSer), "", ser), FileSuffix)
  }

  lemma ConstantsOutcome(o: Outputs, ser: Reservations, contextSer: Reservations)
    requires o.status.Running?
    ensures var r := ConstantsAndSuffix(o, ser, contextSer);
      (r.status.Running? <==> SingleChunks(ser) && SingleChunks(contextSer))
      && (r.status.Running? ==> r.text == o.text + MetaText("context_", contextSer) + MetaText("", ser) + FileSuffix)
      && r.raw == o.raw && r.rawContext == o.rawContext && r.blob == o.blob
  {
    var o4 := MetaStep(o, "context_", contextSer);
    MetaStepOk(o, "context_", contextSer);
    if o4.status.Running? {
      MetaStepOk(o4, "", ser);
    }
  }

  /**
   * The source file succeeds exactly when both snapshots can be embedded, each
   * configured raw file has room for its data, and every space of both
   * snapshots has a single chunk. It then consists of the prefix, the startup
   * block, the context block, the context constants, the startup constants and
   * the suffix, in that order, and each raw file has received exactly the bytes
   * its block embeds (compressed ones when there is a compressor).
   */
  lemma FileStepOutcome(o: Outputs, startup: seq<byte>, ser: Reservations,
                        context: seq<byte>, contextSer: Reservations, compressor: Option<Compressor>)
    requires o.status.Running?
    ensures var r := FileStep(o, startup, ser, context, contextSer, compressor);
      var e := Choose(startup, compressor);
      var c := Choose(context, compressor);
      (r.status.Running? <==>
        e.Some? && c.Some? && Fits(o.raw, |e.value.bytes|) && Fits(o.rawContext, |c.value.bytes|)
        && SingleChunks(ser) && SingleChunks(contextSer))
      && (r.status.Running? ==>
            r.text == FullText(o.text, e.value, c.value, ser, contextSer)
            && r.raw == AfterRaw(o.raw, e.value.bytes)
            && r.rawContext == AfterRaw(o.rawContext, c.value.bytes))
      && r.blob == o.blob
  {
    var o3 := DataBlocks(o, startup, context, compressor);
    DataBlocksOutcome(o, startup, context, compressor);
    assert FileStep(o, startup, ser, context, contextSer, compressor) == ConstantsAndSuffix(o3, ser, contextSer);
    if o3.status.Running? {
      ConstantsOutcome(o3, ser, contextSer);
    }
  }

  /**
   * A chunk check that fails in the context constants stops the run after the
   * prefix, both data blocks and the context constants before the offending
   * space have been printed to the stream.
   */
  lemma ContextCheckLeavesPartialText(o: Outputs, startup: seq<byte>, ser: Reservations,
                                      context: seq<byte>, contextSer: Reservations,
                                      compressor: Option<Compressor>)
    requires o.status.Running?
    requires var e := Choose(startup, compressor);
      var c := Choose(context, compressor);
      e.Some? && c.Some? && Fits(o.raw, |e.value.bytes|) && Fits(o.rawContext, |c.value.bytes|)
    requires !SingleChunks(contextSer)
    ensures var r := FileStep(o, startup, ser, context, contextSer, compressor);
      var k := FirstBadSpace(contextSer);
      r.status == Exited(ChunkCheckFailed(Spaces[k], |contextSer(Spaces[k])|))
      && r.text == o.text + FilePrefix + DataText("", Choose(startup, compressor).value)
         + DataText("context_", Choose(context, compressor).value)
         + MetaLines("context_", contextSer, k)
  {
    FileStepParts(o, startup, ser, context, contextSer, compressor);
    DataBlocksOutcome(o, startup, context, compressor);
    ContextConstantsStop(DataBlocks(o, startup, context, compressor), ser, contextSer);
  }

  lemma ContextConstantsStop(o: Outputs, ser: Reservations, contextSer: Reservations)
    requires o.status.Running? && !SingleChunks(contextSer)
    ensures var r := ConstantsAndSuffix(o, ser, contextSer);
      var k := FirstBadSpace(contextSer);
      r.status == Exited(ChunkCheckFailed(Spaces[k], |contextSer(Spaces[k])|))
      && r.text == o.text + MetaLines("context_", contextSer, k)
  {
    MetaStepStops(o, "context_", contextSer, FirstBadSpace(contextSer));
  }

  /**
   * When every context space passes but a startup space fails its check, the
   * text also holds all eight context constants and their blank line, then the
   * startup constants before the failing space.
   */
  lemma StartupCheckLeavesPartialText(o: Outputs, startup: seq<byte>, ser: Reservations,
                                      context: seq<byte>, contextSer: Reservations,
                                      compressor: Option<Compressor>)
    requires o.status.Running?
    requires var e := Choose(startup, compressor);
      var c := Choose(context, compressor);
      e.Some? && c.Some? && Fits(o.raw, |e.value.bytes|) && Fits(o.rawContext, |c.value.bytes|)
    requires SingleChunks(contextSer) && !SingleChunks(ser)
    ensures var r := FileStep(o, startup, ser, context, contextSer, compressor);
      var k := FirstBadSpace(ser);
      r.status == Exited(ChunkCheckFailed(Spaces[k], |ser(Spaces[k])|))
      && r.text == o.text + FilePrefix + DataText("", Choose(startup, compressor).value)
         + DataText("context_", Choose(context, compressor).value)
         + MetaText("context_", contextSer)
         + MetaLines("", ser, k)
  {
    FileStepParts(o, startup, ser, context, contextSer, compressor);
    DataBlocksOutcome(o, startup, context, compressor);
    StartupConstantsStop(DataBlocks(o, startup, context, compressor), ser, contextSer);
  }

  /** The source file is the data blocks followed by the constants and the suffix. */
  lemma FileStepParts(o: Outputs, startup: seq<byte>, ser: Reservations,
                      context: seq<byte>, contextSer: Reservations, compressor: Option<Compressor>)
    ensures FileStep(o, startup, ser, context, contextSer, compressor)
      == ConstantsAndSuffix(DataBlocks(o, startup, context, compressor), ser, contextSer)
  {
  }

  lemma StartupConstantsStop(o: Outputs, ser: Reservations, contextSer: Reservations)
    requires o.status.Running? && SingleChunks(contextSer) && !SingleChunks(ser)
    ensures var r := ConstantsAndSuffix(o, ser, contextSer);
      var k := FirstBadSpace(ser);
      r.status == Exited(ChunkCheckFailed(Spaces[k], |ser(Spaces[k])|))
      && r.text == o.text + MetaText("context_", contextSer) + MetaLines("", ser, k)
  {
    var o4 := o.(text := o.text + MetaText("context_", contextSer));
    MetaStepCompletes(o, "context_", contextSer);
    assert MetaStep(o, "context_", contextSer) == o4;
    MetaStepStops(o4, "", ser, FirstBadSpace(ser));
  }

  /**
   * A failing compression of the startup snapshot aborts before anything but
   * the prefix is printed and before any raw file is written.
   */
  lemma CompressionFailureStopsEarly(o: Outputs, startup: seq<byte>, ser: Reservations,
                                     context: seq<byte>, contextSer: Reservations,
                                     compressor: Option<Compressor>)
    requires o.status.Running?
    requires Choose(startup, compressor).None?
    ensures var r := FileStep(o, startup, ser, context, contextSer, compressor);
      r == o.(text := o.text + FilePrefix, status := Exited(CompressionFailed))
  {
  }

  /**
   * A failing compression of the context snapshot aborts after the startup
   * data block: the text holds the prefix and the startup declarations, the
   * startup raw file holds the startup bytes as embedded, and the context raw
   * file is not written.
   */
  lemma ContextCompressionFailureKeepsStartup(o: Outputs, startup: seq<byte>, ser: Reservations,
                                              context: seq<byte>, contextSer: Reservations,
                                              compressor: Option<Compressor>)
    requires o.status.Running?
    requires var e := Choose(startup, compressor); e.Some? && Fits(o.raw, |e.value.bytes|)
    requires Choose(context, compressor).None?
    ensures var r := FileStep(o, startup, ser, context, contextSer, compressor);
      var e := Choose(startup, compressor).value;
      r.status == Exited(CompressionFailed)
      && r.text == o.text + FilePrefix + DataText("", e)
      && r.raw == AfterRaw(o.raw, e.bytes)
      && r.rawContext == o.rawContext
      && r.blob == o.blob
  {
    var o1 := Print(o, FilePrefix);
    DataStepOk(o1, "", startup, StartupRaw, compressor);
    var o2 := DataStep(o1, "", startup, StartupRaw, compressor);
    var o3 := o2.(status := Exited(CompressionFailed));
    assert DataStep(o2, "context_", context, ContextRaw, compressor) == o3;
    FileStepParts(o, startup, ser, context, contextSer, compressor);
    assert ConstantsAndSuffix(o3, ser, contextSer) == o3;
  }

  lemma BlobStepOutcome(f: Outputs, startup: seq<byte>, ser: Reservations,
                        context: seq<byte>, contextSer: Reservations, encode: seq<Token> -> seq<byte>)
    ensures var r := BlobStep(f, startup, ser, context, contextSer, encode);
      r.text == f.text && r.raw == f.raw && r.rawContext == f.rawContext
      && (f.blob.None? || !f.status.Running? ==> r == f)
      && (f.status.Running? && SingleChunks(ser) && SingleChunks(contextSer) ==>
            (r.status == Running || r.status == Exited(BlobWriteFailed))
            && (f.blob.Some? ==>
                  var data := encode(BlobTokens(startup, ser, context, contextSer));
                  r.blob.Some?
                  && (r.status.Running? <==> |data| <= f.blob.value.room)
                  && (r.status.Running? ==> r.blob.value.contents == f.blob.value.contents + data)))
  {
    if f.status.Running? && f.blob.Some? && SingleChunks(ser) && SingleChunks(contextSer) {
      var data := encode(BlobTokens(startup, ser, context, contextSer));
      assert data[..|data|] == data;
    }
  }

  /**
   * The blob phase prints nothing, so the source text is complete before any
   * blob work starts; it never fails a chunk check once the source file
   * succeeded (the same checks already passed there); and it touches the blob
   * file only when one is configured, writing the encoding of the uncompressed
   * snapshots and their sizes, whatever the compressor.
   */
  lemma RunOutcome(o: Outputs, startup: seq<byte>, ser: Reservations,
                   context: seq<byte>, contextSer: Reservations,
                   compressor: Option<Compressor>, encode: seq<Token> -> seq<byte>)
    requires o.status.Running?
    ensures var f := FileStep(o, startup, ser, context, contextSer, compressor);
      var r := SnapshotRun(o, startup, ser, context, contextSer, compressor, encode);
      r.text == f.text && r.raw == f.raw && r.rawContext == f.rawContext
      && (o.blob.None? ==> r == f)
      && (!f.status.Running? ==> r == f)
      && (f.status.Running? ==> SingleChunks(ser) && SingleChunks(contextSer))
      && (f.status.Running? ==> r.status == Running || r.status == Exited(BlobWriteFailed))
      && (f.status.Running? && o.blob.Some? && SingleChunks(ser) && SingleChunks(contextSer) ==>
            var data := encode(BlobTokens(startup, ser, context, contextSer));
            r.blob.Some?
            && (r.status.Running? <==> |data| <= o.blob.value.room)
            && (r.status.Running? ==> r.blob.value.contents == o.blob.value.contents + data))
  {
    var f := FileStep(o, startup, ser, context, contextSer, compressor);
    assert f.blob == o.blob && (f.status.Running? ==> SingleChunks(ser) && SingleChunks(contextSer)) by {
      FileStepOutcome(o, startup, ser, context, contextSer, compressor);
    }
    BlobStepOutcome(f, startup, ser, context, contextSer, encode);
  }

  /** The source file never fails with a blob write failure: the blob is not touched there. */
  lemma FileStepNoBlobFailure(o: Outputs, startup: seq<byte>, ser: Reservations,
                              context: seq<byte>, contextSer: Reservations, compressor: Option<Compressor>)
    requires o.status.Running?
    ensures FileStep(o, startup, ser, context, contextSer, compressor).status != Exited(BlobWriteFailed)
  {
    var o1 := Print(o, FilePrefix);
    var o2 := DataStep(o1, "", startup, StartupRaw, compressor);
    var o3 := DataStep(o2, "context_", context, ContextRaw, compressor);
    var o4 := MetaStep(o3, "context_", contextSer);
    var o5 := MetaStep(o4, "", ser);
    DataStepNoBlobFailure(o1, "", startup, StartupRaw, compressor);
    DataStepNoBlobFailure(o2, "context_", context, ContextRaw, compressor);
    assert o4.status != Exited(BlobWriteFailed);
    assert o5.status != Exited(BlobWriteFailed);
    assert FileStep(o, startup, ser, context, contextSer, compressor) == Print(o5, FileSuffix);
  }

  lemma DataStepNoBlobFailure(o: Outputs, prefix: string, source: seq<byte>, slot: RawSlot,
                              compressor: Option<Compressor>)
    requires o.status != Exited(BlobWriteFailed)
    ensures DataStep(o, prefix, source, slot, compressor).status != Exited(BlobWriteFailed)
  {
  }

  /**
   * When the blob write falls short the source file is already complete: the
   * failure leaves the full text behind.
   */
  lemma BlobFailureKeepsSource(o: Outputs, startup: seq<byte>, ser: Reservations,
                               context: seq<byte>, contextSer: Reservations,
                               compressor: Option<Compressor>, encode: seq<Token> -> seq<byte>)
    requires o.status.Running?
    requires SnapshotRun(o, startup, ser, context, contextSer, compressor, encode).status
             == Exited(BlobWriteFailed)
    ensures SingleChunks(ser) && SingleChunks(contextSer)
    ensures Choose(startup, compressor).Some? && Choose(context, compressor).Some?
    ensures SnapshotRun(o, startup, ser, context, contextSer, compressor, encode).text
      == FullText(o.text, Choose(startup, compressor).value, Choose(context, compressor).value, ser, contextSer)
  {
    var f := FileStep(o, startup, ser, context, contextSer, compressor);
    RunOutcome(o, startup, ser, context, contextSer, compressor, encode);
    FileStepNoBlobFailure(o, startup, ser, context, contextSer, compressor);
    assert f.status.Running?;
    FileStepOutcome(o, startup, ser, context, contextSer, compressor);
  }
}
