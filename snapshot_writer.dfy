/**
 * The snapshot writer as the object it is: its file handles and compressor
 * are fields that the setters assign, and writing appends to the generated
 * source text and to the opened files. Each method is proved to leave exactly
 * the outputs the matching step of `WriterSpec` describes.
 */
module MkSnapshot {
  import opened Common
  import opened Decimal
  import opened ByteLiteral
  import opened SnapshotFormat
  import opened WriterSpec

  /** The host's answer to fopen(path, "wb"): the paths it succeeds on, and each file's free space in bytes. */
  datatype Host = Host(room: map<string, nat>)

  /**
   * The writer. Each FILE* it holds is written by this writer alone, so an
   * open file is modelled as the state of that file (`FileState`), held in
   * the field that holds the handle.
   */
  class SnapshotWriter {
    /** Everything printed so far to the generated source file (fp_). */
    var text: string
    var raw: Option<FileState>
    var rawContext: Option<FileState>
    var startupBlob: Option<FileState>
    var compressor: Option<Compressor>
    /** Running, or the reason the process exited. */
    var status: Status

    /** What the writer has produced, as `WriterSpec` describes it. */
    function Produced(): Outputs
      reads this
    {
      Outputs(text, raw, rawContext, startupBlob, status)
    }

    /** Opens the generated source file; no raw files, no blob file, no compressor. */
    constructor (snapshotFile: string, host: Host)
      ensures status == if snapshotFile in host.room then Running else Exited(OpenFailed(snapshotFile))
      ensures text == [] && raw.None? && rawContext.None? && startupBlob.None? && compressor.None?
    {
      text := [];
      raw, rawContext, startupBlob := None, None, None;
      compressor := None;
      status := Running;
      new;
      var fp := GetFileDescriptorOrDie(snapshotFile, host);
    }

    /** Opens `filename` for writing, or ends the process when it cannot be opened. */
    method GetFileDescriptorOrDie(filename: string, host: Host) returns (fp: Option<FileState>)
      requires status.Running?
      modifies this`status
      ensures fp.None? <==> filename !in host.room
      ensures fp.Some? ==> fp.value == FileState(filename, [], host.room[filename])
      ensures status == if fp.None? then Exited(OpenFailed(filename)) else Running
    {
      if filename in host.room {
        fp := Some(FileState(filename, [], host.room[filename]));
      } else {
        fp := None;
        status := Exited(OpenFailed(filename));
      }
    }

    method SetCompressor(compressor: Option<Compressor>)
      modifies this`compressor
      ensures this.compressor == compressor
    {
      this.compressor := compressor;
    }

    /** Opens both raw files, the startup one first; either failing to open ends the process. */
    method SetRawFiles(rawFile: string, rawContextFile: string, host: Host)
      requires status.Running?
      modifies this`raw, this`rawContext, this`status
      ensures status == (if rawFile !in host.room then Exited(OpenFailed(rawFile))
                         else if rawContextFile !in host.room then Exited(OpenFailed(rawContextFile))
                         else Running)
      ensures status.Running? ==>
        raw == Some(FileState(rawFile, [], host.room[rawFile]))
        && rawContext == Some(FileState(rawContextFile, [], host.room[rawContextFile]))
    {
      raw := GetFileDescriptorOrDie(rawFile, host);
      if status != Running {
        return;
      }
      rawContext := GetFileDescriptorOrDie(rawContextFile, host);
    }

    /** Opens the blob file when a path is given; without one, the writer is left as it was. */
    method SetStartupBlobFile(startupBlobFile: Option<string>, host: Host)
      requires status.Running?
      modifies this`startupBlob, this`status
      ensures startupBlobFile.None? ==> startupBlob == old(startupBlob) && status == Running
      ensures startupBlobFile.Some? ==>
        var path := startupBlobFile.value;
        status == (if path in host.room then Running else Exited(OpenFailed(path)))
        && (status.Running? ==> startupBlob == Some(FileState(path, [], host.room[path])))
    {
      if startupBlobFile.Some? {
        startupBlob := GetFileDescriptorOrDie(startupBlobFile.value, host);
      }
    }

    /** Writes the source file, then the blob if a blob file is configured. */
    method WriteSnapshot(snapshotData: seq<byte>, serializer: Reservations,
                         contextSnapshotData: seq<byte>, contextSerializer: Reservations,
                         encode: seq<Token> -> seq<byte>)
      requires status.Running?
      modifies this`text, this`status, this`raw, this`rawContext, this`startupBlob
      ensures Produced() == SnapshotRun(old(Produced()), snapshotData, serializer,
                                        contextSnapshotData, contextSerializer, compressor, encode)
    {
      WriteSnapshotFile(snapshotData, serializer, contextSnapshotData, contextSerializer);
      if status != Running {
        return;
      }
      MaybeWriteStartupBlob(snapshotData, serializer, contextSnapshotData, contextSerializer, encode);
    }

    method MaybeWriteStartupBlob(snapshotData: seq<byte>, serializer: Reservations,
                                 contextSnapshotData: seq<byte>, contextSerializer: Reservations,
                                 encode: seq<Token> -> seq<byte>)
      requires status.Running?
      modifies this`status, this`startupBlob
      ensures Produced() == BlobStep(old(Produced()), snapshotData, serializer,
                                     contextSnapshotData, contextSerializer, encode)
    {
      if startupBlob.None? {
        return;
      }
      var sink: seq<Token> := [];
      var spaces := Spaces;

      sink := sink + [Blob(snapshotData)];
      var i := 0;
      while i < |spaces|
        invariant 0 <= i <= |spaces| && i <= FirstBadSpace(serializer)
        invariant sink == [Blob(snapshotData)] + SizeTokens(serializer, i)
      {
        var chunks := serializer(spaces[i]);
        if |chunks| != 1 {
          status := Exited(ChunkCheckFailed(spaces[i], |chunks|));
          return;
        }
        sink := sink + [Int(chunks[0])];
        i := i + 1;
      }

      ghost var startupPart := sink;
      sink := sink + [Blob(contextSnapshotData)];
      i := 0;
      while i < |spaces|
        invariant 0 <= i <= |spaces| && i <= FirstBadSpace(contextSerializer)
        invariant sink == startupPart + [Blob(contextSnapshotData)] + SizeTokens(contextSerializer, i)
      {
        var chunks := contextSerializer(spaces[i]);
        if |chunks| != 1 {
          status := Exited(ChunkCheckFailed(spaces[i], |chunks|));
          return;
        }
        sink := sink + [Int(chunks[0])];
        i := i + 1;
      }

      assert sink == BlobTokens(snapshotData, serializer, contextSnapshotData, contextSerializer);
      var startupBlobData := encode(sink);
      var (file, written) := Fwrite(startupBlob.value, startupBlobData);
      startupBlob := Some(file);
      if written != |startupBlobData| {
        status := Exited(BlobWriteFailed);
      }
    }

    method WriteSnapshotFile(snapshotData: seq<byte>, serializer: Reservations,
                             contextSnapshotData: seq<byte>, contextSerializer: Reservations)
      requires status.Running?
      modifies this`text, this`status, this`raw, this`rawContext
      ensures Produced() == FileStep(old(Produced()), snapshotData, serializer,
                                     contextSnapshotData, contextSerializer, compressor)
    {
      WriteFilePrefix();
      WriteData("", snapshotData, StartupRaw);
      if status != Running {
        return;
      }
      WriteData("context_", contextSnapshotData, ContextRaw);
      if status != Running {
        return;
      }
      WriteMeta("context_", contextSerializer);
      if status != Running {
        return;
      }
      WriteMeta("", serializer);
      if status != Running {
        return;
      }
      WriteFileSuffix();
    }

    method WriteFilePrefix()
      modifies this`text
      ensures text == old(text) + FilePrefix
    {
      text := text + FilePrefix;
    }

    method WriteFileSuffix()
      modifies this`text
      ensures text == old(text) + FileSuffix
    {
      text := text + FileSuffix;
    }

    /**
     * Chooses the data to embed (compressing it when a compressor is set),
     * copies that data to the raw file `rawFile` names if it is open, then
     * prints the declarations.
     */
    method WriteData(prefix: string, sourceData: seq<byte>, rawFile: RawSlot)
      requires status.Running?
      modifies this`text, this`status, this`raw, this`rawContext
      ensures Produced() == DataStep(old(Produced()), prefix, sourceData, rawFile, compressor)
    {
      var dataToBeWritten: Embedded;
      if compressor.None? {
        dataToBeWritten := Uncompressed(sourceData);
      } else {
        var output := compressor.value(sourceData);
        if output.None? {
          status := Exited(CompressionFailed);
          return;
        }
        dataToBeWritten := Compressed(output.value, |sourceData|);
      }
      assert Choose(sourceData, compressor) == Some(dataToBeWritten);
      MaybeWriteRawFile(dataToBeWritten.bytes, rawFile);
      if status != Running {
        return;
      }
      WriteDataDeclarations(prefix, dataToBeWritten);
    }

    /** Copies `data` to the raw file `rawFile` names, unless it is not open; a short write ends the process. */
    method MaybeWriteRawFile(data: seq<byte>, rawFile: RawSlot)
      requires status.Running?
      modifies this`status, this`raw, this`rawContext
      ensures RawOf(old(Produced()), rawFile).None? ==> Produced() == old(Produced())
      ensures RawOf(old(Produced()), rawFile).Some? ==>
        var (f, n) := Fwrite(RawOf(old(Produced()), rawFile).value, data);
        Produced() == WithRaw(old(Produced()), rawFile, f).(status := if n == |data| then Running else Exited(RawWriteFailed))
    {
      var file := if rawFile == StartupRaw then raw else rawContext;
      if file.None? {
        return;
      }
      var (f, written) := Fwrite(file.value, data);
      if rawFile == StartupRaw {
        raw := Some(f);
      } else {
        rawContext := Some(f);
      }
      if written != |data| {
        status := Exited(RawWriteFailed);
      }
    }

    /** The declarations of one data block: the array, its size, and the raw pointer and size. */
    method WriteDataDeclarations(prefix: string, dataToBeWritten: Embedded)
      modifies this`text
      ensures text == old(text) + DataText(prefix, dataToBeWritten)
    {
      // `written` is what this method has printed so far; each step re-groups
      // `old(text) + written` with the piece just printed.
      ghost var written := DataHead(prefix);
      text := text + DataHead(prefix);
      AppendAssoc(old(text), written, Literal(dataToBeWritten.bytes));
      WriteSnapshotData(dataToBeWritten.bytes);
      written := written + Literal(dataToBeWritten.bytes);
      AppendAssoc(old(text), written, "};\n");
      text := text + "};\n";
      written := written + "};\n";
      AppendAssoc(old(text), written, SizeHead(prefix));
      text := text + SizeHead(prefix);
      written := written + SizeHead(prefix);
      AppendAssoc(old(text), written, IntText(|dataToBeWritten.bytes|));
      text := text + IntText(|dataToBeWritten.bytes|);
      written := written + IntText(|dataToBeWritten.bytes|);
      AppendAssoc(old(text), written, ";\n");
      text := text + ";\n";
      written := written + ";\n";
      AppendAssoc(old(text), written, RawLines(prefix, dataToBeWritten));
      match dataToBeWritten {
        case Uncompressed(_) =>
          text := text + AliasLines(prefix);
        case Compressed(_, originalLength) =>
          text := text + (NullHead(prefix) + IntText(originalLength) + ";\n");
      }
      written := written + RawLines(prefix, dataToBeWritten);
      AppendAssoc(old(text), written, "\n");
      text := text + "\n";
    }

    /**
     * The eight space constants and a blank line. The writer makes one call per
     * space with the space's name; `Spaces` and `SpaceName` list those calls'
     * spaces and names in their order, so they are made here by walking that list.
     */
    method WriteMeta(prefix: string, ser: Reservations)
      requires status.Running?
      modifies this`text, this`status
      ensures Produced() == MetaStep(old(Produced()), prefix, ser)
    {
      ghost var o := Produced();
      var i := 0;
      while i < |Spaces|
        invariant 0 <= i <= 8 && i <= FirstBadSpace(ser)
        invariant Produced() == o.(text := o.text + MetaLines(prefix, ser, i))
      {
        WriteSizeVar(ser, prefix, SpaceName(Spaces[i]), Spaces[i]);
        if status != Running {
          MetaStepStops(o, prefix, ser, i);
          return;
        }
        MetaLinesNext(o.text, prefix, ser, i);
        i := i + 1;
      }
      text := text + "\n";
      AppendAssoc(o.text, MetaLines(prefix, ser, i), "\n");
      MetaStepCompletes(o, prefix, ser);
    }

    /**
     * The constant of one space, when its chunk list has exactly one entry;
     * otherwise the check fails and the process ends.
     */
    method WriteSizeVar(ser: Reservations, prefix: string, name: string, space: Space)
      requires status.Running?
      modifies this`text, this`status
      ensures |ser(space)| == 1 ==> text == old(text) + SizeVarLine(prefix, name, ser(space)[0]) && status == Running
      ensures |ser(space)| != 1 ==> text == old(text) && status == Exited(ChunkCheckFailed(space, |ser(space)|))
    {
      var chunks := ser(space);
      if |chunks| != 1 {
        status := Exited(ChunkCheckFailed(space, |chunks|));
        return;
      }
      text := text + SizeVarLine(prefix, name, chunks[0]);
    }

    /** The literal of one data block, one value per loop turn. */
    method WriteSnapshotData(data: seq<byte>)
      modifies this`text
      ensures text == old(text) + Literal(data)
    {
      var i := 0;
      while i < |data|
        invariant 0 <= i <= |data|
        invariant text == old(text) + Pieces(data, i)
      {
        if i % 32 == 31 {
          text := text + "\n";
        }
        if i > 0 {
          text := text + ",";
        }
        text := text + Digits(data[i]);
        i := i + 1;
      }
      text := text + "\n";
    }
  }
}
