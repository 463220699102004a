# mksnapshot's snapshot writer and the property formatters, in Dafny

This project models two parts of V8, in Dafny 4.11.

The first part is `SnapshotWriter` from `src/mksnapshot.cc`. This build-time
tool takes a startup snapshot and a context snapshot, both already
serialized, and writes them out in several forms:

- a generated C++ source file, holding each snapshot as a `data_[]` byte
  array, its `size_`, a `raw_data_`/`raw_size_` pair, and eight
  `<prefix><space>_space_used_` constants;
- optional raw dump files;
- an optional startup blob, made of the two snapshots and the single
  allocation chunk size of each of the eight heap spaces.

The second part is the human-readable formatters of `src/property.cc`:

- the `[WEC]` attribute string;
- the dictionary and descriptor-array renderings of `PropertyDetails`;
- `PropertyDetails::Print`;
- the renderings of a `Descriptor` and of a `LookupResult`.

## Layout

| file | module | what it holds |
|---|---|---|
| `common.dfy` | `Common` | byte and uint32 types, `Option`, counting, prefix and suffix helpers on strings, and a reader that applies another reader a fixed number of times |
| `decimal.dfy` | `Decimal` | `%u`/`%d`/`operator<<` decimal text and a reader for it |
| `byte_literal.dfy` | `ByteLiteral` | the body of a `data_[]` array (the `WriteSnapshotData` layout) and its decoder |
| `snapshot_format.dfy` | `SnapshotFormat` | the spaces and constant names, the compressed/uncompressed choice, the generated declarations, the blob's token sequence, and readers for them |
| `writer_spec.dfy` | `WriterSpec` | each writer step as a function from what has been produced so far to what the step leaves, with lemmas about whole runs |
| `snapshot_writer.dfy` | `MkSnapshot` | the `SnapshotWriter` class: fields, setters and the writing methods, each proved to match its `WriterSpec` step |
| `property.dfy` | `Property` | the formatters of `src/property.cc` as string functions, with readers and round-trip lemmas |

### How the writer is modelled

`SnapshotWriter` is a class. Its fields are the generated text (what `fp_`
receives), the raw files, the blob file, the compressor, and a `status`:
`Running`, or the reason the process called `exit(1)` or failed a `CHECK`.

A `FILE*` handle is modelled by the state of the file it writes: the path,
the bytes written, and the room left. `fopen` consults a `Host`, which maps
each path that can be opened to its free space. `fwrite` is `WriterSpec.Fwrite`:
it writes what fits, and it falls short exactly when the data does not fit.

A process that has exited runs nothing more. So each method is entered only
while `status` is `Running`, and a method that makes several calls returns
as soon as one of them has ended the process. In `WriterSpec`, a step taken
after an exit changes nothing.

Each writing method's postcondition names its `WriterSpec` step. For
example, `WriteSnapshot` leaves `Produced() == SnapshotRun(old(Produced()), ...)`.
The lemmas in `WriterSpec` then state what a run produces.

The serializer's `FinalAllocationChunks` is a function from `Space` to a
list of chunk sizes. A compressor is a function that returns `None` when
`Compress` fails. The byte encoding of `SnapshotByteSink` is a parameter
`encode`, applied to the token sequence the writer builds.

`WriteMeta` makes one `WriteSizeVar` call per space, in the fixed order
NEW, OLD_POINTER, OLD_DATA, CODE, MAP, CELL, PROPERTY_CELL, LO, each with
its name. The model walks the constant `Spaces` with `SpaceName`, which
list the same spaces and names in the same order. It still makes one
`WriteSizeVar` call per space.

The test `(i & 0x1f) == 0x1f` in `WriteSnapshotData` is written as
`i % 32 == 31`. The two are equal for the non-negative loop index.

### Behaviour worth noting

- **Raw files.** A raw file receives the data that is embedded. That is the
  compressor's output when a compressor is set, and the source bytes
  otherwise (`src/mksnapshot.cc:159`, 163-176). `WriterSpec.DataStepOk`
  states this.
- **Partial output on a failed check.** A failing chunk-count `CHECK` ends
  the run, but the `fprintf` output before it has already been printed to
  the stream (`src/mksnapshot.cc:122-127`, 216).
  - When a context space fails, that output is the prefix, both data blocks
    and the context constants of the spaces before the failing one
    (`WriterSpec.ContextCheckLeavesPartialText`).
  - When every context space passes and a startup space fails, the output
    also holds all eight context constants and their blank line, then the
    startup constants of the spaces before the failing one
    (`WriterSpec.StartupCheckLeavesPartialText`).

### How the formatters are modelled

Each `operator<<` is a function that returns the text it puts on the
stream. `Brief(...)` of a heap object and `Representation::Mnemonic()` are
computed outside `src/property.cc`. They are carried as the strings they
print. The accessors of `PropertyDetails` are fields of a datatype.

`PropertyAttributes` is a 32-bit bit set, with READ_ONLY = 1,
DONT_ENUM = 2 and DONT_DELETE = 4. These values come from V8's public
header, which is not part of this model.

The dictionary rendering treats CONSTANT as `UNREACHABLE()`. It is
therefore a precondition of `DictionaryText`, and of `Print` in dictionary
mode.

Each rendering has a reader beside it, and a lemma states what reading
the text back recovers:

- the attribute string: the three printed bits;
- a dictionary rendering: the type, the dictionary index and the three bits;
- a descriptor rendering: everything it shows, that is the type, for a
  field the mnemonic and the field index, the pointer and the three bits;
- a descriptor line, read from its right end: the same, except the
  mnemonic, and except the two briefs before the details;
- a lookup result: whether it was found, whether it is a transition, and
  the target's brief form.

## Model

| member | source | states |
|---|---|---|
| `Decimal.ValueOfDigits` | src/mksnapshot.cc:227 | the `%u` text of a value reads back as that value |
| `Decimal.DigitsInjective` | src/mksnapshot.cc:227 | two different values never print the same digits |
| `Decimal.IntTextReads` | src/mksnapshot.cc:183-184 | the `%d` text of an int reads back as the int, sign included |
| `Decimal.AsInt32` | src/mksnapshot.cc:217-218 | the signed 32-bit reading of a uint32 chunk: within the int32 range, equal to the chunk modulo 2^32, and equal to the chunk exactly when it is below 2^31 |
| `Decimal.Int32TextReads` | src/mksnapshot.cc:217-218 | `%d` of a uint32 chunk size reads back as the chunk's 32-bit signed reinterpretation, which is the chunk itself below 2^31 |
| `ByteLiteral.DecodeLiteral` | src/mksnapshot.cc:221-230 | decoding the printed literal gives back exactly the bytes written: none lost, reordered or altered |
| `ByteLiteral.LiteralInjective` | src/mksnapshot.cc:221-230 | two byte lists print the same literal only if they are equal |
| `ByteLiteral.LiteralLayout` | src/mksnapshot.cc:221-230 | the literal has one line break per full group of 32 values plus the final one, one comma fewer than values (none when there are no values), so none trails the last value, and a digit right before the final line break |
| `ByteLiteral.LiteralBreaks` | src/mksnapshot.cc:221-230 | where the separators fall: the first value's digits open the literal; any other value at index i is preceded by a comma, and when i % 32 == 31 by a line break and then that comma; its digits follow at once; the literal ends with a line break |
| `ByteLiteral.LiteralChars` | src/mksnapshot.cc:221-230 | the literal holds only digits, commas and line breaks |
| `SnapshotFormat.SpacesEnumerated` | src/mksnapshot.cc:82-85 | the space list has eight entries, every space occurs in it, and none occurs twice |
| `SnapshotFormat.SpaceNameRoundTrip` | src/mksnapshot.cc:199-209 | each constant name identifies its space; no two spaces share a name |
| `SnapshotFormat.FirstBadSpace` | src/mksnapshot.cc:211-219 | the position where the in-order chunk checks first fail: every earlier space has exactly one chunk, the space there does not, and it is 8 exactly when every space has one chunk |
| `SnapshotFormat.Choose` | src/mksnapshot.cc:146-156 | the data fails exactly when a compressor is set and fails; otherwise it is the source unchanged without a compressor, and the compressor's output, with the source length kept, with one |
| `SnapshotFormat.ReadDataText` | src/mksnapshot.cc:178-197 | reading a data block's declarations back gives its bytes, a size equal to their count, and an aliasing raw pointer and size when uncompressed or a NULL pointer and the original length when compressed |
| `SnapshotFormat.DeclaredData` | src/mksnapshot.cc:144-197 | for a source and a compressor: `size_` counts the embedded bytes, `raw_size_` is the source length, `raw_data_` is NULL exactly when a compressor is set, and the embedded bytes are the source or the compressor's output |
| `SnapshotFormat.ReadMetaText` | src/mksnapshot.cc:199-219 | reading a complete constants block back gives, for each of the eight spaces in order, the space its constant names and the `%d` value of its single chunk, with nothing after the closing blank line |
| `SnapshotFormat.BlobRoundTrip` | src/mksnapshot.cc:80-109 | reading the blob's tokens gives back the startup bytes, its eight chunk sizes, the context bytes and its eight chunk sizes, in space order |
| `WriterSpec.Fwrite` | src/mksnapshot.cc:171-175 | the write falls short exactly when the data does not fit; the file gains exactly the bytes written |
| `WriterSpec.DataStepOk` | src/mksnapshot.cc:144-197 | a data block succeeds exactly when the data can be chosen and fits the raw file; then the text gains its declarations and the raw file exactly the embedded bytes; the other raw file and the blob are untouched |
| `WriterSpec.DataBlocksOutcome` | src/mksnapshot.cc:122-124 | prefix, startup block, context block: success conditions, the text in that order, and each raw file's contents |
| `WriterSpec.MetaStepOk` | src/mksnapshot.cc:199-219 | the constants succeed exactly when every space has one chunk, and then append the eight constants and a blank line |
| `WriterSpec.ConstantsOutcome` | src/mksnapshot.cc:125-127 | context constants, startup constants, suffix: success exactly when both serializers pass all checks, and the text they append |
| `WriterSpec.FileStepOutcome` | src/mksnapshot.cc:118-128 | the source file succeeds exactly when both snapshots can be chosen, each raw file has room, and every space of both serializers has one chunk; the text is then prefix, startup block, context block, context constants, startup constants, suffix; each raw file gets its block's embedded bytes; the blob is untouched |
| `WriterSpec.ContextCheckLeavesPartialText` | src/mksnapshot.cc:118-128 | a failing context chunk check exits naming the first offending space and its chunk count, leaving the prefix, both blocks and the context constants before that space in the text |
| `WriterSpec.StartupCheckLeavesPartialText` | src/mksnapshot.cc:118-128 | when every context space passes and a startup chunk check fails, the run exits naming the first offending startup space and its chunk count, leaving the prefix, both blocks, all context constants with their blank line, and the startup constants before that space |
| `WriterSpec.CompressionFailureStopsEarly` | src/mksnapshot.cc:144-156 | a failing compression of the startup snapshot exits after only the prefix, with no raw file written |
| `WriterSpec.ContextCompressionFailureKeepsStartup` | src/mksnapshot.cc:118-128 | when the startup snapshot compresses and fits and the context snapshot fails to compress, the run exits after the prefix and the whole startup block; the startup raw file holds the embedded startup bytes; the context raw file and the blob are untouched |
| `WriterSpec.FileStepNoBlobFailure` | src/mksnapshot.cc:118-128 | writing the source file never fails with a blob write failure |
| `WriterSpec.BlobStepOutcome` | src/mksnapshot.cc:74-116 | the blob step prints nothing and touches no raw file; it does nothing without a blob file; when both serializers pass, it fails only by a short write, which happens exactly when the encoded tokens do not fit, and otherwise appends exactly that encoding |
| `WriterSpec.RunOutcome` | src/mksnapshot.cc:63-71 | the source file is complete before the blob is written; without a blob file the run is the source file alone; after a successful source file the blob step fails only by a short write |
| `WriterSpec.BlobFailureKeepsSource` | src/mksnapshot.cc:63-71 | a run that fails writing the blob has already passed every check and left the complete source text |
| `MkSnapshot.SnapshotWriter.constructor` | src/mksnapshot.cc:34-40 | opens the source file (exiting when it cannot), with no raw files, no blob file and no compressor |
| `MkSnapshot.SnapshotWriter.GetFileDescriptorOrDie` | src/mksnapshot.cc:232-239 | returns an empty open file exactly when the host can open the path; otherwise the process exits naming the path |
| `MkSnapshot.SnapshotWriter.SetCompressor` | src/mksnapshot.cc:49-51 | sets the compressor |
| `MkSnapshot.SnapshotWriter.SetRawFiles` | src/mksnapshot.cc:53-56 | opens the startup raw file, then the context raw file; the first that cannot be opened ends the process |
| `MkSnapshot.SnapshotWriter.SetStartupBlobFile` | src/mksnapshot.cc:58-61 | with no path, changes nothing; with one, opens it or exits |
| `MkSnapshot.SnapshotWriter.WriteSnapshot` | src/mksnapshot.cc:63-71 | leaves exactly the outputs of `SnapshotRun`: the source file, then the blob |
| `MkSnapshot.SnapshotWriter.MaybeWriteStartupBlob` | src/mksnapshot.cc:74-116 | its two loops fill the sink with the blob tokens, checking each space's chunk count in order; it leaves exactly the outputs of `BlobStep` |
| `MkSnapshot.SnapshotWriter.WriteSnapshotFile` | src/mksnapshot.cc:118-128 | leaves exactly the outputs of `FileStep` |
| `MkSnapshot.SnapshotWriter.WriteFilePrefix` | src/mksnapshot.cc:130-137 | appends the banner, includes and namespace openings |
| `MkSnapshot.SnapshotWriter.WriteFileSuffix` | src/mksnapshot.cc:139-142 | appends the namespace closings |
| `MkSnapshot.SnapshotWriter.WriteData` | src/mksnapshot.cc:144-161 | leaves exactly the outputs of `DataStep`: chosen data, raw copy, declarations |
| `MkSnapshot.SnapshotWriter.MaybeWriteRawFile` | src/mksnapshot.cc:163-176 | without a raw file, changes nothing; with one, writes the data to it and exits on a short write |
| `MkSnapshot.SnapshotWriter.WriteDataDeclarations` | src/mksnapshot.cc:178-197 | appends exactly the declarations of the block, whose reading back `SnapshotFormat.ReadDataText` states |
| `MkSnapshot.SnapshotWriter.WriteMeta` | src/mksnapshot.cc:199-209 | leaves exactly the outputs of `MetaStep`: the constants of the spaces before the first failing check, then either that check's failure or a blank line |
| `MkSnapshot.SnapshotWriter.WriteSizeVar` | src/mksnapshot.cc:211-219 | when the space has exactly one chunk, appends `const int Snapshot::<prefix><name>_space_used_ = <chunk as %d>;` and keeps running; otherwise leaves the text as it was and exits naming that space and its chunk count |
| `MkSnapshot.SnapshotWriter.WriteSnapshotData` | src/mksnapshot.cc:221-230 | its loop appends exactly the literal of the data, whose decoding and layout `ByteLiteral` states |
| `Property.AttrString` | src/property.cc:34-42 | five characters `[xyz]`: x is `W` exactly when READ_ONLY is clear, y is `E` exactly when DONT_ENUM is clear, z is `C` exactly when DONT_DELETE is clear, each `_` otherwise |
| `Property.ReadAttrString` | src/property.cc:34-42 | reading the attribute string back gives the three printed bits |
| `Property.AttrStringOfRead` | src/property.cc:34-42 | every string that reads as attributes is the rendering of what it reads as |
| `Property.AttrStringEquality` | src/property.cc:37-39 | two attribute sets print alike exactly when they agree on the three printed bits: each character depends on its own bit only |
| `Property.ReadDictionaryText` | src/property.cc:51-67 | a dictionary rendering opens with `(normal: ` for a field or `(callbacks: ` for callbacks and reads back as that type, the dictionary index and the attribute bits |
| `Property.DescriptorKindOf` | src/property.cc:70-89 | a descriptor rendering opens with `(constant: p: `, `(field: ` or `(callbacks: p: ` according to the type |
| `Property.ReadDescriptorText` | src/property.cc:70-89 | reading a descriptor rendering back gives everything it shows: the type, for a field its mnemonic and field index, the pointer, and the attribute bits |
| `Property.DescriptorTextEquality` | src/property.cc:70-89 | two details render alike in a descriptor array exactly when they agree on the type, on the mnemonic and field index of a field, on the pointer and on the three printed bits |
| `Property.DictionaryNotDescriptor` | src/property.cc:51-89 | no dictionary rendering opens like a descriptor rendering |
| `Property.FormatsDiffer` | src/property.cc:51-89 | no dictionary rendering equals any descriptor rendering |
| `Property.PrintedModeOf` | src/property.cc:92-102 | a printed line ends with a newline and shows the mode it was printed in, for every type |
| `Property.PrintSelectsFormat` | src/property.cc:92-102 | the line is the dictionary rendering plus a newline exactly in dictionary mode, and the descriptor rendering plus a newline exactly otherwise |
| `Property.DescriptorLineShape` | src/property.cc:105-109 | a descriptor line opens with `Descriptor `; read from its right end, it gives its details' type, field index, pointer and attribute bits |
| `Property.ReadLookupText` | src/property.cc:23-31 | reading a lookup result's rendering back gives whether it was found, whether it is a transition, and the target's brief form |
| `Property.LookupTextCases` | src/property.cc:23-31 | the rendering is exactly `Not Found\n` exactly when nothing was found; otherwise it opens with `LookupResult:\n` and goes on past it exactly for a transition |
| `Property.LookupTextEquality` | src/property.cc:23-31 | two results render alike exactly when they agree on what the rendering shows |

## Left out

- `main` (`src/mksnapshot.cc:261-383`) is left out. It holds flag parsing, platform and isolate set-up, running `--extra_code`, garbage collection and driving the serializers, all in code that is not part of this model.
- `DumpException` (`src/mksnapshot.cc:249-258`) is left out. It prints to stderr through the engine's message API.
- The destructor's `fclose` calls (`src/mksnapshot.cc:42-47`) are left out: closing a file changes nothing the model tracks.
- The `fprintf` calls on the source file are assumed to succeed. The code does not check them, so the generated text has no size limit.
- Stream buffering is left out. A failing `CHECK` aborts instead of calling `exit(1)`, and `CHECK` is defined outside the modelled files, so whether text buffered for the source file reaches the disk is not modelled. The text is what was printed to the stream.
- The diagnostic messages printed before `exit(1)` are left out. The reason for the exit is kept as a `Failure` value instead.
- The byte encoding of `SnapshotByteSink::PutBlob`/`PutInt` is defined outside the modelled files. It is the parameter `encode`. The debug tags `"snapshot"`, `"spaces"` and `"context"` are not modelled.
- Concrete compressors are left out. `Compressor::Compress` and `output()` are modelled together as one function.
- `SnapshotWriter.GetFileDescriptorOrDie`: opening the same path twice gives two independent file states. Sharing of one file between two handles is not modelled.
- The `DCHECK` on the list's iterators (`src/mksnapshot.cc:169`) is left out: a sequence has no iterators.
- `LookupResult::Iterate` (`src/property.cc:13-20`) is left out. It is a garbage-collector visitor over raw pointer slots.
- `Brief(...)`, `Representation::Mnemonic()` and the `PropertyDetails` accessors are computed outside `src/property.cc`. The model takes them as given strings and numbers.
- The `OBJECT_PRINT` build condition and the flushing of stdout in `PropertyDetails::Print` are left out. `Print` returns the line it writes.
- `Property.DescriptorLineShape`: does not read back the key brief, the value brief or a field's mnemonic. A brief can hold any text, including ` @ ` or `(field: `, so where the briefs and the mnemonic end is not determined by the line.
