# MetaImage codec (metaimageio and pymetaio), modelled in Dafny

This project models the reader and writer of ITK MetaImage files (`.mhd`
header with a `.raw`/`.zraw` payload, or a single `.mha` file). A MetaImage
header is a text file of `Key = Value` lines. The keys come from the table
of MetaImage tags, and `ElementDataFile` names where the pixel data lies.

Two generations of the codec are modelled side by side. `Generation` is a
parameter of every operation whose behaviour differs between them:

- `Current` is the `metaimageio` package: `read` in `metaimageio/reader.py`,
  `write` in `metaimageio/writer.py`, and `get_transform`/`set_transform`
  in `metaimageio/util.py`.
- `Legacy` is the older `pymetaio` package: `read_image` and
  `write_image` in `pymetaio/io.py`. It drops unknown keys, does not
  transpose orientation matrices, uses signed counters, raises `IOError`
  instead of `ValueError`, and writes the header before it counts the
  compressed size.

The modules follow the program's structure:

- `Wrappers`: `Option`, `Result`, and the Python exception classes the
  codec raises, with a reason for each error.
- `Text`: the Python string operations the header code relies on:
  `strip`, `split`, `' '.join`, `split('=', 1)`, `upper`, line iteration,
  `str(int)` and `int(str)`.
- `Tags`: the tag table, case-insensitive canonical spelling, the tag
  categories, and the `ElementType` table.
- `Values`: header values, an insertion-ordered `Dict` (a Python `dict`),
  the `MetaDict` class for a dict updated in place, byte swapping, and the
  `Runtime` collaborators.
- `Coerce`: the per-tag conversions on read and on write, and their
  round trips.
- `Header`: the header line loop, including the `meta_size` count and the
  four `ElementDataFile` forms.
- `Payload`: the file cursor, the output buffer, and the loop that
  coalesces reads and seeks over the slices.
- `Paths`: the parsing of `PurePosixPath` (components, root), `name`, `suffix` and `with_suffix`.
- `Reader`: typecasting, shape, slice checks, memory mapping, the
  per-file payload, and the result.
- `Writer`: defaults, overrides, the data file, channels, the payload,
  serialisation, and the order of the file writes.
- `Transform`: tag selection and ambiguity in `get_transform`, and the
  dict update of `set_transform`.

Files are values: a directory is a `map<string, seq<byte>>` from path to
content, and the writer's `Disk` class holds one that it updates in place.
Floating-point numbers are opaque values (`Real`). Text decoding and
encoding, `%` formatting, float parsing and printing, `str` of numpy
containers, dtype casts, and zlib are the fields of a `Runtime` parameter,
and only the facts the proofs need are assumed of them, as explicit
`requires` (for example `FloatsRoundTrip`: a printed float parses back).

One consequence of the header order is worth knowing. metaimageio writes
the tags first and the caller's other keys after them (`HeaderKeyOrder`),
so with `ElementDataFile = LOCAL` those extra keys come after the `LOCAL`
line (metaimageio/writer.py:150-153). The reader stops at that line
(metaimageio/reader.py:87-90, `LocalStops`), so it takes the extra lines
as the start of the pixel data. The model keeps this behaviour as written.

## Model

| member | source | states |
|---|---|---|
| Text.LStrip | metaimageio/reader.py:73-74 | the result is a suffix of the input that does not start with whitespace, and everything removed is whitespace |
| Text.RStrip | metaimageio/reader.py:73-74 | the result is a prefix of the input that does not end with whitespace, and everything removed is whitespace |
| Text.StripProperties | metaimageio/reader.py:73-74 | `strip` leaves no whitespace at either end and is idempotent |
| Text.StripPadding | metaimageio/reader.py:73-74 | `strip` removes exactly the whitespace padding around a trimmed string |
| Text.Split | metaimageio/reader.py:107 | every token of `split()` is non-empty and free of whitespace (that they are the maximal runs is SplitGaps and SplitInterleave) |
| Text.SplitJoin | metaimageio/writer.py:132 | `split()` undoes `' '.join` on such tokens, so space-separated vectors read back token for token |
| Text.SplitGaps | metaimageio/reader.py:107 | every text is its `split()` tokens in order, separated by non-empty runs of whitespace and padded by possibly empty ones |
| Text.SplitInterleave | metaimageio/reader.py:107 | tokens laid out between such whitespace runs are exactly what `split()` returns, so the tokens are the maximal whitespace-free runs |
| Text.IndexOf | metaimageio/reader.py:73 | the index of the first occurrence, or the length when there is none |
| Text.SplitAssignment | metaimageio/reader.py:73-74 | a `key = value` line as the writer prints it splits back into the key and the value, when the key has no `=` and neither has surrounding whitespace |
| Text.Lines | metaimageio/reader.py:67 | iterating a file cuts its content into non-empty lines that concatenate back to the content |
| Text.LinesOfFlatten | metaimageio/reader.py:67 | the concatenation of terminated lines is cut back into exactly those lines |
| Text.LinesPrefix | metaimageio/reader.py:67 | the first `n` lines of a content are the lines of their own concatenation |
| Text.Upper | metaimageio/reader.py:77 | the result has the input's length and no lower-case ASCII letter; each lower-case ASCII letter is replaced by its capital and every other character is kept |
| Text.UpperIdempotent | metaimageio/reader.py:77 | upper-casing twice is upper-casing once |
| Text.FormatInt | metaimageio/writer.py:130 | `str` of an integer is a single whitespace-free token |
| Text.ParseFormatInt | metaimageio/reader.py:103 | parsing the printed integer gives the integer back |
| Tags.UpperTagsDistinct | metaimageio/reader.py:9-43 | no two tags of the table are equal ignoring case |
| Values.TagsDistinct | metaimageio/reader.py:9-43 | no tag appears twice in the table |
| Tags.Canonical | metaimageio/reader.py:77 | specified by CanonicalFromIndex and CanonicalSpec |
| Tags.CanonicalFromIndex | metaimageio/reader.py:77 | the lookup returns the tag at the first index whose upper-case spelling matches, as `list.index` does, and otherwise the key |
| Tags.CanonicalSpec | metaimageio/reader.py:76-79 | a key that matches a tag ignoring case becomes that tag, any other key is kept verbatim; the upper-case form is unchanged and the operation is idempotent |
| Tags.CanonicalOfTag | metaimageio/reader.py:76-79 | a key spelled as in the table is kept |
| Tags.CategoryOfTable | metaimageio/reader.py:100-120 | the categories of the typecast partition the table: a key is outside the table exactly when it falls into no category |
| Tags.DecodeTypeFrom | metaimageio/reader.py:116 | the lookup succeeds exactly when a `TYPES` entry has the code, and then gives that entry's kind |
| Tags.EncodeTypeFrom | metaimageio/writer.py:137 | the lookup succeeds exactly when a `TYPES` entry has the kind, and then gives that entry's code |
| Tags.EncodeTypeDefined | metaimageio/writer.py:136-139 | exactly the ten kinds of the table have a code |
| Tags.CodesDistinct | metaimageio/reader.py:45-55 | no code appears twice in `TYPES` |
| Tags.KindsDistinct | metaimageio/reader.py:45-55 | no kind appears twice in `TYPES` |
| Tags.DecodeEncodeType | metaimageio/writer.py:137 | the code written for a kind reads back as that kind |
| Tags.EncodeDecodeType | metaimageio/reader.py:116 | a code the reader accepts is written back as its upper-case spelling |
| Values.Dict.Put | metaimageio/reader.py:80 | `d[k] = v` maps `k` to `v`; an existing key keeps its position and a new key goes last |
| Values.Dict.PutValid | metaimageio/reader.py:80 | an assignment keeps the keys unique and in step with the mapping |
| Values.Dict.PutTwice | metaimageio/reader.py:80 | a second assignment to a key overwrites the first and leaves the key where it was |
| Values.FromKeys | metaimageio/reader.py:98 | `dict.fromkeys` holds exactly the given keys, in order, each with the given value |
| Values.KeepNonNull | metaimageio/reader.py:207 | the filter keeps exactly the keys whose value is set, in order, each once when the keys are distinct |
| Values.WithoutNulls | metaimageio/reader.py:207 | the comprehension keeps exactly the entries that are not `None`, with their values |
| Values.MetaDict.Put | metaimageio/writer.py:82 | an in-place assignment leaves the dict well formed and equal to the assignment applied to its old contents |
| Values.Reverse | metaimageio/writer.py:73 | `[::-1]` puts element `i` at position `n - 1 - i` |
| Values.ReverseReverse | metaimageio/reader.py:123 | reversing twice gives the sequence back, so the shape written as `DimSize` is read back |
| Values.ByteSwap | metaimageio/writer.py:115 | swapping keeps the length (the per-item reversal is ByteSwapItems) |
| Values.ByteSwapItems | metaimageio/writer.py:115 | within every whole item, byte `o` of the result is byte `width - 1 - o` of the item: each item is reversed in place and the items keep their order |
| Values.ByteSwapInvolution | metaimageio/reader.py:200-201 | swapping twice restores the bytes, so what the writer swaps the reader swaps back |
| Coerce.CastIn | metaimageio/reader.py:99-120 | the per-tag conversion on read; specified by Reader.CastFromSpec, Reader.CastInRange, BooleanIn, OrientationIn and ElementTypeReadBack |
| Coerce.CastOut | metaimageio/writer.py:124-148 | the per-tag conversion on write; specified by ElementTypeRoundTrip, OrientationOut, ExtraOut and the round-trip lemmas below |
| Coerce.ParseScalarInt | metaimageio/reader.py:103 | a parsed integer lies in the range of the generation's integer type (`uintp` or `intp`) |
| Coerce.ParseInts | metaimageio/reader.py:111 | a parsed integer array has one entry per token |
| Coerce.ParseFloats | metaimageio/reader.py:107 | a parsed float array has one entry per token |
| Coerce.Transpose3 | metaimageio/reader.py:109 | the transpose of a 3 x 3 matrix has nine cells |
| Coerce.Transpose3Involution | metaimageio/reader.py:109 | the transpose moves cell `(r, k)` to `(k, r)` and undoes itself: a permutation of the nine opaque cells |
| Coerce.BooleanIn | metaimageio/reader.py:105 | a boolean tag is true exactly when its upper-cased text is `TRUE` |
| Coerce.BooleanRoundTrip | metaimageio/writer.py:130 | a boolean written as `str(b)` reads back as `b` |
| Coerce.IntegerRoundTrip | metaimageio/writer.py:130 | an integer tag within the generation's range reads back as written |
| Coerce.ParseIntsOfFormatted | metaimageio/reader.py:111 | printed int64 values parse back as the same array |
| Coerce.IntArrayRoundTrip | metaimageio/writer.py:132 | `DimSize` and `SequenceID` written space-separated read back entry for entry |
| Coerce.ParseFloatsOfShown | metaimageio/reader.py:107 | printed floats parse back as the same array |
| Coerce.ElementTypeRoundTrip | metaimageio/writer.py:135-139 | a table kind is written as its code and reads back as the same kind; any other kind is refused with the generation's error |
| Coerce.ElementTypeReadBack | metaimageio/reader.py:114-118 | an unknown element type is refused with the generation's error; a known one is written back as its upper-case code |
| Coerce.OrientationOut | metaimageio/writer.py:133-134 | metaimageio writes the transpose of a matrix in row-major order, pymetaio the matrix itself |
| Coerce.OrientationIn | metaimageio/reader.py:108-109 | nine values are read into the transpose (metaimageio) or the matrix as given (pymetaio); any other count is a `ValueError` |
| Coerce.OrientationRoundTrip | metaimageio/writer.py:133-134 | in both generations an orientation-family matrix written and read back is unchanged |
| Coerce.FloatVectorRoundTrip | metaimageio/writer.py:131-132 | a float vector written space-separated reads back as written |
| Coerce.ExtraOut | metaimageio/writer.py:147-148 | an unknown key is written verbatim by metaimageio and refused with `IOError` by pymetaio |
| Header.RangeSpec | metaimageio/reader.py:93 | element `k` of `range(start, stop, step)` is `start + k * step`; every element lies before `stop` and the next one would not |
| Header.PatternPaths | metaimageio/reader.py:91-93 | specified by PatternPathsSpec and PatternInclusive |
| Header.PatternPathsSpec | metaimageio/reader.py:91-93 | a `%` pattern names the file `fmt % i` for each index `i` of `range(start, stop + step, step)` |
| Header.PatternInclusive | metaimageio/reader.py:93 | when `stop` is reached from `start` in whole steps, the pattern names `q + 1` files and the last one is for `stop` |
| Header.ListStarts | metaimageio/reader.py:83-85 | `ElementDataFile = LIST`, in any case, makes the data file an empty list and enters `LIST` mode |
| Header.ListAccumulates | metaimageio/reader.py:81-82 | in `LIST` mode every later line that is not empty or a comment is appended, stripped, to the list, in file order, to the end of the file |
| Header.LocalStops | metaimageio/reader.py:87-90 | `ElementDataFile = LOCAL` names the header file itself and ends the scan at that line, whatever follows |
| Header.PatternLine | metaimageio/reader.py:91-93 | a `%` pattern makes the data file the names it expands to, or fails with the pattern's error |
| Header.BareValue | metaimageio/reader.py:94-95 | any other value names one data file, as written |
| Header.ScanLine | metaimageio/reader.py:66-95 | one iteration of the header loop adds the line's length to `meta_size` (its `ElementDataFile` decoding is ListStarts, ListAccumulates, LocalStops, PatternLine and BareValue) |
| Header.ScanFrom | metaimageio/reader.py:67-95 | the rest of the loop never decreases `meta_size` (what it makes of `LIST` and `LOCAL` is ListAccumulates and LocalStops) |
| Header.ScanLines | metaimageio/reader.py:66-95 | the loop over the file's lines computes the scan specification, ending at the last line or right after the `LOCAL` line |
| Header.ScanHeader | metaimageio/reader.py:66-95 | the header read from a file's content is the scan of its lines |
| Header.ParseLine | metaimageio/reader.py:70-79 | specified by ParseLineCanonical and Text.SplitAssignment, and on written lines by Writer.LineReadsBack |
| Header.ParseLineCanonical | metaimageio/reader.py:76-79 | every key the parser produces is in canonical spelling |
| Header.ScanLineShape | metaimageio/reader.py:80-95 | one iteration keeps the raw header well formed: canonical keys, the data-file entry a list of names, every other entry a string |
| Header.ListLineShape | metaimageio/reader.py:82-83 | the state after appending a line to the file names in `LIST` mode keeps the raw header well formed |
| Header.ScanShape | metaimageio/reader.py:67-95 | the whole loop keeps the raw header well formed |
| Header.ReadHeaderShape | metaimageio/reader.py:66-95 | every header the scan accepts has canonical keys (in pymetaio only table tags), a list of file names, and string values |
| Header.ScanSize | metaimageio/reader.py:68-69 | `meta_size` is the length of every line read, or of the lines up to and including the `LOCAL` line, which alone give the same scan |
| Header.DecodedSize | metaimageio/reader.py:68-69 | lines decoded one character per byte keep their total length |
| Header.ScanPrefix | metaimageio/reader.py:87-90 | after a `LOCAL` line, the bytes up to `meta_size` are exactly the lines read, and they alone give the same scan |
| Header.HeaderSizeIsOffset | metaimageio/reader.py:164-165 | with an ASCII header, `meta_size` is the byte offset where the header ends: the whole file, or the bytes through the `LOCAL` line after which the embedded data begin |
| Payload.Window | metaimageio/reader.py:179 | `f.read(n)` returns at most `n` bytes |
| Payload.WindowBounds | metaimageio/reader.py:179 | a read the file can satisfy returns exactly the `n` bytes at the cursor; a read from the end or beyond returns nothing |
| Payload.WindowSplit | metaimageio/reader.py:185-187 | one read of `a + b` bytes returns what a read of `a` followed by a read of `b` returns, which makes coalescing reads sound |
| Payload.WindowSameView | metaimageio/reader.py:183 | two cursors at or past the end read the same (empty) bytes |
| Payload.ReadView | metaimageio/reader.py:179 | after a read the cursor is where an endless file would leave it, or both are past the end |
| Payload.DataFile.constructor | metaimageio/reader.py:163 | a file opened for reading has its cursor at 0 |
| Payload.DataFile.Seek | metaimageio/reader.py:183 | a relative seek moves the cursor forward by `n`, even past the end |
| Payload.DataFile.Read | metaimageio/reader.py:179 | a read returns the window at the cursor and moves the cursor past what it returned |
| Payload.Buffer.constructor | metaimageio/reader.py:157 | a new `BytesIO` is empty |
| Payload.Buffer.Write | metaimageio/reader.py:179 | a write appends its bytes to the buffer |
| Payload.Selected | metaimageio/reader.py:176-196 | the bytes the loop is meant to deliver; specified by SelectedLength and SelectedAll, and reached by CopySlices |
| Payload.SelectedLength | metaimageio/reader.py:182-188 | when the file holds every slice, `increment` bytes are delivered per selected slice |
| Payload.SelectedAll | metaimageio/reader.py:176-196 | with every slice selected and no per-slice header, the loop delivers one contiguous read |
| Payload.FlushRead | metaimageio/reader.py:179-180 | flushing delivers the pending read and leaves the cursor where the pending position was |
| Payload.SkipHeader | metaimageio/reader.py:178-181 | a per-slice header delivers the pending read and joins the pending skip, which stays within the counter's range |
| Payload.TakeSlice | metaimageio/reader.py:182-188 | a selected slice applies the pending skip and joins the pending read; the delivered bytes grow by exactly that slice |
| Payload.SkipSlice | metaimageio/reader.py:189-195 | an unselected slice delivers the pending read and joins the pending skip; nothing is added |
| Payload.CopySlice | metaimageio/reader.py:182-195 | one slice, selected or not, keeps the counters within the maximum and never both pending, and adds exactly the slice's bytes when it is selected |
| Payload.CopyStep | metaimageio/reader.py:177-195 | one iteration keeps `read` and `seek` never both pending and within the maximum, and delivers the slice's data exactly when it is selected |
| Payload.CopySlices | metaimageio/reader.py:176-196 | the loop appends to the buffer exactly the selected slices, in order, skipping per-slice headers and unselected slices |
| Payload.CopyAsWritten | metaimageio/reader.py:176-196 | the loop as written, with the `uintp` wrap of `seek`; specified by SeekWrapRead and AsWrittenWithoutWrap |
| Payload.SeekWrapCounterexample | metaimageio/reader.py:181 | the loop as written returns a byte of the file where the selected slice lies beyond its end |
| Payload.SeekWrapRead | metaimageio/reader.py:181 | on that input the loop as written returns the file's second byte |
| Payload.SeekWrapIntended | metaimageio/reader.py:176-196 | on that input the selected slice lies past the end of the file, so nothing is meant to be returned |
| Payload.AsWrittenWithoutWrap | metaimageio/reader.py:176-196 | when the slices with their headers fit the `uintp` range, the loop as written returns exactly the selected slices, the same as the corrected loop |
| Payload.TakeStepTracks | metaimageio/reader.py:178-188 | an iteration of the loop as written on a selected slice, started on track with room in both counters, delivers the slice and keeps both counters within range |
| Payload.SkipStepTracks | metaimageio/reader.py:178-195 | the same for a slice that is not selected, which delivers nothing |
| Payload.WrapUintpIsMod | metaimageio/reader.py:181 | the `uintp` wrap-around of a sum is the sum modulo `2**64` |
| Paths.Parts | metaimageio/writer.py:58 | the components of a path as pathlib parses it; specified by PartsAreParts, PartsOfSlash and FormatParts |
| Paths.PartsAreParts | metaimageio/writer.py:58 | every component is non-empty, not `.`, free of `/`, and no longer than the path |
| Paths.PartsOfSlash | metaimageio/writer.py:58 | a slash splits the components: those of `a/b` are those of `a` followed by those of `b`, so repeated slashes and `.` add none |
| Paths.FormatParts | metaimageio/writer.py:58 | a path printed from a root (none, `/` or `//`) and components parses back to that root and those components |
| Paths.Name | metaimageio/writer.py:89 | the name is the last component, empty exactly when there is none; it is free of `/` and no longer than the path |
| Paths.NameTrailingSlash | metaimageio/writer.py:89 | a trailing slash does not change the name |
| Paths.EmptyNames | metaimageio/writer.py:89 | `""`, `.` and `/` have the empty name |
| Paths.Suffix | metaimageio/writer.py:86 | the suffix is no longer than the name |
| Paths.WithSuffix | metaimageio/writer.py:89 | specified by SiblingName |
| Paths.SiblingName | metaimageio/writer.py:89 | `with_suffix(s)` fails with `ValueError` exactly when the name is empty; otherwise its name is the old name with its suffix replaced by `s`, and its root and directory components are kept |
| Reader.TypecastEntries | metaimageio/reader.py:98-120 | the typecast loop computes the typecast specification |
| Reader.CastFromSpec | metaimageio/reader.py:99-120 | the loop succeeds exactly when every raw entry converts; then each raw key holds its converted value, every other key keeps its value, and the dict stays well formed |
| Reader.TypecastSpec | metaimageio/reader.py:98-120 | the typecast dict holds every tag, `None` where the header did not give it, and each header key with its converted value |
| Reader.CastInRange | metaimageio/reader.py:103 | an integer tag converts to an integer of the generation's range |
| Reader.TypecastInRange | metaimageio/reader.py:102-103 | every integer tag of a typecast dict lies in the generation's range |
| Reader.Shape | metaimageio/reader.py:123-125 | specified by ShapeSpec |
| Reader.ShapeSpec | metaimageio/reader.py:123-125 | the shape exists exactly when `DimSize` is set; it is `DimSize` reversed, followed by the channel count when there is more than one channel |
| Reader.Increment | metaimageio/reader.py:147 | the slice size fits the counters' type |
| Reader.CheckSlices | metaimageio/reader.py:151-154 | specified by CheckSlicesSpec |
| Reader.CheckSlicesSpec | metaimageio/reader.py:151-154 | a selection is accepted exactly when it is strictly increasing and every index lies in `[0, shape[0])` |
| Reader.CheckSelection | metaimageio/reader.py:148-154 | the checks on the chosen selection, with `IndexError` only where `shape[0]` is read; specified by PlanSpec and EmptyShapePlan |
| Reader.AllSlices | metaimageio/reader.py:148-149 | omitting the selection selects every z index, which the checks accept |
| Reader.MapImage | metaimageio/reader.py:127-145 | specified by MapImageSpec and EmptySelectionMapped |
| Reader.MapImageSpec | metaimageio/reader.py:127-145 | memory mapping is refused exactly when a byte-order flag, compression, per-slice headers, other than one data file, or a selection is present; otherwise the offset is `meta_size` for `LOCAL` plus `HeaderSize` |
| Reader.EmptySelectionMapped | pymetaio/io.py:134-135 | an empty selection is refused with memory mapping by metaimageio and ignored by pymetaio |
| Reader.Selection | metaimageio/reader.py:182 | the flags of the slices a data file keeps cover every slice it holds |
| Reader.PlanOf | metaimageio/reader.py:147-157 | a plan built from a typecast dict has counters that never exceed their maximum on their own; `shape[0]` is read, and `IndexError` raised for an empty shape, only where the source reads it (PlanSpec, EmptyShapePlan) |
| Reader.FilePlan | metaimageio/reader.py:155-166 | the plan reads the listed data files, skips `meta_size` for `LOCAL`, and keeps the increment and the selection |
| Reader.PlanSpec | metaimageio/reader.py:148-154 | a plan holds the given selection, or every z index when none is given and the shape is not empty, strictly increasing within `[0, shape[0])`, and reads the files `ElementDataFile` lists; with an empty shape only the empty selection of at most one file is accepted |
| Reader.EmptyShapePlan | metaimageio/reader.py:147-154 | with an empty shape, no selection is an `IndexError`; a selection that is not increasing, or starts below zero, is refused with the generation's slice error before the bound test; a non-empty one otherwise is an `IndexError`; only the empty selection succeeds |
| Reader.CountFlags | metaimageio/reader.py:182 | a strictly increasing selection within the z extent flags as many slices as it has indices |
| Reader.SelectionCount | metaimageio/reader.py:182 | in a single data file the loop keeps one slice per selected index |
| Reader.FileBytes | metaimageio/reader.py:163-196 | the payload of one data file; specified by CompressedChecks, EmptySelectionCompressed, SingleFilePayload and EmptyShapeFile, and computed by ReadFile |
| Reader.ReadFile | metaimageio/reader.py:160-196 | one data file appends to the buffer exactly its payload specification, or reports its error |
| Reader.ReadPayload | metaimageio/reader.py:159-196 | the file loop computes the payload of every data file in order; the first failure ends it |
| Reader.SingleFilePayload | metaimageio/reader.py:159-196 | one uncompressed data file that holds every slice delivers `increment` bytes per selected slice and nothing else |
| Reader.Assemble | metaimageio/reader.py:197-203 | specified by AssembleLoaded, SingleFileLoad and EmptySelectionNoImage |
| Reader.AssembleLoaded | metaimageio/reader.py:197-201 | bytes that fill the shape are reshaped with the z extent set to the number of selected slices, and swapped when big-endian |
| Reader.SingleFileLoad | metaimageio/reader.py:159-201 | a plain read of one data file gives one z plane per selected slice, holding exactly those slices' bytes in native order |
| Reader.CompressedChecks | metaimageio/reader.py:167-174 | compressed data without `CompressedDataSize`, with `HeaderSizePerSlice`, or with a partial selection of a single file is refused with the generation's error; otherwise the file yields exactly the decompressed `CompressedDataSize` bytes after the headers, or the stream's error; with an empty shape the single-file comparison with `range(shape[0])` is an `IndexError` |
| Reader.EmptySelectionCompressed | metaimageio/reader.py:171-172 | an empty selection of a non-empty z axis is refused for a single compressed file |
| Reader.EmptyShapeFile | metaimageio/reader.py:167-176 | with an empty shape, every data file that gets past the compression checks fails with `IndexError` on `shape[0]` |
| Reader.EmptySelectionNoImage | metaimageio/reader.py:197-203 | an empty selection gives no image, though every data file is still read |
| Reader.EmptyShapeNoFiles | metaimageio/reader.py:147-203 | `ElementDataFile = LIST` with no names and an empty selection passes every check with an empty shape and gives no image |
| Reader.ImageNeedsFiles | metaimageio/reader.py:134-138 | both ways of reading the image need `ElementDataFile` to be a list of names |
| Reader.Finish | metaimageio/reader.py:205-209 | specified by FinishSpec, FinishCurrent and FinishLegacy |
| Reader.FinishSpec | metaimageio/reader.py:205-209 | the returned metadata has no `None` entry; metaimageio drops `ElementDataFile`; pymetaio needs it and keeps its first name |
| Reader.FinishCurrent | metaimageio/reader.py:205-207 | metaimageio returns every non-`None` entry except `ElementDataFile`, with its value |
| Reader.FinishLegacy | pymetaio/io.py:203-206 | pymetaio fails exactly when no data file is listed, and otherwise returns every non-`None` entry, the data file reduced to its first name |
| Reader.Read | metaimageio/reader.py:58-209 | the read specification; specified by ReadMeta and computed by ReadImage |
| Reader.ReadImage | metaimageio/reader.py:58-209 | the reader (header loop, typecast loop, file loop) computes the read specification |
| Reader.ReadMeta | metaimageio/reader.py:58-209 | a successful read returns well-formed metadata without `None`, without `ElementDataFile` (metaimageio) or with it as one name (pymetaio) |
| Writer.Defaults | metaimageio/writer.py:60-74 | the metadata before the caller's keys holds every tag, unset except the image defaults or the image's own dimensions, shape and kind; with an image, it reads back as the image's shape |
| Writer.DefaultsRead | metaimageio/writer.py:73 | the defaults of an image read back as its shape |
| Writer.DefaultsFlags | metaimageio/writer.py:62-65 | the object is an `Image`, binary and little-endian |
| Writer.DefaultsDims | metaimageio/writer.py:63-72 | `NDims` is the image's dimension count (3 without an image) and the spacing that many ones |
| Writer.DefaultsShape | metaimageio/writer.py:67-74 | `DimSize` is the image's shape reversed (three zeros without one) and `ElementType` its kind (float without one) |
| Writer.DefaultsUnset | metaimageio/writer.py:61 | every other tag is unset |
| Writer.ShapeOfReversed | metaimageio/writer.py:73 | a single-channel `DimSize` holding a shape reversed is read back as that shape |
| Writer.ApplyOverrides | metaimageio/writer.py:77-82 | the override loop computes the caller's keys applied in order under their stored names, and keeps the dict well formed |
| Writer.OverriddenKeys | metaimageio/writer.py:77-82 | the existing keys keep their order and new keys follow; a key is present exactly when it was before or a caller's key is stored under it |
| Writer.OverriddenKeeps | metaimageio/writer.py:77-82 | a key no caller's key is stored under keeps its value |
| Writer.OverriddenLastWins | metaimageio/writer.py:77-82 | the last caller's key stored under a name gives that name its value |
| Writer.LegacyOnlyTags | pymetaio/io.py:230-236 | pymetaio ignores unknown keys: the dict holds exactly the tags |
| Writer.LegacyNamesTags | pymetaio/io.py:231-236 | every name pymetaio stores a key under is a tag |
| Writer.DataFileDefault | metaimageio/writer.py:84-89 | specified by DataFileNamedAfterHeader |
| Writer.DataFileNamedAfterHeader | metaimageio/writer.py:85-89 | a given data file is kept; otherwise it is `LOCAL` for `.mha`; otherwise a header path with an empty name is a `ValueError`, and any other gives the header's stem with `.zraw` or `.raw`, as a bare name (metaimageio) or in the header's normalised directory (pymetaio) |
| Writer.DataFileTrailingSlash | metaimageio/writer.py:89 | in metaimageio a trailing slash on the header path does not change the default data file: `out/` gives `out.raw` |
| Writer.Channels | metaimageio/writer.py:91-94 | specified by ChannelsDropFirstAxis, ChannelsBoolDims and ChannelsReadBack |
| Writer.LessOne | metaimageio/writer.py:94 | `NDims - 1` on an integer, or on a bool counted as 0 or 1 |
| Writer.ChannelsDropFirstAxis | metaimageio/writer.py:92-94 | with several channels `DimSize` loses the entry of the array's first axis and `NDims` decreases by one |
| Writer.ChannelsBoolDims | metaimageio/writer.py:92-94 | a caller's bool `NDims` is decremented as Python does: `True` becomes 0 and `False` -1, and `DimSize` still loses its last entry |
| Writer.ChannelsReadBack | metaimageio/writer.py:92-94 | a channel image written by metaimageio reads back without its first axis and with the channel count appended |
| Writer.Serialised | metaimageio/writer.py:122-148 | specified by SerialisedSpec, SerialisedKeys and FailureStays, and computed by SerialiseEntries |
| Writer.SerialiseEntries | metaimageio/writer.py:123-148 | the serialisation loop computes the serialisation specification |
| Writer.FailureStays | metaimageio/writer.py:136-139 | the first value that cannot be written ends the loop with its error |
| Writer.SerialisedOk | metaimageio/writer.py:123-148 | serialisation succeeds exactly when every set value can be written |
| Writer.SerialisedSound | metaimageio/writer.py:123-148 | every entry is a set key with the text written for its value |
| Writer.SerialisedComplete | metaimageio/writer.py:123-148 | every set key has an entry |
| Writer.SerialisedSpec | metaimageio/writer.py:123-148 | the entries hold exactly the set keys, in the dict's order and once each, each with its text, and exist exactly when every set value can be written |
| Writer.SerialisedKeys | metaimageio/writer.py:123-148 | the keys of the entries are the keys whose value is set, in the dict's order |
| Writer.LineReadsBack | metaimageio/writer.py:153 | a written line reads back as its key in canonical spelling and its text |
| Writer.LineNotComment | metaimageio/writer.py:153 | a written line is neither empty nor a comment |
| Writer.TagLineReadsBack | metaimageio/writer.py:153 | a tag's line reads back under the tag itself |
| Writer.Disk.Create | metaimageio/writer.py:151 | opening for writing truncates the file and changes no other |
| Writer.Disk.Append | metaimageio/writer.py:161-162 | a write appends to the file's content and changes no other |
| Writer.WriteHeader | metaimageio/writer.py:151-153 | the header file holds exactly the encoded lines, in order |
| Writer.HeaderWritten | metaimageio/writer.py:150-167 | a successful write serialises its header dict, and the header file starts with those lines unless the data file is the header's own path opened for writing; in metaimageio the lines' keys are the returned dict's keys |
| Writer.HeaderKeyOrder | metaimageio/writer.py:123-153 | the header has one line per set key: the tags in the table's order, then the caller's other keys |
| Writer.DataTarget | metaimageio/writer.py:97-108 | specified by StoreChunk and StoredPayload: `LOCAL` in any case appends to the header file, any other string names the file |
| Writer.Chunk | metaimageio/writer.py:109-120 | specified by StoredPayload and CountedSize |
| Writer.StoredPayload | metaimageio/writer.py:113-119 | the data file ends with the image's bytes, each item reversed when a byte-order flag is set and not otherwise, cast to `ElementType`, and compressed when `CompressedData` is set; it holds nothing else unless appended to the header |
| Writer.WriteStores | metaimageio/writer.py:150-162 | a successful write with an image writes the header, then stores the payload at its target |
| Writer.ListTextLines | metaimageio/writer.py:141-144 | a list of data files is written as the line `ElementDataFile = LIST` followed by one line per name, in order |
| Writer.ListReadsBack | metaimageio/reader.py:81-85 | those lines read back as the same list of names, when the names are free of surrounding whitespace, not comments, and not `ElementDataFile` assignments |
| Writer.StoreChunk | metaimageio/writer.py:157-162 | the payload is written at its target, appended for `LOCAL` |
| Writer.StoredAtEnd | metaimageio/writer.py:161-162 | the payload ends its file and is all of it unless appended to the header |
| Writer.Metadata | metaimageio/writer.py:60-94 | the settled metadata is a well-formed dict |
| Writer.MetadataKeys | metaimageio/writer.py:60-94 | the settled metadata holds every tag first, in the table's order, then the caller's other keys, each once; pymetaio holds only the tags |
| Writer.SetDataFile | metaimageio/writer.py:85-89 | the in-place default of the data file matches DataFileDefault, including the `ValueError` of an empty name, and leaves the dict unchanged on error |
| Writer.AdjustChannels | metaimageio/writer.py:92-94 | the in-place channel adjustment matches its specification Channels (an integer or bool `NDims` is decremented, see ChannelsBoolDims) and leaves the dict unchanged on error |
| Writer.SetSize | metaimageio/writer.py:109-110 | the size entry is set in place |
| Writer.Counted | metaimageio/writer.py:109-119 | counting the size keeps the dict well formed |
| Writer.CountedSize | metaimageio/writer.py:109-119 | with compression the counted size is the payload's length, and the returned dict keeps it |
| Writer.SizeEntry | metaimageio/writer.py:129-130 | a set size is written as its decimal text |
| Writer.RecordedSizeIsPayload | metaimageio/writer.py:109-119 | the returned `CompressedDataSize` is the length of the bytes at the end of the payload file |
| Writer.CurrentHeaderRecordsSize | metaimageio/writer.py:109-153 | metaimageio's header carries `CompressedDataSize` as the payload's length |
| Writer.LegacyHeaderMissesSize | pymetaio/io.py:285-304 | pymetaio's header has no `CompressedDataSize` unless the caller gave one, although the returned dict holds the payload's length |
| Writer.BuildMetadata | metaimageio/writer.py:60-94 | the metadata phase builds the settled metadata in a fresh dict |
| Writer.WriteHeaderOnly | metaimageio/writer.py:122-153 | without an image only the header is written |
| Writer.WriteWithImageCurrent | metaimageio/writer.py:97-162 | metaimageio computes the payload and its size, then writes the header, then the payload |
| Writer.WriteWithImageLegacy | pymetaio/io.py:246-306 | pymetaio writes the header, then computes and writes the payload and its size |
| Writer.WriteWith | metaimageio/writer.py:96-167 | the writes from the settled metadata match their specification |
| Writer.WriteSpec | metaimageio/writer.py:57-167 | specified by Write, HeaderWritten, StoredPayload, CurrentFailureWritesNothing and LegacyFailureWritesHeaderOnly |
| Writer.Write | metaimageio/writer.py:57-167 | `write` and `write_image` return and write what the specification of each generation says |
| Writer.CurrentFailureWritesNothing | metaimageio/writer.py:97-153 | metaimageio raises every error before it opens a file |
| Writer.LegacyFailureWritesHeaderOnly | pymetaio/io.py:285-306 | a failed pymetaio write changes at most the header file |
| Transform.CountPresent | metaimageio/util.py:6 | the count is zero exactly when none of the keys is present |
| Transform.CountAmbiguous | metaimageio/util.py:6-7 | more than one key is counted exactly when two different keys of the family are present |
| Transform.FirstPresentEarliest | metaimageio/util.py:8-13 | the chain takes the first present key of the family, in precedence order |
| Transform.FirstPresentNone | metaimageio/util.py:5-13 | the chain finds nothing, leaving the identity, exactly when no key of the family is present |
| Transform.FirstPresentOnly | metaimageio/util.py:8-13 | without ambiguity the chain takes the one present key |
| Transform.GetTransform | metaimageio/util.py:4-26 | specified by GetTransformSpec and SetThenGet |
| Transform.GetTransformSpec | metaimageio/util.py:4-26 | `get_transform` fails exactly on an ambiguous family, position first; otherwise each block comes from the one present tag of its family, or is absent, and the center is used exactly when present |
| Transform.TranslationPart | metaimageio/util.py:34 | `transform[:3, 3]` is the last column of the first three rows |
| Transform.RotationPart | metaimageio/util.py:35 | `transform[:3, :3]` is the upper-left 3 x 3 block, row-major |
| Transform.SetTransformSpec | metaimageio/util.py:29-37 | specified by SetTransformStores, and computed by SetTransform |
| Transform.SetTransform | metaimageio/util.py:29-37 | the in-place update matches its specification, returns the same dict on success, and leaves it unchanged on error |
| Transform.SetTransformStores | metaimageio/util.py:29-37 | `set_transform` succeeds exactly when no position or orientation tag is present; then it stores the two blocks and a zero center, keeps the dict well formed, and changes no other key |
| Transform.SetThenGet | metaimageio/util.py:4-37 | a transform stored under the default keys is read back as its translation and rotation, centred on the origin |

## Findings

| source | as written | input that shows it | evidently intended | confidence | as-written member | corrected member |
|---|---|---|---|---|---|---|
| metaimageio/reader.py:181 | `seek += HeaderSizePerSlice` has no overflow guard, although the other two counter additions (185-188, 192-195) are flushed before they could exceed the `uintp` maximum | `HeaderSizePerSlice = 2**63`, one-byte slices, two slices with only the second selected, a 4-byte file: the skip reaches `2**64 + 1`, wraps to 1, and the loop returns the file's second byte | the pending skip is applied before the header is added, so the loop returns exactly the selected slices (here nothing, as the slice lies beyond the end of the file) | not executed | Payload.CopyAsWritten, Payload.SeekWrapCounterexample | Payload.CopySlices |

## Left out

- Path resolution: files are keyed by the path string as the header or the caller writes it. Joining a relative data file to the header's directory is not modelled. This includes the doubled directory of a relative `LOCAL` header path. Files are keyed by the path string as given, not by its normalised form, so `out//a.mhd` and `out/a.mhd` are different keys.
- Text decoding and encoding, `%` formatting, and `str` of numpy containers and dtypes are `Runtime` functions. They are opaque.
- Float parsing and printing are opaque. Floats are compared only for equality.
- The 4 x 4 matrix products and the inverse in `get_transform` are not modelled. `Transform.GetTransform` returns the translation, rotation and center values it would place in those matrices.
- Shape errors in the numpy slice assignments of `get_transform` are not modelled.
- zlib compression and decompression are opaque. A corrupt stream is a `zlib.error`.
- numpy dtype casts are opaque. So are `frombuffer` and `reshape`, except the size check.
- The `np.memmap` construction is not modelled. A mapped image is its path, offset, shape and kind.
- Writer.Chunk: the caller's array is byte-swapped in place by `byteswap(inplace=True)`. The model swaps a copy, so the caller's array aliasing is left out.
- Reader.Assemble: the reader's in-place byte swap is also modelled as a swap of a copy.
- Writer.Channels: a float `ElementNumberOfChannels` is refused with `TypeError`. Python would compare it with 1. A float or array `NDims` is refused with `TypeError` too, where Python and numpy would subtract 1; only an integer or a bool `NDims` is decremented (LessOne). An integer-array `ElementNumberOfChannels` is refused with `TypeError`, which is what a Python list gives (`[3] > 1`); `IntVec` stands for a list and a numpy array alike, and for a numpy array Python would use a one-element array as its value and raise `ValueError` for a longer one.
- Writer.AdjustChannels: it follows Writer.Channels, so a float or array `NDims` and an array `ElementNumberOfChannels` are handled as above.
- Writer.DropLast: a matrix value for `DimSize` is refused with `TypeError`. numpy would drop its last row.
- Writer.DataTarget: a list-valued `ElementDataFile` fails on `.upper()` with `AttributeError`, before the list branch. The list branch and its slice-count check are unreachable, so only one payload chunk is modelled.
- Reader.Increment: in pymetaio a slice size outside `[0, intp max]` is reported as an overflow. numpy would wrap a large one, and a negative product (from a negative `DimSize`) fits `intp` and pymetaio goes on with it.
- Reader.SizeTag: a negative `HeaderSize`, `HeaderSizePerSlice` or `CompressedDataSize` is refused. pymetaio's signed counters would accept it.
- Reader.Assemble: a negative dimension in the shape is refused with the reshape error. `reshape` with `-1` is not modelled.
- Payload.CopySlices: the model is the corrected loop, with a guard on the per-slice header addition (see Findings). `Payload.CopyAsWritten` keeps the loop as written.
- Text.Upper: only ASCII letters are mapped. Python's `str.upper` also maps other letters, some to ASCII (`'ı'` to `'I'`), and can change the length (`'ß'` to `'SS'`), so a key spelled with such a letter is not canonicalised here.
- Text.IsSpace: whitespace is the ASCII and Latin-1 set. Unicode spaces such as U+2000-U+200A and U+3000, which Python's `strip` and `split` also remove, are kept as text.
- Text.ParseInt: only an optional sign followed by ASCII digits is an integer. Python's `int()` also accepts single underscores between digits (`1_0`) and the decimal digits of other scripts, which a UTF-8 header can hold; these are refused with `NotAnInteger`.
- Coerce.ParseScalarInt: refuses the same texts, where `np.uintp` and `np.intp` would parse them.
- Coerce.ParseInts: refuses a token of `DimSize` or `SequenceID` such as `1_0`, where `np.array(..., dtype=int)` would parse it.
- Coerce.CastOut: an `ElementType` that is not a dtype (a dtype-like string such as `'uint8'`, or `None`) is refused with `TypeError`. numpy would accept it.
- Writer.Chunk: the same `ElementType` is refused before the cast. numpy's `astype` would accept a dtype-like value, and `astype(None)` gives float64.
- Coerce.TransposeValue: only a 3 x 3 matrix is transposed. `Value.Matrix` holds 3 x 3 matrices only, so a 2 x 2 `Orientation` of a 2-D image cannot be expressed.
- Transform.SetTransform: the transform must have 16 cells (4 x 4). `set_transform` also accepts a 3 x 4 affine.
- Payload.DataFile.Seek: the cursor may reach `2**63` and beyond. CPython's `seek` raises `OverflowError` there.
- Payload.DataFile.Read: a read at a cursor of `2**63` or beyond returns nothing, where CPython raises `OverflowError`.
- The `imageio` plugin adapters, the tests and the packaging files are not part of this model.
