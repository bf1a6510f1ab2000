# nifti-java core, modelled in Dafny

This project models the integer and byte-level core of the nifti-java
library. The library reads and writes neuroimaging volumes in the
Analyze 7.5 / NIFTI-1 format and reads MATLAB MAT-files.

The model covers these parts of the library:

- **NIFTI-1 / Analyze header** (`header.dfy`, module `NiftiHeaders`):
  - a 348-byte header held in a byte buffer of either byte order;
  - detection of the byte order from `dim[0]`, and of the NIFTI magic and its layout (single file or pair);
  - the datatype→bitpix table, `setDim`, `setPixdim` and `setMagic`;
  - `resetBuffer`, extension records padded to 16 bytes, and `write` with its `vox_offset`;
  - the transform policy, the SPM centre voxel, `readNextInteger` and `assembleRGB`.
- **NIFTI file** (`nifti_file.dfy`, module `NiftiFiles`):
  - extents from `dim`, the voxel index, the voxel and byte counts;
  - the skip before the image data, `readChunk` over an input stream;
  - the choice of the storage array per datatype;
  - the chunked bulk reader that decodes elements into that array;
  - single-voxel `sample`, from the cache or straight from the image file.
- **Volumes** (`volume_index.dfy`, `volumes.dfy`, `mirrored.dfy`, `atlas.dfy`, `iterator.dfy`):
  - the 5-D linear index with its −1 sentinel;
  - byte, unsigned-byte and int indexed volume arrays with Java's widening and truncation;
  - region reads and writes (`getSeries`/`setSeries`) in i5, t, z, y, x order;
  - the mirrored volume's folded index;
  - the atlas volume's free-key search;
  - the stateful `IndexedIterator`: box bounds, row and slab skips, and axis moves.
- **MAT-files**:
  - the level 4 loader (`mat4.dfy`): byte-order choice from MOPT, entry headers, column-major uint8 reading;
  - the level 5 format (`mat5.dfy`): header, data-element tags (full and small), `readData` with 8-byte padding, array flags;
  - the level 5 loader (`mat5_loader.dfy`): `process`, `setArray`, compressed elements;
  - the public loader (`mat_loader.dfy`): level detection, and variables by name;
  - the column-major `getIndex` of `MatVar` (`mat_var.dfy`);
  - the `MatIntU8` / `MatIntU32` containers (`mat_containers.dfy`).
- **Small utilities**:
  - `FastByteArrayOutputStream` (`byte_stream.dfy`);
  - `DataType` (`data_type.dfy`);
  - `Util.sign` (`util_sign.dfy`);
  - `ColorTransformTable` and `ColorScheme` (`colors.dfy`);
  - the triangle `Surface` (`surface.dfy`);
  - the binary OFF writer and reader `SimpleOff` (`simple_off.dfy`).

Shared modules:

- `Java` (`java.dfy`) holds Java's integer semantics:
  - casts that narrow with two's-complement wrap-around;
  - truncating `/` and `%`;
  - exceptions as an `Error` datatype carried by `Result` and `Outcome`.
- `ByteBuffers` (`byte_buffers.dfy`) models a `java.nio.ByteBuffer` as a byte sequence with get/put of 16-, 32- and 64-bit words in either byte order.
- `Ieee` (`ieee.dfy`) holds:
  - the exact int→float conversions the library relies on;
  - Java's float→int truncation.
  Other floating-point values are opaque bit patterns.

Where the Java source updates objects in place, the model is a `class`:

- the header, the volume arrays and the iterator;
- the MAT loaders and containers;
- the byte stream, the colour table and the surface.

Each method's `ensures` ties the new state to a specification function, and lemmas prove the source's promises about those functions.

Pure logic is modelled as functions and lemmas:

- index formulas;
- tag decoding;
- the datatype table.

## Model

| member | source | states |
|---|---|---|
| DataTypes.Find | src/main/java/edu/washington/biostr/sig/volume/DataType.java:48-55 | the scan succeeds exactly when some constant carries the code, returns a constant of that code, and fails with IllegalArgument otherwise |
| DataTypes.ValueOf | src/main/java/edu/washington/biostr/sig/volume/DataType.java:48-55 | `valueOf` returns a type whose code is the value asked for, and throws exactly when no constant carries it |
| DataTypes.Ordinal | src/main/java/edu/washington/biostr/sig/volume/DataType.java:10-26 | every constant has its place in `values()` |
| DataTypes.ValueOfValue | src/main/java/edu/washington/biostr/sig/volume/DataType.java:12-26 | the codes are distinct, so every type is found again from its own code |
| DataTypes.ValueOfFails | src/main/java/edu/washington/biostr/sig/volume/DataType.java:48-55 | `valueOf` throws exactly on the codes no type carries |
| DataTypes.AtlasIsMarker | src/main/java/edu/washington/biostr/sig/volume/DataType.java:12-26 | the atlas type has code and width -1; every other type has a positive code and width |
| Signing.UnsignedShort | src/main/java/edu/washington/biostr/sig/nifti/Util.java:45-53 | the unsigned reading of a short narrows back to the same short |
| Signing.UnsignedLong | src/main/java/edu/washington/biostr/sig/nifti/Util.java:85-100 | the unsigned reading of a long lies in [0, 2^64) and is congruent to the long modulo 2^64 |
| Signing.UnsignedLongUnique | src/main/java/edu/washington/biostr/sig/nifti/Util.java:85-100 | a value in [0, 2^64) is congruent to a long modulo 2^64 exactly when it is that long's unsigned reading |
| Signing.UnsignedByteUnique | src/main/java/edu/washington/biostr/sig/nifti/Util.java:35-43 | `b & 0xFF` is the one value in [0, 256) that narrows back to the byte |
| Signing.UnsignedShortUnique | src/main/java/edu/washington/biostr/sig/nifti/Util.java:45-53 | `s & 0xFFFF` is the one value in [0, 65536) that narrows back to the short |
| Signing.UnsignedIntUnique | src/main/java/edu/washington/biostr/sig/nifti/Util.java:62-70 | `v & 0xffffffffL` is the one value in [0, 2^32) that narrows back to the int |
| Signing.SignBytes | src/main/java/edu/washington/biostr/sig/nifti/Util.java:35-43 | a new array of the same length holding each byte's unsigned value |
| Signing.SignShorts | src/main/java/edu/washington/biostr/sig/nifti/Util.java:45-53 | a new array of the same length holding each short's unsigned value |
| Signing.SignInts | src/main/java/edu/washington/biostr/sig/nifti/Util.java:62-70 | a new array of the same length holding each int's unsigned value |
| Signing.SignLongs | src/main/java/edu/washington/biostr/sig/nifti/Util.java:85-100 | a new array of the same length holding each long's unsigned value, a negative long plus 2^64 (the exact value, before Java's rounding to a double) |
| Signing.Sign | src/main/java/edu/washington/biostr/sig/nifti/Util.java:110-137 | a char array comes back as it is, each other integer array goes to its own `sign`, anything else is an illegal argument |
| ByteStreams.CopyCount | src/main/java/org/eiderman/util/FastByteArrayOutputStream.java:32-34 | the copy loop stores at most `len` bytes, and all `len` exactly when the source range and the room in the array hold them |
| ByteStreams.CopiedPrefix | src/main/java/org/eiderman/util/FastByteArrayOutputStream.java:32-34 | after the loop has copied `k` bytes, the written prefix is the old prefix followed by the copied source bytes |
| ByteStreams.FastByteArrayOutputStream.Contents | src/main/java/org/eiderman/util/FastByteArrayOutputStream.java:12-13 | the bytes written so far number `index` |
| ByteStreams.FastByteArrayOutputStream.constructor | src/main/java/org/eiderman/util/FastByteArrayOutputStream.java:15-17 | a new zeroed array of the size asked for, with nothing written |
| ByteStreams.FastByteArrayOutputStream.GetSize | src/main/java/org/eiderman/util/FastByteArrayOutputStream.java:56-58 | the count of bytes written never exceeds the array's length |
| ByteStreams.FastByteArrayOutputStream.GetArray | src/main/java/org/eiderman/util/FastByteArrayOutputStream.java:40-42 | the array returned holds at least the bytes written |
| ByteStreams.FastByteArrayOutputStream.Resize | src/main/java/org/eiderman/util/FastByteArrayOutputStream.java:48-54 | nothing happens at the current length; a negative size throws; a size below `index` throws from the copy; otherwise a new array of that size holds the first `index` bytes and zeros after them |
| ByteStreams.FastByteArrayOutputStream.Write | src/main/java/org/eiderman/util/FastByteArrayOutputStream.java:19-25 | with room, the low byte of `v` is appended; a full array first doubles (an empty one throws, having moved `index` to 1; a doubling past the int range throws); on success the contents gain exactly that byte |
| ByteStreams.FastByteArrayOutputStream.CopyIn | src/main/java/org/eiderman/util/FastByteArrayOutputStream.java:32-34 | the loop copies `CopyCount` bytes into place, completes exactly when it copies all `len`, and otherwise stops with an index exception, every other slot unchanged |
| ByteStreams.FastByteArrayOutputStream.Grow | src/main/java/org/eiderman/util/FastByteArrayOutputStream.java:29-31 | when `index + len`, in int arithmetic, reaches the length, the array is replaced by one of twice that size keeping the written bytes; otherwise it stays |
| ByteStreams.FastByteArrayOutputStream.WriteBytes | src/main/java/org/eiderman/util/FastByteArrayOutputStream.java:27-36 | on success the contents gain exactly `bytes[offset..offset + len]` and `index` grows by `len`, the array growing first when `index + len` reaches its length; a failing copy leaves the written bytes as they were |
| ByteStreams.FastByteArrayOutputStream.Trim | src/main/java/org/eiderman/util/FastByteArrayOutputStream.java:44-46 | the array is cut to exactly the bytes written, which stay; an array already of that length is kept |
| ByteStreams.Create | src/main/java/org/eiderman/util/FastByteArrayOutputStream.java:15-17 | the constructor throws exactly on a negative size, and otherwise gives an empty stream over an array of that size |
| Colors.PackARGB | src/main/java/edu/washington/biostr/sig/volume/colors/ColorScheme.java:61-64 | the packed word holds alpha in bits 24-31, red in 16-23, green in 8-15 and blue in 0-7 |
| Colors.PackARGBInjective | src/main/java/edu/washington/biostr/sig/volume/colors/ColorScheme.java:61-64 | a packed colour determines its four channels |
| Colors.ColorScheme.constructor | src/main/java/edu/washington/biostr/sig/volume/colors/ColorScheme.java:19-21 | a scheme starts fully opaque (alpha 255) |
| Colors.ColorScheme.SupportsAlpha | src/main/java/edu/washington/biostr/sig/volume/colors/ColorScheme.java:27-29 | true exactly when alpha is below 255 |
| Colors.ColorScheme.SetAlpha | src/main/java/edu/washington/biostr/sig/volume/colors/ColorScheme.java:35-37 | alpha becomes the caller's `(int) (255 * alpha)` |
| Colors.ColorScheme.GetAlpha | src/main/java/edu/washington/biostr/sig/volume/colors/ColorScheme.java:39-41 | integer division: 1 exactly for an opaque scheme and 0 for any translucent one |
| Colors.ColorScheme.GetRGB | src/main/java/edu/washington/biostr/sig/volume/colors/ColorScheme.java:48-50 | four zero components for any value |
| Colors.ColorScheme.GetARGB | src/main/java/edu/washington/biostr/sig/volume/colors/ColorScheme.java:59-66 | the base scheme's colour packs to 0, transparent black |
| Colors.PackRGBA | src/main/java/edu/washington/biostr/sig/volume/colors/ColorScheme.java:59-66 | succeeds exactly on an array of at least four components and packs their low bytes as A, R, G, B |
| Colors.LowByteOfByte | src/main/java/edu/washington/biostr/sig/volume/colors/ColorScheme.java:61-64 | `& 255` keeps a component that is already in [0, 255] |
| Colors.ColorTransformTable.constructor | src/main/java/edu/washington/biostr/sig/volume/colors/ColorTransformTable.java:20-23 | an empty table whose default is NO_COLOR |
| Colors.ColorTransformTable.SetDefault | src/main/java/edu/washington/biostr/sig/volume/colors/ColorTransformTable.java:32-34 | the default changes and the entries stay |
| Colors.ColorTransformTable.Add | src/main/java/edu/washington/biostr/sig/volume/colors/ColorTransformTable.java:41-43 | the entry for the colour is set; afterwards that colour maps to its target (unless the target is NO_COLOR) and every other colour maps as before |
| Colors.ColorTransformTable.Get | src/main/java/edu/washington/biostr/sig/volume/colors/ColorTransformTable.java:51-58 | an entry or the default is returned unless it is NO_COLOR, in which case the colour itself comes back |
| Colors.ColorTransformTable.EmptyIsIdentity | src/main/java/edu/washington/biostr/sig/volume/colors/ColorTransformTable.java:6-8 | a fresh table leaves every colour unchanged |
| AtlasVolumes.GapAtMost | src/main/java/edu/washington/biostr/sig/volume/IndexedAtlasVolumeArray.java:152-157 | among 0..n some key is unused when only n keys are bound, so the second search of `getUnusedKey` always finds one |
| AtlasVolumes.IndexedAtlasVolumeArray.constructor | src/main/java/edu/washington/biostr/sig/volume/IndexedAtlasVolumeArray.java:40-58 | only a backing volume whose natural type is INT is accepted; the atlas keeps the backing volume and the key map |
| AtlasVolumes.IndexedAtlasVolumeArray.GetInt | src/main/java/edu/washington/biostr/sig/volume/IndexedAtlasVolumeArray.java:174-182 | outside the backing array an index exception; key 0 reads 0; a bound key reads its structure's colour; an unbound key dereferences null |
| AtlasVolumes.IndexedAtlasVolumeArray.GetIntAt | src/main/java/edu/washington/biostr/sig/volume/IndexedVolumeArray.java:84-96 | 0 outside the volume, otherwise `getInt` of the voxel's index |
| AtlasVolumes.IndexedAtlasVolumeArray.SetData | src/main/java/edu/washington/biostr/sig/volume/IndexedAtlasVolumeArray.java:195-198 | the key is stored in the backing array at the index, nothing else changes; an index outside throws and changes nothing |
| AtlasVolumes.IndexedAtlasVolumeArray.SetThenColor | src/main/java/edu/washington/biostr/sig/volume/IndexedAtlasVolumeArray.java:174-198 | a key written over an int backing volume reads back as background, as its structure's colour, or as a null dereference when unbound |
| AtlasVolumes.IndexedAtlasVolumeArray.AssignAtlasElement | src/main/java/edu/washington/biostr/sig/volume/IndexedAtlasVolumeArray.java:89-98 | a structure binds the key (replacing any binding); null removes it |
| AtlasVolumes.IndexedAtlasVolumeArray.NaturalType | src/main/java/edu/washington/biostr/sig/volume/IndexedAtlasVolumeArray.java:200-203 | the natural type is RGB, 32 bits per voxel |
| AtlasVolumes.IndexedAtlasVolumeArray.GetType | src/main/java/edu/washington/biostr/sig/volume/IndexedAtlasVolumeArray.java:205-208 | the type is the atlas marker, code -1 |
| AtlasVolumes.IndexedAtlasVolumeArray.GetUnusedKey | src/main/java/edu/washington/biostr/sig/volume/IndexedAtlasVolumeArray.java:144-160 | the key returned is unbound; it is the first unbound key from size + 1 below `max_value` when there is one, and otherwise the first unbound key from 0 |
| Volumes.Load | src/main/java/edu/washington/biostr/sig/volume/UnsignedByteIndexedVolumeArray.java:27-33 | what `getInt(index)` makes of an element (a negative byte plus 256 in the unsigned class) is a value the storage class can read |
| Volumes.Store | src/main/java/edu/washington/biostr/sig/volume/ByteIndexedVolumeArray.java:64-66 | the element `setData(index, v)` stores (`(byte) v`, `(byte) (v & 0xff)` or `v`) fits the class's array |
| Volumes.LoadStore | src/main/java/edu/washington/biostr/sig/volume/UnsignedByteIndexedVolumeArray.java:27-53 | a write then a read gives the low byte read signed, the low byte read unsigned, or the int itself; any readable value comes back unchanged |
| Volumes.StoreLoad | src/main/java/edu/washington/biostr/sig/volume/IntIndexedVolumeArray.java:35-67 | every element is stored again as itself from the value read from it |
| Volumes.NaturalType | src/main/java/edu/washington/biostr/sig/volume/ByteIndexedVolumeArray.java:43-45 | all three storage classes compute in ints |
| Volumes.StorageType | src/main/java/edu/washington/biostr/sig/volume/UnsignedByteIndexedVolumeArray.java:45-47 | the type has 32 bits for the int class and 8 for the byte classes, and is UBYTE exactly for the unsigned class |
| Volumes.WroteSeriesStep | src/main/java/edu/washington/biostr/sig/volume/IndexedVolumeArray.java:266-283 | one more write of a region's next value keeps every earlier value in place, as distinct positions are distinct voxels |
| Volumes.Reached | src/main/java/edu/washington/biostr/sig/volume/IndexedVolumeArray.java:253-257 | the position where the walk stops: every earlier one finds its cell in the array and its slot in the buffer, that one does not (or the walk is complete) |
| Volumes.ReachedIs | src/main/java/edu/washington/biostr/sig/volume/IndexedVolumeArray.java:253-257 | a position with every earlier one fitting and itself not fitting is where the walk stops |
| Volumes.WalkOffset | src/main/java/edu/washington/biostr/sig/volume/IndexedVolumeArray.java:253-257 | a row whose first voxel is in the volume is walked at the flat offsets of its voxels, so a row overhanging the volume runs on into the following cells of the array |
| Volumes.WalkOutside | src/main/java/edu/washington/biostr/sig/volume/IndexedVolumeArray.java:253-255 | a row whose first voxel is outside the volume starts from index -1 and throws at once |
| Volumes.WalkInside | src/main/java/edu/washington/biostr/sig/volume/IndexedVolumeArray.java:120-126 | inside the volume the walk's index at each position is `getIndex` of that position's voxel |
| Volumes.InsideReachesEnd | src/main/java/edu/washington/biostr/sig/volume/IndexedVolumeArray.java:246-283 | a region inside the volume, with room for all its values, never throws |
| Volumes.WrittenInside | src/main/java/edu/washington/biostr/sig/volume/IndexedVolumeArray.java:266-283 | inside the volume the ordered writes store each value at its own voxel and leave every other cell unchanged |
| Volumes.IndexedVolumeArray.constructor | src/main/java/edu/washington/biostr/sig/volume/IndexedVolumeArray.java:37-41 | a volume of the given extents over an array of their size |
| Volumes.IndexedVolumeArray.GetDataArray | src/main/java/edu/washington/biostr/sig/volume/ByteIndexedVolumeArray.java:69-71 | the backing array itself, not a copy |
| Volumes.IndexedVolumeArray.GetInt | src/main/java/edu/washington/biostr/sig/volume/ByteIndexedVolumeArray.java:35-37 | the element read exactly for an index inside the array, a readable value; an index outside throws |
| Volumes.IndexedVolumeArray.GetIntAt | src/main/java/edu/washington/biostr/sig/volume/IndexedVolumeArray.java:84-91 | 0 outside the volume; inside, `getInt` of the voxel's index |
| Volumes.IndexedVolumeArray.SetData | src/main/java/edu/washington/biostr/sig/volume/IntIndexedVolumeArray.java:65-67 | the stored form of the value replaces the element at the index and nothing else; an index outside throws and changes nothing |
| Volumes.IndexedVolumeArray.SetDataAt | src/main/java/edu/washington/biostr/sig/volume/IndexedVolumeArray.java:232-239 | a voxel outside throws and changes nothing; otherwise only that voxel's element changes, to the stored form of the value |
| Volumes.IndexedVolumeArray.SetThenGet | src/main/java/edu/washington/biostr/sig/volume/IndexedVolumeArray.java:84-91 | a value the storage class can represent reads back unchanged after it is written at a voxel |
| Volumes.IndexedVolumeArray.GetSeries | src/main/java/edu/washington/biostr/sig/volume/IndexedVolumeArray.java:246-264 | positions before the first throwing one hold `getInt` of the walk's index (the row's `getIndex`, stepped by one); that position throws IndexOutOfBounds (index outside the array, or `rv` too short) and the rest of `rv` is untouched; a negative extent reads nothing and completes |
| Volumes.IndexedVolumeArray.ReadRow | src/main/java/edu/washington/biostr/sig/volume/IndexedVolumeArray.java:253-258 | one row read from `getIndex` of its first voxel onward, stopping at the position that throws; otherwise the running index moves on by the row's width |
| Volumes.IndexedVolumeArray.SetSeries | src/main/java/edu/washington/biostr/sig/volume/IndexedVolumeArray.java:266-283 | the array becomes the ordered writes of the walk's positions up to the first that throws (index outside the array, or `values` too short), which throws IndexOutOfBounds; a cell reached twice keeps the later value; a negative extent writes nothing |
| Volumes.IndexedVolumeArray.WriteRow | src/main/java/edu/washington/biostr/sig/volume/IndexedVolumeArray.java:273-278 | one row written along the walk, stopping at the position that throws; otherwise the running index moves on by the row's width |
| Volumes.IndexedVolumeArray.SeriesReadBack | src/main/java/edu/washington/biostr/sig/volume/IndexedVolumeArray.java:246-283 | after a `setSeries` over a region inside the volume, `getInt` at each of its voxels gives what the storage class makes of the value written there, and the value itself where it is representable |
| Volumes.IndexedVolumeArray.SeriesInside | src/main/java/edu/washington/biostr/sig/volume/IndexedVolumeArray.java:246-264 | a region inside the volume read into a buffer with room for it completes, and position p holds the voxel at position p of the region, as `getInt(i, j, k, l, m)` reads it |
| Volumes.IndexedVolumeArray.GetSeriesByVoxel | src/main/java/edu/washington/biostr/sig/volume/VolumeArray.java:1262-1278 | the generic `getSeries`: the same contents as the indexed one, each voxel read through `getInt(i, j, k, l, m)`, 0 outside the volume |
| Volumes.IndexedVolumeArray.ReadRowByVoxel | src/main/java/edu/washington/biostr/sig/volume/VolumeArray.java:1268-1271 | one row read voxel by voxel |
| Volumes.IndexedVolumeArray.SetSeriesByVoxel | src/main/java/edu/washington/biostr/sig/volume/VolumeArray.java:1295-1310 | the generic `setSeries`: values up to the first voxel outside the volume are stored, and that voxel throws IndexOutOfBounds; a region inside completes |
| Volumes.IndexedVolumeArray.WriteSliceByVoxel | src/main/java/edu/washington/biostr/sig/volume/VolumeArray.java:1300-1306 | the rows of one slice, stopping at the first voxel that throws |
| Volumes.IndexedVolumeArray.WriteRowByVoxel | src/main/java/edu/washington/biostr/sig/volume/VolumeArray.java:1301-1304 | one row, stopping at the first voxel that throws |
| Volumes.DoubleSeriesTarget | src/main/java/edu/washington/biostr/sig/volume/VolumeArray.java:1327-1342 | the base class's double overload (overridden by IndexedVolumeArray) writes the p-th value to a voxel whose time coordinate is its x coordinate |
| Volumes.DoubleSeriesTargetThrows | src/main/java/edu/washington/biostr/sig/volume/VolumeArray.java:1327-1342 | a voxel inside the volume whose x is at least the number of time steps is sent outside the volume, so the write throws |
| Volumes.ValueVoxels | src/main/java/edu/washington/biostr/sig/volume/VolumeArray.java:980-988 | nearest-neighbour and linear modes give their sample; no mode is an illegal argument |
| MirroredVolumes.Fold | src/main/java/edu/washington/biostr/sig/volume/MirroredVolumeArray.java:31-40 | a mirrored column folds into the backing width, to itself in the left half and to its reflection in the right |
| MirroredVolumes.MyIndex | src/main/java/edu/washington/biostr/sig/volume/MirroredVolumeArray.java:31-40 | `index % xx2` fails exactly for an empty backing volume |
| MirroredVolumes.Mirrored | src/main/java/edu/washington/biostr/sig/volume/MirroredVolumeArray.java:18-20 | the mirrored extents are the backing ones with x doubled |
| MirroredVolumes.MyIndexFolds | src/main/java/edu/washington/biostr/sig/volume/MirroredVolumeArray.java:31-40 | `myIndex` of an in-range mirrored voxel's index is the backing index of that voxel with its column folded |
| MirroredVolumes.MyIndexOfRow | src/main/java/edu/washington/biostr/sig/volume/MirroredVolumeArray.java:31-40 | column x of mirrored row `row` folds to the backing row start plus the folded column |
| MirroredVolumes.MyIndexSymmetric | src/main/java/edu/washington/biostr/sig/volume/MirroredVolumeArray.java:31-40 | columns x and 2 xx - 1 - x of a row share one backing index |
| MirroredVolumes.MirroredVolumeArray.constructor | src/main/java/edu/washington/biostr/sig/volume/MirroredVolumeArray.java:18-29 | the extents are the backing extents with x doubled |
| MirroredVolumes.MirroredVolumeArray.GetInt | src/main/java/edu/washington/biostr/sig/volume/MirroredVolumeArray.java:48-52 | the backing volume's `getInt` at `myIndex(index)`; an arithmetic exception over an empty backing volume |
| MirroredVolumes.MirroredVolumeArray.GetIntAt | src/main/java/edu/washington/biostr/sig/volume/IndexedVolumeArray.java:84-91 | 0 outside; inside, the backing voxel of the same row with the column folded |
| MirroredVolumes.MirroredVolumeArray.SetData | src/main/java/edu/washington/biostr/sig/volume/MirroredVolumeArray.java:61-65 | the write goes to the backing volume at `myIndex(index)` |
| MirroredVolumes.MirroredVolumeArray.SetDataAt | src/main/java/edu/washington/biostr/sig/volume/IndexedVolumeArray.java:232-239 | a voxel outside throws; otherwise only the backing voxel with the column folded is written |
| MirroredVolumes.MirroredVolumeArray.GetDataArray | src/main/java/edu/washington/biostr/sig/volume/MirroredVolumeArray.java:81-83 | the backing volume's own array |
| MirroredVolumes.MirroredVolumeArray.FoldedIndex | src/main/java/edu/washington/biostr/sig/volume/MirroredVolumeArray.java:31-40 | an in-range mirrored voxel's index folds to the index of an in-range backing voxel |
| MirroredVolumes.MirroredVolumeArray.MirrorSymmetric | src/main/java/edu/washington/biostr/sig/volume/MirroredVolumeArray.java:31-52 | the mirrored volume reads the same at columns x and 2 xx - 1 - x |
| VolumeIndex.OffsetBounds | src/main/java/edu/washington/biostr/sig/volume/IndexedVolumeArray.java:120-126 | the row-major offset of an in-range voxel lies in [0, size) |
| VolumeIndex.GetIndex | src/main/java/edu/washington/biostr/sig/volume/IndexedVolumeArray.java:120-126 | -1 exactly when a coordinate is outside its extent; otherwise the row-major offset, in [0, size) |
| VolumeIndex.OffsetOfDigits | src/main/java/edu/washington/biostr/sig/volume/IndexedVolumeArray.java:120-126 | every index in [0, size) is the offset of an in-range voxel (its mixed-radix digits) |
| VolumeIndex.DigitsOfOffset | src/main/java/edu/washington/biostr/sig/volume/IndexedVolumeArray.java:120-126 | the digits of an in-range voxel's offset are that voxel |
| VolumeIndex.CoordOf | src/main/java/edu/washington/biostr/sig/volume/IndexedVolumeArray.java:120-126 | the voxel at a linear index in [0, size) is in range and has that offset |
| VolumeIndex.CoordOfOffset | src/main/java/edu/washington/biostr/sig/volume/IndexedVolumeArray.java:120-126 | `CoordOf` inverts the offset on in-range voxels |
| VolumeIndex.GetIndexInjective | src/main/java/edu/washington/biostr/sig/volume/IndexedVolumeArray.java:120-126 | distinct in-range voxels have distinct indices |
| VolumeIndex.GetIndexOnto | src/main/java/edu/washington/biostr/sig/volume/IndexedVolumeArray.java:120-126 | every index in [0, size) is the index of the voxel `CoordOf` names |
| VolumeIndex.Strides | src/main/java/edu/washington/biostr/sig/volume/IndexedVolumeArray.java:120-126 | one step along x, y, z or t moves the offset by 1, maxX, maxY maxX or maxZ maxY maxX |
| VolumeIndex.RowOffset | src/main/java/edu/washington/biostr/sig/volume/IndexedVolumeArray.java:253-257 | within a row the offset moves one for one with x, as the indexed series loops assume |
| VolumeIndex.Translate | src/main/java/edu/washington/biostr/sig/volume/IndexedVolumeArray.java:120-126 | the offset is linear in a move by (dx, dy, dz) |
| VolumeIndex.CarryX | src/main/java/edu/washington/biostr/sig/volume/IndexedVolumeArray.java:120-126 | x one past the row is the start of the next row |
| VolumeIndex.CarryY | src/main/java/edu/washington/biostr/sig/volume/IndexedVolumeArray.java:120-126 | y one past the slice is the start of the next slice |
| VolumeIndex.CarryZ | src/main/java/edu/washington/biostr/sig/volume/IndexedVolumeArray.java:120-126 | z one past the volume is the start of the next time step |
| VolumeIndex.CarryT | src/main/java/edu/washington/biostr/sig/volume/IndexedVolumeArray.java:120-126 | t one past the last time step is the start of the next i5 block |
| VolumeIndex.OffsetEnd | src/main/java/edu/washington/biostr/sig/volume/IndexedVolumeArray.java:120-126 | the offset one past the last voxel is the size |
| VolumeIndex.NumEntries | src/main/java/edu/washington/biostr/sig/volume/VolumeArray.java:1140-1142 | the product leaves out the fifth extent: it is the size only when there is one i5 block, and the size is maxI5 times it |
| VolumeIndex.RegionIndex | src/main/java/edu/washington/biostr/sig/volume/IndexedVolumeArray.java:253-257 | the p-th voxel of a region inside the volume is in range and its index lies in [0, size) |
| VolumeIndex.RegionIndexInjective | src/main/java/edu/washington/biostr/sig/volume/IndexedVolumeArray.java:266-283 | different positions of a region inside the volume are different voxels |
| VolumeIndex.AtInjective | src/main/java/edu/washington/biostr/sig/volume/VolumeArray.java:1295-1310 | different positions of a region are different voxels |
| VolumeIndex.FirstOutside | src/main/java/edu/washington/biostr/sig/volume/VolumeArray.java:1295-1310 | the first position from p whose voxel is outside the volume: all before it are inside |
| VolumeIndex.FirstOutsideIs | src/main/java/edu/washington/biostr/sig/volume/VolumeArray.java:1295-1310 | a position with all voxels before it inside and its own outside (or the end) is the first outside |
| VolumeIndex.AtOffset | src/main/java/edu/washington/biostr/sig/volume/VolumeArray.java:1262-1278 | the loop coordinates (i, j, k, l, m) are the voxel at position p, p their offset in the box |
| VolumeIndex.LineNatural | src/main/java/edu/washington/biostr/sig/volume/IndexedVolumeArray.java:43-65 | an axis and a direction exactly when the segment is parallel to an axis; the direction is PLUS when the second point lies further along it |
| VolumeIndex.LineNaturalReverse | src/main/java/edu/washington/biostr/sig/volume/IndexedVolumeArray.java:43-65 | reversing a segment of non-zero length parallel to an axis swaps PLUS and MINUS |
| Iterators.OffsetBelow | src/main/java/edu/washington/biostr/sig/volume/IndexedVolumeArray.java:120-126 | a voxel no further than another along every axis, in the same i5 block, has no larger offset, and the same one only when it is that voxel |
| Iterators.RowEnd | src/main/java/edu/washington/biostr/sig/volume/IndexedIterator.java:660-665 | past the last voxel of a box row, the index plus one plus `yskip` is the first voxel of the next row |
| Iterators.SlabEnd | src/main/java/edu/washington/biostr/sig/volume/IndexedIterator.java:660-665 | past the last voxel of a box slab, the index plus one plus `zskip` is the first voxel of the next slab |
| Iterators.NextStepTracks | src/main/java/edu/washington/biostr/sig/volume/IndexedIterator.java:198-223 | from a tracked position in the box, `goNext()` throws exactly at the box's last voxel and otherwise lands on a voxel of the box whose `getIndex` is the new index |
| Iterators.PrevStepTracksWholeVolume | src/main/java/edu/washington/biostr/sig/volume/IndexedIterator.java:176-196 | over the whole volume, `goPrev()` throws exactly at the first voxel and otherwise keeps the index on the coordinates |
| Iterators.PrevStepTrackedTracks | src/main/java/edu/washington/biostr/sig/volume/IndexedIterator.java:176-223 | the corrected `goPrev()` throws exactly at the box's first voxel and otherwise keeps the index on the coordinates, for any box |
| Iterators.PrevUndoesNext | src/main/java/edu/washington/biostr/sig/volume/IndexedIterator.java:176-223 | the corrected `goPrev()` undoes `goNext()` |
| Iterators.NextUndoesPrev | src/main/java/edu/washington/biostr/sig/volume/IndexedIterator.java:176-223 | `goNext()` undoes the corrected `goPrev()` |
| Iterators.WholeVolumeSkips | src/main/java/edu/washington/biostr/sig/volume/IndexedIterator.java:23-24 | the whole volume fits the zero skips of a new iterator |
| Iterators.BoxOfStartsWalk | src/main/java/edu/washington/biostr/sig/volume/IndexedIterator.java:643-676 | the box `setBounds` accepts lies in the volume, its computed skips fit it, and the position it leaves is just before the box's first voxel with the index tracking it |
| Iterators.IndexedIterator.constructor | src/main/java/edu/washington/biostr/sig/volume/IndexedIterator.java:51-72 | the index is `getIndex` of the given voxel, the box is the whole volume, both skips are 0, and the i5 argument is dropped |
| Iterators.IndexedIterator.Before | src/main/java/edu/washington/biostr/sig/volume/IndexedIterator.java:51-72 | a cursor just before a voxel, with the index one before it: a walk that starts on that voxel when the voxel is in range |
| Iterators.IndexedIterator.GoNext | src/main/java/edu/washington/biostr/sig/volume/IndexedIterator.java:198-223 | the new cursor and index are those `NextStep` gives; it returns the new index or throws NoSuchElement |
| Iterators.IndexedIterator.NextInt | src/main/java/edu/washington/biostr/sig/volume/IndexedIterator.java:261-263 | moves as `goNext()`; on a tracked walk it throws exactly at the box's last voxel and otherwise reads the volume at the new voxel |
| Iterators.IndexedIterator.GoPrev | src/main/java/edu/washington/biostr/sig/volume/IndexedIterator.java:176-196 | the new cursor and index are those `PrevStep` gives, as written |
| Iterators.IndexedIterator.GoPrevTracked | src/main/java/edu/washington/biostr/sig/volume/IndexedIterator.java:176-196 | the new cursor and index are those of the corrected `PrevStepTracked` |
| Iterators.IndexedIterator.HasNextIffNotLast | src/main/java/edu/washington/biostr/sig/volume/IndexedIterator.java:526-528 | on a tracked walk in the last i5 block, `hasNext()` holds exactly when `goNext()` would not throw |
| Iterators.IndexedIterator.SetBounds | src/main/java/edu/washington/biostr/sig/volume/IndexedIterator.java:643-676 | a maximum above the volume, a negative minimum or an empty range throws and changes nothing; otherwise the box, skips and start position are those `BoxOf` gives |
| Iterators.IndexedIterator.GoRight | src/main/java/edu/washington/biostr/sig/volume/IndexedIterator.java:110-114 | x up by one and the index by the x stride, keeping the walk tracked inside the box |
| Iterators.IndexedIterator.GoLeft | src/main/java/edu/washington/biostr/sig/volume/IndexedIterator.java:88-92 | x down by one and the index by the x stride |
| Iterators.IndexedIterator.GoDown | src/main/java/edu/washington/biostr/sig/volume/IndexedIterator.java:130-134 | y up by one and the index by the y stride |
| Iterators.IndexedIterator.GoUp | src/main/java/edu/washington/biostr/sig/volume/IndexedIterator.java:120-124 | y down by one and the index by the y stride |
| Iterators.IndexedIterator.GoIn | src/main/java/edu/washington/biostr/sig/volume/IndexedIterator.java:140-144 | z up by one and the index by the z stride |
| Iterators.IndexedIterator.GoOut | src/main/java/edu/washington/biostr/sig/volume/IndexedIterator.java:150-154 | z down by one and the index by the z stride |
| Iterators.IndexedIterator.GoForward | src/main/java/edu/washington/biostr/sig/volume/IndexedIterator.java:160-164 | t up by one and the index by the t stride |
| Iterators.IndexedIterator.GoBack | src/main/java/edu/washington/biostr/sig/volume/IndexedIterator.java:170-174 | t down by one and the index by the t stride |
| Iterators.IndexedIterator.GoNextI5 | src/main/java/edu/washington/biostr/sig/volume/IndexedIterator.java:100-104 | i5 up by one, the index unmoved as `nextI5` is never set |
| Iterators.IndexedIterator.GoPrevI5 | src/main/java/edu/washington/biostr/sig/volume/IndexedIterator.java:94-98 | i5 down by one, the index unmoved |
| Iterators.IndexedIterator.HasForwardAtLastStep | src/main/java/edu/washington/biostr/sig/volume/IndexedIterator.java:466-468 | on the last time step `hasForward()` still holds though the voxel one step forward is outside the volume |
| Iterators.IndexedIterator.HasForwardStep | src/main/java/edu/washington/biostr/sig/volume/IndexedIterator.java:466-468 | the intended test: a time step after the current one exists |
| Iterators.Iterator | src/main/java/edu/washington/biostr/sig/volume/IndexedVolumeArray.java:76-78 | the iterator starts at (i - 1, j, k, time) with i5 dropped and the index `getIndex` of that voxel |
| Iterators.IteratorStartIndex | src/main/java/edu/washington/biostr/sig/volume/IndexedVolumeArray.java:76-78 | for i = 0 the start index is -1, so the first `goNext()` lands on index 0, which is the voxel only at the origin; for i > 0 in a later i5 block the start index is not the offset the cursor's i5 of 0 implies |
| Iterators.I5Stride | src/main/java/edu/washington/biostr/sig/volume/IndexedVolumeArray.java:120-126 | the first voxel of a later i5 block has a positive offset |
| Iterators.PrevStepLosesTrack | src/main/java/edu/washington/biostr/sig/volume/IndexedIterator.java:176-196 | at the start of a row of a box narrower than the volume, `goPrev()` as written steps to an index that is not the offset of its new coordinates |
| NiftiHeaders.Magic | src/main/java/edu/washington/biostr/sig/nifti/AnalyzeNiftiSpmHeader.java:2321-2335 | the magic is four bytes, `n+1` or `ni1` then a zero |
| NiftiHeaders.OrderOfWritten | src/main/java/edu/washington/biostr/sig/nifti/AnalyzeNiftiSpmHeader.java:322-327 | a dim[0] of 1..7 written in either byte order is read back in that order |
| NiftiHeaders.ParseDigit | src/main/java/edu/washington/biostr/sig/nifti/AnalyzeNiftiSpmHeader.java:334 | `Integer.parseInt` of one character succeeds exactly on a decimal digit, giving its value, and otherwise throws NumberFormat |
| NiftiHeaders.Detect | src/main/java/edu/washington/biostr/sig/nifti/AnalyzeNiftiSpmHeader.java:317-341 | a buffer too short for dim[0] throws IndexOutOfBounds, one too short to position at the magic IllegalArgument, one too short to read it BufferUnderflow; otherwise the order, the NIFTI version and the layout the magic names |
| NiftiHeaders.DetectMagic | src/main/java/edu/washington/biostr/sig/nifti/AnalyzeNiftiSpmHeader.java:2321-2335 | the magic `setMagic` writes is detected as NIFTI version 1 in the layout it names, the order kept |
| NiftiHeaders.BitpixKnown | src/main/java/edu/washington/biostr/sig/nifti/AnalyzeNiftiSpmHeader.java:1790-1838 | `setDatatype` knows exactly the NIFTI codes; each known bitpix above 1 is a whole number of bytes |
| NiftiHeaders.Padded | src/main/java/edu/washington/biostr/sig/nifti/AnalyzeNiftiSpmHeader.java:1665-1684 | the 8 dim entries are the given ones followed by zeros |
| NiftiHeaders.DimOf | src/main/java/edu/washington/biostr/sig/nifti/AnalyzeNiftiSpmHeader.java:708-717 | `getDim` reads 8 shorts from 40 on |
| NiftiHeaders.DimOfPut | src/main/java/edu/washington/biostr/sig/nifti/AnalyzeNiftiSpmHeader.java:1665-1684 | the dim written by `setDim` reads back as the padded entries |
| NiftiHeaders.Length16Least | src/main/java/edu/washington/biostr/sig/nifti/AnalyzeNiftiSpmHeader.java:373-379 | `getLength16` is the least multiple of 16 at or above a non-negative length |
| NiftiHeaders.Length16Bounds | src/main/java/edu/washington/biostr/sig/nifti/AnalyzeNiftiSpmHeader.java:373-379 | a padded length is a multiple of 16 that adds fewer than 16 bytes |
| NiftiHeaders.Record | src/main/java/edu/washington/biostr/sig/nifti/AnalyzeNiftiSpmHeader.java:402-407 | one extension record is as long as its padded length |
| NiftiHeaders.RecordLayout | src/main/java/edu/washington/biostr/sig/nifti/AnalyzeNiftiSpmHeader.java:402-407 | a record starts with its padded length and the code 0 as ints, carries the payload at 8 and is zero after it |
| NiftiHeaders.HeadWords | src/main/java/edu/washington/biostr/sig/nifti/AnalyzeNiftiSpmHeader.java:404-405 | the length word and the zero code decode to the length cut to 32 bits and to 0 |
| NiftiHeaders.RecordsLayout | src/main/java/edu/washington/biostr/sig/nifti/AnalyzeNiftiSpmHeader.java:387-408 | the records take exactly their padded lengths, which add up to a multiple of 16 of at least 8 bytes per record |
| NiftiHeaders.RecordsLengthBounds | src/main/java/edu/washington/biostr/sig/nifti/AnalyzeNiftiSpmHeader.java:389-393 | the padded lengths add up to a multiple of 16, at least 8 bytes per record |
| NiftiHeaders.Image | src/main/java/edu/washington/biostr/sig/nifti/AnalyzeNiftiSpmHeader.java:396-400 | `write` emits 352 header bytes |
| NiftiHeaders.BlankWrites | src/main/java/edu/washington/biostr/sig/nifti/AnalyzeNiftiSpmHeader.java:2396-2415 | `resetBuffer` makes six puts at the fixed offsets, all inside 352 bytes |
| NiftiHeaders.BlankBuffer | src/main/java/edu/washington/biostr/sig/nifti/AnalyzeNiftiSpmHeader.java:2396-2415 | the blank buffer has 352 bytes |
| NiftiHeaders.BlankVoxOffsetValue | src/main/java/edu/washington/biostr/sig/nifti/AnalyzeNiftiSpmHeader.java:2403-2406 | the blank vox_offset is the float 352 for a single file and 0 otherwise |
| NiftiHeaders.BlankField | src/main/java/edu/washington/biostr/sig/nifti/AnalyzeNiftiSpmHeader.java:2396-2415 | no two puts of `resetBuffer` overlap, so each put's bytes are in place at the end |
| NiftiHeaders.BlankUntouched | src/main/java/edu/washington/biostr/sig/nifti/AnalyzeNiftiSpmHeader.java:2396-2415 | a byte no put of `resetBuffer` writes stays zero |
| NiftiHeaders.BlankSizeAndMagic | src/main/java/edu/washington/biostr/sig/nifti/AnalyzeNiftiSpmHeader.java:2401-2402 | a blank header has sizeof_hdr 348 and the magic of its layout |
| NiftiHeaders.BlankVoxOffsetField | src/main/java/edu/washington/biostr/sig/nifti/AnalyzeNiftiSpmHeader.java:2403-2406 | a blank header's vox_offset reads as 352 for a single file and 0 otherwise |
| NiftiHeaders.BlankSform | src/main/java/edu/washington/biostr/sig/nifti/AnalyzeNiftiSpmHeader.java:2413 | a blank header has sform_code 1 |
| NiftiHeaders.BlankRows | src/main/java/edu/washington/biostr/sig/nifti/AnalyzeNiftiSpmHeader.java:2407-2412 | a blank header has the identity sform rows |
| NiftiHeaders.BlankPixdim | src/main/java/edu/washington/biostr/sig/nifti/AnalyzeNiftiSpmHeader.java:2414 | a blank header has pixdim {1, 0, 0, 0, 0, 0, 0, 0} |
| NiftiHeaders.BlankDim | src/main/java/edu/washington/biostr/sig/nifti/AnalyzeNiftiSpmHeader.java:2398 | a blank header has an all-zero dim |
| NiftiHeaders.BlankNoQform | src/main/java/edu/washington/biostr/sig/nifti/AnalyzeNiftiSpmHeader.java:2398 | a blank header has qform_code 0 and no extension byte |
| NiftiHeaders.ZeroShortAt | src/main/java/edu/washington/biostr/sig/nifti/AnalyzeNiftiSpmHeader.java:2398 | the dim entries, qform_code and datatype of a blank header read 0 in either order |
| NiftiHeaders.BlankDetected | src/main/java/edu/washington/biostr/sig/nifti/AnalyzeNiftiSpmHeader.java:317-341 | a blank header read back by the parsing constructor is little-endian NIFTI version 1 in its layout |
| NiftiHeaders.TransformPolicy | src/main/java/edu/washington/biostr/sig/nifti/AnalyzeNiftiSpmHeader.java:1384-1401 | the qform when a standard space is asked for and exists, or when there is no sform; else a positive sform; only a non-NIFTI header looks at SPM; else the Analyze transform |
| NiftiHeaders.OldTrans | src/main/java/edu/washington/biostr/sig/nifti/AnalyzeNiftiSpmHeader.java:1409-1419 | a 16-entry matrix with pixdim[1], pixdim[2], pixdim[3] and 1 placed as written |
| NiftiHeaders.OldTransLosesY | src/main/java/edu/washington/biostr/sig/nifti/AnalyzeNiftiSpmHeader.java:1409-1419 | as written the y spacing lands in the x translation and the y row is all zero |
| NiftiHeaders.OldTransDiagonal | src/main/java/edu/washington/biostr/sig/nifti/AnalyzeNiftiSpmHeader.java:1409-1419 | the intended matrix: pixdim[1..3] and 1 on the diagonal, zero elsewhere |
| NiftiHeaders.CentreVoxel | src/main/java/edu/washington/biostr/sig/nifti/AnalyzeNiftiSpmHeader.java:1502-1511 | the SPM origin, or (dim - 1) / 2 on each axis when it is all zero |
| NiftiHeaders.CentreVoxelInside | src/main/java/edu/washington/biostr/sig/nifti/AnalyzeNiftiSpmHeader.java:1502-1511 | a set origin is kept; otherwise a non-empty axis is centred on a voxel inside it, and an empty axis on 0 |
| NiftiHeaders.AssembleRGBSignSmear | src/main/java/edu/washington/biostr/sig/nifti/AnalyzeNiftiSpmHeader.java:551-558 | a blue byte of 128 or more fills red, green and alpha with ones, so different colours assemble to the same word |
| NiftiHeaders.AssembleRGBMasked | src/main/java/edu/washington/biostr/sig/nifti/AnalyzeNiftiSpmHeader.java:551-558 | the intended word: alpha 255 and the three bytes' unsigned values in their channels |
| NiftiHeaders.AssembleRGBMaskedInjective | src/main/java/edu/washington/biostr/sig/nifti/AnalyzeNiftiSpmHeader.java:551-558 | the masked assembly keeps every channel |
| NiftiHeaders.AssembleRGBAgrees | src/main/java/edu/washington/biostr/sig/nifti/AnalyzeNiftiSpmHeader.java:551-558 | on bytes below 128 the two assemblies agree |
| NiftiHeaders.ReadWidthIsBitpix | src/main/java/edu/washington/biostr/sig/nifti/AnalyzeNiftiSpmHeader.java:482-511 | every datatype `readNextInteger` maps has a bitpix eight times the bytes it reads |
| NiftiHeaders.ReadInteger | src/main/java/edu/washington/biostr/sig/nifti/AnalyzeNiftiSpmHeader.java:482-511 | an unmapped datatype throws IllegalArgument; a mapped one reads its width, or underflows; the value is in the range of its type (a byte's unsigned value for UINT8, and so on) |
| NiftiHeaders.ReadNextValue | src/main/java/edu/washington/biostr/sig/nifti/AnalyzeNiftiSpmHeader.java:520-547 | readNext fails exactly where readNextInteger does, with the same exception; on integer datatypes the two read the same value, and on float and double readNextInteger is readNext cut to a long |
| NiftiHeaders.VoxOffsetIsImageStart | src/main/java/edu/washington/biostr/sig/nifti/AnalyzeNiftiSpmHeader.java:387-408 | for a single file of fewer than 2^24 bytes of header and extensions, the recorded vox_offset is exactly where the written bytes end |
| NiftiHeaders.AnalyzeNiftiSpmHeader.Parse | src/main/java/edu/washington/biostr/sig/nifti/AnalyzeNiftiSpmHeader.java:317-341 | the header keeps the buffer, the detected order, version and layout, and an empty datatype cache |
| NiftiHeaders.AnalyzeNiftiSpmHeader.Blank | src/main/java/edu/washington/biostr/sig/nifti/AnalyzeNiftiSpmHeader.java:302-305 | the blank header holds the `resetBuffer` bytes; its NIFTI version stays 0 |
| NiftiHeaders.AnalyzeNiftiSpmHeader.IsNIFTI | src/main/java/edu/washington/biostr/sig/nifti/AnalyzeNiftiSpmHeader.java:439-442 | true exactly for a positive NIFTI version |
| NiftiHeaders.AnalyzeNiftiSpmHeader.HasExtended | src/main/java/edu/washington/biostr/sig/nifti/AnalyzeNiftiSpmHeader.java:411-417 | true exactly when the buffer goes past 348 and the byte at 348 is not 0 |
| NiftiHeaders.AnalyzeNiftiSpmHeader.Dim | src/main/java/edu/washington/biostr/sig/nifti/AnalyzeNiftiSpmHeader.java:708-717 | the 8 shorts from 40 |
| NiftiHeaders.AnalyzeNiftiSpmHeader.Transform | src/main/java/edu/washington/biostr/sig/nifti/AnalyzeNiftiSpmHeader.java:1384-1401 | the policy applied to the header's version, SPM flag and form codes |
| NiftiHeaders.AnalyzeNiftiSpmHeader.GetDatatype | src/main/java/edu/washington/biostr/sig/nifti/AnalyzeNiftiSpmHeader.java:826-831 | the cache if set, else the field at 70, which is then cached; with a coherent cache it is the field |
| NiftiHeaders.AnalyzeNiftiSpmHeader.SetDatatype | src/main/java/edu/washington/biostr/sig/nifti/AnalyzeNiftiSpmHeader.java:1790-1838 | the code is cached and stored at 70; a known code's bitpix is stored at 72; an unknown code leaves bitpix |
| NiftiHeaders.AnalyzeNiftiSpmHeader.SetDim | src/main/java/edu/washington/biostr/sig/nifti/AnalyzeNiftiSpmHeader.java:1665-1684 | more than 8 entries throw and change nothing; otherwise the 8 shorts from 40 are the entries then zeros, and `getDim` reads them back |
| NiftiHeaders.AnalyzeNiftiSpmHeader.SetMagic | src/main/java/edu/washington/biostr/sig/nifti/AnalyzeNiftiSpmHeader.java:2321-2335 | the magic of the layout goes to 344 and the layout is recorded; the buffer then reads as NIFTI version 1 |
| NiftiHeaders.AnalyzeNiftiSpmHeader.SetExtended | src/main/java/edu/washington/biostr/sig/nifti/AnalyzeNiftiSpmHeader.java:419-427 | 0 changes nothing; another value goes to 348, or throws on a buffer of only 348 bytes |
| NiftiHeaders.AnalyzeNiftiSpmHeader.SetVoxOffset | src/main/java/edu/washington/biostr/sig/nifti/AnalyzeNiftiSpmHeader.java:1882-1885 | the float's bits are put at 108 |
| NiftiHeaders.AnalyzeNiftiSpmHeader.SetPixdim | src/main/java/edu/washington/biostr/sig/nifti/AnalyzeNiftiSpmHeader.java:1867-1876 | anything but 8 entries throws and changes nothing; otherwise the 8 floats are put from 76 and read back |
| NiftiHeaders.AnalyzeNiftiSpmHeader.ResetBuffer | src/main/java/edu/washington/biostr/sig/nifti/AnalyzeNiftiSpmHeader.java:2396-2415 | the buffer becomes the blank buffer of the order and layout, SPM off; the NIFTI version and datatype cache keep their old values |
| NiftiHeaders.AnalyzeNiftiSpmHeader.ResetBufferAsNifti | src/main/java/edu/washington/biostr/sig/nifti/AnalyzeNiftiSpmHeader.java:2396-2415 | the intended reset: the same buffer, the header NIFTI version 1 and the cache emptied |
| NiftiHeaders.AnalyzeNiftiSpmHeader.Write | src/main/java/edu/washington/biostr/sig/nifti/AnalyzeNiftiSpmHeader.java:387-408 | records vox_offset and the extension count (which throws on a 348-byte buffer), then emits the 352 header bytes and the padded records |
| NiftiHeaders.AnalyzeNiftiSpmHeader.ReadNextInteger | src/main/java/edu/washington/biostr/sig/nifti/AnalyzeNiftiSpmHeader.java:482-511 | the cached datatype decides the reading; with a coherent cache it is the header's datatype field |
| NiftiHeaders.Open | src/main/java/edu/washington/biostr/sig/nifti/AnalyzeNiftiSpmHeader.java:317-341 | the constructor throws exactly what detection throws, and otherwise keeps the buffer and what was detected |
| NiftiHeaders.BlankDatatype | src/main/java/edu/washington/biostr/sig/nifti/AnalyzeNiftiSpmHeader.java:2398 | the datatype field of a blank header is 0, so a cached code other than DT_NONE is stale |
| NiftiHeaders.BlankHeaderNotNifti | src/main/java/edu/washington/biostr/sig/nifti/AnalyzeNiftiSpmHeader.java:302-305 | the blank header is not NIFTI although its buffer reads as NIFTI version 1, so its transform ignores the identity sform it wrote |
| NiftiHeaders.TotalLength | src/main/java/edu/washington/biostr/sig/nifti/AnalyzeNiftiSpmHeader.java:389-393 | the first loop of `write` adds 352 and the padded records: a multiple of 16 |
| NiftiHeaders.RecordsLengthStep | src/main/java/edu/washington/biostr/sig/nifti/AnalyzeNiftiSpmHeader.java:389-393 | one more extension adds its padded length |
| NiftiHeaders.EmitRecords | src/main/java/edu/washington/biostr/sig/nifti/AnalyzeNiftiSpmHeader.java:401-407 | the second loop emits the records after the image, as long as the first loop's total says |
| NiftiHeaders.RecordsStep | src/main/java/edu/washington/biostr/sig/nifti/AnalyzeNiftiSpmHeader.java:401-407 | one more extension appends its record |
| NiftiHeaders.BlankNiftiUsesSform | src/main/java/edu/washington/biostr/sig/nifti/AnalyzeNiftiSpmHeader.java:1384-1401 | a blank header read as NIFTI takes its transform from the identity sform unless a standard space is asked for |
| NiftiHeaders.ShortStep | src/main/java/edu/washington/biostr/sig/nifti/AnalyzeNiftiSpmHeader.java:1672-1675 | one more short of `setDim`'s loops extends the run written |
| NiftiHeaders.IntStep | src/main/java/edu/washington/biostr/sig/nifti/AnalyzeNiftiSpmHeader.java:1872-1875 | one more float of `setPixdim`'s loop extends the run written |
| NiftiFiles.GetNumVoxels | src/main/java/edu/washington/biostr/sig/nifti/NiftiFile.java:521-530 | the loop's result is the product of dim[1..dim[0]] wrapped to a Java int, and IndexOutOfBounds when dim[0] exceeds 7 |
| NiftiFiles.WrappedIsProduct | src/main/java/edu/washington/biostr/sig/nifti/NiftiFile.java:521-530 | with positive extents and a product that fits an int, the wrapped product is the true product and at least 1 |
| NiftiFiles.ProductGrows | src/main/java/edu/washington/biostr/sig/nifti/NiftiFile.java:525-528 | with positive extents, multiplying in one more axis never shrinks the voxel count |
| NiftiFiles.NumVoxelsIsSize | src/main/java/edu/washington/biostr/sig/nifti/NiftiFile.java:521-530 | for dim[0] of 0..5 the voxel count is the size of the extents the constructor takes from dim |
| NiftiFiles.BytesPerVoxel | src/main/java/edu/washington/biostr/sig/nifti/NiftiFile.java:534-538 | the estimated element size is bitpix/8, and 1 when that is not positive |
| NiftiFiles.NumBytesCoversData | src/main/java/edu/washington/biostr/sig/nifti/NiftiFile.java:532-540 | for each supported datatype at its own bitpix, the byte estimate is the data's size plus the offset term and so covers the data |
| NiftiFiles.SkipOffset | src/main/java/edu/washington/biostr/sig/nifti/NiftiFile.java:480-499 | a single file skips at least 348 bytes and exactly vox_offset when that is 348 or more; a pair skips vox_offset, clamped at 0 |
| NiftiFiles.SkipOfWritten | src/main/java/edu/washington/biostr/sig/nifti/NiftiFile.java:480-499 | on a header written with extensions, the skip lands exactly after the header and its extension records in a single file, and at 0 in a pair |
| NiftiFiles.SampleOffsetMisses | src/main/java/edu/washington/biostr/sig/nifti/NiftiFile.java:216-228 | the single-voxel path of sample skips 0 where the bulk reader skips vox_offset in a pair, and 0 where it skips 348 for a single file with vox_offset 0 |
| NiftiFiles.SampleOffsetAgrees | src/main/java/edu/washington/biostr/sig/nifti/NiftiFile.java:216-228 | for whole-byte voxels in a single file with vox_offset of 348 or more, the single-voxel offset is the bulk reader's skip plus index times the element width |
| NiftiFiles.KindOf | src/main/java/edu/washington/biostr/sig/nifti/NiftiFile.java:552-581 | the eight supported datatypes get an array, any other code throws IllegalArgument, and each supported code has an element width |
| NiftiFiles.Width | src/main/java/edu/washington/biostr/sig/nifti/NiftiFile.java:594-668 | a supported datatype's element takes at least one byte, the width the header's reader uses |
| NiftiFiles.Element | src/main/java/edu/washington/biostr/sig/nifti/NiftiFile.java:598-668 | each stored element fits the Java array allocated for its datatype |
| NiftiFiles.Uint8SignExtended | src/main/java/edu/washington/biostr/sig/nifti/NiftiFile.java:598-606 | a UINT8 byte of 128 or more is stored negative in the short array, while the header's readNextInteger reads it as 128..255 |
| NiftiFiles.ElementIntended | src/main/java/edu/washington/biostr/sig/nifti/AnalyzeNiftiSpmHeader.java:498-499 | with UINT8 read unsigned, every element still fits its array |
| NiftiFiles.ElementIntendedIsReader | src/main/java/edu/washington/biostr/sig/nifti/AnalyzeNiftiSpmHeader.java:482-511 | with UINT8 read unsigned, every integer element the bulk reader stores equals what readNextInteger returns for the same bytes |
| NiftiFiles.Elements | src/main/java/edu/washington/biostr/sig/nifti/NiftiFile.java:594-668 | the elements of a byte run are as many as whole element widths fit in it |
| NiftiFiles.Voxels | src/main/java/edu/washington/biostr/sig/nifti/NiftiFile.java:594-668 | the elements of a stream are its length divided by the element width |
| NiftiFiles.ElementsAt | src/main/java/edu/washington/biostr/sig/nifti/NiftiFile.java:594-668 | element j of a run is decoded from the group of bytes starting j widths after the run's start |
| NiftiFiles.VoxelLayout | src/main/java/edu/washington/biostr/sig/nifti/NiftiFile.java:594-668 | voxel j of a stream is decoded from bytes w*j to w*(j+1), w being the datatype's width |
| NiftiFiles.ChunkOutcomeCases | src/main/java/edu/washington/biostr/sig/nifti/NiftiFile.java:594-668 | a chunk decodes exactly when it holds whole elements that fit in the free slots, storing them in order; a partial element underflows the buffer, too many elements run off the array |
| NiftiFiles.FillWithin | src/main/java/edu/washington/biostr/sig/nifti/NiftiFile.java:584-670 | the fill loop keeps what it stored before and never stores more than the array holds |
| NiftiFiles.StoreElements | src/main/java/edu/washington/biostr/sig/nifti/NiftiFile.java:594-668 | the inner loop stores the chunk's elements into the array from slot i in order and leaves the other slots alone, or throws what the chunk's decoding throws |
| NiftiFiles.StoreChunk | src/main/java/edu/washington/biostr/sig/nifti/NiftiFile.java:586-668 | one pass of the outer loop moves the fill from the chunk's start to its end with the chunk's elements appended |
| NiftiFiles.ChunkStep | src/main/java/edu/washington/biostr/sig/nifti/NiftiFile.java:594-668 | decoding a chunk is its first element followed by the decoding of the rest in one fewer slot |
| NiftiFiles.FillArray | src/main/java/edu/washington/biostr/sig/nifti/NiftiFile.java:584-670 | the fill loop leaves the array holding the fill's elements in its first slots, the rest untouched, or throws the fill's exception |
| NiftiFiles.DecodeStream | src/main/java/edu/washington/biostr/sig/nifti/NiftiFile.java:544-671 | getData's checks in the source's order (negative chunk size, the voxel count's exception, unsupported datatype, negative array size) and then the fill into a zeroed array |
| NiftiFiles.FillStep | src/main/java/edu/washington/biostr/sig/nifti/NiftiFile.java:584-594 | one round of the fill is the chunk's exception or the fill from the end of the chunk with its elements appended |
| NiftiFiles.FillWhole | src/main/java/edu/washington/biostr/sig/nifti/NiftiFile.java:584-670 | a stream of whole elements that fit, read in chunks that are a multiple of the width, fills the array with its elements in order |
| NiftiFiles.WholeChunk | src/main/java/edu/washington/biostr/sig/nifti/NiftiFile.java:584-670 | a whole chunk of a whole-element stream is stored and the remainder is again whole elements that fit |
| NiftiFiles.DataDecodes | src/main/java/edu/washington/biostr/sig/nifti/NiftiFile.java:542-671 | a file of whole elements for at most the declared voxel count decodes to its voxels in order followed by zeros for the voxels it lacks |
| NiftiFiles.FillAll | src/main/java/edu/washington/biostr/sig/nifti/NiftiFile.java:584-670 | from an empty array, the fill of a whole-element stream that fits is its elements in order |
| NiftiFiles.DataOverflows | src/main/java/edu/washington/biostr/sig/nifti/NiftiFile.java:594-668 | more elements than the declared voxel count, within the first chunk, throw IndexOutOfBounds |
| NiftiFiles.InputStream.constructor | src/main/java/edu/washington/biostr/sig/nifti/NiftiFile.java:480-499 | the stream starts with all its bytes left |
| NiftiFiles.InputStream.Read | src/main/java/edu/washington/biostr/sig/nifti/NiftiFile.java:512 | read returns 0 for an empty request, -1 at the end, otherwise 1..len bytes copied in order, consuming them and touching nothing else |
| NiftiFiles.ReadChunk | src/main/java/edu/washington/biostr/sig/nifti/NiftiFile.java:507-519 | readChunk fills the buffer with the stream's next bytes up to its length, consuming exactly those; a short chunk means the stream is exhausted |
| NiftiFiles.ImageStream | src/main/java/edu/washington/biostr/sig/nifti/NiftiFile.java:480-499 | the image stream is the file after the skip, empty when the skip passes the end |
| NiftiFiles.SampleWindow | src/main/java/edu/washington/biostr/sig/nifti/NiftiFile.java:222-224 | the 32 bytes read after the skip: the file's bytes there when it holds them all, 0 for every byte past the file's end, nothing skipped for a negative offset |
| NiftiFiles.SampleRead | src/main/java/edu/washington/biostr/sig/nifti/NiftiFile.java:219-227 | the uncached sample reads one value with readNext, failing exactly for a datatype readNext does not map (IllegalArgument) |
| NiftiFiles.SampleWindowIsVoxel | src/main/java/edu/washington/biostr/sig/nifti/NiftiFile.java:216-228 | in a single file with vox_offset of 348 or more and whole-byte voxels, the window the uncached sample reads starts with the bytes the bulk reader decodes for the same voxel |
| NiftiFiles.NiftiFile.constructor | src/main/java/edu/washington/biostr/sig/nifti/NiftiFile.java:133-139 | the extents are dim[k] for axes up to dim[0] and 1 beyond; nothing is cached |
| NiftiFiles.NiftiFile.GetIndex | src/main/java/edu/washington/biostr/sig/nifti/NiftiFile.java:312-318 | -1 exactly outside the extents, otherwise the row-major position, below the voxel count |
| NiftiFiles.NiftiFile.Sample | src/main/java/edu/washington/biostr/sig/nifti/NiftiFile.java:167-228 | 0 outside the extents; with the data cached, the element at the voxel's position, and IndexOutOfBounds past the cache's end; otherwise the value `SampleRead` reads from the image file with the datatype `getDatatype()` gives |
| NiftiFiles.NiftiFile.GetData | src/main/java/edu/washington/biostr/sig/nifti/NiftiFile.java:542-679 | the result is the decoding of the image stream for the header's datatype, bitpix and voxel count, cached on success; the header is unchanged |
| Mat4.Endian | src/main/java/edu/washington/biostr/sig/matfile/Matfile4Loader.java:73-106 | as written: the file is rejected exactly when it is shorter than four bytes, or its first int read little-endian exceeds 4052 and read big-endian has an M digit other than 1, or it is at most 4052 and its M digit is not 0; big-endian is chosen only after a little-endian reading above 4052 |
| Mat4.EndianIntended | src/main/java/edu/washington/biostr/sig/matfile/Matfile4Loader.java:73-106 | as intended: an order is chosen only when the first int read in it has the M digit of that order |
| Mat4.SmallWordBytes | src/main/java/edu/washington/biostr/sig/matfile/Matfile4Loader.java:84 | a MOPT below 2^16 stored as an int is two zero bytes and its two low bytes, in the file's order |
| Mat4.BigEndianMopt | src/main/java/edu/washington/biostr/sig/matfile/Matfile4Loader.java:77-89 | the first int of a big-endian file reads back as its MOPT big-endian, and little-endian puts its low byte in the sign position |
| Mat4.LittleEndianMopt | src/main/java/edu/washington/biostr/sig/matfile/Matfile4Loader.java:77 | the first int of a little-endian file reads back as its MOPT |
| Mat4.EndianLittle | src/main/java/edu/washington/biostr/sig/matfile/Matfile4Loader.java:95-103 | a little-endian file is recognised as little-endian, as written and as intended |
| Mat4.EndianRejectsBigEndian | src/main/java/edu/washington/biostr/sig/matfile/Matfile4Loader.java:84-94 | as written, a big-endian file whose MOPT has a low byte of 0x80 or more reads negative little-endian and is rejected |
| Mat4.EndianRejectsDoubleMatrix | src/main/java/edu/washington/biostr/sig/matfile/Matfile4Loader.java:84-94 | a big-endian double matrix (MOPT 1000) is rejected as written and recognised as intended |
| Mat4.EndianAcceptsBigEndian | src/main/java/edu/washington/biostr/sig/matfile/Matfile4Loader.java:84-94 | as written, a big-endian file whose MOPT has a low byte below 0x80 is recognised |
| Mat4.EndianBig | src/main/java/edu/washington/biostr/sig/matfile/Matfile4Loader.java:84-94 | as intended, every big-endian file is recognised |
| Mat4.Precision | src/main/java/edu/washington/biostr/sig/matfile/Matfile4Loader.java:126 | the precision digit lies strictly between -10 and 10 |
| Mat4.MatrixType | src/main/java/edu/washington/biostr/sig/matfile/Matfile4Loader.java:127 | the type digit lies strictly between -10 and 10 |
| Mat4.MoptDigits | src/main/java/edu/washington/biostr/sig/matfile/Matfile4Loader.java:125-127 | a MOPT written from its four digits gives back its precision and type digits |
| Mat4.EntryAt | src/main/java/edu/washington/biostr/sig/matfile/Matfile4Loader.java:123-142 | the header and name end after the five ints and the name's NUL, the name is the bytes before that NUL, and the only failures are a negative name length and running out of buffer |
| Mat4.EntryBytes | src/main/java/edu/washington/biostr/sig/matfile/Matfile4Loader.java:123-142 | a written header and name take 20 bytes plus the name plus its NUL |
| Mat4.EntryRoundTrip | src/main/java/edu/washington/biostr/sig/matfile/Matfile4Loader.java:123-142 | a header and name written out are read back as themselves, the data starting right after the NUL |
| Mat4.EntryOfFields | src/main/java/edu/washington/biostr/sig/matfile/Matfile4Loader.java:123-142 | the entry is the five ints at the position and the name bytes after them |
| Mat4.HeaderFields | src/main/java/edu/washington/biostr/sig/matfile/Matfile4Loader.java:123-132 | the five header ints laid out at a position read back in order |
| Mat4.Size | src/main/java/edu/washington/biostr/sig/matfile/Matfile4Loader.java:371-372 | the container's length is rows times cols in Java int arithmetic |
| Mat4.LoopEnd | src/main/java/edu/washington/biostr/sig/matfile/Matfile4Loader.java:375-397 | a loop of n reads completes only when the array and the buffer hold them all, ending n widths on; otherwise it throws BufferUnderflow or IndexOutOfBounds |
| Mat4.LoopEndCompletes | src/main/java/edu/washington/biostr/sig/matfile/Matfile4Loader.java:375-397 | a loop over enough buffer and a large enough array completes n widths on |
| Mat4.FullArrayEnd | src/main/java/edu/washington/biostr/sig/matfile/Matfile4Loader.java:227-402 | reading a full matrix ends within the buffer after its data |
| Mat4.TextArrayEnd | src/main/java/edu/washington/biostr/sig/matfile/Matfile4Loader.java:173-212 | reading a text matrix ends within the buffer after its data |
| Mat4.MatrixAt | src/main/java/edu/washington/biostr/sig/matfile/Matfile4Loader.java:117-164 | a matrix is the entry at the position followed by a full or text array, ending after it; a header failure is passed on, and a sparse or unknown type throws Unsupported |
| Mat4.RealColumn | src/main/java/edu/washington/biostr/sig/matfile/Matfile4Loader.java:377-384 | one column of the real loop stores the next rows bytes in order, or throws what the whole loop throws |
| Mat4.FillReal | src/main/java/edu/washington/biostr/sig/matfile/Matfile4Loader.java:375-385 | the real loop stores the file's bytes in column-major order into the data array, ending where the loop's layout says, or throws the layout's exception |
| Mat4.ImagColumn | src/main/java/edu/washington/biostr/sig/matfile/Matfile4Loader.java:389-396 | one column of the imaginary loop stores the next rows bytes in order, or throws what the whole loop throws |
| Mat4.FillImag | src/main/java/edu/washington/biostr/sig/matfile/Matfile4Loader.java:387-397 | the imaginary loop stores the following bytes in column-major order into the imaginary array, or throws the layout's exception |
| Mat4.ReadEntry | src/main/java/edu/washington/biostr/sig/matfile/Matfile4Loader.java:123-142 | the header ints and the name read one byte at a time give exactly the entry at the position |
| Mat4.StoredFilled | src/main/java/edu/washington/biostr/sig/matfile/Matfile4Loader.java:375-397 | over a zeroed array, the bytes stored by the loop are the filled array |
| Mat4.ReadU8 | src/main/java/edu/washington/biostr/sig/matfile/Matfile4Loader.java:371-399 | reading a uint8 matrix fails exactly when its layout fails, with the same exception; otherwise a fresh MatIntU8 of the header's name and extents holds the file's bytes, real then imaginary |
| Mat4.U8ElementFromFile | src/main/java/edu/washington/biostr/sig/matfile/Matfile4Loader.java:375-385 | in a uint8 matrix read from the file, element (j, i) is the file byte j + rows * i after the name |
| Mat4.Matfile4Loader.constructor | src/main/java/edu/washington/biostr/sig/matfile/Matfile4Loader.java:63-66 | after the byte order is chosen, reading starts at the first byte |
| Mat4.Matfile4Loader.LoadNext | src/main/java/edu/washington/biostr/sig/matfile/Matfile4Loader.java:117-164 | nothing when 20 bytes or fewer are left; otherwise the matrix at the position, a MatIntU8 for a full uint8 matrix and by name and class otherwise, or its exception; the position moves past the matrix only on success |
| Mat4.Open | src/main/java/edu/washington/biostr/sig/matfile/Matfile4Loader.java:63-66 | the loader is built exactly when the byte order can be chosen, in that order, at position 0 |
| Mat5.IndicatorGivesOrder | src/main/java/edu/washington/biostr/sig/matfile/Matfile5Loader.java:112-123 | the indicator a writer stores as ('M' << 8) \| 'I' in its byte order selects exactly that order, whatever order the buffer started with |
| Mat5.ReadHeader | src/main/java/edu/washington/biostr/sig/matfile/Matfile5Loader.java:96-124 | the header is read exactly when the buffer holds its 128 bytes; the description is the first 116 bytes; "MI" selects big-endian and "IM" little-endian |
| Mat5.ReadTag | src/main/java/edu/washington/biostr/sig/matfile/Matfile5Loader.java:187-210 | as written: a tag fails only on underflow; it is small (4 bytes) exactly when its first int exceeds 0xFFFF, and a full tag's type is that int |
| Mat5.ReadFullTag | src/main/java/edu/washington/biostr/sig/matfile/Matfile5Loader.java:199-206 | a first int of at most 0xFFFF gives a full 8-byte tag of the two ints |
| Mat5.FullTagRoundTrip | src/main/java/edu/washington/biostr/sig/matfile/Matfile5Loader.java:187-210 | a full tag written as type then size reads back as itself |
| Mat5.ReadSmallTag | src/main/java/edu/washington/biostr/sig/matfile/Matfile5Loader.java:199-204 | a first int above 0xFFFF gives a 4-byte tag of the two shorts read in the buffer's order |
| Mat5.SmallTagAsWritten | src/main/java/edu/washington/biostr/sig/matfile/Matfile5Loader.java:199-204 | as written, a small tag reads back correctly from a little-endian file, but from a big-endian file its type and size come out swapped |
| Mat5.SmallTagNameTruncated | src/main/java/edu/washington/biostr/sig/matfile/Matfile5Loader.java:199-204 | a two-character name stored as a small miINT8 element of a big-endian file is read as one miUINT8 byte |
| Mat5.ReadTagIntended | src/main/java/edu/washington/biostr/sig/matfile/Matfile5Loader.java:187-210 | the corrected reading fails exactly when the original does, agrees on full tags and keeps the tag size |
| Mat5.SmallTagIntended | src/main/java/edu/washington/biostr/sig/matfile/Matfile5Loader.java:187-210 | the corrected reading gives back the type and size of a small tag in both byte orders |
| Mat5.Value | src/main/java/edu/washington/biostr/sig/matfile/Matfile5Loader.java:547-628 | one element decoded from its bytes lies in the range of the Java array its type is read into |
| Mat5.Element | src/main/java/edu/washington/biostr/sig/matfile/Matfile5Loader.java:547-628 | every element read lies in the range of its Java array |
| Mat5.Run | src/main/java/edu/washington/biostr/sig/matfile/Matfile5Loader.java:547-628 | a run of n elements has n values, each in its array's range |
| Mat5.Padding | src/main/java/edu/washington/biostr/sig/matfile/Matfile5Loader.java:543 | the padding after an element's data is between 0 and 7 bytes |
| Mat5.PaddingAligns | src/main/java/edu/washington/biostr/sig/matfile/Matfile5Loader.java:543 | tag, data and padding together end on a multiple of 8 bytes |
| Mat5.ReadDataOf | src/main/java/edu/washington/biostr/sig/matfile/Matfile5Loader.java:535-638 | an unknown type yields no array; a known one yields an array of its type's kind, each element in range, ending within the buffer |
| Mat5.ReadKnown | src/main/java/edu/washington/biostr/sig/matfile/Matfile5Loader.java:547-636 | reading a known type yields its array, each element in range, ending within the buffer |
| Mat5.ReadDataContents | src/main/java/edu/washington/biostr/sig/matfile/Matfile5Loader.java:535-638 | an unknown type leaves the position unchanged; a known one yields byteSize / width elements, element j decoded from the j-th group of bytes |
| Mat5.ReadDataSucceeds | src/main/java/edu/washington/biostr/sig/matfile/Matfile5Loader.java:535-638 | reading a known type succeeds exactly when the element count is not negative and the data and its padding lie within the buffer |
| Mat5.ReadDataAligned | src/main/java/edu/washington/biostr/sig/matfile/Matfile5Loader.java:535-638 | whole-element data ends right after the data and its padding, and tag, data and padding span a multiple of 8 bytes |
| Mat5.ReadRun | src/main/java/edu/washington/biostr/sig/matfile/Matfile5Loader.java:547-628 | the element loop reads exactly the run when the buffer holds it and otherwise underflows |
| Mat5.ReadData | src/main/java/edu/washington/biostr/sig/matfile/Matfile5Loader.java:535-638 | the loop-based readData gives exactly the value of its specification |
| Mat5.DecodeFlags | src/main/java/edu/washington/biostr/sig/matfile/Matfile5Loader.java:281-291 | the class is the low byte of the flags word |
| Mat5.FlagsRoundTrip | src/main/java/edu/washington/biostr/sig/matfile/Matfile5Loader.java:281-291 | decoding a flags word gives back the complex, global and logical bits and the class it was built from |
| Mat5.FlagsWord | src/main/java/edu/washington/biostr/sig/matfile/Matfile5Loader.java:281 | the flags word is read exactly when the flags element is a non-empty int array |
| Mat5.DimsOf | src/main/java/edu/washington/biostr/sig/matfile/Matfile5Loader.java:295 | the dimensions are the int array read, none when none was read; an array of another type throws |
| Mat5.NameOfData | src/main/java/edu/washington/biostr/sig/matfile/Matfile5Loader.java:300-308 | the name is read exactly from a char or byte array, one character per element, each a 16-bit character |
| Mat5.ReadElementOf | src/main/java/edu/washington/biostr/sig/matfile/Matfile5Loader.java:279-280 | a data element ends after its tag and within the buffer, its array typed by its tag |
| Mat5.ParseHead | src/main/java/edu/washington/biostr/sig/matfile/Matfile5Loader.java:278-308 | the flags, dimensions and name take at least 12 bytes and end within the buffer |
| Mat5.ParseImag | src/main/java/edu/washington/biostr/sig/matfile/Matfile5Loader.java:316-321 | the imaginary part is read only for a complex array; otherwise it is none with type -1 and nothing is consumed |
| Mat5.ParseArray | src/main/java/edu/washington/biostr/sig/matfile/Matfile5Loader.java:266-323 | an array element's parts are typed by their tags, it takes at least 16 bytes, and a real array has no imaginary part |
| Mat5.ReadElement | src/main/java/edu/washington/biostr/sig/matfile/Matfile5Loader.java:279-280 | reading a tag and its data gives exactly its specification |
| Mat5.ReadHead | src/main/java/edu/washington/biostr/sig/matfile/Matfile5Loader.java:278-308 | reading the flags, dimensions and name gives exactly its specification |
| Mat5.ReadImag | src/main/java/edu/washington/biostr/sig/matfile/Matfile5Loader.java:316-321 | reading the imaginary part gives exactly its specification |
| Mat5.ReadArray | src/main/java/edu/washington/biostr/sig/matfile/Matfile5Loader.java:266-323 | readArray, element after element, gives exactly its specification |
| Mat5Loader.RealReadsBack | src/main/java/edu/washington/biostr/sig/matfile/Matfile5Loader.java:390-423 | a uint8, uint16 or uint32 element of the real part lands in the container so that the unsigned readers give the file's value back |
| Mat5Loader.ImagWideningAsWritten | src/main/java/edu/washington/biostr/sig/matfile/Matfile5Loader.java:467-473 | as written, a uint8 imaginary element below 0x80 lands as its value plus 256, and a uint64 one as the largest int whatever its value |
| Mat5Loader.ImagArgIntended | src/main/java/edu/washington/biostr/sig/matfile/Matfile5Loader.java:443-517 | with the imaginary part widened like the real part, an unsigned imaginary element reads back as the file's value |
| Mat5Loader.RealSetters | src/main/java/edu/washington/biostr/sig/matfile/Matfile5Loader.java:366-438 | setArray makes one call per element of a copied real type, and none for any other type |
| Mat5Loader.ImagSetters | src/main/java/edu/washington/biostr/sig/matfile/Matfile5Loader.java:440-519 | setArray makes one call per imaginary element of a complex array of a copied type, and none for a real array |
| Mat5Loader.U8ElementReadsBack | src/main/java/edu/washington/biostr/sig/matfile/Matfile5Loader.java:390-396 | every byte of a uint8 element reads back through the intended getUByte, while getUByte as written reads the zero byte as 256 |
| Mat5Loader.SetArrayError | src/main/java/edu/washington/biostr/sig/matfile/Matfile5Loader.java:325-522 | when setArray throws nothing, the class has a container, the dimensions are present with a non-negative product, both parts fit it and no complex uint16 part is present; a class without a container throws Unsupported |
| Mat5Loader.PutU8 | src/main/java/edu/washington/biostr/sig/matfile/Matfile5Loader.java:366-438 | the real copying loop completes exactly when the calls fit the array, storing call k in slot k and leaving the other slots, and otherwise throws IndexOutOfBounds |
| Mat5Loader.PutU8Imag | src/main/java/edu/washington/biostr/sig/matfile/Matfile5Loader.java:440-519 | the imaginary copying loop stores call k in imaginary slot k, and throws IndexOutOfBounds exactly when the calls do not fit |
| Mat5Loader.PutU32 | src/main/java/edu/washington/biostr/sig/matfile/Matfile5Loader.java:366-438 | the real copying loop into a MatIntU32 stores call k in slot k, and throws IndexOutOfBounds exactly when the calls do not fit |
| Mat5Loader.PutU32Imag | src/main/java/edu/washington/biostr/sig/matfile/Matfile5Loader.java:440-519 | the imaginary copying loop into a MatIntU32 stores call k in slot k, and throws IndexOutOfBounds exactly when the calls do not fit |
| Mat5Loader.SetU8 | src/main/java/edu/washington/biostr/sig/matfile/Matfile5Loader.java:352-522 | a fresh MatIntU8 holding the element's name, dimensions and both parts, or exactly the fill's exception |
| Mat5Loader.SetU32 | src/main/java/edu/washington/biostr/sig/matfile/Matfile5Loader.java:361-522 | a fresh MatIntU32 holding the element's name, dimensions and both parts, or exactly the fill's exception |
| Mat5Loader.SetArray | src/main/java/edu/washington/biostr/sig/matfile/Matfile5Loader.java:325-522 | setArray throws exactly the exception its specification names; otherwise the variable has the element's name, a uint8 or uint32 container exactly for those classes, and the class otherwise |
| Mat5Loader.Zeros | src/main/java/edu/washington/biostr/sig/matfile/Matfile5Loader.java:220 | a fresh byte array of n zeros |
| Mat5Loader.ReadCount | src/main/java/edu/washington/biostr/sig/matfile/Matfile5Loader.java:230-245 | the reads of the `GZIPInputStream` that deliver bytes: none exactly when it delivers nothing, never more than the bytes it delivers |
| Mat5Loader.Decompress | src/main/java/edu/washington/biostr/sig/matfile/Matfile5Loader.java:215-257 | as written: a result holds the bytes the `GZIPInputStream` delivers, then zeros, and is `2 * byteSize` long plus `byteSize` for every read that delivered bytes; a length past the int range throws NegativeArraySize, and a stream that reads as corrupt throws IllegalArgument |
| Mat5Loader.DoubledSize | src/main/java/edu/washington/biostr/sig/matfile/Matfile5Loader.java:220 | the doubled array size wraps negative exactly when byteSize is 2^30 or more |
| Mat5Loader.DecompressIntended | src/main/java/edu/washington/biostr/sig/matfile/Matfile5Loader.java:215-257 | as intended: the whole inflated stream, exactly when the size is sound, the bytes are present and they inflate |
| Mat5Loader.DecompressStalls | src/main/java/edu/washington/biostr/sig/matfile/Matfile5Loader.java:230-245 | a stream that inflates to at least twice its compressed size makes the loop as written never return normally, where the intended reading returns it |
| Mat5Loader.InflatedMatrix | src/main/java/edu/washington/biostr/sig/matfile/Matfile5Loader.java:145-176 | an array read from the inflated bytes is well formed, and an element that is neither a matrix nor compressed throws IllegalArgument |
| Mat5Loader.MatrixTag | src/main/java/edu/washington/biostr/sig/matfile/Matfile5Loader.java:187-210 | a full miMATRIX tag takes 8 bytes |
| Mat5Loader.InflatedMatrixMisread | src/main/java/edu/washington/biostr/sig/matfile/Matfile5Loader.java:156-157 | as written, the inflated bytes of a little-endian file are read big-endian, so the leading miMATRIX tag reads as a small tag of type 0x0E00 and the element is rejected |
| Mat5Loader.InflatedMatrixRead | src/main/java/edu/washington/biostr/sig/matfile/Matfile5Loader.java:156-157 | read in the file's order, the leading miMATRIX tag reads back as itself |
| Mat5Loader.MatrixAt | src/main/java/edu/washington/biostr/sig/matfile/Matfile5Loader.java:145-176 | a located matrix is well formed and ends after the position, within the buffer |
| Mat5Loader.CompressedAt | src/main/java/edu/washington/biostr/sig/matfile/Matfile5Loader.java:156-157 | a compressed element's matrix is well formed and ends within the buffer |
| Mat5Loader.ReadInflated | src/main/java/edu/washington/biostr/sig/matfile/Matfile5Loader.java:145-176 | process on the inflated bytes gives exactly its specification |
| Mat5Loader.ReadCompressed | src/main/java/edu/washington/biostr/sig/matfile/Matfile5Loader.java:156-157 | a compressed element is decompressed and processed exactly as specified |
| Mat5Loader.LocateMatrix | src/main/java/edu/washington/biostr/sig/matfile/Matfile5Loader.java:145-176 | process up to setArray gives exactly its specification |
| Mat5Loader.Process | src/main/java/edu/washington/biostr/sig/matfile/Matfile5Loader.java:145-176 | process fails with the locating exception or setArray's; otherwise the variable has the element's name and the next element starts after it |
| Mat5Loader.Matfile5Loader.constructor | src/main/java/edu/washington/biostr/sig/matfile/Matfile5Loader.java:85-89 | the loader keeps the header's description, version and order and starts after the 128-byte header |
| Mat5Loader.Matfile5Loader.LoadNext | src/main/java/edu/washington/biostr/sig/matfile/Matfile5Loader.java:133-143 | nothing once the position reaches the end; otherwise a variable or an exception, the variable named as the element and the position moved past it, and unchanged on an exception |
| Mat5Loader.Open | src/main/java/edu/washington/biostr/sig/matfile/Matfile5Loader.java:85-124 | the loader is built exactly when the 128-byte header is present, taking its order, version and description, at position 128 |
| MatContainers.Slot | src/main/java/edu/washington/biostr/sig/matfile/MatVar.java:204-213 | a slot selected by getIndex (wrapped to a Java int) lies within the data array; any other position throws IndexOutOfBounds |
| MatContainers.SlotInRange | src/main/java/edu/washington/biostr/sig/matfile/MatVar.java:204-213 | a full subscript list within the extents selects its column-major position, inside an array of the extents' size (which, as a Java array length, is at most 2^31 - 1) |
| MatContainers.ToByteLowByte | src/main/java/edu/washington/biostr/sig/matfile/MatIntU8.java:196-200 | narrowing to a byte depends only on the low byte |
| MatContainers.ByteOfLong | src/main/java/edu/washington/biostr/sig/matfile/MatIntU8.java:196-200 | what setLong stores is the low byte of the value |
| MatContainers.UByteOf | src/main/java/edu/washington/biostr/sig/matfile/MatIntU8.java:65-80 | getUByte as written gives a value of 1..256 whose low byte is the stored byte |
| MatContainers.UByteIntended | src/main/java/edu/washington/biostr/sig/matfile/MatIntU8.java:65-80 | getUByte as intended gives a value of 0..255 whose low byte is the stored byte |
| MatContainers.UByteDiffersAtZero | src/main/java/edu/washington/biostr/sig/matfile/MatIntU8.java:65-80 | the two readings of a byte agree exactly when the byte is not zero |
| MatContainers.UByteRoundTrip | src/main/java/edu/washington/biostr/sig/matfile/MatIntU8.java:65-80 | a value of 0..255 stored by setLong reads back through the intended getUByte, while as written 0 reads as 256 |
| MatContainers.UIntOf | src/main/java/edu/washington/biostr/sig/matfile/MatIntU32.java:74-89 | getUInt as written gives a value of 1..2^32 whose low 32 bits are the stored int |
| MatContainers.UIntIntended | src/main/java/edu/washington/biostr/sig/matfile/MatIntU32.java:74-89 | getUInt as intended gives a value of 0..2^32-1 whose low 32 bits are the stored int |
| MatContainers.UIntRoundTrip | src/main/java/edu/washington/biostr/sig/matfile/MatIntU32.java:74-89 | a value of 0..2^32-1 stored by setLong reads back through the intended getUInt, while as written 0 reads as 2^32 |
| MatContainers.MatIntU8.constructor | src/main/java/edu/washington/biostr/sig/matfile/MatIntU8.java:43-56 | fresh zeroed arrays of the extents' product in Java int arithmetic, the imaginary one only when asked for |
| MatContainers.MatIntU8.Type | src/main/java/edu/washington/biostr/sig/matfile/MatIntU8.java:163-166 | the type code is an unsigned one with 1-byte elements |
| MatContainers.MatIntU8.GetUByte | src/main/java/edu/washington/biostr/sig/matfile/MatIntU8.java:65-90 | getUByte succeeds exactly on a subscript that selects a slot, giving a value of 1..256 with the stored byte as its low byte, and otherwise throws IndexOutOfBounds |
| MatContainers.MatIntU8.GetUByteIntended | src/main/java/edu/washington/biostr/sig/matfile/MatIntU8.java:65-80 | the intended getUByte succeeds exactly on a subscript that selects a slot, giving 0..255 with the stored byte as its low byte |
| MatContainers.MatIntU8.GetImag | src/main/java/edu/washington/biostr/sig/matfile/MatIntU8.java:92-107 | getImag throws without an imaginary array; otherwise it succeeds exactly on a subscript that selects a slot, giving 1..256 with the stored byte as its low byte |
| MatContainers.MatIntU8.GetImaginary | src/main/java/edu/washington/biostr/sig/matfile/MatIntU8.java:114-124 | getImaginary is 0 without an imaginary array and getImag otherwise |
| MatContainers.MatIntU8.PutAll | src/main/java/edu/washington/biostr/sig/matfile/MatIntU8.java:168-171 | the given array itself becomes the data; the imaginary array is unchanged |
| MatContainers.MatIntU8.PutAllImage | src/main/java/edu/washington/biostr/sig/matfile/MatIntU8.java:173-176 | the given array itself becomes the imaginary data; the data is unchanged |
| MatContainers.MatIntU8.PutValue | src/main/java/edu/washington/biostr/sig/matfile/MatIntU8.java:178-182 | putValue stores the byte in the selected slot and nothing else, or throws IndexOutOfBounds and changes nothing |
| MatContainers.MatIntU8.PutImagValue | src/main/java/edu/washington/biostr/sig/matfile/MatIntU8.java:184-188 | putImagValue stores the byte in the selected imaginary slot and nothing else, or throws and changes nothing |
| MatContainers.MatIntU8.SetLong | src/main/java/edu/washington/biostr/sig/matfile/MatIntU8.java:196-200 | setLong stores the value's low byte at the position and nothing else, or throws IndexOutOfBounds and changes nothing |
| MatContainers.MatIntU8.SetDouble | src/main/java/edu/washington/biostr/sig/matfile/MatIntU8.java:190-194 | setDouble stores the low byte of the truncated value at the position, or throws IndexOutOfBounds |
| MatContainers.MatIntU8.SetLongImag | src/main/java/edu/washington/biostr/sig/matfile/MatIntU8.java:208-212 | setLongImag stores the value's low byte at the imaginary position, or throws |
| MatContainers.MatIntU8.SetDoubleImag | src/main/java/edu/washington/biostr/sig/matfile/MatIntU8.java:202-206 | setDoubleImag stores the low byte of the truncated value at the imaginary position, or throws |
| MatContainers.MatIntU32.constructor | src/main/java/edu/washington/biostr/sig/matfile/MatIntU32.java:52-65 | fresh zeroed int arrays of the extents' product, the imaginary one only when asked for |
| MatContainers.MatIntU32.Type | src/main/java/edu/washington/biostr/sig/matfile/MatIntU32.java:190-193 | as written, the type code is one whose elements are 2 bytes wide, though the storage is ints |
| MatContainers.MatIntU32.TypeIntended | src/main/java/edu/washington/biostr/sig/matfile/MatIntU32.java:190-193 | as intended, an unsigned code with 4-byte elements, matching the int storage |
| MatContainers.MatIntU32.GetUInt | src/main/java/edu/washington/biostr/sig/matfile/MatIntU32.java:74-89 | getUInt succeeds exactly on a subscript that selects a slot, giving 1..2^32 with the stored int as its low 32 bits, and otherwise throws IndexOutOfBounds |
| MatContainers.MatIntU32.GetUIntIntended | src/main/java/edu/washington/biostr/sig/matfile/MatIntU32.java:74-89 | the intended getUInt succeeds exactly on a subscript that selects a slot, giving 0..2^32-1 with the stored int as its low 32 bits |
| MatContainers.MatIntU32.GetImag | src/main/java/edu/washington/biostr/sig/matfile/MatIntU32.java:108-123 | getImag throws without an imaginary array; otherwise it succeeds exactly on a subscript that selects a slot, giving 1..2^32 |
| MatContainers.MatIntU32.GetImaginary | src/main/java/edu/washington/biostr/sig/matfile/MatIntU32.java:141-151 | getImaginary is 0 without an imaginary array and getImag otherwise |
| MatContainers.MatIntU32.PutAll | src/main/java/edu/washington/biostr/sig/matfile/MatIntU32.java:195-198 | the given array itself becomes the data; the imaginary array is unchanged |
| MatContainers.MatIntU32.PutAllImage | src/main/java/edu/washington/biostr/sig/matfile/MatIntU32.java:200-203 | the given array itself becomes the imaginary data; the data is unchanged |
| MatContainers.MatIntU32.PutValue | src/main/java/edu/washington/biostr/sig/matfile/MatIntU32.java:205-209 | putValue stores the short, sign-extended, in the selected slot and nothing else, or throws and changes nothing |
| MatContainers.MatIntU32.PutImagValue | src/main/java/edu/washington/biostr/sig/matfile/MatIntU32.java:211-215 | putImagValue stores the short, sign-extended, in the selected imaginary slot, or throws and changes nothing |
| MatContainers.MatIntU32.SetLong | src/main/java/edu/washington/biostr/sig/matfile/MatIntU32.java:222-225 | setLong stores the value's low 32 bits at the position and nothing else, or throws IndexOutOfBounds |
| MatContainers.MatIntU32.SetDouble | src/main/java/edu/washington/biostr/sig/matfile/MatIntU32.java:217-220 | setDouble stores the truncated value at the position, or throws IndexOutOfBounds |
| MatContainers.MatIntU32.SetLongImag | src/main/java/edu/washington/biostr/sig/matfile/MatIntU32.java:232-235 | setLongImag stores the value's low 32 bits at the imaginary position, or throws |
| MatContainers.MatIntU32.SetDoubleImag | src/main/java/edu/washington/biostr/sig/matfile/MatIntU32.java:227-230 | setDoubleImag stores the truncated value at the imaginary position, or throws |
| MatVars.GetIndex | src/main/java/edu/washington/biostr/sig/matfile/MatVar.java:204-213 | getIndex throws IndexOutOfBounds exactly for an empty subscript list or one more than an extent longer than the extents; otherwise it is the column-major position narrowed to a Java int, `(int) (index[0] + index[1]*dim[0])` for two subscripts |
| MatVars.Index | src/main/java/edu/washington/biostr/sig/matfile/MatVar.java:204-213 | the position getIndex gives is a Java int congruent to the column-major position modulo 2^32, and fails exactly for an empty subscript list or one more than an extent longer than the extents |
| MatVars.IndexWraps | src/main/java/edu/washington/biostr/sig/matfile/MatVar.java:204-213 | subscripts are not checked against their extents, so in a 2 x 2 variable (2, 2147483647) wraps around to slot 0 |
| MatVars.DataSize | src/main/java/edu/washington/biostr/sig/matfile/MatIntU8.java:46-51 | the constructors' size loop gives the product of the extents narrowed to a Java int |
| MatVars.ColumnMajorBounds | src/main/java/edu/washington/biostr/sig/matfile/MatVar.java:204-213 | subscripts within their extents address a position from 0 up to the product of the extents used |
| MatVars.ColumnMajorInjective | src/main/java/edu/washington/biostr/sig/matfile/MatVar.java:204-213 | two subscript lists within the extents that address the same position are equal |
| MatVars.ProductNonNegative | src/main/java/edu/washington/biostr/sig/matfile/MatIntU8.java:46-51 | non-negative extents have a non-negative product |
| MatLoader.LevelOf | src/main/java/edu/washington/biostr/sig/matfile/MatfileLoader.java:60-85 | four bytes are needed; a zero byte among them means level 4, otherwise level 5 |
| MatLoader.CheckLevel | src/main/java/edu/washington/biostr/sig/matfile/MatfileLoader.java:60-71 | the loop over the first four bytes gives exactly the level, or underflows on a shorter buffer |
| MatLoader.Level4Recognised | src/main/java/edu/washington/biostr/sig/matfile/MatfileLoader.java:60-71 | every level 4 file, whose MOPT is at most 4052, is recognised in either byte order |
| MatLoader.Next4 | src/main/java/edu/washington/biostr/sig/matfile/MatfileLoader.java:110-113 | a level 4 loader moves on exactly when it reads a variable and reports the end exactly when 20 bytes or fewer are left |
| MatLoader.Next5 | src/main/java/edu/washington/biostr/sig/matfile/MatfileLoader.java:110-113 | a level 5 loader moves on exactly when it reads a variable and reports the end exactly when nothing is left |
| MatLoader.MatfileLoader.constructor | src/main/java/edu/washington/biostr/sig/matfile/MatfileLoader.java:50-58 | the loader starts with no variables read |
| MatLoader.MatfileLoader.GetNext | src/main/java/edu/washington/biostr/sig/matfile/MatfileLoader.java:99-108 | a variable read is recorded under its name and moves the reading on; a failure or the end changes nothing; the end is reported exactly when the level's loader is used up |
| MatLoader.MatfileLoader.Get | src/main/java/edu/washington/biostr/sig/matfile/MatfileLoader.java:115-124 | a name already read is returned without reading; otherwise reading goes on until the name turns up, and nothing is returned only when the file is used up without it; no name read is lost |
| MatLoader.MatfileLoader.FillVariables | src/main/java/edu/washington/biostr/sig/matfile/MatfileLoader.java:88-93 | reading every remaining variable keeps all names read and, unless an exception stops it, leaves the file used up |
| MatLoader.MatfileLoader.GetNames | src/main/java/edu/washington/biostr/sig/matfile/MatfileLoader.java:126-137 | the names read so far, each exactly once |
| MatLoader.Open | src/main/java/edu/washington/biostr/sig/matfile/MatfileLoader.java:50-85 | opening fails exactly when fewer than four bytes are present, a level 4 file's byte order cannot be chosen, or a level 5 header is short; otherwise the loader of the detected level reads the whole buffer from its start |
| SimpleOff.WriteInt | src/main/java/edu/washington/biostr/sig/volume/surface/SimpleOff.java:216-221 | writeInt puts out four bytes |
| SimpleOff.WriteIntBigEndian | src/main/java/edu/washington/biostr/sig/volume/surface/SimpleOff.java:216-221 | the four bytes are the int's 32 bits, most significant byte first |
| SimpleOff.Read | src/main/java/edu/washington/biostr/sig/volume/surface/SimpleOff.java:223-230 | a read gives a byte value 0..255, and -1 exactly at the end of the stream |
| SimpleOff.ReadInt | src/main/java/edu/washington/biostr/sig/volume/surface/SimpleOff.java:223-230 | readInt moves four bytes on, or to the end of a shorter stream |
| SimpleOff.Signed | src/main/java/edu/washington/biostr/sig/volume/surface/SimpleOff.java:223-230 | the OR of the four shifted bytes is the 32-bit pattern read as a signed int |
| SimpleOff.ReadIntWhole | src/main/java/edu/washington/biostr/sig/volume/surface/SimpleOff.java:223-230 | where four bytes are left, readInt is the big-endian int they hold |
| SimpleOff.ReadIntPastEnd | src/main/java/edu/washington/biostr/sig/volume/surface/SimpleOff.java:223-230 | with fewer than four bytes left, readInt gives -1, the same as a stored -1, so a short file goes unnoticed |
| SimpleOff.ReadIntAt | src/main/java/edu/washington/biostr/sig/volume/surface/SimpleOff.java:216-230 | four bytes that writeInt wrote read back as the same int |
| SimpleOff.ReadWriteInt | src/main/java/edu/washington/biostr/sig/volume/surface/SimpleOff.java:216-230 | an int written by writeInt reads back by readInt whatever comes before and after it |
| SimpleOff.NaNFields | src/main/java/edu/washington/biostr/sig/volume/surface/SimpleOff.java:190-203 | a NaN bit pattern is one whose eight exponent bits are all set and whose fraction is not zero |
| SimpleOff.FloatToIntBits | src/main/java/edu/washington/biostr/sig/volume/surface/SimpleOff.java:190-203 | floatToIntBits keeps every pattern that is not a NaN and collapses every NaN to the canonical one |
| SimpleOff.FloatToIntBitsTwice | src/main/java/edu/washington/biostr/sig/volume/surface/SimpleOff.java:190-203 | collapsing NaNs twice is collapsing them once |
| SimpleOff.Ascii | src/main/java/edu/washington/biostr/sig/volume/surface/SimpleOff.java:182 | an ASCII string encodes to one byte per character, its code |
| SimpleOff.HeaderText | src/main/java/edu/washington/biostr/sig/volume/surface/SimpleOff.java:174-181 | the header line is "OFF BINARY\n" with one more character for normals and one for colours, all ASCII |
| SimpleOff.Header | src/main/java/edu/washington/biostr/sig/volume/surface/SimpleOff.java:182 | the header bytes are as many as the header line's characters |
| SimpleOff.Words | src/main/java/edu/washington/biostr/sig/volume/surface/SimpleOff.java:183-211 | a run of ints takes four bytes each |
| SimpleOff.WordsAt | src/main/java/edu/washington/biostr/sig/volume/surface/SimpleOff.java:183-211 | int k of a run sits in bytes 4k to 4k+4 as writeInt wrote it |
| SimpleOff.ReadWords | src/main/java/edu/washington/biostr/sig/volume/surface/SimpleOff.java:183-230 | int k of ints written after any prefix reads back 4k bytes past it |
| SimpleOff.WordsAppend | src/main/java/edu/washington/biostr/sig/volume/surface/SimpleOff.java:183-211 | writing two runs of ints one after the other is writing them as one run |
| SimpleOff.VertexRecord | src/main/java/edu/washington/biostr/sig/volume/surface/SimpleOff.java:189-204 | a vertex record has 3 ints, plus 3 with normals, plus 4 with colours |
| SimpleOff.NormalPart | src/main/java/edu/washington/biostr/sig/volume/surface/SimpleOff.java:193-197 | the normal part has 3 ints with normals and none without |
| SimpleOff.Triple | src/main/java/edu/washington/biostr/sig/volume/surface/SimpleOff.java:190-192 | a triple is the floatToIntBits of three consecutive floats, in order |
| SimpleOff.RecordsSpanProduct | src/main/java/edu/washington/biostr/sig/volume/surface/SimpleOff.java:189-204 | n vertex records span n times the record length |
| SimpleOff.VertexRecordsLength | src/main/java/edu/washington/biostr/sig/volume/surface/SimpleOff.java:189-204 | the records of n vertices span n records' ints |
| SimpleOff.FaceRecords | src/main/java/edu/washington/biostr/sig/volume/surface/SimpleOff.java:205-211 | the records of n triangles take 5 ints each |
| SimpleOff.OffInts | src/main/java/edu/washington/biostr/sig/volume/surface/SimpleOff.java:184-211 | after the header come 3 counts, the vertex records and 5 ints per triangle |
| SimpleOff.OffBytes | src/main/java/edu/washington/biostr/sig/volume/surface/SimpleOff.java:173-214 | what saveOff writes is the header followed by four bytes per int |
| SimpleOff.Optional | src/main/java/edu/washington/biostr/sig/volume/surface/SimpleOff.java:174-175 | an optional array is present exactly when the surface has it, with its contents |
| SimpleOff.GetTriple | src/main/java/edu/washington/biostr/sig/volume/surface/SimpleOff.java:190-192 | the three floatToIntBits calls give the triple |
| SimpleOff.PutVertices | src/main/java/edu/washington/biostr/sig/volume/surface/SimpleOff.java:189-204 | the vertex loop completes exactly when the points are whole vertices and the normals and colours reach as far, handing over the vertex records; otherwise it throws IndexOutOfBounds |
| SimpleOff.PutFaces | src/main/java/edu/washington/biostr/sig/volume/surface/SimpleOff.java:205-211 | the face loop completes exactly when the corners are whole triangles, handing over the triangle records; otherwise it throws IndexOutOfBounds |
| SimpleOff.SaveOff | src/main/java/edu/washington/biostr/sig/volume/surface/SimpleOff.java:173-214 | saveOff completes exactly when the surface's arrays can be read to the end, writing exactly the OFF bytes; whether or not it completes, the header and the three counts are written first |
| SimpleOff.BinaryHead | src/main/java/edu/washington/biostr/sig/volume/surface/SimpleOff.java:51 | "OFF BINARY" after at most two characters that are not line breaks matches readOff's binary header pattern |
| SimpleOff.HeaderFlags | src/main/java/edu/washington/biostr/sig/volume/surface/SimpleOff.java:51-53 | the header line saveOff writes ends in a line feed, matches readOff's binary pattern, and gives back its flags: colours exactly when it starts with C, normals exactly when N is its first or second character |
| SimpleOff.FaceRecordAt | src/main/java/edu/washington/biostr/sig/volume/surface/SimpleOff.java:205-211 | triangle t's record sits 5t ints into the triangle records |
| SimpleOff.VertexRecordsPrefix | src/main/java/edu/washington/biostr/sig/volume/surface/SimpleOff.java:189-204 | the records of fewer vertices begin the records of more |
| SimpleOff.VertexRecordAt | src/main/java/edu/washington/biostr/sig/volume/surface/SimpleOff.java:189-204 | vertex v's record follows the records of the vertices before it |
| SimpleOff.OffRead | src/main/java/edu/washington/biostr/sig/volume/surface/SimpleOff.java:54-56 | readInt reads every int saveOff wrote after the header back from its place |
| SimpleOff.CountsAt | src/main/java/edu/washington/biostr/sig/volume/surface/SimpleOff.java:184-186 | after the header come the vertex count, the triangle count and an edge count of 0 |
| SimpleOff.VertexAt | src/main/java/edu/washington/biostr/sig/volume/surface/SimpleOff.java:189-204 | int j of vertex v's record sits after the three counts and the records before it |
| SimpleOff.VertexField | src/main/java/edu/washington/biostr/sig/volume/surface/SimpleOff.java:189-204 | int j of vertex v's record is the bits of its coordinate, normal or colour component, in that order, with the colour's alpha of 1 last |
| SimpleOff.FaceAt | src/main/java/edu/washington/biostr/sig/volume/surface/SimpleOff.java:205-211 | triangle t is written as a corner count of 3, its three corners and a colour count of 0, after the vertex records |
| Surfaces.Partner | src/main/java/edu/washington/biostr/sig/volume/surface/Surface.java:69-73 | the slot a corner is swapped with stays in its triangle and is the mirror slot (first and third swap, second stays) |
| Surfaces.Rewound | src/main/java/edu/washington/biostr/sig/volume/surface/Surface.java:69-73 | rewinding keeps the number of corners |
| Surfaces.RewoundTriangle | src/main/java/edu/washington/biostr/sig/volume/surface/Surface.java:69-73 | in every whole triangle the first and third corners trade places and the second is kept |
| Surfaces.RewoundTail | src/main/java/edu/washington/biostr/sig/volume/surface/Surface.java:69-73 | corners of an incomplete last triangle are left as they were |
| Surfaces.RewoundTwice | src/main/java/edu/washington/biostr/sig/volume/surface/Surface.java:64-74 | rewinding twice gives back the original faces, so rewinding undoes a wrong winding |
| Surfaces.Validation | src/main/java/edu/washington/biostr/sig/volume/surface/Surface.java:204-216 | validation passes exactly when the face count is a positive multiple of 3, normals (if any) match the points in length, and every corner lies in [0, points.length); any failure is an IllegalArgumentException |
| Surfaces.ValidationIntended | src/main/java/edu/washington/biostr/sig/volume/surface/Surface.java:211-215 | the corrected range test: a pass guarantees every corner names a vertex whose three coordinates exist |
| Surfaces.VertexAt | src/main/java/edu/washington/biostr/sig/volume/surface/Surface.java:134-142 | a vertex exists exactly when its three coordinates lie inside the float array |
| Surfaces.ValidationAdmitsMissingVertex | src/main/java/edu/washington/biostr/sig/volume/surface/Surface.java:211-215 | faces [0,1,2] over three floats pass validation though vertices 1 and 2 do not exist |
| Surfaces.ValidatedCornersExist | src/main/java/edu/washington/biostr/sig/volume/surface/Surface.java:204-216 | under the corrected test every corner's vertex exists, and the corrected test is stricter than the written one |
| Surfaces.RewoundValidation | src/main/java/edu/washington/biostr/sig/volume/surface/Surface.java:68-74 | rewinding does not change whether the surface validates |
| Surfaces.AddFace | src/main/java/edu/washington/biostr/sig/volume/surface/Surface.java:87-108 | adding one face's normal keeps the accumulator's length |
| Surfaces.Accumulated | src/main/java/edu/washington/biostr/sig/volume/surface/Surface.java:87-108 | the accumulated normals have one float per point float |
| Surfaces.UncoveredZero | src/main/java/edu/washington/biostr/sig/volume/surface/Surface.java:83-108 | a float that no corner of the first faces touches stays 0 |
| Surfaces.UncoveredStep | src/main/java/edu/washington/biostr/sig/volume/surface/Surface.java:87-108 | a face none of whose corners touch a float leaves that float unchanged |
| Surfaces.Normalized | src/main/java/edu/washington/biostr/sig/volume/surface/Surface.java:111-119 | normalising the first v vertices leaves the floats after them unchanged |
| Surfaces.Surface.constructor | src/main/java/edu/washington/biostr/sig/volume/surface/Surface.java:28-33 | the surface keeps the given faces, points, normals and colors |
| Surfaces.Surface.WithoutColors | src/main/java/edu/washington/biostr/sig/volume/surface/Surface.java:24-26 | the three-argument constructor: the given arrays and no colors |
| Surfaces.Surface.RewindFaces | src/main/java/edu/washington/biostr/sig/volume/surface/Surface.java:68-74 | the faces become their rewound order; an incomplete last triangle makes the loop run off the array (IndexOutOfBounds) after every whole triangle was rewound |
| Surfaces.Surface.Validate | src/main/java/edu/washington/biostr/sig/volume/surface/Surface.java:204-216 | validate throws exactly when the validation function says so, reading the arrays' lengths |
| Surfaces.Surface.GetFace | src/main/java/edu/washington/biostr/sig/volume/surface/Surface.java:123-132 | the three corners of face faceIndex are copied into rv (a new array when rv is null); a face past the end or a short rv throws IndexOutOfBounds after copying the corners that fit; the index is computed with 32-bit wrap-around |
| Surfaces.Surface.SetColors | src/main/java/edu/washington/biostr/sig/volume/surface/Surface.java:48-50 | only the colors change |
| Surfaces.Surface.GetNormal | src/main/java/edu/washington/biostr/sig/volume/surface/Surface.java:39-46 | null normals throw NullPointerException; otherwise the vertex's normal when its three floats exist and IndexOutOfBounds otherwise |
| Surfaces.Surface.SetNormals | src/main/java/edu/washington/biostr/sig/volume/surface/Surface.java:144-146 | only the normals change |
| Surfaces.Surface.GetVertex | src/main/java/edu/washington/biostr/sig/volume/surface/Surface.java:134-142 | the vertex's three coordinates when they exist, IndexOutOfBounds otherwise |
| Surfaces.Surface.MakeNormals | src/main/java/edu/washington/biostr/sig/volume/surface/Surface.java:81-121 | existing normals are kept; otherwise a fresh array as long as the points is installed and, when every face fits and both lengths are whole triangles, holds the normalised sum of the face normals at each vertex; a corner out of range or a partial triangle throws |
| Surfaces.Surface.AccumulateFaces | src/main/java/edu/washington/biostr/sig/volume/surface/Surface.java:87-108 | the first loop succeeds exactly when every face fits and leaves the accumulated face normals in the array |
| Surfaces.Surface.AddTriangle | src/main/java/edu/washington/biostr/sig/volume/surface/Surface.java:88-107 | one face's normal is added to its three corners when they fit, IndexOutOfBounds otherwise |
| Surfaces.Surface.NormalizeAll | src/main/java/edu/washington/biostr/sig/volume/surface/Surface.java:111-119 | every vertex's normal is divided by its length; a partial last vertex throws IndexOutOfBounds |
| Surfaces.Copied | src/main/java/edu/washington/biostr/sig/volume/surface/Surface.java:127-130 | getFace copies all three corners exactly when the face exists and rv has room for them |
| Surfaces.AccumulatedNext | src/main/java/edu/washington/biostr/sig/volume/surface/Surface.java:87-108 | one more pass of the loop extends the accumulation by the next face |
| Surfaces.Unfit | src/main/java/edu/washington/biostr/sig/volume/surface/Surface.java:87-108 | one face that does not fit makes the whole loop fail |
| Surfaces.AddNormal | src/main/java/edu/washington/biostr/sig/volume/surface/Surface.java:99-107 | the face normal is added at the three corners |
| Surfaces.AddInPlace | src/main/java/edu/washington/biostr/sig/volume/surface/Surface.java:99-101 | the normal's three components are added at one corner |

## Left out

- File and network I/O: URLs, files, gzip streams, `RandomAccessFile` and channels. The model reads from byte sequences, and `InputStream` is a class over a byte sequence.
- Floating point:
  - float and double values read from files are opaque bit patterns; the doubles `sign(long[])` computes are exact integers (see Signing.SignLongs below);
  - the surface's arithmetic (vector subtraction, cross product, add, square root, divide) is passed in as the `FloatOps` parameter;
  - `getDouble` values, scaling and interpolated reads (`getValueVoxels` beyond its dispatch) are not modelled;
  - the header's float fields (`vox_offset`, pixdim, srow) are stored and read as 32-bit words.
- Java `int` overflow:
  - the 5-D index formula of the volume arrays and the iterator is unbounded;
  - the atlas key search is unbounded too;
  - `getNumVoxels`, `getNumBytes`, `sample`, `getFace`, `getVertex`, `getNormal`, the MAT extents, the MAT `getIndex` and `write`'s lengths do wrap, like the source.
- `Surface.smooth` (neighbour averaging over doubles) is not modelled: it is floating-point only.
- `SimpleOff.readOff` beyond its header flags, and the text OFF reader and writer: the model covers the binary header, the face records, `writeInt`/`readInt` and the header flags.
- Surfaces.Surface.GetFace: requires `rv` not to be the faces array itself; the copy when the two alias is not modelled.
- Level 4 MAT-files:
  - only uint8 precision is read into a container;
  - the other precisions, and double or single matrices, come back as `OtherVar` (name and class);
  - their values are not stored.
- Level 5 MAT-files:
  - classes other than uint8 and uint32 (double, single, int8 to int64, uint16, uint64) become `OtherVar`;
  - their `setArray` exceptions follow the same shapes as the modelled containers.
- Level 5 compressed elements:
  - the `GZIPInputStream` over an element's bytes is a parameter: the bytes it delivers (or an IOException) and how many reads deliver them. Only gzip-framed data inflates; the zlib-framed data MATLAB writes makes the stream throw, which `deCompress` reports as IllegalArgument;
  - an miCOMPRESSED element nested inside inflated data is reported as `Unsupported` and not decompressed again.
- `MatVar.getDouble`/`getInt` through `getNumber`: numeric conversion of boxed `Number`s is not modelled; integer reads go through the containers' own getters.
- MatLoader.MatfileLoader.FillVariables: states only that the loader is exhausted on success and keeps every recorded name, not each variable's value.
- The header constructor's `offset` argument: `getMagic` copies into `result[offset..]`, so any offset other than 0 throws, and the model has offset 0 throughout.
- `ByteEncoder` is not part of this model: it is taken to write an int as four bytes in the header's byte order.
- Colour schemes other than `ColorScheme` itself (their `getARGB` overrides), and Swing/AWT colour classes, are not modelled.
- Variable names: `new String(byte[])` (Matfile4Loader.java:175 and 372, Matfile5Loader.java:304) decodes with the platform's default charset; the model keeps the name's bytes, one character per byte, which agrees with that decoding for ASCII names only.
- Mat4.Matfile4Loader.LoadNext: on an exception the model leaves `position` where the matrix started; the Java buffer has already moved past the header ints, name and elements it read before the throw, so a later call starts from there.
- Mat5Loader.Matfile5Loader.LoadNext: on an exception the model leaves `position` where the element started; the Java buffer has already moved past the tag and the sub-elements it read before the throw.
- NiftiFiles.NiftiFile.Sample: the result is the exact integer (or, for float data, the bit pattern) rather than the double Java returns, so a long above 2^53 is not rounded as in Java; a skip or read that delivers fewer bytes than the file holds is not modelled, the window takes every byte the file has.
- Volumes.IndexedVolumeArray.GetSeriesByVoxel: requires a non-negative region and a buffer with room for it; the generic loop's behaviour on a negative extent (no iterations) and on a short buffer (IndexOutOfBounds after the values that fit) is not stated.
- Volumes.IndexedVolumeArray.SetSeriesByVoxel: requires a non-negative region and a value per voxel; a short `values` array (IndexOutOfBounds at the first missing value) is not stated.
- Signing.SignLongs: stores each unsigned value exactly, where Java converts to a double and adds 2^64.0, rounding to 53 significant bits; values above 2^53 differ from the Java result by that rounding.
- Concurrency: the library's classes are not thread-safe, and the model is sequential.

## Findings

| source | as written | input that shows it | evidently intended | confidence | as-written member | corrected member |
|---|---|---|---|---|---|---|
| src/main/java/edu/washington/biostr/sig/matfile/Matfile5Loader.java:199-204 | a small data-element tag reads its type from the low short and its size from the high short whatever the byte order | a big-endian small tag of type 2 (miUINT8) and size 3 reads as type 3 and size 2 | type and size read from the halves the file's byte order puts them in | high, not executed | Mat5.SmallTagAsWritten | Mat5.SmallTagIntended |
| src/main/java/edu/washington/biostr/sig/matfile/Matfile5Loader.java:467-473 | the imaginary part of unsigned integer arrays is widened with the wrong mask | a uint8 imaginary element of 5 reads as 261 | widen the imaginary part exactly like the real part | high, not executed | Mat5Loader.ImagWideningAsWritten | Mat5Loader.ImagArgIntended |
| src/main/java/edu/washington/biostr/sig/matfile/Matfile5Loader.java:156-157 | the inflated bytes of a compressed element are read big-endian | any little-endian file with a gzip-framed compressed miMATRIX element | read the inflated bytes in the file's byte order | high, not executed | Mat5Loader.InflatedMatrixMisread | Mat5Loader.InflatedMatrixRead |
| src/main/java/edu/washington/biostr/sig/matfile/Matfile5Loader.java:230-245 | `deCompress` keeps calling `read` into a full buffer | a gzip-framed element that inflates to at least twice its compressed size | return the whole inflated stream | medium, not executed | Mat5Loader.DecompressStalls | Mat5Loader.DecompressIntended |
| src/main/java/edu/washington/biostr/sig/matfile/MatIntU8.java:65-80 | `getUByte` adds 256 to every byte that is not positive, 0 included | a stored 0 reads as 256 | 0..255, adding 256 only to negative bytes | high, not executed | MatContainers.UByteRoundTrip | MatContainers.UByteIntended |
| src/main/java/edu/washington/biostr/sig/matfile/MatIntU32.java:74-89 | `getUInt` adds 2^32 to every int that is not positive, 0 included | a stored 0 reads as 4294967296 | 0..2^32-1, adding 2^32 only to negative ints | high, not executed | MatContainers.UIntRoundTrip | MatContainers.UIntIntended |
| src/main/java/edu/washington/biostr/sig/matfile/MatIntU32.java:190-193 | `type()` returns the 16-bit unsigned type | any MatIntU32 | the 32-bit unsigned type | high, not executed | MatContainers.MatIntU32.Type | MatContainers.MatIntU32.TypeIntended |
| src/main/java/edu/washington/biostr/sig/matfile/Matfile4Loader.java:84-94 | a first int above 4052 read little-endian is re-read big-endian; one at or below 4052 must have M digit 0 | a big-endian double matrix, MOPT 1000 | choose the order whose reading of the first int has that order's M digit | high, not executed | Mat4.EndianRejectsDoubleMatrix | Mat4.EndianIntended |
| src/main/java/edu/washington/biostr/sig/nifti/AnalyzeNiftiSpmHeader.java:551-558 | RGB bytes are or-ed in without masking, so a negative byte smears ones into the higher channels | blue byte 0x80 | alpha 255 with each channel's unsigned byte | high, not executed | NiftiHeaders.AssembleRGBSignSmear | NiftiHeaders.AssembleRGBMasked |
| src/main/java/edu/washington/biostr/sig/nifti/AnalyzeNiftiSpmHeader.java:1409-1419 | the old transform puts pixdim[2] at index 3 | pixdim {1, 2, 3, 4} gives a zero y row | pixdim[1..3] on the diagonal | high, not executed | NiftiHeaders.OldTransLosesY | NiftiHeaders.OldTransDiagonal |
| src/main/java/edu/washington/biostr/sig/nifti/AnalyzeNiftiSpmHeader.java:302-305 | the blank header writes a NIFTI magic but keeps NIFTI version 0 | `new AnalyzeNiftiSpmHeader()` | the header records NIFTI version 1, as its buffer says | medium, not executed | NiftiHeaders.BlankHeaderNotNifti | NiftiHeaders.AnalyzeNiftiSpmHeader.ResetBufferAsNifti |
| src/main/java/edu/washington/biostr/sig/nifti/NiftiFile.java:216-228 | single-voxel `sample` adds vox_offset only in a single file, and never clamps it | voxel 0 of a header/image pair with vox_offset 16, or of a single file with vox_offset 0 | the bulk reader's skip: vox_offset raised to at least 0 in a pair and 348 in a single file | medium, not executed | NiftiFiles.SampleOffsetMisses | NiftiFiles.SampleOffsetAgrees |
| src/main/java/edu/washington/biostr/sig/nifti/NiftiFile.java:598-606 | UINT8 voxels are stored sign-extended into a short array | a voxel byte 200 is stored as -56 | the unsigned value, as `readNextInteger` gives | high, not executed | NiftiFiles.Uint8SignExtended | NiftiFiles.ElementIntendedIsReader |
| src/main/java/edu/washington/biostr/sig/volume/IndexedIterator.java:176-196 | `goPrev` at a row start steps back one index without undoing the row and slab skips | a box narrower than the volume, stepping back from the first voxel of the box's second row | the index stays the offset of the coordinates | high, not executed | Iterators.PrevStepLosesTrack | Iterators.PrevStepTrackedTracks |
| src/main/java/edu/washington/biostr/sig/volume/IndexedVolumeArray.java:76-78 | `iterator(i, ...)` starts from `getIndex(i - 1, ...)`, which is -1 for i = 0, and it drops i5 | i = 0 and j = 1 lands on index 0, the origin | start one index before the requested voxel's offset | high, not executed | Iterators.IteratorStartIndex | Iterators.IndexedIterator.Before |
| src/main/java/edu/washington/biostr/sig/volume/IndexedIterator.java:466-468 | `hasForward` holds while t is at most the last time step | t on the last time step | a later time step exists | high, not executed | Iterators.IndexedIterator.HasForwardAtLastStep | Iterators.IndexedIterator.HasForwardStep |
| src/main/java/edu/washington/biostr/sig/volume/VolumeArray.java:1327-1342 | the base `setSeries(double[])` passes x as the time coordinate; IndexedVolumeArray, the one subclass of VolumeArray here, overrides it (IndexedVolumeArray.java:285-303), so Int, Byte, UnsignedByte, RGB, Mirrored, Filtered and atlas arrays never reach it, and only a VolumeArray subclass that does not override it inherits the defect | a volume two voxels wide with one time step: the second value goes to t = 1 | write each value at its own voxel | high, not executed | Volumes.DoubleSeriesTargetThrows | Volumes.IndexedVolumeArray.SetSeriesByVoxel |
| src/main/java/edu/washington/biostr/sig/volume/surface/Surface.java:211-215 | `validate` compares corner indices with the number of floats, not of vertices | faces [0, 1, 2] over three floats | a corner below points.length / 3 | high, not executed | Surfaces.ValidationAdmitsMissingVertex | Surfaces.ValidationIntended |
