# CCorr core in Dafny

CCorr rebuilds one intact file from several damaged copies of it. Its core is the pipeline that runs:

1. **Chunk.** The file divider cuts each copy into parts of a clamped length.
2. **Checksum.** The CRC wrapper digests each part. A part made of one repeated byte is named `0xHH` instead of digested.
3. **Compare.** The comparison compares every pair of copies part by part. Each part where two copies disagree becomes a row. Each row holds one shared item per distinct checksum, and that item carries a mark. The comparison also counts differences per pair and derives a similarity matrix.
4. **Mark.** The good-parts marker holds a plurality vote per row. The most frequent checksum becomes GOOD, or UNSURE on a tie.
5. **Stitch.** The extractor takes, row by row, the first copy marked GOOD and builds contiguous byte ranges. The writer copies those ranges from cached input streams into one output file.

Each Java class of the core is one Dafny module, in its own file:

| file | module | models |
|---|---|---|
| `wrappers.dfy` | `Wrappers` | `Option`/`Result` and the Java exceptions the core throws |
| `java_io.dfy` | `JavaIo` | files, input and output streams (read, skip, close) as the core observes them |
| `crc.dfy` | `Crc` | `crc/CRC.java`, `crc/Buffer.java` |
| `algorithm_factory.dfy` | `AlgorithmFactory` | `CRCAlgorithmFactory.java` |
| `file_divider.dfy` | `Division` | `checksum/FileDivider.java` |
| `checksums.dfy` | `ChecksumList` | `Checksums.java` |
| `checksum_file.dfy` | `ChecksumData` | `checksum/ChecksumFile.java` |
| `checksums_calculator.dfy` | `Calculation` | `checksum/FileChecksumsCalculator.java` and the `EMPTY_DATA` sentinel |
| `checksum_files.dfy` | `FileSet` | `checksum/ChecksumFiles.java` |
| `mark.dfy` | `Marks` | `comparison/Mark.java` |
| `comparison_items.dfy` | `Items` | `comparison/ComparisonItem.java`, `comparison/ComparisonItems.java` |
| `number_of_differences.dfy` | `DifferenceCounts` | `comparison/NumberOfDifferences.java` |
| `similarity.dfy` | `SimilarityMatrix` | `comparison/Similarity.java` |
| `similarity_calculator.dfy` | `SimilarityCalc` | `comparison/SimilarityCalculator.java` |
| `comparison_scan.dfy` | `Scan` | the pairwise scan of `comparison/Comparison.java`, as specification functions |
| `comparison.dfy` | `Comparisons` | `comparison/Comparison.java` |
| `good_parts_marker.dfy` | `Marking` | `comparison/GoodPartsMarker.java` |
| `good_combination.dfy` | `Combination` | `GoodCombination.java`, `combination/GoodCombinationPart.java` |
| `good_combination_extractor.dfy` | `Extraction` | `combination/GoodCombinationExtractor.java` and `Comparison.createGoodCombination` |
| `good_combination_writer.dfy` | `Writing` | `combination/GoodCombinationWriter.java` |

**Modelling choices.**
- Objects whose fields the Java code updates in place are Dafny classes with `modifies` frames:
  - `CRC`, `FileDivider`, `FileChecksumsCalculator`, `ChecksumFiles`, `ComparisonItem(s)`, `NumberOfDifferences`, `Similarity`, `Comparison`, `GoodPartsMarker`, `GoodCombination`, the extractor, the writer and the streams.
- Immutable values are datatypes: `Checksums`, `GoodCombinationPart`, `Mark` and `Buffer`.
  - `ChecksumFile` is a class with only `const` fields. It stays immutable, and `ChecksumFiles` can still compare files by reference.
  - Reference identity also gives aliasing. Cells with equal checksums share one `ComparisonItem`, so a mark set through one cell shows through all of them.
- Each loop that updates state is a method with a `while` loop. The method is proved against a recursive specification function:
  - the pairwise scan against `Scan.ScanFiles`/`Scan.DiffCount`;
  - the marker against `Marking.Scanned`/`Marking.Vote`;
  - the extractor against `Extraction.RangesFrom`;
  - the writer against `Writing.WriteAll`.
- Lemmas then prove what the source promises about those functions.
- The digest algorithm is a function-typed field `hexOf: seq<bv8> -> string`.
- A Java `double` is `SimilarityMatrix.Double`: a finite real, NaN or an infinity. The ratio's division by zero for an empty file is therefore modelled, not excluded.
- A file is a snapshot: existence, readability, bytes, and the offset of a byte the device cannot deliver, if any. That offset is how the model reaches every `IOException` path.

## Model

All source paths below are under `src/main/java/net/orfjackal/ccorr/`, written out in full.

| member | source | states |
|---|---|---|
| Wrappers.Min | src/main/java/net/orfjackal/ccorr/checksum/ChecksumFile.java:53-61 | the smaller of two values, as `Math.min`: at most both, and equal to one of them |
| JavaIo.OpenInputStream | src/main/java/net/orfjackal/ccorr/combination/StreamFactory.java:31-44 | a fresh stream at byte 0 over the file's bytes when the file exists and is readable, null otherwise |
| Crc.Signed | src/main/java/net/orfjackal/ccorr/crc/CRC.java:20 | a byte read as Java's signed `byte` lies in [-128, 128) and agrees with the unsigned byte modulo 256 |
| Crc.HexValue | src/main/java/net/orfjackal/ccorr/crc/CRC.java:36 | the value of an upper-case hex digit, -1 for anything else; a digit's value points back to that digit |
| Crc.HexDigitRoundTrip | src/main/java/net/orfjackal/ccorr/crc/CRC.java:36 | every digit of `toHexString(..).toUpperCase()` reads back as its own value |
| Crc.ByteHex | src/main/java/net/orfjackal/ccorr/crc/CRC.java:36-39 | the uniform-byte name is exactly 4 characters, "0x" and two hex digits whose value is `v & 0xFF` |
| Crc.ByteHexIdentifiesByte | src/main/java/net/orfjackal/ccorr/crc/CRC.java:36-39 | two byte values get the same name if and only if they agree in their low 8 bits |
| Crc.ZeroByteHex | src/main/java/net/orfjackal/ccorr/crc/CRC.java:36-39 | a zero-filled part is named "0x00" |
| Crc.UniformChecksumIgnoresAlgorithmAndLength | src/main/java/net/orfjackal/ccorr/crc/CRC.java:33-39 | two uniform buffers with the same byte get the same 4-character checksum, whatever their algorithms and lengths |
| Crc.ChecksumOfPadded | src/main/java/net/orfjackal/ccorr/crc/CRC.java:46-50 | the checksum depends only on the buffer's first `length` bytes, not on the zero padding behind them |
| Crc.CRC.constructor | src/main/java/net/orfjackal/ccorr/crc/CRC.java:8-14 | a new CRC wraps the algorithm, has fed it nothing, has no first byte yet, and reports all bytes as the same |
| Crc.CRC.Update | src/main/java/net/orfjackal/ccorr/crc/CRC.java:16-31 | the algorithm is fed `bytes[offset..offset+length)`; the first byte is taken once; the uniform flag survives if and only if the bytes scanned from `offset` to `length` all equal the first byte |
| Crc.CRC.GetHexValue | src/main/java/net/orfjackal/ccorr/crc/CRC.java:33-40 | while all bytes equal the first, the 4-character name "0x" plus two hex digits whose value is the first byte & 0xFF (`ByteHex`); otherwise the algorithm's digest of exactly the bytes fed since the last reset |
| Crc.CRC.GetAlgorithm | src/main/java/net/orfjackal/ccorr/crc/CRC.java:42-44 | the wrapped algorithm's name |
| Crc.CRC.Reset | src/main/java/net/orfjackal/ccorr/crc/CRC.java:52-56 | nothing fed, no first byte, uniform flag set again |
| Crc.CRC.CalculateChecksum | src/main/java/net/orfjackal/ccorr/crc/CRC.java:46-50 | after a reset and one update from 0, the result is the specification `Checksum` of the buffer and the algorithm has been fed exactly the buffer's data bytes |
| Crc.SignedUniform | src/main/java/net/orfjackal/ccorr/crc/CRC.java:24-29 | comparing signed bytes with the signed first byte is the same as comparing the raw bytes, and the name of the signed first byte is the name of the raw one |
| Crc.SignedByteHex | src/main/java/net/orfjackal/ccorr/crc/CRC.java:36 | `firstByte & 0xFF` names a signed byte the same as its unsigned value |
| Crc.SignedInjective | src/main/java/net/orfjackal/ccorr/crc/CRC.java:25 | two bytes with the same signed value are the same byte |
| AlgorithmFactory.Name.Value | src/main/java/net/orfjackal/ccorr/CRCAlgorithmFactory.java:14-26 | each constant has a non-empty name |
| AlgorithmFactory.FirstMatch | src/main/java/net/orfjackal/ccorr/CRCAlgorithmFactory.java:29-31 | the first constant whose value equals the string exactly, or none when no constant's value does |
| AlgorithmFactory.Get | src/main/java/net/orfjackal/ccorr/CRCAlgorithmFactory.java:28-33 | the constant named by the string, and CRC_32 for every other string, including null |
| AlgorithmFactory.GetValueRoundTrip | src/main/java/net/orfjackal/ccorr/CRCAlgorithmFactory.java:24-33 | each constant is found again from its own value |
| AlgorithmFactory.LowerCaseNameIsUnknown | src/main/java/net/orfjackal/ccorr/CRCAlgorithmFactory.java:30-32 | matching is case-sensitive: "md5" and null both resolve to CRC_32 |
| AlgorithmFactory.GetByName | src/main/java/net/orfjackal/ccorr/CRCAlgorithmFactory.java:36-47 | "MD5" and "SHA-1" give that name and digest; every other name gives "CRC-32" with the CRC-32 digest |
| AlgorithmFactory.LexLeTotal | src/main/java/net/orfjackal/ccorr/CRCAlgorithmFactory.java:56 | the string order `Arrays.sort` uses is total |
| AlgorithmFactory.Insert | src/main/java/net/orfjackal/ccorr/CRCAlgorithmFactory.java:56 | inserting into a sorted list keeps it sorted and adds exactly that element |
| AlgorithmFactory.Sort | src/main/java/net/orfjackal/ccorr/CRCAlgorithmFactory.java:56 | the result is sorted and a permutation of the input |
| AlgorithmFactory.GetSupportedAlgorithms | src/main/java/net/orfjackal/ccorr/CRCAlgorithmFactory.java:54-58 | a sorted permutation of the three constants' values |
| AlgorithmFactory.SupportedAlgorithmsInOrder | src/main/java/net/orfjackal/ccorr/CRCAlgorithmFactory.java:54-58 | the result is exactly "CRC-32", "MD5", "SHA-1" |
| Division.ConstrainPartLength | src/main/java/net/orfjackal/ccorr/checksum/FileDivider.java:26-33 | the result lies in [MIN_PART_SIZE, MAX_PART_SIZE] and no allowed length is nearer to the request |
| Division.ConstrainKeepsAllowedLength | src/main/java/net/orfjackal/ccorr/checksum/FileDivider.java:26-33 | a request inside the bounds is kept as it is |
| Division.NumberOfParts | src/main/java/net/orfjackal/ccorr/checksum/FileDivider.java:46-51 | the part count is ceil(L/P): enough parts to cover the file, and one fewer would not |
| Division.NoPartsExactlyForEmptyFile | src/main/java/net/orfjackal/ccorr/checksum/FileDivider.java:46-51 | the count is 0 if and only if the file is empty |
| Division.Part | src/main/java/net/orfjackal/ccorr/checksum/FileDivider.java:57-59 | every part is non-empty and at most P bytes |
| Division.JoinedIsPrefix | src/main/java/net/orfjackal/ccorr/checksum/FileDivider.java:53-60 | the first n parts laid end to end are the file's first min(nP, L) bytes |
| Division.PartsTileFile | src/main/java/net/orfjackal/ccorr/checksum/FileDivider.java:46-60 | all parts laid end to end give back the file |
| Division.FileDivider.constructor | src/main/java/net/orfjackal/ccorr/checksum/FileDivider.java:20-24 | the stored part length is the clamped request; no stream is open yet |
| Division.FileDivider.Divide | src/main/java/net/orfjackal/ccorr/checksum/FileDivider.java:35-44 | FileNotFoundException, with nothing changed, for a missing or unreadable file; otherwise a fresh stream at byte 0, the part count set and the current part reset to 0 |
| Division.FileDivider.CalculateNumberOfParts | src/main/java/net/orfjackal/ccorr/checksum/FileDivider.java:46-51 | the divider's count is `NumberOfParts` of its file length and part length |
| Division.FileDivider.NextPart | src/main/java/net/orfjackal/ccorr/checksum/FileDivider.java:53-60 | EOF, changing nothing, once every part was handed out; otherwise the next part in a fresh zero-padded array of P bytes, its length field being the bytes read, or an IOException when the part holds an unreadable byte |
| Division.FileDivider.Close | src/main/java/net/orfjackal/ccorr/checksum/FileDivider.java:74-76 | the stream is closed and its position kept |
| Division.PartRead | src/main/java/net/orfjackal/ccorr/checksum/FileDivider.java:57-59 | one read of P bytes at the start of part k fails exactly when the part has an unreadable byte, and otherwise yields exactly part k |
| Division.Zeros | src/main/java/net/orfjackal/ccorr/checksum/FileDivider.java:57 | `new byte[n]`: n zero bytes |
| ChecksumList.Checksums.Size | src/main/java/net/orfjackal/ccorr/Checksums.java:26-28 | the length of the wrapped list |
| ChecksumList.Checksums.IsValidIndex | src/main/java/net/orfjackal/ccorr/Checksums.java:30-32 | holds if and only if 0 <= index < size |
| ChecksumList.Checksums.Get | src/main/java/net/orfjackal/ccorr/Checksums.java:34-37 | the entry at a valid index, and null (never an exception) anywhere else |
| ChecksumData.ChecksumFile.constructor | src/main/java/net/orfjackal/ccorr/checksum/ChecksumFile.java:18-24 | the five final fields hold the constructor's arguments |
| ChecksumData.ChecksumFile.GetParts | src/main/java/net/orfjackal/ccorr/checksum/ChecksumFile.java:30-32 | the number of checksums |
| ChecksumData.ChecksumFile.GetChecksum | src/main/java/net/orfjackal/ccorr/checksum/ChecksumFile.java:34-36 | the part's checksum when 0 <= part < getParts(), null otherwise |
| ChecksumData.ChecksumFile.PartPresentInFile | src/main/java/net/orfjackal/ccorr/checksum/ChecksumFile.java:26-28 | a checksum is present exactly for the indices below getParts() |
| ChecksumData.ChecksumFile.HasPart | src/main/java/net/orfjackal/ccorr/checksum/ChecksumFile.java:38-40 | true exactly for the indices below getParts() |
| ChecksumData.ChecksumFile.PresentIffHasPart | src/main/java/net/orfjackal/ccorr/checksum/ChecksumFile.java:26-40 | `partPresentInFile` and `hasPart` coincide, and both mean 0 <= part < getParts() |
| ChecksumData.ChecksumFile.GetStartOffsetOfPart | src/main/java/net/orfjackal/ccorr/checksum/ChecksumFile.java:42-51 | P·part for a part the file has, IndexOutOfBoundsException otherwise |
| ChecksumData.ChecksumFile.GetEndOffset | src/main/java/net/orfjackal/ccorr/checksum/ChecksumFile.java:53-61 | min(P·(part+1) - 1, L - 1) for a part the file has, IndexOutOfBoundsException otherwise |
| ChecksumData.ChecksumFile.SetSourceFile | src/main/java/net/orfjackal/ccorr/checksum/ChecksumFile.java:63-72 | a fresh copy that differs only in its source file when that file exists with the same length; `this` otherwise |
| ChecksumData.ChecksumFile.IsValidFile | src/main/java/net/orfjackal/ccorr/checksum/ChecksumFile.java:70-72 | true if and only if the file is non-null, exists and has the recorded source length |
| ChecksumData.OffsetsTileFile | src/main/java/net/orfjackal/ccorr/checksum/ChecksumFile.java:42-61 | with ceil(L/P) parts, every part starts no later than it ends; each part ends one byte before the next starts; the last ends at L - 1; each range is as long as the divider's part |
| Calculation.PartChecksums | src/main/java/net/orfjackal/ccorr/checksum/FileChecksumsCalculator.java:32-45 | one checksum per part handed out, in order |
| Calculation.PartChecksumAt | src/main/java/net/orfjackal/ccorr/checksum/FileChecksumsCalculator.java:38-49 | entry k is the CRC checksum of part k alone |
| Calculation.UnreadableByteLiesInPart | src/main/java/net/orfjackal/ccorr/checksum/FileChecksumsCalculator.java:36-40 | an unreadable byte lies in a part the loop reaches: the part its offset divides into |
| Calculation.FileChecksumsCalculator.constructor | src/main/java/net/orfjackal/ccorr/checksum/FileChecksumsCalculator.java:17-20 | the calculator holds the given divider and CRC |
| Calculation.FileChecksumsCalculator.CalculateChecksums | src/main/java/net/orfjackal/ccorr/checksum/FileChecksumsCalculator.java:22-30 | EMPTY_DATA if and only if the file has an unreadable byte; otherwise a fresh ChecksumFile with one checksum per part, the CRC's algorithm name, the clamped part length, the source file and its length; the divider's stream is closed on both paths |
| Calculation.FileChecksumsCalculator.FillChecksums | src/main/java/net/orfjackal/ccorr/checksum/FileChecksumsCalculator.java:32-45 | an IOException exactly when the file has an unreadable byte, otherwise the list of every part's checksum; the stream is closed in either case |
| Calculation.FileChecksumsCalculator.ChecksumParts | src/main/java/net/orfjackal/ccorr/checksum/FileChecksumsCalculator.java:36-40 | the loop collects `PartChecksums` of all parts up to EOF, or stops with an IOException exactly when a part is unreadable |
| Calculation.FileChecksumsCalculator.ChecksumNextPart | src/main/java/net/orfjackal/ccorr/checksum/FileChecksumsCalculator.java:38-39 | one more checksum is appended and the next buffer fetched, keeping the loop's invariant |
| Calculation.FileChecksumsCalculator.CalculateChecksum | src/main/java/net/orfjackal/ccorr/checksum/FileChecksumsCalculator.java:47-49 | the checksum of the buffer is the checksum of the part it holds |
| FileSet.ChecksumFiles.constructor | src/main/java/net/orfjackal/ccorr/checksum/ChecksumFiles.java:13-15 | an empty file list |
| FileSet.ChecksumFiles.Size | src/main/java/net/orfjackal/ccorr/checksum/ChecksumFiles.java:69-71 | the number of files |
| FileSet.ChecksumFiles.IsValidFileIndex | src/main/java/net/orfjackal/ccorr/checksum/ChecksumFiles.java:61-63 | true if and only if the index names a stored file |
| FileSet.ChecksumFiles.HasSamePartLength | src/main/java/net/orfjackal/ccorr/checksum/ChecksumFiles.java:37-39 | every file fits an empty set; otherwise, when the first file's part length is positive, the file fits if and only if it has that part length |
| FileSet.ChecksumFiles.HasSameAlgorithm | src/main/java/net/orfjackal/ccorr/checksum/ChecksumFiles.java:47-49 | true if and only if the set is empty or the file uses the first file's algorithm |
| FileSet.ChecksumFiles.IsValidFileToAdd | src/main/java/net/orfjackal/ccorr/checksum/ChecksumFiles.java:32-35 | only a non-null file qualifies; any non-null file fits an empty set; a qualifying file uses the first file's algorithm |
| FileSet.ChecksumFiles.GetPartLength | src/main/java/net/orfjackal/ccorr/checksum/ChecksumFiles.java:41-45 | -1 for an empty set, else the first file's part length |
| FileSet.ChecksumFiles.GetAlgorithm | src/main/java/net/orfjackal/ccorr/checksum/ChecksumFiles.java:51-55 | null exactly for an empty set, else the first file's algorithm |
| FileSet.ChecksumFiles.IsAlreadyAdded | src/main/java/net/orfjackal/ccorr/checksum/ChecksumFiles.java:79-83 | true if and only if the same reference is stored |
| FileSet.ChecksumFiles.Add | src/main/java/net/orfjackal/ccorr/checksum/ChecksumFiles.java:24-39 | appends and answers true exactly when the file is non-null, its part length and algorithm fit, and the same reference is not stored yet; otherwise false and nothing changes; consistency of part length and algorithm is preserved |
| FileSet.ChecksumFiles.Remove | src/main/java/net/orfjackal/ccorr/checksum/ChecksumFiles.java:57-63 | deletes exactly position i and answers true for a valid i; otherwise false and nothing changes |
| FileSet.ChecksumFiles.FindShorterFileParts | src/main/java/net/orfjackal/ccorr/checksum/ChecksumFiles.java:17-22 | the smaller of the two part counts |
| FileSet.ChecksumFiles.ArePartsEquals | src/main/java/net/orfjackal/ccorr/checksum/ChecksumFiles.java:73-77 | true if and only if the second file also has the part and both checksums are equal strings |
| FileSet.ChecksumFiles.PresentBelowShorter | src/main/java/net/orfjackal/ccorr/checksum/ChecksumFiles.java:17-87 | below the shorter part count, both files have the part |
| FileSet.ChecksumFiles.IsPartPresentInBothFiles | src/main/java/net/orfjackal/ccorr/checksum/ChecksumFiles.java:85-87 | true if and only if the part lies below the shorter of the two files' part counts |
| Marks.NextMark | src/main/java/net/orfjackal/ccorr/comparison/Mark.java:15-36 | the next mark is always one of UNDEFINED, GOOD, BAD, UNSURE |
| Marks.CycleHasLengthFour | src/main/java/net/orfjackal/ccorr/comparison/Mark.java:15-36 | four steps bring a cycle mark back to itself, and no fewer do |
| Marks.OutsideMarksEnterAtUndefined | src/main/java/net/orfjackal/ccorr/comparison/Mark.java:30-33 | NOT_EXISTS and NEXT both go to UNDEFINED |
| Marks.NextMarkInjectiveOnCycle | src/main/java/net/orfjackal/ccorr/comparison/Mark.java:15-36 | on the cycle, two marks have the same successor if and only if they are equal |
| Items.ComparisonItem.constructor | src/main/java/net/orfjackal/ccorr/comparison/ComparisonItem.java:14-22 | a null or empty checksum is stored as "" with mark BAD; any other is stored with mark UNDEFINED |
| Items.ComparisonItem.SetMark | src/main/java/net/orfjackal/ccorr/comparison/ComparisonItem.java:24-32 | no change without a checksum; NEXT stores the next mark of the cycle; any other mark is stored as given |
| Items.FindFrom | src/main/java/net/orfjackal/ccorr/comparison/ComparisonItems.java:22-28 | the first matching position at or after k, or none when nothing there matches |
| Items.FindIndex | src/main/java/net/orfjackal/ccorr/comparison/ComparisonItems.java:22-28 | the first matching position, or none when nothing matches |
| Items.NullChecksumFindsNothing | src/main/java/net/orfjackal/ccorr/comparison/ComparisonItems.java:22-28 | a null checksum never matches |
| Items.FindStableUnderAppend | src/main/java/net/orfjackal/ccorr/comparison/ComparisonItems.java:14-28 | appending items never changes what a successful search finds |
| Items.FindAfterAppend | src/main/java/net/orfjackal/ccorr/comparison/ComparisonItems.java:14-28 | after appending an item to a list where nothing matched, a search finds the new item if and only if it matches |
| Items.ComparisonItems.constructor | src/main/java/net/orfjackal/ccorr/comparison/ComparisonItems.java:12 | an empty item list |
| Items.ComparisonItems.Add | src/main/java/net/orfjackal/ccorr/comparison/ComparisonItems.java:14-16 | appends the item without looking for an equal one |
| Items.ComparisonItems.Find | src/main/java/net/orfjackal/ccorr/comparison/ComparisonItems.java:22-28 | the loop's answer is the first stored item with that part and an equal checksum, or null |
| Items.ComparisonItems.FindItem | src/main/java/net/orfjackal/ccorr/comparison/ComparisonItems.java:18-20 | the search by the item's own part and checksum, which finds a stored item whenever that item is stored |
| DifferenceCounts.NumberOfDifferences.constructor | src/main/java/net/orfjackal/ccorr/comparison/NumberOfDifferences.java:12-14 | an n-by-n matrix of zeros |
| DifferenceCounts.NumberOfDifferences.Add | src/main/java/net/orfjackal/ccorr/comparison/NumberOfDifferences.java:16-18 | cell [i][j] grows by one and every other cell, [j][i] included, is unchanged |
| DifferenceCounts.NumberOfDifferences.Get | src/main/java/net/orfjackal/ccorr/comparison/NumberOfDifferences.java:20-22 | the count of the ordered pair, the cell `add` increments |
| SimilarityMatrix.Similarity.constructor | src/main/java/net/orfjackal/ccorr/comparison/Similarity.java:12-14 | an n-by-n matrix of zeros |
| SimilarityMatrix.Similarity.Set | src/main/java/net/orfjackal/ccorr/comparison/Similarity.java:16-19 | the value is stored at [i][j] and [j][i] and nowhere else, so a symmetric matrix stays symmetric |
| SimilarityMatrix.Similarity.Get | src/main/java/net/orfjackal/ccorr/comparison/Similarity.java:21-23 | the pair's ratio, the same in either order while the matrix is symmetric |
| SimilarityCalc.Ratio | src/main/java/net/orfjackal/ccorr/comparison/SimilarityCalculator.java:26-29 | 1 - d/s lies in [0, 1] when 0 <= d <= s and s > 0; it is 1 with no difference and 0 when every part differs; with s = 0 it is NaN or negative infinity, as the double division gives |
| SimilarityCalc.RatioFallsWithDifferences | src/main/java/net/orfjackal/ccorr/comparison/SimilarityCalculator.java:26-29 | more differences never make two files more similar |
| SimilarityCalc.SimilarityCalculator.constructor | src/main/java/net/orfjackal/ccorr/comparison/SimilarityCalculator.java:13-16 | the calculator holds the given files and counts |
| SimilarityCalc.SimilarityCalculator.Calculate | src/main/java/net/orfjackal/ccorr/comparison/SimilarityCalculator.java:18-24 | a fresh n-by-n matrix holding, for i <= j, the pair's ratio at [i][j] and [j][i]; the matrix is symmetric |
| SimilarityCalc.SimilarityCalculator.PairSimilarity | src/main/java/net/orfjackal/ccorr/comparison/SimilarityCalculator.java:26-29 | one pair's similarity: finite exactly when the shorter file has parts, then within [0, 1] when the count is at most that, 1.0 with no differences and 0.0 when every part differs; NaN for 0/0 and negative infinity for a positive count over zero parts |
| Scan.Shorter | src/main/java/net/orfjackal/ccorr/comparison/Comparison.java:59 | the smaller of the two checksum-list lengths |
| Scan.AddPart | src/main/java/net/orfjackal/ccorr/comparison/Comparison.java:66-70 | the list grows only at its end, stays free of duplicates, and afterwards holds exactly the old parts and the new one |
| Scan.ScanParts | src/main/java/net/orfjackal/ccorr/comparison/Comparison.java:58-64 | the scan of one pair only appends rows |
| Scan.ScanPairs | src/main/java/net/orfjackal/ccorr/comparison/Comparison.java:54-55 | the scan of file i against later files only appends rows |
| Scan.ScanFiles | src/main/java/net/orfjackal/ccorr/comparison/Comparison.java:52-56 | the scan of all pairs only appends rows |
| Scan.ScanPartsAddsDifferences | src/main/java/net/orfjackal/ccorr/comparison/Comparison.java:58-70 | scanning a pair adds exactly the parts, from the start part on, that both files have with different checksums, and adds none twice |
| Scan.ScanPairsAddsDifferences | src/main/java/net/orfjackal/ccorr/comparison/Comparison.java:52-70 | scanning file i against later files adds exactly the parts where it disagrees with one of them |
| Scan.ScanFilesAddsDifferences | src/main/java/net/orfjackal/ccorr/comparison/Comparison.java:52-70 | scanning from file i on adds exactly the parts where some pair a < b (a >= i) disagrees |
| Scan.DiffPartsAreTheDisagreements | src/main/java/net/orfjackal/ccorr/comparison/Comparison.java:44-70 | the rows are duplicate-free, and a part is a row if and only if some pair of files both have it with different checksums |
| Scan.NoRowsWithoutTwoFiles | src/main/java/net/orfjackal/ccorr/comparison/Comparison.java:53 | with fewer than two files there are no rows |
| Scan.RowsFollowDiscoveryOrder | src/main/java/net/orfjackal/ccorr/comparison/Comparison.java:68-69 | rows keep the order in which the scan meets them and are not sorted, for example [1, 0] |
| Scan.DiffCount | src/main/java/net/orfjackal/ccorr/comparison/Comparison.java:58-64 | a pair counts at most one difference per part below the shorter length |
| Scan.NoDifferencesMeansAgreement | src/main/java/net/orfjackal/ccorr/comparison/Comparison.java:58-64 | a pair counts no difference if and only if it agrees on every part both files have |
| Comparisons.Lists | src/main/java/net/orfjackal/ccorr/comparison/Comparison.java:18 | file k's checksum list, for every file k |
| Comparisons.PartDiffers | src/main/java/net/orfjackal/ccorr/comparison/Comparison.java:58-64 | below the shorter count, `!arePartsEquals` is exactly the scan's notion of a differing part |
| Comparisons.CoveredStaysCovered | src/main/java/net/orfjackal/ccorr/comparison/Comparison.java:84-89 | a checksum that finds an item still finds one after more items are added |
| Comparisons.SelfHasNoDifferences | src/main/java/net/orfjackal/ccorr/comparison/Comparison.java:53-55 | a file never differs from itself |
| Comparisons.SimilarityInUnitRange | src/main/java/net/orfjackal/ccorr/comparison/Comparison.java:44-56 | each pair's similarity lies in [0, 1] when the shorter file has parts, and a file has similarity 1 with itself |
| Comparisons.Comparison.constructor | src/main/java/net/orfjackal/ccorr/comparison/Comparison.java:25-31 | no files, no items, no rows, not stale, a 0-by-0 similarity |
| Comparisons.Comparison.GetDifferences | src/main/java/net/orfjackal/ccorr/comparison/Comparison.java:108-112 | -1 exactly while stale, otherwise the number of rows |
| Comparisons.Comparison.GetFilesCount | src/main/java/net/orfjackal/ccorr/comparison/Comparison.java:114-116 | the number of files |
| Comparisons.Comparison.GetPart | src/main/java/net/orfjackal/ccorr/comparison/Comparison.java:118-126 | the row's part, -1 for an invalid row |
| Comparisons.Comparison.IsValidDifferenceIndex | src/main/java/net/orfjackal/ccorr/comparison/Comparison.java:124-126 | for a current comparison, true if and only if the index lies below getDifferences() |
| Comparisons.Comparison.GetItem | src/main/java/net/orfjackal/ccorr/comparison/Comparison.java:128-140 | for a good index, the stored item found for the row's part and the file's checksum; any item found is stored, is for that part, and holds that file's checksum |
| Comparisons.Comparison.IsGoodIndex | src/main/java/net/orfjackal/ccorr/comparison/Comparison.java:136-140 | true if and only if the row index lies below getDifferences() (never, while stale) and the file index below the file count |
| Comparisons.Comparison.SameChecksumSharesItem | src/main/java/net/orfjackal/ccorr/comparison/Comparison.java:128-134 | two files with the same checksum in a row share that row's item |
| Comparisons.Comparison.GetChecksum | src/main/java/net/orfjackal/ccorr/comparison/Comparison.java:142-146 | the file's checksum of the row's part, "" for a cell without an item |
| Comparisons.Comparison.GetMark | src/main/java/net/orfjackal/ccorr/comparison/Comparison.java:179-184 | the item's mark, BAD for a cell without an item |
| Comparisons.Comparison.CellOffset | src/main/java/net/orfjackal/ccorr/comparison/Comparison.java:153-167 | a cell has an offset exactly when it has an item |
| Comparisons.Comparison.MaxOffsetIsLargest | src/main/java/net/orfjackal/ccorr/comparison/Comparison.java:151-157 | the loop's offset is -1 or some cell's offset, and no cell's offset exceeds it |
| Comparisons.Comparison.GetStartOffset | src/main/java/net/orfjackal/ccorr/comparison/Comparison.java:148-158 | IllegalArgumentException exactly for a bad row, otherwise the largest start offset of the row's cells |
| Comparisons.Comparison.GetEndOffset | src/main/java/net/orfjackal/ccorr/comparison/Comparison.java:160-170 | IllegalArgumentException exactly for a bad row, otherwise the largest end offset of the row's cells |
| Comparisons.Comparison.LargestOffset | src/main/java/net/orfjackal/ccorr/comparison/Comparison.java:148-170 | the loop shared by both offset queries computes the largest cell offset |
| Comparisons.Comparison.StartNotAfterEnd | src/main/java/net/orfjackal/ccorr/comparison/Comparison.java:148-170 | when every file's parts tile it, a row never starts after it ends |
| Comparisons.Comparison.CellFrame | src/main/java/net/orfjackal/ccorr/comparison/Comparison.java:172-193 | the only object `setMark`/`nextMark` can change is the cell's item |
| Comparisons.Comparison.SetMark | src/main/java/net/orfjackal/ccorr/comparison/Comparison.java:172-177 | the cell's item takes the mark as `ComparisonItem.setMark` does, and every cell with another item reads as before |
| Comparisons.Comparison.NextMark | src/main/java/net/orfjackal/ccorr/comparison/Comparison.java:186-193 | NOT_EXISTS for a cell without an item; otherwise the next mark of the item's mark, stored unless the item has no checksum |
| Comparisons.Comparison.AddFile | src/main/java/net/orfjackal/ccorr/comparison/Comparison.java:204-207 | the comparison goes stale exactly when the file set accepts the file |
| Comparisons.Comparison.RemoveFile | src/main/java/net/orfjackal/ccorr/comparison/Comparison.java:209-213 | the file at a valid index is removed; the comparison goes stale even for an invalid index |
| Comparisons.Comparison.MarkRowsUndefined | src/main/java/net/orfjackal/ccorr/comparison/Comparison.java:228-243 | true exactly for a valid range of a current comparison; then every item of those rows that has a checksum becomes UNDEFINED; every other item keeps its mark |
| Comparisons.Comparison.ValidateRange | src/main/java/net/orfjackal/ccorr/comparison/Comparison.java:241-243 | true if and only if the comparison is current and 0 <= start <= end < the number of rows |
| Comparisons.Comparison.MarkRowUndefined | src/main/java/net/orfjackal/ccorr/comparison/Comparison.java:233-248 | one row's items with a checksum become UNDEFINED; every other item keeps its mark |
| Comparisons.Comparison.DoCompare | src/main/java/net/orfjackal/ccorr/comparison/Comparison.java:33-42 | the comparison is current and its rows are the scan's differing parts; with fewer than two files, no items and an n-by-n similarity, [[1.0]] for one file; with more, the state `compareMultipleFiles` leaves |
| Comparisons.Comparison.CompareMultipleFiles | src/main/java/net/orfjackal/ccorr/comparison/Comparison.java:44-50 | rows as the scan finds them; earlier items kept in front with their marks; counts per pair; each pair's ratio in the similarity matrix |
| Comparisons.Comparison.CalculateSimilarity | src/main/java/net/orfjackal/ccorr/comparison/Comparison.java:48 | a fresh matrix holding each pair's ratio of its difference count to its shorter length |
| Comparisons.Comparison.CompareEachFilesPair | src/main/java/net/orfjackal/ccorr/comparison/Comparison.java:52-56 | the rows are those of `Scan.ScanFiles`, and cell [a][b] counts the pair's differences for a < b and stays 0 otherwise |
| Comparisons.Comparison.CompareWithLaterFiles | src/main/java/net/orfjackal/ccorr/comparison/Comparison.java:54-55 | the rows of `Scan.ScanPairs`; the counts of row i grow by each pair's differences and the rest is unchanged |
| Comparisons.Comparison.CompareFiles | src/main/java/net/orfjackal/ccorr/comparison/Comparison.java:58-64 | the rows of `Scan.ScanParts`; the pair's count grows by its differences and no other count changes |
| Comparisons.Comparison.AddDifference | src/main/java/net/orfjackal/ccorr/comparison/Comparison.java:66-70 | the pair's count grows by one and the part joins the rows unless listed |
| Comparisons.Comparison.StoreComparisonDataToList | src/main/java/net/orfjackal/ccorr/comparison/Comparison.java:72-75 | old items kept in front; every new item is fresh, for a row's part, and UNDEFINED unless its checksum is "" (a file that lacks the part); for every row and every file that has the row's part, a search for that file's checksum finds an item; no two items with a non-empty checksum share (part, checksum), while "" items may repeat |
| Comparisons.Comparison.StorePartComparisonData | src/main/java/net/orfjackal/ccorr/comparison/Comparison.java:77-82 | old items kept in front; every new item is fresh and for this part, and UNDEFINED unless its checksum is ""; for every file that has the part, its checksum finds an item; no two items with a non-empty checksum share (part, checksum), while "" items may repeat |
| Comparisons.Comparison.AddComparisonItem | src/main/java/net/orfjackal/ccorr/comparison/Comparison.java:84-89 | nothing changes when an item matches; otherwise exactly one fresh item for that part and checksum is appended |
| Comparisons.Comparison.CompareSingleFile | src/main/java/net/orfjackal/ccorr/comparison/Comparison.java:91-96 | no items, current, and the similarity is [[1.0]] |
| Comparisons.Comparison.CompareNoFile | src/main/java/net/orfjackal/ccorr/comparison/Comparison.java:98-102 | no items, current, and a 0-by-0 similarity |
| Marking.CountOf | src/main/java/net/orfjackal/ccorr/comparison/GoodPartsMarker.java:127-135 | a checksum occurs at most k times among the first k |
| Marking.AddCrc | src/main/java/net/orfjackal/ccorr/comparison/GoodPartsMarker.java:109-145 | an empty checksum changes nothing; otherwise its count goes up by one (starting from 0) and other counts are kept; a count above max makes this file the leader, sure; a count equal to max keeps the leader and makes it unsure; a lower count changes nothing else; max never falls |
| Marking.Scanned | src/main/java/net/orfjackal/ccorr/comparison/GoodPartsMarker.java:68-73 | max never falls; the leader is kept, dropped (-1) or a file scanned; any mark other than UNDEFINED from the first file on drops the leader; a row of UNDEFINED cells with empty checksums leaves the tally as it was |
| Marking.CountGrows | src/main/java/net/orfjackal/ccorr/comparison/GoodPartsMarker.java:127-135 | a longer prefix never holds fewer copies |
| Marking.AddCrcKeepsCount | src/main/java/net/orfjackal/ccorr/comparison/GoodPartsMarker.java:109-145 | one more file keeps the table of counts, the maximum and the leader faithful |
| Marking.ScannedKeepsCount | src/main/java/net/orfjackal/ccorr/comparison/GoodPartsMarker.java:68-107 | scanning an all-UNDEFINED rest of a row ends with the tally of the whole row; any other mark drops the leader |
| Marking.Vote | src/main/java/net/orfjackal/ccorr/comparison/GoodPartsMarker.java:75-85 | a row's verdict marks a file GOOD or UNSURE, or leaves the row unchanged |
| Marking.Revoted | src/main/java/net/orfjackal/ccorr/comparison/GoodPartsMarker.java:91-99 | the row after the vote has one mark per file |
| Marking.AlreadyMarkedRowIsUnchanged | src/main/java/net/orfjackal/ccorr/comparison/GoodPartsMarker.java:68-107 | a row where some file's mark is not UNDEFINED (a file lacking the part reads BAD) is left unchanged |
| Marking.VoteIsPlurality | src/main/java/net/orfjackal/ccorr/comparison/GoodPartsMarker.java:61-145 | an all-UNDEFINED row is unchanged if and only if no checksum occurs twice; otherwise the chosen file holds a most frequent checksum, and it is the file where that checksum first reached its final count; the mark is UNSURE if and only if another checksum ties |
| Marking.VoteInRange | src/main/java/net/orfjackal/ccorr/comparison/GoodPartsMarker.java:91-99 | the chosen file exists and has a checksum, and the row was all UNDEFINED |
| Marking.RowMarks | src/main/java/net/orfjackal/ccorr/comparison/Comparison.java:179-184 | `getMark` along a row |
| Marking.RowChecksums | src/main/java/net/orfjackal/ccorr/comparison/Comparison.java:142-146 | `getChecksum` along a row |
| Marking.ShowsIsGrid | src/main/java/net/orfjackal/ccorr/comparison/GoodPartsMarker.java:101-107 | the mark table is the only table that agrees with `getMark` at every cell |
| Marking.ChecksumsAreSums | src/main/java/net/orfjackal/ccorr/comparison/GoodPartsMarker.java:109-117 | the checksum table is the only table that agrees with `getChecksum` at every cell |
| Marking.LeaderMarkGivesRevote | src/main/java/net/orfjackal/ccorr/comparison/GoodPartsMarker.java:91-99 | once the leader's item holds the verdict, every file sharing its checksum reads the new mark and everything else reads as before |
| Marking.RevotedRows | src/main/java/net/orfjackal/ccorr/comparison/GoodPartsMarker.java:50-53 | rows outside the range are untouched |
| Marking.UnchangedRowKeepsTable | src/main/java/net/orfjackal/ccorr/comparison/GoodPartsMarker.java:75-89 | a row whose verdict is "unchanged" leaves the table as it is |
| Marking.Verdicts | src/main/java/net/orfjackal/ccorr/comparison/GoodPartsMarker.java:50-53 | one verdict per row of the range |
| Marking.MarkedCount | src/main/java/net/orfjackal/ccorr/comparison/GoodPartsMarker.java:91-99 | the verdicts that set a given mark are no more than all verdicts |
| Marking.UnchangedCount | src/main/java/net/orfjackal/ccorr/comparison/GoodPartsMarker.java:87-89 | the verdicts that leave their row unchanged are no more than all verdicts |
| Marking.CountsStep | src/main/java/net/orfjackal/ccorr/comparison/GoodPartsMarker.java:87-99 | each verdict adds to exactly one of the three counters |
| Marking.GoodPartsMarker.constructor | src/main/java/net/orfjackal/ccorr/comparison/GoodPartsMarker.java:23-25 | the marker holds the comparison and its counters are zero |
| Marking.GoodPartsMarker.MarkGoodParts | src/main/java/net/orfjackal/ccorr/comparison/GoodPartsMarker.java:27-34 | true exactly for a valid range of a current comparison; false leaves every mark as it was and zeroes the counters; true re-votes exactly the rows of the range, and the counters tally the verdicts with good + unsure + undefined equal to the number of rows |
| Marking.GoodPartsMarker.ValidateRange | src/main/java/net/orfjackal/ccorr/comparison/GoodPartsMarker.java:42-48 | true if and only if the comparison is current and 0 <= start <= end < its number of rows |
| Marking.GoodPartsMarker.ResetStatistics | src/main/java/net/orfjackal/ccorr/comparison/GoodPartsMarker.java:36-40 | the three counters are zero and the comparison is untouched |
| Marking.GoodPartsMarker.MarkParts | src/main/java/net/orfjackal/ccorr/comparison/GoodPartsMarker.java:50-53 | the table after the loop is the old table with each row of the range re-voted, and the counters tally the verdicts |
| Marking.GoodPartsMarker.MarkPart | src/main/java/net/orfjackal/ccorr/comparison/GoodPartsMarker.java:55-59 | one more row is re-voted and its verdict counted |
| Marking.GoodPartsMarker.ResetOccurrences | src/main/java/net/orfjackal/ccorr/comparison/GoodPartsMarker.java:61-66 | an empty table, max 1, no leader, not unsure |
| Marking.GoodPartsMarker.FindFilesOccurrences | src/main/java/net/orfjackal/ccorr/comparison/GoodPartsMarker.java:68-73 | the loop leaves the tally `Scanned` defines for the row |
| Marking.GoodPartsMarker.MarkerIsAlreadySet | src/main/java/net/orfjackal/ccorr/comparison/GoodPartsMarker.java:101-107 | true if and only if the cell's mark is not UNDEFINED, and then the leader is dropped |
| Marking.GoodPartsMarker.FindFileOccurrences | src/main/java/net/orfjackal/ccorr/comparison/GoodPartsMarker.java:109-117 | the cell's checksum is counted unless it is empty |
| Marking.GoodPartsMarker.AddCrcOccurrence | src/main/java/net/orfjackal/ccorr/comparison/GoodPartsMarker.java:119-145 | a count past max makes the file the sole leader, a count equal to max makes the row unsure, and a lower count changes nothing else |
| Marking.GoodPartsMarker.AddOccurrence | src/main/java/net/orfjackal/ccorr/comparison/GoodPartsMarker.java:127-135 | the checksum's count is one higher than before, and no other entry changes |
| Marking.GoodPartsMarker.SetMarkAccordingToOccurrences | src/main/java/net/orfjackal/ccorr/comparison/GoodPartsMarker.java:75-80 | the row is re-voted and its verdict counted |
| Marking.GoodPartsMarker.SetMark | src/main/java/net/orfjackal/ccorr/comparison/GoodPartsMarker.java:82-85 | UNSURE on a tie, GOOD otherwise, on the leader's item; the matching counter grows by one |
| Marking.GoodPartsMarker.LeaveUndefined | src/main/java/net/orfjackal/ccorr/comparison/GoodPartsMarker.java:87-89 | the unchanged-row counter grows by one |
| Marking.GoodPartsMarker.SetUnsure | src/main/java/net/orfjackal/ccorr/comparison/GoodPartsMarker.java:91-94 | the leader's item, and with it every file sharing its checksum, reads UNSURE; the unsure counter grows by one |
| Marking.GoodPartsMarker.SetGood | src/main/java/net/orfjackal/ccorr/comparison/GoodPartsMarker.java:96-99 | the leader's item, and with it every file sharing its checksum, reads GOOD; the good counter grows by one |
| Combination.GoodCombinationPart.IsValid | src/main/java/net/orfjackal/ccorr/combination/GoodCombinationPart.java:30-32 | valid if and only if index >= 0, start >= 0 and end > start, so a one-byte range is invalid |
| Combination.StreamSet | src/main/java/net/orfjackal/ccorr/GoodCombination.java:67-68 | every non-null stored stream is in the set |
| Combination.GoodCombination.constructor | src/main/java/net/orfjackal/ccorr/GoodCombination.java:21-24 | no parts and no streams |
| Combination.GoodCombination.Add | src/main/java/net/orfjackal/ccorr/GoodCombination.java:26-38 | appends the part if and only if it is non-null and valid; otherwise nothing changes |
| Combination.GoodCombination.Size | src/main/java/net/orfjackal/ccorr/GoodCombination.java:40-42 | the number of parts |
| Combination.GoodCombination.Get | src/main/java/net/orfjackal/ccorr/GoodCombination.java:44-46 | the index-th part in insertion order, IndexOutOfBoundsException outside the list |
| Combination.GoodCombination.AddStream | src/main/java/net/orfjackal/ccorr/GoodCombination.java:53-56 | the first stream stored under an index is kept |
| Combination.GoodCombination.ContainsStream | src/main/java/net/orfjackal/ccorr/GoodCombination.java:58-60 | true if and only if a stream is stored under the index |
| Combination.GoodCombination.GetStream | src/main/java/net/orfjackal/ccorr/GoodCombination.java:62-64 | the stored stream, null for an absent index |
| Combination.GoodCombination.CloseStreams | src/main/java/net/orfjackal/ccorr/GoodCombination.java:66-72 | every stored non-null stream is closed, then the map is emptied |
| Extraction.ViewOf | src/main/java/net/orfjackal/ccorr/combination/GoodCombinationExtractor.java:42-60 | the extractor's view: no rows while stale, otherwise one row of marks per difference |
| Extraction.ViewCell | src/main/java/net/orfjackal/ccorr/combination/GoodCombinationExtractor.java:60 | each cell of the view is what `getMark` answers |
| Extraction.FirstGood | src/main/java/net/orfjackal/ccorr/combination/GoodCombinationExtractor.java:51-65 | the lowest file index marked GOOD in the row, or none when no file is |
| Extraction.RowRange | src/main/java/net/orfjackal/ccorr/combination/GoodCombinationExtractor.java:59-86 | no range exactly when no file of the row is GOOD; a range starts at the given position and comes from the first GOOD file; only a row before the last can fail, with an index-out-of-bounds error |
| Extraction.RowRangeFromFirstGood | src/main/java/net/orfjackal/ccorr/combination/GoodCombinationExtractor.java:59-86 | the range comes from a GOOD file with no GOOD file before it; the last row's range ends at that file's length, and an earlier row's range ends within the file at a part the file has; a failure means a GOOD file lacks the part |
| Extraction.After | src/main/java/net/orfjackal/ccorr/combination/GoodCombinationExtractor.java:88-92 | the next range starts right after this range's last byte, except after the last row, where the start stays where it was |
| Extraction.Prepend | src/main/java/net/orfjackal/ccorr/combination/GoodCombinationExtractor.java:43-48 | the ranges already taken go in front of a successful walk's ranges; any other outcome passes through unchanged |
| Extraction.RangesFrom | src/main/java/net/orfjackal/ccorr/combination/GoodCombinationExtractor.java:39-92 | a successful walk has one range per remaining row, and each range starts right after the previous one ends |
| Extraction.ValidOnly | src/main/java/net/orfjackal/ccorr/GoodCombination.java:26-38 | exactly the valid ranges are kept |
| Extraction.CacheAdd | src/main/java/net/orfjackal/ccorr/combination/GoodCombinationExtractor.java:73-76 | caching a stream opened on a file, and used for no other index, keeps one stream per file |
| Extraction.WalkStep | src/main/java/net/orfjackal/ccorr/combination/GoodCombinationExtractor.java:43-47 | one row further: its exception, or NOT_EXISTS for a row without GOOD, decides the whole walk; otherwise the walk continues from after the range |
| Extraction.RangesFromRows | src/main/java/net/orfjackal/ccorr/combination/GoodCombinationExtractor.java:51-92 | range k comes from row k's first GOOD file; a non-last row ends at `getEndOffset(row index)`, the last at the chosen file's `getSourceFileLength()` |
| Extraction.NoneIffRowWithoutGood | src/main/java/net/orfjackal/ccorr/combination/GoodCombinationExtractor.java:43-57 | a walk that throws nothing finds no combination if and only if some row has no file marked GOOD |
| Extraction.GoodCombinationExtractor.constructor | src/main/java/net/orfjackal/ccorr/combination/GoodCombinationExtractor.java:20-22 | the extractor holds the comparison and no combination yet |
| Extraction.GoodCombinationExtractor.Extract | src/main/java/net/orfjackal/ccorr/combination/GoodCombinationExtractor.java:33-49 | the walk's exception; NOT_EXISTS when some row has no GOOD file, with every stream the walk opened closed and the cache emptied; otherwise a fresh combination holding the valid ranges of the walk, with one fresh stream per chosen file, and those are the streams opened |
| Extraction.GoodCombinationExtractor.AddGoodParts | src/main/java/net/orfjackal/ccorr/combination/GoodCombinationExtractor.java:43-47 | the loop's outcome is the walk `RangesFrom` over every row from byte 0, and on success the combination holds the ranges taken |
| Extraction.GoodCombinationExtractor.CloseStreams | src/main/java/net/orfjackal/ccorr/combination/GoodCombinationExtractor.java:94-101 | the cached streams are closed and dropped |
| Extraction.GoodCombinationExtractor.AddGoodPart | src/main/java/net/orfjackal/ccorr/combination/GoodCombinationExtractor.java:51-65 | false for a row without GOOD; otherwise the row's range is added from the first GOOD file and the next start advanced |
| Extraction.GoodCombinationExtractor.AddGoodFilePart | src/main/java/net/orfjackal/ccorr/combination/GoodCombinationExtractor.java:67-92 | the range from the next start to the row's end position is added, its file's stream is cached, and the next start becomes end + 1 except after the last row |
| Extraction.CacheStream | src/main/java/net/orfjackal/ccorr/combination/GoodCombinationExtractor.java:73-106 | a stream is opened only for an index not yet cached, and every cached index keeps its stream |
| Extraction.CreateGoodCombination | src/main/java/net/orfjackal/ccorr/combination/GoodCombinationExtractor.java:24-31 | NOT_EXISTS when `getDifferences()` <= 0, which includes a stale comparison; otherwise what `extract` gives |
| Extraction.ComparisonCreateGoodCombination | src/main/java/net/orfjackal/ccorr/comparison/Comparison.java:215-226 | NOT_EXISTS for a stale comparison or one with no rows; otherwise what `extract` gives |
| Writing.ReadOnce | src/main/java/net/orfjackal/ccorr/combination/GoodCombinationWriter.java:87-95 | one read moves the cursor by the bytes it copies and never past the data |
| Writing.ReadToEnd | src/main/java/net/orfjackal/ccorr/combination/GoodCombinationWriter.java:76-84 | the repeated reads move the cursor by the bytes copied |
| Writing.Drain | src/main/java/net/orfjackal/ccorr/combination/GoodCombinationWriter.java:74-85 | `copyDataFromPosition` moves the cursor by the bytes copied |
| Writing.CopyPart | src/main/java/net/orfjackal/ccorr/combination/GoodCombinationWriter.java:69-72 | the cursor stays within the data |
| Writing.ReadOnceTakes | src/main/java/net/orfjackal/ccorr/combination/GoodCombinationWriter.java:87-95 | one read copies exactly the bytes at the cursor: as many as asked for, or as remain; nothing from a closed stream |
| Writing.ReadToEndTakes | src/main/java/net/orfjackal/ccorr/combination/GoodCombinationWriter.java:76-84 | reading to the end copies the bytes from the cursor on and, unless it fails, reaches the end |
| Writing.CopyPartTakes | src/main/java/net/orfjackal/ccorr/combination/GoodCombinationWriter.java:69-103 | a part's copy is bytes of the stream from cursor + start on; over the modelled stream (whose skip stops at the end of the data), a closed stream or a skip past the end copies nothing and fails |
| Writing.DrainTakes | src/main/java/net/orfjackal/ccorr/combination/GoodCombinationWriter.java:74-85 | what `copyDataFromPosition` writes is the bytes from the cursor to where it stops |
| Writing.Cursors | src/main/java/net/orfjackal/ccorr/GoodCombination.java:19 | the position and closed flag of every cached stream |
| Writing.WriteOne | src/main/java/net/orfjackal/ccorr/combination/GoodCombinationWriter.java:63-67 | a part without a cached stream throws NullPointerException and writes nothing; the only other failure is an IOException |
| Writing.WriteAll | src/main/java/net/orfjackal/ccorr/combination/GoodCombinationWriter.java:58-61 | writing only appends to the output, and fails only with IOException or NullPointerException |
| Writing.ContiguousCovered | src/main/java/net/orfjackal/ccorr/combination/GoodCombinationWriter.java:41-48 | for contiguous ranges from byte 0, the bytes covered are the last end + 1 |
| Writing.SmallPartCopied | src/main/java/net/orfjackal/ccorr/combination/GoodCombinationWriter.java:74-85 | a part shorter than a buffer, in a readable open stream, is copied exactly in one read: bytes start..end, or start up to the end of the stream when the end offset is the stream length (the extractor's last range) |
| Writing.ReadToEndCopiesRest | src/main/java/net/orfjackal/ccorr/combination/GoodCombinationWriter.java:76-84 | with no unreadable byte ahead, reading to the end copies all the rest |
| Writing.LargePartCopiedToEnd | src/main/java/net/orfjackal/ccorr/combination/GoodCombinationWriter.java:74-85 | a part of a buffer or more is copied from its start to the end of the file, since `pos` never advances |
| Writing.SameStreamRelative | src/main/java/net/orfjackal/ccorr/combination/GoodCombinationWriter.java:97-103 | a second part from the same stream is skipped to relative to where the first one stopped |
| Writing.FreshSmallWritten | src/main/java/net/orfjackal/ccorr/combination/GoodCombinationWriter.java:63-85 | a small part on a fresh stream is written exactly, cut at the end of its file, and leaves the stream just past what it wrote |
| Writing.SeparateSmallPartsWritten | src/main/java/net/orfjackal/ccorr/combination/GoodCombinationWriter.java:58-85 | when every part is small and comes from a freshly opened stream of its own, the output is exactly the designated byte ranges in order (a range ending at its file's length cut there), and writing succeeds |
| Writing.ExtractedRangesInFile | src/main/java/net/orfjackal/ccorr/combination/GoodCombinationExtractor.java:67-92 | every range an extraction keeps lies in the stream cached for its file, the last range ending at the file length included, when each file still opens with its recorded length; so the writer lemmas apply to the extractor's output |
| Writing.GoodCombinationWriter.constructor | src/main/java/net/orfjackal/ccorr/combination/GoodCombinationWriter.java:18-20 | the writer holds the combination and no streams |
| Writing.GoodCombinationWriter.WriteCombination | src/main/java/net/orfjackal/ccorr/combination/GoodCombinationWriter.java:22-39 | the output receives exactly the planned bytes and is closed; true if and only if writing succeeds; false if and only if it failed with an IOException; a NullPointerException escapes |
| Writing.GoodCombinationWriter.GetOutputFilesTotalLength | src/main/java/net/orfjackal/ccorr/combination/GoodCombinationWriter.java:41-48 | the sum over the parts of their inclusive lengths end - start + 1 (`GoodCombinationPart.Length`), less one |
| Writing.GoodCombinationWriter.TryWriteFile | src/main/java/net/orfjackal/ccorr/combination/GoodCombinationWriter.java:50-56 | all parts are written as `WriteAll` plans, and the output is closed on every path |
| Writing.GoodCombinationWriter.WriteParts | src/main/java/net/orfjackal/ccorr/combination/GoodCombinationWriter.java:58-61 | the loop writes the parts in list order, as `WriteAll` plans |
| Writing.GoodCombinationWriter.WriteItem | src/main/java/net/orfjackal/ccorr/combination/GoodCombinationWriter.java:63-67 | the part is copied from the stream cached for its index, as `WriteOne` plans |
| Writing.GoodCombinationWriter.CopyData | src/main/java/net/orfjackal/ccorr/combination/GoodCombinationWriter.java:69-72 | skip to the start, then copy, as `CopyPart` plans |
| Writing.GoodCombinationWriter.CopyDataFromPosition | src/main/java/net/orfjackal/ccorr/combination/GoodCombinationWriter.java:74-85 | the loop writes what `Drain` plans and leaves the cursor where it says |
| Writing.GoodCombinationWriter.CopyBuffer | src/main/java/net/orfjackal/ccorr/combination/GoodCombinationWriter.java:87-95 | exactly the bytes one read returns are written; false if and only if the read hit the end; an IOException from a failed read |
| Writing.GoodCombinationWriter.GotoStartPosition | src/main/java/net/orfjackal/ccorr/combination/GoodCombinationWriter.java:97-103 | the cursor moves by what the modelled skip moves it, at most `start`; `start` is returned exactly when the skip covers it, an IOException otherwise (the `skip != pos` test) |
| Writing.GoodCombinationWriter.CloseOutputStream | src/main/java/net/orfjackal/ccorr/combination/GoodCombinationWriter.java:105-111 | the output, if any, is closed with its bytes kept, then dropped |
| Writing.GoodCombinationWriter.Cancel | src/main/java/net/orfjackal/ccorr/combination/GoodCombinationWriter.java:113-117 | every cached stream and the output are closed and dropped, and UserCancellationException is thrown |

## Left out

- Logging, `toString` and the `Settings` singleton. Only `MIN_PART_SIZE` and `MAX_PART_SIZE` are taken, from `settings/Settings.java`.
- Serialization: `Checksums.writeObject`/`readObject`, the loaders and `ObjectSaver`.
- The progress-monitored subclasses (`MonitoredChecksumsCalculator`, `MonitoredGoodCombinationWriter`). They decide when `cancel` is called. `Cancel` itself is modelled; what triggers it is not.
- The digest algorithms (jacksum CRC-32, MD5, SHA-1). They are the uninterpreted function field `CRCAlgorithm.hexOf`.
- Opening OS files and the read/write buffer sizes of the buffered streams. A file is a snapshot, and a stream is (bytes, cursor, closed).
- JavaIo.InputStream.Skip, JavaIo.InputStream.Read: an idealised stream whose skip and read move exactly min(n, bytes left). The streams of `StreamFactory` are a `BufferedInputStream` with a 1 MiB buffer over a `FileInputStream`, and the model does not capture two of their behaviours:
  - while bytes are buffered, `skip` skips at most the buffered bytes. A relative skip larger than what is left of the buffer then makes `gotoStartPosition` throw and `writeCombination` answer false, where the model's skip succeeds (compare `Writing.SameStreamRelative`);
  - with an empty buffer, `FileInputStream.skip` may move past the end of the file and answer n. Java then copies nothing and does not fail, where the model's skip answers the shorter count and `GotoStartPosition` fails with an IOException.
- Java `long`/`int` overflow. Offsets, counts and part lengths are unbounded integers. The casts `(int) partLength` and `(int) (end - pos + 1)` cannot overflow within the clamped part size and the 1 MiB buffer.
- IEEE rounding of the similarity ratio. Values are reals; NaN and the infinities are kept only for the division by zero.
- `HashMap`/`Hashtable` iteration order. `GoodCombination.closeStreams` closes every stream, and the model does not fix the order.
- An `IOException` from `flush`/`close` of the output, and from closing a cached input stream. The model's streams close without failing.
- Streams opened by the extractor stay open when the extractor itself throws. The model reports the exception and does not close them, as the source does not.
- Extraction.GoodCombinationExtractor.CloseStreams: the `IOException` that `closeStreams` swallows with `printStackTrace` cannot arise in the model.
- Calculation.FileChecksumsCalculator.CalculateChecksums: requires an existing, readable source file. For any other file, `divide` throws and `close` then dereferences a stream that was never opened. That `NullPointerException` escapes instead of becoming `EMPTY_DATA`.
- Writing.GoodCombinationWriter.WriteCombination: takes a non-null output stream and requires every part to be valid, as `GoodCombination.add` keeps them. The `NullPointerException` of a part with no cached stream is modelled.
- Writing.WriteOne: its branch for a cached stream whose cursor is not known is unreachable once the cursors describe every cached stream. It answers a plain failure there.
- Crc.CRC.Update: requires `offset < |bytes|` on the first update, where Java would throw `ArrayIndexOutOfBoundsException`. The only caller passes offset 0 and a non-empty buffer.
- The end-to-end test that re-checksums a written combination is not restated as one lemma. Its steps are proved separately: `Extraction.RangesFromRows` gives the ranges, `Writing.ExtractedRangesInFile` shows they all lie in the cached streams (the last one included), `Writing.SeparateSmallPartsWritten` gives the bytes written for small parts on separate streams, and `Calculation.FileChecksumsCalculator.CalculateChecksums` checksums the result. Parts sharing a stream or spanning a buffer or more follow the quirks below rather than that lemma.
- GUI, `Main`, Spring wiring (`GoodCombinationWriterFactory`) and the legacy top-level copies of the comparison classes are not part of this model.

Quirks the model keeps as the source has them:
- the uniformity scan of `CRC.update` runs from `offset` to `length`, not to `offset + length`;
- rows stay in discovery order;
- a cell whose file lacks the part reads BAD;
- `addComparisonItem(part, null)` never finds an item, because `"".equals(null)` is false, so each `doCompare` appends one more `""` item per file that lacks a differing row's part;
- the extractor uses the row index as a part number, and the last range ends at the file length, not length - 1;
- the writer never advances `pos` inside a part, so a part of a buffer or more is read to the end of its file;
- `skip` is relative to the cached stream's position.
