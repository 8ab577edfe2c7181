# Image Optimizer page: a Dafny model of its byte-buffer logic

The repository is a single Streamlit page (`app.py`). A user uploads an image.
The page saves it as `temp_<name>` and measures its size in MB. If the file is
larger than 2 MB, the page builds a simulated "optimized" variant for each
quality in `[75, 50, 25]`. A variant is just the first `int(len * quality / 100)`
bytes of the upload. For each quality the page writes the ORIGINAL bytes to
`optimized_<quality>_<name>`, then offers the chosen quality's truncated bytes
for download under that same name (default choice: 75).

This project models that logic with everything visual removed:

- `Compression` (`compression.dfy`): `simulate_compression` and `optimize_image` as functions over
  `seq<bv8>`. For every integer quality they follow Python's `int()` truncation toward zero and its
  slice rules: `s[:n]` counts a negative `n` from the end and clamps `n` beyond the end.
- `Storage` (`storage.dfy`): the working directory is a class `FileSystem` whose field `files` maps each
  path to its bytes. `write_image` is a map update. `read_image` and `get_image_size` are lookups that
  return `None` for a missing file, where Python raises. A size in MB is the real `bytes / 1048576`.
  For byte counts below 2^53, Python's float division by a power of two is exact, so this is the value
  the program computes.
- `ImageOptimizer` (`optimizer.dfy`): the body of `main` after an upload, as the method `RunSession`.
  It writes the temp file, measures it, and loops over the qualities, filling the results map and writing
  the output files. It returns the page's `Outcome`: either no optimization, or the results map plus the
  download. The method is proved equal to two functions, `SessionOutcome` for what the page produces and
  `SessionDisk` for the directory afterwards. The lemmas state the page's properties about those two
  functions.
- `Wrappers` (`wrappers.dfy`): the `Option` type. `Buffers` (`buffers.dfy`): the `Bytes` type.

## Model

| member | source | states |
|---|---|---|
| Compression.PrefixSlice | app.py:21 | Python's `s[:stop]` always yields a prefix of `s`, for any stop |
| Compression.SimulateCompression | app.py:18-21 | the result is a prefix of the data for every quality; for 0..100 its length is `len * quality / 100` rounded down; from 100 up it is the whole data |
| Compression.OptimizeImage | app.py:23-25 | identical to the simulated compressor for every input, so it inherits that contract |
| Compression.QualityEndpoints | app.py:20-21 | quality 100 returns the whole buffer, quality 0 the empty buffer |
| Compression.SimulateCompressionMonotone | app.py:20-21 | for 0 <= lower <= higher, the lower quality's output is a prefix of (and no longer than) the higher one's |
| Compression.NegativeQualityCutsTail | app.py:20-21 | a quality in [-100, 0) keeps the data minus its scaled tail, or nothing when the scaled amount truncates to 0 |
| Storage.SizeInMB | app.py:6 | the MB value is non-negative and times 1024*1024 gives back the byte count |
| Storage.SizeInMBExceeds | app.py:39-44 | `size_mb > k` holds exactly when the byte count exceeds `k * 1024 * 1024` |
| Storage.SizeInMBMonotone | app.py:58 | more bytes never give a smaller MB figure |
| Storage.FileSystem.WriteImage | app.py:13-16 | the path now holds exactly the data, and every other path is unchanged |
| Storage.FileSystem.ReadImage | app.py:8-11 | succeeds exactly for an existing path and returns its whole contents |
| Storage.FileSystem.GetImageSize | app.py:4-6 | succeeds exactly for an existing path and returns its byte count divided by 1024*1024 |
| ImageOptimizer.Decimal | app.py:54 | Python's `str` of a quality is a non-empty string of decimal digits |
| ImageOptimizer.DecimalInjective | app.py:54 | different qualities print differently |
| ImageOptimizer.DecimalOfQualities | app.py:47-54 | 75, 50 and 25 print as "75", "50" and "25" |
| ImageOptimizer.OptimizedPathInjective | app.py:54 | two qualities never share an `optimized_<quality>_<name>` path |
| ImageOptimizer.TempPathIsNotOptimized | app.py:35-54 | `temp_<name>` is never an output path, so the loop never overwrites the upload it reads |
| ImageOptimizer.QualityOutputPaths | app.py:47-54 | the three output paths are `optimized_75_<name>`, `optimized_50_<name>`, `optimized_25_<name>`, none of them the temp path |
| ImageOptimizer.VariantsForSpec | app.py:48-60 | after visiting a list of qualities, the results map has exactly those keys, each holding its quality's compressed bytes and their MB size |
| ImageOptimizer.StoreOptimizedSpec | app.py:50-55 | the loop adds exactly the visited qualities' output paths, each holding the original data, and leaves every other file alone |
| ImageOptimizer.RunSession | app.py:34-79 | persisting, measuring, the variant loop and the choice produce `SessionOutcome` and leave the directory as `SessionDisk` |
| ImageOptimizer.SessionOptimizesIffLarge | app.py:39-44 | variants are built if and only if the stored file has more than 2*1024*1024 bytes; the reported size is its MB value |
| ImageOptimizer.SessionResults | app.py:47-60 | the results map has exactly the keys {75, 50, 25}; each entry is the compressor's output for that quality, of length `len * q / 100`, with that length in MB as its size |
| ImageOptimizer.SessionVariantsShrink | app.py:47-60 | the 25, 50 and 75 variants are nested prefixes of the upload with non-decreasing sizes, none above the original size |
| ImageOptimizer.SessionDownload | app.py:65-76 | the download is the chosen quality's truncated buffer, named `optimized_<q>_<name>`, declared image/jpeg |
| ImageOptimizer.DefaultDownload | app.py:65-74 | at the default choice the download is the first three quarters of the upload, named `optimized_75_<name>` |
| ImageOptimizer.SessionDiskContents | app.py:35-55 | `temp_<name>` holds the upload; for a large upload every output path holds the original, untruncated bytes |
| ImageOptimizer.SessionDiskTouchesOnly | app.py:35-55 | the only paths added are `temp_<name>` and, above the threshold, the three output paths; all other files keep their contents |
| ImageOptimizer.SessionSmallWritesNoVariant | app.py:44-79 | at or below 2 MB no variant is built and the only change is the temp file; no output path is created or altered |
| ImageOptimizer.DiskCopyIsNotDownload | app.py:55-74 | the file stored as `optimized_<q>_<name>` is the whole upload, while the download of that name is strictly shorter |
| ImageOptimizer.ScenarioThreeMB | app.py:39-62 | a 3 MB upload reports 3.0 MB and variants of 2.25, 1.5 and 0.75 MB |
| ImageOptimizer.ScenarioChooseFifty | app.py:65-74 | choosing 50 on a 3 MB upload downloads 1572864 bytes named `optimized_50_<name>` |
| ImageOptimizer.ScenarioOneMB | app.py:35-79 | a 1 MB upload needs no optimization and only its temp copy is written |
| ImageOptimizer.ScenarioSameNameTwice | app.py:35-37 | two uploads under one name: the second one's bytes end up in `temp_<name>` (last write wins) |

## Left out

- All Streamlit rendering: page config, title, text, image previews, warning and success messages, the
  radio widget and the download button itself (app.py:28-32, 40-45, 62-79). The radio's value is an
  input `chosen` drawn from [75, 50, 25]. Its default, index 0, is `DefaultChoice`.
- The upload widget's extension filter (jpg, jpeg, png). It is widget configuration and checks nothing in this code.
- `if chosen_quality:` (app.py:67) is not modelled as a branch: the radio only yields 75, 50 or 25, which are all truthy.
- File I/O failures other than a missing file (permissions, disk full, unreadable files) are not modelled.
  A missing file is `None`, and the pass never reads a missing one.
- Compression.SimulateCompression: computes `len * quality / 100` exactly. Python multiplies by the float
  `quality / 100`, which agrees for the qualities 0, 25, 50, 75 and 100 the page uses (binary-exact factors)
  on buffers below 2^51 bytes; from there on, `len * 0.75` may be rounded. For other qualities, such as 29, the float product can fall one byte short.
- The `:.2f` formatting of sizes is left out. Sizes are the exact reals that formatting would round.
- Concurrent sessions racing on the shared `temp_<name>` and `optimized_*` paths. The code has no
  concurrency, and the model covers one pass at a time.
- Files are never cleaned up. The model simply keeps every written path in `files`.
