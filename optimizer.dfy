/**
 * The optimization pass of the image optimizer page (app.py, `main`, lines 34-79,
 * without its display calls): persist the upload to `temp_<name>`, measure it,
 * and when it is larger than 2 MB build one simulated variant per quality in
 * [75, 50, 25], writing the ORIGINAL bytes to `optimized_<quality>_<name>` each
 * time, then offer the chosen variant's truncated bytes for download.
 */
module ImageOptimizer {
  import opened Buffers
  import opened Compression
  import opened Storage

  /** The fixed quality levels, in the order the page offers them. */
  const Qualities: seq<nat> := [75, 50, 25]

  /** The radio button's default: the first quality level. */
  const DefaultChoice: nat := Qualities[0]

  /** The page optimizes only files strictly larger than this many MB. */
  const ThresholdMB: nat := 2

  /** The content type declared for every download, whatever format was uploaded. */
  const DownloadMime: string := "image/jpeg"

  /** One entry of the results dictionary: the simulated size in MB and the truncated bytes. */
  datatype Variant = Variant(size: real, data: Bytes)

  /** What the download button offers: a file name, the payload and its declared content type. */
  datatype Download = Download(fileName: Path, data: Bytes, mime: string)

  /** What one pass over an upload produces for the page. */
  datatype Outcome =
    | NoOptimizationNeeded(originalSize: real)
    | Optimized(originalSize: real, results: map<nat, Variant>, download: Download)

  // ---------------------------------------------------------------------------
  // File names

  predicate IsDigit(c: char) {
    '0' <= c <= '9'
  }

  function DigitChar(d: nat): (c: char)
    requires d < 10
    ensures IsDigit(c) && c as int == '0' as int + d
  {
    (48 + d) as char
  }

  /** Python's `str` of a non-negative integer: its decimal digits, most significant first. */
  function Decimal(n: nat): (s: string)
    ensures |s| >= 1
    ensures forall i :: 0 <= i < |s| ==> IsDigit(s[i])
  {
    if n < 10 then [DigitChar(n)] else Decimal(n / 10) + [DigitChar(n % 10)]
  }

  /** Different numbers print differently. */
  lemma {:induction false} DecimalInjective(a: nat, b: nat)
    requires Decimal(a) == Decimal(b)
    ensures a == b
  {
    if a >= 10 && b >= 10 {
      var da, db := Decimal(a / 10), Decimal(b / 10);
      assert Decimal(a) == da + [DigitChar(a % 10)];
      assert Decimal(b) == db + [DigitChar(b % 10)];
      assert |da| == |db|;
      assert da == Decimal(a)[..|da|];
      assert db == Decimal(b)[..|db|];
      assert DigitChar(a % 10) == Decimal(a)[|da|] == Decimal(b)[|db|] == DigitChar(b % 10);
      DecimalInjective(a / 10, b / 10);
    }
  }

  /** The quality levels print as their two digits. */
  lemma DecimalOfQualities()
    ensures Decimal(75) == "75" && Decimal(50) == "50" && Decimal(25) == "25"
  {
  }

  /** Where an upload is persisted: `temp_<name>`. */
  function TempPath(name: string): Path {
    "temp_" + name
  }

  /** Where the file for one quality is written, and what the download is called: `optimized_<quality>_<name>`. */
  function OptimizedPath(quality: nat, name: string): Path {
    "optimized_" + Decimal(quality) + "_" + name
  }

  /** Two qualities never share an output path. */
  lemma OptimizedPathInjective(q1: nat, q2: nat, name: string)
    requires OptimizedPath(q1, name) == OptimizedPath(q2, name)
    ensures q1 == q2
  {
    var s1, s2 := Decimal(q1), Decimal(q2);
    var p1, p2 := OptimizedPath(q1, name), OptimizedPath(q2, name);
    assert p1 == "optimized_" + s1 + "_" + name;
    assert p2 == "optimized_" + s2 + "_" + name;
    assert s1 == p1[10..10 + |s1|] == p2[10..10 + |s2|] == s2;
    DecimalInjective(q1, q2);
  }

  /** The temporary copy never shares a path with an output file. */
  lemma TempPathIsNotOptimized(quality: nat, name: string)
    ensures TempPath(name) != OptimizedPath(quality, name)
  {
  }

  /** The output paths of a list of qualities. */
  function OptimizedPaths(name: string, qs: seq<nat>): set<Path> {
    set q | q in qs :: OptimizedPath(q, name)
  }

  /** The three output paths of one pass are exactly the three quality-tagged names. */
  lemma QualityOutputPaths(name: string)
    ensures OptimizedPaths(name, Qualities)
         == {"optimized_75_" + name, "optimized_50_" + name, "optimized_25_" + name}
    ensures TempPath(name) !in OptimizedPaths(name, Qualities)
  {
    DecimalOfQualities();
    assert OptimizedPath(75, name) == "optimized_75_" + name;
    assert OptimizedPath(50, name) == "optimized_50_" + name;
    assert OptimizedPath(25, name) == "optimized_25_" + name;
    assert forall q :: q in Qualities <==> q == 75 || q == 50 || q == 25;
    forall q | q in Qualities
      ensures TempPath(name) != OptimizedPath(q, name)
    {
      TempPathIsNotOptimized(q, name);
    }
  }

  // ---------------------------------------------------------------------------
  // The results dictionary and the files written by the loop

  /** The dictionary entry the loop records for one quality. */
  function MakeVariant(data: Bytes, quality: nat): Variant {
    var optimized := OptimizeImage(data, quality);
    Variant(SizeInMB(|optimized|), optimized)
  }

  /** The results dictionary after the loop has visited `qs`, in order. */
  function VariantsFor(data: Bytes, qs: seq<nat>): map<nat, Variant>
    decreases |qs|
  {
    if qs == [] then map[]
    else VariantsFor(data, qs[..|qs| - 1])[qs[|qs| - 1] := MakeVariant(data, qs[|qs| - 1])]
  }

  /** The dictionary has one key per visited quality, each holding that quality's variant. */
  lemma {:induction false} VariantsForSpec(data: Bytes, qs: seq<nat>)
    ensures VariantsFor(data, qs).Keys == set q | q in qs
    ensures forall q :: q in qs ==> VariantsFor(data, qs)[q] == MakeVariant(data, q)
    decreases |qs|
  {
    if qs != [] {
      var init, last := qs[..|qs| - 1], qs[|qs| - 1];
      VariantsForSpec(data, init);
      assert qs == init + [last];
      assert (set q | q in qs) == (set q | q in init) + {last};
    }
  }

  /** The directory after the loop has written the original bytes to the output path of each quality in `qs`. */
  function StoreOptimized(files: map<Path, Bytes>, name: string, data: Bytes, qs: seq<nat>): map<Path, Bytes>
    decreases |qs|
  {
    if qs == [] then files
    else StoreOptimized(files, name, data, qs[..|qs| - 1])[OptimizedPath(qs[|qs| - 1], name) := data]
  }

  /**
   * The loop adds exactly the output paths of `qs`, each holding `data`, and
   * leaves every other file as it was.
   */
  lemma {:induction false} StoreOptimizedSpec(files: map<Path, Bytes>, name: string, data: Bytes, qs: seq<nat>)
    ensures StoreOptimized(files, name, data, qs).Keys == files.Keys + OptimizedPaths(name, qs)
    ensures forall q :: q in qs ==> StoreOptimized(files, name, data, qs)[OptimizedPath(q, name)] == data
    ensures forall p :: p in files && p !in OptimizedPaths(name, qs) ==>
      StoreOptimized(files, name, data, qs)[p] == files[p]
    decreases |qs|
  {
    if qs != [] {
      var init, last := qs[..|qs| - 1], qs[|qs| - 1];
      StoreOptimizedSpec(files, name, data, init);
      assert qs == init + [last];
      assert OptimizedPaths(name, qs) == OptimizedPaths(name, init) + {OptimizedPath(last, name)};
    }
  }

  // ---------------------------------------------------------------------------
  // One pass of the page

  /** Whether a stored file of this many bytes is above the page's size threshold. */
  predicate ExceedsThreshold(byteCount: nat) {
    SizeInMB(byteCount) > ThresholdMB as real
  }

  /** What the page shows and offers for an upload, with `chosen` the radio button's value. */
  function SessionOutcome(name: string, upload: Bytes, chosen: nat): Outcome
    requires chosen in Qualities
  {
    var originalSize := SizeInMB(|upload|);
    if ExceedsThreshold(|upload|) then
      var results := VariantsFor(upload, Qualities);
      VariantsForSpec(upload, Qualities);
      Optimized(originalSize, results, Download(OptimizedPath(chosen, name), results[chosen].data, DownloadMime))
    else
      NoOptimizationNeeded(originalSize)
  }

  /** The working directory after one pass over an upload. */
  function SessionDisk(files: map<Path, Bytes>, name: string, upload: Bytes): map<Path, Bytes> {
    var stored := files[TempPath(name) := upload];
    if ExceedsThreshold(|upload|) then StoreOptimized(stored, name, upload, Qualities) else stored
  }

  /**
   * The body of `main` once a file is uploaded: persist it, measure it, and if it
   * is larger than 2 MB run the variant loop and pick the chosen variant.
   */
  method RunSession(fs: FileSystem, name: string, upload: Bytes, chosen: nat) returns (outcome: Outcome)
    requires chosen in Qualities
    modifies fs
    ensures outcome == SessionOutcome(name, upload, chosen)
    ensures fs.files == SessionDisk(old(fs.files), name, upload)
  {
    var tempFilePath := TempPath(name);
    fs.WriteImage(tempFilePath, upload);
    var measured := fs.GetImageSize(tempFilePath);
    var originalSize := measured.value;
    if originalSize > ThresholdMB as real {
      var qualities := Qualities;
      var optimizedResults: map<nat, Variant> := map[];
      ghost var stored := fs.files;
      var i := 0;
      while i < |qualities|
        invariant 0 <= i <= |qualities|
        invariant optimizedResults == VariantsFor(upload, qualities[..i])
        invariant fs.files == StoreOptimized(stored, name, upload, qualities[..i])
        invariant tempFilePath in fs.files && fs.files[tempFilePath] == upload
      {
        var quality := qualities[i];
        var read := fs.ReadImage(tempFilePath);
        var originalData := read.value;
        var optimizedData := OptimizeImage(originalData, quality);
        var optimizedPath := OptimizedPath(quality, name);
        TempPathIsNotOptimized(quality, name);
        fs.WriteImage(optimizedPath, originalData);
        optimizedResults := optimizedResults[quality := Variant(SizeInMB(|optimizedData|), optimizedData)];
        assert qualities[..i + 1][..i] == qualities[..i];
        i := i + 1;
      }
      assert qualities[..i] == Qualities;
      VariantsForSpec(upload, Qualities);
      var chosenResult := optimizedResults[chosen];
      outcome := Optimized(originalSize, optimizedResults,
                           Download(OptimizedPath(chosen, name), chosenResult.data, DownloadMime));
    } else {
      outcome := NoOptimizationNeeded(originalSize);
    }
  }

  // ---------------------------------------------------------------------------
  // Properties of a pass

  /** The variants are built exactly when the stored file has more than 2 * 1024 * 1024 bytes. */
  lemma SessionOptimizesIffLarge(name: string, upload: Bytes, chosen: nat)
    requires chosen in Qualities
    ensures SessionOutcome(name, upload, chosen).Optimized? <==> |upload| > 2 * 1024 * 1024
    ensures SessionOutcome(name, upload, chosen).originalSize == SizeInMB(|upload|)
  {
    SizeInMBExceeds(|upload|, ThresholdMB);
  }

  /**
   * After the loop the results dictionary has exactly the keys 75, 50 and 25;
   * each entry holds the compressor's output for its quality and that output's size in MB.
   */
  lemma SessionResults(name: string, upload: Bytes, chosen: nat)
    requires chosen in Qualities
    requires |upload| > 2 * 1024 * 1024
    ensures SessionOutcome(name, upload, chosen).Optimized?
    ensures SessionOutcome(name, upload, chosen).results.Keys == {75, 50, 25}
    ensures forall q :: q in Qualities ==>
      && SessionOutcome(name, upload, chosen).results[q].data == SimulateCompression(upload, q)
      && |SessionOutcome(name, upload, chosen).results[q].data| == |upload| * q / 100
      && SessionOutcome(name, upload, chosen).results[q].size == SizeInMB(|upload| * q / 100)
  {
    SessionOptimizesIffLarge(name, upload, chosen);
    VariantsForSpec(upload, Qualities);
    assert (set q | q in Qualities) == {75, 50, 25};
  }

  /**
   * The variants, in the order the page builds them, are non-increasing: each
   * one's bytes are a prefix of the previous one's and its size is no larger.
   */
  lemma SessionVariantsShrink(name: string, upload: Bytes, chosen: nat)
    requires chosen in Qualities
    requires |upload| > 2 * 1024 * 1024
    ensures var r := SessionOutcome(name, upload, chosen).results;
      && {75, 50, 25} <= r.Keys
      && r[25].data <= r[50].data <= r[75].data <= upload
      && r[25].size <= r[50].size <= r[75].size <= SizeInMB(|upload|)
  {
    SessionResults(name, upload, chosen);
    SimulateCompressionMonotone(upload, 25, 50);
    SimulateCompressionMonotone(upload, 50, 75);
    var n25, n50, n75 := |upload| * 25 / 100, |upload| * 50 / 100, |upload| * 75 / 100;
    SizeInMBMonotone(n25, n50);
    SizeInMBMonotone(n50, n75);
    SizeInMBMonotone(n75, |upload|);
  }

  /**
   * The download is the chosen quality's truncated buffer, named
   * `optimized_<quality>_<name>` and declared as JPEG.
   */
  lemma SessionDownload(name: string, upload: Bytes, chosen: nat)
    requires chosen in Qualities
    requires |upload| > 2 * 1024 * 1024
    ensures var o := SessionOutcome(name, upload, chosen);
      && o.Optimized?
      && chosen in o.results
      && o.download.data == o.results[chosen].data == SimulateCompression(upload, chosen)
      && |o.download.data| == |upload| * chosen / 100
      && o.download.fileName == OptimizedPath(chosen, name)
      && o.download.mime == "image/jpeg"
  {
    SessionResults(name, upload, chosen);
  }

  /** With the radio button left at its default, the download is the first three quarters of the upload, named `optimized_75_<name>`. */
  lemma DefaultDownload(name: string, upload: Bytes)
    requires |upload| > 2 * 1024 * 1024
    ensures var o := SessionOutcome(name, upload, DefaultChoice);
      && o.Optimized?
      && o.download.fileName == "optimized_75_" + name
      && o.download.data == upload[..|upload| * 3 / 4]
  {
    SessionDownload(name, upload, DefaultChoice);
    DecimalOfQualities();
  }

  /**
   * Every pass leaves the upload in `temp_<name>`; a pass over a large upload
   * writes the ORIGINAL bytes, not the truncated ones, to each output path.
   */
  lemma SessionDiskContents(files: map<Path, Bytes>, name: string, upload: Bytes)
    ensures var r := SessionDisk(files, name, upload);
      TempPath(name) in r && r[TempPath(name)] == upload
    ensures |upload| > 2 * 1024 * 1024 ==>
      forall q :: q in Qualities ==>
        var r := SessionDisk(files, name, upload);
        OptimizedPath(q, name) in r && r[OptimizedPath(q, name)] == upload
  {
    SizeInMBExceeds(|upload|, ThresholdMB);
    var stored := files[TempPath(name) := upload];
    StoreOptimizedSpec(stored, name, upload, Qualities);
    QualityOutputPaths(name);
  }

  /**
   * A pass changes only `temp_<name>` and, for a large upload, the three output
   * paths; every other file is untouched and no other file appears.
   */
  lemma SessionDiskTouchesOnly(files: map<Path, Bytes>, name: string, upload: Bytes)
    ensures var r := SessionDisk(files, name, upload);
      r.Keys == files.Keys + {TempPath(name)}
                + (if |upload| > 2 * 1024 * 1024 then OptimizedPaths(name, Qualities) else {})
    ensures forall p :: p in files && p != TempPath(name) && p !in OptimizedPaths(name, Qualities) ==>
      var r := SessionDisk(files, name, upload);
      p in r && r[p] == files[p]
  {
    SizeInMBExceeds(|upload|, ThresholdMB);
    var stored := files[TempPath(name) := upload];
    StoreOptimizedSpec(stored, name, upload, Qualities);
  }

  /** At or below 2 MB nothing but the temporary copy is written: no output path is created or changed. */
  lemma SessionSmallWritesNoVariant(files: map<Path, Bytes>, name: string, upload: Bytes, chosen: nat)
    requires chosen in Qualities
    requires |upload| <= 2 * 1024 * 1024
    ensures SessionOutcome(name, upload, chosen).NoOptimizationNeeded?
    ensures SessionDisk(files, name, upload) == files[TempPath(name) := upload]
    ensures forall q :: q in Qualities ==>
      var r := SessionDisk(files, name, upload);
      && (OptimizedPath(q, name) in r <==> OptimizedPath(q, name) in files)
      && (OptimizedPath(q, name) in files ==> r[OptimizedPath(q, name)] == files[OptimizedPath(q, name)])
  {
    SizeInMBExceeds(|upload|, ThresholdMB);
    forall q | q in Qualities
      ensures TempPath(name) != OptimizedPath(q, name)
    {
      TempPathIsNotOptimized(q, name);
    }
  }

  /**
   * The file written for the chosen quality is not what is downloaded under
   * the same name: on disk it is the whole upload, in the download it is shorter.
   */
  lemma DiskCopyIsNotDownload(files: map<Path, Bytes>, name: string, upload: Bytes, chosen: nat)
    requires chosen in Qualities
    requires |upload| > 2 * 1024 * 1024
    ensures var r := SessionDisk(files, name, upload);
      var o := SessionOutcome(name, upload, chosen);
      && o.Optimized?
      && OptimizedPath(chosen, name) == o.download.fileName
      && OptimizedPath(chosen, name) in r
      && r[OptimizedPath(chosen, name)] == upload
      && |o.download.data| < |upload|
  {
    SessionDiskContents(files, name, upload);
    SessionDownload(name, upload, chosen);
    var n := |upload|;
    assert n * chosen <= n * 75 by {
      MulMonotone(n, chosen, 75);
    }
  }

  // ---------------------------------------------------------------------------
  // Worked scenarios

  /** A 3 MB upload is reported as 3.00 MB and gives variants of 2.25, 1.5 and 0.75 MB. */
  lemma ScenarioThreeMB(name: string, upload: Bytes, chosen: nat)
    requires chosen in Qualities
    requires |upload| == 3 * 1024 * 1024
    ensures var o := SessionOutcome(name, upload, chosen);
      && o.Optimized?
      && o.originalSize == 3.0
      && {75, 50, 25} <= o.results.Keys
      && o.results[75].size == 2.25
      && o.results[50].size == 1.5
      && o.results[25].size == 0.75
  {
    SessionResults(name, upload, chosen);
  }

  /** Choosing 50 on a 3 MB upload downloads half of it as `optimized_50_<name>`. */
  lemma ScenarioChooseFifty(name: string, upload: Bytes)
    requires |upload| == 3 * 1024 * 1024
    ensures var o := SessionOutcome(name, upload, 50);
      && o.Optimized?
      && |o.download.data| == 1572864
      && o.download.fileName == "optimized_50_" + name
  {
    SessionDownload(name, upload, 50);
    DecimalOfQualities();
  }

  /** A 1 MB upload needs no optimization and leaves only its temporary copy behind. */
  lemma ScenarioOneMB(files: map<Path, Bytes>, name: string, upload: Bytes, chosen: nat)
    requires chosen in Qualities
    requires |upload| == 1024 * 1024
    ensures SessionOutcome(name, upload, chosen) == NoOptimizationNeeded(1.0)
    ensures SessionDisk(files, name, upload) == files[TempPath(name) := upload]
  {
    SessionSmallWritesNoVariant(files, name, upload, chosen);
  }

  /** Two uploads with the same file name: the second one's bytes win in `temp_<name>`. */
  lemma ScenarioSameNameTwice(files: map<Path, Bytes>, name: string, first: Bytes, second: Bytes)
    ensures var r := SessionDisk(SessionDisk(files, name, first), name, second);
      TempPath(name) in r && r[TempPath(name)] == second
  {
    SessionDiskContents(SessionDisk(files, name, first), name, second);
  }
}
