/**
 * The storage helpers of the image optimizer page (app.py, lines 4-16): the
 * working directory is a map from path to file contents, which `write_image`
 * updates and `read_image` and `get_image_size` consult.
 */
module Storage {
  import opened Wrappers
  import opened Buffers

  type Path = string

  /** Bytes in one MB as the page counts them (1024 * 1024). */
  const BytesPerMB: nat := 1024 * 1024

  /**
   * A byte count in MB, `bytes / (1024 * 1024)`. For byte counts below 2^53 the
   * floating-point division by a power of two is exact, so the exact real
   * quotient is what the program computes.
   */
  function SizeInMB(byteCount: nat): (mb: real)
    ensures mb >= 0.0
    ensures mb * BytesPerMB as real == byteCount as real
  {
    byteCount as real / BytesPerMB as real
  }

  /** Comparing a size in MB with a whole number of MB is comparing byte counts. */
  lemma SizeInMBExceeds(byteCount: nat, limit: nat)
    ensures SizeInMB(byteCount) > limit as real <==> byteCount > limit * BytesPerMB
  {
  }

  /** A larger byte count is a larger size in MB. */
  lemma SizeInMBMonotone(smaller: nat, larger: nat)
    requires smaller <= larger
    ensures SizeInMB(smaller) <= SizeInMB(larger)
  {
  }

  /** The files of the process's working directory. */
  class FileSystem {
    var files: map<Path, Bytes>

    constructor (initial: map<Path, Bytes>)
      ensures files == initial
    {
      files := initial;
    }

    /** write_image: create or overwrite one file; every other file stays as it was. */
    method WriteImage(path: Path, data: Bytes)
      modifies this
      ensures files == old(files)[path := data]
      ensures path in files && files[path] == data
      ensures forall p :: p != path ==> (p in files <==> p in old(files))
      ensures forall p :: p != path && p in old(files) ==> files[p] == old(files)[p]
    {
      files := files[path := data];
    }

    /** read_image: the whole contents of an existing file; a missing file is an error (None). */
    method ReadImage(path: Path) returns (r: Option<Bytes>)
      ensures r.Some? <==> path in files
      ensures r.Some? ==> r.value == files[path]
    {
      if path in files {
        r := Some(files[path]);
      } else {
        r := None;
      }
    }

    /** get_image_size: the size of an existing file in MB; a missing file is an error (None). */
    method GetImageSize(path: Path) returns (r: Option<real>)
      ensures r.Some? <==> path in files
      ensures r.Some? ==> r.value == SizeInMB(|files[path]|)
    {
      if path in files {
        r := Some(SizeInMB(|files[path]|));
      } else {
        r := None;
      }
    }
  }
}
