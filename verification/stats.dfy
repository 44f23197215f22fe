/** `ConversionStats`, the per-engine accumulator the ImageMagick engine
    updates once per `convert` call. Its class lives in a module that is not
    part of this model; it is defined here from its call sites: a fresh
    value, `add_skipped()`, `add_processed(before, after)` and
    `total_files == processed_files + skipped_files`. */
module Stats {

  datatype ConversionStats = ConversionStats(
    processed: nat,
    skipped: nat,
    sizeBefore: int,   // sum of the "before" sizes of processed files
    sizeAfter: int     // sum of the "after" sizes of processed files
  )

  /** A freshly constructed accumulator. */
  function Fresh(): ConversionStats {
    ConversionStats(0, 0, 0, 0)
  }

  /** `total_files`: every file offered, processed or skipped. */
  function Total(s: ConversionStats): nat {
    s.processed + s.skipped
  }

  /** Bytes saved so far; negative when re-encoding grew the files. */
  function Saved(s: ConversionStats): int {
    s.sizeBefore - s.sizeAfter
  }

  /** `add_skipped()`: one more file left as it was; byte totals untouched. */
  function AddSkipped(s: ConversionStats): (r: ConversionStats)
    ensures Total(r) == Total(s) + 1
    ensures r.skipped == s.skipped + 1 && r.processed == s.processed
    ensures r.sizeBefore == s.sizeBefore && r.sizeAfter == s.sizeAfter
  {
    s.(skipped := s.skipped + 1)
  }

  /** `add_processed(before, after)`: one more file re-encoded, its sizes added. */
  function AddProcessed(s: ConversionStats, before: int, after: int): (r: ConversionStats)
    ensures Total(r) == Total(s) + 1
    ensures r.processed == s.processed + 1 && r.skipped == s.skipped
    ensures r.sizeBefore == s.sizeBefore + before && r.sizeAfter == s.sizeAfter + after
    ensures Saved(r) == Saved(s) + (before - after)
  {
    ConversionStats(s.processed + 1, s.skipped, s.sizeBefore + before, s.sizeAfter + after)
  }

  /** The order in which files are recorded does not matter: a directory
      listing in any order yields the same statistics. */
  lemma RecordingCommutes(s: ConversionStats, before: int, after: int, before2: int, after2: int)
    ensures AddSkipped(AddProcessed(s, before, after)) == AddProcessed(AddSkipped(s), before, after)
    ensures AddProcessed(AddProcessed(s, before, after), before2, after2)
         == AddProcessed(AddProcessed(s, before2, after2), before, after)
  {
  }
}
