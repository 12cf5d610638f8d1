/** `get_program_files`: the paths in a folder with a given extension
    whose text contains `process_audio`. Nothing here is an error: an
    unreadable folder gives no files, and unreadable entries and paths
    that are not UTF-8 are skipped. */
module ProgramFiles {
  import opened Wrappers
  import opened Text
  import opened Paths
  import opened Listings

  /** The marker every program file path must contain. */
  const ProgramMarker: String := "process_audio"

  /** The per-entry test: the extension equals `extension` exactly, the
      path is UTF-8, and the path contains `process_audio`. */
  predicate IsProgramFile(extension: String, d: DirEntry) {
    Extension(d.path) == Some(extension) && d.utf8 && Contains(d.path, ProgramMarker)
  }

  /** `get_program_files`, given the folder listing (`None` when the folder
      cannot be read; an entry is `None` when it cannot be read). */
  function GetProgramFiles(listing: Option<seq<Option<DirEntry>>>, extension: String): (r: seq<String>)
    ensures listing.None? ==> r == []
    ensures forall p :: p in r ==> Extension(p) == Some(extension) && Contains(p, ProgramMarker)
    ensures listing.Some? ==> forall i ::
              (0 <= i < |listing.value| && listing.value[i].Some? && IsProgramFile(extension, listing.value[i].value))
              ==> listing.value[i].value.path in r
    ensures listing.Some? ==> Subsequence(r, PathsOf(Readable(listing.value)))
  {
    match listing
    case None => []
    case Some(entries) =>
      KeepReadable(entries, d => IsProgramFile(extension, d))
  }
}
