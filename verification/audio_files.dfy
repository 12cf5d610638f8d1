/** `get_audio_files_from_folder`: a path that is not a directory is taken
    as the one audio file; a directory gives its `.wav` entries. Any
    unreadable directory or entry, and a `.wav` path that is not UTF-8,
    aborts the program (`unwrap`). */
module AudioFiles {
  import opened Wrappers
  import opened Text
  import opened Paths
  import opened Listings

  /** The program aborts; the payload names what went wrong. */
  datatype Abort = Abort(reason: String)

  const NotUtf8: Abort := Abort("path is not valid UTF-8")

  /** The per-entry test: the extension is exactly `wav` (so `.WAV` is
      not taken). */
  predicate IsWav(d: DirEntry) {
    Extension(d.path) == Some("wav")
  }

  /** `get_audio_files_from_folder(source)`, given whether `source` is a
      directory (false also when it does not exist) and, if it is, its
      listing. */
  function GetAudioFiles(source: String, isDir: bool, listing: Result<seq<Result<DirEntry, Abort>>, Abort>): (r: Result<seq<String>, Abort>)
    ensures !isDir ==> r == Success([source])
    ensures isDir && listing.Failure? ==> r == Failure(listing.error)
    ensures isDir && listing.Success? ==>
              (r.Failure? <==> exists i :: 0 <= i < |listing.value| && Aborts(listing.value[i], IsWav))
    ensures isDir && r.Success? ==> forall p :: p in r.value ==> Extension(p) == Some("wav")
    ensures isDir && r.Success? ==> forall i :: 0 <= i < |listing.value| && IsWav(listing.value[i].value) ==>
              listing.value[i].value.path in r.value
    ensures isDir && r.Success? ==> Subsequence(r.value, PathsOf(Oks(listing.value)))
  {
    if !isDir then Success([source])
    else
      match listing
      case Failure(e) => Failure(e)
      case Success(entries) =>
        KeepOrAbortSpec(entries, IsWav, NotUtf8);
        KeepOrAbort(entries, IsWav, NotUtf8)
  }
}
