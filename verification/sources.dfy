/**
 * Config-file sources. An `io.Reader` is a `Source`: the lines a
 * `bufio.Scanner` would yield, whether the reader also implements
 * `io.Closer`, and whether it has been closed. The file system is a map
 * from path to the lines of the file.
 */
module Sources {
  import opened Wrappers
  import opened Fields

  class Source {
    const lines: seq<string>
    /** Whether the reader implements io.Closer. */
    const closable: bool
    var closed: bool

    constructor (lines: seq<string>, closable: bool)
      ensures this.lines == lines && this.closable == closable && !closed
    {
      this.lines := lines;
      this.closable := closable;
      closed := false;
    }

    /** Closes the reader when it implements io.Closer; any other reader is left as it is. */
    method CloseIfCloser()
      modifies this
      ensures closed == (old(closed) || closable)
    {
      if closable {
        closed := true;
      }
    }
  }

  /** The files that `os.Open` can open, with their lines. */
  datatype Disk = Disk(files: map<string, seq<string>>)

  /** `os.Open`: a fresh, closable reader over the file, or an error naming the path. */
  method Open(disk: Disk, path: string) returns (r: Result<Source, Error>)
    ensures r.Ok? <==> path in disk.files
    ensures r.Ok? ==> fresh(r.value) && r.value.lines == disk.files[path]
                      && r.value.closable && !r.value.closed
    ensures r.Err? ==> r.error == OpenFailed(path)
  {
    if path in disk.files {
      var f := new Source(disk.files[path], true);
      return Ok(f);
    }
    return Err(OpenFailed(path));
  }
}
