/** The file system as the engine sees it: a map from paths to contents. */
module Files {

  /** A file's contents: text, or bytes that are not valid UTF-8. */
  datatype FileEntry = Text(text: string) | Undecodable

  datatype ReadOutcome = ReadOk(text: string) | ReadFailed(message: string)

  datatype WriteOutcome = Written | WriteFailed(message: string)

  /** One attempted write, in the order they were attempted. */
  datatype WriteRecord = WriteRecord(path: string, content: string, outcome: WriteOutcome)

  /** The messages the standard library gives for a missing file and for a file
      that is not valid UTF-8. */
  const NotFoundMessage: string := "No such file or directory (os error 2)"
  const InvalidUtf8Message: string := "stream did not contain valid UTF-8"

  /** `std::fs::read_to_string` on a snapshot of the file system. */
  function ReadToString(files: map<string, FileEntry>, path: string): (r: ReadOutcome)
    ensures r.ReadOk? <==> path in files && files[path].Text?
    ensures r.ReadOk? ==> r.text == files[path].text
  {
    if path !in files then ReadFailed(NotFoundMessage)
    else match files[path]
      case Text(text) => ReadOk(text)
      case Undecodable => ReadFailed(InvalidUtf8Message)
  }

  /** `Path::join`: an absolute `file` replaces `dir`; otherwise the two are joined
      with one separator. */
  function JoinPath(dir: string, file: string): string {
    if |file| > 0 && file[0] == '/' then file
    else if dir == "" then file
    else if dir[|dir| - 1] == '/' then dir + file
    else dir + "/" + file
  }

  class FileSystem {
    var files: map<string, FileEntry>
    /** Every write attempted so far. */
    ghost var log: seq<WriteRecord>

    constructor (files: map<string, FileEntry>)
      ensures this.files == files && log == []
    {
      this.files := files;
      log := [];
    }

    /** `std::fs::write`: either the file now holds `content`, or the write failed
        with some message and nothing changed. Which one happens is up to the
        environment. */
    method Write(path: string, content: string) returns (w: WriteOutcome)
      modifies this
      ensures log == old(log) + [WriteRecord(path, content, w)]
      ensures files == if w.Written? then old(files)[path := Text(content)] else old(files)
    {
      var ok: bool := *;
      if ok {
        files := files[path := Text(content)];
        w := Written;
      } else {
        var message: string := *;
        w := WriteFailed(message);
      }
      log := log + [WriteRecord(path, content, w)];
    }
  }
}
