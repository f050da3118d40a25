/**
 * The working directory the script reads and writes: file names mapped to
 * what they hold. Only the operations the script performs are modelled:
 * `os.path.exists`, `os.remove` and writing a whole file.
 */
module FileSystem {

  /** What a file holds: audio written as WAV, or text written as UTF-8. */
  datatype Content = Wav(audio: seq<int>) | Utf8(text: string)

  class Directory {
    var files: map<string, Content>

    constructor (initial: map<string, Content>)
      ensures files == initial
    {
      files := initial;
    }

    /** `os.path.exists(name)`. */
    method Exists(name: string) returns (present: bool)
      ensures present <==> name in files
    {
      present := name in files;
    }

    /** `os.remove(name)`; the script only removes a file it knows exists. */
    method Remove(name: string)
      requires name in files
      modifies this
      ensures files == old(files) - {name}
      ensures name !in files
    {
      files := files - {name};
    }

    /** Creates `name`, or overwrites it, with `content`. */
    method Write(name: string, content: Content)
      modifies this
      ensures files == old(files)[name := content]
    {
      files := files[name := content];
    }
  }
}
