/**
 * The file system the converter reads and writes: the set of paths that
 * exist (files or directories), and the text of every file written.
 */
module FileSystems {

  class FileSystem {
    /** Paths for which `os.path.exists` holds. */
    var existing: set<string>
    /** Text of the files, by path. */
    var contents: map<string, string>

    /** Every file with contents exists. */
    predicate Valid()
      reads this
    {
      contents.Keys <= existing
    }

    constructor (existing0: set<string>, contents0: map<string, string>)
      requires contents0.Keys <= existing0
      ensures Valid()
      ensures existing == existing0 && contents == contents0
    {
      existing := existing0;
      contents := contents0;
    }

    /** `os.path.exists(path)`; in particular every file written so far exists. */
    method Exists(path: string) returns (b: bool)
      requires Valid()
      ensures b <==> path in existing
      ensures path in contents ==> b
    {
      b := path in existing;
    }

    /** `open(path, 'w').write(text)`: the file is created or truncated and holds exactly `text`. */
    method Write(path: string, text: string)
      requires Valid()
      modifies this
      ensures Valid()
      ensures existing == old(existing) + {path}
      ensures contents == old(contents)[path := text]
    {
      existing := existing + {path};
      contents := contents[path := text];
    }
  }
}
