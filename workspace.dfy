/**
 * The working tree the generator edits: a map from relative path to file
 * content, plus the paths that exist but cannot be read.
 */
module Workspace {

  /** What reading a path reports. */
  datatype ReadResult = Content(text: string) | NotExist | ReadFailed

  /** A snapshot of the working tree. */
  datatype Disk = Disk(files: map<string, string>, unreadable: set<string>)
  {
    /** os.ReadFile */
    function Read(path: string): ReadResult {
      if path in unreadable then ReadFailed
      else if path in files then Content(files[path])
      else NotExist
    }

    /** os.Stat succeeds: the path exists, readable or not. */
    predicate Exists(path: string) {
      path in files || path in unreadable
    }

    /** os.WriteFile: afterwards the path reads back as `content`. */
    function Write(path: string, content: string): (d: Disk)
      ensures d.Read(path) == Content(content)
      ensures forall p :: p != path ==> d.Read(p) == Read(p)
    {
      Disk(files[path := content], unreadable - {path})
    }
  }

  /** A second write to a path replaces the first: only the last content remains. */
  lemma WriteTwice(d: Disk, path: string, first: string, second: string)
    ensures d.Write(path, first).Write(path, second) == d.Write(path, second)
  {
    assert d.Write(path, first).Write(path, second).files == d.Write(path, second).files;
  }

  /** The working tree as mutable state. */
  class Tree {
    var files: map<string, string>
    var unreadable: set<string>

    constructor (files0: map<string, string>, unreadable0: set<string>)
      ensures files == files0 && unreadable == unreadable0
    {
      files := files0;
      unreadable := unreadable0;
    }

    function State(): Disk
      reads this
    {
      Disk(files, unreadable)
    }

    function Read(path: string): ReadResult
      reads this
    {
      State().Read(path)
    }

    method Write(path: string, content: string)
      modifies this
      ensures State() == old(State()).Write(path, content)
    {
      files := files[path := content];
      unreadable := unreadable - {path};
    }
  }
}
