/** The filesystem as the tree builder sees it. A `FileObject` wraps a native
    file or directory; the model keeps only what the builder and the queries
    ask of it: its short name, its absolute path, whether it is a file, a
    directory or neither, and the entries a directory enumerates. */
module Entries {

  /** `isFile()` and `isDirectory()` are never both true; an entry can be
      neither (a device, a broken link). */
  datatype Kind = File | Directory | Other

  /** One filesystem entry. `name` is `getName()`, `longName` is
      `getLongName()`, and `entries` is what `directoryFiles()` yields, in
      enumeration order. Only a directory's `entries` are ever consulted. */
  datatype Entry = Entry(name: string, longName: string, kind: Kind, entries: seq<Entry>)

  /** Why a `FileObject` could not be constructed for a path. */
  datatype FileObjectError = FileObjectError(path: string)

  /** Java's `String.endsWith`: case-sensitive literal suffix; every string
      ends with the empty string. */
  predicate EndsWith(s: string, suffix: string)
  {
    |suffix| <= |s| && s[|s| - |suffix|..] == suffix
  }

  /** What the builder enumerates below `e`: a directory's entries, and
      nothing for any other entry. */
  function Listed(e: Entry): seq<Entry>
  {
    if e.kind == Directory then e.entries else []
  }

  /** Every entry reachable from `e`, in pre-order: the entry itself, then
      the walk of each enumerated entry in turn, entering directories only. */
  function Walk(e: Entry): (w: seq<Entry>)
    decreases e
    ensures |w| >= 1 && w[0] == e
  {
    [e] + (if e.kind == Directory then WalkSeq(e.entries) else [])
  }

  /** The walks of a sequence of sibling entries, one after another. */
  function WalkSeq(es: seq<Entry>): seq<Entry>
    decreases es
  {
    if es == [] then [] else Walk(es[0]) + WalkSeq(es[1..])
  }
}
