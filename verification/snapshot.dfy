/** The filesystem is modelled as a snapshot taken before an operation runs:
    a directory listing is a sequence of entries in the order the platform
    returned them. */
module Snapshot {

  /** One directory entry: its name, whether it is a directory, and its
      modification time in milliseconds. */
  datatype Dirent = Dirent(name: string, isDir: bool, mtime: int)

  /** The names of a listing, in listing order. */
  function Names(entries: seq<Dirent>): (r: seq<string>)
    ensures |r| == |entries|
    ensures forall i :: 0 <= i < |entries| ==> r[i] == entries[i].name
  {
    if |entries| == 0 then [] else [entries[0].name] + Names(entries[1..])
  }
}
