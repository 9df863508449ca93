/**
 * The part of the file system the program reads: a directory listing holds files and
 * sub-directories in listing order. A file carries its name, its modification time and
 * its text split into lines.
 */
module FileTree {
  datatype DailyFile = DailyFile(name: string, mtime: int, lines: seq<string>)

  datatype Entry =
    | FileEntry(file: DailyFile)
    | DirEntry(name: string, children: seq<Entry>)

  /** A file the program writes: the time it was written and its lines. */
  datatype StoredFile = StoredFile(mtime: int, lines: seq<string>)

  /** The files the program has written into the data directory, by name. */
  type Outputs = map<string, StoredFile>
}
