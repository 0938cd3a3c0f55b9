/** The things the pipeline learns from, and asks of, the operating system. */
module Host {

  /** A file path as given on the command line. */
  type Path = string

  /** A SHA-256 digest held as a Go string; its computation is an oracle. */
  type Digest = string

  /** An operating-system error (a `*PathError`, an errno); only its identity matters. */
  datatype Err = Err(reason: string)

  /** What `os.Stat` reports about the kind of a file: `IsRegular`, `IsDir`, or neither. */
  datatype FileKind = Regular | Directory | Other

  /** The part of an `os.FileInfo` the pipeline reads. */
  datatype FileInfo = FileInfo(size: int, kind: FileKind)

  /** The two ways `unix.Open` is called: the origin read-only, a destination write-only. */
  datatype OpenMode = ReadOnly | WriteOnly

  /** One request to make `dest` share the extents of `origin`. */
  datatype Attempt = Attempt(dest: Path, origin: Path)
}
