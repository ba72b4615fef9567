/**
 * The I/O vocabulary both engines share: paths, temporary directories, the
 * one error kind `std::io::Error` stands for, where an injected failure
 * strikes, and the shape of a segment file when it is read back.
 */
module Io {

  datatype Option<T> = None | Some(value: T)

  type Path = string

  /** An owned temporary directory, identified by its path. */
  datatype TempDir = TempDir(path: Path)

  /**
   * The kinds of `std::io::Error` the engines can meet. `UnexpectedEof` is the
   * kind a codec reports when a segment ends cleanly at a record boundary.
   */
  datatype IoError =
    | UnexpectedEof
    | InvalidData
    | DirCreateFailed
    | OpenFailed
    | WriteFailed
    | FlushFailed
    | SeekFailed

  datatype Result<T> = Ok(value: T) | Err(error: IoError)

  /**
   * Which I/O operation of one call fails first (the file system is outside
   * the model, so its failures are an input). `EncodeFault(k)` makes the
   * encoding of the k-th item of a spilled buffer fail.
   */
  datatype Fault =
    | NoFault
    | TempDirFault
    | OpenFault
    | EncodeFault(at: nat)
    | FlushFault
    | SeekFault

  /**
   * What the operating system supplies to one call that may spill: the fault,
   * if any, and the path a freshly created temporary directory would get.
   */
  datatype Env = Env(fault: Fault, freshDir: Path)

  /** The outcome of one `decode` call. */
  datatype Decoded<T> = Item(value: T) | DecodeError(error: IoError)

  /**
   * A segment file as its reader sees it: the items it decodes to, in order,
   * followed by the outcome of every later decode. `end == UnexpectedEof` is a
   * cleanly terminated file; any other `end` is a corrupt record.
   */
  datatype SegmentFile<T> = SegmentFile(items: seq<T>, end: IoError)

  /** The outcome of decoding the record that starts at item position `pos`. */
  function DecodeAt<T>(f: SegmentFile<T>, pos: nat): Decoded<T> {
    if pos < |f.items| then Item(f.items[pos]) else DecodeError(f.end)
  }

  /** The file a segment of `items` is written as: every item, then a clean end. */
  function Written<T>(items: seq<T>): SegmentFile<T> {
    SegmentFile(items, UnexpectedEof)
  }
}
