/**
 * The part of the filesystem that the archiver looks at, as a value: what
 * `Path.is_dir`, `is_file`, `is_symlink`, `stat` and `iterdir` report, and the
 * bytes `open(f, 'rb')` yields.
 */
module FileTree {
  import opened Bytes

  datatype Entry =
    /** `is_dir()` holds (it follows symbolic links); `children` in `iterdir()` order. */
    | Dir(name: seq<byte>, mtime: nat, children: seq<Entry>)
    /** A regular file that is not a symbolic link; its size is `|content|`. */
    | File(name: seq<byte>, mtime: nat, content: seq<byte>)
    /** Anything else: a symbolic link to a file, a dangling link, a device, a fifo, a socket. */
    | Other(name: seq<byte>)

  /** The `st_size` written into the header: the content length of a file. */
  function Size(e: Entry): nat
    requires !e.Other?
  {
    if e.File? then |e.content| else 0
  }
}
