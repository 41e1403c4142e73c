/** The filesystem the group worker writes to: a map from `/`-joined path
    strings to file contents and a set of directories. `FileSystem` is the
    mutable object the worker changes in place; `Disk` is its value. */
module Files {
  import opened Base

  type Path = string

  datatype Disk = Disk(files: map<Path, Bytes>, dirs: set<Path>)

  /** `os.path.join(a, b)` for a relative, non-empty `b`. */
  function PathJoin(a: Path, b: string): Path {
    a + "/" + b
  }

  /** `os.path.exists(p)`: a file or a directory. */
  predicate Exists(d: Disk, p: Path) {
    p in d.files || p in d.dirs
  }

  /** The disk after `os.makedirs(p, exist_ok=True)`. */
  function WithDir(d: Disk, p: Path): Disk {
    d.(dirs := d.dirs + {p})
  }

  /** The disk after writing `data` to `p` in mode `'wb'`. */
  function WithFile(d: Disk, p: Path, data: Bytes): Disk {
    d.(files := d.files[p := data])
  }

  /** `d2` has every file and directory of `d1` (contents may differ). */
  predicate Grows(d1: Disk, d2: Disk) {
    d1.files.Keys <= d2.files.Keys && d1.dirs <= d2.dirs
  }

  /** A file `d2` has at `p` is the one `d1` had, or neither has one. */
  predicate SameAt(d1: Disk, d2: Disk, p: Path) {
    (p in d1.files <==> p in d2.files) && (p in d1.files ==> d1.files[p] == d2.files[p])
  }

  class FileSystem {
    var files: map<Path, Bytes>
    var dirs: set<Path>

    function State(): Disk
      reads this
    {
      Disk(files, dirs)
    }

    constructor (d: Disk)
      ensures State() == d
    {
      files := d.files;
      dirs := d.dirs;
    }

    /** `os.makedirs(p, exist_ok=True)` */
    method MakeDirs(p: Path)
      modifies this
      ensures State() == WithDir(old(State()), p)
      ensures p in dirs && Grows(old(State()), State())
    {
      dirs := dirs + {p};
    }

    /** `os.path.exists(p)` */
    method PathExists(p: Path) returns (b: bool)
      ensures b <==> p in files || p in dirs
    {
      b := p in files || p in dirs;
    }

    /** `with open(p, 'wb') as f: f.write(data)` */
    method WriteBytes(p: Path, data: Bytes)
      modifies this
      ensures State() == WithFile(old(State()), p, data)
      ensures p in files && files[p] == data && Grows(old(State()), State())
    {
      files := files[p := data];
    }
  }
}
