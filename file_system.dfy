/** The file operations the playlist code uses, over an abstract store from
    path to text, and the two `os.path` functions `writefile` uses to name
    its temporary file. */
module Files {
  import opened Wrappers
  import opened Errors

  /** Index of the last `/` in `p`, or -1 when there is none (`p.rfind('/')`). */
  function LastSlash(p: string): (i: int)
    ensures -1 <= i < |p|
    ensures i >= 0 ==> p[i] == '/'
    ensures forall j :: i < j < |p| ==> p[j] != '/'
  {
    if p == [] then -1
    else if p[|p| - 1] == '/' then |p| - 1
    else LastSlash(p[..|p| - 1])
  }

  /** `p.rstrip('/')` */
  function RStripSlash(p: string): (r: string)
    ensures |r| <= |p| && r == p[..|r|]
    ensures r != [] ==> r[|r| - 1] != '/'
    ensures forall j :: |r| <= j < |p| ==> p[j] == '/'
  {
    if p != [] && p[|p| - 1] == '/' then RStripSlash(p[..|p| - 1]) else p
  }

  predicate AllSlashes(p: string) {
    forall j :: 0 <= j < |p| ==> p[j] == '/'
  }

  /** `posixpath.split(p)`: the head (trailing slashes removed unless it is
      all slashes) and the last component. */
  function Split(p: string): (r: (string, string))
    ensures r.1 == Basename(p)
  {
    var i := LastSlash(p) + 1;
    var head, tail := p[..i], p[i..];
    (if head != [] && !AllSlashes(head) then RStripSlash(head) else head, tail)
  }

  /** `posixpath.join(a, b)` */
  function Join(a: string, b: string): string {
    if b != [] && b[0] == '/' then b
    else if a == [] || a[|a| - 1] == '/' then a + b
    else a + "/" + b
  }

  /** The text after the last slash. */
  function Basename(p: string): (r: string)
    ensures '/' !in r
  {
    p[LastSlash(p) + 1..]
  }

  /** The temporary file an atomic `writefile` of `p` writes first:
      `join(dirname, ".basename~")`. */
  function TempPath(p: string): string {
    var (dir, base) := Split(p);
    Join(dir, "." + base + "~")
  }

  lemma {:induction false} BasenameAfterSlash(a: string, b: string)
    requires '/' !in b
    requires a == [] || a[|a| - 1] == '/'
    ensures Basename(a + b) == b
    decreases |b|
  {
    if b == [] {
      assert a + b == a;
    } else {
      var s := a + b;
      assert s[..|s| - 1] == a + b[..|b| - 1];
      BasenameAfterSlash(a, b[..|b| - 1]);
      assert s[|s| - 1] == b[|b| - 1];
    }
  }

  /** Joining a relative name without slashes puts it last. */
  lemma JoinBasename(a: string, b: string)
    requires b != [] && '/' !in b
    ensures Basename(Join(a, b)) == b
  {
    if a == [] || a[|a| - 1] == '/' {
      BasenameAfterSlash(a, b);
    } else {
      assert a + "/" + b == (a + "/") + b;
      BasenameAfterSlash(a + "/", b);
    }
  }

  /** The temporary file's name is `.NAME~` for the target's last component
      `NAME`, so it is never the target itself: a crash between the write
      and the rename leaves the target as it was. */
  lemma TempPathDiffers(p: string)
    ensures Basename(TempPath(p)) == "." + Basename(p) + "~"
    ensures TempPath(p) != p
  {
    var (dir, base) := Split(p);
    JoinBasename(dir, "." + base + "~");
    assert |Basename(TempPath(p))| == |Basename(p)| + 2;
  }

  /** Helper for the atomic write: removing a key forgets what was just
      written under it. */
  lemma WriteThenRemove(m: map<string, string>, k: string, v: string)
    ensures m[k := v] - {k} == m - {k}
  {
  }

  /** The file store: path to file contents. Only the operations the
      playlist code performs are modelled. */
  class FileSystem {
    var files: map<string, string>

    constructor(files: map<string, string>)
      ensures this.files == files
    {
      this.files := files;
    }

    /** `open(path).read()`, None when the file does not exist. */
    function Read(path: string): (r: Option<string>)
      reads this
      ensures r.Some? <==> path in files
      ensures r.Some? ==> r.value == files[path]
    {
      if path in files then Some(files[path]) else None
    }

    /** `open(path, 'w')` followed by writing `text` and closing. */
    method Write(path: string, text: string)
      modifies this
      ensures files == old(files)[path := text]
    {
      files := files[path := text];
    }

    /** `os.rename(src, dst)`: OSError when `src` does not exist. */
    method Rename(src: string, dst: string) returns (r: Option<Error>)
      modifies this
      ensures src !in old(files) ==> r == Some(NoSuchFile(src)) && files == old(files)
      ensures src in old(files) ==> r == None && files == (old(files) - {src})[dst := old(files)[src]]
    {
      if src !in files {
        return Some(NoSuchFile(src));
      }
      files := (files - {src})[dst := files[src]];
      return None;
    }
  }
}
