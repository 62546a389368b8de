/**
 * The Linux cpufreq sysfs tree, as the library sees it: an oracle that says
 * which files can be read (and what they hold), which can be opened for
 * writing, and which accept the values written to them. Nothing here talks to
 * a real file system.
 */
module Sysfs {
  import opened Machine
  import opened Text

  datatype Option<T> = None | Some(value: T)

  /** A value written to one sysfs file. */
  datatype Write = Write(path: string, text: string)

  /**
   * `files`: the readable files and their contents (`g_file_get_contents`);
   * `writable`: the files `fopen(path, "w")` opens;
   * `accepting`: the opened files on which `fprintf` and `fflush` report no error.
   */
  datatype Tree = Tree(files: map<string, string>, writable: set<string>, accepting: set<string>)

  function Read(fs: Tree, path: string): (r: Option<string>)
    ensures r.Some? <==> path in fs.files
  {
    if path in fs.files then Some(fs.files[path]) else None
  }

  /** Fopening for writing and then writing and flushing one value succeed. */
  predicate WriteSucceeds(fs: Tree, path: string) {
    path in fs.writable && path in fs.accepting
  }

  /**
   * sysfs files are never empty: every one of them ends with a newline at least. The
   * library relies on it (an empty sibling list or frequency list would make it index
   * an empty array).
   */
  predicate WellFormed(fs: Tree) {
    forall p :: p in fs.files ==> fs.files[p] != []
  }

  const Prefix: string := "/sys/devices/system/cpu/cpu"
  const Middle: string := "/cpufreq/"

  /** `/sys/devices/system/cpu/cpu<id>/cpufreq/<file>`, the id printed with `%ld`. */
  function Path(id: int, file: string): string {
    Prefix + FormatLong(id) + Middle + file
  }

  /**
   * `sysfs_filename(cpu_id, filename)` of `src/power-api.c`: the cpu id is an
   * `unsigned long` printed with `%ld`, so ids of 2^63 and above print as negative numbers.
   */
  function Filename(cpu: ULong, file: string): string {
    Path(AsLong(cpu), file)
  }

  lemma SlashAfter(a: string, b: string)
    requires '/' !in a && b != [] && b[0] == '/'
    ensures IndexOf(a + b, '/') == |a|
  {
    assert (a + b)[|a|] == '/';
    assert forall j :: 0 <= j < |a| ==> (a + b)[j] == a[j];
  }

  lemma SplitAt(a: string, b: string, c: string, d: string)
    requires '/' !in a && '/' !in c
    requires b != [] && d != [] && b[0] == '/' && d[0] == '/'
    requires a + b == c + d
    ensures a == c && b == d
  {
    SlashAfter(a, b);
    SlashAfter(c, d);
    assert a == (a + b)[..|a|] && c == (c + d)[..|c|];
    assert b == (a + b)[|a|..] && d == (c + d)[|c|..];
  }

  lemma NoSlashInNumber(v: int)
    ensures '/' !in FormatLong(v)
  {
  }

  /** Equal strings with the same beginning are equal after it. */
  lemma CancelPrefix(p: string, x: string, y: string)
    requires p + x == p + y
    ensures x == y
  {
    assert x == (p + x)[|p|..];
    assert y == (p + y)[|p|..];
  }

  /** Different cpus or different files never share a sysfs path. */
  lemma PathInjective(a: int, f: string, b: int, g: string)
    requires Path(a, f) == Path(b, g)
    ensures a == b && f == g
  {
    Associative(Prefix + FormatLong(a), Middle, f);
    Associative(Prefix, FormatLong(a), Middle + f);
    Associative(Prefix + FormatLong(b), Middle, g);
    Associative(Prefix, FormatLong(b), Middle + g);
    CancelPrefix(Prefix, FormatLong(a) + (Middle + f), FormatLong(b) + (Middle + g));
    NoSlashInNumber(a);
    NoSlashInNumber(b);
    SplitAt(FormatLong(a), Middle + f, FormatLong(b), Middle + g);
    FormatLongInjective(a, b);
    CancelPrefix(Middle, f, g);
  }

  /** The same holds of `sysfs_filename`: distinct `unsigned long` cpu ids get distinct paths. */
  lemma FilenameInjective(a: ULong, f: string, b: ULong, g: string)
    requires Filename(a, f) == Filename(b, g)
    ensures a == b && f == g
  {
    PathInjective(AsLong(a), f, AsLong(b), g);
  }
}
