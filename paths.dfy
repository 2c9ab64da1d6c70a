/** The C string routines the union-layer engine uses on paths: strchr, and
    dirname/basename from <libgen.h> (POSIX semantics). */
module Paths {
  import opened Wrappers

  /** strchr: the position of the first `c` in `s`, if any. */
  function IndexOf(s: string, c: char): (r: Option<nat>)
    ensures r.Some? ==> r.value < |s| && s[r.value] == c && c !in s[..r.value]
    ensures r.None? <==> c !in s
  {
    if |s| == 0 then None
    else if s[0] == c then Some(0)
    else match IndexOf(s[1..], c)
      case None => None
      case Some(i) => Some(i + 1)
  }

  /** Splits an external path `/<layerId>/<rest>` into the layer id and the
      intra-layer path, as get_layer does: the first character is skipped,
      the id runs up to the next '/', and the intra-layer path starts at that
      '/' (or is "/" when there is none, a request for the layer root). */
  function SplitPath(path: string): (r: (string, string))
    requires |path| > 0
    ensures '/' !in r.0
    ensures |r.1| > 0 && r.1[0] == '/'
    ensures '/' in path[1..] ==> path == path[..1] + r.0 + r.1
    ensures '/' !in path[1..] ==> r.0 == path[1..] && r.1 == "/"
  {
    var tail := path[1..];
    match IndexOf(tail, '/')
    case None => (tail, "/")
    case Some(i) => (tail[..i], tail[i..])
  }

  /** Splitting `"/" + id + rest` gives back `id` and `rest` (or the root
      path "/" when `rest` is empty): SplitPath inverts the path format. */
  lemma SplitJoin(id: string, rest: string)
    requires '/' !in id
    requires rest == [] || rest[0] == '/'
    ensures SplitPath("/" + id + rest) == (id, if rest == [] then "/" else rest)
  {
    var path := "/" + id + rest;
    assert path[1..] == id + rest;
    if rest == [] {
      assert path[1..] == id;
    } else {
      assert (id + rest)[|id|] == '/';
      assert (id + rest)[..|id|] == id;
      assert (id + rest)[|id|..] == rest;
    }
  }

  /** `s` without its trailing run of `c` characters (or, when `other` is
      true, without its trailing run of characters other than `c`). */
  function TrimEnd(s: string, c: char, other: bool): (r: string)
    ensures r <= s
    ensures r == [] || (r[|r| - 1] == c) == other
    ensures forall i :: |r| <= i < |s| ==> (s[i] == c) != other
    decreases |s|
  {
    if |s| > 0 && (s[|s| - 1] == c) != other then TrimEnd(s[..|s| - 1], c, other) else s
  }

  /** POSIX dirname of a path: trailing slashes are ignored, the last
      component is removed, then the slashes before it; "/" when nothing is
      left, "." for a path without any slash. */
  function Dirname(p: string): (r: string)
    ensures |r| > 0
    ensures |p| > 0 && p[0] == '/' ==> r[0] == '/' && (r == "/" || (r < p && r[|r| - 1] != '/'))
  {
    var t := TrimEnd(p, '/', false);
    if t == [] then (if p == [] then "." else "/")
    else
      var d := TrimEnd(t, '/', true);
      if d == [] then "."
      else
        var e := TrimEnd(d, '/', false);
        if e == [] then "/" else e
  }

  /** POSIX basename: the last component of the path, ignoring trailing
      slashes; "/" for a path made only of slashes, "." for the empty path. */
  function Basename(p: string): (r: string)
    ensures |r| > 0
    ensures p != [] && r != "/" ==> '/' !in r
  {
    var t := TrimEnd(p, '/', false);
    if t == [] then (if p == [] then "." else "/")
    else t[|TrimEnd(t, '/', true)|..]
  }

  /** What basename from <libgen.h> leaves of its argument (glibc's XPG
      basename): it writes a NUL over a run of trailing slashes, unless the
      path is made only of slashes, which it leaves whole. */
  function TruncatedByBasename(p: string): (r: string)
    ensures r <= p
    ensures forall i :: |r| <= i < |p| ==> p[i] == '/'
    ensures r == p || (r != [] && r[|r| - 1] != '/')
    ensures (exists i :: 0 <= i < |p| && p[i] != '/') ==> r != [] && r[|r| - 1] != '/'
    ensures p == [] || p[|p| - 1] != '/' ==> r == p
    ensures r == [] ==> p == []
  {
    var t := TrimEnd(p, '/', false);
    if t == [] then p else t
  }

  /** For a path `d + "/" + b` with a non-empty last component `b` and a
      directory part that is empty or a rooted path without trailing slash,
      dirname gives the directory part ("/" when it is empty) and basename
      gives `b`. */
  lemma DirnameBasename(d: string, b: string)
    requires b != [] && '/' !in b
    requires d == [] || (d[0] == '/' && d[|d| - 1] != '/')
    ensures Dirname(d + "/" + b) == (if d == [] then "/" else d)
    ensures Basename(d + "/" + b) == b
  {
    var p := d + "/" + b;
    assert TrimEnd(p, '/', false) == p;
    TrimNameOff(d + "/", b);
    assert TrimEnd(d + "/", '/', false) == d by {
      assert (d + "/")[..|d|] == d;
    }
    assert p[|d + "/"|..] == b;
  }

  /** A path `d + "/" + b + t`, where `t` is a non-empty run of slashes, as
      ref_inode meets it for a created path with trailing slashes: basename
      cuts it back to `d + "/" + b`, and dirname and basename give the same
      as for that cut path. */
  lemma DirnameBasenameSlashes(d: string, b: string, t: string)
    requires b != [] && '/' !in b
    requires d == [] || (d[0] == '/' && d[|d| - 1] != '/')
    requires t != [] && forall i :: 0 <= i < |t| ==> t[i] == '/'
    ensures TruncatedByBasename(d + "/" + b + t) == d + "/" + b
    ensures Dirname(d + "/" + b + t) == (if d == [] then "/" else d)
    ensures Basename(d + "/" + b + t) == b
  {
    var q := d + "/" + b;
    assert b[|b| - 1] in b;
    assert q[|q| - 1] == b[|b| - 1];
    TrimSlashRun(q, t);
    assert TrimEnd(q, '/', false) == q;
    DirnameBasename(d, b);
  }

  /** Trimming the trailing slashes of `a + t`, with `t` only slashes and
      `a` not ending in one, leaves `a`. */
  lemma {:induction false} TrimSlashRun(a: string, t: string)
    requires a != [] && a[|a| - 1] != '/'
    requires forall i :: 0 <= i < |t| ==> t[i] == '/'
    ensures TrimEnd(a + t, '/', false) == a
    decreases |t|
  {
    if t == [] {
      assert a + t == a;
    } else {
      var t' := t[..|t| - 1];
      assert (a + t)[..|a + t| - 1] == a + t';
      TrimSlashRun(a, t');
    }
  }

  /** Removing a slash-free tail `b` from `a + b`, where `a` ends in '/',
      leaves `a`. */
  lemma {:induction false} TrimNameOff(a: string, b: string)
    requires a != [] && a[|a| - 1] == '/'
    requires '/' !in b
    ensures TrimEnd(a + b, '/', true) == a
    decreases |b|
  {
    if b == [] {
      assert a + b == a;
    } else {
      var b' := b[..|b| - 1];
      assert (a + b)[..|a + b| - 1] == a + b';
      assert b[|b| - 1] in b;
      TrimNameOff(a, b');
    }
  }

  /** The root path is its own dirname and its own basename, and basename
      leaves it whole. */
  lemma RootPath()
    ensures Dirname("/") == "/" && Basename("/") == "/"
    ensures TruncatedByBasename("/") == "/"
  {
    assert TrimEnd("/", '/', false) == [] by {
      assert "/"[..0] == [];
    }
  }
}
