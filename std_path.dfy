/**
 * `std::filesystem::path::filename()` and `extension()` for the POSIX path
 * syntax, where `'/'` is the only separator.
 */
module StdPath {
  import opened Wrappers
  import opened StdText

  /** The last component: the text after the last `'/'` (empty when the path ends in `'/'`). */
  function FileName(p: string): (f: string)
    ensures |f| <= |p| && f == p[|p| - |f|..]
    ensures '/' !in f
    ensures |f| < |p| ==> p[|p| - |f| - 1] == '/'
  {
    match FindLast(p, '/')
    case None => p
    case Some(k) => p[k + 1..]
  }

  /** A file name without extension: `..`, or no dot after its first character. */
  predicate NoExtension(f: string) {
    f == ".." || f == "" || '.' !in f[1..]
  }

  /**
   * The extension of a file name: the suffix from its last dot, except for `.`
   * and `..` and for names whose only dot is the first character (`.profile`).
   */
  function NameExtension(f: string): (e: string)
    ensures e == "" <==> NoExtension(f)
    ensures e != "" ==>
      && |e| < |f| && f[|f| - |e|..] == e && f != ".."
      && e[0] == '.' && '.' !in e[1..]
  {
    if f == "." || f == ".." then ""
    else
      match FindLast(f, '.')
      case None => ""
      case Some(k) =>
        if k == 0 then ""
        else
          assert f[1..][k - 1] == '.';
          assert f[k..][1..] == f[k + 1..];
          f[k..]
  }

  /** `path::extension()`: the extension of the path's last component. */
  function Extension(p: string): (e: string)
    ensures e == "" || e[0] == '.'
  {
    NameExtension(FileName(p))
  }

  /**
   * A path has an extension exactly when its file name has a dot after its
   * first character and is not `..`; the extension then starts with a dot, has
   * no other dot, and holds no separator.
   */
  lemma ExtensionSpec(p: string)
    ensures Extension(p) == "" <==> NoExtension(FileName(p))
    ensures Extension(p) != "" ==> '.' !in Extension(p)[1..] && '/' !in Extension(p)
  {
    var f := FileName(p);
    var e := NameExtension(f);
    assert forall k :: 0 <= k < |e| ==> e[k] == f[|f| - |e| + k];
  }

  /** A path whose text after the last directory separator is `name` has `name` as its file name. */
  lemma FileNameOf(dir: string, name: string)
    requires dir == "" || dir[|dir| - 1] == '/'
    requires '/' !in name
    ensures FileName(dir + name) == name
  {
    var p, f := dir + name, FileName(dir + name);
    assert forall k :: |dir| <= k < |p| ==> p[k] == name[k - |dir|] != '/';
    assert forall k :: |p| - |f| <= k < |p| ==> p[k] == f[k - (|p| - |f|)] != '/';
    assert dir == "" || p[|dir| - 1] == '/';
    assert |f| == |name|;
  }

  /** A non-empty stem other than `.` followed by a dot-suffix without further dots has that suffix as its extension. */
  lemma NameExtensionOf(stem: string, ext: string)
    requires |stem| > 0 && stem != "."
    requires |ext| > 0 && ext[0] == '.' && '.' !in ext[1..]
    ensures NameExtension(stem + ext) == ext
  {
    var f := stem + ext;
    assert f[|stem|..] == ext;
    assert f[0] == stem[0];
    assert |stem| > 1 || stem == [stem[0]];
    assert f != "." && f != "..";
    // the last dot of `f` is the one that starts `ext`
    var k := FindLast(f, '.').value;
    assert forall j :: k < j < |f| ==> f[j] == f[k + 1..][j - k - 1] != '.';
    assert forall j :: |stem| < j < |f| ==> f[j] == ext[1..][j - |stem| - 1] != '.';
    assert k == |stem|;
  }

  /**
   * The converse of `Extension`'s contract: a path made of a directory part, a
   * non-empty stem other than `.`, and a dot-suffix without further dots has
   * that suffix as its extension.
   */
  lemma ExtensionOf(dir: string, stem: string, ext: string)
    requires dir == "" || dir[|dir| - 1] == '/'
    requires |stem| > 0 && stem != "." && '/' !in stem
    requires |ext| > 0 && ext[0] == '.' && '.' !in ext[1..] && '/' !in ext
    ensures Extension(dir + stem + ext) == ext
  {
    assert dir + stem + ext == dir + (stem + ext);
    FileNameOf(dir, stem + ext);
    NameExtensionOf(stem, ext);
  }
}
