/**
 * File-name extensions as Rust's `Path::extension` computes them on a Unix
 * path, which is what `get_extension_from_filename` returns:
 *  - the file name is the last component that is a plain name: separators
 *    repeat freely, `.` components are dropped, and a path whose last
 *    component is `..` (or that has none, such as "/") has no file name;
 *  - the extension is the text after the file name's last `.`, unless the
 *    name has no `.`, or its only `.` is the first character (".bashrc"),
 *    or the name is `..`.
 */
module PathExtension {
  import opened Wrappers

  /** The text between the '/' separators, empty pieces included. */
  function Split(p: string): (r: seq<string>)
    ensures |r| >= 1
    ensures forall i :: 0 <= i < |r| ==> '/' !in r[i]
  {
    if p == [] then [""]
    else
      var rest := Split(p[1..]);
      if p[0] == '/' then [""] + rest
      else [[p[0]] + rest[0]] + rest[1..]
  }

  /** The pieces put back together with '/' between them. */
  function Join(segs: seq<string>): string
    requires |segs| >= 1
  {
    if |segs| == 1 then segs[0] else segs[0] + "/" + Join(segs[1..])
  }

  /** Splitting loses nothing: joining the pieces gives the path back. */
  lemma {:induction false} SplitJoin(p: string)
    ensures Join(Split(p)) == p
  {
    if p != [] {
      var rest := Split(p[1..]);
      SplitJoin(p[1..]);
      if p[0] == '/' {
        assert Split(p)[1..] == rest;
        assert p == "/" + p[1..];
      } else {
        var r := Split(p);
        assert r[0] == [p[0]] + rest[0];
        if |rest| == 1 {
          assert p == [p[0]] + p[1..];
        } else {
          assert r[1..] == rest[1..];
          assert Join(rest) == rest[0] + "/" + Join(rest[1..]);
          assert p == [p[0]] + p[1..];
        }
      }
    }
  }

  /** The last piece that is a plain name, if the path ends in one. */
  function LastNormal(segs: seq<string>): (r: Option<string>)
    ensures r.Some? ==> r.value in segs && r.value != "" && r.value != "." && r.value != ".."
  {
    if segs == [] then None
    else
      var s := segs[|segs| - 1];
      if s == "" || s == "." then LastNormal(segs[..|segs| - 1])
      else if s == ".." then None
      else Some(s)
  }

  /** `Path::file_name`. */
  function FileName(p: string): (r: Option<string>)
    ensures r.Some? ==> '/' !in r.value && r.value != "" && r.value != "." && r.value != ".."
  {
    LastNormal(Split(p))
  }

  /** Index of the last '.' of `s`, if any. */
  function LastDot(s: string): (r: Option<nat>)
    ensures r.Some? ==> r.value < |s| && s[r.value] == '.' && '.' !in s[r.value + 1..]
    ensures r.None? ==> '.' !in s
  {
    if s == [] then None
    else if s[|s| - 1] == '.' then Some(|s| - 1)
    else
      var r := LastDot(s[..|s| - 1]);
      assert s == s[..|s| - 1] + [s[|s| - 1]];
      assert r.Some? ==> s[r.value + 1..] == s[..|s| - 1][r.value + 1..] + [s[|s| - 1]];
      r
  }

  /** The extension part of a file name (Rust's `rsplit_file_at_dot`). */
  function NameExtension(name: string): (r: Option<string>)
    ensures r.Some? ==> '.' !in r.value
  {
    if name == ".." then None
    else
      match LastDot(name)
      case None => None
      case Some(i) => if i == 0 then None else Some(name[i + 1..])
  }

  /** `get_extension_from_filename`: the extension of the path's file name, if any. */
  function GetExtension(filename: string): (r: Option<string>)
    ensures r.Some? ==> '.' !in r.value && '/' !in r.value
  {
    match FileName(filename)
    case None => None
    case Some(name) => NameExtension(name)
  }

  lemma {:induction false} SplitNoSeparator(name: string)
    requires '/' !in name
    ensures Split(name) == [name]
  {
    if name != [] {
      SplitNoSeparator(name[1..]);
      assert name == [name[0]] + name[1..];
    }
  }

  lemma {:induction false} SplitAppendName(dir: string, name: string)
    requires '/' !in name
    ensures Split(dir + "/" + name) == Split(dir) + [name]
  {
    if dir == [] {
      assert dir + "/" + name == "/" + name;
      assert ("/" + name)[1..] == name;
      SplitNoSeparator(name);
    } else {
      assert (dir + "/" + name)[1..] == dir[1..] + "/" + name;
      SplitAppendName(dir[1..], name);
    }
  }

  /** A name placed after a separator is the path's file name. */
  lemma FileNameOfChild(dir: string, name: string)
    requires '/' !in name && name != "" && name != "." && name != ".."
    ensures FileName(dir + "/" + name) == Some(name)
  {
    SplitAppendName(dir, name);
  }

  /** The extension of `dir/stem.ext` is `ext` whenever the stem is non-empty. */
  lemma ExtensionOfChild(dir: string, stem: string, ext: string)
    requires '/' !in stem && '/' !in ext && '.' !in ext
    requires stem != "" && (stem != "." || ext != "")
    ensures GetExtension(dir + "/" + stem + "." + ext) == Some(ext)
  {
    var name := stem + "." + ext;
    assert dir + "/" + stem + "." + ext == dir + "/" + name;
    assert name[|stem|] == '.' && name[|stem| + 1..] == ext;
    assert '/' !in name by {
      forall i | 0 <= i < |name| ensures name[i] != '/' {
        if i < |stem| { assert name[i] == stem[i]; }
        else if i > |stem| { assert name[i] == ext[i - |stem| - 1]; }
      }
    }
    assert name != ".." by {
      if |name| == 2 {
        assert |stem| == 1 && ext == "";
        assert stem == [name[0]];
      }
    }
    FileNameOfChild(dir, name);
  }

  /** A file name without any dot, such as `dir/ttf`, has no extension. */
  lemma NoDotNoExtension(dir: string, name: string)
    requires '/' !in name && '.' !in name && name != ""
    ensures GetExtension(dir + "/" + name) == None
  {
    FileNameOfChild(dir, name);
  }

  /** A dot-file such as `dir/.ttf` has no extension at all. */
  lemma DotFileHasNoExtension(dir: string, ext: string)
    requires '/' !in ext && '.' !in ext && ext != ""
    ensures GetExtension(dir + "/" + "." + ext) == None
  {
    var name := "." + ext;
    assert dir + "/" + "." + ext == dir + "/" + name;
    assert '/' !in name by {
      forall i | 0 <= i < |name| ensures name[i] != '/' {
        if i > 0 { assert name[i] == ext[i - 1]; }
      }
    }
    assert name != ".." by { assert name[1] == ext[0]; }
    FileNameOfChild(dir, name);
    assert name[1..] == ext;
  }
}
