/** Unix paths as Rust's `std::path::Path` reads them: `file_name`,
    `extension` and `join`. */
module Paths {
  import opened Wrappers
  import opened Text

  /** The components of a path that carry a name, in order: empty
      components (from repeated or trailing `/`) and `.` are dropped. */
  function NamedComponents(parts: seq<string>): (r: seq<string>)
    ensures forall i :: 0 <= i < |r| ==> r[i] in parts && r[i] != "" && r[i] != "."
  {
    if parts == [] then []
    else
      var init := NamedComponents(parts[..|parts| - 1]);
      var last := parts[|parts| - 1];
      if last == "" || last == "." then init else init + [last]
  }

  /** `Path::file_name`: the last component, absent when the path ends in
      `..` or has no named component at all. */
  function FileName(p: string): (r: Option<string>)
    ensures r.Some? ==> r.value != "" && r.value != "." && r.value != ".." && '/' !in r.value
  {
    var cs := NamedComponents(Split(p, '/'));
    if |cs| == 0 || cs[|cs| - 1] == ".." then None else Some(cs[|cs| - 1])
  }

  /** `Path::extension`: the text after the last `.` of the file name;
      absent when the file name has no `.` or its only `.` is the first
      character. */
  function Extension(p: string): (r: Option<string>)
    ensures r.Some? ==> FileName(p).Some? && '.' !in r.value
                        && |FileName(p).value| >= |r.value| + 2
                        && EndsWith(FileName(p).value, "." + r.value)
    ensures r.None? && FileName(p).Some? ==>
              var name := FileName(p).value;
              '.' !in name[1..]
  {
    match FileName(p)
    case None => None
    case Some(name) =>
      match LastIndexOf(name, '.')
      case None => None
      case Some(i) =>
        if i == 0 then None
        else
          assert name[i..] == "." + name[i + 1..];
          Some(name[i + 1..])
  }

  /** `Path::join` of a directory and a relative or absolute name. */
  function JoinPath(dir: string, name: string): (r: string)
    ensures EndsWith(r, name)
    ensures !StartsWith(name, "/") ==> StartsWith(r, dir)
  {
    if StartsWith(name, "/") then name
    else if dir == "" || dir[|dir| - 1] == '/' then dir + name
    else dir + "/" + name
  }

  /** A single named component joined to any directory is the file name
      of the joined path. */
  lemma FileNameOfJoin(dir: string, name: string)
    requires name != "" && name != "." && name != ".." && '/' !in name
    ensures FileName(JoinPath(dir, name)) == Some(name)
  {
    assert !StartsWith(name, "/") by { assert name[0] != '/'; }
    if dir == "" {
      assert JoinPath(dir, name) == name;
      SplitNoSep(name, '/');
      FileNameOfSplit([], name);
    } else if dir[|dir| - 1] == '/' {
      assert JoinPath(dir, name) == dir[..|dir| - 1] + ['/'] + name;
      FileNameAfterSlash(dir[..|dir| - 1], name);
    } else {
      assert JoinPath(dir, name) == dir + ['/'] + name;
      FileNameAfterSlash(dir, name);
    }
  }

  /** A single named component after a `/` is the file name. */
  lemma FileNameAfterSlash(d: string, name: string)
    requires name != "" && name != "." && name != ".." && '/' !in name
    ensures FileName(d + ['/'] + name) == Some(name)
  {
    SplitNoSep(name, '/');
    SplitAppend(d, name, '/');
    FileNameOfSplit(Split(d, '/'), name);
  }

  lemma FileNameOfSplit(init: seq<string>, name: string)
    requires name != "" && name != "." && name != ".."
    ensures NamedComponents(init + [name]) == NamedComponents(init) + [name]
  {
    assert (init + [name])[..|init|] == init;
  }

  /** Text appended to a non-empty name is appended to the joined path. */
  lemma JoinAppend(dir: string, name: string, ext: string)
    requires name != []
    ensures JoinPath(dir, name + ext) == JoinPath(dir, name) + ext
  {
    assert StartsWith(name + ext, "/") <==> StartsWith(name, "/") by {
      assert (name + ext)[0] == name[0];
    }
  }

  /** Joining names that are both relative (or both absolute) to the same
      directory gives the same path only for the same name. */
  lemma JoinInjective(dir: string, a: string, b: string)
    requires StartsWith(a, "/") == StartsWith(b, "/")
    requires JoinPath(dir, a) == JoinPath(dir, b)
    ensures a == b
  {
    var p := JoinPath(dir, a);
    var u := if StartsWith(a, "/") then "" else if dir == "" || dir[|dir| - 1] == '/' then dir else dir + "/";
    assert p == u + a && p == u + b;
    assert a == p[|u|..] && b == p[|u|..];
  }
}
