/** URI-path and file-path translation of one mounted host: `Host::Configure`,
    `Host::MapPath` and `WorkerRequest::GetFilePath`. */
module Paths {
  import opened Text

  function Back(s: string): string { ReplaceChar(s, '/', '\\') }

  function Forward(s: string): string { ReplaceChar(s, '\\', '/') }

  datatype Mount = Mount(virtualPath: string, physicalPath: string)

  /** Drops one trailing `c`, if there is one. */
  function StripOne(s: string, c: char): string {
    if s != "" && s[|s| - 1] == c then s[..|s| - 1] else s
  }

  function Configured(virtualPath: string, physicalPath: string): Mount {
    Mount(StripOne(Forward(virtualPath), '/'), StripOne(Back(physicalPath), '\\'))
  }

  /** The slash directions `Configure` establishes. */
  predicate Shaped(m: Mount) {
    '\\' !in m.virtualPath && '/' !in m.physicalPath
  }

  datatype MapResult =
    | Mapped(path: string)
    | Outside     // MapPath logs and returns null
    | OutOfRange  // Substring past the end throws

  /** `String::Compare` of the first |prefix| characters, ignoring case. */
  predicate StartsWithIgnoringCase(s: string, prefix: string) {
    |prefix| <= |s| && SameIgnoringCase(s[..|prefix|], prefix)
  }

  function MapPath(m: Mount, path: Option<string>): MapResult {
    if path == None || |path.value| <= 0 then Mapped(m.physicalPath)
    else
      var buildpath := Back(path.value);
      var testpath := Forward(path.value);
      if testpath[0] == '/' then
        if !StartsWithIgnoringCase(testpath, m.virtualPath) then Outside
        else if |testpath| > |m.virtualPath| then Mapped(m.physicalPath + buildpath[|m.virtualPath|..])
        else Mapped(m.physicalPath)
      else if |buildpath| < |m.virtualPath| then OutOfRange
      else Mapped(m.physicalPath + "\\" + buildpath[|m.virtualPath|..])
  }

  function GetFilePath(m: Mount, filename: string): string {
    if m.physicalPath <= filename
    then Forward(m.virtualPath + filename[|m.physicalPath|..])
    else filename
  }

  // ----- Configure -----

  predicate EndsIn(s: string, c: char) {
    s != "" && s[|s| - 1] == c
  }

  /** `Configure` fixes the slash directions of any input. */
  lemma ConfiguredIsShaped(v: string, p: string)
    ensures Shaped(Configured(v, p))
  {
  }

  /** `Configure` drops at most the one trailing separator,
      and leaves a trailing separator exactly when the input ended in two. */
  lemma ConfiguredTrailing(v: string, p: string)
    ensures Forward(v) == Configured(v, p).virtualPath + if EndsIn(Forward(v), '/') then "/" else ""
    ensures Back(p) == Configured(v, p).physicalPath + if EndsIn(Back(p), '\\') then "\\" else ""
    ensures EndsIn(Configured(v, p).virtualPath, '/') <==> |v| >= 2 && EndsIn(Forward(v), '/') && Forward(v)[|v| - 2] == '/'
    ensures EndsIn(Configured(v, p).physicalPath, '\\') <==> |p| >= 2 && EndsIn(Back(p), '\\') && Back(p)[|p| - 2] == '\\'
  {
    StripOneKeepsRest(Forward(v), '/');
    StripOneKeepsRest(Back(p), '\\');
  }

  lemma StripOneKeepsRest(s: string, c: char)
    ensures s == StripOne(s, c) + if EndsIn(s, c) then [c] else []
    ensures EndsIn(StripOne(s, c), c) <==> |s| >= 2 && EndsIn(s, c) && s[|s| - 2] == c
  {
  }

  // ----- MapPath after GetFilePath -----

  /** The guard under which the path GetFilePath builds counts as rooted. */
  predicate YieldsRooted(m: Mount, rest: string) {
    if m.virtualPath != "" then m.virtualPath[0] == '/'
    else rest == "" || rest[0] == '\\'
  }

  /** For every file, mapping its reported URI path gives the file back if and only if the file is below the mount
      and that path comes out rooted (or empty).  Below the mount a separator is inserted otherwise; a file outside
      is reported under its own name. */
  lemma FilePathRoundTrip(m: Mount, filename: string)
    requires Shaped(m) && '/' !in filename
    ensures MapPath(m, Some(GetFilePath(m, filename))) == Mapped(filename) <==>
            m.physicalPath <= filename && YieldsRooted(m, filename[|m.physicalPath|..])
    ensures !(m.physicalPath <= filename) ==> GetFilePath(m, filename) == filename
    ensures m.physicalPath <= filename && !YieldsRooted(m, filename[|m.physicalPath|..]) ==>
              MapPath(m, Some(GetFilePath(m, filename))) == Mapped(m.physicalPath + "\\" + filename[|m.physicalPath|..])
  {
    if m.physicalPath <= filename {
      FilePathRoundTripBelow(m, filename);
    } else {
      MappedStaysInMount(m, Some(filename));
    }
  }

  lemma FilePathRoundTripBelow(m: Mount, filename: string)
    requires Shaped(m) && m.physicalPath <= filename && '/' !in filename
    ensures MapPath(m, Some(GetFilePath(m, filename))) == Mapped(filename) <==>
            YieldsRooted(m, filename[|m.physicalPath|..])
    ensures !YieldsRooted(m, filename[|m.physicalPath|..]) ==>
              MapPath(m, Some(GetFilePath(m, filename))) ==
              Mapped(m.physicalPath + "\\" + filename[|m.physicalPath|..])
  {
    var rest := filename[|m.physicalPath|..];
    var path := GetFilePath(m, filename);
    assert path == m.virtualPath + Forward(rest);
    assert Forward(path) == path && Back(path)[|m.virtualPath|..] == rest;
    assert filename == m.physicalPath + rest;
    if YieldsRooted(m, rest) {
      assert path != "" ==> path[0] == '/';
    } else {
      assert path[0] != '/';
      assert |m.physicalPath + "\\" + rest| > |filename|;
    }
  }

  /** The mount of the whole site, and a file beside its directory, which shares the directory's leading characters. */
  lemma FilePathRoundTripFails()
    ensures var m := Configured("/", "C:\\www");
            GetFilePath(m, "C:\\www2\\y") == "2/y" && MapPath(m, Some("2/y")) == Mapped("C:\\www\\2\\y")
  {
    var m := Configured("/", "C:\\www");
    assert m == Mount("", "C:\\www");
    assert "C:\\www2\\y"[|m.physicalPath|..] == "2\\y";
    assert Forward("" + "2\\y") == "2/y";
  }

  /** A physical path that kept a trailing backslash, and a file below it. */
  lemma FilePathRoundTripFailsBelow()
    ensures var m := Configured("/", "C:\\w\\\\");
            GetFilePath(m, "C:\\w\\y") == "y" && MapPath(m, Some("y")) == Mapped("C:\\w\\\\y")
  {
    var m := Configured("/", "C:\\w\\\\");
    assert m == Mount("", "C:\\w\\");
    assert "C:\\w\\y"[|m.physicalPath|..] == "y";
    assert Forward("" + "y") == "y";
  }

  // ----- GetFilePath after MapPath -----

  predicate Rooted(path: string) {
    path != "" && Forward(path)[0] == '/'
  }

  /** The path with forward slashes and the configured casing of the mount. */
  function Canonical(m: Mount, path: string): string
    requires |m.virtualPath| <= |path|
  {
    m.virtualPath + Forward(path)[|m.virtualPath|..]
  }

  lemma MappedStaysInMount(m: Mount, path: Option<string>)
    requires Shaped(m)
    ensures var r := MapPath(m, path);
            r.Mapped? ==> m.physicalPath <= r.path && '/' !in r.path
  {
  }

  /** Mapping a rooted path and converting back canonicalises it, and mapping the canonical
      path reaches the same file, so a second pass changes nothing. */
  lemma MapPathCanonicalises(m: Mount, path: string)
    requires Shaped(m) && Rooted(path) && MapPath(m, Some(path)).Mapped?
    ensures |m.virtualPath| <= |path|
    ensures var file := MapPath(m, Some(path)).path;
            var canonical := Canonical(m, path);
            && GetFilePath(m, file) == canonical
            && SameIgnoringCase(canonical, Forward(path))
            && MapPath(m, Some(canonical)) == Mapped(file)
            && Rooted(canonical)
            && Canonical(m, canonical) == canonical
  {
    var n, file, canonical := |m.virtualPath|, MapPath(m, Some(path)).path, Canonical(m, path);
    var rest := Back(path)[n..];
    CanonicalSlashes(m, path);
    CanonicalStarts(m, path);
    assert file == m.physicalPath + rest && file[|m.physicalPath|..] == rest;
    assert Forward(m.virtualPath + rest) == canonical;
  }

  lemma CanonicalSlashes(m: Mount, path: string)
    requires Shaped(m) && |m.virtualPath| <= |path|
    ensures var n, canonical := |m.virtualPath|, Canonical(m, path);
            && Forward(canonical) == canonical && canonical[n..] == Forward(path)[n..]
            && Back(canonical)[n..] == Back(path)[n..]
            && Forward(m.virtualPath + Back(path)[n..]) == canonical
  {
  }

  lemma CanonicalStarts(m: Mount, path: string)
    requires |m.virtualPath| <= |path| && StartsWithIgnoringCase(Forward(path), m.virtualPath)
    ensures Canonical(m, path)[..|m.virtualPath|] == m.virtualPath
    ensures SameIgnoringCase(Canonical(m, path), Forward(path))
  {
    var n, test := |m.virtualPath|, Forward(path);
    forall i | 0 <= i < |test| ensures SameLetter(Canonical(m, path)[i], test[i]) {
      if i < n { assert test[..n][i] == test[i]; }
    }
  }

  /** No path, or an empty one, stands for the directory of the mount, which is reported as the virtual path; both
      directions of the translation agree there when that is rooted or empty. */
  lemma NoPathIsTheMount(m: Mount)
    requires Shaped(m)
    ensures MapPath(m, None) == MapPath(m, Some("")) == Mapped(m.physicalPath)
    ensures GetFilePath(m, m.physicalPath) == m.virtualPath
    ensures MapPath(m, Some(m.virtualPath)) == MapPath(m, None) <==> m.virtualPath == "" || m.virtualPath[0] == '/'
  {
    assert m.physicalPath[|m.physicalPath|..] == "";
    assert m.virtualPath + "" == m.virtualPath && Forward(m.virtualPath) == m.virtualPath;
    assert m.virtualPath[..|m.virtualPath|] == m.virtualPath;
    assert |m.physicalPath + "\\"| > |m.physicalPath|;
  }

  // ----- what MapPath refuses, and where it parts from its description -----

  /** Seen from the files: a rooted path gets null exactly when it is, ignoring case, the reported path of no
      file below the mount. */
  lemma MapPathRefusesNoFile(m: Mount, path: string)
    requires Shaped(m) && Rooted(path)
    ensures MapPath(m, Some(path)) == Outside <==>
            forall file: string :: m.physicalPath <= file && '/' !in file ==>
              !SameIgnoringCase(GetFilePath(m, file), Forward(path))
  {
    if MapPath(m, Some(path)).Mapped? {
      MapPathCanonicalises(m, path);
      MappedStaysInMount(m, Some(path));
    }
  }

  /** A path is inside the virtual path when it is that path or continues it at a segment boundary. */
  predicate Inside(m: Mount, path: string) {
    var test := Forward(path);
    && StartsWithIgnoringCase(test, m.virtualPath)
    && (|test| == |m.virtualPath| || test[|m.virtualPath|] == '/' || EndsIn(m.virtualPath, '/'))
  }

  /** MapPath is described as answering null outside the virtual path.  On rooted paths it does so
      exactly when the path does not merely share the virtual path's leading characters. */
  lemma MapPathAnswersNullOutside(m: Mount, path: string)
    requires Shaped(m) && Rooted(path)
    ensures (MapPath(m, Some(path)) == Outside <==> !Inside(m, path)) <==>
            !(StartsWithIgnoringCase(Forward(path), m.virtualPath) && |path| > |m.virtualPath| &&
              Forward(path)[|m.virtualPath|] != '/' && !EndsIn(m.virtualPath, '/'))
  {
  }

  lemma MapPathTakesSibling()
    ensures var m := Mount("/a", "C:");
            !Inside(m, "/ab") && MapPath(m, Some("/ab")) == Mapped("C:b")
  {
  }

  /** MapPath drops as many characters of a relative path as the virtual path has, so it takes the path whole
      exactly when the virtual path is empty. */
  lemma RelativePathKeptWhole(m: Mount, path: string)
    requires Shaped(m) && path != "" && !Rooted(path)
    ensures MapPath(m, Some(path)) == Mapped(m.physicalPath + "\\" + Back(path)) <==> m.virtualPath == ""
  {
    var whole := m.physicalPath + "\\" + Back(path);
    if |path| >= |m.virtualPath| {
      var got := m.physicalPath + "\\" + Back(path)[|m.virtualPath|..];
      assert |got| == |whole| - |m.virtualPath|;
    }
  }

  /** What the dropping does: a relative path maps like the same path with a leading slash exactly when it names
      the virtual path, ignoring case, and goes on with a separator. */
  lemma RelativeAgreesWithRooted(m: Mount, path: string)
    requires Shaped(m) && path != "" && !Rooted(path) && m.virtualPath != ""
    ensures MapPath(m, Some(path)) == MapPath(m, Some("/" + path)) <==>
            |m.virtualPath| <= |path| && Forward(path)[|m.virtualPath| - 1] == '/' &&
            StartsWithIgnoringCase("/" + Forward(path), m.virtualPath)
  {
    var n := |m.virtualPath|;
    PrependSlash(path, n);
    if n <= |path| {
      var tail := Back(path)[n..];
      DropsSeparator(m.physicalPath, Back(path)[n - 1], tail);
    }
  }

  lemma PrependSlash(path: string, n: nat)
    requires 0 < n
    ensures Forward("/" + path) == "/" + Forward(path) && Rooted("/" + path)
    ensures n <= |path| ==> Back("/" + path)[n..] == [Back(path)[n - 1]] + Back(path)[n..]
  {
  }

  lemma DropsSeparator(dir: string, c: char, tail: string)
    ensures dir + "\\" + tail == dir + ([c] + tail) <==> c == '\\'
  {
    assert (dir + "\\" + tail)[|dir|] == '\\' && (dir + ([c] + tail))[|dir|] == c;
    assert dir + "\\" + tail == dir + ("\\" + tail);
  }

  // ----- the host object -----

  /** `Host`: constructed blank by the application-host factory, then configured. */
  class Host {
    var virtualPath: string
    var physicalPath: string
    var hasFactory: bool
    var thisHostKey: int

    constructor ()
      ensures !hasFactory && thisHostKey == 0
    {
      virtualPath, physicalPath := "", "";
      hasFactory, thisHostKey := false, 0;
    }

    function Current(): Mount
      reads this
    {
      Mount(virtualPath, physicalPath)
    }

    method Configure(vpath: string, ppath: string, hostKey: int)
      modifies this
      ensures Current() == Configured(vpath, ppath)
      ensures Shaped(Current())
      ensures hasFactory && thisHostKey == hostKey
    {
      hasFactory := true;
      thisHostKey := hostKey;
      physicalPath := Back(ppath);
      virtualPath := Forward(vpath);
      if physicalPath != "" && physicalPath[|physicalPath| - 1] == '\\' {
        physicalPath := physicalPath[..|physicalPath| - 1];
      }
      if virtualPath != "" && virtualPath[|virtualPath| - 1] == '/' {
        virtualPath := virtualPath[..|virtualPath| - 1];
      }
      ConfiguredIsShaped(vpath, ppath);
    }
  }
}
