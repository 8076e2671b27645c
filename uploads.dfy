/** The upload configuration (multer): the extension filter shared by the
    image and the video uploader, the stored file name, and the dated
    upload directory. Extensions follow Node's POSIX `path.extname`. The
    clock is a parameter; disk storage and `mkdirSync` are not modelled. */
module Uploads {
  import opened Common
  import opened Strings
  import opened Requests

  /** Position of the last `c` in `s`. */
  function LastIndexOf(s: string, c: char): (r: Option<nat>)
    ensures r.Some? ==> r.value < |s| && s[r.value] == c && c !in s[r.value + 1..]
    ensures r.None? <==> c !in s
  {
    if s == [] then None
    else if s[|s| - 1] == c then Some(|s| - 1)
    else
      assert s == s[..|s| - 1] + [s[|s| - 1]];
      LastIndexOf(s[..|s| - 1], c)
  }

  /** `s` without its trailing slashes. */
  function StripTrailingSlashes(s: string): (r: string)
    ensures |r| <= |s| && r == s[..|r|] && (r == [] || r[|r| - 1] != '/')
    ensures s == [] || s[|s| - 1] != '/' ==> r == s
  {
    if s != [] && s[|s| - 1] == '/' then StripTrailingSlashes(s[..|s| - 1]) else s
  }

  /** The last path component. */
  function BaseName(s: string): (r: string)
    ensures '/' !in r
  {
    var t := StripTrailingSlashes(s);
    match LastIndexOf(t, '/')
    case None => t
    case Some(i) => t[i + 1..]
  }

  /** `path.extname` (POSIX): from the last '.' of the last component to its
      end, except that a component with no '.', a component whose only '.'
      is its first character (".png"), and ".." have no extension. */
  function ExtName(name: string): string {
    var base := BaseName(name);
    match LastIndexOf(base, '.')
    case None => ""
    case Some(d) => if d == 0 || base == ".." then "" else base[d..]
  }

  /** The ten extensions of the `mimeTypes` list, compared exactly. */
  const AllowedExtensions: seq<string> :=
    [".jpg", ".jpeg", ".png", ".webp", ".gif", ".mp4", ".mpg", ".mov", ".avi", ".mkv"]

  /** `fileFilter`: accepted (Ok) iff the extension is listed, otherwise a
      BadRequest error. The image and the video uploader both use it. */
  function FileFilter(originalName: string): (out: Outcome)
    ensures out == Ok || out == BadRequest
    ensures out == Ok <==> ExtName(originalName) in AllowedExtensions
  {
    if ExtName(originalName) in AllowedExtensions then Ok else BadRequest
  }

  /** The last `c` is the one with no `c` after it. */
  lemma LastIndexAt(s: string, c: char, i: nat)
    requires i < |s| && s[i] == c && c !in s[i + 1..]
    ensures LastIndexOf(s, c) == Some(i)
  {
  }

  /** A name without '/' is its own last component. */
  lemma BaseNoSlash(s: string)
    requires '/' !in s
    ensures BaseName(s) == s
  {
    assert s == [] || s[|s| - 1] != '/';
  }

  /** An extension as `path.extname` returns it: a '.' followed by at
      least one character, none of them '.' or '/'. */
  predicate IsExtension(ext: string) {
    |ext| >= 2 && ext[0] == '.' && '.' !in ext[1..] && '/' !in ext
  }

  lemma NoSlashInName(stem: string, ext: string)
    requires '/' !in stem && '/' !in ext
    ensures '/' !in stem + ext
  {
    var name := stem + ext;
    forall k | 0 <= k < |name| ensures name[k] != '/' {
      if k < |stem| {
        assert name[k] == stem[k];
      } else {
        assert name[k] == ext[k - |stem|];
      }
    }
  }

  lemma LastDotOfName(stem: string, ext: string)
    requires IsExtension(ext)
    ensures LastIndexOf(stem + ext, '.') == Some(|stem|)
  {
    var name := stem + ext;
    assert name[|stem|] == '.' && name[|stem| + 1..] == ext[1..];
    LastIndexAt(name, '.', |stem|);
  }

  /** A name made of a non-empty stem without '/' and an extension has
      that extension. */
  lemma ExtOfStem(stem: string, ext: string)
    requires stem != [] && '/' !in stem && IsExtension(ext)
    ensures ExtName(stem + ext) == ext
  {
    var name := stem + ext;
    NoSlashInName(stem, ext);
    LastDotOfName(stem, ext);
    BaseNoSlash(name);
    assert name[|stem|..] == ext;
  }

  /** Such a name passes the filter iff its extension is one of the ten. */
  lemma FilterByExtension(stem: string, ext: string)
    requires stem != [] && '/' !in stem && IsExtension(ext)
    ensures FileFilter(stem + ext) == Ok <==> ext in AllowedExtensions
  {
    ExtOfStem(stem, ext);
  }

  /** The comparison is case-sensitive: every listed extension starts with
      a lower-case letter, so an extension that starts with an upper-case
      letter, such as ".JPG", is refused. */
  lemma UpperCaseRefused(stem: string, ext: string)
    requires stem != [] && '/' !in stem && IsExtension(ext)
    requires 'A' <= ext[1] <= 'Z'
    ensures FileFilter(stem + ext) == BadRequest
  {
    FilterByExtension(stem, ext);
    UpperNotListed(ext);
  }

  lemma UpperNotListed(ext: string)
    requires |ext| >= 2 && 'A' <= ext[1] <= 'Z'
    ensures ext !in AllowedExtensions
  {
    forall i | 0 <= i < |AllowedExtensions| ensures AllowedExtensions[i] != ext {
      assert 'a' <= AllowedExtensions[i][1] <= 'z';
    }
  }

  /** The shared filter lets a video through the image uploader and an
      image through the video uploader. */
  lemma SharedFilterExamples(stem: string)
    requires stem != [] && '/' !in stem
    ensures FileFilter(stem + ".mp4") == Ok && FileFilter(stem + ".png") == Ok
  {
    FilterByExtension(stem, ".mp4");
    FilterByExtension(stem, ".png");
  }

  /** Every listed extension has a '.' and at least one more character. */
  lemma ListedAreLong(ext: string)
    requires ext in AllowedExtensions
    ensures |ext| >= 2
  {
  }

  /** A name without '.' has no extension and is refused. */
  lemma NoExtensionRefused(name: string)
    requires '/' !in name && '.' !in name
    ensures FileFilter(name) == BadRequest
  {
    BaseNoSlash(name);
    if "" in AllowedExtensions {
      ListedAreLong("");
    }
  }

  /** A hidden file such as ".png" has no extension and is refused. */
  lemma HiddenFileRefused(ext: string)
    requires IsExtension(ext)
    ensures FileFilter(ext) == BadRequest
  {
    BaseNoSlash(ext);
    LastIndexAt(ext, '.', 0);
    if "" in AllowedExtensions {
      ListedAreLong("");
    }
  }

  /** `path.join("uploads", "blogs", year, month, day)` with `month` from
      `getMonth()`, which counts from 0. */
  function UploadPath(year: nat, month0: nat, day: nat): string {
    Join(["uploads", "blogs", NatToString(year), NatToString(month0), NatToString(day)], '/')
  }

  /** The path has exactly five components: the two fixed directories and
      the decimal year, 0-based month and day. */
  lemma UploadPathComponents(year: nat, month0: nat, day: nat)
    ensures Split(UploadPath(year, month0, day), '/') ==
              ["uploads", "blogs", NatToString(year), NatToString(month0), NatToString(day)]
  {
    var ps := ["uploads", "blogs", NatToString(year), NatToString(month0), NatToString(day)];
    forall i | 0 <= i < |ps| ensures '/' !in ps[i] {
      if i >= 2 {
        assert forall k :: 0 <= k < |ps[i]| ==> IsDigit(ps[i][k]);
      }
    }
    SplitJoin(ps, '/');
  }

  /** The `destination` callback: for a file with a name, the dated upload
      path is recorded in the body as `fileUploadPath`. */
  method Destination(req: Request, originalName: string, year: nat, month0: nat, day: nat)
    modifies req
    ensures req.user == old(req.user) && req.nextCalls == old(req.nextCalls)
    ensures originalName == [] ==> req.body == old(req.body)
    ensures originalName != [] ==>
              req.body == old(req.body)["fileUploadPath" := Str(UploadPath(year, month0, day))]
  {
    if originalName != [] {
      req.body := req.body["fileUploadPath" := Str(UploadPath(year, month0, day))];
    }
  }

  /** The `filename` callback: a named file is stored under its original
      name unchanged, which is also recorded in the body as `filename`. */
  method FileName(req: Request, originalName: string) returns (stored: Option<string>)
    modifies req
    ensures req.user == old(req.user) && req.nextCalls == old(req.nextCalls)
    ensures originalName == [] ==> stored == None && req.body == old(req.body)
    ensures originalName != [] ==>
              stored == Some(originalName) && req.body == old(req.body)["filename" := Str(originalName)]
  {
    stored := None;
    if originalName != [] {
      req.body := req.body["filename" := Str(originalName)];
      stored := Some(originalName);
    }
  }
}
