/** `FilenameGenerator`: the output and log file names derived from where
    the metadata came from (a local path or a URL), a suffix and the time of
    the run. The clock and the file system are parameters: `timestamp` is
    the `%Y%m%d_%H%M%S` rendering of the current time and `pathExists`
    whether the source names an existing file. The URL path is found as
    Python's `urllib.parse.urlparse` finds it. */
module Filenames {
  import opened Text

  predicate IsAsciiLetter(c: char) {
    'a' <= c <= 'z' || 'A' <= c <= 'Z'
  }

  /** The characters a URL scheme may be made of. */
  predicate IsSchemeChar(c: char) {
    IsAsciiLetter(c) || '0' <= c <= '9' || c == '+' || c == '-' || c == '.'
  }

  /** `str.lower` on scheme characters. */
  function LowerAscii(s: string): (r: string)
    ensures |r| == |s|
    ensures forall i :: 0 <= i < |s| ==> !('A' <= r[i] <= 'Z')
  {
    seq(|s|, i requires 0 <= i < |s| => if 'A' <= s[i] <= 'Z' then (s[i] as int + 32) as char else s[i])
  }

  /** The characters `urlsplit` strips from the front of a URL: the C0
      controls and the space. */
  predicate IsControlOrSpace(c: char) {
    c <= ' '
  }

  /** The characters `urlsplit` removes wherever they occur. */
  predicate IsUnsafe(c: char) {
    c == '\t' || c == '\r' || c == '\n'
  }

  function RemoveUnsafe(s: string): (r: string)
    ensures |r| <= |s|
    ensures forall i :: 0 <= i < |r| ==> !IsUnsafe(r[i])
  {
    if s == "" then ""
    else if IsUnsafe(s[0]) then RemoveUnsafe(s[1..])
    else [s[0]] + RemoveUnsafe(s[1..])
  }

  predicate IsSlash(c: char) {
    c == '/'
  }

  /** The schemes whose paths may carry `;parameters`. */
  const UsesParams: set<string> := {
    "", "ftp", "hdl", "prospero", "http", "imap", "https", "shttp", "rtsp",
    "rtsps", "rtspu", "sip", "sips", "mms", "sftp", "tel"}

  /** The URL as `urlsplit` reads it: leading controls and spaces stripped,
      tabs and line breaks removed. */
  function Cleaned(source: string): string {
    RemoveUnsafe(TrimLeft(source, IsControlOrSpace))
  }

  /** The scheme and the rest of a cleaned URL. A scheme is a run of
      scheme characters before the first `:`, starting with an ASCII
      letter; it is lower-cased. */
  function SchemeSplit(url: string): (r: (string, string))
    ensures r.0 == "" ==> r.1 == url
    ensures r.0 != "" ==> |r.0| < |url| && url[|r.0|] == ':' && r.1 == url[|r.0| + 1..] && ':' !in url[..|r.0|]
  {
    var i := Find(url, ':');
    if i > 0 && IsAsciiLetter(url[0]) && forall k :: 0 <= k < i ==> IsSchemeChar(url[k]) then
      (LowerAscii(url[..i]), url[i + 1..])
    else ("", url)
  }

  function UrlScheme(source: string): string {
    SchemeSplit(Cleaned(source)).0
  }

  /** Where the network location ends: at the first `/`, `?` or `#` after
      the leading `//`, or at the end. */
  function NetlocEnd(rest: string): (d: nat)
    requires |rest| >= 2
    ensures 2 <= d <= |rest|
    ensures forall k :: 2 <= k < d ==> rest[k] != '/' && rest[k] != '?' && rest[k] != '#'
    ensures d < |rest| ==> rest[d] == '/' || rest[d] == '?' || rest[d] == '#'
  {
    var a, b, c := FindFrom(rest, '/', 2), FindFrom(rest, '?', 2), FindFrom(rest, '#', 2);
    var d1 := if a >= 0 then a else |rest|;
    var d2 := if b >= 0 && b < d1 then b else d1;
    var d3 := if c >= 0 && c < d2 then c else d2;
    assert forall k :: 2 <= k < |rest| ==> rest[k] == rest[2..][k - 2];
    d3
  }

  /** The rest of the URL once a `//netloc` prefix is cut off. */
  function AfterNetloc(rest: string): string {
    if |rest| >= 2 && rest[..2] == "//" then rest[NetlocEnd(rest)..] else rest
  }

  /** The part of `s` before the first `c`. */
  function CutAt(s: string, c: char): (r: string)
    ensures c !in r
    ensures |r| <= |s| && r == s[..|r|]
    ensures |r| < |s| ==> s[|r|] == c
  {
    var i := Find(s, c);
    if i >= 0 then s[..i] else s
  }

  /** `_splitparams`: the path without its `;parameters`. With a `/` in
      the path only a `;` in the last segment counts. */
  function SplitParams(p: string): (r: string)
    requires ';' in p
    ensures |r| <= |p| && r == p[..|r|]
  {
    var slash := RFind(p, '/');
    if slash >= 0 then
      var i := FindFrom(p, ';', slash);
      if i < 0 then p else p[..i]
    else p[..Find(p, ';')]
  }

  /** `urlparse(source).path` */
  function UrlPath(source: string): (path: string)
    ensures '#' !in path && '?' !in path
  {
    var (scheme, rest) := SchemeSplit(Cleaned(source));
    var p := CutAt(CutAt(AfterNetloc(rest), '#'), '?');
    if scheme in UsesParams && ';' in p then
      var r := SplitParams(p);
      assert forall k :: 0 <= k < |r| ==> r[k] == p[k];
      r
    else p
  }

  /** The components `pathlib` keeps: the non-empty ones other than `.`. */
  function Components(path: string): (cs: seq<string>)
    ensures forall k :: 0 <= k < |cs| ==> cs[k] != "" && cs[k] != "." && '/' !in cs[k]
  {
    Kept(SplitOn(path, '/'))
  }

  function Kept(parts: seq<string>): (cs: seq<string>)
    requires forall k :: 0 <= k < |parts| ==> '/' !in parts[k]
    ensures forall k :: 0 <= k < |cs| ==> cs[k] != "" && cs[k] != "." && '/' !in cs[k]
    ensures |cs| <= |parts|
  {
    if parts == [] then []
    else if parts[0] == "" || parts[0] == "." then Kept(parts[1..])
    else [parts[0]] + Kept(parts[1..])
  }

  /** `Path(path).name`: the last component, or `""` when there is none. */
  function Name(path: string): (n: string)
    ensures '/' !in n && n != "."
  {
    var cs := Components(path);
    if cs == [] then "" else cs[|cs| - 1]
  }

  /** `PurePath.stem`: the name without its last suffix. A leading dot
      (a hidden file) or a trailing one is not a suffix. */
  function Stem(name: string): (s: string)
    ensures |s| <= |name| && s == name[..|s|]
  {
    var i := RFind(name, '.');
    if 0 < i < |name| - 1 then name[..i] else name
  }

  /** `_is_local_file`: never an http or https URL; otherwise a local file
      when the path exists or the source has no scheme. */
  predicate IsLocalFile(source: string, pathExists: bool) {
    var scheme := UrlScheme(source);
    scheme != "http" && scheme != "https" && (pathExists || scheme == "")
  }

  /** The base of both file names: the stem of a local file; for a URL the
      stem of the last segment of its path, or `metadata` when the path has
      none. */
  function BaseName(source: string, isLocal: bool): string {
    if isLocal then Stem(Name(source)) else UrlBase(UrlPath(source))
  }

  /** The base taken from a URL path: the stem of its last segment once
      the surrounding slashes are stripped, or `metadata`. */
  function UrlBase(path: string): (base: string)
    ensures '/' !in base
  {
    var last := LastPart(Trim(path, IsSlash));
    if last != "" then NameStem(last) else DefaultBase()
  }

  /** The stem of the name of `path`. */
  function NameStem(path: string): (s: string)
    ensures '/' !in s
  {
    var n := Name(path);
    StemIsPlain(n);
    Stem(n)
  }

  /** The base used when a URL path has no segment. */
  function DefaultBase(): (s: string)
    ensures s == "metadata" && '/' !in s
  {
    "metadata"
  }

  /** `q.split("/")[-1]`: what follows the last `/`. */
  function LastPart(q: string): (last: string)
    ensures '/' !in last
    ensures last == q[RFind(q, '/') + 1..]
  {
    var parts := SplitOn(q, '/');
    SplitLast(q, '/');
    parts[|parts| - 1]
  }

  /** `generate_filenames`: the output file name and the log file name. Both
      are built on the base taken from the URL path for an http or https
      URL, and for a source with another scheme that names no existing file;
      on the stem of the source's name otherwise. The two never coincide. */
  function GenerateFilenames(source: string, suffix: string, timestamp: string, pathExists: bool): (r: (string, string))
    ensures var scheme := UrlScheme(source);
      var base :=
        if scheme == "http" || scheme == "https" || (scheme != "" && !pathExists)
        then UrlBase(UrlPath(source))
        else Stem(Name(source));
      && r.0 == base + "_" + suffix + "_" + timestamp + ".jsonld"
      && r.1 == base + "_processing_" + timestamp + ".log"
    ensures r.0 != r.1
  {
    var base := BaseName(source, IsLocalFile(source, pathExists));
    var output := base + "_" + suffix + "_" + timestamp + ".jsonld";
    var log := base + "_processing_" + timestamp + ".log";
    Endings(base + "_" + suffix + "_" + timestamp, base + "_processing_" + timestamp);
    (output, log)
  }

  /** A `.jsonld` name and a `.log` name differ in their last character. */
  lemma Endings(a: string, b: string)
    ensures (a + ".jsonld")[|a| + 6] == 'd' && (b + ".log")[|b| + 3] == 'g'
    ensures a + ".jsonld" != b + ".log"
  {
    assert (a + ".jsonld")[|a| + 6] == ".jsonld"[6];
    assert (b + ".log")[|b| + 3] == ".log"[3];
    if |a| + 6 == |b| + 3 {
      assert (a + ".jsonld")[|a| + 6] != (b + ".log")[|b| + 3];
    }
  }

  /** The stem is what is left of the name once its last suffix is cut:
      either the whole name, or a non-empty prefix followed by a dot and a
      non-empty suffix without dots. */
  lemma StemSpec(name: string)
    ensures var s := Stem(name);
      || s == name
      || (s != "" && |s| + 1 < |name| && name == s + "." + name[|s| + 1..] && '.' !in name[|s| + 1..])
    ensures '.' !in name ==> Stem(name) == name
  {
    var i := RFind(name, '.');
    if 0 < i < |name| - 1 {
      assert name == name[..i] + "." + name[i + 1..];
    }
  }

  /** A name ending in an extension has the rest as its stem. */
  lemma StemOfExtension(s: string, ext: string)
    requires s != "" && ext != "" && '.' !in ext
    ensures Stem(s + "." + ext) == s
  {
    var n := s + "." + ext;
    assert n[|s|] == '.' && n[|s| + 1..] == ext;
    RFindLast(n, '.', |s|);
    assert n[..|s|] == s;
  }

  /** A string without `/` other than `.` and `""` is its own name. */
  lemma NameOfPlain(n: string)
    requires '/' !in n && n != "" && n != "."
    ensures Name(n) == n
  {
    assert Find(n, '/') == -1;
    assert SplitOn(n, '/') == [n];
  }

  /** Neither base name holds a `/`, so both files land in the working
      directory. */
  lemma BaseNameIsPlain(source: string, isLocal: bool)
    ensures '/' !in BaseName(source, isLocal)
  {
    if isLocal {
      StemIsPlain(Name(source));
    }
  }

  lemma StemIsPlain(n: string)
    requires '/' !in n
    ensures '/' !in Stem(n)
  {
    var s := Stem(n);
    assert forall k :: 0 <= k < |s| ==> s[k] == n[k];
  }

  /** For a URL the base is `metadata` exactly when the path is empty or
      all slashes; otherwise it is the stem of the text after the path's
      last `/` (with surrounding slashes stripped). */
  lemma UrlBaseSpec(path: string)
    ensures var q := Trim(path, IsSlash);
      && (q == "" <==> forall i :: 0 <= i < |path| ==> path[i] == '/')
      && (q == "" ==> UrlBase(path) == "metadata")
      && (q != "" ==> q[RFind(q, '/') + 1..] != "" && UrlBase(path) == Stem(Name(q[RFind(q, '/') + 1..])))
  {
    var q := Trim(path, IsSlash);
    TrimSpec(path, IsSlash);
    if q != "" {
      UrlBaseOfTrimmed(path, q);
    }
  }

  lemma UrlBaseOfTrimmed(path: string, q: string)
    requires q == Trim(path, IsSlash) && q != "" && q[|q| - 1] != '/'
    ensures q[RFind(q, '/') + 1..] != "" && UrlBase(path) == Stem(Name(q[RFind(q, '/') + 1..]))
  {
    var last := LastPart(q);
    assert last != "" by {
      assert q[RFind(q, '/') + 1..] != "";
    }
    assert UrlBase(path) == NameStem(last);
  }

  /** Both file names are built on the base and hold no `/` when the
      suffix and timestamp hold none, so both files land in the working
      directory. */
  lemma GeneratedNames(source: string, suffix: string, timestamp: string, pathExists: bool)
    requires '/' !in suffix && '/' !in timestamp
    ensures var (output, log) := GenerateFilenames(source, suffix, timestamp, pathExists);
      && '/' !in output && '/' !in log
  {
    var isLocal := IsLocalFile(source, pathExists);
    var base := BaseName(source, isLocal);
    BaseNameIsPlain(source, isLocal);
    LiteralsPlain();
    PlainJoin(base, "_", suffix, "_", timestamp, ".jsonld");
    PlainJoin(base, "_processing_", timestamp, "", "", ".log");
  }

  lemma LiteralsPlain()
    ensures '/' !in "_" && '/' !in ".jsonld" && '/' !in "_processing_" && '/' !in ".log" && '/' !in ""
  {
  }

  lemma PlainJoin(a: string, b: string, c: string, d: string, e: string, f: string)
    requires '/' !in a && '/' !in b && '/' !in c && '/' !in d && '/' !in e && '/' !in f
    ensures '/' !in a + b + c + d + e + f
  {
  }

  /** http and https URLs are never local files; a source without a scheme
      always is. */
  lemma LocalFileRule(source: string, pathExists: bool)
    ensures UrlScheme(source) in {"http", "https"} ==> !IsLocalFile(source, pathExists)
    ensures UrlScheme(source) == "" ==> IsLocalFile(source, pathExists)
  {
  }

  lemma {:induction false} KeptLast(parts: seq<string>)
    requires |parts| >= 1
    requires forall k :: 0 <= k < |parts| ==> '/' !in parts[k]
    requires parts[|parts| - 1] != "" && parts[|parts| - 1] != "."
    ensures |Kept(parts)| >= 1 && Kept(parts)[|Kept(parts)| - 1] == parts[|parts| - 1]
  {
    if |parts| > 1 {
      KeptLast(parts[1..]);
    }
  }

  /** The name of a path is its last segment when that is neither empty
      nor `.`. */
  lemma NameIsLastSegment(path: string, seg: string)
    requires seg == path[RFind(path, '/') + 1..]
    requires seg != "" && seg != "."
    ensures Name(path) == seg
  {
    var parts := SplitOn(path, '/');
    SplitLast(path, '/');
    assert parts[|parts| - 1] == seg;
    KeptLast(parts);
    var cs := Kept(parts);
    assert cs[|cs| - 1] == seg;
    assert Components(path) == cs;
  }

  /** `urlsplit` leaves a URL without leading controls and line breaks as
      it is. */
  lemma CleanedPlain(s: string)
    requires s != "" && s[0] > ' '
    requires forall i :: 0 <= i < |s| ==> !IsUnsafe(s[i])
    ensures Cleaned(s) == s
  {
    NoUnsafe(s);
  }

  lemma {:induction false} NoUnsafe(s: string)
    requires forall i :: 0 <= i < |s| ==> !IsUnsafe(s[i])
    ensures RemoveUnsafe(s) == s
  {
    if s != "" {
      NoUnsafe(s[1..]);
    }
  }

  /** An http or https URL whose path is free of queries, fragments and
      parameters has that path as its `urlparse` path. */
  lemma WebUrlPath(scheme: string, host: string, path: string)
    requires scheme == "http" || scheme == "https"
    requires '/' !in host && '?' !in host && '#' !in host
    requires path == "" || path[0] == '/'
    requires '?' !in path && '#' !in path && ';' !in path
    requires forall i :: 0 <= i < |host| ==> !IsUnsafe(host[i])
    requires forall i :: 0 <= i < |path| ==> !IsUnsafe(path[i])
    ensures UrlScheme(scheme + "://" + host + path) == scheme
    ensures UrlPath(scheme + "://" + host + path) == path
  {
    var s := scheme + "://" + host + path;
    var rest := "//" + host + path;
    WebSchemes(scheme);
    WebUrlScheme(scheme, host + path);
    Regroup(scheme, "://", host, path);
    Regroup([], "//", host, path);
    AfterHost(host, path);
    PlainUrlPath(s, scheme, rest, path);
  }

  lemma Regroup(a: string, b: string, c: string, d: string)
    ensures a + b + c + d == a + b + (c + d)
    ensures [] + b == b
  {
  }

  /** A URL whose path after the network location holds no `#`, `?` or
      `;` has that path as its `urlparse` path. */
  lemma PlainUrlPath(url: string, scheme: string, rest: string, path: string)
    requires SchemeSplit(Cleaned(url)) == (scheme, rest)
    requires AfterNetloc(rest) == path
    requires '?' !in path && '#' !in path && ';' !in path
    ensures UrlPath(url) == path
  {
    assert CutAt(path, '#') == path;
    assert CutAt(path, '?') == path;
  }

  lemma WebUrlScheme(scheme: string, tail: string)
    requires IsLowerScheme(scheme)
    requires forall i :: 0 <= i < |tail| ==> !IsUnsafe(tail[i])
    ensures Cleaned(scheme + "://" + tail) == scheme + "://" + tail
    ensures SchemeSplit(scheme + "://" + tail) == (scheme, "//" + tail)
  {
    WebUrlCleaned(scheme, tail);
    var rest := "//" + tail;
    assert scheme + "://" + tail == scheme + [':'] + rest;
    SchemeOf(scheme, rest);
  }

  /** A lower-case scheme and its `:` are split off what follows. */
  lemma SchemeOf(scheme: string, rest: string)
    requires IsLowerScheme(scheme)
    ensures SchemeSplit(scheme + [':'] + rest) == (scheme, rest)
  {
    var s := scheme + [':'] + rest;
    var n := |scheme|;
    assert s[..n] == scheme && s[n] == ':' && s[n + 1..] == rest;
    LowerOfLower(scheme);
    SchemeSplitAt(s, n);
  }

  lemma WebUrlCleaned(scheme: string, tail: string)
    requires IsLowerScheme(scheme)
    requires forall i :: 0 <= i < |tail| ==> !IsUnsafe(tail[i])
    ensures Cleaned(scheme + "://" + tail) == scheme + "://" + tail
  {
    var s := scheme + "://" + tail;
    var n := |scheme|;
    forall i | 0 <= i < |s| ensures !IsUnsafe(s[i]) {
      if i >= n + 3 {
        assert s[i] == tail[i - n - 3];
      } else if i < n {
        assert s[i] == scheme[i];
      }
    }
    CleanedPlain(s);
  }

  /** A URL whose first `:` at `n` follows a run of scheme characters
      starting with a letter is split there. */
  lemma SchemeSplitAt(url: string, n: int)
    requires 0 < n < |url| && url[n] == ':'
    requires forall k :: 0 <= k < n ==> IsAsciiLetter(url[k])
    ensures SchemeSplit(url) == (LowerAscii(url[..n]), url[n + 1..])
  {
    FindFirst(url, ':', n);
  }

  lemma LowerOfLower(s: string)
    requires IsLowerScheme(s)
    ensures LowerAscii(s) == s
    ensures forall k :: 0 <= k < |s| ==> IsAsciiLetter(s[k])
  {
  }

  /** A non-empty run of lower-case ASCII letters. */
  predicate IsLowerScheme(scheme: string) {
    scheme != "" && forall k :: 0 <= k < |scheme| ==> 'a' <= scheme[k] <= 'z'
  }

  lemma WebSchemes(scheme: string)
    requires scheme == "http" || scheme == "https"
    ensures IsLowerScheme(scheme)
  {
  }

  lemma AfterHost(host: string, path: string)
    requires '/' !in host && '?' !in host && '#' !in host
    requires path == "" || path[0] == '/'
    ensures AfterNetloc("//" + host + path) == path
  {
    var rest := "//" + host + path;
    assert rest[..2] == "//";
    var d := NetlocEnd(rest);
    assert forall k :: 2 <= k < 2 + |host| ==> rest[k] == host[k - 2];
    if path != "" {
      assert rest[2 + |host|] == '/';
    }
    assert d == 2 + |host|;
    assert rest[d..] == path;
  }

  /** A URL path ending in a segment that follows a `/` (or is the whole
      path) takes that segment's stem as its base. */
  lemma UrlBaseOfSegment(path: string, seg: string)
    requires seg != "" && seg != "." && '/' !in seg
    requires |seg| <= |path| && path[|path| - |seg|..] == seg
    requires |seg| < |path| ==> path[|path| - |seg| - 1] == '/'
    ensures UrlBase(path) == Stem(seg)
  {
    var q := Trim(path, IsSlash);
    TrimmedEndsWith(path, seg);
    LastPartOfSegment(q, seg);
    NameOfPlain(seg);
    assert UrlBase(path) == NameStem(seg);
  }

  /** Stripping the slashes around a path that ends in a segment keeps
      the segment and the `/` before it. */
  lemma TrimmedEndsWith(path: string, seg: string)
    requires seg != "" && '/' !in seg
    requires |seg| <= |path| && path[|path| - |seg|..] == seg
    requires |seg| < |path| ==> path[|path| - |seg| - 1] == '/'
    ensures var q := Trim(path, IsSlash);
      && |seg| <= |q| && q[|q| - |seg|..] == seg
      && (|seg| < |q| ==> q[|q| - |seg| - 1] == '/')
  {
    var n := |path| - |seg|;
    var start := SkipLeft(path, IsSlash, 0);
    assert path[n] == seg[0];
    assert start <= n;
    var l := TrimLeft(path, IsSlash);
    assert l == path[start..];
    assert l[|l| - 1] == seg[|seg| - 1];
    assert SkipRight(l, IsSlash, |l|) == |l|;
    assert Trim(path, IsSlash) == l;
    assert l[|l| - |seg|..] == path[n..];
  }

  /** A string ending in `/<seg>`, or equal to `seg`, has `seg` as its
      last part. */
  lemma LastPartOfSegment(q: string, seg: string)
    requires '/' !in seg
    requires |seg| <= |q| && q[|q| - |seg|..] == seg
    requires |seg| < |q| ==> q[|q| - |seg| - 1] == '/'
    ensures LastPart(q) == seg
  {
    var j := |q| - |seg|;
    forall k | j <= k < |q|
      ensures q[k] != '/'
    {
      assert q[k] == seg[k - j];
    }
    if j > 0 {
      RFindLast(q, '/', j - 1);
    } else {
      assert RFind(q, '/') == -1;
    }
  }

  /** For an http or https URL whose path ends in `/<stem>.<ext>` (and has
      no query, fragment or parameters) the names are
      `<stem>_<suffix>_<timestamp>.jsonld` and
      `<stem>_processing_<timestamp>.log`, whether or not a file of that
      name exists. */
  lemma WebUrlFilenames(scheme: string, host: string, dir: string, stem: string, ext: string,
                        suffix: string, timestamp: string, pathExists: bool)
    requires scheme == "http" || scheme == "https"
    requires '/' !in host && '?' !in host && '#' !in host
    requires forall i :: 0 <= i < |host| ==> !IsUnsafe(host[i])
    requires dir == "" || dir[0] == '/'
    requires var path := dir + "/" + stem + "." + ext;
      && '?' !in path && '#' !in path && ';' !in path
      && forall i :: 0 <= i < |path| ==> !IsUnsafe(path[i])
    requires stem != "" && '/' !in stem && ext != "" && '/' !in ext && '.' !in ext
    ensures GenerateFilenames(scheme + "://" + host + (dir + "/" + stem + "." + ext), suffix, timestamp, pathExists)
      == (stem + "_" + suffix + "_" + timestamp + ".jsonld", stem + "_processing_" + timestamp + ".log")
  {
    var url := scheme + "://" + host + (dir + "/" + stem + "." + ext);
    WebUrlBase(scheme, host, dir, stem, ext);
    assert !IsLocalFile(url, pathExists);
  }

  lemma WebUrlBase(scheme: string, host: string, dir: string, stem: string, ext: string)
    requires scheme == "http" || scheme == "https"
    requires '/' !in host && '?' !in host && '#' !in host
    requires forall i :: 0 <= i < |host| ==> !IsUnsafe(host[i])
    requires dir == "" || dir[0] == '/'
    requires var path := dir + "/" + stem + "." + ext;
      && '?' !in path && '#' !in path && ';' !in path
      && forall i :: 0 <= i < |path| ==> !IsUnsafe(path[i])
    requires stem != "" && '/' !in stem && ext != "" && '/' !in ext && '.' !in ext
    ensures UrlScheme(scheme + "://" + host + (dir + "/" + stem + "." + ext)) == scheme
    ensures UrlBase(UrlPath(scheme + "://" + host + (dir + "/" + stem + "." + ext))) == stem
  {
    var path := dir + "/" + stem + "." + ext;
    var seg := stem + "." + ext;
    SegmentBase(dir, seg, stem, ext);
    assert path[0] == '/';
    WebUrlPath(scheme, host, path);
  }

  lemma SegmentBase(dir: string, seg: string, stem: string, ext: string)
    requires seg == stem + "." + ext
    requires stem != "" && '/' !in stem && ext != "" && '/' !in ext && '.' !in ext
    ensures UrlBase(dir + "/" + stem + "." + ext) == stem
  {
    var path := dir + "/" + stem + "." + ext;
    assert path == dir + "/" + seg;
    assert '/' !in seg;
    UrlBaseOfSegment(path, seg);
    StemOfExtension(stem, ext);
  }

  /** For a local path ending in `/<stem>.<ext>` the names are built from
      `<stem>` the same way. */
  lemma LocalFilenames(dir: string, stem: string, ext: string, suffix: string, timestamp: string, pathExists: bool)
    requires var path := dir + "/" + stem + "." + ext;
      && path[0] > ' ' && ':' !in path
      && forall i :: 0 <= i < |path| ==> !IsUnsafe(path[i])
    requires stem != "" && '/' !in stem && ext != "" && '/' !in ext && '.' !in ext
    ensures GenerateFilenames(dir + "/" + stem + "." + ext, suffix, timestamp, pathExists)
      == (stem + "_" + suffix + "_" + timestamp + ".jsonld", stem + "_processing_" + timestamp + ".log")
  {
    var path := dir + "/" + stem + "." + ext;
    var seg := stem + "." + ext;
    assert path == dir + "/" + seg;
    CleanedPlain(path);
    assert UrlScheme(path) == "";
    assert '/' !in seg;
    assert path[|dir|] == '/' && path[|dir| + 1..] == seg;
    RFindLast(path, '/', |dir|);
    NameIsLastSegment(path, seg);
    StemOfExtension(stem, ext);
  }
}
