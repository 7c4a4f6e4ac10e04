/** Artifact paths: which names are accepted, and the media type and cache policy they get. */
module Paths {
  import opened Faults
  import opened Text

  const MAX_PATH_BYTES := 512

  predicate Printable(s: string) {
    forall i :: 0 <= i < |s| ==> s[i] as int >= 32 && s[i] as int != 127 && s[i] != '\\'
  }

  function StripDotSlash(s: string): string {
    if StartsWith(s, "./") then StripDotSlash(s[2..]) else s
  }

  function StripSlashes(s: string): string {
    if s != "" && s[|s| - 1] == '/' then StripSlashes(s[..|s| - 1]) else s
  }

  /** The number of bytes of the UTF-8 encoding. */
  function Utf8Length(s: string): nat {
    if s == "" then 0
    else
      var code := s[0] as int;
      (if code < 0x80 then 1 else if code < 0x800 then 2 else if code < 0x1_0000 then 3 else 4)
      + Utf8Length(s[1..])
  }

  function Components(parts: seq<string>): seq<string> {
    if parts == [] then []
    else if parts[0] == "" || parts[0] == "." then Components(parts[1..])
    else [parts[0]] + Components(parts[1..])
  }

  /** How a pure POSIX path object prints the relative path `s`. */
  function PosixText(s: string): string {
    var components := Components(Split(s));
    if components == [] then "." else Join(components)
  }

  const BAD_PATH: Outcome<string> := Fault("artifact_path_invalid", 422)

  predicate GoodParts(parts: seq<string>) {
    forall i :: 0 <= i < |parts| ==> parts[i] != "" && parts[i] != "." && parts[i] != ".."
  }

  /** The checks made once the leading "./" and trailing "/" are gone. */
  function CheckStripped(s: string): Outcome<string> {
    if s == "" || StartsWith(s, "/") || EndsWith(s, "/")
       || !GoodParts(Split(s))
       || PosixText(s) != s
       || Utf8Length(s) > MAX_PATH_BYTES
    then BAD_PATH
    else Ok(s)
  }

  function CheckPath(value: string, directory: bool): Outcome<string> {
    if value == "" || !Printable(value) then BAD_PATH
    else
      var stripped := StripDotSlash(value);
      CheckStripped(if directory then StripSlashes(stripped) else stripped)
  }

  /** Paths as they are stored: printable, relative, and without empty, "." or ".." parts. */
  ghost predicate Canonical(path: string) {
    && path != ""
    && Printable(path)
    && GoodParts(Split(path))
    && Utf8Length(path) <= 512
  }

  method NormalizePath(value: string, directory: bool) returns (r: Outcome<string>)
    ensures r == CheckPath(value, directory)
    ensures r.Ok? ==> Canonical(r.value) && CheckPath(r.value, false) == r
  {
    CheckedIsCanonical(value, directory);
    if value == "" || !Printable(value) {
      return BAD_PATH;
    }
    var stripped := value;
    while StartsWith(stripped, "./")
      invariant StripDotSlash(stripped) == StripDotSlash(value)
      decreases |stripped|
    {
      stripped := stripped[2..];
    }
    if directory {
      stripped := StripSlashes(stripped);
    }
    r := CheckStripped(stripped);
  }

  lemma {:induction false} StripKeepsPrintable(s: string)
    requires Printable(s)
    ensures Printable(StripDotSlash(s))
  {
    if StartsWith(s, "./") {
      StripKeepsPrintable(s[2..]);
    }
  }

  lemma {:induction false} StripSlashesKeepsPrintable(s: string)
    requires Printable(s)
    ensures Printable(StripSlashes(s))
  {
    if s != "" && s[|s| - 1] == '/' {
      StripSlashesKeepsPrintable(s[..|s| - 1]);
    }
  }

  lemma {:induction false} ComponentsOfGoodParts(parts: seq<string>)
    requires GoodParts(parts)
    ensures Components(parts) == parts
  {
    if parts != [] {
      ComponentsOfGoodParts(parts[1..]);
    }
  }

  lemma LeadingSlash(s: string)
    requires StartsWith(s, "/")
    ensures Split(s)[0] == ""
  {
    assert s[0] == '/';
  }

  lemma {:induction false} TrailingSlash(s: string)
    requires EndsWith(s, "/")
    ensures Split(s)[|Split(s)| - 1] == ""
  {
    assert s[|s| - 1] == '/';
    if |s| > 1 {
      TrailingSlash(s[1..]);
      var rest := Split(s[1..]);
      if s[0] != '/' {
        assert |rest| > 1 by { TwoParts(s[1..]); }
      }
    }
  }

  lemma {:induction false} TwoParts(s: string)
    requires '/' in s
    ensures |Split(s)| > 1
  {
    if s[0] != '/' {
      TwoParts(s[1..]);
    }
  }

  /** Canonical is exactly what a path has to be to be accepted as it stands. */
  lemma CanonicalIsFixed(path: string)
    ensures CheckPath(path, false) == Ok(path) <==> Canonical(path)
  {
    if Canonical(path) {
      var parts := Split(path);
      if StartsWith(path, "./") {
        LeadingDot(path);
      }
      if StartsWith(path, "/") {
        LeadingSlash(path);
      }
      if EndsWith(path, "/") {
        TrailingSlash(path);
      }
      ComponentsOfGoodParts(parts);
      JoinSplit(path);
    }
  }

  /** Whatever spelling is accepted, the result is canonical and is accepted unchanged. */
  lemma CheckedIsCanonical(value: string, directory: bool)
    ensures var r := CheckPath(value, directory);
            r.Ok? ==> Canonical(r.value) && CheckPath(r.value, false) == r
  {
    var r := CheckPath(value, directory);
    if r.Ok? {
      StripKeepsPrintable(value);
      StripSlashesKeepsPrintable(StripDotSlash(value));
      CanonicalIsFixed(r.value);
    }
  }

  // Media types and cache policy

  const MEDIA_TYPES: map<string, string> := map[
    ".css" := "text/css; charset=utf-8",
    ".gif" := "image/gif",
    ".html" := "text/html; charset=utf-8",
    ".ico" := "image/x-icon",
    ".jpeg" := "image/jpeg",
    ".jpg" := "image/jpeg",
    ".js" := "application/javascript; charset=utf-8",
    ".json" := "application/json; charset=utf-8",
    ".map" := "application/json; charset=utf-8",
    ".png" := "image/png",
    ".svg" := "image/svg+xml",
    ".txt" := "text/plain; charset=utf-8",
    ".wasm" := "application/wasm",
    ".webmanifest" := "application/manifest+json",
    ".webp" := "image/webp",
    ".woff" := "font/woff",
    ".woff2" := "font/woff2",
    ".xml" := "application/xml; charset=utf-8"
  ]

  function LastIndexOf(s: string, c: char): (i: int)
    ensures -1 <= i < |s|
  {
    if s == "" then -1
    else if s[|s| - 1] == c then |s| - 1
    else LastIndexOf(s[..|s| - 1], c)
  }

  function FileName(path: string): string {
    path[LastIndexOf(path, '/') + 1..]
  }

  /** The extension, or nothing when the name has no dot but at its start or end. */
  function Suffix(path: string): string {
    var dot := LastIndexOf(path, '.');
    if LastIndexOf(path, '/') + 1 < dot < |path| - 1 then path[dot..] else ""
  }

  function LowerChar(c: char): char {
    if 'A' <= c <= 'Z' then (c as int + 32) as char else c
  }

  function Lower(s: string): string {
    seq(|s|, i requires 0 <= i < |s| => LowerChar(s[i]))
  }

  function MediaType(path: string): string {
    var suffix := Lower(Suffix(path));
    if suffix in MEDIA_TYPES then MEDIA_TYPES[suffix] else "application/octet-stream"
  }

  predicate Hex(c: char) {
    '0' <= c <= '9' || 'a' <= c <= 'f'
  }

  predicate Boundary(c: char) {
    c == '.' || c == '_' || c == '-'
  }

  /** A run of 8 to 64 hex digits that stands between separators or the ends of the name. */
  predicate HashedName(name: string) {
    exists i, j :: 0 <= i < j <= |name| && HashAt(name, i, j)
  }

  predicate HashAt(name: string, i: int, j: int)
    requires 0 <= i < j <= |name|
  {
    && 8 <= j - i <= 64
    && (i == 0 || Boundary(name[i - 1]))
    && (j == |name| || Boundary(name[j]))
    && forall k :: i <= k < j ==> Hex(name[k])
  }

  function CacheControl(path: string): string {
    if path == "index.html" || EndsWith(path, "/index.html") then "no-cache, must-revalidate"
    else if HashedName(FileName(path)) then "public, max-age=31536000, immutable"
    else "public, max-age=300"
  }
}
