/** Which spellings of a path are accepted, and what an accepted path cannot contain. */
module PathSpellings {
  import opened Faults
  import opened Text
  import opened Paths

  /** `n` copies of the text, one after the other. */
  function Repeated(s: string, n: nat): string {
    if n == 0 then "" else s + Repeated(s, n - 1)
  }

  lemma DotsAreStripped(n: nat, s: string)
    ensures StripDotSlash(Repeated("./", n) + s) == StripDotSlash(s)
  {
    if n == 0 {
      assert Repeated("./", n) + s == s;
    } else {
      var whole := Repeated("./", n) + s;
      assert whole == "./" + (Repeated("./", n - 1) + s);
      assert whole[..2] == "./" && whole[2..] == Repeated("./", n - 1) + s;
      DotsAreStripped(n - 1, s);
    }
  }

  lemma OneMoreDot(s: string, m: nat, rest: string)
    requires StartsWith(s, "./") && s[2..] == Repeated("./", m) + rest
    ensures s == Repeated("./", m + 1) + rest
  {
    assert s == "./" + s[2..];
    assert Repeated("./", m + 1) == "./" + Repeated("./", m);
    hide Repeated;
    assert "./" + (Repeated("./", m) + rest) == ("./" + Repeated("./", m)) + rest;
  }

  lemma {:induction false} StrippedDots(s: string) returns (n: nat)
    ensures s == Repeated("./", n) + StripDotSlash(s) && !StartsWith(StripDotSlash(s), "./")
  {
    if StartsWith(s, "./") {
      var m := StrippedDots(s[2..]);
      n := m + 1;
      assert StripDotSlash(s) == StripDotSlash(s[2..]);
      hide StripDotSlash, Repeated;
      OneMoreDot(s, m, StripDotSlash(s));
    } else {
      n := 0;
      assert Repeated("./", 0) == "";
    }
  }

  lemma {:induction false} RepeatedEnds(n: nat)
    requires n > 0
    ensures Repeated("/", n) == Repeated("/", n - 1) + "/"
  {
    if n > 1 {
      RepeatedEnds(n - 1);
    }
  }

  lemma {:induction false} SlashesAreStripped(s: string, n: nat)
    ensures StripSlashes(s + Repeated("/", n)) == StripSlashes(s)
  {
    if n == 0 {
      assert s + Repeated("/", n) == s;
    } else {
      RepeatedEnds(n);
      var whole := s + Repeated("/", n);
      assert whole == s + Repeated("/", n - 1) + "/";
      assert whole[..|whole| - 1] == s + Repeated("/", n - 1);
      SlashesAreStripped(s, n - 1);
    }
  }

  lemma {:induction false} StrippedSlashes(s: string) returns (n: nat)
    ensures s == StripSlashes(s) + Repeated("/", n)
  {
    if s != "" && s[|s| - 1] == '/' {
      var m := StrippedSlashes(s[..|s| - 1]);
      n := m + 1;
      RepeatedEnds(n);
      assert s == s[..|s| - 1] + "/";
    } else {
      n := 0;
    }
  }

  /** A canonical path, followed by slashes, starts with no "./"; and it does not end in a slash. */
  lemma CanonicalEnds(p: string, n: nat)
    requires Canonical(p)
    ensures !StartsWith(p + Repeated("/", n), "./") && p[0] != '/' && p[|p| - 1] != '/'
  {
    if p[0] == '/' {
      LeadingSlash(p);
    }
    if p[|p| - 1] == '/' {
      TrailingSlash(p);
    }
    if StartsWith(p, "./") {
      LeadingDot(p);
    }
    assert Split(".")[0] == "." by { SplitOne("."); }
    assert (p + Repeated("/", n))[0] == p[0];
    if |p| > 1 {
      assert (p + Repeated("/", n))[1] == p[1];
      assert p[..2] == [p[0], p[1]];
    } else {
      assert p == [p[0]];
    }
  }

  lemma {:induction false} SplitOne(s: string)
    requires '/' !in s
    ensures Split(s) == [s]
  {
    if s != "" {
      SplitOne(s[1..]);
      assert [s[0]] + s[1..] == s;
    }
  }

  lemma RepeatedIsPrintable(s: string, n: nat)
    requires Printable(s)
    ensures Printable(Repeated(s, n))
  {
  }

  ghost predicate Spells(value: string, p: string) {
    exists n :: value == Repeated("./", n) + p
  }

  ghost predicate SpellsDirectory(value: string, p: string) {
    exists n, m :: value == Repeated("./", n) + (p + Repeated("/", m))
  }

  /** A file's path is accepted just when it is canonical after any number of "./", and as that. */
  lemma SpellingsExactly(value: string, p: string)
    ensures CheckPath(value, false) == Ok(p) <==> Canonical(p) && Spells(value, p)
  {
    if CheckPath(value, false) == Ok(p) {
      CheckedIsCanonical(value, false);
      assert StripDotSlash(value) == p;
      hide Canonical, CheckPath, StripDotSlash, Repeated;
      var n := StrippedDots(value);
    } else if Canonical(p) && Spells(value, p) {
      var n :| value == Repeated("./", n) + p;
      FileIsAccepted(p, n);
    }
  }

  lemma FileIsAccepted(p: string, n: nat)
    requires Canonical(p)
    ensures CheckPath(Repeated("./", n) + p, false) == Ok(p)
  {
    var value := Repeated("./", n) + p;
    assert Printable(value) && value != "" by {
      RepeatedIsPrintable("./", n);
      hide Repeated;
    }
    assert StripDotSlash(value) == p by {
      DotsAreStripped(n, p);
      CanonicalEnds(p, 0);
      NothingRepeated(p);
    }
    assert CheckStripped(p) == Ok(p) by {
      CanonicalIsFixed(p);
      CanonicalEnds(p, 0);
      NothingRepeated(p);
    }
    hide Canonical, CheckStripped, Repeated, Printable, StripDotSlash;
  }

  lemma NothingRepeated(p: string)
    ensures p + Repeated("/", 0) == p
  {
  }

  /** A directory's may also end in any number of slashes. */
  lemma DirectorySpellingsExactly(value: string, p: string)
    ensures CheckPath(value, true) == Ok(p) <==> Canonical(p) && SpellsDirectory(value, p)
  {
    if CheckPath(value, true) == Ok(p) {
      CheckedIsCanonical(value, true);
      assert StripSlashes(StripDotSlash(value)) == p;
      hide Canonical, CheckPath, StripDotSlash, StripSlashes, Repeated;
      var n := StrippedDots(value);
      var m := StrippedSlashes(StripDotSlash(value));
      assert value == Repeated("./", n) + (p + Repeated("/", m));
    } else if Canonical(p) && SpellsDirectory(value, p) {
      var n, m :| value == Repeated("./", n) + (p + Repeated("/", m));
      DirectoryIsAccepted(p, n, m);
    }
  }

  lemma DirectoryIsAccepted(p: string, n: nat, m: nat)
    requires Canonical(p)
    ensures CheckPath(Repeated("./", n) + (p + Repeated("/", m)), true) == Ok(p)
  {
    var tail := p + Repeated("/", m);
    var value := Repeated("./", n) + tail;
    assert Printable(value) && value != "" by {
      RepeatedIsPrintable("./", n);
      RepeatedIsPrintable("/", m);
      hide Repeated;
    }
    assert StripDotSlash(value) == tail by {
      DotsAreStripped(n, tail);
      CanonicalEnds(p, m);
    }
    assert StripSlashes(tail) == p by {
      SlashesAreStripped(p, m);
      CanonicalEnds(p, 0);
    }
    assert CheckStripped(p) == Ok(p) by {
      CanonicalIsFixed(p);
      CanonicalEnds(p, 0);
      NothingRepeated(p);
    }
    hide Canonical, CheckStripped, Repeated, Printable, StripDotSlash, StripSlashes;
  }

  // What no accepted path contains

  lemma SplitCons(c: char, s: string)
    ensures Split([c] + s) == if c == '/' then [""] + Split(s) else [[c] + Split(s)[0]] + Split(s)[1..]
  {
    assert ([c] + s)[1..] == s;
  }

  lemma {:induction false} SplitAtSlash(a: string, b: string)
    ensures Split(a + "/" + b) == Split(a) + Split(b)
  {
    if a == "" {
      assert a + "/" + b == ['/'] + b;
      SplitCons('/', b);
      assert Split("") == [""];
    } else {
      SplitAtSlash(a[1..], b);
      SplitCons(a[0], a[1..] + "/" + b);
      SplitCons(a[0], a[1..]);
      hide Split;
      assert a + "/" + b == [a[0]] + (a[1..] + "/" + b) && a == [a[0]] + a[1..];
      FirstOfJoined(Split(a[1..]), Split(b), a[0]);
    }
  }

  lemma FirstOfJoined(x: seq<string>, y: seq<string>, c: char)
    requires x != []
    ensures [""] + (x + y) == ([""] + x) + y
    ensures [[c] + (x + y)[0]] + (x + y)[1..] == ([[c] + x[0]] + x[1..]) + y
  {
  }

  /** Text between slashes, or between a slash and an end, is a part. */
  lemma BetweenSlashes(before: string, part: string, after: string)
    requires '/' !in part
    ensures part in Split(part)
    ensures part in Split(part + "/" + after)
    ensures part in Split(before + "/" + part)
    ensures part in Split(before + "/" + part + "/" + after)
  {
    SplitOne(part);
    SplitAtSlash(part, after);
    SplitAtSlash(before, part);
    SplitAtSlash(before + "/" + part, after);
  }

  lemma NoSuchPart(p: string, before: string, part: string, after: string)
    requires Canonical(p) && '/' !in part && (part == "" || part == "." || part == "..")
    ensures p != part && p != part + "/" + after && p != before + "/" + part
    ensures p != before + "/" + part + "/" + after
  {
    BetweenSlashes(before, part, after);
    assert part !in Split(p);
    hide Split;
  }

  /**
   * No accepted spelling holds a backslash or a control character, and what is accepted is no
   * longer than 512 bytes, does not start or end with a slash, and nowhere steps up a directory.
   */
  lemma AcceptedIsInside(value: string, directory: bool, before: string, after: string)
    requires CheckPath(value, directory).Ok?
    ensures forall i :: 0 <= i < |value| ==> value[i] != '\\' && 32 <= value[i] as int && value[i] as int != 127
    ensures var p := CheckPath(value, directory).value;
            && p != "" && p[0] != '/' && p[|p| - 1] != '/' && Utf8Length(p) <= 512
            && p != ".." && p != ".." + "/" + after && p != before + "/" + ".."
            && p != before + "/" + ".." + "/" + after && p != before + "/" + "" + "/" + after
  {
    assert Printable(value);
    CheckedIsCanonical(value, directory);
    hide CheckPath;
    var p := CheckPath(value, directory).value;
    CanonicalEnds(p, 0);
    NoSuchPart(p, before, "..", after);
    NoSuchPart(p, before, "", after);
    hide Split, GoodParts;
  }

  // Suffixes

  lemma {:induction false} LastIndexIsLast(s: string, c: char)
    ensures var i := LastIndexOf(s, c); (i >= 0 ==> s[i] == c) && forall j :: i < j < |s| ==> s[j] != c
  {
    if s != "" && s[|s| - 1] != c {
      LastIndexIsLast(s[..|s| - 1], c);
      assert forall j :: 0 <= j < |s| - 1 ==> s[..|s| - 1][j] == s[j];
    }
  }

  /** Position `k` is the last dot of the path, inside its name, and neither starts nor ends that. */
  ghost predicate SuffixStarts(path: string, k: int) {
    && 0 < k < |path| - 1 && path[k] == '.' && path[k - 1] != '/'
    && forall j :: k < j < |path| ==> path[j] != '.' && path[j] != '/'
  }

  /** A path's suffix starts at such a dot; a path without one has none. */
  lemma SuffixExactly(path: string, k: int)
    ensures SuffixStarts(path, k) ==> Suffix(path) == path[k..]
    ensures Suffix(path) != "" ==> |Suffix(path)| <= |path| && SuffixStarts(path, |path| - |Suffix(path)|)
  {
    LastIndexIsLast(path, '/');
    LastIndexIsLast(path, '.');
    var slash, dot := LastIndexOf(path, '/'), LastIndexOf(path, '.');
    hide LastIndexOf;
    if SuffixStarts(path, k) {
      assert k == dot && slash < k - 1;
    }
  }

  // Cache policy

  /** Between separators or the ends of the name stand 8 to 64 hex digits. */
  predicate HashIn(name: string, before: string, hash: string, rest: string) {
    && name == before + (hash + rest) && 8 <= |hash| <= 64
    && (forall i :: 0 <= i < |hash| ==> '0' <= hash[i] <= '9' || 'a' <= hash[i] <= 'f')
    && (before != "" ==> var c := before[|before| - 1]; c == '.' || c == '_' || c == '-')
    && (rest != "" ==> rest[0] == '.' || rest[0] == '_' || rest[0] == '-')
  }

  lemma HashIsIn(name: string, i: int, j: int)
    requires 0 <= i < j <= |name| && HashAt(name, i, j)
    ensures HashIn(name, name[..i], name[i..j], name[j..])
  {
    assert name == name[..i] + (name[i..j] + name[j..]);
    forall k | 0 <= k < j - i ensures name[i..j][k] == name[i + k] && Hex(name[i + k]) {
    }
  }

  lemma HashInIsAt(name: string, before: string, hash: string, rest: string)
    requires HashIn(name, before, hash, rest)
    ensures HashAt(name, |before|, |before| + |hash|)
  {
    var i, j := |before|, |before| + |hash|;
    forall k | i <= k < j ensures Hex(name[k]) {
      assert name[k] == hash[k - i];
    }
    assert before != "" ==> name[i - 1] == before[i - 1];
    assert rest != "" ==> name[j] == rest[0];
  }

  /** A name counts as hashed exactly then. */
  lemma HashedNameExactly(name: string)
    ensures HashedName(name) <==> exists before, hash, rest :: HashIn(name, before, hash, rest)
  {
    if HashedName(name) {
      var i, j :| 0 <= i < j <= |name| && HashAt(name, i, j);
      HashIsIn(name, i, j);
    }
    if before, hash, rest :| HashIn(name, before, hash, rest) {
      HashInIsAt(name, before, hash, rest);
      assert 0 <= |before| < |before| + |hash| <= |name|;
    }
    hide HashAt, HashIn;
  }

  /** Only an index page is never cached, only another hashed name for good, the rest for a while. */
  lemma CachePolicyExactly(path: string, directory: string)
    ensures path == "index.html" || path == directory + "/index.html" ==>
            CacheControl(path) == "no-cache, must-revalidate"
    ensures CacheControl(path) == "public, max-age=31536000, immutable" ==>
            path != directory + "/index.html" && exists b, h, r :: HashIn(FileName(path), b, h, r)
    ensures CacheControl(path) == "public, max-age=300" ==>
            path != directory + "/index.html" && forall b, h, r :: !HashIn(FileName(path), b, h, r)
  {
    HashedNameExactly(FileName(path));
    if path == directory + "/index.html" {
      assert path[|directory|..] == "/index.html";
    }
    hide HashedName, HashIn, FileName;
  }
}
