/** Strings as the services take them apart: prefixes, suffixes and '/'-separated parts. */
module Text {
  predicate StartsWith(s: string, prefix: string) {
    |prefix| <= |s| && s[..|prefix|] == prefix
  }

  predicate EndsWith(s: string, suffix: string) {
    |suffix| <= |s| && s[|s| - |suffix|..] == suffix
  }

  /** The text before the first '/', or all of it. */
  function Segment(s: string): string {
    if s == "" || s[0] == '/' then "" else [s[0]] + Segment(s[1..])
  }

  /** The parts between the '/' characters; there is always at least one. */
  function Split(s: string): (parts: seq<string>)
    ensures parts != []
  {
    if s == "" then [""]
    else
      var rest := Split(s[1..]);
      if s[0] == '/' then [""] + rest else [[s[0]] + rest[0]] + rest[1..]
  }

  function Join(parts: seq<string>): string {
    if parts == [] then ""
    else if |parts| == 1 then parts[0]
    else parts[0] + "/" + Join(parts[1..])
  }

  lemma {:induction false} SegmentOfConcat(a: string, b: string)
    requires '/' !in a
    ensures Segment(a + "/" + b) == a
  {
    if a == "" {
      assert a + "/" + b == "/" + b;
    } else {
      SegmentOfConcat(a[1..], b);
      assert (a + "/" + b)[1..] == a[1..] + "/" + b;
    }
  }

  lemma {:induction false} JoinSplit(s: string)
    ensures Join(Split(s)) == s
  {
    if s != "" {
      JoinSplit(s[1..]);
      var rest := Split(s[1..]);
      if s[0] == '/' {
        assert ([""] + rest)[1..] == rest;
        assert Join(Split(s)) == "/" + s[1..];
      } else {
        var parts := [[s[0]] + rest[0]] + rest[1..];
        assert parts[1..] == rest[1..];
        assert Join(parts) == [s[0]] + Join(rest);
      }
    }
  }

  /** A leading "./" makes the first part ".". */
  lemma LeadingDot(s: string)
    requires StartsWith(s, "./")
    ensures Split(s)[0] == "."
  {
    assert s[0] == '.' && s[1] == '/';
    assert s[1..][0] == '/';
  }
}
