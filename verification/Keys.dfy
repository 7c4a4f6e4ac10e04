/** The object keys of the artifact gateway, and what can be read back from a key. */
module Keys {
  import opened Text

  predicate HexOrDash(s: string, i: int)
    requires 0 <= i < |s|
  {
    if i == 8 || i == 13 || i == 18 || i == 23 then s[i] == '-'
    else '0' <= s[i] <= '9' || 'a' <= s[i] <= 'f'
  }

  /** The canonical text form of a UUID, the only form the services accept. */
  predicate IsUuid(s: string) {
    |s| == 36 && forall i :: 0 <= i < 36 ==> HexOrDash(s, i)
  }

  function RevisionsPrefix(org: string): string {
    "organizations/" + org + "/revisions/"
  }

  function RevisionPrefix(org: string, rev: string): string {
    RevisionsPrefix(org) + (rev + "/")
  }

  function FileKey(org: string, rev: string, path: string): string {
    RevisionPrefix(org, rev) + ("files/" + path)
  }

  function ManifestKey(org: string, rev: string): string {
    RevisionPrefix(org, rev) + "manifest.json"
  }

  function EvidenceKey(org: string, build: string, name: string): string {
    "organizations/" + org + ("/builds/" + build + "/" + name)
  }

  function ReceiptKey(org: string, id: string): string {
    "organizations/" + org + ("/retention/" + id + ".json")
  }

  /** What the reconciler reads from a listed key: the text after the prefix, up to a '/'. */
  predicate InRevision(key: string, org: string, rev: string) {
    StartsWith(key, RevisionsPrefix(org)) && Segment(key[|RevisionsPrefix(org)|..]) == rev
  }

  lemma UuidHasNoSlash(s: string)
    requires IsUuid(s)
    ensures '/' !in s
  {
    forall i | 0 <= i < |s| ensures s[i] != '/' {
      assert HexOrDash(s, i);
    }
  }

  /** Stripping the prefix and splitting at '/' recovers the revision a key was made for. */
  lemma RevisionOfKey(org: string, rev: string, rest: string)
    requires IsUuid(rev)
    ensures StartsWith(RevisionPrefix(org, rev) + rest, RevisionsPrefix(org))
    ensures forall r :: InRevision(RevisionPrefix(org, rev) + rest, org, r) <==> r == rev
  {
    var key, prefix := RevisionPrefix(org, rev) + rest, RevisionsPrefix(org);
    assert key == prefix + (rev + "/" + rest);
    assert key[..|prefix|] == prefix;
    assert key[|prefix|..] == rev + "/" + rest;
    UuidHasNoSlash(rev);
    SegmentOfConcat(rev, rest);
  }

  lemma OrganizationOfKey(org: string, tail: string)
    requires |org| == 36
    ensures var key := "organizations/" + org + tail;
            |key| == 50 + |tail| && key[14..50] == org && key[50..] == tail
  {}

  /** No key of one organization falls under another organization's revisions. */
  lemma ForeignKey(org: string, rev: string, rest: string, other: string)
    requires IsUuid(org) && IsUuid(other) && org != other
    ensures !StartsWith(RevisionPrefix(org, rev) + rest, RevisionsPrefix(other))
  {
    var key := RevisionPrefix(org, rev) + rest;
    assert key == "organizations/" + org + ("/revisions/" + (rev + "/") + rest);
    OrganizationOfKey(org, "/revisions/" + (rev + "/") + rest);
    OrganizationOfKey(other, "/revisions/");
    var prefix := RevisionsPrefix(other);
    assert |prefix| == 61 && prefix[14..50] == other;
    assert |key| >= 61 && key[14..50] == org;
    var i :| 0 <= i < 36 && org[i] != other[i];
    assert key[..61][14 + i] == key[14 + i] == key[14..50][i];
    assert prefix[14 + i] == prefix[14..50][i];
  }

  /** Evidence and receipts lie outside every organization's revisions. */
  lemma EvidenceOutside(org: string, build: string, name: string, other: string)
    requires IsUuid(org) && IsUuid(other)
    ensures !StartsWith(EvidenceKey(org, build, name), RevisionsPrefix(other))
    ensures !StartsWith(ReceiptKey(org, build), RevisionsPrefix(other))
  {
    OrganizationOfKey(org, "/builds/" + build + "/" + name);
    OrganizationOfKey(org, "/retention/" + build + ".json");
    OrganizationOfKey(other, "/revisions/");
    var prefix := RevisionsPrefix(other);
    assert prefix[50..] == "/revisions/";
    assert prefix[51] == 'r' && prefix[53] == 'v';
    assert EvidenceKey(org, build, name)[50..][1] == 'b';
    assert ReceiptKey(org, build)[50..][3] == 't';
  }

  /** File and manifest keys determine what they were made for. */
  lemma KeysInjective(org: string, rev: string, x: string, org': string, rev': string, x': string)
    requires IsUuid(org) && IsUuid(rev) && IsUuid(org') && IsUuid(rev')
    requires RevisionPrefix(org, rev) + x == RevisionPrefix(org', rev') + x'
    ensures org == org' && rev == rev' && x == x'
  {
    var key := RevisionPrefix(org, rev) + x;
    RevisionOfKey(org, rev, x);
    RevisionOfKey(org', rev', x');
    if org != org' {
      ForeignKey(org, rev, x, org');
    }
    assert InRevision(key, org, rev') && InRevision(key, org, rev);
    assert key[|RevisionPrefix(org, rev)|..] == x;
    assert key[|RevisionPrefix(org', rev')|..] == x';
  }

  lemma FileKeyInjective(org: string, rev: string, path: string, org': string, rev': string, path': string)
    requires IsUuid(org) && IsUuid(rev) && IsUuid(org') && IsUuid(rev')
    requires FileKey(org, rev, path) == FileKey(org', rev', path')
    ensures org == org' && rev == rev' && path == path'
  {
    KeysInjective(org, rev, "files/" + path, org', rev', "files/" + path');
    assert ("files/" + path)[6..] == path;
    assert ("files/" + path')[6..] == path';
  }

  lemma ManifestKeyInjective(org: string, rev: string, org': string, rev': string)
    requires IsUuid(org) && IsUuid(rev) && IsUuid(org') && IsUuid(rev')
    requires ManifestKey(org, rev) == ManifestKey(org', rev')
    ensures org == org' && rev == rev'
  {
    KeysInjective(org, rev, "manifest.json", org', rev', "manifest.json");
  }

  lemma ManifestIsNoFile(org: string, rev: string, org': string, rev': string, path: string)
    requires IsUuid(org) && IsUuid(rev) && IsUuid(org') && IsUuid(rev')
    ensures ManifestKey(org, rev) != FileKey(org', rev', path)
  {
    assert "manifest.json"[0] != ("files/" + path)[0];
    if ManifestKey(org, rev) == FileKey(org', rev', path) {
      KeysInjective(org, rev, "manifest.json", org', rev', "files/" + path);
    }
  }
}
