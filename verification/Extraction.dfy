/** Unpacking an archive into the files a revision serves. */
module Extraction {
  import opened Faults
  import opened Ordering
  import Paths

  newtype Byte = x: int | 0 <= x < 256
  type Bytes = seq<Byte>

  /**
   * What the tar reader hands over: `size` is the header's, `data` what could be read. A header
   * that cannot be read makes the reader raise in the middle of the archive.
   */
  datatype Member =
    | Directory(name: string)
    | Regular(name: string, size: int, data: Bytes)
    | Special(name: string)
    | Unreadable

  /** An uploaded archive: its bytes, and the members read from them when it is a tar file at all. */
  datatype Archive = Archive(raw: Bytes, members: Option<seq<Member>>)

  datatype Limits = Limits(
    archiveBytes: int, expandedBytes: int, fileBytes: int, fileCount: int, evidenceBytes: int)

  /** A file of a revision; its digest, media type and cache policy are functions of these two. */
  datatype StaticFile = StaticFile(path: string, body: Bytes)

  function PathOf(file: StaticFile): string {
    file.path
  }

  datatype Progress = Progress(files: seq<StaticFile>, paths: set<string>, expanded: int)

  const START := Progress([], {}, 0)

  /** One turn of the extraction loop; the reader's own error is not caught. */
  function Take(m: Member, limits: Limits, p: Progress): Outcome<Progress> {
    if m.Unreadable? then Fault("tar_error", 500)
    else if m.Directory? then
      var _ :- Paths.CheckPath(m.name, true);
      Ok(p)
    else
      var path :- Paths.CheckPath(m.name, false);
      if m.Special? then Fault("archive_entry_type_invalid", 422)
      else if path in p.paths then Fault("archive_path_duplicate", 422)
      else if m.size < 0 || m.size > limits.fileBytes then Fault("archive_file_size_invalid", 413)
      else if |p.paths + {path}| > limits.fileCount || p.expanded + m.size > limits.expandedBytes then
        Fault("archive_expansion_invalid", 413)
      else if |m.data| != m.size then Fault("archive_size_mismatch", 422)
      else Ok(Progress(p.files + [StaticFile(path, m.data)], p.paths + {path}, p.expanded + m.size))
  }

  function TakeAll(members: seq<Member>, limits: Limits, p: Progress): Outcome<Progress>
    decreases |members|
  {
    if members == [] then Ok(p)
    else
      var next :- Take(members[0], limits, p);
      TakeAll(members[1..], limits, next)
  }

  function Extract(archive: Archive, limits: Limits): Outcome<seq<StaticFile>> {
    if archive.members.None? then Fault("archive_invalid", 422)
    else
      var end :- TakeAll(archive.members.value, limits, START);
      if "index.html" !in end.paths then Fault("archive_index_missing", 422)
      else Ok(SortBy(end.files, PathOf))
  }

  method ExtractFiles(archive: Archive, limits: Limits) returns (r: Outcome<seq<StaticFile>>)
    ensures r == Extract(archive, limits)
  {
    hide Paths.CheckPath;
    if archive.members.None? {
      return Fault("archive_invalid", 422);
    }
    var members := archive.members.value;
    var files: seq<StaticFile> := [];
    var paths: set<string> := {};
    var expanded := 0;
    for i := 0 to |members|
      invariant TakeAll(members[i..], limits, Progress(files, paths, expanded))
             == TakeAll(members, limits, START)
    {
      var member := members[i];
      assert members[i..][1..] == members[i + 1..];
      if member.Unreadable? {
        return Fault("tar_error", 500);
      }
      var checked := Paths.NormalizePath(member.name, member.Directory?);
      if checked.Fault? {
        return Fault(checked.code, checked.status);
      }
      if !member.Directory? {
        var path := checked.value;
        if member.Special? {
          return Fault("archive_entry_type_invalid", 422);
        }
        if path in paths {
          return Fault("archive_path_duplicate", 422);
        }
        if member.size < 0 || member.size > limits.fileBytes {
          return Fault("archive_file_size_invalid", 413);
        }
        paths := paths + {path};
        expanded := expanded + member.size;
        if |paths| > limits.fileCount || expanded > limits.expandedBytes {
          return Fault("archive_expansion_invalid", 413);
        }
        if |member.data| != member.size {
          return Fault("archive_size_mismatch", 422);
        }
        files := files + [StaticFile(path, member.data)];
      }
    }
    if "index.html" !in paths {
      return Fault("archive_index_missing", 422);
    }
    r := Ok(SortBy(files, PathOf));
  }

  // Which archives are accepted, said without the loop

  /** A member that is acceptable whatever surrounds it. */
  predicate WellFormed(m: Member, limits: Limits) {
    match m
    case Directory(name) => Paths.CheckPath(name, true).Ok?
    case Special(_) => false
    case Unreadable => false
    case Regular(name, size, data) =>
      Paths.CheckPath(name, false).Ok? && size == |data| && size <= limits.fileBytes
  }

  function FilesOf(members: seq<Member>): seq<StaticFile> {
    if members == [] then []
    else
      var m := members[0];
      (if m.Regular? && Paths.CheckPath(m.name, false).Ok?
       then [StaticFile(Paths.CheckPath(m.name, false).value, m.data)] else [])
      + FilesOf(members[1..])
  }

  function TotalSize(files: seq<StaticFile>): nat {
    if files == [] then 0 else |files[0].body| + TotalSize(files[1..])
  }

  ghost predicate Bounded(files: seq<StaticFile>, limits: Limits) {
    files != [] ==> |files| <= limits.fileCount && TotalSize(files) <= limits.expandedBytes
  }

  /** The members so far are acceptable in themselves and together, but for the index page. */
  ghost predicate AcceptedSoFar(members: seq<Member>, limits: Limits) {
    && (forall m :: m in members ==> WellFormed(m, limits))
    && DistinctKeys(FilesOf(members), PathOf) && Bounded(FilesOf(members), limits)
  }

  ghost predicate Accepted(members: seq<Member>, limits: Limits) {
    AcceptedSoFar(members, limits) && exists f :: f in FilesOf(members) && f.path == "index.html"
  }

  function PathSet(files: seq<StaticFile>): set<string> {
    set i | 0 <= i < |files| :: files[i].path
  }

  /** The loop's three accumulators describe one list of files. */
  ghost predicate Tallied(p: Progress) {
    && DistinctKeys(p.files, PathOf)
    && p.paths == PathSet(p.files)
    && |p.paths| == |p.files|
    && p.expanded == TotalSize(p.files)
  }

  lemma {:induction false} TotalSizeAppend(a: seq<StaticFile>, b: seq<StaticFile>)
    ensures TotalSize(a + b) == TotalSize(a) + TotalSize(b)
  {
    if a == [] {
      assert a + b == b;
    } else {
      assert (a + b)[1..] == a[1..] + b;
      TotalSizeAppend(a[1..], b);
    }
  }

  lemma {:induction false} FilesOfAppend(a: seq<Member>, b: seq<Member>)
    ensures FilesOf(a + b) == FilesOf(a) + FilesOf(b)
  {
    if a == [] {
      assert a + b == b;
    } else {
      assert (a + b)[1..] == a[1..] + b;
      FilesOfAppend(a[1..], b);
    }
  }

  /** A path that was there already breaks distinctness; a new one does not. */
  lemma NewPathIsDistinct(p: Progress, f: StaticFile)
    requires Tallied(p)
    ensures f.path !in p.paths <==> DistinctKeys(p.files + [f], PathOf)
  {
    var files := p.files + [f];
    if f.path in p.paths {
      var i :| 0 <= i < |p.files| && p.files[i].path == f.path;
      assert files[i] == p.files[i] && files[|p.files|] == f;
      assert PathOf(files[i]) == PathOf(files[|p.files|]);
    } else {
      forall i, j | 0 <= i < j < |files| ensures PathOf(files[i]) != PathOf(files[j]) {
        assert files[i] == p.files[i];
        if j < |p.files| {
          assert files[j] == p.files[j];
        }
      }
    }
  }

  lemma AddFile(p: Progress, f: StaticFile)
    requires Tallied(p)
    ensures f.path !in p.paths ==>
      && Tallied(Progress(p.files + [f], p.paths + {f.path}, p.expanded + |f.body|))
      && |p.paths + {f.path}| == |p.files + [f]|
    ensures TotalSize(p.files + [f]) == p.expanded + |f.body|
  {
    hide DistinctKeys;
    NewPathIsDistinct(p, f);
    TotalSizeAppend(p.files, [f]);
    PathSetAppend(p.files, f);
  }

  lemma PathSetAppend(files: seq<StaticFile>, f: StaticFile)
    ensures PathSet(files + [f]) == PathSet(files) + {f.path}
  {
    var more := files + [f];
    forall s ensures s in PathSet(more) <==> s in PathSet(files) + {f.path} {
      if s in PathSet(files) {
        var i :| 0 <= i < |files| && files[i].path == s;
        assert more[i].path == s;
      }
      assert more[|files|].path == f.path;
    }
  }

  lemma AddNothing(p: Progress)
    requires Tallied(p)
    ensures p.files + [] == p.files && DistinctKeys(p.files, PathOf)
  {}

  ghost predicate Fits(more: seq<StaticFile>, p: Progress, limits: Limits) {
    DistinctKeys(p.files + more, PathOf) && (more != [] ==> Bounded(p.files + more, limits))
  }

  lemma TakeTallies(m: Member, limits: Limits, p: Progress)
    requires Tallied(p)
    ensures Take(m, limits, p).Ok? ==>
      Tallied(Take(m, limits, p).value) && Take(m, limits, p).value.files == p.files + FilesOf([m])
    ensures Take(m, limits, p).Ok? <==> WellFormed(m, limits) && Fits(FilesOf([m]), p, limits)
  {
    hide Paths.CheckPath, Tallied, DistinctKeys;
    AddNothing(p);
    if m.Regular? && Paths.CheckPath(m.name, false).Ok? {
      var f := StaticFile(Paths.CheckPath(m.name, false).value, m.data);
      assert FilesOf([m]) == [f];
      NewPathIsDistinct(p, f);
      AddFile(p, f);
    }
  }

  lemma DistinctPrefix(a: seq<StaticFile>, b: seq<StaticFile>)
    requires DistinctKeys(a + b, PathOf)
    ensures DistinctKeys(a, PathOf)
  {
    forall i, j | 0 <= i < j < |a| ensures PathOf(a[i]) != PathOf(a[j]) {
      assert (a + b)[i] == a[i] && (a + b)[j] == a[j];
    }
  }

  lemma {:induction false} TakeAllExact(members: seq<Member>, limits: Limits, p: Progress)
    requires Tallied(p)
    ensures var r := TakeAll(members, limits, p);
            r.Ok? ==> Tallied(r.value) && r.value.files == p.files + FilesOf(members)
    ensures TakeAll(members, limits, p).Ok? <==>
      (forall m :: m in members ==> WellFormed(m, limits)) && Fits(FilesOf(members), p, limits)
    decreases |members|
  {
    if members == [] {
      assert p.files + [] == p.files;
    } else {
      var m, rest := members[0], members[1..];
      var first, more := FilesOf([m]), FilesOf(rest);
      FilesOfAppend([m], rest);
      assert [m] + rest == members;
      assert p.files + FilesOf(members) == (p.files + first) + more;
      TotalSizeAppend(p.files + first, more);
      TakeTallies(m, limits, p);
      if Take(m, limits, p).Ok? {
        TakeAllExact(rest, limits, Take(m, limits, p).value);
      } else if DistinctKeys(p.files + FilesOf(members), PathOf) {
        DistinctPrefix(p.files + first, more);
      }
    }
  }

  lemma StartIsTallied()
    ensures Tallied(START)
  {
    assert PathSet([]) == {};
  }

  lemma LoopKeepsFiles(members: seq<Member>, limits: Limits)
    requires TakeAll(members, limits, START).Ok?
    ensures var files := TakeAll(members, limits, START).value.files;
            files == FilesOf(members) && DistinctKeys(files, PathOf)
  {
    StartIsTallied();
    hide TakeAll, FilesOf, WellFormed, Fits;
    TakeAllExact(members, limits, START);
    assert START.files + FilesOf(members) == FilesOf(members);
    hide DistinctKeys, PathSet, TotalSize;
  }

  /** Once the loop has run, the files it kept are sorted. */
  lemma ExtractSorts(archive: Archive, limits: Limits)
    requires archive.members.Some?
    ensures var loop := TakeAll(archive.members.value, limits, START);
            Extract(archive, limits).Ok? <==> loop.Ok? && "index.html" in loop.value.paths
    ensures Extract(archive, limits).Ok? ==>
      && StrictlySorted(Extract(archive, limits).value, PathOf)
      && multiset(Extract(archive, limits).value) == multiset(FilesOf(archive.members.value))
  {
    hide Paths.CheckPath, TakeAll, FilesOf, SortBy, DistinctKeys, StrictlySorted;
    var members := archive.members.value;
    var loop := TakeAll(members, limits, START);
    if loop.Ok? {
      LoopKeepsFiles(members, limits);
      SortStrict(loop.value.files, PathOf);
      SortElements(loop.value.files, PathOf);
    }
  }

  lemma LoopAccepts(members: seq<Member>, limits: Limits)
    ensures var loop := TakeAll(members, limits, START);
            loop.Ok? && "index.html" in loop.value.paths <==> Accepted(members, limits)
  {
    hide Paths.CheckPath;
    StartIsTallied();
    hide DistinctKeys, WellFormed, TakeAll, FilesOf, TotalSize;
    TakeAllExact(members, limits, START);
    assert [] + FilesOf(members) == FilesOf(members);
    var loop := TakeAll(members, limits, START);
    if loop.Ok? {
      IndexIsKept(loop.value.files);
    }
  }

  lemma IndexIsKept(files: seq<StaticFile>)
    ensures "index.html" in PathSet(files) <==> exists f :: f in files && f.path == "index.html"
  {
    if "index.html" in PathSet(files) {
      var i :| 0 <= i < |files| && files[i].path == "index.html";
      assert files[i] in files;
    }
  }

  /**
   * The loop accepts exactly the archives that are acceptable as a whole, and returns their
   * files in strictly increasing path order.
   */
  lemma ExtractExact(archive: Archive, limits: Limits)
    ensures Extract(archive, limits).Ok? <==>
      archive.members.Some? && Accepted(archive.members.value, limits)
    ensures Extract(archive, limits).Ok? ==>
      && StrictlySorted(Extract(archive, limits).value, PathOf)
      && multiset(Extract(archive, limits).value) == multiset(FilesOf(archive.members.value))
  {
    hide Paths.CheckPath, TakeAll;
    if archive.members.Some? {
      ExtractSorts(archive, limits);
      LoopAccepts(archive.members.value, limits);
    }
  }

  // Why an archive is refused

  lemma {:induction false} TakeAllFrom(a: seq<Member>, b: seq<Member>, limits: Limits, p: Progress)
    requires TakeAll(a, limits, p).Ok?
    ensures TakeAll(a + b, limits, p) == TakeAll(b, limits, TakeAll(a, limits, p).value)
    decreases |a|
  {
    hide Take;
    if a == [] {
      assert a + b == b;
    } else {
      assert (a + b)[1..] == a[1..] + b;
      TakeAllFrom(a[1..], b, limits, Take(a[0], limits, p).value);
    }
  }

  ghost predicate HasPath(files: seq<StaticFile>, path: string) {
    exists f :: f in files && f.path == path
  }

  /** What is wrong with a member that comes after these files. */
  ghost predicate Wrong(m: Member, files: seq<StaticFile>, limits: Limits, code: string, status: int) {
    if m.Unreadable? then code == "tar_error" && status == 500
    else if Paths.CheckPath(m.name, m.Directory?).Fault? then code == "artifact_path_invalid" && status == 422
    else if m.Special? then code == "archive_entry_type_invalid" && status == 422
    else
      && m.Regular?
      && if HasPath(files, Paths.CheckPath(m.name, false).value) then
           code == "archive_path_duplicate" && status == 422
         else if m.size < 0 || m.size > limits.fileBytes then code == "archive_file_size_invalid" && status == 413
         else if |files| + 1 > limits.fileCount || TotalSize(files) + m.size > limits.expandedBytes then
           code == "archive_expansion_invalid" && status == 413
         else |m.data| != m.size && code == "archive_size_mismatch" && status == 422
  }

  lemma LoopSoFar(members: seq<Member>, limits: Limits)
    ensures var loop := TakeAll(members, limits, START);
            && (loop.Ok? <==> AcceptedSoFar(members, limits))
            && (loop.Ok? ==> Tallied(loop.value) && loop.value.files == FilesOf(members))
  {
    StartIsTallied();
    hide DistinctKeys, WellFormed, FilesOf, TotalSize, TakeAll;
    TakeAllExact(members, limits, START);
    assert START.files + FilesOf(members) == FilesOf(members);
  }

  /** The first member that is bad in itself, or that the ones before it leave no room for, says why. */
  lemma ExtractSaysWhy(archive: Archive, limits: Limits, i: nat)
    requires archive.members.Some? && i < |archive.members.value|
    requires AcceptedSoFar(archive.members.value[..i], limits)
    requires !AcceptedSoFar(archive.members.value[..i + 1], limits)
    ensures var r := Extract(archive, limits);
            r.Fault? && Wrong(archive.members.value[i], FilesOf(archive.members.value[..i]), limits, r.code, r.status)
  {
    hide AcceptedSoFar, FilesOf, Tallied, Wrong, SortBy, Take, TakeAll;
    var members := archive.members.value;
    var before, m, rest := members[..i], members[i], members[i..];
    assert members == before + rest && members[..i + 1] == before + [m];
    LoopSoFar(before, limits);
    LoopSoFar(before + [m], limits);
    TakeAllFrom(before, rest, limits, START);
    TakeAllFrom(before, [m], limits, START);
    var p := TakeAll(before, limits, START).value;
    TakeAllStops(m, rest[1..], limits, p);
    assert rest == [m] + rest[1..];
    TakeSaysWhy(m, limits, p);
  }

  lemma TakeAllStops(m: Member, rest: seq<Member>, limits: Limits, p: Progress)
    ensures TakeAll([m], limits, p) == Take(m, limits, p)
    ensures Take(m, limits, p).Fault? ==> TakeAll([m] + rest, limits, p) == Take(m, limits, p)
  {
    hide Take;
    assert [m][1..] == [] && ([m] + rest)[0] == m;
  }

  lemma TakeSaysWhy(m: Member, limits: Limits, p: Progress)
    requires Tallied(p) && Take(m, limits, p).Fault?
    ensures Wrong(m, p.files, limits, Take(m, limits, p).code, Take(m, limits, p).status)
  {
    if m.Regular? && Paths.CheckPath(m.name, false).Ok? {
      RegularSaysWhy(m, limits, p);
    } else {
      BadPathCode(if m.Unreadable? then "" else m.name, m.Directory?);
      hide Paths.CheckPath, Tallied, HasPath;
    }
  }

  lemma RegularSaysWhy(m: Member, limits: Limits, p: Progress)
    requires Tallied(p) && m.Regular? && Paths.CheckPath(m.name, false).Ok? && Take(m, limits, p).Fault?
    ensures Wrong(m, p.files, limits, Take(m, limits, p).code, Take(m, limits, p).status)
  {
    assert TotalSize(p.files) == p.expanded;
    hide Paths.CheckPath, Tallied, HasPath, TotalSize;
    OnePathMore(p, Paths.CheckPath(m.name, false).value);
  }

  lemma BadPathCode(name: string, directory: bool)
    ensures Paths.CheckPath(name, directory).Fault? ==>
            Paths.CheckPath(name, directory) == Fault("artifact_path_invalid", 422)
  {
  }

  lemma OnePathMore(p: Progress, path: string)
    requires Tallied(p)
    ensures path in p.paths <==> HasPath(p.files, path)
    ensures path !in p.paths ==> |p.paths + {path}| == |p.files| + 1
  {
    hide DistinctKeys, TotalSize;
    if path in p.paths {
      var i :| 0 <= i < |p.files| && p.files[i].path == path;
      assert p.files[i] in p.files;
    }
  }

  /** An archive with nothing else wrong has to have an index page. */
  lemma IndexIsRequired(archive: Archive, limits: Limits)
    requires archive.members.Some? && AcceptedSoFar(archive.members.value, limits)
    requires forall f :: f in FilesOf(archive.members.value) ==> f.path != "index.html"
    ensures Extract(archive, limits) == Fault("archive_index_missing", 422)
  {
    LoopSoFar(archive.members.value, limits);
    IndexIsKept(FilesOf(archive.members.value));
    hide TakeAll, SortBy, AcceptedSoFar, FilesOf;
  }

  // Order independence

  lemma {:induction false} FilesOfPermuted(a: seq<Member>, b: seq<Member>)
    requires multiset(a) == multiset(b)
    ensures multiset(FilesOf(a)) == multiset(FilesOf(b))
    decreases |a|
  {
    if a == [] {
      assert |multiset(b)| == 0;
    } else {
      var i := FindHead(a, b);
      var left, right := b[..i], b[i + 1..];
      assert a == [a[0]] + a[1..];
      FilesOfPermuted(a[1..], left + right);
      FilesOfAppend([a[0]], a[1..]);
      FilesOfAppend(left, right);
      FilesOfAppend(left, [a[0]] + right);
      FilesOfAppend([a[0]], right);
    }
  }

  lemma {:induction false} TotalSizePermuted(a: seq<StaticFile>, b: seq<StaticFile>)
    requires multiset(a) == multiset(b)
    ensures TotalSize(a) == TotalSize(b)
    decreases |a|
  {
    if a == [] {
      assert |multiset(b)| == 0;
    } else {
      var i := FindHead(a, b);
      var left, right := b[..i], b[i + 1..];
      assert a == [a[0]] + a[1..];
      TotalSizePermuted(a[1..], left + right);
      TotalSizeAppend(left, right);
      TotalSizeAppend(left, [a[0]] + right);
      TotalSizeAppend([a[0]], right);
    }
  }

  lemma AcceptedPermuted(a: seq<Member>, b: seq<Member>, limits: Limits)
    requires multiset(a) == multiset(b) && Accepted(a, limits)
    ensures Accepted(b, limits)
  {
    forall m | m in b ensures WellFormed(m, limits) {
      SameElement(a, b, m);
    }
    var fa, fb := FilesOf(a), FilesOf(b);
    FilesOfPermuted(a, b);
    DistinctPermuted(fa, fb, PathOf);
    TotalSizePermuted(fa, fb);
    assert |fa| == |multiset(fa)| == |multiset(fb)| == |fb|;
    var f :| f in fa && f.path == "index.html";
    SameElement(fa, fb, f);
  }

  /** Reordering the members of an accepted archive changes nothing in the result. */
  lemma ExtractPermuted(a: Archive, b: Archive, limits: Limits)
    requires a.members.Some? && b.members.Some?
    requires multiset(a.members.value) == multiset(b.members.value)
    requires Extract(a, limits).Ok?
    ensures Extract(b, limits) == Extract(a, limits)
  {
    ExtractExact(a, limits);
    ExtractExact(b, limits);
    AcceptedPermuted(a.members.value, b.members.value, limits);
    FilesOfPermuted(a.members.value, b.members.value);
    var x, y := Extract(a, limits).value, Extract(b, limits).value;
    assert multiset(x) == multiset(y);
    forall f ensures f in x <==> f in y {
      SameElement(x, y, f);
    }
    StrictUnique(x, y, PathOf);
  }

  lemma {:induction false} FilesAreMade(members: seq<Member>, limits: Limits, f: StaticFile)
    requires forall m :: m in members ==> WellFormed(m, limits)
    requires f in FilesOf(members)
    ensures Paths.Canonical(f.path) && |f.body| <= limits.fileBytes
  {
    var m := members[0];
    if f !in FilesOf(members[1..]) {
      assert WellFormed(m, limits);
      Paths.CheckedIsCanonical(m.name, false);
    } else {
      FilesAreMade(members[1..], limits, f);
    }
  }

  /** What every extraction promises about its result. */
  lemma ExtractBounds(archive: Archive, limits: Limits)
    requires Extract(archive, limits).Ok?
    ensures var files := Extract(archive, limits).value;
            && StrictlySorted(files, PathOf)
            && (forall f :: f in files ==> Paths.Canonical(f.path) && |f.body| <= limits.fileBytes)
            && |files| <= limits.fileCount && TotalSize(files) <= limits.expandedBytes
            && (exists f :: f in files && f.path == "index.html")
  {
    ExtractExact(archive, limits);
    var members, files := archive.members.value, Extract(archive, limits).value;
    var all := FilesOf(members);
    forall f | f in files
      ensures Paths.Canonical(f.path) && |f.body| <= limits.fileBytes
    {
      SameElement(files, all, f);
      FilesAreMade(members, limits, f);
    }
    TotalSizePermuted(files, all);
    assert |files| == |multiset(files)| == |multiset(all)| == |all|;
    var f :| f in all && f.path == "index.html";
    SameElement(files, all, f);
  }
}
