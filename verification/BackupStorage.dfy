/** Stored backups of one factory (backend-nest/src/backup/backup-storage.service.ts:56-160). */
module BackupStorage {
  /** A file: when it was written, what is in it, and the checksum taken of what should be in it. */
  datatype Stored = Stored(mtime: int, contents: seq<int>, expected: string)

  type Directory = map<string, Stored>

  /** SHA-256 of a buffer, about which nothing else is assumed. */
  type Hash = seq<int> -> string

  /** Reading the file back and recomputing its checksum succeeds; an empty file never does. */
  predicate Passes(hash: Hash, f: Stored) {
    |f.contents| > 0 && hash(f.contents) == f.expected
  }

  /** `list`: every file once, newest first. */
  ghost predicate NewestFirst(dir: Directory, names: seq<string>) {
    && (forall n :: n in names <==> n in dir)
    && (forall i, j :: 0 <= i < j < |names| ==> names[i] != names[j] && dir[names[i]].mtime >= dir[names[j]].mtime)
  }

  function InsertByTime(dir: Directory, n: string, names: seq<string>): (r: seq<string>)
    requires n in dir && forall m :: m in names ==> m in dir
    ensures forall m :: m in r <==> m == n || m in names
  {
    if names == [] then [n]
    else if dir[n].mtime >= dir[names[0]].mtime then [n] + names
    else
      assert names[0] in names;
      [names[0]] + InsertByTime(dir, n, names[1..])
  }

  ghost predicate ByTime(dir: Directory, names: seq<string>) {
    && (forall m :: m in names ==> m in dir)
    && forall i, j :: 0 <= i < j < |names| ==> names[i] in dir && names[j] in dir && names[i] != names[j] && dir[names[i]].mtime >= dir[names[j]].mtime
  }

  /** A file written no earlier than all of an ordered list goes in front of it. */
  lemma ConsByTime(dir: Directory, n: string, names: seq<string>)
    requires ByTime(dir, names) && n in dir && forall m :: m in names ==> m != n && m in dir && dir[n].mtime >= dir[m].mtime
    ensures ByTime(dir, [n] + names)
  {
    forall i, j | 0 <= i < j < |[n] + names|
      ensures ([n] + names)[i] != ([n] + names)[j] && dir[([n] + names)[i]].mtime >= dir[([n] + names)[j]].mtime
    {
      assert ([n] + names)[j] == names[j - 1] && names[j - 1] in names;
      if i > 0 {
        assert ([n] + names)[i] == names[i - 1];
      }
    }
  }

  /** The rest of an ordered list is ordered and was written no later than its first file. */
  lemma TailByTime(dir: Directory, names: seq<string>)
    requires names != [] && ByTime(dir, names)
    ensures names[0] in dir && ByTime(dir, names[1..])
    ensures forall m :: m in names[1..] ==> m in names && m in dir && m != names[0] && dir[names[0]].mtime >= dir[m].mtime
  {
    var tail := names[1..];
    assert names[0] in names;
    assert forall i :: 0 <= i < |tail| ==> tail[i] == names[i + 1];
  }

  lemma {:induction false} InsertKeepsOrder(dir: Directory, n: string, names: seq<string>)
    requires n in dir && n !in names && ByTime(dir, names)
    ensures ByTime(dir, InsertByTime(dir, n, names))
  {
    if names == [] {
      assert ByTime(dir, [n]);
    } else {
      hide ByTime;
      TailByTime(dir, names);
      if dir[n].mtime >= dir[names[0]].mtime {
        FrontIsNewest(dir, n, names);
        ConsByTime(dir, n, names);
      } else {
        InsertKeepsOrder(dir, n, names[1..]);
        ConsByTime(dir, names[0], InsertByTime(dir, n, names[1..]));
      }
    }
  }

  lemma FrontIsNewest(dir: Directory, n: string, names: seq<string>)
    requires names != [] && ByTime(dir, names) && n in dir && n !in names
    requires names[0] in dir && dir[n].mtime >= dir[names[0]].mtime
    ensures forall m :: m in names ==> m != n && m in dir && dir[n].mtime >= dir[m].mtime
  {
    forall m | m in names
      ensures m in dir && dir[n].mtime >= dir[m].mtime
    {
      var i :| 0 <= i < |names| && names[i] == m;
      if i > 0 {
        assert dir[names[0]].mtime >= dir[names[i]].mtime;
      }
    }
  }

  /** What a pruning run will try to delete: all but the newest few, if older than the cutoff. */
  function Candidates(dir: Directory, names: seq<string>, keepMinimum: nat, cutoff: int): (r: seq<string>)
    requires forall n :: n in names ==> n in dir
  {
    if |names| <= keepMinimum then [] else OlderThan(dir, names[keepMinimum..], cutoff)
  }

  function OlderThan(dir: Directory, names: seq<string>, cutoff: int): (r: seq<string>)
    requires forall n :: n in names ==> n in dir
    ensures forall n :: n in r <==> n in names && dir[n].mtime < cutoff
  {
    if names == [] then []
    else
      assert names[0] in names;
      (if dir[names[0]].mtime < cutoff then [names[0]] else []) + OlderThan(dir, names[1..], cutoff)
  }

  ghost predicate Distinct(names: seq<string>) {
    forall i, j :: 0 <= i < j < |names| ==> names[i] != names[j]
  }

  lemma {:induction false} OlderThanDistinct(dir: Directory, names: seq<string>, cutoff: int)
    requires forall n :: n in names ==> n in dir
    requires Distinct(names)
    ensures Distinct(OlderThan(dir, names, cutoff))
  {
    if names != [] {
      var first, tail := names[0], names[1..];
      assert forall i :: 0 <= i < |tail| ==> tail[i] == names[i + 1];
      assert first in names && first !in tail;
      OlderThanDistinct(dir, tail, cutoff);
      var rest := OlderThan(dir, tail, cutoff);
      assert first !in rest;
      DistinctCons(first, rest);
    }
  }

  lemma DistinctCons(first: string, rest: seq<string>)
    requires Distinct(rest) && first !in rest
    ensures Distinct([first] + rest) && Distinct([] + rest)
  {
    assert [] + rest == rest;
    var all := [first] + rest;
    forall i, j | 0 <= i < j < |all|
      ensures all[i] != all[j]
    {
      assert all[j] == rest[j - 1];
      if i > 0 { assert all[i] == rest[i - 1]; }
    }
  }

  /** Some file of the directory still verifies. */
  ghost predicate HasGood(hash: Hash, dir: Directory) {
    exists n :: n in dir && Passes(hash, dir[n])
  }

  /** The file was written last. */
  ghost predicate Newest(dir: Directory, newest: string) {
    newest in dir && forall n :: n in dir && n != newest ==> dir[n].mtime < dir[newest].mtime
  }

  /** Whatever the cutoff, the file written last is not a candidate. */
  lemma NewestIsKept(dir: Directory, names: seq<string>, keepMinimum: nat, cutoff: int, newest: string)
    requires NewestFirst(dir, names) && keepMinimum >= 1 && Newest(dir, newest)
    ensures newest !in Candidates(dir, names, keepMinimum, cutoff)
  {
    var i :| 0 <= i < |names| && names[i] == newest;
    assert names[0] in names;
    assert dir[names[0]].mtime >= dir[names[i]].mtime;
    assert names[0] == newest;
    assert forall j :: keepMinimum <= j < |names| ==> names[j] != names[0];
  }

  /** What is left when every candidate but the locked ones is gone. */
  ghost function Pruned(dir: Directory, names: seq<string>, keepMinimum: nat, cutoff: int, locked: set<string>): Directory
    requires forall n :: n in names ==> n in dir
  {
    map n | n in dir && (n in locked || n !in Candidates(dir, names, keepMinimum, cutoff)) :: dir[n]
  }

  /** A file is left exactly if it stands among the newest `keepMinimum`, is recent or cannot be unlinked. */
  lemma FileSurvivesExactlyWhen(dir: Directory, names: seq<string>, keepMinimum: nat, cutoff: int, locked: set<string>, i: nat)
    requires NewestFirst(dir, names) && i < |names|
    ensures names[i] in dir
    ensures names[i] in Pruned(dir, names, keepMinimum, cutoff, locked) <==> (i < keepMinimum || dir[names[i]].mtime >= cutoff || names[i] in locked)
  {
    assert names[i] in names;
    if keepMinimum < |names| {
      var late := names[keepMinimum..];
      if i >= keepMinimum { assert late[i - keepMinimum] == names[i]; }
      assert i < keepMinimum ==> names[i] !in late;
    }
  }

  /**
   * Pruning looks at age, never at verification: a verified file is left exactly when one of them is locked, is
   * recent, or stands among the newest `keepMinimum`.
   */
  lemma VerifiedFileSurvivesExactlyWhen(hash: Hash, dir: Directory, names: seq<string>, keepMinimum: nat, cutoff: int, locked: set<string>)
    requires NewestFirst(dir, names)
    ensures HasGood(hash, Pruned(dir, names, keepMinimum, cutoff, locked))
       <==> exists i :: 0 <= i < |names| && Passes(hash, dir[names[i]])
              && (i < keepMinimum || dir[names[i]].mtime >= cutoff || names[i] in locked)
  {
    var left := Pruned(dir, names, keepMinimum, cutoff, locked);
    forall i | 0 <= i < |names|
      ensures names[i] in dir
      ensures names[i] in left <==> (i < keepMinimum || dir[names[i]].mtime >= cutoff || names[i] in locked)
    {
      FileSurvivesExactlyWhen(dir, names, keepMinimum, cutoff, locked, i);
    }
    if HasGood(hash, left) {
      var n :| n in left && Passes(hash, left[n]);
      var i :| 0 <= i < |names| && names[i] == n;
    }
  }

  method ListDirectory(dir: Directory) returns (names: seq<string>)
    ensures NewestFirst(dir, names)
  {
    names := [];
    var rest := dir.Keys;
    while rest != {}
      invariant rest <= dir.Keys && ByTime(dir, names)
      invariant forall n :: n in names <==> n in dir && n !in rest
      decreases rest
    {
      var n :| n in rest;
      InsertKeepsOrder(dir, n, names);
      names := InsertByTime(dir, n, names);
      rest := rest - {n};
    }
  }

  ghost function Left(dir: Directory, gone: seq<string>, locked: set<string>): Directory {
    map n | n in dir && (n in locked || n !in gone) :: dir[n]
  }

  lemma UnlinkStep(dir: Directory, gone: seq<string>, i: nat, locked: set<string>)
    requires Distinct(gone) && i < |gone| && gone[i] in dir
    ensures var here := Left(dir, gone[..i], locked);
            var next := Left(dir, gone[..i + 1], locked);
            if gone[i] in locked then next == here else next == here - {gone[i]} && |next| == |here| - 1
  {
    var n := gone[i];
    var here := Left(dir, gone[..i], locked);
    assert n !in gone[..i] && n in here;
    assert gone[..i + 1] == gone[..i] + [n];
    var next := Left(dir, gone[..i + 1], locked);
    if n in locked {
      assert next == here;
    } else {
      assert next == here - {n};
      assert here.Keys == next.Keys + {n};
    }
  }

  class Storage {
    var files: Directory

    constructor ()
      ensures files == map[]
    {
      files := map[];
    }

    /** `put`: writes the file; the checksum is taken of the buffer, not of what reached the disk. */
    method Put(hash: Hash, name: string, buffer: seq<int>, onDisk: seq<int>, now: int) returns (checksum: string)
      modifies this
      ensures checksum == hash(buffer)
      ensures files == old(files)[name := Stored(now, onDisk, checksum)]
      ensures Passes(hash, files[name]) <==> onDisk != [] && hash(onDisk) == hash(buffer)
    {
      checksum := hash(buffer);
      files := files[name := Stored(now, onDisk, checksum)];
    }

    /** `prune`: deletes the candidates one by one; a file that cannot be unlinked is skipped. */
    method Prune(keepMinimum: nat, cutoff: int, locked: set<string>) returns (removed: nat, ghost names: seq<string>)
      modifies this
      ensures NewestFirst(old(files), names)
      ensures forall i :: 0 <= i < |names| ==>
                (names[i] in files <==> i < keepMinimum || old(files)[names[i]].mtime >= cutoff || names[i] in locked)
      ensures forall n :: n in files ==> n in old(files) && files[n] == old(files)[n]
      ensures files == Pruned(old(files), names, keepMinimum, cutoff, locked)
      ensures removed == |old(files)| - |files|
    {
      var existing := ListDirectory(files);
      names := existing;
      removed := 0;
      ghost var before := files;
      forall i | 0 <= i < |names|
        ensures names[i] in before
        ensures names[i] in Pruned(before, names, keepMinimum, cutoff, locked)
           <==> (i < keepMinimum || before[names[i]].mtime >= cutoff || names[i] in locked)
      {
        FileSurvivesExactlyWhen(before, names, keepMinimum, cutoff, locked, i);
      }
      if |existing| <= keepMinimum {
        assert files == Pruned(before, names, keepMinimum, cutoff, locked);
        return;
      }
      var candidates := OlderThan(files, existing[keepMinimum..], cutoff);
      OlderThanDistinct(files, existing[keepMinimum..], cutoff);
      removed := UnlinkAll(candidates, locked);
      assert candidates == Candidates(before, names, keepMinimum, cutoff);
    }

    method UnlinkAll(candidates: seq<string>, locked: set<string>) returns (removed: nat)
      requires Distinct(candidates)
      requires forall n :: n in candidates ==> n in files
      modifies this
      ensures files == Left(old(files), candidates, locked)
      ensures removed == |old(files)| - |files|
    {
      removed := 0;
      ghost var before := files;
      assert Left(before, candidates[..0], locked) == before;
      for i := 0 to |candidates|
        invariant files == Left(before, candidates[..i], locked)
        invariant removed == |before| - |files|
      {
        UnlinkStep(before, candidates, i, locked);
        var n := candidates[i];
        if n !in locked {
          files := files - {n};
          removed := removed + 1;
        }
      }
      assert candidates[..|candidates|] == candidates;
    }
  }
}
