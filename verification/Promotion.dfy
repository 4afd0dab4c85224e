/**
 Promotion of staged files onto their final paths, with a rollback handler.

 The file system decides for each operation whether it fails; an operation that fails has no effect.
 Existence checks do not fail.
 */
module Promotion {
  import opened Wrappers

  datatype FilePath = FilePath(directory: string, name: string)

  type Content = string

  class FileSystem {
    const faults: nat -> bool
    var clock: nat
    var files: map<FilePath, Content>

    constructor (faults: nat -> bool, files: map<FilePath, Content>)
      ensures this.faults == faults && this.files == files && clock == 0
    {
      this.faults := faults;
      this.files := files;
      clock := 0;
    }

    /** `os.replace(source, target)` */
    method Replace(source: FilePath, target: FilePath) returns (ok: bool)
      modifies this
      ensures clock == old(clock) + 1
      ensures ok <==> !faults(old(clock)) && source in old(files)
      ensures files == if ok then (old(files) - {source})[target := old(files)[source]] else old(files)
    {
      ok := !faults(clock) && source in files;
      clock := clock + 1;
      if ok {
        files := (files - {source})[target := files[source]];
      }
    }

    /** `path.unlink()` */
    method Unlink(path: FilePath) returns (ok: bool)
      modifies this
      ensures clock == old(clock) + 1
      ensures ok <==> !faults(old(clock)) && path in old(files)
      ensures files == if ok then old(files) - {path} else old(files)
    {
      ok := !faults(clock) && path in files;
      clock := clock + 1;
      if ok {
        files := files - {path};
      }
    }
  }

  /** Where a promotion ended.  `BackupFailed(i)` is an error at the i-th final of the first loop,
      `RenameFailed(i)` one at the i-th pair of the second, both after a handler that ran to its end.
      `CleanupFailed` is an error raised inside the handler, after so many backups and renames. */
  datatype Outcome =
    | Promoted
    | BackupFailed(index: nat)
    | RenameFailed(index: nat)
    | CleanupFailed(backedUp: nat, renamed: nat)

  function Backup(stagingDir: string, final: FilePath): FilePath {
    FilePath(stagingDir, final.name + ".previous")
  }

  function Read(files: map<FilePath, Content>, p: FilePath): Option<Content> {
    if p in files then Some(files[p]) else None
  }

  // ---------------------------------------------------------------- layout

  /** Finals have distinct names and live outside the staging directory. */
  ghost predicate FinalsApart(finals: seq<FilePath>, stagingDir: string) {
    && (forall i :: 0 <= i < |finals| ==> finals[i].directory != stagingDir)
    && (forall i, j :: 0 <= i < j < |finals| ==> finals[i].name != finals[j].name)
  }

  /** Staged files are distinct and are neither finals nor backups. */
  ghost predicate StagedApart(staged: seq<FilePath>, finals: seq<FilePath>, stagingDir: string) {
    && (forall i, j :: 0 <= i < j < |staged| ==> staged[i] != staged[j])
    && (forall i, k :: 0 <= i < |staged| && 0 <= k < |finals| ==>
          staged[i] != finals[k] && staged[i] != Backup(stagingDir, finals[k]))
  }

  // ---------------------------------------------------------------- what each loop computes

  /** The backups taken when the first `n` finals are moved aside, in order. */
  function Taken(before: map<FilePath, Content>, finals: seq<FilePath>, n: nat): seq<FilePath>
    requires n <= |finals|
  {
    if n == 0 then []
    else if finals[n - 1] in before then Taken(before, finals, n - 1) + [finals[n - 1]]
    else Taken(before, finals, n - 1)
  }

  function Moved(files: map<FilePath, Content>, source: FilePath, target: FilePath): map<FilePath, Content>
    requires source in files
  {
    (files - {source})[target := files[source]]
  }

  function MovedAside(before: map<FilePath, Content>, stagingDir: string, taken: seq<FilePath>,
                      n: nat): map<FilePath, Content>
    requires n <= |taken|
  {
    if n == 0 then before
    else
      var files := MovedAside(before, stagingDir, taken, n - 1);
      if taken[n - 1] in files then Moved(files, taken[n - 1], Backup(stagingDir, taken[n - 1])) else files
  }

  function Renamed(files: map<FilePath, Content>, staged: seq<FilePath>, finals: seq<FilePath>,
                   n: nat): map<FilePath, Content>
    requires n <= |staged| && n <= |finals|
  {
    if n == 0 then files
    else
      var rest := Renamed(files, staged, finals, n - 1);
      if staged[n - 1] in rest then Moved(rest, staged[n - 1], finals[n - 1]) else rest
  }

  function Unlinked(files: map<FilePath, Content>, finals: seq<FilePath>, n: nat): map<FilePath, Content>
    requires n <= |finals|
  {
    if n == 0 then files else Unlinked(files, finals, n - 1) - {finals[n - 1]}
  }

  function Restored(files: map<FilePath, Content>, stagingDir: string, taken: seq<FilePath>,
                    n: nat): map<FilePath, Content>
    requires n <= |taken|
  {
    if n == 0 then files
    else
      var rest := Restored(files, stagingDir, taken, n - 1);
      if Backup(stagingDir, taken[n - 1]) in rest then Moved(rest, Backup(stagingDir, taken[n - 1]), taken[n - 1])
      else rest
  }

  // ---------------------------------------------------------------- the loops, path by path

  lemma {:induction false} TakenFacts(before: map<FilePath, Content>, finals: seq<FilePath>, n: nat)
    requires n <= |finals|
    ensures forall f :: f in Taken(before, finals, n) <==> f in finals[..n] && f in before
    ensures |Taken(before, finals, n)| <= n
  {
    if n > 0 {
      TakenFacts(before, finals, n - 1);
      assert finals[..n] == finals[..n - 1] + [finals[n - 1]];
    }
  }

  lemma {:induction false} TakenApart(before: map<FilePath, Content>, finals: seq<FilePath>, stagingDir: string, n: nat)
    requires n <= |finals| && FinalsApart(finals, stagingDir)
    ensures FinalsApart(Taken(before, finals, n), stagingDir)
  {
    if n > 0 {
      TakenApart(before, finals, stagingDir, n - 1);
      TakenFacts(before, finals, n - 1);
      var taken := Taken(before, finals, n - 1);
      forall i | 0 <= i < |taken| ensures taken[i].name != finals[n - 1].name {
        assert taken[i] in taken;
        var k :| 0 <= k < n - 1 && finals[..n - 1][k] == taken[i];
        assert finals[k].name != finals[n - 1].name;
      }
    }
  }

  lemma {:induction false} MovedAsideOther(before: map<FilePath, Content>, stagingDir: string, taken: seq<FilePath>,
                                           n: nat, p: FilePath)
    requires n <= |taken|
    requires forall i :: 0 <= i < n ==> taken[i] != p && Backup(stagingDir, taken[i]) != p
    ensures Read(MovedAside(before, stagingDir, taken, n), p) == Read(before, p)
  {
    if n > 0 {
      MovedAsideOther(before, stagingDir, taken, n - 1, p);
    }
  }

  lemma {:induction false} MovedAsidePair(before: map<FilePath, Content>, stagingDir: string, taken: seq<FilePath>,
                                          n: nat, i: nat)
    requires i < n <= |taken| && FinalsApart(taken, stagingDir)
    requires taken[i] in before
    ensures Read(MovedAside(before, stagingDir, taken, n), taken[i]) == None
    ensures Read(MovedAside(before, stagingDir, taken, n), Backup(stagingDir, taken[i])) == Read(before, taken[i])
  {
    BackupsDiffer(stagingDir, taken);
    if i < n - 1 {
      MovedAsidePair(before, stagingDir, taken, n - 1, i);
      assert taken[i].name != taken[n - 1].name;
    } else {
      MovedAsideOther(before, stagingDir, taken, i, taken[i]);
    }
  }

  /** A file moved aside is absent from its place and present, unchanged, as its backup. */
  lemma {:induction false} MovedAsideFacts(before: map<FilePath, Content>, stagingDir: string, taken: seq<FilePath>,
                                           n: nat)
    requires n <= |taken| && FinalsApart(taken, stagingDir)
    requires forall i :: 0 <= i < |taken| ==> taken[i] in before
    ensures forall i :: 0 <= i < n ==> Read(MovedAside(before, stagingDir, taken, n), taken[i]) == None
    ensures forall i :: 0 <= i < n ==>
      Read(MovedAside(before, stagingDir, taken, n), Backup(stagingDir, taken[i])) == Read(before, taken[i])
    ensures forall p :: p !in taken[..n] && (forall i :: 0 <= i < n ==> p != Backup(stagingDir, taken[i])) ==>
      Read(MovedAside(before, stagingDir, taken, n), p) == Read(before, p)
  {
    forall i | 0 <= i < n { MovedAsidePair(before, stagingDir, taken, n, i); }
    forall p | p !in taken[..n] && (forall i :: 0 <= i < n ==> p != Backup(stagingDir, taken[i]))
      ensures Read(MovedAside(before, stagingDir, taken, n), p) == Read(before, p)
    {
      assert forall i :: 0 <= i < n ==> taken[..n][i] == taken[i];
      MovedAsideOther(before, stagingDir, taken, n, p);
    }
  }

  lemma {:induction false} BackupsDiffer(stagingDir: string, finals: seq<FilePath>)
    requires FinalsApart(finals, stagingDir)
    ensures forall i, j :: 0 <= i < j < |finals| ==> Backup(stagingDir, finals[i]) != Backup(stagingDir, finals[j])
    ensures forall i, j :: 0 <= i < |finals| && 0 <= j < |finals| ==> Backup(stagingDir, finals[i]) != finals[j]
  {
    forall i, j | 0 <= i < j < |finals| ensures Backup(stagingDir, finals[i]) != Backup(stagingDir, finals[j]) {
      var a, b := finals[i].name, finals[j].name;
      assert (a + ".previous")[..|a|] == a && (b + ".previous")[..|b|] == b;
      assert |a + ".previous"| == |a| + 9 && |b + ".previous"| == |b| + 9;
    }
  }

  lemma {:induction false} RenamedOther(files: map<FilePath, Content>, staged: seq<FilePath>, finals: seq<FilePath>,
                                        n: nat, p: FilePath)
    requires n <= |staged| && n <= |finals|
    requires forall i :: 0 <= i < n ==> staged[i] != p && finals[i] != p
    ensures Read(Renamed(files, staged, finals, n), p) == Read(files, p)
  {
    if n > 0 {
      RenamedOther(files, staged, finals, n - 1, p);
    }
  }

  lemma {:induction false} RenamedPair(files: map<FilePath, Content>, staged: seq<FilePath>, finals: seq<FilePath>,
                                       stagingDir: string, n: nat, i: nat)
    requires i < n <= |staged| && n <= |finals|
    requires FinalsApart(finals, stagingDir) && StagedApart(staged, finals, stagingDir)
    requires staged[i] in files
    ensures Read(Renamed(files, staged, finals, n), staged[i]) == None
    ensures Read(Renamed(files, staged, finals, n), finals[i]) == Read(files, staged[i])
  {
    if i < n - 1 {
      RenamedPair(files, staged, finals, stagingDir, n - 1, i);
      assert staged[i] != finals[n - 1] && finals[i] != staged[n - 1] && finals[i].name != finals[n - 1].name;
    } else {
      RenamedOther(files, staged, finals, i, staged[i]);
    }
  }

  lemma {:induction false} RenamedFacts(files: map<FilePath, Content>, staged: seq<FilePath>, finals: seq<FilePath>,
                                        stagingDir: string, n: nat)
    requires n <= |staged| && n <= |finals|
    requires FinalsApart(finals, stagingDir) && StagedApart(staged, finals, stagingDir)
    requires forall i :: 0 <= i < n ==> staged[i] in files
    ensures forall i :: 0 <= i < n ==> Read(Renamed(files, staged, finals, n), staged[i]) == None
    ensures forall i :: 0 <= i < n ==> Read(Renamed(files, staged, finals, n), finals[i]) == Read(files, staged[i])
    ensures forall p ::
      p !in staged[..n] && p !in finals[..n] ==> Read(Renamed(files, staged, finals, n), p) == Read(files, p)
  {
    forall i | 0 <= i < n { RenamedPair(files, staged, finals, stagingDir, n, i); }
    forall p | p !in staged[..n] && p !in finals[..n]
      ensures Read(Renamed(files, staged, finals, n), p) == Read(files, p)
    {
      assert forall i :: 0 <= i < n ==> staged[..n][i] == staged[i] && finals[..n][i] == finals[i];
      RenamedOther(files, staged, finals, n, p);
    }
  }

  lemma {:induction false} UnlinkedFacts(files: map<FilePath, Content>, finals: seq<FilePath>, n: nat)
    requires n <= |finals|
    ensures forall p :: Read(Unlinked(files, finals, n), p) == if p in finals[..n] then None else Read(files, p)
  {
    if n > 0 {
      UnlinkedFacts(files, finals, n - 1);
      assert finals[..n] == finals[..n - 1] + [finals[n - 1]];
    }
  }

  lemma {:induction false} RestoredOther(files: map<FilePath, Content>, stagingDir: string, taken: seq<FilePath>,
                                         n: nat, p: FilePath)
    requires n <= |taken|
    requires forall i :: 0 <= i < n ==> taken[i] != p && Backup(stagingDir, taken[i]) != p
    ensures Read(Restored(files, stagingDir, taken, n), p) == Read(files, p)
  {
    if n > 0 {
      RestoredOther(files, stagingDir, taken, n - 1, p);
    }
  }

  lemma {:induction false} RestoredPair(files: map<FilePath, Content>, stagingDir: string, taken: seq<FilePath>, n: nat,
                                        i: nat)
    requires i < n <= |taken| && FinalsApart(taken, stagingDir)
    requires Backup(stagingDir, taken[i]) in files
    ensures Read(Restored(files, stagingDir, taken, n), taken[i]) == Read(files, Backup(stagingDir, taken[i]))
    ensures Read(Restored(files, stagingDir, taken, n), Backup(stagingDir, taken[i])) == None
  {
    BackupsDiffer(stagingDir, taken);
    if i < n - 1 {
      RestoredPair(files, stagingDir, taken, n - 1, i);
      assert taken[i].name != taken[n - 1].name;
    } else {
      RestoredOther(files, stagingDir, taken, i, Backup(stagingDir, taken[i]));
    }
  }

  lemma {:induction false} RestoredFacts(files: map<FilePath, Content>, stagingDir: string, taken: seq<FilePath>,
                                         n: nat)
    requires n <= |taken| && FinalsApart(taken, stagingDir)
    requires forall i :: 0 <= i < |taken| ==> Backup(stagingDir, taken[i]) in files
    ensures forall i :: 0 <= i < n ==>
      Read(Restored(files, stagingDir, taken, n), taken[i]) == Read(files, Backup(stagingDir, taken[i]))
    ensures forall i :: 0 <= i < n ==> Read(Restored(files, stagingDir, taken, n), Backup(stagingDir, taken[i])) == None
    ensures forall p :: p !in taken[..n] && (forall i :: 0 <= i < n ==> p != Backup(stagingDir, taken[i])) ==>
      Read(Restored(files, stagingDir, taken, n), p) == Read(files, p)
  {
    forall i | 0 <= i < n { RestoredPair(files, stagingDir, taken, n, i); }
    forall p | p !in taken[..n] && (forall i :: 0 <= i < n ==> p != Backup(stagingDir, taken[i]))
      ensures Read(Restored(files, stagingDir, taken, n), p) == Read(files, p)
    {
      assert forall i :: 0 <= i < n ==> taken[..n][i] == taken[i];
      RestoredOther(files, stagingDir, taken, n, p);
    }
  }

  // ---------------------------------------------------------------- whole runs

  /** The state after `i` finals were considered for backup and `j` renames were done. */
  function Reached(before: map<FilePath, Content>, staged: seq<FilePath>, finals: seq<FilePath>, stagingDir: string,
                   i: nat, j: nat)
    : map<FilePath, Content>
    requires i <= |finals| && j <= |finals| && j <= |staged|
  {
    var taken := Taken(before, finals, i);
    Renamed(MovedAside(before, stagingDir, taken, |taken|), staged, finals, j)
  }

  /** The state after a handler that unlinked `a` finals and moved `b` backups back. */
  function RolledBack(before: map<FilePath, Content>, staged: seq<FilePath>, finals: seq<FilePath>, stagingDir: string,
                      i: nat, j: nat, a: nat, b: nat): map<FilePath, Content>
    requires i <= |finals| && j <= |finals| && j <= |staged| && a <= |finals| && b <= |Taken(before, finals, i)|
  {
    Restored(Unlinked(Reached(before, staged, finals, stagingDir, i, j), finals, a), stagingDir,
             Taken(before, finals, i), b)
  }

  ghost predicate IsBackup(p: FilePath, finals: seq<FilePath>, stagingDir: string) {
    exists k :: 0 <= k < |finals| && p == Backup(stagingDir, finals[k])
  }

  /** What lies under the backup path of a final, once the final was considered or before that. */
  function Saved(before: map<FilePath, Content>, stagingDir: string, final: FilePath,
                 considered: bool): Option<Content>
  {
    if considered && final in before then Read(before, final) else Read(before, Backup(stagingDir, final))
  }

  /** `Reached`, path by path. */
  lemma {:induction false} ReachedFacts(before: map<FilePath, Content>, staged: seq<FilePath>, finals: seq<FilePath>,
                                        stagingDir: string, i: nat, j: nat)
    requires i <= |finals| && j <= |finals| && j <= |staged|
    requires FinalsApart(finals, stagingDir) && StagedApart(staged, finals, stagingDir)
    requires forall k :: 0 <= k < j ==> staged[k] in before
    ensures var files := Reached(before, staged, finals, stagingDir, i, j);
      && (forall k :: 0 <= k < j ==> Read(files, finals[k]) == Read(before, staged[k]))
      && (forall k :: j <= k < |finals| ==> Read(files, finals[k]) == if k < i then None else Read(before, finals[k]))
      && (forall k :: 0 <= k < |staged| ==> Read(files, staged[k]) == if k < j then None else Read(before, staged[k]))
      && (forall k ::
        0 <= k < |finals| ==> Read(files, Backup(stagingDir, finals[k])) == Saved(before, stagingDir, finals[k], k < i))
      && (forall p ::
          p !in finals && p !in staged && !IsBackup(p, finals, stagingDir) ==> Read(files, p) == Read(before, p))
  {
    var taken := Taken(before, finals, i);
    var aside := MovedAside(before, stagingDir, taken, |taken|);
    AsideFacts(before, staged, finals, stagingDir, i);
    BackupsDiffer(stagingDir, finals);
    RenamedFacts(aside, staged, finals, stagingDir, j);
    RenamedElsewhere(aside, staged, finals, stagingDir, j);
  }

  /** What the first `j` renames leave alone: later finals, later staged files, backups and all other paths. */
  lemma {:induction false} RenamedElsewhere(files: map<FilePath, Content>, staged: seq<FilePath>, finals: seq<FilePath>,
                                            stagingDir: string, j: nat)
    requires j <= |finals| && j <= |staged|
    requires FinalsApart(finals, stagingDir) && StagedApart(staged, finals, stagingDir)
    ensures forall k ::
      j <= k < |finals| ==> Read(Renamed(files, staged, finals, j), finals[k]) == Read(files, finals[k])
    ensures forall k ::
      j <= k < |staged| ==> Read(Renamed(files, staged, finals, j), staged[k]) == Read(files, staged[k])
    ensures forall k :: 0 <= k < |finals| ==>
      Read(Renamed(files, staged, finals, j), Backup(stagingDir, finals[k])) ==
        Read(files, Backup(stagingDir, finals[k]))
    ensures forall p :: p !in finals && p !in staged ==> Read(Renamed(files, staged, finals, j), p) == Read(files, p)
  {
    BackupsDiffer(stagingDir, finals);
    forall k | j <= k < |finals| ensures Read(Renamed(files, staged, finals, j), finals[k]) == Read(files, finals[k]) {
      assert forall q :: 0 <= q < j ==> finals[q].name != finals[k].name;
      RenamedOther(files, staged, finals, j, finals[k]);
    }
    forall k | j <= k < |staged| { RenamedOther(files, staged, finals, j, staged[k]); }
    forall k | 0 <= k < |finals| { RenamedOther(files, staged, finals, j, Backup(stagingDir, finals[k])); }
    forall p | p !in finals && p !in staged { RenamedOther(files, staged, finals, j, p); }
  }

  lemma {:induction false} ReachedFinal(before: map<FilePath, Content>, staged: seq<FilePath>, finals: seq<FilePath>,
                                        stagingDir: string, i: nat, j: nat, k: nat)
    requires i <= |finals| && j <= |finals| && j <= |staged| && k < |finals|
    requires FinalsApart(finals, stagingDir) && StagedApart(staged, finals, stagingDir)
    requires forall q :: 0 <= q < j ==> staged[q] in before
    ensures finals[k] in Reached(before, staged, finals, stagingDir, i, j) <==> k < j || (i <= k && finals[k] in before)
  {
    ReachedFacts(before, staged, finals, stagingDir, i, j);
    assert Read(Reached(before, staged, finals, stagingDir, i, j), finals[k]).Some? <==>
      k < j || (i <= k && finals[k] in before);
  }

  lemma {:induction false} AsideFacts(before: map<FilePath, Content>, staged: seq<FilePath>, finals: seq<FilePath>,
                                      stagingDir: string, i: nat)
    requires i <= |finals|
    requires FinalsApart(finals, stagingDir) && StagedApart(staged, finals, stagingDir)
    ensures var taken := Taken(before, finals, i);
      var aside := MovedAside(before, stagingDir, taken, |taken|);
      && (forall k :: 0 <= k < |finals| ==> Read(aside, finals[k]) == if k < i then None else Read(before, finals[k]))
      && (forall k :: 0 <= k < |staged| ==> Read(aside, staged[k]) == Read(before, staged[k]))
      && (forall k ::
        0 <= k < |finals| ==> Read(aside, Backup(stagingDir, finals[k])) == Saved(before, stagingDir, finals[k], k < i))
      && (forall p :: p !in finals && !IsBackup(p, finals, stagingDir) ==> Read(aside, p) == Read(before, p))
  {
    var taken := Taken(before, finals, i);
    TakenFacts(before, finals, i);
    TakenApart(before, finals, stagingDir, i);
    BackupsDiffer(stagingDir, finals);
    forall m | 0 <= m < |taken| ensures taken[m] in before && taken[m] in finals[..i] { assert taken[m] in taken; }
    MovedAsideFacts(before, stagingDir, taken, |taken|);
    assert taken[..|taken|] == taken;
    var aside := MovedAside(before, stagingDir, taken, |taken|);
    forall k | 0 <= k < |finals|
      ensures Read(aside, finals[k]) == if k < i then None else Read(before, finals[k])
      ensures Read(aside, Backup(stagingDir, finals[k])) == Saved(before, stagingDir, finals[k], k < i)
    {
      InTaken(before, finals, stagingDir, i, k);
    }
  }

  /** A final is among the taken ones, at one place, exactly when it was considered and existed. */
  lemma {:induction false} InTaken(before: map<FilePath, Content>, finals: seq<FilePath>, stagingDir: string, i: nat,
                                   k: nat)
    requires i <= |finals| && k < |finals| && FinalsApart(finals, stagingDir)
    ensures finals[k] in Taken(before, finals, i) <==> k < i && finals[k] in before
    ensures !(k < i && finals[k] in before) ==>
      forall m ::
        0 <= m < |Taken(before, finals, i)| ==>
          Backup(stagingDir, Taken(before, finals, i)[m]) != Backup(stagingDir, finals[k])
  {
    var taken := Taken(before, finals, i);
    TakenFacts(before, finals, i);
    BackupsDiffer(stagingDir, finals);
    if k < i { assert finals[..i][k] == finals[k]; }
    forall m | 0 <= m < |taken| && Backup(stagingDir, taken[m]) == Backup(stagingDir, finals[k])
      ensures k < i && finals[k] in before
    {
      assert taken[m] in taken;
      var q :| 0 <= q < i && finals[..i][q] == taken[m];
      assert finals[q] == taken[m];
    }
    if finals[k] in taken {
      var q :| 0 <= q < i && finals[..i][q] == finals[k];
      assert q == k;
    }
  }

  /** The state after a complete handler: the finals that were considered for backup have what they had,
      the others are gone, and the staged files that were renamed are consumed. */
  lemma {:induction false} RolledBackFacts(before: map<FilePath, Content>, staged: seq<FilePath>, finals: seq<FilePath>,
                                           stagingDir: string, i: nat, j: nat)
    requires i <= |finals| && j <= |finals| && j <= |staged|
    requires FinalsApart(finals, stagingDir) && StagedApart(staged, finals, stagingDir)
    requires forall k :: 0 <= k < j ==> staged[k] in before
    ensures var files := RolledBack(before, staged, finals, stagingDir, i, j, |finals|, |Taken(before, finals, i)|);
      && (forall k :: 0 <= k < |finals| ==> Read(files, finals[k]) == if k < i then Read(before, finals[k]) else None)
      && BackupsReturned(before, files, finals, stagingDir, i)
      && (forall k :: 0 <= k < |staged| ==> Read(files, staged[k]) == if k < j then None else Read(before, staged[k]))
      && (forall p ::
          p !in finals && p !in staged && !IsBackup(p, finals, stagingDir) ==> Read(files, p) == Read(before, p))
  {
    var files := RolledBack(before, staged, finals, stagingDir, i, j, |finals|, |Taken(before, finals, i)|);
    forall k | 0 <= k < |finals| ensures Read(files, finals[k]) == if k < i then Read(before, finals[k]) else None {
      RolledBackFinal(before, staged, finals, stagingDir, i, j, k);
    }
    forall k | 0 <= k < |finals| { RolledBackBackup(before, staged, finals, stagingDir, i, j, k); }
    ReachedFacts(before, staged, finals, stagingDir, i, j);
    var reached := Reached(before, staged, finals, stagingDir, i, j);
    forall p | p !in finals && !IsBackup(p, finals, stagingDir) ensures Read(files, p) == Read(reached, p) {
      RolledBackOther(before, staged, finals, stagingDir, i, j, |finals|, |Taken(before, finals, i)|, p);
    }
    forall k | 0 <= k < |staged| ensures staged[k] !in finals && !IsBackup(staged[k], finals, stagingDir) { }
  }

  lemma {:induction false} RolledBackFinal(before: map<FilePath, Content>, staged: seq<FilePath>,
                                           finals: seq<FilePath>, stagingDir: string, i: nat, j: nat, k: nat)
    requires i <= |finals| && j <= |finals| && j <= |staged| && k < |finals|
    requires FinalsApart(finals, stagingDir) && StagedApart(staged, finals, stagingDir)
    requires forall q :: 0 <= q < j ==> staged[q] in before
    ensures Read(RolledBack(before, staged, finals, stagingDir, i, j, |finals|, |Taken(before, finals, i)|), finals[k])
         == if k < i then Read(before, finals[k]) else None
  {
    var taken := Taken(before, finals, i);
    var reached := Reached(before, staged, finals, stagingDir, i, j);
    var bare := Unlinked(reached, finals, |finals|);
    TakenApart(before, finals, stagingDir, i);
    BackedUp(before, staged, finals, stagingDir, i, j);
    InTaken(before, finals, stagingDir, i, k);
    if finals[k] in taken {
      var m :| 0 <= m < |taken| && taken[m] == finals[k];
      assert Read(bare, Backup(stagingDir, taken[m])) == Read(before, taken[m]);
      RestoredPair(bare, stagingDir, taken, |taken|, m);
    } else {
      BackupsDiffer(stagingDir, finals);
      forall m | 0 <= m < |taken| ensures finals[k] != Backup(stagingDir, taken[m]) && finals[k] != taken[m] {
        var q :| 0 <= q < i && finals[..i][q] == taken[m];
        assert finals[q] == taken[m];
      }
      RestoredOther(bare, stagingDir, taken, |taken|, finals[k]);
      UnlinkedFacts(reached, finals, |finals|);
      assert finals[..|finals|] == finals;
    }
  }

  /** The backups of the first `i` finals are gone; at the places of the other backups nothing changed. */
  ghost predicate BackupsReturned(before: map<FilePath, Content>, after: map<FilePath, Content>, finals: seq<FilePath>,
                                  stagingDir: string, i: nat)
  {
    forall k :: 0 <= k < |finals| ==>
      Read(after, Backup(stagingDir, finals[k])) ==
        if k < i && finals[k] in before then None else Read(before, Backup(stagingDir, finals[k]))
  }

  lemma {:induction false} RolledBackBackup(before: map<FilePath, Content>, staged: seq<FilePath>,
                                            finals: seq<FilePath>, stagingDir: string, i: nat, j: nat, k: nat)
    requires i <= |finals| && j <= |finals| && j <= |staged| && k < |finals|
    requires FinalsApart(finals, stagingDir) && StagedApart(staged, finals, stagingDir)
    requires forall q :: 0 <= q < j ==> staged[q] in before
    ensures Read(RolledBack(before, staged, finals, stagingDir, i, j, |finals|, |Taken(before, finals, i)|),
                 Backup(stagingDir, finals[k]))
         == if k < i && finals[k] in before then None else Read(before, Backup(stagingDir, finals[k]))
  {
    var taken := Taken(before, finals, i);
    var reached := Reached(before, staged, finals, stagingDir, i, j);
    var bare := Unlinked(reached, finals, |finals|);
    TakenApart(before, finals, stagingDir, i);
    BackedUp(before, staged, finals, stagingDir, i, j);
    InTaken(before, finals, stagingDir, i, k);
    BackupsDiffer(stagingDir, finals);
    if finals[k] in taken {
      var m :| 0 <= m < |taken| && taken[m] == finals[k];
      assert Read(bare, Backup(stagingDir, taken[m])) == Read(before, taken[m]);
      RestoredPair(bare, stagingDir, taken, |taken|, m);
    } else {
      forall m | 0 <= m < |taken| ensures taken[m] in finals { assert taken[m] in finals[..i]; }
      RestoredOther(bare, stagingDir, taken, |taken|, Backup(stagingDir, finals[k]));
      UnlinkedFacts(reached, finals, |finals|);
      assert finals[..|finals|] == finals;
      ReachedFacts(before, staged, finals, stagingDir, i, j);
    }
  }

  /** However far the handler gets, it touches only finals and their backups. */
  lemma {:induction false} RolledBackOther(before: map<FilePath, Content>, staged: seq<FilePath>,
                                           finals: seq<FilePath>, stagingDir: string, i: nat, j: nat, a: nat, b: nat,
                                           p: FilePath)
    requires i <= |finals| && j <= |finals| && j <= |staged| && a <= |finals| && b <= |Taken(before, finals, i)|
    requires p !in finals && !IsBackup(p, finals, stagingDir)
    ensures Read(RolledBack(before, staged, finals, stagingDir, i, j, a, b), p)
         == Read(Reached(before, staged, finals, stagingDir, i, j), p)
  {
    var reached := Reached(before, staged, finals, stagingDir, i, j);
    TakenBackups(before, finals, stagingDir, i, p);
    RestoredOther(Unlinked(reached, finals, a), stagingDir, Taken(before, finals, i), b, p);
    UnlinkedFacts(reached, finals, a);
  }

  /** A final that was not considered is as it was or gone, and nothing is put in the place of its backup. */
  lemma {:induction false} RolledBackLater(before: map<FilePath, Content>, staged: seq<FilePath>,
                                           finals: seq<FilePath>, stagingDir: string, i: nat, j: nat, a: nat, b: nat,
                                           k: nat)
    requires i <= k < |finals| && j <= i && j <= |staged| && a <= |finals| && b <= |Taken(before, finals, i)|
    requires FinalsApart(finals, stagingDir) && StagedApart(staged, finals, stagingDir)
    requires forall q :: 0 <= q < j ==> staged[q] in before
    ensures var files := RolledBack(before, staged, finals, stagingDir, i, j, a, b);
      && (finals[k] in files ==> Read(files, finals[k]) == Read(before, finals[k]))
      && Read(files, Backup(stagingDir, finals[k])) == Read(before, Backup(stagingDir, finals[k]))
  {
    var taken := Taken(before, finals, i);
    var reached := Reached(before, staged, finals, stagingDir, i, j);
    InTaken(before, finals, stagingDir, i, k);
    BackupsDiffer(stagingDir, finals);
    TakenFacts(before, finals, i);
    forall m | 0 <= m < b
      ensures taken[m] != finals[k] && Backup(stagingDir, taken[m]) != finals[k]
      ensures taken[m] != Backup(stagingDir, finals[k])
    {
      assert taken[m] in taken;
      var q :| 0 <= q < i && finals[..i][q] == taken[m];
      assert finals[q] == taken[m];
    }
    RestoredOther(Unlinked(reached, finals, a), stagingDir, taken, b, finals[k]);
    RestoredOther(Unlinked(reached, finals, a), stagingDir, taken, b, Backup(stagingDir, finals[k]));
    UnlinkedFacts(reached, finals, a);
    ReachedFacts(before, staged, finals, stagingDir, i, j);
    assert Backup(stagingDir, finals[k]) !in finals[..a];
  }

  lemma {:induction false} TakenBackups(before: map<FilePath, Content>, finals: seq<FilePath>, stagingDir: string,
                                        i: nat, p: FilePath)
    requires i <= |finals| && p !in finals && !IsBackup(p, finals, stagingDir)
    ensures p !in Taken(before, finals, i)
    ensures forall m :: 0 <= m < |Taken(before, finals, i)| ==> p != Backup(stagingDir, Taken(before, finals, i)[m])
  {
    var taken := Taken(before, finals, i);
    TakenFacts(before, finals, i);
    forall m | 0 <= m < |taken| ensures p != Backup(stagingDir, taken[m]) && p != taken[m] {
      assert taken[m] in taken;
      var q :| 0 <= q < i && finals[..i][q] == taken[m];
      assert finals[q] == taken[m];
    }
  }

  /** Neither the renames nor the unlinks touch a backup. */
  lemma {:induction false} BackedUp(before: map<FilePath, Content>, staged: seq<FilePath>, finals: seq<FilePath>,
                                    stagingDir: string, i: nat, j: nat)
    requires i <= |finals| && j <= |finals| && j <= |staged|
    requires FinalsApart(finals, stagingDir) && StagedApart(staged, finals, stagingDir)
    requires forall k :: 0 <= k < j ==> staged[k] in before
    ensures forall a, m :: 0 <= a <= |finals| && 0 <= m < |Taken(before, finals, i)| ==>
      Read(Unlinked(Reached(before, staged, finals, stagingDir, i, j), finals, a),
           Backup(stagingDir, Taken(before, finals, i)[m]))
        == Read(before, Taken(before, finals, i)[m])
    ensures forall m :: 0 <= m < |Taken(before, finals, i)| ==>
      Taken(before, finals, i)[m] in before && Taken(before, finals, i)[m] in finals[..i]
    ensures forall m :: 0 <= m < |Taken(before, finals, i)| ==>
      Backup(stagingDir, Taken(before, finals, i)[m]) in
        Unlinked(Reached(before, staged, finals, stagingDir, i, j), finals, |finals|)
  {
    var taken := Taken(before, finals, i);
    var reached := Reached(before, staged, finals, stagingDir, i, j);
    TakenFacts(before, finals, i);
    ReachedFacts(before, staged, finals, stagingDir, i, j);
    BackupsDiffer(stagingDir, finals);
    forall a, m | 0 <= a <= |finals| && 0 <= m < |taken|
      ensures Read(Unlinked(reached, finals, a), Backup(stagingDir, taken[m])) == Read(before, taken[m])
      ensures taken[m] in before && taken[m] in finals[..i]
    {
      assert taken[m] in taken;
      var q :| 0 <= q < i && finals[..i][q] == taken[m];
      assert finals[q] == taken[m];
      UnlinkedFacts(reached, finals, a);
      forall r | 0 <= r < a ensures finals[..a][r] != Backup(stagingDir, finals[q]) { }
    }
  }

  /** However far the handler gets, the content of a final that was moved aside is still in its place or
      in its backup. */
  lemma {:induction false} NothingLost(before: map<FilePath, Content>, staged: seq<FilePath>, finals: seq<FilePath>,
                                       stagingDir: string, i: nat, j: nat, a: nat, b: nat, k: nat)
    requires i <= |finals| && j <= |finals| && j <= |staged| && a <= |finals| && b <= |Taken(before, finals, i)|
    requires FinalsApart(finals, stagingDir) && StagedApart(staged, finals, stagingDir)
    requires forall q :: 0 <= q < j ==> staged[q] in before
    requires k < i && finals[k] in before
    ensures var files := RolledBack(before, staged, finals, stagingDir, i, j, a, b);
      Read(files, finals[k]) == Read(before, finals[k])
        || Read(files, Backup(stagingDir, finals[k])) == Read(before, finals[k])
  {
    var taken := Taken(before, finals, i);
    var bare := Unlinked(Reached(before, staged, finals, stagingDir, i, j), finals, a);
    TakenApart(before, finals, stagingDir, i);
    BackedUp(before, staged, finals, stagingDir, i, j);
    forall m | 0 <= m < |taken| ensures Backup(stagingDir, taken[m]) in bare {
      assert Read(bare, Backup(stagingDir, taken[m])) == Read(before, taken[m]);
    }
    RestoredFacts(bare, stagingDir, taken, b);
    BackupsDiffer(stagingDir, taken);
    InTaken(before, finals, stagingDir, i, k);
    var m :| 0 <= m < |taken| && taken[m] == finals[k];
    if m >= b {
      assert Backup(stagingDir, taken[m]) !in taken[..b];
    }
  }

  // ---------------------------------------------------------------- the promotion

  /** The first loop stops at an existing final that may not be replaced or whose backup fails. */
  ghost predicate BackupStopsAt(faults: nat -> bool, clock: nat, before: map<FilePath, Content>, finals: seq<FilePath>,
                                replace: bool, i: nat)
    requires i < |finals|
  {
    finals[i] in before && (!replace || faults(clock + |Taken(before, finals, i)|))
  }

  method BackUp(fs: FileSystem, finals: seq<FilePath>, replace: bool, stagingDir: string)
    returns (backups: seq<(FilePath, FilePath)>, i: nat, ok: bool)
    requires FinalsApart(finals, stagingDir)
    modifies fs
    ensures i <= |finals| && (ok <==> i == |finals|)
    ensures var taken := Taken(old(fs.files), finals, i);
      && backups == seq(|taken|, k requires 0 <= k < |taken| => (taken[k], Backup(stagingDir, taken[k])))
      && fs.files == MovedAside(old(fs.files), stagingDir, taken, |taken|)
    ensures forall k :: 0 <= k < i ==> !BackupStopsAt(fs.faults, old(fs.clock), old(fs.files), finals, replace, k)
    ensures !ok ==> BackupStopsAt(fs.faults, old(fs.clock), old(fs.files), finals, replace, i)
    ensures fs.clock == old(fs.clock) + |Taken(old(fs.files), finals, i)| + if ok || !replace then 0 else 1
  {
    ghost var before := fs.files;
    backups := [];
    i := 0;
    while i < |finals|
      invariant i <= |finals|
      invariant var taken := Taken(before, finals, i);
        && backups == seq(|taken|, k requires 0 <= k < |taken| => (taken[k], Backup(stagingDir, taken[k])))
        && fs.files == MovedAside(before, stagingDir, taken, |taken|)
        && fs.clock == old(fs.clock) + |taken|
      invariant forall k :: 0 <= k < i ==> !BackupStopsAt(fs.faults, old(fs.clock), before, finals, replace, k)
    {
      var final := finals[i];
      ghost var taken := Taken(before, finals, i);
      AsideFinal(before, finals, stagingDir, i);
      if final in fs.files {
        if !replace {
          return backups, i, false;
        }
        var backup := Backup(stagingDir, final);
        var moved := fs.Replace(final, backup);
        if !moved {
          return backups, i, false;
        }
        backups := backups + [(final, backup)];
        MovedAsidePrefix(before, stagingDir, taken, [final]);
      }
      i := i + 1;
    }
    ok := true;
  }

  /** The next final is still where it was. */
  lemma {:induction false} AsideFinal(before: map<FilePath, Content>, finals: seq<FilePath>, stagingDir: string, i: nat)
    requires i < |finals| && FinalsApart(finals, stagingDir)
    ensures var taken := Taken(before, finals, i);
      Read(MovedAside(before, stagingDir, taken, |taken|), finals[i]) == Read(before, finals[i])
  {
    AsideFacts(before, [], finals, stagingDir, i);
  }

  lemma {:induction false} MovedAsidePrefix(before: map<FilePath, Content>, stagingDir: string, taken: seq<FilePath>,
                                            more: seq<FilePath>)
    ensures MovedAside(before, stagingDir, taken + more, |taken|) == MovedAside(before, stagingDir, taken, |taken|)
  {
    MovedAsideSame(before, stagingDir, taken, taken + more, |taken|);
  }

  lemma {:induction false} MovedAsideSame(before: map<FilePath, Content>, stagingDir: string, xs: seq<FilePath>,
                                          ys: seq<FilePath>, n: nat)
    requires n <= |xs| && n <= |ys| && forall k :: 0 <= k < n ==> xs[k] == ys[k]
    ensures MovedAside(before, stagingDir, xs, n) == MovedAside(before, stagingDir, ys, n)
  {
    if n > 0 { MovedAsideSame(before, stagingDir, xs, ys, n - 1); }
  }

  /** The k-th rename has a source and is not faulted. */
  ghost predicate RenameWorks(faults: nat -> bool, start: nat, files: map<FilePath, Content>, staged: seq<FilePath>,
                              k: nat)
    requires k < |staged|
  {
    staged[k] in files && !faults(start + k)
  }

  method RenameAll(fs: FileSystem, staged: seq<FilePath>, finals: seq<FilePath>, stagingDir: string)
    returns (j: nat, ok: bool)
    requires FinalsApart(finals, stagingDir) && StagedApart(staged, finals, stagingDir)
    modifies fs
    ensures j <= |staged| && j <= |finals|
    ensures fs.files == Renamed(old(fs.files), staged, finals, j)
    ensures forall k :: 0 <= k < j ==> RenameWorks(fs.faults, old(fs.clock), old(fs.files), staged, k)
    ensures ok <==> j == |staged| == |finals|
    ensures !ok && j < |staged| && j < |finals| ==> !RenameWorks(fs.faults, old(fs.clock), old(fs.files), staged, j)
    ensures fs.clock == old(fs.clock) + j + if j < |staged| && j < |finals| then 1 else 0
  {
    ghost var files := fs.files;
    j := 0;
    while j < |staged| && j < |finals|
      invariant j <= |staged| && j <= |finals|
      invariant fs.files == Renamed(files, staged, finals, j) && fs.clock == old(fs.clock) + j
      invariant forall k :: 0 <= k < j ==> RenameWorks(fs.faults, old(fs.clock), files, staged, k)
    {
      forall k | 0 <= k < j
        ensures staged[k] in files
      {
        assert RenameWorks(fs.faults, old(fs.clock), files, staged, k);
      }
      NextStaged(files, staged, finals, stagingDir, j);
      var moved := fs.Replace(staged[j], finals[j]);
      if !moved {
        return j, false;
      }
      j := j + 1;
    }
    ok := |staged| == |finals|;
  }

  /** The next staged file is untouched by the renames before it. */
  lemma {:induction false} NextStaged(files: map<FilePath, Content>, staged: seq<FilePath>, finals: seq<FilePath>,
                                      stagingDir: string, j: nat)
    requires j < |staged| && j < |finals|
    requires FinalsApart(finals, stagingDir) && StagedApart(staged, finals, stagingDir)
    requires forall k :: 0 <= k < j ==> staged[k] in files
    ensures Read(Renamed(files, staged, finals, j), staged[j]) == Read(files, staged[j])
  {
    RenamedFacts(files, staged, finals, stagingDir, j);
    assert staged[j] !in staged[..j] && staged[j] !in finals[..j];
  }

  /** None of the next `n` operations is faulted. */
  ghost predicate Quiet(faults: nat -> bool, from: nat, n: nat) {
    forall t :: from <= t < from + n ==> !faults(t)
  }

  lemma {:induction false} QuietBoth(faults: nat -> bool, from: nat, m: nat, n: nat)
    ensures Quiet(faults, from, m + n) <==> Quiet(faults, from, m) && Quiet(faults, from + m, n)
  {
  }

  lemma {:induction false} BackupsStand(before: map<FilePath, Content>, staged: seq<FilePath>, finals: seq<FilePath>,
                                        stagingDir: string, i: nat, j: nat)
    requires i <= |finals| && j <= |finals| && j <= |staged|
    requires FinalsApart(finals, stagingDir) && StagedApart(staged, finals, stagingDir)
    requires forall k :: 0 <= k < j ==> staged[k] in before
    ensures var taken := Taken(before, finals, i);
      && FinalsApart(taken, stagingDir)
      && forall m :: 0 <= m < |taken| ==>
           Backup(stagingDir, taken[m]) in
             Unlinked(Reached(before, staged, finals, stagingDir, i, j), finals, |finals|)
  {
    TakenApart(before, finals, stagingDir, i);
    BackedUp(before, staged, finals, stagingDir, i, j);
  }

  lemma {:induction false} TakenGrows(files: map<FilePath, Content>, finals: seq<FilePath>, m: nat, n: nat)
    requires m <= n <= |finals|
    ensures |Taken(files, finals, m)| <= |Taken(files, finals, n)|
  {
    if m < n { TakenGrows(files, finals, m, n - 1); }
  }

  /** The unlinks before the next final leave it alone. */
  lemma {:induction false} NextFinal(files: map<FilePath, Content>, finals: seq<FilePath>, stagingDir: string, a: nat)
    requires a < |finals| && FinalsApart(finals, stagingDir)
    ensures finals[a] in Unlinked(files, finals, a) <==> finals[a] in files
  {
    UnlinkedFacts(files, finals, a);
    forall k | 0 <= k < a ensures finals[..a][k] != finals[a] { assert finals[k].name != finals[a].name; }
    assert finals[a] !in finals[..a];
    assert Read(Unlinked(files, finals, a), finals[a]) == Read(files, finals[a]);
  }

  /** One unlink for every final that is there; it stops exactly at one that is faulted. */
  method UnlinkFinals(fs: FileSystem, finals: seq<FilePath>, backups: seq<(FilePath, FilePath)>,
                      ghost stagingDir: string)
    returns (a: nat, ok: bool)
    requires FinalsApart(finals, stagingDir)
    modifies fs
    ensures a <= |finals| && fs.files == Unlinked(old(fs.files), finals, a)
    ensures ok ==> a == |finals| && fs.clock == old(fs.clock) + |Taken(old(fs.files), finals, |finals|)|
    ensures ok <==> Quiet(fs.faults, old(fs.clock), |Taken(old(fs.files), finals, |finals|)|)
  {
    ghost var files, begin := fs.files, fs.clock;
    a := 0;
    while a < |finals|
      invariant a <= |finals| && fs.files == Unlinked(files, finals, a)
      invariant fs.clock == begin + |Taken(files, finals, a)|
      invariant Quiet(fs.faults, begin, |Taken(files, finals, a)|)
    {
      var final := finals[a];
      NextFinal(files, finals, stagingDir, a);
      TakenGrows(files, finals, a + 1, |finals|);
      var backedUp := exists k :: 0 <= k < |backups| && backups[k].0 == final;
      var done := true;
      if final in fs.files && !backedUp {
        done := fs.Unlink(final);
      } else if backedUp && final in fs.files {
        done := fs.Unlink(final);
      }
      if !done {
        assert fs.faults(begin + |Taken(files, finals, a)|);
        return a, false;
      }
      assert fs.files == Unlinked(files, finals, a) - {final};
      a := a + 1;
    }
    ok := true;
  }

  /** One rename for every backup; it stops exactly at one that is faulted. */
  method RestoreBackups(fs: FileSystem, stagingDir: string, ghost taken: seq<FilePath>,
                        backups: seq<(FilePath, FilePath)>)
    returns (b: nat, ok: bool)
    requires backups == seq(|taken|, k requires 0 <= k < |taken| => (taken[k], Backup(stagingDir, taken[k])))
    requires FinalsApart(taken, stagingDir) && forall k :: 0 <= k < |taken| ==> Backup(stagingDir, taken[k]) in fs.files
    modifies fs
    ensures b <= |taken| && fs.files == Restored(old(fs.files), stagingDir, taken, b)
    ensures ok ==> b == |taken|
    ensures ok <==> Quiet(fs.faults, old(fs.clock), |taken|)
  {
    ghost var files, begin := fs.files, fs.clock;
    b := 0;
    while b < |backups|
      invariant b <= |backups| && fs.files == Restored(files, stagingDir, taken, b)
      invariant fs.clock == begin + b && Quiet(fs.faults, begin, b)
    {
      var (final, backup) := backups[b];
      NextBackup(files, stagingDir, taken, b);
      if backup in fs.files {
        var moved := fs.Replace(backup, final);
        if !moved {
          assert fs.faults(begin + b);
          return b, false;
        }
      }
      b := b + 1;
    }
    ok := true;
  }

  /** The moves before the next backup leave it alone. */
  lemma {:induction false} NextBackup(files: map<FilePath, Content>, stagingDir: string, taken: seq<FilePath>, b: nat)
    requires b < |taken| && FinalsApart(taken, stagingDir) && Backup(stagingDir, taken[b]) in files
    ensures Backup(stagingDir, taken[b]) in Restored(files, stagingDir, taken, b)
  {
    BackupsDiffer(stagingDir, taken);
    RestoredOther(files, stagingDir, taken, b, Backup(stagingDir, taken[b]));
    assert Read(Restored(files, stagingDir, taken, b), Backup(stagingDir, taken[b])) ==
      Read(files, Backup(stagingDir, taken[b]));
  }

  /** The finals that are there when the handler starts, and the backups: one operation for each. */
  lemma {:induction false} HandlerOperations(before: map<FilePath, Content>, staged: seq<FilePath>,
                                             finals: seq<FilePath>, stagingDir: string, i: nat, j: nat)
    requires FinalsApart(finals, stagingDir) && StagedApart(staged, finals, stagingDir)
    requires i <= |finals| && j <= |staged| && j <= |finals| && (i < |finals| ==> j == 0)
    requires forall k :: 0 <= k < j ==> staged[k] in before
    ensures |Taken(Reached(before, staged, finals, stagingDir, i, j), finals, |finals|)| + |Taken(before, finals, i)|
         == j + |Taken(before, finals, |finals|)|
  {
    PresentFinals(before, staged, finals, stagingDir, i, j, |finals|);
  }

  lemma {:induction false} PresentFinals(before: map<FilePath, Content>, staged: seq<FilePath>, finals: seq<FilePath>,
                                         stagingDir: string, i: nat, j: nat, n: nat)
    requires FinalsApart(finals, stagingDir) && StagedApart(staged, finals, stagingDir)
    requires i <= |finals| && j <= |staged| && j <= |finals| && (i < |finals| ==> j == 0) && n <= |finals|
    requires forall k :: 0 <= k < j ==> staged[k] in before
    ensures |Taken(Reached(before, staged, finals, stagingDir, i, j), finals, n)|
      + |Taken(before, finals, if n < i then n else i)|
         == (if n < j then n else j) + |Taken(before, finals, n)|
  {
    if n > 0 {
      PresentFinals(before, staged, finals, stagingDir, i, j, n - 1);
      ReachedFinal(before, staged, finals, stagingDir, i, j, n - 1);
    }
  }

  /** What an outcome says about the files. */
  ghost predicate Settled(outcome: Outcome, before: map<FilePath, Content>, after: map<FilePath, Content>,
                          staged: seq<FilePath>, finals: seq<FilePath>, stagingDir: string)
  {
    match outcome
    case Promoted =>
      && |staged| == |finals|
      && (forall k :: 0 <= k < |finals| ==> staged[k] in before && Read(after, finals[k]) == Read(before, staged[k]))
      && (forall k :: 0 <= k < |staged| ==> staged[k] !in after)
      && (forall k :: 0 <= k < |finals| && finals[k] in before ==>
            Read(after, Backup(stagingDir, finals[k])) == Read(before, finals[k]))
      && OthersUntouched(before, after, staged, finals, stagingDir)
    case RenameFailed(j) =>
      && j <= |finals| && j <= |staged|
      && (forall k :: 0 <= k < |finals| ==> Read(after, finals[k]) == Read(before, finals[k]))
      && BackupsReturned(before, after, finals, stagingDir, |finals|)
      && (forall k :: 0 <= k < |staged| ==> Read(after, staged[k]) == if k < j then None else Read(before, staged[k]))
      && OthersUntouched(before, after, staged, finals, stagingDir)
    case BackupFailed(i) =>
      && i < |finals| && finals[i] in before
      && (forall k :: 0 <= k < |finals| ==> Read(after, finals[k]) == if k < i then Read(before, finals[k]) else None)
      && BackupsReturned(before, after, finals, stagingDir, i)
      && (forall k :: 0 <= k < |staged| ==> Read(after, staged[k]) == Read(before, staged[k]))
      && OthersUntouched(before, after, staged, finals, stagingDir)
    case CleanupFailed(i, j) =>
      && i <= |finals| && j <= |staged|
      && (forall k :: 0 <= k < i && finals[k] in before ==>
            || Read(after, finals[k]) == Read(before, finals[k])
            || Read(after, Backup(stagingDir, finals[k])) == Read(before, finals[k]))
      && LaterKept(before, after, finals, stagingDir, i)
      && (forall k :: 0 <= k < |staged| ==> Read(after, staged[k]) == if k < j then None else Read(before, staged[k]))
      && OthersUntouched(before, after, staged, finals, stagingDir)
  }

  /** The finals from the i-th on are as they were or gone, and the places of their backups are untouched. */
  ghost predicate LaterKept(before: map<FilePath, Content>, after: map<FilePath, Content>, finals: seq<FilePath>,
                            stagingDir: string, i: nat)
  {
    forall k :: i <= k < |finals| ==>
      && (finals[k] in after ==> Read(after, finals[k]) == Read(before, finals[k]))
      && Read(after, Backup(stagingDir, finals[k])) == Read(before, Backup(stagingDir, finals[k]))
  }

  ghost predicate OthersUntouched(before: map<FilePath, Content>, after: map<FilePath, Content>,
                                  staged: seq<FilePath>, finals: seq<FilePath>, stagingDir: string)
  {
    forall p :: p !in finals && p !in staged && !IsBackup(p, finals, stagingDir) ==> Read(after, p) == Read(before, p)
  }

  ghost predicate SomeBackupStops(faults: nat -> bool, clock: nat, before: map<FilePath, Content>,
                                  finals: seq<FilePath>, replace: bool)
  {
    exists k :: 0 <= k < |finals| && BackupStopsAt(faults, clock, before, finals, replace, k)
  }

  lemma {:induction false} PromotedSettles(before: map<FilePath, Content>, staged: seq<FilePath>, finals: seq<FilePath>,
                                           stagingDir: string)
    requires |staged| == |finals| && forall k :: 0 <= k < |staged| ==> staged[k] in before
    requires FinalsApart(finals, stagingDir) && StagedApart(staged, finals, stagingDir)
    ensures Settled(Promoted, before, Reached(before, staged, finals, stagingDir, |finals|, |finals|), staged, finals,
                    stagingDir)
  {
    ReachedFacts(before, staged, finals, stagingDir, |finals|, |finals|);
    var after := Reached(before, staged, finals, stagingDir, |finals|, |finals|);
    assert forall k :: 0 <= k < |staged| ==> Read(after, staged[k]) == None;
  }

  lemma {:induction false} CleanupSettles(before: map<FilePath, Content>, staged: seq<FilePath>, finals: seq<FilePath>,
                                          stagingDir: string, i: nat, j: nat, a: nat, b: nat)
    requires j <= i <= |finals| && j <= |staged| && a <= |finals| && b <= |Taken(before, finals, i)|
    requires FinalsApart(finals, stagingDir) && StagedApart(staged, finals, stagingDir)
    requires forall q :: 0 <= q < j ==> staged[q] in before
    ensures Settled(CleanupFailed(i, j), before, RolledBack(before, staged, finals, stagingDir, i, j, a, b), staged,
                    finals, stagingDir)
  {
    forall k | 0 <= k < i && finals[k] in before { NothingLost(before, staged, finals, stagingDir, i, j, a, b, k); }
    forall k | i <= k < |finals| { RolledBackLater(before, staged, finals, stagingDir, i, j, a, b, k); }
    ReachedFacts(before, staged, finals, stagingDir, i, j);
    forall p | p !in finals && !IsBackup(p, finals, stagingDir) {
      RolledBackOther(before, staged, finals, stagingDir, i, j, a, b, p);
    }
    forall k | 0 <= k < |staged| ensures staged[k] !in finals && !IsBackup(staged[k], finals, stagingDir) { }
  }

  // ---------------------------------------------------------------- where a run ends, from its inputs

  /** Every staged file exists and none of the renames is faulted. */
  ghost predicate StagedRenamable(faults: nat -> bool, start: nat, before: map<FilePath, Content>,
                                  staged: seq<FilePath>)
  {
    forall k :: 0 <= k < |staged| ==> RenameWorks(faults, start, before, staged, k)
  }

  /** The operation count at the first rename, when every existing final was backed up. */
  function RenameStart(clock: nat, before: map<FilePath, Content>, finals: seq<FilePath>): nat {
    clock + |Taken(before, finals, |finals|)|
  }

  function Shorter(staged: seq<FilePath>, finals: seq<FilePath>): nat {
    if |staged| <= |finals| then |staged| else |finals|
  }

  /** The first final, from the k-th on, at which the first loop stops; the number of finals if there is none. */
  ghost function BackupStop(faults: nat -> bool, clock: nat, before: map<FilePath, Content>, finals: seq<FilePath>,
                            replace: bool, k: nat): (i: nat)
    requires k <= |finals|
    ensures k <= i <= |finals|
    ensures forall q :: k <= q < i ==> !BackupStopsAt(faults, clock, before, finals, replace, q)
    ensures i < |finals| ==> BackupStopsAt(faults, clock, before, finals, replace, i)
    decreases |finals| - k
  {
    if k == |finals| || BackupStopsAt(faults, clock, before, finals, replace, k) then k
    else BackupStop(faults, clock, before, finals, replace, k + 1)
  }

  /** The first rename, from the k-th on, that does not work; the number of pairs if there is none. */
  ghost function RenameStop(faults: nat -> bool, start: nat, before: map<FilePath, Content>, staged: seq<FilePath>,
                            pairs: nat, k: nat): (j: nat)
    requires k <= pairs <= |staged|
    ensures k <= j <= pairs
    ensures forall q :: k <= q < j ==> RenameWorks(faults, start, before, staged, q)
    ensures j < pairs ==> !RenameWorks(faults, start, before, staged, j)
    decreases pairs - k
  {
    if k == pairs || !RenameWorks(faults, start, before, staged, k) then k
    else RenameStop(faults, start, before, staged, pairs, k + 1)
  }

  /** What a promotion is given. */
  datatype Inputs = Inputs(
    faults: nat -> bool, clock: nat, before: map<FilePath, Content>,
    staged: seq<FilePath>, finals: seq<FilePath>, replace: bool)
  {
    /** The finals considered for backup. */
    ghost function Considered(): (i: nat)
      ensures i <= |finals|
    {
      BackupStop(faults, clock, before, finals, replace, 0)
    }

    /** The renames done. */
    ghost function Done(): (j: nat)
      ensures j <= Shorter(staged, finals)
    {
      if Considered() < |finals| then 0
      else RenameStop(faults, RenameStart(clock, before, finals), before, staged, Shorter(staged, finals), 0)
    }

    /** The operation count when the loops end: a failed operation counts. */
    ghost function LoopsEnd(): nat {
      clock + |Taken(before, finals, Considered())| + Done() +
      if (if Considered() < |finals| then replace else Done() < Shorter(staged, finals)) then 1 else 0
    }

    ghost predicate Promotes() {
      && !SomeBackupStops(faults, clock, before, finals, replace)
      && |staged| == |finals|
      && StagedRenamable(faults, RenameStart(clock, before, finals), before, staged)
    }

    /** No operation of the handler is faulted: it has one for every rename done and every final that existed. */
    ghost predicate HandlerQuiet() {
      Quiet(faults, LoopsEnd(), Done() + |Taken(before, finals, |finals|)|)
    }

    /** After an error and a handler that is not faulted: every final has its old content, or is absent as
        before, exactly when the first loop was stopped at none. */
    ghost predicate RestoresExactly(after: map<FilePath, Content>) {
      !Promotes() && HandlerQuiet() ==>
        (FinalsKept(before, after, finals) <==> !SomeBackupStops(faults, clock, before, finals, replace))
    }

    /** Where the run ends. */
    ghost function Ending(): Outcome {
      if Promotes() then Promoted
      else if !HandlerQuiet() then CleanupFailed(Considered(), Done())
      else if SomeBackupStops(faults, clock, before, finals, replace) then BackupFailed(Considered())
      else RenameFailed(Done())
    }
  }

  /** Every final has its old content, or is absent as before. */
  ghost predicate FinalsKept(before: map<FilePath, Content>, after: map<FilePath, Content>, finals: seq<FilePath>) {
    forall k :: 0 <= k < |finals| ==> Read(after, finals[k]) == Read(before, finals[k])
  }

  /** The body of the `try`: both loops. */
  method Attempt(fs: FileSystem, staged: seq<FilePath>, finals: seq<FilePath>, replace: bool, stagingDir: string)
    returns (backups: seq<(FilePath, FilePath)>, ghost i: nat, ghost j: nat, ok: bool)
    requires FinalsApart(finals, stagingDir) && StagedApart(staged, finals, stagingDir)
    modifies fs
    ensures var inputs := Inputs(fs.faults, old(fs.clock), old(fs.files), staged, finals, replace);
      && i == inputs.Considered() && j == inputs.Done() && (ok <==> inputs.Promotes())
      && (!ok ==> fs.clock == inputs.LoopsEnd())
    ensures i <= |finals| && j <= |staged| && j <= |finals|
      && (i < |finals| ==> j == 0 && !ok && finals[i] in old(fs.files))
    ensures ok ==> i == j == |finals| == |staged|
    ensures fs.files == Reached(old(fs.files), staged, finals, stagingDir, i, j)
    ensures var taken := Taken(old(fs.files), finals, i);
      backups == seq(|taken|, k requires 0 <= k < |taken| => (taken[k], Backup(stagingDir, taken[k])))
    ensures forall k :: 0 <= k < j ==> staged[k] in old(fs.files)
  {
    ghost var before := fs.files;
    var backedUp, considered, renamed;
    backups, considered, backedUp := BackUp(fs, finals, replace, stagingDir);
    i, j := considered, 0;
    ghost var aside := fs.files;
    assert forall k :: 0 <= k < |staged| ==> Read(aside, staged[k]) == Read(before, staged[k]) by {
      AsideFacts(before, staged, finals, stagingDir, i);
    }
    if !backedUp {
      return backups, i, 0, false;
    }
    ghost var start := fs.clock;
    renamed, ok := RenameAll(fs, staged, finals, stagingDir);
    j := renamed;
    RenamesDone(Inputs(fs.faults, old(fs.clock), before, staged, finals, replace), aside, start, j, ok);
  }

  /** Where the second loop ends, when the first was stopped at no final. */
  lemma {:induction false} RenamesDone(inputs: Inputs, aside: map<FilePath, Content>, start: nat, j: nat, ok: bool)
    requires inputs.Considered() == |inputs.finals|
    requires start == RenameStart(inputs.clock, inputs.before, inputs.finals)
    requires forall k :: 0 <= k < |inputs.staged| ==>
      Read(aside, inputs.staged[k]) == Read(inputs.before, inputs.staged[k])
    requires j <= Shorter(inputs.staged, inputs.finals) && (ok <==> j == |inputs.staged| == |inputs.finals|)
    requires forall k :: 0 <= k < j ==> RenameWorks(inputs.faults, start, aside, inputs.staged, k)
    requires j < Shorter(inputs.staged, inputs.finals) ==> !RenameWorks(inputs.faults, start, aside, inputs.staged, j)
    ensures j == inputs.Done() && (ok <==> inputs.Promotes())
    ensures start + j + (if j < Shorter(inputs.staged, inputs.finals) then 1 else 0) == inputs.LoopsEnd()
    ensures forall k :: 0 <= k < j ==> inputs.staged[k] in inputs.before
  {
    forall k | 0 <= k < |inputs.staged|
      ensures RenameWorks(inputs.faults, start, aside, inputs.staged, k) <==>
        RenameWorks(inputs.faults, start, inputs.before, inputs.staged, k)
    {
      assert Read(aside, inputs.staged[k]) == Read(inputs.before, inputs.staged[k]);
    }
    forall k | 0 <= k < j ensures inputs.staged[k] in inputs.before {
      assert RenameWorks(inputs.faults, start, aside, inputs.staged, k);
      assert Read(aside, inputs.staged[k]) == Read(inputs.before, inputs.staged[k]);
    }
  }

  /** The `except` handler: it runs to its end exactly when none of its operations is faulted; `a` finals
      were unlinked and `b` backups moved back. */
  method RollBack(fs: FileSystem, staged: seq<FilePath>, finals: seq<FilePath>, stagingDir: string,
                  backups: seq<(FilePath, FilePath)>, ghost before: map<FilePath, Content>, ghost i: nat, ghost j: nat)
    returns (ok: bool, ghost a: nat, ghost b: nat)
    requires FinalsApart(finals, stagingDir) && StagedApart(staged, finals, stagingDir)
    requires i <= |finals| && j <= |staged| && j <= |finals| && (i < |finals| ==> j == 0 && finals[i] in before)
    requires fs.files == Reached(before, staged, finals, stagingDir, i, j)
    requires var taken := Taken(before, finals, i);
      backups == seq(|taken|, k requires 0 <= k < |taken| => (taken[k], Backup(stagingDir, taken[k])))
    requires forall k :: 0 <= k < j ==> staged[k] in before
    modifies fs
    ensures ok <==> Quiet(fs.faults, old(fs.clock), j + |Taken(before, finals, |finals|)|)
    ensures a <= |finals| && b <= |Taken(before, finals, i)|
    ensures ok ==> a == |finals| && b == |Taken(before, finals, i)|
    ensures fs.files == RolledBack(before, staged, finals, stagingDir, i, j, a, b)
  {
    ghost var taken, from := Taken(before, finals, i), fs.clock;
    ghost var present := |Taken(fs.files, finals, |finals|)|;
    BackupsStand(before, staged, finals, stagingDir, i, j);
    HandlerOperations(before, staged, finals, stagingDir, i, j);
    QuietBoth(fs.faults, from, present, |taken|);
    var unlinkedFinals, unlinked := UnlinkFinals(fs, finals, backups, stagingDir);
    a, b := unlinkedFinals, 0;
    if !unlinked {
      return false, a, 0;
    }
    var moved, restored := RestoreBackups(fs, stagingDir, taken, backups);
    ok, b := restored, moved;
  }

  /** What a complete handler leaves is settled. */
  lemma {:induction false} RolledBackSettles(before: map<FilePath, Content>, staged: seq<FilePath>,
                                             finals: seq<FilePath>, stagingDir: string, i: nat, j: nat)
    requires FinalsApart(finals, stagingDir) && StagedApart(staged, finals, stagingDir)
    requires i <= |finals| && j <= |staged| && j <= |finals| && (i < |finals| ==> j == 0 && finals[i] in before)
    requires forall k :: 0 <= k < j ==> staged[k] in before
    ensures Settled(if i < |finals| then BackupFailed(i) else RenameFailed(j), before,
                    RolledBack(before, staged, finals, stagingDir, i, j, |finals|, |Taken(before, finals, i)|),
                    staged, finals, stagingDir)
  {
    RolledBackFacts(before, staged, finals, stagingDir, i, j);
  }

  /** `_promote_targets`, for any number of files: how the run ends is decided by its inputs.

      A run without an error leaves every final with its staged content.  When the handler is not faulted
      after an error, every final is as it was exactly if no backup stopped the first loop; otherwise the
      finals that were not yet backed up are lost.  When the handler itself fails, each final that was moved
      aside survives in its place or as its backup. */
  method PromoteTargets(fs: FileSystem, staged: seq<FilePath>, finals: seq<FilePath>, replace: bool, stagingDir: string)
    returns (ghost outcome: Outcome, ok: bool)
    requires FinalsApart(finals, stagingDir) && StagedApart(staged, finals, stagingDir)
    modifies fs
    ensures var inputs := Inputs(fs.faults, old(fs.clock), old(fs.files), staged, finals, replace);
      outcome == inputs.Ending() && (ok <==> inputs.Promotes()) && inputs.RestoresExactly(fs.files)
    ensures Settled(outcome, old(fs.files), fs.files, staged, finals, stagingDir)
  {
    ghost var before, inputs := fs.files, Inputs(fs.faults, fs.clock, fs.files, staged, finals, replace);
    outcome := inputs.Ending();
    var backups;
    ghost var i, j;
    backups, i, j, ok := Attempt(fs, staged, finals, replace, stagingDir);
    if ok {
      PromotedSettles(before, staged, finals, stagingDir);
      return;
    }
    var clean, a, b := RollBack(fs, staged, finals, stagingDir, backups, before, i, j);
    RestorationExact(inputs, stagingDir, a, b);
  }

  /** However far the handler got, the files are settled as the inputs say; and if none of its operations is
      faulted, the finals are as before exactly when the first loop was not stopped at any final. */
  lemma {:induction false} RestorationExact(inputs: Inputs, stagingDir: string, a: nat, b: nat)
    requires FinalsApart(inputs.finals, stagingDir) && StagedApart(inputs.staged, inputs.finals, stagingDir)
    requires !inputs.Promotes()
    requires a <= |inputs.finals| && b <= |Taken(inputs.before, inputs.finals, inputs.Considered())|
    requires inputs.HandlerQuiet() ==>
      a == |inputs.finals| && b == |Taken(inputs.before, inputs.finals, inputs.Considered())|
    ensures var after := RolledBack(inputs.before, inputs.staged, inputs.finals, stagingDir,
                                    inputs.Considered(), inputs.Done(), a, b);
      Settled(inputs.Ending(), inputs.before, after, inputs.staged, inputs.finals, stagingDir)
      && inputs.RestoresExactly(after)
  {
    var Inputs(_, _, before, staged, finals, _) := inputs;
    var i, j := inputs.Considered(), inputs.Done();
    EndingExact(inputs);
    forall k | 0 <= k < j ensures staged[k] in before {
      assert RenameWorks(inputs.faults, RenameStart(inputs.clock, before, finals), before, staged, k);
    }
    if inputs.HandlerQuiet() {
      RolledBackSettles(before, staged, finals, stagingDir, i, j);
    } else {
      CleanupSettles(before, staged, finals, stagingDir, i, j, a, b);
    }
    SettledRestores(inputs, RolledBack(before, staged, finals, stagingDir, i, j, a, b), stagingDir);
  }

  lemma {:induction false} EndingExact(inputs: Inputs)
    ensures inputs.Considered() < |inputs.finals| <==>
      SomeBackupStops(inputs.faults, inputs.clock, inputs.before, inputs.finals, inputs.replace)
  {
  }

  lemma {:induction false} SettledRestores(inputs: Inputs, after: map<FilePath, Content>, stagingDir: string)
    requires Settled(inputs.Ending(), inputs.before, after, inputs.staged, inputs.finals, stagingDir)
    ensures inputs.RestoresExactly(after)
  {
    EndingExact(inputs);
    var i := inputs.Considered();
    if i < |inputs.finals| && !inputs.Promotes() && inputs.HandlerQuiet() {
      assert Read(after, inputs.finals[i]) == None && inputs.finals[i] in inputs.before;
    }
  }

  /** A run that loses a final: the only faulted operation is the move of the existing final to its backup.
      All that is left is the staged file. */
  method LoseAFinal() returns (fs: FileSystem, ghost before: map<FilePath, Content>)
    ensures fresh(fs) && forall t :: fs.faults(t) <==> t == 0
    ensures before == map[FilePath("staging", "new.sqlite3") := "new", FilePath("output", "old.sqlite3") := "old"]
    ensures fs.files == map[FilePath("staging", "new.sqlite3") := "new"]
  {
    var staged, final := FilePath("staging", "new.sqlite3"), FilePath("output", "old.sqlite3");
    fs := new FileSystem(t => t == 0, map[staged := "new", final := "old"]);
    before := fs.files;
    ghost var inputs := Inputs(fs.faults, 0, before, [staged], [final], true);
    assert Taken(before, [final], 0) == [] && Taken(before, [final], 1) == [final];
    assert BackupStopsAt(fs.faults, 0, before, [final], true, 0);
    ghost var outcome;
    var ok;
    outcome, ok := PromoteTargets(fs, [staged], [final], true, "staging");
    assert outcome == BackupFailed(0);
    ghost var finals := [final];
    assert Read(fs.files, finals[0]) == None && Read(fs.files, [staged][0]) == Some("new");
    assert Read(fs.files, Backup("staging", finals[0])) == None;
    forall p | p != staged ensures p !in fs.files {
      if p != final && p != Backup("staging", final) { assert Read(fs.files, p) == Read(before, p); }
    }
  }

  /** The paths `stage_local_catalog` uses are laid out as the promotion needs them. */
  lemma {:induction false} StageLayout(outputDir: string, stagingDir: string)
    requires stagingDir != outputDir
    ensures FinalsApart([FilePath(outputDir, "knowledge-platform.sqlite3"), FilePath(outputDir, "harness.sqlite3")],
                        stagingDir)
    ensures StagedApart([FilePath(stagingDir, "knowledge-platform.sqlite3"), FilePath(stagingDir, "harness.sqlite3")],
                        [FilePath(outputDir, "knowledge-platform.sqlite3"), FilePath(outputDir, "harness.sqlite3")],
                        stagingDir)
  {
    var a, b := "knowledge-platform.sqlite3", "harness.sqlite3";
    assert a[0] != b[0];
    assert (a + ".previous")[0] == a[0] && (b + ".previous")[0] == b[0];
    assert |a + ".previous"| == |a| + 9 && |b + ".previous"| == |b| + 9;
  }
}
