/**
 The exact-file-set check of a backup directory.  The hash and the scan for secrets are uninterpreted.
 */
module BackupSet {
  import opened Wrappers
  import opened Strings
  import opened RelativePaths

  /** What is found below the backup directory; a link to a readable file has its content. */
  datatype Entry = Regular(content: string) | Directory | Link(target: Option<string>) | Special

  type Place = seq<string>

  type Tree = map<Place, Entry>

  /** The declared descriptor of a file; `Invalid` is one that is not an object. */
  datatype Descriptor = Invalid | Descriptor(bytes: int, sha256: string)

  type Declared = seq<(string, Descriptor)>

  /** Places have proper names, and what lies below something lies in a directory. */
  ghost predicate WellFormed(tree: Tree) {
    && (forall place ::
        place in tree ==> place != [] && forall i :: 0 <= i < |place| ==> place[i] != "" && '/' !in place[i])
    && (forall place ::
        place in tree && |place| > 1 ==> place[..|place| - 1] in tree && tree[place[..|place| - 1]].Directory?)
  }

  ghost predicate DistinctNames(files: Declared) {
    forall i, j :: 0 <= i < j < |files| ==> files[i].0 != files[j].0
  }

  const MANIFEST := "manifest.json"
  const PLATFORM := "platform.json"

  function Name(place: Place): string {
    if place == [] then "" else place[|place| - 1]
  }

  /** `rglob("*")` without everything that is named like the manifest, at any depth. */
  function Listed(tree: Tree): set<Place> {
    set place | place in tree && Name(place) != MANIFEST
  }

  function ActualFiles(tree: Tree): set<string> {
    set place | place in tree && Name(place) != MANIFEST && tree[place].Regular? :: Join(place)
  }

  function DeclaredNames(files: Declared): set<string> {
    set i | 0 <= i < |files| :: files[i].0
  }

  /** `len(content)` and the digest are those declared, and nothing looks like a secret. */
  predicate ContentMatches(content: string, descriptor: Descriptor, digest: string -> string, secret: string -> bool) {
    descriptor.Descriptor? && !secret(content) && descriptor.bytes == |content| && descriptor.sha256 == digest(content)
  }

  /** The manifest could be read: there is one, and it is a file or a link to one. */
  predicate ManifestReadable(tree: Tree) {
    [MANIFEST] in tree && (tree[[MANIFEST]].Regular? || (tree[[MANIFEST]].Link? && tree[[MANIFEST]].target.Some?))
  }

  /** The declared files are the regular files at the top of the directory, and there is nothing else. */
  ghost predicate FlatAndExact(tree: Tree, files: Declared) {
    && (forall place :: place in tree ==> |place| == 1)
    && (forall name :: name in DeclaredNames(files) <==> name != MANIFEST && [name] in tree)
    && (forall name :: name in DeclaredNames(files) ==> [name] in tree && tree[[name]].Regular? && PlainFileName(name))
  }

  /** A portable name without a separator. */
  predicate PlainFileName(name: string) {
    AllPortable(name) && '/' !in name && name != "" && name != ".."
  }

  ghost predicate AllMatch(tree: Tree, files: Declared, digest: string -> string, secret: string -> bool) {
    forall i :: 0 <= i < |files| ==> MatchesAt(tree, files[i], digest, secret)
  }

  ghost predicate MatchesAt(tree: Tree, file: (string, Descriptor), digest: string -> string, secret: string -> bool) {
    [file.0] in tree && tree[[file.0]].Regular? && ContentMatches(tree[[file.0]].content, file.1, digest, secret)
  }

  predicate AllRegular(tree: Tree) {
    forall place :: place in Listed(tree) ==> tree[place].Regular?
  }

  predicate SetsAgree(tree: Tree, files: Declared) {
    ActualFiles(tree) == DeclaredNames(files) && forall name :: name in DeclaredNames(files) ==> PortableRelative(name)
  }

  lemma {:induction false} DirectoryIsListed(tree: Tree, place: Place)
    requires ManifestReadable(tree)
    requires |place| == 1 && place in tree && tree[place].Directory?
    ensures place in Listed(tree)
  {
    assert place == [Name(place)];
  }

  /** A directory anywhere fails the check unless it is named like the manifest; so nothing is nested. */
  lemma {:induction false} AcceptedIsFlat(tree: Tree, place: Place)
    requires WellFormed(tree) && ManifestReadable(tree)
    requires AllRegular(tree) && place in tree
    ensures |place| == 1
    decreases |place|
  {
    if |place| > 1 {
      var parent := place[..|place| - 1];
      AcceptedIsFlat(tree, parent);
      DirectoryIsListed(tree, parent);
      assert false;
    }
  }

  lemma {:induction false} PortableAtTop(name: string)
    requires '/' !in name
    ensures PortableRelative(name) <==> PlainFileName(name)
  {
    PortableRelativeExact(name);
    SplitOfJoin([name]);
    assert Join([name]) == name;
    if name != "" { assert name[0] in name; }
  }

  /** The set comparison and the pattern accept exactly the flat sets. */
  lemma {:induction false} FileSetExact(tree: Tree, files: Declared)
    requires WellFormed(tree) && ManifestReadable(tree)
    ensures AllRegular(tree) && SetsAgree(tree, files) <==> FlatAndExact(tree, files)
  {
    if AllRegular(tree) && SetsAgree(tree, files) {
      forall place | place in tree ensures |place| == 1 { AcceptedIsFlat(tree, place); }
      ActualAtTop(tree);
      forall name | name in DeclaredNames(files) ensures PlainFileName(name) {
        assert '/' !in [name][0];
        PortableAtTop(name);
      }
    }
    if FlatAndExact(tree, files) {
      ActualAtTop(tree);
      forall p | p in Listed(tree) ensures tree[p].Regular? { assert p == [p[0]]; }
      forall name ensures name in ActualFiles(tree) <==> name in DeclaredNames(files) {
        assert name in ActualFiles(tree) <==> [name] in tree && name != MANIFEST && tree[[name]].Regular?;
      }
      forall name | name in DeclaredNames(files) ensures PortableRelative(name) {
        assert '/' !in [name][0];
        PortableAtTop(name);
      }
    }
  }

  lemma {:induction false} ActualAtTop(tree: Tree)
    requires WellFormed(tree) && forall place :: place in tree ==> |place| == 1
    ensures forall name :: name in ActualFiles(tree) <==> [name] in tree && name != MANIFEST && tree[[name]].Regular?
  {
    forall name ensures name in ActualFiles(tree) <==> [name] in tree && name != MANIFEST && tree[[name]].Regular? {
      if name in ActualFiles(tree) {
        var place :| place in tree && Name(place) != MANIFEST && tree[place].Regular? && Join(place) == name;
        assert place == [name];
      }
      if [name] in tree && name != MANIFEST && tree[[name]].Regular? {
        assert Name([name]) == name && Join([name]) == name;
      }
    }
  }

  /** The manifest of a backup.  A flag is `None` when it is missing or no boolean; `projectionDigest` is the
      digest of the manifest without its own digest; `files` is `None` when it is no object. */
  datatype Manifest = Manifest(
    schemaValid: bool, schemaVersion: int, format: string, status: string, owner: string,
    activationAllowed: Option<bool>, executionAllowed: Option<bool>, secretBytesCopied: Option<bool>,
    sourceDataMutation: Option<bool>, legacyClawMutation: Option<bool>,
    manifestDigest: string, projectionDigest: string, files: Option<Declared>)

  /** The boundary of the manifest and its own digest. */
  predicate BoundaryHolds(m: Manifest) {
    && m.schemaValid && m.schemaVersion == 1
    && m.format == "agent-knowledge-platform-backup/v1" && m.status == "snapshot_created"
    && m.owner == "puddingknowledge"
    && m.activationAllowed == m.executionAllowed == m.secretBytesCopied == Some(false)
    && m.sourceDataMutation == m.legacyClawMutation == Some(false)
    && IsDigest(m.manifestDigest) && m.manifestDigest == m.projectionDigest
  }

  /** `_validate_backup`: a backup passes exactly when it is a real directory whose manifest holds its
      boundary and carries its own digest, and that holds nothing but the manifest and, at the top, the
      declared regular files with plain portable names, every file with its declared size and digest and no
      secret.  `manifest` is absent when the file holds no object. */
  method ValidateBackup(realDirectory: bool, tree: Tree, manifest: Option<Manifest>, digest: string -> string,
                        secret: string -> bool)
    returns (fileCount: Option<nat>)
    requires WellFormed(tree)
      && (manifest.Some? && manifest.value.files.Some? ==> DistinctNames(manifest.value.files.value))
    ensures fileCount.Some? <==>
      && realDirectory && ManifestReadable(tree) && manifest.Some? && BoundaryHolds(manifest.value)
      && manifest.value.files.Some? && PLATFORM in DeclaredNames(manifest.value.files.value)
      && FlatAndExact(tree, manifest.value.files.value) && AllMatch(tree, manifest.value.files.value, digest, secret)
    ensures fileCount.Some? ==> fileCount.value == |manifest.value.files.value|
  {
    if !realDirectory || [MANIFEST] !in tree {
      return None;
    }
    var entry := tree[[MANIFEST]];
    if !entry.Regular? && !(entry.Link? && entry.target.Some?) {
      return None;
    }
    if manifest.None? {
      return None;
    }
    var m := manifest.value;
    var holds := CheckBoundary(m);
    if !holds || m.files.None? {
      return None;
    }
    var files := m.files.value;
    if PLATFORM !in DeclaredNames(files) {
      return None;
    }
    FileSetExact(tree, files);
    if !AllRegular(tree) || !SetsAgree(tree, files) {
      return None;
    }
    var ok := CheckFiles(tree, files, digest, secret);
    fileCount := if ok then Some(|files|) else None;
  }

  /** The checks of the manifest itself. */
  method CheckBoundary(m: Manifest) returns (ok: bool)
    ensures ok <==> BoundaryHolds(m)
  {
    if !m.schemaValid {
      return false;
    }
    if m.schemaVersion != 1 || m.format != "agent-knowledge-platform-backup/v1" || m.status != "snapshot_created"
      || m.owner != "puddingknowledge" {
      return false;
    }
    if m.activationAllowed != Some(false) || m.executionAllowed != Some(false) || m.secretBytesCopied != Some(false)
      || m.sourceDataMutation != Some(false) || m.legacyClawMutation != Some(false) {
      return false;
    }
    ok := IsDigest(m.manifestDigest) && m.manifestDigest == m.projectionDigest;
  }

  /** The loop over the declared files. */
  method CheckFiles(tree: Tree, files: Declared, digest: string -> string, secret: string -> bool) returns (ok: bool)
    requires FlatAndExact(tree, files)
    ensures ok <==> AllMatch(tree, files, digest, secret)
  {
    for i := 0 to |files|
      invariant forall j :: 0 <= j < i ==> MatchesAt(tree, files[j], digest, secret)
    {
      var (relative, descriptor) := files[i];
      assert relative in DeclaredNames(files);
      if descriptor.Invalid? {
        assert !MatchesAt(tree, files[i], digest, secret);
        return false;
      }
      var content := tree[[relative]].content;
      if descriptor.bytes != |content| || descriptor.sha256 != digest(content) || secret(content) {
        assert !MatchesAt(tree, files[i], digest, secret);
        return false;
      }
    }
    ok := true;
  }

  /** With an injective digest, a backup that passes has the contents its descriptors were made from. */
  lemma {:induction false} PassedContents(tree: Tree, files: Declared, digest: string -> string, secret: string -> bool,
                                          original: map<string, string>)
    requires FlatAndExact(tree, files) && AllMatch(tree, files, digest, secret)
    requires forall x, y :: digest(x) == digest(y) ==> x == y
    requires original.Keys == DeclaredNames(files)
    requires forall i :: 0 <= i < |files| ==>
      files[i].1 == Descriptor(|original[files[i].0]|, digest(original[files[i].0]))
    ensures forall name :: name in original ==> [name] in tree && tree[[name]] == Regular(original[name])
  {
    forall name | name in original ensures [name] in tree && tree[[name]] == Regular(original[name]) {
      var i :| 0 <= i < |files| && files[i].0 == name;
      assert MatchesAt(tree, files[i], digest, secret);
    }
  }
}
