/**
 Seeding a development clone from a snapshot while the source checkout may change under the run.

 The source is a tree for every moment; each look at it happens at a later moment than the one before.
 Only the run itself changes the clone.  Git is not modelled: `head` is what `git rev-parse HEAD` answers
 in the source, and a commit records the clone as it is.
 */
module DevelopmentExtraction {
  import opened Wrappers
  import opened Strings
  import opened Ordering
  import opened RelativePaths

  /** A link resolves to the content and mode of a file, or to nothing. */
  datatype Node = File(content: string, mode: string) | Directory | Link(target: Option<(string, string)>)

  type Place = seq<string>

  type Tree = map<Place, Node>

  datatype Record = Record(path: string, sha256: Option<string>, bytes: int, mode: string)

  const MAPPING_NAME := "DEVELOPMENT_EXTRACTION_ROOT_MAPPING.json"

  // ---------------------------------------------------------------- looking at a tree

  predicate IsLink(tree: Tree, p: Place) {
    p in tree && tree[p].Link?
  }

  predicate Exists(tree: Tree, p: Place) {
    p in tree && (tree[p].Link? ==> tree[p].target.Some?)
  }

  /** Content and mode of a regular file, through a link if need be. */
  function Reads(tree: Tree, p: Place): Option<(string, string)> {
    if p !in tree then None
    else
      match tree[p]
      case File(content, mode) => Some((content, mode))
      case Link(target) => target
      case Directory => None
  }

  /** `_safe_relative`: a safe name, and no link on the way or at the end. */
  predicate SafeIn(tree: Tree, relative: string) {
    SafeName(relative) && forall k :: 1 <= k <= |Split(relative)| ==> !IsLink(tree, Split(relative)[..k])
  }

  /** A snapshot record describes what the tree holds at its path. */
  predicate RecordHolds(tree: Tree, r: Record, digest: string -> string) {
    && SafeIn(tree, r.path)
    && match r.sha256
       case None => !Exists(tree, Split(r.path))
       case Some(sha) => FileHolds(tree, r, sha, digest)
  }

  predicate FileHolds(tree: Tree, r: Record, sha256: string, digest: string -> string) {
    var found := Reads(tree, Split(r.path));
    found.Some? && found.value.1 == r.mode && |found.value.0| == r.bytes && digest(found.value.0) == sha256
  }

  // ---------------------------------------------------------------- changing the clone

  /** `mkdir(parents=True, exist_ok=True)` for the first `n` ancestors. */
  function WithParents(tree: Tree, p: Place, n: nat): Option<Tree>
    requires n <= |p|
  {
    if n == 0 then Some(tree)
    else
      match WithParents(tree, p, n - 1)
      case None => None
      case Some(t) =>
        if p[..n] !in t then Some(t[p[..n] := Directory])
        else if t[p[..n]].Directory? then Some(t) else None
  }

  function Written(tree: Tree, p: Place, content: string, mode: string): Tree {
    tree[p := if IsLink(tree, p) then Link(Some((content, mode))) else File(content, mode)]
  }

  /** `shutil.copy2`: a directory as destination receives the file under its own name. */
  function CopyInto(tree: Tree, p: Place, content: string, mode: string): Option<Tree>
    requires p != []
  {
    if p in tree && tree[p].Directory? then
      var inner := p + [p[|p| - 1]];
      if inner in tree && tree[inner].Directory? then None else Some(Written(tree, inner, content, mode))
    else Some(Written(tree, p, content, mode))
  }

  /** Where a copy goes: over a file or nothing as a file, through a link, into a directory under its own name, and
      nowhere when a directory has that name. */
  lemma {:induction false} CopyIntoExact(tree: Tree, p: Place, content: string, mode: string)
    requires p != []
    ensures var inside := p in tree && tree[p].Directory?;
      var at := if inside then p + [p[|p| - 1]] else p;
      CopyInto(tree, p, content, mode) ==
        if at !in tree then Some(tree[at := File(content, mode)])
        else match tree[at]
          case File(_, _) => Some(tree[at := File(content, mode)])
          case Link(_) => Some(tree[at := Link(Some((content, mode)))])
          case Directory => None
  {
    var inner := p + [p[|p| - 1]];
    assert inner in tree ==> tree[inner].File? || tree[inner].Link? || tree[inner].Directory?;
  }

  datatype Observed = Absent | Present(content: string, mode: string)

  /** One turn of the copy loop, given what the source showed. */
  function CopyStep(clone: Tree, relative: string, observed: Observed): Option<Tree> {
    if !SafeIn(clone, relative) then None
    else
      var p := Split(relative);
      match WithParents(clone, p, |p| - 1)
      case None => None
      case Some(t) => PutInPlace(t, p, observed)
  }

  /** The copy or the deletion, once the parents are there. */
  function PutInPlace(tree: Tree, p: Place, observed: Observed): Option<Tree>
    requires p != []
  {
    match observed
    case Present(content, mode) => CopyInto(tree, p, content, mode)
    case Absent => if p in tree && tree[p].File? then Some(tree - {p}) else None
  }

  // ---------------------------------------------------------------- what one turn keeps

  /** The path is none of the selected ones. */
  ghost predicate Unselected(p: Place, selected: seq<string>) {
    forall r :: r in selected ==> p != Split(r)
  }

  /** Outside the selected paths nothing changed but for new parent directories. */
  ghost predicate OthersKept(before: Tree, after: Tree, selected: seq<string>) {
    forall p :: Unselected(p, selected) ==> SameAt(before, after, p) || NewParent(before, after, p, selected)
  }

  predicate SameAt(before: Tree, after: Tree, p: Place) {
    (p in before <==> p in after) && (p in before ==> after[p] == before[p])
  }

  ghost predicate NewParent(before: Tree, after: Tree, p: Place, selected: seq<string>) {
    p !in before && p in after && after[p].Directory? && exists r :: r in selected && p < Split(r)
  }

  /** A selected path ended up as a directory. */
  ghost predicate Spoiled(tree: Tree, selected: seq<string>) {
    exists r :: r in selected && Split(r) in tree && tree[Split(r)].Directory?
  }

  ghost predicate AllParentsStand(tree: Tree, selected: seq<string>) {
    forall r :: r in selected ==> ParentsStand(tree, r)
  }

  lemma {:induction false} ParentsStandOn(before: Tree, after: Tree, selected: seq<string>, i: nat)
    requires i < |selected| && AllParentsStand(before, selected[..i]) && DirectoriesStay(before, after)
    requires ParentsStand(after, selected[i])
    ensures AllParentsStand(after, selected[..i + 1])
  {
    assert selected[..i + 1] == selected[..i] + [selected[i]];
    forall r | r in selected[..i] ensures ParentsStand(after, r) { assert ParentsStand(before, r); }
  }

  ghost predicate DirectoriesStay(before: Tree, after: Tree) {
    forall p :: p in before && before[p].Directory? ==> p in after && after[p].Directory?
  }

  lemma {:induction false} ParentsFacts(tree: Tree, p: Place, n: nat)
    requires n <= |p| && WithParents(tree, p, n).Some?
    ensures var t := WithParents(tree, p, n).value;
      && (forall q :: q in tree ==> q in t && t[q] == tree[q])
      && (forall q :: q in t && q !in tree ==> t[q].Directory? && q != [] && q <= p && |q| <= n)
  {
    if n > 0 {
      ParentsFacts(tree, p, n - 1);
    }
  }

  lemma {:induction false} ParentsStuck(tree: Tree, p: Place, n: nat, m: nat)
    requires n <= m <= |p| && WithParents(tree, p, n).None?
    ensures WithParents(tree, p, m).None?
  {
    if n < m { ParentsStuck(tree, p, n, m - 1); }
  }

  lemma {:induction false} ParentsKeep(tree: Tree, relative: string, n: nat)
    requires n < |Split(relative)| && WithParents(tree, Split(relative), n).Some?
    ensures var t := WithParents(tree, Split(relative), n).value;
      DirectoriesStay(tree, t) && OthersKept(tree, t, [relative])
  {
    var p := Split(relative);
    var t := WithParents(tree, p, n).value;
    ParentsFacts(tree, p, n);
    forall q | Unselected(q, [relative]) ensures SameAt(tree, t, q) || NewParent(tree, t, q, [relative]) {
      assert relative in [relative];
      if q in t && q !in tree { assert q < p; }
    }
  }

  /** All ancestors of a path are directories. */
  ghost predicate ParentsStand(tree: Tree, relative: string) {
    forall k :: 1 <= k < |Split(relative)| ==> Split(relative)[..k] in tree && tree[Split(relative)[..k]].Directory?
  }

  lemma {:induction false} CopyStepParents(clone: Tree, relative: string, observed: Observed)
    requires CopyStep(clone, relative, observed).Some?
    ensures ParentsStand(CopyStep(clone, relative, observed).value, relative)
  {
    var p := Split(relative);
    ParentsExact(clone, p, |p| - 1);
    forall k | 1 <= k < |p|
      ensures p[..k] in CopyStep(clone, relative, observed).value
        && CopyStep(clone, relative, observed).value[p[..k]].Directory?
    {
      assert |p[..k]| == k;
      assert |p + [p[|p| - 1]]| > |p|;
    }
  }

  /** One turn leaves directories alone, and either touches only its own path, apart from new parents, or
      leaves its own path a directory. */
  lemma {:induction false} CopyStepKeeps(clone: Tree, relative: string, observed: Observed)
    requires CopyStep(clone, relative, observed).Some?
    ensures var after := CopyStep(clone, relative, observed).value;
      && DirectoriesStay(clone, after)
      && (OthersKept(clone, after, [relative]) || Spoiled(after, [relative]))
  {
    var p := Split(relative);
    var after := CopyStep(clone, relative, observed).value;
    var t := WithParents(clone, p, |p| - 1).value;
    ParentsFacts(clone, p, |p| - 1);
    assert relative in [relative];
    if observed.Present? && p in t && t[p].Directory? {
      assert Spoiled(after, [relative]);
    } else {
      forall q | Unselected(q, [relative])
        ensures SameAt(clone, after, q) || NewParent(clone, after, q, [relative])
      {
        assert q != p;
        assert q in t <==> q in after;
        if q in t && q !in clone {
          assert q < Split(relative);
        }
      }
    }
  }

  lemma {:induction false} KeepsCompose(a: Tree, b: Tree, c: Tree, selected: seq<string>, relative: string)
    requires relative in selected
    requires OthersKept(a, b, selected) || Spoiled(b, selected)
    requires DirectoriesStay(b, c)
    requires OthersKept(b, c, [relative]) || Spoiled(c, [relative])
    ensures OthersKept(a, c, selected) || Spoiled(c, selected)
  {
    if Spoiled(b, selected) {
      var r :| r in selected && Split(r) in b && b[Split(r)].Directory?;
      assert Split(r) in c && c[Split(r)].Directory?;
    } else if Spoiled(c, [relative]) {
      assert Split(relative) in c && c[Split(relative)].Directory?;
    } else {
      forall p | Unselected(p, selected)
        ensures SameAt(a, c, p) || NewParent(a, c, p, selected)
      {
        assert Unselected(p, [relative]);
        if p !in b && p in c {
          assert p < Split(relative);
        }
      }
    }
  }

  // ---------------------------------------------------------------- the run

  /** The destination check of a record: a deleted path is gone, another holds the recorded file. */
  predicate AgreesAt(clone: Tree, r: Record, digest: string -> string) {
    && SafeIn(clone, r.path)
    && match r.sha256
       case None => !Exists(clone, Split(r.path))
       case Some(sha) =>
         && Split(r.path) in clone && clone[Split(r.path)].File?
         && digest(clone[Split(r.path)].content) == sha
         && |clone[Split(r.path)].content| == r.bytes
         && clone[Split(r.path)].mode == r.mode
  }

  /** The digest of a file that was not deleted, read through a safe name. */
  predicate DigestAt(clone: Tree, r: Record, digest: string -> string)
    requires r.sha256.Some?
  {
    && SafeIn(clone, r.path) && Reads(clone, Split(r.path)).Some?
    && digest(Reads(clone, Split(r.path)).value.0) == r.sha256.value
  }

  ghost predicate Agrees(clone: Tree, records: seq<Record>, digest: string -> string) {
    forall r :: r in records ==> AgreesAt(clone, r, digest)
  }

  function ByText(): string -> seq<string> {
    (p: string) => [p]
  }

  function Paths(records: seq<Record>): seq<string> {
    seq(|records|, i requires 0 <= i < |records| => records[i].path)
  }

  /** What the source shows at a path when the copy loop asks; `None` raises. */
  function Observe(tree: Tree, relative: string): Option<Observed> {
    if !Exists(tree, Split(relative)) then Some(Absent)
    else
      match Reads(tree, Split(relative))
      case Some(found) => Some(Present(found.0, found.1))
      case None => None
  }

  /** The copy loop against a source that stands still. */
  function StaticCopy(source: Tree, clone: Tree, selected: seq<string>): Option<Tree> {
    if selected == [] then Some(clone)
    else
      var last := selected[|selected| - 1];
      match StaticCopy(source, clone, selected[..|selected| - 1])
      case None => None
      case Some(t) =>
        TurnOf(source, t, last)
  }

  /** The copy loop, given what the source showed at every turn. */
  function Replayed(clone: Tree, selected: seq<string>, trace: seq<Observed>): Option<Tree>
    requires |trace| == |selected|
  {
    if selected == [] then Some(clone)
    else
      var n := |selected| - 1;
      match Replayed(clone, selected[..n], trace[..n])
      case None => None
      case Some(t) => CopyStep(t, selected[n], trace[n])
  }

  function TurnOf(source: Tree, clone: Tree, relative: string): Option<Tree> {
    if !SafeIn(source, relative) || Observe(source, relative).None? then None
    else CopyStep(clone, relative, Observe(source, relative).value)
  }

  /** When a run began, and when it had planned, verified, copied and rechecked. */
  datatype Moments = Moments(begun: nat, planned: nat, verified: nat, copied: nat, rechecked: nat)

  class Run {
    const source: nat -> Tree
    const head: nat -> string
    const digest: string -> string
    const faults: nat -> bool
    const leftovers: nat -> Option<(string, string)>
    var now: nat
    var clone: Tree

    /** `leftovers` is what a copy that fails half way leaves at its destination: content and mode, or nothing. */
    constructor (source: nat -> Tree, head: nat -> string, digest: string -> string, faults: nat -> bool,
                 leftovers: nat -> Option<(string, string)>, clone: Tree)
      ensures this.source == source && this.head == head && this.digest == digest && this.faults == faults
      ensures this.leftovers == leftovers && this.clone == clone && now == 0
    {
      this.source, this.head, this.digest, this.faults := source, head, digest, faults;
      this.leftovers := leftovers;
      this.clone := clone;
      now := 0;
    }

    /** From a moment on nobody changes the source and no operation fails. */
    ghost predicate Calm(from: nat) {
      forall t :: t >= from ==> source(t) == source(from) && head(t) == head(from) && !faults(t)
    }

    /** From `a` to `b`, no look at the source failed. */
    ghost predicate NoFault(a: nat, b: nat) {
      forall t :: a <= t < b ==> !faults(t)
    }

    /** From `a` to `b`, no step of the path was seen as a link. */
    ghost predicate NoLinkSeen(relative: string, a: nat, b: nat) {
      forall k :: 1 <= k <= |Split(relative)| ==> StepSeen(relative, k, a, b)
    }

    ghost predicate StepSeen(relative: string, k: nat, a: nat, b: nat)
      requires k <= |Split(relative)|
    {
      exists t: nat :: a <= t < b && !IsLink(source(t), Split(relative)[..k])
    }

    ghost predicate ShowsAbsence(t: nat, relative: string) {
      !Exists(source(t), Split(relative))
    }

    ghost predicate ShowsContent(t: nat, relative: string, content: string) {
      Reads(source(t), Split(relative)).Some? && Reads(source(t), Split(relative)).value.0 == content
    }

    ghost predicate ShowsMode(t: nat, relative: string, mode: string) {
      Reads(source(t), Split(relative)).Some? && Reads(source(t), Split(relative)).value.1 == mode
    }

    ghost predicate ShowsSize(t: nat, r: Record) {
      Reads(source(t), Split(r.path)).Some? && |Reads(source(t), Split(r.path)).value.0| == r.bytes
    }

    ghost predicate ShowsDigest(t: nat, r: Record) {
      && r.sha256.Some? && Reads(source(t), Split(r.path)).Some?
      && digest(Reads(source(t), Split(r.path)).value.0) == r.sha256.value
    }

    /** From `a` to `b`, every recorded fact was seen at some moment. */
    ghost predicate Glimpsed(r: Record, a: nat, b: nat) {
      && SafeName(r.path) && NoLinkSeen(r.path, a, b)
      && if r.sha256.None? then exists t: nat :: a <= t < b && ShowsAbsence(t, r.path)
         else FileSeen(r, a, b)
    }

    ghost predicate FileSeen(r: Record, a: nat, b: nat) {
      && (exists t: nat :: a <= t < b && ShowsMode(t, r.path, r.mode))
      && (exists t: nat :: a <= t < b && ShowsSize(t, r))
      && (exists t: nat :: a <= t < b && ShowsDigest(t, r))
    }

    /** From `a` to `b`, the source was seen at the revision and with every recorded fact. */
    ghost predicate Confirmed(revision: string, records: seq<Record>, a: nat, b: nat) {
      (exists t: nat :: a <= t < b && head(t) == revision) && AllGlimpsed(records, a, b)
    }

    /** From `a` to `b`, the source showed this at the path. */
    ghost predicate Showed(relative: string, observed: Observed, a: nat, b: nat) {
      SafeName(relative) && NoLinkSeen(relative, a, b) && ShownIn(relative, observed, a, b)
    }

    ghost predicate ShownIn(relative: string, observed: Observed, a: nat, b: nat) {
      match observed
      case Absent => exists t: nat :: a <= t < b && ShowsAbsence(t, relative)
      case Present(content, mode) =>
        && (exists t: nat :: a <= t < b && ShowsContent(t, relative, content))
        && (exists t: nat :: a <= t < b && ShowsMode(t, relative, mode))
    }

    lemma {:induction false} GlimpsedWider(r: Record, a: nat, b: nat, c: nat)
      requires Glimpsed(r, a, b) && b <= c
      ensures Glimpsed(r, a, c)
    {
      NoLinkWider(r.path, a, b, a, c);
    }

    ghost predicate AllHold(tree: Tree, records: seq<Record>) {
      forall r :: r in records ==> RecordHolds(tree, r, digest)
    }

    ghost predicate AllGlimpsed(records: seq<Record>, a: nat, b: nat) {
      forall r :: r in records ==> Glimpsed(r, a, b)
    }

    lemma {:induction false} NextGlimpsed(records: seq<Record>, i: nat, a: nat, b: nat, c: nat)
      requires i < |records| && a <= b <= c && AllGlimpsed(records[..i], a, b) && Glimpsed(records[i], b, c)
      ensures AllGlimpsed(records[..i + 1], a, c)
    {
      assert records[..i + 1] == records[..i] + [records[i]];
      forall r | r in records[..i] ensures Glimpsed(r, a, c) { GlimpsedWider(r, a, b, c); }
      GlimpsedSooner(records[i], a, b, c);
    }

    lemma {:induction false} GlimpsedSooner(r: Record, a: nat, b: nat, c: nat)
      requires Glimpsed(r, b, c) && a <= b
      ensures Glimpsed(r, a, c)
    {
      NoLinkWider(r.path, b, c, a, c);
    }

    lemma {:induction false} ShowedWider(relative: string, observed: Observed, a: nat, b: nat, c: nat, d: nat)
      requires Showed(relative, observed, a, b) && c <= a && b <= d
      ensures Showed(relative, observed, c, d)
    {
      NoLinkWider(relative, a, b, c, d);
    }

    lemma {:induction false} NoLinkWider(relative: string, a: nat, b: nat, c: nat, d: nat)
      requires NoLinkSeen(relative, a, b) && c <= a && b <= d
      ensures NoLinkSeen(relative, c, d)
    {
      forall k | 1 <= k <= |Split(relative)| ensures StepSeen(relative, k, c, d) { StepWider(relative, k, a, b, c, d); }
    }

    lemma {:induction false} StepSeenAt(relative: string, k: nat, a: nat, t: nat)
      requires k <= |Split(relative)| && a <= t && !IsLink(source(t), Split(relative)[..k])
      ensures StepSeen(relative, k, a, t + 1)
    {
    }

    lemma {:induction false} StepWider(relative: string, k: nat, a: nat, b: nat, c: nat, d: nat)
      requires k <= |Split(relative)| && StepSeen(relative, k, a, b) && c <= a && b <= d
      ensures StepSeen(relative, k, c, d)
    {
      var t: nat :| a <= t < b && !IsLink(source(t), Split(relative)[..k]);
    }

    /** One look at the source. */
    method Look() returns (ok: bool, tree: Tree)
      modifies this`now
      ensures now == old(now) + 1
      ensures ok <==> !faults(old(now))
      ensures tree == source(old(now))
    {
      ok, tree := !faults(now), source(now);
      now := now + 1;
    }

    method SafeInSource(relative: string) returns (ok: bool)
      modifies this`now
      ensures now >= old(now)
      ensures ok ==> NoFault(old(now), now)
      ensures ok ==> SafeName(relative) && NoLinkSeen(relative, old(now), now)
      ensures Calm(old(now)) ==> (ok <==> SafeIn(source(old(now)), relative))
    {
      if !SafeName(relative) {
        return false;
      }
      var parts := Split(relative);
      var seen, tree := Look();
      assert parts[..|parts|] == parts;
      if !seen || IsLink(tree, parts) {
        return false;
      }
      for k := 1 to |parts| + 1
        invariant now >= old(now) && NoFault(old(now), now)
        invariant forall j :: 1 <= j < k ==> StepSeen(relative, j, old(now), now)
        invariant Calm(old(now)) ==> forall j :: 1 <= j < k ==> !IsLink(source(old(now)), parts[..j])
      {
        ghost var moment := now;
        seen, tree := Look();
        if !seen || IsLink(tree, parts[..k]) {
          return false;
        }
        forall j | 1 <= j < k + 1 ensures StepSeen(relative, j, old(now), now) {
          if j < k {
            StepWider(relative, j, old(now), moment, old(now), now);
          } else {
            StepSeenAt(relative, k, old(now), moment);
          }
        }
      }
      ok := true;
    }

    /** One record of `_verify_selected_source`; every question is a look of its own. */
    method VerifyRecord(r: Record) returns (ok: bool)
      modifies this`now
      ensures now >= old(now)
      ensures ok ==> NoFault(old(now), now)
      ensures ok ==> Glimpsed(r, old(now), now)
      ensures Calm(old(now)) ==> (ok <==> RecordHolds(source(old(now)), r, digest))
    {
      ok := SafeInSource(r.path);
      if !ok { return false; }
      ghost var safe := now;
      if r.sha256.None? {
        var seen, tree := Look();
        ok := seen && !Exists(tree, Split(r.path));
        assert ok ==> ShowsAbsence(safe, r.path);
      } else {
        ok := VerifyFile(r);
      }
      NoLinkWider(r.path, old(now), safe, old(now), now);
    }

    /** The file of a record: there, with its mode, its size and its digest, each asked for on its own. */
    method VerifyFile(r: Record) returns (ok: bool)
      requires r.sha256.Some?
      modifies this`now
      ensures now >= old(now)
      ensures ok ==> NoFault(old(now), now)
      ensures ok ==> FileSeen(r, old(now), now)
      ensures Calm(old(now)) ==> (ok <==> FileHolds(source(old(now)), r, r.sha256.value, digest))
    {
      var p := Split(r.path);
      var seen, tree := Look();
      if !seen || Reads(tree, p).None? { return false; }
      seen, tree := Look();
      if !seen || Reads(tree, p).None? || Reads(tree, p).value.1 != r.mode { return false; }
      seen, tree := Look();
      if !seen || Reads(tree, p).None? || |Reads(tree, p).value.0| != r.bytes { return false; }
      seen, tree := Look();
      ok := seen && Reads(tree, p).Some? && digest(Reads(tree, p).value.0) == r.sha256.value;
      if ok { SeenInThreeLooks(r, old(now)); }
    }

    lemma {:induction false} SeenInThreeLooks(r: Record, a: nat)
      requires ShowsMode(a + 1, r.path, r.mode) && ShowsSize(a + 2, r) && ShowsDigest(a + 3, r)
      ensures FileSeen(r, a, a + 4)
    {
    }

    /** `_verify_selected_source` */
    method VerifySelectedSource(revision: string, records: seq<Record>) returns (selected: Option<seq<string>>)
      modifies this`now
      ensures now >= old(now)
      ensures selected.Some? ==> NoFault(old(now), now)
      ensures selected.Some? ==>
        && selected.value == SortBy(Paths(records), ByText())
        && Confirmed(revision, records, old(now), now)
      ensures Calm(old(now)) ==> (selected.Some? <==>
        head(old(now)) == revision && AllHold(source(old(now)), records))
    {
      var current := head(now);
      var seen, _ := Look();
      if !seen || current != revision {
        return None;
      }
      var paths: seq<string> := [];
      for i := 0 to |records|
        invariant now > old(now) && NoFault(old(now), now)
        invariant paths == Paths(records[..i])
        invariant AllGlimpsed(records[..i], old(now), now)
        invariant Calm(old(now)) ==> AllHold(source(old(now)), records[..i])
      {
        ghost var before := now;
        var ok := VerifyRecord(records[i]);
        if !ok {
          assert records[i] in records;
          return None;
        }
        NextGlimpsed(records, i, old(now), before, now);
        assert records[..i + 1] == records[..i] + [records[i]];
        paths := paths + [records[i].path];
      }
      assert records[..|records|] == records;
      selected := Some(SortBy(paths, ByText()));
    }

    /** One turn of the copy loop. */
    method CopyOne(relative: string) returns (ok: bool, ghost observed: Observed)
      modifies this
      ensures now >= old(now)
      ensures ok ==> NoFault(old(now), now)
      ensures ok ==>
        Showed(relative, observed, old(now), now) && CopyStep(old(clone), relative, observed) == Some(clone)
      ensures ok ==> ParentsStand(clone, relative)
      ensures DirectoriesStay(old(clone), clone)
      ensures OthersKept(old(clone), clone, [relative]) || Spoiled(clone, [relative])
      ensures Calm(old(now)) ==> TurnOf(source(old(now)), old(clone), relative) == if ok then Some(clone) else None
    {
      observed := Absent;
      ghost var clone0 := clone;
      assert OthersKept(clone0, clone, [relative]);
      var safe := SafeInSource(relative);
      if !safe { return false, Absent; }
      if !SafeIn(clone, relative) { return false, Absent; }
      var made := MakeParents(relative);
      if !made { return false, Absent; }
      ghost var start := now;
      var shown, copying := Show(relative);
      if shown.None? {
        if copying { LeaveHalf(relative, clone0); }
        return false, Absent;
      }
      var next := PutInPlace(clone, Split(relative), shown.value);
      if next.None? { return false, Absent; }
      assert next == CopyStep(clone0, relative, shown.value);
      CopyStepKeeps(clone0, relative, shown.value);
      CopyStepParents(clone0, relative, shown.value);
      TurnShowed(relative, shown.value, old(now), start, now);
      clone, observed := next.value, shown.value;
      ok := true;
    }

    lemma {:induction false} TurnShowed(relative: string, observed: Observed, a: nat, b: nat, c: nat)
      requires a <= b <= c && SafeName(relative) && NoLinkSeen(relative, a, b) && ShownIn(relative, observed, b, c)
      ensures Showed(relative, observed, a, c)
    {
      NoLinkWider(relative, a, b, a, c);
    }

    /** `source.exists()`, then the two reads of `shutil.copy2`: the content and the mode. */
    method Show(relative: string) returns (shown: Option<Observed>, copying: bool)
      modifies this`now
      ensures now >= old(now)
      ensures shown.Some? ==> NoFault(old(now), now)
      ensures shown.Some? ==> ShownIn(relative, shown.value, old(now), now)
      ensures Calm(old(now)) ==> shown == Observe(source(old(now)), relative)
    {
      var seen, tree := Look();
      if !seen { return None, false; }
      if !Exists(tree, Split(relative)) {
        assert ShowsAbsence(old(now), relative);
        return Some(Absent), false;
      }
      seen, tree := Look();
      if !seen || Reads(tree, Split(relative)).None? { return None, true; }
      var content := Reads(tree, Split(relative)).value.0;
      seen, tree := Look();
      if !seen || Reads(tree, Split(relative)).None? { return None, true; }
      var mode := Reads(tree, Split(relative)).value.1;
      assert ShowsContent(old(now) + 1, relative, content) && ShowsMode(old(now) + 2, relative, mode);
      shown, copying := Some(Present(content, mode)), true;
    }

    /** `destination.parent.mkdir(parents=True, exist_ok=True)`; what was made before it failed stays. */
    method MakeParents(relative: string) returns (ok: bool)
      modifies this`clone
      ensures DirectoriesStay(old(clone), clone) && OthersKept(old(clone), clone, [relative])
      ensures WithParents(old(clone), Split(relative), |Split(relative)| - 1) == if ok then Some(clone) else None
    {
      var p := Split(relative);
      ghost var clone0 := clone;
      for n := 0 to |p| - 1
        invariant WithParents(clone0, p, n) == Some(clone)
      {
        if p[..n + 1] !in clone {
          clone := clone[p[..n + 1] := Directory];
        } else if !clone[p[..n + 1]].Directory? {
          ParentsStuck(clone0, p, n + 1, |p| - 1);
          ParentsKeep(clone0, relative, n);
          return false;
        }
      }
      ParentsKeep(clone0, relative, |p| - 1);
      ok := true;
    }

    /** A copy that failed half way may have left something at its destination. */
    method LeaveHalf(relative: string, ghost clone0: Tree)
      requires SafeIn(clone0, relative)
      requires WithParents(clone0, Split(relative), |Split(relative)| - 1) == Some(clone)
      requires OthersKept(clone0, clone, [relative]) && DirectoriesStay(clone0, clone)
      modifies this`clone
      ensures leftovers(now).None? ==> clone == old(clone)
      ensures leftovers(now).Some? ==>
        var half := CopyInto(old(clone), Split(relative), leftovers(now).value.0, leftovers(now).value.1);
        clone == if half.Some? then half.value else old(clone)
      ensures DirectoriesStay(clone0, clone)
      ensures OthersKept(clone0, clone, [relative]) || Spoiled(clone, [relative])
    {
      match leftovers(now)
      case None =>
      case Some(left) =>
        var half := CopyInto(clone, Split(relative), left.0, left.1);
        if half.Some? {
          CopyStepKeeps(clone0, relative, Present(left.0, left.1));
          clone := half.value;
        }
    }

    /** The copy loop. */
    method CopySelected(selected: seq<string>) returns (ok: bool, ghost trace: seq<Observed>)
      modifies this
      ensures now >= old(now)
      ensures ok ==> NoFault(old(now), now)
      ensures ok ==> ShowedAll(selected, trace, old(now), now) && Replayed(old(clone), selected, trace) == Some(clone)
      ensures ok ==> AllParentsStand(clone, selected)
      ensures OthersKept(old(clone), clone, selected) || Spoiled(clone, selected)
      ensures Calm(old(now)) ==>
        StaticCopy(source(old(now)), old(clone), selected) == if ok then Some(clone) else None
    {
      ghost var tree0, clone0, begin := source(old(now)), old(clone), old(now);
      trace := [];
      for i := 0 to |selected|
        invariant now >= begin && NoFault(begin, now)
        invariant ShowedAll(selected[..i], trace, begin, now) && Replayed(clone0, selected[..i], trace) == Some(clone)
        invariant OthersKept(clone0, clone, selected) || Spoiled(clone, selected)
        invariant AllParentsStand(clone, selected[..i])
        invariant Calm(begin) ==> StaticCopy(tree0, clone0, selected[..i]) == Some(clone)
      {
        ghost var before, from := clone, now;
        var turned, observed := CopyOne(selected[i]);
        StaticCopyNext(tree0, clone0, selected, i);
        KeepsCompose(clone0, before, clone, selected, selected[i]);
        if !turned {
          return false, [];
        }
        ParentsStandOn(before, clone, selected, i);
        TraceNext(selected, i, trace, observed, begin, from, now);
        ReplayedNext(clone0, before, selected, i, trace, observed);
        trace := trace + [observed];
      }
      assert selected[..|selected|] == selected;
      ok := true;
    }

    /** The destination loop. */
    method CheckDestinations(records: seq<Record>) returns (ok: bool)
      ensures ok <==> Agrees(clone, records, digest)
    {
      for i := 0 to |records|
        invariant forall j :: 0 <= j < i ==> AgreesAt(clone, records[j], digest)
      {
        var r := records[i];
        assert r in records;
        if !SafeIn(clone, r.path) {
          return false;
        }
        var destination := Split(r.path);
        if r.sha256.None? {
          if Exists(clone, destination) { return false; }
        } else {
          if destination !in clone || !clone[destination].File? {
            return false;
          }
          var file := clone[destination];
          if digest(file.content) != r.sha256.value || |file.content| != r.bytes || file.mode != r.mode {
            return false;
          }
        }
      }
      ok := true;
    }

    /** The last loop reads only the digests of the files that were not deleted. */
    method CheckDigests(records: seq<Record>) returns (ok: bool)
      ensures ok <==> forall r :: r in records && r.sha256.Some? ==> DigestAt(clone, r, digest)
    {
      for i := 0 to |records|
        invariant forall j :: 0 <= j < i && records[j].sha256.Some? ==> DigestAt(clone, records[j], digest)
      {
        var r := records[i];
        assert r in records;
        if r.sha256.Some? {
          if !SafeIn(clone, r.path) {
            return false;
          }
          var found := Reads(clone, Split(r.path));
          if found.None? || digest(found.value.0) != r.sha256.value {
            return false;
          }
        }
      }
      ok := true;
    }

    ghost predicate ShowedAll(selected: seq<string>, trace: seq<Observed>, a: nat, b: nat) {
      |trace| == |selected| && forall i :: 0 <= i < |selected| ==> Showed(selected[i], trace[i], a, b)
    }

    lemma {:induction false} TraceNext(selected: seq<string>, i: nat, trace: seq<Observed>, observed: Observed, a: nat,
                                       b: nat, c: nat)
      requires i < |selected| && a <= b <= c
      requires ShowedAll(selected[..i], trace, a, b) && Showed(selected[i], observed, b, c)
      ensures ShowedAll(selected[..i + 1], trace + [observed], a, c)
    {
      forall j | 0 <= j < i { ShowedWider(selected[..i][j], trace[j], a, b, a, c); }
      ShowedWider(selected[i], observed, b, c, a, c);
    }

    /** The whole run up to a moment: two confirmations of the source, the copy of what it showed between two
        moments, and a third confirmation after the copy. */
    ghost predicate Copied(revision: string, records: seq<Record>, before: Tree, after: Tree, at: Moments,
                           trace: seq<Observed>)
    {
      && Confirmed(revision, records, at.begun, at.planned)
      && Confirmed(revision, records, at.planned, at.verified)
      && ShowedAll(SortBy(Paths(records), ByText()), trace, at.verified, at.copied)
      && Replayed(before, SortBy(Paths(records), ByText()), trace) == Some(after)
      && Confirmed(revision, records, at.copied, at.rechecked)
    }

    ghost predicate Delivered(revision: string, records: seq<Record>, before: Tree, copied: Tree, after: Tree,
                              at: Moments, trace: seq<Observed>, mapping: string, mode: string) {
      Copied(revision, records, before, copied, at, trace) && after == Written(copied, [MAPPING_NAME], mapping, mode)
    }

    /** From the plan to the destination check. */
    method CopyAndCheck(revision: string, cloneHead: string, records: seq<Record>)
      returns (ok: bool, ghost at: Moments, ghost trace: seq<Observed>)
      modifies this
      ensures now >= old(now)
      ensures ok ==> NoFault(old(now), now)
      ensures ok ==>
        at.begun == old(now) && at.rechecked == now && Copied(revision, records, old(clone), clone, at, trace)
      ensures ok ==>
        cloneHead == revision && Agrees(clone, records, digest) && OthersKept(old(clone), clone, Paths(records))
      ensures ok ==> NoneInside(Paths(records))
      ensures var selected := SortBy(Paths(records), ByText());
        OthersKept(old(clone), clone, selected) || Spoiled(clone, selected)
      ensures Calm(old(now)) && SnapshotHolds(revision, cloneHead, records, old(now)) ==>
        && (ok <==> Copyable(old(clone), records))
        && (ok ==> StaticCopy(source(old(now)), old(clone), SortBy(Paths(records), ByText())) == Some(clone))
    {
      ghost var begin, clone0 := now, clone;
      at, trace := Moments(now, now, now, now, now), [];
      assert OthersKept(clone0, clone, SortBy(Paths(records), ByText()));
      var plan := VerifySelectedSource(revision, records);
      at := at.(planned := now);
      if plan.None? || cloneHead != revision {
        return false, at, trace;
      }
      var selected := VerifySelectedSource(revision, records);
      at := at.(verified := now);
      if selected.None? {
        return false, at, trace;
      }
      var copied;
      copied, trace := CopySelected(selected.value);
      at := at.(copied := now);
      if Calm(begin) && SnapshotHolds(revision, cloneHead, records, begin) {
        CopyExact(source(begin), clone0, records, digest);
      }
      if !copied {
        return false, at, trace;
      }
      var again := VerifySelectedSource(revision, records);
      at := at.(rechecked := now);
      if again.None? {
        return false, at, trace;
      }
      ok := CheckDestinations(records);
      if ok {
        NotSpoiled(clone, records, digest);
        SortedPaths(records);
        NestedNeverAgrees(clone, records, digest);
        SamePlaces(clone0, clone, selected.value, Paths(records));
      }
    }

    /** The mapping file, the last look at the source and the last digests. */
    method Finish(revision: string, records: seq<Record>, mapping: string, mode: string) returns (ok: bool)
      requires Agrees(clone, records, digest)
      modifies this
      ensures now >= old(now) && (ok ==> NoFault(old(now), now))
      ensures ok ==> [MAPPING_NAME] !in old(clone) || !old(clone)[[MAPPING_NAME]].Directory?
      ensures ok ==>
        clone == Written(old(clone), [MAPPING_NAME], mapping, mode) && Confirmed(revision, records, old(now), now)
      ensures ok ==> forall r :: r in records && r.sha256.Some? ==> DigestAt(clone, r, digest)
      ensures Calm(old(now)) && SnapshotHolds(revision, revision, records, old(now)) ==>
        (ok <==>
          && ([MAPPING_NAME] !in old(clone) || !old(clone)[[MAPPING_NAME]].Directory?)
          && MappingFits(records, mapping, digest))
    {
      if [MAPPING_NAME] in clone && clone[[MAPPING_NAME]].Directory? {
        return false;
      }
      MappingKeeps(clone, records, mapping, mode, digest);
      MappingDigests(clone, records, mapping, mode, digest);
      clone := Written(clone, [MAPPING_NAME], mapping, mode);
      var last := VerifySelectedSource(revision, records);
      if last.None? {
        return false;
      }
      ok := CheckDigests(records);
    }

    /** `apply_development_extraction`, from the plan to the commit.  Whatever happened to the source in
        between, the committed clone agrees with the snapshot on every selected path and is unchanged
        elsewhere.  The mapping file is written after the destination check, so a record of that very path
        is only covered by the digest check that follows. */
    method Apply(revision: string, cloneHead: string, records: seq<Record>, mapping: string, mode: string)
      returns (committed: bool, ghost at: Moments, ghost trace: seq<Observed>)
      modifies this
      ensures committed ==> cloneHead == revision && NoFault(old(now), now)
      ensures committed ==> at.begun == old(now) && Confirmed(revision, records, at.rechecked, now)
      ensures committed ==>
        exists copied :: Delivered(revision, records, old(clone), copied, clone, at, trace, mapping, mode)
      ensures committed ==>
        && (forall r :: r in records && Split(r.path) != [MAPPING_NAME] ==> AgreesAt(clone, r, digest))
        && (forall r :: r in records && r.sha256.Some? ==> DigestAt(clone, r, digest))
        && (forall p :: Unselected(p, Paths(records)) && p != [MAPPING_NAME] ==>
              SameAt(old(clone), clone, p) || NewParent(old(clone), clone, p, Paths(records)))
        && Reads(clone, [MAPPING_NAME]).Some? && Reads(clone, [MAPPING_NAME]).value.0 == mapping
      ensures committed ==> NoneInside(Paths(records))
      ensures committed ==> OrdinaryNames(records) && InsideGitSame(old(clone), clone)
      ensures Calm(old(now)) && SnapshotHolds(revision, cloneHead, records, old(now)) ==>
        (committed <==>
          && Copyable(old(clone), records) && !MappingIsDirectory(old(clone), records)
          && MappingFits(records, mapping, digest))
    {
      ghost var begin, clone0 := now, clone;
      var checked;
      checked, at, trace := CopyAndCheck(revision, cloneHead, records);
      if !checked {
        return false, at, trace;
      }
      ghost var copied := clone;
      MappingKeeps(copied, records, mapping, mode, digest);
      if Calm(begin) && SnapshotHolds(revision, cloneHead, records, begin) {
        CopyExact(source(begin), clone0, records, digest);
        MappingPlace(clone0, copied, records, digest);
      }
      committed := Finish(revision, records, mapping, mode);
      assert committed ==> Delivered(revision, records, clone0, copied, clone, at, trace, mapping, mode);
      assert committed ==> forall p :: p != [MAPPING_NAME] ==> SameAt(copied, clone, p);
      AgreedNames(copied, records, digest);
      if committed { GitKept(clone0, clone, records); }
    }

    /** The snapshot describes the source at a moment. */
    ghost predicate SnapshotHolds(revision: string, cloneHead: string, records: seq<Record>, t: nat) {
      head(t) == revision == cloneHead && AllHold(source(t), records)
    }
  }

  /** No record has an empty component, one that leads nowhere or up, or the one of the Git directory. */
  ghost predicate OrdinaryNames(records: seq<Record>) {
    forall r, c :: r in records && c in Split(r.path) ==> c != "" && c != "." && c != ".." && c != ".git"
  }

  /** Nothing with the name of the Git directory on its path was touched. */
  ghost predicate InsideGitSame(before: Tree, after: Tree) {
    forall p: Place :: ".git" in p ==> SameAt(before, after, p)
  }

  lemma {:induction false} AgreedNames(clone: Tree, records: seq<Record>, digest: string -> string)
    requires Agrees(clone, records, digest)
    ensures OrdinaryNames(records)
  {
    forall r | r in records ensures SafeName(r.path) {
      assert AgreesAt(clone, r, digest);
    }
  }

  lemma {:induction false} GitKept(before: Tree, after: Tree, records: seq<Record>)
    requires OrdinaryNames(records)
    requires forall p :: Unselected(p, Paths(records)) && p != [MAPPING_NAME] ==>
      SameAt(before, after, p) || NewParent(before, after, p, Paths(records))
    ensures InsideGitSame(before, after)
  {
    forall r | r in Paths(records) ensures ".git" !in Split(r) {
      var i :| 0 <= i < |records| && records[i].path == r;
      assert records[i] in records;
    }
    forall p: Place | ".git" in p ensures SameAt(before, after, p) {
      var k :| 0 <= k < |p| && p[k] == ".git";
      assert MAPPING_NAME != ".git";
      forall r | r in Paths(records) ensures !(p <= Split(r)) {
        assert k < |Split(r)| ==> Split(r)[k] in Split(r);
      }
    }
  }

  lemma {:induction false} ReplayedNext(clone: Tree, before: Tree, selected: seq<string>, i: nat, trace: seq<Observed>,
                                        observed: Observed)
    requires i < |selected| && |trace| == i && Replayed(clone, selected[..i], trace) == Some(before)
    ensures Replayed(clone, selected[..i + 1], trace + [observed]) == CopyStep(before, selected[i], observed)
  {
    assert selected[..i + 1][..i] == selected[..i] && (trace + [observed])[..i] == trace;
  }

  /** One more path, and what it means when it fails. */
  lemma {:induction false} StaticCopyNext(source: Tree, clone: Tree, selected: seq<string>, i: nat)
    requires i < |selected|
    ensures StaticCopy(source, clone, selected[..i + 1]) ==
      match StaticCopy(source, clone, selected[..i]) case None => None case Some(t) => TurnOf(source, t, selected[i])
    ensures StaticCopy(source, clone, selected[..i + 1]).None? ==> StaticCopy(source, clone, selected).None?
  {
    assert selected[..i + 1][..i] == selected[..i];
    StaticCopyStuck(source, clone, selected, i + 1);
  }

  lemma {:induction false} StaticCopyStuck(source: Tree, clone: Tree, selected: seq<string>, n: nat)
    requires n <= |selected|
    ensures StaticCopy(source, clone, selected[..n]).None? ==> StaticCopy(source, clone, selected).None?
    decreases |selected| - n
  {
    if n < |selected| {
      assert selected[..n + 1][..n] == selected[..n];
      StaticCopyStuck(source, clone, selected, n + 1);
    } else {
      assert selected[..n] == selected;
    }
  }

  // ---------------------------------------------------------------- around the copy

  lemma {:induction false} SortedPaths(records: seq<Record>)
    ensures forall p :: p in SortBy(Paths(records), ByText()) <==> p in Paths(records)
    ensures forall r :: r in records ==> r.path in Paths(records)
    ensures |SortBy(Paths(records), ByText())| == |records|
  {
    SortByFacts(Paths(records), ByText());
    forall p ensures p in SortBy(Paths(records), ByText()) <==> p in Paths(records) {
      assert p in multiset(SortBy(Paths(records), ByText())) <==> p in multiset(Paths(records));
    }
    forall r | r in records ensures r.path in Paths(records) {
      var i :| 0 <= i < |records| && records[i] == r;
      assert Paths(records)[i] == r.path;
    }
  }

  /** A clone that passed the destination check has no directory at a selected path. */
  lemma {:induction false} NotSpoiled(clone: Tree, records: seq<Record>, digest: string -> string)
    requires Agrees(clone, records, digest)
    ensures !Spoiled(clone, SortBy(Paths(records), ByText()))
  {
    SortedPaths(records);
    forall q | q in SortBy(Paths(records), ByText()) ensures !(Split(q) in clone && clone[Split(q)].Directory?) {
      var i :| 0 <= i < |records| && Paths(records)[i] == q;
      assert records[i] in records;
    }
  }

  lemma {:induction false} SamePlaces(before: Tree, after: Tree, xs: seq<string>, ys: seq<string>)
    requires forall p :: p in xs <==> p in ys
    ensures OthersKept(before, after, xs) ==> OthersKept(before, after, ys)
  {
    if OthersKept(before, after, xs) {
      forall p | Unselected(p, ys) ensures SameAt(before, after, p) || NewParent(before, after, p, ys) {
        assert Unselected(p, xs);
      }
    }
  }

  predicate MappingIsDirectory(clone: Tree, records: seq<Record>) {
    || ([MAPPING_NAME] in clone && clone[[MAPPING_NAME]].Directory?)
    || exists r :: r in records && [MAPPING_NAME] < Split(r.path)
  }

  /** Writing the mapping file disturbs no other record. */
  lemma {:induction false} MappingKeeps(clone: Tree, records: seq<Record>, mapping: string, mode: string,
                                        digest: string -> string)
    requires Agrees(clone, records, digest)
    ensures forall r :: r in records && Split(r.path) != [MAPPING_NAME] ==>
      AgreesAt(Written(clone, [MAPPING_NAME], mapping, mode), r, digest)
  {
    var after := Written(clone, [MAPPING_NAME], mapping, mode);
    forall r | r in records && Split(r.path) != [MAPPING_NAME] ensures AgreesAt(after, r, digest) {
      assert AgreesAt(clone, r, digest);
      forall k | 1 <= k <= |Split(r.path)| ensures !IsLink(after, Split(r.path)[..k]) {
        assert !IsLink(clone, Split(r.path)[..k]);
      }
    }
  }

  /** A record of a file in the place of the mapping file has the digest of the mapping. */
  ghost predicate MappingFits(records: seq<Record>, mapping: string, digest: string -> string) {
    forall r :: r in records && Split(r.path) == [MAPPING_NAME] && r.sha256.Some? ==>
      digest(mapping) == r.sha256.value
  }

  lemma {:induction false} MappingDigests(clone: Tree, records: seq<Record>, mapping: string, mode: string,
                                          digest: string -> string)
    requires Agrees(clone, records, digest)
    ensures var after := Written(clone, [MAPPING_NAME], mapping, mode);
      (forall r :: r in records && r.sha256.Some? ==> DigestAt(after, r, digest)) <==>
        MappingFits(records, mapping, digest)
  {
    var after := Written(clone, [MAPPING_NAME], mapping, mode);
    MappingKeeps(clone, records, mapping, mode, digest);
    forall r | r in records && r.sha256.Some?
      ensures DigestAt(after, r, digest) <==>
        (Split(r.path) == [MAPPING_NAME] ==> digest(mapping) == r.sha256.value)
    {
      var p := Split(r.path);
      if p == [MAPPING_NAME] {
        assert AgreesAt(clone, r, digest);
        assert p[..1] == p && !IsLink(clone, p);
      } else {
        assert AgreesAt(after, r, digest);
      }
    }
  }

  // ---------------------------------------------------------------- when the copy succeeds

  /** No selected path lies inside another. */
  ghost predicate NoneInside(selected: seq<string>) {
    forall i, j :: 0 <= i < |selected| && 0 <= j < |selected| ==> !(Split(selected[i]) < Split(selected[j]))
  }

  /** No path is listed twice as deleted. */
  ghost predicate DeletedOnce(records: seq<Record>) {
    forall i, j :: 0 <= i < j < |records| && records[i].path == records[j].path ==>
      records[i].sha256.Some? && records[j].sha256.Some?
  }

  /** The path of a record has become a directory when another lies inside it. */
  lemma {:induction false} NestedDisagrees(clone: Tree, outer: Record, inner: Record, digest: string -> string)
    requires Split(outer.path) < Split(inner.path) && ParentsStand(clone, inner.path)
    ensures !AgreesAt(clone, outer, digest)
  {
    var p := Split(outer.path);
    assert Split(inner.path)[..|p|] == p;
  }

  /** A record never holds together with one inside it. */
  lemma {:induction false} NestedNeverAgrees(clone: Tree, records: seq<Record>, digest: string -> string)
    requires Agrees(clone, records, digest) && forall r :: r in records ==> ParentsStand(clone, r.path)
    ensures NoneInside(Paths(records))
  {
    forall i, j | 0 <= i < |records| && 0 <= j < |records| ensures !(Split(records[i].path) < Split(records[j].path)) {
      assert records[i] in records && records[j] in records;
      if Split(records[i].path) < Split(records[j].path) {
        NestedDisagrees(clone, records[i], records[j], digest);
        assert false;
      }
    }
  }

  /** The clone can take a record: no link on the way, directories as parents, a file to delete, and no
      directory in the place of a file to write. */
  ghost predicate ReadyAt(clone: Tree, r: Record) {
    var p := Split(r.path);
    && SafeIn(clone, r.path)
    && (forall k :: 1 <= k < |p| && p[..k] in clone ==> clone[p[..k]].Directory?)
    && (if r.sha256.None? then p in clone && clone[p].File? else !(p in clone && clone[p].Directory?))
  }

  ghost predicate Ready(clone: Tree, records: seq<Record>) {
    forall r :: r in records ==> ReadyAt(clone, r)
  }

  lemma {:induction false} ParentsExact(tree: Tree, p: Place, n: nat)
    requires n <= |p|
    ensures WithParents(tree, p, n).Some? <==> forall k :: 1 <= k <= n && p[..k] in tree ==> tree[p[..k]].Directory?
    ensures WithParents(tree, p, n).Some? ==>
      forall k ::
        1 <= k <= n ==> p[..k] in WithParents(tree, p, n).value && WithParents(tree, p, n).value[p[..k]].Directory?
  {
    if n > 0 {
      ParentsExact(tree, p, n - 1);
      if WithParents(tree, p, n - 1).Some? {
        ParentsFacts(tree, p, n - 1);
        var t := WithParents(tree, p, n - 1).value;
        assert |p[..n]| == n;
        assert p[..n] in t ==> p[..n] in tree;
      }
    }
  }

  /** What a turn does at its own path, once the parents are there. */
  lemma {:induction false} PutExact(tree: Tree, relative: string, observed: Observed)
    requires SafeIn(tree, relative) && PutInPlace(tree, Split(relative), observed).Some?
    ensures var p, after := Split(relative), PutInPlace(tree, Split(relative), observed).value;
      && SafeIn(after, relative)
      && (observed.Absent? ==> p !in after)
      && (observed.Present? ==>
          if p in tree && tree[p].Directory? then p in after && after[p].Directory?
          else p in after && after[p] == File(observed.content, observed.mode))
  {
    var p := Split(relative);
    assert p[..|p|] == p;
    forall k | 1 <= k <= |p| ensures p[..k] != p + [p[|p| - 1]] && (p[..k] == p ==> k == |p|) {
      assert |p[..k]| == k;
    }
  }

  /** Making the parents does not change the place itself nor the links on the way. */
  lemma {:induction false} ParentsWay(clone: Tree, relative: string)
    requires SafeIn(clone, relative) && WithParents(clone, Split(relative), |Split(relative)| - 1).Some?
    ensures var p, t := Split(relative), WithParents(clone, Split(relative), |Split(relative)| - 1).value;
      SafeIn(t, relative) && SameAt(clone, t, p)
  {
    ParentsFacts(clone, Split(relative), |Split(relative)| - 1);
  }

  /** A turn of the copy loop serves its own record exactly when the clone is ready for it. */
  lemma {:induction false} TurnExact(source: Tree, clone: Tree, r: Record, digest: string -> string)
    requires RecordHolds(source, r, digest)
    ensures (TurnOf(source, clone, r.path).Some? && AgreesAt(TurnOf(source, clone, r.path).value, r, digest)) <==>
      ReadyAt(clone, r)
  {
    var p := Split(r.path);
    ParentsExact(clone, p, |p| - 1);
    assert p[..|p|] == p;
    assert !IsLink(source, p);
    if SafeIn(clone, r.path) && WithParents(clone, p, |p| - 1).Some? {
      var t := WithParents(clone, p, |p| - 1).value;
      ParentsWay(clone, r.path);
      assert !IsLink(t, p);
      var observed := Observe(source, r.path).value;
      if PutInPlace(t, p, observed).Some? { PutExact(t, r.path, observed); }
    }
  }

  /** Two trees agree along the way to a place, but for new directories above it. */
  ghost predicate SameWay(before: Tree, after: Tree, p: Place) {
    && SameAt(before, after, p)
    && forall k :: 1 <= k < |p| ==>
         SameAt(before, after, p[..k]) || (p[..k] !in before && p[..k] in after && after[p[..k]].Directory?)
  }

  lemma {:induction false} SameWayCarries(before: Tree, after: Tree, r: Record, digest: string -> string)
    requires SameWay(before, after, Split(r.path))
    ensures AgreesAt(after, r, digest) <==> AgreesAt(before, r, digest)
    ensures ReadyAt(after, r) <==> ReadyAt(before, r)
  {
    var p := Split(r.path);
    assert p[..|p|] == p;
    assert forall k :: 1 <= k <= |p| ==> (IsLink(after, p[..k]) <==> IsLink(before, p[..k]));
  }

  /** A turn leaves the way to every separate place as it was. */
  lemma {:induction false} TurnElsewhere(source: Tree, clone: Tree, relative: string, p: Place)
    requires TurnOf(source, clone, relative).Some?
    requires Split(relative) != p && !(Split(relative) < p) && !(p < Split(relative))
    ensures SameWay(clone, TurnOf(source, clone, relative).value, p)
  {
    var after := TurnOf(source, clone, relative).value;
    var q := Split(relative);
    ParentsFacts(clone, q, |q| - 1);
    var t := WithParents(clone, q, |q| - 1).value;
    var observed := Observe(source, relative).value;
    assert PutInPlace(t, q, observed) == Some(after) && p[..|p|] == p;
    forall k | 1 <= k <= |p| ensures SameAt(t, after, p[..k]) && !(p <= q) {
      WayElsewhere(p, q, k);
      PutElsewhere(t, q, observed, p[..k]);
    }
  }

  lemma {:induction false} PutElsewhere(tree: Tree, q: Place, observed: Observed, p: Place)
    requires q != [] && PutInPlace(tree, q, observed).Some? && p != q && p != q + [q[|q| - 1]]
    ensures SameAt(tree, PutInPlace(tree, q, observed).value, p)
  {
  }

  /** No step of the way to a separate place is the place itself or its namesake inside it. */
  lemma {:induction false} WayElsewhere(p: Place, q: Place, k: nat)
    requires q != [] && 1 <= k <= |p| && q != p && !(q < p) && !(p < q)
    ensures p[..k] != q && p[..k] != q + [q[|q| - 1]] && !(p <= q)
  {
    assert p[..|p|] == p;
    if |q| <= |p| { assert p[..|q|] != q; }
    if k == |q| + 1 {
      assert p[..k][..|q|] == p[..|q|];
      assert (q + [q[|q| - 1]])[..|q|] == q;
    }
  }

  /** A turn that went through took a file that was there to delete; a file it copied leaves the clone as
      ready for the same record as it was. */
  lemma {:induction false} TurnAgain(source: Tree, clone: Tree, r: Record, digest: string -> string)
    requires RecordHolds(source, r, digest) && TurnOf(source, clone, r.path).Some?
    ensures r.sha256.None? ==> ReadyAt(clone, r) && !ReadyAt(TurnOf(source, clone, r.path).value, r)
    ensures r.sha256.Some? ==> (ReadyAt(TurnOf(source, clone, r.path).value, r) <==> ReadyAt(clone, r))
  {
    var p := Split(r.path);
    TurnExact(source, clone, r, digest);
    CopyStepParents(clone, r.path, Observe(source, r.path).value);
    ParentsExact(clone, p, |p| - 1);
    ParentsWay(clone, r.path);
    PutExact(WithParents(clone, p, |p| - 1).value, r.path, Observe(source, r.path).value);
  }

  /** Records of one path that both describe the source say the same. */
  lemma {:induction false} SamePathSame(source: Tree, r: Record, q: Record, tree: Tree, digest: string -> string)
    requires RecordHolds(source, r, digest) && RecordHolds(source, q, digest) && r.path == q.path
    ensures r.sha256 == q.sha256
    ensures AgreesAt(tree, r, digest) <==> AgreesAt(tree, q, digest)
    ensures ReadyAt(tree, r) <==> ReadyAt(tree, q)
  {
    var p := Split(r.path);
    assert p[..|p|] == p;
    assert !IsLink(source, p);
  }

  /** The clone is ready for the first `n` records, and none of them is deleted twice. */
  ghost predicate ReadyFor(clone: Tree, ordered: seq<Record>, n: nat)
    requires n <= |ordered|
  {
    (forall i :: 0 <= i < n ==> ReadyAt(clone, ordered[i])) && DeletedOnce(ordered[..n])
  }

  ghost predicate DeletedBefore(ordered: seq<Record>, n: nat, r: Record)
    requires n <= |ordered|
  {
    r.sha256.None? && exists k :: 0 <= k < n && ordered[k].path == r.path
  }

  /** The copy loop up to its n-th path: it gets there if the clone was ready for the records it met, it
      serves those for which the clone was ready, and it leaves the readiness for the others alone, but for
      files it has deleted. */
  lemma {:induction false} CopyPrefix(source: Tree, clone: Tree, ordered: seq<Record>, n: nat, digest: string -> string)
    requires n <= |ordered| && NoneInside(Paths(ordered))
    requires forall i :: 0 <= i < |ordered| ==> RecordHolds(source, ordered[i], digest)
    ensures var out := StaticCopy(source, clone, Paths(ordered)[..n]);
      && (out.None? ==> !ReadyFor(clone, ordered, n))
      && (out.Some? ==> DeletedOnce(ordered[..n]))
      && (out.Some? ==> forall i :: 0 <= i < n ==>
          (AgreesAt(out.value, ordered[i], digest) <==> ReadyAt(clone, ordered[i])))
      && (out.Some? ==> forall i :: n <= i < |ordered| ==>
          (ReadyAt(out.value, ordered[i]) <==> ReadyAt(clone, ordered[i]) && !DeletedBefore(ordered, n, ordered[i])))
  {
    if n > 0 {
      var m := n - 1;
      CopyPrefix(source, clone, ordered, m, digest);
      StaticCopyNext(source, clone, Paths(ordered), m);
      PrefixGrows(ordered, m);
      var before := StaticCopy(source, clone, Paths(ordered)[..m]);
      if before.Some? {
        TurnExact(source, before.value, ordered[m], digest);
        if TurnOf(source, before.value, ordered[m].path).Some? {
          TurnAgain(source, before.value, ordered[m], digest);
          forall i | 0 <= i < |ordered| {
            PrefixStep(source, clone, before.value, ordered, m, i, digest);
          }
        }
      }
    }
  }

  /** The `m`-th turn, for the i-th record. */
  lemma {:induction false} PrefixStep(source: Tree, clone: Tree, before: Tree, ordered: seq<Record>, m: nat, i: nat,
                                      digest: string -> string)
    requires m < |ordered| && i < |ordered| && NoneInside(Paths(ordered))
    requires RecordHolds(source, ordered[m], digest) && RecordHolds(source, ordered[i], digest)
    requires TurnOf(source, before, ordered[m].path).Some?
    requires ReadyAt(before, ordered[m]) <==> ReadyAt(clone, ordered[m]) && !DeletedBefore(ordered, m, ordered[m])
    requires i < m ==> (AgreesAt(before, ordered[i], digest) <==> ReadyAt(clone, ordered[i]))
    requires i > m ==>
      (ReadyAt(before, ordered[i]) <==> ReadyAt(clone, ordered[i]) && !DeletedBefore(ordered, m, ordered[i]))
    ensures var after := TurnOf(source, before, ordered[m].path).value;
      && (i <= m ==> (AgreesAt(after, ordered[i], digest) <==> ReadyAt(clone, ordered[i])))
      && (i > m ==>
          (ReadyAt(after, ordered[i]) <==> ReadyAt(clone, ordered[i]) && !DeletedBefore(ordered, m + 1, ordered[i])))
  {
    TurnFor(source, before, ordered, m, i, digest);
    if ordered[i].path == ordered[m].path {
      TurnAgain(source, before, ordered[m], digest);
      SamePathSame(source, ordered[i], ordered[m], clone, digest);
    }
  }

  lemma {:induction false} PrefixGrows(ordered: seq<Record>, m: nat)
    requires m < |ordered|
    ensures DeletedOnce(ordered[..m + 1]) ==> DeletedOnce(ordered[..m]) && !DeletedBefore(ordered, m, ordered[m])
    ensures DeletedOnce(ordered[..m]) && !DeletedBefore(ordered, m, ordered[m]) ==>
      (forall k :: 0 <= k < m && ordered[k].path == ordered[m].path ==> ordered[k].sha256.Some?) ==>
        DeletedOnce(ordered[..m + 1])
  {
    var more := ordered[..m + 1];
    assert more[m] == ordered[m] && forall k :: 0 <= k < m ==> more[k] == ordered[k] == ordered[..m][k];
  }

  /** What one turn does to the other records. */
  lemma {:induction false} TurnFor(source: Tree, before: Tree, ordered: seq<Record>, m: nat, i: nat,
                                   digest: string -> string)
    requires m < |ordered| && i < |ordered| && NoneInside(Paths(ordered))
    requires RecordHolds(source, ordered[m], digest) && RecordHolds(source, ordered[i], digest)
    requires TurnOf(source, before, ordered[m].path).Some?
    ensures var after := TurnOf(source, before, ordered[m].path).value;
      if ordered[i].path == ordered[m].path then
        && ordered[i].sha256 == ordered[m].sha256
        && (AgreesAt(after, ordered[i], digest) <==> ReadyAt(before, ordered[m]))
        && (ReadyAt(before, ordered[i]) <==> ReadyAt(before, ordered[m]))
        && (ReadyAt(after, ordered[i]) <==> ordered[i].sha256.Some? && ReadyAt(before, ordered[i]))
      else
        && (AgreesAt(after, ordered[i], digest) <==> AgreesAt(before, ordered[i], digest))
        && (ReadyAt(after, ordered[i]) <==> ReadyAt(before, ordered[i]))
  {
    var after := TurnOf(source, before, ordered[m].path).value;
    if ordered[i].path == ordered[m].path {
      TurnExact(source, before, ordered[m], digest);
      TurnAgain(source, before, ordered[m], digest);
      SamePathSame(source, ordered[i], ordered[m], before, digest);
      SamePathSame(source, ordered[i], ordered[m], after, digest);
    } else {
      JoinOfSplit(ordered[i].path);
      JoinOfSplit(ordered[m].path);
      assert Paths(ordered)[i] == ordered[i].path && Paths(ordered)[m] == ordered[m].path;
      TurnElsewhere(source, before, ordered[m].path, Split(ordered[i].path));
      SameWayCarries(before, after, ordered[i], digest);
    }
  }

  /** A record for each of the sorted paths. */
  lemma {:induction false} Ordered(records: seq<Record>) returns (ordered: seq<Record>)
    ensures Paths(ordered) == SortBy(Paths(records), ByText())
    ensures forall r :: r in ordered ==> r in records
    ensures forall r :: r in records ==> exists i :: 0 <= i < |ordered| && ordered[i].path == r.path
  {
    var selected := SortBy(Paths(records), ByText());
    SortedPaths(records);
    ordered := [];
    for i := 0 to |selected|
      invariant |ordered| == i
      invariant forall j :: 0 <= j < i ==> ordered[j] in records && ordered[j].path == selected[j]
    {
      assert selected[i] in Paths(records);
      var k :| 0 <= k < |records| && Paths(records)[k] == selected[i];
      ordered := ordered + [records[k]];
    }
    assert Paths(ordered) == selected;
    forall r | r in records ensures exists i :: 0 <= i < |ordered| && ordered[i].path == r.path {
      assert r.path in Paths(ordered);
      var i :| 0 <= i < |ordered| && Paths(ordered)[i] == r.path;
      assert ordered[i].path == r.path;
    }
  }

  lemma {:induction false} ParentsMade(source: Tree, clone: Tree, selected: seq<string>, n: nat, i: nat, k: nat)
    requires i < n <= |selected| && StaticCopy(source, clone, selected[..n]).Some?
    requires 1 <= k < |Split(selected[i])|
    ensures var out := StaticCopy(source, clone, selected[..n]).value;
      Split(selected[i])[..k] in out && out[Split(selected[i])[..k]].Directory?
  {
    var m := n - 1;
    assert selected[..n][..m] == selected[..m];
    var before := StaticCopy(source, clone, selected[..m]).value;
    var observed := Observe(source, selected[m]).value;
    CopyStepKeeps(before, selected[m], observed);
    if i < m {
      ParentsMade(source, clone, selected, m, i, k);
    } else {
      var p := Split(selected[m]);
      ParentsExact(before, p, |p| - 1);
      assert |p[..k]| == k;
      assert |p + [p[|p| - 1]]| > |p|;
    }
  }

  /** What a snapshot and a clone must be like for the copy to succeed. */
  ghost predicate Copyable(clone: Tree, records: seq<Record>) {
    NoneInside(Paths(records)) && DeletedOnce(records) && Ready(clone, records)
  }

  /** Against a source that stands still and matches the snapshot, copy and destination check succeed
      exactly when no record lies inside another, nothing is deleted twice, and the clone was ready:
      deleted files exist in it, and nothing stands in the way. */
  lemma {:induction false} CopyExact(source: Tree, clone: Tree, records: seq<Record>, digest: string -> string)
    requires forall r :: r in records ==> RecordHolds(source, r, digest)
    ensures var out := StaticCopy(source, clone, SortBy(Paths(records), ByText()));
      && (out.Some? && Agrees(out.value, records, digest) <==> Copyable(clone, records))
      && (out.Some? ==> MappingParent(out.value, records))
  {
    var selected := SortBy(Paths(records), ByText());
    var out := StaticCopy(source, clone, selected);
    if out.Some? {
      SortedPaths(records);
      MappingParentMade(source, clone, selected, records);
      forall r | r in records
        ensures ParentsStand(out.value, r.path)
      {
        StaticParentsStand(source, clone, selected, r.path);
      }
      if Agrees(out.value, records, digest) { NestedNeverAgrees(out.value, records, digest); }
    }
    if NoneInside(Paths(records)) { CopyExactFlat(source, clone, records, digest); }
  }

  /** A snapshot that lists a deletion twice: one turn takes the file, the second finds nothing to delete. */
  lemma {:induction false} DeleteTwice(source: Tree, clone: Tree, gone: Record, digest: string -> string)
    requires gone.sha256.None? && RecordHolds(source, gone, digest) && ReadyAt(clone, gone)
    ensures StaticCopy(source, clone, [gone.path]).Some?
    ensures StaticCopy(source, clone, [gone.path, gone.path]).None?
  {
    var once, twice := [gone.path], [gone.path, gone.path];
    assert once[..0] == [] && once[..1] == once && twice[..1] == once && twice[..2] == twice;
    StaticCopyNext(source, clone, once, 0);
    StaticCopyNext(source, clone, twice, 1);
    TurnExact(source, clone, gone, digest);
    TurnAgain(source, clone, gone, digest);
    var after := StaticCopy(source, clone, once).value;
    TurnExact(source, after, gone, digest);
    if TurnOf(source, after, gone.path).Some? {
      TurnAgain(source, after, gone, digest);
      assert false;
    }
  }

  /** There is something to delete: a file of the clone that the source has not. */
  lemma {:induction false} OneToDelete(digest: string -> string) returns (source: Tree, clone: Tree, gone: Record)
    ensures gone.sha256.None? && RecordHolds(source, gone, digest) && ReadyAt(clone, gone)
  {
    source, clone, gone := map[], map[["a"] := File("text", "0644")], Record("a", None, 0, "");
    SplitOfJoin(["a"]);
    assert Join(["a"]) == "a" && Split("a") == ["a"];
  }

  lemma {:induction false} StaticParentsStand(source: Tree, clone: Tree, selected: seq<string>, relative: string)
    requires StaticCopy(source, clone, selected).Some? && relative in selected
    ensures ParentsStand(StaticCopy(source, clone, selected).value, relative)
  {
    var i :| 0 <= i < |selected| && selected[i] == relative;
    assert selected[..|selected|] == selected;
    forall k | 1 <= k < |Split(relative)| { ParentsMade(source, clone, selected, |selected|, i, k); }
  }

  lemma {:induction false} CopyOrdered(source: Tree, clone: Tree, ordered: seq<Record>, digest: string -> string)
    requires NoneInside(Paths(ordered)) && forall q :: q in ordered ==> RecordHolds(source, q, digest)
    ensures var out := StaticCopy(source, clone, Paths(ordered));
      && (out.None? ==> !(DeletedOnce(ordered) && forall i :: 0 <= i < |ordered| ==> ReadyAt(clone, ordered[i])))
      && (out.Some? ==> DeletedOnce(ordered))
      && (out.Some? ==> forall i :: 0 <= i < |ordered| ==>
          (AgreesAt(out.value, ordered[i], digest) <==> ReadyAt(clone, ordered[i])))
  {
    var n := |ordered|;
    assert Paths(ordered)[..n] == Paths(ordered) && ordered[..n] == ordered;
    CopyPrefix(source, clone, ordered, n, digest);
  }

  lemma {:induction false} CopyExactFlat(source: Tree, clone: Tree, records: seq<Record>, digest: string -> string)
    requires NoneInside(Paths(records)) && forall r :: r in records ==> RecordHolds(source, r, digest)
    ensures var out := StaticCopy(source, clone, SortBy(Paths(records), ByText()));
      out.Some? && Agrees(out.value, records, digest) <==> DeletedOnce(records) && Ready(clone, records)
  {
    var selected := SortBy(Paths(records), ByText());
    var out := StaticCopy(source, clone, selected);
    var ordered := Ordered(records);
    NestingSorted(records);
    CopyOrdered(source, clone, ordered, digest);
    SameDeletions(source, records, ordered, digest);
    OrderedReady(source, clone, records, ordered, digest);
    if out.Some? { OrderedAgree(source, clone, out.value, records, ordered, digest); }
  }

  lemma {:induction false} OrderedReady(source: Tree, clone: Tree, records: seq<Record>, ordered: seq<Record>,
                                        digest: string -> string)
    requires forall r :: r in records ==> RecordHolds(source, r, digest)
    requires forall q :: q in ordered ==> q in records
    requires forall r :: r in records ==> exists i :: 0 <= i < |ordered| && ordered[i].path == r.path
    ensures Ready(clone, records) <==> forall i :: 0 <= i < |ordered| ==> ReadyAt(clone, ordered[i])
  {
    if Ready(clone, records) {
      forall i | 0 <= i < |ordered| ensures ReadyAt(clone, ordered[i]) { assert ordered[i] in ordered; }
    }
    if forall i :: 0 <= i < |ordered| ==> ReadyAt(clone, ordered[i]) {
      forall r | r in records ensures ReadyAt(clone, r) {
        var i :| 0 <= i < |ordered| && ordered[i].path == r.path;
        assert ordered[i] in ordered;
        SamePathSame(source, r, ordered[i], clone, digest);
      }
    }
  }

  lemma {:induction false} OrderedAgree(source: Tree, clone: Tree, out: Tree, records: seq<Record>,
                                        ordered: seq<Record>, digest: string -> string)
    requires forall r :: r in records ==> RecordHolds(source, r, digest)
    requires forall q :: q in ordered ==> q in records
    requires forall r :: r in records ==> exists i :: 0 <= i < |ordered| && ordered[i].path == r.path
    requires forall i :: 0 <= i < |ordered| ==> (AgreesAt(out, ordered[i], digest) <==> ReadyAt(clone, ordered[i]))
    ensures Agrees(out, records, digest) <==> Ready(clone, records)
  {
    forall r | r in records ensures AgreesAt(out, r, digest) <==> ReadyAt(clone, r) {
      var i :| 0 <= i < |ordered| && ordered[i].path == r.path;
      assert ordered[i] in ordered;
      SamePathSame(source, r, ordered[i], clone, digest);
      SamePathSame(source, r, ordered[i], out, digest);
    }
  }

  lemma {:induction false} NestingSorted(records: seq<Record>)
    requires NoneInside(Paths(records))
    ensures NoneInside(SortBy(Paths(records), ByText()))
  {
    var xs, ys := Paths(records), SortBy(Paths(records), ByText());
    SortByFacts(xs, ByText());
    SortedPaths(records);
    forall i, j | 0 <= i < |ys| && 0 <= j < |ys| ensures !(Split(ys[i]) < Split(ys[j])) {
      assert ys[i] in ys && ys[j] in ys;
      var a :| 0 <= a < |xs| && xs[a] == ys[i];
      var b :| 0 <= b < |xs| && xs[b] == ys[j];
    }
  }

  /** Sorting neither brings together nor separates records of one path. */
  lemma {:induction false} SameDeletions(source: Tree, records: seq<Record>, ordered: seq<Record>,
                                         digest: string -> string)
    requires forall r :: r in records ==> RecordHolds(source, r, digest)
    requires Paths(ordered) == SortBy(Paths(records), ByText()) && forall r :: r in ordered ==> r in records
    ensures DeletedOnce(ordered) <==> DeletedOnce(records)
  {
    SortByFacts(Paths(records), ByText());
    if DeletedOnce(ordered) { OnceCarries(source, ordered, records, digest); }
    if DeletedOnce(records) { OnceCarries(source, records, ordered, digest); }
  }

  lemma {:induction false} OnceCarries(source: Tree, xs: seq<Record>, ys: seq<Record>, digest: string -> string)
    requires forall r :: r in xs || r in ys ==> RecordHolds(source, r, digest)
    requires multiset(Paths(xs)) == multiset(Paths(ys)) && DeletedOnce(xs)
    ensures DeletedOnce(ys)
  {
    forall i, j | 0 <= i < j < |ys| && ys[i].path == ys[j].path ensures ys[i].sha256.Some? && ys[j].sha256.Some? {
      assert Paths(ys)[i] == Paths(ys)[j] == ys[i].path;
      var a, b := RepeatedPermutation(Paths(ys), Paths(xs), i, j);
      assert xs[a].path == xs[b].path == ys[i].path && xs[a].sha256.Some?;
      assert xs[a] in xs && ys[i] in ys && ys[j] in ys;
      SamePathSame(source, xs[a], ys[i], source, digest);
      SamePathSame(source, xs[a], ys[j], source, digest);
    }
  }

  /** If a record lies below the name of the mapping file, a directory has taken that name. */
  ghost predicate MappingParent(tree: Tree, records: seq<Record>) {
    (exists r :: r in records && [MAPPING_NAME] < Split(r.path)) ==>
      [MAPPING_NAME] in tree && tree[[MAPPING_NAME]].Directory?
  }

  lemma {:induction false} MappingParentMade(source: Tree, clone: Tree, selected: seq<string>, records: seq<Record>)
    requires StaticCopy(source, clone, selected).Some?
    requires forall r :: r in records ==> r.path in selected
    ensures MappingParent(StaticCopy(source, clone, selected).value, records)
  {
    if r :| r in records && [MAPPING_NAME] < Split(r.path) {
      var i :| 0 <= i < |selected| && selected[i] == r.path;
      assert selected[..|selected|] == selected;
      ParentsMade(source, clone, selected, |selected|, i, 1);
      assert Split(r.path)[..1] == [MAPPING_NAME];
    }
  }

  lemma {:induction false} MappingPlace(before: Tree, after: Tree, records: seq<Record>, digest: string -> string)
    requires OthersKept(before, after, Paths(records)) && MappingParent(after, records)
    requires Copyable(before, records) && Agrees(after, records, digest)
    ensures MappingIsDirectory(before, records) <==> [MAPPING_NAME] in after && after[[MAPPING_NAME]].Directory?
  {
    if r :| r in records && Split(r.path) == [MAPPING_NAME] {
      assert ReadyAt(before, r) && AgreesAt(after, r, digest);
      forall q | q in records ensures !([MAPPING_NAME] < Split(q.path)) {
        var i :| 0 <= i < |records| && records[i] == r;
        var j :| 0 <= j < |records| && records[j] == q;
        assert Paths(records)[i] == r.path && Paths(records)[j] == q.path;
      }
    } else {
      MappingUnselected(before, after, records);
    }
  }

  lemma {:induction false} MappingUnselected(before: Tree, after: Tree, records: seq<Record>)
    requires OthersKept(before, after, Paths(records)) && MappingParent(after, records)
    requires forall r :: r in records ==> Split(r.path) != [MAPPING_NAME]
    ensures MappingIsDirectory(before, records) <==> [MAPPING_NAME] in after && after[[MAPPING_NAME]].Directory?
  {
    forall q | q in Paths(records) ensures [MAPPING_NAME] != Split(q) {
      var i :| 0 <= i < |records| && Paths(records)[i] == q;
      assert records[i] in records;
    }
    assert Unselected([MAPPING_NAME], Paths(records));
    if NewParent(before, after, [MAPPING_NAME], Paths(records)) {
      var q :| q in Paths(records) && [MAPPING_NAME] < Split(q);
      var i :| 0 <= i < |records| && Paths(records)[i] == q;
      assert records[i] in records;
    }
  }
}
