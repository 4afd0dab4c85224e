/**
 Evidence about replacement candidates of a missing reference: what staging writes, what the review
 recomputes from the files, and how the two agree.
 */
module CandidateEvidence {
  import opened Wrappers
  import opened Sequences
  import opened Sums
  import PhysicalReferences

  type Origin = PhysicalReferences.Origin

  // ---------------------------------------------------------------- matches and verdicts

  /** `origin.get("source_content_digest")` is neither missing nor empty. */
  predicate HasDigest(o: Origin) {
    o.sourceDigest.Some? && o.sourceDigest.value != ""
  }

  function DigestOrigins(origins: seq<Origin>): seq<Origin> {
    Filter(origins, HasDigest)
  }

  function CarriesDigest(sha256: string): Origin -> bool {
    (o: Origin) => o.sourceDigest == Some(sha256)
  }

  function MatchingOrigins(origins: seq<Origin>, sha256: string): seq<Origin> {
    Filter(DigestOrigins(origins), CarriesDigest(sha256))
  }

  predicate ContentMatch(origins: seq<Origin>, sha256: string) {
    && DigestOrigins(origins) != []
    && |DigestOrigins(origins)| == |origins|
    && |MatchingOrigins(origins, sha256)| == |DigestOrigins(origins)|
  }

  lemma {:induction false} FilterWhole<T>(xs: seq<T>, p: T -> bool)
    ensures |Filter(xs, p)| == |xs| <==> forall x :: x in xs ==> p(x)
    ensures |Filter(xs, p)| == |xs| ==> Filter(xs, p) == xs
  {
    if xs != [] {
      var n := |xs| - 1;
      FilterWhole(xs[..n], p);
      FilterMembers(xs[..n], p);
      FilterBound(xs[..n], p);
      assert xs == xs[..n] + [xs[n]];
      if forall x :: x in xs ==> p(x) {
        assert forall x :: x in xs[..n] ==> x in xs;
      } else {
        var x :| x in xs && !p(x);
        assert x in xs[..n] || x == xs[n];
      }
    }
  }

  lemma {:induction false} FilterBound<T>(xs: seq<T>, p: T -> bool)
    ensures |Filter(xs, p)| <= |xs|
  {
    if xs != [] { FilterBound(xs[..|xs| - 1], p); }
  }

  /** A match says that there are origins and that every one of them carries the candidate's digest. */
  lemma {:induction false} ContentMatchExact(origins: seq<Origin>, sha256: string)
    ensures ContentMatch(origins, sha256) <==>
      origins != [] && sha256 != "" && forall o :: o in origins ==> o.sourceDigest == Some(sha256)
  {
    FilterWhole(origins, HasDigest);
    FilterWhole(DigestOrigins(origins), CarriesDigest(sha256));
    if origins != [] {
      assert origins[0] in origins;
      if forall o :: o in origins ==> o.sourceDigest == Some(sha256) {
        if sha256 != "" {
          assert forall o :: o in origins ==> HasDigest(o);
        }
      }
    }
  }

  ghost function WithDigest(origins: seq<Origin>): set<int> {
    set i | 0 <= i < |origins| && origins[i].sourceDigest != None && origins[i].sourceDigest != Some("")
  }

  ghost function WithThisDigest(origins: seq<Origin>, sha256: string): set<int> {
    set i | 0 <= i < |origins| && origins[i].sourceDigest == Some(sha256) && sha256 != ""
  }

  /** The counts are the numbers of origins with a digest, and with this digest. */
  lemma {:induction false} OriginCounts(origins: seq<Origin>, sha256: string)
    ensures |DigestOrigins(origins)| == |WithDigest(origins)|
    ensures |MatchingOrigins(origins, sha256)| == |WithThisDigest(origins, sha256)|
  {
    var both := (o: Origin) => HasDigest(o) && CarriesDigest(sha256)(o);
    FilterCounts(origins, HasDigest);
    FilterTwice(origins, HasDigest, CarriesDigest(sha256), both);
    FilterCounts(origins, both);
    var with, withThis := Positions(origins, HasDigest), Positions(origins, both);
    assert WithDigest(origins) == with;
    assert WithThisDigest(origins, sha256) == withThis;
  }

  /** All confirmed candidates of one reference have the same content digest. */
  lemma {:induction false} ConfirmedShareDigest(origins: seq<Origin>, a: string, b: string)
    requires ContentMatch(origins, a) && ContentMatch(origins, b)
    ensures a == b
  {
    ContentMatchExact(origins, a);
    ContentMatchExact(origins, b);
    assert origins[0] in origins;
  }

  datatype Status = NoCandidate | UniqueConfirmed | AmbiguousConfirmed | Unconfirmed

  datatype Verification = Verification(status: Status, candidateCount: nat, confirmedCount: nat)

  /** The number of digests that match, in candidate order. */
  function Confirmed(origins: seq<Origin>, digests: seq<string>): nat {
    if digests == [] then 0
    else Confirmed(origins, digests[..|digests| - 1]) + (if ContentMatch(origins, digests[|digests| - 1]) then 1 else 0)
  }

  function StatusOf(count: nat, confirmed: nat): Status {
    if count == 0 then NoCandidate
    else if confirmed == 1 && count == 1 then UniqueConfirmed
    else if confirmed > 0 then AmbiguousConfirmed
    else Unconfirmed
  }

  function VerificationOf(origins: seq<Origin>, digests: seq<string>): Verification {
    Verification(StatusOf(|digests|, Confirmed(origins, digests)), |digests|, Confirmed(origins, digests))
  }

  lemma {:induction false} ConfirmedExact(origins: seq<Origin>, digests: seq<string>)
    ensures Confirmed(origins, digests) <= |digests|
    ensures Confirmed(origins, digests) > 0 <==> exists d :: d in digests && ContentMatch(origins, d)
  {
    if digests != [] {
      var n := |digests| - 1;
      ConfirmedExact(origins, digests[..n]);
      assert forall d :: d in digests <==> d in digests[..n] || d == digests[n];
      if ContentMatch(origins, digests[n]) { assert digests[n] in digests; }
    }
  }

  /** What each status means. */
  lemma {:induction false} StatusMeaning(origins: seq<Origin>, digests: seq<string>)
    ensures var v := VerificationOf(origins, digests);
      && (v.status == NoCandidate <==> digests == [])
      && (v.status == UniqueConfirmed <==> |digests| == 1 && ContentMatch(origins, digests[0]))
      && (v.status == AmbiguousConfirmed <==> |digests| > 1 && exists d :: d in digests && ContentMatch(origins, d))
      && (v.status == Unconfirmed <==> digests != [] && forall d :: d in digests ==> !ContentMatch(origins, d))
  {
    ConfirmedExact(origins, digests);
    if |digests| == 1 {
      assert digests[..0] == [];
      assert forall d :: d in digests ==> d == digests[0];
      assert digests[0] in digests;
    }
  }

  // ---------------------------------------------------------------- staging

  /** A candidate dict; the verification writes its last three fields. */
  class Candidate {
    const path: string
    const bytes: nat
    const sha256: string
    var contentDigestMatch: bool
    var matchingOriginCount: nat
    var digestOriginCount: nat

    constructor (path: string, bytes: nat, sha256: string)
      ensures this.path == path && this.bytes == bytes && this.sha256 == sha256
    {
      this.path, this.bytes, this.sha256 := path, bytes, sha256;
      contentDigestMatch, matchingOriginCount, digestOriginCount := false, 0, 0;
    }

    ghost predicate Describes(origins: seq<Origin>)
      reads this
    {
      && contentDigestMatch == ContentMatch(origins, sha256)
      && matchingOriginCount == |MatchingOrigins(origins, sha256)|
      && digestOriginCount == |DigestOrigins(origins)|
    }
  }

  function Digests(candidates: seq<Candidate>): seq<string> {
    seq(|candidates|, i requires 0 <= i < |candidates| => candidates[i].sha256)
  }

  /** `_candidate_verification`: every candidate is annotated, and the summary counts the matches. */
  method CandidateVerification(candidates: seq<Candidate>, origins: seq<Origin>) returns (v: Verification)
    modifies candidates
    ensures forall c :: c in candidates ==> c.Describes(origins)
    ensures v == VerificationOf(origins, Digests(candidates))
  {
    var digestOrigins := DigestOrigins(origins);
    for i := 0 to |candidates|
      invariant forall j :: 0 <= j < i ==> candidates[j].Describes(origins)
    {
      var candidate := candidates[i];
      var matching := MatchingOrigins(origins, candidate.sha256);
      candidate.contentDigestMatch :=
        digestOrigins != [] && |digestOrigins| == |origins| && |matching| == |digestOrigins|;
      candidate.matchingOriginCount := |matching|;
      candidate.digestOriginCount := |digestOrigins|;
    }
    var confirmed := 0;
    ghost var digests := Digests(candidates);
    for i := 0 to |candidates|
      invariant confirmed == Confirmed(origins, digests[..i])
    {
      assert digests[..i + 1][..i] == digests[..i];
      assert candidates[i].Describes(origins);
      if candidates[i].contentDigestMatch {
        confirmed := confirmed + 1;
      }
    }
    assert digests[..|candidates|] == digests;
    var status :=
      if candidates == [] then NoCandidate
      else if confirmed == 1 && |candidates| == 1 then UniqueConfirmed
      else if confirmed > 0 then AmbiguousConfirmed
      else Unconfirmed;
    v := Verification(status, |candidates|, confirmed);
  }

  // ---------------------------------------------------------------- review

  /** A directory entry: a regular file, or a link to the content of one. */
  datatype DiskEntry = RegularFile(content: string) | LinkTo(content: string)

  type Disk = map<string, DiskEntry>

  /** A candidate as the stage report lists it. */
  datatype Claim = Claim(path: string, sha256: string)

  datatype Item = Item(reference: string, origins: seq<Origin>, claims: seq<Claim>, verification: Verification)

  /** An origin as the review finds it in a report: a record, or the first thing that is wrong with it. */
  datatype OriginEvidence = UnsupportedFields | NoTableOrField | NoRowKey | Record(origin: Origin)

  /** An item as the review finds it: no list where one is expected, a candidate or a verification that is
      not an object, or what staging writes. */
  datatype Evidence = Evidence(
    origins: Option<seq<OriginEvidence>>,
    claims: Option<seq<Option<Claim>>>,
    verification: Option<Verification>)

  datatype Verified = Verified(path: string, bytes: nat, sha256: string, contentDigestMatch: bool,
                               matchingOriginCount: nat, digestOriginCount: nat)

  datatype Review =
    | Accepted(candidates: seq<Verified>, verification: Verification)
    | OriginsMissing
    | CandidatesMissing
    | OriginInvalid(origin: OriginEvidence)
    | CandidateInvalid
    | NotARegularFile(path: string)
    | DigestChanged(path: string)
    | VerificationMissing
    | VerificationTampered

  function Somes(claims: seq<Option<Claim>>): seq<Claim>
    requires forall c :: c in claims ==> c.Some?
  {
    seq(|claims|, i requires 0 <= i < |claims| => assert claims[i] in claims; claims[i].value)
  }

  function ClaimedDigests(claims: seq<Claim>): seq<string> {
    seq(|claims|, i requires 0 <= i < |claims| => claims[i].sha256)
  }

  predicate StillThere(disk: Disk, claim: Claim, hash: string -> string) {
    claim.path in disk && disk[claim.path].RegularFile? && hash(disk[claim.path].content) == claim.sha256
  }

  ghost predicate AllThere(disk: Disk, claims: seq<Option<Claim>>, hash: string -> string) {
    forall i :: 0 <= i < |claims| ==> claims[i].Some? && StillThere(disk, claims[i].value, hash)
  }

  function VerifiedOf(disk: Disk, claim: Claim, origins: seq<Origin>): Verified
    requires claim.path in disk
  {
    Verified(claim.path, |disk[claim.path].content|, claim.sha256, ContentMatch(origins, claim.sha256),
             |MatchingOrigins(origins, claim.sha256)|, |DigestOrigins(origins)|)
  }

  /** The i-th candidate is the first that is not the file it was, for the reason given. */
  ghost predicate StopsAt(claims: seq<Option<Claim>>, disk: Disk, hash: string -> string, i: nat, failure: Review)
    requires i < |claims|
  {
    && AllThere(disk, claims[..i], hash)
    && (claims[i].Some? ==> !StillThere(disk, claims[i].value, hash))
    && failure == (
         if claims[i].None? then CandidateInvalid
         else
           var path := claims[i].value.path;
           if path in disk && disk[path].RegularFile? then DigestChanged(path) else NotARegularFile(path))
  }

  /** `_verify_candidates`: stops at the first candidate that is not the file it was. */
  method VerifyCandidates(claims: seq<Option<Claim>>, origins: seq<Origin>, disk: Disk, hash: string -> string)
    returns (verified: seq<Verified>, failure: Option<Review>)
    ensures failure.None? <==> AllThere(disk, claims, hash)
    ensures failure.None? ==>
      && |verified| == |claims|
      && forall i :: 0 <= i < |claims| ==> verified[i] == VerifiedOf(disk, claims[i].value, origins)
    ensures failure.Some? ==> exists i :: 0 <= i < |claims| && StopsAt(claims, disk, hash, i, failure.value)
  {
    var digestOrigins := DigestOrigins(origins);
    verified := [];
    for i := 0 to |claims|
      invariant |verified| == i && AllThere(disk, claims[..i], hash)
      invariant forall j :: 0 <= j < i ==>
        claims[j] == claims[..i][j] && verified[j] == VerifiedOf(disk, claims[j].value, origins)
    {
      if claims[i].None? {
        assert StopsAt(claims, disk, hash, i, CandidateInvalid);
        return verified, Some(CandidateInvalid);
      }
      var claim := claims[i].value;
      if claim.path !in disk || !disk[claim.path].RegularFile? {
        assert StopsAt(claims, disk, hash, i, NotARegularFile(claim.path));
        return verified, Some(NotARegularFile(claim.path));
      }
      var content := disk[claim.path].content;
      var observed := hash(content);
      if claim.sha256 != observed {
        assert StopsAt(claims, disk, hash, i, DigestChanged(claim.path));
        return verified, Some(DigestChanged(claim.path));
      }
      var matching := |MatchingOrigins(origins, observed)|;
      var matches := digestOrigins != [] && |digestOrigins| == |origins| && matching == |digestOrigins|;
      verified := verified + [Verified(claim.path, |content|, observed, matches, matching, |digestOrigins|)];
    }
    assert claims[..|claims|] == claims;
    failure := None;
  }

  /** `_verification_from_candidates` */
  method VerificationFromCandidates(candidates: seq<Verified>, ghost origins: seq<Origin>, ghost digests: seq<string>)
    returns (v: Verification)
    requires |candidates| == |digests|
    requires forall i :: 0 <= i < |candidates| ==> candidates[i].contentDigestMatch == ContentMatch(origins, digests[i])
    ensures v == VerificationOf(origins, digests)
  {
    var confirmed := 0;
    for i := 0 to |candidates|
      invariant confirmed == Confirmed(origins, digests[..i])
    {
      assert digests[..i + 1][..i] == digests[..i];
      if candidates[i].contentDigestMatch {
        confirmed := confirmed + 1;
      }
    }
    assert digests[..|candidates|] == digests;
    v := Verification(StatusOf(|candidates|, confirmed), |candidates|, confirmed);
  }

  function Records(origins: seq<OriginEvidence>): seq<Origin>
    requires forall o :: o in origins ==> o.Record?
  {
    seq(|origins|, i requires 0 <= i < |origins| => assert origins[i] in origins; origins[i].origin)
  }

  /** `_digest_origins`: the origins, or the first that is no record. */
  method NormalizedOrigins(origins: seq<OriginEvidence>) returns (result: seq<Origin>, invalid: Option<OriginEvidence>)
    ensures invalid.None? <==> forall o :: o in origins ==> o.Record?
    ensures invalid.None? ==> result == Records(origins)
    ensures invalid.Some? ==> FirstInvalid(origins, invalid.value)
  {
    result := [];
    for i := 0 to |origins|
      invariant forall o :: o in origins[..i] ==> o.Record?
      invariant result == Records(origins[..i])
    {
      if !origins[i].Record? {
        return result, Some(origins[i]);
      }
      assert origins[..i + 1] == origins[..i] + [origins[i]];
      result := result + [origins[i].origin];
    }
    assert origins[..|origins|] == origins;
    invalid := None;
  }

  ghost predicate FirstInvalid(origins: seq<OriginEvidence>, invalid: OriginEvidence) {
    exists i ::
      0 <= i < |origins| && origins[i] == invalid && !invalid.Record? && forall o :: o in origins[..i] ==> o.Record?
  }

  /** There are origins, all of them records, and a list of candidates. */
  ghost predicate Readable(evidence: Evidence) {
    && evidence.origins.Some? && evidence.origins.value != [] && evidence.claims.Some?
    && forall o :: o in evidence.origins.value ==> o.Record?
  }

  /** The verification that the candidates of a readable item have. */
  ghost function VerificationFor(evidence: Evidence): Verification
    requires Readable(evidence) && forall c :: c in evidence.claims.value ==> c.Some?
  {
    VerificationOf(Records(evidence.origins.value), ClaimedDigests(Somes(evidence.claims.value)))
  }

  /** `_validate_candidate_evidence` */
  method ValidateCandidateEvidence(evidence: Evidence, disk: Disk, hash: string -> string) returns (review: Review)
    ensures review == OriginsMissing <==> evidence.origins.None? || evidence.origins.value == []
    ensures review == CandidatesMissing <==> review != OriginsMissing && evidence.claims.None?
    ensures review.OriginInvalid? <==> review != OriginsMissing && review != CandidatesMissing && !Readable(evidence)
    ensures review.OriginInvalid? ==> FirstInvalid(evidence.origins.value, review.origin)
    ensures review.Accepted? || review == VerificationMissing || review == VerificationTampered <==>
      Readable(evidence) && AllThere(disk, evidence.claims.value, hash)
    ensures Readable(evidence) && !AllThere(disk, evidence.claims.value, hash) ==>
      exists i :: 0 <= i < |evidence.claims.value| && StopsAt(evidence.claims.value, disk, hash, i, review)
    ensures Readable(evidence) && AllThere(disk, evidence.claims.value, hash) ==>
      && (review == VerificationMissing <==> evidence.verification.None?)
      && (review.Accepted? <==> evidence.verification == Some(VerificationFor(evidence)))
    ensures review.Accepted? ==>
      && review.verification == VerificationFor(evidence)
      && |review.candidates| == |evidence.claims.value|
      && forall i :: 0 <= i < |review.candidates| ==>
           review.candidates[i] == VerifiedOf(disk, evidence.claims.value[i].value, Records(evidence.origins.value))
  {
    if evidence.origins.None? || evidence.origins.value == [] {
      return OriginsMissing;
    }
    if evidence.claims.None? {
      return CandidatesMissing;
    }
    var origins, invalid := NormalizedOrigins(evidence.origins.value);
    if invalid.Some? {
      return OriginInvalid(invalid.value);
    }
    var verified, failure := VerifyCandidates(evidence.claims.value, origins, disk, hash);
    if failure.Some? {
      return failure.value;
    }
    var v := VerificationFromCandidates(verified, origins, ClaimedDigests(Somes(evidence.claims.value)));
    if evidence.verification.None? {
      return VerificationMissing;
    }
    if evidence.verification.value != v {
      return VerificationTampered;
    }
    review := Accepted(verified, v);
  }

  // ---------------------------------------------------------------- staging, then review

  /** What staging reports for one reference when it reads the files of a disk, through links too. */
  function Staged(reference: string, origins: seq<Origin>, paths: seq<string>, disk: Disk, hash: string -> string): Item
    requires forall p :: p in paths ==> p in disk
  {
    var claims := seq(|paths|, i requires 0 <= i < |paths| =>
      assert paths[i] in paths; Claim(paths[i], hash(disk[paths[i]].content)));
    Item(reference, origins, claims, VerificationOf(origins, ClaimedDigests(claims)))
  }

  /** The item as a report that holds it shows it. */
  function Reported(item: Item): Evidence {
    Evidence(
      Some(seq(|item.origins|, i requires 0 <= i < |item.origins| => Record(item.origins[i]))),
      Some(seq(|item.claims|, i requires 0 <= i < |item.claims| => Some(item.claims[i]))),
      Some(item.verification))
  }

  /** The review of a staged item, on any later state of the disk: the tamper check never fires, and the
      item is accepted exactly when every candidate is a regular file with the digest it had. */
  method ReviewStaged(reference: string, origins: seq<Origin>, paths: seq<string>,
                      before: Disk, after: Disk, hash: string -> string)
    returns (review: Review)
    requires forall p :: p in paths ==> p in before
    ensures review == OriginsMissing || review.Accepted? || review.NotARegularFile? || review.DigestChanged?
    ensures review == OriginsMissing <==> origins == []
    ensures review.NotARegularFile? ==>
      review.path in paths && !(review.path in after && after[review.path].RegularFile?)
    ensures review.DigestChanged? ==>
      && review.path in paths && review.path in after && after[review.path].RegularFile?
      && hash(after[review.path].content) != hash(before[review.path].content)
    ensures review.Accepted? <==> origins != [] && forall p :: p in paths ==>
      p in after && after[p].RegularFile? && hash(after[p].content) == hash(before[p].content)
    ensures review.Accepted? ==> review.verification == Staged(reference, origins, paths, before, hash).verification
    ensures after == before && origins != [] ==>
      (review.Accepted? <==> forall p :: p in paths ==> before[p].RegularFile?)
  {
    var item := Staged(reference, origins, paths, before, hash);
    assert Records(Reported(item).origins.value) == item.origins;
    assert Somes(Reported(item).claims.value) == item.claims;
    review := ValidateCandidateEvidence(Reported(item), after, hash);
    forall p | p in paths
      ensures exists i :: 0 <= i < |item.claims| && item.claims[i] == Claim(p, hash(before[p].content))
    {
      var i :| 0 <= i < |paths| && paths[i] == p;
      assert item.claims[i] == Claim(p, hash(before[p].content));
    }
    forall i | 0 <= i < |item.claims|
      ensures Reported(item).claims.value[i] == Some(item.claims[i]) && paths[i] in paths
      ensures item.claims[i] == Claim(paths[i], hash(before[paths[i]].content))
    {
    }
  }

  /** A candidate that is a link is staged and then refused, although nothing changed. */
  method ReviewALink(origin: Origin, hash: string -> string) returns (review: Review)
    ensures review == NotARegularFile("a")
  {
    var disk := map["a" := LinkTo("content")];
    review := ReviewStaged("a", [origin], ["a"], disk, disk, hash);
    assert "a" in ["a"] && !disk["a"].RegularFile?;
    assert !review.DigestChanged?;
  }

  // ---------------------------------------------------------------- decisions and counts

  datatype Decision = ReviewSingle | SelectOne | UnresolvedNoCandidate | UnresolvedNotConfirmed

  function DecisionOf(status: Status): Decision {
    match status
    case UniqueConfirmed => ReviewSingle
    case AmbiguousConfirmed => SelectOne
    case NoCandidate => UnresolvedNoCandidate
    case Unconfirmed => UnresolvedNotConfirmed
  }

  /** What the review manifest asks for, from the digests. */
  lemma {:induction false} DecisionMeaning(origins: seq<Origin>, digests: seq<string>)
    ensures var d := DecisionOf(VerificationOf(origins, digests).status);
      && (d == ReviewSingle <==> |digests| == 1 && Confirms(origins, digests[0]))
      && (d == SelectOne <==> |digests| >= 2 && exists i :: 0 <= i < |digests| && Confirms(origins, digests[i]))
      && (d == UnresolvedNoCandidate <==> |digests| == 0)
      && (d == UnresolvedNotConfirmed <==>
          |digests| >= 1 && forall i :: 0 <= i < |digests| ==> !Confirms(origins, digests[i]))
  {
    StatusMeaning(origins, digests);
    forall x ensures ContentMatch(origins, x) <==> Confirms(origins, x) { ContentMatchExact(origins, x); }
  }

  /** Every origin, and there is one, carries this digest. */
  ghost predicate Confirms(origins: seq<Origin>, sha256: string) {
    sha256 != "" && origins != [] && forall o :: o in origins ==> o.sourceDigest == Some(sha256)
  }

  function Decisions(statuses: seq<Status>): seq<Decision> {
    seq(|statuses|, i requires 0 <= i < |statuses| => DecisionOf(statuses[i]))
  }

  /** The counting loop of the review manifest. */
  method CountDecisions(decisions: seq<Decision>) returns (counts: map<Decision, nat>)
    ensures forall d :: d in counts <==> d in decisions
    ensures forall d :: d in counts ==> counts[d] == Count(decisions, d)
    ensures SumOver(counts.Keys, d => Count(decisions, d)) == |decisions|
  {
    counts := map[];
    for i := 0 to |decisions|
      invariant forall d :: d in counts <==> d in decisions[..i]
      invariant forall d :: d in counts ==> counts[d] == Count(decisions[..i], d)
    {
      var d := decisions[i];
      assert decisions[..i + 1][..i] == decisions[..i];
      assert decisions[..i + 1] == decisions[..i] + [d];
      if d !in counts { CountAbsent(decisions[..i], d); }
      counts := counts[d := (if d in counts then counts[d] else 0) + 1];
    }
    assert decisions[..|decisions|] == decisions;
    CountsAddUp(decisions, counts.Keys);
  }

  lemma {:induction false} CountAbsent<T>(xs: seq<T>, k: T)
    requires k !in xs
    ensures Count(xs, k) == 0
  {
    if xs != [] {
      assert xs[|xs| - 1] in xs;
      assert forall x :: x in xs[..|xs| - 1] ==> x in xs;
      CountAbsent(xs[..|xs| - 1], k);
    }
  }

  /** The decision counts of the review repeat the status counts of the stage report. */
  lemma {:induction false} DecisionCountsMirrorStatuses(statuses: seq<Status>, s: Status)
    ensures Count(Decisions(statuses), DecisionOf(s)) == Count(statuses, s)
  {
    if statuses != [] {
      var n := |statuses| - 1;
      DecisionCountsMirrorStatuses(statuses[..n], s);
      assert Decisions(statuses)[..n] == Decisions(statuses[..n]);
    }
  }

  function CountSized(items: seq<Item>, p: nat -> bool): nat {
    if items == [] then 0
    else CountSized(items[..|items| - 1], p) + (if p(|items[|items| - 1].claims|) then 1 else 0)
  }

  function Statuses(items: seq<Item>): seq<Status> {
    seq(|items|, i requires 0 <= i < |items| => items[i].verification.status)
  }

  /** The triage of the stage report splits the missing references, and its first class is the one with
      status no-candidate. */
  lemma {:induction false} TriageAddsUp(items: seq<Item>)
    requires forall i :: 0 <= i < |items| ==>
      items[i].verification == VerificationOf(items[i].origins, ClaimedDigests(items[i].claims))
    ensures CountSized(items, n => n == 0) + CountSized(items, n => n == 1) + CountSized(items, n => n > 1) == |items|
    ensures CountSized(items, n => n == 0) == Count(Statuses(items), NoCandidate)
    ensures Count(Statuses(items), UniqueConfirmed) <= CountSized(items, n => n == 1)
    ensures Count(Statuses(items), AmbiguousConfirmed) <= CountSized(items, n => n > 1)
  {
    if items != [] {
      var n := |items| - 1;
      TriageAddsUp(items[..n]);
      assert Statuses(items)[..n] == Statuses(items[..n]);
      var last := items[n];
      StatusMeaning(last.origins, ClaimedDigests(last.claims));
      assert |ClaimedDigests(last.claims)| == |last.claims|;
    }
  }
}
