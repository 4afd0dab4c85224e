/**
 The boundary review of runtime probes: building the queue of pending reviews from a registry, and
 preparing the reviewed registry from explicit approvals.  Reviews are objects of the loaded document,
 rewritten in place; two probes may share one, as a YAML alias makes them.
 */
module RuntimeReview {
  import opened Wrappers
  import opened Sequences
  import opened Ordering

  class BoundaryReview {
    const reason: string
    var status: string
    var approvalReviewId: string
    var approvalSource: string

    constructor (reason: string, status: string)
      ensures this.reason == reason && this.status == status
      ensures approvalReviewId == "" && approvalSource == ""
    {
      this.reason, this.status := reason, status;
      approvalReviewId, approvalSource := "", "";
    }

    /** The explicit approval of a pending review. */
    method Approve(reviewId: string)
      modifies this
      ensures StateOf(this) == Some(ReviewState("reviewed", reviewId, APPROVAL_SOURCE))
    {
      status := "reviewed";
      approvalReviewId := reviewId;
      approvalSource := APPROVAL_SOURCE;
    }
  }

  /** A probe of a loaded registry; `review` is null when the document has no mapping there. */
  datatype Probe = Probe(id: string, family: string, reference: string, review: BoundaryReview?)

  /** What the runtime report of a probe shows, when its output is a portable path to a valid report. */
  datatype Observation = Observation(graphDigest: string, loadedModules: nat, edges: nat, outputDigest: string)

  /** The reviewed evidence of one probe: everything an item holds but its review ID. */
  datatype Evidence =
    Evidence(probeId: string, family: string, reference: string, reason: string, observation: Observation)

  datatype QueueItem = QueueItem(evidence: Evidence, reviewId: string)

  predicate Pending(p: Probe)
    reads p.review
  {
    p.review != null && p.review.status == "pending"
  }

  ghost predicate UniqueIds(probes: seq<Probe>) {
    forall i, j :: 0 <= i < j < |probes| ==> probes[i].id != probes[j].id
  }

  ghost function Reviews(probes: seq<Probe>): set<BoundaryReview> {
    set i | 0 <= i < |probes| && probes[i].review != null :: probes[i].review
  }

  function ByProbe(): QueueItem -> seq<string> {
    (item: QueueItem) => [item.evidence.probeId]
  }

  /** The item of a pending probe. */
  function ItemOf(p: Probe, observation: Observation, reviewIdOf: Evidence -> string): QueueItem
    requires p.review != null
  {
    var evidence := Evidence(p.id, p.family, p.reference, p.review.reason, observation);
    QueueItem(evidence, reviewIdOf(evidence))
  }

  /** The items of the pending probes, in registry order; every one of them must have been observed. */
  function PendingItems(probes: seq<Probe>, observe: string -> Option<Observation>,
                        reviewIdOf: Evidence -> string): seq<QueueItem>
    reads set i | 0 <= i < |probes| && probes[i].review != null :: probes[i].review
    requires forall i :: 0 <= i < |probes| && Pending(probes[i]) ==> observe(probes[i].id).Some?
  {
    if probes == [] then []
    else
      var n := |probes| - 1;
      PendingItems(probes[..n], observe, reviewIdOf) +
      (if Pending(probes[n]) then [ItemOf(probes[n], observe(probes[n].id).value, reviewIdOf)] else [])
  }

  lemma {:induction false} PendingItemsExact(probes: seq<Probe>, observe: string -> Option<Observation>,
                                             reviewIdOf: Evidence -> string)
    requires forall i :: 0 <= i < |probes| && Pending(probes[i]) ==> observe(probes[i].id).Some?
    ensures forall item :: item in PendingItems(probes, observe, reviewIdOf) <==>
      exists i ::
        0 <= i < |probes| && Pending(probes[i]) && item == ItemOf(probes[i], observe(probes[i].id).value, reviewIdOf)
  {
    if probes != [] {
      var n := |probes| - 1;
      PendingItemsExact(probes[..n], observe, reviewIdOf);
      forall item ensures item in PendingItems(probes, observe, reviewIdOf) <==>
        exists i ::
          0 <= i < |probes| && Pending(probes[i]) && item == ItemOf(probes[i], observe(probes[i].id).value, reviewIdOf)
      {
        if item in PendingItems(probes[..n], observe, reviewIdOf) {
          var i :| 0 <= i < n && Pending(probes[..n][i])
            && item == ItemOf(probes[..n][i], observe(probes[..n][i].id).value, reviewIdOf);
          assert probes[i] == probes[..n][i];
        }
        if i :|
          0 <= i < |probes| && Pending(probes[i]) && item == ItemOf(probes[i], observe(probes[i].id).value, reviewIdOf)
        {
          if i < n { assert probes[..n][i] == probes[i]; }
        }
      }
    }
  }

  /** The item shows the probe, its review and what was observed of it, under the ID of that evidence. */
  ghost predicate Shows(item: QueueItem, p: Probe, observe: string -> Option<Observation>,
                        reviewIdOf: Evidence -> string)
    reads p.review
  {
    && p.review != null && item.evidence.probeId == p.id && item.evidence.family == p.family
    && item.evidence.reference == p.reference && item.evidence.reason == p.review.reason
    && observe(p.id) == Some(item.evidence.observation) && item.reviewId == reviewIdOf(item.evidence)
  }

  /** Every item shows a pending probe, and every pending probe is shown. */
  lemma {:induction false} PendingItemsShow(probes: seq<Probe>, observe: string -> Option<Observation>,
                                            reviewIdOf: Evidence -> string)
    requires forall i :: 0 <= i < |probes| && Pending(probes[i]) ==> observe(probes[i].id).Some?
    ensures forall item :: item in PendingItems(probes, observe, reviewIdOf) <==>
      exists i :: 0 <= i < |probes| && Pending(probes[i]) && Shows(item, probes[i], observe, reviewIdOf)
  {
    PendingItemsExact(probes, observe, reviewIdOf);
    forall item: QueueItem, i | 0 <= i < |probes| && Pending(probes[i])
      ensures item == ItemOf(probes[i], observe(probes[i].id).value, reviewIdOf) <==>
        Shows(item, probes[i], observe, reviewIdOf)
    {
    }
  }

  /** `QueueRefused` is the validation of the finished queue. */
  datatype QueueResult =
    | Queue(items: seq<QueueItem>)
    | ReplayUnmatched
    | ProbeInvalid(id: string)
    | CoverageMismatch
    | QueueRefused

  /** What surrounds the items of a queue: the replay must match every probe, and the finished queue is
      validated against its schema. */
  datatype QueueChecks = QueueChecks(replayMatched: bool, accepts: seq<QueueItem> -> bool)

  ghost predicate AllObserved(probes: seq<Probe>, observe: string -> Option<Observation>)
    reads Reviews(probes)
  {
    forall i :: 0 <= i < |probes| && Pending(probes[i]) ==> observe(probes[i].id).Some?
  }

  function ItemProbes(items: seq<QueueItem>): set<string> {
    set i | 0 <= i < |items| :: items[i].evidence.probeId
  }

  function PendingIds(probes: seq<Probe>): set<string>
    reads set i | 0 <= i < |probes| && probes[i].review != null :: probes[i].review
  {
    set i | 0 <= i < |probes| && Pending(probes[i]) :: probes[i].id
  }

  /** The i-th probe is the first pending one without valid evidence. */
  ghost predicate FirstInvalid(probes: seq<Probe>, observe: string -> Option<Observation>, i: nat)
    reads set k | 0 <= k < |probes| && probes[k].review != null :: probes[k].review
  {
    && i < |probes| && Pending(probes[i]) && observe(probes[i].id).None?
    && forall j :: 0 <= j < i && Pending(probes[j]) ==> observe(probes[j].id).Some?
  }

  /** `build_review_queue`: the queue covers exactly the pending probes, so its own coverage check never
      fires; it fails at an unmatched replay, at the first pending probe without valid evidence, or when the
      schema refuses the finished queue, and only then. */
  method BuildReviewQueue(probes: seq<Probe>, observe: string -> Option<Observation>, reviewIdOf: Evidence -> string,
                          checks: QueueChecks)
    returns (result: QueueResult)
    ensures result != CoverageMismatch
    ensures result == ReplayUnmatched <==> !checks.replayMatched
    ensures checks.replayMatched ==> (result.ProbeInvalid? <==> !AllObserved(probes, observe))
    ensures result.ProbeInvalid? ==> exists i: nat :: FirstInvalid(probes, observe, i) && probes[i].id == result.id
    ensures checks.replayMatched && AllObserved(probes, observe) ==>
      var items := SortBy(PendingItems(probes, observe, reviewIdOf), ByProbe());
      && ItemProbes(items) == PendingIds(probes)
      && result == if checks.accepts(items) then Queue(items) else QueueRefused
    ensures result.Queue? ==>
      && (forall i, j :: 0 <= i < j < |result.items| ==>
           StrLe(result.items[i].evidence.probeId, result.items[j].evidence.probeId))
      && forall item :: item in result.items <==>
           exists i :: 0 <= i < |probes| && Pending(probes[i]) && Shows(item, probes[i], observe, reviewIdOf)
  {
    if !checks.replayMatched {
      return ReplayUnmatched;
    }
    var items: seq<QueueItem> := [];
    for i := 0 to |probes|
      invariant forall j :: 0 <= j < i && Pending(probes[j]) ==> observe(probes[j].id).Some?
      invariant items == PendingItems(probes[..i], observe, reviewIdOf)
    {
      var probe := probes[i];
      assert probes[..i + 1][..i] == probes[..i];
      if probe.review == null || probe.review.status != "pending" {
        continue;
      }
      if observe(probe.id).None? {
        assert FirstInvalid(probes, observe, i);
        return ProbeInvalid(probe.id);
      }
      var evidence :=
        Evidence(probe.id, probe.family, probe.reference, probe.review.reason, observe(probe.id).value);
      items := items + [QueueItem(evidence, reviewIdOf(evidence))];
    }
    assert probes[..|probes|] == probes;
    var sorted := SortBy(items, ByProbe());
    CoverageHolds(probes, observe, reviewIdOf);
    SortedShow(probes, observe, reviewIdOf);
    if ItemProbes(sorted) != PendingIds(probes) {
      return CoverageMismatch;
    }
    result := if checks.accepts(sorted) then Queue(sorted) else QueueRefused;
  }

  /** The sorted items are in the order of their probe IDs and show the same probes. */
  lemma {:induction false} SortedShow(probes: seq<Probe>, observe: string -> Option<Observation>,
                                      reviewIdOf: Evidence -> string)
    requires forall i :: 0 <= i < |probes| && Pending(probes[i]) ==> observe(probes[i].id).Some?
    ensures var sorted := SortBy(PendingItems(probes, observe, reviewIdOf), ByProbe());
      && (forall i, j :: 0 <= i < j < |sorted| ==> StrLe(sorted[i].evidence.probeId, sorted[j].evidence.probeId))
      && forall item :: item in sorted <==>
           exists i :: 0 <= i < |probes| && Pending(probes[i]) && Shows(item, probes[i], observe, reviewIdOf)
  {
    var items := PendingItems(probes, observe, reviewIdOf);
    var sorted := SortBy(items, ByProbe());
    SortByFacts(items, ByProbe());
    PendingItemsShow(probes, observe, reviewIdOf);
    forall item ensures item in sorted <==> item in items {
      assert item in sorted <==> item in multiset(sorted);
      assert item in items <==> item in multiset(items);
    }
    forall i, j | 0 <= i < j < |sorted| ensures StrLe(sorted[i].evidence.probeId, sorted[j].evidence.probeId) {
      assert KeyLe(ByProbe()(sorted[i]), ByProbe()(sorted[j]));
      KeyLeSingle(sorted[i].evidence.probeId, sorted[j].evidence.probeId);
    }
  }

  lemma {:induction false} CoverageHolds(probes: seq<Probe>, observe: string -> Option<Observation>,
                                         reviewIdOf: Evidence -> string)
    requires forall i :: 0 <= i < |probes| && Pending(probes[i]) ==> observe(probes[i].id).Some?
    ensures ItemProbes(SortBy(PendingItems(probes, observe, reviewIdOf), ByProbe())) == PendingIds(probes)
  {
    var items := PendingItems(probes, observe, reviewIdOf);
    var sorted := SortBy(items, ByProbe());
    SortByFacts(items, ByProbe());
    PendingItemsExact(probes, observe, reviewIdOf);
    forall id ensures id in ItemProbes(sorted) <==> id in PendingIds(probes) {
      if id in ItemProbes(sorted) {
        var k :| 0 <= k < |sorted| && sorted[k].evidence.probeId == id;
        assert sorted[k] in multiset(sorted);
        assert sorted[k] in items;
      }
      if id in PendingIds(probes) {
        var i :| 0 <= i < |probes| && Pending(probes[i]) && probes[i].id == id;
        var item := ItemOf(probes[i], observe(id).value, reviewIdOf);
        assert item in items;
        assert item in multiset(sorted);
        var k :| 0 <= k < |sorted| && sorted[k] == item;
        assert sorted[k].evidence.probeId == id;
      }
    }
  }

  // ---------------------------------------------------------------- preparing the reviewed registry

  /** `CandidateIncomplete` is the validation of the candidate as complete. */
  datatype PrepareResult =
    | Prepared | ApprovalsInvalid | ApprovalsIncomplete | ReplayIncomplete | MissingItem(id: string)
    | CandidateIncomplete | AlreadyComplete

  /** What else the validation of the candidate looks at: the probe families, the probe outputs, and whether
      the registry was complete before. */
  datatype Closing = Closing(familiesCovered: bool, outputsValid: bool, alreadyComplete: bool)

  /** What a replay of the probes reports. */
  datatype Replay = Replay(matched: bool, replayed: seq<string>, mismatched: seq<string>, skipped: seq<string>)

  function ProbeIds(probes: seq<Probe>): set<string> {
    set i | 0 <= i < |probes| :: probes[i].id
  }

  /** The check before the approvals, which looks at the replayed IDs as a set. */
  predicate Matches(replay: Replay, probes: seq<Probe>) {
    && replay.matched && (set r | r in replay.replayed) == ProbeIds(probes)
    && replay.mismatched == [] && replay.skipped == []
  }

  function ReviewIds(items: seq<QueueItem>): set<string> {
    set i | 0 <= i < |items| :: items[i].reviewId
  }

  /** `{item["probe_id"]: item["review_id"] for item in items}` */
  function ApprovedByProbe(items: seq<QueueItem>): map<string, string> {
    if items == [] then map[]
    else
      var last := items[|items| - 1];
      ApprovedByProbe(items[..|items| - 1])[last.evidence.probeId := last.reviewId]
  }

  /** The first probe that shares the review of the i-th. */
  function FirstSharing(probes: seq<Probe>, i: nat): (k: nat)
    requires i < |probes|
    ensures k <= i && probes[k].review == probes[i].review
    ensures forall j :: 0 <= j < k ==> probes[j].review != probes[i].review
  {
    SharerFrom(probes, i, 0)
  }

  function SharerFrom(probes: seq<Probe>, i: nat, from: nat): (k: nat)
    requires from <= i < |probes|
    requires forall j :: 0 <= j < from ==> probes[j].review != probes[i].review
    ensures k <= i && probes[k].review == probes[i].review
    ensures forall j :: 0 <= j < k ==> probes[j].review != probes[i].review
    decreases i - from
  {
    if probes[from].review == probes[i].review then from else SharerFrom(probes, i, from + 1)
  }

  datatype ReviewState = ReviewState(status: string, approvalReviewId: string, approvalSource: string)

  function StateOf(review: BoundaryReview?): Option<ReviewState>
    reads review
  {
    if review == null then None
    else Some(ReviewState(review.status, review.approvalReviewId, review.approvalSource))
  }

  /** The states of all reviews, probe by probe. */
  function States(probes: seq<Probe>): (states: seq<Option<ReviewState>>)
    ensures |states| == |probes|
    ensures forall i :: 0 <= i < |probes| ==> states[i] == StateOf(probes[i].review)
    reads set i | 0 <= i < |probes| && probes[i].review != null :: probes[i].review
  {
    seq(|probes|, i requires 0 <= i < |probes|
      reads set k | 0 <= k < |probes| && probes[k].review != null :: probes[k].review
      => StateOf(probes[i].review))
  }

  predicate IsPending(state: Option<ReviewState>) {
    state.Some? && state.value.status == "pending"
  }

  /** The state of the i-th review after the approvals. */
  function ApprovedState(probes: seq<Probe>, before: seq<Option<ReviewState>>, approved: map<string, string>,
                         i: nat): Option<ReviewState>
    requires i < |probes| == |before|
  {
    var id := probes[FirstSharing(probes, i)].id;
    if IsPending(before[i]) then
      Some(ReviewState("reviewed", if id in approved then approved[id] else "", APPROVAL_SOURCE))
    else before[i]
  }

  /** Some pending probe has this name, and no approval. */
  ghost predicate Unapproved(probes: seq<Probe>, before: seq<Option<ReviewState>>, approved: map<string, string>,
                             id: string)
    requires |before| == |probes|
  {
    id !in approved && exists i :: 0 <= i < |probes| && IsPending(before[i]) && probes[i].id == id
  }

  /** The reviews whose first probe is before the i-th are as the approvals leave them; the others are as before. */
  ghost predicate ApprovedUpTo(probes: seq<Probe>, before: seq<Option<ReviewState>>, approved: map<string, string>,
                               i: nat, states: seq<Option<ReviewState>>)
    requires |states| == |before| == |probes|
  {
    forall j :: 0 <= j < |probes| ==>
      states[j] == if FirstSharing(probes, j) < i then ApprovedState(probes, before, approved, j) else before[j]
  }

  lemma {:induction false} Skipped(probes: seq<Probe>, before: seq<Option<ReviewState>>, approved: map<string, string>,
                                   i: nat, states: seq<Option<ReviewState>>)
    requires |states| == |before| == |probes| && i < |probes| && ApprovedUpTo(probes, before, approved, i, states)
    requires forall j :: 0 <= j < |probes| && probes[j].review == probes[i].review ==> states[j] == states[i]
    requires !IsPending(states[i])
    ensures ApprovedUpTo(probes, before, approved, i + 1, states)
  {
    forall j | 0 <= j < |probes| && FirstSharing(probes, j) == i
      ensures ApprovedState(probes, before, approved, j) == before[j]
    {
      assert probes[j].review == probes[i].review;
    }
  }

  /** The state of the j-th review when that of the i-th was approved. */
  function Shared(probes: seq<Probe>, i: nat, j: nat, reviewId: string, state: Option<ReviewState>): Option<ReviewState>
    requires i < |probes| && j < |probes|
  {
    if probes[j].review == probes[i].review then Some(ReviewState("reviewed", reviewId, APPROVAL_SOURCE)) else state
  }

  /** Approving the review of the i-th probe, whose first probe that is. */
  lemma {:induction false} ApproveStep(probes: seq<Probe>, before: seq<Option<ReviewState>>,
                                       approved: map<string, string>, i: nat, states: seq<Option<ReviewState>>,
                                       after: seq<Option<ReviewState>>)
    requires |after| == |states| == |before| == |probes| && i < |probes|
    requires ApprovedUpTo(probes, before, approved, i, states)
    requires FirstSharing(probes, i) == i && IsPending(states[i]) && probes[i].id in approved
    requires forall j :: 0 <= j < |probes| && probes[j].review == probes[i].review ==> states[j] == states[i]
    requires forall j :: 0 <= j < |probes| ==> after[j] == Shared(probes, i, j, approved[probes[i].id], states[j])
    ensures ApprovedUpTo(probes, before, approved, i + 1, after)
  {
    SharersOf(probes, i);
  }

  const APPROVAL_SOURCE := "explicit-local-review-queue"

  /** Every pending review has an approval for the first probe that shares it. */
  ghost predicate Covered(probes: seq<Probe>, before: seq<Option<ReviewState>>, approved: map<string, string>, n: nat)
    requires n <= |probes| == |before|
  {
    forall i :: 0 <= i < n && FirstSharing(probes, i) == i && IsPending(before[i]) ==> probes[i].id in approved
  }

  /** The loop halted at the i-th probe, which is pending and has no approval, with those before it approved. */
  ghost predicate HaltedAt(probes: seq<Probe>, before: seq<Option<ReviewState>>, approved: map<string, string>, i: nat,
                           states: seq<Option<ReviewState>>, id: string)
    requires |states| == |before| == |probes|
  {
    && i < |probes| && IsPending(before[i]) && FirstSharing(probes, i) == i
    && probes[i].id == id && id !in approved
    && ApprovedUpTo(probes, before, approved, i, states)
  }

  /** The loop over the probes: it stops at the first pending probe without an approval. */
  method ApprovePending(probes: seq<Probe>, approved: map<string, string>) returns (missing: Option<string>)
    modifies Reviews(probes)
    ensures missing.None? ==> ApprovedUpTo(probes, old(States(probes)), approved, |probes|, States(probes))
    ensures missing.None? <==> Covered(probes, old(States(probes)), approved, |probes|)
    ensures missing.Some? ==>
      && Unapproved(probes, old(States(probes)), approved, missing.value)
      && exists i: nat :: HaltedAt(probes, old(States(probes)), approved, i, States(probes), missing.value)
  {
    ghost var before := States(probes);
    for i := 0 to |probes|
      invariant ApprovedUpTo(probes, before, approved, i, States(probes))
      invariant Covered(probes, before, approved, i)
    {
      var probe := probes[i];
      ghost var states := States(probes);
      assert states[i] == StateOf(probe.review);
      if probe.review == null || probe.review.status != "pending" {
        Skipped(probes, before, approved, i, states);
        continue;
      }
      FirstPending(probes, before, approved, i, states);
      if probe.id !in approved {
        assert HaltedAt(probes, before, approved, i, states, probe.id);
        return Some(probe.id);
      }
      probe.review.Approve(approved[probe.id]);
      ApproveStep(probes, before, approved, i, states, States(probes));
    }
    missing := None;
  }

  /** A probe met as pending is the first that shares its review. */
  lemma {:induction false} FirstPending(probes: seq<Probe>, before: seq<Option<ReviewState>>,
                                        approved: map<string, string>, i: nat, states: seq<Option<ReviewState>>)
    requires |states| == |before| == |probes| && i < |probes| && ApprovedUpTo(probes, before, approved, i, states)
    requires IsPending(states[i])
    ensures FirstSharing(probes, i) == i && states[i] == before[i]
  {
  }

  /** The probes that share a review whose first probe is the i-th are those with that first probe. */
  lemma {:induction false} SharersOf(probes: seq<Probe>, i: nat)
    requires i < |probes| && FirstSharing(probes, i) == i
    ensures forall j :: 0 <= j < |probes| ==> (probes[j].review == probes[i].review <==> FirstSharing(probes, j) == i)
  {
  }

  /** The approvals were written, and the candidate was validated. */
  predicate GotThrough(result: PrepareResult) {
    result.Prepared? || result.CandidateIncomplete? || result.AlreadyComplete?
  }

  /** The verdict on a candidate whose pending reviews are approved. */
  ghost function Closed(closing: Closing, replay: Replay, before: seq<Option<ReviewState>>): PrepareResult {
    if !closing.familiesCovered || !closing.outputsValid || !AllPendingOrReviewed(before) then CandidateIncomplete
    else if !Distinct(replay.replayed) then CandidateIncomplete
    else if closing.alreadyComplete then AlreadyComplete else Prepared
  }

  /** `prepare_reviewed_registry`.  A shared review gets the approval of the first probe that shares it;
      reviews that are not pending are left as they are; and the candidate is complete exactly when every
      probe had a review that was pending or reviewed and was replayed once. */
  method PrepareReviewedRegistry(probes: seq<Probe>, items: seq<QueueItem>, requested: seq<string>,
                                 replay: Replay, closing: Closing)
    returns (result: PrepareResult)
    modifies Reviews(probes)
    ensures result == ApprovalsInvalid <==> requested == [] || !Distinct(requested)
    ensures result == ApprovalsIncomplete <==>
      requested != [] && Distinct(requested) && (set r | r in requested) != ReviewIds(items)
    ensures result == ReplayIncomplete <==> AllApproved(requested, items) && !Matches(replay, probes)
    ensures result.ApprovalsInvalid? || result.ApprovalsIncomplete? || result.ReplayIncomplete? ==>
      States(probes) == old(States(probes))
    ensures AllApproved(requested, items) && Matches(replay, probes) ==>
      (result.MissingItem? <==> !Covered(probes, old(States(probes)), ApprovedByProbe(items), |probes|))
    ensures result.MissingItem? ==>
      && Unapproved(probes, old(States(probes)), ApprovedByProbe(items), result.id)
      && exists i: nat :: HaltedAt(probes, old(States(probes)), ApprovedByProbe(items), i, States(probes), result.id)
    ensures GotThrough(result) ==>
      && AllApproved(requested, items) && Matches(replay, probes)
      && result == Closed(closing, replay, old(States(probes)))
      && forall i :: 0 <= i < |probes| ==>
           States(probes)[i] == ApprovedState(probes, old(States(probes)), ApprovedByProbe(items), i)
  {
    if requested == [] || !Distinct(requested) {
      return ApprovalsInvalid;
    }
    if (set r | r in requested) != ReviewIds(items) {
      return ApprovalsIncomplete;
    }
    if !replay.matched || (set r | r in replay.replayed) != ProbeIds(probes) {
      return ReplayIncomplete;
    }
    if replay.mismatched != [] || replay.skipped != [] {
      return ReplayIncomplete;
    }
    ghost var before := States(probes);
    var missing := ApprovePending(probes, ApprovedByProbe(items));
    if missing.Some? {
      return MissingItem(missing.value);
    }
    ReviewedAfter(probes, before, States(probes), ApprovedByProbe(items));
    if !closing.outputsValid || !closing.familiesCovered || !AllReviewed(States(probes)) {
      return CandidateIncomplete;
    }
    SizeOfMembers(replay.replayed);
    if |replay.replayed| != |ProbeIds(probes)| {
      return CandidateIncomplete;
    }
    result := if closing.alreadyComplete then AlreadyComplete else Prepared;
  }

  lemma {:induction false} ReviewedAfter(probes: seq<Probe>, before: seq<Option<ReviewState>>,
                                         states: seq<Option<ReviewState>>, approved: map<string, string>)
    requires |states| == |before| == |probes| && ApprovedUpTo(probes, before, approved, |probes|, states)
    ensures forall i :: 0 <= i < |probes| ==> states[i] == ApprovedState(probes, before, approved, i)
    ensures AllReviewed(states) <==> AllPendingOrReviewed(before)
  {
    forall i | 0 <= i < |probes|
      ensures states[i] == ApprovedState(probes, before, approved, i)
        && (Reviewed(states[i]) <==> PendingOrReviewed(before[i]))
    {
    }
  }

  /** The caller names every review ID of the queue, each once. */
  ghost predicate AllApproved(requested: seq<string>, items: seq<QueueItem>) {
    requested != [] && Distinct(requested) && (set r | r in requested) == ReviewIds(items)
  }

  predicate Reviewed(state: Option<ReviewState>) {
    state.Some? && state.value.status == "reviewed"
  }

  predicate AllReviewed(states: seq<Option<ReviewState>>) {
    forall i :: 0 <= i < |states| ==> Reviewed(states[i])
  }

  ghost predicate AllPendingOrReviewed(states: seq<Option<ReviewState>>) {
    forall i :: 0 <= i < |states| ==> PendingOrReviewed(states[i])
  }

  ghost predicate PendingOrReviewed(state: Option<ReviewState>) {
    state.Some? && (state.value.status == "pending" || state.value.status == "reviewed")
  }

  // ---------------------------------------------------------------- the queue, then the approvals

  lemma {:induction false} ApprovedIsOwn(items: seq<QueueItem>, item: QueueItem)
    requires item in items
    requires forall other :: other in items && other.evidence.probeId == item.evidence.probeId ==> other == item
    ensures item.evidence.probeId in ApprovedByProbe(items)
    ensures ApprovedByProbe(items)[item.evidence.probeId] == item.reviewId
  {
    var n := |items| - 1;
    assert items == items[..n] + [items[n]];
    if items[n].evidence.probeId != item.evidence.probeId {
      assert forall other :: other in items[..n] ==> other in items;
      ApprovedIsOwn(items[..n], item);
    } else {
      assert items[n] in items;
    }
  }

  /** In a queue built from a registry with unique names, the approval of a pending probe is its own. */
  lemma {:induction false} QueueApproves(probes: seq<Probe>, observe: string -> Option<Observation>,
                                         reviewIdOf: Evidence -> string, i: nat)
    requires UniqueIds(probes) && i < |probes| && Pending(probes[i])
    requires forall k :: 0 <= k < |probes| && Pending(probes[k]) ==> observe(probes[k].id).Some?
    ensures var approved := ApprovedByProbe(SortBy(PendingItems(probes, observe, reviewIdOf), ByProbe()));
      && probes[i].id in approved
      && approved[probes[i].id] == ItemOf(probes[i], observe(probes[i].id).value, reviewIdOf).reviewId
  {
    var items := PendingItems(probes, observe, reviewIdOf);
    var sorted := SortBy(items, ByProbe());
    var own := ItemOf(probes[i], observe(probes[i].id).value, reviewIdOf);
    SortByFacts(items, ByProbe());
    PendingItemsExact(probes, observe, reviewIdOf);
    assert own in items;
    assert own in multiset(sorted);
    forall other | other in sorted && other.evidence.probeId == probes[i].id ensures other == own {
      assert other in multiset(sorted);
      assert other in items;
      var k :| 0 <= k < |probes| && Pending(probes[k])
        && other == ItemOf(probes[k], observe(probes[k].id).value, reviewIdOf);
      assert k == i;
    }
    ApprovedIsOwn(sorted, own);
  }

  /** The review ID the queue gives a probe; it does not depend on the state of the review. */
  function OwnReviewId(p: Probe, observe: string -> Option<Observation>, reviewIdOf: Evidence -> string): string {
    if p.review == null || observe(p.id).None? then "" else ItemOf(p, observe(p.id).value, reviewIdOf).reviewId
  }

  /** Pending reviews take the review ID of the first probe that shares them; the others stay. */
  ghost predicate EachApproved(probes: seq<Probe>, before: seq<Option<ReviewState>>, after: seq<Option<ReviewState>>,
                               observe: string -> Option<Observation>, reviewIdOf: Evidence -> string)
    requires |before| == |after| == |probes|
  {
    forall i :: 0 <= i < |probes| ==> after[i] == StateAfter(probes, before, i, observe, reviewIdOf)
  }

  function StateAfter(probes: seq<Probe>, before: seq<Option<ReviewState>>, i: nat,
                      observe: string -> Option<Observation>, reviewIdOf: Evidence -> string): Option<ReviewState>
    requires i < |probes| == |before|
  {
    if IsPending(before[i]) then
      Some(ReviewState("reviewed", OwnReviewId(probes[FirstSharing(probes, i)], observe, reviewIdOf), APPROVAL_SOURCE))
    else before[i]
  }

  ghost predicate Approves(probes: seq<Probe>, before: seq<Option<ReviewState>>, approved: map<string, string>,
                           observe: string -> Option<Observation>, reviewIdOf: Evidence -> string)
    requires |before| == |probes|
  {
    forall i :: 0 <= i < |probes| && IsPending(before[i]) ==>
      && IsPending(before[FirstSharing(probes, i)])
      && probes[i].id in approved && approved[probes[i].id] == OwnReviewId(probes[i], observe, reviewIdOf)
  }

  lemma {:induction false} ApprovesGivesEach(probes: seq<Probe>, before: seq<Option<ReviewState>>,
                                             after: seq<Option<ReviewState>>, approved: map<string, string>,
                                             observe: string -> Option<Observation>, reviewIdOf: Evidence -> string)
    requires |before| == |after| == |probes|
    requires Approves(probes, before, approved, observe, reviewIdOf)
    requires forall i :: 0 <= i < |probes| ==> after[i] == ApprovedState(probes, before, approved, i)
    ensures EachApproved(probes, before, after, observe, reviewIdOf)
    ensures forall i :: 0 <= i < |probes| ==> !IsPending(after[i])
  {
  }

  lemma {:induction false} QueueApprovesAll(probes: seq<Probe>, observe: string -> Option<Observation>,
                                            reviewIdOf: Evidence -> string)
    requires UniqueIds(probes)
    requires forall k :: 0 <= k < |probes| && Pending(probes[k]) ==> observe(probes[k].id).Some?
    ensures Approves(probes, States(probes),
                     ApprovedByProbe(SortBy(PendingItems(probes, observe, reviewIdOf), ByProbe())), observe, reviewIdOf)
  {
    var before, approved :=
      States(probes), ApprovedByProbe(SortBy(PendingItems(probes, observe, reviewIdOf), ByProbe()));
    forall i | 0 <= i < |probes| && IsPending(before[i])
      ensures IsPending(before[FirstSharing(probes, i)])
      ensures probes[i].id in approved && approved[probes[i].id] == OwnReviewId(probes[i], observe, reviewIdOf)
    {
      assert Pending(probes[i]);
      QueueApproves(probes, observe, reviewIdOf, i);
    }
  }

  lemma {:induction false} NothingMissing(probes: seq<Probe>, before: seq<Option<ReviewState>>,
                                          approved: map<string, string>, observe: string -> Option<Observation>,
                                          reviewIdOf: Evidence -> string)
    requires |before| == |probes|
    requires Approves(probes, before, approved, observe, reviewIdOf)
    ensures forall id :: !Unapproved(probes, before, approved, id)
  {
  }

  ghost predicate Injective(reviewIdOf: Evidence -> string) {
    forall x, y :: reviewIdOf(x) == reviewIdOf(y) ==> x == y
  }

  /** Every pending review was approved with the review ID of its own probe. */
  ghost predicate EachOwn(probes: seq<Probe>, before: seq<Option<ReviewState>>, after: seq<Option<ReviewState>>,
                          observe: string -> Option<Observation>, reviewIdOf: Evidence -> string)
    requires |before| == |after| == |probes|
  {
    forall i :: 0 <= i < |probes| && IsPending(before[i]) ==>
      after[i] == Some(ReviewState("reviewed", OwnReviewId(probes[i], observe, reviewIdOf), APPROVAL_SOURCE))
  }

  /** No pending review is shared with an earlier probe. */
  ghost predicate NoneShared(probes: seq<Probe>, before: seq<Option<ReviewState>>)
    requires |before| == |probes|
  {
    forall i :: 0 <= i < |probes| && IsPending(before[i]) ==> FirstSharing(probes, i) == i
  }

  /** With review IDs that tell evidence apart, each pending probe gets its own exactly when none is shared. */
  lemma {:induction false} OwnExactly(probes: seq<Probe>, before: seq<Option<ReviewState>>,
                                      after: seq<Option<ReviewState>>, observe: string -> Option<Observation>,
                                      reviewIdOf: Evidence -> string)
    requires |before| == |after| == |probes| && UniqueIds(probes) && Injective(reviewIdOf)
    requires forall i :: 0 <= i < |probes| && IsPending(before[i]) ==>
      probes[i].review != null && observe(probes[i].id).Some? && IsPending(before[FirstSharing(probes, i)])
    requires EachApproved(probes, before, after, observe, reviewIdOf)
    ensures EachOwn(probes, before, after, observe, reviewIdOf) <==> NoneShared(probes, before)
  {
    if EachOwn(probes, before, after, observe, reviewIdOf) {
      forall i | 0 <= i < |probes| && IsPending(before[i]) ensures FirstSharing(probes, i) == i {
        var k := FirstSharing(probes, i);
        assert after[i] == StateAfter(probes, before, i, observe, reviewIdOf);
        assert OwnReviewId(probes[k], observe, reviewIdOf) == OwnReviewId(probes[i], observe, reviewIdOf);
        assert ItemOf(probes[k], observe(probes[k].id).value, reviewIdOf).evidence
            == ItemOf(probes[i], observe(probes[i].id).value, reviewIdOf).evidence;
        assert probes[k].id == probes[i].id;
      }
    }
  }

  /** Building the queue of a registry with unique names and approving every item of it: no item is ever
      missing; when the replay matches, no probe stays pending, a pending probe gets the review ID of the
      first probe that shares its review, and nothing else changes.  Each gets its own exactly when no
      pending review is shared. */
  method QueueThenPrepare(probes: seq<Probe>, observe: string -> Option<Observation>, reviewIdOf: Evidence -> string,
                          requested: seq<string>, replay: Replay, closing: Closing)
    returns (result: PrepareResult)
    requires UniqueIds(probes) && AllObserved(probes, observe)
    requires AllApproved(requested, SortBy(PendingItems(probes, observe, reviewIdOf), ByProbe()))
    modifies Reviews(probes)
    ensures result == ReplayIncomplete <==> !Matches(replay, probes)
    ensures !Matches(replay, probes) ==> States(probes) == old(States(probes))
    ensures Matches(replay, probes) ==>
      && result == Closed(closing, replay, old(States(probes)))
      && EachApproved(probes, old(States(probes)), States(probes), observe, reviewIdOf)
      && forall i :: 0 <= i < |probes| ==> !IsPending(States(probes)[i])
    ensures Matches(replay, probes) && Injective(reviewIdOf) ==>
      (EachOwn(probes, old(States(probes)), States(probes), observe, reviewIdOf) <==>
       NoneShared(probes, old(States(probes))))
  {
    ghost var before := States(probes);
    assert forall i :: 0 <= i < |probes| && IsPending(before[i]) ==> Pending(probes[i]);
    var queue := BuildReviewQueue(probes, observe, reviewIdOf, QueueChecks(true, _ => true));
    ghost var approved := ApprovedByProbe(queue.items);
    QueueApprovesAll(probes, observe, reviewIdOf);
    NothingMissing(probes, before, approved, observe, reviewIdOf);
    result := PrepareReviewedRegistry(probes, queue.items, requested, replay, closing);
    if result.ReplayIncomplete? {
      return;
    }
    ApprovesGivesEach(probes, before, States(probes), approved, observe, reviewIdOf);
    if Injective(reviewIdOf) { OwnExactly(probes, before, States(probes), observe, reviewIdOf); }
  }

  function Always(observation: Observation): string -> Option<Observation> {
    (id: string) => Some(observation)
  }

  /** Two pending probes that share one review: after the approvals the second has the review ID of the first. */
  method ShareAReview(observation: Observation, reviewIdOf: Evidence -> string)
    returns (probes: seq<Probe>, result: PrepareResult)
    requires Injective(reviewIdOf)
    ensures |probes| == 2 && fresh(Reviews(probes)) && result == Prepared
    ensures !EachOwn(probes, Twice(Some(ReviewState("pending", "", ""))), States(probes), Always(observation),
                     reviewIdOf)
  {
    var review := new BoundaryReview("why", "pending");
    probes := [Probe("a", "f", "m:f", review), Probe("b", "f", "m:g", review)];
    var observe := Always(observation);
    var requested := [OwnReviewId(probes[0], observe, reviewIdOf), OwnReviewId(probes[1], observe, reviewIdOf)];
    TwoSharers(probes, observation, reviewIdOf);
    ghost var before := Twice(Some(ReviewState("pending", "", "")));
    assert States(probes) == before && Reviews(probes) == {review};
    var replay := Replay(true, [probes[0].id, probes[1].id], [], []);
    ReplayedOnce(probes);
    result := QueueThenPrepare(probes, observe, reviewIdOf, requested, replay, Closing(true, true, false));
  }

  lemma {:induction false} ReplayedOnce(probes: seq<Probe>)
    requires |probes| == 2 && probes[0].id != probes[1].id
    ensures var replay := Replay(true, [probes[0].id, probes[1].id], [], []);
      && Matches(replay, probes)
      && Closed(Closing(true, true, false), replay, Twice(Some(ReviewState("pending", "", "")))) == Prepared
  {
    var ids := [probes[0].id, probes[1].id];
    assert (set r | r in ids) == {probes[0].id, probes[1].id};
    assert ProbeIds(probes) == {probes[0].id, probes[1].id};
  }

  lemma {:induction false} TwoSharers(probes: seq<Probe>, observation: Observation, reviewIdOf: Evidence -> string)
    requires Injective(reviewIdOf)
    requires |probes| == 2 && probes[0].id != probes[1].id && probes[0].review == probes[1].review && Pending(probes[0])
    ensures UniqueIds(probes) && AllObserved(probes, Always(observation)) && !NoneShared(probes, States(probes))
    ensures AllApproved(
      [OwnReviewId(probes[0], Always(observation), reviewIdOf),
       OwnReviewId(probes[1], Always(observation), reviewIdOf)],
      SortBy(PendingItems(probes, Always(observation), reviewIdOf), ByProbe()))
  {
    var observe := Always(observation);
    var one, two := OwnReviewId(probes[0], observe, reviewIdOf), OwnReviewId(probes[1], observe, reviewIdOf);
    assert ItemOf(probes[0], observation, reviewIdOf).evidence != ItemOf(probes[1], observation, reviewIdOf).evidence;
    TwoItems(probes, observe, reviewIdOf);
    assert (set r | r in [one, two]) == {one, two};
    assert FirstSharing(probes, 1) == 0 && IsPending(States(probes)[1]);
  }

  function Twice<T>(x: T): seq<T> {
    [x, x]
  }

  lemma {:induction false} TwoItems(probes: seq<Probe>, observe: string -> Option<Observation>,
                                    reviewIdOf: Evidence -> string)
    requires |probes| == 2 && AllObserved(probes, observe) && Pending(probes[0]) && Pending(probes[1])
    ensures ReviewIds(SortBy(PendingItems(probes, observe, reviewIdOf), ByProbe()))
         == {OwnReviewId(probes[0], observe, reviewIdOf), OwnReviewId(probes[1], observe, reviewIdOf)}
  {
    var one := ItemOf(probes[0], observe(probes[0].id).value, reviewIdOf);
    var two := ItemOf(probes[1], observe(probes[1].id).value, reviewIdOf);
    assert probes[..1][..0] == [] && probes[..1] == [probes[0]];
    assert PendingItems(probes[..1], observe, reviewIdOf) == [one];
    assert PendingItems(probes, observe, reviewIdOf) == [one, two];
    SortedReviewIds([one, two]);
    assert ReviewIds([one, two]) == {one.reviewId, two.reviewId} by {
      assert [one, two][0].reviewId == one.reviewId && [one, two][1].reviewId == two.reviewId;
    }
  }

  lemma {:induction false} SortedReviewIds(items: seq<QueueItem>)
    ensures ReviewIds(SortBy(items, ByProbe())) == ReviewIds(items)
  {
    var sorted := SortBy(items, ByProbe());
    SortByFacts(items, ByProbe());
    forall item ensures item in sorted <==> item in items {
      assert item in multiset(sorted) <==> item in multiset(items);
    }
    forall k | 0 <= k < |sorted| ensures sorted[k].reviewId in ReviewIds(items) {
      assert sorted[k] in items;
      var i :| 0 <= i < |items| && items[i] == sorted[k];
    }
    forall i | 0 <= i < |items| ensures items[i].reviewId in ReviewIds(sorted) {
      assert items[i] in sorted;
      var k :| 0 <= k < |sorted| && sorted[k] == items[i];
    }
  }
}
