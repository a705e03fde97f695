/**
 * The step-renumbering pass of renumber-steps.ts.
 *
 * Every policy file is parsed into a `Policy`; the policies are indexed by their
 * `PolicyId`, each is linked to its base policy, and then each is processed
 * after its base: the `Order` attribute of every `OrchestrationStep` in a
 * `UserJourney` is rewritten to the step's 1-based position, except in journeys
 * whose `Id` one of the base policies already defines.
 */
module RenumberSteps {
  import opened Wrappers
  import opened PolicyXml
  import opened OrderedMaps
  import opened PolicyFiles

  /** How many base policies `hasPolicyId` inspects at most. */
  const MaxDepth: nat := 15

  // ---------------------------------------------------------------------------
  // Order labels: `(stepIndex + 1).toString()`
  // ---------------------------------------------------------------------------

  function DigitChar(d: nat): char
    requires d < 10
  {
    ('0' as int + d) as char
  }

  /** The decimal text of a number, as `Number.prototype.toString()` writes it. */
  function DecimalString(n: nat): string
    decreases n
  {
    if n < 10 then [DigitChar(n)] else DecimalString(n / 10) + [DigitChar(n % 10)]
  }

  /** Reads a string of decimal digits back as a number. */
  function DecimalValue(s: string): nat
    decreases |s|
  {
    if s == [] then 0
    else
      var c := s[|s| - 1];
      DecimalValue(s[..|s| - 1]) * 10 + (if '0' <= c <= '9' then c as int - '0' as int else 0)
  }

  /** The decimal text of a number reads back as that number, so distinct positions get distinct labels. */
  lemma {:induction false} DecimalRoundTrip(n: nat)
    ensures DecimalValue(DecimalString(n)) == n
    decreases n
  {
    if n >= 10 {
      DecimalRoundTrip(n / 10);
      var s := DecimalString(n);
      assert s[..|s| - 1] == DecimalString(n / 10);
    }
  }

  /** The decimal text of a positive number never starts with `0`. */
  lemma {:induction false} NoLeadingZero(n: nat)
    requires n >= 1
    ensures |DecimalString(n)| >= 1 && DecimalString(n)[0] != '0'
    decreases n
  {
    if n >= 10 {
      NoLeadingZero(n / 10);
    }
  }

  /** The `Order` value a step at 0-based position `index` should carry. */
  function StepLabel(index: nat): string {
    DecimalString(index + 1)
  }

  // ---------------------------------------------------------------------------
  // Renumbering one journey's steps (specification)
  // ---------------------------------------------------------------------------

  /** The step has an `Order` attribute whose text differs from its label (a string comparison). */
  predicate OutOfPlace(order: Option<string>, index: nat) {
    order.Some? && order.value != StepLabel(index)
  }

  /** A step's `Order` after renumbering: its label if it had an `Order`, absent otherwise. */
  function RenumberedStep(order: Option<string>, index: nat): Option<string> {
    if order.None? then None else Some(StepLabel(index))
  }

  function RenumberedSteps(steps: seq<Option<string>>): seq<Option<string>> {
    seq(|steps|, i requires 0 <= i < |steps| => RenumberedStep(steps[i], i))
  }

  /** How many `setAttribute` calls renumbering makes: the out-of-place steps. */
  function Misplaced(steps: seq<Option<string>>): nat
    decreases |steps|
  {
    if steps == [] then 0
    else Misplaced(steps[..|steps| - 1]) + (if OutOfPlace(steps[|steps| - 1], |steps| - 1) then 1 else 0)
  }

  /** The positions whose `Order` renumbering changes. */
  function ChangedPositions(steps: seq<Option<string>>): set<nat> {
    set i: nat | i < |steps| && RenumberedSteps(steps)[i] != steps[i]
  }

  lemma RenumberedStepsPrefix(steps: seq<Option<string>>, k: nat)
    requires k < |steps|
    ensures RenumberedSteps(steps[..k + 1]) == RenumberedSteps(steps[..k]) + [RenumberedStep(steps[k], k)]
  {
    assert steps[..k + 1][..k] == steps[..k];
  }

  /** The steps with the first `k` renumbered and the rest as they were. */
  function PartlyRenumbered(steps: seq<Option<string>>, k: nat): seq<Option<string>> {
    seq(|steps|, i requires 0 <= i < |steps| => if i < k then RenumberedStep(steps[i], i) else steps[i])
  }

  lemma PartlyRenumberedStep(steps: seq<Option<string>>, k: nat)
    requires k < |steps|
    ensures |PartlyRenumbered(steps, k)| == |steps| && PartlyRenumbered(steps, k)[k] == steps[k]
    ensures PartlyRenumbered(steps, k)[k := RenumberedStep(steps[k], k)] == PartlyRenumbered(steps, k + 1)
    ensures !OutOfPlace(steps[k], k) ==> PartlyRenumbered(steps, k) == PartlyRenumbered(steps, k + 1)
    ensures Misplaced(steps[..k + 1]) == Misplaced(steps[..k]) + (if OutOfPlace(steps[k], k) then 1 else 0)
  {
    assert steps[..k + 1][..k] == steps[..k];
  }

  /** The document with the steps of journey `j` replaced. */
  function WithSteps(doc: PolicyDocument, j: nat, steps: seq<Option<string>>): PolicyDocument
    requires j < |doc.journeys|
  {
    doc.(journeys := doc.journeys[j := doc.journeys[j].(steps := steps)])
  }

  /** The rewrite counter grows by exactly the number of step attributes renumbering changes. */
  lemma {:induction false} MisplacedCountsChanges(steps: seq<Option<string>>)
    ensures Misplaced(steps) == |ChangedPositions(steps)|
    decreases |steps|
  {
    if steps != [] {
      var n := |steps| - 1;
      var init := steps[..n];
      MisplacedCountsChanges(init);
      var changed, changed0 := ChangedPositions(steps), ChangedPositions(init);
      forall i: nat | i < n
        ensures i in changed <==> i in changed0
      {
        ChangedIff(steps, i);
        ChangedIff(init, i);
        assert init[i] == steps[i];
      }
      ChangedIff(steps, n);
      if OutOfPlace(steps[n], n) {
        assert changed == changed0 + {n};
      } else {
        assert changed == changed0;
      }
    }
  }

  /** Renumbering changes a step exactly when it is out of place. */
  lemma ChangedIff(steps: seq<Option<string>>, i: nat)
    requires i < |steps|
    ensures i in ChangedPositions(steps) <==> OutOfPlace(steps[i], i)
  {
  }

  /** Renumbering changes nothing exactly when the rewrite counter stays at zero. */
  lemma {:induction false} MisplacedZero(steps: seq<Option<string>>)
    ensures Misplaced(steps) == 0 <==> RenumberedSteps(steps) == steps
  {
    MisplacedCountsChanges(steps);
    if RenumberedSteps(steps) != steps {
      var i :| 0 <= i < |steps| && RenumberedSteps(steps)[i] != steps[i];
      assert i in ChangedPositions(steps);
    } else {
      assert ChangedPositions(steps) == {};
    }
  }

  /** Steps already numbered `1..N` in element order produce no rewrite. */
  lemma ContiguousUnchanged(steps: seq<Option<string>>)
    requires forall i :: 0 <= i < |steps| ==> steps[i] == Some(StepLabel(i))
    ensures Misplaced(steps) == 0 && RenumberedSteps(steps) == steps
  {
    assert RenumberedSteps(steps) == steps;
    MisplacedZero(steps);
  }

  /** Renumbering is idempotent: a renumbered journey is renumbered again with no rewrite. */
  lemma RenumberIdempotent(steps: seq<Option<string>>)
    ensures RenumberedSteps(RenumberedSteps(steps)) == RenumberedSteps(steps)
    ensures Misplaced(RenumberedSteps(steps)) == 0
  {
    MisplacedZero(RenumberedSteps(steps));
  }

  /** A zero-padded `Order` such as "01" is never in place, since the comparison is on strings. */
  lemma ZeroPaddedIsRewritten(order: string, index: nat)
    requires |order| >= 2 && order[0] == '0'
    ensures OutOfPlace(Some(order), index)
  {
    NoLeadingZero(index + 1);
  }

  /** Orders 1, 5, 3 become 1, 2, 3 with one rewrite, of the middle step. */
  lemma ExampleOneFiveThree()
    ensures RenumberedSteps([Some("1"), Some("5"), Some("3")]) == [Some("1"), Some("2"), Some("3")]
    ensures Misplaced([Some("1"), Some("5"), Some("3")]) == 1
  {
    var s := [Some("1"), Some("5"), Some("3")];
    assert StepLabel(0) == "1" && StepLabel(1) == "2" && StepLabel(2) == "3";
    assert !OutOfPlace(s[0], 0) && OutOfPlace(s[1], 1) && !OutOfPlace(s[2], 2);
    assert s[..1][..0] == [] && Misplaced(s[..1]) == 0;
    assert s[..2][..1] == s[..1] && Misplaced(s[..2]) == 1;
    assert s[..3][..2] == s[..2] && s[..3][2] == s[2];
    assert s[..3] == s;
    assert Misplaced(s) == Misplaced(s[..2]);
  }

  // ---------------------------------------------------------------------------
  // Renumbering a document's journeys (specification)
  // ---------------------------------------------------------------------------

  /**
   * A journey that `process` does not renumber: it has no `Id`, or the
   * base chain already defines its `Id`.
   */
  predicate Skipped(j: Journey, inherited: set<string>) {
    j.id.None? || j.id.value in inherited
  }

  function RenumberedJourney(j: Journey, inherited: set<string>): Journey {
    if Skipped(j, inherited) then j else j.(steps := RenumberedSteps(j.steps))
  }

  function RenumberedJourneys(js: seq<Journey>, inherited: set<string>): seq<Journey> {
    seq(|js|, i requires 0 <= i < |js| => RenumberedJourney(js[i], inherited))
  }

  /** Total rewrites over the journeys that are not skipped. */
  function Rewrites(js: seq<Journey>, inherited: set<string>): nat
    decreases |js|
  {
    if js == [] then 0
    else
      var last := js[|js| - 1];
      Rewrites(js[..|js| - 1], inherited) + (if Skipped(last, inherited) then 0 else Misplaced(last.steps))
  }

  /** The `Id`s of the journeys that have one. */
  function JourneyIds(js: seq<Journey>): set<string>
    decreases |js|
  {
    if js == [] then {}
    else
      var last := js[|js| - 1];
      JourneyIds(js[..|js| - 1]) + (if last.id.Some? then {last.id.value} else {})
  }

  /** The journeys with the first `k` renumbered and the rest as they were. */
  function PartlyRenumberedJourneys(js: seq<Journey>, k: nat, inherited: set<string>): seq<Journey> {
    seq(|js|, i requires 0 <= i < |js| => if i < k then RenumberedJourney(js[i], inherited) else js[i])
  }

  lemma PartlyRenumberedJourneysStep(js: seq<Journey>, k: nat, inherited: set<string>)
    requires k < |js|
    ensures |PartlyRenumberedJourneys(js, k, inherited)| == |js| && PartlyRenumberedJourneys(js, k, inherited)[k] == js[k]
    ensures Skipped(js[k], inherited) ==> PartlyRenumberedJourneys(js, k + 1, inherited) == PartlyRenumberedJourneys(js, k, inherited)
    ensures !Skipped(js[k], inherited) ==>
      PartlyRenumberedJourneys(js, k + 1, inherited)
        == PartlyRenumberedJourneys(js, k, inherited)[k := js[k].(steps := RenumberedSteps(js[k].steps))]
    ensures Rewrites(js[..k + 1], inherited) == Rewrites(js[..k], inherited) + (if Skipped(js[k], inherited) then 0 else Misplaced(js[k].steps))
    ensures JourneyIds(js[..k + 1]) == JourneyIds(js[..k]) + (if js[k].id.Some? then {js[k].id.value} else {})
  {
    assert js[..k + 1][..k] == js[..k];
  }

  /** Every journey that has an `Id` contributes it, renumbered or skipped alike. */
  lemma {:induction false} JourneyIdsMembers(js: seq<Journey>, id: string)
    ensures id in JourneyIds(js) <==> exists i :: 0 <= i < |js| && js[i].id == Some(id)
    decreases |js|
  {
    if js != [] {
      var init := js[..|js| - 1];
      JourneyIdsMembers(init, id);
      if id in JourneyIds(init) {
        var i :| 0 <= i < |init| && init[i].id == Some(id);
        assert js[i].id == Some(id);
      }
      if exists i :: 0 <= i < |js| && js[i].id == Some(id) {
        var i :| 0 <= i < |js| && js[i].id == Some(id);
        if i < |init| {
          assert init[i].id == Some(id);
        }
      }
    }
  }

  lemma RenumberedJourneysPrefix(js: seq<Journey>, k: nat, inherited: set<string>)
    requires k < |js|
    ensures RenumberedJourneys(js[..k + 1], inherited) == RenumberedJourneys(js[..k], inherited) + [RenumberedJourney(js[k], inherited)]
  {
    assert js[..k + 1][..k] == js[..k];
  }

  /** A document's journeys are left as they are exactly when no step is rewritten. */
  lemma {:induction false} RewritesZero(js: seq<Journey>, inherited: set<string>)
    ensures Rewrites(js, inherited) == 0 <==> RenumberedJourneys(js, inherited) == js
    decreases |js|
  {
    if js != [] {
      var n := |js| - 1;
      var init := js[..n];
      RewritesZero(init, inherited);
      RenumberedJourneysPrefix(js, n, inherited);
      assert js[..n + 1] == js;
      MisplacedZero(js[n].steps);
      if RenumberedJourneys(js, inherited) == js {
        assert RenumberedJourneys(init, inherited) == RenumberedJourneys(js, inherited)[..n];
      }
    }
  }

  /** Processing a document a second time against the same base rewrites nothing more. */
  lemma {:induction false} RenumberJourneysIdempotent(js: seq<Journey>, inherited: set<string>)
    ensures RenumberedJourneys(RenumberedJourneys(js, inherited), inherited) == RenumberedJourneys(js, inherited)
    ensures Rewrites(RenumberedJourneys(js, inherited), inherited) == 0
  {
    var once := RenumberedJourneys(js, inherited);
    forall i | 0 <= i < |js|
      ensures RenumberedJourney(once[i], inherited) == once[i]
    {
      RenumberIdempotent(js[i].steps);
    }
    RewritesZero(once, inherited);
  }

  /** In a journey whose `Id` the base chain defines, no step is touched. */
  lemma InheritedJourneyUntouched(js: seq<Journey>, inherited: set<string>, i: nat)
    requires i < |js| && js[i].id.Some? && js[i].id.value in inherited
    ensures |RenumberedJourneys(js, inherited)| == |js|
    ensures RenumberedJourneys(js, inherited)[i] == js[i]
  {
  }

  /**
   * `after` is `before` with the steps of some of its journeys renumbered:
   * every other part of the document, and every journey without an `Id`, is
   * as it was.
   */
  ghost predicate Renumbering(before: PolicyDocument, after: PolicyDocument) {
    && after.(journeys := before.journeys) == before
    && |after.journeys| == |before.journeys|
    && forall j :: 0 <= j < |before.journeys| ==>
         || after.journeys[j] == before.journeys[j]
         || (before.journeys[j].id.Some? && after.journeys[j] == before.journeys[j].(steps := RenumberedSteps(before.journeys[j].steps)))
  }

  lemma RenumberingOfProcess(doc: PolicyDocument, inherited: set<string>)
    ensures Renumbering(doc, doc.(journeys := RenumberedJourneys(doc.journeys, inherited)))
  {
  }

  /** Renumbering twice is a renumbering, since renumbered steps stay as they are. */
  lemma RenumberingTransitive(a: PolicyDocument, b: PolicyDocument, c: PolicyDocument)
    requires Renumbering(a, b) && Renumbering(b, c)
    ensures Renumbering(a, c)
  {
    forall j | 0 <= j < |a.journeys|
      ensures || c.journeys[j] == a.journeys[j]
              || (a.journeys[j].id.Some? && c.journeys[j] == a.journeys[j].(steps := RenumberedSteps(a.journeys[j].steps)))
    {
      RenumberIdempotent(a.journeys[j].steps);
    }
  }

  // ---------------------------------------------------------------------------
  // Policies and their base chains
  // ---------------------------------------------------------------------------

  /** `class Policy`: one parsed policy file and its renumbering state. */
  class Policy {
    const file: PolicyFile
    /** The parsed document; renumbering rewrites its step orders in place. */
    var xml: PolicyDocument
    /** Set by `RenumberPolicies` when the document's base id names a known policy. */
    var basePolicy: Policy?
    var processed: bool
    /** `PolicyId` attribute of the root element. */
    const policyId: Option<string>
    /** Journey ids seen so far: this policy's own and, possibly, its base's. */
    var journeys: set<string>
    /** Number of `Order` attributes rewritten. */
    var renumbered: nat

    /** `new Policy(file)` once `file.Data` has been parsed into `xml`. */
    constructor (file: PolicyFile, xml: PolicyDocument)
      ensures this.file == file && this.xml == xml && policyId == xml.rootPolicyId
      ensures basePolicy == null && !processed && journeys == {} && renumbered == 0
    {
      this.file := file;
      this.xml := xml;
      policyId := xml.rootPolicyId;
      basePolicy := null;
      processed := false;
      journeys := {};
      renumbered := 0;
    }

    /** `policy.basePolicy = base` (renumber-steps.ts, line 34). */
    method SetBase(base: Policy?)
      modifies this`basePolicy
      ensures basePolicy == base
    {
      basePolicy := base;
    }

    /**
     * `hasPolicyId`: whether this policy, or one of the at most `MaxDepth`
     * base policies the bounded walk visits, has seen the journey id.
     */
    method HasPolicyId(id: string, ghost U: set<Policy>) returns (found: bool)
      requires Closed(U) && this in U
      ensures found == (id in Known(this, U))
    {
      if id in journeys {
        return true;
      }
      var seenBases: set<Option<string>> := {};
      var currentDepth := 0;
      var currentBase := basePolicy;
      // The source writes the bound as `currentDepth++ < maxDepth`; the value left
      // in `currentDepth` after the loop is never read.
      while currentBase != null && currentDepth < MaxDepth
        invariant 0 <= currentDepth <= MaxDepth
        invariant currentBase == null || currentBase in U
        invariant (id in Known(this, U)) == (id in ChainJourneys(currentBase, MaxDepth - currentDepth, seenBases, U))
        decreases MaxDepth - currentDepth
      {
        currentDepth := currentDepth + 1;
        if id in currentBase.journeys {
          return true;
        }
        seenBases := seenBases + {currentBase.policyId};
        currentBase := currentBase.basePolicy;
        if currentBase == null || currentBase.policyId in seenBases {
          // no further base, or a cycle
          return false;
        }
      }
      return false;
    }

    /**
     * The inner loop of `process` for one journey: every step with an `Order`
     * gets its label, and each attribute actually changed is counted.
     */
    method RenumberJourneySteps(journeyIndex: nat)
      requires journeyIndex < |xml.journeys|
      modifies this`xml, this`renumbered
      ensures xml == WithSteps(old(xml), journeyIndex, RenumberedSteps(old(xml.journeys[journeyIndex].steps)))
      ensures renumbered == old(renumbered) + Misplaced(old(xml.journeys[journeyIndex].steps))
    {
      ghost var steps0 := xml.journeys[journeyIndex].steps;
      assert PartlyRenumbered(steps0, 0) == steps0;
      assert xml.journeys[journeyIndex := xml.journeys[journeyIndex].(steps := steps0)] == xml.journeys;
      var stepIndex := 0;
      while stepIndex < |xml.journeys[journeyIndex].steps|
        invariant 0 <= stepIndex <= |steps0|
        invariant xml == WithSteps(old(xml), journeyIndex, PartlyRenumbered(steps0, stepIndex))
        invariant renumbered == old(renumbered) + Misplaced(steps0[..stepIndex])
      {
        PartlyRenumberedStep(steps0, stepIndex);
        var orderAttr := xml.journeys[journeyIndex].steps[stepIndex];
        // A step without `Order` is only reported by the source, and left alone.
        if orderAttr.Some? && orderAttr.value != StepLabel(stepIndex) {
          xml := WithSteps(xml, journeyIndex, xml.journeys[journeyIndex].steps[stepIndex := Some(StepLabel(stepIndex))]);
          renumbered := renumbered + 1;
        }
        stepIndex := stepIndex + 1;
      }
      assert PartlyRenumbered(steps0, stepIndex) == RenumberedSteps(steps0);
      assert steps0[..stepIndex] == steps0;
    }

    /**
     * The journey loop of `process`: record the id of every journey that has
     * one, and renumber the steps of each such journey unless the base chain
     * already defines its id. `V` holds the base chain, and not this policy.
     */
    method ProcessJourneys(ghost V: set<Policy>)
      requires Closed(V) && this !in V && (basePolicy == null || basePolicy in V)
      modifies this`xml, this`journeys, this`renumbered
      ensures xml == old(xml).(journeys := RenumberedJourneys(old(xml).journeys, Inherited(basePolicy, V)))
      ensures journeys == old(journeys) + JourneyIds(old(xml).journeys)
      ensures renumbered == old(renumbered) + Rewrites(old(xml).journeys, Inherited(basePolicy, V))
    {
      ghost var inherited := Inherited(basePolicy, V);
      ghost var js := xml.journeys;
      assert PartlyRenumberedJourneys(js, 0, inherited) == js;
      var journeyIndex := 0;
      while journeyIndex < |xml.journeys|
        invariant 0 <= journeyIndex <= |js|
        invariant xml == old(xml).(journeys := PartlyRenumberedJourneys(js, journeyIndex, inherited))
        invariant journeys == old(journeys) + JourneyIds(js[..journeyIndex])
        invariant renumbered == old(renumbered) + Rewrites(js[..journeyIndex], inherited)
      {
        PartlyRenumberedJourneysStep(js, journeyIndex, inherited);
        var journeyId := xml.journeys[journeyIndex].id;
        if journeyId.Some? {
          journeys := journeys + {journeyId.value};
          var inBase := false;
          if basePolicy != null {
            inBase := basePolicy.HasPolicyId(journeyId.value, V);
          }
          // a journey defined in a base file is not renumbered
          if !inBase {
            RenumberJourneySteps(journeyIndex);
          }
        }
        journeyIndex := journeyIndex + 1;
      }
      assert PartlyRenumberedJourneys(js, journeyIndex, inherited) == RenumberedJourneys(js, inherited);
      assert js[..journeyIndex] == js;
    }

    /**
     * `process`: process the base first when it is not yet processed (and only
     * then merge its journey ids), mark this policy processed, record the id
     * of every journey, renumber the journeys the base chain does not define,
     * and re-serialise the file when something was rewritten.
     */
    method Process(ghost U: set<Policy>, ghost rank: map<string, nat>, serialize: PolicyDocument -> string)
      requires this in U && Closed(U) && Ranked(U, rank) && FilesDistinct(U) && ProcessedClosed(U)
      modifies U, FilesOf(U)
      decreases RankOf(this, rank), 2
      ensures Closed(U) && Ranked(U, rank) && ProcessedClosed(U)
      ensures processed && basePolicy == old(basePolicy)
      // this policy and its base chain are processed; nothing else changes, nor does an already
      // processed policy (so a second call changes nothing at all)
      ensures AllStepped(old(States(U)), States(U), old(Lineage(this, U, rank)), serialize)
      ensures !old(processed) ==>
        journeys == old(journeys)
                    + (if basePolicy != null && !old(basePolicy.processed) then basePolicy.journeys else {})
                    + JourneyIds(old(xml).journeys)
      ensures !old(processed) ==>
        xml == old(xml).(journeys := RenumberedJourneys(old(xml).journeys, Inherited(basePolicy, U)))
      ensures !old(processed) ==>
        renumbered == old(renumbered) + Rewrites(old(xml).journeys, Inherited(basePolicy, U))
      ensures !old(processed) ==>
        file.data == if old(xml).journeys == [] || renumbered == 0 then old(file.data) else serialize(xml)
    {
      if !processed {
        ProcessPending(U, rank, serialize);
      } else {
        LineageProcessed(this, U, rank);
        AllSteppedProcessed(States(U), Lineage(this, U, rank), serialize);
      }
    }

    /** `process` on a policy that is not yet processed. */
    method ProcessPending(ghost U: set<Policy>, ghost rank: map<string, nat>, serialize: PolicyDocument -> string)
      requires this in U && Closed(U) && Ranked(U, rank) && FilesDistinct(U) && ProcessedClosed(U)
      requires !processed
      modifies U, FilesOf(U)
      decreases RankOf(this, rank), 1
      ensures Closed(U) && Ranked(U, rank) && ProcessedClosed(U)
      ensures processed && basePolicy == old(basePolicy)
      ensures AllStepped(old(States(U)), States(U), old(Lineage(this, U, rank)), serialize)
      ensures journeys == old(journeys)
                          + (if basePolicy != null && !old(basePolicy.processed) then basePolicy.journeys else {})
                          + JourneyIds(old(xml).journeys)
      ensures xml == old(xml).(journeys := RenumberedJourneys(old(xml).journeys, Inherited(basePolicy, U)))
      ensures renumbered == old(renumbered) + Rewrites(old(xml).journeys, Inherited(basePolicy, U))
      ensures file.data == if old(xml).journeys == [] || renumbered == 0 then old(file.data) else serialize(xml)
    {
      ghost var S0 := States(U);
      ghost var chain := BaseChain(this, U, rank);
      assert Lineage(this, U, rank) == chain + {this};
      var merge := ProcessBase(U, rank, serialize);
      ghost var S1 := States(U);
      FinishProcess(U, rank, merge, serialize);
      AllSteppedCompose(S0, S1, States(U), chain, {this}, serialize);
    }

    /**
     * Lines 112-113: process the base first when it is not processed yet,
     * and say so in `merge`; this policy itself is left as it was.
     */
    method ProcessBase(ghost U: set<Policy>, ghost rank: map<string, nat>, serialize: PolicyDocument -> string)
        returns (merge: bool)
      requires this in U && Closed(U) && Ranked(U, rank) && FilesDistinct(U) && ProcessedClosed(U)
      requires !processed
      modifies U, FilesOf(U)
      decreases RankOf(this, rank), 0
      ensures Closed(U) && Ranked(U, rank) && ProcessedClosed(U)
      ensures merge == old(basePolicy != null && !basePolicy.processed)
      ensures basePolicy == old(basePolicy) && (basePolicy != null ==> basePolicy.processed)
      ensures AllStepped(old(States(U)), States(U), old(BaseChain(this, U, rank)), serialize)
      ensures States(U)[this] == old(States(U))[this]
      ensures xml == old(xml) && journeys == old(journeys) && renumbered == old(renumbered) && !processed
      ensures file.data == old(file.data)
    {
      ghost var S0 := States(U);
      ghost var chain := BaseChain(this, U, rank);
      merge := basePolicy != null && !basePolicy.processed;
      if basePolicy != null {
        LineageRanks(basePolicy, U, rank);
        assert this !in chain;
      }
      if merge {
        basePolicy.Process(U, rank, serialize);
      } else {
        if basePolicy != null {
          LineageProcessed(basePolicy, U, rank);
        }
        AllSteppedProcessed(S0, chain, serialize);
      }
    }

    /**
     * The part of `process` after the base is processed: merge the base's
     * journey ids when `merge` says the base was processed just now, mark this
     * policy processed, handle its journeys and re-serialise the file when a
     * step was rewritten.
     */
    method FinishProcess(ghost U: set<Policy>, ghost rank: map<string, nat>, merge: bool, serialize: PolicyDocument -> string)
      requires this in U && Closed(U) && Ranked(U, rank) && FilesDistinct(U) && ProcessedClosed(U)
      requires !processed && (basePolicy != null ==> basePolicy.processed) && (merge ==> basePolicy != null)
      modifies this, file
      ensures Closed(U) && Ranked(U, rank) && ProcessedClosed(U)
      ensures processed && basePolicy == old(basePolicy)
      ensures AllStepped(old(States(U)), States(U), {this}, serialize)
      ensures journeys == old(journeys) + (if merge then basePolicy.journeys else {}) + JourneyIds(old(xml).journeys)
      ensures xml == old(xml).(journeys := RenumberedJourneys(old(xml).journeys, Inherited(basePolicy, U)))
      ensures renumbered == old(renumbered) + Rewrites(old(xml).journeys, Inherited(basePolicy, U))
      ensures file.data == if old(xml).journeys == [] || renumbered == 0 then old(file.data) else serialize(xml)
    {
      ghost var S0 := States(U);
      CompleteIn(U, rank, merge, serialize);
      ghost var S1 := States(U);
      forall q | q in U && q != this
        ensures S1[q] == S0[q]
      {
        assert q.file != file;
      }
      ChainProcessedKept(S0, S1, this);
      InheritedState(basePolicy, U);
      assert S1[this] == PolicyState(xml, basePolicy, processed, journeys, renumbered, file.data);
      assert Renumbers(S0[this], S1[this], serialize, InheritedIn(basePolicy, S1), BaseJourneys(basePolicy, S1));
      AllSteppedOne(S0, S1, this, serialize);
    }

    /** `Complete`, with the base chain read in the whole universe `U`. */
    method CompleteIn(ghost U: set<Policy>, ghost rank: map<string, nat>, merge: bool, serialize: PolicyDocument -> string)
      requires this in U && Closed(U) && Ranked(U, rank) && (merge ==> basePolicy != null)
      modifies this, file
      ensures processed && basePolicy == old(basePolicy)
      ensures journeys == old(journeys) + (if merge then basePolicy.journeys else {}) + JourneyIds(old(xml).journeys)
      ensures xml == old(xml).(journeys := RenumberedJourneys(old(xml).journeys, Inherited(basePolicy, U)))
      ensures renumbered == old(renumbered) + Rewrites(old(xml).journeys, Inherited(basePolicy, U))
      ensures file.data == if old(xml).journeys == [] || renumbered == 0 then old(file.data) else serialize(xml)
    {
      ghost var V := Below(U, rank, RankOf(this, rank));
      BelowClosed(U, rank, RankOf(this, rank));
      Complete(V, merge, serialize);
      if basePolicy != null {
        KnownUniverse(basePolicy, V, U);
      }
    }

    /** Lines 114-153 of `process`, with `V` holding the base chain and not this policy. */
    method Complete(ghost V: set<Policy>, merge: bool, serialize: PolicyDocument -> string)
      requires Closed(V) && this !in V && (basePolicy == null || basePolicy in V) && (merge ==> basePolicy != null)
      modifies this, file
      ensures processed && basePolicy == old(basePolicy)
      ensures journeys == old(journeys) + (if merge then basePolicy.journeys else {}) + JourneyIds(old(xml).journeys)
      ensures xml == old(xml).(journeys := RenumberedJourneys(old(xml).journeys, Inherited(basePolicy, V)))
      ensures renumbered == old(renumbered) + Rewrites(old(xml).journeys, Inherited(basePolicy, V))
      ensures file.data == if old(xml).journeys == [] || renumbered == 0 then old(file.data) else serialize(xml)
    {
      if merge {
        journeys := journeys + basePolicy.journeys;
      }
      processed := true;
      if |xml.journeys| == 0 {
        assert RenumberedJourneys(xml.journeys, Inherited(basePolicy, V)) == xml.journeys;
        return;
      }
      ProcessJourneys(V);
      if renumbered > 0 {
        file.data := serialize(xml);
      }
    }
  }

  /** The state of one policy that `process` may change, together with its file's text. */
  datatype PolicyState = PolicyState(
    xml: PolicyDocument, basePolicy: Policy?, processed: bool,
    journeys: set<string>, renumbered: nat, data: string)

  /** A snapshot of every policy of `U`. */
  ghost function States(U: set<Policy>): (S: map<Policy, PolicyState>)
    reads U, FilesOf(U)
    ensures S.Keys == U
  {
    map q | q in U :: PolicyState(q.xml, q.basePolicy, q.processed, q.journeys, q.renumbered, q.file.data)
  }

  /**
   * How `process` moves one policy from `before` to `after`, where `reached`
   * says whether the policy is on the base chain being processed: its base
   * link never changes; a policy off the chain, or one processed already, is
   * left as it was; one on the chain ends up processed, and one that was not
   * processed yet is renumbered as `Renumbers` says, `inherited` being the
   * ids its base chain defines and `merged` its base's journey ids.
   */
  ghost predicate Stepped(before: PolicyState, after: PolicyState, reached: bool, serialize: PolicyDocument -> string,
                          inherited: set<string>, merged: set<string>) {
    && after.basePolicy == before.basePolicy
    && (before.processed || !reached ==> after == before)
    && (reached ==> after.processed)
    && (reached && !before.processed ==> Renumbers(before, after, serialize, inherited, merged))
  }

  /**
   * Lines 114-153 on one policy: the journeys the base chain does not define
   * (`inherited`) have their steps renumbered, the rewrites are added to the
   * count, the file holds the serialised document once there are journeys
   * and a rewrite, and every journey id is recorded, together with at most
   * the base's ids (`merged`).
   */
  ghost predicate Renumbers(before: PolicyState, after: PolicyState, serialize: PolicyDocument -> string,
                            inherited: set<string>, merged: set<string>) {
    && after.xml == before.xml.(journeys := RenumberedJourneys(before.xml.journeys, inherited))
    && after.renumbered == before.renumbered + Rewrites(before.xml.journeys, inherited)
    && after.data == (if before.xml.journeys == [] || after.renumbered == 0 then before.data else serialize(after.xml))
    && before.journeys + JourneyIds(before.xml.journeys) <= after.journeys
    && after.journeys <= before.journeys + JourneyIds(before.xml.journeys) + merged
  }

  /** The journey ids of the base `b` in the snapshot `T`. */
  ghost function BaseJourneys(b: Policy?, T: map<Policy, PolicyState>): set<string> {
    if b != null && b in T then T[b].journeys else {}
  }

  /**
   * `Stepped` for every policy of the snapshot `S`, the chain being `reached`,
   * read against the base chains of the final snapshot `T`.
   */
  ghost predicate AllStepped(S: map<Policy, PolicyState>, T: map<Policy, PolicyState>, reached: set<Policy>,
                             serialize: PolicyDocument -> string) {
    && S.Keys == T.Keys
    && forall q :: q in S ==>
         Stepped(S[q], T[q], q in reached, serialize, InheritedIn(T[q].basePolicy, T), BaseJourneys(T[q].basePolicy, T))
  }

  /** In `T`, the policies processed in `S` are as they were. */
  ghost predicate ProcessedKept(S: map<Policy, PolicyState>, T: map<Policy, PolicyState>) {
    S.Keys == T.Keys && forall p :: p in S && S[p].processed ==> T[p] == S[p]
  }

  /** One policy's step over two `process` calls in a row. */
  lemma SteppedCompose(q: Policy, S0: map<Policy, PolicyState>, S1: map<Policy, PolicyState>, S2: map<Policy, PolicyState>,
                       r1: set<Policy>, r2: set<Policy>, serialize: PolicyDocument -> string)
    requires AllStepped(S0, S1, r1, serialize) && AllStepped(S1, S2, r2, serialize) && ChainProcessed(S1)
    requires q in S0
    ensures Stepped(S0[q], S2[q], q in r1 + r2, serialize, InheritedIn(S2[q].basePolicy, S2), BaseJourneys(S2[q].basePolicy, S2))
  {
    var b := S1[q].basePolicy;
    if q in r1 && !S0[q].processed {
      assert S1[q].processed && S2[q] == S1[q];
      assert ProcessedKept(S1, S2);
      InheritedStable(b, S1, S2);
    }
  }

  /** Two `process` calls in a row step like one call over both chains. */
  lemma AllSteppedCompose(S0: map<Policy, PolicyState>, S1: map<Policy, PolicyState>, S2: map<Policy, PolicyState>,
                          r1: set<Policy>, r2: set<Policy>, serialize: PolicyDocument -> string)
    requires AllStepped(S0, S1, r1, serialize) && AllStepped(S1, S2, r2, serialize) && ChainProcessed(S1)
    ensures AllStepped(S0, S2, r1 + r2, serialize)
  {
    forall q | q in S0
      ensures Stepped(S0[q], S2[q], q in r1 + r2, serialize, InheritedIn(S2[q].basePolicy, S2), BaseJourneys(S2[q].basePolicy, S2))
    {
      SteppedCompose(q, S0, S1, S2, r1, r2, serialize);
    }
  }

  /** Only `p` changes, and it steps as a reached policy. */
  lemma AllSteppedOne(S0: map<Policy, PolicyState>, S1: map<Policy, PolicyState>, p: Policy, serialize: PolicyDocument -> string)
    requires S0.Keys == S1.Keys && p in S0 && forall q :: q in S0 && q != p ==> S1[q] == S0[q]
    requires Stepped(S0[p], S1[p], true, serialize, InheritedIn(S1[p].basePolicy, S1), BaseJourneys(S1[p].basePolicy, S1))
    ensures AllStepped(S0, S1, {p}, serialize)
  {
  }

  /** Nothing changes, and every policy of `reached` is processed already. */
  lemma AllSteppedProcessed(S: map<Policy, PolicyState>, reached: set<Policy>, serialize: PolicyDocument -> string)
    requires forall q :: q in reached && q in S ==> S[q].processed
    ensures AllStepped(S, S, reached, serialize)
  {
  }

  /** In the snapshot `S`, a processed policy's base is processed too. */
  ghost predicate ChainProcessed(S: map<Policy, PolicyState>) {
    forall q :: q in S && S[q].processed && S[q].basePolicy != null ==>
      S[q].basePolicy in S && S[S[q].basePolicy].processed
  }

  /** Marking `p` processed once its base is processed keeps `ChainProcessed`. */
  lemma ChainProcessedKept(S0: map<Policy, PolicyState>, S1: map<Policy, PolicyState>, p: Policy)
    requires ChainProcessed(S0) && p in S0 && !S0[p].processed && S1.Keys == S0.Keys
    requires forall q :: q in S0 && q != p ==> S1[q] == S0[q]
    requires S1[p].basePolicy == S0[p].basePolicy
    requires S1[p].basePolicy != null ==> S1[p].basePolicy in S1 && S1[S1[p].basePolicy].processed
    ensures ChainProcessed(S1)
  {
  }

  /** Every policy on the chain of a processed policy is processed. */
  lemma {:induction false} LineageProcessed(p: Policy, U: set<Policy>, rank: map<string, nat>)
    requires p in U && Closed(U) && Ranked(U, rank) && ProcessedClosed(U) && p.processed
    ensures forall q :: q in Lineage(p, U, rank) ==> q.processed
    decreases RankOf(p, rank)
  {
    if p.basePolicy != null {
      LineageProcessed(p.basePolicy, U, rank);
    }
  }

  /** A processed policy's base is processed too. */
  ghost predicate ProcessedClosed(U: set<Policy>)
    reads U, FilesOf(U)
  {
    ChainProcessed(States(U))
  }

  /** Every base link from a policy of `U` leads to a policy of `U`. */
  ghost predicate Closed(U: set<Policy>)
    reads U
  {
    forall p :: p in U && p.basePolicy != null ==> p.basePolicy in U
  }

  /**
   * The base links are acyclic: every policy of `U` has an id with a rank,
   * and a base policy has a smaller rank than the policies based on it.
   */
  ghost predicate Ranked(U: set<Policy>, rank: map<string, nat>)
    reads U
  {
    forall p :: p in U ==>
      && p.policyId.Some? && p.policyId.value in rank
      && (p.basePolicy != null ==>
            p.basePolicy.policyId.Some? && p.basePolicy.policyId.value in rank
            && rank[p.basePolicy.policyId.value] < rank[p.policyId.value])
  }

  function RankOf(p: Policy, rank: map<string, nat>): nat {
    if p.policyId.Some? && p.policyId.value in rank then rank[p.policyId.value] else 0
  }

  /** No two policies share a file. */
  ghost predicate FilesDistinct(U: set<Policy>) {
    forall p, q :: p in U && q in U && p != q ==> p.file != q.file
  }

  function FilesOf(U: set<Policy>): set<PolicyFile> {
    set p | p in U :: p.file
  }

  /** The policies of `U` ranked below `r`. */
  ghost function Below(U: set<Policy>, rank: map<string, nat>, r: nat): set<Policy> {
    set p | p in U && p.policyId.Some? && p.policyId.value in rank && rank[p.policyId.value] < r
  }

  lemma BelowClosed(U: set<Policy>, rank: map<string, nat>, r: nat)
    requires Closed(U) && Ranked(U, rank)
    ensures Closed(Below(U, rank, r)) && Below(U, rank, r) <= U
  {
  }

  /** A policy and all its transitive bases. */
  ghost function Lineage(p: Policy, U: set<Policy>, rank: map<string, nat>): set<Policy>
    requires p in U && Closed(U) && Ranked(U, rank)
    reads U
    decreases RankOf(p, rank)
  {
    {p} + (if p.basePolicy == null then {} else Lineage(p.basePolicy, U, rank))
  }

  /** The base chain of `p`, without `p` itself. */
  ghost function BaseChain(p: Policy, U: set<Policy>, rank: map<string, nat>): set<Policy>
    requires p in U && Closed(U) && Ranked(U, rank)
    reads U
  {
    if p.basePolicy == null then {} else Lineage(p.basePolicy, U, rank)
  }

  lemma {:induction false} LineageRanks(p: Policy, U: set<Policy>, rank: map<string, nat>)
    requires p in U && Closed(U) && Ranked(U, rank)
    ensures forall q :: q in Lineage(p, U, rank) ==> q in U && RankOf(q, rank) <= RankOf(p, rank)
    decreases RankOf(p, rank)
  {
    if p.basePolicy != null {
      LineageRanks(p.basePolicy, U, rank);
    }
  }

  /**
   * The journey ids the walk of `hasPolicyId` finds, starting at `cur` with
   * `fuel` steps left and the ids in `seen` already visited: each visited
   * policy's journeys; the walk stops at a missing base, at a base whose id
   * was already visited, or when the fuel runs out.
   */
  ghost function ChainJourneys(cur: Policy?, fuel: nat, seen: set<Option<string>>, U: set<Policy>): set<string>
    requires Closed(U) && (cur == null || cur in U)
    reads U
    decreases fuel
  {
    if cur == null || fuel == 0 then {}
    else
      var next := cur.basePolicy;
      var seen' := seen + {cur.policyId};
      cur.journeys + (if next == null || next.policyId in seen' then {} else ChainJourneys(next, fuel - 1, seen', U))
  }

  /** The journey ids `p.hasPolicyId` answers true for. */
  ghost function Known(p: Policy, U: set<Policy>): set<string>
    requires Closed(U) && p in U
    reads U
  {
    p.journeys + ChainJourneys(p.basePolicy, MaxDepth, {}, U)
  }

  /** The journey ids whose renumbering `process` skips because the base defines them. */
  ghost function Inherited(base: Policy?, U: set<Policy>): set<string>
    requires Closed(U) && (base == null || base in U)
    reads U
  {
    if base == null then {} else Known(base, U)
  }

  /** `ChainJourneys`, read off a snapshot of the policies instead of the heap. */
  ghost function ChainJourneysIn(cur: Policy?, fuel: nat, seen: set<Option<string>>, S: map<Policy, PolicyState>): set<string>
    decreases fuel
  {
    if cur == null || cur !in S || fuel == 0 then {}
    else
      var next := S[cur].basePolicy;
      var seen' := seen + {cur.policyId};
      S[cur].journeys + (if next == null || next.policyId in seen' then {} else ChainJourneysIn(next, fuel - 1, seen', S))
  }

  /** `Inherited`, read off a snapshot. */
  ghost function InheritedIn(base: Policy?, S: map<Policy, PolicyState>): set<string> {
    if base == null || base !in S then {} else S[base].journeys + ChainJourneysIn(S[base].basePolicy, MaxDepth, {}, S)
  }

  lemma {:induction false} ChainJourneysState(cur: Policy?, fuel: nat, seen: set<Option<string>>, U: set<Policy>)
    requires Closed(U) && (cur == null || cur in U)
    ensures ChainJourneysIn(cur, fuel, seen, States(U)) == ChainJourneys(cur, fuel, seen, U)
    decreases fuel
  {
    if cur != null && fuel > 0 {
      var next := cur.basePolicy;
      var seen' := seen + {cur.policyId};
      if !(next == null || next.policyId in seen') {
        ChainJourneysState(next, fuel - 1, seen', U);
      }
    }
  }

  /** The snapshot reading of the ids a base chain defines agrees with the heap reading. */
  lemma InheritedState(base: Policy?, U: set<Policy>)
    requires Closed(U) && (base == null || base in U)
    ensures InheritedIn(base, States(U)) == Inherited(base, U)
  {
    if base != null {
      ChainJourneysState(base.basePolicy, MaxDepth, {}, U);
    }
  }

  /** The walk from a processed policy reads only processed policies, so it is the same in a later snapshot. */
  lemma {:induction false} ChainJourneysStable(cur: Policy?, fuel: nat, seen: set<Option<string>>,
                                               S1: map<Policy, PolicyState>, S2: map<Policy, PolicyState>)
    requires ChainProcessed(S1) && ProcessedKept(S1, S2)
    requires cur == null || (cur in S1 && S1[cur].processed)
    ensures ChainJourneysIn(cur, fuel, seen, S1) == ChainJourneysIn(cur, fuel, seen, S2)
    decreases fuel
  {
    if cur != null && fuel > 0 {
      var next := S1[cur].basePolicy;
      var seen' := seen + {cur.policyId};
      if !(next == null || next.policyId in seen') {
        ChainJourneysStable(next, fuel - 1, seen', S1, S2);
      }
    }
  }

  /** The ids defined by the chain of a processed base, and the base's own ids, stay as they are. */
  lemma InheritedStable(base: Policy?, S1: map<Policy, PolicyState>, S2: map<Policy, PolicyState>)
    requires ChainProcessed(S1) && ProcessedKept(S1, S2)
    requires base == null || (base in S1 && S1[base].processed)
    ensures InheritedIn(base, S1) == InheritedIn(base, S2)
    ensures BaseJourneys(base, S1) == BaseJourneys(base, S2)
  {
    if base != null {
      ChainJourneysStable(S1[base].basePolicy, MaxDepth, {}, S1, S2);
    }
  }

  /** The `k`-th policy up the base chain from `p` (`p` itself for `k == 0`), or null. */
  ghost function Ancestor(p: Policy?, k: nat, U: set<Policy>): (a: Policy?)
    requires Closed(U) && (p == null || p in U)
    reads U
    ensures a == null || a in U
    decreases k
  {
    if p == null then null else if k == 0 then p else Ancestor(p.basePolicy, k - 1, U)
  }

  lemma {:induction false} ChainUniverse(cur: Policy?, fuel: nat, seen: set<Option<string>>, V: set<Policy>, U: set<Policy>)
    requires V <= U && Closed(V) && Closed(U) && (cur == null || cur in V)
    ensures ChainJourneys(cur, fuel, seen, V) == ChainJourneys(cur, fuel, seen, U)
    decreases fuel
  {
    if cur != null && fuel > 0 {
      var next := cur.basePolicy;
      var seen' := seen + {cur.policyId};
      if !(next == null || next.policyId in seen') {
        ChainUniverse(next, fuel - 1, seen', V, U);
      }
    }
  }

  lemma KnownUniverse(p: Policy, V: set<Policy>, U: set<Policy>)
    requires V <= U && Closed(V) && Closed(U) && p in V
    ensures Known(p, V) == Known(p, U)
  {
    ChainUniverse(p.basePolicy, MaxDepth, {}, V, U);
  }

  /** The walk only reports journeys of the first `fuel` policies of the chain. */
  lemma {:induction false} ChainSound(cur: Policy?, fuel: nat, seen: set<Option<string>>, U: set<Policy>, id: string)
    requires Closed(U) && (cur == null || cur in U)
    requires id in ChainJourneys(cur, fuel, seen, U)
    ensures exists k :: 0 <= k < fuel && Ancestor(cur, k, U) != null && id in Ancestor(cur, k, U).journeys
    decreases fuel
  {
    if id !in cur.journeys {
      var next := cur.basePolicy;
      var seen' := seen + {cur.policyId};
      ChainSound(next, fuel - 1, seen', U, id);
      var k :| 0 <= k < fuel - 1 && Ancestor(next, k, U) != null && id in Ancestor(next, k, U).journeys;
      assert Ancestor(cur, k + 1, U) == Ancestor(next, k, U);
    } else {
      assert Ancestor(cur, 0, U) == cur;
    }
  }

  /**
   * The walk from `cur` finds a journey id recorded by its `k`-th ancestor,
   * `k` below the fuel, when every id already seen ranks above `cur`: along
   * acyclic links the ranks drop, so no ancestor's id is seen before.
   */
  lemma {:induction false} ChainCompleteFrom(cur: Policy, fuel: nat, seen: set<Option<string>>, U: set<Policy>,
                                             rank: map<string, nat>, k: nat, id: string)
    requires Closed(U) && Ranked(U, rank) && cur in U
    requires forall o :: o in seen ==> o.Some? && o.value in rank && rank[o.value] > RankOf(cur, rank)
    requires k < fuel && Ancestor(cur, k, U) != null && id in Ancestor(cur, k, U).journeys
    ensures id in ChainJourneys(cur, fuel, seen, U)
    decreases k
  {
    if k > 0 && id !in cur.journeys {
      var next := cur.basePolicy;
      var seen' := seen + {cur.policyId};
      assert next != null;
      assert next in U && RankOf(next, rank) < RankOf(cur, rank);
      assert next.policyId !in seen';
      ChainCompleteFrom(next, fuel - 1, seen', U, rank, k - 1, id);
    }
  }

  /**
   * When the base links are acyclic, the walk finds an id
   * exactly when one of the first `MaxDepth` policies of the chain has seen it.
   */
  lemma ChainJourneysExact(cur: Policy, U: set<Policy>, rank: map<string, nat>, id: string)
    requires Closed(U) && Ranked(U, rank) && cur in U
    ensures id in ChainJourneys(cur, MaxDepth, {}, U)
        <==> exists k :: 0 <= k < MaxDepth && Ancestor(cur, k, U) != null && id in Ancestor(cur, k, U).journeys
  {
    if id in ChainJourneys(cur, MaxDepth, {}, U) {
      ChainSound(cur, MaxDepth, {}, U, id);
    }
    if exists k :: 0 <= k < MaxDepth && Ancestor(cur, k, U) != null && id in Ancestor(cur, k, U).journeys {
      var k :| 0 <= k < MaxDepth && Ancestor(cur, k, U) != null && id in Ancestor(cur, k, U).journeys;
      ChainCompleteFrom(cur, MaxDepth, {}, U, rank, k, id);
    }
  }

  /** A policy that is its own base: the walk visits it once and stops. */
  lemma SelfBaseStops(p: Policy, U: set<Policy>, fuel: nat)
    requires Closed(U) && p in U && p.basePolicy == p && fuel >= 1
    ensures ChainJourneys(p, fuel, {}, U) == p.journeys
  {
  }

  /** Two policies based on each other: the walk visits both and stops. */
  lemma TwoCycleStops(p: Policy, q: Policy, U: set<Policy>, fuel: nat)
    requires Closed(U) && p in U && q in U && p.basePolicy == q && q.basePolicy == p
    requires p.policyId != q.policyId && fuel >= 2
    ensures ChainJourneys(p, fuel, {}, U) == p.journeys + q.journeys
  {
    assert ChainJourneys(q, fuel - 1, {p.policyId}, U) == q.journeys;
  }
  // ---------------------------------------------------------------------------
  // RenumberPolicies: index the policies, link their bases, process each
  // ---------------------------------------------------------------------------

  /** The files' texts. */
  function Texts(files: seq<PolicyFile>): (texts: seq<string>)
    reads set i | 0 <= i < |files| :: files[i]
    ensures |texts| == |files| && forall i :: 0 <= i < |files| ==> texts[i] == files[i].data
  {
    seq(|files|, i reads set i | 0 <= i < |files| :: files[i] requires 0 <= i < |files| => files[i].data)
  }

  /** The texts, parsed; None where a text is not a policy document. */
  function Docs(texts: seq<string>, parse: string -> Option<PolicyDocument>): (docs: seq<Option<PolicyDocument>>)
    ensures |docs| == |texts| && forall i :: 0 <= i < |texts| ==> docs[i] == parse(texts[i])
  {
    seq(|texts|, i requires 0 <= i < |texts| => parse(texts[i]))
  }

  /** The id a parsed file is indexed under: its root `PolicyId`, when that is truthy. */
  function KeptId(doc: Option<PolicyDocument>): (id: Option<string>)
    ensures id.Some? <==> doc.Some? && Truthy(doc.value.rootPolicyId)
    ensures id.Some? ==> id == doc.value.rootPolicyId
  {
    if doc.Some? && Truthy(doc.value.rootPolicyId) then doc.value.rootPolicyId else None
  }

  /** The id each file is indexed under, if any. */
  function KeptIds(docs: seq<Option<PolicyDocument>>): (ids: seq<Option<string>>)
    ensures |ids| == |docs| && forall i :: 0 <= i < |docs| ==> ids[i] == KeptId(docs[i])
  {
    seq(|docs|, i requires 0 <= i < |docs| => KeptId(docs[i]))
  }

  /**
   * The map of the first loop of `RenumberPolicies`, with each policy given
   * by its file's position: a file that parses with a truthy id is `set`
   * under that id, any other file is skipped.
   */
  function PolicyIndex(docs: seq<Option<PolicyDocument>>): OrderedMap<nat> {
    IndexOf(KeptIds(docs))
  }

  /** One more file either sets its id to its position or is skipped. */
  lemma PolicyIndexStep(docs: seq<Option<PolicyDocument>>)
    requires docs != []
    ensures var n := |docs| - 1;
      PolicyIndex(docs) == if KeptId(docs[n]).Some? then PolicyIndex(docs[..n]).Set(KeptId(docs[n]).value, n)
                           else PolicyIndex(docs[..n])
  {
    var n := |docs| - 1;
    assert KeptIds(docs)[..n] == KeptIds(docs[..n]);
    IndexOfSnoc(KeptIds(docs), n);
    assert KeptIds(docs)[..n + 1] == KeptIds(docs);
  }

  /**
   * The index holds exactly the truthy ids of the files that parse, each
   * mapped to the LAST file carrying it (a later file replaces an earlier
   * one with the same id), and lists every id once.
   */
  lemma PolicyIndexSpec(docs: seq<Option<PolicyDocument>>)
    ensures PolicyIndex(docs).Valid()
    ensures forall k :: k in PolicyIndex(docs).entries <==> exists i :: 0 <= i < |docs| && KeptId(docs[i]) == Some(k)
    ensures forall k :: k in PolicyIndex(docs).entries ==>
      && PolicyIndex(docs).entries[k] < |docs|
      && KeptId(docs[PolicyIndex(docs).entries[k]]) == Some(k)
      && forall j :: PolicyIndex(docs).entries[k] < j < |docs| ==> KeptId(docs[j]) != Some(k)
  {
    var ids := KeptIds(docs);
    IndexOfValid(ids);
    forall k
      ensures k in PolicyIndex(docs).entries <==> exists i :: 0 <= i < |docs| && KeptId(docs[i]) == Some(k)
    {
      IndexOfKeys(ids, k);
    }
    forall k | k in PolicyIndex(docs).entries
      ensures PolicyIndex(docs).entries[k] < |docs|
      ensures KeptId(docs[PolicyIndex(docs).entries[k]]) == Some(k)
      ensures forall j :: PolicyIndex(docs).entries[k] < j < |docs| ==> KeptId(docs[j]) != Some(k)
    {
      IndexOfLast(ids, k);
    }
  }

  /** The policy `policy.basePolicy` is set to: the one indexed under the text of the first `PolicyId` element. */
  function LinkedBase(doc: PolicyDocument, policies: OrderedMap<Policy>): (b: Policy?)
    ensures b != null <==> doc.basePolicyId.Some? && doc.basePolicyId.value in policies.entries
    ensures b != null ==> b == policies.entries[doc.basePolicyId.value]
  {
    if doc.basePolicyId.Some? && doc.basePolicyId.value in policies.entries then policies.entries[doc.basePolicyId.value]
    else null
  }

  /**
   * Base links that `process` can follow to an end: a rank on the indexed ids
   * that drops from every policy to the policy its base id names. On a cycle
   * of base links `process` calls itself without end.
   */
  ghost predicate AcyclicBases(docs: seq<Option<PolicyDocument>>, rank: map<string, nat>) {
    var index := PolicyIndex(docs);
    && (forall k :: k in index.entries ==> k in rank)
    && forall k :: k in index.entries && index.entries[k] < |docs| && docs[index.entries[k]].Some? ==>
         var b := docs[index.entries[k]].value.basePolicyId;
         b.Some? && b.value in index.entries ==> rank[b.value] < rank[k]
  }

  /** An indexed policy for file position `i`, before any processing (its base link aside). */
  ghost predicate Loaded(p: Policy, k: string, i: nat, files: seq<PolicyFile>, docs: seq<Option<PolicyDocument>>)
    reads p`xml, p`processed, p`journeys, p`renumbered
  {
    && i < |files| && i < |docs|
    && p.file == files[i] && docs[i] == Some(p.xml) && p.policyId == Some(k)
    && !p.processed && p.journeys == {} && p.renumbered == 0
  }

  /** Lines 9-24: one new `Policy` per file that parses and has a truthy id, indexed by that id. */
  method BuildPolicyMap(files: seq<PolicyFile>, parse: string -> Option<PolicyDocument>)
      returns (policies: OrderedMap<Policy>)
    ensures Built(policies, files, Docs(Texts(files), parse), PolicyIndex(Docs(Texts(files), parse)))
    ensures fresh(policies.entries.Values)
  {
    ghost var docs := Docs(Texts(files), parse);
    ghost var ids := KeptIds(docs);
    policies := Empty();
    for i := 0 to |files|
      invariant Built(policies, files, docs, IndexOf(ids[..i]))
      invariant fresh(policies.entries.Values)
    {
      IndexOfSnoc(ids, i);
      var doc := parse(files[i].data);
      if doc.Some? && Truthy(doc.value.rootPolicyId) {
        var policy := new Policy(files[i], doc.value);
        BuiltSet(policies, files, docs, IndexOf(ids[..i]), i, policy);
        policies.SetValues(doc.value.rootPolicyId.value, policy);
        policies := policies.Set(doc.value.rootPolicyId.value, policy);
      }
    }
    assert ids[..|files|] == ids;
  }

  /**
   * The map after the first loop has run over the files `index` covers: each
   * indexed id holds a new, unlinked policy loaded from the file the index
   * gives for it.
   */
  ghost predicate Built(policies: OrderedMap<Policy>, files: seq<PolicyFile>, docs: seq<Option<PolicyDocument>>,
                        index: OrderedMap<nat>)
    reads policies.entries.Values
  {
    && policies.Valid()
    && policies.keys == index.keys && policies.entries.Keys == index.entries.Keys
    && forall k :: k in policies.entries ==>
         policies.entries[k].basePolicy == null && Loaded(policies.entries[k], k, index.entries[k], files, docs)
  }

  /** A file that parses with a truthy id enters its new policy under that id, replacing any earlier one. */
  lemma BuiltSet(policies: OrderedMap<Policy>, files: seq<PolicyFile>, docs: seq<Option<PolicyDocument>>,
                 index: OrderedMap<nat>, i: nat, p: Policy)
    requires Built(policies, files, docs, index) && p.policyId.Some?
    requires p.basePolicy == null && Loaded(p, p.policyId.value, i, files, docs)
    ensures Built(policies.Set(p.policyId.value, p), files, docs, index.Set(p.policyId.value, i))
  {
    var k := p.policyId.value;
    var policies', index' := policies.Set(k, p), index.Set(k, i);
    forall j | j in policies'.entries
      ensures policies'.entries[j].basePolicy == null && Loaded(policies'.entries[j], j, index'.entries[j], files, docs)
    {
      if j != k {
        assert policies'.entries[j] == policies.entries[j] && index'.entries[j] == index.entries[j];
      }
    }
  }

  /** Lines 27-36: link every indexed policy to the policy its first `PolicyId` element names, if indexed. */
  method LinkBases(policies: OrderedMap<Policy>)
    requires policies.Valid()
    modifies policies.entries.Values`basePolicy
    ensures forall p :: p in policies.entries.Values ==>
      p.basePolicy == if LinkedBase(p.xml, policies) != null then LinkedBase(p.xml, policies) else old(p.basePolicy)
    ensures forall p :: p in policies.entries.Values ==>
      p.xml == old(p.xml) && p.processed == old(p.processed) && p.journeys == old(p.journeys) && p.renumbered == old(p.renumbered)
  {
    var values := policies.Values();
    ghost var visited: set<Policy> := {};
    for i := 0 to |values|
      invariant AllInBefore(values, i, visited)
      invariant forall p :: p in policies.entries.Values && p in visited ==>
        p.basePolicy == if LinkedBase(p.xml, policies) != null then LinkedBase(p.xml, policies) else old(p.basePolicy)
      invariant forall p :: p in policies.entries.Values && p !in visited ==> p.basePolicy == old(p.basePolicy)
    {
      var policy := values[i];
      var base := policy.xml.basePolicyId;
      if base.Some? && base.value in policies.entries {
        policy.SetBase(policies.entries[base.value]);
      }
      ghost var v0 := visited;
      visited := visited + {policy};
      AllInBeforeGrow(values, i, v0, visited);
    }
    policies.ValuesCover();
    AllInBeforeAll(values, visited);
  }

  /** Every indexed policy after `LinkBases`: loaded from its file and linked to its base. */
  ghost predicate Linked(policies: OrderedMap<Policy>, files: seq<PolicyFile>, docs: seq<Option<PolicyDocument>>)
    reads policies.entries.Values
  {
    var index := PolicyIndex(docs);
    && policies.Valid()
    && policies.keys == index.keys && policies.entries.Keys == index.entries.Keys
    && forall k :: k in policies.entries ==>
         var p := policies.entries[k];
         Loaded(p, k, index.entries[k], files, docs) && p.basePolicy == LinkedBase(p.xml, policies)
  }

  /** The indexed policies are ready to be processed: their base links are closed and acyclic, and no two share a file. */
  lemma LinkedUniverse(policies: OrderedMap<Policy>, files: seq<PolicyFile>, docs: seq<Option<PolicyDocument>>,
                       rank: map<string, nat>)
    requires Linked(policies, files, docs) && AcyclicBases(docs, rank)
    requires SameFileSameDoc(files, docs)
    ensures var U := policies.entries.Values;
      Closed(U) && Ranked(U, rank) && FilesDistinct(U) && ProcessedClosed(U)
    ensures forall p :: p in policies.entries.Values ==> !p.processed
  {
    LinkedFilesDistinct(policies, files, docs);
    LinkedRanked(policies, files, docs, rank);
    LinkedUnprocessed(policies, files, docs);
  }

  /** Listing one file twice gives the same document twice. */
  ghost predicate SameFileSameDoc(files: seq<PolicyFile>, docs: seq<Option<PolicyDocument>>) {
    forall i, j :: 0 <= i < |files| && 0 <= j < |files| && i < |docs| && j < |docs| && files[i] == files[j] ==>
      docs[i] == docs[j]
  }

  /** Two indexed ids name two different file positions, so no two indexed policies share a file. */
  lemma LinkedFilesDistinct(policies: OrderedMap<Policy>, files: seq<PolicyFile>, docs: seq<Option<PolicyDocument>>)
    requires Linked(policies, files, docs) && SameFileSameDoc(files, docs)
    ensures FilesDistinct(policies.entries.Values)
  {
    forall p, q | p in policies.entries.Values && q in policies.entries.Values && p != q
      ensures p.file != q.file
    {
      var k :| k in policies.entries && policies.entries[k] == p;
      var l :| l in policies.entries && policies.entries[l] == q;
      IndexKeeps(docs, k);
      IndexKeeps(docs, l);
    }
  }

  /** The file position an indexed id maps to holds a document with that id. */
  lemma IndexKeeps(docs: seq<Option<PolicyDocument>>, k: string)
    requires k in PolicyIndex(docs).entries
    ensures PolicyIndex(docs).entries[k] < |docs| && KeptId(docs[PolicyIndex(docs).entries[k]]) == Some(k)
  {
    PolicyIndexSpec(docs);
  }

  /** The base links of the indexed policies stay among them and follow the rank down. */
  lemma LinkedRanked(policies: OrderedMap<Policy>, files: seq<PolicyFile>, docs: seq<Option<PolicyDocument>>,
                     rank: map<string, nat>)
    requires Linked(policies, files, docs) && AcyclicBases(docs, rank)
    ensures Closed(policies.entries.Values) && Ranked(policies.entries.Values, rank)
  {
    forall p | p in policies.entries.Values
      ensures p.policyId.Some? && p.policyId.value in rank
      ensures p.basePolicy != null ==>
        p.basePolicy in policies.entries.Values
        && p.basePolicy.policyId.Some? && p.basePolicy.policyId.value in rank
        && rank[p.basePolicy.policyId.value] < rank[p.policyId.value]
    {
      var k :| k in policies.entries && policies.entries[k] == p;
      if p.basePolicy != null {
        var b := p.xml.basePolicyId.value;
        assert policies.entries[b].policyId == Some(b);
      }
    }
  }

  /** Before processing, no indexed policy is processed. */
  lemma LinkedUnprocessed(policies: OrderedMap<Policy>, files: seq<PolicyFile>, docs: seq<Option<PolicyDocument>>)
    requires Linked(policies, files, docs)
    ensures forall p :: p in policies.entries.Values ==> !p.processed
    ensures ProcessedClosed(policies.entries.Values)
  {
    var S := States(policies.entries.Values);
    forall q | q in S
      ensures !S[q].processed
    {
      var k :| k in policies.entries && policies.entries[k] == q;
    }
  }

  /**
   * One indexed policy once `RenumberPolicies` is done: processed and linked;
   * the journeys of its document that the base chain does not define have
   * their steps renumbered and every other journey is as parsed; the count
   * holds the rewrites; the file holds the serialised document when there
   * are journeys and a rewrite, and its text as read otherwise; every journey
   * id of the document is recorded.
   */
  ghost predicate Renumbered(p: Policy, k: string, i: nat, files: seq<PolicyFile>, texts: seq<string>,
                             docs: seq<Option<PolicyDocument>>, policies: OrderedMap<Policy>, serialize: PolicyDocument -> string)
    reads p, p.file, policies.entries.Values
  {
    var U := policies.entries.Values;
    && i < |files| && i < |texts| && i < |docs| && docs[i].Some?
    && p.file == files[i] && p.policyId == Some(k) && p.processed
    && p.basePolicy == LinkedBase(docs[i].value, policies)
    && Closed(U) && (p.basePolicy == null || p.basePolicy in U)
    && var doc, inherited := docs[i].value, Inherited(p.basePolicy, U);
       && p.xml == doc.(journeys := RenumberedJourneys(doc.journeys, inherited))
       && p.renumbered == Rewrites(doc.journeys, inherited)
       && p.file.data == (if doc.journeys == [] || p.renumbered == 0 then texts[i] else serialize(p.xml))
       && JourneyIds(doc.journeys) <= p.journeys
  }

  /**
   * A root policy (no base) whose one journey `J` has steps ordered 5, 7:
   * once `Renumbered`, the steps read 1, 2, two rewrites are counted, and the
   * file holds the serialised document.
   */
  lemma RenumberedRootExample(p: Policy, k: string, i: nat, files: seq<PolicyFile>, texts: seq<string>,
                              docs: seq<Option<PolicyDocument>>, policies: OrderedMap<Policy>, serialize: PolicyDocument -> string)
    requires Renumbered(p, k, i, files, texts, docs, policies, serialize) && p.basePolicy == null
    requires docs[i].value.journeys == [Journey(Some("J"), [Some("5"), Some("7")])]
    ensures p.xml.journeys == [Journey(Some("J"), [Some("1"), Some("2")])]
    ensures p.renumbered == 2 && p.file.data == serialize(p.xml)
  {
    var steps := [Some("5"), Some("7")];
    assert StepLabel(0) == "1" && StepLabel(1) == "2";
    assert OutOfPlace(steps[0], 0) && OutOfPlace(steps[1], 1);
    assert RenumberedSteps(steps) == [Some("1"), Some("2")];
    assert steps[..1][..0] == [] && Misplaced(steps[..1]) == 1;
    assert steps[..2][..1] == steps[..1] && steps[..2] == steps;
    var js := docs[i].value.journeys;
    assert js[..0] == [] && js[..1] == js;
    assert Rewrites(js, {}) == 2;
  }

  /** Lines 9-36: the indexed policies, each linked to its base. */
  method IndexPolicies(files: seq<PolicyFile>, parse: string -> Option<PolicyDocument>)
      returns (policies: OrderedMap<Policy>)
    ensures Linked(policies, files, Docs(Texts(files), parse)) && fresh(policies.entries.Values)
  {
    policies := BuildPolicyMap(files, parse);
    LinkBases(policies);
  }

  /**
   * Lines 38-40: process every indexed policy, in index order. Every policy
   * is on some chain processed, so each one steps as a reached policy: it
   * ends up processed, and one processed already is left as it was.
   */
  method ProcessAll(policies: OrderedMap<Policy>, ghost rank: map<string, nat>, serialize: PolicyDocument -> string)
    requires policies.Valid()
    requires var U := policies.entries.Values;
      Closed(U) && Ranked(U, rank) && FilesDistinct(U) && ProcessedClosed(U)
    modifies policies.entries.Values, FilesOf(policies.entries.Values)
    ensures Closed(policies.entries.Values)
    ensures AllStepped(old(States(policies.entries.Values)), States(policies.entries.Values),
                       policies.entries.Values, serialize)
  {
    ghost var U := policies.entries.Values;
    ghost var S0 := States(U);
    ghost var reached: set<Policy> := {};
    AllSteppedProcessed(S0, reached, serialize);
    var values := policies.Values();
    for i := 0 to |values|
      invariant Closed(U) && Ranked(U, rank) && FilesDistinct(U) && ProcessedClosed(U)
      invariant AllStepped(S0, States(U), reached, serialize)
      invariant AllInBefore(values, i, reached)
    {
      ghost var r0 := reached;
      reached := ProcessNext(values[i], U, rank, S0, reached, serialize);
      AllInBeforeGrow(values, i, r0, reached);
    }
    policies.ValuesCover();
    AllSteppedWider(S0, States(U), reached, U, serialize);
  }

  /** One turn of the loop of lines 38-40: `policy` and its base chain join the policies reached since `S0`. */
  method ProcessNext(policy: Policy, ghost U: set<Policy>, ghost rank: map<string, nat>, ghost S0: map<Policy, PolicyState>,
                     ghost reached: set<Policy>, serialize: PolicyDocument -> string)
      returns (ghost reached': set<Policy>)
    requires policy in U && Closed(U) && Ranked(U, rank) && FilesDistinct(U) && ProcessedClosed(U)
    requires AllStepped(S0, States(U), reached, serialize)
    modifies U, FilesOf(U)
    ensures Closed(U) && Ranked(U, rank) && FilesDistinct(U) && ProcessedClosed(U)
    ensures AllStepped(S0, States(U), reached', serialize)
    ensures policy in reached' && forall q :: q in reached ==> q in reached'
  {
    ghost var S1 := States(U);
    ghost var chain := Lineage(policy, U, rank);
    assert policy in chain;
    policy.Process(U, rank, serialize);
    AllSteppedCompose(S0, S1, States(U), reached, chain, serialize);
    reached' := reached + chain;
  }

  /** The first `n` elements of `s` are in `r`. */
  ghost predicate AllInBefore<T>(s: seq<T>, n: nat, r: set<T>) {
    forall j :: 0 <= j < n && j < |s| ==> s[j] in r
  }

  lemma AllInBeforeGrow<T>(s: seq<T>, n: nat, r0: set<T>, r1: set<T>)
    requires n < |s| && AllInBefore(s, n, r0) && s[n] in r1 && forall q :: q in r0 ==> q in r1
    ensures AllInBefore(s, n + 1, r1)
  {
  }

  lemma AllInBeforeAll<T>(s: seq<T>, r: set<T>)
    requires AllInBefore(s, |s|, r)
    ensures forall x :: x in s ==> x in r
  {
  }

  /** Widening `reached` by policies reached already changes nothing. */
  lemma AllSteppedWider(S: map<Policy, PolicyState>, T: map<Policy, PolicyState>, r1: set<Policy>, r2: set<Policy>,
                        serialize: PolicyDocument -> string)
    requires AllStepped(S, T, r1, serialize) && S.Keys <= r1 && r2 == S.Keys
    ensures AllStepped(S, T, r2, serialize)
  {
  }

  /**
   * `RenumberPolicies`: index the policies, link each to its base and process
   * each in index order. The policy map, local to the source, is returned so
   * that the contract can name the policies.
   */
  method RenumberPolicies(files: seq<PolicyFile>, parse: string -> Option<PolicyDocument>,
                          serialize: PolicyDocument -> string, ghost rank: map<string, nat>)
      returns (policies: OrderedMap<Policy>)
    requires AcyclicBases(Docs(Texts(files), parse), rank)
    modifies set i | 0 <= i < |files| :: files[i]
    ensures policies.Valid()
    ensures policies.keys == PolicyIndex(Docs(old(Texts(files)), parse)).keys
    ensures policies.entries.Keys == PolicyIndex(Docs(old(Texts(files)), parse)).entries.Keys
    ensures forall k :: k in policies.entries ==>
      Renumbered(policies.entries[k], k, PolicyIndex(Docs(old(Texts(files)), parse)).entries[k],
                 files, old(Texts(files)), Docs(old(Texts(files)), parse), policies, serialize)
    // a file that no indexed policy holds is left as it was
    ensures forall i :: 0 <= i < |files| && files[i] !in FilesOf(policies.entries.Values) ==>
      files[i].data == old(files[i].data)
  {
    ghost var texts := Texts(files);
    ghost var docs := Docs(texts, parse);
    assert SameFileSameDoc(files, docs);
    policies := IndexPolicies(files, parse);
    ProcessIndexed(policies, files, texts, docs, parse, serialize, rank);
  }

  /** Lines 38-40 on the policies of lines 9-36: each indexed policy ends up `Renumbered`. */
  method ProcessIndexed(policies: OrderedMap<Policy>, ghost files: seq<PolicyFile>, ghost texts: seq<string>,
                        ghost docs: seq<Option<PolicyDocument>>, ghost parse: string -> Option<PolicyDocument>,
                        serialize: PolicyDocument -> string, ghost rank: map<string, nat>)
    requires texts == Texts(files) && docs == Docs(texts, parse)
    requires Linked(policies, files, docs) && AcyclicBases(docs, rank) && SameFileSameDoc(files, docs)
    modifies policies.entries.Values, FilesOf(policies.entries.Values)
    ensures forall k :: k in policies.entries ==>
      Renumbered(policies.entries[k], k, PolicyIndex(docs).entries[k], files, texts, docs, policies, serialize)
  {
    LinkedUniverse(policies, files, docs, rank);
    ghost var S0 := States(policies.entries.Values);
    LinkedSnapshot(policies, files, texts, docs, parse);
    ProcessAll(policies, rank, serialize);
    RenumberedAll(policies, files, texts, docs, S0, serialize);
  }

  /** `Linked`, read off the snapshot of the indexed policies. */
  ghost predicate LinkedState(S: map<Policy, PolicyState>, policies: OrderedMap<Policy>, files: seq<PolicyFile>,
                              texts: seq<string>, docs: seq<Option<PolicyDocument>>) {
    var index := PolicyIndex(docs);
    && policies.entries.Keys == index.entries.Keys
    && forall k :: k in policies.entries ==>
         var p := policies.entries[k];
         var i := index.entries[k];
         && p in S && i < |files| && i < |texts| && i < |docs| && docs[i].Some?
         && p.file == files[i] && p.policyId == Some(k)
         && S[p].xml == docs[i].value && S[p].data == texts[i]
         && S[p].basePolicy == LinkedBase(docs[i].value, policies)
         && !S[p].processed && S[p].renumbered == 0 && S[p].journeys == {}
  }

  lemma LinkedSnapshot(policies: OrderedMap<Policy>, files: seq<PolicyFile>, texts: seq<string>,
                       docs: seq<Option<PolicyDocument>>, parse: string -> Option<PolicyDocument>)
    requires texts == Texts(files) && docs == Docs(texts, parse) && Linked(policies, files, docs)
    ensures LinkedState(States(policies.entries.Values), policies, files, texts, docs)
  {
  }

  /** After processing every indexed policy from the linked snapshot `S0`, each one is `Renumbered`. */
  lemma RenumberedAll(policies: OrderedMap<Policy>, files: seq<PolicyFile>, texts: seq<string>,
                      docs: seq<Option<PolicyDocument>>, S0: map<Policy, PolicyState>, serialize: PolicyDocument -> string)
    requires LinkedState(S0, policies, files, texts, docs) && Closed(policies.entries.Values)
    requires AllStepped(S0, States(policies.entries.Values), policies.entries.Values, serialize)
    ensures forall k :: k in policies.entries ==>
      Renumbered(policies.entries[k], k, PolicyIndex(docs).entries[k], files, texts, docs, policies, serialize)
  {
    var U := policies.entries.Values;
    var S1 := States(U);
    forall k | k in policies.entries
      ensures Renumbered(policies.entries[k], k, PolicyIndex(docs).entries[k], files, texts, docs, policies, serialize)
    {
      var p := policies.entries[k];
      assert p in U;
      InheritedState(p.basePolicy, U);
    }
  }
}
