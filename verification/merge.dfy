/**
  The document-level steps both pipelines share: the offer loop that reconciles every
  offer of the base feed with the pricing index (drop as missing, reprice, normalise,
  drop as invalid, keep) and counts what it did, the date stamp on the root and the
  synthesis of a categories block from the kept offers. `Pipeline` selects the
  generator's or the update job's per-offer steps.
 */
module Merge {
  import opened Wrappers
  import opened Text
  import opened Seqs
  import opened Feed
  import Generator
  import UpdateJob
  import opened Shop

  /** The one-shot generator (scripts/generate_maudau_feed.py) or the scheduled job (update_maudau.py). */
  datatype Pipeline = OneShot | Scheduled

  function LookupOf(p: Pipeline): Lookup {
    match p
    case OneShot => ByLocalName
    case Scheduled => ByTag
  }

  /** The pipeline's `normalize_offer`. */
  function Normalize(p: Pipeline, e: Element): (r: (Element, bool))
    ensures r.1 ==> RequiredFieldsPresent(r.0, LookupOf(p))
  {
    match p
    case OneShot => Generator.Normalized(e)
    case Scheduled => UpdateJob.Normalized(e)
  }

  /** The pipeline's pricing updates. */
  function Reprice(p: Pipeline, e: Element, record: Option<Record>): (Element, bool, nat) {
    match p
    case OneShot => Generator.Repriced(e, record)
    case Scheduled => UpdateJob.Repriced(e, record)
  }

  // ---------------------------------------------------------------------------
  // The offer loop

  /** What happens to an offer: removed as missing from the pricing feed, removed as invalid, or kept. */
  datatype Fate = Missing | Invalid | Kept

  /** One iteration of the loop: the offer's fate, the offer as rewritten, and the changes it counted. */
  datatype Outcome = Outcome(fate: Fate, offer: Element, priceChanged: bool, otherChanged: nat)

  /** The pricing record of an offer: the index entry under its identity key, if any. */
  function RecordFor(p: Pipeline, index: map<string, Record>, e: Element): Option<Record> {
    var key := ResolveOfferIdKey(e, LookupOf(p));
    if key in index then Some(index[key]) else None
  }

  /** A repriced and normalised offer: kept when normalisation succeeds, invalid otherwise. */
  function Processed(p: Pipeline, e: Element, record: Option<Record>): Outcome {
    var repriced := Reprice(p, e, record);
    var normalized := Normalize(p, repriced.0);
    Outcome(if normalized.1 then Kept else Invalid, normalized.0, repriced.1, repriced.2)
  }

  /**
    One iteration of the offer loop: an offer without a record whose vendor is not
    allow-listed is missing; any other offer is repriced (from its record, if any) and
    normalised, and is kept when normalisation succeeds.
   */
  function Reconcile(p: Pipeline, index: map<string, Record>, e: Element): Outcome {
    var record := RecordFor(p, index, e);
    if record.None? && ExtractVendor(e, LookupOf(p)) !in ALLOWED_VENDORS then Outcome(Missing, e, false, 0)
    else Processed(p, e, record)
  }

  /** An offer is dropped as missing exactly when it has no record and its vendor is not allow-listed. */
  lemma MissingIff(p: Pipeline, index: map<string, Record>, e: Element)
    ensures Reconcile(p, index, e).fate == Missing <==>
              ResolveOfferIdKey(e, LookupOf(p)) !in index && ExtractVendor(e, LookupOf(p)) !in ALLOWED_VENDORS
    ensures Reconcile(p, index, e).fate == Missing ==> Reconcile(p, index, e) == Outcome(Missing, e, false, 0)
    ensures Reconcile(p, index, e).fate == Kept ==> RequiredFieldsPresent(Reconcile(p, index, e).offer, LookupOf(p))
  {
  }

  /** Repricing without a record counts no change; with one it counts at most two other changes. */
  lemma RepriceCounts(p: Pipeline, e: Element, record: Option<Record>)
    ensures record.None? ==> !Reprice(p, e, record).1 && Reprice(p, e, record).2 == 0
    ensures Reprice(p, e, record).2 <= 2
  {
    match p {
      case OneShot =>
        if record.None? {
          Generator.RepricedUnmatched(e);
        } else {
          Generator.RepricedMatchedCounts(e, record.value);
        }
      case Scheduled =>
        if record.None? {
          UpdateJob.RepricedUnmatched(e);
        } else {
          UpdateJob.RepricedMatchedCounts(e, record.value);
        }
    }
  }

  /** An offer without a record counts no change; any offer counts at most two other changes. */
  lemma ChangesCounted(p: Pipeline, index: map<string, Record>, e: Element)
    ensures RecordFor(p, index, e).None? ==> !Reconcile(p, index, e).priceChanged && Reconcile(p, index, e).otherChanged == 0
    ensures Reconcile(p, index, e).otherChanged <= 2
  {
    var record := RecordFor(p, index, e);
    if record.Some? || ExtractVendor(e, LookupOf(p)) in ALLOWED_VENDORS {
      RepriceCounts(p, e, record);
      assert Reconcile(p, index, e).priceChanged == Reprice(p, e, record).1;
      assert Reconcile(p, index, e).otherChanged == Reprice(p, e, record).2;
    }
  }

  /** The counters of the loop. */
  datatype Stats = Stats(total: nat, kept: nat, removedMissing: nat, removedInvalid: nat, priceChanged: nat, otherChanged: nat)

  /** The counters after one more iteration. */
  function Count(stats: Stats, outcome: Outcome): Stats {
    Stats(stats.total + 1,
          stats.kept + (if outcome.fate == Kept then 1 else 0),
          stats.removedMissing + (if outcome.fate == Missing then 1 else 0),
          stats.removedInvalid + (if outcome.fate == Invalid then 1 else 0),
          stats.priceChanged + (if outcome.priceChanged then 1 else 0),
          stats.otherChanged + outcome.otherChanged)
  }

  /** The counters after a run of iterations. */
  function Tally(outcomes: seq<Outcome>): Stats {
    if outcomes == [] then Stats(0, 0, 0, 0, 0, 0)
    else Count(Tally(outcomes[..|outcomes| - 1]), outcomes[|outcomes| - 1])
  }

  predicate IsKept(outcome: Outcome) {
    outcome.fate == Kept
  }

  /** The outcome of every offer, in document order. */
  function Outcomes(p: Pipeline, index: map<string, Record>, offers: seq<Element>): (r: seq<Outcome>)
    ensures |r| == |offers|
  {
    if offers == [] then []
    else Outcomes(p, index, offers[..|offers| - 1]) + [Reconcile(p, index, offers[|offers| - 1])]
  }

  /** One more outcome bumps the counters by `Count` and adds a kept offer to the survivors. */
  lemma TallyStep(outcomes: seq<Outcome>, outcome: Outcome)
    ensures Tally(outcomes + [outcome]) == Count(Tally(outcomes), outcome)
    ensures Survivors(outcomes + [outcome]) == Survivors(outcomes) + (if IsKept(outcome) then [outcome.offer] else [])
  {
    assert (outcomes + [outcome])[..|outcomes|] == outcomes;
    FilterSnoc(outcomes, outcome, IsKept);
  }

  /** The counters and survivors of one more outcome of a sequence. */
  lemma TallyPrefix(outcomes: seq<Outcome>, i: nat)
    requires i < |outcomes|
    ensures Tally(outcomes[..i + 1]) == Count(Tally(outcomes[..i]), outcomes[i])
    ensures Survivors(outcomes[..i + 1]) == Survivors(outcomes[..i]) + (if IsKept(outcomes[i]) then [outcomes[i].offer] else [])
  {
    assert outcomes[..i + 1] == outcomes[..i] + [outcomes[i]];
    TallyStep(outcomes[..i], outcomes[i]);
  }

  /** The offers left in the document: the kept ones, rewritten, in document order. */
  function Survivors(outcomes: seq<Outcome>): seq<Element> {
    Map(Filter(outcomes, IsKept), (o: Outcome) => o.offer)
  }

  /**
    Every iteration bumps exactly one of kept, removed as missing and removed as invalid, so
    they add up to the total, which is the number of offers; the kept count is the number of
    offers left.
   */
  lemma {:induction false} TallyBalanced(outcomes: seq<Outcome>)
    ensures Tally(outcomes).total == |outcomes|
    ensures Tally(outcomes).total == Tally(outcomes).kept + Tally(outcomes).removedMissing + Tally(outcomes).removedInvalid
    ensures Tally(outcomes).kept == |Survivors(outcomes)|
    decreases |outcomes|
  {
    if outcomes != [] {
      var init := outcomes[..|outcomes| - 1];
      var o := outcomes[|outcomes| - 1];
      TallyBalanced(init);
      FilterSnoc(init, o, IsKept);
      assert outcomes == init + [o];
    }
  }

  /** One iteration of the loop on one offer. */
  method ReconcileOffer(p: Pipeline, index: map<string, Record>, e: Element) returns (outcome: Outcome)
    ensures outcome == Reconcile(p, index, e)
  {
    var lookup := LookupOf(p);
    var vendor := ExtractVendor(e, lookup);
    var key := ResolveOfferIdKey(e, lookup);
    var record := if key in index then Some(index[key]) else None;
    if record.None? && vendor !in ALLOWED_VENDORS {
      return Outcome(Missing, e, false, 0);
    }
    assert Reconcile(p, index, e) == Processed(p, e, record);
    match p {
      case OneShot => outcome := ProcessOneShot(e, record);
      case Scheduled => outcome := ProcessScheduled(e, record);
    }
  }

  /** The generator's pricing updates and `normalize_offer` on one offer. */
  method ProcessOneShot(e: Element, record: Option<Record>) returns (outcome: Outcome)
    ensures outcome == Processed(OneShot, e, record)
  {
    var offer := new Offer(e);
    var priceChanged, otherChanged := Generator.Reprice(offer, record);
    ghost var repriced := offer.Value();
    var ok := Generator.NormalizeOffer(offer);
    outcome := Outcome(if ok then Kept else Invalid, offer.Value(), priceChanged, otherChanged);
    ProcessedIs(OneShot, e, record, repriced, priceChanged, otherChanged, offer.Value(), ok);
  }

  /** The update job's pricing updates and `normalize_offer` on one offer. */
  method ProcessScheduled(e: Element, record: Option<Record>) returns (outcome: Outcome)
    ensures outcome == Processed(Scheduled, e, record)
  {
    var offer := new Offer(e);
    var priceChanged, otherChanged := UpdateJob.Reprice(offer, record);
    ghost var repriced := offer.Value();
    var ok := UpdateJob.NormalizeOffer(offer);
    outcome := Outcome(if ok then Kept else Invalid, offer.Value(), priceChanged, otherChanged);
    ProcessedIs(Scheduled, e, record, repriced, priceChanged, otherChanged, offer.Value(), ok);
  }

  lemma ProcessedIs(p: Pipeline, e: Element, record: Option<Record>, repriced: Element, priceChanged: bool, otherChanged: nat,
                    normalized: Element, ok: bool)
    requires (repriced, priceChanged, otherChanged) == Reprice(p, e, record)
    requires (normalized, ok) == Normalize(p, repriced)
    ensures Processed(p, e, record) == Outcome(if ok then Kept else Invalid, normalized, priceChanged, otherChanged)
  {
  }

  /** The outcome of the offer at position `i`. */
  lemma {:induction false} OutcomesAt(p: Pipeline, index: map<string, Record>, offers: seq<Element>, i: nat)
    requires i < |offers|
    ensures Outcomes(p, index, offers)[i] == Reconcile(p, index, offers[i])
    decreases |offers|
  {
    if i < |offers| - 1 {
      OutcomesAt(p, index, offers[..|offers| - 1], i);
    }
  }

  /** One iteration of the loop on the offer at position `i`. */
  method ReconcileAt(p: Pipeline, index: map<string, Record>, offers: seq<Element>, i: nat) returns (outcome: Outcome)
    requires i < |offers|
    ensures outcome == Outcomes(p, index, offers)[i]
    ensures outcome.fate == Missing ==> !outcome.priceChanged && outcome.otherChanged == 0
  {
    outcome := ReconcileOffer(p, index, offers[i]);
    OutcomesAt(p, index, offers, i);
    MissingIff(p, index, offers[i]);
  }

  /**
    The bookkeeping of one iteration: the total is bumped; a missing offer bumps the missing
    count and nothing else; any other offer bumps the price and other-change counters and
    then either the invalid count or the kept count, and a kept offer is appended.
   */
  method Tally1(stats: Stats, kept: seq<Element>, outcome: Outcome) returns (stats': Stats, kept': seq<Element>)
    requires outcome.fate == Missing ==> !outcome.priceChanged && outcome.otherChanged == 0
    ensures stats' == Count(stats, outcome)
    ensures kept' == kept + (if IsKept(outcome) then [outcome.offer] else [])
  {
    stats', kept' := stats, kept;
    stats' := stats'.(total := stats'.total + 1);
    if outcome.fate == Missing {
      stats' := stats'.(removedMissing := stats'.removedMissing + 1);
      return;
    }
    if outcome.priceChanged {
      stats' := stats'.(priceChanged := stats'.priceChanged + 1);
    }
    stats' := stats'.(otherChanged := stats'.otherChanged + outcome.otherChanged);
    if outcome.fate == Invalid {
      stats' := stats'.(removedInvalid := stats'.removedInvalid + 1);
      return;
    }
    stats' := stats'.(kept := stats'.kept + 1);
    kept' := kept' + [outcome.offer];
  }

  /**
    The offer loop: every offer is reconciled in document order; the kept ones, rewritten,
    are returned with the counters.
   */
  method ReconcileAll(p: Pipeline, index: map<string, Record>, offers: seq<Element>) returns (kept: seq<Element>, stats: Stats)
    ensures kept == Survivors(Outcomes(p, index, offers))
    ensures stats == Tally(Outcomes(p, index, offers))
  {
    ghost var outcomes := Outcomes(p, index, offers);
    kept := [];
    stats := Stats(0, 0, 0, 0, 0, 0);
    for i := 0 to |offers|
      invariant kept == Survivors(outcomes[..i])
      invariant stats == Tally(outcomes[..i])
    {
      var outcome := ReconcileAt(p, index, offers, i);
      TallyPrefix(outcomes, i);
      stats, kept := Tally1(stats, kept, outcome);
    }
    assert outcomes[..|offers|] == outcomes;
  }

  /** The offer loop on a document: its offers are replaced by the survivors. */
  method MergeOffers(doc: Document, index: map<string, Record>, p: Pipeline) returns (stats: Stats)
    modifies doc
    ensures doc.offers == Survivors(Outcomes(p, index, old(doc.offers)))
    ensures stats == Tally(Outcomes(p, index, old(doc.offers)))
    ensures doc.rootAttrs == old(doc.rootAttrs) && doc.hasShop == old(doc.hasShop) && doc.categories == old(doc.categories)
  {
    var kept;
    kept, stats := ReconcileAll(p, index, doc.offers);
    doc.offers := kept;
  }

  /** Every offer left in the document has its required fields. */
  lemma SurvivorsComplete(p: Pipeline, index: map<string, Record>, offers: seq<Element>)
    ensures forall o :: o in Survivors(Outcomes(p, index, offers)) ==> RequiredFieldsPresent(o, LookupOf(p))
  {
    var outcomes := Outcomes(p, index, offers);
    var kept := Filter(outcomes, IsKept);
    FilterMembers(outcomes, IsKept);
    forall o | o in Survivors(outcomes) ensures RequiredFieldsPresent(o, LookupOf(p)) {
      var k :| 0 <= k < |kept| && kept[k].offer == o;
      assert kept[k] in outcomes;
      var j :| 0 <= j < |outcomes| && outcomes[j] == kept[k];
      OutcomesAt(p, index, offers, j);
      MissingIff(p, index, offers[j]);
    }
  }

  /**
    A whole run on a document (`generate` for the one-shot generator, `main` for the
    scheduled job): the offer loop, then the date stamp, then the categories block, which
    is synthesised from the offers that survived.
   */
  method Run(doc: Document, index: map<string, Record>, p: Pipeline, now: string) returns (stats: Stats)
    modifies doc
    ensures doc.offers == Survivors(Outcomes(p, index, old(doc.offers)))
    ensures stats == Tally(Outcomes(p, index, old(doc.offers)))
    ensures doc.rootAttrs == RootDated(old(doc.rootAttrs), now)
    ensures doc.hasShop
    ensures !old(doc.hasShop) ==> doc.categories == Some([])
    ensures old(doc.hasShop) && old(doc.categories).Some? ==> doc.categories == old(doc.categories)
    ensures old(doc.hasShop) && old(doc.categories).None? ==> doc.categories == Some(Categories(doc.offers, LookupOf(p)))
  {
    stats := MergeOffers(doc, index, p);
    EnsureRootDate(doc, now);
    EnsureCategories(doc, LookupOf(p));
  }
}
