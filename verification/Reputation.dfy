/** cre/lib/reputation.js and packages/sla/aggregate.js: the ratios a service is ranked by, over the verdicts of
    a trailing window. */
module Reputation {
  import opened Basics
  import opened LogScan
  import opened Outcomes

  /** The outcome on a stored verdict, or any value the engine does not know. */
  datatype Recorded = Known(outcome: Outcome) | Unrecognised

  datatype Verdict = Verdict(serviceId: string, timestamp: int, outcome: Recorded)

  datatype Status = Active | Suspended | Deregistered

  datatype Service = Service(serviceId: string, slug: string, status: Status)

  const SCORE_SCALE := 1000

  datatype Scores = Scores(conformance: nat, availability: nat, pass: nat, fail: nat, down: nat)

  // ---------------------------------------------------------------- aggregateWindow

  /** How many times an outcome occurs. */
  function Count(outcomes: seq<Recorded>, o: Recorded): nat {
    if outcomes == [] then 0
    else Count(outcomes[..|outcomes| - 1], o) + (if outcomes[|outcomes| - 1] == o then 1 else 0)
  }

  lemma CountStep(outcomes: seq<Recorded>, last: Recorded, o: Recorded)
    ensures Count(outcomes + [last], o) == Count(outcomes, o) + (if last == o then 1 else 0)
  {
    assert (outcomes + [last])[..|outcomes|] == outcomes;
  }

  /** `part` out of `whole` on the scale, rounded down; full marks when there is nothing to go by. */
  function Ratio(part: nat, whole: nat): nat {
    if whole == 0 then SCORE_SCALE else (part * SCORE_SCALE) / whole
  }

  lemma RatioIs(part: nat, whole: nat)
    ensures Ratio(part, whole) == if whole == 0 then SCORE_SCALE else (part * SCORE_SCALE) / whole
  {
  }

  function ScoresOf(pass: nat, fail: nat, down: nat): Scores {
    Scores(Ratio(pass, pass + fail), Ratio(pass + fail, pass + fail + down), pass, fail, down)
  }

  /** `q` is `part` out of `whole` in thousandths, rounded down; a thousand when there is nothing to go by. */
  ghost predicate Thousandths(q: nat, part: nat, whole: nat) {
    if whole == 0 then q == 1000 else q * whole <= 1000 * part < (q + 1) * whole
  }

  /** There is one such number. */
  lemma OneQuotient(q: nat, r: nat, part: nat, whole: nat)
    requires Thousandths(q, part, whole) && Thousandths(r, part, whole)
    ensures q == r
  {
    if whole > 0 {
      if q < r { Scales(q + 1, r, whole); }
      if r < q { Scales(r + 1, q, whole); }
    }
  }

  lemma Scales(a: nat, b: nat, whole: nat)
    requires a <= b
    ensures a * whole <= b * whole
  {
  }

  /** What the scores say of the counts: conformance is of what was answered, availability of everything. */
  ghost predicate ScoresSay(s: Scores, pass: nat, fail: nat, down: nat) {
    && s.pass == pass && s.fail == fail && s.down == down
    && Thousandths(s.conformance, pass, pass + fail)
    && Thousandths(s.availability, pass + fail, pass + fail + down)
  }

  lemma RatioIsThousandths(part: nat, whole: nat)
    ensures Thousandths(Ratio(part, whole), part, whole)
  {
    if whole > 0 { Floors(part * SCORE_SCALE, whole); }
  }

  lemma ScoresSayTheCounts(pass: nat, fail: nat, down: nat)
    ensures ScoresSay(ScoresOf(pass, fail, down), pass, fail, down)
  {
    hide Ratio, Thousandths;
    RatioIsThousandths(pass, pass + fail);
    RatioIsThousandths(pass + fail, pass + fail + down);
  }

  /** None when it throws on an outcome it does not know. */
  function Aggregate(outcomes: seq<Recorded>): Option<Scores> {
    if Unrecognised in outcomes then None
    else Some(ScoresOf(Count(outcomes, Known(PASS)), Count(outcomes, Known(FAIL)), Count(outcomes, Known(DOWN))))
  }

  lemma AggregateSays(outcomes: seq<Recorded>)
    ensures Aggregate(outcomes).None? <==> Unrecognised in outcomes
    ensures Aggregate(outcomes).Some? ==>
      var occurs := multiset(outcomes);
      ScoresSay(Aggregate(outcomes).value, occurs[Known(PASS)], occurs[Known(FAIL)], occurs[Known(DOWN)])
  {
    hide Count, ScoresOf, ScoresSay;
    CountIsMultiplicity(outcomes, Known(PASS));
    CountIsMultiplicity(outcomes, Known(FAIL));
    CountIsMultiplicity(outcomes, Known(DOWN));
    ScoresSayTheCounts(Count(outcomes, Known(PASS)), Count(outcomes, Known(FAIL)), Count(outcomes, Known(DOWN)));
  }

  method AggregateWindow(outcomes: seq<Recorded>) returns (scores: Option<Scores>)
    ensures scores == Aggregate(outcomes)
    ensures scores.None? <==> Unrecognised in outcomes
    ensures scores.Some? ==>
      var occurs := multiset(outcomes);
      ScoresSay(scores.value, occurs[Known(PASS)], occurs[Known(FAIL)], occurs[Known(DOWN)])
  {
    AggregateSays(outcomes);
    var pass, fail, down := 0, 0, 0;
    assert outcomes[..0] == [] && Count([], Known(PASS)) == Count([], Known(FAIL)) == Count([], Known(DOWN)) == 0;
    hide Count, Ratio, ScoresSay;
    for i := 0 to |outcomes|
      invariant Unrecognised !in outcomes[..i]
      invariant pass == Count(outcomes[..i], Known(PASS)) && fail == Count(outcomes[..i], Known(FAIL))
                && down == Count(outcomes[..i], Known(DOWN))
    {
      assert outcomes[..i + 1] == outcomes[..i] + [outcomes[i]];
      CountStep(outcomes[..i], outcomes[i], Known(PASS));
      CountStep(outcomes[..i], outcomes[i], Known(FAIL));
      CountStep(outcomes[..i], outcomes[i], Known(DOWN));
      match outcomes[i] {
        case Known(PASS) => pass := pass + 1;
        case Known(FAIL) => fail := fail + 1;
        case Known(DOWN) => down := down + 1;
        case Unrecognised => return None;
      }
    }
    assert outcomes[..|outcomes|] == outcomes;
    var answered := pass + fail;
    var total := answered + down;
    RatioIs(pass, answered);
    RatioIs(answered, total);
    return Some(Scores(if answered == 0 then SCORE_SCALE else (pass * SCORE_SCALE) / answered,
                       if total == 0 then SCORE_SCALE else (answered * SCORE_SCALE) / total,
                       pass, fail, down));
  }

  lemma Floors(n: nat, whole: nat)
    requires whole > 0
    ensures (n / whole) * whole <= n < (n / whole + 1) * whole
  {
    assert n == (n / whole) * whole + n % whole;
  }

  lemma Cancel(a: nat, b: nat, whole: nat)
    requires whole > 0 && a * whole < b * whole
    ensures a < b
  {
  }

  lemma RatioIsFloor(part: nat, whole: nat)
    requires part <= whole && whole > 0
    ensures Ratio(part, whole) * whole <= part * SCORE_SCALE < (Ratio(part, whole) + 1) * whole
    ensures Ratio(part, whole) <= SCORE_SCALE
    ensures Ratio(part, whole) == SCORE_SCALE <==> part == whole
  {
    var q := Ratio(part, whole);
    Floors(part * SCORE_SCALE, whole);
    hide Ratio;
    assert (SCORE_SCALE + 1) * whole == SCORE_SCALE * whole + whole;
    Cancel(q, SCORE_SCALE + 1, whole);
    if part == whole { Cancel(SCORE_SCALE, q + 1, whole); }
    if q == SCORE_SCALE { assert SCORE_SCALE * whole <= part * SCORE_SCALE; }
  }

  /** A perfect score is never rounded up to: it means no failed, respectively no lost, call. */
  lemma PerfectMeansFlawless(s: Scores, pass: nat, fail: nat, down: nat)
    requires ScoresSay(s, pass, fail, down)
    ensures s.conformance == 1000 <==> fail == 0
    ensures s.availability == 1000 <==> down == 0
    ensures s.conformance <= 1000 && s.availability <= 1000
  {
    hide Ratio, Thousandths;
    RatioIsThousandths(pass, pass + fail);
    RatioIsThousandths(pass + fail, pass + fail + down);
    OneQuotient(s.conformance, Ratio(pass, pass + fail), pass, pass + fail);
    OneQuotient(s.availability, Ratio(pass + fail, pass + fail + down), pass + fail, pass + fail + down);
    if pass + fail > 0 { RatioIsFloor(pass, pass + fail); } else { NothingToGoBy(); }
    if pass + fail + down > 0 { RatioIsFloor(pass + fail, pass + fail + down); } else { NothingToGoBy(); }
  }

  lemma NothingToGoBy()
    ensures Ratio(0, 0) == SCORE_SCALE
  {
  }

  lemma {:induction false} CountIsMultiplicity(outcomes: seq<Recorded>, o: Recorded)
    ensures Count(outcomes, o) == multiset(outcomes)[o]
  {
    if outcomes != [] {
      CountIsMultiplicity(outcomes[..|outcomes| - 1], o);
      assert outcomes == outcomes[..|outcomes| - 1] + [outcomes[|outcomes| - 1]];
    }
  }

  /** The order of the verdicts never shows. */
  lemma OrderNeverShows(a: seq<Recorded>, b: seq<Recorded>)
    requires multiset(a) == multiset(b)
    ensures Aggregate(a) == Aggregate(b)
  {
    forall o ensures Count(a, o) == Count(b, o) {
      CountIsMultiplicity(a, o);
      CountIsMultiplicity(b, o);
    }
    assert Unrecognised in a <==> Unrecognised in multiset(a);
    assert Unrecognised in b <==> Unrecognised in multiset(b);
    hide Count;
  }

  // ---------------------------------------------------------------- reputationForWindow

  datatype Entry = Entry(serviceId: string, slug: string, scores: Scores)

  predicate Listed(s: Service) { s.status != Deregistered }

  predicate InWindow(v: Verdict, since: int, now: int) { since < v.timestamp <= now }

  /** The outcomes of one service inside the half-open window, in the order given. */
  function OutcomesOf(verdicts: seq<Verdict>, id: string, since: int, now: int): seq<Recorded> {
    if verdicts == [] then []
    else
      var last := verdicts[|verdicts| - 1];
      OutcomesOf(verdicts[..|verdicts| - 1], id, since, now)
          + (if last.serviceId == id && InWindow(last, since, now) then [last.outcome] else [])
  }

  /** One entry per row of a listed service, in the order of the rows; none when an outcome is unknown. */
  function Entries(services: seq<Service>, listed: set<string>, verdicts: seq<Verdict>, since: int,
                   now: int): Option<seq<Entry>> {
    if services == [] then Some([])
    else
      var s := services[|services| - 1];
      var before := Entries(services[..|services| - 1], listed, verdicts, since, now);
      if before.None? || s.serviceId !in listed then before
      else
        var scores := Aggregate(OutcomesOf(verdicts, s.serviceId, since, now));
        if scores.None? then None else Some(before.value + [Entry(s.serviceId, s.slug, scores.value)])
  }

  function ListedIds(services: seq<Service>): set<string> { set s <- services | Listed(s) :: s.serviceId }

  function Reputations(services: seq<Service>, verdicts: seq<Verdict>, now: int, window: int): Option<seq<Entry>> {
    Entries(services, ListedIds(services), verdicts, now - window, now)
  }

  /** A bucket for every listed service. */
  method EmptyBuckets(services: seq<Service>) returns (byService: map<string, seq<Recorded>>)
    ensures byService.Keys == ListedIds(services) && forall id <- byService :: byService[id] == []
  {
    byService := map[];
    for i := 0 to |services|
      invariant byService.Keys == ListedIds(services[..i])
      invariant forall id <- byService :: byService[id] == []
    {
      assert services[..i + 1] == services[..i] + [services[i]];
      if Listed(services[i]) { byService := byService[services[i].serviceId := []]; }
    }
    assert services[..|services|] == services;
  }

  /** Each verdict of the window goes into the bucket of its service, if it has one. */
  method FillBuckets(empty: map<string, seq<Recorded>>, verdicts: seq<Verdict>, since: int, now: int)
    returns (byService: map<string, seq<Recorded>>)
    requires forall id <- empty :: empty[id] == []
    ensures byService.Keys == empty.Keys
            && forall id <- byService :: byService[id] == OutcomesOf(verdicts, id, since, now)
  {
    byService := empty;
    for i := 0 to |verdicts|
      invariant byService.Keys == empty.Keys
      invariant forall id <- byService :: byService[id] == OutcomesOf(verdicts[..i], id, since, now)
    {
      var verdict := verdicts[i];
      assert verdicts[..i + 1][..i] == verdicts[..i];
      if verdict.timestamp <= since || verdict.timestamp > now { continue; }
      if verdict.serviceId in byService {
        byService := byService[verdict.serviceId := byService[verdict.serviceId] + [verdict.outcome]];
      }
    }
    assert verdicts[..|verdicts|] == verdicts;
  }

  method ScoreRows(services: seq<Service>, byService: map<string, seq<Recorded>>, verdicts: seq<Verdict>, since: int,
                   now: int)
    returns (entries: Option<seq<Entry>>)
    requires forall id <- byService :: byService[id] == OutcomesOf(verdicts, id, since, now)
    ensures entries == Entries(services, byService.Keys, verdicts, since, now)
  {
    var rows := [];
    assert services[..0] == [] && Entries([], byService.Keys, verdicts, since, now) == Some([]);
    hide *;
    for i := 0 to |services|
      invariant Entries(services[..i], byService.Keys, verdicts, since, now) == Some(rows)
    {
      var s := services[i];
      EntriesStep(services, i, byService.Keys, verdicts, since, now);
      if s.serviceId in byService {
        var scores := AggregateWindow(byService[s.serviceId]);
        if scores.None? {
          NoneStays(services, i + 1, byService.Keys, verdicts, since, now);
          return None;
        }
        rows := rows + [Entry(s.serviceId, s.slug, scores.value)];
      }
    }
    assert services[..|services|] == services;
    return Some(rows);
  }

  /** The buckets as the code fills them, then the rows. */
  method ReputationForWindow(services: seq<Service>, verdicts: seq<Verdict>, now: int, windowSeconds: int)
    returns (entries: Option<seq<Entry>>)
    ensures entries == Reputations(services, verdicts, now, windowSeconds)
  {
    hide OutcomesOf, ListedIds, Entries;
    var since := now - windowSeconds;
    var empty := EmptyBuckets(services);
    var byService := FillBuckets(empty, verdicts, since, now);
    entries := ScoreRows(services, byService, verdicts, since, now);
  }

  lemma EntriesStep(services: seq<Service>, n: nat, listed: set<string>, verdicts: seq<Verdict>, since: int, now: int)
    requires n < |services|
    ensures var (s, before) := (services[n], Entries(services[..n], listed, verdicts, since, now));
            var scores := Aggregate(OutcomesOf(verdicts, s.serviceId, since, now));
            Entries(services[..n + 1], listed, verdicts, since, now)
            == if before.None? || s.serviceId !in listed then before
               else if scores.None? then None
               else Some(before.value + [Entry(s.serviceId, s.slug, scores.value)])
  {
    assert services[..n + 1][..n] == services[..n];
    hide Aggregate, OutcomesOf;
  }

  lemma {:induction false} NoneStays(services: seq<Service>, n: nat, listed: set<string>, verdicts: seq<Verdict>,
                                     since: int, now: int)
    requires n <= |services| && Entries(services[..n], listed, verdicts, since, now) == None
    ensures Entries(services, listed, verdicts, since, now) == None
  {
    if n < |services| {
      assert services[..|services| - 1][..n] == services[..n];
      NoneStays(services[..|services| - 1], n, listed, verdicts, since, now);
    } else {
      assert services[..n] == services;
    }
  }

  // ---------------------------------------------------------------- what a reader may rely on

  /** A verdict of the service inside the window. */
  ghost predicate Scored(v: Verdict, id: string, since: int, now: int, o: Recorded) {
    v.serviceId == id && since < v.timestamp <= now && v.outcome == o
  }

  ghost function Tally(verdicts: seq<Verdict>, id: string, since: int, now: int, o: Recorded): nat {
    if verdicts == [] then 0
    else
      Tally(verdicts[..|verdicts| - 1], id, since, now, o)
      + (if Scored(verdicts[|verdicts| - 1], id, since, now, o) then 1 else 0)
  }

  lemma {:induction false} CountIsTally(verdicts: seq<Verdict>, id: string, since: int, now: int, o: Recorded)
    ensures Count(OutcomesOf(verdicts, id, since, now), o) == Tally(verdicts, id, since, now, o)
  {
    if verdicts != [] {
      var init, last := verdicts[..|verdicts| - 1], verdicts[|verdicts| - 1];
      CountIsTally(init, id, since, now, o);
      hide Count;
      CountStep(OutcomesOf(init, id, since, now), last.outcome, o);
      assert OutcomesOf(init, id, since, now) + [] == OutcomesOf(init, id, since, now);
    } else {
      assert OutcomesOf(verdicts, id, since, now) == [];
    }
  }

  lemma OccursWhenCounted(outcomes: seq<Recorded>, o: Recorded)
    ensures o in outcomes <==> Count(outcomes, o) > 0
  {
    CountIsMultiplicity(outcomes, o);
    assert o in outcomes <==> o in multiset(outcomes);
    hide Count;
  }

  /** What an entry says of its service. */
  ghost predicate Speaks(e: Entry, s: Service, verdicts: seq<Verdict>, since: int, now: int) {
    && e.serviceId == s.serviceId && e.slug == s.slug
    && ScoresSay(e.scores,
                 Tally(verdicts, s.serviceId, since, now, Known(PASS)),
                 Tally(verdicts, s.serviceId, since, now, Known(FAIL)),
                 Tally(verdicts, s.serviceId, since, now, Known(DOWN)))
  }

  /** No row of a service in `ids` has an outcome the engine does not know. */
  ghost predicate NoUnknown(services: seq<Service>, ids: set<string>, verdicts: seq<Verdict>, since: int, now: int) {
    forall i :: 0 <= i < |services| && services[i].serviceId in ids ==>
      Tally(verdicts, services[i].serviceId, since, now, Unrecognised) == 0
  }

  /** The rows of the services in `ids`, in order. */
  ghost function RowsOf(services: seq<Service>, ids: set<string>): seq<Service> {
    if services == [] then []
    else
      var last := services[|services| - 1];
      RowsOf(services[..|services| - 1], ids) + (if last.serviceId in ids then [last] else [])
  }

  ghost predicate SpeaksForAll(entries: seq<Entry>, rows: seq<Service>, verdicts: seq<Verdict>, since: int, now: int) {
    |entries| == |rows| && forall i :: 0 <= i < |rows| ==> Speaks(entries[i], rows[i], verdicts, since, now)
  }

  /** One row scored on its own. */
  lemma RowSpeaks(s: Service, verdicts: seq<Verdict>, since: int, now: int)
    ensures var scores := Aggregate(OutcomesOf(verdicts, s.serviceId, since, now));
            && (scores.Some? <==> Tally(verdicts, s.serviceId, since, now, Unrecognised) == 0)
            && (scores.Some? ==> Speaks(Entry(s.serviceId, s.slug, scores.value), s, verdicts, since, now))
  {
    hide Count, OutcomesOf, Tally, ScoresOf, ScoresSay;
    ScoresSayTheCounts(Tally(verdicts, s.serviceId, since, now, Known(PASS)),
                       Tally(verdicts, s.serviceId, since, now, Known(FAIL)),
                       Tally(verdicts, s.serviceId, since, now, Known(DOWN)));
    forall o ensures Count(OutcomesOf(verdicts, s.serviceId, since, now), o)
        == Tally(verdicts, s.serviceId, since, now, o) {
      CountIsTally(verdicts, s.serviceId, since, now, o);
    }
    OccursWhenCounted(OutcomesOf(verdicts, s.serviceId, since, now), Unrecognised);
  }

  lemma {:induction false} EntriesSpeak(services: seq<Service>, ids: set<string>, verdicts: seq<Verdict>, since: int,
                                        now: int)
    ensures Entries(services, ids, verdicts, since, now).Some? <==> NoUnknown(services, ids, verdicts, since, now)
    ensures NoUnknown(services, ids, verdicts, since, now) ==>
      SpeaksForAll(Entries(services, ids, verdicts, since, now).value, RowsOf(services, ids), verdicts, since, now)
  {
    hide Aggregate, OutcomesOf, Tally, Speaks, NoUnknown;
    if services == [] {
      NothingUnknown(ids, verdicts, since, now);
    } else {
      EntriesSpeak(services[..|services| - 1], ids, verdicts, since, now);
      RowSpeaks(services[|services| - 1], verdicts, since, now);
      NoUnknownStep(services, ids, verdicts, since, now);
    }
  }

  lemma NothingUnknown(ids: set<string>, verdicts: seq<Verdict>, since: int, now: int)
    ensures NoUnknown([], ids, verdicts, since, now)
  {
  }

  lemma NoUnknownStep(services: seq<Service>, ids: set<string>, verdicts: seq<Verdict>, since: int, now: int)
    requires services != []
    ensures var (init, s) := (services[..|services| - 1], services[|services| - 1]);
            NoUnknown(services, ids, verdicts, since, now)
            <==> NoUnknown(init, ids, verdicts, since, now)
                 && (s.serviceId in ids ==> Tally(verdicts, s.serviceId, since, now, Unrecognised) == 0)
  {
    hide Tally;
  }

  /** Every row of a service with an active or suspended listing has one entry, in order, also when nobody called
      it; its scores are the floored ratios over the verdicts of the half-open window, and no other row has one.
      The run is refused exactly when such a service has an outcome the engine does not know. */
  lemma EveryListingIsScored(services: seq<Service>, verdicts: seq<Verdict>, now: int, window: int)
    ensures var ids := set s <- services | s.status == Active || s.status == Suspended :: s.serviceId;
            && (Reputations(services, verdicts, now, window).Some?
               <==> NoUnknown(services, ids, verdicts, now - window, now))
            && (Reputations(services, verdicts, now, window).Some? ==>
                  SpeaksForAll(Reputations(services, verdicts, now, window).value, RowsOf(services, ids),
                               verdicts, now - window, now))
  {
    hide NoUnknown, Entries, SpeaksForAll;
    assert ListedIds(services) == set s <- services | s.status == Active || s.status == Suspended :: s.serviceId;
    EntriesSpeak(services, ListedIds(services), verdicts, now - window, now);
  }

  ghost predicate DistinctIds(services: seq<Service>) {
    forall i, j :: 0 <= i < j < |services| ==> services[i].serviceId != services[j].serviceId
  }

  ghost function ListedServices(services: seq<Service>): seq<Service> {
    if services == [] then []
    else
      var last := services[|services| - 1];
      ListedServices(services[..|services| - 1])
      + (if last.status == Active || last.status == Suspended then [last] else [])
  }

  lemma {:induction false} RowsAreListings(services: seq<Service>, ids: set<string>)
    requires forall i :: 0 <= i < |services| ==> (services[i].serviceId in ids <==> Listed(services[i]))
    ensures RowsOf(services, ids) == ListedServices(services)
  {
    if services != [] { RowsAreListings(services[..|services| - 1], ids); }
  }

  lemma ListedIdsAre(services: seq<Service>, i: nat)
    requires DistinctIds(services) && i < |services|
    ensures services[i].serviceId in ListedIds(services) <==> Listed(services[i])
  {
    if services[i].serviceId in ListedIds(services) {
      var s :| s in services && Listed(s) && s.serviceId == services[i].serviceId;
      var j :| 0 <= j < |services| && services[j] == s;
    }
  }

  /** With one row per service, as the registry hands them out, those rows are exactly the active and suspended
      services. */
  lemma OneEntryPerListing(services: seq<Service>)
    requires DistinctIds(services)
    ensures RowsOf(services, ListedIds(services)) == ListedServices(services)
  {
    hide ListedIds, DistinctIds, Listed;
    forall i | 0 <= i < |services| ensures services[i].serviceId in ListedIds(services) <==> Listed(services[i]) {
      ListedIdsAre(services, i);
    }
    RowsAreListings(services, ListedIds(services));
  }

  function Payloads<T>(logs: seq<Log<T>>): seq<T> { if logs == [] then [] else [logs[0].payload] + Payloads(logs[1..]) }

  /** However the range was cut and however many requests were in flight, the scores are those of one filter
      over the whole range. */
  lemma ScoresIgnoreChunking(services: seq<Service>, logs: seq<Log<Verdict>>, first: int, last: int, width: int,
                             now: int, window: int)
    requires InChainOrder(logs) && width > 0
    ensures Reputations(services, Payloads(Flat(Pages(logs, Chunks(first, last, width)))), now, window)
            == Reputations(services, Payloads(Within(logs, first, last)), now, window)
  {
    PagesAreTheRange(logs, first, last, width);
  }

  // ---------------------------------------------------------------- the semantic ratio

  datatype Settlement = MET | BREACH | OPEN | UNDETERMINED | CANCELLED | Unknown

  datatype SemanticScore = SemanticScore(semanticConformance: nat, met: nat, breach: nat, undecided: nat)

  /** Only decided disputes enter the ratio. */
  method AggregateSemantic(settlements: seq<Settlement>) returns (score: Option<SemanticScore>)
    ensures score.None? <==> Unknown in settlements
    ensures score.Some? ==>
      var occurs, q := multiset(settlements), score.value;
      && q.met == occurs[MET] && q.breach == occurs[BREACH]
      && q.undecided == occurs[OPEN] + occurs[UNDETERMINED] + occurs[CANCELLED]
      && Thousandths(q.semanticConformance, occurs[MET], occurs[MET] + occurs[BREACH])
  {
    var met, breach, undecided := 0, 0, 0;
    for i := 0 to |settlements|
      invariant Unknown !in settlements[..i]
      invariant met == multiset(settlements[..i])[MET] && breach == multiset(settlements[..i])[BREACH]
      invariant undecided == multiset(settlements[..i])[OPEN] + multiset(settlements[..i])[UNDETERMINED]
                             + multiset(settlements[..i])[CANCELLED]
    {
      assert settlements[..i + 1] == settlements[..i] + [settlements[i]];
      if settlements[i] == MET { met := met + 1; }
      else if settlements[i] == BREACH { breach := breach + 1; }
      else if settlements[i] in {OPEN, UNDETERMINED, CANCELLED} { undecided := undecided + 1; }
      else { return None; }
    }
    assert settlements[..|settlements|] == settlements;
    var decided := met + breach;
    RatioIsThousandths(met, decided);
    RatioIs(met, decided);
    return Some(SemanticScore(if decided == 0 then SCORE_SCALE else (met * SCORE_SCALE) / decided,
                              met, breach, undecided));
  }
}
