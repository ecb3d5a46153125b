/** The `/email-stats` handler (backend/server.js): a fold over every entry of every
    day log, keeping global counters and a per-domain bucket, then a second pass that
    gives each bucket its success rate. */
module EmailStats {
  import opened Wrappers
  import opened Text
  import opened DeliveryLog
  import Validation

  /** `recipient.split('@')[1]` when it is non-empty: the text between the first `@`
      and the next `@` (or the end). */
  function DomainKey(recipient: string): Option<string>
  {
    var parts := Split(recipient, "@");
    if |parts| < 2 || parts[1] == "" then None else Some(parts[1])
  }

  /** For every address the validator accepts, the domain key is the whole text
      after its `@`. */
  lemma DomainKeyOfValidAddress(s: string)
    requires Validation.ValidateEmail(s)
    ensures exists at :: 0 <= at < |s| && s[at] == '@' && DomainKey(s) == Some(s[at + 1..])
  {
    Validation.AcceptedWhenValid(s);
    var at :| Validation.AcceptedAt(s, at);
    Validation.SplitAtSoleAt(s, at);
  }

  /** A recipient without `@` has no domain key. */
  lemma NoDomainKeyWithoutAt(s: string)
    requires forall k :: 0 <= k < |s| ==> s[k] != '@'
    ensures DomainKey(s) == None
  {
    forall k ensures !OccursAt(s, "@", k) {
      OccursAtChar(s, '@', k);
    }
  }

  /** `domainStats[domain]`: `{attempts, success, failure}`. */
  datatype Bucket = Bucket(attempts: nat, success: nat, failure: nat)

  /** The handler's running state: its three counters and `domainStats`. */
  datatype Tallies = Tallies(
    totalAttempts: nat,
    successfulDeliveries: nat,
    failedDeliveries: nat,
    domainStats: map<string, Bucket>)

  const NoTallies := Tallies(0, 0, 0, map[])

  /** The body of the inner `logs.forEach`, applied to one entry. */
  function Step(t: Tallies, e: Entry): Tallies
  {
    var domains :=
      match DomainKey(e.recipient)
      case None => t.domainStats
      case Some(d) =>
        var b := if d in t.domainStats then t.domainStats[d] else Bucket(0, 0, 0);
        t.domainStats[d := if e.success then b.(attempts := b.attempts + 1, success := b.success + 1)
                           else b.(attempts := b.attempts + 1, failure := b.failure + 1)];
    if e.success then
      Tallies(t.totalAttempts + 1, t.successfulDeliveries + 1, t.failedDeliveries, domains)
    else
      Tallies(t.totalAttempts + 1, t.successfulDeliveries, t.failedDeliveries + 1, domains)
  }

  /** The state after folding `es`, first to last, from zero. */
  function Tally(es: seq<Entry>): Tallies
  {
    if es == [] then NoTallies else Step(Tally(es[..|es| - 1]), es[|es| - 1])
  }

  /** The entries of the listed day logs, in listing order; a listed day whose file
      does not parse contributes nothing. */
  function Flatten(days: map<string, seq<Entry>>, listing: seq<string>): seq<Entry>
  {
    if listing == [] then []
    else Flatten(days, listing[..|listing| - 1]) + DayLog(days, listing[|listing| - 1])
  }

  /** Listing one more day appends its log. */
  lemma FlattenSnoc(days: map<string, seq<Entry>>, listing: seq<string>, date: string)
    ensures Flatten(days, listing + [date]) == Flatten(days, listing) + DayLog(days, date)
  {
    assert (listing + [date])[..|listing|] == listing;
  }

  // Reference counts over a sequence of entries.

  function Successes(es: seq<Entry>): (n: nat)
    ensures n <= |es|
  {
    if es == [] then 0 else Successes(es[..|es| - 1]) + (if es[|es| - 1].success then 1 else 0)
  }

  /** Entries whose domain key is `d`. */
  function ToDomain(es: seq<Entry>, d: string): (n: nat)
    ensures n <= |es|
  {
    if es == [] then 0
    else ToDomain(es[..|es| - 1], d) + (if DomainKey(es[|es| - 1].recipient) == Some(d) then 1 else 0)
  }

  /** Successful entries whose domain key is `d`. */
  function SuccessesToDomain(es: seq<Entry>, d: string): (n: nat)
    ensures n <= ToDomain(es, d)
  {
    if es == [] then 0
    else
      var last := es[|es| - 1];
      SuccessesToDomain(es[..|es| - 1], d) + (if DomainKey(last.recipient) == Some(d) && last.success then 1 else 0)
  }

  /** Entries that have a domain key at all. */
  function Keyed(es: seq<Entry>): (n: nat)
    ensures n <= |es|
  {
    if es == [] then 0 else Keyed(es[..|es| - 1]) + (if DomainKey(es[|es| - 1].recipient).Some? then 1 else 0)
  }

  /** The fold counts exactly: every entry in the totals, split by outcome, and each
      domain's bucket holds exactly the entries whose domain key it is. */
  lemma {:induction false} TallyCounts(es: seq<Entry>)
    ensures Tally(es).totalAttempts == |es|
    ensures Tally(es).successfulDeliveries == Successes(es)
    ensures Tally(es).failedDeliveries == |es| - Successes(es)
    ensures forall d :: d in Tally(es).domainStats <==> ToDomain(es, d) > 0
    ensures forall d :: d in Tally(es).domainStats ==>
      Tally(es).domainStats[d] ==
        Bucket(ToDomain(es, d), SuccessesToDomain(es, d), ToDomain(es, d) - SuccessesToDomain(es, d))
  {
    if es != [] {
      TallyCounts(es[..|es| - 1]);
    }
  }

  /** The sum of the attempts of the buckets named in `keys`. */
  ghost function SumOver(m: map<string, Bucket>, keys: set<string>): nat
    requires keys <= m.Keys
    decreases keys
  {
    if keys == {} then 0
    else
      var d :| d in keys;
      m[d].attempts + SumOver(m, keys - {d})
  }

  /** The sum of all the buckets' attempts. */
  ghost function AttemptSum(m: map<string, Bucket>): nat
  {
    SumOver(m, m.Keys)
  }

  /** The sum does not depend on which bucket is taken first. */
  lemma {:induction false} SumOverWithout(m: map<string, Bucket>, keys: set<string>, d: string)
    requires keys <= m.Keys && d in keys
    ensures SumOver(m, keys) == m[d].attempts + SumOver(m, keys - {d})
    decreases keys
  {
    var c :| c in keys && SumOver(m, keys) == m[c].attempts + SumOver(m, keys - {c});
    if c != d {
      SumOverWithout(m, keys - {c}, d);
      SumOverWithout(m, keys - {d}, c);
      assert keys - {c} - {d} == keys - {d} - {c};
    }
  }

  /** The sum only looks at the buckets it names. */
  lemma {:induction false} SumOverFrame(m: map<string, Bucket>, m': map<string, Bucket>, keys: set<string>)
    requires keys <= m.Keys && keys <= m'.Keys
    requires forall d :: d in keys ==> m[d].attempts == m'[d].attempts
    ensures SumOver(m, keys) == SumOver(m', keys)
    decreases keys
  {
    if keys != {} {
      var c :| c in keys && SumOver(m, keys) == m[c].attempts + SumOver(m, keys - {c});
      SumOverWithout(m', keys, c);
      SumOverFrame(m, m', keys - {c});
    }
  }

  /** One step adds one attempt to the bucket sum exactly when the entry has a domain
      key. */
  lemma StepAttemptSum(t: Tallies, e: Entry)
    ensures AttemptSum(Step(t, e).domainStats) ==
      AttemptSum(t.domainStats) + (if DomainKey(e.recipient).Some? then 1 else 0)
  {
    match DomainKey(e.recipient)
    case None =>
    case Some(d) =>
      var m, m' := t.domainStats, Step(t, e).domainStats;
      SumOverWithout(m', m'.Keys, d);
      assert m'.Keys - {d} == m.Keys - {d};
      SumOverFrame(m, m', m.Keys - {d});
      if d in m {
        SumOverWithout(m, m.Keys, d);
      } else {
        assert m.Keys - {d} == m.Keys;
      }
  }

  /** The invariants the fold keeps: the totals split into successes and failures;
      every bucket splits the same way and is non-empty; the buckets' attempts add up
      to the entries that have a domain key, so never to more than the total, and to
      the total exactly when every entry has one. */
  lemma {:induction false} TallyInvariants(es: seq<Entry>)
    ensures Tally(es).totalAttempts == Tally(es).successfulDeliveries + Tally(es).failedDeliveries
    ensures forall d :: d in Tally(es).domainStats ==>
      Tally(es).domainStats[d].attempts == Tally(es).domainStats[d].success + Tally(es).domainStats[d].failure &&
      Tally(es).domainStats[d].attempts >= 1
    ensures AttemptSum(Tally(es).domainStats) == Keyed(es) <= Tally(es).totalAttempts
    ensures (forall i :: 0 <= i < |es| ==> DomainKey(es[i].recipient).Some?) ==>
      AttemptSum(Tally(es).domainStats) == Tally(es).totalAttempts
  {
    TallyCounts(es);
    if es != [] {
      var init := es[..|es| - 1];
      TallyInvariants(init);
      StepAttemptSum(Tally(init), es[|es| - 1]);
      if forall i :: 0 <= i < |es| ==> DomainKey(es[i].recipient).Some? {
        assert forall i :: 0 <= i < |init| ==> DomainKey(init[i].recipient).Some? by {
          forall i | 0 <= i < |init| ensures DomainKey(init[i].recipient).Some? {
            assert init[i] == es[i];
          }
        }
      }
    }
  }

  /** `successRate`: `"0%"` without attempts, otherwise the percentage
      `success / attempts * 100` printed with two decimals (the printing is not
      modelled; the exact ratio is kept). */
  datatype Rate = ZeroPercent | Percentage(success: nat, attempts: nat)

  function RateOf(success: nat, attempts: nat): Rate
  {
    if attempts > 0 then Percentage(success, attempts) else ZeroPercent
  }

  /** A `domainStats` entry after the second pass. */
  datatype DomainReport = DomainReport(attempts: nat, success: nat, failure: nat, successRate: Rate)

  /** The JSON body of a successful `/email-stats` response. */
  datatype Report = Report(
    totalAttempts: nat,
    successfulDeliveries: nat,
    failedDeliveries: nat,
    successRate: Rate,
    domainStats: map<string, DomainReport>)

  function Rated(b: Bucket): DomainReport
  {
    DomainReport(b.attempts, b.success, b.failure, RateOf(b.success, b.attempts))
  }

  function ReportOf(t: Tallies): Report
  {
    Report(t.totalAttempts, t.successfulDeliveries, t.failedDeliveries,
           RateOf(t.successfulDeliveries, t.totalAttempts),
           map d | d in t.domainStats :: Rated(t.domainStats[d]))
  }

  /** The statistics over the days of `listing`. */
  function Aggregate(days: map<string, seq<Entry>>, listing: seq<string>): Report
  {
    ReportOf(Tally(Flatten(days, listing)))
  }

  /** What a report promises: totals equal the number of entries and split into
      successes and failures; the global rate is `"0%"` exactly when there were no
      attempts; each domain has exactly the entries keyed to it, at least one, split
      into successes and failures, and its rate is never the `"0%"` case. */
  lemma ReportMeaning(days: map<string, seq<Entry>>, listing: seq<string>)
    ensures var r, es := Aggregate(days, listing), Flatten(days, listing);
      && r.totalAttempts == |es|
      && r.successfulDeliveries == Successes(es)
      && r.totalAttempts == r.successfulDeliveries + r.failedDeliveries
      && (r.successRate == ZeroPercent <==> r.totalAttempts == 0)
      && (forall d :: d in r.domainStats <==> ToDomain(es, d) > 0)
      && (forall d :: d in r.domainStats ==>
            && r.domainStats[d].attempts == ToDomain(es, d)
            && r.domainStats[d].success == SuccessesToDomain(es, d)
            && r.domainStats[d].attempts == r.domainStats[d].success + r.domainStats[d].failure
            && r.domainStats[d].successRate == Percentage(r.domainStats[d].success, r.domainStats[d].attempts))
  {
    var es := Flatten(days, listing);
    TallyCounts(es);
    TallyInvariants(es);
  }

  /** A recipient with exactly one `@` and text after it is keyed by that text. */
  lemma DomainKeyOfSoleAt(local: string, domain: string)
    requires forall k :: 0 <= k < |local| ==> local[k] != '@'
    requires forall k :: 0 <= k < |domain| ==> domain[k] != '@'
    requires domain != ""
    ensures DomainKey(local + "@" + domain) == Some(domain)
  {
    var s := local + "@" + domain;
    forall k | OccursAt(s, "@", k) ensures k == |local| {
      OccursAtChar(s, '@', k);
    }
    OccursAtChar(s, '@', |local|);
    SplitAtOnlyOccurrence(s, "@", |local|);
    assert s[|local| + 1..] == domain;
  }

  /** Folding one more entry is one more `Step`. */
  lemma TallySnoc(es: seq<Entry>, e: Entry)
    ensures Tally(es + [e]) == Step(Tally(es), e)
  {
    assert (es + [e])[..|es|] == es;
  }

  /** One entry keyed to `d` adds one attempt to the totals and to `d`'s bucket. */
  lemma StepKeyed(t: Tallies, e: Entry, d: string)
    requires DomainKey(e.recipient) == Some(d)
    ensures var b := if d in t.domainStats then t.domainStats[d] else Bucket(0, 0, 0);
      Step(t, e) ==
        if e.success then
          Tallies(t.totalAttempts + 1, t.successfulDeliveries + 1, t.failedDeliveries,
                  t.domainStats[d := Bucket(b.attempts + 1, b.success + 1, b.failure)])
        else
          Tallies(t.totalAttempts + 1, t.successfulDeliveries, t.failedDeliveries + 1,
                  t.domainStats[d := Bucket(b.attempts + 1, b.success, b.failure + 1)])
  {
  }

  /** Six entries fold one after the other. */
  lemma TallyOfSix(e1: Entry, e2: Entry, e3: Entry, e4: Entry, e5: Entry, e6: Entry)
    ensures Tally([e1, e2, e3, e4, e5, e6]) ==
      Step(Step(Step(Step(Step(Step(NoTallies, e1), e2), e3), e4), e5), e6)
  {
    assert Tally([e1]) == Step(NoTallies, e1) by {
      TallySnoc([], e1);
      assert [] + [e1] == [e1];
    }
    assert Tally([e1, e2]) == Step(Tally([e1]), e2) by {
      TallySnoc([e1], e2);
      assert [e1] + [e2] == [e1, e2];
    }
    assert Tally([e1, e2, e3]) == Step(Tally([e1, e2]), e3) by {
      TallySnoc([e1, e2], e3);
      assert [e1, e2] + [e3] == [e1, e2, e3];
    }
    assert Tally([e1, e2, e3, e4]) == Step(Tally([e1, e2, e3]), e4) by {
      TallySnoc([e1, e2, e3], e4);
      assert [e1, e2, e3] + [e4] == [e1, e2, e3, e4];
    }
    assert Tally([e1, e2, e3, e4, e5]) == Step(Tally([e1, e2, e3, e4]), e5) by {
      TallySnoc([e1, e2, e3, e4], e5);
      assert [e1, e2, e3, e4] + [e5] == [e1, e2, e3, e4, e5];
    }
    assert Tally([e1, e2, e3, e4, e5, e6]) == Step(Tally([e1, e2, e3, e4, e5]), e6) by {
      TallySnoc([e1, e2, e3, e4, e5], e6);
      assert [e1, e2, e3, e4, e5] + [e6] == [e1, e2, e3, e4, e5, e6];
    }
  }

  /** Three successes and one failure to one domain, then two successes to another:
      six attempts, five delivered, rates 5/6 overall, 3/4 and 2/2 per domain. */
  lemma TallyOfSixAttempts(ok: Entry, failed: Entry, other: Entry, a: string, b: string)
    requires ok.success && !failed.success && other.success && a != b
    requires DomainKey(ok.recipient) == Some(a) && DomainKey(failed.recipient) == Some(a)
    requires DomainKey(other.recipient) == Some(b)
    ensures ReportOf(Tally([ok, ok, ok, failed, other, other])) ==
      Report(6, 5, 1, Percentage(5, 6),
             map[a := DomainReport(4, 3, 1, Percentage(3, 4)), b := DomainReport(2, 2, 0, Percentage(2, 2))])
  {
    TallyOfSix(ok, ok, ok, failed, other, other);
    var t1 := Step(NoTallies, ok);
    assert t1 == Tallies(1, 1, 0, map[a := Bucket(1, 1, 0)]) by { StepKeyed(NoTallies, ok, a); }
    var t2 := Step(t1, ok);
    assert t2 == Tallies(2, 2, 0, map[a := Bucket(2, 2, 0)]) by { StepKeyed(t1, ok, a); }
    var t3 := Step(t2, ok);
    assert t3 == Tallies(3, 3, 0, map[a := Bucket(3, 3, 0)]) by { StepKeyed(t2, ok, a); }
    var t4 := Step(t3, failed);
    assert t4 == Tallies(4, 3, 1, map[a := Bucket(4, 3, 1)]) by { StepKeyed(t3, failed, a); }
    var t5 := Step(t4, other);
    assert t5 == Tallies(5, 4, 1, map[a := Bucket(4, 3, 1), b := Bucket(1, 1, 0)]) by { StepKeyed(t4, other, b); }
    var t := Step(t5, other);
    assert t == Tallies(6, 5, 1, map[a := Bucket(4, 3, 1), b := Bucket(2, 2, 0)]) by { StepKeyed(t5, other, b); }
    RatedPair(a, b, Bucket(4, 3, 1), Bucket(2, 2, 0));
  }

  /** The second pass over two buckets. */
  lemma RatedPair(a: string, b: string, ba: Bucket, bb: Bucket)
    requires a != b
    ensures (map d | d in map[a := ba, b := bb] :: Rated(map[a := ba, b := bb][d])) == map[a := Rated(ba), b := Rated(bb)]
  {
    var m := map[a := ba, b := bb];
    var rated := map d | d in m :: Rated(m[d]);
    assert rated.Keys == {a, b};
  }

  /** The same for `x@a.com` and `y@b.com`, keyed by `a.com` and `b.com`. */
  lemma StatsExample()
    ensures var ok, failed, other := Entry("", "x@a.com", true, None, None),
                                     Entry("", "x@a.com", false, None, None),
                                     Entry("", "y@b.com", true, None, None);
      ReportOf(Tally([ok, ok, ok, failed, other, other])) ==
        Report(6, 5, 1, Percentage(5, 6),
               map["a.com" := DomainReport(4, 3, 1, Percentage(3, 4)),
                   "b.com" := DomainReport(2, 2, 0, Percentage(2, 2))])
  {
    DomainKeyOfSoleAt("x", "a.com");
    DomainKeyOfSoleAt("y", "b.com");
    assert "x" + "@" + "a.com" == "x@a.com";
    assert "y" + "@" + "b.com" == "y@b.com";
    TallyOfSixAttempts(Entry("", "x@a.com", true, None, None), Entry("", "x@a.com", false, None, None),
                       Entry("", "y@b.com", true, None, None), "a.com", "b.com");
  }

  /** `/email-stats` past its admin-key check: `listing` is the directory listing of
      day-log dates (`fs.readdirSync`); the store is only read. */
  method ComputeStats(store: LogStore, listing: seq<string>) returns (report: Report)
    ensures report == Aggregate(store.days, listing)
  {
    var totalAttempts, successfulDeliveries, failedDeliveries := 0, 0, 0;
    var domainStats: map<string, Bucket> := map[];
    var i := 0;
    while i < |listing|
      invariant 0 <= i <= |listing|
      invariant Tallies(totalAttempts, successfulDeliveries, failedDeliveries, domainStats) ==
        Tally(Flatten(store.days, listing[..i]))
    {
      var date := listing[i];
      ghost var before := Flatten(store.days, listing[..i]);
      FlattenSnoc(store.days, listing[..i], date);
      assert listing[..i] + [date] == listing[..i + 1];
      assert Flatten(store.days, listing[..i + 1]) == before + DayLog(store.days, date);
      if date in store.days {
        totalAttempts, successfulDeliveries, failedDeliveries, domainStats :=
          CountDay(store.days[date], before, totalAttempts, successfulDeliveries, failedDeliveries, domainStats);
      } else {
        assert before + DayLog(store.days, date) == before;
      }
      i := i + 1;
    }
    assert listing[..i] == listing;
    var rated := AddSuccessRates(domainStats);
    report := Report(totalAttempts, successfulDeliveries, failedDeliveries,
                     RateOf(successfulDeliveries, totalAttempts), rated);
  }

  /** The inner `logs.forEach` over one day's entries, continuing the counters left
      by the entries before them. */
  method CountDay(logs: seq<Entry>, ghost before: seq<Entry>,
                  totalAttempts: nat, successfulDeliveries: nat, failedDeliveries: nat,
                  domainStats: map<string, Bucket>)
    returns (total: nat, successes: nat, failures: nat, domains: map<string, Bucket>)
    requires Tallies(totalAttempts, successfulDeliveries, failedDeliveries, domainStats) == Tally(before)
    ensures Tallies(total, successes, failures, domains) == Tally(before + logs)
  {
    total, successes, failures, domains := totalAttempts, successfulDeliveries, failedDeliveries, domainStats;
    var j := 0;
    assert before + logs[..0] == before;
    while j < |logs|
      invariant 0 <= j <= |logs|
      invariant Tallies(total, successes, failures, domains) == Tally(before + logs[..j])
    {
      var log := logs[j];
      TallySnoc(before + logs[..j], log);
      assert before + logs[..j] + [log] == before + logs[..j + 1];
      total, successes, failures, domains := CountLog(log, total, successes, failures, domains);
      j := j + 1;
    }
    assert logs[..j] == logs;
  }

  method CountLog(log: Entry, totalAttempts: nat, successfulDeliveries: nat, failedDeliveries: nat,
                  domainStats: map<string, Bucket>)
    returns (total: nat, successes: nat, failures: nat, domains: map<string, Bucket>)
    ensures Tallies(total, successes, failures, domains) ==
      Step(Tallies(totalAttempts, successfulDeliveries, failedDeliveries, domainStats), log)
  {
    total, successes, failures, domains := totalAttempts + 1, successfulDeliveries, failedDeliveries, domainStats;
    if log.success {
      successes := successes + 1;
    } else {
      failures := failures + 1;
    }
    var domain := DomainKey(log.recipient);
    if domain.Some? {
      var d := domain.value;
      if d !in domains {
        domains := domains[d := Bucket(0, 0, 0)];
      }
      var stats := domains[d];
      if log.success {
        domains := domains[d := stats.(attempts := stats.attempts + 1, success := stats.success + 1)];
      } else {
        domains := domains[d := stats.(attempts := stats.attempts + 1, failure := stats.failure + 1)];
      }
    }
  }

  /** The second pass over `domainStats`: every bucket gets its success rate. */
  method AddSuccessRates(domainStats: map<string, Bucket>) returns (rated: map<string, DomainReport>)
    ensures rated.Keys == domainStats.Keys
    ensures forall d :: d in rated ==>
      rated[d].attempts == domainStats[d].attempts && rated[d].success == domainStats[d].success &&
      rated[d].failure == domainStats[d].failure &&
      rated[d].successRate == RateOf(domainStats[d].success, domainStats[d].attempts)
    ensures rated == map d | d in domainStats :: Rated(domainStats[d])
  {
    rated := map[];
    var pending := domainStats.Keys;
    while pending != {}
      invariant pending <= domainStats.Keys
      invariant rated.Keys == domainStats.Keys - pending
      invariant forall d :: d in rated ==> rated[d] == Rated(domainStats[d])
      decreases pending
    {
      var d :| d in pending;
      var stats := domainStats[d];
      rated := rated[d := DomainReport(stats.attempts, stats.success, stats.failure,
                                       RateOf(stats.success, stats.attempts))];
      pending := pending - {d};
    }
    assert rated.Keys == domainStats.Keys;
  }

  // The report does not depend on the order in which the day files are listed.

  /** The reference counts of a concatenation add up. */
  lemma {:induction false} CountsAdd(xs: seq<Entry>, ys: seq<Entry>)
    ensures Successes(xs + ys) == Successes(xs) + Successes(ys)
    ensures forall d :: ToDomain(xs + ys, d) == ToDomain(xs, d) + ToDomain(ys, d)
    ensures forall d :: SuccessesToDomain(xs + ys, d) == SuccessesToDomain(xs, d) + SuccessesToDomain(ys, d)
    decreases |ys|
  {
    if ys == [] {
      assert xs + ys == xs;
    } else {
      var init := ys[..|ys| - 1];
      CountsAdd(xs, init);
      assert (xs + ys)[..|xs + ys| - 1] == xs + init;
      assert (xs + ys)[|xs + ys| - 1] == ys[|ys| - 1];
    }
  }

  /** Two sequences with the same counts fold to the same tallies. */
  lemma TallyByCounts(a: seq<Entry>, b: seq<Entry>)
    requires |a| == |b| && Successes(a) == Successes(b)
    requires forall d :: ToDomain(a, d) == ToDomain(b, d) && SuccessesToDomain(a, d) == SuccessesToDomain(b, d)
    ensures Tally(a) == Tally(b)
  {
    TallyCounts(a);
    TallyCounts(b);
    var ma, mb := Tally(a).domainStats, Tally(b).domainStats;
    assert ma.Keys == mb.Keys;
    assert forall d :: d in ma ==> ma[d] == mb[d];
    assert ma == mb;
  }

  /** Exchanging two blocks of entries leaves the tallies as they were. */
  lemma TallySwap(p: seq<Entry>, q: seq<Entry>, r: seq<Entry>)
    ensures Tally(p + q + r) == Tally(p + r + q)
  {
    CountsAdd(p, q);
    CountsAdd(p + q, r);
    CountsAdd(p, r);
    CountsAdd(p + r, q);
    TallyByCounts(p + q + r, p + r + q);
  }

  /** Folding further entries onto equal tallies keeps them equal. */
  lemma {:induction false} TallyExtend(p: seq<Entry>, q: seq<Entry>, r: seq<Entry>)
    requires Tally(p) == Tally(q)
    ensures Tally(p + r) == Tally(q + r)
    decreases |r|
  {
    if r == [] {
      assert p + r == p && q + r == q;
    } else {
      var init, last := r[..|r| - 1], r[|r| - 1];
      TallyExtend(p, q, init);
      assert r == init + [last];
      assert p + r == (p + init) + [last];
      assert q + r == (q + init) + [last];
      TallySnoc(p + init, last);
      TallySnoc(q + init, last);
    }
  }

  /** Listing two runs of days one after the other flattens to their entries in turn. */
  lemma {:induction false} FlattenAppend(days: map<string, seq<Entry>>, l1: seq<string>, l2: seq<string>)
    ensures Flatten(days, l1 + l2) == Flatten(days, l1) + Flatten(days, l2)
    decreases |l2|
  {
    if l2 == [] {
      assert l1 + l2 == l1;
    } else {
      var init, last := l2[..|l2| - 1], l2[|l2| - 1];
      FlattenAppend(days, l1, init);
      assert l2 == init + [last];
      FlattenAppendStep(days, l1, init, last);
    }
  }

  /** The inductive step of `FlattenAppend`: one more day at the end of the second run. */
  lemma FlattenAppendStep(days: map<string, seq<Entry>>, l1: seq<string>, init: seq<string>, last: string)
    requires Flatten(days, l1 + init) == Flatten(days, l1) + Flatten(days, init)
    ensures Flatten(days, l1 + (init + [last])) == Flatten(days, l1) + Flatten(days, init + [last])
  {
    var f1, fi, fl := Flatten(days, l1), Flatten(days, init), DayLog(days, last);
    assert Flatten(days, l1 + (init + [last])) == Flatten(days, l1 + init) + fl by {
      assert l1 + (init + [last]) == (l1 + init) + [last];
      FlattenSnoc(days, l1 + init, last);
    }
    FlattenSnoc(days, init, last);
    assert (f1 + fi) + fl == f1 + (fi + fl);
  }

  /** The statistics are the same whatever order the directory listing comes in. */
  lemma ListingOrderIrrelevant(days: map<string, seq<Entry>>, l1: seq<string>, l2: seq<string>)
    requires multiset(l1) == multiset(l2)
    ensures Aggregate(days, l1) == Aggregate(days, l2)
  {
    ListingTallies(days, l1, l2);
  }

  /** Removing the last day of `l1` and one occurrence of it from `l2` keeps the
      two listings permutations of each other. */
  lemma WithoutOne(l1: seq<string>, l2: seq<string>, j: nat)
    requires multiset(l1) == multiset(l2) && l1 != [] && j < |l2| && l2[j] == l1[|l1| - 1]
    ensures multiset(l1[..|l1| - 1]) == multiset(l2[..j] + l2[j + 1..])
  {
    var rest, x, before, after := l1[..|l1| - 1], l1[|l1| - 1], l2[..j], l2[j + 1..];
    assert l1 == rest + [x];
    assert l2 == before + [x] + after;
    assert multiset(rest) + multiset{x} == multiset(before + after) + multiset{x};
    forall y ensures multiset(rest)[y] == multiset(before + after)[y] {
      assert (multiset(rest) + multiset{x})[y] == (multiset(before + after) + multiset{x})[y];
    }
  }

  /** Listing one day in the middle flattens to its log in the middle. */
  lemma FlattenAround(days: map<string, seq<Entry>>, before: seq<string>, x: string, after: seq<string>)
    ensures Flatten(days, before + [x] + after) == Flatten(days, before) + DayLog(days, x) + Flatten(days, after)
    ensures Flatten(days, before + after) == Flatten(days, before) + Flatten(days, after)
  {
    FlattenAppend(days, before, after);
    FlattenAppend(days, before + [x], after);
    FlattenAppend(days, before, [x]);
    assert [x][..0] == [];
  }

  lemma {:induction false} ListingTallies(days: map<string, seq<Entry>>, l1: seq<string>, l2: seq<string>)
    requires multiset(l1) == multiset(l2)
    ensures Tally(Flatten(days, l1)) == Tally(Flatten(days, l2))
    decreases |l1|
  {
    if l1 == [] {
      assert |multiset(l2)| == 0;
    } else {
      var rest, x := l1[..|l1| - 1], l1[|l1| - 1];
      assert x in multiset(l2);
      var j :| 0 <= j < |l2| && l2[j] == x;
      var before, after := l2[..j], l2[j + 1..];
      assert l2 == before + [x] + after;
      WithoutOne(l1, l2, j);
      ListingTallies(days, rest, before + after);
      var fb, fx, fa := Flatten(days, before), DayLog(days, x), Flatten(days, after);
      FlattenAround(days, before, x, after);
      TallySwap(fb, fx, fa);
      TallyExtend(Flatten(days, rest), fb + fa, fx);
    }
  }
}
