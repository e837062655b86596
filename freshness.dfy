/**
 * is_bus_data_fresh and filter_buses_by_freshness. Timestamps are seconds;
 * `now` is the caller's reading of the UTC clock.
 */
module Freshness {
  import opened Wrappers
  import opened Records
  import Seqs

  /** The default maximum age, in minutes. */
  const DefaultMaxAgeMinutes := 15

  /** A missing or unparsable timestamp is stale; otherwise the data is fresh
      when its age is at most the limit. */
  function IsBusDataFresh(recordedAt: Option<int>, now: int, maxAgeMinutes: int): (isFresh: bool)
    ensures isFresh ==> recordedAt.Some?
  {
    match recordedAt
    case None => false
    case Some(recorded) => now - recorded <= maxAgeMinutes * 60
  }

  lemma MissingTimestampIsStale(now: int, maxAgeMinutes: int)
    ensures !IsBusDataFresh(None, now, maxAgeMinutes)
  {
  }

  /** The limit is inclusive: data exactly maxAgeMinutes old is fresh, one
      second older is stale. */
  lemma FreshnessBoundary(now: int, maxAgeMinutes: int)
    ensures IsBusDataFresh(Some(now - maxAgeMinutes * 60), now, maxAgeMinutes)
    ensures !IsBusDataFresh(Some(now - maxAgeMinutes * 60 - 1), now, maxAgeMinutes)
  {
  }

  /** Freshness keeps only with age: a record fresh now was fresh earlier and is
      fresh under any longer limit; a timestamp in the future is fresh whenever
      the limit is not negative. */
  lemma FreshnessMonotone(recordedAt: Option<int>, now: int, earlier: int, maxAgeMinutes: int, longer: int)
    requires earlier <= now && maxAgeMinutes <= longer
    requires IsBusDataFresh(recordedAt, now, maxAgeMinutes)
    ensures IsBusDataFresh(recordedAt, earlier, longer)
  {
  }

  lemma FutureIsFresh(recorded: int, now: int, maxAgeMinutes: int)
    requires now <= recorded && 0 <= maxAgeMinutes
    ensures IsBusDataFresh(Some(recorded), now, maxAgeMinutes)
  {
  }

  /** The default limit: five minutes old is fresh, twenty minutes old is stale. */
  lemma DefaultLimitExamples(now: int)
    ensures IsBusDataFresh(Some(now - 5 * 60), now, DefaultMaxAgeMinutes)
    ensures IsBusDataFresh(Some(now - 15 * 60), now, DefaultMaxAgeMinutes)
    ensures !IsBusDataFresh(Some(now - 20 * 60), now, DefaultMaxAgeMinutes)
  {
  }

  function IsFreshBus(now: int, maxAgeMinutes: int): Bus -> bool {
    (b: Bus) => IsBusDataFresh(b.recordedAt, now, maxAgeMinutes)
  }

  method FilterBusesByFreshness(buses: seq<Bus>, now: int, maxAgeMinutes: int) returns (filtered: seq<Bus>)
    ensures filtered == Seqs.Filter(buses, IsFreshBus(now, maxAgeMinutes))
  {
    filtered := [];
    for i := 0 to |buses|
      invariant filtered == Seqs.Filter(buses[..i], IsFreshBus(now, maxAgeMinutes))
    {
      var bus := buses[i];
      assert buses[..i + 1][..i] == buses[..i];
      if IsBusDataFresh(bus.recordedAt, now, maxAgeMinutes) {
        filtered := filtered + [bus];
      }
    }
    assert buses[..|buses|] == buses;
  }

  /** The freshness filter keeps each fresh bus as many times as it occurs, drops
      every stale one, and keeps the input order. */
  lemma FreshnessFilterExact(buses: seq<Bus>, now: int, maxAgeMinutes: int)
    ensures var kept := Seqs.Filter(buses, IsFreshBus(now, maxAgeMinutes));
      && Seqs.Subsequence(kept, buses)
      && |kept| <= |buses|
      && (forall b :: multiset(kept)[b] == if IsBusDataFresh(b.recordedAt, now, maxAgeMinutes) then multiset(buses)[b] else 0)
  {
    Seqs.FilterIsSubsequence(buses, IsFreshBus(now, maxAgeMinutes));
    Seqs.FilterMultiplicity(buses, IsFreshBus(now, maxAgeMinutes));
  }
}
