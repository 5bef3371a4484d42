/** The buy filters of the desktop client: a loop over an unordered map that sets three flags. */
module Filters {
  import opened Common

  datatype Tag = AverageDevMarketCap | MigrationPercentage | TokenCount

  /** A half-open range of u64. */
  datatype Range = Range(start: u64, end: u64) {
    predicate Contains(x: u64) {
      start <= x < end
    }
  }

  datatype Filter = ByMarketCap(range: Range) | ByTokenCount(range: Range) | ByMigration(range: Range)

  datatype Counts = Counts(total: u64, migrated: u64)

  /** What the filters look at in a token. `percentage` stands for the program's floating-point
      share of migrated tokens, used only when `total` is not zero. */
  datatype Token = Token(migrated: Option<Counts>, hasDevPerformance: bool)

  function Passes(f: Filter, t: Token, averageMcap: u64, percentage: Counts -> u64): bool {
    match f
    case ByMarketCap(range) => range.Contains(averageMcap)
    case ByTokenCount(range) => t.migrated.Some? && range.Contains(t.migrated.value.total)
    case ByMigration(range) =>
      range.Contains(if t.migrated == None || t.migrated.value.total == 0 then 0 else percentage(t.migrated.value))
  }

  function ValueOr(x: Option<u64>, d: u64): u64 {
    if x.Some? then x.value else d
  }

  /** `tag` has a filter of its own kind. */
  predicate Matched(filters: map<Tag, Filter>, tag: Tag) {
    tag in filters &&
    match tag
    case AverageDevMarketCap => filters[tag].ByMarketCap?
    case MigrationPercentage => filters[tag].ByMigration?
    case TokenCount => filters[tag].ByTokenCount?
  }

  /** Whether the filter under `tag`, if it is one of that tag's kind, lets the token through. */
  predicate Allows(filters: map<Tag, Filter>, tag: Tag, t: Token, average: Option<u64>, percentage: Counts -> u64) {
    && Matched(filters, tag)
    && Passes(filters[tag], t, ValueOr(average, 0), percentage)
    && (tag == AverageDevMarketCap ==> average.Some?)
  }

  /** The average is known and lies between the bounds, the upper one excluded. */
  predicate CapWithin(filters: map<Tag, Filter>, average: Option<u64>) {
    && AverageDevMarketCap in filters && average.Some?
    && match filters[AverageDevMarketCap]
       case ByMarketCap(r) => r.start <= average.value && average.value < r.end
       case _ => false
  }

  /** The developer's history is known and so many tokens in all lie between the bounds. */
  predicate CountWithin(filters: map<Tag, Filter>, t: Token) {
    && TokenCount in filters && t.migrated.Some?
    && match filters[TokenCount]
       case ByTokenCount(r) => r.start <= t.migrated.value.total && t.migrated.value.total < r.end
       case _ => false
  }

  /** The share of migrated tokens, nothing for a developer without any, lies between the bounds. */
  predicate ShareWithin(filters: map<Tag, Filter>, t: Token, percentage: Counts -> u64) {
    && MigrationPercentage in filters
    && match filters[MigrationPercentage]
       case ByMigration(r) =>
         (match t.migrated
          case Some(counts) =>
            if counts.total > 0 then r.start <= percentage(counts) && percentage(counts) < r.end
            else r.start == 0 && 0 < r.end
          case None => r.start == 0 && 0 < r.end)
       case _ => false
  }

  lemma AllowsIff(filters: map<Tag, Filter>, t: Token, average: Option<u64>, percentage: Counts -> u64)
    ensures Allows(filters, AverageDevMarketCap, t, average, percentage) <==> CapWithin(filters, average)
    ensures Allows(filters, TokenCount, t, average, percentage) <==> CountWithin(filters, t)
    ensures Allows(filters, MigrationPercentage, t, average, percentage) <==> ShareWithin(filters, t, percentage)
  {
  }

  class FilterSet {
    var filters: map<Tag, Filter>

    constructor ()
      ensures filters == map[]
    {
      filters := map[];
    }

    method AddFilter(tag: Tag, filter: Filter)
      modifies this
      ensures filters == old(filters)[tag := filter]
    {
      filters := filters[tag := filter];
    }

    method RemoveFilter(tag: Tag)
      modifies this
      ensures filters == old(filters) - {tag}
    {
      filters := filters - {tag};
    }

    /** Whatever order the map is walked in, a token matches exactly when the market-cap filter is present
        and passed, or the migration and count filters are both present and passed and nothing is known
        of the developer's performance; a filter under another kind's tag is as good as absent. */
    method Matches(t: Token, average: Option<u64>, percentage: Counts -> u64) returns (result: bool)
      ensures result <==>
                || Allows(filters, AverageDevMarketCap, t, average, percentage)
                || (&& Allows(filters, MigrationPercentage, t, average, percentage)
                    && Allows(filters, TokenCount, t, average, percentage)
                    && !t.hasDevPerformance)
      ensures result <==>
                || CapWithin(filters, average)
                || (ShareWithin(filters, t, percentage) && CountWithin(filters, t) && !t.hasDevPerformance)
    {
      AllowsIff(filters, t, average, percentage);
      var mcapPass: Option<bool>, migrationPass: Option<bool>, countPass: Option<bool> := None, None, None;
      var rest := filters.Keys;
      while rest != {}
        invariant rest <= filters.Keys
        invariant mcapPass == Some(true) <==>
                    AverageDevMarketCap !in rest && Allows(filters, AverageDevMarketCap, t, average, percentage)
        invariant migrationPass == Some(true) <==>
                    MigrationPercentage !in rest && Allows(filters, MigrationPercentage, t, average, percentage)
        invariant countPass == Some(true) <==>
                    TokenCount !in rest && Allows(filters, TokenCount, t, average, percentage)
        decreases rest
      {
        var tag :| tag in rest;
        rest := rest - {tag};
        match (tag, filters[tag]) {
          case (AverageDevMarketCap, ByMarketCap(_)) =>
            if average == None {
              mcapPass := Some(false);
            } else {
              mcapPass := Some(Passes(filters[tag], t, ValueOr(average, 0), percentage));
            }
          case (MigrationPercentage, ByMigration(_)) =>
            migrationPass := Some(Passes(filters[tag], t, ValueOr(average, 0), percentage));
          case (TokenCount, ByTokenCount(_)) =>
            countPass := Some(Passes(filters[tag], t, ValueOr(average, 0), percentage));
          case _ =>
        }
      }
      result := mcapPass == Some(true)
        || (migrationPass == Some(true) && countPass == Some(true) && !t.hasDevPerformance);
    }
  }
}
