/** Promoted-link inventory: predicted pageviews per day, the pageviews sold to
    paid campaigns, what is left to sell, and the days a request would oversell.
    Days are Python date ordinals, so `start + timedelta(i)` is `start + i`. */
module Inventory {
  import opened Wrappers
  import opened Strings
  import Dates

  type Day = int

  /** What `min_daily_pageviews` returns for every subreddit. */
  const MinDailyPageviews: int := 10000
  /** The `trans_id` of a campaign nobody has paid for. */
  const NoTransaction: int := 0
  /** The path suffix of a listing pageview row. */
  const ListingSuffix: string := "-GET_listing"

  datatype InventoryError = ZeroDivision

  // ---- get_date_range ----

  /** `get_date_range(start, end)`: the days from `start` up to but not including `end`. */
  function DateRange(start: Day, end: Day): (days: seq<Day>)
    ensures |days| == if end > start then end - start else 0
    ensures forall i :: 0 <= i < |days| ==> days[i] == start + i
  {
    seq(if end > start then end - start else 0, i => start + i)
  }

  /** The range holds exactly the days of the half-open interval, once each. */
  lemma DateRangeMembers(start: Day, end: Day, d: Day)
    ensures d in DateRange(start, end) <==> start <= d < end
    ensures forall i, j :: 0 <= i < j < |DateRange(start, end)| ==> DateRange(start, end)[i] < DateRange(start, end)[j]
  {
    if start <= d < end {
      assert DateRange(start, end)[d - start] == d;
    }
  }

  // ---- get_predicted_by_date ----

  /** The subreddit name predictions are read under: the default subreddit's
      (lower-cased) name stands in for an empty name. */
  function PredictionName(srName: string, defaultName: string): (name: string)
    ensures srName != "" ==> name == srName
    ensures srName == "" ==> name == defaultName
  {
    if srName == "" then defaultName else srName
  }

  /** The lowest daily pageviews recorded for the name, 0 when none is recorded. */
  function MinDaily(minDailyBySr: map<string, int>, name: string): int
  {
    if name in minDailyBySr then minDailyBySr[name] else 0
  }

  /** `get_predicted_by_date`: the recorded minimum for each of the `stop - start`
      days from `start`, or for `start` alone when there is no `stop`.
      `minDailyBySr` is what the metrics store holds. */
  method PredictedByDate(srName: string, start: Day, stop: Option<Day>, minDailyBySr: map<string, int>,
                         defaultName: string) returns (predicted: seq<(Day, int)>)
    ensures var ndays := if stop.Some? then stop.value - start else 1;
      |predicted| == (if ndays > 0 then ndays else 0)
    ensures forall i :: 0 <= i < |predicted| ==>
      predicted[i] == (start + i, MinDaily(minDailyBySr, PredictionName(srName, defaultName)))
  {
    var name := if srName == "" then defaultName else srName;
    var minDaily := if name in minDailyBySr then minDailyBySr[name] else 0;
    var ndays := if stop.Some? then stop.value - start else 1;
    predicted := [];
    var i := 0;
    while i < ndays
      invariant 0 <= i && (ndays > 0 ==> i <= ndays) && (ndays <= 0 ==> i == 0)
      invariant |predicted| == i
      invariant forall j :: 0 <= j < i ==> predicted[j] == (start + j, minDaily)
    {
      predicted := predicted + [(start + i, minDaily)];
      i := i + 1;
    }
  }

  /** The prediction is keyed by consecutive distinct days, as the `OrderedDict` is. */
  lemma PredictedDaysDistinct(predicted: seq<(Day, int)>, start: Day)
    requires forall i :: 0 <= i < |predicted| ==> predicted[i].0 == start + i
    ensures forall i, j :: 0 <= i < j < |predicted| ==> predicted[i].0 < predicted[j].0
  {
  }

  // ---- _min_daily_pageviews_by_sr ----

  /** `s[k:]` starts with the listing suffix. */
  predicate ListingAt(s: string, k: nat)
  {
    k + |ListingSuffix| <= |s| && s[k..k + |ListingSuffix|] == ListingSuffix
  }

  /** The greedy search of `(.*)` from `k` characters down. */
  function MatchFrom(s: string, k: nat): (r: Option<string>)
    requires k <= |s|
    decreases k
  {
    if ListingAt(s, k) then Some(s[..k]) else if k == 0 then None else MatchFrom(s, k - 1)
  }

  /** `re.match('(.*)-GET_listing', s)`, giving group 1: the longest prefix that has
      no newline (`.` stops there) and is followed by the suffix. */
  function MatchListing(s: string): Option<string>
  {
    MatchFrom(s, Find(s, '\n'))
  }

  lemma {:induction false} MatchFromSpec(s: string, k: nat)
    requires k <= |s|
    ensures MatchFrom(s, k).Some? <==> exists j :: 0 <= j <= k && ListingAt(s, j)
    ensures MatchFrom(s, k).Some? ==>
      var p := MatchFrom(s, k).value;
      |p| <= k && p == s[..|p|] && ListingAt(s, |p|) && forall j :: |p| < j <= k ==> !ListingAt(s, j)
    decreases k
  {
    if !ListingAt(s, k) && k > 0 {
      MatchFromSpec(s, k - 1);
    }
  }

  /** The match exists exactly when some newline-free prefix is followed by the
      suffix; it is then the longest such prefix. */
  lemma MatchListingSpec(s: string)
    ensures MatchListing(s).Some? <==> exists k :: 0 <= k <= Find(s, '\n') && ListingAt(s, k)
    ensures MatchListing(s).Some? ==>
      var p := MatchListing(s).value;
      '\n' !in p && ListingAt(s, |p|) && p + ListingSuffix == s[..|p| + |ListingSuffix|]
      && forall k :: |p| < k <= Find(s, '\n') ==> !ListingAt(s, k)
  {
    var n := Find(s, '\n');
    FindSpec(s, '\n');
    MatchFromSpec(s, n);
    if MatchListing(s).Some? {
      var p := MatchListing(s).value;
      assert s[..|p|] == s[..n][..|p|];
      assert s[..|p| + |ListingSuffix|] == s[..|p|] + s[|p|..|p| + |ListingSuffix|];
    }
  }

  /** A row `'X-GET_listing'` is the pageviews of `X`. */
  lemma MatchListingSuffix(x: string)
    requires '\n' !in x
    ensures MatchListing(x + ListingSuffix) == Some(x)
  {
    var s := x + ListingSuffix;
    FindSpec(s, '\n');
    assert s[..|x|] == x;
    assert s[|x|..|s|] == ListingSuffix;
    assert Find(s, '\n') == |s|;
    MatchFromSpec(s, |s|);
    assert ListingAt(s, |x|);
  }

  /** The dict the row loop builds: each matching row sets its subreddit's value,
      a later row for the same subreddit replacing an earlier one. */
  function RowIndex(rows: seq<(string, int)>): map<string, int>
    decreases |rows|
  {
    if |rows| == 0 then map[]
    else
      var n := |rows| - 1;
      match MatchListing(rows[n].0)
      case Some(name) => RowIndex(rows[..n])[name := rows[n].1]
      case None => RowIndex(rows[..n])
  }

  /** A name is indexed exactly when some row matches it, and its value is the
      count of the last such row. */
  lemma {:induction false} RowIndexSpec(rows: seq<(string, int)>, name: string)
    ensures name in RowIndex(rows) <==> exists i :: 0 <= i < |rows| && MatchListing(rows[i].0) == Some(name)
    ensures name in RowIndex(rows) ==>
      exists i :: 0 <= i < |rows| && MatchListing(rows[i].0) == Some(name) && rows[i].1 == RowIndex(rows)[name]
        && forall j :: i < j < |rows| ==> MatchListing(rows[j].0) != Some(name)
    decreases |rows|
  {
    if |rows| > 0 {
      var n := |rows| - 1;
      var pre := rows[..n];
      RowIndexSpec(pre, name);
      assert forall i :: 0 <= i < n ==> pre[i] == rows[i];
      if MatchListing(rows[n].0) != Some(name) && name in RowIndex(rows) {
        var i :| 0 <= i < n && MatchListing(pre[i].0) == Some(name) && pre[i].1 == RowIndex(pre)[name]
          && forall j :: i < j < n ==> MatchListing(pre[j].0) != Some(name);
        assert rows[i] == pre[i];
      }
    }
  }

  /** The row loop of `_min_daily_pageviews_by_sr`, over the `(srpath, min count)`
      rows the query returns. */
  method MinDailyByRows(rows: seq<(string, int)>) returns (retval: map<string, int>)
    ensures retval == RowIndex(rows)
  {
    retval := map[];
    for i := 0 to |rows|
      invariant retval == RowIndex(rows[..i])
    {
      assert rows[..i + 1][..i] == rows[..i];
      var m := MatchListing(rows[i].0);
      if m.Some? {
        retval := retval[m.value := rows[i].1];
      }
    }
    assert rows[..|rows|] == rows;
  }

  // ---- get_sold_pageviews ----

  /** The fields of a promo campaign the sold count reads. */
  datatype Campaign = Campaign(transId: int, startDate: Day, endDate: Day, impressions: int)

  predicate Paid(c: Campaign)
  {
    c.transId != NoTransaction
  }

  /** Python 2 `/` on integers, which rounds toward negative infinity. */
  function FloorDiv(a: int, b: int): (q: int)
    requires b != 0
    ensures b > 0 ==> q * b <= a < q * b + b
    ensures b < 0 ==> q * b >= a > q * b + b
  {
    if b > 0 then a / b else (-a) / (-b)
  }

  /** A paid campaign that starts and ends on the same day: its daily share is
      a division by zero. */
  predicate Degenerate(c: Campaign)
  {
    Paid(c) && c.endDate == c.startDate
  }

  /** The impressions a campaign sells on day `d`. */
  function SoldBy(c: Campaign, d: Day): int
  {
    if Paid(c) && !Degenerate(c) && c.startDate <= d < c.endDate
    then FloorDiv(c.impressions, c.endDate - c.startDate) else 0
  }

  /** The impressions the campaigns sell on day `d`. */
  function SoldOn(campaigns: seq<Campaign>, d: Day): int
    decreases |campaigns|
  {
    if |campaigns| == 0 then 0
    else SoldOn(campaigns[..|campaigns| - 1], d) + SoldBy(campaigns[|campaigns| - 1], d)
  }

  predicate AnyDegenerate(campaigns: seq<Campaign>)
  {
    exists i :: 0 <= i < |campaigns| && Degenerate(campaigns[i])
  }

  /** Unpaid campaigns and days outside a campaign's own range sell nothing. */
  lemma {:induction false} SoldOnUnpaid(campaigns: seq<Campaign>, d: Day)
    requires forall i :: 0 <= i < |campaigns| ==> !Paid(campaigns[i]) || !(campaigns[i].startDate <= d < campaigns[i].endDate)
    ensures SoldOn(campaigns, d) == 0
    decreases |campaigns|
  {
    if |campaigns| > 0 {
      var n := |campaigns| - 1;
      assert forall i :: 0 <= i < n ==> campaigns[..n][i] == campaigns[i];
      SoldOnUnpaid(campaigns[..n], d);
    }
  }

  /** `get_sold_pageviews` over the campaigns the promotion weights name: each
      day of `[start, end)` starts at 0 and every paid campaign adds its daily
      share (impressions over its length in days) to each of those days within
      its own range. A paid campaign of no length raises `ZeroDivisionError`. */
  method SoldPageviews(campaigns: seq<Campaign>, start: Day, end: Day) returns (r: Result<map<Day, int>, InventoryError>)
    ensures r.Err? <==> AnyDegenerate(campaigns)
    ensures r.Ok? ==> forall d :: d in r.value <==> start <= d < end
    ensures r.Ok? ==> forall d :: start <= d < end ==> r.value[d] == SoldOn(campaigns, d)
  {
    var dates := DateRange(start, end);
    var sold: map<Day, int> := map d | d in dates :: 0;
    forall d ensures d in sold <==> start <= d < end {
      DateRangeMembers(start, end, d);
    }
    for k := 0 to |campaigns|
      invariant forall i :: 0 <= i < k ==> !Degenerate(campaigns[i])
      invariant forall d :: d in sold <==> start <= d < end
      invariant forall d :: start <= d < end ==> sold[d] == SoldOn(campaigns[..k], d)
    {
      var c := campaigns[k];
      assert campaigns[..k + 1][..k] == campaigns[..k];
      assert campaigns[..k + 1][k] == c;
      if c.transId == NoTransaction {
        forall x | start <= x < end ensures sold[x] == SoldOn(campaigns[..k + 1], x) {
          assert SoldOn(campaigns[..k + 1], x) == SoldOn(campaigns[..k], x) + SoldBy(c, x);
        }
      } else {
        var ndays := c.endDate - c.startDate;
        if ndays == 0 {
          assert Degenerate(campaigns[k]);
          return Err(ZeroDivision);
        }
        var daily := FloorDiv(c.impressions, ndays);
        var lo := if start < c.startDate then c.startDate else start;
        var hi := if end < c.endDate then end else c.endDate;
        var d := lo;
        while d < hi
          invariant d == lo || lo <= d <= hi
          invariant forall x :: x in sold <==> start <= x < end
          invariant forall x :: start <= x < end ==>
            sold[x] == SoldOn(campaigns[..k], x) + (if lo <= x < d then daily else 0)
        {
          sold := sold[d := sold[d] + daily];
          d := d + 1;
        }
        forall x | start <= x < end ensures sold[x] == SoldOn(campaigns[..k + 1], x) {
          assert SoldOn(campaigns[..k + 1], x) == SoldOn(campaigns[..k], x) + SoldBy(c, x);
          assert SoldBy(c, x) == if lo <= x < d then daily else 0;
        }
      }
    }
    assert campaigns[..|campaigns|] == campaigns;
    r := Ok(sold);
  }

  // ---- get_available_pageviews, get_available_pageviews_json, get_oversold ----

  /** What is left of `daily` once `sold` is taken, never below 0. */
  function Left(daily: int, sold: int): int
  {
    if daily - sold > 0 then daily - sold else 0
  }

  /** The comprehension of `get_available_pageviews`. */
  function Available(sold: map<Day, int>, daily: int): (available: map<Day, int>)
  {
    map d | d in sold :: Left(daily, sold[d])
  }

  /** Availability has the days of the sold map; with nothing oversold it is what
      is not sold, it never exceeds the daily pageviews when sales are not
      negative, and it is 0 exactly on the days sold out. */
  lemma AvailableSpec(sold: map<Day, int>, daily: int, d: Day)
    requires d in sold
    ensures d in Available(sold, daily)
    ensures 0 <= Available(sold, daily)[d]
    ensures sold[d] <= daily ==> Available(sold, daily)[d] + sold[d] == daily
    ensures sold[d] >= 0 ==> Available(sold, daily)[d] <= (if daily > 0 then daily else 0)
    ensures Available(sold, daily)[d] == 0 <==> sold[d] >= daily
  {
  }

  lemma AvailableKeys(sold: map<Day, int>, daily: int)
    ensures Available(sold, daily).Keys == sold.Keys
  {
  }

  /** `get_available_pageviews`. */
  method AvailablePageviews(campaigns: seq<Campaign>, start: Day, end: Day) returns (r: Result<map<Day, int>, InventoryError>)
    ensures r.Err? <==> AnyDegenerate(campaigns)
    ensures r.Ok? ==> forall d :: d in r.value <==> start <= d < end
    ensures r.Ok? ==> forall d :: start <= d < end ==> r.value[d] == Left(MinDailyPageviews, SoldOn(campaigns, d))
  {
    var sold := SoldPageviews(campaigns, start, end);
    if sold.Err? {
      return Err(sold.error);
    }
    r := Ok(Available(sold.value, MinDailyPageviews));
  }

  /** The days of a map, each formattable: a real date with a four-digit year. */
  ghost predicate Formattable(available: map<Day, int>)
  {
    forall d :: d in available ==> 1 <= d && Dates.FromOrdinal(d).year < 10000
  }

  /** `'%m/%d/%Y'` of a day. */
  function DayText(d: Day): string
  {
    Dates.Format(Dates.FromOrdinal(d))
  }

  /** Two formattable days with the same text are the same day. */
  lemma DayTextInjective(d: Day, e: Day)
    requires 1 <= d && Dates.FromOrdinal(d).year < 10000
    requires 1 <= e && Dates.FromOrdinal(e).year < 10000
    requires DayText(d) == DayText(e)
    ensures d == e
  {
    Dates.FormatInjective(Dates.FromOrdinal(d), Dates.FromOrdinal(e));
    Dates.FromOrdinalInjective(d, e);
  }

  /** `get_available_pageviews_json`: the availability keyed by each day's text. */
  function AvailableJson(available: map<Day, int>): (json: map<string, int>)
    requires Formattable(available)
  {
    assert forall d, e :: d in available && e in available && DayText(d) == DayText(e) ==> d == e by {
      forall d, e | d in available && e in available && DayText(d) == DayText(e) ensures d == e {
        DayTextInjective(d, e);
      }
    }
    map d | d in available :: DayText(d) := available[d]
  }

  /** Each day's value appears under its text, which reads back as that day; every
      key is the text of some day. */
  lemma AvailableJsonSpec(available: map<Day, int>, d: Day)
    requires Formattable(available) && d in available
    ensures DayText(d) in AvailableJson(available) && AvailableJson(available)[DayText(d)] == available[d]
    ensures Dates.Parse(DayText(d)) == Some(Dates.FromOrdinal(d))
    ensures forall t :: t in AvailableJson(available) ==> exists e :: e in available && DayText(e) == t
  {
    forall e | e in available && DayText(e) == DayText(d) ensures e == d {
      DayTextInjective(d, e);
    }
    Dates.ParseFormat(Dates.FromOrdinal(d));
  }

  /** The loop of `get_oversold`: `days` is the order `iteritems` hands the days
      of the availability over in, each once. */
  method Oversold(available: map<Day, int>, days: seq<Day>, dailyRequest: int) returns (oversold: map<Day, int>)
    requires forall d :: d in available <==> d in days
    ensures forall d :: d in oversold <==> d in available && available[d] < dailyRequest
    ensures forall d :: d in oversold ==> oversold[d] == available[d]
  {
    oversold := map[];
    for i := 0 to |days|
      invariant forall d :: d in oversold <==> d in days[..i] && available[d] < dailyRequest
      invariant forall d :: d in oversold ==> oversold[d] == available[d]
    {
      assert days[..i + 1] == days[..i] + [days[i]];
      var d := days[i];
      if available[d] < dailyRequest {
        oversold := oversold[d := available[d]];
      }
    }
    assert days[..|days|] == days;
  }

  /** `get_oversold`. */
  method GetOversold(campaigns: seq<Campaign>, start: Day, end: Day, dailyRequest: int)
    returns (r: Result<map<Day, int>, InventoryError>)
    ensures r.Err? <==> AnyDegenerate(campaigns)
    ensures r.Ok? ==> forall d :: d in r.value <==>
      start <= d < end && Left(MinDailyPageviews, SoldOn(campaigns, d)) < dailyRequest
    ensures r.Ok? ==> forall d :: d in r.value ==> r.value[d] == Left(MinDailyPageviews, SoldOn(campaigns, d))
  {
    var available := AvailablePageviews(campaigns, start, end);
    if available.Err? {
      return Err(available.error);
    }
    var days := DateRange(start, end);
    forall d ensures d in available.value <==> d in days {
      DateRangeMembers(start, end, d);
    }
    var oversold := Oversold(available.value, days, dailyRequest);
    r := Ok(oversold);
  }
}
