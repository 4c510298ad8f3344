/** The video-games statistics widget of public/javascripts/main.js: the
    `from` query value, the three counts of `displayStats`, and the
    response-status gate of the fetch chain. Network, promises, the clock,
    JSON parsing and the DOM are outside the model. */
module StatsWidget {
  import opened Wrappers
  import opened Decimal

  // ---------------------------------------------------------------------------
  // Game records and the three counts (main.js, displayStats)
  // ---------------------------------------------------------------------------

  /** `resellPrice` of a game: its estimated resale cash value (whole cents). */
  datatype ResellPrice = ResellPrice(cash: int)

  /** `listingDetails` of a game: its current listing price (whole cents). */
  datatype ListingDetails = ListingDetails(price: int)

  /** One game record of the `/api/video-games` response; a missing or null
      `resellPrice` is `None`. */
  datatype Game = Game(resellPrice: Option<ResellPrice>, listingDetails: ListingDetails)

  /** The three numbers written into the badges, in badge order. */
  datatype Stats = Stats(total: nat, withoutResellPrice: nat, withGoodPrice: nat)

  /** The filter of `withoutResellPrice`: `!g.resellPrice`. */
  predicate WithoutResellPrice(g: Game) {
    g.resellPrice.None?
  }

  /** The filter of `withGoodPrice`: a resale price exists and the listing price
      is strictly below its cash value. */
  predicate WithGoodPrice(g: Game) {
    g.resellPrice.Some? && g.listingDetails.price < g.resellPrice.value.cash
  }

  /** The records neither filter keeps: a resale price exists but the listing
      price is not below it. */
  predicate WithoutGoodPrice(g: Game) {
    g.resellPrice.Some? && g.listingDetails.price >= g.resellPrice.value.cash
  }

  /** `Array.prototype.filter`: the elements of `s` satisfying `p`, in order.
      Written by peeling off the last element. */
  function Filter<T(!new)>(s: seq<T>, p: T -> bool): (r: seq<T>)
    ensures |r| <= |s|
    ensures forall x :: x in r <==> x in s && p(x)
    decreases |s|
  {
    if s == [] then []
    else
      var init := Filter(s[..|s| - 1], p);
      assert s == s[..|s| - 1] + [s[|s| - 1]];
      if p(s[|s| - 1]) then init + [s[|s| - 1]] else init
  }

  /** The positions of `s` whose element satisfies `p`. */
  ghost function Positions<T(!new)>(s: seq<T>, p: T -> bool): set<int> {
    set i | 0 <= i < |s| && p(s[i])
  }

  /** `displayStats` without the DOM writes: the number of records, the number
      without a resale price and the number priced below their resale value. */
  function DisplayStats(games: seq<Game>): (st: Stats)
    ensures st.total == |games|
    ensures st.withoutResellPrice + st.withGoodPrice <= st.total
  {
    StatsPartition(games);
    Stats(|games|, |Filter(games, WithoutResellPrice)|, |Filter(games, WithGoodPrice)|)
  }

  /** A filter keeps as many elements as there are positions satisfying its
      predicate. */
  lemma {:induction false} FilterLengthIsPositionCount<T(!new)>(s: seq<T>, p: T -> bool)
    ensures |Filter(s, p)| == |Positions(s, p)|
    decreases |s|
  {
    if s != [] {
      var n := |s| - 1;
      FilterLengthIsPositionCount(s[..n], p);
      assert Positions(s, p) == Positions(s[..n], p) + (if p(s[n]) then {n} else {});
    }
  }

  /** Filtering a concatenation filters each part. */
  lemma {:induction false} FilterAppend<T(!new)>(a: seq<T>, b: seq<T>, p: T -> bool)
    ensures Filter(a + b, p) == Filter(a, p) + Filter(b, p)
    decreases |b|
  {
    if b == [] {
      assert a + b == a;
    } else {
      var n := |b| - 1;
      assert (a + b)[..|a + b| - 1] == a + b[..n];
      assert (a + b)[|a + b| - 1] == b[n];
      FilterAppend(a, b[..n], p);
      var last := if p(b[n]) then [b[n]] else [];
      assert Filter(b, p) == Filter(b[..n], p) + last;
      assert Filter(a + b, p) == Filter(a + b[..n], p) + last;
    }
  }

  /** Every record is of exactly one of the three kinds, so the kinds' counts add
      up to the number of records. */
  lemma {:induction false} StatsPartition(games: seq<Game>)
    ensures |Filter(games, WithoutResellPrice)| + |Filter(games, WithGoodPrice)|
            + |Filter(games, WithoutGoodPrice)| == |games|
    decreases |games|
  {
    if games != [] {
      StatsPartition(games[..|games| - 1]);
    }
  }

  /** Each count is the number of positions holding a record of its kind: a
      record counts toward `withoutResellPrice` exactly when it has no resale
      price, and toward `withGoodPrice` exactly when it has one and its listing
      price is strictly below the resale cash value. */
  lemma CountsArePositionCounts(games: seq<Game>)
    ensures DisplayStats(games).total == |games|
    ensures DisplayStats(games).withoutResellPrice
            == |set i | 0 <= i < |games| && games[i].resellPrice.None?|
    ensures DisplayStats(games).withGoodPrice
            == |set i | 0 <= i < |games| && games[i].resellPrice.Some?
                                         && games[i].listingDetails.price < games[i].resellPrice.value.cash|
  {
    FilterLengthIsPositionCount(games, WithoutResellPrice);
    FilterLengthIsPositionCount(games, WithGoodPrice);
    assert Positions(games, WithoutResellPrice)
        == set i | 0 <= i < |games| && games[i].resellPrice.None?;
    assert Positions(games, WithGoodPrice)
        == set i | 0 <= i < |games| && games[i].resellPrice.Some?
                                    && games[i].listingDetails.price < games[i].resellPrice.value.cash;
  }

  /** The statistics of two record lists side by side are the sums of their
      statistics. */
  lemma StatsAppend(a: seq<Game>, b: seq<Game>)
    ensures DisplayStats(a + b) == Stats(
      DisplayStats(a).total + DisplayStats(b).total,
      DisplayStats(a).withoutResellPrice + DisplayStats(b).withoutResellPrice,
      DisplayStats(a).withGoodPrice + DisplayStats(b).withGoodPrice)
  {
    FilterAppend(a, b, WithoutResellPrice);
    FilterAppend(a, b, WithGoodPrice);
  }

  /** Appending one record raises `total` by one and exactly the count of the
      record's kind, if it has one; a record with a resale price that its
      listing price does not undercut raises neither count. */
  lemma StatsAppendOne(games: seq<Game>, g: Game)
    ensures DisplayStats(games + [g]).total == DisplayStats(games).total + 1
    ensures DisplayStats(games + [g]).withoutResellPrice
            == DisplayStats(games).withoutResellPrice + (if g.resellPrice.None? then 1 else 0)
    ensures DisplayStats(games + [g]).withGoodPrice
            == DisplayStats(games).withGoodPrice
               + (if g.resellPrice.Some? && g.listingDetails.price < g.resellPrice.value.cash then 1 else 0)
  {
  }

  /** The comparison is strict: a listing price equal to the resale cash value
      is not a good price. */
  lemma EqualPriceIsNotGood(games: seq<Game>, cash: int)
    ensures DisplayStats(games + [Game(Some(ResellPrice(cash)), ListingDetails(cash))])
            == DisplayStats(games).(total := DisplayStats(games).total + 1)
  {
  }

  /** Three records: one without a resale price, one listed at 40 against a
      resale value of 50, one listed at 60 against 50. */
  lemma ThreeRecordExample()
    ensures DisplayStats([
      Game(None, ListingDetails(0)),
      Game(Some(ResellPrice(50)), ListingDetails(40)),
      Game(Some(ResellPrice(50)), ListingDetails(60))]) == Stats(3, 1, 1)
  {
    var g0 := Game(None, ListingDetails(0));
    var g1 := Game(Some(ResellPrice(50)), ListingDetails(40));
    var g2 := Game(Some(ResellPrice(50)), ListingDetails(60));
    StatsAppendOne([], g0);
    StatsAppendOne([g0], g1);
    StatsAppendOne([g0, g1], g2);
    assert [] + [g0] == [g0];
    assert [g0] + [g1] == [g0, g1];
    assert [g0, g1] + [g2] == [g0, g1, g2];
  }

  // ---------------------------------------------------------------------------
  // The `from` query value (main.js line 1)
  // ---------------------------------------------------------------------------

  /** Length of an RFC 3339 `full-date`, `YYYY-MM-DD`. */
  const DateLength: nat := 10

  /** Appended to the date: midnight, UTC. */
  const MidnightSuffix: string := "T00:00:00Z"

  /** JavaScript's `s.substring(0, n)`: the first `n` characters of `s`, or all
      of `s` when it is shorter. */
  function Prefix(s: string, n: nat): (r: string)
    ensures |r| == if |s| < n then |s| else n
    ensures r <= s
  {
    if |s| < n then s else s[..n]
  }

  /** The `from` value built from the current time's ISO text. */
  function From(iso: string): (r: string)
    ensures |iso| >= DateLength ==>
              |r| == DateLength + |MidnightSuffix|
              && r[..DateLength] == iso[..DateLength]
              && r[DateLength..] == MidnightSuffix
    ensures |iso| < DateLength ==> r == iso + MidnightSuffix
  {
    Prefix(iso, DateLength) + MidnightSuffix
  }

  predicate DigitsAt(s: string, lo: nat, hi: nat)
    requires lo <= hi <= |s|
  {
    forall i :: lo <= i < hi ==> IsDigit(s[i])
  }

  /** RFC 3339 `full-date`: `YYYY-MM-DD`. */
  predicate IsFullDate(s: string) {
    |s| == DateLength && DigitsAt(s, 0, 4) && s[4] == '-' && DigitsAt(s, 5, 7)
    && s[7] == '-' && DigitsAt(s, 8, 10)
  }

  /** RFC 3339 `partial-time`: `HH:MM:SS` with an optional `.` and fraction digits. */
  predicate IsPartialTime(s: string) {
    |s| >= 8 && DigitsAt(s, 0, 2) && s[2] == ':' && DigitsAt(s, 3, 5) && s[5] == ':'
    && DigitsAt(s, 6, 8) && (|s| == 8 || (|s| >= 10 && s[8] == '.' && DigitsAt(s, 9, |s|)))
  }

  /** RFC 3339 (section 5.6) `date-time` whose offset is `Z`: the form
      `toISOString` produces, e.g. `2020-05-17T13:45:12.345Z`. */
  predicate IsUtcDateTime(s: string) {
    |s| >= 20 && IsFullDate(s[..DateLength]) && s[DateLength] == 'T' && s[|s| - 1] == 'Z'
    && IsPartialTime(s[DateLength + 1..|s| - 1])
  }

  /** For a UTC timestamp, `from` is again a UTC timestamp, on the same date,
      at exactly midnight with no fraction. */
  lemma FromIsMidnightOfSameDate(iso: string)
    requires IsUtcDateTime(iso)
    ensures IsUtcDateTime(From(iso))
    ensures From(iso)[..DateLength] == iso[..DateLength]
    ensures From(iso)[DateLength + 1..|From(iso)| - 1] == "00:00:00"
  {
  }

  // ---------------------------------------------------------------------------
  // The response-status gate and the error funnel (main.js lines 17-19)
  // ---------------------------------------------------------------------------

  /** Text before the status code in the rejection message. */
  const ErrorPrefix: string := "error getting video games: "

  /** The status code a rejection message carries, if it has the gate's form. */
  function StatusOfMessage(msg: string): Option<nat> {
    if |msg| >= |ErrorPrefix| && msg[..|ErrorPrefix|] == ErrorPrefix
    then ParseNat(msg[|ErrorPrefix|..])
    else None
  }

  /** Status 200 passes on to parsing; any other status is a rejection whose
      message carries that status. */
  function CheckStatus(status: nat): (r: Result<(), string>)
    ensures r.Ok? <==> status == 200
    ensures r.Err? ==> StatusOfMessage(r.error) == Some(status)
  {
    if status == 200 then Ok(())
    else
      ParseNatToString(status);
      var msg := ErrorPrefix + NatToString(status);
      assert msg[..|ErrorPrefix|] == ErrorPrefix && msg[|ErrorPrefix|..] == NatToString(status);
      Err(msg)
  }

  /** Where one page load ends: the badges show the statistics, or the error
      message is logged and nothing is shown. */
  datatype Outcome = Rendered(stats: Stats) | Logged(message: string)

  /** The fetch chain after the response arrives, given its status and the
      outcome of parsing its body. */
  function LoadStats(status: nat, body: Result<seq<Game>, string>): (o: Outcome)
    ensures o.Rendered? <==> status == 200 && body.Ok?
    ensures o.Rendered? ==> o.stats == DisplayStats(body.value) && o.stats.total == |body.value|
    ensures status != 200 ==> o.Logged? && StatusOfMessage(o.message) == Some(status)
    ensures status == 200 && body.Err? ==> o == Logged(body.error)
  {
    match CheckStatus(status)
    case Err(msg) => Logged(msg)
    case Ok(_) =>
      match body
      case Err(e) => Logged(e)
      case Ok(games) => Rendered(DisplayStats(games))
  }

  /** A non-200 response is never parsed: the outcome does not depend on the
      body, and the logged message names the status. */
  lemma RejectedStatusIgnoresBody(status: nat, b1: Result<seq<Game>, string>, b2: Result<seq<Game>, string>)
    requires status != 200
    ensures LoadStats(status, b1) == LoadStats(status, b2)
  {
  }
}
