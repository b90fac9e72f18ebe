/**
 * The rules of the price-check job as functions: who may trigger it, which
 * ids it asks the price provider for, how it indexes the provider's answer,
 * when a coin of a setting raises an alert, and what a setting looks like
 * after it has been processed. The job itself, with its loops and its effects
 * on the stores, is the class in module CheckPrices.
 */
module PriceRules {
  import opened Seqs

  /** A timestamp (`new Date()`), passed in from outside. */
  type Time = int

  /** One entry of the provider's answer, quoted in US dollars. */
  datatype PriceData = PriceData(id: string, name: string, symbol: string, currentPrice: real)

  /** The provider's answer indexed by coin id. */
  type Snapshot = map<string, PriceData>

  /**
   * A stored alert setting. A record without stored prices is read as one
   * whose `lastPrices` is empty.
   */
  datatype Setting = Setting(
    id: string,
    email: string,
    threshold: real,
    interval: int,
    cryptos: seq<string>,
    lastChecked: Option<Time>,
    lastPrices: map<string, real>)

  /** A JavaScript number as the percentage computation can produce it. */
  datatype Percent = Finite(value: real) | PlusInfinity | MinusInfinity | NotANumber

  /** A record of the alert log. */
  datatype Alert = Alert(
    settingId: string,
    email: string,
    crypto: string,
    symbol: string,
    previousPrice: real,
    currentPrice: real,
    percentageChange: Percent,
    timestamp: Time)

  // ---------------------------------------------------------------------------
  // The bearer-token guard
  // ---------------------------------------------------------------------------

  /**
   * The header value the guard compares with, as the template literal builds
   * it: an unset secret is spliced in as the text "undefined".
   */
  function ExpectedHeaderAsWritten(secret: Option<string>): string {
    "Bearer " + (if secret.Some? then secret.value else "undefined")
  }

  /** The guard as written: a non-empty header equal to the expected value. */
  predicate AuthorizedAsWritten(header: Option<string>, secret: Option<string>) {
    header.Some? && header.value != "" && header.value == ExpectedHeaderAsWritten(secret)
  }

  /** With the secret unset, the guard as written lets the literal header "Bearer undefined" through. */
  lemma UnsetSecretAdmitsLiteralHeader()
    ensures AuthorizedAsWritten(Some("Bearer undefined"), None)
  {
  }

  /** The guard as intended: a secret is configured and the header carries it. */
  predicate Authorized(header: Option<string>, secret: Option<string>) {
    secret.Some? && header == Some("Bearer " + secret.value)
  }

  /**
   * The intended guard never admits a caller while no secret is configured,
   * and agrees with the guard as written whenever one is.
   */
  lemma AuthorizedCorrectsUnsetSecret(header: Option<string>, secret: Option<string>)
    ensures secret.None? ==> !Authorized(header, secret)
    ensures secret.Some? ==> (Authorized(header, secret) <==> AuthorizedAsWritten(header, secret))
  {
    if secret.Some? && header.Some? && header.value == "Bearer " + secret.value {
      assert |header.value| >= 7;
    }
  }

  // ---------------------------------------------------------------------------
  // The ids sent to the provider
  // ---------------------------------------------------------------------------

  /**
   * The `Set` after adding `cs` one by one to `acc`: an id is appended the
   * first time it is seen, so the order is that of first insertion, which is
   * also the order `Array.from` lists the set in.
   */
  function AddIds(acc: seq<string>, cs: seq<string>): seq<string>
    decreases |cs|
  {
    if cs == [] then acc
    else
      var u := AddIds(acc, cs[..|cs| - 1]);
      if cs[|cs| - 1] in u then u else u + [cs[|cs| - 1]]
  }

  /** The ids of all settings, in the order the job adds them to its set. */
  function UnionOf(ss: seq<Setting>): seq<string>
    decreases |ss|
  {
    if ss == [] then [] else AddIds(UnionOf(ss[..|ss| - 1]), ss[|ss| - 1].cryptos)
  }

  /** The distinct coin ids tracked by some setting. */
  function TrackedIds(ss: seq<Setting>): set<string> {
    set i, c | 0 <= i < |ss| && c in ss[i].cryptos :: c
  }

  /** Adding ids keeps the set free of repetitions and holds exactly the old and the added ids. */
  lemma {:induction false} AddIdsSpec(acc: seq<string>, cs: seq<string>)
    requires Distinct(acc)
    ensures Distinct(AddIds(acc, cs))
    ensures forall x :: x in AddIds(acc, cs) <==> x in acc || x in cs
    decreases |cs|
  {
    if cs != [] {
      var init := cs[..|cs| - 1];
      var last := cs[|cs| - 1];
      AddIdsSpec(acc, init);
      var u := AddIds(acc, init);
      assert cs == init + [last];
      if last !in u {
        var r := u + [last];
        forall i, j | 0 <= i < j < |r| ensures r[i] != r[j] {
          if j == |u| {
            assert r[i] == u[i];
          } else {
            assert r[i] == u[i] && r[j] == u[j];
          }
        }
      }
    }
  }

  /**
   * The id list the job sends holds every tracked id once and nothing else,
   * so its length is the number of distinct tracked ids.
   */
  lemma {:induction false} UnionSpec(ss: seq<Setting>)
    ensures Distinct(UnionOf(ss))
    ensures forall x :: x in UnionOf(ss) <==> exists i :: 0 <= i < |ss| && x in ss[i].cryptos
    ensures |UnionOf(ss)| == |TrackedIds(ss)|
    decreases |ss|
  {
    if ss == [] {
      assert TrackedIds(ss) == {};
    } else {
      var init := ss[..|ss| - 1];
      var last := ss[|ss| - 1];
      UnionSpec(init);
      AddIdsSpec(UnionOf(init), last.cryptos);
      forall x ensures x in UnionOf(ss) <==> exists i :: 0 <= i < |ss| && x in ss[i].cryptos {
        if x in UnionOf(init) {
          var i :| 0 <= i < |init| && x in init[i].cryptos;
          assert ss[i] == init[i];
        }
        if exists i :: 0 <= i < |ss| && x in ss[i].cryptos {
          var i :| 0 <= i < |ss| && x in ss[i].cryptos;
          if i < |init| {
            assert init[i] == ss[i];
          }
        }
      }
    }
    assert Elems(UnionOf(ss)) == TrackedIds(ss);
    DistinctCard(UnionOf(ss));
  }

  // ---------------------------------------------------------------------------
  // Indexing the provider's answer
  // ---------------------------------------------------------------------------

  /** `currentPrices[crypto.id] = crypto` for each entry in turn. */
  function IndexById(data: seq<PriceData>): Snapshot
    decreases |data|
  {
    if data == [] then map[]
    else IndexById(data[..|data| - 1])[data[|data| - 1].id := data[|data| - 1]]
  }

  /**
   * The index has a key for every id the provider answered with and no other,
   * and each key maps to the last entry carrying that id.
   */
  lemma {:induction false} IndexByIdSpec(data: seq<PriceData>)
    ensures forall k :: k in IndexById(data) <==> exists j :: 0 <= j < |data| && data[j].id == k
    ensures forall k :: k in IndexById(data) ==>
      exists j :: 0 <= j < |data| && IndexById(data)[k] == data[j] && data[j].id == k &&
        forall j' :: j < j' < |data| ==> data[j'].id != k
    decreases |data|
  {
    if data != [] {
      var init := data[..|data| - 1];
      var n := |data| - 1;
      IndexByIdSpec(init);
      forall k ensures k in IndexById(data) <==> exists j :: 0 <= j < |data| && data[j].id == k {
        if k in IndexById(init) {
          var j :| 0 <= j < |init| && init[j].id == k;
          assert data[j] == init[j];
        }
        if exists j :: 0 <= j < |data| && data[j].id == k {
          var j :| 0 <= j < |data| && data[j].id == k;
          if j < n {
            assert init[j] == data[j];
          }
        }
      }
      forall k | k in IndexById(data)
        ensures exists j :: (0 <= j < |data| && IndexById(data)[k] == data[j] && data[j].id == k &&
                             forall j' :: j < j' < |data| ==> data[j'].id != k)
      {
        if k == data[n].id {
          assert IndexById(data)[k] == data[n];
        } else {
          var j :| 0 <= j < |init| && IndexById(init)[k] == init[j] && init[j].id == k &&
            forall j' :: j < j' < |init| ==> init[j'].id != k;
          assert data[j] == init[j];
          forall j' | j < j' < |data| ensures data[j'].id != k {
            if j' < n {
              assert data[j'] == init[j'];
            }
          }
        }
      }
    }
  }

  // ---------------------------------------------------------------------------
  // The decision rule
  // ---------------------------------------------------------------------------

  /**
   * `((currentPrice - previousPrice) / previousPrice) * 100`. A previous price
   * of zero divides by zero, which yields an infinity or NaN in JavaScript.
   */
  function PercentChange(prev: real, cur: real): Percent {
    if prev != 0.0 then Finite((cur - prev) / prev * 100.0)
    else if cur > 0.0 then PlusInfinity
    else if cur < 0.0 then MinusInfinity
    else NotANumber
  }

  /** `percentageChange >= threshold` for a finite threshold. */
  predicate AtLeast(p: Percent, threshold: real) {
    match p
    case Finite(v) => v >= threshold
    case PlusInfinity => true
    case MinusInfinity => false
    case NotANumber => false
  }

  /** Whether a move from `prev` to `cur` reaches the threshold. */
  predicate ShouldFire(prev: real, cur: real, threshold: real) {
    AtLeast(PercentChange(prev, cur), threshold)
  }

  /**
   * For a positive previous price the rule fires exactly when the rise,
   * scaled to percent, reaches the threshold's share of the previous price.
   */
  lemma ShouldFireIffRise(prev: real, cur: real, threshold: real)
    requires prev > 0.0
    ensures ShouldFire(prev, cur, threshold) <==> (cur - prev) * 100.0 >= threshold * prev
  {
    var q := (cur - prev) / prev;
    assert q * prev == cur - prev;
    var v := q * 100.0;
    assert v * prev == (cur - prev) * 100.0;
    if v >= threshold {
      assert v * prev >= threshold * prev;
    } else {
      assert v * prev < threshold * prev;
    }
  }

  /** The comparison is inclusive: a change of exactly the threshold fires. */
  lemma ThresholdIsInclusive(prev: real, threshold: real)
    requires prev != 0.0
    ensures PercentChange(prev, prev + prev * threshold / 100.0) == Finite(threshold)
    ensures ShouldFire(prev, prev + prev * threshold / 100.0, threshold)
  {
    var cur := prev + prev * threshold / 100.0;
    assert cur - prev == prev * threshold / 100.0;
    assert (cur - prev) / prev == threshold / 100.0;
  }

  /** For a non-negative previous price and a positive threshold, a fall or an unchanged price never fires. */
  lemma DropNeverFires(prev: real, cur: real, threshold: real)
    requires 0.0 <= prev && cur <= prev && threshold > 0.0
    ensures !ShouldFire(prev, cur, threshold)
  {
    if prev > 0.0 {
      var q := (cur - prev) / prev;
      assert q * prev == cur - prev;
      assert q <= 0.0;
    }
  }

  /** The alert, if any, that coin `c` of setting `s` raises against the snapshot. */
  function AlertFor(s: Setting, c: string, snap: Snapshot, now: Time): Option<Alert> {
    if c !in snap then None
    else if c !in s.lastPrices then None
    else
      var prev := s.lastPrices[c];
      var cur := snap[c].currentPrice;
      if ShouldFire(prev, cur, s.threshold) then
        Some(Alert(s.id, s.email, snap[c].name, snap[c].symbol, prev, cur, PercentChange(prev, cur), now))
      else None
  }

  function AsSeq<T>(o: Option<T>): seq<T> {
    if o.Some? then [o.value] else []
  }

  /** The alerts of setting `s` for the coins `cs`, taken in order. */
  function CoinAlerts(s: Setting, cs: seq<string>, snap: Snapshot, now: Time): seq<Alert>
    decreases |cs|
  {
    if cs == [] then []
    else CoinAlerts(s, cs[..|cs| - 1], snap, now) + AsSeq(AlertFor(s, cs[|cs| - 1], snap, now))
  }

  /** The alerts one setting raises in one run. */
  function SettingAlerts(s: Setting, snap: Snapshot, now: Time): seq<Alert> {
    CoinAlerts(s, s.cryptos, snap, now)
  }

  /** The alerts a run raises over the settings `ss`, setting by setting. */
  function RunAlerts(ss: seq<Setting>, snap: Snapshot, now: Time): seq<Alert>
    decreases |ss|
  {
    if ss == [] then []
    else RunAlerts(ss[..|ss| - 1], snap, now) + SettingAlerts(ss[|ss| - 1], snap, now)
  }

  /**
   * The fire rule spelled out: coin `c` of setting `s` raises alert `a` when
   * the snapshot has the coin, the setting has a previous price for it and the
   * change reaches the threshold; `a` then carries the setting's id and email,
   * the snapshot's name, symbol and price, the previous price and the change.
   */
  predicate Raises(s: Setting, c: string, snap: Snapshot, now: Time, a: Alert) {
    && c in snap
    && c in s.lastPrices
    && ShouldFire(s.lastPrices[c], snap[c].currentPrice, s.threshold)
    && a == Alert(s.id, s.email, snap[c].name, snap[c].symbol, s.lastPrices[c], snap[c].currentPrice,
                  PercentChange(s.lastPrices[c], snap[c].currentPrice), now)
  }

  lemma {:induction false} CoinAlertsSpec(s: Setting, cs: seq<string>, snap: Snapshot, now: Time)
    ensures forall a :: a in CoinAlerts(s, cs, snap, now) <==>
      exists k :: 0 <= k < |cs| && Raises(s, cs[k], snap, now, a)
    decreases |cs|
  {
    if cs != [] {
      var init := cs[..|cs| - 1];
      var n := |cs| - 1;
      CoinAlertsSpec(s, init, snap, now);
      forall a ensures a in CoinAlerts(s, cs, snap, now) <==>
        exists k :: 0 <= k < |cs| && Raises(s, cs[k], snap, now, a)
      {
        if a in CoinAlerts(s, init, snap, now) {
          var k :| 0 <= k < |init| && Raises(s, init[k], snap, now, a);
          assert cs[k] == init[k];
        }
        if a in AsSeq(AlertFor(s, cs[n], snap, now)) {
          assert Raises(s, cs[n], snap, now, a);
        }
        if exists k :: 0 <= k < |cs| && Raises(s, cs[k], snap, now, a) {
          var k :| 0 <= k < |cs| && Raises(s, cs[k], snap, now, a);
          if k < n {
            assert init[k] == cs[k];
          } else {
            assert AlertFor(s, cs[n], snap, now) == Some(a);
          }
        }
      }
    }
  }

  /** Checking one more coin appends that coin's alert, if any. */
  lemma CoinAlertsStep(s: Setting, cs: seq<string>, j: nat, snap: Snapshot, now: Time)
    requires j < |cs|
    ensures CoinAlerts(s, cs[..j + 1], snap, now) == CoinAlerts(s, cs[..j], snap, now) + AsSeq(AlertFor(s, cs[j], snap, now))
  {
    assert cs[..j + 1][..j] == cs[..j];
  }

  /** Processing one more setting appends that setting's alerts. */
  lemma RunAlertsStep(ss: seq<Setting>, i: nat, snap: Snapshot, now: Time)
    requires i < |ss|
    ensures RunAlerts(ss[..i + 1], snap, now) == RunAlerts(ss[..i], snap, now) + SettingAlerts(ss[i], snap, now)
  {
    assert ss[..i + 1][..i] == ss[..i];
  }

  /** Coins none of which raises an alert give no alerts. */
  lemma {:induction false} CoinAlertsNone(s: Setting, cs: seq<string>, snap: Snapshot, now: Time)
    requires forall k :: 0 <= k < |cs| ==> AlertFor(s, cs[k], snap, now) == None
    ensures CoinAlerts(s, cs, snap, now) == []
    decreases |cs|
  {
    if cs != [] {
      var init := cs[..|cs| - 1];
      assert forall k :: 0 <= k < |init| ==> init[k] == cs[k];
      CoinAlertsNone(s, init, snap, now);
    }
  }

  /**
   * An alert belongs to a setting's alerts exactly when one of the setting's
   * coins raises it under the fire rule.
   */
  lemma SettingAlertsSpec(s: Setting, snap: Snapshot, now: Time)
    ensures forall a :: a in SettingAlerts(s, snap, now) <==>
      exists k :: 0 <= k < |s.cryptos| && Raises(s, s.cryptos[k], snap, now, a)
  {
    CoinAlertsSpec(s, s.cryptos, snap, now);
  }

  /** An alert of a run is one raised by one of its settings. */
  lemma {:induction false} RunAlertsSpec(ss: seq<Setting>, snap: Snapshot, now: Time)
    ensures forall a :: a in RunAlerts(ss, snap, now) <==>
      exists i :: 0 <= i < |ss| && a in SettingAlerts(ss[i], snap, now)
    decreases |ss|
  {
    if ss != [] {
      var init := ss[..|ss| - 1];
      RunAlertsSpec(init, snap, now);
      forall a ensures a in RunAlerts(ss, snap, now) <==>
        exists i :: 0 <= i < |ss| && a in SettingAlerts(ss[i], snap, now)
      {
        if a in RunAlerts(init, snap, now) {
          var i :| 0 <= i < |init| && a in SettingAlerts(init[i], snap, now);
          assert ss[i] == init[i];
        }
        if exists i :: 0 <= i < |ss| && a in SettingAlerts(ss[i], snap, now) {
          var i :| 0 <= i < |ss| && a in SettingAlerts(ss[i], snap, now);
          if i < |init| {
            assert init[i] == ss[i];
          }
        }
      }
    }
  }

  /** Whether coin `c` raises an alert for setting `s`. */
  function FiresFor(s: Setting, snap: Snapshot, now: Time): string -> bool {
    c => AlertFor(s, c, snap, now).Some?
  }

  /**
   * Each listed position raises at most one alert, so a coin listed several
   * times fires once per occurrence: the number of alerts is the number of
   * positions whose coin raises one.
   */
  lemma {:induction false} CoinAlertsCount(s: Setting, cs: seq<string>, snap: Snapshot, now: Time)
    ensures |CoinAlerts(s, cs, snap, now)| == |Positions(cs, FiresFor(s, snap, now))|
    decreases |cs|
  {
    if cs == [] {
      assert Positions(cs, FiresFor(s, snap, now)) == {};
    } else {
      CoinAlertsCount(s, cs[..|cs| - 1], snap, now);
      PositionsSnoc(cs, FiresFor(s, snap, now));
    }
  }

  /** A coin listed twice in one setting is checked twice and fires twice. */
  lemma DuplicateCoinFiresTwice(s: Setting, c: string, snap: Snapshot, now: Time)
    requires s.cryptos == [c, c]
    requires c in snap && c in s.lastPrices
    requires ShouldFire(s.lastPrices[c], snap[c].currentPrice, s.threshold)
    ensures |SettingAlerts(s, snap, now)| == 2
    ensures SettingAlerts(s, snap, now)[0] == SettingAlerts(s, snap, now)[1]
  {
    var a := AlertFor(s, c, snap, now);
    assert a.Some?;
    assert s.cryptos[..1] == [c];
    assert [c][..0] == [];
    assert CoinAlerts(s, [c], snap, now) == [a.value];
    assert SettingAlerts(s, snap, now) == [a.value, a.value];
  }

  // ---------------------------------------------------------------------------
  // The state written back
  // ---------------------------------------------------------------------------

  /** `newLastPrices[cryptoId] = currentPrices[cryptoId].current_price` for each listed coin the snapshot has. */
  function NewLastPrices(cs: seq<string>, snap: Snapshot): map<string, real>
    decreases |cs|
  {
    if cs == [] then map[]
    else
      var m := NewLastPrices(cs[..|cs| - 1], snap);
      var c := cs[|cs| - 1];
      if c in snap then m[c := snap[c].currentPrice] else m
  }

  /**
   * The rebuilt price map is the snapshot restricted to the listed coins: no
   * entry survives from the previous map.
   */
  lemma {:induction false} NewLastPricesSpec(cs: seq<string>, snap: Snapshot)
    ensures NewLastPrices(cs, snap) == map c | c in cs && c in snap :: snap[c].currentPrice
    decreases |cs|
  {
    if cs != [] {
      var init := cs[..|cs| - 1];
      NewLastPricesSpec(init, snap);
      assert cs == init + [cs[|cs| - 1]];
    }
  }

  /** The setting as the store holds it after the run: new prices and check time, all else as before. */
  function Updated(s: Setting, snap: Snapshot, now: Time): Setting {
    s.(lastChecked := Some(now), lastPrices := NewLastPrices(s.cryptos, snap))
  }

  /**
   * After processing, a setting's prices are exactly this round's prices of its
   * coins; prices of coins the snapshot lacks are gone; only the prices and the
   * check time differ from before.
   */
  lemma UpdatedSpec(s: Setting, snap: Snapshot, now: Time)
    ensures Updated(s, snap, now).lastPrices == map c | c in s.cryptos && c in snap :: snap[c].currentPrice
    ensures forall c :: c in s.lastPrices && c !in snap ==> c !in Updated(s, snap, now).lastPrices
    ensures Updated(s, snap, now).lastChecked == Some(now)
    ensures Updated(s, snap, now).(lastChecked := s.lastChecked, lastPrices := s.lastPrices) == s
  {
    NewLastPricesSpec(s.cryptos, snap);
  }

  /**
   * A setting that has no previous price for any of its coins raises no alert,
   * and afterwards holds this round's price of every coin the snapshot has.
   */
  lemma FirstSightNeverFires(s: Setting, snap: Snapshot, now: Time)
    requires forall k :: 0 <= k < |s.cryptos| ==> s.cryptos[k] !in s.lastPrices
    ensures SettingAlerts(s, snap, now) == []
    ensures forall c :: c in s.cryptos && c in snap ==>
      c in Updated(s, snap, now).lastPrices && Updated(s, snap, now).lastPrices[c] == snap[c].currentPrice
  {
    CoinAlertsNone(s, s.cryptos, snap, now);
    NewLastPricesSpec(s.cryptos, snap);
  }

  /** A price equal to the previous one never fires under a positive threshold. */
  lemma UnchangedNeverFires(p: real, threshold: real)
    requires threshold > 0.0
    ensures !ShouldFire(p, p, threshold)
  {
  }

  /**
   * Checking a processed setting again against the same snapshot raises no
   * alert when its threshold is positive: every price it compares is the one
   * it just stored.
   */
  lemma SecondCheckQuiet(s: Setting, snap: Snapshot, now: Time, later: Time)
    requires s.threshold > 0.0
    ensures SettingAlerts(Updated(s, snap, now), snap, later) == []
  {
    var u := Updated(s, snap, now);
    NewLastPricesSpec(s.cryptos, snap);
    forall k | 0 <= k < |u.cryptos| ensures AlertFor(u, u.cryptos[k], snap, later) == None {
      var c := u.cryptos[k];
      if c in snap {
        UnchangedNeverFires(snap[c].currentPrice, u.threshold);
      }
    }
    CoinAlertsNone(u, u.cryptos, snap, later);
  }

  /**
   * A second run over the settings the first run wrote, with the same
   * snapshot and positive thresholds, raises no alert at all.
   */
  lemma {:induction false} SecondRunQuiet(ss: seq<Setting>, after: seq<Setting>, snap: Snapshot, now: Time, later: Time)
    requires |after| == |ss|
    requires forall k :: 0 <= k < |ss| ==> ss[k].threshold > 0.0
    requires forall k :: 0 <= k < |ss| ==> after[k] == Updated(ss[k], snap, now)
    ensures RunAlerts(after, snap, later) == []
    decreases |ss|
  {
    if ss != [] {
      var n := |ss| - 1;
      SecondRunQuiet(ss[..n], after[..n], snap, now, later);
      SecondCheckQuiet(ss[n], snap, now, later);
    }
  }

  // ---------------------------------------------------------------------------
  // Worked examples
  // ---------------------------------------------------------------------------

  /** A three-percent setting on bitcoin last seen at 30000. */
  function BitcoinSetting(): Setting {
    Setting("s1", "user@example.com", 3.0, 15, ["bitcoin"], None, map["bitcoin" := 30000.0])
  }

  function BitcoinAt(price: real): Snapshot {
    map["bitcoin" := PriceData("bitcoin", "Bitcoin", "btc", price)]
  }

  /** A rise from 30000 to 31000 is 10/3 percent and raises one alert under a threshold of 3. */
  lemma RiseAboveThresholdFires(now: Time)
    ensures SettingAlerts(BitcoinSetting(), BitcoinAt(31000.0), now) ==
      [Alert("s1", "user@example.com", "Bitcoin", "btc", 30000.0, 31000.0, Finite(10.0 / 3.0), now)]
    ensures Updated(BitcoinSetting(), BitcoinAt(31000.0), now).lastPrices == map["bitcoin" := 31000.0]
  {
    var s := BitcoinSetting();
    assert s.cryptos[..0] == [];
    assert PercentChange(30000.0, 31000.0) == Finite(10.0 / 3.0);
    assert NewLastPrices(s.cryptos, BitcoinAt(31000.0)) == map[]["bitcoin" := 31000.0];
  }

  /** A rise from 30000 to 30500 stays below 3 percent: no alert, but the stored price moves on. */
  lemma RiseBelowThresholdOnlyRecords(now: Time)
    ensures SettingAlerts(BitcoinSetting(), BitcoinAt(30500.0), now) == []
    ensures Updated(BitcoinSetting(), BitcoinAt(30500.0), now).lastPrices == map["bitcoin" := 30500.0]
  {
    var s := BitcoinSetting();
    assert s.cryptos[..0] == [];
    assert PercentChange(30000.0, 30500.0) == Finite(5.0 / 3.0);
    assert NewLastPrices(s.cryptos, BitcoinAt(30500.0)) == map[]["bitcoin" := 30500.0];
  }
}
