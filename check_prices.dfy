/**
 * The price-check job over its stores: the settings collection, the alert
 * log and the mail transport's outbox. One call of `RunCheck` is one
 * invocation of the job's endpoint.
 */
module CheckPrices {
  import opened Seqs
  import opened PriceRules

  /** What the endpoint answers. */
  datatype Response =
    | Unauthorized                                                   // 401
    | NoSettings                                                     // 200, "No alert settings found"
    | Checked(assetsChecked: nat, alertsSent: nat, alerts: seq<Alert>) // 200
    | ServerError                                                    // 500

  function Status(r: Response): int {
    match r
    case Unauthorized => 401
    case NoSettings => 200
    case Checked(_, _, _) => 200
    case ServerError => 500
  }

  /** The arguments of one `sendAlert` call. */
  datatype Mail = Mail(to: string, crypto: string, symbol: string, previousPrice: real, currentPrice: real, percentageChange: Percent)

  /** The mail announcing an alert. */
  function MailFor(a: Alert): Mail {
    Mail(a.email, a.crypto, a.symbol, a.previousPrice, a.currentPrice, a.percentageChange)
  }

  /**
   * The notifier: sends the mail and reports whether the transport accepted
   * it. The transport's behaviour is a parameter: it refuses mail to the
   * addresses in `rejected`.
   */
  function SendAlert(m: Mail, rejected: set<string>): bool {
    m.to !in rejected
  }

  /**
   * One notifier call: the mail, whether the transport accepted it, and how
   * many records the alert log held when the call was made.
   */
  datatype Delivery = Delivery(mail: Mail, delivered: bool, alertsLogged: nat)

  /**
   * The notifier calls for `fired`, made right after each alert was appended
   * to a log that held `logged` records before the first of them.
   */
  function Deliveries(fired: seq<Alert>, rejected: set<string>, logged: nat): seq<Delivery> {
    seq(|fired|, k requires 0 <= k < |fired| =>
      Delivery(MailFor(fired[k]), SendAlert(MailFor(fired[k]), rejected), logged + k + 1))
  }

  /**
   * The notifier calls for `fired`, appended after the log `log`: each call is
   * made when the log already holds the alert it announces, the calls come in
   * the order of the log, and each mail goes to the address of the alert it
   * announces.
   */
  lemma MailsFollowLog(log: seq<Alert>, fired: seq<Alert>, rejected: set<string>)
    ensures |Deliveries(fired, rejected, |log|)| == |fired|
    ensures forall k :: 0 <= k < |fired| ==>
      var d := Deliveries(fired, rejected, |log|)[k];
      && |log| < d.alertsLogged <= |log + fired|
      && d.mail == MailFor((log + fired)[d.alertsLogged - 1])
      && d.mail.to == (log + fired)[d.alertsLogged - 1].email
    ensures forall k, m :: 0 <= k < m < |fired| ==>
      Deliveries(fired, rejected, |log|)[k].alertsLogged < Deliveries(fired, rejected, |log|)[m].alertsLogged
  {
    forall k | 0 <= k < |fired|
      ensures (log + fired)[|log| + k] == fired[k]
    {
    }
  }

  /**
   * The notifier's answer only fills the `delivered` flag: against any two
   * transports, the same mails are sent in the same order with the same log
   * positions, and each flag says whether that transport accepted the mail.
   */
  lemma NotifierAnswerIgnored(fired: seq<Alert>, r1: set<string>, r2: set<string>, logged: nat)
    ensures |Deliveries(fired, r1, logged)| == |Deliveries(fired, r2, logged)|
    ensures forall k :: 0 <= k < |fired| ==>
      && Deliveries(fired, r1, logged)[k].(delivered := true) == Deliveries(fired, r2, logged)[k].(delivered := true)
      && (Deliveries(fired, r1, logged)[k].delivered <==> fired[k].email !in r1)
  {
  }

  /** Concatenated alerts are mailed as the two groups one after the other. */
  lemma DeliveriesAppend(fired: seq<Alert>, more: seq<Alert>, rejected: set<string>, logged: nat)
    ensures Deliveries(fired + more, rejected, logged) ==
            Deliveries(fired, rejected, logged) + Deliveries(more, rejected, logged + |fired|)
  {
    var whole, left, right := Deliveries(fired + more, rejected, logged),
      Deliveries(fired, rejected, logged), Deliveries(more, rejected, logged + |fired|);
    forall k | 0 <= k < |whole| ensures whole[k] == (left + right)[k] {
      if k < |fired| {
        assert (fired + more)[k] == fired[k];
      } else {
        assert (fired + more)[k] == more[k - |fired|];
      }
    }
  }

  /**
   * Appending a further batch of alerts to the log and its notifier calls to
   * the outbox is the same as appending the two batches at once.
   */
  lemma JournalStep(fired: seq<Alert>, more: seq<Alert>, rejected: set<string>, log: seq<Alert>, box: seq<Delivery>)
    ensures log + fired + more == log + (fired + more)
    ensures box + Deliveries(fired, rejected, |log|) + Deliveries(more, rejected, |log + fired|) ==
            box + Deliveries(fired + more, rejected, |log|)
  {
    DeliveriesAppend(fired, more, rejected, |log|);
  }

  /** The settings part of the invariant of the settings loop carried over one more setting. */
  lemma WriteBackStep(all: seq<Setting>, current: seq<Setting>, i: nat, snap: Snapshot, now: Time, written: Setting)
    requires i < |all| == |current|
    requires forall m :: 0 <= m < i ==> current[m] == Updated(all[m], snap, now)
    requires forall m :: i <= m < |all| ==> current[m] == all[m]
    requires written == all[i].(lastChecked := Some(now), lastPrices := NewLastPrices(all[i].cryptos, snap))
    ensures |current[i := written]| == |all|
    ensures forall m :: 0 <= m < i + 1 ==> current[i := written][m] == Updated(all[m], snap, now)
    ensures forall m :: i + 1 <= m < |all| ==> current[i := written][m] == all[m]
  {
  }

  /** Fills the set of tracked ids setting by setting, coin by coin. */
  method CollectIds(all: seq<Setting>) returns (unique: seq<string>)
    ensures unique == UnionOf(all)
  {
    unique := [];
    var i := 0;
    while i < |all|
      invariant 0 <= i <= |all|
      invariant unique == UnionOf(all[..i])
    {
      var cs := all[i].cryptos;
      var j := 0;
      while j < |cs|
        invariant 0 <= j <= |cs|
        invariant unique == AddIds(UnionOf(all[..i]), cs[..j])
      {
        if cs[j] !in unique {
          unique := unique + [cs[j]];
        }
        assert cs[..j + 1][..j] == cs[..j];
        j := j + 1;
      }
      assert cs[..j] == cs;
      assert all[..i + 1][..i] == all[..i];
      i := i + 1;
    }
    assert all[..i] == all;
  }

  /** Indexes the provider's answer by id, a later entry replacing an earlier one. */
  method IndexPrices(data: seq<PriceData>) returns (snap: Snapshot)
    ensures snap == IndexById(data)
  {
    snap := map[];
    var k := 0;
    while k < |data|
      invariant 0 <= k <= |data|
      invariant snap == IndexById(data[..k])
    {
      snap := snap[data[k].id := data[k]];
      assert data[..k + 1][..k] == data[..k];
      k := k + 1;
    }
    assert data[..k] == data;
  }

  /** Builds a setting's new price map from this round's prices of its coins. */
  method RebuildPrices(cryptos: seq<string>, snap: Snapshot) returns (newLastPrices: map<string, real>)
    ensures newLastPrices == NewLastPrices(cryptos, snap)
  {
    newLastPrices := map[];
    var j := 0;
    while j < |cryptos|
      invariant 0 <= j <= |cryptos|
      invariant newLastPrices == NewLastPrices(cryptos[..j], snap)
    {
      var c := cryptos[j];
      if c in snap {
        newLastPrices := newLastPrices[c := snap[c].currentPrice];
      }
      assert cryptos[..j + 1][..j] == cryptos[..j];
      j := j + 1;
    }
    assert cryptos[..j] == cryptos;
  }

  class Store {
    /** The settings collection. */
    var settings: seq<Setting>
    /** The alert log, append-only. */
    var alerts: seq<Alert>
    /** The mail transport's record of notifier calls. */
    var outbox: seq<Delivery>

    constructor (initial: seq<Setting>)
      ensures settings == initial && alerts == [] && outbox == []
    {
      settings := initial;
      alerts := [];
      outbox := [];
    }

    /**
     * One turn of the coin loop: skip a coin the snapshot lacks or that has no
     * previous price; otherwise, when the change reaches the threshold, append
     * the alert to the log and then hand it to the notifier, whose answer is
     * recorded and otherwise ignored.
     */
    method CheckCoin(s: Setting, c: string, snap: Snapshot, rejected: set<string>, now: Time) returns (found: Option<Alert>)
      modifies this`alerts, this`outbox
      ensures found == AlertFor(s, c, snap, now)
      ensures alerts == old(alerts) + AsSeq(found)
      ensures outbox == old(outbox) + Deliveries(AsSeq(found), rejected, |old(alerts)|)
    {
      found := None;
      if c !in snap {
        return;
      }
      if c !in s.lastPrices {
        return;
      }
      var prev := s.lastPrices[c];
      var cur := snap[c].currentPrice;
      var pct := PercentChange(prev, cur);
      if AtLeast(pct, s.threshold) {
        var a := Alert(s.id, s.email, snap[c].name, snap[c].symbol, prev, cur, pct, now);
        alerts := alerts + [a];
        found := Some(a);
        var ok := SendAlert(MailFor(a), rejected);
        outbox := outbox + [Delivery(MailFor(a), ok, |alerts|)];
        assert [a][..0] == [];
      }
    }

    /** The coin loop of one setting. */
    method CheckSetting(s: Setting, snap: Snapshot, rejected: set<string>, now: Time) returns (raised: seq<Alert>)
      modifies this`alerts, this`outbox
      ensures raised == SettingAlerts(s, snap, now)
      ensures alerts == old(alerts) + raised
      ensures outbox == old(outbox) + Deliveries(raised, rejected, |old(alerts)|)
    {
      raised := [];
      var j := 0;
      while j < |s.cryptos|
        invariant 0 <= j <= |s.cryptos|
        invariant raised == CoinAlerts(s, s.cryptos[..j], snap, now)
        invariant alerts == old(alerts) + raised
        invariant outbox == old(outbox) + Deliveries(raised, rejected, |old(alerts)|)
      {
        var found := CheckCoin(s, s.cryptos[j], snap, rejected, now);
        CoinAlertsStep(s, s.cryptos, j, snap, now);
        JournalStep(raised, AsSeq(found), rejected, old(alerts), old(outbox));
        raised := raised + AsSeq(found);
        j := j + 1;
      }
      assert s.cryptos[..j] == s.cryptos;
    }

    /**
     * The loop over all settings: check each one's coins, then write back its
     * new prices and check time.
     */
    method ProcessSettings(snap: Snapshot, rejected: set<string>, now: Time) returns (fired: seq<Alert>)
      modifies this
      ensures fired == RunAlerts(old(settings), snap, now)
      ensures alerts == old(alerts) + fired
      ensures outbox == old(outbox) + Deliveries(fired, rejected, |old(alerts)|)
      ensures |settings| == |old(settings)|
      ensures forall k :: 0 <= k < |settings| ==> settings[k] == Updated(old(settings)[k], snap, now)
    {
      var all := settings;
      fired := [];
      var i := 0;
      while i < |all|
        invariant 0 <= i <= |all|
        invariant fired == RunAlerts(all[..i], snap, now)
        invariant alerts == old(alerts) + fired
        invariant outbox == old(outbox) + Deliveries(fired, rejected, |old(alerts)|)
        invariant |settings| == |all|
        invariant forall m :: 0 <= m < i ==> settings[m] == Updated(all[m], snap, now)
        invariant forall m :: i <= m < |all| ==> settings[m] == all[m]
      {
        var s := all[i];
        var raised := CheckSetting(s, snap, rejected, now);
        RunAlertsStep(all, i, snap, now);
        JournalStep(fired, raised, rejected, old(alerts), old(outbox));
        fired := fired + raised;
        var newLastPrices := RebuildPrices(s.cryptos, snap);
        var written := s.(lastChecked := Some(now), lastPrices := newLastPrices);
        WriteBackStep(all, settings, i, snap, now, written);
        settings := settings[i := written];
        i := i + 1;
      }
      assert all[..i] == all;
    }

    /**
     * One invocation of the job. `header` is the Authorization header,
     * `secret` the configured CRON_SECRET, `fetched` the provider's answer
     * (`None` when the request fails), `rejected` the addresses the mail
     * transport refuses, and `now` the clock. `requested` is the id list the job
     * sends to the provider, `None` when it returns before asking.
     */
    method RunCheck(header: Option<string>, secret: Option<string>, fetched: Option<seq<PriceData>>,
                    rejected: set<string>, now: Time)
      returns (response: Response, requested: Option<seq<string>>)
      modifies this
      // A caller without the secret gets 401 and changes nothing.
      ensures !Authorized(header, secret) ==>
        response == Unauthorized && requested == None && unchanged(this)
      // With no settings the job answers before asking the provider and changes nothing.
      ensures Authorized(header, secret) && old(settings) == [] ==>
        response == NoSettings && requested == None && unchanged(this)
      // Otherwise it asks once, for the tracked ids without repetitions.
      ensures Authorized(header, secret) && old(settings) != [] ==>
        requested == Some(UnionOf(old(settings)))
      // A failed fetch aborts before any store is touched.
      ensures Authorized(header, secret) && old(settings) != [] && fetched == None ==>
        response == ServerError && unchanged(this)
      ensures Authorized(header, secret) && old(settings) != [] && fetched.Some? ==>
        var snap := IndexById(fetched.value);
        var fired := RunAlerts(old(settings), snap, now);
        && response == Checked(|UnionOf(old(settings))|, |fired|, fired)
        && alerts == old(alerts) + fired
        && outbox == old(outbox) + Deliveries(fired, rejected, |old(alerts)|)
        && |settings| == |old(settings)|
        && forall k :: 0 <= k < |settings| ==> settings[k] == Updated(old(settings)[k], snap, now)
      // Each new notifier call announces an alert that is already in the log.
      ensures forall k :: |old(outbox)| <= k < |outbox| ==>
        |old(alerts)| < outbox[k].alertsLogged <= |alerts| && outbox[k].mail == MailFor(alerts[outbox[k].alertsLogged - 1])
    {
      if !Authorized(header, secret) {
        return Unauthorized, None;
      }
      var all := settings;
      if |all| == 0 {
        return NoSettings, None;
      }
      var unique := CollectIds(all);
      requested := Some(unique);
      if fetched.None? {
        return ServerError, requested;
      }
      var snap := IndexPrices(fetched.value);
      ghost var log, box := old(alerts), old(outbox);
      var fired := ProcessSettings(snap, rejected, now);
      MailsFollowLog(log, fired, rejected);
      assert forall k :: |box| <= k < |outbox| ==> outbox[k] == Deliveries(fired, rejected, |log|)[k - |box|];
      response := Checked(|unique|, |fired|, fired);
    }
  }

  /**
   * Two invocations with the same provider answer over a store whose settings
   * all have positive thresholds: the second one raises no alert.
   */
  method CheckTwice(initial: seq<Setting>, header: Option<string>, secret: Option<string>,
                    data: seq<PriceData>, rejected: set<string>, now: Time, later: Time)
    returns (first: Response, second: Response)
    requires forall k :: 0 <= k < |initial| ==> initial[k].threshold > 0.0
    ensures Authorized(header, secret) && initial != [] ==> first.Checked? && second.Checked?
    ensures second.Checked? ==> second.alertsSent == 0 && second.alerts == []
  {
    var store := new Store(initial);
    var asked;
    first, asked := store.RunCheck(header, secret, Some(data), rejected, now);
    ghost var afterFirst := store.settings;
    second, asked := store.RunCheck(header, secret, Some(data), rejected, later);
    if second.Checked? {
      SecondRunQuiet(initial, afterFirst, IndexById(data), now, later);
    }
  }
}
