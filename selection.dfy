/**
 * The pure helpers of the subscription page: the toggle that maintains the
 * list of selected coin ids, the search filter over the listed coins, and the
 * guards checked before the settings are posted.
 */
module Selection {
  import opened Seqs

  // ---------------------------------------------------------------------------
  // Toggling a coin in the selection
  // ---------------------------------------------------------------------------

  /** The predicate `c => c !== id` that the toggle filters with. */
  function IsNot(id: string): string -> bool {
    c => c != id
  }

  /**
   * One click on a coin: if the id is already selected, every occurrence of it
   * is filtered out; otherwise it is appended at the end.
   */
  function Toggle(prev: seq<string>, id: string): seq<string> {
    if id in prev then Filter(prev, IsNot(id)) else prev + [id]
  }

  /**
   * Toggling a selected id removes all of its occurrences and keeps every other
   * element, as often as it occurred and in its order; toggling an id that is
   * not selected appends it.
   */
  lemma ToggleSpec(prev: seq<string>, id: string)
    ensures id in prev ==>
      && id !in Toggle(prev, id)
      && IsSubseq(Toggle(prev, id), prev)
      && forall y :: y != id ==> multiset(Toggle(prev, id))[y] == multiset(prev)[y]
    ensures id !in prev ==> Toggle(prev, id) == prev + [id]
  {
    if id in prev {
      FilterSound(prev, IsNot(id));
      FilterIsSubseq(prev, IsNot(id));
      forall y | y != id ensures multiset(Toggle(prev, id))[y] == multiset(prev)[y] {
        FilterCounts(prev, IsNot(id), y);
      }
    }
  }

  /** A selection without repeated ids stays without repeated ids. */
  lemma ToggleKeepsDistinct(prev: seq<string>, id: string)
    requires Distinct(prev)
    ensures Distinct(Toggle(prev, id))
  {
    if id in prev {
      FilterDistinct(prev, IsNot(id));
    } else {
      var r := prev + [id];
      forall i, j | 0 <= i < j < |r| ensures r[i] != r[j] {
        if j == |prev| {
          assert r[i] == prev[i];
        } else {
          assert r[i] == prev[i] && r[j] == prev[j];
        }
      }
    }
  }

  /** Clicking an unselected coin twice gives back the original selection. */
  lemma ToggleTwiceRestores(prev: seq<string>, id: string)
    requires id !in prev
    ensures Toggle(Toggle(prev, id), id) == prev
  {
    assert id in prev + [id];
    FilterAppend(prev, [id], IsNot(id));
    FilterKeepsAll(prev, IsNot(id));
    assert Filter([id], IsNot(id)) == [];
  }

  /** The selection after a series of clicks, starting from `sel`. */
  function Clicks(sel: seq<string>, ids: seq<string>): seq<string>
    decreases |ids|
  {
    if ids == [] then sel else Clicks(Toggle(sel, ids[0]), ids[1..])
  }

  /**
   * A selection built by clicks from a selection without repetitions (the empty
   * one on a fresh page) never holds an id twice, so neither do the settings
   * posted from it.
   */
  lemma {:induction false} ClicksKeepDistinct(sel: seq<string>, ids: seq<string>)
    requires Distinct(sel)
    ensures Distinct(Clicks(sel, ids))
    decreases |ids|
  {
    if ids != [] {
      ToggleKeepsDistinct(sel, ids[0]);
      ClicksKeepDistinct(Toggle(sel, ids[0]), ids[1..]);
    }
  }

  // ---------------------------------------------------------------------------
  // Searching the coin list
  // ---------------------------------------------------------------------------

  /** A listed coin, as far as the search looks at it. */
  datatype Cryptocurrency = Cryptocurrency(id: string, name: string, symbol: string)

  /** `toLowerCase` on one character, for the ASCII letters. */
  function LowerChar(c: char): char {
    if 'A' <= c <= 'Z' then (c as int + 32) as char else c
  }

  /** `toLowerCase` on a string. */
  function Lower(s: string): string {
    seq(|s|, i requires 0 <= i < |s| => LowerChar(s[i]))
  }

  /** Lower-casing twice is lower-casing once. */
  lemma LowerIdempotent(s: string)
    ensures Lower(Lower(s)) == Lower(s)
  {
  }

  /** `needle` occurs in `hay` starting at position `i`. */
  predicate OccursAt(hay: string, needle: string, i: int) {
    0 <= i && i + |needle| <= |hay| && hay[i..i + |needle|] == needle
  }

  /** `needle` is a prefix of `hay`. */
  predicate StartsWith(hay: string, needle: string) {
    |needle| <= |hay| && hay[..|needle|] == needle
  }

  /** `String.prototype.includes`: try each start position from the left. */
  function Includes(hay: string, needle: string): bool
    decreases |hay|
  {
    if StartsWith(hay, needle) then true
    else if hay == [] then false
    else Includes(hay[1..], needle)
  }

  /** `Includes` holds exactly when the needle occurs somewhere in the haystack. */
  lemma {:induction false} IncludesIffOccurs(hay: string, needle: string)
    ensures Includes(hay, needle) <==> exists i :: OccursAt(hay, needle, i)
    decreases |hay|
  {
    if StartsWith(hay, needle) {
      assert OccursAt(hay, needle, 0);
    } else if hay == [] {
      assert |needle| > 0;
    } else {
      IncludesIffOccurs(hay[1..], needle);
      if exists i :: OccursAt(hay[1..], needle, i) {
        var i :| OccursAt(hay[1..], needle, i);
        assert hay[1..][i..i + |needle|] == hay[i + 1..i + 1 + |needle|];
        assert OccursAt(hay, needle, i + 1);
      }
      if exists i :: OccursAt(hay, needle, i) {
        var i :| OccursAt(hay, needle, i);
        assert i != 0;
        assert hay[1..][i - 1..i - 1 + |needle|] == hay[i..i + |needle|];
        assert OccursAt(hay[1..], needle, i - 1);
      }
    }
  }

  /** The search condition: the lower-cased name or symbol contains the lower-cased term. */
  predicate Matches(c: Cryptocurrency, term: string) {
    Includes(Lower(c.name), Lower(term)) || Includes(Lower(c.symbol), Lower(term))
  }

  /** `Matches` as the predicate passed to `filter`. */
  function MatchesTerm(term: string): Cryptocurrency -> bool {
    c => Matches(c, term)
  }

  /**
   * The coins shown for a search term. `data` is the fetched list, `None`
   * while it is loading or when fetching failed.
   */
  function FilterCryptos(data: Option<seq<Cryptocurrency>>, term: string): seq<Cryptocurrency> {
    match data
    case None => []
    case Some(xs) => Filter(xs, MatchesTerm(term))
  }

  /**
   * Without data the list is empty. Otherwise it is the subsequence of the
   * listed coins whose lower-cased name or symbol contains the lower-cased
   * term, each kept as often as it was listed.
   */
  lemma FilterCryptosSpec(data: Option<seq<Cryptocurrency>>, term: string)
    ensures data.None? ==> FilterCryptos(data, term) == []
    ensures data.Some? ==>
      && IsSubseq(FilterCryptos(data, term), data.value)
      && (forall c :: c in FilterCryptos(data, term) ==>
            (exists i :: OccursAt(Lower(c.name), Lower(term), i)) ||
            (exists i :: OccursAt(Lower(c.symbol), Lower(term), i)))
      && forall c :: multiset(FilterCryptos(data, term))[c] ==
                       if Matches(c, term) then multiset(data.value)[c] else 0
  {
    if data.Some? {
      var xs := data.value;
      FilterIsSubseq(xs, MatchesTerm(term));
      FilterSound(xs, MatchesTerm(term));
      forall c | c in FilterCryptos(data, term)
        ensures (exists i :: OccursAt(Lower(c.name), Lower(term), i)) ||
                (exists i :: OccursAt(Lower(c.symbol), Lower(term), i))
      {
        IncludesIffOccurs(Lower(c.name), Lower(term));
        IncludesIffOccurs(Lower(c.symbol), Lower(term));
      }
      forall c ensures multiset(FilterCryptos(data, term))[c] ==
                       if Matches(c, term) then multiset(xs)[c] else 0
      {
        FilterCounts(xs, MatchesTerm(term), c);
      }
    }
  }

  /** An empty search term shows every listed coin. */
  lemma EmptyTermKeepsAll(xs: seq<Cryptocurrency>)
    ensures FilterCryptos(Some(xs), "") == xs
  {
    forall k | 0 <= k < |xs| ensures MatchesTerm("")(xs[k]) {
      assert StartsWith(Lower(xs[k].name), Lower(""));
    }
    FilterKeepsAll(xs, MatchesTerm(""));
  }

  /** The search ignores the case of the term. */
  lemma SearchIgnoresCase(data: Option<seq<Cryptocurrency>>, term: string)
    ensures FilterCryptos(data, term) == FilterCryptos(data, Lower(term))
  {
    if data.Some? {
      LowerIdempotent(term);
      FilterAgree(data.value, MatchesTerm(term), MatchesTerm(Lower(term)));
    }
  }

  // ---------------------------------------------------------------------------
  // Subscribing
  // ---------------------------------------------------------------------------

  datatype MessageKind = Error | Success

  /** The banner the page shows. */
  datatype Message = Message(text: string, kind: MessageKind)

  /** The settings the page posts to the settings endpoint. */
  datatype AlertSettings = AlertSettings(email: string, threshold: real, interval: int, cryptos: seq<string>)

  /**
   * What one press of the subscribe button does: the settings it posts (if
   * any), whether it marks the page as subscribed, and the banner it shows.
   */
  datatype SubscribeOutcome = SubscribeOutcome(posted: Option<AlertSettings>, marksSubscribed: bool, message: Message)

  const EmailMissing := Message("Please enter your email address", Error)
  const NothingSelected := Message("Please select at least one cryptocurrency", Error)
  const SettingsSaved := Message("Alert settings saved successfully! You will receive email notifications when prices change by your threshold.", Success)
  const SaveFailed := Message("Failed to save alert settings. Please try again.", Error)

  /**
   * The subscribe handler. `postSucceeds` stands for the outcome of the POST
   * request, which the page does not control.
   */
  function HandleSubscribe(email: string, threshold: real, interval: int, selected: seq<string>, postSucceeds: bool): (r: SubscribeOutcome)
    // Guards in order: a missing email is reported even when nothing is selected.
    ensures email == "" ==> r == SubscribeOutcome(None, false, EmailMissing)
    ensures email != "" && selected == [] ==> r == SubscribeOutcome(None, false, NothingSelected)
    // Settings are posted exactly when both guards pass, and then hold the form's values.
    ensures r.posted.Some? <==> email != "" && selected != []
    ensures r.posted.Some? ==>
      && r.posted.value == AlertSettings(email, threshold, interval, selected)
      && r.marksSubscribed == postSucceeds
      && r.message == (if postSucceeds then SettingsSaved else SaveFailed)
    // The page is marked subscribed only after a successful post of non-empty settings.
    ensures r.marksSubscribed ==> r.posted.Some? && r.posted.value.email != "" && |r.posted.value.cryptos| > 0
  {
    if email == "" then SubscribeOutcome(None, false, EmailMissing)
    else if |selected| == 0 then SubscribeOutcome(None, false, NothingSelected)
    else
      var settings := AlertSettings(email, threshold, interval, selected);
      if postSucceeds then SubscribeOutcome(Some(settings), true, SettingsSaved)
      else SubscribeOutcome(Some(settings), false, SaveFailed)
  }
}
