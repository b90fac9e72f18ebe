# Crypto price alerter — a Dafny model of the price check and the page helpers

The app lets a user subscribe an email address to price alerts for a set of
coins with a percentage threshold. A scheduler calls the price-check endpoint.
The endpoint loads every alert setting and fetches one price snapshot for the
union of the tracked coins. It records an alert and mails the user whenever a
coin rose by at least the threshold since the previous check. It then stores
this round's prices as the new "last prices" of each setting.

The project has four modules:

- `Seqs` (seqs.dfy) — `Option`, repetition-freedom, subsequences, and
  JavaScript's `filter` with its lemmas.
- `Selection` (selection.dfy) — the pure helpers of the subscription page:
  - the toggle that maintains the selected coin ids;
  - the case-insensitive search filter;
  - the guards checked before settings are posted.
- `PriceRules` (price_rules.dfy) — the rules of the price check as functions:
  - the bearer-token guard;
  - the id union sent to the provider;
  - the snapshot index;
  - the percentage rule;
  - the alerts a run raises;
  - the settings a run writes back.
- `CheckPrices` (check_prices.dfy) — the endpoint itself as a class `Store`:
  - fields: the settings collection, the alert log, and the outbox of notifier calls;
  - `RunCheck`, written with the handler's loops. Each loop is proved against
    the `PriceRules` function it computes.

The price provider's answer, the mail transport's behaviour (the set of
addresses it refuses) and the clock are parameters of `RunCheck`. The id
list the handler would send to the provider is an out-parameter.

Behaviour of the handler that the model keeps as the code has it:

- A setting's `lastPrices` is replaced wholesale by this round's prices of its
  coins. A coin missing from the snapshot loses its stored price; it is not kept.
- A coin listed twice in one setting is checked twice and fires once per
  occurrence; duplicates do not collapse.
- With no settings the handler answers with a message only, not with zero counts.
- A previous price of 0 is not excluded. The quotient follows JavaScript:
  - `Infinity` (which fires) for a positive current price;
  - `-Infinity` for a negative one;
  - `NaN` (which never fires) for zero.

## Model

| member | source | states |
|---|---|---|
| Selection.ToggleSpec | pages/index.tsx:97-103 | toggling a selected id removes every occurrence of it and keeps every other id as often as it occurred and in its order; toggling an unselected id appends it at the end |
| Selection.ToggleKeepsDistinct | pages/index.tsx:97-103 | a selection without repeated ids keeps that property under a toggle |
| Selection.ToggleTwiceRestores | pages/index.tsx:99-101 | toggling an unselected id twice gives back the original selection |
| Selection.ClicksKeepDistinct | pages/index.tsx:97-103 | any series of clicks starting from a selection without repetitions (the page starts from the empty one) yields a selection without repetitions |
| Selection.IncludesIffOccurs | pages/index.tsx:106-107 | `includes` holds exactly when the term occurs at some position of the string |
| Selection.FilterCryptosSpec | pages/index.tsx:105-108 | with no data the list is empty; otherwise it is an order-preserving subsequence of the listed coins, each shown coin's lower-cased name or symbol contains the lower-cased term, and a coin is kept as often as it was listed exactly when it matches |
| Selection.EmptyTermKeepsAll | pages/index.tsx:105-108 | an empty search term shows every listed coin |
| Selection.SearchIgnoresCase | pages/index.tsx:105-108 | the shown list is the same for a term and for its lower-cased form |
| Selection.HandleSubscribe | pages/index.tsx:58-84 | a missing email is reported first, then an empty selection; settings are posted exactly when both guards pass, with the form's values; the page is marked subscribed only after a successful post, with the matching banner |
| PriceRules.UnsetSecretAdmitsLiteralHeader | pages/api/check-prices.ts:77-81 | with the secret unset, the guard as written admits the header "Bearer undefined" |
| PriceRules.AuthorizedCorrectsUnsetSecret | pages/api/check-prices.ts:77-81 | the corrected guard admits nobody while the secret is unset, and agrees with the guard as written whenever a secret is set |
| PriceRules.AddIdsSpec | pages/api/check-prices.ts:110-113 | adding ids to the set keeps it free of repetitions, and it holds exactly the previous and the added ids |
| PriceRules.UnionSpec | pages/api/check-prices.ts:109-116 | the id list sent to the provider has no repetitions and holds exactly the ids some setting tracks, so its length is the number of distinct tracked ids |
| PriceRules.IndexByIdSpec | pages/api/check-prices.ts:130-133 | the snapshot has a key for every id in the provider's answer and no other; each key maps to the last answer entry with that id |
| PriceRules.ShouldFireIffRise | pages/api/check-prices.ts:153-156 | for a positive previous price, the rule fires exactly when (cur − prev) × 100 ≥ threshold × prev |
| PriceRules.ThresholdIsInclusive | pages/api/check-prices.ts:153-156 | a change of exactly the threshold fires |
| PriceRules.DropNeverFires | pages/api/check-prices.ts:153-156 | with a non-negative previous price and a positive threshold, a fall or an unchanged price never fires |
| PriceRules.UnchangedNeverFires | pages/api/check-prices.ts:153-156 | an unchanged price never fires under a positive threshold |
| PriceRules.CoinAlertsSpec | pages/api/check-prices.ts:141-182 | an alert is raised for a list of coins exactly when one of them has a snapshot entry, has a previous price and reaches the threshold; the alert then carries the setting's id and email, the snapshot's name, symbol and price, the previous price and the change |
| PriceRules.SettingAlertsSpec | pages/api/check-prices.ts:138-183 | the alerts of one setting are exactly those its coins raise under that rule |
| PriceRules.RunAlertsSpec | pages/api/check-prices.ts:138-201 | an alert of a run is exactly an alert of one of the settings |
| PriceRules.CoinAlertsCount | pages/api/check-prices.ts:141-182 | each listed position raises at most one alert, so the number of alerts is the number of positions whose coin fires, and a duplicated coin fires once per occurrence |
| PriceRules.DuplicateCoinFiresTwice | pages/api/check-prices.ts:141 | a coin listed twice in a setting that fires raises two equal alerts |
| PriceRules.NewLastPricesSpec | pages/api/check-prices.ts:186-191 | the rebuilt price map is the snapshot's price of each listed coin the snapshot has, and nothing else |
| PriceRules.UpdatedSpec | pages/api/check-prices.ts:185-200 | after processing, a setting's prices are exactly this round's prices of its coins; stored prices of coins missing from the snapshot are gone; the check time is `now`; every other field is unchanged |
| PriceRules.FirstSightNeverFires | pages/api/check-prices.ts:146-191 | a setting with no previous price for any of its coins raises no alert, yet afterwards holds this round's price of each of its coins the snapshot has |
| PriceRules.SecondCheckQuiet | pages/api/check-prices.ts:138-200 | checking a processed setting again against the same snapshot raises no alert when its threshold is positive |
| PriceRules.SecondRunQuiet | pages/api/check-prices.ts:138-201 | a second run over the settings the first run wrote, with the same snapshot and positive thresholds, raises no alert |
| PriceRules.RiseAboveThresholdFires | pages/api/check-prices.ts:138-200 | a bitcoin rise from 30000 to 31000 under a 3 % threshold raises one alert with change 10/3 % and stores 31000 |
| PriceRules.RiseBelowThresholdOnlyRecords | pages/api/check-prices.ts:138-200 | a rise from 30000 to 30500 under a 3 % threshold raises nothing but stores 30500 |
| CheckPrices.MailsFollowLog | pages/api/check-prices.ts:168-180 | each notifier call for a batch of fired alerts is made when the log already holds the alert it announces, the calls follow the order of the log, and each mail carries that alert's address and figures |
| CheckPrices.NotifierAnswerIgnored | pages/api/check-prices.ts:36-68 | `sendAlert` reports whether the transport accepted the mail; the answer only fills the `delivered` flag, so against any two transports the same mails go out in the same order with the same log positions |
| CheckPrices.CollectIds | pages/api/check-prices.ts:109-116 | the set filled setting by setting and coin by coin is the id union, in insertion order |
| CheckPrices.IndexPrices | pages/api/check-prices.ts:130-133 | the record filled from the provider's answer is the snapshot index |
| CheckPrices.RebuildPrices | pages/api/check-prices.ts:186-191 | the map filled coin by coin is the setting's new price map |
| CheckPrices.Store.CheckCoin | pages/api/check-prices.ts:141-182 | one coin turn produces the coin's alert under the rule, appends it to the log, and then records one notifier call for it |
| CheckPrices.Store.CheckSetting | pages/api/check-prices.ts:141-183 | the coin loop raises the setting's alerts, appends them to the log in order, and records one notifier call for each, each after its alert |
| CheckPrices.Store.ProcessSettings | pages/api/check-prices.ts:138-201 | the settings loop raises the run's alerts, appends them and their notifier calls, and rewrites each setting to its updated form, leaving everything else as it was |
| CheckPrices.Store.RunCheck | pages/api/check-prices.ts:70-214 | an unauthorized caller gets 401; an empty store gets the no-settings answer; a failed fetch gets 500. None of these changes any store. Otherwise the job asks once for the id union, logs and mails exactly the run's alerts whatever the transport answers, each new notifier call announcing an alert that is already in the log, reports the number of distinct ids and of alerts with the alerts themselves, and rewrites every setting |
| CheckPrices.CheckTwice | pages/api/check-prices.ts:70-214 | two authorized runs over a non-empty store with positive thresholds and an unchanged provider answer both report counts, and the second reports no alert |

## Left out

- CheckPrices.Store.RunCheck: uses the corrected guard `Authorized`, so with the secret unset it answers 401 to the header "Bearer undefined", which the handler as written admits. The as-written guard is `PriceRules.AuthorizedAsWritten`; the two differ only in that case (see Findings).
- MongoDB is not modelled: connecting, closing, the queries and `ObjectId` conversion. The settings collection is a sequence, and each setting is rewritten at its own position, because record ids are unique.
- Store failures are not modelled. A failed store operation ends the handler with 500 and can leave some settings rewritten and others not. Only a failed price fetch is modelled as an error.
- The provider's HTTP request is not modelled: the URL, `vs_currency`, `per_page: 250` and paging. Its answer is a parameter, assumed well formed. An answer truncated by the page size is just a shorter answer.
- `sendAlert`'s mail composition and nodemailer are not modelled: the subject and HTML text, `toFixed`, `toLocaleString` and the logging. The transport is modelled as the set of addresses it refuses. The notifier's result is recorded in the outbox and, as in the handler, ignored.
- Prices and percentages are mathematical reals. IEEE double rounding and overflow are not modelled.
- A threshold that is not a finite number is not modelled.
- JavaScript object-key quirks are not modelled: inherited keys such as "constructor" on the plain objects used as maps, and stored `null` prices. A coin is present in a map exactly when it is a key.
- All `new Date()` calls of one run are the single parameter `now`.
- `toLowerCase` lower-cases ASCII letters only. Full Unicode case mapping is not modelled.
- Response bodies are modelled as their data. The message texts of the endpoint ("Checked prices for …", "Server error" with the error text) are not.
- On the subscription page, the POST's outcome is a parameter. Not modelled: `handleUnsubscribe`, the settings-loading effect, SWR fetching and rendering.
- pages/api/alert-settings.ts, pages/api/alert-history.ts, pages/dashboard.tsx, pages/test-email.tsx, pages/api/test-email.ts and next.config.ts are not part of this model: they are thin database wrappers, rendering and configuration.

## Findings

| source | as written | input that shows it | evidently intended | confidence | as-written member | corrected member |
|---|---|---|---|---|---|---|
| pages/api/check-prices.ts:79 | the expected header is built with a template literal, so an unset `CRON_SECRET` becomes the text "undefined" | secret unset, header "Bearer undefined": the request is admitted | with no secret configured, no caller is admitted | medium, not executed | PriceRules.UnsetSecretAdmitsLiteralHeader | PriceRules.AuthorizedCorrectsUnsetSecret |
