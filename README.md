# reddit self-serve promotion core, modelled in Dafny

This project models four parts of reddit's self-serve advertising and
moderation code and proves properties of the model.

- **The Adzerk reconciliation** (`r2/r2/lib/adzerk_selfserve.py`). The
  `Adzerk` client keeps a snapshot of the remote Adzerk records: campaigns
  (one per promoted link), creatives (one per link and promo campaign pair,
  titled `link-campaign`), flights (one per promo campaign) and
  creative-flight maps. It upserts a (link, promo campaign) pair into all
  four, and `mirror` upserts a list of pairs and then deactivates every
  active map whose pair was not given.
- **Inventory arithmetic** (`r2/r2/lib/inventory.py`): date ranges,
  predicted pageviews, pageviews sold by paid campaigns, availability, its
  JSON form and the oversold days.
- **The moderation log** (`r2/r2/models/modaction.py`): validated creation
  of mod actions, the base-36 id properties, the view row keys, the extra
  text, title truncation and the per-day history aggregation.
- **The sponsored-campaign table** (`r2/r2/public/static/js/sponsored.js`):
  the CSS flag class of a campaign row, the buttons `set_up_campaigns` adds,
  `pretty_number` and the campaign-count limit.

## How the model is built

**Adzerk.** The remote service is an abstract store. Each entity kind is a
map from id to record, and creating a record takes the next unused id. The
client object is the class `Adzerk.Adzerk`. Its Python attributes are
grouped by entity kind:

- `campaigns` holds `self.campaigns` (`list`), the store, and
  `campaigns_by_name` (`byName`).
- `creatives` holds `self.creatives` and `creatives_by_title`.
- `flights` holds `self.flights`, `flights_by_name` and
  `flights_by_campaign`.
- `cfmaps` holds `self.cfmaps`, `cfmaps_by_flight` and `cfmap_lookup`.

Each method is proved to leave these fields as a function on snapshot
values prescribes. The properties are lemmas about those functions, in the
modules below.

- `AdzerkSnapshot`: the four upserts.
- `AdzerkLoad`: `load`.
- `AdzerkUpdate`: `update_adzerk` and `mirror`.

The predicate `SnapshotOk` ties every list and index to the store: every
index entry leads to an entity with that key, and every stored entity's key
is indexed. It does not rule out two stored entities with one key. The
predicate `KeysUnique` does: no two campaigns or flights share a name, no two
creatives a title, and no two maps a (flight id, creative id). The upserts,
`update_adzerk`, the deactivation scan and both forms of `mirror` never add a
second entity for a key, so they keep `KeysUnique`. `load` keeps every record
the service lists, so it keeps duplicate keys when the listing has them, and
the index then leads to the last one listed. `LoadedKeysUnique` states
exactly when the loaded snapshot has unique keys.

**Inventory.** Dates are day numbers. The rows of the database queries and
the promo campaigns found are inputs. The loops of `get_predicted_by_date`,
`_min_daily_pageviews_by_sr`, `get_sold_pageviews` and `get_oversold` are
methods proved against specification functions.

**Moderation log.** Records are values. The Cassandra query results of
`get_day` (one day's columns) and `_query_all_srs` (the fetched actions) are
inputs. `get_report`'s history is a map from day to that day's columns.

**Sponsored table.** A campaign row is its class attribute and its cells,
each cell a set of classes and a sequence of elements. `set_up_campaigns`
is a function on one row plus a method that applies it to every row of an
array.

## Model

| member | source | states |
|---|---|---|
| AdzerkRecords.SrnameToKeyword | r2/r2/lib/adzerk_selfserve.py:96-97 | a missing or empty subreddit name targets `reddit.com`; any other name is its own keyword; the keyword is never empty |
| AdzerkRecords.DateToAdzerkShape | r2/r2/lib/adzerk_selfserve.py:92-93 | the Adzerk date text is ten characters, `MM/DD/YYYY`, with slashes after the month and the day |
| AdzerkRecords.DateToAdzerk | r2/r2/lib/adzerk_selfserve.py:92-93 | `strftime('%m/%d/%Y')` of a date; its shape is in `DateToAdzerkShape` and its round trip in `Dates.ParseFormat` |
| AdzerkRecords.CreativeTitle | r2/r2/lib/adzerk_selfserve.py:190 | `'-'.join([link._fullname, campaign._fullname])`; `Strings.JoinSplit` and `Strings.JoinInjective` state what it keeps |
| Dates.ParseFormat | r2/r2/lib/adzerk_selfserve.py:92-93 | reading a formatted `%m/%d/%Y` date back gives the date |
| Dates.FormatInjective | r2/r2/lib/adzerk_selfserve.py:92-93 | two dates with the same `%m/%d/%Y` text are the same date |
| AdzerkRecords.LinkFullname | r2/r2/lib/adzerk_selfserve.py:221 | the fullname of a promo campaign's link never contains `-` |
| Strings.JoinSplit | r2/r2/lib/adzerk_selfserve.py:334 | a creative title joined from two dash-free fullnames splits on `-` into exactly those two parts |
| Strings.JoinSplitAmbiguous | r2/r2/lib/adzerk_selfserve.py:334 | when either fullname contains `-`, the title splits into more than two parts, so the two-way unpacking fails |
| Strings.JoinUnpack | r2/r2/lib/adzerk_selfserve.py:334 | the two-way unpacking of a joined dash-free title gives back the pair |
| Strings.JoinInjective | r2/r2/lib/adzerk_selfserve.py:190 | two titles with dash-free first parts are equal only for equal pairs |
| AdzerkSnapshot.EmptyKeysUnique | r2/r2/lib/adzerk_selfserve.py:113-126 | the empty snapshot of a new client has no two entities of one key |
| Adzerk.Adzerk.constructor | r2/r2/lib/adzerk_selfserve.py:113-126 | a new client has every list, store, grouping and index empty and is not loaded |
| Adzerk.Adzerk.Load | r2/r2/lib/adzerk_selfserve.py:128-159 | on a fresh client, `load` leaves the fields as `Loaded` of what the service lists |
| Adzerk.LoadSnapshot | r2/r2/lib/adzerk_selfserve.py:135-159 | the loops of `load` compute the snapshot `Loaded` describes |
| Adzerk.ExtendListed | r2/r2/lib/adzerk_selfserve.py:135-142 | extending a list by each parent's listing gives the concatenation of the listings, in the parents' order |
| Adzerk.GroupBy | r2/r2/lib/adzerk_selfserve.py:144-148 | appending each entry to its key's group gives the grouping of the entries by key, in order |
| Adzerk.IndexBy | r2/r2/lib/adzerk_selfserve.py:150-159 | assigning each entry under its key gives the index in which the last entry of a key wins |
| AdzerkLoad.Loaded | r2/r2/lib/adzerk_selfserve.py:128-159 | the snapshot `load` builds from the listings; `LoadedOk`, `LoadedStores`, `LoadedNames` and `LoadedGroups` state its properties |
| AdzerkLoad.LoadedOk | r2/r2/lib/adzerk_selfserve.py:128-159 | when the service lists no id twice, the loaded lists, indexes and groups agree with the stores |
| AdzerkLoad.LoadedKeysUnique | r2/r2/lib/adzerk_selfserve.py:128-159 | when the service lists no id twice, the loaded snapshot has no two entities of one key exactly when the listing repeats no name, title or (flight id, creative id); otherwise every duplicate stays stored |
| AdzerkLoad.LoadedStores | r2/r2/lib/adzerk_selfserve.py:135-142 | the client holds exactly the listed records, each under its id, and the lists are the listed ids |
| AdzerkLoad.LoadedNames | r2/r2/lib/adzerk_selfserve.py:150-151 | `campaigns_by_name` holds exactly the listed names, each leading to the last listed campaign of that name |
| AdzerkLoad.LoadedGroups | r2/r2/lib/adzerk_selfserve.py:144-145 | `flights_by_campaign` has a group for a campaign exactly when a listed flight belongs to it; the group holds exactly those flights' ids, in list order |
| Indexes.LastWinsSpec | r2/r2/lib/adzerk_selfserve.py:150-154 | a dict comprehension or assignment loop holds exactly the keys given, each with the value of its last entry |
| Indexes.GroupedSpec | r2/r2/lib/adzerk_selfserve.py:144-148 | a `defaultdict(list)` filled by appends has a group exactly for the keys given, holding the key's ids in order |
| Indexes.SelectMembers | r2/r2/lib/adzerk_selfserve.py:145 | an id is in a key's group exactly when some entry pairs the key with it |
| Indexes.StoreKeysUnique | r2/r2/lib/adzerk_selfserve.py:134-141 | the dict built from a list with distinct ids holds two records of one key exactly when the list does |
| Indexes.KeyIndexAgrees | r2/r2/lib/adzerk_selfserve.py:150-159 | every index entry leads to a stored record with that key, and every stored record's key is indexed |
| Adzerk.Adzerk.LinkToCampaign | r2/r2/lib/adzerk_selfserve.py:161-186 | the campaign fields become `CampaignUpsert` of the old ones; the id returned is the campaign's |
| AdzerkSnapshot.CampaignUpsert | r2/r2/lib/adzerk_selfserve.py:161-186 | the campaign state and id the upsert leaves; `CampaignUpsertOk`, `CampaignUpsertSpec`, `CampaignUpsertNames`, `CampaignUpsertIdempotent`, `CampaignUpsertHit` and `CampaignUpsertGrows` state its properties |
| AdzerkSnapshot.CampaignUpsertOk | r2/r2/lib/adzerk_selfserve.py:161-186 | `link_to_campaign` keeps the campaign list and name index in agreement with the store |
| AdzerkSnapshot.CampaignUpsertUnique | r2/r2/lib/adzerk_selfserve.py:161-186 | `link_to_campaign` never adds a second campaign of a name: no two stored campaigns share a name afterwards if none did before |
| AdzerkSnapshot.CampaignUpsertSpec | r2/r2/lib/adzerk_selfserve.py:163-185 | afterwards the name leads to the returned campaign, named by the link and live (IsActive, not IsDeleted, Price 0, the fixed advertiser); a campaign is appended exactly when no campaign had the name; no other campaign changes |
| AdzerkSnapshot.CampaignUpsertNames | r2/r2/lib/adzerk_selfserve.py:185 | the name index gains the link's fullname and no other name |
| AdzerkSnapshot.CampaignUpsertIdempotent | r2/r2/lib/adzerk_selfserve.py:161-186 | a second call for the same link, at any time, creates nothing and changes nothing |
| AdzerkSnapshot.CampaignUpsertHit | r2/r2/lib/adzerk_selfserve.py:171-175 | an indexed campaign that is already live is left as it is |
| AdzerkSnapshot.CampaignUpsertGrows | r2/r2/lib/adzerk_selfserve.py:161-186 | no campaign is removed |
| Adzerk.Adzerk.LinkToCreative | r2/r2/lib/adzerk_selfserve.py:188-217 | the creative fields become `CreativeUpsert` of the old ones with the pair's creative |
| AdzerkSnapshot.CreativeUpsert | r2/r2/lib/adzerk_selfserve.py:188-217 | the creative state and id the upsert leaves; `CreativeUpsertOk`, `CreativeUpsertSpec`, `CreativeUpsertIdempotent`, `CreativeUpsertHit` and `CreativeUpsertGrows` state its properties |
| AdzerkSnapshot.CreativeUpsertOk | r2/r2/lib/adzerk_selfserve.py:188-217 | `link_to_creative` keeps the creative list and title index in agreement with the store |
| AdzerkSnapshot.CreativeUpsertUnique | r2/r2/lib/adzerk_selfserve.py:188-217 | `link_to_creative` never adds a second creative of a title |
| AdzerkSnapshot.CreativeUpsertSpec | r2/r2/lib/adzerk_selfserve.py:190-216 | afterwards the title leads to the returned creative, which has every attribute `link_to_creative` sets (Body the title, Alt the link title); one is appended exactly when the title was new; no other creative changes |
| AdzerkSnapshot.CreativeUpsertIdempotent | r2/r2/lib/adzerk_selfserve.py:188-217 | a repeat call for the same pair updates the same creative and creates nothing |
| AdzerkSnapshot.CreativeUpsertHit | r2/r2/lib/adzerk_selfserve.py:204-209 | an indexed creative that already has those attributes is left as it is |
| AdzerkSnapshot.CreativeUpsertGrows | r2/r2/lib/adzerk_selfserve.py:188-217 | no creative is removed or retitled |
| Adzerk.Adzerk.CampaignToFlight | r2/r2/lib/adzerk_selfserve.py:219-261 | `ValueError` and no change when the link's campaign is not indexed; otherwise the flight fields become `FlightUpsert` of the flight the promo campaign calls for under that campaign's id |
| AdzerkSnapshot.FlightUpsert | r2/r2/lib/adzerk_selfserve.py:227-260 | the flight state and id the upsert leaves; `FlightUpsertOk`, `FlightUpsertSpec`, `FlightUpsertIdempotent`, `FlightUpsertHit` and `FlightUpsertGrows` state its properties |
| AdzerkSnapshot.FlightUpsertOk | r2/r2/lib/adzerk_selfserve.py:227-260 | the flight list, name index and campaign groups stay in agreement with the store |
| AdzerkSnapshot.FlightUpsertUnique | r2/r2/lib/adzerk_selfserve.py:227-260 | the flight upsert never adds a second flight of a name |
| AdzerkSnapshot.FlightUpsertSpec | r2/r2/lib/adzerk_selfserve.py:227-260 | afterwards the name leads to the returned flight, holding every attribute set (keywords, campaign id, IsFullSpeed false, impressions); a new flight is appended to `flights` and to its campaign's group; an existing one keeps its place |
| AdzerkSnapshot.FlightUpsertIdempotent | r2/r2/lib/adzerk_selfserve.py:219-261 | a second upsert of the same flight creates nothing and changes nothing |
| AdzerkSnapshot.FlightUpsertHit | r2/r2/lib/adzerk_selfserve.py:249-253 | an indexed flight that already holds those attributes is left as it is |
| AdzerkSnapshot.FlightUpsertGrows | r2/r2/lib/adzerk_selfserve.py:219-261 | no flight is removed or renamed |
| Adzerk.Adzerk.MakeCfMap | r2/r2/lib/adzerk_selfserve.py:263-304 | `KeyError` and no change when one of the three lookups misses; otherwise the map fields become `CfMapUpsert` of the map for the three ids |
| AdzerkSnapshot.CfMapUpsert | r2/r2/lib/adzerk_selfserve.py:263-304 | the map state and id the upsert leaves; `CfMapUpsertOk`, `CfMapUpsertSpec`, `CfMapUpsertKeys`, `CfMapUpsertIdempotent` and `CfMapUpsertHit` state its properties |
| AdzerkSnapshot.CfMapUpsertOk | r2/r2/lib/adzerk_selfserve.py:276-303 | the map list, lookup and flight groups stay in agreement with the store |
| AdzerkSnapshot.CfMapUpsertUnique | r2/r2/lib/adzerk_selfserve.py:276-303 | `make_cfmap` never adds a second map of a (flight id, creative id): it rewrites the map the lookup finds, or creates one only when no stored map has the key |
| AdzerkSnapshot.CfMapUpsertSpec | r2/r2/lib/adzerk_selfserve.py:276-303 | afterwards the key leads to the returned map, which holds every attribute set (Percentage 100, active); a map is created and filed in all three indexes only when the lookup missed |
| AdzerkSnapshot.CfMapUpsertKeys | r2/r2/lib/adzerk_selfserve.py:291-303 | the store gains at most the returned id |
| AdzerkSnapshot.CfMapUpsertIdempotent | r2/r2/lib/adzerk_selfserve.py:263-304 | a repeat call updates the looked-up map and creates nothing |
| AdzerkSnapshot.CfMapUpsertHit | r2/r2/lib/adzerk_selfserve.py:291-296 | a looked-up map that already holds those attributes is left as it is |
| Adzerk.Adzerk.UpdateAdzerk | r2/r2/lib/adzerk_selfserve.py:306-311 | the fields and the outcome are `Update` of the old snapshot: the four upserts in order, an error propagating |
| AdzerkUpdate.Update | r2/r2/lib/adzerk_selfserve.py:306-311 | the four upserts of `update_adzerk` in order, an error propagating; the `Update...` lemmas below state its properties |
| AdzerkUpdate.UpdateOk | r2/r2/lib/adzerk_selfserve.py:306-311 | `update_adzerk` keeps every list and index in agreement with the store |
| AdzerkUpdate.UpdateKeysUnique | r2/r2/lib/adzerk_selfserve.py:306-311 | `update_adzerk` never adds a second campaign, creative, flight or map of one key |
| AdzerkUpdate.UpdateResult | r2/r2/lib/adzerk_selfserve.py:306-311 | it fails exactly when the promo campaign's own link is another, unindexed link, with the `ValueError`, and then creates no map; the `KeyError`s of `make_cfmap` cannot happen |
| AdzerkUpdate.UpdatePairLive | r2/r2/lib/adzerk_selfserve.py:306-311 | after success the pair's campaign, creative, flight and map are all in place and active; every other map is as it was |
| AdzerkUpdate.UpdateGrows | r2/r2/lib/adzerk_selfserve.py:306-311 | nothing is deleted and no creative or flight is renamed |
| AdzerkUpdate.UpdateNames | r2/r2/lib/adzerk_selfserve.py:308 | the campaign names gain the link's fullname only |
| AdzerkUpdate.UpdateDecodes | r2/r2/lib/adzerk_selfserve.py:306-311 | with dash-free fullnames, every active map still decodes to a (link, campaign) identity |
| AdzerkUpdate.UpdateKeepsActive | r2/r2/lib/adzerk_selfserve.py:306-311 | `update_adzerk` never deactivates a map |
| AdzerkUpdate.UpdateIdentities | r2/r2/lib/adzerk_selfserve.py:306-311 | after success the active identities are the earlier ones plus the pair's |
| Adzerk.Adzerk.UpdateEach | r2/r2/lib/adzerk_selfserve.py:320-323 | the upsert loop of `mirror` leaves the fields and outcome as `UpdateAll`, stopping at the first error |
| AdzerkUpdate.UpdateAll | r2/r2/lib/adzerk_selfserve.py:320-323 | `update_adzerk` of each pair in turn, stopping at the first error; the `UpdateAll...` lemmas below state its properties |
| AdzerkUpdate.UpdateAllStops | r2/r2/lib/adzerk_selfserve.py:320-323 | once the loop has failed, the remaining pairs change nothing |
| AdzerkUpdate.UpdateAllOk | r2/r2/lib/adzerk_selfserve.py:320-323 | the loop keeps every list and index in agreement with the store |
| AdzerkUpdate.UpdateAllKeysUnique | r2/r2/lib/adzerk_selfserve.py:320-323 | the loop keeps every list and index in agreement with the store and never adds a second entity of one key |
| AdzerkUpdate.UpdateAllResult | r2/r2/lib/adzerk_selfserve.py:320-323 | the loop succeeds exactly when every pair's promo campaign belongs to a link already indexed or upserted before it |
| AdzerkUpdate.UpdateAllNames | r2/r2/lib/adzerk_selfserve.py:320-323 | after success the campaign names are the earlier ones plus the pairs' links |
| AdzerkUpdate.UpdateAllGrows | r2/r2/lib/adzerk_selfserve.py:320-323 | the loop deletes nothing and renames no creative or flight |
| AdzerkUpdate.UpdateAllDecodes | r2/r2/lib/adzerk_selfserve.py:320-323 | with dash-free fullnames every active map stays decodable |
| AdzerkUpdate.UpdateAllIdentities | r2/r2/lib/adzerk_selfserve.py:320-323 | after success every pair's identity is active, and every active identity was active before or is a pair's |
| AdzerkUpdate.Decode | r2/r2/lib/adzerk_selfserve.py:329-335 | the (link fullname, campaign fullname) of a map, read through its campaign, creative and flight; `KeyError` or `ValueError` when a lookup or the unpacking fails; `DecodeOk` and `PairDecodes` state its properties |
| AdzerkUpdate.DecodeOk | r2/r2/lib/adzerk_selfserve.py:329-335 | a map decodes exactly when its three parents are known by id and its creative's title splits on `-` into two; the identity is the title's first part and the flight's name |
| AdzerkUpdate.DecodeGrows | r2/r2/lib/adzerk_selfserve.py:329-335 | a map that decodes against a snapshot decodes alike against any snapshot grown from it |
| AdzerkUpdate.PairDecodes | r2/r2/lib/adzerk_selfserve.py:333-335 | the map of a live pair with dash-free fullnames decodes back to the pair |
| AdzerkUpdate.DecodeDeactivated | r2/r2/lib/adzerk_selfserve.py:340 | deactivating a map does not change what it decodes to |
| AdzerkUpdate.Visit | r2/r2/lib/adzerk_selfserve.py:325-341 | one turn of the scan keeps every map id and changes a map, if at all, only by deactivating it |
| AdzerkUpdate.Scan | r2/r2/lib/adzerk_selfserve.py:325-341 | the scan keeps every map id and never activates a map |
| AdzerkUpdate.ScanStops | r2/r2/lib/adzerk_selfserve.py:329-331 | once the scan has raised, the remaining maps change nothing |
| AdzerkUpdate.ScanUnlisted | r2/r2/lib/adzerk_selfserve.py:325 | maps not in the scanned list are left alone |
| AdzerkUpdate.ScanResult | r2/r2/lib/adzerk_selfserve.py:325-334 | the scan fails exactly when some listed active map does not decode |
| AdzerkUpdate.VisitDeactivates | r2/r2/lib/adzerk_selfserve.py:326-340 | a visit leaves its map active exactly when it was active and decodes to a wanted identity, and touches no other map |
| AdzerkUpdate.ScanDeactivates | r2/r2/lib/adzerk_selfserve.py:325-341 | after a scan that succeeds, a listed map is active exactly when it was active and decodes to a wanted identity; inactive maps are skipped |
| AdzerkUpdate.KeptIdentities | r2/r2/lib/adzerk_selfserve.py:325-341 | a scan that kept exactly the wanted maps leaves exactly the wanted identities active |
| Adzerk.Adzerk.Deactivate | r2/r2/lib/adzerk_selfserve.py:325-341 | the deactivation loop leaves the maps as `Scanned` |
| AdzerkUpdate.Scanned | r2/r2/lib/adzerk_selfserve.py:325-341 | the maps after the deactivation loop; `ScannedOk`, `ScanDeactivates` and `ScannedSpec` state its properties |
| AdzerkUpdate.ScannedOk | r2/r2/lib/adzerk_selfserve.py:325-341 | the scan keeps every list and index in agreement with the store |
| AdzerkUpdate.ScannedKeysUnique | r2/r2/lib/adzerk_selfserve.py:325-341 | the scan changes no map's key, so keys stay unique |
| AdzerkUpdate.ScannedSpec | r2/r2/lib/adzerk_selfserve.py:325-341 | scanning a consistent snapshot whose active maps decode, with every wanted identity active, succeeds and leaves active exactly the wanted identities |
| Adzerk.Adzerk.MirrorAsWritten | r2/r2/lib/adzerk_selfserve.py:313-341 | `mirror` as the source has it leaves the fields and outcome as `AdzerkUpdate.MirrorAsWritten` |
| Adzerk.Adzerk.Mirror | r2/r2/lib/adzerk_selfserve.py:313-341 | the corrected `mirror` leaves the fields and outcome as `AdzerkUpdate.Mirror` |
| AdzerkUpdate.MirrorAsWritten | r2/r2/lib/adzerk_selfserve.py:313-341 | `mirror` as the source has it: the id dictionaries taken before the upserts, and the string pairs looked up among object pairs |
| AdzerkUpdate.Mirror | r2/r2/lib/adzerk_selfserve.py:313-341 | `mirror` with both defects corrected; `MirrorOk`, `MirrorSpec` and `MirrorFirstUse` state its properties |
| AdzerkUpdate.MirrorOk | r2/r2/lib/adzerk_selfserve.py:313-341 | both forms of `mirror` keep every list and index in agreement with the store |
| AdzerkUpdate.MirrorKeysUnique | r2/r2/lib/adzerk_selfserve.py:313-341 | neither form of `mirror` adds a second entity of one key |
| AdzerkUpdate.MirrorSpec | r2/r2/lib/adzerk_selfserve.py:313-341 | from a consistent snapshot with dash-free fullnames, `mirror` fails only with the `ValueError` of an unknown owning link; otherwise it leaves active exactly the maps of the given pairs |
| AdzerkUpdate.MirrorAsWrittenMissesNewMaps | r2/r2/lib/adzerk_selfserve.py:315-318 | on its first use, for one pair on an empty client, `mirror` as written raises `KeyError` for the map it has just created |
| AdzerkUpdate.MirrorFirstUse | r2/r2/lib/adzerk_selfserve.py:313-341 | the same first use of the corrected `mirror` succeeds |
| AdzerkUpdate.MirrorAsWrittenDeactivatesAll | r2/r2/lib/adzerk_selfserve.py:337 | whenever the scan of `mirror` as written completes, every map is inactive, the given pairs' maps included |
| Inventory.DateRange | r2/r2/lib/inventory.py:114-117 | `end - start` consecutive days from `start`, none when `end <= start` |
| Inventory.DateRangeMembers | r2/r2/lib/inventory.py:114-117 | a day is in the range exactly when `start <= d < end`; the days increase strictly |
| Inventory.PredictionName | r2/r2/lib/inventory.py:48-49 | an empty subreddit name is replaced by the default subreddit's name; any other is kept |
| Inventory.PredictedByDate | r2/r2/lib/inventory.py:46-58 | `stop - start` entries (1 without `stop`, none for a negative span), the i-th keyed `start + i`, all holding the subreddit's minimum daily pageviews or 0 |
| Inventory.PredictedDaysDistinct | r2/r2/lib/inventory.py:54-57 | the predicted days increase, so the ordered dict has no duplicate key |
| Inventory.MatchFromSpec | r2/r2/lib/inventory.py:84 | the greedy search finds a match exactly when a `-GET_listing` occurs at or before its start, and returns the longest such prefix |
| Inventory.MatchListing | r2/r2/lib/inventory.py:44 | `re.match('(.*)-GET_listing', s)` and its first group; `MatchListingSpec` states what it captures |
| Inventory.MatchListingSpec | r2/r2/lib/inventory.py:44 | `(.*)-GET_listing` matches exactly when `-GET_listing` follows a newline-free prefix, and captures the longest one |
| Inventory.MatchListingSuffix | r2/r2/lib/inventory.py:81-86 | a row `X-GET_listing` with a newline-free X captures X |
| Inventory.RowIndexSpec | r2/r2/lib/inventory.py:82-87 | a name is a key exactly when some row matches to it, and it holds the count of the last such row |
| Inventory.MinDailyByRows | r2/r2/lib/inventory.py:82-87 | the row loop computes that index |
| Inventory.FloorDiv | r2/r2/lib/inventory.py:135 | Python 2 integer division: the floor of the quotient, for either sign of the divisor |
| Inventory.SoldOnUnpaid | r2/r2/lib/inventory.py:131-133 | a day that no paid campaign covers has nothing sold |
| Inventory.SoldPageviews | r2/r2/lib/inventory.py:119-139 | `ZeroDivisionError` exactly when a paid campaign has no days; otherwise the keys are exactly `[start, end)` and each day holds the sum, over the paid campaigns covering it, of impressions floor-divided by the campaign's length |
| Inventory.AvailableSpec | r2/r2/lib/inventory.py:145-146 | availability is `max(0, daily - sold)`: never negative, at most the daily pageviews when sold is not negative, zero exactly when sold reaches daily |
| Inventory.AvailableKeys | r2/r2/lib/inventory.py:145-146 | availability has the same days as the sold map |
| Inventory.AvailablePageviews | r2/r2/lib/inventory.py:142-146 | the same error as sold pageviews; otherwise every day of `[start, end)` holds `max(0, 10000 - sold)`, 10000 being what `min_daily_pageviews` returns (lines 90-92) |
| Inventory.DayTextInjective | r2/r2/lib/inventory.py:151 | two days with the same `%m/%d/%Y` text are the same day |
| Inventory.AvailableJson | r2/r2/lib/inventory.py:149-152 | the availability keyed by `%m/%d/%Y` day text; `AvailableJsonSpec` states what it holds |
| Inventory.AvailableJsonSpec | r2/r2/lib/inventory.py:149-152 | each day's text leads to its availability, reads back as that day, and every key is some day's text |
| Inventory.Oversold | r2/r2/lib/inventory.py:157-161 | the days kept are exactly those whose availability is below the daily request, with their availability unchanged |
| Inventory.GetOversold | r2/r2/lib/inventory.py:155-161 | the same error as sold pageviews; otherwise exactly the days of `[start, end)` whose availability is below the request, with their availability |
| ModActions.Create | r2/r2/models/modaction.py:137-153 | `ValueError` exactly for an action not among the 14 of `actions` (lines 32-35); otherwise the ids and action are stored, and details and description exactly when truthy |
| ModActions.CreateTarget | r2/r2/models/modaction.py:144-145 | a target with a non-empty fullname is recorded, and a missing one is not |
| ModActions.AuthorId | r2/r2/models/modaction.py:108-110 | `int(mod_id36, 36)`, `None` for the `ValueError`; `CreateIds` reads back the id given |
| ModActions.SrId | r2/r2/models/modaction.py:112-114 | `int(sr_id36, 36)`, `None` for the `ValueError`; `CreateIds` reads back the id given |
| ModActions.CreateIds | r2/r2/models/modaction.py:108-114 | `author_id` and `sr_id` of a created action are the numbers whose base-36 ids it was given |
| Base36.DecodeEncode | r2/r2/models/modaction.py:108-114 | base-36 decoding inverts the encoding of an id |
| Base36.Decode | r2/r2/models/modaction.py:110 | on the spellings `_id36` stores, bare base-36 digits of either case, `int(s, 36)` succeeds exactly when there is at least one digit |
| Base36.Encode | r2/r2/models/modaction.py:142 | `to36` spells an id with at least one base-36 digit, each `0`-`9` or lower-case `a`-`z`, and never a `-` or `_`; `DecodeEncode` reads it back |
| ModActions.GetActions | r2/r2/models/modaction.py:165-193 | `NotImplementedError` exactly when both filters are given; otherwise one row key per subreddit, of the view the filter selects |
| ModActions.RowKey | r2/r2/models/modaction.py:297-321 | the `_rowkey` of each view: `sr_id36`, `sr_id36_mod_id36` or `sr_id36_action`; `GetActionsRowKeys` states when it matches a query's key |
| ModActions.GetActionsRowKeys | r2/r2/models/modaction.py:290-321 | the key a view stores an action under equals the key `get_actions` builds for a subreddit exactly when the subreddit and the filter match the action |
| ModActions.DetailsLabel | r2/r2/models/modaction.py:198 | a known detail shows its label, any other shows itself |
| ModActions.ExtraText | r2/r2/models/modaction.py:195-201 | empty with neither details nor description; the details' label alone, `' ' + description` alone, or the label, a space and the description when both are there |
| ModActions.CreateExtraText | r2/r2/models/modaction.py:195-201 | the extra text of a created action is the label of its details when they were truthy, followed by a space and the description when that was truthy |
| ModActions.ShortTitle | r2/r2/models/modaction.py:235-238 | titles up to 50 characters are kept; longer ones are cut to 50 and followed by `...` |
| ModActions.ShortTitleBounds | r2/r2/models/modaction.py:235-238 | the short title has at most 53 characters and begins with the title's first 50 |
| ModActions.DateOnly | r2/r2/models/modaction.py:347-351 | `_date_only` gives midnight of the same day |
| ModActions.DateOnlyIdempotent | r2/r2/models/modaction.py:347-351 | truncating twice is truncating once, and never moves later in the day |
| ModActions.DayCountsSpec | r2/r2/models/modaction.py:363-370 | a (mod, action) is counted exactly when some column has it, with the value of the last such column |
| ModActions.GetDay | r2/r2/models/modaction.py:353-370 | the loop of `get_day` computes those counts |
| ModActions.SeenStep | r2/r2/models/modaction.py:379-383 | one more day adds exactly that day's keys |
| ModActions.TotalSplit | r2/r2/models/modaction.py:379-383 | the total over a span of days is the sum of the totals over its two parts |
| ModActions.TotalOneDay | r2/r2/models/modaction.py:380-382 | the total over one day is that day's count |
| ModActions.AddCounts | r2/r2/models/modaction.py:381-382 | adding a day into a `defaultdict(int)` gives the union of the keys and the sum of the counts |
| ModActions.GetReport | r2/r2/models/modaction.py:372-384 | the report holds exactly the keys seen on some day from start to end inclusive, each with its total over those days |
| ModActions.TallyAppend | r2/r2/models/modaction.py:403-410 | counting over two batches of fetched actions is the sum of counting over each |
| ModActions.TallyPositive | r2/r2/models/modaction.py:404-407 | a key is counted at least once exactly when some fetched action has it |
| ModActions.CountsBySrSpec | r2/r2/models/modaction.py:403-410 | a subreddit appears exactly when one of its actions was fetched; each (date, mod, action) of it holds the number of fetched actions with that key, and every such key with a positive count is there |
| ModActions.QueryAllSrs | r2/r2/models/modaction.py:386-412 | the loop of `_query_all_srs` computes those counts for the day the date truncates to |
| Sponsored.FlagWords | r2/r2/public/static/js/sponsored.js:172-190 | the flag classes contain no space |
| Sponsored.GetFlagClass | r2/r2/public/static/js/sponsored.js:172-190 | the successive `+=` build `campaign-row` followed by a space and a class for each flag set, in order |
| Sponsored.FlagClassWords | r2/r2/public/static/js/sponsored.js:172-190 | the words of a row's class are `campaign-row` and then the flag classes |
| Sponsored.FlagWordsHas | r2/r2/public/static/js/sponsored.js:174-188 | a class name is a flag class exactly when its flag is set, `paid` only when not complete |
| Sponsored.FlagClassHasClass | r2/r2/public/static/js/sponsored.js:172-190 | `hasClass` finds `campaign-row` always, each flag class exactly when its flag is set, `paid` exactly when paid and not complete, and never both `complete` and `paid` |
| Sponsored.ClassFlagsRoundTrip | r2/r2/public/static/js/sponsored.js:180-185 | reading the flags back from the class gives the flags, with `paid` cleared on a complete campaign |
| Sponsored.SetUpRow | r2/r2/public/static/js/sponsored.js:257-301 | setting up a row keeps its class and its number of cells |
| Sponsored.SetUpLastControl | r2/r2/public/static/js/sponsored.js:262-298 | after set-up the last cell holds a button or span |
| Sponsored.SetUpIdempotent | r2/r2/public/static/js/sponsored.js:262 | setting up a row twice is setting it up once |
| Sponsored.AddButtonsEndsWithControl | r2/r2/public/static/js/sponsored.js:285-297 | the last cell always ends with what was appended to it last: delete, the complete note or edit |
| Sponsored.LastCellButtons | r2/r2/public/static/js/sponsored.js:263-297 | a fresh last cell gets view exactly when live, edit exactly when not complete or sponsor, delete exactly when not complete, and the complete note exactly when complete |
| Sponsored.BidCellButtons | r2/r2/public/static/js/sponsored.js:268-291 | a fresh bid cell gets the free button when a sponsor may give the campaign away, otherwise pay while unpaid, the freebie note when paid and free, change when paid; none of them when complete, and is marked paid when complete or paid |
| Sponsored.SetUpDecision | r2/r2/public/static/js/sponsored.js:257-301 | the full decision table for a fresh row of a campaign with given flags, read through its class |
| Sponsored.SetUpCampaigns | r2/r2/public/static/js/sponsored.js:257-301 | every row of the table is set up and nothing else changes |
| Sponsored.Decimal | r2/r2/public/static/js/sponsored.js:474 | `toString()` of a natural number: digits only, with no leading zero unless it is 0 |
| Sponsored.DecimalRoundTrip | r2/r2/public/static/js/sponsored.js:474 | the digits `toString()` writes have the number as their value |
| Sponsored.ParseIntString | r2/r2/public/static/js/sponsored.js:472-474 | `parseInt` reads back every integer `toString()` writes |
| Sponsored.LeadingDigits | r2/r2/public/static/js/sponsored.js:472 | the longest run of digits at the start, as `parseInt` reads it |
| Sponsored.TrimStart | r2/r2/public/static/js/sponsored.js:472 | a suffix of the argument is kept; everything removed before it is white space, and it does not start with white space |
| Sponsored.CommasRemoved | r2/r2/public/static/js/sponsored.js:474 | taking the commas out of the separated digits gives the digits back |
| Sponsored.CommasGroups | r2/r2/public/static/js/sponsored.js:474 | the first group has one to three digits and each later group exactly three |
| Sponsored.PrettyNonzero | r2/r2/public/static/js/sponsored.js:471-474 | for a nonzero integer the result without commas is the integer's own spelling, a minus sign followed by the separated digits of its magnitude |
| Sponsored.ParseInt | r2/r2/public/static/js/sponsored.js:472 | `parseInt(s)` without a radix: white space, a sign, then `0x` or `0X` and the hexadecimal digits that follow, or else the decimal digits that follow; `None` for `NaN`; `ParseIntString`, `ParseIntHex` and `ParseIntHexEmpty` state its cases |
| Sponsored.LeadingHexDigits | r2/r2/public/static/js/sponsored.js:472 | the longest run of hexadecimal digits at the start, as `parseInt` reads it after `0x` |
| Sponsored.ParseIntHex | r2/r2/public/static/js/sponsored.js:472 | `0x` followed by hexadecimal digits is read as their hexadecimal value |
| Sponsored.ParseIntHexEmpty | r2/r2/public/static/js/sponsored.js:472 | `0x` followed by no hexadecimal digit is `NaN`, not 0 |
| Sponsored.PrettyNumber | r2/r2/public/static/js/sponsored.js:471-478 | `pretty_number`; `PrettyNonzero`, `PrettyZeroOrNaN` and `PrettyNumberHex` state its cases |
| Sponsored.PrettyNumberHex | r2/r2/public/static/js/sponsored.js:471-478 | a nonzero `0x` number comes out in decimal with thousands separators, so `"0x1F"` becomes `"31"` |
| Sponsored.PrettyZeroOrNaN | r2/r2/public/static/js/sponsored.js:475-477 | the argument comes back unchanged when `parseInt` gives 0 or `NaN` |
| Sponsored.CampaignRowCount | r2/r2/public/static/js/sponsored.js:420 | the count of campaign rows is at most the number of rows |
| Sponsored.TooManyCampaigns | r2/r2/public/static/js/sponsored.js:419-429 | `check_number_of_campaigns`: a limit is set and the campaign rows have reached it; `CreateCampaignOpens` and `LimitReached` state its use |
| Sponsored.CreateCampaignOpens | r2/r2/public/static/js/sponsored.js:431-434 | `create_campaign` goes on exactly when there is no limit or the campaign rows are fewer than it |
| Sponsored.CampaignRowCountAppend | r2/r2/public/static/js/sponsored.js:217-218 | an added row counts exactly when its class holds `campaign-row` |
| Sponsored.NewCampaignCounts | r2/r2/public/static/js/sponsored.js:213-219 | a row `new_campaign` adds with a flag class counts as one more campaign |
| Sponsored.LimitReached | r2/r2/public/static/js/sponsored.js:419-434 | when a new campaign brings the count to the limit, `create_campaign` stops, where it went on before |

## Left out

- Calls into the Adzerk library (`set_key`, `list`, `create`, `_send`) are
  modelled only by their effect on the abstract store. Transport failures
  and `AdzerkError` are not modelled.
- `render_link` is not part of this model. It needs an account lookup and
  JSON encoding, so a creative's script body is a record of the fields it
  would serialise.
- `set_live_promotions` is not part of this model. It is database loading,
  and as written it cannot run: `itertools` and `PromoCampaign` are not
  imported.
- The design notes and the SQLAlchemy sketch after `set_live_promotions`
  are not live code and are not modelled.
- `load` lists sites, zones, channels, publishers and priorities, and
  nothing uses them. They are not modelled.
- Adzerk.Adzerk.LinkToCampaign, Adzerk.Adzerk.LinkToCreative,
  Adzerk.Adzerk.CampaignToFlight, Adzerk.Adzerk.MakeCfMap,
  Adzerk.Adzerk.UpdateAdzerk, Adzerk.Adzerk.UpdateEach,
  Adzerk.Adzerk.MirrorAsWritten, Adzerk.Adzerk.Mirror: these require a loaded
  client. Called before `load`, the source raises `AttributeError`, because
  `__init__` creates none of the name indexes and `cfmap_lookup`. That error
  path is not modelled.
- On the update path, `make_cfmap` sets `Creative` to a plain dict holding
  the id, and `mirror` later reads `cfmap.Creative.Id`. The model assumes
  that read gives the id, as the Adzerk library's objects must allow; those
  objects are not part of this model.
- Adzerk.Adzerk.Load: requires a fresh client. A second `load` would list
  every record again, appending duplicate entries to `self.creatives` and
  `self.cfmaps`. An id-keyed store cannot represent that.
- The service is assumed never to list two records of one kind under one id
  (`ListingDistinct`), and to hand out one past the largest id on `create`.
- The current time in `link_to_campaign` is a parameter. So is the date of
  `_write_all_srs`, which is not part of this model.
- Base36.Decode: models `int(s, 36)` only on bare digits, the spellings
  `_id36` stores. The surrounding white space and the sign that Python's
  `int` also accepts give `None` in the model.
- Inventory.AvailableJson: requires days with years 1 to 9999. Python 2's
  `strftime` raises `ValueError` for years before 1900, and that error is not
  modelled.
- The SQL and Cassandra queries, `PromoMetrics`, `@memoize`, `_on_create`
  and paging with `q._after` are not modelled. Their results are inputs:
  - Inventory.MinDailyByRows takes the query's rows.
  - Inventory.PredictedByDate takes the stored minimum-pageviews map.
  - Inventory.SoldPageviews takes the campaigns found.
  - ModActions.GetDay takes one day's columns.
  - ModActions.QueryAllSrs takes the fetched actions.
- The code of `min_daily_pageviews` after its first `return` is
  unreachable. The constant 10000 is modelled.
- Inventory.Oversold takes the days in the order the dictionary's
  `iteritems` yields them. It requires that they are exactly the dictionary's
  keys, because that order is not modelled.
- Inventory.SoldPageviews: `PromotionWeights` is assumed to return only
  campaigns for the subreddit and dates asked about. The subreddit
  filtering of the query is not modelled.
- Dates are day numbers. The timezone handling and `to_date` of
  `get_date_range` are not modelled.
- ModActions.GetReport and ModActions.GetDay take Cassandra's column range
  for a day as given: the model is handed the day's columns, not a slice
  by composite column key.
- The `after`, `reverse` and `count` paging options of `get_actions` are
  not modelled. Neither is the query object it returns, only its view and
  row keys.
- `get_rgb` is not part of this model. It depends on Python's string
  `hash`.
- `add_props` beyond title truncation is not modelled: database lookups,
  `NavButton`, permalinks and `_()` translations. The labels of
  `_details_text` are the untranslated strings.
- Sponsored.ParseInt: `parseInt` is modelled for decimal text and for text
  with the `0x` or `0X` prefix, after the white space and line terminators of
  ECMAScript. Numbers beyond 2^53, where
  JavaScript loses precision, and those that `toString` writes in exponent
  form, are not modelled.
- Sponsored.SetUpRow: the click handlers and the extra CSS classes of the
  buttons are not modelled. The buttons and spans are the elements they add.
- All other jQuery, DOM and animation code, the date pickers,
  `$.request` and the redirects are not modelled.
- Floating-point arithmetic (`calc_impressions`, `update_bid`,
  `fill_inputs`, `get_ndays` and the `parseFloat` bids) is not modelled.

## Findings

| source | as written | input that shows it | evidently intended | confidence | as-written member | corrected member |
|---|---|---|---|---|---|---|
| r2/r2/lib/adzerk_selfserve.py:315-318 | the id dictionaries that the scan decodes maps through are built before the upsert loop | first `mirror` on an empty client, one pair whose promo campaign belongs to its link: the new map's campaign is not in the old dictionary, so `KeyError` | decode against the records after the upserts | high, not executed | AdzerkUpdate.MirrorAsWrittenMissesNewMaps | AdzerkUpdate.MirrorFirstUse |
| r2/r2/lib/adzerk_selfserve.py:337 | a (link fullname, campaign fullname) string pair is looked up in the list of (Link, PromoCampaign) object pairs | any `mirror` whose scan completes: no string pair equals an object pair, so every active map is deactivated, the given pairs' included | look up the pairs' fullnames | medium (assumes the objects do not compare equal to strings), not executed | AdzerkUpdate.MirrorAsWrittenDeactivatesAll | AdzerkUpdate.MirrorSpec |
