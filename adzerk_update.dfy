/** `update_adzerk` and `mirror` on snapshot values: the four upserts of one
    (link, promo campaign) pair, their fold over a list of pairs, and the scan
    that deactivates every active map whose decoded pair is not wanted. */
module AdzerkUpdate {
  import opened Wrappers
  import opened Strings
  import opened AdzerkRecords
  import opened AdzerkSnapshot
  import Dates

  /** The map `make_cfmap` writes for the pair, from the ids the three indexes give. */
  function PairMap(s: Snapshot, link: Link, c: PromoCampaign): AzCfMap
    requires link.fullname in s.campaigns.byName && CreativeTitle(link, c) in s.creatives.byTitle
    requires c.fullname in s.flights.byName
  {
    CfMapFor(s.campaigns.byName[link.fullname], s.creatives.byTitle[CreativeTitle(link, c)], s.flights.byName[c.fullname], c)
  }

  /** Every attribute `update_adzerk` sets for the pair is in place: the link's
      campaign is live, the pair's creative and its campaign's flight hold what
      the pair calls for, and the map joining them is the active one the pair calls for. */
  ghost predicate PairLive(s: Snapshot, link: Link, c: PromoCampaign)
  {
    var owner := LinkFullname(c.linkId);
    var title := CreativeTitle(link, c);
    && link.fullname in s.campaigns.byName && s.campaigns.byName[link.fullname] in s.campaigns.store
    && IsLiveCampaign(s.campaigns.store[s.campaigns.byName[link.fullname]])
    && title in s.creatives.byTitle && s.creatives.byTitle[title] in s.creatives.store
    && s.creatives.store[s.creatives.byTitle[title]] == CreativeFor(link, c)
    && owner in s.campaigns.byName
    && c.fullname in s.flights.byName && s.flights.byName[c.fullname] in s.flights.store
    && s.flights.store[s.flights.byName[c.fullname]] == FlightFor(c, s.campaigns.byName[owner])
    && var m := PairMap(s, link, c);
       MapKey(m) in s.cfmaps.lookup && s.cfmaps.lookup[MapKey(m)] in s.cfmaps.store
       && s.cfmaps.store[s.cfmaps.lookup[MapKey(m)]] == m
  }

  /** `update_adzerk(link, campaign)`: `link_to_campaign`, `link_to_creative`,
      `campaign_to_flight`, `make_cfmap`, in that order. When the promo campaign's
      own link has no Adzerk campaign, `campaign_to_flight` raises `ValueError`
      after the campaign and creative upserts, which stay. The three lookups of
      `make_cfmap` raise `KeyError` when they miss; `UpdateResult` shows they
      cannot miss once the first three upserts are done. */
  function Update(s: Snapshot, link: Link, c: PromoCampaign, now: Dates.Date): (Snapshot, Result<(), AdzerkError>)
  {
    var campaigns := CampaignUpsert(s.campaigns, link, now).0;
    var creatives := CreativeUpsert(s.creatives, CreativeFor(link, c)).0;
    var owner := LinkFullname(c.linkId);
    if owner !in campaigns.byName then
      (s.(campaigns := campaigns, creatives := creatives), Err(MissingCampaign))
    else
      var flights := FlightUpsert(s.flights, FlightFor(c, campaigns.byName[owner])).0;
      var title := CreativeTitle(link, c);
      if link.fullname !in campaigns.byName || title !in creatives.byTitle || c.fullname !in flights.byName then
        (Snapshot(campaigns, creatives, flights, s.cfmaps), Err(KeyError))
      else
        var m := PairMap(Snapshot(campaigns, creatives, flights, s.cfmaps), link, c);
        var cfmaps := CfMapUpsert(s.cfmaps, m).0;
        (Snapshot(campaigns, creatives, flights, cfmaps), Ok(()))
  }

  /** `update_adzerk` keeps every list and index in agreement with the store. */
  lemma UpdateOk(s: Snapshot, link: Link, c: PromoCampaign, now: Dates.Date)
    requires SnapshotOk(s)
    ensures SnapshotOk(Update(s, link, c, now).0)
  {
    CampaignUpsertOk(s.campaigns, link, now);
    CreativeUpsertOk(s.creatives, CreativeFor(link, c));
    var campaigns := CampaignUpsert(s.campaigns, link, now).0;
    var owner := LinkFullname(c.linkId);
    if owner in campaigns.byName {
      var f := FlightFor(c, campaigns.byName[owner]);
      FlightUpsertOk(s.flights, f);
      var creatives := CreativeUpsert(s.creatives, CreativeFor(link, c)).0;
      var flights := FlightUpsert(s.flights, f).0;
      var title := CreativeTitle(link, c);
      if link.fullname in campaigns.byName && title in creatives.byTitle && c.fullname in flights.byName {
        CfMapUpsertOk(s.cfmaps, CfMapFor(campaigns.byName[link.fullname], creatives.byTitle[title], flights.byName[c.fullname], c));
      }
    }
  }

  /** `update_adzerk` fails exactly when the promo campaign belongs to another
      link that has no Adzerk campaign, and then with the `ValueError` of
      `campaign_to_flight`: the `KeyError`s of `make_cfmap` never happen. */
  lemma UpdateResult(s: Snapshot, link: Link, c: PromoCampaign, now: Dates.Date)
    requires SnapshotOk(s)
    ensures var r := Update(s, link, c, now).1;
      && (r.Err? <==> LinkFullname(c.linkId) != link.fullname && LinkFullname(c.linkId) !in s.campaigns.byName)
      && (r.Err? ==> r.error == MissingCampaign && Update(s, link, c, now).0.cfmaps == s.cfmaps)
  {
    CampaignUpsertSpec(s.campaigns, link, now);
    CreativeUpsertSpec(s.creatives, CreativeFor(link, c));
    var campaigns := CampaignUpsert(s.campaigns, link, now).0;
    var owner := LinkFullname(c.linkId);
    if owner in campaigns.byName {
      FlightUpsertSpec(s.flights, FlightFor(c, campaigns.byName[owner]));
    }
  }

  /** After a successful `update_adzerk` the pair is live, and every other map is as it was. */
  lemma UpdatePairLive(s: Snapshot, link: Link, c: PromoCampaign, now: Dates.Date)
    requires SnapshotOk(s)
    requires Update(s, link, c, now).1.Ok?
    ensures PairLive(Update(s, link, c, now).0, link, c)
    ensures var t := Update(s, link, c, now).0;
      var pairId := t.cfmaps.lookup[MapKey(PairMap(t, link, c))];
      && (forall id :: id in t.cfmaps.store && id != pairId ==>
            id in s.cfmaps.store && t.cfmaps.store[id] == s.cfmaps.store[id])
      && (pairId in s.cfmaps.store ==> MapKey(s.cfmaps.store[pairId]) == MapKey(PairMap(t, link, c)))
      && s.cfmaps.store.Keys <= t.cfmaps.store.Keys
  {
    CampaignUpsertSpec(s.campaigns, link, now);
    CreativeUpsertSpec(s.creatives, CreativeFor(link, c));
    var campaigns := CampaignUpsert(s.campaigns, link, now).0;
    var creatives := CreativeUpsert(s.creatives, CreativeFor(link, c)).0;
    var owner := LinkFullname(c.linkId);
    var f := FlightFor(c, campaigns.byName[owner]);
    FlightUpsertSpec(s.flights, f);
    var flights := FlightUpsert(s.flights, f).0;
    var title := CreativeTitle(link, c);
    var m := PairMap(Snapshot(campaigns, creatives, flights, s.cfmaps), link, c);
    CfMapUpsertSpec(s.cfmaps, m);
    CfMapUpsertKeys(s.cfmaps, m);
  }

  /** Every campaign stays, and every creative and flight stays with its title or name. */
  ghost predicate Grows(s: Snapshot, t: Snapshot)
  {
    && (forall id :: id in s.campaigns.store ==> id in t.campaigns.store)
    && (forall id :: id in s.creatives.store ==> id in t.creatives.store && t.creatives.store[id].title == s.creatives.store[id].title)
    && (forall id :: id in s.flights.store ==> id in t.flights.store && t.flights.store[id].name == s.flights.store[id].name)
  }

  lemma GrowsTrans(s: Snapshot, t: Snapshot, u: Snapshot)
    requires Grows(s, t) && Grows(t, u)
    ensures Grows(s, u)
  {
  }

  /** `update_adzerk` deletes nothing and never renames a creative or a flight. */
  lemma UpdateGrows(s: Snapshot, link: Link, c: PromoCampaign, now: Dates.Date)
    requires SnapshotOk(s)
    ensures Grows(s, Update(s, link, c, now).0)
  {
    var t := Update(s, link, c, now).0;
    CampaignUpsertGrows(s.campaigns, link, now);
    CreativeUpsertGrows(s.creatives, CreativeFor(link, c));
    assert t.campaigns == CampaignUpsert(s.campaigns, link, now).0;
    assert t.creatives == CreativeUpsert(s.creatives, CreativeFor(link, c)).0;
    var owner := LinkFullname(c.linkId);
    if owner in t.campaigns.byName {
      FlightUpsertGrows(s.flights, FlightFor(c, t.campaigns.byName[owner]));
      assert t.flights == FlightUpsert(s.flights, FlightFor(c, t.campaigns.byName[owner])).0;
    } else {
      assert t.flights == s.flights;
    }
  }

  // ---- mirror ----

  /** The (link, campaign) identity `mirror` reads off an active map: the map's
      campaign, creative and flight are looked up by id in `pre` (a missing one is
      a `KeyError`), the creative's title must split on '-' into exactly two parts
      (otherwise the unpacking fails), and the identity is the first part with the
      flight's name. */
  function Decode(m: AzCfMap, pre: Snapshot): Result<(string, string), AdzerkError>
  {
    if m.campaignId !in pre.campaigns.store || m.creativeId !in pre.creatives.store || m.flightId !in pre.flights.store then
      Err(KeyError)
    else
      match Unpack2(pre.creatives.store[m.creativeId].title, '-')
      case None => Err(UnpackError)
      case Some((linkName, _)) => Ok((linkName, pre.flights.store[m.flightId].name))
  }

  /** A map decodes exactly when its three parents are in `pre` and its creative's
      title splits on '-' into two pieces; the identity is then the first piece,
      which is the part of the title before its one '-', and the flight's name. */
  lemma DecodeOk(m: AzCfMap, pre: Snapshot)
    ensures Decode(m, pre).Ok? <==>
      && m.campaignId in pre.campaigns.store && m.creativeId in pre.creatives.store && m.flightId in pre.flights.store
      && |Split(pre.creatives.store[m.creativeId].title, '-')| == 2
    ensures Decode(m, pre).Ok? ==>
      var title := pre.creatives.store[m.creativeId].title;
      var (linkName, campaignName) := Decode(m, pre).value;
      && linkName == Split(title, '-')[0]
      && '-' !in linkName && |linkName| < |title| && title[..|linkName| + 1] == linkName + "-"
      && campaignName == pre.flights.store[m.flightId].name
  {
    if m.campaignId in pre.campaigns.store && m.creativeId in pre.creatives.store && m.flightId in pre.flights.store {
      var title := pre.creatives.store[m.creativeId].title;
      Unpack2Split(title, '-');
      if Count(title, '-') == 1 {
        CountPositive(title, '-');
        FindSpec(title, '-');
        var i := Find(title, '-');
        assert title[..i + 1] == title[..i] + [title[i]];
      }
    }
  }

  /** A map that decodes against a snapshot decodes to the same identity against
      any snapshot grown from it. */
  lemma DecodeGrows(m: AzCfMap, s: Snapshot, t: Snapshot)
    requires Grows(s, t) && Decode(m, s).Ok?
    ensures Decode(m, t) == Decode(m, s)
  {
  }

  /** The map of a live pair decodes back to the pair when neither fullname contains '-'. */
  lemma PairDecodes(s: Snapshot, link: Link, c: PromoCampaign)
    requires PairLive(s, link, c) && '-' !in link.fullname && '-' !in c.fullname
    requires CampaignsOk(s.campaigns) && CreativesOk(s.creatives) && FlightsOk(s.flights)
    ensures Decode(PairMap(s, link, c), s) == Ok((link.fullname, c.fullname))
  {
    JoinUnpack(link.fullname, '-', c.fullname);
  }

  /** Every active map decodes against `pre`. */
  ghost predicate ActiveDecode(s: Snapshot, pre: Snapshot)
  {
    forall id :: id in s.cfmaps.store && s.cfmaps.store[id].isActive ==> Decode(s.cfmaps.store[id], pre).Ok?
  }

  /** `update_adzerk` with dash-free fullnames keeps every active map decodable
      against the snapshot as it now is: old maps keep their parents, and the
      pair's map decodes to the pair. */
  lemma UpdateDecodes(s: Snapshot, link: Link, c: PromoCampaign, now: Dates.Date)
    requires SnapshotOk(s) && ActiveDecode(s, s)
    requires '-' !in link.fullname && '-' !in c.fullname
    ensures ActiveDecode(Update(s, link, c, now).0, Update(s, link, c, now).0)
  {
    var (t, r) := Update(s, link, c, now);
    UpdateGrows(s, link, c, now);
    UpdateResult(s, link, c, now);
    if r.Ok? {
      UpdateOk(s, link, c, now);
      UpdatePairLive(s, link, c, now);
      PairDecodes(t, link, c);
      var pairId := t.cfmaps.lookup[MapKey(PairMap(t, link, c))];
      forall id | id in t.cfmaps.store && t.cfmaps.store[id].isActive
        ensures Decode(t.cfmaps.store[id], t).Ok?
      {
        if id != pairId {
          DecodeGrows(s.cfmaps.store[id], s, t);
        }
      }
    } else {
      forall id | id in t.cfmaps.store && t.cfmaps.store[id].isActive
        ensures Decode(t.cfmaps.store[id], t).Ok?
      {
        DecodeGrows(s.cfmaps.store[id], s, t);
      }
    }
  }

  /** The maps of a list of pairs, in order: `(link._fullname, campaign._fullname)`. */
  function Wanted(pairs: seq<(Link, PromoCampaign)>): (w: seq<(string, string)>)
    ensures |w| == |pairs|
    ensures forall i :: 0 <= i < |pairs| ==> w[i] == (pairs[i].0.fullname, pairs[i].1.fullname)
  {
    seq(|pairs|, i requires 0 <= i < |pairs| => (pairs[i].0.fullname, pairs[i].1.fullname))
  }

  /** `cfmap.IsActive = False`. */
  function Deactivated(m: AzCfMap): AzCfMap
  {
    m.(isActive := false)
  }

  /** Deactivating a map does not change what it decodes to. */
  lemma DecodeDeactivated(m: AzCfMap, pre: Snapshot)
    ensures Decode(Deactivated(m), pre) == Decode(m, pre)
  {
    var d := Deactivated(m);
    assert d.campaignId == m.campaignId && d.creativeId == m.creativeId && d.flightId == m.flightId;
  }

  /** One turn of the scan: skip an inactive map, fail on a map that does not
      decode, and deactivate a map whose identity is not wanted. */
  function Visit(store: map<Id, AzCfMap>, id: Id, pre: Snapshot, wanted: seq<(string, string)>)
    : (r: (map<Id, AzCfMap>, Result<(), AdzerkError>))
    ensures r.0.Keys == store.Keys
    ensures forall k :: k in store ==> r.0[k] == store[k] || r.0[k] == Deactivated(store[k])
  {
    if id !in store || !store[id].isActive then (store, Ok(()))
    else
      var m := store[id];
      match Decode(m, pre)
      case Err(e) => (store, Err(e))
      case Ok(pair) => if pair in wanted then (store, Ok(())) else (store[id := Deactivated(m)], Ok(()))
  }

  /** The scan of `mirror` over the maps listed in `list`, in order, stopping at
      the first failure; only `IsActive` ever changes, and only to false. */
  function Scan(store: map<Id, AzCfMap>, list: seq<Id>, pre: Snapshot, wanted: seq<(string, string)>)
    : (r: (map<Id, AzCfMap>, Result<(), AdzerkError>))
    ensures r.0.Keys == store.Keys
    ensures forall k :: k in store ==> r.0[k] == store[k] || r.0[k] == Deactivated(store[k])
    decreases |list|
  {
    if |list| == 0 then (store, Ok(()))
    else
      var prior := Scan(store, list[..|list| - 1], pre, wanted);
      if prior.1.Err? then prior else Visit(prior.0, list[|list| - 1], pre, wanted)
  }

  /** Once the scan has failed on a prefix of the list, the rest change nothing. */
  lemma {:induction false} ScanStops(store: map<Id, AzCfMap>, list: seq<Id>, pre: Snapshot, wanted: seq<(string, string)>, k: int)
    requires 0 <= k <= |list| && Scan(store, list[..k], pre, wanted).1.Err?
    ensures Scan(store, list, pre, wanted) == Scan(store, list[..k], pre, wanted)
    decreases |list|
  {
    if k < |list| {
      var n := |list| - 1;
      assert list[..n][..k] == list[..k];
      ScanStops(store, list[..n], pre, wanted, k);
    } else {
      assert list[..k] == list;
    }
  }

  /** Every listed map that is active decodes against `pre`. */
  ghost predicate ListedDecode(store: map<Id, AzCfMap>, list: seq<Id>, pre: Snapshot)
  {
    forall i :: 0 <= i < |list| && list[i] in store && store[list[i]].isActive ==> Decode(store[list[i]], pre).Ok?
  }

  lemma ListedDecodeStep(store: map<Id, AzCfMap>, list: seq<Id>, pre: Snapshot)
    requires |list| > 0
    ensures var n := |list| - 1;
      ListedDecode(store, list, pre) <==>
        ListedDecode(store, list[..n], pre) && (list[n] in store && store[list[n]].isActive ==> Decode(store[list[n]], pre).Ok?)
  {
    var n := |list| - 1;
    assert forall i :: 0 <= i < n ==> list[..n][i] == list[i];
  }

  /** The scan leaves the maps it is not given alone, whether or not it fails. */
  lemma {:induction false} ScanUnlisted(store: map<Id, AzCfMap>, list: seq<Id>, pre: Snapshot, wanted: seq<(string, string)>)
    ensures forall k :: k in store && k !in list ==> Scan(store, list, pre, wanted).0[k] == store[k]
    decreases |list|
  {
    if |list| > 0 {
      var n := |list| - 1;
      assert forall k :: k in list[..n] ==> k in list;
      ScanUnlisted(store, list[..n], pre, wanted);
    }
  }

  /** The scan fails exactly when some listed map that is active does not decode. */
  lemma {:induction false} ScanResult(store: map<Id, AzCfMap>, list: seq<Id>, pre: Snapshot, wanted: seq<(string, string)>)
    ensures Scan(store, list, pre, wanted).1.Ok? <==> ListedDecode(store, list, pre)
    decreases |list|
  {
    if |list| > 0 {
      var n := |list| - 1;
      var prefix := list[..n];
      ListedDecodeStep(store, list, pre);
      ScanResult(store, prefix, pre, wanted);
      ScanUnlisted(store, prefix, pre, wanted);
      var st := Scan(store, prefix, pre, wanted).0;
      var id := list[n];
      if id in store {
        if st[id] != store[id] {
          DecodeDeactivated(store[id], pre);
        }
        if id in prefix && store[id].isActive && ListedDecode(store, prefix, pre) {
          var i :| 0 <= i < n && prefix[i] == id;
          assert Decode(store[id], pre).Ok?;
        }
      }
    }
  }

  /** A visit that succeeds leaves the map active exactly when it was active and
      its identity is wanted, and touches no other map. */
  lemma VisitDeactivates(store: map<Id, AzCfMap>, id: Id, pre: Snapshot, wanted: seq<(string, string)>)
    requires id in store && Visit(store, id, pre, wanted).1.Ok?
    ensures var after := Visit(store, id, pre, wanted).0;
      && (after[id].isActive <==> store[id].isActive && Decode(store[id], pre).Ok? && Decode(store[id], pre).value in wanted)
      && forall k :: k in store && k != id ==> after[k] == store[k]
  {
  }

  /** A listed map is active in `after` exactly when it was active in `store`
      and decodes to a wanted identity. */
  ghost predicate KeptIffWanted(store: map<Id, AzCfMap>, after: map<Id, AzCfMap>, list: seq<Id>, pre: Snapshot,
                                wanted: seq<(string, string)>)
    requires forall i :: 0 <= i < |list| ==> list[i] in store && list[i] in after
  {
    forall i :: 0 <= i < |list| ==>
      (after[list[i]].isActive <==>
         store[list[i]].isActive && Decode(store[list[i]], pre).Ok? && Decode(store[list[i]], pre).value in wanted)
  }

  /** Extending the kept-iff-wanted property by one more listed map, given that
      the last step touched only that map and decided it correctly. */
  lemma KeptStep(store: map<Id, AzCfMap>, st: map<Id, AzCfMap>, after: map<Id, AzCfMap>, list: seq<Id>,
                 pre: Snapshot, wanted: seq<(string, string)>)
    requires |list| > 0 && forall i :: 0 <= i < |list| ==> list[i] in store
    requires st.Keys == store.Keys && after.Keys == store.Keys
    requires KeptIffWanted(store, st, list[..|list| - 1], pre, wanted)
    requires var id := list[|list| - 1];
      && (after[id].isActive <==>
            store[id].isActive && Decode(store[id], pre).Ok? && Decode(store[id], pre).value in wanted)
      && forall k :: k in st && k != id ==> after[k] == st[k]
    ensures KeptIffWanted(store, after, list, pre, wanted)
  {
    var n := |list| - 1;
    forall i | 0 <= i < |list|
      ensures after[list[i]].isActive <==>
        store[list[i]].isActive && Decode(store[list[i]], pre).Ok? && Decode(store[list[i]], pre).value in wanted
    {
      if list[i] != list[n] {
        assert list[..n][i] == list[i];
      }
    }
  }

  /** After a scan that succeeds, a listed map is active exactly when it was
      active before and decodes to a wanted identity. */
  lemma {:induction false} ScanDeactivates(store: map<Id, AzCfMap>, list: seq<Id>, pre: Snapshot, wanted: seq<(string, string)>)
    requires forall i :: 0 <= i < |list| ==> list[i] in store
    requires Scan(store, list, pre, wanted).1.Ok?
    ensures KeptIffWanted(store, Scan(store, list, pre, wanted).0, list, pre, wanted)
    decreases |list|
  {
    if |list| > 0 {
      var n := |list| - 1;
      var prefix := list[..n];
      assert forall i :: 0 <= i < n ==> prefix[i] == list[i];
      ScanDeactivates(store, prefix, pre, wanted);
      ScanUnlisted(store, prefix, pre, wanted);
      var st := Scan(store, prefix, pre, wanted).0;
      var after := Scan(store, list, pre, wanted).0;
      var id := list[n];
      assert after == Visit(st, id, pre, wanted).0;
      VisitDeactivates(st, id, pre, wanted);
      if st[id] != store[id] {
        DecodeDeactivated(store[id], pre);
      }
      if id in prefix {
        var j :| 0 <= j < n && prefix[j] == id;
        assert st[id].isActive ==> store[id].isActive;
      } else {
        assert st[id] == store[id];
      }
      KeptStep(store, st, after, list, pre, wanted);
    }
  }

  // ---- the upsert loop of mirror ----

  /** `update_adzerk` adds the link's fullname to the campaign names and no other name. */
  lemma UpdateNames(s: Snapshot, link: Link, c: PromoCampaign, now: Dates.Date)
    ensures Update(s, link, c, now).0.campaigns.byName.Keys == s.campaigns.byName.Keys + {link.fullname}
  {
    CampaignUpsertNames(s.campaigns, link, now);
  }

  /** The upsert loop of `mirror`: `update_adzerk` for each pair in order; the
      first failure propagates out of `mirror`, after the upserts done so far. */
  function UpdateAll(s: Snapshot, pairs: seq<(Link, PromoCampaign)>, now: Dates.Date): (Snapshot, Result<(), AdzerkError>)
    decreases |pairs|
  {
    if |pairs| == 0 then (s, Ok(()))
    else
      var n := |pairs| - 1;
      var prior := UpdateAll(s, pairs[..n], now);
      if prior.1.Err? then prior else Update(prior.0, pairs[n].0, pairs[n].1, now)
  }

  /** Once the loop has failed on a prefix of the pairs, the rest change nothing. */
  lemma {:induction false} UpdateAllStops(s: Snapshot, pairs: seq<(Link, PromoCampaign)>, now: Dates.Date, k: int)
    requires 0 <= k <= |pairs| && UpdateAll(s, pairs[..k], now).1.Err?
    ensures UpdateAll(s, pairs, now) == UpdateAll(s, pairs[..k], now)
    decreases |pairs|
  {
    if k == |pairs| {
      assert pairs[..k] == pairs;
    } else {
      var n := |pairs| - 1;
      assert pairs[..n][..k] == pairs[..k];
      UpdateAllStops(s, pairs[..n], now, k);
      UpdateAllFailed(s, pairs, now);
    }
  }

  /** A failure of the loop on all pairs but the last is its outcome. */
  lemma UpdateAllFailed(s: Snapshot, pairs: seq<(Link, PromoCampaign)>, now: Dates.Date)
    requires |pairs| > 0 && UpdateAll(s, pairs[..|pairs| - 1], now).1.Err?
    ensures UpdateAll(s, pairs, now) == UpdateAll(s, pairs[..|pairs| - 1], now)
  {
  }

  /** Every pair's promo campaign belongs to a link that has an Adzerk campaign
      by the time the pair is upserted: one named in `known` beforehand, or the
      link of this pair or of an earlier one. */
  ghost predicate OwnersKnown(known: set<string>, pairs: seq<(Link, PromoCampaign)>)
    decreases |pairs|
  {
    |pairs| == 0 ||
      (OwnersKnown(known, pairs[..|pairs| - 1])
       && LinkFullname(pairs[|pairs| - 1].1.linkId) in known + LinkNames(pairs))
  }

  /** The upsert loop keeps every list and index in agreement with the store. */
  lemma {:induction false} UpdateAllOk(s: Snapshot, pairs: seq<(Link, PromoCampaign)>, now: Dates.Date)
    requires SnapshotOk(s)
    ensures SnapshotOk(UpdateAll(s, pairs, now).0)
    decreases |pairs|
  {
    if |pairs| > 0 {
      var n := |pairs| - 1;
      UpdateAllOk(s, pairs[..n], now);
      var prior := UpdateAll(s, pairs[..n], now);
      if prior.1.Ok? {
        UpdateOk(prior.0, pairs[n].0, pairs[n].1, now);
      }
    }
  }

  /** One more pair: the loop over `pairs[..i + 1]` is `update_adzerk` of pair `i`
      after the loop over `pairs[..i]`, when that loop succeeded. */
  lemma UpdateAllStep(s: Snapshot, pairs: seq<(Link, PromoCampaign)>, now: Dates.Date, i: int)
    requires SnapshotOk(s) && 0 <= i < |pairs| && UpdateAll(s, pairs[..i], now).1.Ok?
    ensures UpdateAll(s, pairs[..i + 1], now) == Update(UpdateAll(s, pairs[..i], now).0, pairs[i].0, pairs[i].1, now)
  {
    assert pairs[..i + 1][..i] == pairs[..i];
  }

  /** The link fullnames of a list of pairs. */
  function LinkNames(pairs: seq<(Link, PromoCampaign)>): set<string>
  {
    if |pairs| == 0 then {} else LinkNames(pairs[..|pairs| - 1]) + {pairs[|pairs| - 1].0.fullname}
  }

  /** After a successful upsert loop the campaign names are the earlier ones and
      the pairs' link fullnames. */
  lemma {:induction false} UpdateAllNames(s: Snapshot, pairs: seq<(Link, PromoCampaign)>, now: Dates.Date)
    requires UpdateAll(s, pairs, now).1.Ok?
    ensures UpdateAll(s, pairs, now).0.campaigns.byName.Keys == s.campaigns.byName.Keys + LinkNames(pairs)
    decreases |pairs|
  {
    if |pairs| > 0 {
      var n := |pairs| - 1;
      var t := UpdateAll(s, pairs[..n], now).0;
      UpdateAllNames(s, pairs[..n], now);
      UpdateNames(t, pairs[n].0, pairs[n].1, now);
    }
  }

  /** The upsert loop succeeds exactly when every pair's promo campaign has a
      known owner, and the only error it raises is `ValueError`. */
  lemma {:induction false} UpdateAllResult(s: Snapshot, pairs: seq<(Link, PromoCampaign)>, now: Dates.Date)
    requires SnapshotOk(s)
    ensures var r := UpdateAll(s, pairs, now).1;
      && (r.Ok? <==> OwnersKnown(s.campaigns.byName.Keys, pairs))
      && (r.Err? ==> r.error == MissingCampaign)
    decreases |pairs|
  {
    if |pairs| > 0 {
      var n := |pairs| - 1;
      UpdateAllResult(s, pairs[..n], now);
      var prior := UpdateAll(s, pairs[..n], now);
      if prior.1.Ok? {
        UpdateAllOk(s, pairs[..n], now);
        UpdateAllNames(s, pairs[..n], now);
        UpdateResult(prior.0, pairs[n].0, pairs[n].1, now);
      }
    }
  }

  /** The upsert loop deletes nothing and renames no creative or flight. */
  lemma {:induction false} UpdateAllGrows(s: Snapshot, pairs: seq<(Link, PromoCampaign)>, now: Dates.Date)
    requires SnapshotOk(s)
    ensures Grows(s, UpdateAll(s, pairs, now).0)
    decreases |pairs|
  {
    if |pairs| > 0 {
      var n := |pairs| - 1;
      UpdateAllGrows(s, pairs[..n], now);
      UpdateAllOk(s, pairs[..n], now);
      var (t, res) := UpdateAll(s, pairs[..n], now);
      var u := UpdateAll(s, pairs, now).0;
      if res.Ok? {
        assert u == Update(t, pairs[n].0, pairs[n].1, now).0;
        UpdateGrows(t, pairs[n].0, pairs[n].1, now);
        GrowsTrans(s, t, u);
      } else {
        assert u == t;
      }
    }
  }

  /** Neither fullname of any pair contains '-'. */
  ghost predicate DashFree(pairs: seq<(Link, PromoCampaign)>)
  {
    forall i :: 0 <= i < |pairs| ==> '-' !in pairs[i].0.fullname && '-' !in pairs[i].1.fullname
  }

  /** With dash-free fullnames the upsert loop keeps every active map decodable
      against the snapshot as it then is. */
  lemma {:induction false} UpdateAllDecodes(s: Snapshot, pairs: seq<(Link, PromoCampaign)>, now: Dates.Date)
    requires SnapshotOk(s) && ActiveDecode(s, s) && DashFree(pairs)
    ensures ActiveDecode(UpdateAll(s, pairs, now).0, UpdateAll(s, pairs, now).0)
    decreases |pairs|
  {
    if |pairs| > 0 {
      var n := |pairs| - 1;
      assert DashFree(pairs[..n]) by {
        assert forall i :: 0 <= i < n ==> pairs[..n][i] == pairs[i];
      }
      var prior := UpdateAll(s, pairs[..n], now);
      if prior.1.Ok? {
        UpdateAllDecodes(s, pairs[..n], now);
        UpdateAllOk(s, pairs[..n], now);
        UpdateDecodes(prior.0, pairs[n].0, pairs[n].1, now);
      } else {
        UpdateAllDecodes(s, pairs[..n], now);
      }
    }
  }

  // ---- the scan of mirror, end to end ----

  /** The (link fullname, campaign fullname) identities the active maps of
      `store` stand for, decoding against `pre`. */
  ghost function ActiveIdentities(store: map<Id, AzCfMap>, pre: Snapshot): set<(string, string)>
  {
    set id | id in store && store[id].isActive && Decode(store[id], pre).Ok? :: Decode(store[id], pre).value
  }

  /** Decoding reads the campaign, creative and flight stores only. */
  lemma IdentitiesSameParents(store: map<Id, AzCfMap>, s: Snapshot, t: Snapshot)
    requires s.campaigns == t.campaigns && s.creatives == t.creatives && s.flights == t.flights
    ensures ActiveIdentities(store, s) == ActiveIdentities(store, t)
  {
    forall m | true ensures Decode(m, s) == Decode(m, t) { }
  }

  /** Two maps under the same key whose campaigns are both stored decode alike. */
  lemma DecodeSameKey(m: AzCfMap, n: AzCfMap, pre: Snapshot)
    requires MapKey(m) == MapKey(n) && m.campaignId in pre.campaigns.store && n.campaignId in pre.campaigns.store
    ensures Decode(m, pre) == Decode(n, pre)
  {
  }

  /** A scan that kept exactly the wanted maps among the listed ones leaves
      active exactly the identities that were active and are wanted. */
  lemma KeptIdentities(store: map<Id, AzCfMap>, after: map<Id, AzCfMap>, list: seq<Id>, pre: Snapshot,
                       wanted: seq<(string, string)>)
    requires forall id :: id in store <==> id in list
    requires after.Keys == store.Keys
    requires forall k :: k in store ==> after[k] == store[k] || after[k] == Deactivated(store[k])
    requires forall i :: 0 <= i < |list| ==> list[i] in store && list[i] in after
    requires KeptIffWanted(store, after, list, pre, wanted)
    ensures forall p :: p in ActiveIdentities(after, pre) <==> p in ActiveIdentities(store, pre) && p in wanted
  {
    forall p | p in ActiveIdentities(after, pre)
      ensures p in ActiveIdentities(store, pre) && p in wanted
    {
      var id :| id in after && after[id].isActive && Decode(after[id], pre).Ok? && Decode(after[id], pre).value == p;
      var i :| 0 <= i < |list| && list[i] == id;
      assert after[id] == store[id];
    }
    forall p | p in ActiveIdentities(store, pre) && p in wanted
      ensures p in ActiveIdentities(after, pre)
    {
      var id :| id in store && store[id].isActive && Decode(store[id], pre).Ok? && Decode(store[id], pre).value == p;
      var i :| 0 <= i < |list| && list[i] == id;
      assert after[id].isActive;
      assert after[id] == store[id];
    }
  }

  /** `update_adzerk` never deactivates a map. */
  lemma UpdateKeepsActive(s: Snapshot, link: Link, c: PromoCampaign, now: Dates.Date)
    requires SnapshotOk(s)
    ensures var t := Update(s, link, c, now).0;
      forall id :: id in s.cfmaps.store && s.cfmaps.store[id].isActive ==> id in t.cfmaps.store && t.cfmaps.store[id].isActive
  {
    UpdateResult(s, link, c, now);
    if Update(s, link, c, now).1.Ok? {
      UpdatePairLive(s, link, c, now);
    }
  }

  /** A step that grows the parents, keeps every map but one as it was, and
      leaves that one active under its key with a stored campaign, keeps every
      active identity. */
  lemma IdentitiesKept(s: Snapshot, t: Snapshot, pairId: Id)
    requires Grows(s, t)
    requires s.cfmaps.store.Keys <= t.cfmaps.store.Keys
    requires forall id :: id in t.cfmaps.store && id != pairId ==> id in s.cfmaps.store && t.cfmaps.store[id] == s.cfmaps.store[id]
    requires pairId in t.cfmaps.store && t.cfmaps.store[pairId].isActive && t.cfmaps.store[pairId].campaignId in t.campaigns.store
    requires pairId in s.cfmaps.store ==> MapKey(t.cfmaps.store[pairId]) == MapKey(s.cfmaps.store[pairId])
    ensures ActiveIdentities(s.cfmaps.store, s) <= ActiveIdentities(t.cfmaps.store, t)
  {
    forall p | p in ActiveIdentities(s.cfmaps.store, s)
      ensures p in ActiveIdentities(t.cfmaps.store, t)
    {
      var id :| id in s.cfmaps.store && s.cfmaps.store[id].isActive && Decode(s.cfmaps.store[id], s).Ok?
                && Decode(s.cfmaps.store[id], s).value == p;
      var m := s.cfmaps.store[id];
      DecodeGrows(m, s, t);
      if id == pairId {
        DecodeSameKey(m, t.cfmaps.store[id], t);
      }
      assert Decode(t.cfmaps.store[id], t) == Decode(m, s);
    }
  }

  /** After a successful `update_adzerk` with dash-free fullnames, the pair's
      identity is active, and so is every identity that was. */
  lemma UpdateIdentities(s: Snapshot, link: Link, c: PromoCampaign, now: Dates.Date)
    requires SnapshotOk(s) && Update(s, link, c, now).1.Ok?
    requires '-' !in link.fullname && '-' !in c.fullname
    ensures var t := Update(s, link, c, now).0;
      && ActiveIdentities(s.cfmaps.store, s) <= ActiveIdentities(t.cfmaps.store, t)
      && (link.fullname, c.fullname) in ActiveIdentities(t.cfmaps.store, t)
  {
    var t := Update(s, link, c, now).0;
    UpdateOk(s, link, c, now);
    UpdateGrows(s, link, c, now);
    UpdatePairLive(s, link, c, now);
    PairDecodes(t, link, c);
    var m := PairMap(t, link, c);
    var pairId := t.cfmaps.lookup[MapKey(m)];
    assert t.cfmaps.store[pairId] == m;
    IdentitiesKept(s, t, pairId);
  }

  /** After a successful upsert loop with dash-free fullnames, every pair's
      identity is active, and so is every identity that was. */
  lemma {:induction false} UpdateAllIdentities(s: Snapshot, pairs: seq<(Link, PromoCampaign)>, now: Dates.Date)
    requires SnapshotOk(s) && DashFree(pairs) && UpdateAll(s, pairs, now).1.Ok?
    ensures var t := UpdateAll(s, pairs, now).0;
      && ActiveIdentities(s.cfmaps.store, s) <= ActiveIdentities(t.cfmaps.store, t)
      && forall i :: 0 <= i < |pairs| ==> (pairs[i].0.fullname, pairs[i].1.fullname) in ActiveIdentities(t.cfmaps.store, t)
    decreases |pairs|
  {
    if |pairs| > 0 {
      var n := |pairs| - 1;
      assert DashFree(pairs[..n]) by {
        assert forall i :: 0 <= i < n ==> pairs[..n][i] == pairs[i];
      }
      var prior := UpdateAll(s, pairs[..n], now).0;
      var t := UpdateAll(s, pairs, now).0;
      assert t == Update(prior, pairs[n].0, pairs[n].1, now).0;
      UpdateAllIdentities(s, pairs[..n], now);
      UpdateAllOk(s, pairs[..n], now);
      UpdateIdentities(prior, pairs[n].0, pairs[n].1, now);
      PairsActiveStep(pairs, ActiveIdentities(prior.cfmaps.store, prior), ActiveIdentities(t.cfmaps.store, t));
    }
  }

  /** Every pair of a prefix is active before a step that keeps all active
      identities and activates the last pair: then every pair is active after it. */
  lemma PairsActiveStep(pairs: seq<(Link, PromoCampaign)>, before: set<(string, string)>, after: set<(string, string)>)
    requires |pairs| > 0 && before <= after
    requires var prefix := pairs[..|pairs| - 1];
      forall i :: 0 <= i < |prefix| ==> (prefix[i].0.fullname, prefix[i].1.fullname) in before
    requires (pairs[|pairs| - 1].0.fullname, pairs[|pairs| - 1].1.fullname) in after
    ensures forall i :: 0 <= i < |pairs| ==> (pairs[i].0.fullname, pairs[i].1.fullname) in after
  {
    var n := |pairs| - 1;
    forall i | 0 <= i < n ensures (pairs[i].0.fullname, pairs[i].1.fullname) in after {
      assert pairs[..n][i] == pairs[i];
    }
  }

  /** `mirror` as written: the upsert loop, then the scan over every listed map,
      decoding against the dictionaries built from the snapshot `s` taken before
      the upserts, and keeping a map only when its identity, a pair of strings,
      is among the (link, promo campaign) object pairs passed in, which no pair
      of strings equals, so that nothing is wanted. */
  function MirrorAsWritten(s: Snapshot, pairs: seq<(Link, PromoCampaign)>, now: Dates.Date): (Snapshot, Result<(), AdzerkError>)
  {
    var (t, res) := UpdateAll(s, pairs, now);
    if res.Err? then (t, res) else Scanned(t, s, [])
  }

  /** `mirror` as intended: the scan decodes against the snapshot after the
      upserts, and keeps a map exactly when its identity is the fullname pair of
      one of the pairs passed in. */
  function Mirror(s: Snapshot, pairs: seq<(Link, PromoCampaign)>, now: Dates.Date): (Snapshot, Result<(), AdzerkError>)
  {
    var (t, res) := UpdateAll(s, pairs, now);
    if res.Err? then (t, res) else Scanned(t, t, Wanted(pairs))
  }

  /** The snapshot after a scan of its own maps. */
  function Scanned(t: Snapshot, pre: Snapshot, wanted: seq<(string, string)>): (Snapshot, Result<(), AdzerkError>)
  {
    var (store, scanned) := Scan(t.cfmaps.store, t.cfmaps.list, pre, wanted);
    (t.(cfmaps := t.cfmaps.(store := store)), scanned)
  }

  /** A scan keeps the snapshot's lists and indexes in agreement: it only
      deactivates maps, which keeps their keys. */
  lemma ScannedOk(t: Snapshot, pre: Snapshot, wanted: seq<(string, string)>)
    requires SnapshotOk(t)
    ensures SnapshotOk(Scanned(t, pre, wanted).0)
  {
    var store := Scan(t.cfmaps.store, t.cfmaps.list, pre, wanted).0;
    forall k | k in store ensures MapKey(store[k]) == MapKey(t.cfmaps.store[k]) { }
  }

  /** Both `mirror`s keep every list and index in agreement with the store. */
  lemma MirrorOk(s: Snapshot, pairs: seq<(Link, PromoCampaign)>, now: Dates.Date)
    requires SnapshotOk(s)
    ensures SnapshotOk(Mirror(s, pairs, now).0) && SnapshotOk(MirrorAsWritten(s, pairs, now).0)
  {
    UpdateAllOk(s, pairs, now);
    var t := UpdateAll(s, pairs, now).0;
    ScannedOk(t, t, Wanted(pairs));
    ScannedOk(t, s, []);
  }

  /** `update_adzerk` never adds a second campaign, creative, flight or map of
      one key. */
  lemma UpdateKeysUnique(s: Snapshot, link: Link, c: PromoCampaign, now: Dates.Date)
    requires SnapshotOk(s) && KeysUnique(s)
    ensures KeysUnique(Update(s, link, c, now).0)
  {
    CampaignUpsertOk(s.campaigns, link, now);
    CampaignUpsertUnique(s.campaigns, link, now);
    CreativeUpsertUnique(s.creatives, CreativeFor(link, c));
    var campaigns := CampaignUpsert(s.campaigns, link, now).0;
    var owner := LinkFullname(c.linkId);
    if owner in campaigns.byName {
      var f := FlightFor(c, campaigns.byName[owner]);
      FlightUpsertUnique(s.flights, f);
      var creatives := CreativeUpsert(s.creatives, CreativeFor(link, c)).0;
      var flights := FlightUpsert(s.flights, f).0;
      var title := CreativeTitle(link, c);
      if link.fullname in campaigns.byName && title in creatives.byTitle && c.fullname in flights.byName {
        CfMapUpsertUnique(s.cfmaps, CfMapFor(campaigns.byName[link.fullname], creatives.byTitle[title], flights.byName[c.fullname], c));
      }
    }
  }

  /** The upsert loop never adds a second entity of one key. */
  lemma {:induction false} UpdateAllKeysUnique(s: Snapshot, pairs: seq<(Link, PromoCampaign)>, now: Dates.Date)
    requires SnapshotOk(s) && KeysUnique(s)
    ensures SnapshotOk(UpdateAll(s, pairs, now).0) && KeysUnique(UpdateAll(s, pairs, now).0)
    decreases |pairs|
  {
    if |pairs| > 0 {
      var n := |pairs| - 1;
      UpdateAllKeysUnique(s, pairs[..n], now);
      StepKeysUnique(UpdateAll(s, pairs[..n], now), pairs[n].0, pairs[n].1, now);
    }
  }

  /** One turn of the loop, after the turns before it left `prior`. */
  lemma StepKeysUnique(prior: (Snapshot, Result<(), AdzerkError>), link: Link, c: PromoCampaign, now: Dates.Date)
    requires SnapshotOk(prior.0) && KeysUnique(prior.0)
    ensures var next := if prior.1.Err? then prior else Update(prior.0, link, c, now);
      SnapshotOk(next.0) && KeysUnique(next.0)
  {
    if prior.1.Ok? {
      UpdateOk(prior.0, link, c, now);
      UpdateKeysUnique(prior.0, link, c, now);
    }
  }

  /** A scan keeps every key unique: it changes no map's key. */
  lemma ScannedKeysUnique(t: Snapshot, pre: Snapshot, wanted: seq<(string, string)>)
    requires KeysUnique(t)
    ensures KeysUnique(Scanned(t, pre, wanted).0)
  {
    var store := Scan(t.cfmaps.store, t.cfmaps.list, pre, wanted).0;
    forall k | k in store ensures MapKey(store[k]) == MapKey(t.cfmaps.store[k]) { }
  }

  /** Neither `mirror` adds a second entity of one key. */
  lemma MirrorKeysUnique(s: Snapshot, pairs: seq<(Link, PromoCampaign)>, now: Dates.Date)
    requires SnapshotOk(s) && KeysUnique(s)
    ensures KeysUnique(Mirror(s, pairs, now).0) && KeysUnique(MirrorAsWritten(s, pairs, now).0)
  {
    UpdateAllKeysUnique(s, pairs, now);
    var t := UpdateAll(s, pairs, now).0;
    ScannedKeysUnique(t, t, Wanted(pairs));
    ScannedKeysUnique(t, s, []);
  }

  /** A scan of a consistent snapshot whose active maps all decode, against
      itself, succeeds, and when every wanted identity is active it leaves active
      exactly the wanted identities. */
  lemma ScannedSpec(t: Snapshot, wanted: seq<(string, string)>)
    requires SnapshotOk(t) && ActiveDecode(t, t)
    requires forall p :: p in wanted ==> p in ActiveIdentities(t.cfmaps.store, t)
    ensures var (u, r) := Scanned(t, t, wanted);
      r.Ok? && forall p :: p in ActiveIdentities(u.cfmaps.store, u) <==> p in wanted
  {
    var list := t.cfmaps.list;
    var (after, scanned) := Scan(t.cfmaps.store, list, t, wanted);
    assert ListedDecode(t.cfmaps.store, list, t);
    ScanResult(t.cfmaps.store, list, t, wanted);
    ScanDeactivates(t.cfmaps.store, list, t, wanted);
    KeptIdentities(t.cfmaps.store, after, list, t, wanted);
    IdentitiesSameParents(after, Scanned(t, t, wanted).0, t);
  }

  /** Every pair's identity being in `active` puts every wanted identity there. */
  lemma WantedActive(pairs: seq<(Link, PromoCampaign)>, active: set<(string, string)>)
    requires forall i :: 0 <= i < |pairs| ==> (pairs[i].0.fullname, pairs[i].1.fullname) in active
    ensures forall p :: p in Wanted(pairs) ==> p in active
  {
    forall p | p in Wanted(pairs) ensures p in active {
      var i :| 0 <= i < |pairs| && Wanted(pairs)[i] == p;
    }
  }

  /** `mirror` activates exactly the given pairs: from a consistent snapshot
      whose active maps decode, with dash-free fullnames, it fails only with the
      `ValueError` of a promo campaign whose link has no Adzerk campaign, and
      otherwise leaves active exactly the maps whose identities are the pairs'. */
  lemma MirrorSpec(s: Snapshot, pairs: seq<(Link, PromoCampaign)>, now: Dates.Date)
    requires SnapshotOk(s) && ActiveDecode(s, s) && DashFree(pairs)
    ensures var (u, r) := Mirror(s, pairs, now);
      && (r.Ok? <==> OwnersKnown(s.campaigns.byName.Keys, pairs))
      && (r.Err? ==> r.error == MissingCampaign)
      && (r.Ok? ==> forall p :: p in ActiveIdentities(u.cfmaps.store, u) <==> p in Wanted(pairs))
  {
    UpdateAllResult(s, pairs, now);
    var (t, res) := UpdateAll(s, pairs, now);
    if res.Ok? {
      UpdateAllOk(s, pairs, now);
      UpdateAllDecodes(s, pairs, now);
      UpdateAllIdentities(s, pairs, now);
      WantedActive(pairs, ActiveIdentities(t.cfmaps.store, t));
      ScannedSpec(t, Wanted(pairs));
      assert Mirror(s, pairs, now) == Scanned(t, t, Wanted(pairs));
    }
  }

  /** Finding: `mirror` fails on its first use. From the empty snapshot, one pair
      whose promo campaign belongs to its own link creates a campaign, creative,
      flight and map, and the scan then looks the new map's campaign up among the
      campaigns that existed before, and raises `KeyError`. */
  lemma MirrorAsWrittenMissesNewMaps(link: Link, c: PromoCampaign, now: Dates.Date)
    requires LinkFullname(c.linkId) == link.fullname
    ensures MirrorAsWritten(Empty(), [(link, c)], now).1 == Err(KeyError)
  {
    var s := Empty();
    var pairs := [(link, c)];
    assert pairs[..0] == [];
    UpdateResult(s, link, c, now);
    var t := Update(s, link, c, now).0;
    assert UpdateAll(s, pairs, now) == Update(s, link, c, now);
    UpdatePairLive(s, link, c, now);
    CfMapUpsertSpec(s.cfmaps, PairMap(t, link, c));
    var id := t.cfmaps.lookup[MapKey(PairMap(t, link, c))];
    assert t.cfmaps.list == [id];
    assert [id][..0] == [];
    assert Scan(t.cfmaps.store, [id], s, []) == Visit(t.cfmaps.store, id, s, []);
  }

  /** The same first use of `Mirror` succeeds. */
  lemma MirrorFirstUse(link: Link, c: PromoCampaign, now: Dates.Date)
    requires LinkFullname(c.linkId) == link.fullname && '-' !in c.fullname
    ensures Mirror(Empty(), [(link, c)], now).1 == Ok(())
  {
    var s := Empty();
    var pairs := [(link, c)];
    assert pairs[..0] == [];
    assert LinkNames(pairs) == {link.fullname};
    assert OwnersKnown(s.campaigns.byName.Keys, pairs);
    MirrorSpec(s, pairs, now);
  }

  /** Finding: whenever the scan of `mirror` as written completes, it has
      deactivated every map, the maps of the pairs passed in included. */
  lemma MirrorAsWrittenDeactivatesAll(s: Snapshot, pairs: seq<(Link, PromoCampaign)>, now: Dates.Date)
    requires SnapshotOk(s)
    ensures var (u, r) := MirrorAsWritten(s, pairs, now);
      r.Ok? ==> forall id :: id in u.cfmaps.store ==> !u.cfmaps.store[id].isActive
  {
    var (t, res) := UpdateAll(s, pairs, now);
    if res.Ok? {
      UpdateAllOk(s, pairs, now);
      var list := t.cfmaps.list;
      if Scan(t.cfmaps.store, list, s, []).1.Ok? {
        ScanDeactivates(t.cfmaps.store, list, s, []);
        var after := Scan(t.cfmaps.store, list, s, []).0;
        forall id | id in after ensures !after[id].isActive {
          var i :| 0 <= i < |list| && list[i] == id;
        }
      }
    }
  }
}
