/** The `Adzerk` client object. Its attributes are grouped by entity kind: the
    field `campaigns` holds `self.campaigns` (as ids) together with
    `campaigns_by_name`, and likewise for creatives (`creatives_by_title`),
    flights (`flights_by_name`, `flights_by_campaign`) and maps
    (`cfmaps_by_flight`, `cfmap_lookup`). Each group also holds the part of the
    remote store the client mirrors, a map from id to record (`_send()` writes
    the record into it, `create` files it under the group's next id). Every
    method is proved to leave the fields as the matching function on snapshot
    values does. */
module Adzerk {
  import opened Wrappers
  import opened AdzerkRecords
  import opened AdzerkSnapshot
  import opened AdzerkUpdate
  import opened AdzerkLoad
  import opened Indexes
  import Dates

  class Adzerk {
    /** Whether `load` has run; before it the name indexes do not exist. */
    var loaded: bool
    var campaigns: Campaigns
    var creatives: Creatives
    var flights: Flights
    var cfmaps: CfMaps

    /** The client's fields as a snapshot value. */
    function Snap(): Snapshot
      reads this
    {
      Snapshot(campaigns, creatives, flights, cfmaps)
    }

    /** `Adzerk(key)`: every list and grouping empty, nothing loaded. */
    constructor ()
      ensures !loaded && Snap() == Empty()
    {
      loaded := false;
      campaigns := Campaigns([], map[], map[], 0);
      creatives := Creatives([], map[], map[], 0);
      flights := Flights([], map[], map[], map[], 0);
      cfmaps := CfMaps([], map[], map[], map[], 0);
    }

    /** `load` on a fresh client. */
    method Load(l: Listing)
      requires !loaded && Snap() == Empty()
      modifies this
      ensures loaded && Snap() == Loaded(l)
    {
      var s := LoadSnapshot(l);
      campaigns, creatives, flights, cfmaps := s.campaigns, s.creatives, s.flights, s.cfmaps;
      loaded := true;
    }

    /** `link_to_campaign`: refresh the link's campaign or create it; its id is returned. */
    method LinkToCampaign(link: Link, now: Dates.Date) returns (id: Id)
      requires loaded
      modifies this`campaigns
      ensures (campaigns, id) == CampaignUpsert(old(campaigns), link, now)
    {
      if link.fullname in campaigns.byName && campaigns.byName[link.fullname] in campaigns.store {
        id := campaigns.byName[link.fullname];
        campaigns := campaigns.(store := campaigns.store[id := Refreshed(campaigns.store[id])]);
      } else {
        id := campaigns.next;
        campaigns := Campaigns(campaigns.list + [id], campaigns.store[id := NewCampaign(link, now)],
                               campaigns.byName[link.fullname := id], campaigns.next + 1);
      }
    }

    /** `link_to_creative`: rewrite the pair's creative or create it; its id is returned. */
    method LinkToCreative(link: Link, c: PromoCampaign) returns (id: Id)
      requires loaded
      modifies this`creatives
      ensures (creatives, id) == CreativeUpsert(old(creatives), CreativeFor(link, c))
    {
      var title := CreativeTitle(link, c);
      var cr := CreativeFor(link, c);
      if title in creatives.byTitle && creatives.byTitle[title] in creatives.store {
        id := creatives.byTitle[title];
        creatives := creatives.(store := creatives.store[id := CreativeRewritten(creatives.store[id], cr)]);
      } else {
        id := creatives.next;
        creatives := Creatives(creatives.list + [id], creatives.store[id := cr], creatives.byTitle[title := id],
                               creatives.next + 1);
      }
    }

    /** `campaign_to_flight`: `ValueError` when the promo campaign's link has no
        Adzerk campaign; otherwise rewrite its flight or create it, and return its id. */
    method CampaignToFlight(c: PromoCampaign) returns (r: Result<Id, AdzerkError>)
      requires loaded
      modifies this`flights
      ensures LinkFullname(c.linkId) !in campaigns.byName ==> r == Err(MissingCampaign) && flights == old(flights)
      ensures LinkFullname(c.linkId) in campaigns.byName ==>
        r.Ok? && (flights, r.value) == FlightUpsert(old(flights), FlightFor(c, campaigns.byName[LinkFullname(c.linkId)]))
    {
      var owner := LinkFullname(c.linkId);
      if owner !in campaigns.byName {
        return Err(MissingCampaign);
      }
      var f := FlightFor(c, campaigns.byName[owner]);
      var id;
      if c.fullname in flights.byName && flights.byName[c.fullname] in flights.store {
        id := flights.byName[c.fullname];
        flights := flights.(store := flights.store[id := FlightRewritten(flights.store[id], f)]);
      } else {
        id := flights.next;
        flights := Flights(flights.list + [id], flights.store[id := f], flights.byName[c.fullname := id],
                           Appended(flights.byCampaign, f.campaignId, id), flights.next + 1);
      }
      r := Ok(id);
    }

    /** `make_cfmap`: `KeyError` when one of the three index lookups misses;
        otherwise rewrite the map joining the pair's creative and flight, or
        create it, and return its id. */
    method MakeCfMap(link: Link, c: PromoCampaign) returns (r: Result<Id, AdzerkError>)
      requires loaded
      modifies this`cfmaps
      ensures link.fullname !in campaigns.byName || CreativeTitle(link, c) !in creatives.byTitle
              || c.fullname !in flights.byName ==>
        r == Err(KeyError) && cfmaps == old(cfmaps)
      ensures link.fullname in campaigns.byName && CreativeTitle(link, c) in creatives.byTitle
              && c.fullname in flights.byName ==>
        r.Ok? && (cfmaps, r.value) == CfMapUpsert(old(cfmaps), PairMap(Snap(), link, c))
    {
      var title := CreativeTitle(link, c);
      if link.fullname !in campaigns.byName || title !in creatives.byTitle || c.fullname !in flights.byName {
        return Err(KeyError);
      }
      var m := CfMapFor(campaigns.byName[link.fullname], creatives.byTitle[title], flights.byName[c.fullname], c);
      var key := MapKey(m);
      var id;
      if key in cfmaps.lookup && cfmaps.lookup[key] in cfmaps.store {
        id := cfmaps.lookup[key];
        cfmaps := cfmaps.(store := cfmaps.store[id := m]);
      } else {
        id := cfmaps.next;
        cfmaps := CfMaps(cfmaps.list + [id], cfmaps.store[id := m], Appended(cfmaps.byFlight, m.flightId, id),
                         cfmaps.lookup[key := id], cfmaps.next + 1);
      }
      r := Ok(id);
    }

    /** `update_adzerk`: the four upserts in order; an error propagates and the
        upserts done before it stay. */
    method UpdateAdzerk(link: Link, c: PromoCampaign, now: Dates.Date) returns (r: Result<(), AdzerkError>)
      requires loaded
      modifies this
      ensures loaded && (Snap(), r) == Update(old(Snap()), link, c, now)
    {
      ghost var s := Snap();
      var _ := LinkToCampaign(link, now);
      assert campaigns == CampaignUpsert(s.campaigns, link, now).0;
      var _ := LinkToCreative(link, c);
      assert Snap() == s.(campaigns := campaigns, creatives := CreativeUpsert(s.creatives, CreativeFor(link, c)).0);
      var flight := CampaignToFlight(c);
      if flight.Err? {
        return Err(flight.error);
      }
      assert cfmaps == s.cfmaps;
      var cfmap := MakeCfMap(link, c);
      r := if cfmap.Ok? then Ok(()) else Err(KeyError);
    }

    /** The upsert loop of `mirror`. */
    method UpdateEach(pairs: seq<(Link, PromoCampaign)>, now: Dates.Date) returns (r: Result<(), AdzerkError>)
      requires loaded
      modifies this
      ensures loaded && (Snap(), r) == UpdateAll(old(Snap()), pairs, now)
    {
      r := Ok(());
      for i := 0 to |pairs|
        invariant loaded && r.Ok? && (Snap(), r) == UpdateAll(old(Snap()), pairs[..i], now)
      {
        assert pairs[..i + 1][..i] == pairs[..i];
        r := UpdateAdzerk(pairs[i].0, pairs[i].1, now);
        if r.Err? {
          UpdateAllStops(old(Snap()), pairs, now, i + 1);
          return;
        }
      }
      assert pairs[..|pairs|] == pairs;
    }

    /** The deactivation loop of `mirror`: skip inactive maps, fail on a map that
        does not decode against `pre`, deactivate one whose identity is not wanted. */
    method Deactivate(pre: Snapshot, wanted: seq<(string, string)>) returns (r: Result<(), AdzerkError>)
      modifies this`cfmaps
      ensures (Snap(), r) == Scanned(old(Snap()), pre, wanted)
    {
      r := Ok(());
      var list := cfmaps.list;
      for j := 0 to |list|
        invariant cfmaps == old(cfmaps).(store := cfmaps.store)
        invariant r.Ok? && (cfmaps.store, r) == Scan(old(cfmaps.store), list[..j], pre, wanted)
      {
        assert list[..j + 1][..j] == list[..j];
        var id := list[j];
        if id in cfmaps.store && cfmaps.store[id].isActive {
          var m := cfmaps.store[id];
          var decoded := Decode(m, pre);
          if decoded.Err? {
            r := Err(decoded.error);
            ScanStops(old(cfmaps.store), list, pre, wanted, j + 1);
            return;
          }
          if decoded.value !in wanted {
            cfmaps := cfmaps.(store := cfmaps.store[id := Deactivated(m)]);
          }
        }
      }
      assert list[..|list|] == list;
    }

    /** `mirror` as the source has it: the dictionaries the scan decodes through
        are taken before the upserts, and the identity test never matches. */
    method MirrorAsWritten(pairs: seq<(Link, PromoCampaign)>, now: Dates.Date) returns (r: Result<(), AdzerkError>)
      requires loaded
      modifies this
      ensures loaded && (Snap(), r) == AdzerkUpdate.MirrorAsWritten(old(Snap()), pairs, now)
    {
      var pre := Snap();
      r := UpdateEach(pairs, now);
      if r.Err? {
        return;
      }
      r := Deactivate(pre, []);
    }

    /** `mirror` as intended: decode against the client after the upserts and
        keep exactly the maps of the pairs passed in. */
    method Mirror(pairs: seq<(Link, PromoCampaign)>, now: Dates.Date) returns (r: Result<(), AdzerkError>)
      requires loaded
      modifies this
      ensures loaded && (Snap(), r) == AdzerkUpdate.Mirror(old(Snap()), pairs, now)
    {
      r := UpdateEach(pairs, now);
      if r.Err? {
        return;
      }
      r := Deactivate(Snap(), Wanted(pairs));
    }
  }

  /** The body of `load`: extend the creative list advertiser by advertiser and
      the map list flight by flight, group flights by campaign and maps by
      flight, and build the name indexes and the lookup. */
  method LoadSnapshot(l: Listing) returns (s: Snapshot)
    ensures s == Loaded(l)
  {
    var creativeEntries := ExtendListed(l.advertisers, l.creativesOf);
    assert creativeEntries == CreativeEntries(l);
    var cfmapEntries := ExtendListed(IdsOf(l.flights), l.cfmapsOf);
    assert cfmapEntries == CfMapEntries(l);
    var byCampaign := GroupBy(l.flights, FlightCampaign);
    var byFlight := GroupBy(cfmapEntries, MapFlight);
    var lookup := IndexBy(cfmapEntries, MapKey);
    var campaigns := Campaigns(IdsOf(l.campaigns), StoreOf(l.campaigns),
                               LastWins(KeyedIds(l.campaigns, CampaignName)), NextId(IdsOf(l.campaigns)));
    var creatives := Creatives(IdsOf(creativeEntries), StoreOf(creativeEntries),
                               LastWins(KeyedIds(creativeEntries, CreativeTitleOf)), NextId(IdsOf(creativeEntries)));
    var flights := Flights(IdsOf(l.flights), StoreOf(l.flights), LastWins(KeyedIds(l.flights, FlightName)),
                           byCampaign, NextId(IdsOf(l.flights)));
    var cfmaps := CfMaps(IdsOf(cfmapEntries), StoreOf(cfmapEntries), byFlight, lookup, NextId(IdsOf(cfmapEntries)));
    s := Snapshot(campaigns, creatives, flights, cfmaps);
  }

  /** `for parent in parents: entries.extend(X.list(parent) or [])`, from no entries. */
  method ExtendListed<V>(parents: seq<Id>, listOf: map<Id, seq<(Id, V)>>) returns (entries: seq<(Id, V)>)
    ensures entries == Flatten(Listings(parents, listOf))
  {
    entries := [];
    var lists := Listings(parents, listOf);
    for i := 0 to |parents|
      invariant entries == Flatten(lists[..i])
    {
      FlattenStep(lists, i);
      entries := entries + Listed(listOf, parents[i]);
    }
    assert lists[..|parents|] == lists;
  }

  /** `for e in entries: groups[key(e)].append(e)` on an empty `defaultdict(list)`. */
  method GroupBy<K, V>(entries: seq<(Id, V)>, key: V -> K) returns (groups: map<K, seq<Id>>)
    ensures groups == Grouped(KeyedIds(entries, key))
  {
    groups := map[];
    for i := 0 to |entries|
      invariant groups == Grouped(KeyedIds(entries[..i], key))
    {
      GroupedKeyedStep(entries, key, i);
      var k := key(entries[i].1);
      groups := groups[k := (if k in groups then groups[k] else []) + [entries[i].0]];
    }
    assert entries[..|entries|] == entries;
  }

  /** `for e in entries: index[key(e)] = e` on an empty dict. */
  method IndexBy<K, V>(entries: seq<(Id, V)>, key: V -> K) returns (index: map<K, Id>)
    ensures index == LastWins(KeyedIds(entries, key))
  {
    index := map[];
    for i := 0 to |entries|
      invariant index == LastWins(KeyedIds(entries[..i], key))
    {
      LastWinsKeyedStep(entries, key, i);
      index := index[key(entries[i].1) := entries[i].0];
    }
    assert entries[..|entries|] == entries;
  }
}
