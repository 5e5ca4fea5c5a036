/** `Adzerk.load` on values: the snapshot the client builds from what the
    service lists, and the agreement of its lists and indexes with the store. */
module AdzerkLoad {
  import opened AdzerkRecords
  import opened AdzerkSnapshot
  import opened Indexes

  /** What the service lists when `load` asks: the advertiser ids, the creatives
      of each advertiser, every flight, every campaign, and the maps of each
      flight, each record with its id. A parent missing from a per-parent map is
      one the service lists nothing for. */
  datatype Listing = Listing(
    advertisers: seq<Id>, creativesOf: map<Id, seq<(Id, AzCreative)>>,
    flights: seq<(Id, AzFlight)>, campaigns: seq<(Id, AzCampaign)>,
    cfmapsOf: map<Id, seq<(Id, AzCfMap)>>)

  /** `X.list(parent) or []`. */
  function Listed<V>(listOf: map<Id, seq<(Id, V)>>, parent: Id): seq<(Id, V)>
  {
    if parent in listOf then listOf[parent] else []
  }

  /** The listing of each parent, in the parents' order. */
  function Listings<V>(parents: seq<Id>, listOf: map<Id, seq<(Id, V)>>): (r: seq<seq<(Id, V)>>)
    ensures |r| == |parents|
    ensures forall i :: 0 <= i < |parents| ==> r[i] == Listed(listOf, parents[i])
  {
    seq(|parents|, i requires 0 <= i < |parents| => Listed(listOf, parents[i]))
  }

  /** `self.creatives` after the loop over advertisers. */
  function CreativeEntries(l: Listing): seq<(Id, AzCreative)>
  {
    Flatten(Listings(l.advertisers, l.creativesOf))
  }

  /** `self.cfmaps` after the loop over flights. */
  function CfMapEntries(l: Listing): seq<(Id, AzCfMap)>
  {
    Flatten(Listings(IdsOf(l.flights), l.cfmapsOf))
  }

  /** The id the service hands out next: one past the largest listed id. */
  function NextId(ids: seq<Id>): (n: Id)
    ensures forall i :: 0 <= i < |ids| ==> ids[i] < n
    ensures n == 0 || exists i :: 0 <= i < |ids| && ids[i] == n - 1
  {
    if |ids| == 0 then 0
    else
      var m := NextId(ids[..|ids| - 1]);
      assert forall i :: 0 <= i < |ids| - 1 ==> ids[..|ids| - 1][i] == ids[i];
      if ids[|ids| - 1] < m then m else ids[|ids| - 1] + 1
  }

  // The keys the indexes of `load` are built on.
  function CampaignName(c: AzCampaign): string { c.name }
  function CreativeTitleOf(cr: AzCreative): string { cr.title }
  function FlightName(f: AzFlight): string { f.name }
  function FlightCampaign(f: AzFlight): Id { f.campaignId }
  function MapFlight(m: AzCfMap): Id { m.flightId }

  /** The campaign state `load` builds: the list as listed, and the name index
      with the last campaign of a name winning. */
  function LoadedCampaigns(entries: seq<(Id, AzCampaign)>): Campaigns
  {
    Campaigns(IdsOf(entries), StoreOf(entries), LastWins(KeyedIds(entries, CampaignName)), NextId(IdsOf(entries)))
  }

  function LoadedCreatives(entries: seq<(Id, AzCreative)>): Creatives
  {
    Creatives(IdsOf(entries), StoreOf(entries), LastWins(KeyedIds(entries, CreativeTitleOf)), NextId(IdsOf(entries)))
  }

  /** The flight state `load` builds: besides the name index, the flights grouped
      by campaign in list order. */
  function LoadedFlights(entries: seq<(Id, AzFlight)>): Flights
  {
    Flights(IdsOf(entries), StoreOf(entries), LastWins(KeyedIds(entries, FlightName)),
            Grouped(KeyedIds(entries, FlightCampaign)), NextId(IdsOf(entries)))
  }

  /** The map state `load` builds: the maps grouped by flight, and `cfmap_lookup`
      with the last map of a (flight id, creative id) key winning. */
  function LoadedCfMaps(entries: seq<(Id, AzCfMap)>): CfMaps
  {
    CfMaps(IdsOf(entries), StoreOf(entries), Grouped(KeyedIds(entries, MapFlight)),
           LastWins(KeyedIds(entries, MapKey)), NextId(IdsOf(entries)))
  }

  /** The snapshot `load` builds on a fresh client. */
  function Loaded(l: Listing): Snapshot
  {
    Snapshot(LoadedCampaigns(l.campaigns), LoadedCreatives(CreativeEntries(l)),
             LoadedFlights(l.flights), LoadedCfMaps(CfMapEntries(l)))
  }

  /** The service never lists two records of one kind under one id. */
  predicate ListingDistinct(l: Listing)
  {
    DistinctIds(CreativeEntries(l)) && DistinctIds(l.flights) && DistinctIds(l.campaigns) && DistinctIds(CfMapEntries(l))
  }

  /** A list of records and the store built from it hold the same ids, all below the next id. */
  lemma ListedStore<V>(entries: seq<(Id, V)>)
    ensures forall id :: id in IdsOf(entries) <==> id in StoreOf(entries)
    ensures forall id :: id in StoreOf(entries) ==> id < NextId(IdsOf(entries))
  {
    forall id | id in StoreOf(entries)
      ensures id in IdsOf(entries) && id < NextId(IdsOf(entries))
    {
      var i :| 0 <= i < |entries| && entries[i].0 == id;
      assert IdsOf(entries)[i] == id;
    }
  }

  /** The service lists no two records of one kind under one key: campaigns and
      flights by name, creatives by title, maps by (flight id, creative id). */
  ghost predicate ListingKeysDistinct(l: Listing)
  {
    && KeysDistinctIn(l.campaigns, CampaignName) && KeysDistinctIn(CreativeEntries(l), CreativeTitleOf)
    && KeysDistinctIn(l.flights, FlightName) && KeysDistinctIn(CfMapEntries(l), MapKey)
  }

  /** `load` keeps every record the service lists, so its snapshot has unique
      keys exactly when the listing repeats no key: two listed campaigns of one
      name both stay stored, and the name index leads to the later one only. */
  lemma LoadedKeysUnique(l: Listing)
    requires ListingDistinct(l)
    ensures KeysUnique(Loaded(l)) <==> ListingKeysDistinct(l)
  {
    LoadedCampaignKeys(l.campaigns);
    LoadedCreativeKeys(CreativeEntries(l));
    LoadedFlightKeys(l.flights);
    LoadedCfMapKeys(CfMapEntries(l));
  }

  lemma LoadedCampaignKeys(entries: seq<(Id, AzCampaign)>)
    requires DistinctIds(entries)
    ensures CampaignKeysUnique(LoadedCampaigns(entries)) <==> KeysDistinctIn(entries, CampaignName)
  {
    var store := LoadedCampaigns(entries).store;
    StoreKeysUnique(entries, CampaignName);
    assert CampaignKeysUnique(LoadedCampaigns(entries)) <==> KeysUniqueIn(store, CampaignName);
  }

  lemma LoadedCreativeKeys(entries: seq<(Id, AzCreative)>)
    requires DistinctIds(entries)
    ensures CreativeKeysUnique(LoadedCreatives(entries)) <==> KeysDistinctIn(entries, CreativeTitleOf)
  {
    var store := LoadedCreatives(entries).store;
    StoreKeysUnique(entries, CreativeTitleOf);
    assert CreativeKeysUnique(LoadedCreatives(entries)) <==> KeysUniqueIn(store, CreativeTitleOf);
  }

  lemma LoadedFlightKeys(entries: seq<(Id, AzFlight)>)
    requires DistinctIds(entries)
    ensures FlightKeysUnique(LoadedFlights(entries)) <==> KeysDistinctIn(entries, FlightName)
  {
    var store := LoadedFlights(entries).store;
    StoreKeysUnique(entries, FlightName);
    assert FlightKeysUnique(LoadedFlights(entries)) <==> KeysUniqueIn(store, FlightName);
  }

  lemma LoadedCfMapKeys(entries: seq<(Id, AzCfMap)>)
    requires DistinctIds(entries)
    ensures CfMapKeysUnique(LoadedCfMaps(entries)) <==> KeysDistinctIn(entries, MapKey)
  {
    var store := LoadedCfMaps(entries).store;
    StoreKeysUnique(entries, MapKey);
    assert CfMapKeysUnique(LoadedCfMaps(entries)) <==> KeysUniqueIn(store, MapKey);
  }

  /** `load` leaves every list and index in agreement with the store. */
  lemma LoadedOk(l: Listing)
    requires ListingDistinct(l)
    ensures SnapshotOk(Loaded(l))
  {
    LoadedCampaignsOk(l.campaigns);
    LoadedCreativesOk(CreativeEntries(l));
    LoadedFlightsOk(l.flights);
    LoadedCfMapsOk(CfMapEntries(l));
  }

  lemma LoadedCampaignsOk(entries: seq<(Id, AzCampaign)>)
    requires DistinctIds(entries)
    ensures CampaignsOk(LoadedCampaigns(entries))
  {
    ListedStore(entries);
    KeyIndexAgrees(entries, CampaignName);
  }

  lemma LoadedCreativesOk(entries: seq<(Id, AzCreative)>)
    requires DistinctIds(entries)
    ensures CreativesOk(LoadedCreatives(entries))
  {
    ListedStore(entries);
    KeyIndexAgrees(entries, CreativeTitleOf);
  }

  lemma LoadedFlightsOk(entries: seq<(Id, AzFlight)>)
    requires DistinctIds(entries)
    ensures FlightsOk(LoadedFlights(entries))
  {
    ListedStore(entries);
    KeyIndexAgrees(entries, FlightName);
    GroupedIdsStored(entries, FlightCampaign);
  }

  lemma LoadedCfMapsOk(entries: seq<(Id, AzCfMap)>)
    requires DistinctIds(entries)
    ensures CfMapsOk(LoadedCfMaps(entries))
  {
    ListedStore(entries);
    KeyIndexAgrees(entries, MapKey);
    GroupedIdsStored(entries, MapFlight);
  }

  /** The client holds exactly what the service lists: each listed record under
      its id, and no id that is not listed. */
  lemma LoadedStores(l: Listing)
    requires ListingDistinct(l)
    ensures forall i :: 0 <= i < |l.campaigns| ==> Loaded(l).campaigns.store[l.campaigns[i].0] == l.campaigns[i].1
    ensures forall i :: 0 <= i < |l.flights| ==> Loaded(l).flights.store[l.flights[i].0] == l.flights[i].1
    ensures forall i :: 0 <= i < |CreativeEntries(l)| ==>
      Loaded(l).creatives.store[CreativeEntries(l)[i].0] == CreativeEntries(l)[i].1
    ensures forall i :: 0 <= i < |CfMapEntries(l)| ==>
      Loaded(l).cfmaps.store[CfMapEntries(l)[i].0] == CfMapEntries(l)[i].1
    ensures forall id :: id in Loaded(l).campaigns.store <==> id in IdsOf(l.campaigns)
    ensures forall id :: id in Loaded(l).flights.store <==> id in IdsOf(l.flights)
  {
    forall i | 0 <= i < |l.campaigns| ensures StoreOf(l.campaigns)[l.campaigns[i].0] == l.campaigns[i].1 {
      StoreOfAt(l.campaigns, i);
    }
    forall i | 0 <= i < |l.flights| ensures StoreOf(l.flights)[l.flights[i].0] == l.flights[i].1 {
      StoreOfAt(l.flights, i);
    }
    var creatives := CreativeEntries(l);
    forall i | 0 <= i < |creatives| ensures StoreOf(creatives)[creatives[i].0] == creatives[i].1 {
      StoreOfAt(creatives, i);
    }
    var cfmaps := CfMapEntries(l);
    forall i | 0 <= i < |cfmaps| ensures StoreOf(cfmaps)[cfmaps[i].0] == cfmaps[i].1 {
      StoreOfAt(cfmaps, i);
    }
    ListedStore(l.campaigns);
    ListedStore(l.flights);
  }

  /** The name index of `load` leads a name to the last listed campaign of that
      name, and holds exactly the listed names. */
  lemma LoadedNames(l: Listing, name: string)
    ensures name in Loaded(l).campaigns.byName <==> exists i :: 0 <= i < |l.campaigns| && l.campaigns[i].1.name == name
    ensures name in Loaded(l).campaigns.byName ==>
      exists i :: 0 <= i < |l.campaigns| && l.campaigns[i].1.name == name
        && l.campaigns[i].0 == Loaded(l).campaigns.byName[name]
        && forall j :: i < j < |l.campaigns| ==> l.campaigns[j].1.name != name
  {
    assert Loaded(l).campaigns.byName == LastWins(KeyedIds(l.campaigns, CampaignName));
    CampaignNames(l.campaigns, name);
  }

  /** Indexing listed campaigns by name: the names are the listed ones, each leading
      to the last campaign of that name. */
  lemma CampaignNames(campaigns: seq<(Id, AzCampaign)>, name: string)
    ensures var byName := LastWins(KeyedIds(campaigns, CampaignName));
      && (name in byName <==> exists i :: 0 <= i < |campaigns| && campaigns[i].1.name == name)
      && (name in byName ==>
            exists i :: 0 <= i < |campaigns| && campaigns[i].1.name == name
              && campaigns[i].0 == byName[name]
              && forall j :: i < j < |campaigns| ==> campaigns[j].1.name != name)
  {
    var keyed := KeyedIds(campaigns, CampaignName);
    LastWinsSpec(keyed, name);
    if exists i :: 0 <= i < |campaigns| && campaigns[i].1.name == name {
      var i :| 0 <= i < |campaigns| && campaigns[i].1.name == name;
      assert keyed[i].0 == name;
    }
  }

  /** `flights_by_campaign` after `load`: a campaign id has a group exactly when
      some listed flight belongs to it, and the group holds, in list order, the
      ids of exactly the flights that belong to it. */
  lemma LoadedGroups(l: Listing, c: Id, id: Id)
    ensures var groups := Loaded(l).flights.byCampaign;
      && (c in groups <==> exists i :: 0 <= i < |l.flights| && l.flights[i].1.campaignId == c)
      && (c in groups ==> groups[c] == Select(KeyedIds(l.flights, FlightCampaign), c))
      && (c in groups ==>
            (id in groups[c] <==> exists i :: 0 <= i < |l.flights| && l.flights[i].0 == id && l.flights[i].1.campaignId == c))
  {
    assert Loaded(l).flights.byCampaign == Grouped(KeyedIds(l.flights, FlightCampaign));
    FlightGroups(l.flights, c, id);
  }

  /** Grouping listed flights by campaign: a campaign has a group exactly when a
      flight belongs to it, and an id is in it exactly when that flight does. */
  lemma FlightGroups(flights: seq<(Id, AzFlight)>, c: Id, id: Id)
    ensures var keyed := KeyedIds(flights, FlightCampaign);
      var groups := Grouped(keyed);
      && (c in groups <==> exists i :: 0 <= i < |flights| && flights[i].1.campaignId == c)
      && (c in groups ==> groups[c] == Select(keyed, c))
      && (c in groups ==>
            (id in groups[c] <==> exists i :: 0 <= i < |flights| && flights[i].0 == id && flights[i].1.campaignId == c))
  {
    var keyed := KeyedIds(flights, FlightCampaign);
    GroupedSpec(keyed, c);
    SelectMembers(keyed, c, id);
    if exists i :: 0 <= i < |keyed| && keyed[i].0 == c {
      var i :| 0 <= i < |keyed| && keyed[i].0 == c;
      assert flights[i].1.campaignId == c;
    }
    if exists i :: 0 <= i < |flights| && flights[i].1.campaignId == c {
      var i :| 0 <= i < |flights| && flights[i].1.campaignId == c;
      assert keyed[i].0 == c;
    }
    if exists i :: 0 <= i < |keyed| && keyed[i] == (c, id) {
      var i :| 0 <= i < |keyed| && keyed[i] == (c, id);
      assert flights[i].0 == id && flights[i].1.campaignId == c;
    }
    if exists i :: 0 <= i < |flights| && flights[i].0 == id && flights[i].1.campaignId == c {
      var i :| 0 <= i < |flights| && flights[i].0 == id && flights[i].1.campaignId == c;
      assert keyed[i] == (c, id);
    }
  }
}
