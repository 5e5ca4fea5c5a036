/** The Adzerk client's snapshot as values: per entity kind, the list the client
    keeps, the remote store it mirrors, the key indexes and the next id the store
    will hand out. The upserts, `update_adzerk`, the deactivation scan of `mirror`
    and `load` are functions on these values, which the methods of the `Adzerk`
    class are proved to follow. */
module AdzerkSnapshot {
  import opened Wrappers
  import opened Strings
  import opened AdzerkRecords
  import Dates

  datatype Campaigns = Campaigns(list: seq<Id>, store: map<Id, AzCampaign>, byName: map<string, Id>, next: Id)
  datatype Creatives = Creatives(list: seq<Id>, store: map<Id, AzCreative>, byTitle: map<string, Id>, next: Id)
  datatype Flights = Flights(list: seq<Id>, store: map<Id, AzFlight>, byName: map<string, Id>,
                             byCampaign: map<Id, seq<Id>>, next: Id)
  datatype CfMaps = CfMaps(list: seq<Id>, store: map<Id, AzCfMap>, byFlight: map<Id, seq<Id>>,
                           lookup: map<(Id, Id), Id>, next: Id)
  datatype Snapshot = Snapshot(campaigns: Campaigns, creatives: Creatives, flights: Flights, cfmaps: CfMaps)

  /** The list holds exactly the stored ids, the name index leads each name to a
      campaign of that name, every stored campaign's name is indexed, and every
      stored id is below the next id. */
  ghost predicate CampaignsOk(s: Campaigns)
  {
    && (forall id :: id in s.list <==> id in s.store)
    && (forall name :: name in s.byName ==> s.byName[name] in s.store && s.store[s.byName[name]].name == name)
    && (forall id :: id in s.store ==> s.store[id].name in s.byName && id < s.next)
  }

  /** As `CampaignsOk`, for creatives and their titles. */
  ghost predicate CreativesOk(s: Creatives)
  {
    && (forall id :: id in s.list <==> id in s.store)
    && (forall title :: title in s.byTitle ==> s.byTitle[title] in s.store && s.store[s.byTitle[title]].title == title)
    && (forall id :: id in s.store ==> s.store[id].title in s.byTitle && id < s.next)
  }

  /** As `CampaignsOk`, for flights and their names; besides, every id grouped
      under a campaign in `flights_by_campaign` is a stored flight. */
  ghost predicate FlightsOk(s: Flights)
  {
    && (forall id :: id in s.list <==> id in s.store)
    && (forall name :: name in s.byName ==> s.byName[name] in s.store && s.store[s.byName[name]].name == name)
    && (forall id :: id in s.store ==> s.store[id].name in s.byName && id < s.next)
    && (forall campaignId, j :: campaignId in s.byCampaign && 0 <= j < |s.byCampaign[campaignId]| ==>
          s.byCampaign[campaignId][j] in s.store)
  }

  /** As `CampaignsOk`, for maps keyed by (flight id, creative id); besides, every
      id grouped under a flight in `cfmaps_by_flight` is a stored map. */
  ghost predicate CfMapsOk(s: CfMaps)
  {
    && (forall id :: id in s.list <==> id in s.store)
    && (forall key :: key in s.lookup ==> s.lookup[key] in s.store && MapKey(s.store[s.lookup[key]]) == key)
    && (forall id :: id in s.store ==> MapKey(s.store[id]) in s.lookup && id < s.next)
    && (forall flightId, j :: flightId in s.byFlight && 0 <= j < |s.byFlight[flightId]| ==>
          s.byFlight[flightId][j] in s.store)
  }

  ghost predicate SnapshotOk(s: Snapshot)
  {
    CampaignsOk(s.campaigns) && CreativesOk(s.creatives) && FlightsOk(s.flights) && CfMapsOk(s.cfmaps)
  }

  /** No two stored campaigns share a name. `SnapshotOk` alone does not say so:
      the name index leads each name to one campaign, but `load` can list two
      campaigns of the same name, and only the later one is indexed. */
  ghost predicate CampaignKeysUnique(s: Campaigns)
  {
    forall a, b :: a in s.store && b in s.store && s.store[a].name == s.store[b].name ==> a == b
  }

  /** No two stored creatives share a title. */
  ghost predicate CreativeKeysUnique(s: Creatives)
  {
    forall a, b :: a in s.store && b in s.store && s.store[a].title == s.store[b].title ==> a == b
  }

  /** No two stored flights share a name. */
  ghost predicate FlightKeysUnique(s: Flights)
  {
    forall a, b :: a in s.store && b in s.store && s.store[a].name == s.store[b].name ==> a == b
  }

  /** No two stored maps share a (flight id, creative id) key. */
  ghost predicate CfMapKeysUnique(s: CfMaps)
  {
    forall a, b :: a in s.store && b in s.store && MapKey(s.store[a]) == MapKey(s.store[b]) ==> a == b
  }

  /** Every key names at most one stored entity of its kind. */
  ghost predicate KeysUnique(s: Snapshot)
  {
    CampaignKeysUnique(s.campaigns) && CreativeKeysUnique(s.creatives)
    && FlightKeysUnique(s.flights) && CfMapKeysUnique(s.cfmaps)
  }

  /** The snapshot `Adzerk.__init__` starts from: every list, store and index
      empty, and ids handed out from 0. */
  function Empty(): (s: Snapshot)
    ensures SnapshotOk(s)
    ensures s.campaigns.store == map[] && s.creatives.store == map[] && s.flights.store == map[] && s.cfmaps.store == map[]
  {
    Snapshot(Campaigns([], map[], map[], 0), Creatives([], map[], map[], 0),
             Flights([], map[], map[], map[], 0), CfMaps([], map[], map[], map[], 0))
  }

  /** The empty snapshot has no two entities of one key. */
  lemma EmptyKeysUnique()
    ensures KeysUnique(Empty())
  {
  }

  /** `d[k].append(id)` on a `defaultdict(list)`. */
  function Appended(groups: map<Id, seq<Id>>, k: Id, id: Id): (r: map<Id, seq<Id>>)
    ensures k in r && r[k] == (if k in groups then groups[k] else []) + [id]
    ensures forall other :: other != k ==> (other in r <==> other in groups)
    ensures forall other :: other != k && other in groups ==> r[other] == groups[other]
  {
    groups[k := (if k in groups then groups[k] else []) + [id]]
  }

  // ---- link_to_campaign ----

  /** `link_to_campaign` on the campaign state: refresh the campaign named by the
      link's fullname, or create one under the next id; the id is returned. */
  function CampaignUpsert(s: Campaigns, link: Link, now: Dates.Date): (Campaigns, Id)
  {
    if link.fullname in s.byName && s.byName[link.fullname] in s.store then
      var id := s.byName[link.fullname];
      (s.(store := s.store[id := Refreshed(s.store[id])]), id)
    else
      (Campaigns(s.list + [s.next], s.store[s.next := NewCampaign(link, now)],
                 s.byName[link.fullname := s.next], s.next + 1), s.next)
  }

  /** `link_to_campaign` keeps the campaign list and name index in agreement with the store. */
  lemma CampaignUpsertOk(s: Campaigns, link: Link, now: Dates.Date)
    requires CampaignsOk(s)
    ensures CampaignsOk(CampaignUpsert(s, link, now).0) && CampaignUpsert(s, link, now).0.next >= s.next
  {
    if link.fullname in s.byName {
      var id := s.byName[link.fullname];
      CampaignOverwriteOk(s, id, Refreshed(s.store[id]));
    } else {
      CampaignInsertOk(s, NewCampaign(link, now));
    }
  }

  /** `link_to_campaign` never adds a second campaign of a name: it refreshes the
      campaign the name leads to, or creates one when no campaign has the name. */
  lemma CampaignUpsertUnique(s: Campaigns, link: Link, now: Dates.Date)
    requires CampaignsOk(s) && CampaignKeysUnique(s)
    ensures CampaignKeysUnique(CampaignUpsert(s, link, now).0)
  {
    var t := CampaignUpsert(s, link, now).0;
    if link.fullname !in s.byName {
      forall a | a in s.store ensures s.store[a].name != link.fullname { }
    }
    forall a, b | a in t.store && b in t.store && t.store[a].name == t.store[b].name ensures a == b {
      assert a !in s.store ==> a == s.next;
      assert b !in s.store ==> b == s.next;
    }
  }

  lemma CampaignOverwriteOk(s: Campaigns, id: Id, c: AzCampaign)
    requires CampaignsOk(s) && id in s.store && s.store[id].name == c.name
    ensures CampaignsOk(s.(store := s.store[id := c]))
  {
  }

  lemma CampaignInsertOk(s: Campaigns, c: AzCampaign)
    requires CampaignsOk(s) && c.name !in s.byName
    ensures CampaignsOk(Campaigns(s.list + [s.next], s.store[s.next := c], s.byName[c.name := s.next], s.next + 1))
  {
  }

  /** After `link_to_campaign` the name leads to the returned campaign, which is
      live; the list grows, by that id alone, exactly when no campaign had the
      name, and no other campaign changes. */
  lemma CampaignUpsertSpec(s: Campaigns, link: Link, now: Dates.Date)
    requires CampaignsOk(s)
    ensures var (t, id) := CampaignUpsert(s, link, now);
      && t.byName == s.byName[link.fullname := id]
      && id in t.store && t.store[id].name == link.fullname && IsLiveCampaign(t.store[id])
      && (link.fullname in s.byName ==> t.list == s.list && id in s.store)
      && (link.fullname !in s.byName ==>
            && t.list == s.list + [id] && id !in s.store
            && forall other :: other in s.store ==> s.store[other].name != link.fullname)
      && forall other :: other in s.store && other != id ==> other in t.store && t.store[other] == s.store[other]
  {
  }

  /** `link_to_campaign` adds the link's fullname to the names and no other name. */
  lemma CampaignUpsertNames(s: Campaigns, link: Link, now: Dates.Date)
    ensures CampaignUpsert(s, link, now).0.byName.Keys == s.byName.Keys + {link.fullname}
  {
  }

  /** A second `link_to_campaign` for the same link, at any time, creates nothing
      and changes nothing. */
  lemma CampaignUpsertIdempotent(s: Campaigns, link: Link, now: Dates.Date, later: Dates.Date)
    requires CampaignsOk(s)
    ensures CampaignsOk(CampaignUpsert(s, link, now).0)
    ensures CampaignUpsert(CampaignUpsert(s, link, now).0, link, later) == CampaignUpsert(s, link, now)
  {
    CampaignUpsertOk(s, link, now);
    CampaignUpsertSpec(s, link, now);
    CampaignUpsertHit(CampaignUpsert(s, link, now).0, link, later);
  }

  lemma CampaignUpsertHit(t: Campaigns, link: Link, now: Dates.Date)
    requires CampaignsOk(t) && link.fullname in t.byName && t.byName[link.fullname] in t.store
    requires IsLiveCampaign(t.store[t.byName[link.fullname]])
    ensures CampaignUpsert(t, link, now) == (t, t.byName[link.fullname])
  {
    var id := t.byName[link.fullname];
    assert t.store[id := Refreshed(t.store[id])] == t.store;
  }

  /** `link_to_campaign` removes no campaign. */
  lemma CampaignUpsertGrows(s: Campaigns, link: Link, now: Dates.Date)
    requires CampaignsOk(s)
    ensures forall id :: id in s.store ==> id in CampaignUpsert(s, link, now).0.store
  {
  }

  // ---- link_to_creative ----

  /** `link_to_creative` on the creative state, given the creative `cr` the pair
      calls for: rewrite every attribute but the title of the creative with its
      title, or create it under the next id. */
  function CreativeUpsert(s: Creatives, cr: AzCreative): (Creatives, Id)
  {
    if cr.title in s.byTitle && s.byTitle[cr.title] in s.store then
      var id := s.byTitle[cr.title];
      (s.(store := s.store[id := CreativeRewritten(s.store[id], cr)]), id)
    else
      (Creatives(s.list + [s.next], s.store[s.next := cr], s.byTitle[cr.title := s.next], s.next + 1), s.next)
  }

  /** `link_to_creative` keeps the creative list and title index in agreement with the store. */
  lemma CreativeUpsertOk(s: Creatives, cr: AzCreative)
    requires CreativesOk(s)
    ensures CreativesOk(CreativeUpsert(s, cr).0) && CreativeUpsert(s, cr).0.next >= s.next
  {
    if cr.title in s.byTitle {
      var id := s.byTitle[cr.title];
      CreativeOverwriteOk(s, id, CreativeRewritten(s.store[id], cr));
    } else {
      CreativeInsertOk(s, cr);
    }
  }

  /** `link_to_creative` never adds a second creative of a title. */
  lemma CreativeUpsertUnique(s: Creatives, cr: AzCreative)
    requires CreativesOk(s) && CreativeKeysUnique(s)
    ensures CreativeKeysUnique(CreativeUpsert(s, cr).0)
  {
    var t := CreativeUpsert(s, cr).0;
    if cr.title !in s.byTitle {
      forall a | a in s.store ensures s.store[a].title != cr.title { }
    }
    forall a, b | a in t.store && b in t.store && t.store[a].title == t.store[b].title ensures a == b {
      assert a !in s.store ==> a == s.next;
      assert b !in s.store ==> b == s.next;
    }
  }

  lemma CreativeOverwriteOk(s: Creatives, id: Id, cr: AzCreative)
    requires CreativesOk(s) && id in s.store && s.store[id].title == cr.title
    ensures CreativesOk(s.(store := s.store[id := cr]))
  {
  }

  lemma CreativeInsertOk(s: Creatives, cr: AzCreative)
    requires CreativesOk(s) && cr.title !in s.byTitle
    ensures CreativesOk(Creatives(s.list + [s.next], s.store[s.next := cr], s.byTitle[cr.title := s.next], s.next + 1))
  {
  }

  /** After `link_to_creative` the title leads to the returned creative, which
      holds every attribute of `cr`; the list grows, by that id alone, exactly when
      no creative had the title, and no other creative changes. */
  lemma CreativeUpsertSpec(s: Creatives, cr: AzCreative)
    requires CreativesOk(s)
    ensures var (t, id) := CreativeUpsert(s, cr);
      && t.byTitle == s.byTitle[cr.title := id]
      && id in t.store && t.store[id] == cr
      && (cr.title in s.byTitle ==> t.list == s.list && id in s.store)
      && (cr.title !in s.byTitle ==>
            && t.list == s.list + [id] && id !in s.store
            && forall other :: other in s.store ==> s.store[other].title != cr.title)
      && forall other :: other in s.store && other != id ==> other in t.store && t.store[other] == s.store[other]
  {
  }

  /** A second `link_to_creative` for the same pair creates nothing and changes nothing. */
  lemma CreativeUpsertIdempotent(s: Creatives, cr: AzCreative)
    requires CreativesOk(s)
    ensures CreativesOk(CreativeUpsert(s, cr).0)
    ensures CreativeUpsert(CreativeUpsert(s, cr).0, cr) == CreativeUpsert(s, cr)
  {
    CreativeUpsertOk(s, cr);
    CreativeUpsertSpec(s, cr);
    CreativeUpsertHit(CreativeUpsert(s, cr).0, cr);
  }

  lemma CreativeUpsertHit(t: Creatives, cr: AzCreative)
    requires CreativesOk(t) && cr.title in t.byTitle && t.byTitle[cr.title] in t.store
    requires t.store[t.byTitle[cr.title]] == cr
    ensures CreativeUpsert(t, cr) == (t, t.byTitle[cr.title])
  {
    var id := t.byTitle[cr.title];
    assert CreativeRewritten(t.store[id], cr) == t.store[id];
    assert t.store[id := t.store[id]] == t.store;
  }

  /** `link_to_creative` removes no creative and retitles none. */
  lemma CreativeUpsertGrows(s: Creatives, cr: AzCreative)
    requires CreativesOk(s)
    ensures var t := CreativeUpsert(s, cr).0;
      forall id :: id in s.store ==> id in t.store && t.store[id].title == s.store[id].title
  {
  }

  // ---- campaign_to_flight ----

  /** The upsert half of `campaign_to_flight` on the flight state, given the flight
      `f` the promo campaign calls for: rewrite every attribute but the name of the
      flight with its name, or create it under the next id and group it under its
      campaign. */
  function FlightUpsert(s: Flights, f: AzFlight): (Flights, Id)
  {
    if f.name in s.byName && s.byName[f.name] in s.store then
      var id := s.byName[f.name];
      (s.(store := s.store[id := FlightRewritten(s.store[id], f)]), id)
    else
      (Flights(s.list + [s.next], s.store[s.next := f], s.byName[f.name := s.next],
               Appended(s.byCampaign, f.campaignId, s.next), s.next + 1), s.next)
  }

  /** The flight upsert keeps the flight list, name index and campaign groups in
      agreement with the store. */
  lemma FlightUpsertOk(s: Flights, f: AzFlight)
    requires FlightsOk(s)
    ensures FlightsOk(FlightUpsert(s, f).0) && FlightUpsert(s, f).0.next >= s.next
  {
    if f.name in s.byName {
      var id := s.byName[f.name];
      FlightOverwriteOk(s, id, FlightRewritten(s.store[id], f));
    } else {
      FlightInsertOk(s, f);
    }
  }

  /** The flight upsert never adds a second flight of a name. */
  lemma FlightUpsertUnique(s: Flights, f: AzFlight)
    requires FlightsOk(s) && FlightKeysUnique(s)
    ensures FlightKeysUnique(FlightUpsert(s, f).0)
  {
    var t := FlightUpsert(s, f).0;
    if f.name !in s.byName {
      forall a | a in s.store ensures s.store[a].name != f.name { }
    }
    forall a, b | a in t.store && b in t.store && t.store[a].name == t.store[b].name ensures a == b {
      assert a !in s.store ==> a == s.next;
      assert b !in s.store ==> b == s.next;
    }
  }

  lemma FlightOverwriteOk(s: Flights, id: Id, f: AzFlight)
    requires FlightsOk(s) && id in s.store && s.store[id].name == f.name
    ensures FlightsOk(s.(store := s.store[id := f]))
  {
  }

  lemma FlightInsertOk(s: Flights, f: AzFlight)
    requires FlightsOk(s) && f.name !in s.byName
    ensures FlightsOk(Flights(s.list + [s.next], s.store[s.next := f], s.byName[f.name := s.next],
                              Appended(s.byCampaign, f.campaignId, s.next), s.next + 1))
  {
  }

  /** After the flight upsert the name leads to the returned flight, which holds
      every attribute of `f`; a created flight is appended to the list and to its
      campaign's group, an existing one keeps its place (and its group, even when
      its campaign changed), and no other flight changes. */
  lemma FlightUpsertSpec(s: Flights, f: AzFlight)
    requires FlightsOk(s)
    ensures var (t, id) := FlightUpsert(s, f);
      && t.byName == s.byName[f.name := id]
      && id in t.store && t.store[id] == f
      && (f.name in s.byName ==> t.list == s.list && t.byCampaign == s.byCampaign && id in s.store)
      && (f.name !in s.byName ==>
            && t.list == s.list + [id] && id !in s.store
            && t.byCampaign == Appended(s.byCampaign, f.campaignId, id)
            && forall other :: other in s.store ==> s.store[other].name != f.name)
      && forall other :: other in s.store && other != id ==> other in t.store && t.store[other] == s.store[other]
  {
  }

  /** A second flight upsert with the same flight creates nothing and changes nothing. */
  lemma FlightUpsertIdempotent(s: Flights, f: AzFlight)
    requires FlightsOk(s)
    ensures FlightsOk(FlightUpsert(s, f).0)
    ensures FlightUpsert(FlightUpsert(s, f).0, f) == FlightUpsert(s, f)
  {
    FlightUpsertOk(s, f);
    FlightUpsertSpec(s, f);
    FlightUpsertHit(FlightUpsert(s, f).0, f);
  }

  lemma FlightUpsertHit(t: Flights, f: AzFlight)
    requires FlightsOk(t) && f.name in t.byName && t.byName[f.name] in t.store
    requires t.store[t.byName[f.name]] == f
    ensures FlightUpsert(t, f) == (t, t.byName[f.name])
  {
    var id := t.byName[f.name];
    assert FlightRewritten(t.store[id], f) == t.store[id];
    assert t.store[id := t.store[id]] == t.store;
  }

  /** The flight upsert removes no flight and renames none. */
  lemma FlightUpsertGrows(s: Flights, f: AzFlight)
    requires FlightsOk(s)
    ensures var t := FlightUpsert(s, f).0;
      forall id :: id in s.store ==> id in t.store && t.store[id].name == s.store[id].name
  {
  }

  // ---- make_cfmap ----

  /** The upsert half of `make_cfmap` on the map state, once the three ids are in
      `m`: rewrite the map looked up under its (flight id, creative id) key, or
      create it under the next id and file it in the list, the flight's group and
      the lookup. */
  function CfMapUpsert(s: CfMaps, m: AzCfMap): (CfMaps, Id)
  {
    if MapKey(m) in s.lookup && s.lookup[MapKey(m)] in s.store then
      var id := s.lookup[MapKey(m)];
      (s.(store := s.store[id := m]), id)
    else
      (CfMaps(s.list + [s.next], s.store[s.next := m], Appended(s.byFlight, m.flightId, s.next),
              s.lookup[MapKey(m) := s.next], s.next + 1), s.next)
  }

  /** The map upsert keeps the map list, lookup and flight groups in agreement
      with the store. `CfMapUpsertUnique` shows it adds no second map of a key. */
  lemma CfMapUpsertOk(s: CfMaps, m: AzCfMap)
    requires CfMapsOk(s)
    ensures CfMapsOk(CfMapUpsert(s, m).0) && CfMapUpsert(s, m).0.next >= s.next
  {
    if MapKey(m) in s.lookup {
      CfMapOverwriteOk(s, s.lookup[MapKey(m)], m);
    } else {
      CfMapInsertOk(s, m);
    }
  }

  /** The map upsert never adds a second map of a (flight id, creative id) key. */
  lemma CfMapUpsertUnique(s: CfMaps, m: AzCfMap)
    requires CfMapsOk(s) && CfMapKeysUnique(s)
    ensures CfMapKeysUnique(CfMapUpsert(s, m).0)
  {
    var t := CfMapUpsert(s, m).0;
    if MapKey(m) !in s.lookup {
      forall a | a in s.store ensures MapKey(s.store[a]) != MapKey(m) { }
    }
    forall a, b | a in t.store && b in t.store && MapKey(t.store[a]) == MapKey(t.store[b]) ensures a == b {
      assert a !in s.store ==> a == s.next;
      assert b !in s.store ==> b == s.next;
    }
  }

  lemma CfMapOverwriteOk(s: CfMaps, id: Id, m: AzCfMap)
    requires CfMapsOk(s) && id in s.store && MapKey(s.store[id]) == MapKey(m)
    ensures CfMapsOk(s.(store := s.store[id := m]))
  {
  }

  lemma CfMapInsertOk(s: CfMaps, m: AzCfMap)
    requires CfMapsOk(s) && MapKey(m) !in s.lookup
    ensures CfMapsOk(CfMaps(s.list + [s.next], s.store[s.next := m], Appended(s.byFlight, m.flightId, s.next),
                            s.lookup[MapKey(m) := s.next], s.next + 1))
  {
  }

  /** After the map upsert the key leads to the returned map, which holds `m`; a
      map is created only when the lookup missed, and no other map changes. */
  lemma CfMapUpsertSpec(s: CfMaps, m: AzCfMap)
    requires CfMapsOk(s)
    ensures var (t, id) := CfMapUpsert(s, m);
      && t.lookup == s.lookup[MapKey(m) := id]
      && id in t.store && t.store[id] == m
      && (MapKey(m) in s.lookup ==> t.list == s.list && t.byFlight == s.byFlight && id in s.store)
      && (MapKey(m) !in s.lookup ==>
            && t.list == s.list + [id] && id !in s.store
            && t.byFlight == Appended(s.byFlight, m.flightId, id)
            && forall other :: other in s.store ==> MapKey(s.store[other]) != MapKey(m))
      && forall other :: other in s.store && other != id ==> other in t.store && t.store[other] == s.store[other]
  {
  }

  /** The map upsert adds at most the returned id to the store. */
  lemma CfMapUpsertKeys(s: CfMaps, m: AzCfMap)
    requires CfMapsOk(s)
    ensures CfMapUpsert(s, m).0.store.Keys == s.store.Keys + {CfMapUpsert(s, m).1}
  {
  }

  /** A second map upsert with the same map creates nothing and changes nothing. */
  lemma CfMapUpsertIdempotent(s: CfMaps, m: AzCfMap)
    requires CfMapsOk(s)
    ensures CfMapsOk(CfMapUpsert(s, m).0)
    ensures CfMapUpsert(CfMapUpsert(s, m).0, m) == CfMapUpsert(s, m)
  {
    CfMapUpsertOk(s, m);
    CfMapUpsertSpec(s, m);
    CfMapUpsertHit(CfMapUpsert(s, m).0, m);
  }

  lemma CfMapUpsertHit(t: CfMaps, m: AzCfMap)
    requires CfMapsOk(t) && MapKey(m) in t.lookup && t.lookup[MapKey(m)] in t.store
    requires t.store[t.lookup[MapKey(m)]] == m
    ensures CfMapUpsert(t, m) == (t, t.lookup[MapKey(m)])
  {
    var id := t.lookup[MapKey(m)];
    assert t.store[id := m] == t.store;
  }
}
