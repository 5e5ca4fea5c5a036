/** The records of reddit's self-serve promotions as Adzerk holds them, the
    attribute sets the reconciliation writes, and the agreement between the
    client's lists and indexes and the remote store, stated on values. */
module AdzerkRecords {
  import opened Wrappers
  import opened Strings
  import Base36
  import Dates

  type Id = nat

  const AdvertiserId: int := 20329
  const PriorityId: int := 21520
  /** Keyword Adzerk targets for the front page. */
  const FrontPageKeyword: string := "reddit.com"
  const DefaultImpressions: int := 1000
  const DefaultFreqCap: int := 1000
  /** Fullname prefix of a reddit Link. */
  const LinkPrefix: string := "t3_"

  datatype AdzerkError =
    | MissingCampaign   // ValueError('missing campaign for flight')
    | KeyError          // a dict lookup that misses
    | UnpackError       // a creative title that does not split into two parts

  /** The local side: a promoted link and one of its promo campaigns. An absent
      attribute (`getattr` default) or a `None` subreddit name is `None`. */
  datatype Link = Link(fullname: string, title: string, authorName: string)

  datatype PromoCampaign = PromoCampaign(
    fullname: string, linkId: nat, startDate: Dates.Date, endDate: Dates.Date,
    impressions: Option<int>, maxDaily: Option<int>, srName: Option<string>)

  /** The fields `render_link` serialises into a creative's script; the JSON text itself is not modelled. */
  datatype ScriptBody = ScriptBody(link: string, campaign: string, title: string, author: string, target: Option<string>)

  /** The remote records. Cross references are ids. */
  datatype AzCampaign = AzCampaign(
    name: string, advertiserId: int, isDeleted: bool, isActive: bool, price: int,
    flights: seq<Id>, startDate: string)

  datatype AzCreative = AzCreative(
    title: string, body: string, scriptBody: ScriptBody, advertiserId: int, adTypeId: int,
    alt: string, isHtmlJs: bool, isSync: bool, isDeleted: bool, isActive: bool)

  datatype AzFlight = AzFlight(
    name: string, startDate: string, endDate: string, price: int, optionType: int,
    impressions: int, isUnlimited: bool, isFullSpeed: bool, keywords: string, campaignId: Id,
    priorityId: int, isDeleted: bool, isActive: bool, goalType: int, rateType: int,
    isFreqCap: bool, freqCap: int, freqCapDuration: int, freqCapType: int)

  datatype AzCfMap = AzCfMap(
    sizeOverride: bool, campaignId: Id, publisherAccountId: int, percentage: int,
    distributionType: int, iframe: bool, creativeId: Id, flightId: Id, impressions: int,
    isDeleted: bool, isActive: bool)

  /** `date_to_adzerk`: the `MM/DD/YYYY` text of a date. */
  function DateToAdzerk(d: Dates.Date): string
  {
    Dates.Format(d)
  }

  /** The Adzerk text of a date is ten characters with slashes after the month and
      the day, and a date whose fields fit their widths reads back from it. */
  lemma DateToAdzerkShape(d: Dates.Date)
    ensures |DateToAdzerk(d)| == 10 && DateToAdzerk(d)[2] == '/' && DateToAdzerk(d)[5] == '/'
    ensures 0 <= d.month < 100 && 0 <= d.day < 100 && 0 <= d.year < 10000 ==>
      Dates.Parse(DateToAdzerk(d)) == Some(d)
  {
    if 0 <= d.month < 100 && 0 <= d.day < 100 && 0 <= d.year < 10000 {
      Dates.ParseFormat(d);
    }
  }

  /** `srname_to_keyword`: an empty or missing subreddit name targets the front page. */
  function SrnameToKeyword(srName: Option<string>): (k: string)
    ensures k != ""
    ensures srName.Some? && srName.value != "" ==> k == srName.value
    ensures srName == None || srName == Some("") ==> k == FrontPageKeyword
  {
    if srName.Some? && srName.value != "" then srName.value else FrontPageKeyword
  }

  /** `Link._fullname_from_id36(to36(link_id))`: the fullname of a promo campaign's link. */
  function LinkFullname(linkId: nat): (fullname: string)
    ensures '-' !in fullname
  {
    var digits := Base36.Encode(linkId);
    assert forall i :: 0 <= i < |LinkPrefix + digits| ==> (LinkPrefix + digits)[i] != '-' by {
      forall i | 0 <= i < |LinkPrefix + digits| ensures (LinkPrefix + digits)[i] != '-' {
        if i >= |LinkPrefix| { assert (LinkPrefix + digits)[i] == digits[i - |LinkPrefix|]; }
      }
    }
    LinkPrefix + digits
  }

  /** The natural key of a creative: `'-'.join((link._fullname, campaign._fullname))`. */
  function CreativeTitle(link: Link, c: PromoCampaign): string
  {
    Join2(link.fullname, '-', c.fullname)
  }

  function RenderLink(link: Link, c: PromoCampaign): ScriptBody
  {
    ScriptBody(link.fullname, c.fullname, link.title, link.authorName, c.srName)
  }

  function Impressions(c: PromoCampaign): int
  {
    if c.impressions.Some? then c.impressions.value else DefaultImpressions
  }

  function FreqCap(c: PromoCampaign): int
  {
    if c.maxDaily.Some? then c.maxDaily.value else DefaultFreqCap
  }

  predicate IsLiveCampaign(c: AzCampaign)
  {
    c.advertiserId == AdvertiserId && !c.isDeleted && c.isActive && c.price == 0
  }

  /** The four attributes `link_to_campaign` writes onto an existing campaign. */
  function Refreshed(c: AzCampaign): (r: AzCampaign)
  {
    c.(advertiserId := AdvertiserId, isDeleted := false, isActive := true, price := 0)
  }

  /** The campaign `link_to_campaign` creates: the refreshed attributes plus name, flights and start date. */
  function NewCampaign(link: Link, now: Dates.Date): AzCampaign
  {
    AzCampaign(link.fullname, AdvertiserId, false, true, 0, [], DateToAdzerk(now))
  }

  /** The creative `link_to_creative` creates (ad type 4 is the leaderboard). */
  function CreativeFor(link: Link, c: PromoCampaign): AzCreative
  {
    var title := CreativeTitle(link, c);
    AzCreative(title, title, RenderLink(link, c), AdvertiserId, 4, link.title, true, false, false, true)
  }

  /** `setattr` of every attribute of `cr` but its title onto an existing creative,
      as `link_to_creative` does with its attribute dict. */
  function CreativeRewritten(existing: AzCreative, cr: AzCreative): AzCreative
  {
    cr.(title := existing.title)
  }

  /** The flight `campaign_to_flight` creates under Adzerk campaign `campaignId`
      (option type 1 is CPM, goal type 1 impressions, rate type 2 CPM, frequency cap type 2 a day). */
  function FlightFor(c: PromoCampaign, campaignId: Id): AzFlight
  {
    AzFlight(c.fullname, DateToAdzerk(c.startDate), DateToAdzerk(c.endDate), 1, 1,
      Impressions(c), false, false, SrnameToKeyword(c.srName), campaignId, PriorityId,
      false, true, 1, 2, true, FreqCap(c), 1, 2)
  }

  /** `setattr` of every attribute of `f` but its name onto an existing flight, as
      `campaign_to_flight` does with its attribute dict. */
  function FlightRewritten(existing: AzFlight, f: AzFlight): AzFlight
  {
    f.(name := existing.name)
  }

  /** The map `make_cfmap` creates or overwrites; it sets every attribute the
      model keeps (distribution type 2 is by percentage). */
  function CfMapFor(campaignId: Id, creativeId: Id, flightId: Id, c: PromoCampaign): AzCfMap
  {
    AzCfMap(false, campaignId, AdvertiserId, 100, 2, false, creativeId, flightId, Impressions(c), false, true)
  }

  /** The natural key of a map: `(FlightId, Creative.Id)`. */
  function MapKey(m: AzCfMap): (Id, Id)
  {
    (m.flightId, m.creativeId)
  }
}
