/** The moderation log: validating and building a mod action, the row keys of the
    views it is filed under and of the queries that read them back, its extra
    text, and the per-day counts of the action history. The Cassandra queries
    themselves are inputs: a query's result is the sequence of what it yields
    over all its pages. */
module ModActions {
  import opened Wrappers
  import opened Strings
  import opened Indexes
  import Base36

  /** `ModAction.actions`: the only action names `create` accepts. */
  const Actions: seq<string> := [
    "banuser", "unbanuser", "removelink", "approvelink",
    "removecomment", "approvecomment", "addmoderator",
    "removemoderator", "addcontributor", "removecontributor",
    "editsettings", "editflair", "distinguish", "marknsfw"]

  /** `ModAction._details_text`, with the untranslated labels. */
  const DetailsText: map<string, string> := map[
    "unspam" := "unspam",
    "confirm_spam" := "confirmed spam",
    "remove_self" := "removed self",
    "title" := "title",
    "description" := "description",
    "lang" := "language",
    "type" := "type",
    "link_type" := "link type",
    "over_18" := "toggle viewers must be over 18",
    "allow_top" := "toggle allow in default set",
    "show_media" := "toggle show thumbnail images of content",
    "domain" := "domain",
    "show_cname_sidebar" := "toggle show sidebar from cname",
    "css_on_cname" := "toggle custom CSS from cname",
    "header_title" := "header title",
    "stylesheet" := "stylesheet",
    "del_header" := "delete header image",
    "del_image" := "delete image",
    "upload_image_header" := "upload header image",
    "upload_image" := "upload image",
    "flair_edit" := "add/edit flair",
    "flair_delete" := "delete flair",
    "flair_csv" := "edit by csv",
    "flair_enabled" := "toggle flair enabled",
    "flair_position" := "toggle flair position",
    "flair_self_enabled" := "toggle user assigned flair enabled",
    "flair_template" := "add/edit flair templates",
    "flair_delete_template" := "delete flair template",
    "flair_clear_template" := "clear flair templates",
    "remove" := "remove"]

  /** `TITLE_MAX_WIDTH` of `add_props`. */
  const TitleMaxWidth: nat := 50

  /** `ValueError` from `create`, `NotImplementedError` from `get_actions`. */
  datatype ModActionError = InvalidAction | BothFilters

  /** A stored mod action: its string properties, an absent one as `None`. */
  datatype ModAction = ModAction(
    srId36: string, modId36: string, action: string,
    targetFullname: Option<string>, details: Option<string>, description: Option<string>)

  /** Python's truth test of an optional string. */
  predicate Truthy(s: Option<string>)
  {
    s.Some? && s.value != ""
  }

  /** The optional property `create` stores for an argument: the argument when it
      is truthy, nothing otherwise. */
  function Kept(s: Option<string>): Option<string>
  {
    if Truthy(s) then s else None
  }

  // ---- create ----

  /** `ModAction.create` for a subreddit and a moderator given by their id36s, the
      target by its fullname. */
  function Create(srId36: string, modId36: string, action: string, details: Option<string>,
                  targetFullname: Option<string>, description: Option<string>): (r: Result<ModAction, ModActionError>)
    ensures r.Err? <==> action !in Actions
    ensures r.Err? ==> r.error == InvalidAction
    ensures r.Ok? ==> r.value.srId36 == srId36 && r.value.modId36 == modId36 && r.value.action == action
    ensures r.Ok? ==> (r.value.details.Some? <==> Truthy(details)) && (r.value.details.Some? ==> r.value.details == details)
    ensures r.Ok? ==>
      (r.value.description.Some? <==> Truthy(description)) && (r.value.description.Some? ==> r.value.description == description)
  {
    if action !in Actions then Err(InvalidAction)
    else Ok(ModAction(srId36, modId36, action, Kept(targetFullname), Kept(details), Kept(description)))
  }

  /** The target is stored when there is one (a `Thing` is always truthy; its
      fullname is never empty), and never invented. */
  lemma CreateTarget(srId36: string, modId36: string, action: string, details: Option<string>,
                     targetFullname: Option<string>, description: Option<string>)
    requires action in Actions
    requires targetFullname.Some? ==> targetFullname.value != ""
    ensures Create(srId36, modId36, action, details, targetFullname, description).value.targetFullname == targetFullname
  {
  }

  // ---- author_id, sr_id ----

  /** `author_id`: `int(mod_id36, 36)`, `None` for the `ValueError`. */
  function AuthorId(ma: ModAction): Option<nat>
  {
    Base36.Decode(ma.modId36)
  }

  /** `sr_id`: `int(sr_id36, 36)`. */
  function SrId(ma: ModAction): Option<nat>
  {
    Base36.Decode(ma.srId36)
  }

  /** An action created for the subreddit and moderator with ids `sr` and `mod`
      reads back those ids. */
  lemma CreateIds(sr: nat, mod: nat, action: string, details: Option<string>,
                  targetFullname: Option<string>, description: Option<string>)
    requires action in Actions
    ensures var ma := Create(Base36.Encode(sr), Base36.Encode(mod), action, details, targetFullname, description).value;
      SrId(ma) == Some(sr) && AuthorId(ma) == Some(mod)
  {
    Base36.DecodeEncode(sr);
    Base36.DecodeEncode(mod);
  }

  // ---- the views and get_actions ----

  datatype View = BySR | BySRMod | BySRAction

  /** The `_rowkey` of each view: the row an action is filed under. */
  function RowKey(view: View, ma: ModAction): string
  {
    match view
    case BySR => ma.srId36
    case BySRMod => Join2(ma.srId36, '_', ma.modId36)
    case BySRAction => Join2(ma.srId36, '_', ma.action)
  }

  /** What `get_actions` queries: one view and a row key per subreddit. */
  datatype Query = Query(view: View, rowKeys: seq<string>)

  /** The view and row keys `get_actions` picks for the subreddits' id36s and the
      optional moderator (by id36) and action filters. */
  function GetActions(srIds: seq<string>, mod: Option<string>, action: Option<string>): (r: Result<Query, ModActionError>)
    ensures r.Err? <==> mod.Some? && Truthy(action)
    ensures r.Err? ==> r.error == BothFilters
    ensures r.Ok? ==> |r.value.rowKeys| == |srIds|
    ensures r.Ok? ==> (r.value.view == BySRMod <==> mod.Some?) && (r.value.view == BySRAction <==> Truthy(action))
  {
    if mod.None? && !Truthy(action) then
      Ok(Query(BySR, seq(|srIds|, i requires 0 <= i < |srIds| => srIds[i])))
    else if mod.Some? && !Truthy(action) then
      Ok(Query(BySRMod, seq(|srIds|, i requires 0 <= i < |srIds| => Join2(srIds[i], '_', mod.value))))
    else if mod.None? && Truthy(action) then
      Ok(Query(BySRAction, seq(|srIds|, i requires 0 <= i < |srIds| => Join2(srIds[i], '_', action.value))))
    else
      Err(BothFilters)
  }

  /** A query of `get_actions` reads an action's row exactly when the action is in
      that subreddit and matches the filter given: the view stores every action
      under the key the query builds for it, and under no other query's key.
      Subreddit id36s hold no `_`, as base-36 spellings do not. */
  lemma GetActionsRowKeys(srIds: seq<string>, mod: Option<string>, action: Option<string>, ma: ModAction, i: int)
    requires GetActions(srIds, mod, action).Ok? && 0 <= i < |srIds|
    requires '_' !in srIds[i] && '_' !in ma.srId36
    ensures var q := GetActions(srIds, mod, action).value;
      RowKey(q.view, ma) == q.rowKeys[i] <==>
        ma.srId36 == srIds[i] && (mod.Some? ==> ma.modId36 == mod.value) && (Truthy(action) ==> ma.action == action.value)
  {
    var q := GetActions(srIds, mod, action).value;
    if RowKey(q.view, ma) == q.rowKeys[i] {
      if mod.Some? {
        JoinInjective(ma.srId36, '_', ma.modId36, srIds[i], mod.value);
      } else if Truthy(action) {
        JoinInjective(ma.srId36, '_', ma.action, srIds[i], action.value);
      }
    }
  }

  // ---- get_extra_text ----

  /** The label of a `details` value: its entry in `_details_text`, or the value
      itself. */
  function DetailsLabel(details: string): (shown: string)
    ensures details in DetailsText ==> shown == DetailsText[details]
    ensures details !in DetailsText ==> shown == details
  {
    if details in DetailsText then DetailsText[details] else details
  }

  /** `get_extra_text`: the details' label, then a space and the description. */
  function ExtraText(ma: ModAction): (text: string)
    ensures ma.details.None? && ma.description.None? ==> text == ""
    ensures ma.details.Some? ==>
      |DetailsLabel(ma.details.value)| <= |text| && text[..|DetailsLabel(ma.details.value)|] == DetailsLabel(ma.details.value)
    ensures ma.details.None? && ma.description.Some? ==> text == " " + ma.description.value
    ensures ma.description.Some? ==>
      |text| > |ma.description.value| && text[|text| - |ma.description.value| - 1..] == " " + ma.description.value
    ensures ma.description.None? ==> text == if ma.details.Some? then DetailsLabel(ma.details.value) else ""
    ensures ma.details.Some? && ma.description.Some? ==>
      text == DetailsLabel(ma.details.value) + " " + ma.description.value
  {
    var text := if ma.details.Some? then DetailsLabel(ma.details.value) else "";
    if ma.description.Some? then text + " " + ma.description.value else text
  }

  /** The extra text of a created action: the label of its details when they were
      truthy, then a space and its description when that was truthy. */
  lemma CreateExtraText(srId36: string, modId36: string, action: string, details: Option<string>,
                        targetFullname: Option<string>, description: Option<string>)
    requires action in Actions
    ensures var text := ExtraText(Create(srId36, modId36, action, details, targetFullname, description).value);
      text == (if Truthy(details) then DetailsLabel(details.value) else "")
              + (if Truthy(description) then " " + description.value else "")
  {
    var ma := Create(srId36, modId36, action, details, targetFullname, description).value;
    var shown := if Truthy(details) then DetailsLabel(details.value) else "";
    var tail := if Truthy(description) then " " + description.value else "";
    assert ma.details == Kept(details) && ma.description == Kept(description);
    ExtraTextParts(ma, shown, tail);
  }

  /** The extra text as its two parts: the label, and the description after a space. */
  lemma ExtraTextParts(ma: ModAction, shown: string, tail: string)
    requires shown == if ma.details.Some? then DetailsLabel(ma.details.value) else ""
    requires tail == if ma.description.Some? then " " + ma.description.value else ""
    ensures ExtraText(ma) == shown + tail
  {
    if ma.description.None? {
      assert shown + tail == shown;
    }
  }

  // ---- add_props: title truncation ----

  /** The title shown for a link or comment target: cut to its first 50
      characters and marked with `...` when longer. */
  function ShortTitle(title: string): (short: string)
    ensures |title| <= TitleMaxWidth ==> short == title
    ensures |title| > TitleMaxWidth ==>
      |short| == TitleMaxWidth + 3 && short[..TitleMaxWidth] == title[..TitleMaxWidth] && short[TitleMaxWidth..] == "..."
  {
    if |title| > TitleMaxWidth then title[..TitleMaxWidth] + "..." else title
  }

  /** A shortened title never exceeds 53 characters and always starts like the title. */
  lemma ShortTitleBounds(title: string)
    ensures |ShortTitle(title)| <= TitleMaxWidth + 3
    ensures var n := if |title| < TitleMaxWidth then |title| else TitleMaxWidth;
      ShortTitle(title)[..n] == title[..n]
  {
  }

  // ---- ModActionHistory ----

  /** A `date` or a `datetime`: a day (a date ordinal) and, for a datetime, the
      microseconds since that day's midnight. */
  datatype When = Date(day: int) | DateTime(day: int, micros: nat)

  /** `_date_only`: the datetime of the day's midnight. */
  function DateOnly(w: When): (r: When)
    ensures r.DateTime? && r.day == w.day && r.micros == 0
  {
    DateTime(w.day, 0)
  }

  /** Truncating twice is truncating once; a datetime never moves later. */
  lemma DateOnlyIdempotent(w: When)
    ensures DateOnly(DateOnly(w)) == DateOnly(w)
    ensures w.DateTime? ==> DateOnly(w).micros <= w.micros
  {
  }

  /** A history column name: the day, the moderator's id36 and the action. */
  type HistoryKey = (When, string, string)

  /** The `(mod_id36, action)` key and value of each column of a day. */
  function DayEntries(columns: seq<(HistoryKey, int)>): (entries: seq<((string, string), int)>)
    ensures |entries| == |columns|
    ensures forall i :: 0 <= i < |columns| ==> entries[i] == ((columns[i].0.1, columns[i].0.2), columns[i].1)
  {
    seq(|columns|, i requires 0 <= i < |columns| => ((columns[i].0.1, columns[i].0.2), columns[i].1))
  }

  /** The counts of a day: for each (mod, action), the value of its last column. */
  function DayCounts(columns: seq<(HistoryKey, int)>): map<(string, string), int>
  {
    LastWins(DayEntries(columns))
  }

  /** A day's counts hold exactly the (mod, action) pairs of its columns, each with
      the value of the last column for that pair. */
  lemma DayCountsSpec(columns: seq<(HistoryKey, int)>, mod: string, action: string)
    ensures (mod, action) in DayCounts(columns) <==>
      exists i :: 0 <= i < |columns| && columns[i].0.1 == mod && columns[i].0.2 == action
    ensures (mod, action) in DayCounts(columns) ==>
      exists i :: 0 <= i < |columns| && columns[i].0.1 == mod && columns[i].0.2 == action
        && columns[i].1 == DayCounts(columns)[(mod, action)]
        && forall j :: i < j < |columns| ==> (columns[j].0.1, columns[j].0.2) != (mod, action)
  {
    var entries := DayEntries(columns);
    LastWinsSpec(entries, (mod, action));
  }

  /** The loop of `get_day` over the columns its query yields for the day. */
  method GetDay(columns: seq<(HistoryKey, int)>) returns (d: map<(string, string), int>)
    ensures d == DayCounts(columns)
  {
    d := map[];
    for i := 0 to |columns|
      invariant d == LastWins(DayEntries(columns[..i]))
    {
      assert DayEntries(columns[..i + 1])[..i] == DayEntries(columns[..i]);
      var (key, v) := columns[i];
      var (_, modId36, action) := key;
      d := d[(modId36, action) := v];
    }
    assert columns[..|columns|] == columns;
  }

  /** The columns of a day in the history; a day without any yields none. */
  function ColumnsOn(history: map<int, seq<(HistoryKey, int)>>, day: int): seq<(HistoryKey, int)>
  {
    if day in history then history[day] else []
  }

  /** `defaultdict(int)` lookup. */
  function Get<K>(m: map<K, int>, k: K): int
  {
    if k in m then m[k] else 0
  }

  /** The sum of a key's counts over the days `first` up to but not including `end`. */
  function Total(history: map<int, seq<(HistoryKey, int)>>, first: int, end: int, key: (string, string)): int
    decreases end - first
  {
    if end <= first then 0 else Total(history, first, end - 1, key) + Get(DayCounts(ColumnsOn(history, end - 1)), key)
  }

  /** Some day from `first` up to but not including `end` counts the key. */
  ghost predicate Seen(history: map<int, seq<(HistoryKey, int)>>, first: int, end: int, key: (string, string))
  {
    exists day :: first <= day < end && key in DayCounts(ColumnsOn(history, day))
  }

  lemma SeenStep(history: map<int, seq<(HistoryKey, int)>>, first: int, end: int, key: (string, string))
    requires first <= end
    ensures Seen(history, first, end + 1, key) <==> Seen(history, first, end, key) || key in DayCounts(ColumnsOn(history, end))
  {
  }

  /** A report over a range is the sum of the reports over its two halves. */
  lemma {:induction false} TotalSplit(history: map<int, seq<(HistoryKey, int)>>, first: int, mid: int, end: int, key: (string, string))
    requires first <= mid <= end
    ensures Total(history, first, end, key) == Total(history, first, mid, key) + Total(history, mid, end, key)
    decreases end - mid
  {
    if mid < end {
      TotalSplit(history, first, mid, end - 1, key);
    }
  }

  /** A report over one day is that day's counts. */
  lemma TotalOneDay(history: map<int, seq<(HistoryKey, int)>>, day: int, key: (string, string))
    ensures Total(history, day, day + 1, key) == Get(DayCounts(ColumnsOn(history, day)), key)
  {
  }

  /** The loop `for k, v in d_new.iteritems(): d[k] += v` of `get_report`. */
  method AddCounts(d: map<(string, string), int>, dNew: map<(string, string), int>) returns (sum: map<(string, string), int>)
    ensures forall key :: key in sum <==> key in d || key in dNew
    ensures forall key :: Get(sum, key) == Get(d, key) + Get(dNew, key)
  {
    sum := d;
    var todo := dNew.Keys;
    while todo != {}
      invariant todo <= dNew.Keys
      invariant forall key :: key in sum <==> key in d || (key in dNew && key !in todo)
      invariant forall key :: key in sum ==> sum[key] == Get(d, key) + (if key in dNew && key !in todo then dNew[key] else 0)
      decreases |todo|
    {
      ghost var w := Member(todo);
      var key :| key in todo;
      sum := sum[key := Get(sum, key) + dNew[key]];
      todo := todo - {key};
    }
  }

  /** `get_report`: for each (mod, action) some day from `start` to `end`
      inclusive counts, the sum of its counts over those days. */
  method GetReport(history: map<int, seq<(HistoryKey, int)>>, start: When, end: When) returns (d: map<(string, string), int>)
    ensures forall key :: key in d <==> Seen(history, DateOnly(start).day, DateOnly(end).day + 1, key)
    ensures forall key :: key in d ==> d[key] == Total(history, DateOnly(start).day, DateOnly(end).day + 1, key)
  {
    d := map[];
    var first := DateOnly(start).day;
    var stop := DateOnly(end).day + 1;
    var current := first;
    while current < stop
      invariant first <= current && (current <= stop || current == first)
      invariant forall key :: key in d <==> Seen(history, first, current, key)
      invariant forall key :: Get(d, key) == Total(history, first, current, key)
      decreases stop - current
    {
      var dNew := GetDay(ColumnsOn(history, current));
      d := AddCounts(d, dNew);
      forall key ensures key in d <==> Seen(history, first, current + 1, key) {
        SeenStep(history, first, current, key);
      }
      forall key ensures Get(d, key) == Total(history, first, current + 1, key) {
      }
      current := current + 1;
    }
    if stop < first {
      forall key ensures !Seen(history, first, stop, key) {
      }
    }
    forall key | key in d ensures d[key] == Total(history, first, stop, key) {
      assert Get(d, key) == d[key];
    }
  }

  // ---- _query_all_srs ----

  /** How many of the actions are in subreddit `sr` by moderator `mod` with action `action`. */
  function Tally(actions: seq<ModAction>, sr: string, mod: string, action: string): nat
    decreases |actions|
  {
    if |actions| == 0 then 0
    else
      var ma := actions[|actions| - 1];
      Tally(actions[..|actions| - 1], sr, mod, action) + if ma.srId36 == sr && ma.modId36 == mod && ma.action == action then 1 else 0
  }

  /** Counting page by page gives the count of all pages. */
  lemma {:induction false} TallyAppend(a: seq<ModAction>, b: seq<ModAction>, sr: string, mod: string, action: string)
    ensures Tally(a + b, sr, mod, action) == Tally(a, sr, mod, action) + Tally(b, sr, mod, action)
    decreases |b|
  {
    if |b| == 0 {
      assert a + b == a;
    } else {
      var n := |b| - 1;
      assert (a + b)[..|a + b| - 1] == a + b[..n];
      assert (a + b)[|a + b| - 1] == b[n];
      TallyAppend(a, b[..n], sr, mod, action);
    }
  }

  /** An action is counted exactly when one of the actions has its key. */
  lemma {:induction false} TallyPositive(actions: seq<ModAction>, sr: string, mod: string, action: string)
    ensures Tally(actions, sr, mod, action) > 0 <==>
      exists i :: 0 <= i < |actions| && actions[i].srId36 == sr && actions[i].modId36 == mod && actions[i].action == action
    decreases |actions|
  {
    if |actions| > 0 {
      var n := |actions| - 1;
      TallyPositive(actions[..n], sr, mod, action);
      assert forall i :: 0 <= i < n ==> actions[..n][i] == actions[i];
    }
  }

  /** `actions_by_sr.setdefault(sr_id36, defaultdict(int))[key] += 1` for one action. */
  function Counted(bySr: map<string, map<HistoryKey, nat>>, day: When, ma: ModAction): map<string, map<HistoryKey, nat>>
  {
    var counts := if ma.srId36 in bySr then bySr[ma.srId36] else map[];
    var key := (day, ma.modId36, ma.action);
    bySr[ma.srId36 := counts[key := (if key in counts then counts[key] else 0) + 1]]
  }

  /** The per-subreddit counts of the actions, all filed under `day`. */
  function CountsBySr(day: When, actions: seq<ModAction>): map<string, map<HistoryKey, nat>>
    decreases |actions|
  {
    if |actions| == 0 then map[] else Counted(CountsBySr(day, actions[..|actions| - 1]), day, actions[|actions| - 1])
  }

  /** The counts hold exactly the subreddits of the actions; under each, a key
      holds the day and exactly the (mod, action) pairs of that subreddit's actions,
      each with its number of actions. */
  lemma {:induction false} CountsBySrSpec(day: When, actions: seq<ModAction>, sr: string, key: HistoryKey)
    ensures sr in CountsBySr(day, actions) <==> exists i :: 0 <= i < |actions| && actions[i].srId36 == sr
    ensures sr in CountsBySr(day, actions) && key in CountsBySr(day, actions)[sr] ==>
      key.0 == day && CountsBySr(day, actions)[sr][key] == Tally(actions, sr, key.1, key.2) > 0
    ensures Tally(actions, sr, key.1, key.2) > 0 ==> sr in CountsBySr(day, actions) && (day, key.1, key.2) in CountsBySr(day, actions)[sr]
    decreases |actions|
  {
    if |actions| > 0 {
      var n := |actions| - 1;
      CountsBySrSpec(day, actions[..n], sr, key);
      assert forall i :: 0 <= i < n ==> actions[..n][i] == actions[i];
    }
  }

  /** The loop of `_query_all_srs` over the actions its query yields for the day
      of `date`. */
  method QueryAllSrs(date: When, actions: seq<ModAction>) returns (bySr: map<string, map<HistoryKey, nat>>)
    ensures bySr == CountsBySr(DateOnly(date), actions)
  {
    bySr := map[];
    var day := DateOnly(date);
    for i := 0 to |actions|
      invariant bySr == CountsBySr(day, actions[..i])
    {
      var ma := actions[i];
      assert actions[..i + 1][..i] == actions[..i];
      var key := (day, ma.modId36, ma.action);
      var counts := if ma.srId36 in bySr then bySr[ma.srId36] else map[];
      var n := if key in counts then counts[key] else 0;
      bySr := bySr[ma.srId36 := counts[key := n + 1]];
    }
    assert actions[..|actions|] == actions;
  }
}
