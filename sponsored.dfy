/** The campaign table of the sponsored-link page: the CSS class of a campaign
    row, the buttons `set_up_campaigns` gives each row, the thousands separators
    of `pretty_number` and the campaign-count limit. The page is modelled by the
    rows of the table: each row's class attribute and its cells, each cell with
    its classes and the elements it holds. */
module Sponsored {
  import opened Wrappers
  import opened Strings

  // ---- get_flag_class ----

  /** The flags of a campaign as the server sends them. */
  datatype Flags = Flags(free: bool, live: bool, complete: bool, paid: bool, sponsor: bool)

  const RowClass: string := "campaign-row"

  /** The classes `get_flag_class` adds after `campaign-row`, in order: a
      complete campaign is never also marked paid. */
  function FlagWords(flags: Flags): (words: seq<string>)
    ensures forall i :: 0 <= i < |words| ==> ' ' !in words[i]
  {
    var words := if flags.free then ["free"] else [];
    var words := if flags.live then words + ["live"] else words;
    var words := if flags.complete then words + ["complete"] else if flags.paid then words + ["paid"] else words;
    if flags.sponsor then words + ["sponsor"] else words
  }

  /** Each word preceded by a space. */
  function Spaced(words: seq<string>): string
    decreases |words|
  {
    if |words| == 0 then "" else Spaced(words[..|words| - 1]) + [' '] + words[|words| - 1]
  }

  function FlagClass(flags: Flags): string
  {
    RowClass + Spaced(FlagWords(flags))
  }

  lemma SpacedSnoc(words: seq<string>, w: string)
    ensures Spaced(words + [w]) == Spaced(words) + [' '] + w
  {
    assert (words + [w])[..|words|] == words;
  }

  /** `get_flag_class`: `campaign-row`, then a space and a class per flag set. */
  method GetFlagClass(flags: Flags) returns (cssClass: string)
    ensures cssClass == FlagClass(flags)
  {
    ghost var words: seq<string> := [];
    cssClass := "campaign-row";
    if flags.free {
      cssClass := Extend(cssClass, words, "free");
      words := words + ["free"];
    }
    if flags.live {
      cssClass := Extend(cssClass, words, "live");
      words := words + ["live"];
    }
    if flags.complete {
      cssClass := Extend(cssClass, words, "complete");
      words := words + ["complete"];
    } else if flags.paid {
      cssClass := Extend(cssClass, words, "paid");
      words := words + ["paid"];
    }
    if flags.sponsor {
      cssClass := Extend(cssClass, words, "sponsor");
      words := words + ["sponsor"];
    }
  }

  /** One `css_class += " " + name`. */
  method Extend(cssClass: string, ghost words: seq<string>, name: string) returns (extended: string)
    requires cssClass == RowClass + Spaced(words)
    ensures extended == RowClass + Spaced(words + [name])
  {
    SpacedSnoc(words, name);
    extended := cssClass + " " + name;
  }

  /** jQuery's `hasClass`: the class is one of the space-separated words. */
  predicate HasClass(cssClass: string, name: string)
  {
    name in Split(cssClass, ' ')
  }

  lemma {:induction false} SplitSpaced(first: string, words: seq<string>)
    requires ' ' !in first
    requires forall i :: 0 <= i < |words| ==> ' ' !in words[i]
    ensures Split(first + Spaced(words), ' ') == [first] + words
    decreases |words|
  {
    if |words| == 0 {
      assert first + Spaced(words) == first;
      SplitFree(first, ' ');
    } else {
      var n := |words| - 1;
      SplitSpaced(first, words[..n]);
      assert first + Spaced(words) == (first + Spaced(words[..n])) + [' '] + words[n];
      SplitAppend(first + Spaced(words[..n]), ' ', words[n]);
      SplitFree(words[n], ' ');
      assert words == words[..n] + [words[n]];
    }
  }

  /** The words of the class of a row: `campaign-row` and the flag classes. */
  lemma FlagClassWords(flags: Flags)
    ensures Split(FlagClass(flags), ' ') == [RowClass] + FlagWords(flags)
  {
    SplitSpaced(RowClass, FlagWords(flags));
  }

  /** A class name is among the flag classes exactly when its flag calls for it. */
  lemma FlagWordsHas(flags: Flags, name: string)
    ensures name in FlagWords(flags) <==>
      (name == "free" && flags.free) || (name == "live" && flags.live) || (name == "complete" && flags.complete)
      || (name == "paid" && flags.paid && !flags.complete) || (name == "sponsor" && flags.sponsor)
  {
  }

  lemma ClassNamesDistinct()
    ensures "free" != "live" && "free" != "complete" && "free" != "paid" && "free" != "sponsor" && "free" != RowClass
    ensures "live" != "complete" && "live" != "paid" && "live" != "sponsor" && "live" != RowClass
    ensures "complete" != "paid" && "complete" != "sponsor" && "complete" != RowClass
    ensures "paid" != "sponsor" && "paid" != RowClass && "sponsor" != RowClass
  {
    assert "free"[0] == 'f' && "live"[0] == 'l' && "paid"[0] == 'p' && "sponsor"[0] == 's';
    assert RowClass[0] == 'c' && "complete"[0] == 'c' && RowClass[1] == 'a' && "complete"[1] == 'o';
  }

  lemma HasClassIn(cssClass: string, words: seq<string>, name: string)
    requires Split(cssClass, ' ') == words
    ensures HasClass(cssClass, name) <==> name in words
  {
  }

  /** The flags a row's class shows, as the `hasClass` tests read them. */
  function ClassFlags(cssClass: string): Flags
  {
    Flags(HasClass(cssClass, "free"), HasClass(cssClass, "live"), HasClass(cssClass, "complete"),
          HasClass(cssClass, "paid"), HasClass(cssClass, "sponsor"))
  }

  /** The class of a row reads back its flags: each flag's class is there
      exactly when the flag is set, except that `paid` gives way to `complete`,
      so a row never has both. */
  lemma FlagClassHasClass(flags: Flags)
    ensures HasClass(FlagClass(flags), RowClass)
    ensures HasClass(FlagClass(flags), "free") <==> flags.free
    ensures HasClass(FlagClass(flags), "live") <==> flags.live
    ensures HasClass(FlagClass(flags), "complete") <==> flags.complete
    ensures HasClass(FlagClass(flags), "paid") <==> flags.paid && !flags.complete
    ensures HasClass(FlagClass(flags), "sponsor") <==> flags.sponsor
    ensures !(HasClass(FlagClass(flags), "complete") && HasClass(FlagClass(flags), "paid"))
  {
    var words := [RowClass] + FlagWords(flags);
    var cls := FlagClass(flags);
    SplitSpaced(RowClass, FlagWords(flags));
    ClassNamesDistinct();
    HasClassIn(cls, words, RowClass);
    HasClassIn(cls, words, "free");
    HasClassIn(cls, words, "live");
    HasClassIn(cls, words, "complete");
    HasClassIn(cls, words, "paid");
    HasClassIn(cls, words, "sponsor");
    FlagWordsHas(flags, "free");
    FlagWordsHas(flags, "live");
    FlagWordsHas(flags, "complete");
    FlagWordsHas(flags, "paid");
    FlagWordsHas(flags, "sponsor");
  }

  /** Reading the flags back from the class gives the flags, `paid` cleared on a
      complete campaign. */
  lemma ClassFlagsRoundTrip(flags: Flags)
    ensures ClassFlags(FlagClass(flags)) == flags.(paid := flags.paid && !flags.complete)
  {
    FlagClassHasClass(flags);
  }

  // ---- set_up_campaigns ----

  /** An element of a cell: one of the buttons and spans `set_up_campaigns` adds,
      or other content (the hidden inputs, the text of a cell). */
  datatype Item =
    | ViewButton | EditButton | DeleteButton | PayButton | FreeButton | ChangeButton
    | FreebieInfo | CompleteInfo
    | Content(text: string)

  /** The markup of each button and span. */
  function Markup(item: Item): string
  {
    match item
    case ViewButton => "<button>view live</button>"
    case EditButton => "<button>edit</button>"
    case DeleteButton => "<button>delete</button>"
    case PayButton => "<button>pay</button>"
    case FreeButton => "<button>free</button>"
    case ChangeButton => "<button>change</button>"
    case FreebieInfo => "<span class='info'>freebie</span>"
    case CompleteInfo => "<span class='info'>complete/live</span>"
    case Content(text) => text
  }

  datatype Cell = Cell(classes: set<string>, items: seq<Item>)

  /** A table row: its class attribute and its cells. */
  datatype Row = Row(cssClass: string, cells: seq<Cell>)

  /** `td.children("button, span").length` is not zero. */
  predicate HasControl(items: seq<Item>)
  {
    exists i :: 0 <= i < |items| && !items[i].Content?
  }

  /** The bid cell: `td:first` and three `next()`s. */
  const BidCell: nat := 3

  function AddClassAt(cells: seq<Cell>, k: int, names: set<string>): (r: seq<Cell>)
    ensures |r| == |cells|
    ensures forall j :: 0 <= j < |r| ==> r[j].items == cells[j].items
    ensures forall j :: 0 <= j < |r| && j != k ==> r[j].classes == cells[j].classes
    ensures 0 <= k < |r| ==> r[k].classes == cells[k].classes + names
  {
    if 0 <= k < |cells| then cells[k := cells[k].(classes := cells[k].classes + names)] else cells
  }

  function AppendAt(cells: seq<Cell>, k: int, items: seq<Item>): (r: seq<Cell>)
    ensures |r| == |cells|
    ensures forall j :: 0 <= j < |r| ==> r[j].classes == cells[j].classes
    ensures forall j :: 0 <= j < |r| && j != k ==> r[j].items == cells[j].items
    ensures 0 <= k < |r| ==> r[k].items == cells[k].items + items
  {
    if 0 <= k < |cells| then cells[k := cells[k].(items := cells[k].items + items)] else cells
  }

  function PrependAt(cells: seq<Cell>, k: int, item: Item): (r: seq<Cell>)
    ensures |r| == |cells|
    ensures forall j :: 0 <= j < |r| ==> r[j].classes == cells[j].classes
    ensures forall j :: 0 <= j < |r| && j != k ==> r[j].items == cells[j].items
    ensures 0 <= k < |r| ==> r[k].items == [item] + cells[k].items
  {
    if 0 <= k < |cells| then cells[k := cells[k].(items := [item] + cells[k].items)] else cells
  }

  /** What the body of the `each` of `set_up_campaigns` does to one row: the bid
      cell is marked `bid`; a row whose last cell has no button or span yet gets
      the buttons its classes call for. */
  function SetUpRow(row: Row): (r: Row)
    ensures |r.cells| == |row.cells| && r.cssClass == row.cssClass
  {
    var cells := AddClassAt(row.cells, BidCell, {"bid"});
    if |row.cells| == 0 || HasControl(row.cells[|row.cells| - 1].items) then row.(cells := cells)
    else row.(cells := AddButtons(cells, |row.cells| - 1, ClassFlags(row.cssClass)))
  }

  /** The buttons and spans added to the last cell `last` and the bid cell of a
      row whose class shows the flags `shown`. */
  function AddButtons(cells: seq<Cell>, last: int, shown: Flags): (r: seq<Cell>)
    ensures |r| == |cells|
  {
    var cells := if shown.live then AppendAt(cells, last, [ViewButton]) else cells;
    if !shown.complete then
      var cells :=
        if shown.sponsor && !shown.free then AppendAt(cells, BidCell, [FreeButton])
        else if !shown.paid then PrependAt(cells, BidCell, PayButton)
        else if shown.free then PrependAt(AddClassAt(cells, BidCell, {"free", "paid"}), BidCell, FreebieInfo)
        else PrependAt(AddClassAt(cells, BidCell, {"paid"}), BidCell, ChangeButton);
      AppendAt(cells, last, [EditButton, DeleteButton])
    else
      var cells := AddClassAt(AppendAt(cells, last, [CompleteInfo]), BidCell, {"paid"});
      if shown.sponsor then AppendAt(cells, last, [EditButton]) else cells
  }

  /** After set-up the last cell holds a button or span. */
  lemma SetUpLastControl(row: Row)
    requires |row.cells| > 0
    ensures HasControl(SetUpRow(row).cells[|row.cells| - 1].items)
  {
    var last := |row.cells| - 1;
    if !HasControl(row.cells[last].items) {
      var marked := AddClassAt(row.cells, BidCell, {"bid"});
      var shown := ClassFlags(row.cssClass);
      SetUpFresh(row);
      AddButtonsEndsWithControl(marked, last, shown);
    }
  }

  /** Setting up a row that is already set up changes nothing: its last cell
      holds a button or span, and its bid cell is already marked. */
  lemma SetUpIdempotent(row: Row)
    ensures SetUpRow(SetUpRow(row)) == SetUpRow(row)
  {
    var r := SetUpRow(row);
    if |row.cells| > 0 {
      SetUpLastControl(row);
      if BidCell < |row.cells| {
        var c := r.cells[BidCell];
        assert "bid" in c.classes;
        assert c.classes + {"bid"} == c.classes;
        assert r.cells[BidCell := c] == r.cells;
      }
    }
  }

  /** What `AddButtons` appends to the last cell. */
  function LastAdded(shown: Flags): seq<Item>
  {
    (if shown.live then [ViewButton] else [])
    + (if !shown.complete then [EditButton, DeleteButton]
       else [CompleteInfo] + (if shown.sponsor then [EditButton] else []))
  }

  /** What `AddButtons` puts in front of the bid cell, and the one it appends. */
  function BidPrepended(shown: Flags): seq<Item>
  {
    if shown.complete || (shown.sponsor && !shown.free) then []
    else if !shown.paid then [PayButton]
    else if shown.free then [FreebieInfo]
    else [ChangeButton]
  }

  function BidAppended(shown: Flags): seq<Item>
  {
    if !shown.complete && shown.sponsor && !shown.free then [FreeButton] else []
  }

  function BidMarks(shown: Flags): set<string>
  {
    if shown.complete then {"paid"}
    else if (shown.sponsor && !shown.free) || !shown.paid then {}
    else if shown.free then {"free", "paid"}
    else {"paid"}
  }

  lemma AddButtonsLast(cells: seq<Cell>, last: int, shown: Flags)
    requires 0 <= last < |cells| && last != BidCell
    ensures AddButtons(cells, last, shown)[last].items == cells[last].items + LastAdded(shown)
  {
    var viewed := if shown.live then AppendAt(cells, last, [ViewButton]) else cells;
    var view := if shown.live then [ViewButton] else [];
    assert viewed[last].items == cells[last].items + view;
    var r := AddButtons(cells, last, shown)[last].items;
    if !shown.complete {
      assert r == viewed[last].items + [EditButton, DeleteButton];
      assert LastAdded(shown) == view + [EditButton, DeleteButton];
    } else {
      var tail := [CompleteInfo] + (if shown.sponsor then [EditButton] else []);
      assert r == viewed[last].items + tail;
      assert LastAdded(shown) == view + tail;
    }
  }

  /** Whichever cell is the bid cell, the last cell ends with what was appended
      to it last: delete, the complete note, or edit. */
  lemma AddButtonsEndsWithControl(cells: seq<Cell>, last: int, shown: Flags)
    requires 0 <= last < |cells|
    ensures var items := AddButtons(cells, last, shown)[last].items;
      |items| > 0 && !items[|items| - 1].Content?
  {
  }

  lemma AddButtonsBid(cells: seq<Cell>, last: int, shown: Flags)
    requires 0 <= last < |cells| && last != BidCell && BidCell < |cells|
    ensures var r := AddButtons(cells, last, shown);
      && r[BidCell].items == BidPrepended(shown) + cells[BidCell].items + BidAppended(shown)
      && r[BidCell].classes == cells[BidCell].classes + BidMarks(shown)
  {
  }

  /** A button or span is in a cell that had none exactly when it was added. */
  lemma ItemsIn(items: seq<Item>, added: seq<Item>, x: Item)
    requires !x.Content?
    requires !HasControl(items)
    ensures x in items + added <==> x in added
  {
    assert forall it :: it in items ==> it.Content?;
  }

  lemma LastAddedButtons(items: seq<Item>, shown: Flags)
    requires !HasControl(items)
    ensures var items := items + LastAdded(shown);
      && (ViewButton in items <==> shown.live)
      && (EditButton in items <==> !shown.complete || shown.sponsor)
      && (DeleteButton in items <==> !shown.complete)
      && (CompleteInfo in items <==> shown.complete)
  {
    ItemsIn(items, LastAdded(shown), ViewButton);
    ItemsIn(items, LastAdded(shown), EditButton);
    ItemsIn(items, LastAdded(shown), DeleteButton);
    ItemsIn(items, LastAdded(shown), CompleteInfo);
  }

  /** The buttons of the last cell of a fresh row, by the flags its class shows:
      a view button when live; edit and delete unless complete; the complete
      note when complete, with edit for a sponsor. */
  lemma LastCellButtons(cells: seq<Cell>, last: int, shown: Flags)
    requires 0 <= last < |cells| && last != BidCell
    requires !HasControl(cells[last].items)
    ensures var items := AddButtons(cells, last, shown)[last].items;
      && (ViewButton in items <==> shown.live)
      && (EditButton in items <==> !shown.complete || shown.sponsor)
      && (DeleteButton in items <==> !shown.complete)
      && (CompleteInfo in items <==> shown.complete)
  {
    AddButtonsLast(cells, last, shown);
    LastAddedButtons(cells[last].items, shown);
  }

  /** The bid cell of a fresh row, by the flags its class shows: a free button
      when a sponsor may give the campaign away, otherwise a pay button while
      unpaid, the freebie note when paid by a freebie and a change button when
      paid; nothing of these for a complete campaign, whose bid cell is marked
      paid. */
  lemma BidCellButtons(cells: seq<Cell>, last: int, shown: Flags)
    requires 0 <= last < |cells| && last != BidCell && BidCell < |cells|
    requires !HasControl(cells[BidCell].items)
    ensures var bid := AddButtons(cells, last, shown)[BidCell];
      var giveAway := shown.sponsor && !shown.free;
      && (FreeButton in bid.items <==> !shown.complete && giveAway)
      && (PayButton in bid.items <==> !shown.complete && !giveAway && !shown.paid)
      && (FreebieInfo in bid.items <==> !shown.complete && !giveAway && shown.paid && shown.free)
      && (ChangeButton in bid.items <==> !shown.complete && !giveAway && shown.paid && !shown.free)
      && ("paid" in bid.classes <==> "paid" in cells[BidCell].classes || shown.complete || (!giveAway && shown.paid))
      && bid.classes >= cells[BidCell].classes
  {
    AddButtonsBid(cells, last, shown);
    var items := cells[BidCell].items;
    assert BidPrepended(shown) + items + BidAppended(shown) == BidPrepended(shown) + (items + BidAppended(shown));
    ItemsIn(items, BidAppended(shown), FreeButton);
    ItemsIn(items, BidAppended(shown), PayButton);
    ItemsIn(items, BidAppended(shown), FreebieInfo);
    ItemsIn(items, BidAppended(shown), ChangeButton);
  }

  lemma SetUpFresh(row: Row)
    requires |row.cells| > 0 && !HasControl(row.cells[|row.cells| - 1].items)
    ensures SetUpRow(row).cells
      == AddButtons(AddClassAt(row.cells, BidCell, {"bid"}), |row.cells| - 1, ClassFlags(row.cssClass))
  {
  }

  /** The buttons `set_up_campaigns` gives a fresh row of a campaign with these
      flags, one whose last cell is not the bid cell and whose cells hold no
      button or span yet:
      a live campaign gets a view button; one that is not complete gets edit and
      delete, and in its bid cell a free button when a sponsor may give it away,
      otherwise a pay button while unpaid, a freebie note when paid by a freebie,
      and a change button when paid; a complete one gets the complete note, no pay
      or delete, and edit only for a sponsor. */
  lemma SetUpDecision(flags: Flags, cells: seq<Cell>)
    requires |cells| > BidCell + 1
    requires !HasControl(cells[|cells| - 1].items) && !HasControl(cells[BidCell].items)
    ensures var r := SetUpRow(Row(FlagClass(flags), cells));
      var lastItems := r.cells[|cells| - 1].items;
      var bid := r.cells[BidCell];
      && (ViewButton in lastItems <==> flags.live)
      && (EditButton in lastItems <==> !flags.complete || flags.sponsor)
      && (DeleteButton in lastItems <==> !flags.complete)
      && (CompleteInfo in lastItems <==> flags.complete)
      && (FreeButton in bid.items <==> !flags.complete && flags.sponsor && !flags.free)
      && (PayButton in bid.items <==> !flags.complete && !(flags.sponsor && !flags.free) && !flags.paid)
      && (FreebieInfo in bid.items <==> !flags.complete && !(flags.sponsor && !flags.free) && flags.paid && flags.free)
      && (ChangeButton in bid.items <==> !flags.complete && !(flags.sponsor && !flags.free) && flags.paid && !flags.free)
      && ("paid" in bid.classes <==> "paid" in cells[BidCell].classes || flags.complete || (!(flags.sponsor && !flags.free) && flags.paid))
      && "bid" in bid.classes
  {
    ClassFlagsRoundTrip(flags);
    var last := |cells| - 1;
    var marked := AddClassAt(cells, BidCell, {"bid"});
    var shown := ClassFlags(FlagClass(flags));
    SetUpFresh(Row(FlagClass(flags), cells));
    assert marked[last] == cells[last];
    assert marked[BidCell].items == cells[BidCell].items;
    LastCellButtons(marked, last, shown);
    BidCellButtons(marked, last, shown);
    assert "paid" != "bid" by { assert "paid"[0] != "bid"[0]; }
  }

  /** The `each` loop of `set_up_campaigns` over the rows of the table. */
  method SetUpCampaigns(rows: array<Row>)
    modifies rows
    ensures forall i :: 0 <= i < rows.Length ==> rows[i] == SetUpRow(old(rows[i]))
  {
    for i := 0 to rows.Length
      invariant forall j :: 0 <= j < i ==> rows[j] == SetUpRow(old(rows[j]))
      invariant forall j :: i <= j < rows.Length ==> rows[j] == old(rows[j])
    {
      rows[i] := SetUpRow(rows[i]);
    }
  }

  // ---- pretty_number ----

  predicate IsDigit(c: char)
  {
    '0' <= c <= '9'
  }

  /** The characters `parseInt` skips before the number: ECMAScript's white space
      (tab, vertical tab, form feed, the space separators, the byte order mark) and
      line terminators. */
  predicate IsSpace(c: char)
  {
    || c == '\t' || c == '\n' || c == '\U{B}' || c == '\U{C}' || c == '\r' || c == ' '
    || c == '\U{A0}' || c == '\U{1680}' || '\U{2000}' <= c <= '\U{200A}'
    || c == '\U{2028}' || c == '\U{2029}' || c == '\U{202F}' || c == '\U{205F}'
    || c == '\U{3000}' || c == '\U{FEFF}'
  }

  /** The decimal spelling of a natural number, most significant digit first. */
  function Decimal(n: nat): (s: string)
    ensures |s| >= 1 && forall i :: 0 <= i < |s| ==> IsDigit(s[i])
    ensures n > 0 ==> s[0] != '0'
  {
    if n < 10 then [('0' as int + n) as char] else Decimal(n / 10) + [('0' as int + n % 10) as char]
  }

  /** `toString()` of an integer. */
  function IntString(n: int): string
  {
    if n < 0 then "-" + Decimal(-n) else Decimal(n)
  }

  /** The value of a string of digits. */
  function DecimalValue(s: string): nat
    requires forall i :: 0 <= i < |s| ==> IsDigit(s[i])
    decreases |s|
  {
    if |s| == 0 then 0
    else
      assert IsDigit(s[|s| - 1]);
      DecimalValue(s[..|s| - 1]) * 10 + (s[|s| - 1] as int - '0' as int)
  }

  /** The longest prefix of digits. */
  function LeadingDigits(s: string): (d: string)
    ensures |d| <= |s| && d == s[..|d|]
    ensures forall i :: 0 <= i < |d| ==> IsDigit(d[i])
    ensures |d| < |s| ==> !IsDigit(s[|d|])
  {
    if |s| > 0 && IsDigit(s[0]) then [s[0]] + LeadingDigits(s[1..]) else ""
  }

  /** `s` without the white space `parseInt` skips at its front. */
  function TrimStart(s: string): (t: string)
    ensures |t| <= |s| && t == s[|s| - |t|..]
    ensures forall i :: 0 <= i < |s| - |t| ==> IsSpace(s[i])
    ensures |t| > 0 ==> !IsSpace(t[0])
  {
    if |s| > 0 && IsSpace(s[0]) then TrimStart(s[1..]) else s
  }

  predicate IsHexDigit(c: char)
  {
    IsDigit(c) || 'a' <= c <= 'f' || 'A' <= c <= 'F'
  }

  /** The value of a hexadecimal digit, in either case. */
  function HexDigitValue(c: char): (v: nat)
    requires IsHexDigit(c)
    ensures v < 16
    ensures IsDigit(c) <==> v < 10
  {
    if IsDigit(c) then c as int - '0' as int
    else if 'a' <= c <= 'f' then c as int - 'a' as int + 10
    else c as int - 'A' as int + 10
  }

  /** The value of a string of hexadecimal digits. */
  function HexValue(s: string): nat
    requires forall i :: 0 <= i < |s| ==> IsHexDigit(s[i])
    decreases |s|
  {
    if |s| == 0 then 0
    else
      assert IsHexDigit(s[|s| - 1]);
      HexValue(s[..|s| - 1]) * 16 + HexDigitValue(s[|s| - 1])
  }

  /** The longest prefix of hexadecimal digits. */
  function LeadingHexDigits(s: string): (d: string)
    ensures |d| <= |s| && d == s[..|d|]
    ensures forall i :: 0 <= i < |d| ==> IsHexDigit(d[i])
    ensures |d| < |s| ==> !IsHexDigit(s[|d|])
  {
    if |s| > 0 && IsHexDigit(s[0]) then [s[0]] + LeadingHexDigits(s[1..]) else ""
  }

  /** Text that, after a sign, starts with the prefix `0x` or `0X`. */
  predicate HexPrefixed(rest: string)
  {
    |rest| >= 2 && rest[0] == '0' && (rest[1] == 'x' || rest[1] == 'X')
  }

  /** `parseInt(s)` without a radix: leading white space, a sign, then either the
      prefix `0x` or `0X` and as many hexadecimal digits as there are, or as many
      decimal digits as there are; `None` for `NaN`, when there is no digit. */
  function ParseInt(s: string): Option<int>
  {
    var t := TrimStart(s);
    var negative := |t| > 0 && t[0] == '-';
    var rest := if |t| > 0 && (t[0] == '-' || t[0] == '+') then t[1..] else t;
    var hex := HexPrefixed(rest);
    var digits := if hex then LeadingHexDigits(rest[2..]) else LeadingDigits(rest);
    var value: int := if hex then HexValue(digits) else DecimalValue(digits);
    if |digits| == 0 then None else if negative then Some(-value) else Some(value)
  }

  /** The decimal spelling of a natural number has that number as its value. */
  lemma {:induction false} DecimalRoundTrip(n: nat)
    ensures DecimalValue(Decimal(n)) == n
  {
    var d := Decimal(n);
    if n >= 10 {
      DecimalRoundTrip(n / 10);
      assert d[..|d| - 1] == Decimal(n / 10);
    }
  }

  /** A string of digits is its own longest digit prefix. */
  lemma {:induction false} LeadingDigitsAll(d: string)
    requires forall i :: 0 <= i < |d| ==> IsDigit(d[i])
    ensures LeadingDigits(d) == d
  {
    if |d| > 0 {
      LeadingDigitsAll(d[1..]);
      assert d == [d[0]] + d[1..];
    }
  }

  /** Nothing is trimmed from text that starts with a sign or a digit. */
  lemma TrimStartKeeps(s: string)
    requires |s| > 0 && (s[0] == '-' || IsDigit(s[0]))
    ensures TrimStart(s) == s
  {
    assert !IsSpace(s[0]);
  }

  /** `parseInt` reads back the integer `toString()` spells. */
  lemma ParseIntString(n: int)
    ensures ParseInt(IntString(n)) == Some(n)
  {
    var m: nat := if n < 0 then -n else n;
    var d := Decimal(m);
    var s := IntString(n);
    TrimStartKeeps(s);
    var rest := if s[0] == '-' || s[0] == '+' then s[1..] else s;
    assert rest == d;
    assert !HexPrefixed(rest) by {
      if |d| >= 2 {
        assert IsDigit(d[1]);
      }
    }
    assert LeadingDigits(rest) == d by {
      LeadingDigitsAll(d);
    }
    assert DecimalValue(d) == m by {
      DecimalRoundTrip(m);
    }
  }

  /** A string of hexadecimal digits is its own longest hexadecimal prefix. */
  lemma {:induction false} LeadingHexDigitsAll(h: string)
    requires forall i :: 0 <= i < |h| ==> IsHexDigit(h[i])
    ensures LeadingHexDigits(h) == h
  {
    if |h| > 0 {
      LeadingHexDigitsAll(h[1..]);
      assert h == [h[0]] + h[1..];
    }
  }

  /** Without a radix, `parseInt` reads `0x` followed by hexadecimal digits as a
      hexadecimal number. */
  lemma ParseIntHex(h: string)
    requires |h| > 0 && forall i :: 0 <= i < |h| ==> IsHexDigit(h[i])
    ensures ParseInt("0x" + h) == Some(HexValue(h))
  {
    var s := "0x" + h;
    TrimStartKeeps(s);
    assert HexPrefixed(s) && s[2..] == h;
    LeadingHexDigitsAll(h);
  }

  /** `0x` followed by no hexadecimal digit is `NaN`, not 0. */
  lemma ParseIntHexEmpty(t: string)
    requires |t| == 0 || !IsHexDigit(t[0])
    ensures ParseInt("0x" + t) == None
  {
    var s := "0x" + t;
    TrimStartKeeps(s);
    assert HexPrefixed(s) && s[2..] == t;
  }

  /** `pretty_number` spells a nonzero hexadecimal `0x` number in decimal, with
      thousands separators: `"0x1F"` becomes `"31"`. */
  lemma PrettyNumberHex(h: string)
    requires |h| > 0 && forall i :: 0 <= i < |h| ==> IsHexDigit(h[i])
    requires HexValue(h) != 0
    ensures PrettyNumber("0x" + h) == Commas(Decimal(HexValue(h)))
  {
    ParseIntHex(h);
  }

  /** The replacement of `/\B(?=(\d{3})+(?!\d))/g` by `,` on a digit string: a
      comma before every group of three digits counted from the right, except at
      the very start. */
  function Commas(d: string): string
    decreases |d|
  {
    if |d| <= 3 then d else Commas(d[..|d| - 3]) + "," + d[|d| - 3..]
  }

  /** `pretty_number`: the integer `parseInt` reads, with thousands separators,
      or the argument itself when that integer is 0 or `NaN`. */
  function PrettyNumber(s: string): string
  {
    match ParseInt(s)
    case None => s
    case Some(n) =>
      if n == 0 then s
      else if n < 0 then "-" + Commas(Decimal(-n)) else Commas(Decimal(n))
  }

  /** `s` with every comma removed. */
  function RemoveCommas(s: string): string
    decreases |s|
  {
    if |s| == 0 then "" else RemoveCommas(s[..|s| - 1]) + (if s[|s| - 1] == ',' then "" else [s[|s| - 1]])
  }

  lemma {:induction false} RemoveCommasAppend(a: string, b: string)
    ensures RemoveCommas(a + b) == RemoveCommas(a) + RemoveCommas(b)
    decreases |b|
  {
    if |b| == 0 {
      assert a + b == a;
    } else {
      var n := |b| - 1;
      assert (a + b)[..|a + b| - 1] == a + b[..n];
      assert (a + b)[|a + b| - 1] == b[n];
      RemoveCommasAppend(a, b[..n]);
    }
  }

  lemma {:induction false} RemoveCommasFree(s: string)
    requires ',' !in s
    ensures RemoveCommas(s) == s
    decreases |s|
  {
    if |s| > 0 {
      var n := |s| - 1;
      assert ',' !in s[..n] by {
        assert forall k :: 0 <= k < n ==> s[..n][k] == s[k];
      }
      RemoveCommasFree(s[..n]);
      assert s == s[..n] + [s[n]];
    }
  }

  /** Taking the commas out gives the digits back. */
  lemma {:induction false} CommasRemoved(d: string)
    requires ',' !in d
    ensures RemoveCommas(Commas(d)) == d
    decreases |d|
  {
    if |d| <= 3 {
      RemoveCommasFree(d);
    } else {
      var pre, tail := d[..|d| - 3], d[|d| - 3..];
      assert pre + tail == d;
      assert ',' !in pre && ',' !in tail;
      CommasRemoved(pre);
      RemoveCommasJoin(Commas(pre), pre, tail);
      CommasStep(d);
    }
  }

  /** One step of `Commas`: the digits before the last three, separated, then a comma
      and the last three. */
  lemma CommasStep(d: string)
    requires |d| > 3
    ensures Commas(d) == Commas(d[..|d| - 3]) + [','] + d[|d| - 3..]
  {
  }

  /** A comma and a comma-free group appended to text whose commas are removed. */
  lemma RemoveCommasJoin(x: string, pre: string, tail: string)
    requires RemoveCommas(x) == pre && ',' !in tail
    ensures RemoveCommas(x + [','] + tail) == pre + tail
  {
    var xc := x + [','];
    assert RemoveCommas(xc) == pre by {
      assert xc[..|xc| - 1] == x;
    }
    RemoveCommasAppend(xc, tail);
    RemoveCommasFree(tail);
  }

  /** The groups between commas are one to three digits first and exactly three
      after, as many as thousands separators call for. */
  lemma {:induction false} CommasGroups(d: string)
    requires |d| >= 1 && ',' !in d
    ensures var groups := Split(Commas(d), ',');
      1 <= |groups[0]| <= 3 && (forall i :: 1 <= i < |groups| ==> |groups[i]| == 3)
      && |groups| == (|d| + 2) / 3
    decreases |d|
  {
    if |d| <= 3 {
      SplitFree(d, ',');
    } else {
      var pre, tail := d[..|d| - 3], d[|d| - 3..];
      assert ',' !in pre && ',' !in tail;
      CommasGroups(pre);
      assert Commas(d) == Commas(pre) + [','] + tail;
      SplitAppend(Commas(pre), ',', tail);
      SplitFree(tail, ',');
    }
  }

  lemma DecimalCommaFree(n: nat)
    ensures ',' !in Decimal(n)
  {
  }

  /** For a nonzero integer, the pretty form without its commas is the integer's
      own spelling, and its digit groups are as thousands separators make them. */
  lemma PrettyNonzero(s: string)
    requires ParseInt(s).Some? && ParseInt(s).value != 0
    ensures RemoveCommas(PrettyNumber(s)) == IntString(ParseInt(s).value)
    ensures var n := ParseInt(s).value; var m := if n < 0 then -n else n;
      var groups := Split(Commas(Decimal(m)), ',');
      PrettyNumber(s) == (if n < 0 then "-" else "") + Commas(Decimal(m))
      && 1 <= |groups[0]| <= 3 && forall i :: 1 <= i < |groups| ==> |groups[i]| == 3
  {
    var n := ParseInt(s).value;
    var m := if n < 0 then -n else n;
    DecimalCommaFree(m);
    CommasRemoved(Decimal(m));
    CommasGroups(Decimal(m));
    if n < 0 {
      RemoveCommasAppend("-", Commas(Decimal(m)));
      RemoveCommasFree("-");
    }
  }

  /** The argument comes back as it was when `parseInt` finds no number or 0. */
  lemma PrettyZeroOrNaN(s: string)
    requires ParseInt(s).None? || ParseInt(s) == Some(0)
    ensures PrettyNumber(s) == s
  {
  }

  // ---- check_number_of_campaigns, create_campaign ----

  /** `$(".campaign-row").length`. */
  function CampaignRowCount(rows: seq<Row>): (n: nat)
    ensures n <= |rows|
    decreases |rows|
  {
    if |rows| == 0 then 0
    else CampaignRowCount(rows[..|rows| - 1]) + if HasClass(rows[|rows| - 1].cssClass, RowClass) then 1 else 0
  }

  /** `check_number_of_campaigns`: the table already has the most campaigns
      allowed. A page without a limit compares against `undefined`, which is never
      reached. */
  function TooManyCampaigns(rows: seq<Row>, maxCampaigns: Option<int>): bool
  {
    maxCampaigns.Some? && CampaignRowCount(rows) >= maxCampaigns.value
  }

  /** Whether `create_campaign` goes on to open the form: not once the limit is
      reached. */
  function CreateCampaignOpens(rows: seq<Row>, maxCampaigns: Option<int>): (opens: bool)
    ensures opens <==> !(maxCampaigns.Some? && CampaignRowCount(rows) >= maxCampaigns.value)
  {
    !TooManyCampaigns(rows, maxCampaigns)
  }

  /** A row `new_campaign` adds counts as one more campaign; a non-campaign row
      does not. */
  lemma CampaignRowCountAppend(rows: seq<Row>, row: Row)
    ensures CampaignRowCount(rows + [row]) == CampaignRowCount(rows) + if HasClass(row.cssClass, RowClass) then 1 else 0
  {
    assert (rows + [row])[..|rows|] == rows;
  }

  lemma NewCampaignCounts(rows: seq<Row>, flags: Flags, cells: seq<Cell>)
    ensures CampaignRowCount(rows + [Row(FlagClass(flags), cells)]) == CampaignRowCount(rows) + 1
  {
    CampaignRowCountAppend(rows, Row(FlagClass(flags), cells));
    FlagClassHasClass(flags);
  }

  /** Once a new campaign brings the count to the limit, another cannot be created. */
  lemma LimitReached(rows: seq<Row>, flags: Flags, cells: seq<Cell>, maxCampaigns: int)
    requires CampaignRowCount(rows) + 1 == maxCampaigns
    ensures !CreateCampaignOpens(rows + [Row(FlagClass(flags), cells)], Some(maxCampaigns))
    ensures CreateCampaignOpens(rows, Some(maxCampaigns))
  {
    NewCampaignCounts(rows, flags, cells);
  }
}
