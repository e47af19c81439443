/** The content of `generateReportHTML`: what the cover, the two summary
    tables and the detailed snag list show for a report and its snags. The
    markup and the stylesheet around that content are not modelled. */
module Pdf {
  import opened Common
  import opened Records
  import opened JsString
  import opened HtmlEscape
  import opened Grouping

  /** `#` and the one-based position within the room, left-padded with `0`
      to three digits. */
  function SnagNumber(index: nat): (n: string)
    ensures |n| >= 4 && n[0] == '#'
  {
    "#" + PadStart(NatToString(index + 1), 3, '0')
  }

  /** A snag number is `#` and at least three digits that denote the
      one-based position. */
  lemma SnagNumberValue(index: nat)
    ensures var n := SnagNumber(index);
            && |n| >= 4 && n[0] == '#'
            && AllDigits(n[1..]) && DecimalValue(n[1..]) == index + 1
  {
    var d := NatToString(index + 1);
    assert SnagNumber(index)[1..] == PadStart(d, 3, '0');
    DecimalOfNatToString(index + 1);
    if |d| < 3 {
      DecimalIgnoresLeadingZeros(3 - |d|, d);
    }
  }

  /** Distinct positions get distinct numbers. */
  lemma SnagNumbersDistinct(i: nat, j: nat)
    requires i != j
    ensures SnagNumber(i) != SnagNumber(j)
  {
    SnagNumberValue(i);
    SnagNumberValue(j);
  }

  lemma SnagNumberExamples()
    ensures SnagNumber(0) == "#001"
    ensures SnagNumber(41) == "#042"
  {
    assert NatToString(1) == "1";
    assert NatToString(42) == "42" by {
      assert NatToString(4) == "4";
    }
    assert Repeat('0', 1) == "0";
    assert Repeat('0', 2) == "00";
  }

  /** `report.id.slice(0, 8).toUpperCase()`: the first eight characters, or
      the whole id when it is shorter, with lower-case letters raised. */
  function ShortId(id: Id): (s: string)
    ensures |s| == if |id| < 8 then |id| else 8
    ensures forall i :: 0 <= i < |s| ==> s[i] == UpperChar(id[i])
  {
    ToUpper(Prefix(id, 8))
  }

  /** Shortening a shortened id changes nothing. */
  lemma ShortIdIdempotent(id: Id)
    ensures ShortId(ShortId(id)) == ShortId(id)
  {
  }

  /** Every snag carries a severity; `snag.severity.toLowerCase()` throws
      for a snag without one. */
  predicate Rated(ss: seq<Snag>) {
    forall j :: 0 <= j < |ss| ==> ss[j].severity.Some?
  }

  predicate AllRated(members: map<string, seq<Snag>>) {
    forall k :: k in members ==> Rated(members[k])
  }

  /** One snag card of the detailed list. The severity label and the photo
      URL are inserted as they are stored; the texts are escaped. */
  datatype Card = Card(
    number: string,
    title: string,
    severityClass: string,
    severity: string,
    photoUrl: string,
    description: string,
    trade: string,
    action: string)

  function CardOf(s: Snag, index: nat): Card
    requires s.severity.Some?
  {
    Card(
      SnagNumber(index),
      Shown(s.defectType, "Defect"),
      "severity-" + ToLower(s.severity.value),
      s.severity.value,
      s.photoUrl,
      Shown(s.description, "No description"),
      Shown(s.suggestedTrade, "TBC"),
      Shown(s.remedialAction, "Review required"))
  }

  /** A missing or empty text shows its fallback; a present one shows
      escaped, decoding back to the stored text. */
  lemma TextShown(v: Option<string>, fallback: string)
    requires '&' !in fallback && '<' !in fallback && '>' !in fallback
    requires '"' !in fallback && '\'' !in fallback
    ensures !Present(v) ==> Shown(v, fallback) == fallback
    ensures Present(v) ==> Unescape(Shown(v, fallback)) == v.value
  {
    EscapeHtmlPlain(fallback);
    UnescapeEscape(OrDefault(v, fallback));
  }

  /** A snag text shown on a card: escaped, or the fallback. */
  function Shown(v: Option<string>, fallback: string): string {
    EscapeHtml(OrDefault(v, fallback))
  }

  lemma TitleShown(s: Snag, index: nat)
    requires s.severity.Some?
    ensures !Present(s.defectType) ==> CardOf(s, index).title == "Defect"
    ensures Present(s.defectType) ==> Unescape(CardOf(s, index).title) == s.defectType.value
  {
    TextShown(s.defectType, "Defect");
  }

  lemma DescriptionShown(s: Snag, index: nat)
    requires s.severity.Some?
    ensures !Present(s.description) ==> CardOf(s, index).description == "No description"
    ensures Present(s.description) ==> Unescape(CardOf(s, index).description) == s.description.value
  {
    TextShown(s.description, "No description");
  }

  lemma TradeShown(s: Snag, index: nat)
    requires s.severity.Some?
    ensures !Present(s.suggestedTrade) ==> CardOf(s, index).trade == "TBC"
    ensures Present(s.suggestedTrade) ==> Unescape(CardOf(s, index).trade) == s.suggestedTrade.value
  {
    TextShown(s.suggestedTrade, "TBC");
  }

  lemma ActionShown(s: Snag, index: nat)
    requires s.severity.Some?
    ensures !Present(s.remedialAction) ==> CardOf(s, index).action == "Review required"
    ensures Present(s.remedialAction) ==> Unescape(CardOf(s, index).action) == s.remedialAction.value
  {
    TextShown(s.remedialAction, "Review required");
  }

  /** A card shows the fallback for each missing or empty text, and every
      other text escaped so that it decodes back to the stored one. */
  lemma CardShowsSnag(s: Snag, index: nat)
    requires s.severity.Some?
    ensures !Present(s.defectType) ==> CardOf(s, index).title == "Defect"
    ensures !Present(s.description) ==> CardOf(s, index).description == "No description"
    ensures !Present(s.suggestedTrade) ==> CardOf(s, index).trade == "TBC"
    ensures !Present(s.remedialAction) ==> CardOf(s, index).action == "Review required"
    ensures Present(s.defectType) ==> Unescape(CardOf(s, index).title) == s.defectType.value
    ensures Present(s.description) ==> Unescape(CardOf(s, index).description) == s.description.value
    ensures Present(s.suggestedTrade) ==> Unescape(CardOf(s, index).trade) == s.suggestedTrade.value
    ensures Present(s.remedialAction) ==> Unescape(CardOf(s, index).action) == s.remedialAction.value
  {
    TitleShown(s, index);
    DescriptionShown(s, index);
    TradeShown(s, index);
    ActionShown(s, index);
  }

  /** The cards of one room, numbered from `#001` in group order. */
  function Cards(g: seq<Snag>): (cs: seq<Card>)
    requires Rated(g)
    ensures |cs| == |g|
  {
    seq(|g|, j requires 0 <= j < |g| => CardOf(g[j], j))
  }

  /** One room of the detailed list: its heading, the number in brackets and
      its cards. */
  datatype Section = Section(heading: string, count: nat, cards: seq<Card>)

  function Sections(keys: seq<string>, members: map<string, seq<Snag>>): (r: seq<Section>)
    requires AllRated(members)
    ensures |r| == |keys|
  {
    seq(|keys|, i requires 0 <= i < |keys| => SectionOf(keys[i], GroupAt(members, keys[i])))
  }

  function SectionOf(room: string, g: seq<Snag>): Section
    requires Rated(g)
  {
    Section(EscapeHtml(room), |g|, Cards(g))
  }

  /** One row of "Snags by Location". */
  datatype RoomRow = RoomRow(location: string, minor: nat, moderate: nat, major: nat, total: nat)

  function RoomRows(keys: seq<string>, members: map<string, seq<Snag>>): (r: seq<RoomRow>)
    ensures |r| == |keys|
  {
    seq(|keys|, i requires 0 <= i < |keys| => RoomRowOf(keys[i], GroupAt(members, keys[i])))
  }

  function RoomRowOf(room: string, g: seq<Snag>): RoomRow {
    var c := Counts(g);
    RoomRow(EscapeHtml(room), c.minor, c.moderate, c.major, |g|)
  }

  /** One row of "Snags by Trade". */
  datatype TradeRow = TradeRow(trade: string, count: nat)

  function TradeRows(keys: seq<string>, members: map<string, seq<Snag>>): (r: seq<TradeRow>)
    ensures |r| == |keys|
  {
    seq(|keys|, i requires 0 <= i < |keys| => TradeRow(EscapeHtml(keys[i]), |GroupAt(members, keys[i])|))
  }

  /** The content of the generated document. */
  datatype Document = Document(
    address: string,
    propertyType: Option<string>,
    developer: Option<string>,
    reportId: string,
    total: nat,
    counts: SeverityCounts,
    roomRows: seq<RoomRow>,
    tradeRows: seq<TradeRow>,
    sections: seq<Section>)

  /** A grouping of rated snags holds only rated groups. */
  lemma GroupsRated(ss: seq<Snag>, field: Field)
    requires GroupFold(ss, field).Some? && Rated(ss)
    ensures AllRated(GroupFold(ss, field).value.members)
  {
    GroupFoldShape(ss, field);
  }

  /** Snags the document can be rendered from: every one has a severity and
      no room or trade name is one of the names every object inherits. */
  predicate Renders(snags: seq<Snag>) {
    Rated(snags) && !Throws(snags, Room) && !Throws(snags, Trade)
  }

  /** `generateReportHTML(report)` for a report and its snags: `None` when it
      throws, which happens exactly when some snag has no severity or some
      room or trade name is one of the names every object inherits. */
  function ReportDocument(r: Report, snags: seq<Snag>): (d: Option<Document>)
    ensures d.None? <==> !Rated(snags) || Throws(snags, Room) || Throws(snags, Trade)
  {
    GroupFoldThrows(snags, Room);
    GroupFoldThrows(snags, Trade);
    var rooms := GroupFold(snags, Room);
    var trades := GroupFold(snags, Trade);
    if rooms.None? || trades.None? || !Rated(snags) then None
    else
      var g, t := rooms.value, trades.value;
      GroupsRated(snags, Room);
      Some(Document(
        EscapeHtml(r.propertyAddress),
        if Present(r.propertyType) then Some(EscapeHtml(r.propertyType.value)) else None,
        if Present(r.developerName) then Some(EscapeHtml(r.developerName.value)) else None,
        ShortId(r.id),
        |snags|,
        Counts(snags),
        RoomRows(Entries(g.keys), g.members),
        TradeRows(Entries(t.keys), t.members),
        Sections(Entries(g.keys), g.members)))
  }

  /** The property rows appear exactly for truthy values, and every text on
      the cover decodes back to the stored one. */
  lemma CoverShowsReport(r: Report, snags: seq<Snag>)
    requires Renders(snags)
    ensures var d := ReportDocument(r, snags).value;
            && Unescape(d.address) == r.propertyAddress
            && (d.propertyType.Some? <==> Present(r.propertyType))
            && (d.propertyType.Some? ==> Unescape(d.propertyType.value) == r.propertyType.value)
            && (d.developer.Some? <==> Present(r.developerName))
            && (d.developer.Some? ==> Unescape(d.developer.value) == r.developerName.value)
            && d.reportId == ShortId(r.id)
  {
    UnescapeEscape(r.propertyAddress);
    if Present(r.propertyType) {
      UnescapeEscape(r.propertyType.value);
    }
    if Present(r.developerName) {
      UnescapeEscape(r.developerName.value);
    }
  }

  /** What a column of the tables counts. */
  datatype Column = Minor | Moderate | Major | Total

  function Tally(ss: seq<Snag>, c: Column): nat {
    match c
    case Minor => CountSeverity(ss, "MINOR")
    case Moderate => CountSeverity(ss, "MODERATE")
    case Major => CountSeverity(ss, "MAJOR")
    case Total => |ss|
  }

  lemma TallyAppend(a: seq<Snag>, b: seq<Snag>, c: Column)
    ensures Tally(a + b, c) == Tally(a, c) + Tally(b, c)
  {
    CountSeverityAppend(a, b, "MINOR");
    CountSeverityAppend(a, b, "MODERATE");
    CountSeverityAppend(a, b, "MAJOR");
  }

  lemma TallyPermutation(a: seq<Snag>, b: seq<Snag>, c: Column)
    requires multiset(a) == multiset(b)
    ensures Tally(a, c) == Tally(b, c)
  {
    assert |a| == |multiset(a)| == |multiset(b)| == |b|;
    CountSeverityPermutation(a, b, "MINOR");
    CountSeverityPermutation(a, b, "MODERATE");
    CountSeverityPermutation(a, b, "MAJOR");
  }

  function Sum(xs: seq<nat>): nat
    decreases |xs|
  {
    if xs == [] then 0 else xs[0] + Sum(xs[1..])
  }

  /** A column per group, in the given key order. */
  function Tallies(keys: seq<string>, members: map<string, seq<Snag>>, c: Column): (r: seq<nat>)
    ensures |r| == |keys|
  {
    seq(|keys|, i requires 0 <= i < |keys| => Tally(GroupAt(members, keys[i]), c))
  }

  /** Summing a column over the groups counts the concatenated groups. */
  lemma {:induction false} SumTallies(keys: seq<string>, members: map<string, seq<Snag>>, c: Column)
    ensures Sum(Tallies(keys, members, c)) == Tally(Flatten(keys, members), c)
    decreases |keys|
  {
    if keys != [] {
      assert Tallies(keys, members, c)[1..] == Tallies(keys[1..], members, c);
      SumTallies(keys[1..], members, c);
      TallyAppend(GroupAt(members, keys[0]), Flatten(keys[1..], members), c);
    }
  }

  /** Summing a column over the listed groups counts all the snags. */
  lemma ListedTallies(ss: seq<Snag>, field: Field, c: Column)
    requires GroupFold(ss, field).Some?
    ensures var g := GroupFold(ss, field).value;
            Sum(Tallies(Entries(g.keys), g.members, c)) == Tally(ss, c)
  {
    var g := GroupFold(ss, field).value;
    SumTallies(Entries(g.keys), g.members, c);
    ListedGroupsArePermutation(ss, field);
    TallyPermutation(Flatten(Entries(g.keys), g.members), ss, c);
  }

  function RoomColumn(rows: seq<RoomRow>, c: Column): (r: seq<nat>)
    ensures |r| == |rows|
  {
    seq(|rows|, i requires 0 <= i < |rows| =>
      match c
      case Minor => rows[i].minor
      case Moderate => rows[i].moderate
      case Major => rows[i].major
      case Total => rows[i].total)
  }

  function TradeCounts(rows: seq<TradeRow>): (r: seq<nat>)
    ensures |r| == |rows|
  {
    seq(|rows|, i requires 0 <= i < |rows| => rows[i].count)
  }

  /** The number of cards each section shows. */
  function CardCounts(sections: seq<Section>): (r: seq<nat>)
    ensures |r| == |sections|
  {
    seq(|sections|, i requires 0 <= i < |sections| => |sections[i].cards|)
  }

  /** "Snags by Location" adds up to the cover: the totals column sums to the
      number of snags and each severity column to that severity's count on
      the cover; within a row the three severities never exceed its total. */
  lemma RoomTableAddsUp(r: Report, snags: seq<Snag>)
    requires Renders(snags)
    ensures var d := ReportDocument(r, snags).value;
            && Sum(RoomColumn(d.roomRows, Total)) == d.total == |snags|
            && Sum(RoomColumn(d.roomRows, Minor)) == d.counts.minor
            && Sum(RoomColumn(d.roomRows, Moderate)) == d.counts.moderate
            && Sum(RoomColumn(d.roomRows, Major)) == d.counts.major
            && forall i :: 0 <= i < |d.roomRows| ==>
                 d.roomRows[i].minor + d.roomRows[i].moderate + d.roomRows[i].major <= d.roomRows[i].total
  {
    var d := ReportDocument(r, snags).value;
    var g := GroupFold(snags, Room).value;
    var ks := Entries(g.keys);
    forall c: Column ensures Sum(RoomColumn(d.roomRows, c)) == Tally(snags, c) {
      assert RoomColumn(d.roomRows, c) == Tallies(ks, g.members, c);
      ListedTallies(snags, Room, c);
    }
    forall i | 0 <= i < |d.roomRows|
      ensures d.roomRows[i].minor + d.roomRows[i].moderate + d.roomRows[i].major <= d.roomRows[i].total
    {
      CountsBounded(GroupAt(g.members, ks[i]));
    }
  }

  /** "Snags by Trade" counts every snag once. */
  lemma TradeTableAddsUp(r: Report, snags: seq<Snag>)
    requires Renders(snags)
    ensures var d := ReportDocument(r, snags).value;
            Sum(TradeCounts(d.tradeRows)) == |snags|
  {
    var d := ReportDocument(r, snags).value;
    var t := GroupFold(snags, Trade).value;
    assert TradeCounts(d.tradeRows) == Tallies(Entries(t.keys), t.members, Total);
    ListedTallies(snags, Trade, Total);
  }

  /** The section of a room heads it as its location row does, counts its
      cards, and numbers them `#001`, `#002`, ... in group order. */
  lemma SectionMatchesRow(room: string, g: seq<Snag>)
    requires Rated(g)
    ensures var sec, row := SectionOf(room, g), RoomRowOf(room, g);
            && sec.heading == row.location
            && sec.count == |sec.cards| == row.total
            && forall j :: 0 <= j < |sec.cards| ==> NumberedAt(sec.cards[j], j)
  {
    var cs := Cards(g);
    forall j | 0 <= j < |cs| ensures NumberedAt(cs[j], j) {
      assert cs[j].number == SnagNumber(j);
      SnagNumberValue(j);
    }
  }

  /** Section `i` heads the room of row `i`, its count is its number of
      cards and the row's total, and its cards are numbered from `#001`. */
  ghost predicate SectionsMatch(ss: seq<Section>, rows: seq<RoomRow>) {
    && |ss| == |rows|
    && (forall i :: 0 <= i < |ss| ==>
          ss[i].heading == rows[i].location
          && ss[i].count == |ss[i].cards| == rows[i].total)
    && (forall i, j :: 0 <= i < |ss| && 0 <= j < |ss[i].cards| ==> NumberedAt(ss[i].cards[j], j))
  }

  /** The card shows `#` and digits that denote the one-based position `j + 1`. */
  predicate NumberedAt(c: Card, j: nat) {
    && |c.number| >= 4 && c.number[0] == '#'
    && AllDigits(c.number[1..]) && DecimalValue(c.number[1..]) == j + 1
  }

  /** Each section heads its room as the location table does, its count is
      its number of cards, and its cards are numbered from `#001`. */
  lemma SectionsFollowRows(keys: seq<string>, members: map<string, seq<Snag>>)
    requires AllRated(members)
    ensures SectionsMatch(Sections(keys, members), RoomRows(keys, members))
  {
    var ss, rows := Sections(keys, members), RoomRows(keys, members);
    forall i | 0 <= i < |ss|
      ensures ss[i].heading == rows[i].location
      ensures ss[i].count == |ss[i].cards| == rows[i].total
      ensures forall j :: 0 <= j < |ss[i].cards| ==> NumberedAt(ss[i].cards[j], j)
    {
      SectionMatchesRow(keys[i], GroupAt(members, keys[i]));
    }
  }

  /** The room sections of a document are built over the listed room
      groups. */
  lemma DocumentSections(r: Report, snags: seq<Snag>)
    requires Renders(snags)
    ensures var d, g := ReportDocument(r, snags).value, GroupFold(snags, Room).value;
            && AllRated(g.members)
            && d.sections == Sections(Entries(g.keys), g.members)
            && d.roomRows == RoomRows(Entries(g.keys), g.members)
  {
    GroupsRated(snags, Room);
  }

  /** The detailed list follows the location table room by room and numbers
      the cards of each room from `#001`. */
  lemma SectionsFollowTable(r: Report, snags: seq<Snag>)
    requires Renders(snags)
    ensures var d := ReportDocument(r, snags).value;
            SectionsMatch(d.sections, d.roomRows)
  {
    GroupFoldThrows(snags, Room);
    var g := GroupFold(snags, Room).value;
    DocumentSections(r, snags);
    SectionsFollowRows(Entries(g.keys), g.members);
  }

  /** The detailed list shows every snag once: the sections' cards add up to
      the number of snags. */
  lemma SectionsListEverySnag(r: Report, snags: seq<Snag>)
    requires Renders(snags)
    ensures Sum(CardCounts(ReportDocument(r, snags).value.sections)) == |snags|
  {
    GroupFoldThrows(snags, Room);
    var g := GroupFold(snags, Room).value;
    DocumentSections(r, snags);
    CardCountsAreTotals(Entries(g.keys), g.members);
    ListedTallies(snags, Room, Total);
  }

  /** A section shows one card per snag of its group. */
  lemma CardCountsAreTotals(keys: seq<string>, members: map<string, seq<Snag>>)
    requires AllRated(members)
    ensures CardCounts(Sections(keys, members)) == Tallies(keys, members, Total)
  {
  }
}
