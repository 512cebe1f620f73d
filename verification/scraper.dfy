/** The extraction core of the result-page scraper (main.go): turning the
    cells of an event page's group table, and of each linked results table,
    into Competition / Group / SubGroup / AttendeeResult records.

    The HTML document is abstracted to the cells the CSS selectors pick out:
    each table is a sequence of rows, each row a sequence of cells. Result
    pages are fetched through an input function from URL to table rows. */
module Scraper {
  import opened Wrappers
  import opened Ints
  import opened Strings
  import opened Strconv

  /** The site every sub-group link is resolved against. */
  const ResultsSite: string := "https://dbsportas.lt/"

  /** One `td`: its full text, the text of the anchors inside it, and the
      `href` of its first anchor when that attribute is present. */
  datatype Cell = Cell(text: string, anchorText: string, href: Option<string>)

  type Row = seq<Cell>

  datatype AttendeeResult = AttendeeResult(
    place: string,
    name: string,
    id: int32,
    country: string,
    club: string,
    finishTime: string,
    speed: string)

  datatype SubGroup = SubGroup(title: string, results: seq<AttendeeResult>)

  datatype Group = Group(title: string, subGroups: seq<SubGroup>)

  datatype Competition = Competition(
    title: string,
    description: string,
    attendees: int32,
    groups: seq<Group>)

  /** What the selectors extract from an event page: the `h1` text, the
      `small` text, the attendee line after the `h2`, and the rows of the
      groups table. */
  datatype EventPage = EventPage(
    title: string,
    description: string,
    attendeesText: string,
    groupRows: seq<Row>)

  /** Fetching a page and selecting the rows of its results table. */
  type Fetch = string -> seq<Row>

  // ---------------------------------------------------------------------
  // Number parsing
  // ---------------------------------------------------------------------

  /** The text, trimmed of white space, read as a decimal integer and
      narrowed to 32 bits; 0 when it is not a decimal integer or does not
      fit in 64 bits. */
  function ParseInt(str: string): (r: int32)
    ensures var t := TrimSpace(str);
      if IsDecimal(t) && InInt64(DecimalValue(t)) then r == Wrap32(DecimalValue(t)) else r == 0
    ensures var t := TrimSpace(str);
      IsDecimal(t) && MinInt32 <= DecimalValue(t) <= MaxInt32 ==> r == DecimalValue(t)
  {
    match Atoi(TrimSpace(str))
    case Some(n) => Wrap32(n)
    case None => 0
  }

  /** The attendee count: the integer after the first colon, or the whole
      text read as an integer when there is no colon. */
  function ParseAttendeesCount(text: string): (r: int32)
    ensures !Contains(text, ":") ==> r == ParseInt(text)
  {
    var i := Index(text, ":");
    TrimIdempotent(text[i + 1..], IsSpace);
    ParseInt(TrimSpace(text[i + 1..]))
  }

  // ---------------------------------------------------------------------
  // Result rows
  // ---------------------------------------------------------------------

  /** The contender ID carried by the link in the name cell: 0 without a
      link or when the link does not mention "dal"; otherwise the integer
      after the first "l/" (from the second character when there is no
      "l/", which never reads as a number). */
  function ContenderId(href: Option<string>): (id: int32)
    ensures href.None? ==> id == 0
    ensures href.Some? && !Contains(href.value, "dal") ==> id == 0
    ensures href.Some? && !Contains(href.value, "l/") ==> id == 0
  {
    match href
    case None => 0
    case Some(link) =>
      if Contains(link, "dal") then
        var i := Index(link, "l/");
        FallbackNeverParses(link);
        ParseInt(link[i + 2..])
      else
        0
  }

  /** A link that mentions "dal" keeps its 'a' after dropping its first
      character, so that suffix is never a decimal integer. */
  lemma FallbackNeverParses(link: string)
    requires Contains(link, "dal")
    ensures |link| > 0 && ParseInt(link[1..]) == 0
  {
    var i :| OccursAt(link, "dal", i);
    assert link[i..i + 3][1] == 'a';
    var s := link[1..];
    assert s[i] == 'a';
    TrimKeeps(s, IsSpace, i);
    var t := TrimSpace(s);
    var j :| 0 <= j < |t| && t[j] == 'a';
    NotDecimalWith(t, j);
  }

  /** No leading or trailing newline in any text field. */
  ghost predicate NewlineBare(a: AttendeeResult)
  {
    && Bare(a.place, IsNewline)
    && Bare(a.name, IsNewline)
    && Bare(a.country, IsNewline)
    && Bare(a.club, IsNewline)
    && Bare(a.finishTime, IsNewline)
    && Bare(a.speed, IsNewline)
  }

  /** The text of cell `j`, trimmed of newlines, or "" when the row is
      shorter. */
  function CellText(row: Row, j: nat): (t: string)
    ensures Bare(t, IsNewline)
    ensures |row| <= j ==> t == ""
    ensures j < |row| && Bare(row[j].text, IsNewline) ==> t == row[j].text
  {
    if j < |row| then
      TrimOfBare(row[j].text, IsNewline);
      TrimNewlines(row[j].text)
    else
      ""
  }

  /** One results row as a record: cells 0 to 5 are place, name, country,
      club, finish time and speed; the ID comes from the link in cell 1.
      Missing cells leave the zero value. */
  function MapRow(row: Row): (r: AttendeeResult)
    ensures NewlineBare(r)
    ensures |row| < 1 ==> r.place == ""
    ensures |row| < 2 ==> r.name == "" && r.id == 0
    ensures |row| < 3 ==> r.country == ""
    ensures |row| < 4 ==> r.club == ""
    ensures |row| < 5 ==> r.finishTime == ""
    ensures |row| < 6 ==> r.speed == ""
    ensures |row| > 0 && Bare(row[0].text, IsNewline) ==> r.place == row[0].text
    ensures |row| > 1 && Bare(row[1].text, IsNewline) ==> r.name == row[1].text
    ensures |row| > 2 && Bare(row[2].text, IsNewline) ==> r.country == row[2].text
    ensures |row| > 3 && Bare(row[3].text, IsNewline) ==> r.club == row[3].text
    ensures |row| > 4 && Bare(row[4].text, IsNewline) ==> r.finishTime == row[4].text
    ensures |row| > 5 && Bare(row[5].text, IsNewline) ==> r.speed == row[5].text
  {
    AttendeeResult(
      place := CellText(row, 0),
      name := CellText(row, 1),
      id := if |row| > 1 then ContenderId(row[1].href) else 0,
      country := CellText(row, 2),
      club := CellText(row, 3),
      finishTime := CellText(row, 4),
      speed := CellText(row, 5))
  }

  /** Walks the rows of a table in order, skipping row 0 (the header row of
      `th` cells) and converting every later row with `f`. */
  function SkipHeader<T>(rows: seq<Row>, f: Row -> T): (r: seq<T>)
    ensures |r| == if |rows| == 0 then 0 else |rows| - 1
    ensures forall k :: 0 <= k < |r| ==> r[k] == f(rows[k + 1])
    decreases |rows|
  {
    if |rows| == 0 then []
    else
      var i := |rows| - 1;
      SkipHeader(rows[..i], f) + (if i > 0 then [f(rows[i])] else [])
  }

  /** The records of a results table: one per row after the header, in
      table order. */
  function Results(rows: seq<Row>): (r: seq<AttendeeResult>)
    ensures |r| == if |rows| == 0 then 0 else |rows| - 1
    ensures forall k :: 0 <= k < |r| ==> r[k] == MapRow(rows[k + 1])
  {
    SkipHeader(rows, MapRow)
  }

  // ---------------------------------------------------------------------
  // Groups and sub-groups
  // ---------------------------------------------------------------------

  /** A sub-group cell with a link yields the sub-group named by the link's
      text, holding the results of the linked page; a cell without a link
      yields nothing. */
  function ExtractSubGroup(cell: Cell, fetch: Fetch): (r: Option<SubGroup>)
    ensures r.Some? <==> cell.href.Some?
    ensures r.Some? ==> Bare(r.value.title, IsNewline)
    ensures r.Some? && Bare(cell.anchorText, IsNewline) ==> r.value.title == cell.anchorText
  {
    match cell.href
    case None => None
    case Some(href) =>
      TrimOfBare(cell.anchorText, IsNewline);
      Some(SubGroup(TrimNewlines(cell.anchorText), Results(fetch(ResultsSite + href))))
  }

  /** The cells that carry a link, in their original order. */
  function LinkedCells(cells: seq<Cell>): (linked: seq<Cell>)
    ensures |linked| <= |cells|
    ensures forall k :: 0 <= k < |linked| ==> linked[k].href.Some?
    decreases |cells|
  {
    if |cells| == 0 then []
    else (if cells[0].href.Some? then [cells[0]] else []) + LinkedCells(cells[1..])
  }

  lemma {:induction false} LinkedCellsConcat(a: seq<Cell>, b: seq<Cell>)
    ensures LinkedCells(a + b) == LinkedCells(a) + LinkedCells(b)
    decreases |a|
  {
    if |a| == 0 {
      assert a + b == b;
    } else {
      assert (a + b)[0] == a[0];
      assert (a + b)[1..] == a[1..] + b;
      LinkedCellsConcat(a[1..], b);
    }
  }

  /** The cells of a row after the first. */
  function Tail(row: Row): seq<Cell>
  {
    if |row| == 0 then [] else row[1..]
  }

  /** Extending a row by one cell extends its linked tail by that cell when
      it carries a link. */
  lemma LinkedTailSnoc(row: Row)
    requires |row| > 1
    ensures var j := |row| - 1;
      LinkedCells(Tail(row)) == LinkedCells(Tail(row[..j])) + (if row[j].href.Some? then [row[j]] else [])
  {
    var j := |row| - 1;
    assert Tail(row) == Tail(row[..j]) + [row[j]];
    LinkedCellsConcat(Tail(row[..j]), [row[j]]);
    assert [row[j]][1..] == [];
  }

  /** One row of the groups table as a Group: cell 0's text is the title,
      and each later cell with a link contributes one sub-group, in cell
      order. */
  function GroupOf(row: Row, fetch: Fetch): (g: Group)
    ensures g.title == if |row| == 0 then "" else row[0].text
    ensures var linked := LinkedCells(Tail(row));
      && |g.subGroups| == |linked|
      && forall k :: 0 <= k < |linked| ==> ExtractSubGroup(linked[k], fetch) == Some(g.subGroups[k])
    decreases |row|
  {
    if |row| == 0 then Group("", [])
    else
      var j := |row| - 1;
      var g := GroupOf(row[..j], fetch);
      if j == 0 then
        g.(title := row[0].text)
      else
        LinkedTailSnoc(row);
        var sub := ExtractSubGroup(row[j], fetch);
        if sub.Some? then g.(subGroups := g.subGroups + [sub.value]) else g
  }

  /** One Group per row of the groups table, in table order. */
  function ExtractGroups(rows: seq<Row>, fetch: Fetch): (groups: seq<Group>)
    ensures |groups| == |rows|
    ensures forall i :: 0 <= i < |rows| ==> groups[i] == GroupOf(rows[i], fetch)
    decreases |rows|
  {
    if |rows| == 0 then []
    else
      var init := rows[..|rows| - 1];
      assert forall i :: 0 <= i < |init| ==> init[i] == rows[i];
      ExtractGroups(init, fetch) + [GroupOf(rows[|rows| - 1], fetch)]
  }

  /** The competition record assembled from an event page: the title and
      description are copied, the attendee count is read from its line,
      and every row of the groups table becomes one group, in order. */
  function ExtractCompetition(page: EventPage, fetch: Fetch): (c: Competition)
    ensures c.title == page.title && c.description == page.description
    ensures c.attendees == ParseAttendeesCount(page.attendeesText)
    ensures !Contains(page.attendeesText, ":") ==> c.attendees == ParseInt(page.attendeesText)
    ensures |c.groups| == |page.groupRows|
    ensures forall i :: 0 <= i < |c.groups| ==> c.groups[i] == GroupOf(page.groupRows[i], fetch)
    ensures forall i :: 0 <= i < |c.groups| ==>
      c.groups[i].title == if |page.groupRows[i]| == 0 then "" else page.groupRows[i][0].text
  {
    Competition(
      title := page.title,
      description := page.description,
      attendees := ParseAttendeesCount(page.attendeesText),
      groups := ExtractGroups(page.groupRows, fetch))
  }
}
