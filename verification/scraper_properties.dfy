/** Properties of the extraction core that relate several operations:
    round trips through a rendering of the records back into table cells,
    the behaviour of the number parsers on padded and labelled text, and
    an end-to-end statement about a whole event page. */
module ScraperProperties {
  import opened Wrappers
  import opened Ints
  import opened Strings
  import opened Strconv
  import opened Scraper

  // ---------------------------------------------------------------------
  // Number parsing
  // ---------------------------------------------------------------------

  /** White space around the text does not change the parsed integer. */
  lemma ParseIntIgnoresPadding(w1: string, s: string, w2: string)
    requires AllIn(w1, IsSpace) && AllIn(w2, IsSpace)
    ensures ParseInt(w1 + s + w2) == ParseInt(s)
  {
    TrimIgnoresPadding(w1, s, w2, IsSpace);
  }

  /** A decimal rendering has no white space to trim. */
  lemma TrimSpaceFormatInt(n: int)
    ensures TrimSpace(FormatInt(n)) == FormatInt(n)
    ensures IsDecimal(FormatInt(n)) && DecimalValue(FormatInt(n)) == n
  {
    var s := FormatInt(n);
    FormatIntDecimal(n);
    assert [] + s + [] == s;
    TrimOfPadded([], s, [], IsSpace);
  }

  /** The decimal rendering of an int32 parses back to it. */
  lemma ParseIntFormatInt(n: int32)
    ensures ParseInt(FormatInt(n)) == n
  {
    TrimSpaceFormatInt(n);
  }

  /** ... also when surrounded by white space. */
  lemma ParseIntPaddedNumber(w1: string, n: int32, w2: string)
    requires AllIn(w1, IsSpace) && AllIn(w2, IsSpace)
    ensures ParseInt(w1 + FormatInt(n) + w2) == n
  {
    ParseIntIgnoresPadding(w1, FormatInt(n), w2);
    ParseIntFormatInt(n);
  }

  /** A 64-bit value outside the int32 range comes back wrapped modulo 2^32. */
  lemma ParseIntWraps(n: int)
    requires InInt64(n)
    ensures ParseInt(FormatInt(n)) == Wrap32(n)
    ensures (ParseInt(FormatInt(n)) - n) % 0x1_0000_0000 == 0
  {
    TrimSpaceFormatInt(n);
  }

  /** The attendee count is the integer after the first colon. */
  lemma AttendeesAfterFirstColon(caption: string, rest: string)
    requires !Contains(caption, ":")
    ensures ParseAttendeesCount(caption + ":" + rest) == ParseInt(rest)
  {
    var text := caption + ":" + rest;
    assert text[|caption|..|caption| + 1] == ":";
    assert OccursAt(text, ":", |caption|);
    forall i | 0 <= i < |caption| ensures !OccursAt(text, ":", i) {
      assert text[i..i + 1] == caption[i..i + 1];
      assert !OccursAt(caption, ":", i);
    }
    assert Index(text, ":") == |caption|;
    assert text[|caption| + 1..] == rest;
    TrimIdempotent(rest, IsSpace);
  }

  /** On an event page whose attendee line is a colon-free caption, a
      colon and a rest, the competition's count is the rest read as an
      integer. */
  lemma CompetitionAttendeesAfterColon(page: EventPage, caption: string, rest: string, fetch: Fetch)
    requires page.attendeesText == caption + ":" + rest && !Contains(caption, ":")
    ensures ExtractCompetition(page, fetch).attendees == ParseInt(rest)
  {
    AttendeesAfterFirstColon(caption, rest);
  }

  /** A caption, a colon and a padded number give back that number. */
  lemma AttendeesRoundTrip(caption: string, w1: string, n: int32, w2: string)
    requires !Contains(caption, ":")
    requires AllIn(w1, IsSpace) && AllIn(w2, IsSpace)
    ensures ParseAttendeesCount(caption + ":" + (w1 + FormatInt(n) + w2)) == n
  {
    AttendeesAfterFirstColon(caption, w1 + FormatInt(n) + w2);
    ParseIntPaddedNumber(w1, n, w2);
  }

  /** A caption, a colon, three spaces and a number. */
  lemma AttendeesExampleColon()
    ensures ParseAttendeesCount("Attendees:   7") == 7
  {
    var pad := "   ";
    assert AllIn(pad, IsSpace) by {
      forall i | 0 <= i < |pad| ensures IsSpace(pad[i]) {
        assert pad[i] == ' ';
      }
    }
    assert ':' !in "Attendees";
    AbsentLead("Attendees", ":");
    assert FormatInt(7) == "7";
    assert "Attendees:   7" == "Attendees" + ":" + (pad + FormatInt(7) + []);
    AttendeesRoundTrip("Attendees", pad, 7, []);
  }

  /** Text with no colon and no number. */
  lemma AttendeesExampleNoColon()
    ensures ParseAttendeesCount("No colon here") == 0
  {
    var prose := "No colon here";
    assert ':' !in prose;
    AbsentLead(prose, ":");
    TrimKeeps(prose, IsSpace, 0);
    var t := TrimSpace(prose);
    var j :| 0 <= j < |t| && t[j] == 'N';
    NotDecimalWith(t, j);
  }

  /** A bare number with no colon is read whole. */
  lemma AttendeesExampleBareNumber()
    ensures ParseAttendeesCount("42") == 42
  {
    assert FormatInt(42) == "42";
    assert ':' !in "42";
    AbsentLead("42", ":");
    ParseIntFormatInt(42);
  }

  // ---------------------------------------------------------------------
  // Contender IDs
  // ---------------------------------------------------------------------

  /** When the link mentions "dal", the ID is read from whatever follows
      the first "l/". */
  lemma ContenderIdAfterMarker(p: string, q: string)
    requires !Contains(p, "l/")
    requires Contains(p + "l/" + q, "dal")
    ensures ContenderId(Some(p + "l/" + q)) == ParseInt(q)
  {
    var link := p + "l/" + q;
    assert link[|p|..|p| + 2] == "l/";
    assert OccursAt(link, "l/", |p|);
    forall i | 0 <= i < |p| ensures !OccursAt(link, "l/", i) {
      if i + 2 <= |p| {
        assert link[i..i + 2] == p[i..i + 2];
        assert !OccursAt(p, "l/", i);
      } else {
        assert link[i + 1] == 'l';
        assert link[i..i + 2][1] == link[i + 1];
      }
    }
    assert Index(link, "l/") == |p|;
    assert link[|p| + 2..] == q;
  }

  /** A link that mentions "dal" but has no "l/" yields ID 0: the fallback
      suffix from the second character still holds the 'a' of "dal". */
  lemma ContenderIdWithoutMarker(link: string)
    requires Contains(link, "dal") && !Contains(link, "l/")
    ensures ContenderId(Some(link)) == 0
  {
    FallbackNeverParses(link);
  }

  /** A contender link of the form /dal/<id>. */
  function ContenderHref(id: int32): string
  {
    "/dal/" + FormatInt(id)
  }

  /** The ID written into a contender link is the ID read back from it. */
  lemma ContenderIdRoundTrip(id: int32)
    ensures ContenderId(Some(ContenderHref(id))) == id
  {
    var link := ContenderHref(id);
    assert link[1..4] == "dal";
    assert OccursAt(link, "dal", 1);
    assert 'l' !in "/da";
    AbsentLead("/da", "l/");
    assert link == "/da" + "l/" + FormatInt(id);
    ContenderIdAfterMarker("/da", FormatInt(id));
    ParseIntFormatInt(id);
  }

  // ---------------------------------------------------------------------
  // Result rows
  // ---------------------------------------------------------------------

  /** The stored text of a cell is its text with the surrounding newlines,
      and only those, removed. */
  lemma CellTextOfPadded(row: Row, j: nat, p: string, m: string, q: string)
    requires j < |row| && row[j].text == p + m + q
    requires AllIn(p, IsNewline) && AllIn(q, IsNewline) && Bare(m, IsNewline)
    ensures CellText(row, j) == m
  {
    TrimOfPadded(p, m, q, IsNewline);
  }

  /** A record laid out as a six-cell results row, the ID carried by a
      contender link in the name cell. */
  function RenderRow(a: AttendeeResult): Row
  {
    [ Cell(a.place, "", None),
      Cell(a.name, a.name, Some(ContenderHref(a.id))),
      Cell(a.country, "", None),
      Cell(a.club, "", None),
      Cell(a.finishTime, "", None),
      Cell(a.speed, "", None) ]
  }

  function RenderRows(records: seq<AttendeeResult>): (rows: seq<Row>)
    ensures |rows| == |records|
  {
    seq(|records|, k requires 0 <= k < |records| => RenderRow(records[k]))
  }

  /** Mapping is positional: a rendered row maps back to its record. */
  lemma MapRowRenderRow(a: AttendeeResult)
    requires NewlineBare(a)
    ensures MapRow(RenderRow(a)) == a
  {
    TrimOfBare(a.place, IsNewline);
    TrimOfBare(a.name, IsNewline);
    TrimOfBare(a.country, IsNewline);
    TrimOfBare(a.club, IsNewline);
    TrimOfBare(a.finishTime, IsNewline);
    TrimOfBare(a.speed, IsNewline);
    ContenderIdRoundTrip(a.id);
  }

  /** Cells after the sixth are ignored. */
  lemma MapRowIgnoresExtraCells(row: Row)
    requires |row| > 6
    ensures MapRow(row) == MapRow(row[..6])
  {
    var first := row[..6];
    forall i | 0 <= i < 6 ensures CellText(row, i) == CellText(first, i) {
      assert first[i] == row[i];
    }
    MapRowSameCells(row, first);
  }

  /** The ID depends on cell 1's link and on nothing else in the row. */
  lemma MapRowIdFromNameCell(row: Row, other: Row)
    requires |row| > 1 && |other| > 1 && row[1].href == other[1].href
    ensures MapRow(row).id == MapRow(other).id
  {
  }

  /** Newlines around a cell's text never reach the record. */
  lemma MapRowIgnoresNewlines(row: Row, j: nat, before: nat, after: nat)
    requires j < |row|
    ensures var padded := row[j := row[j].(text := Repeat('\n', before) + row[j].text + Repeat('\n', after))];
      MapRow(padded) == MapRow(row)
  {
    var c := row[j];
    var padded := row[j := c.(text := Repeat('\n', before) + c.text + Repeat('\n', after))];
    TrimIgnoresPadding(Repeat('\n', before), c.text, Repeat('\n', after), IsNewline);
    forall i | 0 <= i < 6 ensures CellText(padded, i) == CellText(row, i) {
      if i != j && i < |row| {
        assert padded[i] == row[i];
      }
    }
    MapRowSameCells(padded, row);
  }

  /** Rows that agree on the trimmed texts of cells 0 to 5 and on the link
      of cell 1 map to the same record. */
  lemma MapRowSameCells(row: Row, other: Row)
    requires forall i :: 0 <= i < 6 ==> CellText(row, i) == CellText(other, i)
    requires (|row| > 1) == (|other| > 1)
    requires |row| > 1 ==> row[1].href == other[1].href
    ensures MapRow(row) == MapRow(other)
  {
    assert CellText(row, 0) == CellText(other, 0);
    assert CellText(row, 1) == CellText(other, 1);
    assert CellText(row, 2) == CellText(other, 2);
    assert CellText(row, 3) == CellText(other, 3);
    assert CellText(row, 4) == CellText(other, 4);
    assert CellText(row, 5) == CellText(other, 5);
  }

  /** The text fields depend only on the trimmed texts of cells 0 to 5,
      whatever the links: rows that agree on those agree on every field
      but the ID. */
  lemma MapRowTextsIgnoreHref(row: Row, other: Row)
    requires forall i :: 0 <= i < 6 ==> CellText(row, i) == CellText(other, i)
    ensures MapRow(row).(id := 0) == MapRow(other).(id := 0)
  {
    assert CellText(row, 0) == CellText(other, 0);
    assert CellText(row, 1) == CellText(other, 1);
    assert CellText(row, 2) == CellText(other, 2);
    assert CellText(row, 3) == CellText(other, 3);
    assert CellText(row, 4) == CellText(other, 4);
    assert CellText(row, 5) == CellText(other, 5);
  }

  function Repeat(c: char, n: nat): (s: string)
    ensures |s| == n && forall i :: 0 <= i < n ==> s[i] == c
  {
    seq(n, _ => c)
  }

  /** A results table made of a header and rendered records gives back
      exactly those records, in order. */
  lemma ResultsRoundTrip(header: Row, records: seq<AttendeeResult>)
    requires forall k :: 0 <= k < |records| ==> NewlineBare(records[k])
    ensures Results([header] + RenderRows(records)) == records
  {
    var rows := [header] + RenderRows(records);
    var r := Results(rows);
    assert |r| == |records|;
    forall k | 0 <= k < |records| ensures r[k] == records[k] {
      RenderedRowAt(header, records, k);
      MapRowRenderRow(records[k]);
    }
    assert r == records;
  }

  lemma RenderedRowAt(header: Row, records: seq<AttendeeResult>, k: nat)
    requires k < |records|
    ensures ([header] + RenderRows(records))[k + 1] == RenderRow(records[k])
  {
  }

  // ---------------------------------------------------------------------
  // Groups
  // ---------------------------------------------------------------------

  /** Extending a group row by one cell keeps the title and appends the
      cell's sub-group when it has a link; a cell without one adds nothing. */
  lemma GroupOfAppendCell(row: Row, c: Cell, fetch: Fetch)
    requires |row| > 0
    ensures c.href.None? ==> GroupOf(row + [c], fetch) == GroupOf(row, fetch)
    ensures c.href.Some? ==>
      var g := GroupOf(row, fetch);
      GroupOf(row + [c], fetch) == g.(subGroups := g.subGroups + [ExtractSubGroup(c, fetch).value])
  {
    var longer := row + [c];
    assert longer[..|row|] == row;
    assert longer[|row|] == c;
  }

  /** Groups follow the table: splitting the table splits the groups. */
  lemma ExtractGroupsConcat(a: seq<Row>, b: seq<Row>, fetch: Fetch)
    ensures ExtractGroups(a + b, fetch) == ExtractGroups(a, fetch) + ExtractGroups(b, fetch)
  {
    var whole := ExtractGroups(a + b, fetch);
    var parts := ExtractGroups(a, fetch) + ExtractGroups(b, fetch);
    forall i | 0 <= i < |whole| ensures whole[i] == parts[i] {
      if i < |a| {
        assert (a + b)[i] == a[i];
      } else {
        assert (a + b)[i] == b[i - |a|];
      }
    }
  }

  /** A linked sub-group cell whose anchor text is a title padded with
      newlines, and whose page holds a header and rendered records, yields
      a sub-group with that title and exactly those records. */
  lemma SubGroupOfRendered(
    cell: Cell, p: string, title: string, q: string, href: string,
    header: Row, records: seq<AttendeeResult>, fetch: Fetch)
    requires cell.anchorText == p + title + q && cell.href == Some(href)
    requires AllIn(p, IsNewline) && AllIn(q, IsNewline) && Bare(title, IsNewline)
    requires forall k :: 0 <= k < |records| ==> NewlineBare(records[k])
    requires fetch(ResultsSite + href) == [header] + RenderRows(records)
    ensures ExtractSubGroup(cell, fetch) == Some(SubGroup(title, records))
  {
    TrimOfPadded(p, title, q, IsNewline);
    ResultsRoundTrip(header, records);
  }

  /** The same for a cell whose text and anchor text are one bare title. */
  lemma SubGroupOfBareTitle(title: string, href: string, header: Row, records: seq<AttendeeResult>, fetch: Fetch)
    requires Bare(title, IsNewline)
    requires forall k :: 0 <= k < |records| ==> NewlineBare(records[k])
    requires fetch(ResultsSite + href) == [header] + RenderRows(records)
    ensures ExtractSubGroup(Cell(title, title, Some(href)), fetch) == Some(SubGroup(title, records))
  {
    assert [] + title + [] == title;
    SubGroupOfRendered(Cell(title, title, Some(href)), [], title, [], href, header, records, fetch);
  }

  /** A group row of a title cell and two linked cells has those two
      sub-groups, in cell order. */
  lemma GroupOfTwoLinks(row: Row, fetch: Fetch)
    requires |row| == 3 && row[1].href.Some? && row[2].href.Some?
    ensures GroupOf(row, fetch).title == row[0].text
    ensures GroupOf(row, fetch).subGroups ==
      [ExtractSubGroup(row[1], fetch).value, ExtractSubGroup(row[2], fetch).value]
  {
    var c1, c2 := row[1], row[2];
    assert Tail(row) == [c1, c2];
    assert LinkedCells([c2]) == [c2] by {
      assert [c2][1..] == [];
    }
    assert LinkedCells([c1, c2]) == [c1, c2] by {
      assert [c1, c2][1..] == [c2];
    }
  }

  /** An event page whose groups table has one row (a title cell and two
      linked sub-group cells), each link leading to a results table of a
      header and rendered records, yields one group with those two
      sub-groups holding exactly those records. */
  lemma EndToEnd(
    page: EventPage, groupTitle: string, t1: string, h1: string, t2: string, h2: string,
    header: Row, records1: seq<AttendeeResult>, records2: seq<AttendeeResult>, fetch: Fetch)
    requires page.groupRows == [[Cell(groupTitle, "", None), Cell(t1, t1, Some(h1)), Cell(t2, t2, Some(h2))]]
    requires Bare(t1, IsNewline) && Bare(t2, IsNewline)
    requires forall k :: 0 <= k < |records1| ==> NewlineBare(records1[k])
    requires forall k :: 0 <= k < |records2| ==> NewlineBare(records2[k])
    requires fetch(ResultsSite + h1) == [header] + RenderRows(records1)
    requires fetch(ResultsSite + h2) == [header] + RenderRows(records2)
    ensures ExtractCompetition(page, fetch).groups ==
      [Group(groupTitle, [SubGroup(t1, records1), SubGroup(t2, records2)])]
  {
    var row := page.groupRows[0];
    GroupOfTwoLinks(row, fetch);
    SubGroupOfBareTitle(t1, h1, header, records1, fetch);
    SubGroupOfBareTitle(t2, h2, header, records2, fetch);
    var groups := ExtractCompetition(page, fetch).groups;
    assert |groups| == 1 && groups[0] == GroupOf(row, fetch);
  }
}
