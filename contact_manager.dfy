/** The contact-submissions screen (src/components/Admin/ContactManager.tsx): search and
    read-state filtering, the unread counter, row selection, single and bulk deletes, and the
    CSV export, with a reader for the CSV format of RFC 4180 (section 2) that the export is
    checked against. */
module ContactManager {
  import opened Js
  import opened Seqs
  import opened ContentModel
  import opened ContentStore

  // ---------------------------------------------------------------- list

  datatype ReadFilter = AnyState | ReadOnly | UnreadOnly

  /** The search term occurs, ignoring case, in the name, email or message, and the read state
      passes the filter. The phone number is not searched. */
  predicate ContactListed(c: ContactSubmission, term: string, filter: ReadFilter) {
    (IncludesIgnoringCase(c.name, term) || IncludesIgnoringCase(c.email, term)
     || IncludesIgnoringCase(c.message, term))
    && (filter == AnyState || (filter == ReadOnly && c.read) || (filter == UnreadOnly && !c.read))
  }

  function ListedBy(term: string, filter: ReadFilter): ContactSubmission -> bool {
    (c: ContactSubmission) => ContactListed(c, term, filter)
  }

  /** `filteredContacts`. */
  function FilteredContacts(s: seq<ContactSubmission>, term: string, filter: ReadFilter): seq<ContactSubmission> {
    Filter(s, ListedBy(term, filter))
  }

  /** Exactly the matching submissions are listed, each as often as it is stored; with no search
      term and no read filter every submission shows. */
  lemma FilteredContactsSpec(s: seq<ContactSubmission>, term: string, filter: ReadFilter, c: ContactSubmission)
    ensures multiset(FilteredContacts(s, term, filter))[c] ==
              if ContactListed(c, term, filter) then multiset(s)[c] else 0
    ensures FilteredContacts(s, "", AnyState) == s
  {
    FilterCount(s, ListedBy(term, filter), c);
    forall i | 0 <= i < |s| ensures ListedBy("", AnyState)(s[i]) {
      EmptyTermMatches(s[i].name);
    }
    FilterAll(s, ListedBy("", AnyState));
  }

  /** For one search term, the read and the unread views split the full view between them. */
  lemma {:induction false} ReadUnreadPartition(s: seq<ContactSubmission>, term: string)
    ensures |FilteredContacts(s, term, ReadOnly)| + |FilteredContacts(s, term, UnreadOnly)| ==
            |FilteredContacts(s, term, AnyState)|
    decreases |s|
  {
    if s != [] {
      ReadUnreadPartition(s[1..], term);
    }
  }

  predicate IsUnread(c: ContactSubmission) { !c.read }

  /** The "unread" counter, `contactSubmissions.filter(c => !c.read).length`. */
  function UnreadCount(s: seq<ContactSubmission>): nat {
    |Filter(s, IsUnread)|
  }

  function UnreadWithId(id: string): ContactSubmission -> bool {
    (c: ContactSubmission) => !c.read && c.id == id
  }

  /** Marking a submission as read lowers the unread counter by the number of unread
      submissions with that id, and by nothing else. */
  lemma {:induction false} MarkReadLowersUnread(s: seq<ContactSubmission>, id: string)
    ensures UnreadCount(UpdateById(s, ContactId, id, MarkRead)) + |Filter(s, UnreadWithId(id))| == UnreadCount(s)
    decreases |s|
  {
    if s != [] {
      assert UpdateById(s, ContactId, id, MarkRead)[1..] == UpdateById(s[1..], ContactId, id, MarkRead);
      MarkReadLowersUnread(s[1..], id);
    }
  }

  function IsNot(id: string): string -> bool {
    (x: string) => x != id
  }

  // ---------------------------------------------------------------- CSV

  const Headers: seq<string> := ["שם", "אימייל", "טלפון", "הודעה", "תאריך", "סטטוס"]
  const ReadLabel := "נקרא"
  const UnreadLabel := "לא נקרא"

  function StatusLabel(c: ContactSubmission): string {
    if c.read then ReadLabel else UnreadLabel
  }

  /** `s.replace(/"/g, '""')`. */
  function EscapeQuotes(s: string): string
    decreases |s|
  {
    if s == [] then []
    else (if s[0] == '"' then "\"\"" else [s[0]]) + EscapeQuotes(s[1..])
  }

  /** A field between double quotes, inner quotes doubled. */
  function Quote(s: string): string {
    "\"" + EscapeQuotes(s) + "\""
  }

  function QuoteAll(fields: seq<string>): (r: seq<string>)
    ensures |r| == |fields| && forall i :: 0 <= i < |fields| ==> r[i] == Quote(fields[i])
  {
    seq(|fields|, i requires 0 <= i < |fields| => Quote(fields[i]))
  }

  /** The six values a row of the export stands for. `date` is
      `new Date(submittedAt).toLocaleDateString('he-IL')`. */
  function RowValues(c: ContactSubmission, date: string): seq<string> {
    [c.name, c.email, c.phone, c.message, date, StatusLabel(c)]
  }

  /** A row as written: only the message is quoted. */
  function CsvRowAsWritten(c: ContactSubmission, date: string): string {
    Join([c.name, c.email, c.phone, Quote(c.message), date, StatusLabel(c)], ',')
  }

  /** A row with every field quoted. */
  function CsvRow(c: ContactSubmission, date: string): string {
    Join(QuoteAll(RowValues(c, date)), ',')
  }

  /** A file of the header line followed by `rows`, joined by newlines. */
  function Lines(rows: seq<string>): string {
    Join([Join(Headers, ',')] + rows, '\n')
  }

  /** `exportToCSV()`'s file as written, one row per listed submission. `localDate` stands for
      the locale formatting of a submission time. */
  function ExportCsvAsWritten(s: seq<ContactSubmission>, localDate: string -> string): string {
    Lines(RowsAsWritten(s, localDate))
  }

  /** The exported file with every field quoted. */
  function ExportCsv(s: seq<ContactSubmission>, localDate: string -> string): string {
    Lines(Rows(s, localDate))
  }

  function RowsAsWritten(s: seq<ContactSubmission>, localDate: string -> string): (r: seq<string>)
    ensures |r| == |s| && forall i :: 0 <= i < |s| ==> r[i] == CsvRowAsWritten(s[i], localDate(s[i].submittedAt))
  {
    seq(|s|, i requires 0 <= i < |s| => CsvRowAsWritten(s[i], localDate(s[i].submittedAt)))
  }

  function Rows(s: seq<ContactSubmission>, localDate: string -> string): (r: seq<string>)
    ensures |r| == |s| && forall i :: 0 <= i < |s| ==> r[i] == CsvRow(s[i], localDate(s[i].submittedAt))
  {
    seq(|s|, i requires 0 <= i < |s| => CsvRow(s[i], localDate(s[i].submittedAt)))
  }

  // ---------------------------------------------------------------- reading CSV back

  /** The rest of a quoted field, `s` starting after its opening quote: the text with doubled
      quotes undone, and what follows the closing quote; `None` when the quote is not closed. */
  function QuotedField(s: string): (r: Option<(string, string)>)
    ensures r.Some? ==> |r.value.1| < |s|
    decreases |s|
  {
    if s == [] then None
    else if s[0] == '"' then
      if |s| >= 2 && s[1] == '"' then
        match QuotedField(s[2..])
        case None => None
        case Some((f, rest)) => Some(("\"" + f, rest))
      else Some(("", s[1..]))
    else
      match QuotedField(s[1..])
      case None => None
      case Some((f, rest)) => Some(([s[0]] + f, rest))
  }

  /** An unquoted field runs up to the next comma or the end of the record. */
  function PlainField(s: string): (r: (string, string))
    ensures r.0 + r.1 == s && (r.1 == [] || r.1[0] == ',') && ',' !in r.0
    decreases |s|
  {
    if s == [] then ("", "")
    else if s[0] == ',' then ("", s)
    else
      var r := PlainField(s[1..]);
      var f := [s[0]] + r.0;
      assert f + r.1 == [s[0]] + (r.0 + r.1);
      assert s == [s[0]] + s[1..];
      assert ',' !in f by {
        assert forall c :: c in f ==> c == s[0] || c in r.0;
      }
      (f, r.1)
  }

  /** The fields of one record, or `None` when it is malformed. */
  function ParseRecord(s: string): Option<seq<string>>
    decreases |s|
  {
    var field := if s != [] && s[0] == '"' then QuotedField(s[1..]) else Some(PlainField(s));
    match field
    case None => None
    case Some((f, rest)) =>
      if rest == [] then Some([f])
      else if rest[0] == ',' then
        match ParseRecord(rest[1..])
        case None => None
        case Some(fs) => Some([f] + fs)
      else None
  }

  /** A quoted field reads back as the text that was quoted. */
  lemma {:induction false} QuotedFieldEscape(f: string, t: string)
    requires t == [] || t[0] != '"'
    ensures QuotedField(EscapeQuotes(f) + "\"" + t) == Some((f, t))
    decreases |f|
  {
    var s := EscapeQuotes(f) + "\"" + t;
    if f == [] {
      assert s == "\"" + t;
      assert s[1..] == t;
    } else if f[0] == '"' {
      assert s == "\"\"" + (EscapeQuotes(f[1..]) + "\"" + t);
      assert s[2..] == EscapeQuotes(f[1..]) + "\"" + t;
      QuotedFieldEscape(f[1..], t);
      assert "\"" + f[1..] == f;
    } else {
      assert s == [f[0]] + (EscapeQuotes(f[1..]) + "\"" + t);
      assert s[1..] == EscapeQuotes(f[1..]) + "\"" + t;
      QuotedFieldEscape(f[1..], t);
      assert [f[0]] + f[1..] == f;
    }
  }

  /** Quoting every field and joining with commas is undone by reading the record: any text,
      with commas, quotes or line breaks, comes back as it was. */
  lemma QuotedRecordRoundTrip(fields: seq<string>)
    requires |fields| >= 1
    ensures ParseRecord(Join(QuoteAll(fields), ',')) == Some(fields)
  {
    var cells := seq(|fields|, i requires 0 <= i < |fields| => Quoted(fields[i]));
    AllQuoted(fields, cells);
    CellsRoundTrip(cells);
  }

  lemma AllQuoted(fields: seq<string>, cells: seq<Cell>)
    requires |cells| == |fields| && forall i :: 0 <= i < |fields| ==> cells[i] == Quoted(fields[i])
    ensures CellsSafe(cells) && RenderAll(cells) == QuoteAll(fields) && Texts(cells) == fields
  {
  }

  /** Every exported row reads back as the six values it stands for. */
  lemma CsvRowRoundTrip(c: ContactSubmission, date: string)
    ensures ParseRecord(CsvRow(c, date)) == Some(RowValues(c, date))
  {
    QuotedRecordRoundTrip(RowValues(c, date));
  }

  /** A file whose rows hold no line break splits back into its header and its rows. */
  lemma LinesSplit(rows: seq<string>)
    requires forall i :: 0 <= i < |rows| ==> '\n' !in rows[i]
    ensures Split(Lines(rows), '\n') == [Join(Headers, ',')] + rows
  {
    JoinAvoids(Headers, ',', '\n');
    SplitJoin([Join(Headers, ',')] + rows, '\n');
  }

  /** No line break in the six values of a row. */
  predicate OneLine(c: ContactSubmission, date: string) {
    '\n' !in c.name && '\n' !in c.email && '\n' !in c.phone && '\n' !in c.message && '\n' !in date
  }

  /** When no listed submission and no formatted date holds a line break, both exports have the
      header line first and then exactly one line per listed submission, in list order. */
  lemma ExportLines(s: seq<ContactSubmission>, localDate: string -> string)
    requires forall i :: 0 <= i < |s| ==> OneLine(s[i], localDate(s[i].submittedAt))
    ensures Split(ExportCsvAsWritten(s, localDate), '\n') == [Join(Headers, ',')] + RowsAsWritten(s, localDate)
    ensures Split(ExportCsv(s, localDate), '\n') == [Join(Headers, ',')] + Rows(s, localDate)
  {
    forall i | 0 <= i < |s|
      ensures '\n' !in RowsAsWritten(s, localDate)[i] && '\n' !in Rows(s, localDate)[i]
    {
      var c, date := s[i], localDate(s[i].submittedAt);
      EscapeAvoids(c.message, '\n');
      JoinAvoids([c.name, c.email, c.phone, Quote(c.message), date, StatusLabel(c)], ',', '\n');
      var vals := RowValues(c, date);
      forall j | 0 <= j < |vals| ensures '\n' !in QuoteAll(vals)[j] {
        EscapeAvoids(vals[j], '\n');
      }
      JoinAvoids(QuoteAll(vals), ',', '\n');
    }
    LinesSplit(RowsAsWritten(s, localDate));
    LinesSplit(Rows(s, localDate));
  }

  lemma {:induction false} EscapeAvoids(s: string, c: char)
    requires c != '"' && c !in s
    ensures c !in EscapeQuotes(s) && c !in Quote(s)
    decreases |s|
  {
    if s != [] {
      EscapeAvoids(s[1..], c);
    }
  }

  /** As written, a name holding a comma (and not starting with a quote) is cut at that comma:
      the first field read back is the text before it, not the name. */
  lemma CommaInNameSplits(c: ContactSubmission, date: string)
    requires ',' in c.name && c.name[0] != '"'
    ensures ParseRecord(CsvRowAsWritten(c, date)).Some? ==>
              ParseRecord(CsvRowAsWritten(c, date)).value[0] == c.name[..IndexOf(c.name, ',')]
              && ParseRecord(CsvRowAsWritten(c, date)).value[0] != c.name
  {
    var k := IndexOf(c.name, ',');
    var x := c.name[..k];
    var z := c.name[k + 1..] + [','] + Join([c.email, c.phone, Quote(c.message), date, StatusLabel(c)], ',');
    RowSplitsAt(c, date, k);
    assert PlainSafe(x) by { if k > 0 { assert x[0] == c.name[0]; } }
    PlainRecordStep(x, z);
  }

  /** The row as written, cut at the comma at position `k` of the name. */
  lemma RowSplitsAt(c: ContactSubmission, date: string, k: nat)
    requires k < |c.name| && c.name[k] == ','
    ensures CsvRowAsWritten(c, date) ==
              c.name[..k] + [','] + (c.name[k + 1..] + [','] + Join([c.email, c.phone, Quote(c.message), date, StatusLabel(c)], ','))
  {
    var rest := [c.email, c.phone, Quote(c.message), date, StatusLabel(c)];
    JoinCons(c.name, rest, ',');
    assert [c.name, c.email, c.phone, Quote(c.message), date, StatusLabel(c)] == [c.name] + rest;
    assert c.name == c.name[..k] + [','] + c.name[k + 1..];
  }

  /** An unquoted field ends at the first comma. */
  lemma {:induction false} PlainFieldStops(x: string, z: string)
    requires ',' !in x
    ensures PlainField(x + [','] + z) == (x, [','] + z)
    decreases |x|
  {
    if x == [] {
      assert x + [','] + z == [','] + z;
    } else {
      assert (x + [','] + z)[1..] == x[1..] + [','] + z;
      PlainFieldStops(x[1..], z);
      assert [x[0]] + x[1..] == x;
    }
  }

  /** A field the reader takes as unquoted: no comma, and not opening with a quote. */
  predicate PlainSafe(x: string) {
    ',' !in x && (x == [] || x[0] != '"')
  }

  /** Reading `x,z` for an unquoted `x` reads `x` and then the record `z`. */
  lemma PlainRecordStep(x: string, z: string)
    requires PlainSafe(x)
    ensures ParseRecord(x + [','] + z) ==
              match ParseRecord(z)
              case None => None
              case Some(fs) => Some([x] + fs)
  {
    PlainFieldStops(x, z);
    assert ([','] + z)[1..] == z;
    if x == [] {
      assert x + [','] + z == [','] + z;
    } else {
      assert (x + [','] + z)[0] == x[0];
    }
  }

  /** Reading `"f",z` for a quoted `f` reads `f` and then the record `z`. */
  lemma QuotedRecordStep(f: string, z: string)
    ensures ParseRecord(Quote(f) + [','] + z) ==
              match ParseRecord(z)
              case None => None
              case Some(fs) => Some([f] + fs)
  {
    var s := Quote(f) + [','] + z;
    assert s == "\"" + (EscapeQuotes(f) + "\"" + ([','] + z));
    assert s[1..] == EscapeQuotes(f) + "\"" + ([','] + z);
    QuotedFieldEscape(f, [','] + z);
    assert ([','] + z)[1..] == z;
  }

  /** A last field without commas reads back whole. */
  lemma PlainRecordLast(x: string)
    requires PlainSafe(x)
    ensures ParseRecord(x) == Some([x])
  {
    PlainFieldAll(x);
  }

  lemma {:induction false} PlainFieldAll(x: string)
    requires ',' !in x
    ensures PlainField(x) == (x, "")
    decreases |x|
  {
    if x != [] {
      PlainFieldAll(x[1..]);
      assert [x[0]] + x[1..] == x;
    }
  }

  /** The cells of a row as written: only the message is quoted. */
  function RowCells(c: ContactSubmission, date: string): seq<Cell> {
    [Plain(c.name), Plain(c.email), Plain(c.phone), Quoted(c.message), Plain(date), Plain(StatusLabel(c))]
  }

  lemma RowCellsSafe(c: ContactSubmission, date: string)
    requires PlainSafe(c.name) && PlainSafe(c.email) && PlainSafe(c.phone) && PlainSafe(date)
    ensures CellsSafe(RowCells(c, date))
  {
    StatusLabelSafe(c);
    var cells := RowCells(c, date);
    forall i | 0 <= i < |cells| && cells[i].Plain? ensures PlainSafe(cells[i].text) {
      assert i != 3;
    }
  }

  lemma RowCellsRender(c: ContactSubmission, date: string)
    ensures Join(RenderAll(RowCells(c, date)), ',') == CsvRowAsWritten(c, date)
    ensures Texts(RowCells(c, date)) == RowValues(c, date)
  {
    var cells := RowCells(c, date);
    var row := [c.name, c.email, c.phone, Quote(c.message), date, StatusLabel(c)];
    var vals := RowValues(c, date);
    forall i | 0 <= i < 6 ensures RenderAll(cells)[i] == row[i] && Texts(cells)[i] == vals[i] {
    }
    assert RenderAll(cells) == row;
  }

  /** Either status label can stand unquoted, and the two differ. */
  lemma StatusLabelSafe(c: ContactSubmission)
    ensures PlainSafe(StatusLabel(c))
    ensures StatusLabel(c) == ReadLabel <==> c.read
  {
    assert ReadLabel[0] == 'נ' && UnreadLabel[0] == 'ל';
    assert ',' !in ReadLabel && ',' !in UnreadLabel;
  }

  /** As written, a row reads back as its six values exactly when the unquoted fields hold no
      comma and do not open with a quote, the condition under which leaving them unquoted is
      safe; the status column is the read label exactly for read submissions. */
  lemma CsvRowAsWrittenReadsBack(c: ContactSubmission, date: string)
    requires PlainSafe(c.name) && PlainSafe(c.email) && PlainSafe(c.phone) && PlainSafe(date)
    ensures ParseRecord(CsvRowAsWritten(c, date)) == Some(RowValues(c, date))
    ensures StatusLabel(c) == ReadLabel <==> c.read
  {
    RowCellsSafe(c, date);
    RowCellsRender(c, date);
    CellsRoundTrip(RowCells(c, date));
    StatusLabelSafe(c);
  }

  lemma JoinCons(x: string, rest: seq<string>, sep: char)
    requires |rest| >= 1
    ensures Join([x] + rest, sep) == x + [sep] + Join(rest, sep)
  {
    assert ([x] + rest)[1..] == rest;
  }

  /** A cell of a row as written: left as it is, or quoted. */
  datatype Cell = Plain(text: string) | Quoted(text: string)

  function Rendered(cell: Cell): string {
    match cell
    case Plain(x) => x
    case Quoted(m) => Quote(m)
  }

  function RenderAll(cells: seq<Cell>): (r: seq<string>)
    ensures |r| == |cells| && forall i :: 0 <= i < |cells| ==> r[i] == Rendered(cells[i])
  {
    seq(|cells|, i requires 0 <= i < |cells| => Rendered(cells[i]))
  }

  function Texts(cells: seq<Cell>): (r: seq<string>)
    ensures |r| == |cells| && forall i :: 0 <= i < |cells| ==> r[i] == cells[i].text
  {
    seq(|cells|, i requires 0 <= i < |cells| => cells[i].text)
  }

  /** Every unquoted cell is safe to leave unquoted. */
  predicate CellsSafe(cells: seq<Cell>) {
    forall i :: 0 <= i < |cells| && cells[i].Plain? ==> PlainSafe(cells[i].text)
  }

  lemma CellsSplit(cells: seq<Cell>)
    requires |cells| >= 1 && CellsSafe(cells)
    ensures CellsSafe(cells[1..]) && (cells[0].Plain? ==> PlainSafe(cells[0].text))
    ensures RenderAll(cells) == [Rendered(cells[0])] + RenderAll(cells[1..])
    ensures Texts(cells) == [cells[0].text] + Texts(cells[1..])
  {
    var rest := cells[1..];
    forall i | 0 <= i < |rest| && rest[i].Plain? ensures PlainSafe(rest[i].text) {
      assert rest[i] == cells[i + 1];
    }
    var r, t := [Rendered(cells[0])] + RenderAll(rest), [cells[0].text] + Texts(rest);
    forall i | 0 <= i < |cells| ensures RenderAll(cells)[i] == r[i] && Texts(cells)[i] == t[i] {
      if i > 0 {
        assert rest[i - 1] == cells[i];
      }
    }
  }

  /** A last cell reads back as its text. */
  lemma CellLast(x: Cell)
    requires x.Plain? ==> PlainSafe(x.text)
    ensures ParseRecord(Rendered(x)) == Some([x.text])
  {
    if x.Plain? {
      PlainRecordLast(x.text);
    } else {
      QuotedFieldEscape(x.text, "");
      assert Quote(x.text)[1..] == EscapeQuotes(x.text) + "\"" + "";
    }
  }

  /** A cell in front of a record that reads back. */
  lemma CellCons(x: Cell, rest: seq<string>, fs: seq<string>)
    requires (x.Plain? ==> PlainSafe(x.text)) && |rest| >= 1 && ParseRecord(Join(rest, ',')) == Some(fs)
    ensures ParseRecord(Join([Rendered(x)] + rest, ',')) == Some([x.text] + fs)
  {
    JoinCons(Rendered(x), rest, ',');
    if x.Plain? {
      PlainRecordStep(x.text, Join(rest, ','));
    } else {
      QuotedRecordStep(x.text, Join(rest, ','));
    }
  }

  /** A row of cells, each either safe to leave unquoted or quoted, reads back as the cells'
      texts. */
  lemma {:induction false} CellsRoundTrip(cells: seq<Cell>)
    requires |cells| >= 1 && CellsSafe(cells)
    ensures ParseRecord(Join(RenderAll(cells), ',')) == Some(Texts(cells))
    decreases |cells|
  {
    CellsSplit(cells);
    if |cells| == 1 {
      var x := cells[0];
      CellLast(x);
      assert cells[1..] == [];
      assert RenderAll(cells) == [Rendered(x)] && Texts(cells) == [x.text];
      assert Join([Rendered(x)], ',') == Rendered(x);
    } else {
      CellsRoundTrip(cells[1..]);
      CellCons(cells[0], RenderAll(cells[1..]), Texts(cells[1..]));
    }
  }

  // ---------------------------------------------------------------- screen

  /** The screen's state: search, read filter and the ids of the ticked rows. */
  class Inbox {
    var searchTerm: string
    var filterStatus: ReadFilter
    var selectedContacts: seq<string>
    const store: Store

    constructor (store: Store)
      ensures searchTerm == "" && filterStatus == AnyState && selectedContacts == []
      ensures this.store == store
    {
      searchTerm := "";
      filterStatus := AnyState;
      selectedContacts := [];
      this.store := store;
    }

    /** The submissions the table shows. */
    function Displayed(): seq<ContactSubmission>
      reads this, store
    {
      FilteredContacts(store.contactSubmissions, searchTerm, filterStatus)
    }

    /** The header checkbox: ticked when as many rows are selected as are shown, and some are. */
    predicate SelectAllChecked()
      reads this, store
    {
      |selectedContacts| == |Displayed()| && |Displayed()| > 0
    }

    /** The header checkbox selects every shown row, or clears the selection. */
    method HandleSelectAll(checked: bool)
      modifies this
      ensures selectedContacts == if checked then MapSeq(Displayed(), ContactId) else []
      ensures checked ==> (SelectAllChecked() <==> |Displayed()| > 0)
      ensures !checked ==> !SelectAllChecked()
      ensures searchTerm == old(searchTerm) && filterStatus == old(filterStatus)
    {
      if checked {
        selectedContacts := MapSeq(Displayed(), ContactId);
      } else {
        selectedContacts := [];
      }
    }

    /** A row checkbox appends its id when ticked and removes every occurrence when cleared. */
    method HandleCheck(id: string, checked: bool)
      modifies this
      ensures checked ==> selectedContacts == old(selectedContacts) + [id]
      ensures !checked ==> selectedContacts == Filter(old(selectedContacts), IsNot(id))
      ensures !checked ==>
                id !in selectedContacts &&
                forall x :: x != id ==> (x in selectedContacts <==> x in old(selectedContacts))
      ensures searchTerm == old(searchTerm) && filterStatus == old(filterStatus)
    {
      if checked {
        selectedContacts := selectedContacts + [id];
      } else {
        selectedContacts := Filter(selectedContacts, IsNot(id));
        forall x ensures x in selectedContacts <==> x in old(selectedContacts) && x != id {
          FilterMembership(old(selectedContacts), IsNot(id), x);
        }
      }
    }

    method HandleMarkAsRead(id: string)
      modifies store
      ensures store.contactSubmissions == UpdateById(old(store.contactSubmissions), ContactId, id, MarkRead)
      ensures store.content == old(store.content) && store.mediaLibrary == old(store.mediaLibrary)
      ensures store.galleryItems == old(store.galleryItems) && store.blogPosts == old(store.blogPosts)
      ensures store.emailLogs == old(store.emailLogs)
    {
      store.MarkContactAsRead(id);
    }

    /** `handleDelete(id)` after the confirmation dialog. */
    method HandleDelete(id: string, confirmed: bool)
      modifies store
      ensures store.contactSubmissions ==
                if confirmed then DeleteById(old(store.contactSubmissions), ContactId, id)
                else old(store.contactSubmissions)
      ensures store.content == old(store.content) && store.mediaLibrary == old(store.mediaLibrary)
      ensures store.galleryItems == old(store.galleryItems) && store.blogPosts == old(store.blogPosts)
      ensures store.emailLogs == old(store.emailLogs)
    {
      if confirmed {
        store.DeleteContact(id);
      }
    }

    /** `handleBulkDelete()`: after confirmation, deletes the selected ids one after another and
        clears the selection. */
    method HandleBulkDelete(confirmed: bool)
      modifies this, store
      ensures confirmed ==>
                selectedContacts == [] &&
                store.contactSubmissions == DeleteAll(old(store.contactSubmissions), ContactId, old(selectedContacts))
      ensures !confirmed ==>
                selectedContacts == old(selectedContacts) &&
                store.contactSubmissions == old(store.contactSubmissions)
      ensures searchTerm == old(searchTerm) && filterStatus == old(filterStatus)
      ensures store.content == old(store.content) && store.mediaLibrary == old(store.mediaLibrary)
      ensures store.galleryItems == old(store.galleryItems) && store.blogPosts == old(store.blogPosts)
      ensures store.emailLogs == old(store.emailLogs)
    {
      if !confirmed {
        return;
      }
      var ids := selectedContacts;
      var i := 0;
      while i < |ids|
        invariant 0 <= i <= |ids|
        invariant store.contactSubmissions == DeleteAll(old(store.contactSubmissions), ContactId, ids[..i])
        invariant unchanged(this)
        invariant store.content == old(store.content) && store.mediaLibrary == old(store.mediaLibrary)
        invariant store.galleryItems == old(store.galleryItems) && store.blogPosts == old(store.blogPosts)
        invariant store.emailLogs == old(store.emailLogs)
      {
        assert ids[..i + 1][..i] == ids[..i];
        store.DeleteContact(ids[i]);
        i := i + 1;
      }
      assert ids[..|ids|] == ids;
      selectedContacts := [];
    }
  }

  /** The bulk delete as it runs in the page: every `deleteContact` call filters the list the
      page rendered with, so only the last call's result is kept. */
  function BulkDeleteAsWritten(s: seq<ContactSubmission>, ids: seq<string>): seq<ContactSubmission> {
    if ids == [] then s else DeleteById(s, ContactId, ids[|ids| - 1])
  }

  /** With two or more ids selected, every submission whose id is selected only before the last
      one survives the bulk delete as written, while deleting one id after another removes it. */
  lemma BulkDeleteKeepsEarlierSelections(s: seq<ContactSubmission>, ids: seq<string>, c: ContactSubmission)
    requires |ids| >= 2 && c in s && c.id in ids[..|ids| - 1] && c.id != ids[|ids| - 1]
    ensures c in BulkDeleteAsWritten(s, ids)
    ensures c !in DeleteAll(s, ContactId, ids)
  {
    FilterMembership(s, IdIsNot(ContactId, ids[|ids| - 1]), c);
    DeleteAllMembership(s, ContactId, ids, c);
  }
}
