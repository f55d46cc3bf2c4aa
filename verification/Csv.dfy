/** CSV: the exporter's columns, rows and text, and a reader for the format of section 2 of RFC 4180. */
module Csv {
  import opened Text
  import opened Sorting

  const QUOTE: CodeUnit := 34
  const COMMA: CodeUnit := 44
  const LF: CodeUnit := 10
  const APOSTROPHE: CodeUnit := 39
  const BAR: CodeUnit := 124

  // ---------- Printing ----------

  /** `text.replace(/"/g, '""')` */
  function DoubleQuotes(t: Text): Text {
    if t == [] then []
    else (if t[0] == QUOTE then [QUOTE, QUOTE] else [t[0]]) + DoubleQuotes(t[1..])
  }

  function PrintCell(t: Text): Text {
    [QUOTE] + DoubleQuotes(t) + [QUOTE]
  }

  function Cells(row: seq<Text>): (r: seq<Text>)
    ensures |r| == |row|
  {
    seq(|row|, i requires 0 <= i < |row| => PrintCell(row[i]))
  }

  function PrintRow(row: seq<Text>): Text {
    Join(Cells(row), COMMA)
  }

  function Lines(rows: seq<seq<Text>>): (r: seq<Text>)
    ensures |r| == |rows|
  {
    seq(|rows|, i requires 0 <= i < |rows| => PrintRow(rows[i]))
  }

  function PrintTable(rows: seq<seq<Text>>): Text {
    Join(Lines(rows), LF)
  }

  // ---------- Reading ----------

  datatype Read<+T> = Malformed | Got(value: T, rest: Text)

  /** The rest of a quoted field: doubled quotes stand for one, a single quote ends it. */
  function ReadQuoted(s: Text): (r: Read<Text>)
    ensures r.Got? ==> |r.rest| < |s|
  {
    if s == [] then Malformed
    else if s[0] == QUOTE then
      if |s| > 1 && s[1] == QUOTE then
        match ReadQuoted(s[2..])
        case Malformed => Malformed
        case Got(t, rest) => Got([QUOTE] + t, rest)
      else Got([], s[1..])
    else
      match ReadQuoted(s[1..])
      case Malformed => Malformed
      case Got(t, rest) => Got([s[0]] + t, rest)
  }

  /** An unquoted field runs up to a comma or record end and holds no quote. */
  function ReadPlain(s: Text): (r: Read<Text>)
    ensures r.Got? ==> |r.rest| <= |s|
  {
    if s == [] || s[0] == COMMA || s[0] == LF then Got([], s)
    else if s[0] == QUOTE then Malformed
    else
      match ReadPlain(s[1..])
      case Malformed => Malformed
      case Got(t, rest) => Got([s[0]] + t, rest)
  }

  function ReadField(s: Text): (r: Read<Text>)
    ensures r.Got? ==> |r.rest| <= |s|
  {
    if s != [] && s[0] == QUOTE then ReadQuoted(s[1..]) else ReadPlain(s)
  }

  function ReadRecord(s: Text): (r: Read<seq<Text>>)
    ensures r.Got? ==> |r.rest| <= |s|
    decreases |s|
  {
    match ReadField(s)
    case Malformed => Malformed
    case Got(t, rest) =>
      if rest != [] && rest[0] == COMMA then
        match ReadRecord(rest[1..])
        case Malformed => Malformed
        case Got(ts, rest') => Got([t] + ts, rest')
      else Got([t], rest)
  }

  /** A whole file; the last record may or may not be followed by a record end. */
  function ReadTable(s: Text): Option<seq<seq<Text>>>
    decreases |s|
  {
    match ReadRecord(s)
    case Malformed => None
    case Got(row, rest) =>
      if rest == [] then Some([row])
      else if rest[0] != LF then None
      else if rest == [LF] then Some([row])
      else
        match ReadTable(rest[1..])
        case None => None
        case Some(rows) => Some([row] + rows)
  }

  // ---------- Round trip ----------

  /** `k` does not go on with a quote. */
  predicate EndsField(k: Text) { k == [] || k[0] != QUOTE }

  lemma {:induction false} QuotedRoundTrip(t: Text, k: Text)
    requires EndsField(k)
    ensures ReadQuoted(DoubleQuotes(t) + ([QUOTE] + k)) == Got(t, k)
  {
    var s := DoubleQuotes(t) + ([QUOTE] + k);
    if t == [] {
      assert s == [QUOTE] + k && s[1..] == k;
    } else {
      QuotedRoundTrip(t[1..], k);
      var tail := DoubleQuotes(t[1..]) + ([QUOTE] + k);
      if t[0] == QUOTE {
        assert s[2..] == tail;
      } else {
        assert s[1..] == tail;
      }
      assert [t[0]] + t[1..] == t;
    }
  }

  lemma CellRoundTrip(t: Text, k: Text)
    requires EndsField(k)
    ensures ReadField(PrintCell(t) + k) == Got(t, k)
  {
    QuotedRoundTrip(t, k);
    assert (PrintCell(t) + k)[1..] == DoubleQuotes(t) + ([QUOTE] + k);
  }

  lemma JoinTail(parts: seq<Text>, separator: CodeUnit, k: Text)
    requires |parts| > 1
    ensures Join(parts, separator) + k == parts[0] + ([separator] + (Join(parts[1..], separator) + k))
  {
  }

  /** `k` is the end of the text or a record end. */
  predicate EndsRecord(k: Text) { k == [] || k[0] == LF }

  lemma {:induction false} RowRoundTrip(row: seq<Text>, k: Text)
    requires row != [] && EndsRecord(k)
    ensures ReadRecord(PrintRow(row) + k) == Got(row, k)
  {
    var cells := Cells(row);
    if |row| == 1 {
      CellRoundTrip(row[0], k);
      assert row == [row[0]];
    } else {
      var more := PrintRow(row[1..]) + k;
      assert cells[1..] == Cells(row[1..]);
      JoinTail(cells, COMMA, k);
      CellRoundTrip(row[0], [COMMA] + more);
      RowRoundTrip(row[1..], k);
      assert ([COMMA] + more)[1..] == more;
      assert row == [row[0]] + row[1..];
    }
  }

  lemma PrintedRowNotEmpty(row: seq<Text>)
    requires row != []
    ensures PrintRow(row) != []
  {
    assert |Cells(row)[0]| >= 2;
  }

  lemma TableSplits(rows: seq<seq<Text>>)
    requires |rows| > 1
    ensures PrintTable(rows) == PrintRow(rows[0]) + ([LF] + PrintTable(rows[1..]))
  {
    var lines, more := Lines(rows), PrintTable(rows[1..]);
    assert lines[1..] == Lines(rows[1..]);
    JoinTail(lines, LF, []);
    assert Join(lines, LF) + [] == Join(lines, LF) && more + [] == more;
  }

  /** Reading the printed table gives back its cells, whatever the cell texts are. */
  lemma {:induction false} TableRoundTrip(rows: seq<seq<Text>>)
    requires rows != [] && forall i :: 0 <= i < |rows| ==> rows[i] != []
    ensures ReadTable(PrintTable(rows)) == Some(rows)
  {
    var s := PrintTable(rows);
    if |rows| == 1 {
      RowRoundTrip(rows[0], []);
      assert PrintRow(rows[0]) + [] == s;
      assert rows == [rows[0]];
    } else {
      var more := PrintTable(rows[1..]);
      TableSplits(rows);
      RowRoundTrip(rows[0], [LF] + more);
      TableNotEmpty(rows[1..]);
      TableRoundTrip(rows[1..]);
      assert ([LF] + more)[1..] == more;
      assert rows == [rows[0]] + rows[1..];
    }
  }

  lemma TableNotEmpty(rows: seq<seq<Text>>)
    requires rows != [] && rows[0] != []
    ensures PrintTable(rows) != []
  {
    PrintedRowNotEmpty(rows[0]);
    if |rows| > 1 {
      JoinTail(Lines(rows), LF, []);
    }
  }

  // ---------- Cells that are not formulas ----------

  /** `/^[\t\r\n ]*[=+\-@]/` */
  predicate FormulaLike(t: Text) {
    t != [] &&
    if t[0] == 9 || t[0] == 13 || t[0] == 10 || t[0] == 32 then FormulaLike(t[1..])
    else t[0] == 61 || t[0] == 43 || t[0] == 45 || t[0] == 64
  }

  /** A unit that starts a formula: one of = + - @ */
  predicate Triggers(c: CodeUnit) {
    c == '=' as int || c == '+' as int || c == '-' as int || c == '@' as int
  }

  /** A unit that may stand before it: tab, carriage return, line feed or space. */
  predicate Blank(c: CodeUnit) {
    c == '\t' as int || c == '\r' as int || c == '\n' as int || c == ' ' as int
  }

  /** A formula starts at `i`: after nothing but blanks. */
  predicate FormulaAt(t: Text, i: nat) {
    i < |t| && Triggers(t[i]) && forall j :: 0 <= j < i ==> Blank(t[j])
  }

  lemma {:induction false} FormulaLikeExactly(t: Text)
    ensures FormulaLike(t) <==> exists i: nat :: FormulaAt(t, i)
  {
    if t == [] {
    } else if Blank(t[0]) {
      FormulaLikeExactly(t[1..]);
      if i: nat :| FormulaAt(t[1..], i) {
        assert forall j :: 0 <= j < i + 1 ==> t[j] == if j == 0 then t[0] else t[1..][j - 1];
        assert FormulaAt(t, i + 1);
      }
      if i: nat :| FormulaAt(t, i) {
        assert forall j :: 0 <= j < i - 1 ==> t[1..][j] == t[j + 1];
        assert FormulaAt(t[1..], i - 1);
      }
    } else if Triggers(t[0]) {
      assert FormulaAt(t, 0);
    }
  }

  function SafeText(t: Text): Text {
    if FormulaLike(t) then [APOSTROPHE] + t else t
  }

  /** `sanitizeCsvCell` */
  function SanitizeCell(t: Text): Text {
    PrintCell(SafeText(t))
  }

  lemma SafeTextKind(t: Text)
    ensures !FormulaLike(SafeText(t))
    ensures SafeText(t) == t || SafeText(t) == [APOSTROPHE] + t
    ensures SafeText(t) == t <==> !FormulaLike(t)
  {
    if FormulaLike(t) {
      assert |SafeText(t)| != |t|;
    }
  }

  /**
   A sanitised cell reads as text in which no unit that starts a formula comes first after blanks. The
   given text is kept exactly when it has no such unit, and stands behind an apostrophe otherwise.
   */
  lemma SanitizedCellReads(t: Text)
    ensures var r := ReadField(SanitizeCell(t));
            && r.Got? && r.rest == []
            && (forall i: nat :: !FormulaAt(r.value, i))
            && (r.value == t <==> forall i: nat :: !FormulaAt(t, i))
            && (r.value == t || r.value == [APOSTROPHE] + t)
  {
    CellRoundTrip(SafeText(t), []);
    assert PrintCell(SafeText(t)) + [] == SanitizeCell(t);
    SafeTextKind(t);
    FormulaLikeExactly(t);
    FormulaLikeExactly(SafeText(t));
  }

  // ---------- Columns and rows ----------

  datatype FormField = FormField(id: Text, heading: Text)

  datatype Column = Column(version: nat, field: FormField, heading: Text)

  /** A submission: what its fixed cells show, and its formatted answers. */
  datatype Submission = Submission(
    id: Text,
    version: nat,
    schemaHash: Option<Text>,
    formBlobId: Option<Text>,
    manifestBlobId: Option<Text>,
    encryptionStatus: Text,
    createdAt: Text,
    status: Text,
    triageStatus: Text,
    priority: Text,
    signalValue: Option<Text>,
    contributorId: Option<Text>,
    walletAddress: Option<Text>,
    isAnonymous: bool,
    chain: Text,
    tags: seq<Text>,
    notes: Text,
    githubIssueUrl: Option<Text>,
    githubPrUrl: Option<Text>,
    answers: map<FormField, Text>)

  /** `versionedForms?.[version] ?? form`, as a list of fields. */
  function FieldsOf(forms: map<nat, seq<FormField>>, form: seq<FormField>, version: nat): seq<FormField> {
    if version in forms then forms[version] else form
  }

  predicate Ascending(vs: seq<nat>) {
    forall i, j :: 0 <= i < j < |vs| ==> vs[i] < vs[j]
  }

  function InsertVersion(v: nat, vs: seq<nat>): (r: seq<nat>)
    requires Ascending(vs)
    ensures Ascending(r)
    ensures forall x :: x in r <==> x == v || x in vs
  {
    if vs == [] || v < vs[0] then [v] + vs
    else if v == vs[0] then vs
    else
      assert vs == [vs[0]] + vs[1..];
      var rest := InsertVersion(v, vs[1..]);
      assert forall j :: 0 <= j < |rest| ==> rest[j] in rest;
      [vs[0]] + rest
  }

  /** `Array.from(new Set(versions)).sort(...)` */
  function Versions(subs: seq<Submission>): (r: seq<nat>)
    ensures Ascending(r)
    ensures forall x :: x in r <==> exists i :: 0 <= i < |subs| && subs[i].version == x
  {
    if subs == [] then [] else InsertVersion(subs[0].version, Versions(subs[1..]))
  }

  /** The decimal text of a version. */
  function Decimal(n: nat): Text {
    if n < 10 then [48 + n] else Decimal(n / 10) + [48 + n % 10]
  }

  function ColumnLabel(prefixed: bool, version: nat, field: FormField): Text {
    if prefixed then [118] + Decimal(version) + [58, 32] + field.heading else field.heading
  }

  /** The number a run of decimal digits stands for. */
  function DecimalValue(t: Text): int {
    if t == [] then 0 else 10 * DecimalValue(t[..|t| - 1]) + t[|t| - 1] - 48
  }

  predicate Digits(t: Text) {
    forall i :: 0 <= i < |t| ==> 48 <= t[i] <= 57
  }

  lemma {:induction false} DecimalReadsBack(n: nat)
    ensures Digits(Decimal(n)) && DecimalValue(Decimal(n)) == n
  {
    var t := Decimal(n);
    if n < 10 {
      assert t[..|t| - 1] == [];
    } else {
      DecimalReadsBack(n / 10);
      assert t[..|t| - 1] == Decimal(n / 10);
    }
  }

  /** The first colon of a heading with a version ends the version. */
  lemma FirstColon(a: Text, h: Text)
    requires Digits(a)
    ensures var x := [118] + a + [58, 32] + h;
            && x[1 + |a|] == 58 && (forall i :: 1 <= i <= |a| ==> x[i] != 58)
            && x[1..1 + |a|] == a && x[3 + |a|..] == h
  {
    var x := [118] + a + [58, 32] + h;
    assert forall i :: 1 <= i <= |a| ==> x[i] == a[i - 1];
  }

  lemma DigitsEndAtColon(a: Text, h: Text, b: Text, k: Text)
    requires Digits(a) && Digits(b)
    requires [118] + a + [58, 32] + h == [118] + b + [58, 32] + k
    ensures a == b && h == k
  {
    FirstColon(a, h);
    FirstColon(b, k);
    assert |a| == |b|;
  }

  /** With more than one version, the headings of different versions differ. */
  lemma HeadingsTellVersions(v: nat, f: FormField, w: nat, g: FormField)
    ensures ColumnLabel(true, v, f) == ColumnLabel(true, w, g) <==> v == w && f.heading == g.heading
  {
    DecimalReadsBack(v);
    DecimalReadsBack(w);
    if ColumnLabel(true, v, f) == ColumnLabel(true, w, g) {
      DigitsEndAtColon(Decimal(v), f.heading, Decimal(w), g.heading);
    }
  }

  function VersionColumns(prefixed: bool, version: nat, fields: seq<FormField>): (r: seq<Column>)
    ensures |r| == |fields|
    ensures forall i :: 0 <= i < |r| ==> r[i].version == version && r[i].field == fields[i]
  {
    seq(|fields|, i requires 0 <= i < |fields| =>
      Column(version, fields[i], ColumnLabel(prefixed, version, fields[i])))
  }

  function ColumnsFor(prefixed: bool, vs: seq<nat>, forms: map<nat, seq<FormField>>, form: seq<FormField>): seq<Column> {
    if vs == [] then []
    else VersionColumns(prefixed, vs[0], FieldsOf(forms, form, vs[0])) + ColumnsFor(prefixed, vs[1..], forms, form)
  }

  /** `getVersionedFieldColumns` */
  function FieldColumns(forms: map<nat, seq<FormField>>, form: seq<FormField>, subs: seq<Submission>): seq<Column> {
    var vs := Versions(subs);
    ColumnsFor(|vs| > 1, vs, forms, form)
  }

  /** `formatAnswerText(field, submission.answers[field.id])`, as the submission carries it. */
  function AnswerText(s: Submission, f: FormField): Text {
    if f in s.answers then s.answers[f] else []
  }

  function AnswerCells(columns: seq<Column>, s: Submission): (r: seq<Text>)
    ensures |r| == |columns|
  {
    seq(|columns|, i requires 0 <= i < |columns| =>
      if columns[i].version == s.version then AnswerText(s, columns[i].field) else [])
  }

  function Labels(columns: seq<Column>): (r: seq<Text>)
    ensures |r| == |columns|
  {
    seq(|columns|, i requires 0 <= i < |columns| => columns[i].heading)
  }

  function BodyRows(columns: seq<Column>, subs: seq<Submission>): (r: seq<seq<Text>>)
    ensures |r| == |subs|
  {
    seq(|subs|, i requires 0 <= i < |subs| => BaseCells(subs[i]) + AnswerCells(columns, subs[i]))
  }

  const SUBMISSION_ID: Text := Ascii("submissionId")
  const FORM_VERSION: Text := Ascii("formVersion")
  const SCHEMA_HASH: Text := Ascii("schemaHash")
  const FORM_BLOB_ID: Text := Ascii("formBlobId")
  const MANIFEST_BLOB_ID: Text := Ascii("manifestBlobId")
  const ENCRYPTION_STATUS: Text := Ascii("encryptionStatus")
  const CREATED_AT: Text := Ascii("createdAt")
  const STATUS: Text := Ascii("status")
  const TRIAGE_STATUS: Text := Ascii("triageStatus")
  const PRIORITY: Text := Ascii("priority")
  const SIGNAL_VALUE: Text := Ascii("signalValue")
  const CONTRIBUTOR_ID: Text := Ascii("contributorId")
  const WALLET_ADDRESS: Text := Ascii("walletAddress")
  const IS_ANONYMOUS: Text := Ascii("isAnonymous")
  const CHAIN: Text := Ascii("chain")
  const TAGS: Text := Ascii("tags")
  const NOTES: Text := Ascii("notes")
  const GITHUB_ISSUE_URL: Text := Ascii("githubIssueUrl")
  const GITHUB_PR_URL: Text := Ascii("githubPrUrl")

  /** The fixed columns of `exportSubmissionsCsv`. */
  function BaseColumns(): seq<Text> {
    [
      SUBMISSION_ID, FORM_VERSION, SCHEMA_HASH, FORM_BLOB_ID, MANIFEST_BLOB_ID, ENCRYPTION_STATUS,
      CREATED_AT, STATUS, TRIAGE_STATUS, PRIORITY, SIGNAL_VALUE, CONTRIBUTOR_ID, WALLET_ADDRESS,
      IS_ANONYMOUS, CHAIN, TAGS, NOTES, GITHUB_ISSUE_URL, GITHUB_PR_URL
    ]
  }

  /** `value ?? ""` */
  function OrEmpty(o: Option<Text>): Text {
    if o.Some? then o.value else []
  }

  function YesNo(b: bool): Text {
    if b then Ascii("yes") else Ascii("no")
  }

  /** The fixed cells of a submission's row. */
  function BaseCells(s: Submission): seq<Text> {
    [
      s.id,
      Decimal(s.version),
      OrEmpty(s.schemaHash),
      OrEmpty(s.formBlobId),
      OrEmpty(s.manifestBlobId),
      s.encryptionStatus,
      s.createdAt,
      s.status,
      s.triageStatus,
      s.priority,
      OrEmpty(s.signalValue),
      OrEmpty(s.contributorId),
      OrEmpty(s.walletAddress),
      YesNo(s.isAnonymous),
      s.chain,
      Join(s.tags, BAR),
      s.notes,
      OrEmpty(s.githubIssueUrl),
      OrEmpty(s.githubPrUrl)
    ]
  }

  /** The cells of optional and yes-or-no properties. */
  lemma CellTexts(t: Text)
    ensures OrEmpty(Some(t)) == t && OrEmpty(None) == []
    ensures YesNo(true) == Ascii("yes") && YesNo(false) == Ascii("no")
  {
  }

  /** Every fixed column with what belongs below it. */
  function NamedCells(s: Submission): seq<(Text, Text)> {
    [
      (SUBMISSION_ID, s.id),
      (FORM_VERSION, Decimal(s.version)),
      (SCHEMA_HASH, OrEmpty(s.schemaHash)),
      (FORM_BLOB_ID, OrEmpty(s.formBlobId)),
      (MANIFEST_BLOB_ID, OrEmpty(s.manifestBlobId)),
      (ENCRYPTION_STATUS, s.encryptionStatus),
      (CREATED_AT, s.createdAt),
      (STATUS, s.status),
      (TRIAGE_STATUS, s.triageStatus),
      (PRIORITY, s.priority),
      (SIGNAL_VALUE, OrEmpty(s.signalValue)),
      (CONTRIBUTOR_ID, OrEmpty(s.contributorId)),
      (WALLET_ADDRESS, OrEmpty(s.walletAddress)),
      (IS_ANONYMOUS, YesNo(s.isAnonymous)),
      (CHAIN, s.chain),
      (TAGS, Join(s.tags, BAR)),
      (NOTES, s.notes),
      (GITHUB_ISSUE_URL, OrEmpty(s.githubIssueUrl)),
      (GITHUB_PR_URL, OrEmpty(s.githubPrUrl))
    ]
  }

  /** A length and a first letter that tell the fixed columns apart. */
  function Mark(t: Text): (int, int) {
    (|t|, if t == [] then 0 else t[0])
  }

  lemma ColumnMarks()
    ensures Mark(SUBMISSION_ID) == (12, 's' as int) && Mark(FORM_VERSION) == (11, 'f' as int)
    ensures Mark(SCHEMA_HASH) == (10, 's' as int) && Mark(FORM_BLOB_ID) == (10, 'f' as int)
    ensures Mark(MANIFEST_BLOB_ID) == (14, 'm' as int) && Mark(ENCRYPTION_STATUS) == (16, 'e' as int)
    ensures Mark(CREATED_AT) == (9, 'c' as int) && Mark(STATUS) == (6, 's' as int)
    ensures Mark(TRIAGE_STATUS) == (12, 't' as int) && Mark(PRIORITY) == (8, 'p' as int)
    ensures Mark(SIGNAL_VALUE) == (11, 's' as int) && Mark(CONTRIBUTOR_ID) == (13, 'c' as int)
    ensures Mark(WALLET_ADDRESS) == (13, 'w' as int) && Mark(IS_ANONYMOUS) == (11, 'i' as int)
    ensures Mark(CHAIN) == (5, 'c' as int) && Mark(TAGS) == (4, 't' as int) && Mark(NOTES) == (5, 'n' as int)
    ensures Mark(GITHUB_ISSUE_URL) == (14, 'g' as int) && Mark(GITHUB_PR_URL) == (11, 'g' as int)
  {
  }

  /** The position of a fixed column, by its mark. */
  function ColumnRank(m: (int, int)): int {
    if m == (12, 's' as int) then 0
    else if m == (11, 'f' as int) then 1
    else if m == (10, 's' as int) then 2
    else if m == (10, 'f' as int) then 3
    else if m == (14, 'm' as int) then 4
    else if m == (16, 'e' as int) then 5
    else if m == (9, 'c' as int) then 6
    else if m == (6, 's' as int) then 7
    else if m == (12, 't' as int) then 8
    else if m == (8, 'p' as int) then 9
    else if m == (11, 's' as int) then 10
    else if m == (13, 'c' as int) then 11
    else if m == (13, 'w' as int) then 12
    else if m == (11, 'i' as int) then 13
    else if m == (5, 'c' as int) then 14
    else if m == (4, 't' as int) then 15
    else if m == (5, 'n' as int) then 16
    else if m == (14, 'g' as int) then 17
    else if m == (11, 'g' as int) then 18
    else -1
  }

  lemma ColumnsRanked(i: nat)
    requires i < |BaseColumns()|
    ensures ColumnRank(Mark(BaseColumns()[i])) == i
  {
    ColumnMarks();
  }

  /** The fixed columns have different names. */
  lemma ColumnsDiffer(i: nat, j: nat)
    requires i < j < |BaseColumns()|
    ensures BaseColumns()[i] != BaseColumns()[j]
  {
    ColumnsRanked(i);
    ColumnsRanked(j);
  }

  /** Each fixed cell stands below the column that names it, and there are as many cells as columns. */
  lemma BaseCellsAligned(s: Submission)
    ensures |BaseCells(s)| == |BaseColumns()| == |NamedCells(s)| == 19
    ensures forall i :: 0 <= i < 19 ==> NamedCells(s)[i] == (BaseColumns()[i], BaseCells(s)[i])
  {
  }

  /** The header and the rows of `exportSubmissionsCsv`. */
  function Table(forms: map<nat, seq<FormField>>, form: seq<FormField>, subs: seq<Submission>)
    : (r: seq<seq<Text>>)
    ensures |r| == 1 + |subs|
  {
    var columns := FieldColumns(forms, form, subs);
    [BaseColumns() + Labels(columns)] + BodyRows(columns, subs)
  }

  function ExportCsv(forms: map<nat, seq<FormField>>, form: seq<FormField>, subs: seq<Submission>): Text {
    PrintTable(Table(forms, form, subs))
  }

  lemma RowWidths(columns: seq<Column>, subs: seq<Submission>)
    ensures forall i :: 0 <= i < |subs| ==> |BodyRows(columns, subs)[i]| == |BaseColumns()| + |columns|
  {
    forall i | 0 <= i < |subs| ensures |BodyRows(columns, subs)[i]| == |BaseColumns()| + |columns| {
      BaseCellsAligned(subs[i]);
    }
  }

  /** The exported text reads back as the table, and every record has the header's width. */
  lemma ExportReadsBack(forms: map<nat, seq<FormField>>, form: seq<FormField>, subs: seq<Submission>)
    ensures ReadTable(ExportCsv(forms, form, subs)) == Some(Table(forms, form, subs))
    ensures var t := Table(forms, form, subs);
            forall i :: 0 <= i < |t| ==> |t[i]| == |t[0]| == 19 + |FieldColumns(forms, form, subs)|
  {
    RowWidths(FieldColumns(forms, form, subs), subs);
    TableRoundTrip(Table(forms, form, subs));
  }

  predicate NoneOf(cs: seq<Column>, v: nat) {
    forall j :: 0 <= j < |cs| ==> cs[j].version != v
  }

  /** The columns of one version, for its fields in order. */
  predicate ColumnsOf(cs: seq<Column>, v: nat, fields: seq<FormField>) {
    |cs| == |fields| && forall j :: 0 <= j < |cs| ==> cs[j].version == v && cs[j].field == fields[j]
  }

  lemma OneVersion(subs: seq<Submission>, v: nat)
    requires subs != [] && forall i :: 0 <= i < |subs| ==> subs[i].version == v
    ensures Versions(subs) == [v]
  {
    var vs := Versions(subs);
    assert subs[0].version in vs;
    assert vs[0] in vs && vs[|vs| - 1] in vs;
    assert vs[0] == vs[|vs| - 1] == v;
  }

  /** With submissions of one version only, the answer columns have the plain headings of its fields, in order. */
  lemma SingleVersionHeadings(forms: map<nat, seq<FormField>>, form: seq<FormField>, subs: seq<Submission>, v: nat)
    requires subs != [] && forall i :: 0 <= i < |subs| ==> subs[i].version == v
    ensures Table(forms, form, subs)[0] == BaseColumns() + Map((f: FormField) => f.heading, FieldsOf(forms, form, v))
  {
    OneVersion(subs, v);
    var fields := FieldsOf(forms, form, v);
    assert [v][1..] == [] && ColumnsFor(false, [v], forms, form) == VersionColumns(false, v, fields) + [];
    assert Labels(VersionColumns(false, v, fields)) == Map((f: FormField) => f.heading, fields);
  }

  /** A version's own form is used when it is known, the current form otherwise. */
  lemma FieldsExactly(forms: map<nat, seq<FormField>>, form: seq<FormField>, v: nat)
    ensures v in forms ==> FieldsOf(forms, form, v) == forms[v]
    ensures v !in forms ==> FieldsOf(forms, form, v) == form
  {
  }

  /** From `at` on the columns are those of version `v`, for its fields in order; no other column is of that version. */
  predicate Block(cs: seq<Column>, at: nat, v: nat, fields: seq<FormField>) {
    && at + |fields| <= |cs|
    && NoneOf(cs[..at], v)
    && ColumnsOf(cs[at..at + |fields|], v, fields)
    && NoneOf(cs[at + |fields|..], v)
  }

  lemma BlockFirst(prefixed: bool, v: nat, fields: seq<FormField>, rest: seq<Column>)
    requires NoneOf(rest, v)
    ensures Block(VersionColumns(prefixed, v, fields) + rest, 0, v, fields)
  {
    var block := VersionColumns(prefixed, v, fields);
    assert (block + rest)[0..|fields|] == block && (block + rest)[|fields|..] == rest;
  }

  lemma BlockAfter(before: seq<Column>, rest: seq<Column>, at: nat, v: nat, fields: seq<FormField>)
    requires NoneOf(before, v) && Block(rest, at, v, fields)
    ensures Block(before + rest, |before| + at, v, fields)
  {
    var cs, end := before + rest, at + |fields|;
    assert cs[..|before| + at] == before + rest[..at];
    assert cs[|before| + at..|before| + end] == rest[at..end];
    assert cs[|before| + end..] == rest[end..];
  }

  lemma {:induction false} OtherVersions(prefixed: bool, vs: seq<nat>, forms: map<nat, seq<FormField>>, form: seq<FormField>, v: nat)
    requires v !in vs
    ensures NoneOf(ColumnsFor(prefixed, vs, forms, form), v)
  {
    if vs == [] {
    } else {
      OtherVersions(prefixed, vs[1..], forms, form, v);
    }
  }

  predicate OnceEach(vs: seq<nat>) {
    vs == [] || (vs[0] !in vs[1..] && OnceEach(vs[1..]))
  }

  lemma {:induction false} AscendingOnce(vs: seq<nat>)
    requires Ascending(vs)
    ensures OnceEach(vs)
  {
    if vs == [] {
    } else {
      AscendingOnce(vs[1..]);
    }
  }

  lemma InTail(vs: seq<nat>, v: nat)
    requires v in vs && vs[0] != v
    ensures v in vs[1..]
  {
    assert vs == [vs[0]] + vs[1..];
  }

  /** Where the columns of a version start: behind those of the versions before it. */
  function BlockStart(vs: seq<nat>, forms: map<nat, seq<FormField>>, form: seq<FormField>, v: nat): nat {
    if vs == [] || vs[0] == v then 0 else |FieldsOf(forms, form, vs[0])| + BlockStart(vs[1..], forms, form, v)
  }

  ghost predicate HasBlock(prefixed: bool, vs: seq<nat>, forms: map<nat, seq<FormField>>, form: seq<FormField>, v: nat) {
    Block(ColumnsFor(prefixed, vs, forms, form), BlockStart(vs, forms, form, v), v, FieldsOf(forms, form, v))
  }

  lemma HeadHasBlock(prefixed: bool, vs: seq<nat>, forms: map<nat, seq<FormField>>, form: seq<FormField>)
    requires vs != [] && vs[0] !in vs[1..]
    ensures HasBlock(prefixed, vs, forms, form, vs[0])
  {
    OtherVersions(prefixed, vs[1..], forms, form, vs[0]);
    BlockFirst(prefixed, vs[0], FieldsOf(forms, form, vs[0]), ColumnsFor(prefixed, vs[1..], forms, form));
  }

  /** A block of the later versions moves behind the columns of the first. */
  lemma TailHasBlock(prefixed: bool, vs: seq<nat>, forms: map<nat, seq<FormField>>, form: seq<FormField>, v: nat)
    requires vs != [] && vs[0] != v && HasBlock(prefixed, vs[1..], forms, form, v)
    ensures HasBlock(prefixed, vs, forms, form, v)
  {
    BlockAfter(VersionColumns(prefixed, vs[0], FieldsOf(forms, form, vs[0])), ColumnsFor(prefixed, vs[1..], forms, form),
               BlockStart(vs[1..], forms, form, v), v, FieldsOf(forms, form, v));
  }

  /** The columns of one version are one block of the columns. */
  lemma {:induction false} VersionBlock(prefixed: bool, vs: seq<nat>, forms: map<nat, seq<FormField>>, form: seq<FormField>, v: nat)
    requires OnceEach(vs) && v in vs
    ensures HasBlock(prefixed, vs, forms, form, v)
  {
    if vs[0] == v {
      HeadHasBlock(prefixed, vs, forms, form);
    } else {
      InTail(vs, v);
      VersionBlock(prefixed, vs[1..], forms, form, v);
      TailHasBlock(prefixed, vs, forms, form, v);
    }
  }

  /** The row is the base cells, then empty cells but for one block with the answers to `fields` in order. */
  predicate AnswersInBlock(row: seq<Text>, base: seq<Text>, s: Submission, at: nat, fields: seq<FormField>) {
    && |base| <= at && at + |fields| <= |row|
    && row[..|base|] == base
    && (forall j :: at <= j < at + |fields| ==>
          row[j] == if fields[j - at] in s.answers then s.answers[fields[j - at]] else [])
    && (forall j :: |base| <= j < |row| && !(at <= j < at + |fields|) ==> row[j] == [])
  }

  lemma BlockAnswers(columns: seq<Column>, base: seq<Text>, s: Submission, at: nat, fields: seq<FormField>)
    requires Block(columns, at, s.version, fields)
    ensures AnswersInBlock(base + AnswerCells(columns, s), base, s, |base| + at, fields)
  {
    var cells, end := AnswerCells(columns, s), at + |fields|;
    var row := base + cells;
    forall j | |base| <= j < |row| ensures row[j] == cells[j - |base|] {}
    forall j | 0 <= j < |columns|
      ensures cells[j] == if at <= j < end then AnswerText(s, fields[j - at]) else []
    {
      assert columns[j] == if j < at then columns[..at][j] else if j < end then columns[at..end][j - at] else columns[end..][j - end];
    }
  }

  lemma TableRow(forms: map<nat, seq<FormField>>, form: seq<FormField>, subs: seq<Submission>, k: nat)
    requires k < |subs|
    ensures Table(forms, form, subs)[1 + k] == BaseCells(subs[k]) + AnswerCells(FieldColumns(forms, form, subs), subs[k])
  {
  }

  /** Where a submission's answers start among the field columns. */
  function AnswerStart(forms: map<nat, seq<FormField>>, form: seq<FormField>, subs: seq<Submission>, version: nat): nat {
    BlockStart(Versions(subs), forms, form, version)
  }

  lemma ColumnBlock(forms: map<nat, seq<FormField>>, form: seq<FormField>, subs: seq<Submission>, k: nat)
    requires k < |subs|
    ensures var v := subs[k].version;
            Block(FieldColumns(forms, form, subs), AnswerStart(forms, form, subs, v), v, FieldsOf(forms, form, v))
  {
    var vs := Versions(subs);
    AscendingOnce(vs);
    VersionBlock(|vs| > 1, vs, forms, form, subs[k].version);
  }

  /**
   In a submission's row, after its fixed cells, the answers to the fields of its version fill one
   block of cells, below the columns of those fields, and all other answer cells are empty.
   */
  lemma AnswersLandOnce(forms: map<nat, seq<FormField>>, form: seq<FormField>, subs: seq<Submission>, k: nat)
    requires k < |subs|
    ensures var s := subs[k]; var fields := FieldsOf(forms, form, s.version);
            var at := AnswerStart(forms, form, subs, s.version);
            && Block(FieldColumns(forms, form, subs), at, s.version, fields)
            && AnswersInBlock(Table(forms, form, subs)[1 + k], BaseCells(s), s, 19 + at, fields)
  {
    var s := subs[k];
    ColumnBlock(forms, form, subs, k);
    TableRow(forms, form, subs, k);
    BaseCellsAligned(s);
    BlockAnswers(FieldColumns(forms, form, subs), BaseCells(s), s, AnswerStart(forms, form, subs, s.version),
                 FieldsOf(forms, form, s.version));
  }
}
