/**
 The Excel upload from the row list onward (`app/services/excel_parser.py`). Errors are data: the
 parser returns either the questions or every error, each with its row.
 */
module ExcelParser {
  import opened Common
  import opened Text
  import opened Sections
  import opened Questions

  /** A cell value; `Other` is any other type, by its text. */
  datatype Cell = Empty | Str(s: string) | Int(n: int) | Bool(b: bool) | Other(text: string)

  type Row = seq<Cell>

  const TOTAL_COLUMNS: nat := 9

  const IMAGE_TRUE: seq<string> := ["y", "yes", "true", "1", "да", "+", "✓", "x"]
  const IMAGE_FALSE: seq<string> := ["", "n", "no", "false", "0", "нет", "-", "—"]

  datatype Problem =
    | RowCount(found: nat)
    | SectionCount(section: Section, found: nat)
    | BlankCell(column: nat)
    | PositionNotInteger
    | UnknownImageToken
    | BadField(cause: FieldError)
    | PositionTaken(position: int)

  /** `line` is 0 for errors of the whole file. */
  datatype ParseError = ParseError(line: nat, problem: Problem)

  // ---------- Cells ----------

  function Digit(d: nat): char
    requires d < 10
  {
    '0' + d as char
  }

  function Decimal(n: int): string
    decreases if n < 0 then 1 - n else n
  {
    if n < 0 then "-" + Decimal(-n)
    else if n < 10 then [Digit(n)]
    else Decimal(n / 10) + [Digit(n % 10)]
  }

  /** `str(value)`. */
  function Shown(c: Cell): string {
    match c
    case Empty => "None"
    case Str(s) => s
    case Int(n) => Decimal(n)
    case Bool(b) => if b then "True" else "False"
    case Other(text) => text
  }

  predicate Blank(c: Cell) {
    c == Empty || (c.Str? && Strip(c.s) == "")
  }

  function ParseHasImage(c: Cell): Option<bool> {
    match c
    case Empty => Some(false)
    case Bool(b) => Some(b)
    case _ =>
      var token := Lower(Strip(Shown(c)));
      if token in IMAGE_TRUE then Some(true) else if token in IMAGE_FALSE then Some(false) else None
  }

  /** Missing trailing cells are empty, surplus ones are dropped. */
  function Cells(row: Row): (r: Row)
    ensures |r| == TOTAL_COLUMNS
    ensures forall k :: 0 <= k < TOTAL_COLUMNS ==> r[k] == if k < |row| then row[k] else Empty
  {
    seq(TOTAL_COLUMNS, k requires 0 <= k => if k < |row| then row[k] else Empty)
  }

  /** The question in a row; the position is an integer in every row that gets this far. */
  function BuildQuestion(cells: Row): Draft
    requires |cells| == TOTAL_COLUMNS
  {
    var image := ParseHasImage(cells[8]);
    Draft(Strip(Shown(cells[0])), if cells[1].Int? then cells[1].n else 0, Strip(Shown(cells[2])),
          Strip(Shown(cells[3])), Strip(Shown(cells[4])), Strip(Shown(cells[5])), Strip(Shown(cells[6])),
          Upper(Strip(Shown(cells[7]))), image == Some(true))
  }

  // ---------- One row ----------

  /** All required cells are filled, and the position is an integer. */
  predicate Typed(cells: Row)
    requires |cells| == TOTAL_COLUMNS
  {
    NoneBlank(cells) && cells[1].Int?
  }

  predicate NoneBlank(cells: Row)
    requires |cells| == TOTAL_COLUMNS
  {
    forall k :: 0 <= k < 8 ==> !Blank(cells[k])
  }

  /** The errors of a row: blank cells alone, or a position of the wrong type alone, or all else that
      is wrong. `image` is the reading of the last cell, `wrong` the verdict on the fields. */
  predicate RowProblem(cells: Row, image: Option<bool>, wrong: FieldError -> bool, p: Problem)
    requires |cells| == TOTAL_COLUMNS
  {
    match p
    case BlankCell(k) => k < 8 && Blank(cells[k])
    case PositionNotInteger => NoneBlank(cells) && !cells[1].Int?
    case UnknownImageToken => Typed(cells) && image.None?
    case BadField(e) => Typed(cells) && wrong(e)
    case _ => false
  }

  function WrongOf(q: Draft): FieldError -> bool {
    e => Wrong(q, e)
  }

  predicate RowOk(row: Row) {
    var cells := Cells(row);
    Typed(cells) && ParseHasImage(cells[8]).Some? && FieldsOk(BuildQuestion(cells))
  }

  predicate RowWrong(row: Row, p: Problem) {
    var cells := Cells(row);
    RowProblem(cells, ParseHasImage(cells[8]), WrongOf(BuildQuestion(cells)), p)
  }

  method ValidateRow(row: Row, line: nat) returns (errors: seq<ParseError>)
    ensures forall e :: e in errors <==> e.line == line && RowWrong(row, e.problem)
    ensures errors == [] <==> RowOk(row)
  {
    var cells := Cells(row);
    var fieldErrors := FieldErrors(BuildQuestion(cells));
    errors := RowErrors(cells, line, ParseHasImage(cells[8]), WrongOf(BuildQuestion(cells)), fieldErrors);
    RowOkIff(row);
    NoErrorsIff(row, line, errors);
  }

  method FieldErrors(q: Draft) returns (errors: seq<FieldError>)
    ensures forall e :: e in errors <==> WrongOf(q)(e)
  {
    errors := ValidateQuestionFields(q);
    forall e ensures e in errors <==> Wrong(q, e) { StagesEnd(q, e); }
  }

  /** The checks of a row in their order; the field errors only matter once the cells are typed. */
  method RowErrors(cells: Row, line: nat, image: Option<bool>, ghost wrong: FieldError -> bool,
                   fieldErrors: seq<FieldError>)
    returns (errors: seq<ParseError>)
    requires |cells| == TOTAL_COLUMNS && forall e :: e in fieldErrors <==> wrong(e)
    ensures forall e :: e in errors <==> e.line == line && RowProblem(cells, image, wrong, e.problem)
  {
    errors := [];
    for k := 0 to 8
      invariant forall e :: e in errors <==>
                              e.line == line && e.problem.BlankCell? && e.problem.column < k
                                && Blank(cells[e.problem.column])
      invariant errors == [] <==> forall j :: 0 <= j < k ==> !Blank(cells[j])
    {
      if Blank(cells[k]) {
        errors := errors + [ParseError(line, BlankCell(k))];
      }
    }
    if |errors| > 0 {
      return;
    }
    if !cells[1].Int? {
      errors := [ParseError(line, PositionNotInteger)];
      return;
    }
    if image.None? {
      errors := [ParseError(line, UnknownImageToken)];
    }
    ghost var head := errors;
    for i := 0 to |fieldErrors|
      invariant forall e ::
                 e in errors
                 <==> e in head || (e.line == line && e.problem.BadField? && e.problem.cause in fieldErrors[..i])
    {
      assert fieldErrors[..i + 1] == fieldErrors[..i] + [fieldErrors[i]];
      errors := errors + [ParseError(line, BadField(fieldErrors[i]))];
    }
    assert fieldErrors[..|fieldErrors|] == fieldErrors;
  }

  lemma FieldsIff(q: Draft)
    ensures FieldsOk(q) <==> forall e :: !WrongOf(q)(e)
  {
    if FieldsOk(q) {
      forall e ensures !WrongOf(q)(e) { OkDeservesNone(q, e); }
    }
    if forall e :: !WrongOf(q)(e) {
      forall e ensures !Wrong(q, e) { assert !WrongOf(q)(e); }
      NoneMeansOk(q);
    }
  }

  lemma RowIff(cells: Row, image: Option<bool>, fieldsOk: bool, wrong: FieldError -> bool)
    requires |cells| == TOTAL_COLUMNS && (fieldsOk <==> forall e :: !wrong(e))
    ensures Typed(cells) && image.Some? && fieldsOk <==> forall p :: !RowProblem(cells, image, wrong, p)
  {
    if forall p :: !RowProblem(cells, image, wrong, p) {
      forall k | 0 <= k < 8 ensures !Blank(cells[k]) { assert !RowProblem(cells, image, wrong, BlankCell(k)); }
      assert !RowProblem(cells, image, wrong, PositionNotInteger)
             && !RowProblem(cells, image, wrong, UnknownImageToken);
      forall e ensures !wrong(e) { assert !RowProblem(cells, image, wrong, BadField(e)); }
    }
  }

  lemma GoodRow(row: Row)
    requires RowOk(row)
    ensures forall p :: !RowWrong(row, p)
  {
    var cells := Cells(row);
    var q := BuildQuestion(cells);
    FieldsIff(q);
    RowIff(cells, ParseHasImage(cells[8]), FieldsOk(q), WrongOf(q));
  }

  lemma CleanRow(row: Row)
    requires forall p :: !RowWrong(row, p)
    ensures RowOk(row)
  {
    var cells := Cells(row);
    var q, image := BuildQuestion(cells), ParseHasImage(cells[8]);
    forall p ensures !RowProblem(cells, image, WrongOf(q), p) { assert !RowWrong(row, p); }
    FieldsIff(q);
    RowIff(cells, image, FieldsOk(q), WrongOf(q));
  }

  /** A row is good exactly when it deserves no error. */
  lemma RowOkIff(row: Row)
    ensures RowOk(row) <==> forall p :: !RowWrong(row, p)
  {
    if RowOk(row) { GoodRow(row); }
    if forall p :: !RowWrong(row, p) { CleanRow(row); }
  }

  lemma NoErrorsIff(row: Row, line: nat, errors: seq<ParseError>)
    requires forall e :: e in errors <==> e.line == line && RowWrong(row, e.problem)
    ensures errors == [] <==> forall p :: !RowWrong(row, p)
  {
    if errors == [] {
      forall p ensures !RowWrong(row, p) { assert ParseError(line, p) !in errors; }
    }
    EmptyOrFirst(errors);
  }

  // ---------- What a row says ----------

  /** The cell holds this text, with blanks around it or not. A text cell may not be blank. */
  ghost predicate Holds(c: Cell, text: string) {
    match c
    case Empty => false
    case Str(s) => text != "" && Padded(s, text)
    case Int(n) => text == Decimal(n)
    case Bool(b) => text == if b then "True" else "False"
    case Other(s) => Padded(s, text)
  }

  /** The last cell says whether there is an image, in a spelling that the parser knows. */
  ghost predicate SaysImage(c: Cell, hasImage: bool) {
    match c
    case Empty => !hasImage
    case Bool(b) => hasImage == b
    case Str(s) => SaysWord(s, ImageTokens(hasImage))
    case Int(n) => Decimal(n) in ImageTokens(hasImage)
    case Other(s) => SaysWord(s, ImageTokens(hasImage))
  }

  /** The text is one of the words, in any case and with blanks around it or not. */
  ghost predicate SaysWord(s: string, words: seq<string>) {
    exists token, word :: Padded(s, token) && word in words && Spells(token, word)
  }

  function ImageTokens(hasImage: bool): seq<string> {
    if hasImage then IMAGE_TRUE else IMAGE_FALSE
  }

  /** The row as an author writes it for this question: section, position, text, the four options in
      order, the key, and whether it has an image. */
  ghost predicate Says(row: Row, q: Draft) {
    var cells := Cells(row);
    && Holds(cells[0], q.section) && cells[1] == Int(q.position) && Holds(cells[2], q.text)
    && Holds(cells[3], q.a) && Holds(cells[4], q.b) && Holds(cells[5], q.c) && Holds(cells[6], q.d)
    && (exists key :: Holds(cells[7], key) && IsKey(key, q.correct))
    && SaysImage(cells[8], q.hasImage)
  }

  /** A file of fifty rows that say these questions, each within the contract, no position twice. */
  ghost predicate FileSays(rows: seq<Row>, qs: seq<Draft>) {
    && |rows| == EXPECTED_ROW_COUNT && |qs| == |rows|
    && (forall i :: 0 <= i < |rows| ==> Says(rows[i], qs[i]) && FieldsOk(qs[i]))
    && (forall i, j :: 0 <= i < j < |qs| ==> qs[i].position != qs[j].position)
  }

  predicate OfDigits(s: string) {
    s != "" && forall k :: 0 <= k < |s| ==> s[k] == '-' || '0' <= s[k] <= '9'
  }

  lemma {:induction false} DecimalDigits(n: int)
    ensures OfDigits(Decimal(n))
    decreases if n < 0 then 1 - n else n
  {
    if n < 0 {
      DecimalDigits(-n);
    } else if n >= 10 {
      DecimalDigits(n / 10);
    }
  }

  /** The number that a string of digits stands for. */
  function NumberOf(s: string): int {
    if s == "" then 0 else 10 * NumberOf(s[..|s| - 1]) + (s[|s| - 1] as int - '0' as int)
  }

  lemma {:induction false} DecimalStandsFor(n: nat)
    ensures NumberOf(Decimal(n)) == n && (n > 0 ==> Decimal(n)[0] != '0')
  {
    if n >= 10 {
      DecimalStandsFor(n / 10);
      assert Decimal(n)[..|Decimal(n)| - 1] == Decimal(n / 10);
    } else {
      assert Decimal(n)[..0] == "";
    }
  }

  lemma DigitsPlain(s: string)
    requires OfDigits(s)
    ensures Strip(s) == s && Padded(s, s)
  {
    assert AllSpace("") && s == "" + s + "";
    StripIff(s, s);
  }

  lemma HoldsIff(c: Cell, text: string)
    ensures Holds(c, text) <==> !Blank(c) && Strip(Shown(c)) == text
  {
    hide Padded, Strip, Decimal;
    StripIff(Shown(c), text);
    match c
    case Int(n) => DecimalDigits(n); DigitsPlain(Decimal(n));
    case Bool(b) => PlainWord(b);
    case _ =>
  }

  lemma PlainWord(b: bool)
    ensures var word := if b then "True" else "False"; Strip(word) == word
  {
    var word := if b then "True" else "False";
    assert AllSpace("") && word == "" + word + "";
    StripIff(word, word);
  }

  lemma SaysImageIff(c: Cell, hasImage: bool)
    ensures SaysImage(c, hasImage) <==> ParseHasImage(c) == Some(hasImage)
  {
    hide Padded, Strip, Decimal, Lower;
    TokensDiffer(Lower(Strip(Shown(c))));
    match c
    case Int(n) => DecimalDigits(n); DigitsPlain(Decimal(n)); DigitsSmall(Decimal(n));
    case Str(s) => WordIff(s, ImageTokens(hasImage));
    case Other(s) => WordIff(s, ImageTokens(hasImage));
    case _ =>
  }

  lemma WordIff(s: string, words: seq<string>)
    ensures SaysWord(s, words) <==> Lower(Strip(s)) in words
  {
    hide Padded, Strip, Spells, Lower;
    var token := Strip(s);
    StripIff(s, token);
    LowerIff(token, Lower(token));
    if Lower(token) in words { assert Padded(s, token) && Spells(token, Lower(token)); }
    if SaysWord(s, words) {
      var other, word :| Padded(s, other) && word in words && Spells(other, word);
      StripIff(s, other);
      LowerIff(other, word);
    }
  }

  lemma DigitsSmall(s: string)
    requires OfDigits(s)
    ensures Lower(s) == s
  {
  }

  lemma TokensDiffer(token: string)
    ensures !(token in IMAGE_TRUE && token in IMAGE_FALSE)
  {
    forall i, j | 0 <= i < |IMAGE_TRUE| && 0 <= j < |IMAGE_FALSE| ensures IMAGE_TRUE[i] != IMAGE_FALSE[j] {
      assert IMAGE_FALSE[j] == "" || IMAGE_TRUE[i][0] != IMAGE_FALSE[j][0];
    }
  }

  /** What the parser takes each cell for. */
  predicate Taken(c: Cell, text: string) {
    !Blank(c) && Strip(Shown(c)) == text
  }

  predicate CellsTaken(cells: Row, q: Draft)
    requires |cells| == TOTAL_COLUMNS
  {
    && Taken(cells[0], q.section) && cells[1] == Int(q.position) && Taken(cells[2], q.text)
    && Taken(cells[3], q.a) && Taken(cells[4], q.b) && Taken(cells[5], q.c) && Taken(cells[6], q.d)
    && !Blank(cells[7]) && Upper(Strip(Shown(cells[7]))) == q.correct
    && ParseHasImage(cells[8]) == Some(q.hasImage)
  }

  lemma SomeTrue(b: Option<bool>)
    requires b.Some?
    ensures b == Some(b == Some(true))
  {
    assert b.value == true || b.value == false;
  }

  lemma TakenIsBuilt(cells: Row, q: Draft)
    requires |cells| == TOTAL_COLUMNS
    ensures CellsTaken(cells, q) <==>
            Typed(cells) && ParseHasImage(cells[8]).Some? && BuildQuestion(cells) == q
  {
    hide Upper, Strip, Shown, ParseHasImage;
    if CellsTaken(cells, q) {
      forall k | 0 <= k < 8 ensures !Blank(cells[k]) {
        assert k == 0 || k == 1 || k == 2 || k == 3 || k == 4 || k == 5 || k == 6 || k == 7;
      }
    }
    if Typed(cells) && ParseHasImage(cells[8]).Some? && BuildQuestion(cells) == q {
      SomeTrue(ParseHasImage(cells[8]));
    }
  }

  lemma KeyCellIff(c: Cell, option: string)
    requires option in OPTIONS
    ensures (exists key :: Holds(c, key) && IsKey(key, option)) <==> !Blank(c) && Upper(Strip(Shown(c))) == option
  {
    hide Holds, IsKey, Upper, Strip, Shown, Blank;
    var key := Strip(Shown(c));
    forall other ensures Holds(c, other) <==> !Blank(c) && other == key { HoldsIff(c, other); }
    KeyIff(key, option);
  }

  /** A row is good and read as this question exactly if it says the question. */
  lemma ReadIff(row: Row, q: Draft)
    requires FieldsOk(q)
    ensures RowOk(row) && BuildQuestion(Cells(row)) == q <==> Says(row, q)
  {
    hide Holds, SaysImage, IsKey, Upper, Strip, Shown, Blank, ParseHasImage, Typed, BuildQuestion;
    var cells := Cells(row);
    TakenIsBuilt(cells, q);
    HoldsIff(cells[0], q.section);
    HoldsIff(cells[2], q.text);
    HoldsIff(cells[3], q.a);
    HoldsIff(cells[4], q.b);
    HoldsIff(cells[5], q.c);
    HoldsIff(cells[6], q.d);
    KeyCellIff(cells[7], q.correct);
    SaysImageIff(cells[8], q.hasImage);
  }

  // ---------- The whole file ----------

  /** What the file-level checks see of the rows: the question of each good row, and which problems
      each row has. */
  datatype Verdicts = Verdicts(rows: seq<Option<Draft>>, wrong: (nat, Problem) -> bool)

  function Judge(row: Row): Option<Draft> {
    if RowOk(row) then Some(BuildQuestion(Cells(row))) else None
  }

  function JudgeAll(rows: seq<Row>): Verdicts {
    Verdicts(seq(|rows|, i requires 0 <= i < |rows| => Judge(rows[i])),
             (i: nat, p) => i < |rows| && RowWrong(rows[i], p))
  }

  /** The questions of the good rows, in order. */
  function Valid(vs: seq<Option<Draft>>): seq<Draft> {
    if vs == [] then []
    else Valid(vs[..|vs| - 1]) + if vs[|vs| - 1].Some? then [vs[|vs| - 1].value] else []
  }

  predicate TakenBefore(vs: seq<Option<Draft>>, i: nat, position: int)
    requires i <= |vs|
  {
    exists j :: 0 <= j < i && vs[j].Some? && vs[j].value.position == position
  }

  /** A good row whose position a good row above it has. */
  predicate Duplicate(vs: seq<Option<Draft>>, i: nat)
    requires i < |vs|
  {
    vs[i].Some? && TakenBefore(vs, i, vs[i].value.position)
  }

  /** Exactly the errors a file deserves. Data starts in row 2. */
  predicate FileWrong(v: Verdicts, e: ParseError) {
    var n := |v.rows|;
    match e.problem
    case RowCount(found) => e.line == 0 && found == n && n != EXPECTED_ROW_COUNT
    case SectionCount(s, found) =>
      e.line == 0 && n == EXPECTED_ROW_COUNT && found == InSection(Valid(v.rows), s) && found != Expected(s)
    case PositionTaken(p) =>
      2 <= e.line < n + 2 && Duplicate(v.rows, e.line - 2) && p == v.rows[e.line - 2].value.position
    case _ => 2 <= e.line < n + 2 && v.wrong(e.line - 2, e.problem)
  }

  ghost predicate FileOk(v: Verdicts) {
    && |v.rows| == EXPECTED_ROW_COUNT
    && (forall i :: 0 <= i < |v.rows| ==> v.rows[i].Some?)
    && (forall i :: 0 <= i < |v.rows| ==> !Duplicate(v.rows, i))
  }

  /** Good rows are those without problems, problems of a row are not those of the file, and the
      questions of good rows are in their places. */
  ghost predicate Fair(v: Verdicts) {
    forall i :: 0 <= i < |v.rows| ==> FairAt(v, i)
  }

  ghost predicate FairAt(v: Verdicts, i: nat)
    requires i < |v.rows|
  {
    && (v.rows[i].Some? <==> forall p :: !v.wrong(i, p))
    && (v.rows[i].Some? ==> PlacedOne(v.rows[i].value))
    && (forall p: Problem :: v.wrong(i, p) ==> !p.RowCount? && !p.SectionCount? && !p.PositionTaken?)
  }

  predicate PlacedOne(q: Draft) {
    SectionForPosition(q.position).Some? && q.section == Name(SectionForPosition(q.position).value)
  }

  predicate FromRow(e: ParseError, i: nat) {
    (e.line == 0 && e.problem.RowCount?) || 2 <= e.line < i + 2
  }

  /** The state of the loop after the first i rows. */
  ghost predicate Parsed(v: Verdicts, i: nat, errors: seq<ParseError>, questions: seq<Draft>, seen: set<int>,
                         counts: map<Section, nat>)
    requires i <= |v.rows|
  {
    && questions == Valid(v.rows[..i])
    && (forall p :: p in seen <==> TakenBefore(v.rows, i, p))
    && (forall s :: s in counts && counts[s] == InSection(questions, s))
    && (forall e :: e in errors <==> FileWrong(v, e) && FromRow(e, i))
  }

  method Parse(rows: seq<Row>) returns (r: Result<seq<Draft>, seq<ParseError>>)
    ensures r.Ok? <==> FileOk(JudgeAll(rows))
    ensures r.Ok? ==> |r.value| == |rows| && forall i :: 0 <= i < |rows| ==> r.value[i] == BuildQuestion(Cells(rows[i]))
    ensures r.Err? ==> forall e :: e in r.error <==> FileWrong(JudgeAll(rows), e)
    ensures forall qs :: r == Ok(qs) <==> FileSays(rows, qs)
  {
    hide JudgeAll, BuildQuestion, Parsed, FileWrong, FileOk, PlacedOne, FileSays;
    FilesSay(rows);
    ghost var v := JudgeAll(rows);
    JudgeAllFair(rows);
    var errors: seq<ParseError> := [];
    var questions: seq<Draft> := [];
    var seenPositions: set<int> := {};
    var sectionCounts: map<Section, nat> := map[RusTili := 0, Pedagogik := 0, Kasbiy := 0];
    if |rows| != EXPECTED_ROW_COUNT {
      errors := [ParseError(0, RowCount(|rows|))];
    }
    ParsedStart(v, errors, sectionCounts);
    for i := 0 to |rows|
      invariant Parsed(v, i, errors, questions, seenPositions, sectionCounts)
      invariant forall s: Section :: s in sectionCounts
    {
      var rowErrors := JudgedErrors(rows, i, v);
      if |rowErrors| > 0 {
        RejectedRow(v, i, errors, questions, seenPositions, sectionCounts, rowErrors);
        errors := errors + rowErrors;
        continue;
      }
      ghost var errors0, questions0, seen0, counts0 := errors, questions, seenPositions, sectionCounts;
      var question := BuildQuestion(Cells(rows[i]));
      questions := questions + [question];
      if question.position in seenPositions {
        errors := errors + [ParseError(i + 2, PositionTaken(question.position))];
      } else {
        seenPositions := seenPositions + {question.position};
      }
      assert FairAt(v, i);
      PlacedHasSection(question);
      var s := FromName(question.section).value;
      sectionCounts := sectionCounts[s := sectionCounts[s] + 1];
      AcceptedRow(v, i, errors0, questions0, seen0, counts0, question);
    }
    ParsedEnd(v, errors, questions, seenPositions, sectionCounts);
    ghost var rowLevel := errors;
    if |rows| == EXPECTED_ROW_COUNT {
      var more := SectionErrors(sectionCounts, v);
      errors := errors + more;
    }
    EveryError(v, rowLevel, errors);
    OkIffNoErrors(v, errors);
    if |errors| > 0 {
      return Err(errors);
    }
    ParsedQuestions(rows);
    assert ReadAs(rows, questions);
    SameReading(rows, questions);
    return Ok(questions);
  }

  /** The 35/10/5 check. */
  method SectionErrors(counts: map<Section, nat>, ghost v: Verdicts) returns (errors: seq<ParseError>)
    requires |v.rows| == EXPECTED_ROW_COUNT && forall s :: s in counts && counts[s] == InSection(Valid(v.rows), s)
    ensures forall e :: e in errors <==> e.problem.SectionCount? && FileWrong(v, e)
  {
    errors := [];
    for k := 0 to 3
      invariant forall e ::
                 e in errors <==> e.problem.SectionCount? && e.problem.section in SECTIONS[..k] && FileWrong(v, e)
    {
      var s := SECTIONS[k];
      assert SECTIONS[..k + 1] == SECTIONS[..k] + [s];
      var actual := counts[s];
      if actual != Expected(s) {
        errors := errors + [ParseError(0, SectionCount(s, actual))];
      }
    }
    AllSections();
  }

  method JudgedErrors(rows: seq<Row>, i: nat, ghost v: Verdicts) returns (errors: seq<ParseError>)
    requires i < |rows| && v == JudgeAll(rows)
    ensures forall e :: e in errors <==> e.line == i + 2 && v.wrong(i, e.problem)
    ensures errors == [] <==> v.rows[i].Some?
    ensures errors == [] ==> v.rows[i] == Some(BuildQuestion(Cells(rows[i])))
  {
    errors := ValidateRow(rows[i], i + 2);
  }

  lemma JudgeAllFair(rows: seq<Row>)
    ensures Fair(JudgeAll(rows)) && |JudgeAll(rows).rows| == |rows|
  {
    hide RowOk, RowWrong, FieldsOk, BuildQuestion, PlacedOne, WrongOf, Cells;
    var v := JudgeAll(rows);
    forall i | 0 <= i < |rows| ensures FairAt(v, i) {
      forall p ensures v.wrong(i, p) == RowWrong(rows[i], p) {}
      RowOkIff(rows[i]);
      NotOfTheFile(rows[i]);
      if RowOk(rows[i]) { GoodRowPlaced(rows[i]); }
    }
  }

  lemma GoodRowPlaced(row: Row)
    requires RowOk(row)
    ensures PlacedOne(BuildQuestion(Cells(row)))
  {
    OkFitsSection(BuildQuestion(Cells(row)));
  }

  lemma NotOfTheFile(row: Row)
    ensures forall p: Problem :: RowWrong(row, p) ==> !p.RowCount? && !p.SectionCount? && !p.PositionTaken?
  {
    hide ParseHasImage, BuildQuestion, WrongOf, Typed, NoneBlank, Blank;
  }

  lemma ParsedQuestions(rows: seq<Row>)
    requires FileOk(JudgeAll(rows))
    ensures var qs := Valid(JudgeAll(rows).rows);
            |qs| == |rows| && forall i :: 0 <= i < |rows| ==> qs[i] == BuildQuestion(Cells(rows[i]))
  {
    hide RowOk, RowWrong, BuildQuestion, Duplicate;
    ValidOfOk(JudgeAll(rows).rows);
    JudgedQuestion(rows);
  }

  lemma JudgedQuestion(rows: seq<Row>)
    ensures forall i :: 0 <= i < |rows| && JudgeAll(rows).rows[i].Some? ==>
              JudgeAll(rows).rows[i].value == BuildQuestion(Cells(rows[i]))
  {
    hide RowOk, RowWrong, BuildQuestion;
  }

  lemma PlacedHasSection(q: Draft)
    requires PlacedOne(q)
    ensures FromName(q.section).Some?
  {
  }

  // ---------- The loop ----------

  lemma ParsedStart(v: Verdicts, errors: seq<ParseError>, counts: map<Section, nat>)
    requires counts == map[RusTili := 0, Pedagogik := 0, Kasbiy := 0]
    requires errors == if |v.rows| != EXPECTED_ROW_COUNT then [ParseError(0, RowCount(|v.rows|))] else []
    ensures Parsed(v, 0, errors, [], {}, counts)
    ensures forall s: Section :: s in counts
  {
    forall s: Section ensures s in counts && counts[s] == 0 {
      match s case RusTili => case Pedagogik => case Kasbiy =>
    }
    forall e ensures e in errors <==> FileWrong(v, e) && FromRow(e, 0) {}
  }

  lemma ValidMore(vs: seq<Option<Draft>>, i: nat)
    requires i < |vs|
    ensures Valid(vs[..i + 1]) == Valid(vs[..i]) + if vs[i].Some? then [vs[i].value] else []
  {
    assert vs[..i + 1][..i] == vs[..i];
  }

  lemma TakenMore(vs: seq<Option<Draft>>, i: nat, p: int)
    requires i < |vs|
    ensures TakenBefore(vs, i + 1, p) <==> TakenBefore(vs, i, p) || (vs[i].Some? && vs[i].value.position == p)
  {
  }

  /** The errors of line i + 2, which are all of its row or its one repeated position. */
  lemma OneLineMore(v: Verdicts, i: nat, e: ParseError)
    requires Fair(v) && i < |v.rows|
    ensures FromRow(e, i + 1) <==> FromRow(e, i) || e.line == i + 2
    ensures e.line == i + 2 && v.rows[i].Some? ==>
              (FileWrong(v, e) <==> Duplicate(v.rows, i) && e.problem == PositionTaken(v.rows[i].value.position))
  {
    assert FairAt(v, i);
  }

  lemma RejectedRow(v: Verdicts, i: nat, errors: seq<ParseError>, questions: seq<Draft>, seen: set<int>,
                    counts: map<Section, nat>, more: seq<ParseError>)
    requires Fair(v) && i < |v.rows| && Parsed(v, i, errors, questions, seen, counts) && v.rows[i].None?
    requires forall e :: e in more <==> e.line == i + 2 && v.wrong(i, e.problem)
    ensures Parsed(v, i + 1, errors + more, questions, seen, counts)
  {
    ValidMore(v.rows, i);
    forall p ensures TakenBefore(v.rows, i + 1, p) <==> TakenBefore(v.rows, i, p) { TakenMore(v.rows, i, p); }
    assert FairAt(v, i);
    forall e ensures e in errors + more <==> FileWrong(v, e) && FromRow(e, i + 1) { OneLineMore(v, i, e); }
  }

  lemma AcceptedRow(v: Verdicts, i: nat, errors: seq<ParseError>, questions: seq<Draft>, seen: set<int>,
                    counts: map<Section, nat>, q: Draft)
    requires Fair(v) && i < |v.rows| && Parsed(v, i, errors, questions, seen, counts) && v.rows[i] == Some(q)
    requires FromName(q.section).Some?
    ensures var s := FromName(q.section).value;
            Parsed(v, i + 1,
                   if q.position in seen then errors + [ParseError(i + 2, PositionTaken(q.position))] else errors,
                   questions + [q], seen + {q.position}, counts[s := counts[s] + 1])
    ensures q.position in seen ==> seen + {q.position} == seen
  {
    ValidMore(v.rows, i);
    forall p ensures p in seen + {q.position} <==> TakenBefore(v.rows, i + 1, p) { TakenMore(v.rows, i, p); }
    forall e
      ensures e in (if q.position in seen then errors + [ParseError(i + 2, PositionTaken(q.position))] else errors)
              <==> FileWrong(v, e) && FromRow(e, i + 1)
    {
      OneLineMore(v, i, e);
    }
    CountsMore(questions, q, counts);
  }

  lemma CountsMore(questions: seq<Draft>, q: Draft, counts: map<Section, nat>)
    requires FromName(q.section).Some? && forall s :: s in counts && counts[s] == InSection(questions, s)
    ensures var s := FromName(q.section).value;
            forall t :: t in counts[s := counts[s] + 1]
              && counts[s := counts[s] + 1][t] == InSection(questions + [q], t)
  {
    var s := FromName(q.section).value;
    assert (questions + [q])[..|questions|] == questions;
    forall t ensures t in counts[s := counts[s] + 1] && counts[s := counts[s] + 1][t] == InSection(questions + [q], t) {
      NamesDiffer(s, t);
    }
  }

  lemma ParsedEnd(v: Verdicts, errors: seq<ParseError>, questions: seq<Draft>, seen: set<int>,
                  counts: map<Section, nat>)
    requires Parsed(v, |v.rows|, errors, questions, seen, counts)
    ensures questions == Valid(v.rows) && forall s :: s in counts && counts[s] == InSection(Valid(v.rows), s)
    ensures forall e :: e in errors <==> FileWrong(v, e) && FromRow(e, |v.rows|)
  {
    assert v.rows[..|v.rows|] == v.rows;
  }

  lemma EveryError(v: Verdicts, rowLevel: seq<ParseError>, errors: seq<ParseError>)
    requires forall e :: e in rowLevel <==> FileWrong(v, e) && FromRow(e, |v.rows|)
    requires if |v.rows| == EXPECTED_ROW_COUNT then
               forall e :: e in errors <==> e in rowLevel || (e.problem.SectionCount? && FileWrong(v, e))
             else errors == rowLevel
    ensures forall e :: e in errors <==> FileWrong(v, e)
  {
  }

  // ---------- What a parsed file is ----------

  lemma {:induction false} ValidOfOk(vs: seq<Option<Draft>>)
    requires forall i :: 0 <= i < |vs| ==> vs[i].Some?
    ensures |Valid(vs)| == |vs|
    ensures forall i :: 0 <= i < |vs| ==> Valid(vs)[i] == vs[i].value
  {
    if vs != [] { ValidOfOk(vs[..|vs| - 1]); }
  }

  lemma NoDuplicateIsDistinct(vs: seq<Option<Draft>>)
    requires forall i :: 0 <= i < |vs| ==> vs[i].Some?
    ensures (forall i :: 0 <= i < |vs| ==> !Duplicate(vs, i)) <==> Distinct(Positions(Valid(vs)))
  {
    ValidOfOk(vs);
    var ps := Positions(Valid(vs));
    if Distinct(ps) {
      forall i | 0 <= i < |vs| ensures !Duplicate(vs, i) {
        assert forall j :: 0 <= j < i ==> ps[j] != ps[i];
      }
    }
    if forall i :: 0 <= i < |vs| ==> !Duplicate(vs, i) {
      forall j, i | 0 <= j < i < |ps| ensures ps[j] != ps[i] {
        assert !Duplicate(vs, i);
        assert vs[j].Some?;
      }
    }
  }

  /** Fifty good rows without a repeated position are a complete test: the section counts never fail
      on their own. */
  lemma OkFileIsComplete(v: Verdicts)
    requires FileOk(v) && Fair(v)
    ensures Complete(Valid(v.rows)) && Placed(Valid(v.rows))
    ensures AllPositions(Positions(Valid(v.rows)))
  {
    ValidOfOk(v.rows);
    NoDuplicateIsDistinct(v.rows);
    forall i | 0 <= i < |v.rows| ensures PlacedOne(v.rows[i].value) { assert FairAt(v, i); }
    CompleteIff(Valid(v.rows));
  }

  lemma OkDeservesNoError(v: Verdicts, e: ParseError)
    requires FileOk(v) && Fair(v)
    ensures !FileWrong(v, e)
  {
    hide InSection, Valid, Positions, AllPositions, Placed, Distinct, Duplicate;
    OkFileIsComplete(v);
    if 2 <= e.line < |v.rows| + 2 { assert FairAt(v, e.line - 2) && !Duplicate(v.rows, e.line - 2); }
  }

  lemma NoErrorMeansOk(v: Verdicts)
    requires Fair(v) && forall e :: !FileWrong(v, e)
    ensures FileOk(v)
  {
    assert !FileWrong(v, ParseError(0, RowCount(|v.rows|)));
    forall i | 0 <= i < |v.rows| ensures v.rows[i].Some? {
      assert FairAt(v, i);
      forall p ensures !v.wrong(i, p) { assert !FileWrong(v, ParseError(i + 2, p)); }
    }
    forall i | 0 <= i < |v.rows| ensures !Duplicate(v.rows, i) {
      assert !FileWrong(v, ParseError(i + 2, PositionTaken(v.rows[i].value.position)));
    }
  }

  lemma OkIffNoErrors(v: Verdicts, errors: seq<ParseError>)
    requires Fair(v) && forall e :: e in errors <==> FileWrong(v, e)
    ensures errors == [] <==> FileOk(v)
  {
    if FileOk(v) {
      forall e ensures !FileWrong(v, e) { OkDeservesNoError(v, e); }
    }
    EmptyOrFirst(errors);
    if errors == [] {
      forall e ensures !FileWrong(v, e) { assert e !in errors; }
      NoErrorMeansOk(v);
    }
  }

  /** Each row is read as the question in its place. */
  predicate ReadAs(rows: seq<Row>, qs: seq<Draft>) {
    |qs| == |rows| && forall i :: 0 <= i < |rows| ==> qs[i] == BuildQuestion(Cells(rows[i]))
  }

  lemma SameReading(rows: seq<Row>, qs: seq<Draft>)
    requires ReadAs(rows, qs)
    ensures forall other :: ReadAs(rows, other) ==> other == qs
  {
    hide BuildQuestion, Cells;
  }

  lemma JudgedAs(rows: seq<Row>, i: nat, q: Draft)
    requires i < |rows|
    ensures JudgeAll(rows).rows[i] == Some(q) <==> Says(rows[i], q) && FieldsOk(q)
  {
    hide BuildQuestion, Cells, Says, FieldsOk, RowWrong;
    if RowOk(rows[i]) { ReadIff(rows[i], BuildQuestion(Cells(rows[i]))); }
    if FieldsOk(q) { ReadIff(rows[i], q); }
  }

  lemma AllJudgedAs(rows: seq<Row>, qs: seq<Draft>)
    requires |qs| == |rows|
    ensures (forall i :: 0 <= i < |rows| ==> JudgeAll(rows).rows[i] == Some(qs[i]))
            <==> forall i :: 0 <= i < |rows| ==> Says(rows[i], qs[i]) && FieldsOk(qs[i])
  {
    hide Says, FieldsOk, RowWrong, RowOk, BuildQuestion;
    forall i | 0 <= i < |rows|
      ensures JudgeAll(rows).rows[i] == Some(qs[i]) <==> Says(rows[i], qs[i]) && FieldsOk(qs[i])
    {
      JudgedAs(rows, i, qs[i]);
    }
  }

  lemma NoRepeatIff(vs: seq<Option<Draft>>, qs: seq<Draft>)
    requires |qs| == |vs| && forall i :: 0 <= i < |vs| ==> vs[i] == Some(qs[i])
    ensures (forall i :: 0 <= i < |vs| ==> !Duplicate(vs, i))
            <==> forall i, j :: 0 <= i < j < |qs| ==> qs[i].position != qs[j].position
  {
    if forall i :: 0 <= i < |vs| ==> !Duplicate(vs, i) {
      forall i, j | 0 <= i < j < |qs| ensures qs[i].position != qs[j].position {
        assert !Duplicate(vs, j) && vs[i].Some?;
      }
    }
  }

  /** The file is accepted with these questions exactly if it says them. */
  lemma FileSaysIff(rows: seq<Row>, qs: seq<Draft>)
    ensures FileOk(JudgeAll(rows)) && ReadAs(rows, qs) <==> FileSays(rows, qs)
  {
    hide Says, FieldsOk, RowWrong, RowOk, BuildQuestion, Duplicate;
    if |qs| == |rows| {
      AllJudgedAs(rows, qs);
      JudgedQuestion(rows);
      if forall i :: 0 <= i < |rows| ==> JudgeAll(rows).rows[i] == Some(qs[i]) {
        NoRepeatIff(JudgeAll(rows).rows, qs);
      }
      if FileOk(JudgeAll(rows)) && ReadAs(rows, qs) {
        forall i | 0 <= i < |rows| ensures JudgeAll(rows).rows[i] == Some(qs[i]) {
          assert JudgeAll(rows).rows[i].Some?;
        }
      }
    }
  }

  lemma FilesSay(rows: seq<Row>)
    ensures forall qs :: FileOk(JudgeAll(rows)) && ReadAs(rows, qs) <==> FileSays(rows, qs)
  {
    forall qs ensures FileOk(JudgeAll(rows)) && ReadAs(rows, qs) <==> FileSays(rows, qs) { FileSaysIff(rows, qs); }
  }

  // ---------- The plain row of a question ----------

  function RowOf(q: Draft): Row {
    [Str(q.section), Int(q.position), Str(q.text), Str(q.a), Str(q.b), Str(q.c), Str(q.d), Str(q.correct),
     Str(if q.hasImage then "да" else "нет")]
  }

  function RowsOf(qs: seq<Draft>): (rows: seq<Row>)
    ensures |rows| == |qs| && forall i :: 0 <= i < |qs| ==> rows[i] == RowOf(qs[i])
  {
    seq(|qs|, i requires 0 <= i < |qs| => RowOf(qs[i]))
  }

  /** A text that is not blank and has no white space at its ends. */
  predicate Trimmed(text: string) {
    text != "" && !IsSpace(text[0]) && !IsSpace(text[|text| - 1])
  }

  lemma TrimmedHolds(text: string)
    requires Trimmed(text)
    ensures Holds(Str(text), text)
  {
    assert AllSpace("") && text == "" + text + "";
  }

  lemma RowOfSays(q: Draft)
    requires FieldsOk(q) && forall k :: 0 <= k < 5 ==> Trimmed(Texts(q)[k])
    ensures Says(RowOf(q), q)
  {
    hide FieldsOk, Trimmed, Holds, SaysImage;
    assert Trimmed(Texts(q)[0]) && Trimmed(Texts(q)[1]) && Trimmed(Texts(q)[2]) && Trimmed(Texts(q)[3]);
    assert Trimmed(Texts(q)[4]);
    TrimmedHolds(q.text);
    TrimmedHolds(q.a);
    TrimmedHolds(q.b);
    TrimmedHolds(q.c);
    TrimmedHolds(q.d);
    NamesTrimmed(q);
    TrimmedHolds(q.section);
    TrimmedHolds(q.correct);
    assert IsKey(q.correct, q.correct);
    TokenSays(q.hasImage);
  }

  lemma NamesTrimmed(q: Draft)
    requires FieldsOk(q)
    ensures Trimmed(q.section) && Trimmed(q.correct) && IsKey(q.correct, q.correct)
  {
    OkFitsSection(q);
  }

  lemma TokenSays(hasImage: bool)
    ensures SaysImage(Str(if hasImage then "да" else "нет"), hasImage)
  {
    var token := if hasImage then "да" else "нет";
    TrimmedHolds(token);
    assert Spells(token, token);
    assert IMAGE_TRUE[4] == "да" && IMAGE_FALSE[5] == "нет";
    assert token in ImageTokens(hasImage);
  }

  /** Fifty questions written down row by row are read back as they were, whatever their order. */
  lemma RoundTrip(qs: seq<Draft>)
    requires |qs| == EXPECTED_ROW_COUNT && forall i, j :: 0 <= i < j < |qs| ==> qs[i].position != qs[j].position
    requires forall i :: 0 <= i < |qs| ==> FieldsOk(qs[i]) && forall k :: 0 <= k < 5 ==> Trimmed(Texts(qs[i])[k])
    ensures FileSays(RowsOf(qs), qs)
    ensures forall other :: FileSays(RowsOf(qs), other) ==> other == qs
  {
    hide FieldsOk, Trimmed, Says, Texts;
    forall i | 0 <= i < |qs| ensures Says(RowsOf(qs)[i], qs[i]) { RowOfSays(qs[i]); }
    FilesSay(RowsOf(qs));
    SameReading(RowsOf(qs), qs);
  }

  /** A parsed test needs no further check: its positions are 1..50, each once, and every question is in
      the section of its position. */
  lemma ParsedTestIsComplete(rows: seq<Row>, qs: seq<Draft>)
    requires FileOk(JudgeAll(rows))
    requires |qs| == |rows| && forall i :: 0 <= i < |rows| ==> qs[i] == BuildQuestion(Cells(rows[i]))
    ensures Complete(qs) && Placed(qs)
    ensures AllPositions(Positions(qs)) && Distinct(Positions(qs))
  {
    hide RowOk, RowWrong, FieldsOk, BuildQuestion, Complete, Placed, AllPositions;
    var v := JudgeAll(rows);
    JudgeAllFair(rows);
    ValidOfOk(v.rows);
    forall i | 0 <= i < |rows| ensures qs[i] == v.rows[i].value { assert v.rows[i].Some?; }
    assert qs == Valid(v.rows);
    OkFileIsComplete(v);
  }
}
