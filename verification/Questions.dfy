/** The contract of one question and of a whole test (`app/services/question_validation.py`), shared by
    the Excel parser and the web form. */
module Questions {
  import opened Common
  import opened Text
  import opened MarkerPairs
  import opened Markup
  import opened Sections

  const MAX_QUESTION_TEXT_LEN: nat := 1000
  const MAX_OPTION_TEXT_LEN: nat := 300
  const MAX_IMAGE_CAPTION_BLOCK_LEN: nat := 850
  const CAPTION_BODY_OVERHEAD: nat := 17

  /** One question as authored; `section` is the raw section key. */
  datatype Draft = Draft(
    section: string,
    position: int,
    text: string,
    a: string,
    b: string,
    c: string,
    d: string,
    correct: string,
    hasImage: bool)

  datatype Field = SectionField | PositionField | TextField(k: nat) | CorrectField | WholeQuestion

  datatype Problem =
    | UnknownSection
    | OutOfRange
    | OutsideSection
    | TooLong
    | NotAnOption
    | BadMarkup(cause: MarkupError)
    | CaptionTooLong

  datatype FieldError = FieldError(field: Field, problem: Problem)

  /** The question text and the four options, in the order they are checked. */
  function Texts(q: Draft): (t: seq<string>)
    ensures |t| == 5
  {
    [q.text, q.a, q.b, q.c, q.d]
  }

  function MaxLen(k: nat): nat {
    if k == 0 then MAX_QUESTION_TEXT_LEN else MAX_OPTION_TEXT_LEN
  }

  function CaptionBlockLength(q: Draft): nat {
    VisibleLength(Strip(q.text)) + VisibleLength(Strip(q.a)) + VisibleLength(Strip(q.b))
    + VisibleLength(Strip(q.c)) + VisibleLength(Strip(q.d)) + CAPTION_BODY_OVERHEAD
  }

  // ---------- Field-level validation ----------

  predicate MarkupWrong(text: string, e: MarkupError) {
    match e
    case UnbalancedBold => CountPairs(text, BOLD_MARKER) % 2 != 0
    case UnbalancedItalic => CountPairs(text, ITALIC_MARKER) % 2 != 0
    case EmptyMarkup => HasEmptyPair(text, BOLD_MARKER) || HasEmptyPair(text, ITALIC_MARKER)
  }

  /** Exactly the errors that a question deserves. */
  predicate Wrong(q: Draft, e: FieldError) {
    match e.problem
    case UnknownSection => e.field == SectionField && FromName(q.section).None?
    case OutOfRange => e.field == PositionField && !(1 <= q.position <= EXPECTED_ROW_COUNT)
    case OutsideSection =>
      && e.field == PositionField && 1 <= q.position <= EXPECTED_ROW_COUNT && FromName(q.section).Some?
      && !(Lo(FromName(q.section).value) <= q.position <= Hi(FromName(q.section).value))
    case TooLong => e.field.TextField? && e.field.k < 5 && |Texts(q)[e.field.k]| > MaxLen(e.field.k)
    case NotAnOption => e.field == CorrectField && q.correct !in OPTIONS
    case BadMarkup(cause) => e.field.TextField? && e.field.k < 5 && MarkupWrong(Texts(q)[e.field.k], cause)
    case CaptionTooLong => e.field == WholeQuestion && q.hasImage && CaptionBlockLength(q) > MAX_IMAGE_CAPTION_BLOCK_LEN
  }

  /** The place of an error in the report. */
  function Stage(e: FieldError): nat {
    match e.problem
    case UnknownSection => 0
    case OutOfRange => 1
    case OutsideSection => 1
    case TooLong => if e.field.TextField? then 2 + Common.Min(e.field.k, 4) else 2
    case NotAnOption => 7
    case BadMarkup(_) => if e.field.TextField? then 8 + Common.Min(e.field.k, 4) else 8
    case CaptionTooLong => 13
  }

  predicate FieldsOk(q: Draft) {
    && FromName(q.section).Some?
    && Lo(FromName(q.section).value) <= q.position <= Hi(FromName(q.section).value)
    && (forall k :: 0 <= k < 5 ==> |Texts(q)[k]| <= MaxLen(k) && Accepted(Texts(q)[k]))
    && q.correct in OPTIONS
    && (q.hasImage ==> CaptionBlockLength(q) <= MAX_IMAGE_CAPTION_BLOCK_LEN)
  }

  /** The report through stage n: every deserved error, no other, in order. */
  ghost predicate Reported(q: Draft, errors: seq<FieldError>, n: nat) {
    && (forall e :: e in errors <==> Wrong(q, e) && Stage(e) < n)
    && (forall i, j :: 0 <= i < j < |errors| ==> Stage(errors[i]) <= Stage(errors[j]))
  }

  lemma NothingReported(q: Draft)
    ensures Reported(q, [], 0)
  {
  }

  /** One more stage. */
  lemma ReportMore(q: Draft, errors: seq<FieldError>, more: seq<FieldError>, n: nat)
    requires Reported(q, errors, n)
    requires forall e :: e in more <==> Wrong(q, e) && Stage(e) == n
    ensures Reported(q, errors + more, n + 1)
  {
    var all := errors + more;
    forall i, j | 0 <= i < j < |all| ensures Stage(all[i]) <= Stage(all[j]) {
      assert i < |errors| ==> errors[i] in errors;
      assert i >= |errors| ==> more[i - |errors|] in more;
      assert j >= |errors| ==> more[j - |errors|] in more;
    }
  }

  /** The limits in numbers: which of the simple errors are reported. */
  ghost predicate KeepsLimits(q: Draft, errors: seq<FieldError>) {
    var known := q.section == "rus_tili" || q.section == "pedagogik" || q.section == "kasbiy";
    var fits := || (q.section == "rus_tili" && q.position <= 35)
                || (q.section == "pedagogik" && 36 <= q.position <= 45)
                || (q.section == "kasbiy" && 46 <= q.position);
    && (FieldError(SectionField, UnknownSection) in errors <==> !known)
    && (FieldError(PositionField, OutOfRange) in errors <==> q.position < 1 || 50 < q.position)
    && (FieldError(PositionField, OutsideSection) in errors <==> 1 <= q.position <= 50 && known && !fits)
    && (FieldError(TextField(0), TooLong) in errors <==> |q.text| > 1000)
    && (FieldError(TextField(1), TooLong) in errors <==> |q.a| > 300)
    && (FieldError(TextField(2), TooLong) in errors <==> |q.b| > 300)
    && (FieldError(TextField(3), TooLong) in errors <==> |q.c| > 300)
    && (FieldError(TextField(4), TooLong) in errors <==> |q.d| > 300)
    && (FieldError(CorrectField, NotAnOption) in errors <==>
        q.correct != "A" && q.correct != "B" && q.correct != "C" && q.correct != "D")
    && (FieldError(WholeQuestion, CaptionTooLong) in errors <==> q.hasImage && CaptionBlockLength(q) > 850)
  }

  lemma LimitsReported(q: Draft, errors: seq<FieldError>)
    requires Reported(q, errors, 14)
    ensures KeepsLimits(q, errors)
  {
    var known := q.section == "rus_tili" || q.section == "pedagogik" || q.section == "kasbiy";
    assert FromName(q.section).Some? <==> known;
    forall e ensures e in errors <==> Wrong(q, e) { StagesEnd(q, e); }
    OptionLetters(q.correct);
    hide CaptionBlockLength, Stage;
    assert Texts(q)[0] == q.text && Texts(q)[1] == q.a && Texts(q)[2] == q.b && Texts(q)[3] == q.c;
    assert Texts(q)[4] == q.d;
  }

  lemma OptionLetters(option: string)
    ensures option in OPTIONS <==> option == "A" || option == "B" || option == "C" || option == "D"
  {
  }

  function If(condition: bool, e: FieldError): seq<FieldError> {
    if condition then [e] else []
  }

  method ValidateQuestionFields(q: Draft) returns (errors: seq<FieldError>)
    ensures Reported(q, errors, 14)
    ensures errors == [] <==> FieldsOk(q)
    ensures KeepsLimits(q, errors)
  {
    hide KeepsLimits, Reported, Wrong, Stage, FieldsOk, If, MaxLen, CaptionBlockLength, FromName, Texts;
    NothingReported(q);
    errors := [];
    var more := If(FromName(q.section).None?, FieldError(SectionField, UnknownSection));
    SectionStage(q, more);
    ReportMore(q, errors, more, 0);
    errors := errors + more;

    more := PositionErrors(q);
    ReportMore(q, errors, more, 1);
    errors := errors + more;

    for k := 0 to 5
      invariant Reported(q, errors, 2 + k)
    {
      more := If(|Texts(q)[k]| > MaxLen(k), FieldError(TextField(k), TooLong));
      LengthStage(q, k, more);
      ReportMore(q, errors, more, 2 + k);
      errors := errors + more;
    }

    more := If(q.correct !in OPTIONS, FieldError(CorrectField, NotAnOption));
    CorrectStage(q, more);
    ReportMore(q, errors, more, 7);
    errors := errors + more;

    for k := 0 to 5
      invariant Reported(q, errors, 8 + k)
    {
      more := MarkupErrors(q, k);
      ReportMore(q, errors, more, 8 + k);
      errors := errors + more;
    }

    more := If(q.hasImage && CaptionBlockLength(q) > MAX_IMAGE_CAPTION_BLOCK_LEN,
               FieldError(WholeQuestion, CaptionTooLong));
    CaptionStage(q, more);
    ReportMore(q, errors, more, 13);
    errors := errors + more;
    NoneDeserved(q, errors);
    LimitsReported(q, errors);
  }

  method PositionErrors(q: Draft) returns (more: seq<FieldError>)
    ensures forall e :: e in more <==> Wrong(q, e) && Stage(e) == 1
  {
    more := [];
    if !(1 <= q.position <= EXPECTED_ROW_COUNT) {
      more := [FieldError(PositionField, OutOfRange)];
    } else if FromName(q.section).Some? {
      var s := FromName(q.section).value;
      if !(Lo(s) <= q.position <= Hi(s)) {
        more := [FieldError(PositionField, OutsideSection)];
      }
    }
    PositionStage(q, more);
  }

  method MarkupErrors(q: Draft, k: nat) returns (more: seq<FieldError>)
    requires k < 5
    ensures forall e :: e in more <==> Wrong(q, e) && Stage(e) == 8 + k
  {
    var causes := ValidateMarkup(Texts(q)[k]);
    more := [];
    for i := 0 to |causes|
      invariant forall e ::
                 e in more <==> e.problem.BadMarkup? && e.field == TextField(k) && e.problem.cause in causes[..i]
    {
      assert causes[..i + 1] == causes[..i] + [causes[i]];
      more := more + [FieldError(TextField(k), BadMarkup(causes[i]))];
    }
    MarkupStage(q, k, causes, more);
  }

  lemma SectionStage(q: Draft, more: seq<FieldError>)
    requires more == If(FromName(q.section).None?, FieldError(SectionField, UnknownSection))
    ensures forall e :: e in more <==> Wrong(q, e) && Stage(e) == 0
  {
  }

  lemma PositionStage(q: Draft, more: seq<FieldError>)
    requires more == if !(1 <= q.position <= EXPECTED_ROW_COUNT) then [FieldError(PositionField, OutOfRange)]
                     else if FromName(q.section).None? then []
                     else
                       var s := FromName(q.section).value;
                       If(!(Lo(s) <= q.position <= Hi(s)), FieldError(PositionField, OutsideSection))
    ensures forall e :: e in more <==> Wrong(q, e) && Stage(e) == 1
  {
  }

  lemma LengthStage(q: Draft, k: nat, more: seq<FieldError>)
    requires k < 5 && more == If(|Texts(q)[k]| > MaxLen(k), FieldError(TextField(k), TooLong))
    ensures forall e :: e in more <==> Wrong(q, e) && Stage(e) == 2 + k
  {
  }

  lemma CorrectStage(q: Draft, more: seq<FieldError>)
    requires more == If(q.correct !in OPTIONS, FieldError(CorrectField, NotAnOption))
    ensures forall e :: e in more <==> Wrong(q, e) && Stage(e) == 7
  {
  }

  lemma CaptionStage(q: Draft, more: seq<FieldError>)
    requires more == If(q.hasImage && CaptionBlockLength(q) > MAX_IMAGE_CAPTION_BLOCK_LEN,
                        FieldError(WholeQuestion, CaptionTooLong))
    ensures forall e :: e in more <==> Wrong(q, e) && Stage(e) == 13
  {
    forall e ensures e in more <==> Wrong(q, e) && Stage(e) == 13 {
      match e.problem
      case CaptionTooLong =>
      case _ =>
    }
  }

  lemma MarkupStage(q: Draft, k: nat, causes: seq<MarkupError>, more: seq<FieldError>)
    requires k < 5
    requires forall c :: c in causes <==> MarkupWrong(Texts(q)[k], c)
    requires forall e ::
              e in more <==> e.problem.BadMarkup? && e.field == TextField(k) && e.problem.cause in causes[..|causes|]
    ensures forall e :: e in more <==> Wrong(q, e) && Stage(e) == 8 + k
  {
    assert causes[..|causes|] == causes;
  }

  lemma StagesEnd(q: Draft, e: FieldError)
    ensures Stage(e) < 14
  {
  }

  lemma NoneDeserved(q: Draft, errors: seq<FieldError>)
    requires Reported(q, errors, 14)
    ensures errors == [] <==> FieldsOk(q)
  {
    if FieldsOk(q) {
      forall e ensures !Wrong(q, e) { OkDeservesNone(q, e); }
      EmptyOrFirst(errors);
    }
    if errors == [] {
      forall e ensures !Wrong(q, e) { StagesEnd(q, e); assert e !in errors; }
      NoneMeansOk(q);
    }
  }

  lemma EmptyOrFirst<T>(s: seq<T>)
    ensures s == [] || s[0] in s
  {
  }

  lemma OkDeservesNone(q: Draft, e: FieldError)
    requires FieldsOk(q)
    ensures !Wrong(q, e)
  {
    if e.field.TextField? && e.field.k < 5 { assert Accepted(Texts(q)[e.field.k]); }
  }

  lemma NoneMeansOk(q: Draft)
    requires forall e :: !Wrong(q, e)
    ensures FieldsOk(q)
  {
    PlaceOk(q);
    forall k | 0 <= k < 5 ensures |Texts(q)[k]| <= MaxLen(k) && Accepted(Texts(q)[k]) { TextOk(q, k); }
  }

  lemma PlaceOk(q: Draft)
    requires forall e :: !Wrong(q, e)
    ensures FromName(q.section).Some? && Lo(FromName(q.section).value) <= q.position <= Hi(FromName(q.section).value)
    ensures q.correct in OPTIONS && (q.hasImage ==> CaptionBlockLength(q) <= MAX_IMAGE_CAPTION_BLOCK_LEN)
  {
    assert !Wrong(q, FieldError(SectionField, UnknownSection));
    assert !Wrong(q, FieldError(PositionField, OutOfRange)) && !Wrong(q, FieldError(PositionField, OutsideSection));
    assert !Wrong(q, FieldError(CorrectField, NotAnOption)) && !Wrong(q, FieldError(WholeQuestion, CaptionTooLong));
  }

  lemma TextOk(q: Draft, k: nat)
    requires k < 5 && forall e :: !Wrong(q, e)
    ensures |Texts(q)[k]| <= MaxLen(k) && Accepted(Texts(q)[k])
  {
    assert !Wrong(q, FieldError(TextField(k), TooLong));
    assert !Wrong(q, FieldError(TextField(k), BadMarkup(UnbalancedBold)));
    assert !Wrong(q, FieldError(TextField(k), BadMarkup(UnbalancedItalic)));
    assert !Wrong(q, FieldError(TextField(k), BadMarkup(EmptyMarkup)));
  }

  /** A question without errors sits where the fixed layout puts its section. */
  lemma OkFitsSection(q: Draft)
    requires FieldsOk(q)
    ensures 1 <= q.position <= EXPECTED_ROW_COUNT
    ensures SectionForPosition(q.position) == FromName(q.section) != None
    ensures q.section == Name(SectionForPosition(q.position).value)
  {
    RangesTile(q.position, FromName(q.section).value);
  }

  // ---------- Keys ----------

  /** The letter of the right option, of either case. */
  predicate IsKey(key: string, option: string) {
    || (option == "A" && (key == "A" || key == "a"))
    || (option == "B" && (key == "B" || key == "b"))
    || (option == "C" && (key == "C" || key == "c"))
    || (option == "D" && (key == "D" || key == "d"))
  }

  lemma KeyIff(key: string, option: string)
    ensures IsKey(key, option) <==> option in OPTIONS && Upper(key) == option
  {
    if option in OPTIONS && Upper(key) == option {
      assert |key| == 1 && Upper(key)[0] == UpperChar(key[0]);
      assert key == [key[0]];
    }
    if IsKey(key, option) {
      assert Upper(key)[0] == option[0];
      assert Upper(key) == option;
    }
  }

  // ---------- The caption budget ----------

  /** The message body of a question (`_question_body`). */
  function Body(q: Draft): string {
    RenderMarkup(Some(q.text))
    + "\n\nA. " + RenderMarkup(Some(q.a))
    + "\nB. " + RenderMarkup(Some(q.b))
    + "\nC. " + RenderMarkup(Some(q.c))
    + "\nD. " + RenderMarkup(Some(q.d))
  }

  predicate Plain(t: string) {
    NoJoin(BoldGlyphs(t), ITALIC_MARKER) && Strip(t) == t
  }

  /** Whatever follows it, the part shows this text. */
  ghost predicate ShowsAs(part: string, shown: string) {
    forall rest: string :: Decode(part + rest) == shown + Decode(rest)
  }

  lemma RenderedShows(t: string)
    requires NoJoin(BoldGlyphs(t), ITALIC_MARKER)
    ensures ShowsAs(RenderMarkup(Some(t)), WithoutMarkers(t))
  {
    forall rest: string ensures Decode(RenderMarkup(Some(t)) + rest) == WithoutMarkers(t) + Decode(rest) {
      DecodeRenderedThen(t, rest);
    }
  }

  lemma PlainShows(part: string)
    requires '<' !in part && '&' !in part
    ensures ShowsAs(part, part)
  {
    forall rest: string ensures Decode(part + rest) == part + Decode(rest) { DecodePlain(part, rest); }
  }

  lemma ShowsConcat(p: string, s: string, q: string, t: string)
    requires ShowsAs(p, s) && ShowsAs(q, t)
    ensures ShowsAs(p + q, s + t)
  {
    forall rest: string ensures Decode((p + q) + rest) == s + t + Decode(rest) {
      Associate(p, q, rest);
      assert Decode(p + (q + rest)) == s + Decode(q + rest);
      Associate(s, t, Decode(rest));
    }
  }

  /** One more labelled option. */
  lemma ShowsOption(before: string, s: string, prefix: string, option: string, t: string)
    requires ShowsAs(before, s) && ShowsAs(option, t) && '<' !in prefix && '&' !in prefix
    ensures ShowsAs(before + prefix + option, s + prefix + t)
  {
    PlainShows(prefix);
    ShowsConcat(before, s, prefix, prefix);
    ShowsConcat(before + prefix, s + prefix, option, t);
  }

  lemma ShowsAlone(html: string, shown: string)
    requires ShowsAs(html, shown)
    ensures Decode(html) == shown
  {
    assert html + "" == html && shown + "" == shown;
  }

  lemma BodyShowsAs(text: string, a: string, b: string, c: string, d: string,
                    s: string, sa: string, sb: string, sc: string, sd: string)
    requires ShowsAs(text, s) && ShowsAs(a, sa) && ShowsAs(b, sb) && ShowsAs(c, sc) && ShowsAs(d, sd)
    ensures ShowsAs(text + "\n\nA. " + a + "\nB. " + b + "\nC. " + c + "\nD. " + d,
                    s + "\n\nA. " + sa + "\nB. " + sb + "\nC. " + sc + "\nD. " + sd)
  {
    hide ShowsAs;
    var toA, shownA := text + "\n\nA. " + a, s + "\n\nA. " + sa;
    var toB, shownB := toA + "\nB. " + b, shownA + "\nB. " + sb;
    var toC, shownC := toB + "\nC. " + c, shownB + "\nC. " + sc;
    ShowsOption(text, s, "\n\nA. ", a, sa);
    ShowsOption(toA, shownA, "\nB. ", b, sb);
    ShowsOption(toB, shownB, "\nC. ", c, sc);
    ShowsOption(toC, shownC, "\nD. ", d, sd);
  }

  /** What the student reads: the question, then each option behind its own letter, without the markers. */
  lemma BodyShown(q: Draft)
    requires forall k :: 0 <= k < 5 ==> NoJoin(BoldGlyphs(Texts(q)[k]), ITALIC_MARKER)
    ensures Decode(Body(q))
            == WithoutMarkers(q.text) + "\n\nA. " + WithoutMarkers(q.a) + "\nB. " + WithoutMarkers(q.b)
               + "\nC. " + WithoutMarkers(q.c) + "\nD. " + WithoutMarkers(q.d)
  {
    hide NoJoin, WithoutMarkers, RenderMarkup, ShowsAs, Decode;
    var ts := Texts(q);
    assert ts[0] == q.text && ts[1] == q.a && ts[2] == q.b && ts[3] == q.c && ts[4] == q.d;
    RenderedShows(q.text);
    RenderedShows(q.a);
    RenderedShows(q.b);
    RenderedShows(q.c);
    RenderedShows(q.d);
    BodyShowsAs(RenderMarkup(Some(q.text)), RenderMarkup(Some(q.a)), RenderMarkup(Some(q.b)), RenderMarkup(Some(q.c)),
                RenderMarkup(Some(q.d)), WithoutMarkers(q.text), WithoutMarkers(q.a), WithoutMarkers(q.b),
                WithoutMarkers(q.c), WithoutMarkers(q.d));
    ShowsAlone(Body(q), WithoutMarkers(q.text) + "\n\nA. " + WithoutMarkers(q.a) + "\nB. " + WithoutMarkers(q.b)
                        + "\nC. " + WithoutMarkers(q.c) + "\nD. " + WithoutMarkers(q.d));
  }

  /** The budget measures what is shown: for stripped texts in which deleting the bold markers joins
      no underscores, the caption block is exactly as long as the body that the student sees. */
  lemma BudgetIsShownLength(q: Draft)
    requires Plain(q.text) && Plain(q.a) && Plain(q.b) && Plain(q.c) && Plain(q.d)
    ensures |Decode(Body(q))| == CaptionBlockLength(q)
  {
    hide NoJoin, WithoutMarkers, Body, Decode;
    BodyShown(q);
  }

  /** So an image question that validates fits a caption of 1024 with any header of up to 172. */
  lemma CaptionFits(q: Draft, header: string)
    requires FieldsOk(q) && q.hasImage && Plain(q.text) && Plain(q.a) && Plain(q.b) && Plain(q.c) && Plain(q.d)
    requires '<' !in header && '&' !in header && |header| <= 172
    ensures |Decode(header + (BLANK_LINE + Body(q)))| <= 1024
  {
    BudgetIsShownLength(q);
    WithHeader(header, Body(q));
  }

  const BLANK_LINE := "\n\n"

  lemma WithHeader(header: string, body: string)
    requires '<' !in header && '&' !in header
    ensures |Decode(header + (BLANK_LINE + body))| == |header| + 2 + |Decode(body)|
  {
    DecodePlain(header, BLANK_LINE + body);
    DecodePlain(BLANK_LINE, body);
  }

  // ---------- Whole tests ----------

  datatype TestError =
    | WrongCount(found: nat)
    | RepeatedPosition(position: int)
    | WrongSectionCount(section: Section, found: nat)

  function Positions(qs: seq<Draft>): (ps: seq<int>)
    ensures |ps| == |qs|
    ensures forall i :: 0 <= i < |qs| ==> ps[i] == qs[i].position
  {
    seq(|qs|, i requires 0 <= i < |qs| => qs[i].position)
  }

  function InSection(qs: seq<Draft>, s: Section): nat {
    if qs == [] then 0
    else InSection(qs[..|qs| - 1], s) + if qs[|qs| - 1].section == Name(s) then 1 else 0
  }

  /** Fifty questions, each position once, 35 + 10 + 5. */
  ghost predicate Complete(qs: seq<Draft>) {
    && |qs| == EXPECTED_ROW_COUNT && Distinct(Positions(qs))
    && (forall s :: InSection(qs, s) == Expected(s))
  }

  const SECTIONS: seq<Section> := [RusTili, Pedagogik, Kasbiy]

  method CountSection(qs: seq<Draft>, s: Section) returns (n: nat)
    ensures n == InSection(qs, s)
  {
    n := 0;
    for i := 0 to |qs|
      invariant n == InSection(qs[..i], s)
    {
      assert qs[..i + 1][..i] == qs[..i];
      if qs[i].section == Name(s) {
        n := n + 1;
      }
    }
    assert qs[..|qs|] == qs;
  }

  /** The position of question i was used before it. */
  predicate Repeats(qs: seq<Draft>, i: nat)
    requires i < |qs|
  {
    exists j :: 0 <= j < i && qs[j].position == qs[i].position
  }

  method ValidateTestCompleteness(qs: seq<Draft>) returns (errors: seq<TestError>)
    ensures errors == [] <==> Complete(qs)
    ensures WrongCount(|qs|) in errors <==> |qs| != EXPECTED_ROW_COUNT
    ensures forall p ::
             RepeatedPosition(p) in errors <==> exists i :: 0 <= i < |qs| && qs[i].position == p && Repeats(qs, i)
    ensures forall s, n ::
             WrongSectionCount(s, n) in errors
             <==> |qs| == EXPECTED_ROW_COUNT && n == InSection(qs, s) && n != Expected(s)
  {
    errors := [];
    if |qs| != EXPECTED_ROW_COUNT {
      errors := [WrongCount(|qs|)];
    }
    var seen: set<int> := {};
    for i := 0 to |qs|
      invariant forall p :: p in seen <==> exists j :: 0 <= j < i && qs[j].position == p
      invariant forall n :: WrongCount(n) in errors <==> n == |qs| && |qs| != EXPECTED_ROW_COUNT
      invariant forall p ::
                 RepeatedPosition(p) in errors <==> exists j :: 0 <= j < i && qs[j].position == p && Repeats(qs, j)
      invariant forall s, n :: WrongSectionCount(s, n) !in errors
    {
      if qs[i].position in seen {
        errors := errors + [RepeatedPosition(qs[i].position)];
      }
      seen := seen + {qs[i].position};
    }
    ghost var before := errors;
    if |qs| == EXPECTED_ROW_COUNT {
      for k := 0 to 3
        invariant forall n :: WrongCount(n) in errors <==> WrongCount(n) in before
        invariant forall p :: RepeatedPosition(p) in errors <==> RepeatedPosition(p) in before
        invariant forall s, n ::
                   WrongSectionCount(s, n) in errors
                   <==> s in SECTIONS[..k] && n == InSection(qs, s) && n != Expected(s)
      {
        var s := SECTIONS[k];
        var actual := CountSection(qs, s);
        assert SECTIONS[..k + 1] == SECTIONS[..k] + [s];
        if actual != Expected(s) {
          errors := errors + [WrongSectionCount(s, actual)];
        }
      }
    }
    AllSections();
    CompletenessErrors(qs, errors);
  }

  lemma AllSections()
    ensures forall s :: s in SECTIONS[..3]
  {
    var l := SECTIONS[..3];
    assert l[0] == RusTili && l[1] == Pedagogik && l[2] == Kasbiy;
    forall s ensures s in l {
      match s
      case RusTili =>
      case Pedagogik =>
      case Kasbiy =>
    }
  }

  lemma RepeatBreaksDistinct(qs: seq<Draft>, j: nat, i: nat)
    requires j < i < |qs| && qs[j].position == qs[i].position
    ensures !Distinct(Positions(qs))
  {
    assert Positions(qs)[j] == Positions(qs)[i];
  }

  lemma RepeatsLater(qs: seq<Draft>, i: nat, j: nat)
    requires i < j < |qs|
    ensures qs[i].position == qs[j].position ==> Repeats(qs, j)
  {
  }

  lemma CompletenessErrors(qs: seq<Draft>, errors: seq<TestError>)
    requires forall n :: WrongCount(n) in errors <==> n == |qs| && |qs| != EXPECTED_ROW_COUNT
    requires forall p ::
              RepeatedPosition(p) in errors <==> exists i :: 0 <= i < |qs| && qs[i].position == p && Repeats(qs, i)
    requires forall s, n ::
              WrongSectionCount(s, n) in errors
              <==> |qs| == EXPECTED_ROW_COUNT && n == InSection(qs, s) && n != Expected(s)
    ensures errors == [] <==> Complete(qs)
  {
    if errors == [] {
      assert WrongCount(|qs|) !in errors;
      forall i, j | 0 <= i < j < |qs| ensures Positions(qs)[i] != Positions(qs)[j] {
        RepeatsLater(qs, i, j);
        assert RepeatedPosition(qs[j].position) !in errors;
      }
      forall s ensures InSection(qs, s) == Expected(s) { assert WrongSectionCount(s, InSection(qs, s)) !in errors; }
    } else {
      var e := errors[0];
      assert e in errors;
      match e {
        case RepeatedPosition(p) =>
          var i :| 0 <= i < |qs| && qs[i].position == p && Repeats(qs, i);
          var j :| 0 <= j < i && qs[j].position == qs[i].position;
          RepeatBreaksDistinct(qs, j, i);
        case _ =>
      }
    }
  }

  /** Every question sits in the section of its position. */
  ghost predicate Placed(qs: seq<Draft>) {
    forall i :: 0 <= i < |qs| ==> SectionForPosition(qs[i].position).Some?
                                  && qs[i].section == Name(SectionForPosition(qs[i].position).value)
  }

  lemma {:induction false} InSectionIsCount(qs: seq<Draft>, s: Section)
    requires Placed(qs)
    ensures InSection(qs, s) == CountIn(Positions(qs), Lo(s), Hi(s))
  {
    if qs != [] {
      var n := |qs| - 1;
      InSectionIsCount(qs[..n], s);
      assert Positions(qs)[..n] == Positions(qs[..n]);
      RangesTile(qs[n].position, s);
      NamesDiffer(s, SectionForPosition(qs[n].position).value);
    }
  }

  lemma NamesDiffer(s: Section, t: Section)
    ensures Name(s) == Name(t) <==> s == t
  {
    assert |Name(RusTili)| == 8 && |Name(Pedagogik)| == 9 && |Name(Kasbiy)| == 6;
  }

  /** With every question in its place the 35/10/5 check can never fail on its own: fifty different
      positions are enough. */
  lemma CompleteIff(qs: seq<Draft>)
    requires Placed(qs)
    ensures Complete(qs) <==> |qs| == EXPECTED_ROW_COUNT && Distinct(Positions(qs))
    ensures Complete(qs) ==> AllPositions(Positions(qs))
  {
    if |qs| == EXPECTED_ROW_COUNT && Distinct(Positions(qs)) {
      forall i | 0 <= i < |qs| ensures 1 <= Positions(qs)[i] <= EXPECTED_ROW_COUNT {
        assert SectionForPosition(qs[i].position).Some?;
      }
      forall s ensures InSection(qs, s) == Expected(s) {
        Pigeonhole(Positions(qs), s);
        InSectionIsCount(qs, s);
      }
      Pigeonhole(Positions(qs), RusTili);
    }
  }
}
