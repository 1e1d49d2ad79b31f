/** The fifty-card editor form (`app/web/forms.py`). Sections are not typed: they follow from the
    position, so no form can break the 35/10/5 split. */
module TestForm {
  import opened Common
  import opened Text
  import opened Sections
  import opened Questions

  const MAX_TITLE_LEN: nat := 200

  /** The form keys `q<position>_text`, `_a` to `_d`, `_correct` and `_has_image`. */
  datatype Part = TextPart | OptionPart(k: nat) | CorrectPart | ImagePart
  datatype Key = TitleKey | CardKey(position: int, part: Part)

  /** A posted value; an uploaded file is no text. */
  datatype Value = Typed(s: string) | Upload

  type FormData = map<Key, Value>

  datatype Card = Card(text: string, a: string, b: string, c: string, d: string, correct: string, hasImage: bool)

  datatype FormProblem = Required | NoCorrect | Semantic(problem: Problem)

  datatype TitleError = MissingTitle | TitleTooLong

  datatype Form = Form(
    title: string,
    drafts: seq<Draft>,
    fieldErrors: map<int, map<Field, FormProblem>>,
    formErrors: seq<TitleError>)

  // ---------- Cards ----------

  function Get(data: FormData, key: Key): string {
    if key in data && data[key].Typed? then Strip(data[key].s) else ""
  }

  function CardAt(data: FormData, pos: int): Card {
    var get := part => Get(data, CardKey(pos, part));
    Card(get(TextPart), get(OptionPart(0)), get(OptionPart(1)), get(OptionPart(2)), get(OptionPart(3)),
         Upper(get(CorrectPart)), CardKey(pos, ImagePart) in data && data[CardKey(pos, ImagePart)] == Typed("1"))
  }

  function Inputs(card: Card): (s: seq<string>)
    ensures |s| == 6
  {
    [card.text, card.a, card.b, card.c, card.d, card.correct]
  }

  /** A card with nothing typed is left out; the image box alone does not count. */
  predicate Untouched(card: Card) {
    forall k :: 0 <= k < 6 ==> Inputs(card)[k] == ""
  }

  predicate Filled(card: Card) {
    forall k :: 0 <= k < 6 ==> Inputs(card)[k] != ""
  }

  function DraftOf(pos: int, card: Card): Draft
    requires 1 <= pos <= EXPECTED_ROW_COUNT
  {
    RangesTile(pos, RusTili);
    Draft(Name(SectionForPosition(pos).value), pos, card.text, card.a, card.b, card.c, card.d, card.correct,
          card.hasImage)
  }

  predicate Good(pos: int, card: Card)
    requires 1 <= pos <= EXPECTED_ROW_COUNT
  {
    Filled(card) && FieldsOk(DraftOf(pos, card))
  }

  function InputField(k: nat): Field {
    if k < 5 then TextField(k) else CorrectField
  }

  /** The messages a card deserves: what is missing, or else what is wrong. */
  ghost predicate Deserves(pos: int, card: Card, f: Field, p: FormProblem)
    requires 1 <= pos <= EXPECTED_ROW_COUNT
  {
    if Filled(card) then p.Semantic? && Wrong(DraftOf(pos, card), FieldError(f, p.problem))
    else exists k :: MissingInput(card, k) && f == InputField(k) && p == if k < 5 then Required else NoCorrect
  }

  predicate MissingInput(card: Card, k: nat) {
    k < 6 && Inputs(card)[k] == ""
  }

  /** A field has a message exactly if it deserves one, and then one that it deserves. */
  ghost predicate Explains(pos: int, card: Card, errors: map<Field, FormProblem>)
    requires 1 <= pos <= EXPECTED_ROW_COUNT
  {
    && (forall f :: f in errors ==> Deserves(pos, card, f, errors[f]))
    && (forall f, p :: Deserves(pos, card, f, p) ==> f in errors)
  }

  datatype Outcome = Skipped | Faulty(errors: map<Field, FormProblem>) | Accepted(draft: Draft)

  method ParseCard(pos: int, card: Card) returns (o: Outcome)
    requires 1 <= pos <= EXPECTED_ROW_COUNT
    ensures o == Skipped <==> Untouched(card)
    ensures o.Accepted? <==> Good(pos, card)
    ensures o.Accepted? ==> o.draft == DraftOf(pos, card)
    ensures o.Faulty? ==> Explains(pos, card, o.errors) && o.errors != map[]
  {
    hide FieldsOk, Wrong, Reported;
    var inputs := Inputs(card);
    NotBoth(pos, card);
    if forall k :: 0 <= k < 6 ==> inputs[k] == "" {
      return Skipped;
    }
    var errors := MissingFields(card);
    if errors != map[] {
      MissingExplains(pos, card, errors);
      return Faulty(errors);
    }
    var draft := DraftOf(pos, card);
    var semantic := ValidateQuestionFields(draft);
    if |semantic| > 0 {
      errors := ByField(semantic);
      WrongExplains(pos, card, semantic, errors);
      return Faulty(errors);
    }
    return Accepted(draft);
  }

  method MissingFields(card: Card) returns (errors: map<Field, FormProblem>)
    ensures errors == map[] <==> Filled(card)
    ensures forall f :: f in errors <==> exists k :: MissingInput(card, k) && f == InputField(k)
    ensures forall k :: MissingInput(card, k) ==>
                          InputField(k) in errors && errors[InputField(k)] == if k < 5 then Required else NoCorrect
  {
    var inputs := Inputs(card);
    errors := map[];
    for k := 0 to 6
      invariant errors == map[] <==> forall j :: 0 <= j < k ==> inputs[j] != ""
      invariant forall f :: f in errors <==> exists j :: 0 <= j < k && inputs[j] == "" && f == InputField(j)
      invariant forall j :: 0 <= j < k && inputs[j] == "" ==>
                              InputField(j) in errors && errors[InputField(j)] == if j < 5 then Required else NoCorrect
    {
      if inputs[k] == "" {
        errors := errors[InputField(k) := if k < 5 then Required else NoCorrect];
        assert InputField(k) in errors;
      }
    }
    forall f ensures f in errors <==> exists k :: MissingInput(card, k) && f == InputField(k) {
      if f in errors {
        var j :| 0 <= j < 6 && inputs[j] == "" && f == InputField(j);
        assert MissingInput(card, j);
      }
    }
  }

  lemma MissingExplains(pos: int, card: Card, errors: map<Field, FormProblem>)
    requires 1 <= pos <= EXPECTED_ROW_COUNT && !Filled(card)
    requires forall f :: f in errors <==> exists k :: MissingInput(card, k) && f == InputField(k)
    requires forall k :: MissingInput(card, k) ==>
                           InputField(k) in errors && errors[InputField(k)] == if k < 5 then Required else NoCorrect
    ensures Explains(pos, card, errors)
  {
    hide FieldsOk, Wrong, DraftOf;
    forall f | f in errors ensures Deserves(pos, card, f, errors[f]) {
      var k :| MissingInput(card, k) && f == InputField(k);
    }
  }

  /** A dictionary by field: a later message for the same field replaces an earlier one. */
  method ByField(semantic: seq<FieldError>) returns (errors: map<Field, FormProblem>)
    ensures forall f :: f in errors ==> errors[f].Semantic? && FieldError(f, errors[f].problem) in semantic
    ensures forall e :: e in semantic ==> e.field in errors
  {
    errors := map[];
    for i := 0 to |semantic|
      invariant forall f :: f in errors ==> errors[f].Semantic? && FieldError(f, errors[f].problem) in semantic[..i]
      invariant forall e :: e in semantic[..i] ==> e.field in errors
    {
      assert semantic[..i + 1] == semantic[..i] + [semantic[i]];
      errors := errors[semantic[i].field := Semantic(semantic[i].problem)];
    }
    assert semantic[..|semantic|] == semantic;
  }

  lemma WrongExplains(pos: int, card: Card, semantic: seq<FieldError>, errors: map<Field, FormProblem>)
    requires 1 <= pos <= EXPECTED_ROW_COUNT && Filled(card)
    requires Reported(DraftOf(pos, card), semantic, 14) && |semantic| > 0
    requires forall f :: f in errors ==> errors[f].Semantic? && FieldError(f, errors[f].problem) in semantic
    requires forall e :: e in semantic ==> e.field in errors
    ensures Explains(pos, card, errors) && errors != map[]
  {
    hide FieldsOk, Wrong, DraftOf, Filled;
    var q := DraftOf(pos, card);
    forall f, p | Deserves(pos, card, f, p) ensures f in errors {
      StagesEnd(q, FieldError(f, p.problem));
      assert FieldError(f, p.problem) in semantic;
    }
    assert semantic[0] in semantic;
  }

  // ---------- The form ----------

  /** The drafts of the good cards up to a position, in order. */
  function GoodDrafts(data: FormData, n: nat): seq<Draft>
    requires n <= EXPECTED_ROW_COUNT
  {
    if n == 0 then []
    else GoodDrafts(data, n - 1) + if Good(n, CardAt(data, n)) then [DraftOf(n, CardAt(data, n))] else []
  }

  predicate IsFaulty(data: FormData, pos: int)
    requires 1 <= pos <= EXPECTED_ROW_COUNT
  {
    !Untouched(CardAt(data, pos)) && !Good(pos, CardAt(data, pos))
  }

  ghost predicate ErrorsThrough(data: FormData, n: nat, errors: map<int, map<Field, FormProblem>>)
    requires n <= EXPECTED_ROW_COUNT
  {
    && (forall pos :: pos in errors <==> 1 <= pos <= n && IsFaulty(data, pos))
    && (forall pos :: pos in errors && 1 <= pos <= n ==>
          Explains(pos, CardAt(data, pos), errors[pos]) && errors[pos] != map[])
  }

  // ---------- What a form asks for ----------

  /** The text typed under a key, without the blanks around it; nothing where nothing was typed. */
  ghost predicate Says(data: FormData, key: Key, text: string) {
    if key in data && data[key].Typed? then Padded(data[key].s, text) else text == ""
  }

  ghost predicate SaysText(data: FormData, key: Key, text: string) {
    Says(data, key, text) && text != ""
  }

  /** The form holds this question: each part under its own key, the section from the position. */
  ghost predicate Asks(data: FormData, q: Draft) {
    var p := q.position;
    && 1 <= p <= 50
    && q.section == (if p <= 35 then "rus_tili" else if p <= 45 then "pedagogik" else "kasbiy")
    && SaysText(data, CardKey(p, TextPart), q.text)
    && SaysText(data, CardKey(p, OptionPart(0)), q.a) && SaysText(data, CardKey(p, OptionPart(1)), q.b)
    && SaysText(data, CardKey(p, OptionPart(2)), q.c) && SaysText(data, CardKey(p, OptionPart(3)), q.d)
    && (exists key :: Says(data, CardKey(p, CorrectPart), key) && IsKey(key, q.correct))
    && (q.hasImage <==> CardKey(p, ImagePart) in data && data[CardKey(p, ImagePart)] == Typed("1"))
  }

  /** Something other than the image box was filled in. */
  ghost predicate Touched(data: FormData, pos: int) {
    exists part, text :: part in PARTS && SaysText(data, CardKey(pos, part), text)
  }

  const PARTS: seq<Part> :=
    [TextPart, OptionPart(0), OptionPart(1), OptionPart(2), OptionPart(3), CorrectPart]

  lemma SaysIff(data: FormData, key: Key, text: string)
    ensures Says(data, key, text) <==> Get(data, key) == text
  {
    hide Padded, Strip;
    if key in data && data[key].Typed? { StripIff(data[key].s, text); }
  }

  lemma OneText(data: FormData, key: Key)
    ensures forall text :: Says(data, key, text) <==> Get(data, key) == text
  {
    hide Says, Get;
    forall text ensures Says(data, key, text) <==> Get(data, key) == text { SaysIff(data, key, text); }
  }

  lemma KeyTyped(data: FormData, key: Key, option: string)
    requires option in OPTIONS
    ensures (exists letter :: Says(data, key, letter) && IsKey(letter, option))
            <==> Upper(Get(data, key)) == option
  {
    hide Says, Get, IsKey, Upper;
    OneText(data, key);
    KeyIff(Get(data, key), option);
  }

  lemma SectionNames(p: int)
    requires 1 <= p <= EXPECTED_ROW_COUNT
    ensures SectionForPosition(p).Some?
    ensures Name(SectionForPosition(p).value)
            == if p <= 35 then "rus_tili" else if p <= 45 then "pedagogik" else "kasbiy"
  {
  }

  /** A good card is the question that the form asks for at its position. */
  lemma AsksIff(data: FormData, pos: int, q: Draft)
    requires 1 <= pos <= EXPECTED_ROW_COUNT
    ensures q.position == pos && Asks(data, q) && FieldsOk(q)
            <==> Good(pos, CardAt(data, pos)) && q == DraftOf(pos, CardAt(data, pos))
  {
    hide Says, Get, IsKey, Upper, SectionForPosition, Name;
    var card := CardAt(data, pos);
    SectionNames(pos);
    OneText(data, CardKey(pos, TextPart));
    OneText(data, CardKey(pos, OptionPart(0)));
    OneText(data, CardKey(pos, OptionPart(1)));
    OneText(data, CardKey(pos, OptionPart(2)));
    OneText(data, CardKey(pos, OptionPart(3)));
    if q.correct in OPTIONS { KeyTyped(data, CardKey(pos, CorrectPart), q.correct); }
    FilledParts(card);
  }

  lemma FilledParts(card: Card)
    ensures Filled(card) <==> card.text != "" && card.a != "" && card.b != "" && card.c != "" && card.d != ""
                              && card.correct != ""
    ensures Untouched(card) <==> card.text == card.a == card.b == card.c == card.d == card.correct == ""
  {
    var s := Inputs(card);
    assert s[0] == card.text && s[1] == card.a && s[2] == card.b && s[3] == card.c && s[4] == card.d;
    assert s[5] == card.correct;
  }

  lemma InputTyped(data: FormData, pos: int, k: nat)
    requires k < 6
    ensures Inputs(CardAt(data, pos))[k] != "" <==>
            exists text :: SaysText(data, CardKey(pos, PARTS[k]), text)
  {
    hide Says, Get, Upper;
    var get := Get(data, CardKey(pos, PARTS[k]));
    OneText(data, CardKey(pos, PARTS[k]));
    assert get != "" ==> SaysText(data, CardKey(pos, PARTS[k]), get);
    assert |Upper(get)| == |get|;
    assert k == 0 || k == 1 || k == 2 || k == 3 || k == 4 || k == 5;
  }

  lemma TouchedIff(data: FormData, pos: int)
    ensures Touched(data, pos) <==> !Untouched(CardAt(data, pos))
  {
    hide SaysText, CardAt;
    var card := CardAt(data, pos);
    forall k | 0 <= k < 6
      ensures Inputs(card)[k] != "" <==> exists text :: SaysText(data, CardKey(pos, PARTS[k]), text)
    {
      InputTyped(data, pos, k);
    }
    if Touched(data, pos) {
      var part, text :| part in PARTS && SaysText(data, CardKey(pos, part), text);
      var k :| 0 <= k < |PARTS| && PARTS[k] == part;
      assert Inputs(card)[k] != "";
    }
    if !Untouched(card) {
      var k :| 0 <= k < 6 && Inputs(card)[k] != "";
      var text :| SaysText(data, CardKey(pos, PARTS[k]), text);
      assert PARTS[k] in PARTS;
    }
  }

  /** The drafts are exactly the questions that the form asks for and the contract allows. */
  lemma {:induction false} DraftsAsked(data: FormData, n: nat, q: Draft)
    requires n <= EXPECTED_ROW_COUNT
    ensures q in GoodDrafts(data, n) <==> q.position <= n && Asks(data, q) && FieldsOk(q)
  {
    hide Asks, FieldsOk, Good, CardAt, DraftOf;
    if n > 0 {
      DraftsAsked(data, n - 1, q);
      AsksIff(data, n, q);
    } else {
      NotBelowOne(data, q);
    }
  }

  lemma NotBelowOne(data: FormData, q: Draft)
    ensures Asks(data, q) ==> 1 <= q.position <= EXPECTED_ROW_COUNT
  {
  }

  lemma AllAsked(data: FormData)
    ensures forall q :: q in GoodDrafts(data, EXPECTED_ROW_COUNT) <==> Asks(data, q) && FieldsOk(q)
  {
    hide Asks, FieldsOk, GoodDrafts;
    forall q ensures q in GoodDrafts(data, EXPECTED_ROW_COUNT) <==> Asks(data, q) && FieldsOk(q) {
      DraftsAsked(data, EXPECTED_ROW_COUNT, q);
      NotBelowOne(data, q);
    }
  }

  /** A card is faulty exactly if something was typed and no question of the contract came of it. */
  lemma FaultyIff(data: FormData, pos: int)
    requires 1 <= pos <= EXPECTED_ROW_COUNT
    ensures IsFaulty(data, pos)
            <==> Touched(data, pos) && forall q :: Asks(data, q) && FieldsOk(q) ==> q.position != pos
  {
    hide Asks, FieldsOk, Good, CardAt, DraftOf, Touched, Untouched;
    TouchedIff(data, pos);
    forall q: Draft
      ensures q.position == pos && Asks(data, q) && FieldsOk(q)
              <==> Good(pos, CardAt(data, pos)) && q == DraftOf(pos, CardAt(data, pos))
    {
      AsksIff(data, pos, q);
    }
    var d := DraftOf(pos, CardAt(data, pos));
    assert Good(pos, CardAt(data, pos)) ==> d.position == pos && Asks(data, d) && FieldsOk(d);
  }

  /** The drafts are exactly the questions that the form asks for and the contract allows, by position. */
  ghost predicate Yields(data: FormData, drafts: seq<Draft>) {
    && (forall q :: q in drafts <==> Asks(data, q) && FieldsOk(q))
    && (forall i, j :: 0 <= i < j < |drafts| ==> drafts[i].position < drafts[j].position)
  }

  /** The cards with messages are exactly those with something typed that yield no question. */
  ghost predicate Blames(data: FormData, errors: map<int, map<Field, FormProblem>>) {
    forall pos :: pos in errors <==> 1 <= pos <= EXPECTED_ROW_COUNT && Touched(data, pos)
                                     && forall q :: Asks(data, q) && FieldsOk(q) ==> q.position != pos
  }

  lemma YieldsAsked(data: FormData)
    ensures Yields(data, GoodDrafts(data, EXPECTED_ROW_COUNT))
  {
    hide Asks, FieldsOk, GoodDrafts, Good, CardAt, Placed;
    AllAsked(data);
    GoodDraftsPlaced(data, EXPECTED_ROW_COUNT);
  }

  lemma BlamesFaulty(data: FormData, errors: map<int, map<Field, FormProblem>>)
    requires ErrorsThrough(data, EXPECTED_ROW_COUNT, errors)
    ensures Blames(data, errors)
  {
    hide Asks, FieldsOk, IsFaulty, Touched, Explains, CardAt;
    forall pos
      ensures pos in errors <==> 1 <= pos <= EXPECTED_ROW_COUNT && Touched(data, pos)
                                 && forall q :: Asks(data, q) && FieldsOk(q) ==> q.position != pos
    {
      if 1 <= pos <= EXPECTED_ROW_COUNT { FaultyIff(data, pos); }
    }
  }

  method ParseTestForm(data: FormData) returns (form: Form)
    ensures form.title == Get(data, TitleKey)
    ensures form.formErrors == [] <==> 1 <= |form.title| <= MAX_TITLE_LEN
    ensures MissingTitle in form.formErrors <==> form.title == ""
    ensures TitleTooLong in form.formErrors <==> |form.title| > MAX_TITLE_LEN
    ensures form.drafts == GoodDrafts(data, EXPECTED_ROW_COUNT)
    ensures ErrorsThrough(data, EXPECTED_ROW_COUNT, form.fieldErrors)
    ensures Says(data, TitleKey, form.title) && Yields(data, form.drafts) && Blames(data, form.fieldErrors)
  {
    SaysIff(data, TitleKey, Get(data, TitleKey));
    hide CardAt, Good, DraftOf, Untouched, Explains, GoodDrafts, ErrorsThrough, Yields, Blames, Says;
    var title := Get(data, TitleKey);
    var formErrors: seq<TitleError> := [];
    if title == "" {
      formErrors := [MissingTitle];
    } else if |title| > MAX_TITLE_LEN {
      formErrors := [TitleTooLong];
    }
    var drafts: seq<Draft> := [];
    var fieldErrors: map<int, map<Field, FormProblem>> := map[];
    NothingYet(data);
    for pos := 1 to EXPECTED_ROW_COUNT + 1
      invariant drafts == GoodDrafts(data, pos - 1)
      invariant ErrorsThrough(data, pos - 1, fieldErrors)
    {
      var outcome := ParseCard(pos, CardAt(data, pos));
      OneCardMore(data, pos, fieldErrors, outcome);
      match outcome {
        case Skipped =>
        case Faulty(errors) => fieldErrors := fieldErrors[pos := errors];
        case Accepted(draft) => drafts := drafts + [draft];
      }
    }
    YieldsAsked(data);
    BlamesFaulty(data, fieldErrors);
    return Form(title, drafts, fieldErrors, formErrors);
  }

  lemma NothingYet(data: FormData)
    ensures GoodDrafts(data, 0) == [] && ErrorsThrough(data, 0, map[])
  {
  }

  lemma OneCardMore(data: FormData, pos: int, errors: map<int, map<Field, FormProblem>>, o: Outcome)
    requires 1 <= pos <= EXPECTED_ROW_COUNT && ErrorsThrough(data, pos - 1, errors)
    requires (o == Skipped <==> Untouched(CardAt(data, pos))) && (o.Accepted? <==> Good(pos, CardAt(data, pos)))
    requires o.Accepted? ==> o.draft == DraftOf(pos, CardAt(data, pos))
    requires o.Faulty? ==> Explains(pos, CardAt(data, pos), o.errors) && o.errors != map[]
    ensures GoodDrafts(data, pos) == GoodDrafts(data, pos - 1) + if o.Accepted? then [o.draft] else []
    ensures ErrorsThrough(data, pos, if o.Faulty? then errors[pos := o.errors] else errors)
  {
    hide CardAt, Good, DraftOf, Untouched, Explains;
    NotBoth(pos, CardAt(data, pos));
  }

  lemma NotBoth(pos: int, card: Card)
    requires 1 <= pos <= EXPECTED_ROW_COUNT
    ensures !(Untouched(card) && Good(pos, card))
  {
    assert Inputs(card)[0] == card.text;
  }

  // ---------- What a form yields ----------

  lemma {:induction false} GoodDraftsPlaced(data: FormData, n: nat)
    requires n <= EXPECTED_ROW_COUNT
    ensures var qs := GoodDrafts(data, n);
            && |qs| <= n && Placed(qs)
            && (forall i :: 0 <= i < |qs| ==> 1 <= qs[i].position <= n && FieldsOk(qs[i]))
            && (forall i, j :: 0 <= i < j < |qs| ==> qs[i].position < qs[j].position)
            && (|qs| == n <==> forall pos :: 1 <= pos <= n ==> Good(pos, CardAt(data, pos)))
  {
    hide CardAt, FieldsOk, Good, DraftOf, SectionForPosition, Name;
    if n > 0 {
      DraftInPlace(n, CardAt(data, n));
      GoodDraftsPlaced(data, n - 1);
    }
  }

  lemma DraftInPlace(pos: int, card: Card)
    requires 1 <= pos <= EXPECTED_ROW_COUNT
    ensures var q := DraftOf(pos, card);
            && q.position == pos && SectionForPosition(pos).Some? && q.section == Name(SectionForPosition(pos).value)
            && (Good(pos, card) ==> FieldsOk(q))
  {
    hide FieldsOk;
    RangesTile(pos, RusTili);
  }

  /** Whatever is posted, the drafts satisfy the question contract, sit in the sections of their
      positions and come in order; with fifty of them the test is complete. */
  lemma FiftyDraftsComplete(data: FormData)
    ensures var qs := GoodDrafts(data, EXPECTED_ROW_COUNT);
            && Placed(qs) && Distinct(Positions(qs)) && (forall i :: 0 <= i < |qs| ==> FieldsOk(qs[i]))
            && (Complete(qs) <==> |qs| == EXPECTED_ROW_COUNT)
  {
    hide FieldsOk, Complete, Placed, GoodDrafts;
    var qs := GoodDrafts(data, EXPECTED_ROW_COUNT);
    GoodDraftsPlaced(data, EXPECTED_ROW_COUNT);
    assert Distinct(Positions(qs));
    CompleteIff(qs);
  }

  /** A form without field errors is a complete test exactly if no card was left empty. */
  lemma CompleteIffNoneEmpty(data: FormData)
    requires ErrorsThrough(data, EXPECTED_ROW_COUNT, map[])
    ensures Complete(GoodDrafts(data, EXPECTED_ROW_COUNT))
            <==> forall pos :: 1 <= pos <= EXPECTED_ROW_COUNT ==> !Untouched(CardAt(data, pos))
  {
    hide FieldsOk, Complete, Placed, GoodDrafts, CardAt, Good, Untouched;
    FiftyDraftsComplete(data);
    GoodDraftsPlaced(data, EXPECTED_ROW_COUNT);
    forall pos | 1 <= pos <= EXPECTED_ROW_COUNT
      ensures Good(pos, CardAt(data, pos)) <==> !Untouched(CardAt(data, pos))
    {
      assert !IsFaulty(data, pos);
      NotBoth(pos, CardAt(data, pos));
    }
  }
}
