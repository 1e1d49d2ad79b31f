/**
 Drafts, their questions and images, and publishing, one call per transaction
 (`app/services/test_service.py`, `app/repositories/question_repository.py`, `app/repositories/test_repository.py`).

 A call that raises changes nothing. The tables have a unique index on (test, position) and CHECK
 constraints on sections, positions and options, which an insert must meet.
 */
module Authoring {
  import opened Common
  import opened Text
  import opened Sections
  import opened Questions

  datatype Image = Image(fileId: string, uniqueId: string)

  datatype TestStatus = InDraft | Active | Archived

  datatype Test = Test(title: string, status: TestStatus)

  /** `QuestionDraft`: authored content, with an image only when one is carried over. */
  datatype NewDraft = NewDraft(content: Draft, image: Option<Image>)

  datatype QuestionRow = QuestionRow(content: Draft, image: Option<Image>)

  datatype Db = Db(tests: map<nat, Test>, questions: map<(nat, int), QuestionRow>)

  datatype Failure = DraftRequired | Integrity | NoSuchTest | BadTitle | MissingImages | CannotArchive | NotADraft

  // ---------- Rows ----------

  predicate Storable(q: Draft) {
    && SectionForPosition(q.position).Some? && q.section == Name(SectionForPosition(q.position).value)
    && q.correct in OPTIONS
  }

  /** A text question never gets an image id. */
  function RowFor(d: NewDraft): QuestionRow {
    QuestionRow(d.content, if d.content.hasImage then d.image else None)
  }

  function Rows(t: nat, drafts: seq<NewDraft>): map<(nat, int), QuestionRow> {
    if drafts == [] then map[]
    else
      var last := drafts[|drafts| - 1];
      Rows(t, drafts[..|drafts| - 1])[(t, last.content.position) := RowFor(last)]
  }

  predicate Free(questions: map<(nat, int), QuestionRow>, t: nat, drafts: seq<NewDraft>) {
    && (forall i :: 0 <= i < |drafts| ==> Storable(drafts[i].content) && (t, drafts[i].content.position) !in questions)
    && (forall i, j :: 0 <= i < j < |drafts| ==> drafts[i].content.position != drafts[j].content.position)
  }

  function WithoutTest(questions: map<(nat, int), QuestionRow>, t: nat): map<(nat, int), QuestionRow> {
    map k | k in questions && k.0 != t :: questions[k]
  }

  function ImagesOf(questions: map<(nat, int), QuestionRow>, t: nat): (m: map<int, Image>)
    ensures forall p :: p in m <==> (t, p) in questions && questions[(t, p)].image.Some?
    ensures forall p :: p in m ==> questions[(t, p)].image == Some(m[p])
  {
    map k | k in questions && k.0 == t && questions[k].image.Some? :: k.1 := questions[k].image.value
  }

  predicate MissesImage(questions: map<(nat, int), QuestionRow>, t: nat, p: int) {
    (t, p) in questions && questions[(t, p)].content.hasImage && questions[(t, p)].image.None?
  }

  function MissingPositions(questions: map<(nat, int), QuestionRow>, t: nat): set<int> {
    set k | k in questions && k.0 == t && MissesImage(questions, t, k.1) :: k.1
  }

  /** The questions of a test at positions 1 to n, in order, with their images. */
  function ListUpTo(questions: map<(nat, int), QuestionRow>, t: nat, n: nat): seq<NewDraft> {
    if n == 0 then []
    else ListUpTo(questions, t, n - 1)
         + if (t, n) in questions then [NewDraft(questions[(t, n)].content, questions[(t, n)].image)] else []
  }

  function Contents(drafts: seq<NewDraft>): seq<Draft> {
    seq(|drafts|, i requires 0 <= i < |drafts| => drafts[i].content)
  }

  function Carry(images: map<int, Image>, d: NewDraft): NewDraft {
    if d.content.hasImage && d.content.position in images then d.(image := Some(images[d.content.position])) else d
  }

  function CarryAll(images: map<int, Image>, drafts: seq<NewDraft>): (c: seq<NewDraft>)
    ensures |c| == |drafts| && forall i :: 0 <= i < |drafts| ==> c[i] == Carry(images, drafts[i])
  {
    seq(|drafts|, i requires 0 <= i < |drafts| => Carry(images, drafts[i]))
  }

  function Copied(title: string): string {
    (title + " (копия)")[..Common.Min(|title| + 8, 200)]
  }

  predicate IsDraft(db: Db, t: nat) {
    t in db.tests && db.tests[t].status == InDraft
  }

  predicate IsActive(db: Db, t: nat) {
    t in db.tests && db.tests[t].status == Active
  }

  // ---------- What each call does ----------

  /** A new draft with questions: an upload, or with none the empty draft. */
  function CreateDraft(db: Db, t: nat, title: string, drafts: seq<NewDraft>): Result<Db, Failure> {
    if !Free(db.questions, t, drafts) then Err(Integrity)
    else Ok(Db(db.tests[t := Test(title, InDraft)], db.questions + Rows(t, drafts)))
  }

  function UpdateTitle(db: Db, t: nat, title: string): Result<Db, Failure> {
    if Strip(title) == "" || |Strip(title)| > 200 then Err(BadTitle)
    else if IsDraft(db, t) then Ok(db.(tests := db.tests[t := db.tests[t].(title := Strip(title))]))
    else Ok(db)
  }

  function ReplaceQuestions(db: Db, t: nat, drafts: seq<NewDraft>): Result<Db, Failure> {
    if !IsDraft(db, t) then Err(DraftRequired)
    else
      var rest := WithoutTest(db.questions, t);
      var carried := CarryAll(ImagesOf(db.questions, t), drafts);
      if !Free(rest, t, carried) then Err(Integrity) else Ok(db.(questions := rest + Rows(t, carried)))
  }

  function Duplicate(db: Db, source: nat, t: nat): Result<Db, Failure> {
    if source !in db.tests then Err(NoSuchTest)
    else CreateDraft(db, t, Copied(db.tests[source].title), ListUpTo(db.questions, source, EXPECTED_ROW_COUNT))
  }

  /** Guarded by `has_image`, not by the status of the test. */
  function AttachImage(db: Db, t: nat, p: int, image: Image): Db {
    if (t, p) in db.questions && db.questions[(t, p)].content.hasImage then
      db.(questions := db.questions[(t, p) := db.questions[(t, p)].(image := Some(image))])
    else db
  }

  function CancelDraft(db: Db, t: nat): Db {
    if IsDraft(db, t) then Db(db.tests - {t}, WithoutTest(db.questions, t)) else db
  }

  function WithStatus(db: Db, t: nat, status: TestStatus): Db
    requires t in db.tests
  {
    db.(tests := db.tests[t := db.tests[t].(status := status)])
  }

  /** `publish` archives the active test only if it is another one. */
  predicate MustArchive(t: nat, active: Option<nat>) {
    active.Some? && active.value != t
  }

  /** What the statements of `publish` have done by the time it returns or raises; `active` is what
      `get_active` returned. */
  function PublishHolds(db: Db, t: nat, active: Option<nat>): Db {
    if MissingPositions(db.questions, t) != {} || (MustArchive(t, active) && !IsActive(db, active.value)) then db
    else
      var archived := if MustArchive(t, active) then WithStatus(db, active.value, Archived) else db;
      if IsDraft(db, t) then WithStatus(archived, t, Active) else archived
  }

  function Publish(db: Db, t: nat, active: Option<nat>): Result<Db, Failure> {
    if MissingPositions(db.questions, t) != {} then Err(MissingImages)
    else if MustArchive(t, active) && !IsActive(db, active.value) then Err(CannotArchive)
    else if !IsDraft(db, t) then Err(NotADraft)
    else Ok(PublishHolds(db, t, active))
  }

  // ---------- The service ----------

  class TestStore {
    var tests: map<nat, Test>
    var questions: map<(nat, int), QuestionRow>

    constructor ()
      ensures Tables() == Db(map[], map[])
    {
      tests, questions := map[], map[];
    }

    function Tables(): Db
      reads this
    {
      Db(tests, questions)
    }

    /** Inserts all or, on a duplicate position or a failed CHECK, nothing. */
    method BulkCreate(t: nat, drafts: seq<NewDraft>) returns (ok: bool)
      modifies this`questions
      ensures ok <==> Free(old(questions), t, drafts)
      ensures questions == if ok then old(questions) + Rows(t, drafts) else old(questions)
      ensures ok ==> Added(old(questions), questions, t, drafts)
    {
      hide Added;
      var before := questions;
      NoneInserted(before, t, drafts);
      for i := 0 to |drafts|
        invariant Free(before, t, drafts[..i]) && questions == before + Rows(t, drafts[..i])
      {
        hide Free, Storable, Rows, RowFor;
        var d := drafts[i];
        OneInserted(before, t, drafts, i);
        if !Storable(d.content) || (t, d.content.position) in questions {
          questions := before;
          return false;
        }
        questions := questions[(t, d.content.position) := RowFor(d)];
      }
      assert drafts[..|drafts|] == drafts;
      RowsAreAdded(before, t, drafts);
      return true;
    }

    method CreateDraftCall(t: nat, title: string, drafts: seq<NewDraft>) returns (r: Result<(), Failure>)
      requires t !in tests
      modifies this
      ensures var spec := CreateDraft(old(Tables()), t, title, drafts);
              if spec.Ok? then r.Ok? && Tables() == spec.value else r == Err(spec.error) && Tables() == old(Tables())
      ensures r == if Free(old(questions), t, drafts) then Ok(()) else Err(Integrity)
      ensures r.Ok? ==> tests == old(tests)[t := Test(title, InDraft)] && Added(old(questions), questions, t, drafts)
    {
      hide Added, Free;
      var before := tests;
      tests := tests[t := Test(title, InDraft)];
      var ok := BulkCreate(t, drafts);
      if !ok {
        tests := before;
        return Err(Integrity);
      }
      return Ok(());
    }

    method ReplaceDraftQuestions(t: nat, drafts: seq<NewDraft>) returns (r: Result<(), Failure>)
      modifies this`questions
      ensures var spec := ReplaceQuestions(old(Tables()), t, drafts);
              if spec.Ok? then r.Ok? && Tables() == spec.value else r == Err(spec.error) && Tables() == old(Tables())
      ensures r == Err(DraftRequired) <==> !(t in tests && tests[t].status == InDraft)
      ensures r == Err(Integrity) <==> t in tests && tests[t].status == InDraft && !Insertable(drafts)
      ensures r.Ok? || r == Err(DraftRequired) || r == Err(Integrity)
    {
      InsertableIff(questions, t, drafts);
      hide Insertable, Free, WithoutTest, CarryAll, ImagesOf, Rows, Added;
      if t !in tests || tests[t].status != InDraft {
        return Err(DraftRequired);
      }
      var before := questions;
      var oldImages := ImagesOf(questions, t);
      questions := WithoutTest(questions, t);
      var carried := CarryAll(oldImages, drafts);
      var ok := BulkCreate(t, carried);
      if !ok {
        questions := before;
        return Err(Integrity);
      }
      return Ok(());
    }

    method ListByTest(t: nat) returns (rows: seq<NewDraft>)
      ensures rows == ListUpTo(questions, t, EXPECTED_ROW_COUNT)
    {
      rows := [];
      for p := 1 to EXPECTED_ROW_COUNT + 1
        invariant rows == ListUpTo(questions, t, p - 1)
      {
        if (t, p) in questions {
          rows := rows + [NewDraft(questions[(t, p)].content, questions[(t, p)].image)];
        }
      }
    }

    method DuplicateToDraft(source: nat, t: nat) returns (r: Result<(), Failure>)
      requires t !in tests
      modifies this
      ensures var spec := Duplicate(old(Tables()), source, t);
              if spec.Ok? then r.Ok? && Tables() == spec.value else r == Err(spec.error) && Tables() == old(Tables())
      ensures r == Err(NoSuchTest) <==> source !in old(tests)
      ensures r.Ok? ==>
                var title := old(tests)[source].title + " (копия)";
                && tests == old(tests)[t := Test(tests[t].title, InDraft)]
                && tests[t].title <= title
                && if |title| <= 200 then tests[t].title == title else |tests[t].title| == 200
    {
      hide Free, Rows, ListUpTo, Added;
      if source !in tests {
        return Err(NoSuchTest);
      }
      var rows := ListByTest(source);
      r := CreateDraftCall(t, Copied(tests[source].title), rows);
    }

    method UpdateTitleCall(t: nat, title: string) returns (r: Result<bool, Failure>)
      modifies this`tests
      ensures var spec := UpdateTitle(old(Tables()), t, title);
              if spec.Ok? then r == Ok(IsDraft(old(Tables()), t)) && Tables() == spec.value
              else r == Err(spec.error) && Tables() == old(Tables())
      ensures var cleaned, draft := Strip(title), t in old(tests) && old(tests)[t].status == InDraft;
              && r == (if 1 <= |cleaned| <= 200 then Ok(draft) else Err(BadTitle))
              && tests == if 1 <= |cleaned| <= 200 && draft then old(tests)[t := Test(cleaned, InDraft)]
                          else old(tests)
    {
      var cleaned := Strip(title);
      if cleaned == "" || |cleaned| > 200 {
        return Err(BadTitle);
      }
      if t in tests && tests[t].status == InDraft {
        tests := tests[t := tests[t].(title := cleaned)];
        return Ok(true);
      }
      return Ok(false);
    }

    method AttachQuestionImage(t: nat, p: int, image: Image) returns (attached: bool)
      modifies this`questions
      ensures Tables() == AttachImage(old(Tables()), t, p, image)
      ensures attached <==> (t, p) in old(questions) && old(questions)[(t, p)].content.hasImage
      ensures questions == if attached
                           then old(questions)[(t, p) := QuestionRow(old(questions)[(t, p)].content, Some(image))]
                           else old(questions)
    {
      if (t, p) in questions && questions[(t, p)].content.hasImage {
        questions := questions[(t, p) := questions[(t, p)].(image := Some(image))];
        return true;
      }
      return false;
    }

    method CancelDraftCall(t: nat) returns (removed: bool)
      modifies this
      ensures Tables() == CancelDraft(old(Tables()), t)
      ensures removed <==> t in old(tests) && old(tests)[t].status == InDraft
      ensures forall u :: u in tests <==> u in old(tests) && !(removed && u == t)
      ensures forall k :: k in questions <==> k in old(questions) && !(removed && k.0 == t)
      ensures forall u :: u in tests ==> tests[u] == old(tests)[u]
      ensures forall k :: k in questions ==> questions[k] == old(questions)[k]
    {
      if t in tests && tests[t].status == InDraft {
        tests := tests - {t};
        questions := WithoutTest(questions, t);
        return true;
      }
      return false;
    }

    /** The blockers of the panel's publish button: none exactly if the test is complete and no image
        question lacks its image. */
    method ValidateForPublish(t: nat) returns (blockers: seq<TestError>, missing: set<int>)
      ensures blockers == [] <==> Complete(Contents(ListUpTo(questions, t, EXPECTED_ROW_COUNT)))
      ensures RowsSound(questions) ==>
                (blockers == [] <==> forall p :: 1 <= p <= EXPECTED_ROW_COUNT ==> (t, p) in questions)
      ensures missing == MissingPositions(questions, t)
      ensures forall p :: p in missing <==> (t, p) in questions && questions[(t, p)].content.hasImage
                                            && questions[(t, p)].image.None?
    {
      if RowsSound(questions) { ListedComplete(questions, t); }
      hide Complete, ListUpTo, Contents, RowsSound;
      var rows := ListByTest(t);
      blockers := ValidateTestCompleteness(Contents(rows));
      missing := MissingPositions(questions, t);
    }

    method GetActive() returns (active: Option<nat>)
      ensures active.Some? ==> IsActive(Tables(), active.value)
      ensures active.None? ==> forall t :: t in tests ==> tests[t].status != Active
    {
      if t :| t in tests && tests[t].status == Active {
        return Some(t);
      }
      return None;
    }

    /** Where the caller lets the error pass, its transaction rolls back; where it is caught, what the
        statements have done is committed. */
    method PublishCall(t: nat, caught: bool) returns (r: Result<(), Failure>, ghost active: Option<nat>)
      modifies this`tests
      ensures active.Some? ==> IsActive(old(Tables()), active.value)
      ensures active.None? ==> forall u :: !IsActive(old(Tables()), u)
      ensures var spec := Publish(old(Tables()), t, active);
              if spec.Ok? then r.Ok? && Tables() == spec.value
              else r == Err(spec.error)
                   && Tables() == if caught then PublishHolds(old(Tables()), t, active) else old(Tables())
      ensures r == if exists p :: (t, p) in questions && questions[(t, p)].content.hasImage
                                  && questions[(t, p)].image.None?
                   then Err(MissingImages)
                   else if t in old(tests) && old(tests)[t].status == InDraft then Ok(())
                   else Err(NotADraft)
      ensures r.Ok? || (r == Err(NotADraft) && caught) ==> Republished(old(tests), tests, active, t, r.Ok?)
      ensures r.Err? && !(r == Err(NotADraft) && caught) ==> tests == old(tests)
    {
      ghost var db := Tables();
      SomeMissing(questions, t);
      var current := GetActive();
      active := current;
      assert active.None? ==> forall u :: !IsActive(db, u);
      if MissingPositions(questions, t) != {} {
        return Err(MissingImages), active;
      }
      var before := tests;
      if current.Some? && current.value != t {
        tests := tests[current.value := tests[current.value].(status := Archived)];
      }
      if t !in tests || tests[t].status != InDraft {
        assert !IsDraft(old(Tables()), t);
        if !caught {
          tests := before;
        }
        return Err(NotADraft), active;
      }
      tests := tests[t := tests[t].(status := Active)];
      return Ok(()), active;
    }
  }

  // ---------- What was inserted ----------

  /** Exactly the drafts were added, each under its test and position, a text question without an image. */
  ghost predicate Added(questions: map<(nat, int), QuestionRow>, questions': map<(nat, int), QuestionRow>, t: nat,
                        drafts: seq<NewDraft>) {
    && (forall k :: k in questions ==> k in questions' && questions'[k] == questions[k])
    && (forall k :: k in questions' && k !in questions ==>
          k.0 == t && exists i :: 0 <= i < |drafts| && drafts[i].content.position == k.1)
    && (forall i :: 0 <= i < |drafts| ==>
          var d, k := drafts[i], (t, drafts[i].content.position);
          k in questions' && questions'[k].content == d.content
          && questions'[k].image == if d.content.hasImage then d.image else None)
  }

  lemma RowsAreAdded(questions: map<(nat, int), QuestionRow>, t: nat, drafts: seq<NewDraft>)
    requires Free(questions, t, drafts)
    ensures Added(questions, questions + Rows(t, drafts), t, drafts)
  {
    hide Storable;
    forall k | k in Rows(t, drafts)
      ensures k.0 == t && exists i :: 0 <= i < |drafts| && drafts[i].content.position == k.1
    {
      RowsKeys(t, drafts, k.1);
    }
    forall k | k in questions ensures k !in Rows(t, drafts) { RowsKeys(t, drafts, k.1); }
    forall i | 0 <= i < |drafts|
      ensures var k := (t, drafts[i].content.position); k in Rows(t, drafts) && Rows(t, drafts)[k] == RowFor(drafts[i])
    {
      RowsAt(t, drafts, i);
    }
  }

  /** What the table accepts of an empty test: storable questions, no position twice. */
  ghost predicate Insertable(drafts: seq<NewDraft>) {
    && (forall i :: 0 <= i < |drafts| ==> Storable(drafts[i].content))
    && (forall i, j :: 0 <= i < j < |drafts| ==> drafts[i].content.position != drafts[j].content.position)
  }

  lemma InsertableIff(questions: map<(nat, int), QuestionRow>, t: nat, drafts: seq<NewDraft>)
    ensures Insertable(drafts) <==>
            Free(WithoutTest(questions, t), t, CarryAll(ImagesOf(questions, t), drafts))
  {
    hide Storable, ImagesOf;
    var carried := CarryAll(ImagesOf(questions, t), drafts);
    assert forall i :: 0 <= i < |drafts| ==> carried[i].content == drafts[i].content;
  }

  lemma SomeMissing(questions: map<(nat, int), QuestionRow>, t: nat)
    ensures MissingPositions(questions, t) != {}
            <==> exists p :: (t, p) in questions && questions[(t, p)].content.hasImage && questions[(t, p)].image.None?
  {
    if p :| (t, p) in questions && questions[(t, p)].content.hasImage && questions[(t, p)].image.None? {
      assert (t, p).1 in MissingPositions(questions, t);
    }
  }

  /** `t` is active if it could be, the test that was active before is archived, all else is the same. */
  ghost predicate Republished(tests: map<nat, Test>, tests': map<nat, Test>, active: Option<nat>, t: nat, ok: bool) {
    && tests'.Keys == tests.Keys
    && forall u :: u in tests ==>
         tests'[u] == if u == t && ok then Test(tests[u].title, Active)
                      else if u != t && active == Some(u) then Test(tests[u].title, Archived)
                      else tests[u]
  }

  lemma {:induction false} ListedSize(questions: map<(nat, int), QuestionRow>, t: nat, n: nat)
    ensures |ListUpTo(questions, t, n)| <= n
    ensures |ListUpTo(questions, t, n)| == n <==> forall p :: 1 <= p <= n ==> (t, p) in questions
  {
    if n > 0 { ListedSize(questions, t, n - 1); }
  }

  lemma ListedPlaced(questions: map<(nat, int), QuestionRow>, t: nat, l: seq<NewDraft>)
    requires RowsSound(questions) && InOrder(questions, t, EXPECTED_ROW_COUNT, l)
    ensures Placed(Contents(l)) && Distinct(Positions(Contents(l)))
  {
    forall i | 0 <= i < |l| ensures Storable(l[i].content) {
      assert Listed(questions, t, EXPECTED_ROW_COUNT, l[i]);
      assert RowSound(l[i].content.position, questions[(t, l[i].content.position)]);
    }
  }

  /** Fifty questions are listed exactly if every position has one. */
  lemma ListedComplete(questions: map<(nat, int), QuestionRow>, t: nat)
    requires RowsSound(questions)
    ensures Complete(Contents(ListUpTo(questions, t, EXPECTED_ROW_COUNT)))
            <==> forall p :: 1 <= p <= EXPECTED_ROW_COUNT ==> (t, p) in questions
  {
    hide Storable, Complete;
    var l := ListUpTo(questions, t, EXPECTED_ROW_COUNT);
    var qs := Contents(l);
    ListedOnce(questions, t, EXPECTED_ROW_COUNT);
    ListedPlaced(questions, t, l);
    CompleteIff(qs);
    ListedSize(questions, t, EXPECTED_ROW_COUNT);
  }

  lemma NoneInserted(questions: map<(nat, int), QuestionRow>, t: nat, drafts: seq<NewDraft>)
    ensures Free(questions, t, drafts[..0]) && questions + Rows(t, drafts[..0]) == questions
  {
  }

  /** The next draft fits exactly if it is storable and its key is not taken by then. */
  lemma OneInserted(before: map<(nat, int), QuestionRow>, t: nat, drafts: seq<NewDraft>, i: nat)
    requires i < |drafts| && Free(before, t, drafts[..i])
    ensures var d := drafts[i];
            var now := before + Rows(t, drafts[..i]);
            && (Free(before, t, drafts[..i + 1]) <==> Storable(d.content) && (t, d.content.position) !in now)
            && (Free(before, t, drafts) ==> Free(before, t, drafts[..i + 1]))
            && before + Rows(t, drafts[..i + 1]) == now[(t, d.content.position) := RowFor(d)]
  {
    hide Storable;
    var d := drafts[i];
    PrefixRows(t, drafts, i);
    RowsKeys(t, drafts[..i], d.content.position);
    if (t, d.content.position) !in before
       && exists j :: 0 <= j < i && drafts[j].content.position == d.content.position {
      var j :| 0 <= j < i && drafts[j].content.position == d.content.position;
      assert drafts[..i + 1][j] == drafts[j] && drafts[..i][j] == drafts[j];
    }
  }

  lemma PrefixRows(t: nat, drafts: seq<NewDraft>, i: nat)
    requires i < |drafts|
    ensures drafts[..i + 1][..i] == drafts[..i] && drafts[..i + 1][i] == drafts[i]
    ensures Rows(t, drafts[..i + 1]) == Rows(t, drafts[..i])[(t, drafts[i].content.position) := RowFor(drafts[i])]
  {
  }

  lemma {:induction false} RowsKeys(t: nat, drafts: seq<NewDraft>, p: int)
    ensures (t, p) in Rows(t, drafts) <==> exists i :: 0 <= i < |drafts| && drafts[i].content.position == p
    ensures forall k :: k in Rows(t, drafts) ==> k.0 == t
  {
    if drafts != [] {
      var n := |drafts| - 1;
      RowsKeys(t, drafts[..n], p);
      if i :| 0 <= i < |drafts| && drafts[i].content.position == p {
        assert i < n ==> drafts[..n][i].content.position == p;
      }
    }
  }

  lemma {:induction false} RowsAt(t: nat, drafts: seq<NewDraft>, i: nat)
    requires i < |drafts|
    requires forall i, j :: 0 <= i < j < |drafts| ==> drafts[i].content.position != drafts[j].content.position
    ensures (t, drafts[i].content.position) in Rows(t, drafts)
    ensures Rows(t, drafts)[(t, drafts[i].content.position)] == RowFor(drafts[i])
  {
    var n := |drafts| - 1;
    if i < n { RowsAt(t, drafts[..n], i); }
  }

  /** A draft save: position p holds the new content, and keeps its image exactly when the new draft
      still has one and one was attached. */
  lemma SaveKeepsImages(db: Db, t: nat, drafts: seq<NewDraft>, i: nat)
    requires ReplaceQuestions(db, t, drafts).Ok? && i < |drafts|
    requires drafts[i].image.None?
    ensures var db' := ReplaceQuestions(db, t, drafts).value;
            var p := drafts[i].content.position;
            && (t, p) in db'.questions && db'.questions[(t, p)].content == drafts[i].content
            && (db'.questions[(t, p)].image.Some? <==>
                drafts[i].content.hasImage && (t, p) in db.questions && db.questions[(t, p)].image.Some?)
            && (db'.questions[(t, p)].image.Some? ==> db'.questions[(t, p)].image == db.questions[(t, p)].image)
  {
    var carried := CarryAll(ImagesOf(db.questions, t), drafts);
    RowsAt(t, carried, i);
  }

  /** A save replaces the whole draft and touches no other test. */
  lemma SaveReplacesAll(db: Db, t: nat, drafts: seq<NewDraft>, u: nat, p: int)
    requires ReplaceQuestions(db, t, drafts).Ok?
    ensures var db' := ReplaceQuestions(db, t, drafts).value;
            && ((t, p) in db'.questions <==> exists i :: 0 <= i < |drafts| && drafts[i].content.position == p)
            && (u != t ==> ((u, p) in db'.questions <==> (u, p) in db.questions)
                           && ((u, p) in db.questions ==> db'.questions[(u, p)] == db.questions[(u, p)]))
  {
    var carried := CarryAll(ImagesOf(db.questions, t), drafts);
    RowsKeys(t, carried, p);
    if i :| 0 <= i < |drafts| && drafts[i].content.position == p { assert carried[i].content.position == p; }
  }

  /** The listed draft is a question of the test. */
  predicate Listed(questions: map<(nat, int), QuestionRow>, t: nat, n: nat, d: NewDraft) {
    var p := d.content.position;
    1 <= p <= n && (t, p) in questions && questions[(t, p)] == QuestionRow(d.content, d.image)
  }

  /** Questions of the test, each at most once, in order. */
  ghost predicate InOrder(questions: map<(nat, int), QuestionRow>, t: nat, n: nat, l: seq<NewDraft>) {
    && (forall i :: 0 <= i < |l| ==> Listed(questions, t, n, l[i]))
    && (forall i, j :: 0 <= i < j < |l| ==> l[i].content.position < l[j].content.position)
  }

  lemma {:induction false} ListedOnce(questions: map<(nat, int), QuestionRow>, t: nat, n: nat)
    requires RowsSound(questions)
    ensures InOrder(questions, t, n, ListUpTo(questions, t, n))
  {
    hide Storable;
    if n > 0 {
      ListedOnce(questions, t, n - 1);
      var l0 := ListUpTo(questions, t, n - 1);
      if (t, n) in questions {
        assert RowSound(n, questions[(t, n)]);
        OneMoreListed(questions, t, n, l0, NewDraft(questions[(t, n)].content, questions[(t, n)].image));
      }
    }
  }

  lemma OneMoreListed(questions: map<(nat, int), QuestionRow>, t: nat, n: nat, l: seq<NewDraft>, d: NewDraft)
    requires n > 0 && InOrder(questions, t, n - 1, l) && Listed(questions, t, n, d) && d.content.position == n
    ensures InOrder(questions, t, n, l + [d])
  {
    forall i | 0 <= i < |l| ensures Listed(questions, t, n, l[i]) { assert Listed(questions, t, n - 1, l[i]); }
  }

  predicate Holds(l: seq<NewDraft>, p: int) {
    exists i :: 0 <= i < |l| && l[i].content.position == p
  }

  lemma HoldsMore(l: seq<NewDraft>, d: NewDraft, p: int)
    ensures Holds(l + [d], p) <==> Holds(l, p) || d.content.position == p
  {
    if i :| 0 <= i < |l| && l[i].content.position == p { assert (l + [d])[i].content.position == p; }
    if d.content.position == p { assert (l + [d])[|l|].content.position == p; }
  }

  lemma {:induction false} AllListed(questions: map<(nat, int), QuestionRow>, t: nat, n: nat, p: int)
    requires RowsSound(questions) && 1 <= p <= n && (t, p) in questions
    ensures Holds(ListUpTo(questions, t, n), p)
  {
    hide Storable;
    var l0 := ListUpTo(questions, t, n - 1);
    if p < n { AllListed(questions, t, n - 1, p); }
    if (t, n) in questions {
      assert RowSound(n, questions[(t, n)]);
      HoldsMore(l0, NewDraft(questions[(t, n)].content, questions[(t, n)].image), p);
    } else {
      assert l0 + [] == l0;
    }
  }

  /** Rows as the constraints of the table allow them. */
  ghost predicate RowsSound(questions: map<(nat, int), QuestionRow>) {
    forall k :: k in questions ==> RowSound(k.1, questions[k])
  }

  predicate RowSound(p: int, row: QuestionRow) {
    && row.content.position == p && Storable(row.content)
    && (!row.content.hasImage ==> row.image.None?)
  }

  /** A duplicate has the questions of its source, images included, and leaves the source as it was. */
  lemma DuplicateIsACopy(db: Db, source: nat, t: nat, p: int)
    requires RowsSound(db.questions) && Duplicate(db, source, t).Ok? && t !in db.tests
    requires forall k :: k in db.questions ==> k.0 in db.tests
    ensures var db' := Duplicate(db, source, t).value;
            && ((t, p) in db'.questions <==> (source, p) in db.questions)
            && ((t, p) in db'.questions ==> db'.questions[(t, p)] == db.questions[(source, p)])
            && ((source, p) in db'.questions <==> (source, p) in db.questions)
            && ((source, p) in db.questions ==> db'.questions[(source, p)] == db.questions[(source, p)])
            && db'.tests[t].status == InDraft && db'.tests[source] == db.tests[source]
  {
    hide Storable, Free;
    var l := ListUpTo(db.questions, source, EXPECTED_ROW_COUNT);
    RowsKeys(t, l, p);
    ListedOnce(db.questions, source, EXPECTED_ROW_COUNT);
    if (source, p) in db.questions {
      assert RowSound(p, db.questions[(source, p)]);
      PositionsInRange(p, db.questions[(source, p)]);
      AllListed(db.questions, source, EXPECTED_ROW_COUNT, p);
    }
    if i :| 0 <= i < |l| && l[i].content.position == p {
      CopiedRow(db, source, t, i);
    }
  }

  lemma PositionsInRange(p: int, row: QuestionRow)
    requires RowSound(p, row)
    ensures 1 <= p <= EXPECTED_ROW_COUNT
  {
  }

  lemma CopiedRow(db: Db, source: nat, t: nat, i: nat)
    requires RowsSound(db.questions)
    requires i < |ListUpTo(db.questions, source, EXPECTED_ROW_COUNT)|
    ensures var l := ListUpTo(db.questions, source, EXPECTED_ROW_COUNT);
            var p := l[i].content.position;
            && (source, p) in db.questions && (t, p) in Rows(t, l) && Rows(t, l)[(t, p)] == db.questions[(source, p)]
  {
    hide Storable;
    var l := ListUpTo(db.questions, source, EXPECTED_ROW_COUNT);
    ListedOnce(db.questions, source, EXPECTED_ROW_COUNT);
    assert InOrder(db.questions, source, EXPECTED_ROW_COUNT, l);
    var p := l[i].content.position;
    assert Listed(db.questions, source, EXPECTED_ROW_COUNT, l[i]);
    assert RowSound(p, db.questions[(source, p)]);
    RowsAt(t, l, i);
  }

  /** Duplicating an existing test never runs into the constraints. */
  lemma DuplicateSucceeds(db: Db, source: nat, t: nat)
    requires RowsSound(db.questions) && source in db.tests && t !in db.tests
    requires forall k :: k in db.questions ==> k.0 in db.tests
    ensures Duplicate(db, source, t).Ok?
  {
    hide Storable;
    var l := ListUpTo(db.questions, source, EXPECTED_ROW_COUNT);
    ListedOnce(db.questions, source, EXPECTED_ROW_COUNT);
    assert InOrder(db.questions, source, EXPECTED_ROW_COUNT, l);
    forall i | 0 <= i < |l| ensures Storable(l[i].content) && (t, l[i].content.position) !in db.questions {
      assert Listed(db.questions, source, EXPECTED_ROW_COUNT, l[i]);
      assert RowSound(l[i].content.position, db.questions[(source, l[i].content.position)]);
    }
  }
}
