/**
 The user funnel and the receipt queue (`app/services/user_service.py`, `app/services/receipt_service.py`,
 `app/repositories/user_repository.py`, `app/repositories/receipt_repository.py`).

 Each call is one transaction. A call that raises changes nothing.
 */
module Funnel {
  import opened Common
  import opened Text
  import opened Hamming

  datatype Status =
    | New | OnboardingPhone | OnboardingName | PendingPayment | PendingApproval | Rejected | Approved | Banned

  datatype User = User(
    phone: Option<string>,
    name: Option<string>,
    code: Option<string>,
    status: Status,
    approvedAt: Option<int>)

  datatype Review = Review(admin: nat, at: int)

  datatype ReceiptStatus = Pending | Accepted | Declined

  datatype Receipt = Receipt(
    user: nat,
    hash: Option<int>,
    status: ReceiptStatus,
    review: Option<Review>,
    reason: Option<string>)

  datatype Db = Db(users: map<nat, User>, receipts: map<nat, Receipt>)

  datatype Failure =
    | InvalidName
    | DuplicateCode
    | LimitExceeded
    | BadImage
    | BadThreshold
    | AlreadyPending
    | EmptyReason
    | AlreadyProcessed
    | UserBanned

  /** In the order the enumeration lists them. */
  datatype Warning = DuplicateApproved | DuplicateRejected | DuplicatePendingOther | PhoneReused

  // ---------- Phones ----------

  predicate IsDigit(c: char) {
    '0' <= c <= '9'
  }

  function Digits(raw: string): (d: string)
    ensures forall i :: 0 <= i < |d| ==> IsDigit(d[i])
  {
    if raw == "" then "" else (if IsDigit(raw[0]) then [raw[0]] else "") + Digits(raw[1..])
  }

  const COUNTRY := "998"

  function NormalizePhone(raw: string): string {
    var d := Digits(raw);
    if |d| == 9 then COUNTRY + d else d
  }

  lemma {:induction false} DigitsOfDigits(d: string)
    requires forall i :: 0 <= i < |d| ==> IsDigit(d[i])
    ensures Digits(d) == d
  {
    if d != "" { DigitsOfDigits(d[1..]); }
  }

  lemma DigitsStep(c: char, raw: string)
    ensures Digits([c] + raw) == (if IsDigit(c) then [c] else "") + Digits(raw)
  {
    assert ([c] + raw)[0] == c && ([c] + raw)[1..] == raw;
  }

  lemma {:induction false} DigitsAppend(a: string, b: string)
    ensures Digits(a + b) == Digits(a) + Digits(b)
  {
    if a == "" {
      assert a + b == b;
    } else {
      assert a + b == [a[0]] + (a[1..] + b);
      DigitsStep(a[0], a[1..] + b);
      DigitsAppend(a[1..], b);
    }
  }

  lemma {:induction false} NoDigits(s: string)
    requires forall i :: 0 <= i < |s| ==> !IsDigit(s[i])
    ensures Digits(s) == ""
  {
    if s != "" { NoDigits(s[1..]); }
  }

  /** Only the digits of a number count, in their order. */
  lemma DigitsMean(between: string, digits: string, rest: string)
    requires forall i :: 0 <= i < |between| ==> !IsDigit(between[i])
    requires forall i :: 0 <= i < |digits| ==> IsDigit(digits[i])
    ensures Digits(between + digits + rest) == digits + Digits(rest) && Digits("") == ""
  {
    NoDigits(between);
    DigitsOfDigits(digits);
    hide Digits;
    DigitsAppend(between + digits, rest);
    DigitsAppend(between, digits);
    assert "" + digits == digits;
    NoDigits("");
  }

  /** A stored phone is found again however it is typed: the stored form is a fixed point, and a plus
      sign in front makes no difference. */
  lemma PhoneForms(raw: string)
    ensures NormalizePhone(NormalizePhone(raw)) == NormalizePhone(raw)
    ensures NormalizePhone("+" + raw) == NormalizePhone(raw)
  {
    DigitsOfDigits(NormalizePhone(raw));
    DigitsStep('+', raw);
    assert "" + Digits(raw) == Digits(raw);
  }

  lemma {:induction false} DigitsPrefix(p: string, raw: string)
    requires forall i :: 0 <= i < |p| ==> IsDigit(p[i])
    ensures Digits(p + raw) == p + Digits(raw)
    decreases |p|
  {
    if p == "" {
      assert p + raw == raw;
    } else {
      DigitsPrefix(p[1..], raw);
      DigitsStep(p[0], p[1..] + raw);
      assert p + raw == [p[0]] + (p[1..] + raw);
    }
  }

  /** Nor does the country code of a nine-digit number. */
  lemma CountryCode(raw: string)
    requires |Digits(raw)| == 9
    ensures NormalizePhone(COUNTRY + raw) == NormalizePhone(raw)
  {
    DigitsPrefix(COUNTRY, raw);
  }

  // ---------- Statements on one user ----------

  function SetUser(db: Db, u: nat, user: User): Db {
    db.(users := db.users[u := user])
  }

  function SetStatus(db: Db, u: nat, status: Status): Db {
    if u in db.users then SetUser(db, u, db.users[u].(status := status)) else db
  }

  predicate Has(db: Db, u: nat, statuses: set<Status>) {
    u in db.users && db.users[u].status in statuses
  }

  predicate CodeTaken(db: Db, u: nat, code: string) {
    exists v :: v in db.users && v != u && db.users[v].code == Some(code)
  }

  // ---------- What each call does ----------

  function NewUser(db: Db, u: nat): Db {
    if u in db.users then db else SetUser(db, u, User(None, None, None, New, None))
  }

  function StartOnboarding(db: Db, u: nat): Db {
    if Has(db, u, {New}) then SetStatus(db, u, OnboardingPhone) else db
  }

  function SetPhone(db: Db, u: nat, raw: string): Db {
    if Has(db, u, {New, OnboardingPhone}) && NormalizePhone(raw) != "" then
      SetUser(db, u, db.users[u].(phone := Some(NormalizePhone(raw)), status := OnboardingName))
    else db
  }

  /** `name` is normalized and stripped; `valid` is the verdict of the character test. */
  function SetName(db: Db, u: nat, name: string, valid: bool): Result<Db, Failure> {
    if !valid then Err(InvalidName)
    else if Has(db, u, {OnboardingName}) then Ok(SetUser(db, u, db.users[u].(name := Some(name))))
    else Ok(db)
  }

  /** The column is unique: a code that another user has aborts the transaction. */
  function AttachCode(db: Db, u: nat, code: string): Result<Db, Failure> {
    if !Has(db, u, {New, OnboardingPhone, OnboardingName}) then Ok(db)
    else if CodeTaken(db, u, code) then Err(DuplicateCode)
    else Ok(SetUser(db, u, db.users[u].(code := Some(code), status := PendingPayment)))
  }

  function MarkPendingApproval(db: Db, u: nat): Db {
    if Has(db, u, {PendingPayment, Rejected}) then SetStatus(db, u, PendingApproval) else db
  }

  function MarkApproved(db: Db, u: nat, now: int): Db {
    if u in db.users && db.users[u].status != Banned then
      var at := if db.users[u].approvedAt.Some? then db.users[u].approvedAt else Some(now);
      SetUser(db, u, db.users[u].(status := Approved, approvedAt := at))
    else db
  }

  function MarkRejected(db: Db, u: nat): Db {
    if u in db.users && db.users[u].status != Banned then SetStatus(db, u, Rejected) else db
  }

  function Ban(db: Db, u: nat): Db {
    SetStatus(db, u, Banned)
  }

  predicate CanUnban(db: Db, u: nat) {
    Has(db, u, {Banned}) && db.users[u].approvedAt.Some?
  }

  function Unban(db: Db, u: nat): Db {
    if CanUnban(db, u) then SetStatus(db, u, Approved) else db
  }

  // ---------- Receipts ----------

  predicate IsPending(db: Db, r: nat) {
    r in db.receipts && db.receipts[r].status == Pending
  }

  function PendingOf(db: Db, u: nat): set<nat> {
    set r | r in db.receipts && IsPending(db, r) && db.receipts[r].user == u
  }

  function OthersPending(db: Db, u: nat): set<nat> {
    set r | r in db.receipts && IsPending(db, r) && db.receipts[r].user != u
  }

  /** The receipt carries a hash within the threshold of `hash`. */
  predicate Resembles(db: Db, r: nat, hash: int, threshold: int) {
    r in db.receipts && db.receipts[r].hash.Some? && Distance(hash, db.receipts[r].hash.value) <= threshold
  }

  predicate Hashed(db: Db) {
    exists r :: r in db.receipts && db.receipts[r].hash.Some?
  }

  predicate OwnTwin(db: Db, u: nat, hash: int, threshold: int) {
    exists r :: r in PendingOf(db, u) && Resembles(db, r, hash, threshold)
  }

  /** The condition that each warning reports. */
  ghost predicate Warns(db: Db, u: nat, hash: int, threshold: int, w: Warning) {
    match w
    case DuplicateApproved => exists r :: Resembles(db, r, hash, threshold) && db.receipts[r].status == Accepted
    case DuplicateRejected => exists r :: Resembles(db, r, hash, threshold) && db.receipts[r].status == Declined
    case DuplicatePendingOther =>
      exists r :: Resembles(db, r, hash, threshold) && db.receipts[r].status == Pending && db.receipts[r].user != u
    case PhoneReused =>
      u in db.users && db.users[u].phone.Some? && db.users[u].phone.value != ""
      && exists v :: v in db.users && v != u && db.users[v].phone == db.users[u].phone && db.users[v].status == Approved
  }

  predicate PhoneTwin(db: Db, u: nat) {
    u in db.users && db.users[u].phone.Some? && db.users[u].phone.value != ""
    && exists v :: v in db.users && v != u && db.users[v].phone == db.users[u].phone && db.users[v].status == Approved
  }

  const ORDER: seq<Warning> := [DuplicateApproved, DuplicateRejected, DuplicatePendingOther, PhoneReused]

  function Place(w: Warning): nat {
    match w
    case DuplicateApproved => 0
    case DuplicateRejected => 1
    case DuplicatePendingOther => 2
    case PhoneReused => 3
  }

  /** Exactly the warnings whose condition holds, each once, in enumeration order. */
  ghost predicate ExactWarnings(db: Db, u: nat, hash: int, threshold: int, ws: seq<Warning>) {
    && (forall w :: w in ws <==> Warns(db, u, hash, threshold, w))
    && (forall i, j :: 0 <= i < j < |ws| ==> Place(ws[i]) < Place(ws[j]))
  }

  /** `hash` is None for bytes that are no image. A negative threshold raises at the first comparison. */
  function SubmitFailure(db: Db, u: nat, hash: Option<int>, threshold: int, maxPending: nat): Option<Failure> {
    if |PendingOf(db, u)| >= maxPending then Some(LimitExceeded)
    else if hash.None? then Some(BadImage)
    else if threshold < 0 && Hashed(db) then Some(BadThreshold)
    else if OwnTwin(db, u, hash.value, threshold) then Some(AlreadyPending)
    else None
  }

  function Submitted(db: Db, u: nat, hash: int, id: nat): Db {
    MarkPendingApproval(db.(receipts := db.receipts[id := Receipt(u, Some(hash), Pending, None, None)]), u)
  }

  function Submit(db: Db, u: nat, hash: Option<int>, threshold: int, maxPending: nat, id: nat): Result<Db, Failure> {
    var failure := SubmitFailure(db, u, hash, threshold, maxPending);
    if failure.Some? then Err(failure.value) else Ok(Submitted(db, u, hash.value, id))
  }

  function Resolve(db: Db, r: nat, status: ReceiptStatus, review: Review, reason: Option<string>): Db
    requires r in db.receipts
  {
    db.(receipts := db.receipts[r := db.receipts[r].(status := status, review := Some(review), reason := reason)])
  }

  /** What the statements of `approve` have done by the time it returns or raises. */
  function ApproveHolds(db: Db, r: nat, admin: nat, now: int): Db {
    if !IsPending(db, r) then db
    else MarkApproved(Resolve(db, r, Accepted, Review(admin, now), db.receipts[r].reason), db.receipts[r].user, now)
  }

  function Approve(db: Db, r: nat, admin: nat, now: int): Result<Db, Failure> {
    if !IsPending(db, r) then Err(AlreadyProcessed)
    else
      var u := db.receipts[r].user;
      if u !in db.users || db.users[u].status == Banned then Err(UserBanned)
      else Ok(ApproveHolds(db, r, admin, now))
  }

  function Reject(db: Db, r: nat, admin: nat, reason: string, now: int): Result<Db, Failure> {
    if Strip(reason) == "" then Err(EmptyReason)
    else if !IsPending(db, r) then Err(AlreadyProcessed)
    else Ok(MarkRejected(Resolve(db, r, Declined, Review(admin, now), Some(Strip(reason))), db.receipts[r].user))
  }

  /** Which submission gets which answer, the first reason that holds. */
  ghost predicate Refuses(db: Db, u: nat, hash: Option<int>, threshold: int, maxPending: nat, f: Option<Failure>) {
    var mine := set x | x in db.receipts && db.receipts[x].status == Pending && db.receipts[x].user == u;
    if |mine| >= maxPending then f == Some(LimitExceeded)
    else if hash.None? then f == Some(BadImage)
    else if threshold < 0 && exists x :: x in db.receipts && db.receipts[x].hash.Some? then f == Some(BadThreshold)
    else if exists x :: x in mine && db.receipts[x].hash.Some?
                        && Distance(hash.value, db.receipts[x].hash.value) <= threshold
         then f == Some(AlreadyPending)
    else f == None
  }

  lemma SubmitRefuses(db: Db, u: nat, hash: Option<int>, threshold: int, maxPending: nat)
    ensures Refuses(db, u, hash, threshold, maxPending, SubmitFailure(db, u, hash, threshold, maxPending))
  {
    assert PendingOf(db, u)
           == set x | x in db.receipts && db.receipts[x].status == Pending && db.receipts[x].user == u;
  }

  function FailureOf<T>(r: Result<T, Failure>): Option<Failure> {
    match r
    case Ok(_) => None
    case Err(e) => Some(e)
  }

  ghost predicate AnyAmong(db: Db, among: set<nat>, hash: int, threshold: int, status: ReceiptStatus) {
    exists x :: x in among && Resembles(db, x, hash, threshold) && db.receipts[x].status == status
  }

  lemma OneMoreSeen(db: Db, seen: set<nat>, x: nat, hash: int, threshold: int)
    ensures forall s :: AnyAmong(db, seen + {x}, hash, threshold, s)
                        <==> AnyAmong(db, seen, hash, threshold, s)
                             || (Resembles(db, x, hash, threshold) && db.receipts[x].status == s)
  {
  }

  lemma FoundIsExact(db: Db, u: nat, hash: int, threshold: int, approved: bool, rejected: bool, others: bool,
                     found: set<Warning>)
    requires approved == AnyAmong(db, db.receipts.Keys, hash, threshold, Accepted)
    requires rejected == AnyAmong(db, db.receipts.Keys, hash, threshold, Declined)
    requires others <==> exists x :: x in OthersPending(db, u) && Resembles(db, x, hash, threshold)
    requires (DuplicateApproved in found <==> approved) && (DuplicateRejected in found <==> rejected)
    requires (DuplicatePendingOther in found <==> others) && (PhoneReused in found <==> PhoneTwin(db, u))
    ensures forall w :: w in found <==> Warns(db, u, hash, threshold, w)
  {
    forall w ensures w in found <==> Warns(db, u, hash, threshold, w) {
      match w
      case DuplicatePendingOther => assert forall x :: Resembles(db, x, hash, threshold) ==> x in db.receipts;
      case _ =>
    }
  }

  // ---------- The services ----------

  class FunnelStore {
    var users: map<nat, User>
    var receipts: map<nat, Receipt>
    const maxPending: nat

    constructor (maxPending: nat)
      ensures Tables() == Db(map[], map[]) && this.maxPending == maxPending
    {
      this.maxPending := maxPending;
      users, receipts := map[], map[];
    }

    function Tables(): Db
      reads this
    {
      Db(users, receipts)
    }

    method UpdateStatus(u: nat, status: Status)
      modifies this`users
      ensures Tables() == SetStatus(old(Tables()), u, status)
    {
      if u in users {
        users := users[u := users[u].(status := status)];
      }
    }

    method StartOnboardingCall(u: nat)
      modifies this`users
      ensures Tables() == StartOnboarding(old(Tables()), u)
      ensures users == if u in old(users) && old(users)[u].status == New
                       then old(users)[u := old(users)[u].(status := OnboardingPhone)] else old(users)
    {
      if u !in users {
        return;
      }
      if users[u].status != New {
        return;
      }
      UpdateStatus(u, OnboardingPhone);
    }

    method SetPhoneCall(u: nat, phone: string)
      modifies this`users
      ensures Tables() == SetPhone(old(Tables()), u, phone)
      ensures var digits := Digits(phone);
              users == if u in old(users) && old(users)[u].status in {New, OnboardingPhone} && digits != ""
                       then old(users)[u := old(users)[u].(
                                phone := Some(if |digits| == 9 then "998" + digits else digits),
                                status := OnboardingName)]
                       else old(users)
    {
      if u !in users || users[u].status !in {New, OnboardingPhone} {
        return;
      }
      var normalized := NormalizePhone(phone);
      if normalized == "" {
        return;
      }
      users := users[u := users[u].(phone := Some(normalized))];
      UpdateStatus(u, OnboardingName);
    }

    method SetNameCall(u: nat, cleaned: string, valid: bool) returns (r: Result<(), Failure>)
      modifies this`users
      ensures var res := SetName(old(Tables()), u, cleaned, valid);
              if res.Ok? then r.Ok? && Tables() == res.value else r == Err(res.error) && Tables() == old(Tables())
      ensures r == if valid then Ok(()) else Err(InvalidName)
      ensures users == if valid && u in old(users) && old(users)[u].status == OnboardingName
                       then old(users)[u := old(users)[u].(name := Some(cleaned))] else old(users)
    {
      if !valid {
        return Err(InvalidName);
      }
      if u !in users || users[u].status != OnboardingName {
        return Ok(());
      }
      users := users[u := users[u].(name := Some(cleaned))];
      return Ok(());
    }

    method AttachCodeCall(u: nat, code: string) returns (r: Result<(), Failure>)
      modifies this`users
      ensures var res := AttachCode(old(Tables()), u, code);
              if res.Ok? then r.Ok? && Tables() == res.value else r == Err(res.error) && Tables() == old(Tables())
      ensures var early := u in old(users) && old(users)[u].status in {New, OnboardingPhone, OnboardingName};
              var taken := exists v :: v in old(users) && v != u && old(users)[v].code == Some(code);
              && r == (if early && taken then Err(DuplicateCode) else Ok(()))
              && users == if early && !taken
                          then old(users)[u := old(users)[u].(code := Some(code), status := PendingPayment)]
                          else old(users)
    {
      if u !in users || users[u].status !in {OnboardingName, New, OnboardingPhone} {
        return Ok(());
      }
      if v :| v in users && v != u && users[v].code == Some(code) {
        return Err(DuplicateCode);
      }
      users := users[u := users[u].(code := Some(code))];
      UpdateStatus(u, PendingPayment);
      return Ok(());
    }

    method MarkPendingApprovalCall(u: nat)
      modifies this`users
      ensures Tables() == MarkPendingApproval(old(Tables()), u)
      ensures users == if u in old(users) && old(users)[u].status in {PendingPayment, Rejected}
                       then old(users)[u := old(users)[u].(status := PendingApproval)] else old(users)
    {
      if u !in users || users[u].status !in {PendingPayment, Rejected} {
        return;
      }
      UpdateStatus(u, PendingApproval);
    }

    /** The guarded UPDATE. A driver may report matched rows or only the rows that changed. */
    method MarkApprovedRow(u: nat, now: int, changedOnly: bool) returns (rowcount: nat)
      modifies this`users
      ensures Tables() == MarkApproved(old(Tables()), u, now)
      ensures users == if u in old(users) && old(users)[u].status != Banned
                       then old(users)[u := old(users)[u].(status := Approved,
                                                           approvedAt := if old(users)[u].approvedAt.Some?
                                                                         then old(users)[u].approvedAt else Some(now))]
                       else old(users)
      ensures rowcount == if u in old(users) && old(users)[u].status != Banned
              && !(changedOnly && users[u] == old(users)[u]) then 1 else 0
    {
      if u !in users || users[u].status == Banned {
        return 0;
      }
      var was := users[u];
      var at := if was.approvedAt.Some? then was.approvedAt else Some(now);
      users := users[u := was.(status := Approved, approvedAt := at)];
      return if changedOnly && users[u] == was then 0 else 1;
    }

    /** The guarded UPDATE of a rejection. */
    method MarkRejectedRow(u: nat)
      modifies this`users
      ensures Tables() == MarkRejected(old(Tables()), u)
      ensures users == if u in old(users) && old(users)[u].status != Banned
                       then old(users)[u := old(users)[u].(status := Rejected)] else old(users)
    {
      if u in users && users[u].status != Banned {
        UpdateStatus(u, Rejected);
      }
    }

    method RegisterCall(u: nat)
      modifies this`users
      ensures Tables() == NewUser(old(Tables()), u)
      ensures users == if u in old(users) then old(users) else old(users)[u := User(None, None, None, New, None)]
    {
      if u !in users {
        users := users[u := User(None, None, None, New, None)];
      }
    }

    method BanCall(u: nat)
      modifies this`users
      ensures Tables() == Ban(old(Tables()), u)
      ensures users == if u in old(users) then old(users)[u := old(users)[u].(status := Banned)] else old(users)
    {
      UpdateStatus(u, Banned);
    }

    method UnbanCall(u: nat) returns (restored: bool)
      modifies this`users
      ensures Tables() == Unban(old(Tables()), u)
      ensures restored <==> u in old(users) && old(users)[u].status == Banned && old(users)[u].approvedAt.Some?
      ensures users == if restored then old(users)[u := old(users)[u].(status := Approved)] else old(users)
    {
      if u !in users || users[u].status != Banned {
        return false;
      }
      if users[u].approvedAt.None? {
        return false;
      }
      UpdateStatus(u, Approved);
      return true;
    }

    /** The comparison loops: whether some receipt of `among` is similar. */
    method AnySimilar(among: set<nat>, hash: int, threshold: int) returns (r: Result<bool, Failure>)
      requires among <= receipts.Keys
      ensures r.Err? ==> r.error == BadThreshold && threshold < 0 && Hashed(Tables())
      ensures r.Ok? ==> (r.value <==> exists x :: x in among && Resembles(Tables(), x, hash, threshold))
      ensures r.Ok? && threshold < 0 ==> forall x :: x in among ==> receipts[x].hash.None?
    {
      var todo := among;
      while todo != {}
        invariant todo <= among
        invariant forall x :: x in among - todo ==> !Resembles(Tables(), x, hash, threshold)
        invariant threshold < 0 ==> forall x :: x in among - todo ==> receipts[x].hash.None?
        decreases |todo|
      {
        var x :| x in todo;
        todo := todo - {x};
        if receipts[x].hash.None? {
          continue;
        }
        var similar := IsSimilar(hash, receipts[x].hash.value, threshold);
        if similar.Err? {
          return Err(BadThreshold);
        }
        if similar.value {
          return Ok(true);
        }
      }
      return Ok(false);
    }

    /** Approved and rejected receipts of anybody: one pass that notes both kinds. */
    method ScanResolved(hash: int, threshold: int) returns (r: Result<(bool, bool), Failure>)
      ensures r.Err? ==> r.error == BadThreshold && threshold < 0 && Hashed(Tables())
      ensures r.Ok? ==> r.value.0 == AnyAmong(Tables(), receipts.Keys, hash, threshold, Accepted)
      ensures r.Ok? ==> r.value.1 == AnyAmong(Tables(), receipts.Keys, hash, threshold, Declined)
      ensures r.Ok? && threshold < 0 ==> forall x :: x in receipts && receipts[x].status != Pending ==>
                receipts[x].hash.None?
    {
      var approved, rejected := false, false;
      var seen: set<nat> := {};
      while seen != receipts.Keys
        invariant seen <= receipts.Keys
        invariant approved <==> AnyAmong(Tables(), seen, hash, threshold, Accepted)
        invariant rejected <==> AnyAmong(Tables(), seen, hash, threshold, Declined)
        invariant threshold < 0 ==> forall x :: x in seen && receipts[x].status != Pending ==> receipts[x].hash.None?
        decreases |receipts.Keys - seen|
      {
        var x :| x in receipts.Keys - seen;
        OneMoreSeen(Tables(), seen, x, hash, threshold);
        assert receipts.Keys - (seen + {x}) < receipts.Keys - seen;
        seen := seen + {x};
        if receipts[x].status == Pending || receipts[x].hash.None? {
          continue;
        }
        var similar := IsSimilar(hash, receipts[x].hash.value, threshold);
        if similar.Err? {
          return Err(BadThreshold);
        }
        if similar.value {
          if receipts[x].status == Accepted {
            approved := true;
          } else {
            rejected := true;
          }
        }
      }
      return Ok((approved, rejected));
    }

    method ScanForWarnings(u: nat, hash: int, threshold: int) returns (r: Result<seq<Warning>, Failure>)
      ensures r.Err? ==> r.error == BadThreshold && threshold < 0 && Hashed(Tables())
      ensures r.Ok? ==> ExactWarnings(Tables(), u, hash, threshold, r.value)
      ensures r.Ok? && threshold < 0 ==> forall x :: x in receipts && x !in PendingOf(Tables(), u) ==>
                receipts[x].hash.None?
    {
      var resolved := ScanResolved(hash, threshold);
      if resolved.Err? {
        return Err(BadThreshold);
      }
      var others := AnySimilar(OthersPending(Tables(), u), hash, threshold);
      if others.Err? {
        return Err(BadThreshold);
      }
      var found: set<Warning> := {};
      if resolved.value.0 { found := found + {DuplicateApproved}; }
      if resolved.value.1 { found := found + {DuplicateRejected}; }
      if others.value { found := found + {DuplicatePendingOther}; }
      if PhoneTwin(Tables(), u) { found := found + {PhoneReused}; }
      FoundIsExact(Tables(), u, hash, threshold, resolved.value.0, resolved.value.1, others.value, found);
      var ws := InOrder(found);
      return Ok(ws);
    }

    method SubmitCall(u: nat, hash: Option<int>, threshold: int, id: nat) returns (r: Result<seq<Warning>, Failure>)
      requires id !in receipts
      modifies this
      ensures var res := Submit(old(Tables()), u, hash, threshold, maxPending, id);
              if res.Ok? then r.Ok? && Tables() == res.value else r == Err(res.error) && Tables() == old(Tables())
      ensures r.Ok? ==> ExactWarnings(old(Tables()), u, hash.value, threshold, r.value)
      ensures Refuses(old(Tables()), u, hash, threshold, maxPending, FailureOf(r))
      ensures r.Ok? ==> receipts == old(receipts)[id := Receipt(u, hash, Pending, None, None)]
      ensures r.Ok? ==> users == if u in old(users) && old(users)[u].status in {PendingPayment, Rejected}
                                 then old(users)[u := old(users)[u].(status := PendingApproval)] else old(users)
    {
      hide Refuses;
      SubmitRefuses(Tables(), u, hash, threshold, maxPending);
      var mine := PendingOf(Tables(), u);
      if |mine| >= maxPending {
        return Err(LimitExceeded);
      }
      if hash.None? {
        return Err(BadImage);
      }
      var twin := AnySimilar(mine, hash.value, threshold);
      if twin.Err? {
        return Err(BadThreshold);
      }
      if twin.value {
        return Err(AlreadyPending);
      }
      var warnings := ScanForWarnings(u, hash.value, threshold);
      if warnings.Err? {
        return Err(BadThreshold);
      }
      receipts := receipts[id := Receipt(u, hash, Pending, None, None)];
      MarkPendingApprovalCall(u);
      return Ok(warnings.value);
    }

    /** The guarded UPDATE of a receipt. */
    method ResolveRow(r: nat, status: ReceiptStatus, review: Review, reason: Option<string>) returns (rowcount: nat)
      modifies this`receipts
      ensures rowcount == if IsPending(old(Tables()), r) then 1 else 0
      ensures rowcount == 0 ==> Tables() == old(Tables())
      ensures rowcount == 1 ==>
                Tables() == Resolve(old(Tables()), r, status, review,
                                    if reason.Some? then reason else old(receipts)[r].reason)
    {
      if r in receipts && receipts[r].status == Pending {
        var kept := if reason.Some? then reason else receipts[r].reason;
        receipts := receipts[r := receipts[r].(status := status, review := Some(review), reason := kept)];
        return 1;
      }
      return 0;
    }

    /** Where the caller lets the error pass, its transaction rolls back; where it is caught, what the
        statements have done is committed. */
    method ApproveCall(r: nat, admin: nat, now: int, changedOnly: bool, caught: bool)
      returns (res: Result<User, Failure>)
      modifies this
      ensures var spec := Approve(old(Tables()), r, admin, now);
              if spec.Ok? then res.Ok? && Tables() == spec.value && res.value.status == Approved
              else res == Err(spec.error)
                   && Tables() == if caught then ApproveHolds(old(Tables()), r, admin, now) else old(Tables())
      ensures res == Err(AlreadyProcessed) <==> !(r in old(receipts) && old(receipts)[r].status == Pending)
      ensures res.Err? && res.error != AlreadyProcessed ==>
                res == Err(UserBanned)
                && (old(receipts)[r].user in old(users) ==> old(users)[old(receipts)[r].user].status == Banned)
      ensures res.Ok? ==>
                var u := old(receipts)[r].user;
                && u in old(users) && old(users)[u].status != Banned
                && users == old(users)[u := res.value]
                && res.value == old(users)[u].(status := Approved,
                                               approvedAt := if old(users)[u].approvedAt.Some?
                                                             then old(users)[u].approvedAt else Some(now))
      ensures res.Err? ==> users == old(users)
      ensures receipts == if res.Ok? || (caught && res == Err(UserBanned))
                          then old(receipts)[r := old(receipts)[r].(status := Accepted,
                                                                    review := Some(Review(admin, now)))]
                          else old(receipts)
    {
      var users0, receipts0 := users, receipts;
      var rowcount := ResolveRow(r, Accepted, Review(admin, now), None);
      if rowcount == 0 {
        return Err(AlreadyProcessed);
      }
      var u := receipts[r].user;
      var userRows := MarkApprovedRow(u, now, changedOnly);
      if userRows == 0 && (u !in users || users[u].status == Banned) {
        if !caught {
          users, receipts := users0, receipts0;
        }
        return Err(UserBanned);
      }
      return Ok(users[u]);
    }

    method RejectCall(r: nat, admin: nat, reason: string, now: int) returns (res: Result<(), Failure>)
      modifies this
      ensures var spec := Reject(old(Tables()), r, admin, reason, now);
              if spec.Ok? then res.Ok? && Tables() == spec.value
              else res == Err(spec.error) && Tables() == old(Tables())
      ensures res == Err(EmptyReason) <==> AllSpace(reason)
      ensures res == Err(AlreadyProcessed) <==>
              !AllSpace(reason) && !(r in old(receipts) && old(receipts)[r].status == Pending)
      ensures res.Ok? ==>
                var u := old(receipts)[r].user;
                && receipts == old(receipts)[r := old(receipts)[r].(status := Declined,
                                                                    review := Some(Review(admin, now)),
                                                                    reason := Some(Strip(reason)))]
                && users == if u in old(users) && old(users)[u].status != Banned
                            then old(users)[u := old(users)[u].(status := Rejected)] else old(users)
    {
      BlankIff(reason);
      var cleaned := Strip(reason);
      if cleaned == "" {
        return Err(EmptyReason);
      }
      var rowcount := ResolveRow(r, Declined, Review(admin, now), Some(cleaned));
      if rowcount == 0 {
        return Err(AlreadyProcessed);
      }
      MarkRejectedRow(receipts[r].user);
      return Ok(());
    }
  }

  /** `sorted(warnings, key=order.index)`. */
  method InOrder(found: set<Warning>) returns (ws: seq<Warning>)
    ensures forall w :: w in ws <==> w in found
    ensures forall i, j :: 0 <= i < j < |ws| ==> Place(ws[i]) < Place(ws[j])
  {
    ws := [];
    for k := 0 to |ORDER|
      invariant forall w :: w in ws <==> w in found && Place(w) < k
      invariant forall i, j :: 0 <= i < j < |ws| ==> Place(ws[i]) < Place(ws[j])
    {
      if ORDER[k] in found {
        ws := ws + [ORDER[k]];
      }
    }
  }
}
