/**
 * The waitlist signup form: e-mail checks, referral-code issuance, referrer
 * resolution from the page's `?ref=` parameter, the insert with its
 * duplicate-email outcome, the read-then-write referral increment and the
 * position count (src/components/Waitlist.tsx).
 */
module Waitlist {
  import opened Wrappers
  import opened Text
  import opened Store

  const EmptyEmailMessage := "Please enter your email address"
  const InvalidEmailMessage := "Please enter a valid email address"
  const DuplicateEmailMessage := "This email is already on the waitlist!"
  const GenericErrorMessage := "Something went wrong. Please try again."

  // ---------------------------------------------------------------- e-mail shape

  /** A character of the class `[^\s@]`. */
  predicate EmailChar(c: char) {
    !IsSpace(c) && c != '@'
  }

  ghost predicate AllEmailChars(s: string) {
    forall k :: 0 <= k < |s| ==> EmailChar(s[k])
  }

  /**
   * `e` splits as `a "@" b "." c` at positions `i` and `j`, with `a`, `b`, `c`
   * non-empty runs of `[^\s@]`: one way for `^[^\s@]+@[^\s@]+\.[^\s@]+$` to match.
   */
  ghost predicate RegexSplit(e: string, i: int, j: int) {
    0 < i && i + 1 < j && j + 1 < |e| && e[i] == '@' && e[j] == '.'
    && AllEmailChars(e[..i]) && AllEmailChars(e[i + 1..j]) && AllEmailChars(e[j + 1..])
  }

  /** The language of the e-mail regular expression. */
  ghost predicate MatchesEmailRegex(e: string) {
    exists i, j :: RegexSplit(e, i, j)
  }

  /**
   * The e-mail check as a direct test: no white space, exactly one '@' with
   * something before it, and after it a '.' that is neither the first nor the
   * last character of the domain.
   */
  predicate ValidEmail(e: string) {
    (forall k :: 0 <= k < |e| ==> !IsSpace(e[k]))
    && exists i :: 0 < i < |e| && e[i] == '@'
         && (forall k :: 0 <= k < |e| && k != i ==> e[k] != '@')
         && (exists j :: i + 1 < j < |e| - 1 && e[j] == '.')
  }

  /** The direct test accepts exactly the strings the regular expression matches. */
  lemma EmailRegexIff(e: string)
    ensures ValidEmail(e) <==> MatchesEmailRegex(e)
  {
    if ValidEmail(e) {
      var i :| 0 < i < |e| && e[i] == '@'
         && (forall k :: 0 <= k < |e| && k != i ==> e[k] != '@')
         && (exists j :: i + 1 < j < |e| - 1 && e[j] == '.');
      var j :| i + 1 < j < |e| - 1 && e[j] == '.';
      assert RegexSplit(e, i, j);
    }
    if MatchesEmailRegex(e) {
      var i, j :| RegexSplit(e, i, j);
      forall k | 0 <= k < |e| && k != i && k != j
        ensures EmailChar(e[k])
      {
        if k < i {
          assert e[k] == e[..i][k];
        } else if k < j {
          assert e[k] == e[i + 1..j][k - i - 1];
        } else {
          assert e[k] == e[j + 1..][k - j - 1];
        }
      }
      assert forall k :: 0 <= k < |e| ==> !IsSpace(e[k]);
    }
  }

  // ---------------------------------------------------------------- referral code

  /** The answer of the `generate_referral_code` server function. */
  datatype RpcReply = RpcError | RpcData(data: Option<string>)

  /**
   * The local fallback: characters 2 to 10 of `Math.random().toString(36)`
   * (given here as `random36`), upper-cased. The string starts with `0.`, so
   * only its digits from index 2 on reach the code.
   */
  function FallbackCode(random36: string): (code: string)
    ensures |code| <= 8
    ensures |random36| >= 10 ==> |code| == 8
    ensures (forall k :: 2 <= k < |random36| ==> IsAlphaNum(random36[k]))
        ==> forall k :: 0 <= k < |code| ==> IsAlphaNum(code[k]) && !IsAsciiLower(code[k])
  {
    Upper(Substring(random36, 2, 10))
  }

  /** A typical `toString(36)` output, `0.` and base-36 digits, gives an eight-character upper-case code. */
  lemma FallbackExample(random36: string)
    requires random36 == "0.k3x9q2ab7z"
    ensures FallbackCode(random36) == "K3X9Q2AB"
  {
    assert Substring(random36, 2, 10) == "k3x9q2ab";
  }

  /** The server's code when it answered with a non-empty value, the fallback otherwise. */
  function ChooseReferralCode(reply: RpcReply, fallback: string): (code: string)
    ensures reply.RpcData? && reply.data.Some? && reply.data.value != "" ==> code == reply.data.value
    ensures reply.RpcError? || reply.data.None? || reply.data.value == "" ==> code == fallback
  {
    match reply
    case RpcData(Some(v)) => if v != "" then v else fallback
    case _ => fallback
  }

  // ---------------------------------------------------------------- the ?ref= parameter

  /** Splits `s` at every `sep`, as `s.split(sep)`. */
  function Split(s: string, sep: char): (parts: seq<string>)
    ensures |parts| >= 1
    ensures sep !in s ==> parts == [s]
    decreases |s|
  {
    if sep !in s then [s]
    else
      var i := IndexOf(s, sep);
      [s[..i]] + Split(s[i + 1..], sep)
  }

  /** The value of the first `name=value` pair named `name` (no percent-decoding). */
  function ParamIn(pairs: seq<string>, name: string): Option<string> {
    if pairs == [] then None
    else
      var p := pairs[0];
      var key := if '=' in p then p[..IndexOf(p, '=')] else p;
      if p != "" && key == name then Some(if '=' in p then p[IndexOf(p, '=') + 1..] else "")
      else ParamIn(pairs[1..], name)
  }

  /** `new URLSearchParams(search).get(name)` */
  function SearchParam(search: string, name: string): Option<string> {
    var query := if search != [] && search[0] == '?' then search[1..] else search;
    ParamIn(Split(query, '&'), name)
  }

  /** `window.location.search` of a URL: from its '?' up to any '#', empty when there is no query. */
  function SearchOf(url: string): string {
    var noFragment := if '#' in url then url[..IndexOf(url, '#')] else url;
    if '?' in noFragment && IndexOf(noFragment, '?') + 1 < |noFragment|
    then noFragment[IndexOf(noFragment, '?')..]
    else ""
  }

  /** The mount effect: a non-empty `ref` parameter becomes the pending referral code. */
  function RefFromSearch(search: string): (r: Option<string>)
    ensures r.Some? ==> r.value != "" && SearchParam(search, "ref") == r
    ensures r.None? ==> SearchParam(search, "ref") in {None, Some("")}
  {
    match SearchParam(search, "ref")
    case Some(v) => if v != "" then Some(v) else None
    case None => None
  }

  // ---------------------------------------------------------------- signup steps

  /** Store calls whose failure the handler ignores or reports; each is a choice of the environment. */
  datatype StoreFaults = StoreFaults(
    lookupFails: bool,    // the referrer lookup answers with an error
    insertFails: bool,    // the insert fails for a reason other than the e-mail constraint
    rereadFails: bool,    // re-reading the referrer's count answers with an error
    updateFails: bool,    // writing the incremented count fails
    countFails: bool)     // the position count answers with an error

  /** `value || null` for a form field. */
  function NullIfEmpty(s: string): (r: Option<string>)
    ensures r.None? <==> s == ""
    ensures r.Some? ==> r.value == s
  {
    if s == "" then None else Some(s)
  }

  /** The referrer id for the pending code: the one row holding that code, if the lookup answers. */
  function ResolveReferrer(t: Table, pending: Option<string>, lookupFails: bool): (r: Option<nat>)
    ensures r.Some? ==> pending.Some? && exists row :: row in t && row.referralCode == pending.value && row.id == r.value
    ensures r.Some? <==> pending.Some? && !lookupFails && CodeCount(t, pending.value) == 1
  {
    if pending.Some? && !lookupFails then LookupByCode(t, pending.value) else None
  }

  /** The handler's look-up of the pending code: `maybeSingle` on `referral_code`, skipped without a code. */
  method LookUpReferrer(t: Table, pending: Option<string>, lookupFails: bool) returns (referrerId: Option<nat>)
    ensures referrerId == ResolveReferrer(t, pending, lookupFails)
  {
    referrerId := None;
    if pending.Some? {
      var referrerData := if lookupFails then None else LookupByCode(t, pending.value);
      if referrerData.Some? {
        referrerId := referrerData;
      }
    }
  }

  /** A referrer id resolved before the insert is never the id the insert hands out. */
  lemma NoSelfReferral(t: Table, nextId: nat, pending: Option<string>, lookupFails: bool)
    requires IdsBelow(t, nextId)
    ensures ResolveReferrer(t, pending, lookupFails) != Some(nextId)
  {
    var r := ResolveReferrer(t, pending, lookupFails);
    if r.Some? {
      var row :| row in t && row.referralCode == pending.value && row.id == r.value;
    }
  }

  /**
   * After the insert: re-read the referrer's `referral_count` and write it back
   * plus one; a failed read or write leaves the table as it is.
   */
  function ApplyReferral(t: Table, referrer: Option<nat>, rereadFails: bool, updateFails: bool): Table {
    if referrer.None? || rereadFails then t
    else
      match FindById(t, referrer.value)
      case None => t
      case Some(row) => if updateFails then t else SetReferralCount(t, referrer.value, row.referralCount + 1)
  }

  /**
   * The referral step as the handler runs it: re-read the referrer's row by
   * id, then write back its count plus one; a failed read or write is skipped.
   */
  method IncrementReferrer(t: Table, referrerId: Option<nat>, rereadFails: bool, updateFails: bool)
    returns (u: Table)
    ensures u == ApplyReferral(t, referrerId, rereadFails, updateFails)
  {
    u := t;
    if referrerId.Some? {
      var referrerData := if rereadFails then None else FindById(t, referrerId.value);
      if referrerData.Some? && !updateFails {
        u := SetReferralCount(t, referrerId.value, referrerData.value.referralCount + 1);
      }
    }
  }

  /** Without faults, the referrer's count goes up by exactly one and no other row changes. */
  lemma ReferralIncrementsReferrerOnly(t: Table, referrer: nat, i: nat)
    requires UniqueIds(t) && i < |t| && t[i].id == referrer
    ensures var u := ApplyReferral(t, Some(referrer), false, false);
      |u| == |t| && u[i] == t[i].(referralCount := t[i].referralCount + 1)
      && forall k :: 0 <= k < |t| && k != i ==> u[k] == t[k]
  {
    var found := FindById(t, referrer);
    assert found.Some?;
    assert found.value == t[i] by {
      var k :| 0 <= k < |t| && t[k] == found.value;
      assert k == i;
    }
  }

  /** `count || 1`: the position shown for the count query's answer. */
  function PositionShown(count: Option<nat>): (p: nat)
    ensures p >= 1
    ensures count.Some? && count.value > 0 ==> p == count.value
  {
    match count
    case Some(n) => if n > 0 then n else 1
    case None => 1
  }

  /** How a submission ends, decided in the order the handler checks. */
  datatype Stage = EmptyEmail | MalformedEmail | InsertFailed | DuplicateEmail | Joined

  function SubmitStage(email: string, t: Table, insertFails: bool): Stage {
    if email == "" then EmptyEmail
    else if !ValidEmail(email) then MalformedEmail
    else if insertFails then InsertFailed
    else if HasEmail(t, email) then DuplicateEmail
    else Joined
  }

  /** The inline message for each way a submission ends; a successful one shows none. */
  function StageMessage(s: Stage): (m: string)
    ensures m == "" <==> s == Joined
  {
    match s
    case EmptyEmail => EmptyEmailMessage
    case MalformedEmail => InvalidEmailMessage
    case InsertFailed => GenericErrorMessage
    case DuplicateEmail => DuplicateEmailMessage
    case Joined => ""
  }

  /** The row the insert creates; `referral_count` takes the table default 0. */
  function NewRow(id: nat, email: string, name: string, city: string, code: string,
                  referrer: Option<nat>, now: nat): Record
  {
    Record(id, email, NullIfEmpty(name), NullIfEmpty(city), code, referrer, 0, now)
  }

  // ---------------------------------------------------------------- referral bookkeeping

  /** The number of rows that name `id` as their referrer. */
  function Referrals(t: Table, id: nat): (n: nat)
    ensures n <= |t|
  {
    if t == [] then 0
    else (if t[0].referredBy == Some(id) then 1 else 0) + Referrals(t[1..], id)
  }

  /** Every row's `referral_count` equals the number of rows it referred. */
  ghost predicate CountsMatchReferrals(t: Table) {
    forall i :: 0 <= i < |t| ==> t[i].referralCount == Referrals(t, t[i].id)
  }

  /** Every referrer a row names was handed out before `bound`. */
  ghost predicate ReferrersBelow(t: Table, bound: nat) {
    forall i :: 0 <= i < |t| ==> t[i].referredBy.Some? ==> t[i].referredBy.value < bound
  }

  lemma {:induction false} ReferralsAppend(t: Table, r: Record, id: nat)
    ensures Referrals(t + [r], id) == Referrals(t, id) + (if r.referredBy == Some(id) then 1 else 0)
  {
    if t == [] {
      assert t + [r] == [r];
    } else {
      assert (t + [r])[1..] == t[1..] + [r];
      ReferralsAppend(t[1..], r, id);
    }
  }

  lemma {:induction false} ReferralsIgnoreCounts(t: Table, id: nat, n: int, x: nat)
    ensures Referrals(SetReferralCount(t, id, n), x) == Referrals(t, x)
  {
    if t != [] {
      assert SetReferralCount(t, id, n)[1..] == SetReferralCount(t[1..], id, n);
      ReferralsIgnoreCounts(t[1..], id, n, x);
    }
  }

  lemma {:induction false} NoReferralsAbove(t: Table, bound: nat, x: nat)
    requires ReferrersBelow(t, bound) && x >= bound
    ensures Referrals(t, x) == 0
  {
    if t != [] {
      NoReferralsAbove(t[1..], bound, x);
    }
  }

  /**
   * A signup whose secondary writes succeed keeps every `referral_count`
   * equal to the number of rows referring to that row: the new row starts at
   * 0 and its referrer's count rises with it.
   */
  lemma SignupKeepsCountsMatching(t: Table, nextId: nat, row: Record)
    requires CountsMatchReferrals(t) && UniqueIds(t) && IdsBelow(t, nextId) && ReferrersBelow(t, nextId)
    requires row.id == nextId && row.referralCount == 0
    requires row.referredBy.Some? ==> exists k :: 0 <= k < |t| && t[k].id == row.referredBy.value
    ensures CountsMatchReferrals(ApplyReferral(t + [row], row.referredBy, false, false))
  {
    var t1 := t + [row];
    assert UniqueIds(t1);
    forall x: nat ensures Referrals(t1, x) == Referrals(t, x) + (if row.referredBy == Some(x) then 1 else 0) {
      ReferralsAppend(t, row, x);
    }
    NoReferralsAbove(t, nextId, nextId);
    if row.referredBy.None? {
      assert ApplyReferral(t1, row.referredBy, false, false) == t1;
    } else {
      var r := row.referredBy.value;
      var k :| 0 <= k < |t| && t[k].id == r;
      forall i | 0 <= i < |t1| && i != k ensures t1[i].referralCount == Referrals(t1, t1[i].id) {
        if i < |t| {
          assert t1[i] == t[i];
        }
      }
      BumpCompletesCounts(t1, r, k);
    }
  }

  /** When only the referrer's row is one short, the referral step makes every count match again. */
  lemma BumpCompletesCounts(t: Table, r: nat, k: nat)
    requires UniqueIds(t) && k < |t| && t[k].id == r
    requires t[k].referralCount + 1 == Referrals(t, r)
    requires forall i :: 0 <= i < |t| && i != k ==> t[i].referralCount == Referrals(t, t[i].id)
    ensures CountsMatchReferrals(ApplyReferral(t, Some(r), false, false))
  {
    var u := ApplyReferral(t, Some(r), false, false);
    ReferralIncrementsReferrerOnly(t, r, k);
    forall x: nat ensures Referrals(u, x) == Referrals(t, x) {
      var found := FindById(t, r);
      ReferralsIgnoreCounts(t, r, found.value.referralCount + 1, x);
    }
    forall i | 0 <= i < |u| ensures u[i].referralCount == Referrals(u, u[i].id) {
      if i != k {
        assert u[i] == t[i];
      }
    }
  }

  /**
   * With a store clock that only moves forward, the position counted for a
   * new row is the number of rows before it plus one: the N-th signup is
   * shown #N.
   */
  lemma PositionOfNewest(t: Table, row: Record, referrer: Option<nat>, rereadFails: bool, updateFails: bool)
    requires forall i :: 0 <= i < |t| ==> t[i].createdAt <= row.createdAt
    ensures PositionShown(Some(CountCreatedUpTo(ApplyReferral(t + [row], referrer, rereadFails, updateFails), row.createdAt)))
            == |t| + 1
  {
    var t1 := t + [row];
    CountCreatedUpToAll(t1, row.createdAt);
    var u := ApplyReferral(t1, referrer, rereadFails, updateFails);
    if u != t1 {
      var found := FindById(t1, referrer.value);
      CountIgnoresReferralCount(t1, referrer.value, found.value.referralCount + 1, row.createdAt);
    }
  }

  /** What the store guarantees of the table: the e-mail constraint and store-issued ids. */
  ghost predicate WellFormed(t: Table, nextId: nat) {
    UniqueEmails(t) && UniqueIds(t) && IdsBelow(t, nextId) && ReferrersBelow(t, nextId)
  }

  lemma InsertKeepsWellFormed(t: Table, nextId: nat, row: Record)
    requires WellFormed(t, nextId) && !HasEmail(t, row.email) && row.id == nextId
    requires row.referredBy.Some? ==> row.referredBy.value < nextId
    ensures WellFormed(t + [row], nextId + 1)
  {
  }

  lemma ApplyReferralKeepsWellFormed(t: Table, nextId: nat, referrer: Option<nat>, rereadFails: bool, updateFails: bool)
    requires WellFormed(t, nextId)
    ensures WellFormed(ApplyReferral(t, referrer, rereadFails, updateFails), nextId)
  {
  }

  /** A fresh signup followed by its referral step keeps the table well formed. */
  lemma SignupKeepsWellFormed(t: Table, nextId: nat, row: Record, rereadFails: bool, updateFails: bool)
    requires WellFormed(t, nextId) && !HasEmail(t, row.email) && row.id == nextId
    requires row.referredBy.Some? ==> row.referredBy.value < nextId
    ensures WellFormed(ApplyReferral(t + [row], row.referredBy, rereadFails, updateFails), nextId + 1)
  {
    InsertKeepsWellFormed(t, nextId, row);
    ApplyReferralKeepsWellFormed(t + [row], nextId + 1, row.referredBy, rereadFails, updateFails);
  }

  // ---------------------------------------------------------------- the form

  /** The form's state together with the signup table it writes to. */
  class SignupForm {
    var email: string
    var name: string
    var city: string
    var submitted: bool
    var error: string
    var isLoading: bool
    var referralCode: string
    var position: Option<nat>
    var referredBy: Option<string>
    var rows: Table
    var nextId: nat

    ghost predicate Valid()
      reads this
    {
      WellFormed(rows, nextId)
    }

    /** Mounting the form over the table as it stands; the query string is read once. */
    constructor (t: Table, nextIdInStore: nat, search: string)
      requires WellFormed(t, nextIdInStore)
      ensures Valid() && rows == t && nextId == nextIdInStore
      ensures referredBy == RefFromSearch(search)
      ensures email == "" && name == "" && city == "" && error == "" && referralCode == ""
      ensures !submitted && !isLoading && position.None?
    {
      email, name, city := "", "", "";
      submitted, error, isLoading := false, "", false;
      referralCode, position := "", None;
      rows, nextId := t, nextIdInStore;
      referredBy := RefFromSearch(search);
    }

    /**
     * `handleSubmit`: validates the e-mail, issues a code, resolves the
     * referrer, inserts, raises the referrer's count and counts the position.
     */
    method Submit(rpc: RpcReply, fallback: string, faults: StoreFaults, now: nat)
      requires Valid()
      modifies this
      ensures Valid() && !isLoading
      ensures email == old(email) && name == old(name) && city == old(city) && referredBy == old(referredBy)
      ensures error == StageMessage(SubmitStage(old(email), old(rows), faults.insertFails))
      ensures SubmitStage(old(email), old(rows), faults.insertFails) != Joined ==>
              rows == old(rows) && nextId == old(nextId) && submitted == old(submitted)
              && referralCode == old(referralCode) && position == old(position)
      ensures SubmitStage(old(email), old(rows), faults.insertFails) == Joined ==>
              JoinedAs(old(rows), old(nextId), NewRow(old(nextId), old(email), old(name), old(city),
                                                      ChooseReferralCode(rpc, fallback),
                                                      ResolveReferrer(old(rows), old(referredBy), faults.lookupFails), now),
                       faults)
    {
      error := "";
      isLoading := true;

      if email == "" {
        Reject(EmptyEmailMessage);
        return;
      }
      if !ValidEmail(email) {
        Reject(InvalidEmailMessage);
        return;
      }

      var newReferralCode := ChooseReferralCode(rpc, fallback);

      var referrerId := LookUpReferrer(rows, referredBy, faults.lookupFails);
      NoSelfReferral(rows, nextId, referredBy, faults.lookupFails);

      if faults.insertFails {
        Reject(GenericErrorMessage);
        return;
      }
      if HasEmail(rows, email) {
        Reject(DuplicateEmailMessage);
        return;
      }
      var row := NewRow(nextId, email, name, city, newReferralCode, referrerId, now);
      Join(row, faults);
    }

    /** A rejected submission: the message is shown and loading ends. */
    method Reject(message: string)
      modifies this`error, this`isLoading
      ensures error == message && !isLoading
    {
      error, isLoading := message, false;
    }

    /** The outcome of a successful insert of `row` into `t`, as the form and the table show it. */
    ghost predicate JoinedAs(t: Table, id: nat, row: Record, faults: StoreFaults)
      reads this
    {
      rows == ApplyReferral(t + [row], row.referredBy, faults.rereadFails, faults.updateFails)
      && nextId == id + 1 && submitted && referralCode == row.referralCode && error == ""
      && position == Some(PositionShown(if faults.countFails then None else Some(CountCreatedUpTo(rows, row.createdAt))))
    }

    /** The steps after a successful insert: the referral increment and the position count. */
    method Join(row: Record, faults: StoreFaults)
      requires Valid() && error == ""
      requires !HasEmail(rows, row.email) && row.id == nextId && row.referralCount == 0
      requires row.referredBy.Some? ==> row.referredBy.value < nextId
      modifies this
      ensures Valid() && !isLoading && JoinedAs(old(rows), old(nextId), row, faults)
      ensures email == old(email) && name == old(name) && city == old(city) && referredBy == old(referredBy)
    {
      StoreSignup(row, faults);
      var count: Option<nat> := if faults.countFails then None else Some(CountCreatedUpTo(rows, row.createdAt));
      referralCode, position := row.referralCode, Some(PositionShown(count));
      submitted, isLoading := true, false;
    }

    /** The store's side of a signup: the row is inserted, then the referrer's count is raised. */
    method StoreSignup(row: Record, faults: StoreFaults)
      requires Valid()
      requires !HasEmail(rows, row.email) && row.id == nextId
      requires row.referredBy.Some? ==> row.referredBy.value < nextId
      modifies this`rows, this`nextId
      ensures Valid()
      ensures rows == ApplyReferral(old(rows) + [row], row.referredBy, faults.rereadFails, faults.updateFails)
      ensures nextId == old(nextId) + 1
    {
      SignupKeepsWellFormed(rows, nextId, row, faults.rereadFails, faults.updateFails);
      rows := IncrementReferrer(rows + [row], row.referredBy, faults.rereadFails, faults.updateFails);
      nextId := nextId + 1;
    }

    /** The delayed clean-up after a successful signup empties the three fields. */
    method ClearFields()
      modifies this
      ensures email == "" && name == "" && city == ""
      ensures submitted == old(submitted) && error == old(error) && isLoading == old(isLoading)
      ensures referralCode == old(referralCode) && position == old(position) && referredBy == old(referredBy)
      ensures rows == old(rows) && nextId == old(nextId)
    {
      email, name, city := "", "", "";
    }
  }
}
