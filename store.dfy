/**
 * The `waitlist_signups` table as an in-memory sequence of rows, with the
 * queries the components issue against it. The hosted store and its network
 * client are replaced by these functions; the store's uniqueness constraint on
 * `email` is the `UniqueEmails` invariant.
 */
module Store {
  import opened Wrappers

  /** One row of `waitlist_signups`. `id` stands for the store's UUID, `createdAt` for its timestamp. */
  datatype Record = Record(
    id: nat,
    email: string,
    name: Option<string>,
    city: Option<string>,
    referralCode: string,
    referredBy: Option<nat>,
    referralCount: int,
    createdAt: nat)

  type Table = seq<Record>

  ghost predicate UniqueEmails(t: Table) {
    forall i, j :: 0 <= i < j < |t| ==> t[i].email != t[j].email
  }

  ghost predicate UniqueIds(t: Table) {
    forall i, j :: 0 <= i < j < |t| ==> t[i].id != t[j].id
  }

  ghost predicate IdsBelow(t: Table, bound: nat) {
    forall i :: 0 <= i < |t| ==> t[i].id < bound
  }

  /** Some row already holds `email` (the insert would violate the unique constraint, code 23505). */
  function HasEmail(t: Table, email: string): (b: bool)
    ensures b <==> exists i :: 0 <= i < |t| && t[i].email == email
  {
    if t == [] then false else t[0].email == email || HasEmail(t[1..], email)
  }

  /** `.select('id').eq('referral_code', code)`: the ids of the matching rows, in table order. */
  function IdsWithCode(t: Table, code: string): (ids: seq<nat>)
    ensures |ids| <= |t|
    ensures forall id :: id in ids ==> exists r :: r in t && r.referralCode == code && r.id == id
    ensures (exists r :: r in t && r.referralCode == code) ==> ids != []
  {
    if t == [] then []
    else
      var rest := IdsWithCode(t[1..], code);
      assert forall i :: 1 <= i < |t| ==> t[i] == t[1..][i - 1];
      if t[0].referralCode == code then [t[0].id] + rest else rest
  }

  /** How many rows hold `code`. */
  function CodeCount(t: Table, code: string): nat {
    if t == [] then 0 else (if t[0].referralCode == code then 1 else 0) + CodeCount(t[1..], code)
  }

  /** The lookup yields one id per row holding the code. */
  lemma {:induction false} IdsWithCodeCount(t: Table, code: string)
    ensures |IdsWithCode(t, code)| == CodeCount(t, code)
  {
    if t != [] {
      IdsWithCodeCount(t[1..], code);
    }
  }

  /**
   * `.maybeSingle()` over the code lookup: the id when exactly one row has the
   * code; nothing when none does, and nothing (an error the caller ignores)
   * when several do.
   */
  function LookupByCode(t: Table, code: string): (r: Option<nat>)
    ensures r.Some? ==> exists row :: row in t && row.referralCode == code && row.id == r.value
    ensures r.Some? <==> CodeCount(t, code) == 1
  {
    IdsWithCodeCount(t, code);
    var ids := IdsWithCode(t, code);
    if |ids| == 1 then
      assert ids[0] in ids;
      Some(ids[0])
    else None
  }

  /** `.eq('id', id).single()`: the row with that id, if there is one. */
  function FindById(t: Table, id: nat): (r: Option<Record>)
    ensures r.Some? ==> r.value in t && r.value.id == id
    ensures r.None? ==> forall i :: 0 <= i < |t| ==> t[i].id != id
  {
    if t == [] then None
    else if t[0].id == id then Some(t[0])
    else
      var r := FindById(t[1..], id);
      assert forall i :: 1 <= i < |t| ==> t[i] == t[1..][i - 1];
      r
  }

  /** `.update({ referral_count: n }).eq('id', id)` */
  function SetReferralCount(t: Table, id: nat, n: int): (r: Table)
    ensures |r| == |t|
    ensures forall i :: 0 <= i < |t| ==>
      r[i] == if t[i].id == id then t[i].(referralCount := n) else t[i]
  {
    seq(|t|, i requires 0 <= i < |t| => if t[i].id == id then t[i].(referralCount := n) else t[i])
  }

  /** `count` of `.lte('created_at', at)`: rows created no later than `at`. */
  function CountCreatedUpTo(t: Table, at: nat): (n: nat)
    ensures n <= |t|
  {
    if t == [] then 0
    else (if t[0].createdAt <= at then 1 else 0) + CountCreatedUpTo(t[1..], at)
  }

  /** Counting over a concatenation adds up. */
  lemma {:induction false} CountCreatedUpToAppend(t: Table, u: Table, at: nat)
    ensures CountCreatedUpTo(t + u, at) == CountCreatedUpTo(t, at) + CountCreatedUpTo(u, at)
  {
    if t == [] {
      assert t + u == u;
    } else {
      assert (t + u)[1..] == t[1..] + u;
      CountCreatedUpToAppend(t[1..], u, at);
    }
  }

  /** When every row was created no later than `at`, all of them are counted. */
  lemma {:induction false} CountCreatedUpToAll(t: Table, at: nat)
    requires forall i :: 0 <= i < |t| ==> t[i].createdAt <= at
    ensures CountCreatedUpTo(t, at) == |t|
  {
    if t != [] {
      CountCreatedUpToAll(t[1..], at);
    }
  }

  /** Changing a referral count does not change which rows are counted. */
  lemma {:induction false} CountIgnoresReferralCount(t: Table, id: nat, n: int, at: nat)
    ensures CountCreatedUpTo(SetReferralCount(t, id, n), at) == CountCreatedUpTo(t, at)
  {
    if t != [] {
      assert SetReferralCount(t, id, n)[1..] == SetReferralCount(t[1..], id, n);
      CountIgnoresReferralCount(t[1..], id, n, at);
    }
  }
}
