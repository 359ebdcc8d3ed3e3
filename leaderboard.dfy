/**
 * The referral leaderboard: the top ten rows with a positive
 * `referral_count`, refetched on every change to the table
 * (src/components/Leaderboard.tsx).
 */
module Leaderboard {
  import opened Sorting
  import opened Store

  const Limit: nat := 10

  function ReferralCount(r: Record): int { r.referralCount }

  /** `.gt('referral_count', 0)`, keeping table order. */
  function Referrers(t: Table): (r: Table)
    ensures forall k :: 0 <= k < |r| ==> r[k].referralCount > 0
    ensures multiset(r) <= multiset(t)
    ensures forall k :: 0 <= k < |t| && t[k].referralCount > 0 ==> t[k] in r
  {
    if t == [] then []
    else
      assert t == [t[0]] + t[1..];
      if t[0].referralCount > 0 then [t[0]] + Referrers(t[1..]) else Referrers(t[1..])
  }

  /** `fetchLeaders`' query: filter, order by `referral_count` descending, limit 10. */
  function TopReferrers(t: Table): Table {
    TopK(Referrers(t), ReferralCount, Limit)
  }

  /**
   * Every row shown has referred someone, the rows are in non-increasing
   * `referral_count` order, there are at most ten of them, they come from the
   * table, and no positive row left out has a higher count than one shown.
   */
  lemma TopReferrersSpec(t: Table)
    ensures |TopReferrers(t)| <= Limit
    ensures forall k :: 0 <= k < |TopReferrers(t)| ==> TopReferrers(t)[k].referralCount > 0
    ensures SortedDesc(TopReferrers(t), ReferralCount)
    ensures multiset(TopReferrers(t)) <= multiset(t)
    ensures forall x, y :: x in multiset(Referrers(t)) - multiset(TopReferrers(t)) && y in TopReferrers(t)
              ==> x.referralCount <= y.referralCount
  {
    var p := Referrers(t);
    var r := TopReferrers(t);
    TopKSpec(p, ReferralCount, Limit);
    assert multiset(r) <= multiset(p);
    forall k | 0 <= k < |r| ensures r[k].referralCount > 0 {
      assert r[k] in multiset(p);
    }
    forall x, y | x in multiset(p) - multiset(r) && y in r
      ensures x.referralCount <= y.referralCount
    {
      assert ReferralCount(x) <= ReferralCount(y);
    }
  }

  /** After a successful fetch the list is empty exactly when no row has a positive count. */
  lemma EmptyIffNoReferrers(t: Table)
    ensures TopReferrers(t) == [] <==> forall k :: 0 <= k < |t| ==> t[k].referralCount <= 0
  {
    var p := Referrers(t);
    if p != [] {
      assert p[0] in multiset(t);
    }
  }

  /** The trophy icon drawn beside a rank. */
  datatype RankIcon = Crown | Trophy | Medal | Award

  function RankIconAt(index: nat): RankIcon {
    match index
    case 0 => Crown
    case 1 => Trophy
    case 2 => Medal
    case _ => Award
  }

  const DefaultBadge := "bg-gradient-to-r from-purple-500 to-purple-700"

  function RankBadgeAt(index: nat): string {
    match index
    case 0 => "bg-gradient-to-r from-yellow-400 to-yellow-600"
    case 1 => "bg-gradient-to-r from-gray-300 to-gray-500"
    case 2 => "bg-gradient-to-r from-amber-500 to-amber-700"
    case _ => DefaultBadge
  }

  /** The first three ranks get three distinct styles; every later rank gets the default. */
  lemma RankStyles(index: nat)
    ensures index >= 3 <==> RankIconAt(index) == Award
    ensures index >= 3 <==> RankBadgeAt(index) == DefaultBadge
    ensures forall i: nat, j: nat :: i < 3 && j < 3 && i != j ==> RankIconAt(i) != RankIconAt(j) && RankBadgeAt(i) != RankBadgeAt(j)
  {
  }

  /** The component's state: the rows shown and the loading flag. */
  class LeaderboardView {
    var leaders: Table
    var isLoading: bool

    constructor ()
      ensures leaders == [] && isLoading
    {
      leaders, isLoading := [], true;
    }

    /** `fetchLeaders` against the table `t`; a failed query keeps the rows already shown. */
    method FetchLeaders(t: Table, queryFails: bool)
      modifies this
      ensures !isLoading
      ensures leaders == if queryFails then old(leaders) else TopReferrers(t)
    {
      if !queryFails {
        leaders := TopReferrers(t);
      }
      isLoading := false;
    }

    /** The section renders nothing: no rows and not loading. */
    predicate RendersNothing()
      reads this
    {
      leaders == [] && !isLoading
    }
  }
}
