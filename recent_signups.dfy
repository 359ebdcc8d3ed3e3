/**
 * The "recent signups" panel: the five newest rows, kept fresh by prepending
 * each inserted row, and the labels drawn for each entry
 * (src/components/RecentSignups.tsx).
 */
module RecentSignups {
  import opened Wrappers
  import opened Text
  import opened Sorting
  import opened Store

  const Limit: nat := 5

  function CreatedAt(r: Record): int { r.createdAt }

  /** `fetchRecentSignups`' query: order by `created_at` descending, limit 5. */
  function Newest(t: Table): Table {
    TopK(t, CreatedAt, Limit)
  }

  /** The fetch returns at most five rows of the table, newest first, and none older than a row left out. */
  lemma NewestSpec(t: Table)
    ensures |Newest(t)| <= Limit
    ensures |Newest(t)| == Limit || |Newest(t)| == |t|
    ensures SortedDesc(Newest(t), CreatedAt)
    ensures multiset(Newest(t)) <= multiset(t)
    ensures forall x, y :: x in multiset(t) - multiset(Newest(t)) && y in Newest(t) ==> x.createdAt <= y.createdAt
  {
    TopKSpec(t, CreatedAt, Limit);
    forall x, y | x in multiset(t) - multiset(Newest(t)) && y in Newest(t)
      ensures x.createdAt <= y.createdAt
    {
      assert CreatedAt(x) <= CreatedAt(y);
    }
  }

  /** The insert handler's update: the new row first, then at most four of the previous ones. */
  function PushRecent(prev: Table, r: Record): (next: Table)
    ensures 1 <= |next| <= Limit
    ensures next[0] == r
    ensures |next| - 1 <= |prev| && next[1..] == prev[..|next| - 1]
    ensures |prev| >= Limit - 1 ==> |next| == Limit
  {
    [r] + prev[..if |prev| < Limit - 1 then |prev| else Limit - 1]
  }

  /** Prepending a row no older than the current head keeps the list newest first. */
  lemma PushRecentKeepsOrder(prev: Table, r: Record)
    requires SortedDesc(prev, CreatedAt)
    requires prev != [] ==> prev[0].createdAt <= r.createdAt
    ensures SortedDesc(PushRecent(prev, r), CreatedAt)
  {
    var next := PushRecent(prev, r);
    forall i, j | 0 <= i < j < |next| ensures CreatedAt(next[i]) >= CreatedAt(next[j]) {
      if i == 0 {
        assert next[j] == prev[j - 1];
        assert CreatedAt(prev[0]) >= CreatedAt(prev[j - 1]);
      } else {
        assert next[i] == prev[i - 1] && next[j] == prev[j - 1];
      }
    }
  }

  // ---------------------------------------------------------------- labels

  /** The age label of an entry. */
  datatype Age = JustNow | MinutesAgo(minutes: nat) | HoursAgo(hours: nat) | DaysAgo(days: nat)

  /**
   * `getTimeAgo` from the two clock readings in milliseconds; the seconds are
   * floored, so a row stamped in the future (clock skew) counts as "just now".
   */
  function AgeOf(nowMs: int, createdMs: int): (a: Age)
    ensures var s := (nowMs - createdMs) / 1000;
      (a.JustNow? <==> s < 60)
      && (a.MinutesAgo? ==> 60 <= s < 3600 && a.minutes == s / 60 && 1 <= a.minutes <= 59)
      && (a.HoursAgo? ==> 3600 <= s < 86400 && a.hours == s / 3600 && 1 <= a.hours <= 23)
      && (a.DaysAgo? ==> 86400 <= s && a.days == s / 86400 && 1 <= a.days)
  {
    var seconds := (nowMs - createdMs) / 1000;
    if seconds < 60 then JustNow
    else if seconds < 3600 then MinutesAgo(seconds / 60)
    else if seconds < 86400 then HoursAgo(seconds / 3600)
    else DaysAgo(seconds / 86400)
  }

  function AgeLabel(a: Age): string {
    match a
    case JustNow => "just now"
    case MinutesAgo(m) => NatToString(m) + "m ago"
    case HoursAgo(h) => NatToString(h) + "h ago"
    case DaysAgo(d) => NatToString(d) + "d ago"
  }

  /** The avatar letter: the upper-cased first character of the name, or '?' without a name. */
  function Initial(name: Option<string>): (c: char)
    ensures name.None? || name.value == "" ==> c == '?'
    ensures name.Some? && name.value != "" ==> c == UpperChar(name.value[0])
  {
    if name.Some? && name.value != "" then UpperChar(name.value[0]) else '?'
  }

  /** The name shown: the stored one, or "Anonymous" when it is missing or empty. */
  function DisplayName(name: Option<string>): (s: string)
    ensures s != ""
    ensures name.Some? && name.value != "" ==> s == name.value
  {
    if name.Some? && name.value != "" then name.value else "Anonymous"
  }

  /** The line under the name: the city when known, "joined" otherwise. */
  function CityLine(city: Option<string>): string {
    if city.Some? && city.value != "" then "from " + city.value else "joined"
  }

  /** The panel's state. */
  class RecentSignupsView {
    var signups: Table

    constructor ()
      ensures signups == []
    {
      signups := [];
    }

    /** A realtime INSERT event carrying row `r`. */
    method OnInsert(r: Record)
      modifies this
      ensures signups == PushRecent(old(signups), r)
    {
      signups := PushRecent(signups, r);
    }

    /** `fetchRecentSignups` against the table `t`; a failed query keeps the list as it is. */
    method FetchRecentSignups(t: Table, queryFails: bool)
      modifies this
      ensures signups == if queryFails then old(signups) else Newest(t)
    {
      if !queryFails {
        signups := Newest(t);
      }
    }

    /** The panel renders nothing while the list is empty. */
    predicate RendersNothing()
      reads this
    {
      signups == []
    }
  }
}
