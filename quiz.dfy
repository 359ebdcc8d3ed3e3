/**
 * The personality quiz: three questions, one category per answer, and a
 * result that is the most frequent category, ties going to the category
 * answered first (src/components/Quiz.tsx).
 */
module Quiz {
  import opened Sorting

  datatype Category = Sports | Culture | Travel | Dining

  const QuestionCount: nat := 3

  /** The title of the result card for each category. */
  function ResultTitle(c: Category): string {
    match c
    case Sports => "Sports Enthusiast"
    case Culture => "Culture Explorer"
    case Travel => "Adventure Seeker"
    case Dining => "Culinary Connoisseur"
  }

  /** How often `c` occurs in `a`. */
  function Occurrences(a: seq<Category>, c: Category): (n: nat)
    ensures n <= |a|
    ensures c !in a ==> n == 0
  {
    if a == [] then 0
    else Occurrences(a[..|a| - 1], c) + (if a[|a| - 1] == c then 1 else 0)
  }

  /** The index of the first occurrence of `c` in `a`. */
  function FirstIndex(a: seq<Category>, c: Category): (i: nat)
    requires c in a
    ensures i < |a| && a[i] == c
    ensures forall j :: 0 <= j < i ==> a[j] != c
  {
    if a[0] == c then 0 else 1 + FirstIndex(a[1..], c)
  }

  /** One key of the tally object, in the object's key order. */
  datatype Entry = Entry(category: Category, count: nat)

  function EntryCount(e: Entry): int { e.count }

  /** `acc[answer] = (acc[answer] || 0) + 1`: bump an existing key, or add it last. */
  function AddAnswer(t: seq<Entry>, c: Category): (r: seq<Entry>)
    ensures r != []
  {
    if t == [] then [Entry(c, 1)]
    else if t[0].category == c then [Entry(c, t[0].count + 1)] + t[1..]
    else [t[0]] + AddAnswer(t[1..], c)
  }

  /** `answers.reduce(...)`: the tally built from the left. */
  function Tally(a: seq<Category>): (t: seq<Entry>)
    ensures a != [] ==> t != []
  {
    if a == [] then [] else AddAnswer(Tally(a[..|a| - 1]), a[|a| - 1])
  }

  /** `getResult`: the first key after a stable sort of the entries by count, largest first. */
  function TopCategory(a: seq<Category>): Category
    requires a != []
  {
    SortDesc(Tally(a), EntryCount)[0].category
  }

  // ---------------------------------------------------------------- the tally's shape

  ghost predicate DistinctKeys(t: seq<Entry>) {
    forall i, j :: 0 <= i < j < |t| ==> t[i].category != t[j].category
  }

  /** Each key's count is how often `a` holds it. */
  ghost predicate CountsOf(t: seq<Entry>, a: seq<Category>) {
    forall i :: 0 <= i < |t| ==> t[i].category in a && t[i].count == Occurrences(a, t[i].category)
  }

  /** Every category answered has a key. */
  ghost predicate Covers(t: seq<Entry>, a: seq<Category>) {
    forall c :: c in a ==> exists i :: 0 <= i < |t| && t[i].category == c
  }

  /** Keys come in the order their categories were first answered. */
  ghost predicate InFirstOrder(t: seq<Entry>, a: seq<Category>)
    requires forall i :: 0 <= i < |t| ==> t[i].category in a
  {
    forall i, j :: 0 <= i < j < |t| ==> FirstIndex(a, t[i].category) < FirstIndex(a, t[j].category)
  }

  /** `t` is the tally of `a`: one key per category answered, with its count, in first-answered order. */
  ghost predicate TallyOf(t: seq<Entry>, a: seq<Category>) {
    DistinctKeys(t) && CountsOf(t, a) && Covers(t, a) && InFirstOrder(t, a)
  }

  /** Adding an answer bumps its key in place, or appends a new key with count 1. */
  lemma {:induction false} AddAnswerSpec(t: seq<Entry>, c: Category)
    requires DistinctKeys(t)
    ensures forall i :: 0 <= i < |t| && t[i].category == c ==> AddAnswer(t, c) == t[i := Entry(c, t[i].count + 1)]
    ensures (forall i :: 0 <= i < |t| ==> t[i].category != c) ==> AddAnswer(t, c) == t + [Entry(c, 1)]
  {
    if t != [] && t[0].category != c {
      AddAnswerSpec(t[1..], c);
      forall i | 0 <= i < |t| && t[i].category == c
        ensures AddAnswer(t, c) == t[i := Entry(c, t[i].count + 1)]
      {
        assert t[1..][i - 1].category == c;
        assert [t[0]] + t[1..][i - 1 := Entry(c, t[i].count + 1)] == t[i := Entry(c, t[i].count + 1)];
      }
      if forall i :: 0 <= i < |t| ==> t[i].category != c {
        assert [t[0]] + (t[1..] + [Entry(c, 1)]) == t + [Entry(c, 1)];
      }
    }
  }

  lemma FirstIndexAppend(p: seq<Category>, c: Category, x: Category)
    requires x in p
    ensures FirstIndex(p + [c], x) == FirstIndex(p, x)
  {
    var r1, r2 := FirstIndex(p + [c], x), FirstIndex(p, x);
    assert (p + [c])[r2] == x;
    assert forall j :: 0 <= j < |p| ==> (p + [c])[j] == p[j];
  }

  lemma FirstIndexNew(p: seq<Category>, c: Category)
    requires c !in p
    ensures FirstIndex(p + [c], c) == |p|
  {
    assert forall j :: 0 <= j < |p| ==> (p + [c])[j] == p[j];
  }

  lemma OccurrencesAppend(p: seq<Category>, c: Category)
    ensures forall x :: Occurrences(p + [c], x) == Occurrences(p, x) + (if x == c then 1 else 0)
  {
    assert (p + [c])[..|p|] == p;
  }

  lemma FirstIndicesAppend(p: seq<Category>, c: Category)
    ensures forall x :: x in p ==> FirstIndex(p + [c], x) == FirstIndex(p, x)
  {
    forall x | x in p ensures FirstIndex(p + [c], x) == FirstIndex(p, x) {
      FirstIndexAppend(p, c, x);
    }
  }

  /** Adding an answer already in the tally keeps it the tally. */
  lemma TallyStepOld(p: seq<Category>, c: Category, t: seq<Entry>, i: nat)
    requires TallyOf(t, p) && i < |t| && t[i].category == c
    ensures TallyOf(t[i := Entry(c, t[i].count + 1)], p + [c])
  {
    var a, r := p + [c], t[i := Entry(c, t[i].count + 1)];
    assert forall k :: 0 <= k < |r| ==> r[k].category == t[k].category;
    OccurrencesAppend(p, c);
    assert CountsOf(r, a);
    FirstIndicesAppend(p, c);
    assert InFirstOrder(r, a);
    forall x | x in a ensures exists k :: 0 <= k < |r| && r[k].category == x {
      if x != c {
        assert x in p;
        var k :| 0 <= k < |t| && t[k].category == x;
        assert r[k].category == x;
      } else {
        assert r[i].category == x;
      }
    }
  }

  /** Adding a new answer appends its key with count 1 and keeps it the tally. */
  lemma TallyStepNew(p: seq<Category>, c: Category, t: seq<Entry>)
    requires TallyOf(t, p) && forall i :: 0 <= i < |t| ==> t[i].category != c
    ensures TallyOf(t + [Entry(c, 1)], p + [c])
  {
    var a, r := p + [c], t + [Entry(c, 1)];
    assert c !in p;
    OccurrencesAppend(p, c);
    assert CountsOf(r, a);
    FirstIndexNew(p, c);
    FirstIndicesAppend(p, c);
    forall i, j | 0 <= i < j < |r| ensures FirstIndex(a, r[i].category) < FirstIndex(a, r[j].category) {
      if j == |t| {
        assert r[i].category in p;
      }
    }
    forall x | x in a ensures exists k :: 0 <= k < |r| && r[k].category == x {
      if x != c {
        assert x in p;
        var k :| 0 <= k < |t| && t[k].category == x;
        assert r[k].category == x;
      } else {
        assert r[|t|].category == x;
      }
    }
  }

  /** The reduce builds exactly the tally of the answers, keys in first-answered order. */
  lemma {:induction false} TallyIsTallyOf(a: seq<Category>)
    ensures TallyOf(Tally(a), a)
  {
    if a != [] {
      var p, c := a[..|a| - 1], a[|a| - 1];
      assert a == p + [c];
      TallyIsTallyOf(p);
      var t := Tally(p);
      AddAnswerSpec(t, c);
      if i :| 0 <= i < |t| && t[i].category == c {
        TallyStepOld(p, c, t, i);
      } else {
        TallyStepNew(p, c, t);
      }
    }
  }

  /**
   * The result is a category answered most often, and among the categories
   * answered that often it is the one answered first.
   */
  lemma TopCategorySpec(a: seq<Category>)
    requires a != []
    ensures TopCategory(a) in a
    ensures forall c :: Occurrences(a, c) <= Occurrences(a, TopCategory(a))
    ensures forall c :: c in a && Occurrences(a, c) == Occurrences(a, TopCategory(a))
              ==> FirstIndex(a, TopCategory(a)) <= FirstIndex(a, c)
  {
    var t := Tally(a);
    TallyIsTallyOf(a);
    SortDescHead(t, EntryCount);
    var m := FirstMax(t, EntryCount);
    assert TopCategory(a) == t[m].category;
    MaxEntryIsMostAnswered(t, a, m);
    FirstMaxEntryIsFirstAnswered(t, a, m);
  }

  /** The key with the largest count in a tally is a most-answered category. */
  lemma MaxEntryIsMostAnswered(t: seq<Entry>, a: seq<Category>, m: nat)
    requires TallyOf(t, a) && m < |t|
    requires forall j :: 0 <= j < |t| ==> EntryCount(t[j]) <= EntryCount(t[m])
    ensures t[m].category in a
    ensures forall c :: Occurrences(a, c) <= Occurrences(a, t[m].category)
  {
    forall c ensures Occurrences(a, c) <= Occurrences(a, t[m].category) {
      if c in a {
        var j :| 0 <= j < |t| && t[j].category == c;
        assert EntryCount(t[j]) <= EntryCount(t[m]);
      }
    }
  }

  /** The first key with the largest count is, among the categories tied with it, the one answered first. */
  lemma FirstMaxEntryIsFirstAnswered(t: seq<Entry>, a: seq<Category>, m: nat)
    requires TallyOf(t, a) && m < |t|
    requires forall j :: 0 <= j < m ==> EntryCount(t[j]) < EntryCount(t[m])
    ensures t[m].category in a
    ensures forall c :: c in a && Occurrences(a, c) == Occurrences(a, t[m].category)
              ==> FirstIndex(a, t[m].category) <= FirstIndex(a, c)
  {
    forall c | c in a && Occurrences(a, c) == Occurrences(a, t[m].category)
      ensures FirstIndex(a, t[m].category) <= FirstIndex(a, c)
    {
      var j :| 0 <= j < |t| && t[j].category == c;
      assert t[j].count == Occurrences(a, c) && t[m].count == Occurrences(a, t[m].category);
      if j != m {
        assert m < j;
        assert FirstIndex(a, t[m].category) < FirstIndex(a, t[j].category);
      }
    }
  }

  /** The quiz's state. */
  class QuizState {
    var currentQuestion: nat
    var answers: seq<Category>
    var showResult: bool

    /** Before the result one answer has been given per question passed; the result follows the last. */
    ghost predicate Valid()
      reads this
    {
      currentQuestion < QuestionCount
      && if showResult then |answers| == QuestionCount && currentQuestion == QuestionCount - 1
         else |answers| == currentQuestion
    }

    constructor ()
      ensures Valid() && currentQuestion == 0 && answers == [] && !showResult
    {
      currentQuestion, answers, showResult := 0, [], false;
    }

    /** `handleAnswer`, offered only while a question is on screen. */
    method HandleAnswer(c: Category)
      requires Valid() && !showResult
      modifies this
      ensures Valid() && answers == old(answers) + [c]
      ensures currentQuestion == if old(currentQuestion) < QuestionCount - 1 then old(currentQuestion) + 1 else old(currentQuestion)
      ensures showResult <==> |answers| == QuestionCount
    {
      answers := answers + [c];
      if currentQuestion < QuestionCount - 1 {
        currentQuestion := currentQuestion + 1;
      } else {
        showResult := true;
      }
    }

    /** `resetQuiz` */
    method ResetQuiz()
      modifies this
      ensures Valid() && currentQuestion == 0 && answers == [] && !showResult
    {
      currentQuestion, answers, showResult := 0, [], false;
    }

    /** `getResult`, read while the result card is shown. */
    function Result(): Category
      reads this
      requires Valid() && showResult
    {
      TopCategory(answers)
    }
  }
}
