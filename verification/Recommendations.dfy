/** The personalized home page: which lessons to continue, which to suggest, which are new. */
module Recommendations {
  import opened Common
  import opened Cursors
  import Strings
  import opened Order

  /** A published row, newest first as the database lists them; `goals` are its learning
      goals and `quality` its raw quality score. */
  datatype Lesson = Lesson(id: Uuid, level: Option<string>, releasedAt: Option<int>, quality: int, goals: seq<string>)

  datatype Progress = Progress(content: Uuid, completed: bool, seconds: int)

  datatype Attempt = Attempt(correct: nat, questions: nat)

  datatype Reason = Resume | HighQuality | MatchesLevel | VocabularyRich | GrammarPractice | RecentlyAdded

  datatype Ranked = Ranked(row: Lesson, score: int, reason: Reason)

  datatype Item = Item(row: Lesson, reason: Reason)

  datatype Section = Section(id: string, items: seq<Item>)

  /** What the scores depend on besides the lesson. */
  datatype Learner = Learner(preferredLevel: string, vocabulary: nat, needsGrammar: bool)

  const CONTINUE_LIMIT := 5
  const FOR_YOU_LIMIT := 10
  const LATEST_LIMIT := 8

  // ---------- what the page means ----------

  function First<T>(limit: nat, s: seq<T>): seq<T> { if |s| <= limit then s else s[..limit] }

  /** The last row of an id wins. */
  function ById(contents: seq<Lesson>): map<Uuid, Lesson> {
    if contents == [] then map[]
    else ById(contents[..|contents| - 1])[contents[|contents| - 1].id := contents[|contents| - 1]]
  }

  /** What the last progress row of a lesson says. */
  predicate Completed(progress: seq<Progress>, id: Uuid) {
    progress != [] &&
    var last := progress[|progress| - 1];
    if last.content == id then last.completed else Completed(progress[..|progress| - 1], id)
  }

  predicate Started(lessons: map<Uuid, Lesson>, p: Progress) {
    p.content in lessons && !p.completed && p.seconds > 0
  }

  function Resumable(lessons: map<Uuid, Lesson>, progress: seq<Progress>): seq<Lesson> {
    if progress == [] then []
    else
      var last := progress[|progress| - 1];
      Resumable(lessons, progress[..|progress| - 1]) + if Started(lessons, last) then [lessons[last.content]] else []
  }

  function Continued(lessons: map<Uuid, Lesson>, progress: seq<Progress>): seq<Lesson> {
    First(CONTINUE_LIMIT, Resumable(lessons, progress))
  }

  /** How often a level occurs among the lessons with progress. */
  function Activity(lessons: map<Uuid, Lesson>, progress: seq<Progress>, level: string): nat {
    if progress == [] then 0
    else
      var last := progress[|progress| - 1].content;
      Activity(lessons, progress[..|progress| - 1], level)
      + if last in lessons && lessons[last].level == Some(level) then 1 else 0
  }

  /** The most frequent level, alphabetically first among equals; none without activity. */
  ghost predicate IsPreferred(lessons: map<Uuid, Lesson>, progress: seq<Progress>, level: string) {
    && (Activity(lessons, progress, level) == 0 ==> level == "")
    && forall other :: Activity(lessons, progress, other) > 0 ==>
         Activity(lessons, progress, other) <= Activity(lessons, progress, level)
         && (Activity(lessons, progress, other) == Activity(lessons, progress, level) ==> !Less(other, level))
  }

  function Correct(grammar: seq<Attempt>): nat {
    if grammar == [] then 0 else Correct(grammar[..|grammar| - 1]) + grammar[|grammar| - 1].correct
  }

  function Questions(grammar: seq<Attempt>): nat {
    if grammar == [] then 0 else Questions(grammar[..|grammar| - 1]) + grammar[|grammar| - 1].questions
  }

  /** Fewer than four in five correct. The quotient of two 32-bit counts is below the
      floating-point 0.8 exactly when it is below 4/5. */
  predicate NeedsGrammar(grammar: seq<Attempt>) {
    Questions(grammar) > 0 && 5 * Correct(grammar) < 4 * Questions(grammar)
  }

  predicate MatchesPreference(row: Lesson, learner: Learner) {
    learner.preferredLevel != "" && row.level == Some(learner.preferredLevel)
  }

  /** A learning goal, in any letter case. */
  predicate HasGoal(row: Lesson, goal: string) {
    exists i :: 0 <= i < |row.goals| && Strings.EqualFold(row.goals[i], goal)
  }

  predicate OffersVocabulary(row: Lesson, learner: Learner) { learner.vocabulary > 0 && HasGoal(row, "vocabulary") }

  predicate OffersGrammar(row: Lesson, learner: Learner) { learner.needsGrammar && HasGoal(row, "grammar") }

  function Scored(row: Lesson, index: nat, learner: Learner): Ranked {
    Ranked(row,
           Min(100, Max(0, row.quality)) + Max(0, 20 - index)
           + (if MatchesPreference(row, learner) then 18 else 0)
           + (if OffersVocabulary(row, learner) then Min(15, learner.vocabulary * 2) else 0)
           + (if OffersGrammar(row, learner) then 30 else 0),
           if OffersGrammar(row, learner) then GrammarPractice
           else if OffersVocabulary(row, learner) then VocabularyRich
           else if MatchesPreference(row, learner) then MatchesLevel
           else HighQuality)
  }

  predicate Skipped(contents: seq<Lesson>, progress: seq<Progress>, id: Uuid) {
    Completed(progress, id) || exists r :: r in Continued(ById(contents), progress) && r.id == id
  }

  /** The eligible rows of `part`, a prefix of the page. */
  function Candidates(contents: seq<Lesson>, progress: seq<Progress>, learner: Learner,
      part: seq<Lesson>): seq<Ranked> {
    if part == [] then []
    else
      var n := |part| - 1;
      Candidates(contents, progress, learner, part[..n]) + Candidate(contents, progress, learner, part[n], n)
  }

  function Candidate(contents: seq<Lesson>, progress: seq<Progress>, learner: Learner, row: Lesson,
      index: nat): seq<Ranked> {
    if Skipped(contents, progress, row.id) then [] else [Scored(row, index, learner)]
  }

  /** The comparator: score, then release, newest and dated first, then the id's text. */
  predicate Before(a: Ranked, b: Ranked) {
    if a.score != b.score then a.score > b.score
    else if a.row.releasedAt.Some? != b.row.releasedAt.Some? then a.row.releasedAt.Some?
    else if a.row.releasedAt.Some? && a.row.releasedAt.value != b.row.releasedAt.value then
      a.row.releasedAt.value > b.row.releasedAt.value
    else Less(UuidString(a.row.id), UuidString(b.row.id))
  }

  /** A sort of the candidates: the same ones, none before an earlier one. */
  ghost predicate IsRanking(ranked: seq<Ranked>, candidates: seq<Ranked>) {
    multiset(ranked) == multiset(candidates) && InOrder(ranked)
  }

  ghost predicate InOrder(ranked: seq<Ranked>) {
    forall i, j :: 0 <= i < j < |ranked| ==> !Before(ranked[j], ranked[i])
  }

  function Items(rows: seq<Lesson>, reason: Reason): seq<Item> {
    seq(|rows|, i requires 0 <= i < |rows| => Item(rows[i], reason))
  }

  function Suggested(ranked: seq<Ranked>): seq<Item> {
    seq(|First(FOR_YOU_LIMIT, ranked)|, i requires 0 <= i < |First(FOR_YOU_LIMIT, ranked)| => Item(ranked[i].row,
        ranked[i].reason))
  }

  function Shown(section: Section): seq<Section> { if section.items == [] then [] else [section] }

  ghost predicate IsHome(contents: seq<Lesson>, progress: seq<Progress>, grammar: seq<Attempt>, vocabulary: nat,
      sections: seq<Section>) {
    exists level, ranked ::
      && IsPreferred(ById(contents), progress, level)
      && IsRanking(ranked, Candidates(contents, progress, Learner(level, vocabulary, NeedsGrammar(grammar)), contents))
      && sections == Page(contents, progress, ranked)
  }

  function Page(contents: seq<Lesson>, progress: seq<Progress>, ranked: seq<Ranked>): seq<Section> {
    Shown(Section("continue", Items(Continued(ById(contents), progress), Resume)))
    + Shown(Section("for-you", Suggested(ranked)))
    + Shown(Section("latest", Items(First(LATEST_LIMIT, contents), RecentlyAdded)))
  }

  ghost predicate DistinctUuids(contents: seq<Lesson>) {
    && (forall i :: 0 <= i < |contents| ==> IsUuid(contents[i].id))
    && (forall i, j :: 0 <= i < j < |contents| ==> contents[i].id != contents[j].id)
  }

  // ---------- the comparator ----------

  /** A strict order that neither the ids nor missing dates can make inconsistent, total on
      rows with different ids. */
  lemma BeforeIsAStrictOrder(a: Ranked, b: Ranked, c: Ranked)
    requires IsUuid(a.row.id) && IsUuid(b.row.id) && IsUuid(c.row.id)
    ensures !Before(a, a) && !(Before(a, b) && Before(b, a))
    ensures Before(a, b) && Before(b, c) ==> Before(a, c)
    ensures !Before(a, b) && !Before(b, c) ==> !Before(a, c)
    ensures a.row.id != b.row.id ==> Before(a, b) || Before(b, a)
  {
    UuidTextOrder(a.row.id, a.row.id);
    UuidTextOrder(a.row.id, b.row.id);
    UuidTextOrder(b.row.id, a.row.id);
    UuidTextOrder(b.row.id, c.row.id);
    UuidTextOrder(a.row.id, c.row.id);
    hide Less, UuidString;
  }

  /** The comparator in words: the higher score first; on equal scores what is released
      before what is not, then the newer, then the smaller id. */
  lemma BeforeIff(a: Ranked, b: Ranked)
    requires IsUuid(a.row.id) && IsUuid(b.row.id)
    ensures Before(a, b) <==>
            || a.score > b.score
            || (a.score == b.score
                && match (a.row.releasedAt, b.row.releasedAt)
                   case (Some(x), Some(y)) => x > y || (x == y && a.row.id < b.row.id)
                   case (Some(_), None) => true
                   case (None, Some(_)) => false
                   case (None, None) => a.row.id < b.row.id)
  {
    UuidTextOrder(a.row.id, b.row.id);
    hide Less, UuidString, IsUuid;
  }

  // ---------- what is continued and completed ----------

  /** The lesson's last progress row is the k-th, and says that it is completed. */
  ghost predicate CompletedAt(progress: seq<Progress>, id: Uuid, k: nat) {
    && k < |progress| && progress[k].content == id && progress[k].completed
    && forall j :: k < j < |progress| ==> progress[j].content != id
  }

  /** A lesson counts as completed by its last progress row alone. */
  lemma {:induction false} CompletedIff(progress: seq<Progress>, id: Uuid)
    ensures Completed(progress, id) <==> exists k: nat :: CompletedAt(progress, id, k)
    decreases |progress|
  {
    if progress != [] {
      var (n, init) := (|progress| - 1, progress[..|progress| - 1]);
      CompletedIff(init, id);
      if progress[n].content == id {
        assert progress[n].completed ==> CompletedAt(progress, id, n);
      } else {
        if k: nat :| CompletedAt(init, id, k) {
          assert CompletedAt(progress, id, k);
        }
        if k: nat :| CompletedAt(progress, id, k) {
          assert CompletedAt(init, id, k);
        }
      }
    }
  }

  /** The places of the rows of `progress` that `lessons` to continue come from: the first
      five that are under way - of a lesson on the page, not completed and past its start. */
  ghost predicate FirstFive(byId: map<Uuid, Lesson>, progress: seq<Progress>, lessons: seq<Lesson>, at: seq<nat>) {
    && |at| == |lessons| <= 5
    && (forall i, j :: 0 <= i < j < |at| ==> at[i] < at[j])
    && (forall i :: 0 <= i < |at| ==> at[i] < |progress| && UnderWay(byId, progress[at[i]], lessons[i]))
    && (forall k ::
          0 <= k < |progress| && progress[k].content in byId && !progress[k].completed && progress[k].seconds > 0
          ==> k in at || (|at| == 5 && at[4] < k))
  }

  predicate UnderWay(byId: map<Uuid, Lesson>, p: Progress, lesson: Lesson) {
    p.content in byId && !p.completed && p.seconds > 0 && lesson == byId[p.content]
  }

  lemma OneMoreRow(byId: map<Uuid, Lesson>, progress: seq<Progress>, lessons: seq<Lesson>, at: seq<nat>, last: Progress)
    requires FirstFive(byId, progress, lessons, at)
    ensures var (n, more) := (|progress|, progress + [last]);
      if last.content in byId && !last.completed && last.seconds > 0 && |at| < 5
      then FirstFive(byId, more, lessons + [byId[last.content]], at + [n])
      else FirstFive(byId, more, lessons, at)
  {
    var (n, more) := (|progress|, progress + [last]);
    assert more[n] == last && forall k :: 0 <= k < n ==> more[k] == progress[k];
    hide UnderWay;
    if last.content in byId && !last.completed && last.seconds > 0 && |at| < 5 {
      assert UnderWay(byId, last, byId[last.content]) by { Following(byId, last); }
      assert (at + [n])[|at|] == n && forall k :: k in at ==> k in at + [n];
    }
  }

  lemma Following(byId: map<Uuid, Lesson>, p: Progress)
    requires p.content in byId && !p.completed && p.seconds > 0
    ensures UnderWay(byId, p, byId[p.content])
  {
  }

  /** The lessons to continue are those of the first five progress rows under way. */
  lemma {:induction false} ContinuedAre(byId: map<Uuid, Lesson>, progress: seq<Progress>) returns (at: seq<nat>)
    ensures FirstFive(byId, progress, Continued(byId, progress), at)
    decreases |progress|
  {
    if progress == [] {
      at := [];
    } else {
      var (init, last) := (progress[..|progress| - 1], progress[|progress| - 1]);
      at := ContinuedAre(byId, init);
      assert progress == init + [last];
      ContinuedGrows(byId, init, last);
      assert |at| == |Continued(byId, init)|;
      hide Continued, FirstFive;
      OneMoreRow(byId, init, Continued(byId, init), at, last);
      if Started(byId, last) && |at| < CONTINUE_LIMIT {
        at := at + [|init|];
      }
    }
  }

  lemma ShownAre(a: Section, b: Section, c: Section, s: Section)
    ensures s in Shown(a) + Shown(b) + Shown(c) <==> s.items != [] && (s == a || s == b || s == c)
  {
    assert s in Shown(a) <==> s.items != [] && s == a;
    assert s in Shown(b) <==> s.items != [] && s == b;
    assert s in Shown(c) <==> s.items != [] && s == c;
    hide Shown;
  }

  /** The sections of the page: none is empty, and only one that would be is left out; the
      suggestions are the first ten of the ranking and the latest the first eight rows. */
  lemma SectionsAre(contents: seq<Lesson>, progress: seq<Progress>, ranked: seq<Ranked>, s: Section)
    ensures s in Page(contents, progress, ranked) <==>
            && s.items != []
            && (|| (s.id == "continue" && s.items == Items(Continued(ById(contents), progress), Resume))
                || (s.id == "for-you"
                    && |s.items| == (if |ranked| < 10 then |ranked| else 10)
                    && forall i :: 0 <= i < |s.items| ==> s.items[i] == Item(ranked[i].row, ranked[i].reason))
                || (s.id == "latest"
                    && |s.items| == (if |contents| < 8 then |contents| else 8)
                    && forall i :: 0 <= i < |s.items| ==> s.items[i] == Item(contents[i], RecentlyAdded)))
  {
    var a := Section("continue", Items(Continued(ById(contents), progress), Resume));
    var b := Section("for-you", Suggested(ranked));
    var c := Section("latest", Items(First(LATEST_LIMIT, contents), RecentlyAdded));
    ShownAre(a, b, c, s);
    SuggestedAre(ranked, s.items);
    LatestAre(contents, s.items);
    hide Shown, Continued, ById, Items, Suggested;
  }

  lemma SuggestedAre(ranked: seq<Ranked>, items: seq<Item>)
    ensures items == Suggested(ranked) <==>
            && |items| == (if |ranked| < 10 then |ranked| else 10)
            && forall i :: 0 <= i < |items| ==> items[i] == Item(ranked[i].row, ranked[i].reason)
  {
  }

  lemma LatestAre(contents: seq<Lesson>, items: seq<Item>)
    ensures items == Items(First(LATEST_LIMIT, contents), RecentlyAdded) <==>
            && |items| == (if |contents| < 8 then |contents| else 8)
            && forall i :: 0 <= i < |items| ==> items[i] == Item(contents[i], RecentlyAdded)
  {
  }

  // ---------- the score ----------

  /** What each part of a lesson is worth: a point for each place before the twentieth, the
      quality between 0 and 100, 18 points for the preferred level, two for each word of the
      learner's book up to 15 where the lesson is about vocabulary, and 30 for grammar where
      the learner needs it. The last of these that applies is the reason given. */
  lemma ScoreParts(row: Lesson, index: nat, learner: Learner, quality: int)
    ensures Scored(row, index, learner).row == row
    ensures Scored(row, index, learner).score == Scored(row, index + 1, learner).score + if index < 20 then 1 else 0
    ensures var (better, worse) := (Scored(row, index, learner), Scored(row.(quality := quality), index, learner));
      && (0 <= quality <= row.quality <= 100 ==> better.score - worse.score == row.quality - quality)
      && (quality <= 0 && row.quality <= 0 ==> better.score == worse.score)
      && (quality >= 100 && row.quality >= 100 ==> better.score == worse.score)
    ensures var preferred := row.level.Some? && row.level.value == learner.preferredLevel != "";
      Scored(row, index, learner).score
      == Scored(row.(level := None), index, learner).score + if preferred then 18 else 0
    ensures var vocabulary := exists i :: 0 <= i < |row.goals| && Strings.EqualFold(row.goals[i], "vocabulary");
      var grammar := exists i :: 0 <= i < |row.goals| && Strings.EqualFold(row.goals[i], "grammar");
      && Scored(row, index, learner).score
         == Scored(row.(goals := []), index, learner).score
            + (if !vocabulary then 0 else if learner.vocabulary <= 7 then 2 * learner.vocabulary else 15)
            + (if grammar && learner.needsGrammar then 30 else 0)
      && Scored(row, index, learner).reason ==
         (if grammar && learner.needsGrammar then GrammarPractice
          else if vocabulary && learner.vocabulary > 0 then VocabularyRich
          else if row.level == Some(learner.preferredLevel) && learner.preferredLevel != "" then MatchesLevel
          else HighQuality)
    ensures quality <= 0 && index >= 20 ==>
              Scored(row.(quality := quality, level := None, goals := []), index, learner).score == 0
  {
    assert !HasGoal(row.(goals := []), "vocabulary") && !HasGoal(row.(goals := []), "grammar");
    assert HasGoal(row.(level := None), "vocabulary") == HasGoal(row, "vocabulary");
    assert HasGoal(row.(level := None), "grammar") == HasGoal(row, "grammar");
    assert HasGoal(row.(quality := quality), "vocabulary") == HasGoal(row, "vocabulary");
    assert HasGoal(row.(quality := quality), "grammar") == HasGoal(row, "grammar");
  }

  /** The quotient the handler takes, as real numbers. */
  lemma NeedsGrammarIff(grammar: seq<Attempt>)
    ensures NeedsGrammar(grammar) <==>
            Questions(grammar) > 0 && (Correct(grammar) as real) / (Questions(grammar) as real) < 0.8
  {
    if Questions(grammar) > 0 { ShareBelow(Correct(grammar), Questions(grammar)); }
    hide Correct, Questions;
  }

  lemma ShareBelow(correct: nat, questions: nat)
    requires questions > 0
    ensures (correct as real) / (questions as real) < 0.8 <==> 5 * correct < 4 * questions
  {
    var (c, q) := (correct as real, questions as real);
    assert (5 * correct) as real == 5.0 * c && (4 * questions) as real == 4.0 * q;
    hide *;
    QuotientBelow(c, q);
  }

  lemma QuotientBelow(c: real, q: real)
    requires q > 0.0
    ensures c / q < 0.8 <==> 5.0 * c < 4.0 * q
  {
    var x := c / q;
    assert x * q == c;
    if x < 0.8 {
      Times(x, 0.8, q);
    } else {
      Times(0.8, x, q);
    }
  }

  lemma Times(x: real, y: real, q: real)
    requires x <= y && q > 0.0
    ensures x * q <= y * q && (x < y ==> x * q < y * q)
  {
    var d := y - x;
    assert y * q == x * q + d * q;
    if d > 0.0 { assert d * q > 0.0; }
  }

  // ---------- candidates ----------

  /** One of the first `n` rows, scored at its place. */
  ghost predicate ScoredIn(contents: seq<Lesson>, learner: Learner, n: nat, c: Ranked)
    requires n <= |contents|
  {
    exists k :: 0 <= k < n && c == Scored(contents[k], k, learner)
  }

  /** The candidates are the rows that are neither completed nor continued. */
  lemma {:induction false} CandidatesAreEligible(contents: seq<Lesson>, progress: seq<Progress>, learner: Learner,
      n: nat)
    requires n <= |contents|
    ensures var list := Candidates(contents, progress, learner, contents[..n]);
      && (forall c :: c in list ==> !Skipped(contents, progress, c.row.id) && ScoredIn(contents, learner, n, c))
      && (forall k :: 0 <= k < n && !Skipped(contents, progress, contents[k].id) ==>
          Scored(contents[k], k, learner) in list)
  {
    if n > 0 {
      assert contents[..n][..n - 1] == contents[..n - 1];
      CandidatesAreEligible(contents, progress, learner, n - 1);
      assert Scored(contents[n - 1], n - 1, learner).row == contents[n - 1];
      hide Scored, Skipped;
      var list := Candidates(contents, progress, learner, contents[..n - 1]);
      forall c | c in list ensures ScoredIn(contents, learner, n, c) {
        assert ScoredIn(contents, learner, n - 1, c);
      }
    }
  }

  lemma {:induction false} CandidatesHaveDistinctIds(contents: seq<Lesson>, progress: seq<Progress>, learner: Learner,
      n: nat)
    requires n <= |contents| && DistinctUuids(contents)
    ensures DistinctRanked(Candidates(contents, progress, learner, contents[..n]))
  {
    if n > 0 {
      assert contents[..n][..n - 1] == contents[..n - 1];
      CandidatesHaveDistinctIds(contents, progress, learner, n - 1);
      CandidatesAreEligible(contents, progress, learner, n - 1);
      var list := Candidates(contents, progress, learner, contents[..n - 1]);
      var item := Scored(contents[n - 1], n - 1, learner);
      assert Candidates(contents, progress, learner, contents[..n]) in {list + [item], list + []};
      assert item.row == contents[n - 1] && IsUuid(item.row.id);
      hide *;
      forall c | c in list ensures c.row.id != item.row.id {
        ScoredEarlier(contents, learner, n - 1, c);
      }
      DistinctAppends(list, item);
      assert list + [] == list;
    }
  }

  lemma ScoredEarlier(contents: seq<Lesson>, learner: Learner, n: nat, c: Ranked)
    requires n < |contents| && DistinctUuids(contents) && ScoredIn(contents, learner, n, c)
    ensures c.row.id != contents[n].id
  {
    var k :| 0 <= k < n && c == Scored(contents[k], k, learner);
    hide IsUuid;
  }

  lemma DistinctAppends(list: seq<Ranked>, item: Ranked)
    requires DistinctRanked(list) && IsUuid(item.row.id) && forall c :: c in list ==> c.row.id != item.row.id
    ensures DistinctRanked(list + [item])
  {
    hide IsUuid;
  }

  ghost predicate DistinctRanked(list: seq<Ranked>) {
    && (forall c :: c in list ==> IsUuid(c.row.id))
    && (forall i, j :: 0 <= i < j < |list| ==> list[i].row.id != list[j].row.id)
  }

  // ---------- determinism and optimality ----------

  lemma SameMembers(a: seq<Ranked>, b: seq<Ranked>, c: Ranked)
    requires multiset(a) == multiset(b)
    ensures c in a <==> c in b
  {
    assert c in a <==> c in multiset(a);
  }

  lemma RankedHaveDistinctIds(ranked: seq<Ranked>, candidates: seq<Ranked>)
    requires DistinctRanked(candidates) && multiset(ranked) == multiset(candidates)
    ensures DistinctRanked(ranked)
  {
    forall c | c in ranked ensures IsUuid(c.row.id) { SameMembers(ranked, candidates, c); }
    forall i, j | 0 <= i < j < |ranked| ensures ranked[i].row.id != ranked[j].row.id {
      SameMembers(ranked, candidates, ranked[i]);
      SameMembers(ranked, candidates, ranked[j]);
      if ranked[i].row.id == ranked[j].row.id {
        var k :| 0 <= k < |candidates| && candidates[k] == ranked[i];
        assert candidates[k] == ranked[j];
        TwiceInOne(ranked, i, j);
        OnceInOther(candidates, k);
        assert false;
      }
    }
  }

  lemma TwiceInOne(list: seq<Ranked>, i: nat, j: nat)
    requires i < j < |list| && list[i] == list[j]
    ensures multiset(list)[list[i]] >= 2
  {
    assert list == list[..i] + [list[i]] + list[i + 1..j] + [list[j]] + list[j + 1..];
  }

  lemma OnceInOther(list: seq<Ranked>, k: nat)
    requires k < |list| && DistinctRanked(list)
    ensures multiset(list)[list[k]] <= 1
  {
    assert list == list[..k] + [list[k]] + list[k + 1..];
    assert list[k] !in list[..k] && list[k] !in list[k + 1..];
  }

  lemma FirstIsUnique(a: seq<Ranked>, b: seq<Ranked>)
    requires a != [] && b != [] && DistinctRanked(a) && IsRanking(a, b) && IsRanking(b, a)
    ensures a[0] == b[0]
  {
    SameMembers(a, b, a[0]);
    SameMembers(a, b, b[0]);
    var i :| 0 <= i < |a| && a[i] == b[0];
    var j :| 0 <= j < |b| && b[j] == a[0];
    BeforeIsAStrictOrder(a[0], b[0], a[0]);
    hide Before;
    assert i > 0 ==> !Before(a[i], a[0]) && a[i].row.id != a[0].row.id;
    assert j > 0 ==> !Before(b[j], b[0]);
  }

  /** Whichever sort is used, and however the candidates reach it, the ranking is the same. */
  lemma {:induction false} RankingIsUnique(a: seq<Ranked>, b: seq<Ranked>, candidates: seq<Ranked>)
    requires DistinctRanked(candidates) && IsRanking(a, candidates) && IsRanking(b, candidates)
    ensures a == b
    decreases |a|
  {
    hide Before, InOrder, DistinctRanked;
    assert |a| == |multiset(a)| == |multiset(b)| == |b|;
    if a != [] {
      RankedHaveDistinctIds(a, candidates);
      FirstIsUnique(a, b);
      TailsAreRankings(a, b);
      RankingIsUnique(a[1..], b[1..], a[1..]);
      assert a == [a[0]] + a[1..] && b == [b[0]] + b[1..];
    }
  }

  lemma TailsAreRankings(a: seq<Ranked>, b: seq<Ranked>)
    requires a != [] && b != [] && a[0] == b[0] && multiset(a) == multiset(b)
    requires InOrder(a) && InOrder(b) && DistinctRanked(a)
    ensures DistinctRanked(a[1..]) && IsRanking(a[1..], a[1..]) && IsRanking(b[1..], a[1..])
  {
    hide InOrder, DistinctRanked;
    TailIsRanking(a);
    TailIsRanking(b);
    TailMultiset(a);
    TailMultiset(b);
  }

  lemma TailMultiset(a: seq<Ranked>)
    requires a != []
    ensures multiset(a[1..]) == multiset(a) - multiset{a[0]}
  {
    assert a == [a[0]] + a[1..];
  }

  lemma TailIsRanking(ranked: seq<Ranked>)
    requires ranked != [] && InOrder(ranked)
    ensures InOrder(ranked[1..]) && (DistinctRanked(ranked) ==> DistinctRanked(ranked[1..]))
  {
    hide Before, IsUuid;
  }

  lemma PreferredIsUnique(lessons: map<Uuid, Lesson>, progress: seq<Progress>, a: string, b: string)
    requires IsPreferred(lessons, progress, a) && IsPreferred(lessons, progress, b)
    ensures a == b
  {
    LessIsTotal(a, b);
  }

  /** The page is a function of its inputs: for every iteration order of the level counts and
      every sorting algorithm. */
  lemma HomeIsDetermined(contents: seq<Lesson>, progress: seq<Progress>, grammar: seq<Attempt>, vocabulary: nat,
      s: seq<Section>, s': seq<Section>)
    requires DistinctUuids(contents)
    requires IsHome(contents, progress, grammar, vocabulary, s) && IsHome(contents, progress, grammar, vocabulary, s')
    ensures s == s'
  {
    var level, ranked :|
      && IsPreferred(ById(contents), progress, level)
      && IsRanking(ranked, Candidates(contents, progress, Learner(level, vocabulary, NeedsGrammar(grammar)), contents))
      && s == Page(contents, progress, ranked);
    var level', ranked' :|
      && IsPreferred(ById(contents), progress, level')
      && IsRanking(ranked', Candidates(contents, progress, Learner(level', vocabulary, NeedsGrammar(grammar)),
          contents))
      && s' == Page(contents, progress, ranked');
    PreferredIsUnique(ById(contents), progress, level, level');
    var learner := Learner(level, vocabulary, NeedsGrammar(grammar));
    assert contents[..|contents|] == contents;
    CandidatesHaveDistinctIds(contents, progress, learner, |contents|);
    RankingIsUnique(ranked, ranked', Candidates(contents, progress, learner, contents));
  }

  /** The suggestions are the best of the eligible lessons, in order: none is completed or
      being continued, and an eligible lesson left out comes after all ten. */
  lemma SuggestionsAreTheBest(contents: seq<Lesson>, progress: seq<Progress>, learner: Learner, ranked: seq<Ranked>)
    requires DistinctUuids(contents) && IsRanking(ranked, Candidates(contents, progress, learner, contents))
    ensures var top := First(FOR_YOU_LIMIT, ranked);
      && (forall c :: c in top ==>
            !Completed(progress, c.row.id) && forall r :: r in Continued(ById(contents), progress) ==> r.id != c.row.id)
      && (forall i, j :: 0 <= i < j < |top| ==> Before(top[i], top[j]))
      && (forall k :: 0 <= k < |contents| && !Skipped(contents, progress, contents[k].id) ==>
            TopOrAfter(ranked, Scored(contents[k], k, learner)))
  {
    var (list, top) := (Candidates(contents, progress, learner, contents), First(FOR_YOU_LIMIT, ranked));
    assert contents[..|contents|] == contents;
    CandidatesAreEligible(contents, progress, learner, |contents|);
    CandidatesHaveDistinctIds(contents, progress, learner, |contents|);
    RankedHaveDistinctIds(ranked, list);
    hide Scored, Candidates, Before, Completed, Continued;
    forall i, j | 0 <= i < j < |ranked| ensures Before(ranked[i], ranked[j]) {
      BeforeIsAStrictOrder(ranked[i], ranked[j], ranked[i]);
    }
    forall c | c in top ensures !Skipped(contents, progress, c.row.id) {
      assert c in ranked;
      SameMembers(ranked, list, c);
    }
    hide DistinctUuids, IsUuid;
    forall k | 0 <= k < |contents| && !Skipped(contents, progress, contents[k].id)
      ensures TopOrAfter(ranked, Scored(contents[k], k, learner))
    {
      SameMembers(ranked, list, Scored(contents[k], k, learner));
      MemberIsTopOrAfter(ranked, Scored(contents[k], k, learner));
    }
  }

  /** Among the first ten, or after all ten of them. */
  ghost predicate TopOrAfter(ranked: seq<Ranked>, rival: Ranked) {
    var top := First(FOR_YOU_LIMIT, ranked);
    rival in top || (|top| == FOR_YOU_LIMIT && forall c :: c in top ==> Before(c, rival))
  }

  lemma MemberIsTopOrAfter(ranked: seq<Ranked>, rival: Ranked)
    requires rival in ranked && forall i, j :: 0 <= i < j < |ranked| ==> Before(ranked[i], ranked[j])
    ensures TopOrAfter(ranked, rival)
  {
    hide Before;
    var top := First(FOR_YOU_LIMIT, ranked);
    var j :| 0 <= j < |ranked| && ranked[j] == rival;
    if j < |top| {
      assert top[j] == rival;
    } else {
      forall c | c in top ensures Before(c, rival) {
        var i :| 0 <= i < |top| && top[i] == c;
        assert c == ranked[i];
      }
    }
  }

  // ---------- the handler ----------

  /** The most frequent level, read in any order. */
  method PreferredLevel(levelActivity: map<string, nat>) returns (preferred: string)
    requires forall l :: l in levelActivity ==> levelActivity[l] > 0
    ensures if levelActivity == map[] then preferred == "" else preferred in levelActivity
    ensures forall l :: l in levelActivity ==>
              levelActivity[l] < levelActivity[preferred]
                  || (levelActivity[l] == levelActivity[preferred] && !Less(l, preferred))
  {
    preferred := "";
    var rest := levelActivity.Keys;
    while rest != {}
      invariant rest <= levelActivity.Keys
      invariant preferred in levelActivity || (preferred == "" && rest == levelActivity.Keys)
      invariant forall l :: l in levelActivity && l !in rest ==>
        levelActivity[l] < levelActivity[preferred]
            || (levelActivity[l] == levelActivity[preferred] && !Less(l, preferred))
      decreases rest
    {
      var level :| level in rest;
      rest := rest - {level};
      var best := if preferred in levelActivity then levelActivity[preferred] else 0;
      LessIsTotal(level, preferred);
      if levelActivity[level] > best || (levelActivity[level] == best && Less(level, preferred)) {
        forall l | l in levelActivity && l !in rest && levelActivity[l] == levelActivity[level]
          ensures !Less(l, level) {
          LessIsTotal(l, level);
          if Less(l, level) && l != level {
            LessIsTransitive(l, level, preferred);
          }
        }
        preferred := level;
      }
    }
  }

  /** sort.SliceStable, as an insertion sort. */
  method Sort(items: seq<Ranked>) returns (sorted: seq<Ranked>)
    requires forall c :: c in items ==> IsUuid(c.row.id)
    ensures IsRanking(sorted, items)
  {
    hide IsUuid, Before;
    sorted := [];
    assert InOrder(sorted);
    hide InOrder;
    for i := 0 to |items|
      invariant IsRanking(sorted, items[..i])
      invariant forall c :: c in sorted ==> IsUuid(c.row.id)
    {
      var item := items[i];
      var k := |sorted|;
      while k > 0 && Before(item, sorted[k - 1])
        invariant 0 <= k <= |sorted|
        invariant forall j :: k <= j < |sorted| ==> Before(item, sorted[j])
      {
        k := k - 1;
      }
      InsertionKeepsRanking(sorted, items[..i], item, k);
      assert items[..i + 1] == items[..i] + [item];
      sorted := sorted[..k] + [item] + sorted[k..];
    }
    assert items[..|items|] == items;
  }

  lemma InsertionKeepsRanking(sorted: seq<Ranked>, items: seq<Ranked>, item: Ranked, k: nat)
    requires IsRanking(sorted, items) && k <= |sorted| && IsUuid(item.row.id)
    requires forall c :: c in sorted ==> IsUuid(c.row.id)
    requires forall j :: k <= j < |sorted| ==> Before(item, sorted[j])
    requires k > 0 ==> !Before(item, sorted[k - 1])
    ensures IsRanking(sorted[..k] + [item] + sorted[k..], items + [item])
  {
    assert sorted == sorted[..k] + sorted[k..];
    InsertionKeepsOrder(sorted, item, k);
    hide InOrder;
  }

  lemma InsertionKeepsOrder(sorted: seq<Ranked>, item: Ranked, k: nat)
    requires InOrder(sorted) && k <= |sorted| && IsUuid(item.row.id)
    requires forall c :: c in sorted ==> IsUuid(c.row.id)
    requires forall j :: k <= j < |sorted| ==> Before(item, sorted[j])
    requires k > 0 ==> !Before(item, sorted[k - 1])
    ensures InOrder(sorted[..k] + [item] + sorted[k..])
  {
    hide Before;
    forall j | 0 <= j < k ensures !Before(item, sorted[j]) {
      if j < k - 1 {
        BeforeIsAStrictOrder(item, sorted[k - 1], sorted[j]);
      }
    }
    forall j | k <= j < |sorted| ensures !Before(sorted[j], item) {
      BeforeIsAStrictOrder(item, sorted[j], item);
    }
    var longer := sorted[..k] + [item] + sorted[k..];
    assert forall i :: 0 <= i < |longer| ==> longer[i] == if i < k then sorted[i] else if i == k then item
        else sorted[i - 1];
  }

  method IndexById(contents: seq<Lesson>) returns (byId: map<Uuid, Lesson>)
    ensures byId == ById(contents)
  {
    byId := map[];
    for i := 0 to |contents|
      invariant byId == ById(contents[..i])
    {
      assert contents[..i + 1][..i] == contents[..i];
      byId := byId[contents[i].id := contents[i]];
    }
    assert contents[..|contents|] == contents;
  }

  /** One pass over the progress: what is completed, what to continue, which levels. */
  method ReadProgress(byId: map<Uuid, Lesson>, progress: seq<Progress>)
    returns (completed: map<Uuid, bool>, continueItems: seq<Item>, continued: set<Uuid>, levelActivity: map<string,
        nat>)
    requires forall id :: id in byId ==> byId[id].id == id
    ensures forall id :: Completed(progress, id) <==> id in completed && completed[id]
    ensures continueItems == Items(Continued(byId, progress), Resume)
    ensures forall id :: id in continued <==> exists r :: r in Continued(byId, progress) && r.id == id
    ensures forall l :: l in levelActivity <==> Activity(byId, progress, l) > 0
    ensures forall l :: l in levelActivity ==> levelActivity[l] == Activity(byId, progress, l)
  {
    completed, continueItems, continued, levelActivity := map[], [], {}, map[];
    ghost var rows: seq<Lesson> := [];
    for i := 0 to |progress|
      invariant forall id :: Completed(progress[..i], id) <==> id in completed && completed[id]
      invariant rows == Continued(byId, progress[..i]) && continueItems == Items(rows, Resume)
      invariant forall id :: id in continued <==> exists r :: r in rows && r.id == id
      invariant forall l :: l in levelActivity <==> Activity(byId, progress[..i], l) > 0
      invariant forall l :: l in levelActivity ==> levelActivity[l] == Activity(byId, progress[..i], l)
    {
      assert progress[..i + 1][..i] == progress[..i];
      var item := progress[i];
      ContinuedGrows(byId, progress[..i], item);
      assert progress[..i + 1] == progress[..i] + [item];
      completed := completed[item.content := item.completed];
      if item.content !in byId {
        continue;
      }
      var row := byId[item.content];
      if row.level.Some? {
        var seen := if row.level.value in levelActivity then levelActivity[row.level.value] else 0;
        levelActivity := levelActivity[row.level.value := seen + 1];
      }
      if item.completed || item.seconds <= 0 || |continueItems| == CONTINUE_LIMIT {
        continue;
      }
      continueItems := continueItems + [Item(row, Resume)];
      continued := continued + {row.id};
      rows := rows + [row];
    }
    assert progress[..|progress|] == progress;
  }

  lemma ContinuedGrows(lessons: map<Uuid, Lesson>, progress: seq<Progress>, item: Progress)
    ensures var earlier := Continued(lessons, progress);
      Continued(lessons, progress + [item]) ==
      if Started(lessons, item) && |earlier| < CONTINUE_LIMIT then earlier + [lessons[item.content]] else earlier
  {
    assert (progress + [item])[..|progress|] == progress;
  }

  method ReadGrammar(grammar: seq<Attempt>) returns (needsPractice: bool)
    ensures needsPractice == NeedsGrammar(grammar)
  {
    var (correct, questions) := (0, 0);
    for i := 0 to |grammar|
      invariant correct == Correct(grammar[..i]) && questions == Questions(grammar[..i])
    {
      assert grammar[..i + 1][..i] == grammar[..i];
      correct, questions := correct + grammar[i].correct, questions + grammar[i].questions;
    }
    assert grammar[..|grammar|] == grammar;
    needsPractice := questions > 0 && 5 * correct < 4 * questions;
  }

  /** containsString. */
  method ContainsGoal(row: Lesson, goal: string) returns (found: bool)
    ensures found == HasGoal(row, goal)
  {
    for i := 0 to |row.goals|
      invariant forall j :: 0 <= j < i ==> !Strings.EqualFold(row.goals[j], goal)
    {
      if Strings.EqualFold(row.goals[i], goal) {
        return true;
      }
    }
    found := false;
  }

  method Score(row: Lesson, index: nat, learner: Learner) returns (item: Ranked)
    ensures item == Scored(row, index, learner)
    ensures item.row == row
    ensures item.score == (if row.quality < 0 then 0 else if row.quality > 100 then 100 else row.quality)
        + (if index < 20 then 20 - index else 0)
        + (if row.level == Some(learner.preferredLevel) && learner.preferredLevel != "" then 18 else 0)
        + (if HasGoal(row, "vocabulary") then if learner.vocabulary <= 7 then 2 * learner.vocabulary else 15 else 0)
        + (if HasGoal(row, "grammar") && learner.needsGrammar then 30 else 0)
  {
    var score := Min(100, Max(0, row.quality)) + Max(0, 20 - index);
    var reason := HighQuality;
    if learner.preferredLevel != "" && row.level.Some? && row.level.value == learner.preferredLevel {
      score, reason := score + 18, MatchesLevel;
    }
    var vocabulary := ContainsGoal(row, "vocabulary");
    if learner.vocabulary > 0 && vocabulary {
      score, reason := score + Min(15, learner.vocabulary * 2), VocabularyRich;
    }
    var grammar := ContainsGoal(row, "grammar");
    if learner.needsGrammar && grammar {
      score, reason := score + 30, GrammarPractice;
    }
    item := Ranked(row, score, reason);
  }

  method Rank(contents: seq<Lesson>, ghost progress: seq<Progress>, completed: map<Uuid, bool>, continued: set<Uuid>,
      learner: Learner)
    returns (ranked: seq<Ranked>)
    requires forall r :: r in contents ==> IsUuid(r.id)
    requires forall id :: (id in completed && completed[id]) || id in continued <==> Skipped(contents, progress, id)
    ensures IsRanking(ranked, Candidates(contents, progress, learner, contents))
  {
    ranked := [];
    for index := 0 to |contents|
      invariant ranked == Candidates(contents, progress, learner, contents[..index])
      invariant forall c :: c in ranked ==> IsUuid(c.row.id)
    {
      assert contents[..index + 1][..index] == contents[..index];
      var row := contents[index];
      if (row.id in completed && completed[row.id]) || row.id in continued {
        continue;
      }
      var item := Score(row, index, learner);
      ranked := ranked + [item];
    }
    assert contents[..|contents|] == contents;
    ranked := Sort(ranked);
  }

  method ForYou(ranked: seq<Ranked>) returns (items: seq<Item>)
    ensures items == Suggested(ranked)
  {
    items := [];
    var i := 0;
    while i < |ranked| && |items| < FOR_YOU_LIMIT
      invariant i <= |ranked| && |items| == i <= FOR_YOU_LIMIT
      invariant forall k :: 0 <= k < i ==> items[k] == Item(ranked[k].row, ranked[k].reason)
    {
      items := items + [Item(ranked[i].row, ranked[i].reason)];
      i := i + 1;
    }
  }

  method Latest(contents: seq<Lesson>) returns (items: seq<Item>)
    ensures items == Items(First(LATEST_LIMIT, contents), RecentlyAdded)
  {
    items := [];
    var i := 0;
    while i < |contents| && |items| < LATEST_LIMIT
      invariant i <= |contents| && |items| == i <= LATEST_LIMIT
      invariant forall k :: 0 <= k < i ==> items[k] == Item(contents[k], RecentlyAdded)
    {
      items := items + [Item(contents[i], RecentlyAdded)];
      i := i + 1;
    }
  }

  /** personalizedHomeSections. */
  method PersonalizedHome(contents: seq<Lesson>, progress: seq<Progress>, grammar: seq<Attempt>, vocabulary: nat)
    returns (sections: seq<Section>)
    requires forall r :: r in contents ==> IsUuid(r.id)
    ensures IsHome(contents, progress, grammar, vocabulary, sections)
  {
    hide Completed, Continued, Activity, Candidates, IsRanking;
    var byId := IndexById(contents);
    ByIdIsKeyed(contents);
    var completed, continueItems, continued, levelActivity := ReadProgress(byId, progress);
    var preferredLevel := PreferredLevel(levelActivity);
    assert IsPreferred(byId, progress, preferredLevel);
    hide IsPreferred;
    var needsGrammar := ReadGrammar(grammar);
    var ranked := Rank(contents, progress, completed, continued, Learner(preferredLevel, vocabulary, needsGrammar));
    var recommended := ForYou(ranked);
    var latest := Latest(contents);
    sections := Shown(Section("continue", continueItems)) + Shown(Section("for-you", recommended))
        + Shown(Section("latest", latest));
    assert sections == Page(contents, progress, ranked);
  }

  lemma {:induction false} ByIdIsKeyed(contents: seq<Lesson>)
    ensures forall id :: id in ById(contents) ==> ById(contents)[id].id == id
  {
    if contents != [] {
      ByIdIsKeyed(contents[..|contents| - 1]);
    }
  }
}
