/**
 * The quiz session of `components/quiz/QuizApp.tsx`: a participant fills in
 * the intake form, answers up to ten questions of one difficulty tier, and
 * then sees their score next to the model's.
 *
 * The component's state cells become the fields of `Session`; its handlers
 * become methods. The random shuffle is not modelled: the caller supplies the
 * shuffled list, which must be a permutation of the filtered pool.
 */
module QuizApp {
  import opened Seqs
  import opened Text
  import opened Data

  /** `type QuizState = 'INTAKE' | 'QUIZ' | 'RESULTS'`. */
  datatype QuizState = Intake | Quiz | Results

  /** What `startQuiz` did: started, returned at the name/position guard, or raised the "insufficient questions" alert. */
  datatype StartOutcome = Started | MissingIdentity | NoQuestions

  /** The record `finishQuiz` hands to `submitQuizResult`. */
  datatype Submission = Submission(name: string, position: string, difficulty: int, userScore: nat, modelScore: nat)

  /** What the RESULTS view shows. */
  datatype Verdict = Verdict(userScore: nat, modelScore: nat, userWin: bool)

  /** `.slice(0, 10)`. */
  const MaxQuestions := 10

  /** The tiers the intake screen offers, `[1, 2, 3, 4, 5]`. */
  predicate IsOfferedTier(n: int) {
    1 <= n <= 5
  }

  function Min(a: int, b: int): int {
    if a <= b then a else b
  }

  /**
   * The label of the option button at position `idx`, looked up in
   * `["A", "B", "C", "D"]`. Past the fourth option the lookup is `undefined`,
   * written "" here: like `undefined` it is falsy and equals no answer.
   */
  function OptionLetter(idx: nat): (c: string)
    ensures IsAnswer(c) <==> idx < 4
    ensures c == "" <==> 4 <= idx
  {
    if idx < 4 then ["A", "B", "C", "D"][idx] else ""
  }

  /** Distinct buttons among the first four carry distinct letters, and every answer letter has a button. */
  lemma OptionLettersDistinct(i: nat, j: nat, a: string)
    ensures i < 4 && OptionLetter(i) == OptionLetter(j) ==> i == j
    ensures IsAnswer(a) ==> exists k: nat :: k < 4 && OptionLetter(k) == a
  {
    if IsAnswer(a) {
      var k: nat := if a == "A" then 0 else if a == "B" then 1 else if a == "C" then 2 else 3;
      assert OptionLetter(k) == a;
    }
  }

  // ---------------------------------------------------------------- scores

  /** The participant's recorded answer to `q` equals its correct answer; no answer counts as wrong. */
  predicate AnsweredCorrectly(q: Question, answers: map<int, string>) {
    q.id in answers && answers[q.id] == q.correctAnswer
  }

  /** The `userScore` fold of `finishQuiz` and of the RESULTS view. */
  function UserScore(qs: seq<Question>, answers: map<int, string>): (n: nat)
    ensures n <= |qs|
  {
    Count(qs, (q: Question) => AnsweredCorrectly(q, answers))
  }

  /** The `modelScore` fold of `finishQuiz` and of the RESULTS view. */
  function ModelScore(qs: seq<Question>): (n: nat)
    ensures n <= |qs|
  {
    Count(qs, (q: Question) => q.modelCorrect)
  }

  /** The user's score is the number of positions whose question was answered correctly. */
  lemma UserScoreCountsCorrect(qs: seq<Question>, answers: map<int, string>)
    ensures UserScore(qs, answers) == |set i: nat | i < |qs| && AnsweredCorrectly(qs[i], answers)|
  {
    var p := (q: Question) => AnsweredCorrectly(q, answers);
    CountIsHits(qs, p);
    assert Hits(qs, p) == set i: nat | i < |qs| && AnsweredCorrectly(qs[i], answers);
  }

  /** The model's score is the number of positions whose question the model got right. */
  lemma ModelScoreCountsCorrect(qs: seq<Question>)
    ensures ModelScore(qs) == |set i: nat | i < |qs| && qs[i].modelCorrect|
  {
    var p := (q: Question) => q.modelCorrect;
    CountIsHits(qs, p);
    assert Hits(qs, p) == set i: nat | i < |qs| && qs[i].modelCorrect;
  }

  /** A full user score means every question was answered, and answered correctly. */
  lemma UserScoreFull(qs: seq<Question>, answers: map<int, string>)
    ensures UserScore(qs, answers) == |qs| <==> forall i :: 0 <= i < |qs| ==> AnsweredCorrectly(qs[i], answers)
  {
    CountFull(qs, (q: Question) => AnsweredCorrectly(q, answers));
  }

  /** With no answers recorded, the user scores nothing. */
  lemma UnansweredScoresZero(qs: seq<Question>)
    ensures UserScore(qs, map[]) == 0
  {
    UserScoreCountsCorrect(qs, map[]);
    assert (set i: nat | i < |qs| && AnsweredCorrectly(qs[i], map[])) == {};
  }

  /** The RESULTS view's comparison: the user wins ties. */
  function ResultsVerdict(qs: seq<Question>, answers: map<int, string>): (v: Verdict)
    ensures v.userScore <= |qs| && v.modelScore <= |qs|
    ensures v.userWin <==> v.userScore >= v.modelScore
  {
    var userScore := UserScore(qs, answers);
    var modelScore := ModelScore(qs);
    Verdict(userScore, modelScore, userScore >= modelScore)
  }

  /** Between one and ten questions, all of tier `difficulty`, drawn from `pool`. */
  ghost predicate Drawn(pool: seq<Question>, difficulty: int, active: seq<Question>) {
    && 1 <= |active| <= MaxQuestions
    && (forall i :: 0 <= i < |active| ==> active[i].kHops == difficulty)
    && multiset(active) <= multiset(pool)
  }

  /**
   * A prefix of any ordering of a tier's questions holds only questions of
   * that tier, all drawn from the pool, and the ordering is empty exactly
   * when the tier is.
   */
  lemma DrawFromTier(pool: seq<Question>, difficulty: int, shuffled: seq<Question>, n: nat)
    requires multiset(shuffled) == multiset(Filter(pool, InTier(difficulty)))
    requires n <= |shuffled|
    ensures |shuffled| == |Filter(pool, InTier(difficulty))|
    ensures 1 <= n <= MaxQuestions ==> Drawn(pool, difficulty, shuffled[..n])
  {
    var filtered := Filter(pool, InTier(difficulty));
    FilterMembers(pool, InTier(difficulty));
    FilterSubMultiset(pool, InTier(difficulty));
    assert |multiset(shuffled)| == |multiset(filtered)|;
    var taken := shuffled[..n];
    assert shuffled == taken + shuffled[n..];
    assert multiset(taken) <= multiset(shuffled);
    forall i | 0 <= i < n ensures taken[i].kHops == difficulty {
      assert taken[i] in multiset(shuffled);
      assert taken[i] in filtered;
      assert InTier(difficulty)(taken[i]);
    }
  }

  /** A participant who answers every question correctly wins, whatever the model scored. */
  lemma PerfectRunWins(qs: seq<Question>, answers: map<int, string>)
    requires forall i :: 0 <= i < |qs| ==> AnsweredCorrectly(qs[i], answers)
    ensures ResultsVerdict(qs, answers).userWin
  {
    UserScoreFull(qs, answers);
  }

  /** Against a model that got every question right, a single miss loses. */
  lemma AnyMissLosesToPerfectModel(qs: seq<Question>, answers: map<int, string>, i: nat)
    requires i < |qs| && !AnsweredCorrectly(qs[i], answers)
    requires forall j :: 0 <= j < |qs| ==> qs[j].modelCorrect
    ensures !ResultsVerdict(qs, answers).userWin
  {
    UserScoreFull(qs, answers);
    CountFull(qs, (q: Question) => q.modelCorrect);
  }

  // --------------------------------------------------------------- session

  class Session {
    const questionsPool: seq<Question>
    var view: QuizState
    var name: string
    var position: string
    var difficulty: int
    var activeQuestions: seq<Question>
    var currentIndex: nat
    var userAnswers: map<int, string>

    /**
     * In INTAKE nothing has been drawn or answered. From QUIZ on, between one
     * and ten questions of the chosen tier are active, all drawn from the
     * pool, the cursor is on one of them, and only their ids have answers.
     * RESULTS is reached only from the last question.
     */
    ghost predicate Valid()
      reads this
    {
      && IsOfferedTier(difficulty)
      && (view == Intake ==> activeQuestions == [] && currentIndex == 0 && userAnswers == map[])
      && (view != Intake ==>
            && Drawn(questionsPool, difficulty, activeQuestions)
            && currentIndex < |activeQuestions|
            && userAnswers.Keys <= (set i | 0 <= i < |activeQuestions| :: activeQuestions[i].id))
      && (view == Results ==> currentIndex == |activeQuestions| - 1)
    }

    /** The initial `useState` values. */
    constructor (pool: seq<Question>)
      ensures Valid()
      ensures questionsPool == pool && view == Intake
      ensures name == "" && position == "" && difficulty == 1
      ensures activeQuestions == [] && currentIndex == 0 && userAnswers == map[]
    {
      questionsPool := pool;
      view := Intake;
      name, position, difficulty := "", "", 1;
      activeQuestions, currentIndex, userAnswers := [], 0, map[];
    }

    /** The name input's `onChange`. */
    method SetName(n: string)
      requires Valid() && view == Intake
      modifies this`name
      ensures Valid() && name == n
    {
      name := n;
    }

    /** The position input's `onChange`. */
    method SetPosition(p: string)
      requires Valid() && view == Intake
      modifies this`position
      ensures Valid() && position == p
    {
      position := p;
    }

    /** A tier button's `onClick`. */
    method SetDifficulty(n: int)
      requires Valid() && view == Intake && IsOfferedTier(n)
      modifies this`difficulty
      ensures Valid() && difficulty == n
    {
      difficulty := n;
    }

    /**
     * `isReady`, which enables the start button: both fields are non-blank
     * after trimming. It implies the handler's own (untrimmed) guard passes.
     */
    function IsReady(): (ready: bool)
      reads this
      ensures ready ==> name != "" && position != ""
      ensures ready <==> (exists k :: 0 <= k < |name| && !IsSpace(name[k])) && (exists k :: 0 <= k < |position| && !IsSpace(position[k]))
    {
      |Trim(name)| > 0 && |Trim(position)| > 0
    }

    /** The pool questions of the chosen tier, in pool order. */
    function Filtered(): (f: seq<Question>)
      reads this
      ensures forall q :: q in f <==> q in questionsPool && q.kHops == difficulty
      ensures multiset(f) <= multiset(questionsPool)
    {
      FilterMembers(questionsPool, InTier(difficulty));
      FilterSubMultiset(questionsPool, InTier(difficulty));
      Filter(questionsPool, InTier(difficulty))
    }

    /**
     * `startQuiz`, with `shuffled` standing for the randomly sorted filtered
     * list. The guard is raw emptiness of the name and position; an empty
     * selection leaves the session in INTAKE.
     */
    method StartQuiz(shuffled: seq<Question>) returns (outcome: StartOutcome)
      requires Valid() && view == Intake
      requires multiset(shuffled) == multiset(Filter(questionsPool, InTier(difficulty)))
      modifies this`view, this`activeQuestions
      ensures Valid()
      ensures outcome == MissingIdentity <==> name == "" || position == ""
      ensures outcome == NoQuestions <==> name != "" && position != "" && Filtered() == []
      ensures outcome != Started ==> view == Intake && activeQuestions == old(activeQuestions)
      ensures outcome == Started ==>
        && view == Quiz
        && activeQuestions == shuffled[..Min(MaxQuestions, |shuffled|)]
        && |activeQuestions| == Min(MaxQuestions, |Filtered()|)
        && Drawn(questionsPool, difficulty, activeQuestions)
    {
      DrawFromTier(questionsPool, difficulty, shuffled, Min(MaxQuestions, |shuffled|));
      if name == "" || position == "" {
        return MissingIdentity;
      }
      var n := Min(MaxQuestions, |shuffled|);
      if n == 0 {
        return NoQuestions;
      }
      activeQuestions := shuffled[..n];
      view := Quiz;
      return Started;
    }

    /** `handleAnswer`: record the letter for the current question, replacing any earlier choice. */
    method HandleAnswer(optionChar: string)
      requires Valid() && view == Quiz
      modifies this`userAnswers
      ensures Valid()
      ensures userAnswers == old(userAnswers)[activeQuestions[currentIndex].id := optionChar]
    {
      userAnswers := userAnswers[activeQuestions[currentIndex].id := optionChar];
    }

    /** An option button's `onClick`: `handleAnswer` with the button's letter. */
    method ChooseOption(idx: nat)
      requires Valid() && view == Quiz && idx < |activeQuestions[currentIndex].options|
      modifies this`userAnswers
      ensures Valid()
      ensures userAnswers == old(userAnswers)[activeQuestions[currentIndex].id := OptionLetter(idx)]
      ensures HasSelection() <==> idx < 4
    {
      HandleAnswer(OptionLetter(idx));
    }

    /** The current question has a non-empty answer, so the advance button is enabled (`disabled={!selected}`). */
    predicate HasSelection(): (enabled: bool)
      reads this
      requires Valid() && view == Quiz
      ensures var id := activeQuestions[currentIndex].id;
        id in userAnswers && IsAnswer(userAnswers[id]) ==> enabled
      ensures var id := activeQuestions[currentIndex].id;
        id !in userAnswers || userAnswers[id] == "" ==> !enabled
    {
      var id := activeQuestions[currentIndex].id;
      id in userAnswers && userAnswers[id] != ""
    }

    /** `finishQuiz`: score the session, move to RESULTS and produce the record to submit. */
    method FinishQuiz() returns (submission: Submission)
      requires Valid() && view == Quiz && currentIndex == |activeQuestions| - 1
      modifies this`view
      ensures Valid() && view == Results
      ensures submission == Submission(name, position, difficulty, UserScore(activeQuestions, userAnswers), ModelScore(activeQuestions))
      ensures submission.userScore <= |activeQuestions| <= MaxQuestions && submission.modelScore <= |activeQuestions|
      ensures submission.userScore == Shown().userScore && submission.modelScore == Shown().modelScore
    {
      var userScore := UserScore(activeQuestions, userAnswers);
      var modelScore := ModelScore(activeQuestions);
      view := Results;
      submission := Submission(name, position, difficulty, userScore, modelScore);
    }

    /** `nextQuestion`: advance the cursor by one, or finish after the last question. */
    method NextQuestion() returns (submission: Option<Submission>)
      requires Valid() && view == Quiz && HasSelection()
      modifies this`view, this`currentIndex
      ensures Valid()
      ensures old(currentIndex) < |activeQuestions| - 1 ==>
        view == Quiz && currentIndex == old(currentIndex) + 1 && submission.None?
      ensures old(currentIndex) == |activeQuestions| - 1 ==>
        && view == Results && currentIndex == old(currentIndex)
        && submission == Some(Submission(name, position, difficulty, Shown().userScore, Shown().modelScore))
      ensures old(currentIndex) <= currentIndex
    {
      if currentIndex < |activeQuestions| - 1 {
        currentIndex := currentIndex + 1;
        submission := None;
      } else {
        var s := FinishQuiz();
        submission := Some(s);
      }
    }

    /**
     * The advance button: `nextQuestion` when an answer is selected for the
     * current question, and nothing at all while the button is disabled.
     */
    method PressNext() returns (submission: Option<Submission>)
      requires Valid() && view == Quiz
      modifies this`view, this`currentIndex
      ensures Valid()
      ensures !old(HasSelection()) ==> view == Quiz && currentIndex == old(currentIndex) && submission.None?
      ensures old(HasSelection()) && old(currentIndex) < |activeQuestions| - 1 ==>
        view == Quiz && currentIndex == old(currentIndex) + 1 && submission.None?
      ensures old(HasSelection()) && old(currentIndex) == |activeQuestions| - 1 ==>
        && view == Results && currentIndex == old(currentIndex)
        && submission == Some(Submission(name, position, difficulty, Shown().userScore, Shown().modelScore))
    {
      if HasSelection() {
        submission := NextQuestion();
      } else {
        submission := None;
      }
    }

    /** The scores and winner shown in the RESULTS view, recomputed from the session. */
    function Shown(): (v: Verdict)
      reads this
      requires Valid() && view == Results
      ensures v.userScore <= |activeQuestions| <= MaxQuestions && v.modelScore <= |activeQuestions|
      ensures v.userWin <==> v.userScore >= v.modelScore
    {
      ResultsVerdict(activeQuestions, userAnswers)
    }
  }

  /** A pool of tiers 1 to 3 has nothing to offer for tier 4 or 5. */
  lemma {:induction false} UpperTiersEmpty(pool: seq<Question>, difficulty: int)
    requires forall i :: 0 <= i < |pool| ==> 1 <= pool[i].kHops <= 3
    requires 4 <= difficulty <= 5
    ensures Filter(pool, InTier(difficulty)) == []
  {
    if pool != [] {
      UpperTiersEmpty(pool[1..], difficulty);
    }
  }

  /**
   * With a pool of tiers 1 to 3 only, as the quiz page builds it
   * (`QuizPool`), choosing tier 4 or 5 on the intake screen always ends
   * in the "insufficient questions" alert.
   */
  method UpperTiersNeverStart(pool: seq<Question>, name: string, position: string, difficulty: int) returns (outcome: StartOutcome)
    requires forall i :: 0 <= i < |pool| ==> 1 <= pool[i].kHops <= 3
    requires name != "" && position != ""
    requires 4 <= difficulty <= 5
    ensures outcome == NoQuestions
  {
    UpperTiersEmpty(pool, difficulty);
    var session := new Session(pool);
    session.SetName(name);
    session.SetPosition(position);
    session.SetDifficulty(difficulty);
    outcome := session.StartQuiz([]);
  }
}
