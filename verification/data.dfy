/**
 * The question-record normaliser of `lib/data.ts`: raw records, already
 * parsed from the question file, are filtered by difficulty tier and each is
 * mapped to a canonical `Question` by searching its text blob for markers and
 * its keys for the `correctness_` and `response_` prefixes.
 *
 * A raw record is its numeric `id` and `k_hops` plus its string-valued
 * entries, kept as an ordered sequence of (key, value) pairs in the order
 * `Object.keys` lists them, so that "the first key with a prefix" is defined.
 */
module Data {
  import opened Seqs
  import opened Text

  type Field = (string, string)

  datatype RawRecord = RawRecord(id: int, kHops: int, fields: seq<Field>)

  datatype Question = Question(
    id: int,
    kHops: int,
    question: string,
    options: seq<string>,
    correctAnswer: string,
    explanation: string,
    modelCorrect: bool,
    rawResponse: string)

  const BlobKey := "question_and_explanation"
  const CorrectnessPrefix := "correctness_"
  const ResponsePrefix := "response_"
  const QuestionNotFound := "Question text not found."
  const DefaultAnswer := "C"

  // The delimiters of `/<Question>\n\[(.*?)\]\n<\/Question>/s` and `/<Options>(.*?)<\/Options>/s`.
  const QuestionOpen := "<Question>\n["
  const QuestionClose := "]\n</Question>"
  const OptionsOpen := "<Options>"
  const OptionsClose := "</Options>"

  // The literal parts of `/<Answer>:\s*([A-D])/i` and `/<Answer>([A-D])<\/Answer>/i`,
  // in lower case because both are matched ignoring case.
  const ColonMarker := "<answer>:"
  const TagOpen := "<answer>"
  const TagClose := "</answer>"

  predicate IsAnswer(a: string) {
    a == "A" || a == "B" || a == "C" || a == "D"
  }

  /** The class `[A-D]` under the `i` flag. */
  predicate IsAnswerLetter(c: char) {
    'a' <= c <= 'd' || 'A' <= c <= 'D'
  }

  /** `key.startsWith(prefix)`. */
  predicate HasPrefix(key: string, prefix: string) {
    StartsWithAt(key, 0, prefix)
  }

  function KeyIs(key: string): Field -> bool {
    (f: Field) => f.0 == key
  }

  function KeyHasPrefix(prefix: string): Field -> bool {
    (f: Field) => HasPrefix(f.0, prefix)
  }

  /** Entry `i` is the first whose key starts with `prefix`. */
  predicate IsFirstWithPrefix(fields: seq<Field>, prefix: string, i: nat) {
    i < |fields| && HasPrefix(fields[i].0, prefix) &&
    forall k :: 0 <= k < i ==> !HasPrefix(fields[k].0, prefix)
  }

  /** `Object.keys(item).find(key => key.startsWith(prefix))`, as an index into the entries. */
  lemma FirstKeyWithPrefix(fields: seq<Field>, prefix: string)
    ensures forall i: nat :: FirstIndex(fields, KeyHasPrefix(prefix)) == Some(i) <==> IsFirstWithPrefix(fields, prefix, i)
    ensures FirstIndex(fields, KeyHasPrefix(prefix)).None? <==>
      forall i :: 0 <= i < |fields| ==> !HasPrefix(fields[i].0, prefix)
  {
    var p := KeyHasPrefix(prefix);
    assert forall k :: 0 <= k < |fields| ==> (p(fields[k]) <==> HasPrefix(fields[k].0, prefix));
  }

  /** `item.question_and_explanation || ""`. */
  function Blob(r: RawRecord): (b: string)
    ensures (forall i :: 0 <= i < |r.fields| ==> r.fields[i].0 != BlobKey) ==> b == ""
    ensures forall i ::
      (0 <= i < |r.fields| && r.fields[i].0 == BlobKey && forall k :: 0 <= k < i ==> r.fields[k].0 != BlobKey)
      ==> b == r.fields[i].1
  {
    var p := KeyIs(BlobKey);
    assert forall k :: 0 <= k < |r.fields| ==> (p(r.fields[k]) <==> r.fields[k].0 == BlobKey);
    match FirstIndex(r.fields, p)
    case None => ""
    case Some(i) => r.fields[i].1
  }

  // ---------------------------------------------------------------- answer

  /** The letter captured when `/<Answer>:\s*([A-D])/i` is tried at position `i`. */
  function ColonAnswerAt(s: string, i: nat): (r: Option<char>)
    ensures r.Some? ==> StartsWithCiAt(s, i, ColonMarker) && IsAnswerLetter(r.value)
    ensures |s| <= i ==> r.None?
  {
    if StartsWithCiAt(s, i, ColonMarker) then
      var j := SkipSpace(s, i + |ColonMarker|);
      if j < |s| && IsAnswerLetter(s[j]) then Some(s[j]) else None
    else None
  }

  /**
   * The colon pattern, read as a regular expression, matches at `i` with its
   * letter at `j`: the marker, then any whitespace, then a letter A-D.
   */
  predicate ColonPatternAt(s: string, i: nat, j: nat) {
    StartsWithCiAt(s, i, ColonMarker) && i + |ColonMarker| <= j < |s| &&
    (forall k :: i + |ColonMarker| <= k < j ==> IsSpace(s[k])) && IsAnswerLetter(s[j])
  }

  /** The greedy skip of `\s*` loses no match: backtracking could never help, as a letter is not whitespace. */
  lemma ColonAnswerAtIsPattern(s: string, i: nat, c: char)
    ensures ColonAnswerAt(s, i) == Some(c) <==> exists j: nat :: ColonPatternAt(s, i, j) && s[j] == c
  {
    if ColonAnswerAt(s, i) == Some(c) {
      var j := SkipSpace(s, i + |ColonMarker|);
      assert ColonPatternAt(s, i, j) && s[j] == c;
    }
    if exists j: nat :: ColonPatternAt(s, i, j) && s[j] == c {
      var j: nat :| ColonPatternAt(s, i, j) && s[j] == c;
      var j' := SkipSpace(s, i + |ColonMarker|);
      assert j' == j;
    }
  }

  /** The letter captured when `/<Answer>([A-D])<\/Answer>/i` is tried at position `i`. */
  function TagAnswerAt(s: string, i: nat): (r: Option<char>)
    ensures r.Some? ==>
      && StartsWithCiAt(s, i, TagOpen) && i + |TagOpen| < |s|
      && r.value == s[i + |TagOpen|] && IsAnswerLetter(r.value)
      && StartsWithCiAt(s, i + |TagOpen| + 1, TagClose)
    ensures |s| <= i ==> r.None?
  {
    var j := i + |TagOpen|;
    if StartsWithCiAt(s, i, TagOpen) && j < |s| && IsAnswerLetter(s[j]) && StartsWithCiAt(s, j + 1, TagClose)
    then Some(s[j])
    else None
  }

  /** `blob.match(colon) || blob.match(tag)`: the captured letter, if either pattern matches. */
  function AnswerMatch(s: string): (r: Option<char>)
    ensures r.Some? ==> IsAnswerLetter(r.value)
    ensures r.None? ==> forall j: nat :: ColonAnswerAt(s, j).None? && TagAnswerAt(s, j).None?
    ensures r.Some? ==> exists j: nat :: ColonAnswerAt(s, j) == r || TagAnswerAt(s, j) == r
  {
    var colon := (i: nat) => ColonAnswerAt(s, i).Some?;
    var tag := (i: nat) => TagAnswerAt(s, i).Some?;
    match FirstFrom(0, |s| + 1, colon)
    case Some(i) => ColonAnswerAt(s, i)
    case None =>
      match FirstFrom(0, |s| + 1, tag)
      case Some(i) => TagAnswerAt(s, i)
      case None =>
        assert forall j: nat :: j <= |s| ==> !colon(j) && !tag(j);
        assert forall j: nat :: ColonAnswerAt(s, j).None? && TagAnswerAt(s, j).None? by {
          forall j: nat ensures ColonAnswerAt(s, j).None? && TagAnswerAt(s, j).None? {
            if j <= |s| {
              assert !colon(j) && !tag(j);
            }
          }
        }
        None
  }

  /** `answerMatch ? answerMatch[1].toUpperCase() : "C"`: always one of the four letters. */
  function CorrectAnswer(s: string): (a: string)
    ensures IsAnswer(a)
  {
    match AnswerMatch(s)
    case Some(c) =>
      UpperAnswer(c);
      [UpperChar(c)]
    case None => DefaultAnswer
  }

  lemma UpperAnswer(c: char)
    requires IsAnswerLetter(c)
    ensures IsAnswer([UpperChar(c)])
  {
  }

  /** The first colon-form marker decides, wherever the tag form occurs. */
  lemma AnswerFromFirstColon(s: string, i: nat)
    requires ColonAnswerAt(s, i).Some?
    requires forall j: nat :: j < i ==> ColonAnswerAt(s, j).None?
    ensures CorrectAnswer(s) == [UpperChar(ColonAnswerAt(s, i).value)]
  {
    var colon := (i: nat) => ColonAnswerAt(s, i).Some?;
    assert i < |s| + 1 && colon(i);
    assert forall j: nat :: j < i ==> !colon(j);
    FirstFromAt(0, |s| + 1, colon, i);
  }

  /** Without any colon-form marker, the first tag-form marker decides. */
  lemma AnswerFromFirstTag(s: string, i: nat)
    requires forall j: nat :: ColonAnswerAt(s, j).None?
    requires TagAnswerAt(s, i).Some?
    requires forall j: nat :: j < i ==> TagAnswerAt(s, j).None?
    ensures CorrectAnswer(s) == [UpperChar(TagAnswerAt(s, i).value)]
  {
    var colon := (i: nat) => ColonAnswerAt(s, i).Some?;
    var tag := (i: nat) => TagAnswerAt(s, i).Some?;
    assert forall j: nat :: !colon(j);
    assert FirstFrom(0, |s| + 1, colon).None?;
    assert i < |s| + 1 && tag(i);
    assert forall j: nat :: j < i ==> !tag(j);
    FirstFromAt(0, |s| + 1, tag, i);
  }

  /** Without any marker of either form the answer is the fallback "C". */
  lemma AnswerDefault(s: string)
    requires forall j: nat :: ColonAnswerAt(s, j).None? && TagAnswerAt(s, j).None?
    ensures CorrectAnswer(s) == DefaultAnswer
  {
    var colon := (i: nat) => ColonAnswerAt(s, i).Some?;
    var tag := (i: nat) => TagAnswerAt(s, i).Some?;
    assert FirstFrom(0, |s| + 1, colon).None?;
    assert FirstFrom(0, |s| + 1, tag).None?;
  }

  // ---------------------------------------------------------- question text

  /** The captured question text, or the placeholder when the delimiters do not both occur. */
  function QuestionText(blob: string): (t: string)
    ensures (forall i: nat, k: nat :: !Enclosed(blob, QuestionOpen, QuestionClose, i, k)) ==> t == QuestionNotFound
  {
    match Delimited(blob, QuestionOpen, QuestionClose)
    case None => QuestionNotFound
    case Some((b, e)) => blob[b..e]
  }

  /**
   * The question text is what lies between the first opening delimiter and
   * the nearest closing delimiter after it.
   */
  lemma QuestionTextIsFirstMatch(blob: string, i: nat, k: nat)
    requires Enclosed(blob, QuestionOpen, QuestionClose, i, k)
    requires forall j :: 0 <= j < i ==> !StartsWithAt(blob, j, QuestionOpen)
    requires forall j :: i + |QuestionOpen| <= j < k ==> !StartsWithAt(blob, j, QuestionClose)
    ensures QuestionText(blob) == blob[i + |QuestionOpen|..k]
  {
    var m := Delimited(blob, QuestionOpen, QuestionClose);
    assert m.Some?;
    var b := m.value.0;
    assert Enclosed(blob, QuestionOpen, QuestionClose, b - |QuestionOpen|, m.value.1);
    assert b - |QuestionOpen| == i;
    assert m.value.1 == k;
  }

  // --------------------------------------------------------------- options

  /** `line.trim().length > 0`. */
  function NonBlankLine(): string -> bool {
    (line: string) => |Trim(line)| > 0
  }

  /**
   * `extractOptions`: the non-blank lines of the trimmed content of the
   * first options block; none without a block.
   */
  function ExtractOptions(text: string): (opts: seq<string>)
    ensures Delimited(text, OptionsOpen, OptionsClose).None? ==> opts == []
    ensures forall o :: o in opts ==> '\n' !in o && exists k :: 0 <= k < |o| && !IsSpace(o[k])
  {
    match Delimited(text, OptionsOpen, OptionsClose)
    case None => []
    case Some((b, e)) =>
      var lines := Split(Trim(text[b..e]), '\n');
      FilterMembers(lines, NonBlankLine());
      Filter(lines, NonBlankLine())
  }

  /**
   * Whenever the trimmed content of the first options block is a list of
   * newline-free lines joined by newlines, the options are exactly the
   * non-blank ones among those lines, in order and untrimmed.
   */
  lemma OptionsAreNonBlankLines(text: string, lines: seq<string>)
    requires Delimited(text, OptionsOpen, OptionsClose).Some?
    requires |lines| >= 1 && forall i :: 0 <= i < |lines| ==> '\n' !in lines[i]
    requires
      var m := Delimited(text, OptionsOpen, OptionsClose).value;
      Join(lines, '\n') == Trim(text[m.0..m.1])
    ensures ExtractOptions(text) == Filter(lines, NonBlankLine())
  {
    SplitJoin(lines, '\n');
  }

  // ------------------------------------------------------ model correctness

  /** `correctnessKey ? item[correctnessKey].toLowerCase().includes("yes") : false`. */
  function ModelCorrect(fields: seq<Field>): (correct: bool)
    ensures (forall i :: 0 <= i < |fields| ==> !HasPrefix(fields[i].0, CorrectnessPrefix)) ==> !correct
    ensures forall i: nat :: IsFirstWithPrefix(fields, CorrectnessPrefix, i) ==>
      (correct <==> Contains(Lower(fields[i].1), "yes"))
  {
    FirstKeyWithPrefix(fields, CorrectnessPrefix);
    match FirstIndex(fields, KeyHasPrefix(CorrectnessPrefix))
    case None => false
    case Some(i) => Contains(Lower(fields[i].1), "yes")
  }

  /**
   * The model counts as correct exactly when some key starts with
   * "correctness_" and the value of the first such key contains "yes" in any
   * letter case.
   */
  lemma ModelCorrectIff(fields: seq<Field>)
    ensures ModelCorrect(fields) <==>
      exists i: nat :: IsFirstWithPrefix(fields, CorrectnessPrefix, i) &&
        exists j: nat :: StartsWithCiAt(fields[i].1, j, "yes")
  {
    FirstKeyWithPrefix(fields, CorrectnessPrefix);
    assert Lower("yes") == "yes";
    match FirstIndex(fields, KeyHasPrefix(CorrectnessPrefix))
    case None =>
    case Some(i) =>
      LowerContains(fields[i].1, "yes");
  }

  // ---------------------------------------------------------- model response

  /** `responseKey ? item[responseKey] : ""`. */
  function RawResponse(fields: seq<Field>): (v: string)
    ensures (forall i :: 0 <= i < |fields| ==> !HasPrefix(fields[i].0, ResponsePrefix)) ==> v == ""
    ensures forall i: nat :: IsFirstWithPrefix(fields, ResponsePrefix, i) ==> v == fields[i].1
  {
    match FirstIndex(fields, KeyHasPrefix(ResponsePrefix))
    case None => ""
    case Some(i) =>
      FirstKeyWithPrefix(fields, ResponsePrefix);
      fields[i].1
  }

  // ------------------------------------------------------------- normalise

  /** The body of the `map` callback in `getQuestions`. */
  function Normalize(r: RawRecord): (q: Question)
    ensures q.id == r.id && q.kHops == r.kHops
    ensures IsAnswer(q.correctAnswer)
    ensures q.explanation == q.rawResponse
    ensures forall o :: o in q.options ==> '\n' !in o
  {
    var blob := Blob(r);
    var response := RawResponse(r.fields);
    Question(
      id := r.id,
      kHops := r.kHops,
      question := QuestionText(blob),
      options := ExtractOptions(blob),
      correctAnswer := CorrectAnswer(blob),
      explanation := response,
      modelCorrect := ModelCorrect(r.fields),
      rawResponse := response)
  }

  function RecordInTier(d: int): RawRecord -> bool {
    (r: RawRecord) => r.kHops == d
  }

  function InTier(d: int): Question -> bool {
    (q: Question) => q.kHops == d
  }

  /** `getQuestions(difficulty)` on the already parsed records. */
  function GetQuestions(records: seq<RawRecord>, difficulty: int): (qs: seq<Question>)
    ensures forall i :: 0 <= i < |qs| ==> qs[i].kHops == difficulty
  {
    var kept := Filter(records, RecordInTier(difficulty));
    FilterKept(records, RecordInTier(difficulty));
    Map(kept, Normalize)
  }

  /**
   * Each record is normalised on its own and kept in place: the output for
   * `before + [r] + after` is the output for `before`, then `r`'s question if
   * `r` is in the tier, then the output for `after`.
   */
  lemma GetQuestionsInOrder(before: seq<RawRecord>, r: RawRecord, after: seq<RawRecord>, difficulty: int)
    ensures GetQuestions(before + [r] + after, difficulty) ==
      GetQuestions(before, difficulty) +
      (if r.kHops == difficulty then [Normalize(r)] else []) +
      GetQuestions(after, difficulty)
  {
    var keep := RecordInTier(difficulty);
    FilterAppend(before + [r], after, keep);
    FilterAppend(before, [r], keep);
    var a, m, b := Filter(before, keep), Filter([r], keep), Filter(after, keep);
    TierOfOne(r, difficulty);
    assert GetQuestions(before + [r] + after, difficulty) == Map(Filter(before + [r] + after, keep), Normalize);
    assert GetQuestions(before, difficulty) == Map(a, Normalize);
    assert GetQuestions(after, difficulty) == Map(b, Normalize);
    MapAppend(a + m, b, Normalize);
    MapAppend(a, m, Normalize);
  }

  lemma TierOfOne(r: RawRecord, difficulty: int)
    ensures Map(Filter([r], RecordInTier(difficulty)), Normalize) ==
      if r.kHops == difficulty then [Normalize(r)] else []
  {
    var m := Filter([r], RecordInTier(difficulty));
    if r.kHops == difficulty {
      assert m == [r];
    } else {
      assert m == [];
    }
  }

  /** The pool the quiz page hands to the quiz: tiers 1, 2 and 3 concatenated. */
  function QuizPool(records: seq<RawRecord>): (pool: seq<Question>)
    ensures forall i :: 0 <= i < |pool| ==> 1 <= pool[i].kHops <= 3
  {
    var q1, q2, q3 := GetQuestions(records, 1), GetQuestions(records, 2), GetQuestions(records, 3);
    TiersOneToThree(q1, q2, q3);
    q1 + q2 + q3
  }

  lemma TiersOneToThree(q1: seq<Question>, q2: seq<Question>, q3: seq<Question>)
    requires forall i :: 0 <= i < |q1| ==> q1[i].kHops == 1
    requires forall i :: 0 <= i < |q2| ==> q2[i].kHops == 2
    requires forall i :: 0 <= i < |q3| ==> q3[i].kHops == 3
    ensures forall i :: 0 <= i < |q1 + q2 + q3| ==> 1 <= (q1 + q2 + q3)[i].kHops <= 3
  {
    var pool := q1 + q2 + q3;
    forall i | 0 <= i < |pool| ensures 1 <= pool[i].kHops <= 3 {
      if i < |q1| {
        assert pool[i] == q1[i];
      } else if i < |q1| + |q2| {
        assert pool[i] == q2[i - |q1|];
      } else {
        assert pool[i] == q3[i - |q1| - |q2|];
      }
    }
  }

  /** Filtering the pool by a tier gives that tier's questions, and nothing for tiers other than 1 to 3. */
  lemma PoolByTier(records: seq<RawRecord>, difficulty: int)
    ensures Filter(QuizPool(records), InTier(difficulty)) ==
      if 1 <= difficulty <= 3 then GetQuestions(records, difficulty) else []
  {
    var q1, q2, q3 := GetQuestions(records, 1), GetQuestions(records, 2), GetQuestions(records, 3);
    ConcatByTier(q1, q2, q3, difficulty);
    var f := Filter(QuizPool(records), InTier(difficulty));
    if difficulty == 1 {
      assert f == q1;
    } else if difficulty == 2 {
      assert f == q2;
    } else if difficulty == 3 {
      assert f == q3;
    } else {
      assert f == [];
    }
  }

  /** Filtering three single-tier lists of tiers 1, 2 and 3, concatenated, selects one of them or none. */
  lemma ConcatByTier(q1: seq<Question>, q2: seq<Question>, q3: seq<Question>, difficulty: int)
    requires forall i :: 0 <= i < |q1| ==> q1[i].kHops == 1
    requires forall i :: 0 <= i < |q2| ==> q2[i].kHops == 2
    requires forall i :: 0 <= i < |q3| ==> q3[i].kHops == 3
    ensures Filter(q1 + q2 + q3, InTier(difficulty)) ==
      if difficulty == 1 then q1 else if difficulty == 2 then q2 else if difficulty == 3 then q3 else []
  {
    var keep := InTier(difficulty);
    FilterAppend(q1 + q2, q3, keep);
    FilterAppend(q1, q2, keep);
    var f1, f2, f3 := Filter(q1, keep), Filter(q2, keep), Filter(q3, keep);
    TierFilter(q1, 1, difficulty);
    TierFilter(q2, 2, difficulty);
    TierFilter(q3, 3, difficulty);
    if difficulty == 1 {
      assert f1 + f2 + f3 == q1 + [] + [];
    } else if difficulty == 2 {
      assert f1 + f2 + f3 == [] + q2 + [];
    } else if difficulty == 3 {
      assert f1 + f2 + f3 == [] + [] + q3;
    } else {
      assert f1 + f2 + f3 == [] + [] + [];
    }
  }

  /** Filtering a list whose questions are all of tier `t` by tier `d` keeps all of it or none of it. */
  lemma {:induction false} TierFilter(qs: seq<Question>, t: int, d: int)
    requires forall i :: 0 <= i < |qs| ==> qs[i].kHops == t
    ensures Filter(qs, InTier(d)) == if t == d then qs else []
  {
    if qs != [] {
      TierFilter(qs[1..], t, d);
      assert qs == [qs[0]] + qs[1..];
    }
  }
}
