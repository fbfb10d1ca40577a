/**
 * Facts proved about the normaliser on concrete inputs of `lib/data.ts`: which answer
 * marker wins, the default answer, case-insensitive correctness, and an
 * options block with more than four lines.
 */
module DataCases {
  import opened Seqs
  import opened Text
  import opened Data

  /** The colon form skips whitespace and upper-cases a lower-case letter. */
  lemma ColonAnswer()
    ensures CorrectAnswer("<answer>: b") == "B"
  {
    var s := "<answer>: b";
    assert StartsWithCiAt(s, 0, ColonMarker) by { assert s[0..9] == "<answer>:"; }
    assert s[9] == ' ' && s[10] == 'b';
    assert SkipSpace(s, 9) == 10;
    AnswerFromFirstColon(s, 0);
  }

  /**
   * The colon pattern is tried on the whole blob before the tag pattern, so
   * a colon marker wins even over a tag marker that comes earlier in the text.
   */
  lemma ColonBeatsEarlierTag(s: string)
    requires s == "<Answer>A</Answer><ANSWER>:\nb"
    ensures CorrectAnswer(s) == "B"
  {
    assert |s| == 29;
    assert StartsWithCiAt(s, 18, ColonMarker) by { assert Lower(s[18..27]) == "<answer>:"; }
    assert s[27] == '\n' && s[28] == 'b';
    assert SkipSpace(s, 27) == 28;
    forall j: nat | j < 18 ensures ColonAnswerAt(s, j).None? {
      if j == 0 {
        assert Lower(s[0..9])[8] != ':';
      } else if j == 9 {
        assert Lower(s[9..18])[1] != 'a';
      } else {
        assert s[j] != '<';
        assert Lower(s[j..j + 9])[0] != '<';
      }
    }
    AnswerFromFirstColon(s, 18);
  }

  /** A blob without either marker falls back to "C". */
  lemma NoMarker(s: string)
    requires s == "no marker"
    ensures CorrectAnswer(s) == "C"
  {
    forall j: nat ensures ColonAnswerAt(s, j).None? && TagAnswerAt(s, j).None? {
      if j < |s| {
        assert Lower(s[j..])[0] != '<';
      }
    }
    AnswerDefault(s);
  }

  /** Empty brackets are a match: the question text is empty, not the placeholder. */
  lemma EmptyQuestionText(blob: string)
    requires blob == "<Question>\n[]\n</Question>"
    ensures QuestionText(blob) == ""
  {
    assert StartsWithAt(blob, 0, QuestionOpen) by { assert blob[0..12] == QuestionOpen; }
    assert StartsWithAt(blob, 12, QuestionClose) by { assert blob[12..25] == QuestionClose; }
    QuestionTextIsFirstMatch(blob, 0, 12);
  }

  /** The correctness verdict is searched for "yes" ignoring case. */
  lemma YesBecause()
    ensures ModelCorrect([("correctness_qwen", "Yes, because...")])
  {
    var fields := [("correctness_qwen", "Yes, because...")];
    ModelCorrectIff(fields);
    assert fields[0].0[..12] == CorrectnessPrefix;
    assert IsFirstWithPrefix(fields, CorrectnessPrefix, 0);
    assert StartsWithCiAt(fields[0].1, 0, "yes") by { assert fields[0].1[0..3] == "Yes"; }
  }

  // An options block of five lines, one of them padded with spaces.

  const FiveOptions := "A\n B \nC\nD\nE"
  const FiveLines := ["A", " B ", "C", "D", "E"]

  lemma FiveOptionsBlock(t: string)
    requires t == OptionsOpen + FiveOptions + OptionsClose
    ensures |t| == 30 && t[9..20] == FiveOptions
    ensures Delimited(t, OptionsOpen, OptionsClose) == Some((9, 20))
  {
    assert t[9..20] == FiveOptions;
    assert StartsWithAt(t, 0, OptionsOpen) by { assert t[0..9] == OptionsOpen; }
    assert StartsWithAt(t, 20, OptionsClose) by { assert t[20..30] == OptionsClose; }
    forall j | 9 <= j < 20 ensures !StartsWithAt(t, j, OptionsClose) {
      assert t[j] != '<';
    }
  }

  lemma FiveOptionsTrimmed()
    ensures Trim(FiveOptions) == FiveOptions
  {
    var c := FiveOptions;
    assert !IsSpace(c[0]) && !IsSpace(c[10]);
    assert TrimBounds(c) == (0, 11);
  }

  lemma FiveLinesNonBlank()
    ensures Filter(FiveLines, NonBlankLine()) == FiveLines
  {
    var lines := FiveLines;
    forall x | x in lines ensures NonBlankLine()(x) {
      assert !IsSpace(x[|x| / 2]);
    }
    FilterKeepsAll(lines, NonBlankLine());
  }

  /**
   * Every non-blank line of the block becomes an option, untrimmed and with
   * no cap at four: a fifth option survives extraction.
   */
  lemma OptionsNotCappedAtFour(t: string)
    requires t == OptionsOpen + FiveOptions + OptionsClose
    ensures ExtractOptions(t) == FiveLines
    ensures |ExtractOptions(t)| == 5 && ExtractOptions(t)[1] == " B "
  {
    var lines := FiveLines;
    assert Join(lines, '\n') == FiveOptions;
    assert forall i :: 0 <= i < |lines| ==> '\n' !in lines[i];
    FiveOptionsBlock(t);
    FiveOptionsTrimmed();
    OptionsAreNonBlankLines(t, lines);
    FiveLinesNonBlank();
  }
}
