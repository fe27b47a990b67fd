/**
 * The confirmation gate (`confirm`): without matching records nothing
 * proceeds; `assume_yes` proceeds without asking; otherwise the answer to
 * the prompt decides. The printed preview table is display only and is not
 * modelled. The line the user would type is a parameter, read only when the
 * prompt is shown; None stands for standard input at end of input, where
 * `input()` raises `EOFError` and `confirm` returns nothing.
 */
module CfConfirm {
  import opened Wrappers
  import opened Text
  import opened CfApi

  /** `answer.strip().lower() in {"y", "yes"}`. */
  predicate Affirmative(answer: string) {
    Lower(Strip(answer)) in {"y", "yes"}
  }

  /** What `confirm` returned, and whether it showed the prompt; or the prompt was shown and reading the answer raised `EOFError`. */
  datatype Decision = Decision(proceed: bool, prompted: bool) | EndOfInput

  function Confirm(records: seq<Record>, assumeYes: bool, answer: Option<string>): (d: Decision)
    ensures records == [] ==> d.Decision? && !d.proceed && !d.prompted
    ensures records != [] && assumeYes ==> d.Decision? && d.proceed && !d.prompted
    ensures records != [] && !assumeYes && answer.None? ==> d.EndOfInput?
    ensures records != [] && !assumeYes && answer.Some? ==>
      d.Decision? && d.prompted && (d.proceed <==> Affirmative(answer.value))
  {
    if records == [] then Decision(false, false)
    else if assumeYes then Decision(true, false)
    else if answer.None? then EndOfInput
    else Decision(Affirmative(answer.value), true)
  }

  /** Surrounding whitespace and letter case never change whether an answer agrees. */
  lemma AffirmativeIgnoresPaddingAndCase(pre: string, answer: string, post: string)
    requires AllSpace(pre) && AllSpace(post)
    ensures Affirmative(pre + answer + post) == Affirmative(answer)
    ensures Affirmative(Lower(answer)) == Affirmative(answer)
  {
    StripIgnoresPadding(pre, answer, post);
    LowerStrip(answer);
    LowerStrip(Lower(answer));
    LowerIdempotent(answer);
    LowerIdempotent(Strip(answer));
  }

  /** An answer agrees exactly when, once stripped, it is "y" or "yes" in some mix of cases. */
  lemma AffirmativeTokens(answer: string)
    ensures Affirmative(answer) <==>
      var t := Strip(answer);
      (|t| == 1 && LowerChar(t[0]) == 'y') ||
      (|t| == 3 && LowerChar(t[0]) == 'y' && LowerChar(t[1]) == 'e' && LowerChar(t[2]) == 's')
  {
    var t := Strip(answer);
    if |t| == 1 {
      assert Lower(t) == [LowerChar(t[0])];
    } else if |t| == 3 {
      assert Lower(t) == [LowerChar(t[0]), LowerChar(t[1]), LowerChar(t[2])];
    } else {
      assert |Lower(t)| != 1 && |Lower(t)| != 3;
    }
  }

  /** A blank answer, such as just pressing Enter, declines. */
  lemma BlankAnswerDeclines(answer: string)
    requires AllSpace(answer)
    ensures !Affirmative(answer)
  {
    StripTrailing([], answer);
    assert [] + answer == answer;
  }

  /** "Yes" agrees, with any whitespace around it. */
  lemma YesAgrees(pre: string, post: string)
    requires AllSpace(pre) && AllSpace(post)
    ensures Affirmative(pre + "Yes" + post)
  {
    StripTight("Yes");
    assert Lower("Yes") == "yes";
    AffirmativeIgnoresPaddingAndCase(pre, "Yes", post);
  }

  /** "no" declines. */
  lemma NoDeclines()
    ensures !Affirmative("no")
  {
    StripTight("no");
    assert |Lower("no")| == 2;
  }
}
