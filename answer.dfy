/** The answer check of the Telegram handler `reply_question`: the reply is
    right when its upper-cased text equals the upper-cased canonical answer
    cut at its first full stop. */
module AnswerCheck {

  /** `str.upper()` on one character, for ASCII and the Cyrillic block
      U+0400..U+045F; every other character is left as it is. */
  function UpperChar(c: char): (u: char)
    ensures u == '.' <==> c == '.'
    ensures !('a' <= u <= 'z') && !('а' <= u <= 'я') && !('ѐ' <= u <= 'џ')
  {
    if 'a' <= c <= 'z' then (c as int - 32) as char
    else if 'а' <= c <= 'я' then (c as int - 32) as char
    else if 'ѐ' <= c <= 'џ' then (c as int - 80) as char
    else c
  }

  /** `s.upper()`, character by character. */
  function Upper(s: string): (u: string)
    ensures |u| == |s|
    ensures forall i :: 0 <= i < |s| ==> u[i] == UpperChar(s[i])
  {
    if s == [] then [] else [UpperChar(s[0])] + Upper(s[1..])
  }

  /** `s.split('.')[0]`: the longest prefix of `s` without a full stop. It
      is the whole of `s` when `s` has no full stop, and is otherwise
      followed in `s` by the first one. */
  function BeforeFirstDot(s: string): (p: string)
    ensures p <= s
    ensures '.' !in p
    ensures |p| == |s| || s[|p|] == '.'
  {
    if s == [] then []
    else if s[0] == '.' then []
    else [s[0]] + BeforeFirstDot(s[1..])
  }

  /** The comparison of tg_bot.py line 89, with its sense as the handler
      uses it: true when the reply is accepted. A reply is accepted exactly
      when it equals the short form of the answer (the text before its
      first full stop) up to upper-casing; so it is never longer than the
      answer. */
  predicate IsCorrect(text: string, answer: string)
    ensures IsCorrect(text, answer) <==> Upper(text) == Upper(BeforeFirstDot(answer))
    ensures IsCorrect(text, answer) ==> |text| <= |answer|
  {
    UpperBeforeFirstDot(answer);
    Upper(text) == BeforeFirstDot(Upper(answer))
  }

  /** Cutting at the first full stop and upper-casing commute. */
  lemma UpperBeforeFirstDot(s: string)
    ensures BeforeFirstDot(Upper(s)) == Upper(BeforeFirstDot(s))
  {
  }

  /** Upper-casing is idempotent on strings. */
  lemma UpperIdempotent(s: string)
    ensures Upper(Upper(s)) == Upper(s)
  {
  }

  /** With no full stop in the answer, the whole answer is the target. */
  lemma CorrectWithoutDot(text: string, answer: string)
    requires '.' !in answer
    ensures IsCorrect(text, answer) <==> Upper(text) == Upper(answer)
  {
  }

  /** The check ignores the case of the reply: an upper-cased reply is
      judged like the reply itself. */
  lemma CorrectIgnoresCase(text: string, answer: string)
    ensures IsCorrect(Upper(text), answer) <==> IsCorrect(text, answer)
  {
  }

  /** Whatever follows the first full stop of the answer is not graded. */
  lemma CorrectIgnoresElaboration(text: string, short: string, rest: string)
    requires '.' !in short
    ensures IsCorrect(text, short + "." + rest) <==> Upper(text) == Upper(short)
  {
    var answer := short + "." + rest;
    var p := BeforeFirstDot(answer);
    assert answer[|short|] == '.';
    assert p == short;
  }

  /** Upper-casing two sample words. */
  lemma UpperParis()
    ensures Upper("paris") == "PARIS" && Upper("Paris") == "PARIS"
  {
    assert UpperChar('p') == UpperChar('P') == 'P';
    assert UpperChar('a') == 'A';
    assert UpperChar('r') == 'R';
    assert UpperChar('i') == 'I';
    assert UpperChar('s') == 'S';
  }

  /** Worked case: the elaboration after the full stop is not graded. */
  lemma ExampleElaborationIgnored()
    ensures IsCorrect("paris", "Paris. Capital of France")
  {
    UpperParis();
    assert "Paris. Capital of France" == "Paris" + "." + " Capital of France";
    CorrectIgnoresElaboration("paris", "Paris", " Capital of France");
  }
  /** Worked case: case is ignored on both sides. */
  lemma ExampleCaseIgnored()
    ensures IsCorrect("PARIS", "paris")
  {
    UpperParis();
    assert Upper("PARIS") == "PARIS";
    CorrectWithoutDot("PARIS", "paris");
  }
  /** Worked case: an extra letter is not forgiven. */
  lemma ExampleExtraLetterRejected()
    ensures !IsCorrect("pariss", "Paris.")
  {
    UpperParis();
    assert "Paris." == "Paris" + "." + "";
    CorrectIgnoresElaboration("pariss", "Paris", "");
  }
}
