/** The quiz corpus: the (question, answer) pairs the corpus regex matches,
    numbered from 0 in match order. */
module Corpus {

  /** One matched block: the question body and the answer body. */
  datatype QA = QA(question: string, answer: string)

  /** A question table whose keys are exactly 0 .. |quiz| - 1. */
  ghost predicate Indexed(quiz: map<int, QA>) {
    forall i :: i in quiz <==> 0 <= i < |quiz|
  }

  /** `{n: pair for n, pair in enumerate(matches)}`: each match is bound to
      its position, and the table has as many entries as there are matches. */
  function ParseQuizText(matches: seq<QA>): (quiz: map<int, QA>)
    ensures |quiz| == |matches|
    ensures forall i :: i in quiz <==> 0 <= i < |matches|
    ensures forall i :: 0 <= i < |matches| ==> quiz[i] == matches[i]
  {
    if matches == [] then map[]
    else
      var last := |matches| - 1;
      ParseQuizText(matches[..last])[last := matches[last]]
  }
}
