/** questions.py: the `Quiz` class, which keeps each player's position in
    the field `question_number` of a Redis hash keyed by the player. */
module Questions {
  import opened Common
  import opened Corpus

  type PlayerId = string

  /** Redis hashes: key -> field -> value (values held as integers). */
  type HashStore = map<PlayerId, map<string, int>>

  const QuestionNumberField: string := "question_number"

  /** `hget(key, field)`: the stored value, or None when absent. */
  function HGet(store: HashStore, key: PlayerId, field: string): (v: Option<int>)
    ensures v.Some? <==> key in store && field in store[key]
    ensures v.Some? ==> v.value == store[key][field]
  {
    if key in store && field in store[key] then Some(store[key][field]) else None
  }

  /** `hset(key, field, value)`: that one field now holds `value`; every
      other (key, field) reads as before. */
  function HSet(store: HashStore, key: PlayerId, field: string, value: int): (s: HashStore)
    ensures HGet(s, key, field) == Some(value)
    ensures forall k, f :: (k != key || f != field) ==> HGet(s, k, f) == HGet(store, k, f)
    ensures s.Keys == store.Keys + {key}
  {
    var fields := if key in store then store[key] else map[];
    store[key := fields[field := value]]
  }

  /** The question after `n` in a corpus of `total` questions. */
  function Successor(n: int, total: int): (m: int)
    requires total > 0
    ensures 0 <= m < total
  {
    (n + 1) % total
  }

  /** The question number `get_next_question` stores, given the one it
      read: 0 for a new player, otherwise the successor; with an empty
      corpus the modulo raises. */
  function NextQuestionNumber(stored: Option<int>, total: nat): (r: Result<int>)
    ensures stored.None? ==> r == Ok(0)
    ensures total > 0 ==> r.Ok? && 0 <= r.value < total
    ensures stored.Some? && total == 0 ==> r == Err(ZeroDivisionError)
  {
    match stored
    case None => Ok(0)
    case Some(n) => if total == 0 then Err(ZeroDivisionError) else Ok(Successor(n, total))
  }

  /** `k` successive advances from `n`. */
  function AdvanceTimes(n: int, total: int, k: nat): (m: int)
    requires total > 0
    ensures k > 0 || 0 <= n < total ==> 0 <= m < total
  {
    if k == 0 then n else Successor(AdvanceTimes(n, total, k - 1), total)
  }

  /** Inside the corpus, the successor is the next number, or 0 after the last. */
  lemma SuccessorInRange(n: int, total: int)
    requires 0 <= n < total
    ensures Successor(n, total) == if n + 1 == total then 0 else n + 1
  {
  }

  /** Advancing `a` then `b` times is advancing `a + b` times. */
  lemma {:induction false} AdvanceTimesAdd(n: int, total: int, a: nat, b: nat)
    requires total > 0
    ensures AdvanceTimes(AdvanceTimes(n, total, a), total, b) == AdvanceTimes(n, total, a + b)
  {
    if b > 0 {
      AdvanceTimesAdd(n, total, a, b - 1);
    }
  }

  /** Before the end of the corpus, advancing `k` times adds `k`. */
  lemma {:induction false} AdvanceTimesNoWrap(i: int, total: int, k: nat)
    requires 0 <= i && i + k < total
    ensures AdvanceTimes(i, total, k) == i + k
  {
    if k > 0 {
      AdvanceTimesNoWrap(i, total, k - 1);
      SuccessorInRange(i + k - 1, total);
    }
  }

  /** From position `i`, `total` advances come back to `i`. */
  lemma CycleReturns(i: int, total: int)
    requires 0 <= i < total
    ensures AdvanceTimes(i, total, total) == i
  {
    AdvanceTimesNoWrap(i, total, total - 1 - i);
    SuccessorInRange(total - 1, total);
    assert AdvanceTimes(i, total, total - i) == 0;
    AdvanceTimesNoWrap(0, total, i);
    AdvanceTimesAdd(i, total, total - i, i);
  }

  /** From position `i`, every question `j` is reached within `total` advances. */
  lemma CycleVisitsAll(i: int, j: int, total: int)
    requires 0 <= i < total && 0 <= j < total
    ensures var k := if i <= j then j - i else total - i + j;
            k < total && AdvanceTimes(i, total, k) == j
  {
    if i <= j {
      AdvanceTimesNoWrap(i, total, j - i);
    } else {
      AdvanceTimesNoWrap(i, total, total - 1 - i);
      SuccessorInRange(total - 1, total);
      assert AdvanceTimes(i, total, total - i) == 0;
      AdvanceTimesNoWrap(0, total, j);
      AdvanceTimesAdd(i, total, total - i, j);
    }
  }

  class Quiz {
    /** The Redis connection, seen as the hashes it holds. */
    var storage: HashStore
    /** `self.dict`: question number -> (question, answer). */
    const dict: map<int, QA>
    /** `self.questions_total`. */
    const questionsTotal: nat

    /** The table is indexed 0 .. questions_total - 1. */
    ghost predicate Valid() {
      Indexed(dict) && questionsTotal == |dict|
    }

    /** `__init__`: number the matches of the corpus regex in order. */
    constructor (matches: seq<QA>, storage: HashStore)
      ensures this.storage == storage
      ensures dict == ParseQuizText(matches) && questionsTotal == |matches|
      ensures Valid()
    {
      this.storage := storage;
      dict := ParseQuizText(matches);
      questionsTotal := |ParseQuizText(matches)|;
    }

    /** The stored question number of `player`. */
    function QuestionNumber(player: PlayerId): Option<int>
      reads this
    {
      HGet(storage, player, QuestionNumberField)
    }

    /** `get_next_question`: store the next question number of `player` and
        return that question. The store is written before the lookup, so
        an empty corpus leaves a 0 behind for a new player. */
    method GetNextQuestion(player: PlayerId) returns (r: Result<string>)
      requires Valid()
      modifies this`storage
      ensures match NextQuestionNumber(old(QuestionNumber(player)), questionsTotal)
              case Err(e) => r == Err(e) && storage == old(storage)
              case Ok(n) =>
                && storage == HSet(old(storage), player, QuestionNumberField, n)
                && r == if n in dict then Ok(dict[n].question) else Err(KeyError(n))
      ensures questionsTotal > 0 ==>
                && QuestionNumber(player).Some?
                && 0 <= QuestionNumber(player).value < questionsTotal
                && r == Ok(dict[QuestionNumber(player).value].question)
      ensures old(QuestionNumber(player)).None? ==> QuestionNumber(player) == Some(0)
      ensures forall k, f :: (k != player || f != QuestionNumberField) ==>
                HGet(storage, k, f) == HGet(old(storage), k, f)
    {
      var stored := HGet(storage, player, QuestionNumberField);
      var n: int;
      if stored.None? {
        n := 0;
      } else {
        if questionsTotal == 0 {
          return Err(ZeroDivisionError);
        }
        n := (stored.value + 1) % questionsTotal;
      }
      storage := HSet(storage, player, QuestionNumberField, n);
      if n !in dict {
        return Err(KeyError(n));
      }
      r := Ok(dict[n].question);
    }

    /** `get_right_answer`: the answer paired with the stored question
        number; raises when the player has none. It changes nothing. */
    method GetRightAnswer(player: PlayerId) returns (r: Result<string>)
      requires Valid()
      ensures QuestionNumber(player).None? ==> r == Err(IndexError)
      ensures QuestionNumber(player).Some? ==>
                var n := QuestionNumber(player).value;
                r == if 0 <= n < questionsTotal then Ok(dict[n].answer) else Err(KeyError(n))
    {
      var stored := HGet(storage, player, QuestionNumberField);
      if stored.None? {
        return Err(IndexError);
      }
      var n := stored.value;
      if n !in dict {
        return Err(KeyError(n));
      }
      r := Ok(dict[n].answer);
    }
  }
}
