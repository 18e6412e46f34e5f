/** tg_bot.py: the Telegram conversation. A global Redis store maps each
    user id to a question number; a conversation handler keeps each user in
    one of two states and routes every message to one handler. */
module TelegramBot {
  import opened Common
  import opened Corpus
  import opened AnswerCheck
  import Questions

  type UserId = int
  type ChatId = int

  /** `Status`: ANSWERED (waiting for "new question") or CHECK_ANSWER
      (a question is out, waiting for a reply). */
  datatype Status = Answered | CheckAnswer

  const ButtonNextQuestion: string := "Новый вопрос"
  const ButtonRepeatQuestion: string := "Повторить вопрос"
  const ButtonGiveUp: string := "Сдаться"

  /** An incoming text message: plain text (typed, or sent by a keyboard
      button), or one that opens with a bot command. A command carries its
      name as written after the slash and the rest of the message text
      (empty, or the arguments after a space). */
  datatype Message = Command(name: string, args: string) | Text(text: string)

  /** The text of a message as the text filters see it: a command's text
      is a slash, its name, then its arguments. */
  function MessageText(m: Message): (t: string)
    ensures m.Command? ==>
              && |t| == 1 + |m.name| + |m.args| && t[0] == '/'
              && t[1..1 + |m.name|] == m.name && t[1 + |m.name|..] == m.args
    ensures m.Text? ==> t == m.text
  {
    match m
    case Command(name, args) => "/" + name + args
    case Text(t) => t
  }

  /** `str.lower()` on one character of a command name (Telegram command
      names are Latin letters, digits and underscores): a capital ASCII
      letter becomes its small letter and nothing else changes, so
      upper-casing undoes it. */
  function LowerChar(c: char): (l: char)
    ensures !('A' <= l <= 'Z')
    ensures l == c || 'A' <= c <= 'Z'
    ensures UpperChar(l) == UpperChar(c)
  {
    if 'A' <= c <= 'Z' then (c as int + 32) as char else c
  }

  /** `s.lower()`, character by character. */
  function Lower(s: string): (l: string)
    ensures |l| == |s|
    ensures forall i :: 0 <= i < |s| ==> l[i] == LowerChar(s[i])
  {
    if s == [] then [] else [LowerChar(s[0])] + Lower(s[1..])
  }

  /** `CommandHandler('start', ...)`: the command's name, lower-cased, is
      "start"; its arguments play no part. */
  predicate IsStartCommand(m: Message) {
    m.Command? && Lower(m.name) == "start"
  }

  /** `piece` stands in `s` from position `i` on. */
  predicate OccursAt(piece: string, s: string, i: int) {
    0 <= i && i + |piece| <= |s| && s[i..i + |piece|] == piece
  }

  /** Python's `piece in s` on two strings: `piece` is a contiguous part
      of `s`. */
  predicate Occurs(piece: string, s: string) {
    exists i | 0 <= i <= |s| - |piece| :: OccursAt(piece, s, i)
  }

  /** A piece whose first character is absent from `s` does not occur in it. */
  lemma NotOccursByFirst(piece: string, s: string)
    requires piece != [] && piece[0] !in s
    ensures !Occurs(piece, s)
  {
    forall i | 0 <= i <= |s| - |piece| ensures !OccursAt(piece, s, i) {
      assert s[i..i + |piece|][0] == s[i];
    }
  }

  /** `Filters.text(caption)` given one string, as python-telegram-bot 13
      builds it: a message passes when its text is non-empty and
      `text in caption` holds, so any non-empty part of the caption passes. */
  predicate LabelFilter(caption: string, text: string) {
    text != "" && Occurs(text, caption)
  }

  /** A non-empty caption passes its own filter: the button sends it. */
  lemma CaptionPassesItsFilter(caption: string)
    requires caption != ""
    ensures LabelFilter(caption, caption)
  {
    assert OccursAt(caption, caption, 0);
  }

  /** The catch-all `Filters.text`: any message with non-empty text,
      commands included. */
  predicate AnyText(text: string) {
    text != ""
  }

  /** A button filter passes only texts no longer than its caption, and
      the catch-all passes whatever a button filter passes, which is why
      it is tried last. */
  lemma LabelFilterNarrowerThanAnyText(caption: string, text: string)
    requires LabelFilter(caption, text)
    ensures 0 < |text| <= |caption|
    ensures AnyText(text)
  {
  }

  datatype Handler = Start | SendQuestion | RepeatQuestion | GiveUp | ReplyQuestion

  /** The `ConversationHandler` table as the source builds it: `/start` is
      the only entry point and is tried only outside a conversation; in
      ANSWERED the "new question" filter is the only handler; in
      CHECK_ANSWER the repeat filter, then the give-up filter, then the
      catch-all text filter are tried. There are no fallbacks. */
  function Route(state: Option<Status>, m: Message): (h: Option<Handler>)
    ensures h == Some(Start) <==> state.None? && IsStartCommand(m)
    ensures state.None? ==> h.None? || h == Some(Start)
    ensures state == Some(Answered) ==>
              (h.Some? <==> LabelFilter(ButtonNextQuestion, MessageText(m))) && (h.Some? ==> h == Some(SendQuestion))
    ensures state == Some(CheckAnswer) ==> (h.Some? <==> MessageText(m) != "")
    ensures h == Some(RepeatQuestion) <==>
              state == Some(CheckAnswer) && LabelFilter(ButtonRepeatQuestion, MessageText(m))
    ensures h == Some(GiveUp) <==>
              && state == Some(CheckAnswer)
              && !LabelFilter(ButtonRepeatQuestion, MessageText(m))
              && LabelFilter(ButtonGiveUp, MessageText(m))
    ensures h == Some(ReplyQuestion) <==>
              && state == Some(CheckAnswer) && MessageText(m) != ""
              && !Occurs(MessageText(m), ButtonRepeatQuestion) && !Occurs(MessageText(m), ButtonGiveUp)
  {
    match state
    case None =>
      if IsStartCommand(m) then Some(Start) else None
    case Some(Answered) =>
      if LabelFilter(ButtonNextQuestion, MessageText(m)) then Some(SendQuestion) else None
    case Some(CheckAnswer) =>
      if LabelFilter(ButtonRepeatQuestion, MessageText(m)) then Some(RepeatQuestion)
      else if LabelFilter(ButtonGiveUp, MessageText(m)) then Some(GiveUp)
      else if AnyText(MessageText(m)) then Some(ReplyQuestion)
      else None
  }

  /** The table as evidently intended, with each button filter matching
      its label exactly: in ANSWERED only the "new question" label is
      handled, and in CHECK_ANSWER every non-empty text other than the two
      button labels is graded as a reply. */
  function RouteExact(state: Option<Status>, m: Message): (h: Option<Handler>)
    ensures h == Some(Start) <==> state.None? && IsStartCommand(m)
    ensures state == Some(Answered) ==>
              (h.Some? <==> MessageText(m) == ButtonNextQuestion) && (h.Some? ==> h == Some(SendQuestion))
    ensures state == Some(CheckAnswer) ==> (h.Some? <==> MessageText(m) != "")
    ensures h == Some(RepeatQuestion) <==> state == Some(CheckAnswer) && MessageText(m) == ButtonRepeatQuestion
    ensures h == Some(GiveUp) <==> state == Some(CheckAnswer) && MessageText(m) == ButtonGiveUp
    ensures h == Some(ReplyQuestion) <==>
              && state == Some(CheckAnswer) && MessageText(m) != ""
              && MessageText(m) != ButtonRepeatQuestion && MessageText(m) != ButtonGiveUp
  {
    match state
    case None =>
      if IsStartCommand(m) then Some(Start) else None
    case Some(Answered) =>
      if MessageText(m) == ButtonNextQuestion then Some(SendQuestion) else None
    case Some(CheckAnswer) =>
      if MessageText(m) == ButtonRepeatQuestion then Some(RepeatQuestion)
      else if MessageText(m) == ButtonGiveUp then Some(GiveUp)
      else if AnyText(MessageText(m)) then Some(ReplyQuestion)
      else None
  }

  /** A text that is a non-empty proper part of one of the button labels. */
  predicate IsLabelPart(t: string) {
    t != "" &&
    ((Occurs(t, ButtonNextQuestion) && t != ButtonNextQuestion) ||
     (Occurs(t, ButtonRepeatQuestion) && t != ButtonRepeatQuestion) ||
     (Occurs(t, ButtonGiveUp) && t != ButtonGiveUp))
  }

  /** The two tables differ only on texts that are proper parts of a
      button label: on every other message they route alike. */
  lemma RoutesAgreeOffLabelParts(state: Option<Status>, m: Message)
    requires !IsLabelPart(MessageText(m))
    ensures Route(state, m) == RouteExact(state, m)
  {
    var t := MessageText(m);
    if t == ButtonNextQuestion || t == ButtonRepeatQuestion || t == ButtonGiveUp {
      assert OccursAt(t, t, 0);
    }
  }

  /** In CHECK_ANSWER the reply "да", a part of "Сдаться", runs `give_up`
      as written, where the intended table grades it as an answer. */
  lemma PartOfGiveUpLabelGivesUp()
    ensures Route(Some(CheckAnswer), Text("да")) == Some(GiveUp)
    ensures RouteExact(Some(CheckAnswer), Text("да")) == Some(ReplyQuestion)
  {
    assert OccursAt("да", ButtonGiveUp, 1);
    NotOccursByFirst("да", ButtonRepeatQuestion);
  }

  /** In ANSWERED the text "вопрос", a part of "Новый вопрос", runs
      `send_question` as written, where the intended table ignores it. */
  lemma PartOfNextLabelSendsQuestion()
    ensures Route(Some(Answered), Text("вопрос")) == Some(SendQuestion)
    ensures RouteExact(Some(Answered), Text("вопрос")).None?
  {
    assert OccursAt("вопрос", ButtonNextQuestion, 6);
  }

  /** `/start` is recognised in any letter case and with arguments after
      it; another command is not. */
  lemma StartIgnoresCaseAndArguments()
    ensures Route(None, Command("START", "")) == Some(Start)
    ensures Route(None, Command("Start", " now")) == Some(Start)
    ensures Route(None, Command("stop", "")).None?
  {
    assert Lower("START") == "start";
    assert Lower("Start") == "start";
    assert Lower("stop")[1] == 't';
  }

  /** The question number after `n`: `n + 1`, reset to 0 when it reaches
      the number of questions. */
  function NextNumber(n: int, total: int): (r: int)
    ensures 0 <= n < total ==> 0 <= r < total
    ensures r == 0 || r == n + 1
  {
    if n + 1 == total then 0 else n + 1
  }

  /** Inside the corpus, the reset rule keeps the number inside the corpus
      and agrees with the modulo advance of `Quiz.get_next_question`, so
      the cycle lemmas of that advance hold for the Telegram handlers. */
  lemma NextNumberIsSuccessor(n: int, total: int)
    requires 0 <= n < total
    ensures 0 <= NextNumber(n, total) < total
    ensures NextNumber(n, total) == Questions.Successor(n, total)
  {
  }

  /** What a handler shows the user (keyboards are not modelled). */
  datatype Reply =
    | Hello
    | ShowQuestion(question: string)
    | RevealAnswer(answer: string)
    | RightAnswer
    | WrongAnswer

  /** A handler's reply and the state it returns. */
  datatype Response = Response(reply: Reply, next: Status)

  /** The fate of one message: no handler matched it, a handler answered,
      or a handler raised (the conversation state then stays as it was). */
  datatype Outcome = Unhandled | Handled(response: Response) | Raised(error: Error)

  class Bot {
    /** The Redis store: user id -> question number. */
    var storage: map<UserId, int>
    /** The conversation state of each (chat, user) pair whose user has
        sent `/start` in that chat; the handler's default keys
        conversations per chat and per user. */
    var conversations: map<(ChatId, UserId), Status>
    /** `bot_data['quiz']`. */
    const quiz: map<int, QA>

    /** Every user in a conversation, in any chat, has a question number,
        and with a non-empty corpus that number names a question. */
    ghost predicate Valid()
      reads this
    {
      Indexed(quiz) && forall key :: key in conversations ==> HasNumber(storage, key.1)
    }

    /** `user` has a question number, inside the corpus when it is non-empty. */
    predicate HasNumber(store: map<UserId, int>, user: UserId) {
      user in store && (|quiz| > 0 ==> 0 <= store[user] < |quiz|)
    }

    /** One step keeps the invariant when it changes only `user`'s number,
        keeps a good number good, and leaves a good number behind whenever
        the (chat, user) conversation moves on. */
    lemma StepKeepsValid(conv: map<(ChatId, UserId), Status>, store0: map<UserId, int>,
                         store1: map<UserId, int>, chat: ChatId, user: UserId, next: Option<Status>)
      requires forall key :: key in conv ==> HasNumber(store0, key.1)
      requires forall u :: u != user ==>
                 (u in store1 <==> u in store0) && (u in store1 ==> store1[u] == store0[u])
      requires HasNumber(store0, user) ==> HasNumber(store1, user)
      requires next.Some? ==> HasNumber(store1, user)
      ensures var conv1 := if next.Some? then conv[(chat, user) := next.value] else conv;
              forall key :: key in conv1 ==> HasNumber(store1, key.1)
    {
      var conv1 := if next.Some? then conv[(chat, user) := next.value] else conv;
      forall key | key in conv1 ensures HasNumber(store1, key.1) {
        if key != (chat, user) || next.None? {
          assert key in conv;
        }
      }
    }

    constructor (matches: seq<QA>, storage: map<UserId, int>)
      ensures Valid()
      ensures quiz == ParseQuizText(matches) && |quiz| == |matches|
      ensures this.storage == storage && conversations == map[]
    {
      quiz := ParseQuizText(matches);
      this.storage := storage;
      conversations := map[];
    }

    function Conversation(chat: ChatId, user: UserId): Option<Status>
      reads this
    {
      if (chat, user) in conversations then Some(conversations[(chat, user)]) else None
    }

    /** `start`: reset the user's question number to 0, go to ANSWERED. */
    method Start(user: UserId) returns (resp: Response)
      modifies this`storage
      ensures storage == old(storage)[user := 0]
      ensures resp == Response(Hello, Answered)
    {
      storage := storage[user := 0];
      resp := Response(Hello, Answered);
    }

    /** `send_question`: show the question at the stored number and go to
        CHECK_ANSWER. It reads the store and writes nothing. */
    method SendQuestion(user: UserId) returns (r: Result<Response>)
      requires Indexed(quiz)
      ensures user !in storage ==> r == Err(AttributeError)
      ensures user in storage ==>
                var n := storage[user];
                r == if 0 <= n < |quiz| then Ok(Response(ShowQuestion(quiz[n].question), CheckAnswer))
                     else Err(KeyError(n))
    {
      if user !in storage {
        return Err(AttributeError);
      }
      var n := storage[user];
      if n !in quiz {
        return Err(KeyError(n));
      }
      r := Ok(Response(ShowQuestion(quiz[n].question), CheckAnswer));
    }

    /** `repeat_question`: the same as `send_question` (whose extra lines
        assign a local that is never read again). */
    method RepeatQuestion(user: UserId) returns (r: Result<Response>)
      requires Indexed(quiz)
      ensures user !in storage ==> r == Err(AttributeError)
      ensures user in storage ==>
                var n := storage[user];
                r == if 0 <= n < |quiz| then Ok(Response(ShowQuestion(quiz[n].question), CheckAnswer))
                     else Err(KeyError(n))
    {
      r := SendQuestion(user);
    }

    /** `give_up`: reveal the answer to the current question, advance the
        question number with the reset rule, go to ANSWERED. */
    method GiveUp(user: UserId) returns (r: Result<Response>)
      requires Indexed(quiz)
      modifies this`storage
      ensures user !in old(storage) ==> r == Err(AttributeError) && storage == old(storage)
      ensures user in old(storage) ==>
                var n := old(storage[user]);
                if 0 <= n < |quiz| then
                  && r == Ok(Response(RevealAnswer(quiz[n].answer), Answered))
                  && storage == old(storage)[user := NextNumber(n, |quiz|)]
                else
                  r == Err(KeyError(n)) && storage == old(storage)
    {
      if user !in storage {
        return Err(AttributeError);
      }
      var n := storage[user];
      if n !in quiz {
        return Err(KeyError(n));
      }
      var answer := quiz[n].answer;
      n := n + 1;
      if n == |quiz| {
        n := 0;
      }
      storage := storage[user := n];
      r := Ok(Response(RevealAnswer(answer), Answered));
    }

    /** `reply_question`: a wrong reply changes nothing and stays in
        CHECK_ANSWER; a right one advances like `give_up` and goes to
        ANSWERED. */
    method ReplyQuestion(user: UserId, text: string) returns (r: Result<Response>)
      requires Indexed(quiz)
      modifies this`storage
      ensures user !in old(storage) ==> r == Err(AttributeError) && storage == old(storage)
      ensures user in old(storage) ==>
                var n := old(storage[user]);
                if 0 <= n < |quiz| then
                  if IsCorrect(text, quiz[n].answer) then
                    && r == Ok(Response(RightAnswer, Answered))
                    && storage == old(storage)[user := NextNumber(n, |quiz|)]
                  else
                    r == Ok(Response(WrongAnswer, CheckAnswer)) && storage == old(storage)
                else
                  r == Err(KeyError(n)) && storage == old(storage)
    {
      if user !in storage {
        return Err(AttributeError);
      }
      var n := storage[user];
      if n !in quiz {
        return Err(KeyError(n));
      }
      var answer := quiz[n].answer;
      if Upper(text) != BeforeFirstDot(Upper(answer)) {
        return Ok(Response(WrongAnswer, CheckAnswer));
      }
      n := n + 1;
      if n == |quiz| {
        n := 0;
      }
      storage := storage[user := n];
      r := Ok(Response(RightAnswer, Answered));
    }

    /** `user`'s question number names a question of the corpus. */
    predicate InCorpus(store: map<UserId, int>, user: UserId) {
      user in store && 0 <= store[user] < |quiz|
    }

    /** Runs the handler `h` for `user` on a message with text `text`. A
        handler that raises writes nothing; only `user`'s number can
        change; from a number inside the corpus no handler raises and the
        number stays inside the corpus. */
    method Dispatch(user: UserId, h: Handler, text: string) returns (r: Result<Response>)
      requires Indexed(quiz)
      modifies this`storage
      ensures r.Err? ==> storage == old(storage)
      ensures forall u :: u != user ==>
                (u in storage <==> u in old(storage)) && (u in storage ==> storage[u] == old(storage)[u])
      ensures user in old(storage) || h == Handler.Start ==> user in storage
      ensures h != Handler.Start ==> (r.Ok? <==> InCorpus(old(storage), user))
      ensures h != Handler.Start && user !in old(storage) ==> r == Err(AttributeError)
      ensures h != Handler.Start && user in old(storage) && !InCorpus(old(storage), user) ==>
                r == Err(KeyError(old(storage)[user]))
      ensures h != Handler.Start && InCorpus(old(storage), user) ==> InCorpus(storage, user)
      ensures h == Handler.Start ==> storage == old(storage)[user := 0] && r == Ok(Response(Hello, Answered))
      ensures h == Handler.SendQuestion || h == Handler.RepeatQuestion ==>
                && storage == old(storage)
                && (InCorpus(storage, user) ==>
                      r == Ok(Response(ShowQuestion(quiz[storage[user]].question), CheckAnswer)))
      ensures h == Handler.GiveUp && InCorpus(old(storage), user) ==>
                var n := old(storage[user]);
                && r == Ok(Response(RevealAnswer(quiz[n].answer), Answered))
                && storage == old(storage)[user := NextNumber(n, |quiz|)]
      ensures h == Handler.ReplyQuestion && InCorpus(old(storage), user) ==>
                var n := old(storage[user]);
                if IsCorrect(text, quiz[n].answer) then
                  && r == Ok(Response(RightAnswer, Answered))
                  && storage == old(storage)[user := NextNumber(n, |quiz|)]
                else
                  r == Ok(Response(WrongAnswer, CheckAnswer)) && storage == old(storage)
    {
      match h {
        case Start =>
          var resp := Start(user);
          r := Ok(resp);
        case SendQuestion =>
          r := SendQuestion(user);
        case RepeatQuestion =>
          r := RepeatQuestion(user);
        case GiveUp =>
          r := GiveUp(user);
        case ReplyQuestion =>
          r := ReplyQuestion(user, text);
      }
    }

    /** One message from `user` in `chat`, routed by the conversation
        table. The state of that conversation moves to what the handler
        returned; a handler that raises leaves everything as it was. With a
        non-empty corpus no handler ever raises. Only `user`'s question
        number and the (chat, user) conversation can change; the number is
        shared by all of the user's chats. */
    method Handle(chat: ChatId, user: UserId, m: Message) returns (o: Outcome)
      requires Valid()
      modifies this
      ensures Valid()
      ensures o == Unhandled <==> Route(old(Conversation(chat, user)), m).None?
      ensures o.Handled? ==> conversations == old(conversations)[(chat, user) := o.response.next]
      ensures !o.Handled? ==> conversations == old(conversations) && storage == old(storage)
      ensures |quiz| > 0 ==> !o.Raised?
      ensures o.Raised? <==>
                && Route(old(Conversation(chat, user)), m) !in {None, Some(Handler.Start)}
                && !InCorpus(old(storage), user)
      ensures o.Raised? ==> user in storage && o.error == KeyError(storage[user])
      ensures forall u :: u != user ==>
                (u in storage <==> u in old(storage)) && (u in storage ==> storage[u] == old(storage)[u])
      ensures forall c, u :: (c, u) != (chat, user) ==> Conversation(c, u) == old(Conversation(c, u))
      ensures Route(old(Conversation(chat, user)), m) == Some(Handler.Start) ==>
                storage == old(storage)[user := 0] && o == Handled(Response(Hello, Answered))
      ensures Route(old(Conversation(chat, user)), m) in {Some(Handler.SendQuestion), Some(Handler.RepeatQuestion)} ==>
                storage == old(storage)
      ensures |quiz| > 0 && Route(old(Conversation(chat, user)), m) in {Some(Handler.SendQuestion), Some(Handler.RepeatQuestion)} ==>
                o == Handled(Response(ShowQuestion(quiz[storage[user]].question), CheckAnswer))
      ensures |quiz| > 0 && Route(old(Conversation(chat, user)), m) == Some(Handler.GiveUp) ==>
                var n := old(storage[user]);
                && o == Handled(Response(RevealAnswer(quiz[n].answer), Answered))
                && storage == old(storage)[user := NextNumber(n, |quiz|)]
      ensures |quiz| > 0 && Route(old(Conversation(chat, user)), m) == Some(Handler.ReplyQuestion) ==>
                var n := old(storage[user]);
                if IsCorrect(MessageText(m), quiz[n].answer) then
                  && o == Handled(Response(RightAnswer, Answered))
                  && storage == old(storage)[user := NextNumber(n, |quiz|)]
                else
                  o == Handled(Response(WrongAnswer, CheckAnswer)) && storage == old(storage)
    {
      var handler := Route(Conversation(chat, user), m);
      if handler.None? {
        return Unhandled;
      }
      ghost var conv0, store0 := conversations, storage;
      assert handler.value != Handler.Start ==> (chat, user) in conv0 && HasNumber(store0, user);
      var r := Dispatch(user, handler.value, MessageText(m));
      StepKeepsValid(conv0, store0, storage, chat, user, if r.Ok? then Some(r.value.next) else None);
      match r {
        case Ok(resp) =>
          conversations := conversations[(chat, user) := resp.next];
          o := Handled(resp);
        case Err(e) =>
          o := Raised(e);
      }
    }
  }

  /** The reply "a0" is right for the answer "A0. x". */
  lemma ScenarioReplyIsRight()
    ensures IsCorrect("a0", "A0. x")
  {
    assert "A0. x" == "A0" + "." + " x";
    CorrectIgnoresElaboration("a0", "A0", " x");
    assert UpperChar('a') == 'A' && UpperChar('A') == 'A' && UpperChar('0') == '0';
    assert Upper("a0") == Upper("A0");
  }

  /** How the table routes the messages of the scenario below. */
  lemma ScenarioRoutes()
    ensures Route(None, Command("start", "")) == Some(Start)
    ensures Route(Some(Answered), Text(ButtonNextQuestion)) == Some(SendQuestion)
    ensures Route(Some(CheckAnswer), Text("a0")) == Some(ReplyQuestion)
    ensures Route(Some(CheckAnswer), Text(ButtonGiveUp)) == Some(GiveUp)
  {
    assert Lower("start") == "start";
    assert OccursAt(ButtonNextQuestion, ButtonNextQuestion, 0);
    NotOccursByFirst("a0", ButtonRepeatQuestion);
    NotOccursByFirst("a0", ButtonGiveUp);
    NotOccursByFirst(ButtonGiveUp, ButtonRepeatQuestion);
    assert OccursAt(ButtonGiveUp, ButtonGiveUp, 0);
  }

  /** A two-question conversation in a private chat, derived from the
      contracts alone: start, a right reply, the next question, then giving
      up reveals the answer and wraps the number to 0. */
  method Scenario() returns (outcomes: seq<Outcome>)
    ensures outcomes == [
              Handled(Response(Hello, Answered)),
              Handled(Response(ShowQuestion("Q0"), CheckAnswer)),
              Handled(Response(RightAnswer, Answered)),
              Handled(Response(ShowQuestion("Q1"), CheckAnswer)),
              Handled(Response(RevealAnswer("A1. y"), Answered))]
  {
    var matches := [QA("Q0", "A0. x"), QA("Q1", "A1. y")];
    var bot := new Bot(matches, map[]);
    assert bot.quiz[0] == matches[0] && bot.quiz[1] == matches[1] && |bot.quiz| == 2;
    ScenarioRoutes();
    ScenarioReplyIsRight();
    var started := bot.Handle(7, 7, Command("start", ""));
    assert started == Handled(Response(Hello, Answered));
    var first := bot.Handle(7, 7, Text(ButtonNextQuestion));
    assert first == Handled(Response(ShowQuestion("Q0"), CheckAnswer));
    var replied := bot.Handle(7, 7, Text("a0"));
    assert replied == Handled(Response(RightAnswer, Answered));
    var second := bot.Handle(7, 7, Text(ButtonNextQuestion));
    assert second == Handled(Response(ShowQuestion("Q1"), CheckAnswer));
    var gaveUp := bot.Handle(7, 7, Text(ButtonGiveUp));
    assert bot.storage[7] == 0;
    outcomes := [started, first, replied, second, gaveUp];
  }
}
