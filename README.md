# Quiz progression of quiz-bot, in Dafny

This project models the core of quiz-bot, a trivia quiz served over Telegram:

- **Corpus** (`corpus.dfy`): the question table built from the (question, answer) pairs that
  the corpus regex matches, numbered from 0 in match order (`parse_quiz_text`, `Quiz.__init__`).
- **Questions** (`questions.dfy`): the `Quiz` class of `questions.py`. It keeps each player's
  position in the field `question_number` of a Redis hash. `GetNextQuestion` starts a new player
  at 0 and otherwise stores `(n + 1) % questions_total`. `GetRightAnswer` reads the stored number
  without writing. Lemmas show that the advance stays inside the corpus, returns to its start
  after `questions_total` steps and reaches every question on the way.
- **AnswerCheck** (`answer.dfy`): the comparison in `reply_question`. The upper-cased reply must
  equal the upper-cased answer cut at its first full stop. Lemmas show what this means: the reply
  must equal the answer's short form up to case, the text after the first full stop is not graded,
  and the case of the reply does not matter.
- **TelegramBot** (`tg_bot.dfy`): the handlers of `tg_bot.py` as methods of a `Bot` class. The
  class holds the Redis store (user id to question number), the conversation state of each
  (chat, user) pair (`Status`: ANSWERED or CHECK_ANSWER) and the parsed quiz. `Route` is the
  `ConversationHandler` table as written, with python-telegram-bot 13's text filters. `Handle` routes one message, runs the handler and moves the conversation to the state
  the handler returns. The invariant `Valid` says that every user in a conversation has a
  question number, and that with a non-empty corpus this number names a question. `Handle`
  preserves it. Under it, no handler raises when the corpus is non-empty, and a message from one
  user changes nothing of any other user.

`common.dfy` holds `Option`, `Result` and the Python exceptions the code can raise
(`ZeroDivisionError`, `KeyError`, `IndexError`, `AttributeError`).

Behaviour of the code that a reader might not expect (the model follows the code):

- The Telegram bot does not use the `Quiz` class. It keeps a plain key per user
  (`storage.set(user, n)`), not a hash field.
- `send_question` does not advance. `start` sets the number to 0, and only `give_up` and a right
  reply advance it. They add 1 and reset to 0 on reaching `len(quiz)`. `NextNumberIsSuccessor`
  shows that this is the same as the modulo advance of `Quiz`.
- `give_up` reveals the answer and goes to ANSWERED. It does not show the next question, and the
  conversation does not stay in CHECK_ANSWER.
- `CommandHandler` lower-cases the command name and ignores arguments, so "/START" and
  "/start now" start a conversation too.
- The conversation state is kept in memory, not in the store. `/start` is an entry point only, so
  inside a conversation it does not reset anything. In ANSWERED it matches no handler. In
  CHECK_ANSWER the catch-all text filter also accepts commands, so `/start` is graded as a reply.
- A missing question number or a missing question raises an exception. Nothing turns it into a
  "please start first" reply. A callback that raises leaves the conversation state unchanged.
- `get_next_question` writes the store before it looks the question up. With an empty corpus, a
  new player is left with number 0 and the call raises `KeyError(0)`. With an empty corpus and a
  stored number, the modulo raises before anything is written.
- Answers are compared after `str.upper()`, not after case folding.
- Each button filter is built from one string, so it tests `text in caption`, a substring test.
  Any non-empty part of a button caption runs that button's handler (see "## Findings").
- Conversations are kept per (chat, user), but the question number is kept per user. A user in
  two chats can be in different states there while sharing one question number.

## Model

| member | source | states |
|---|---|---|
| `Corpus.ParseQuizText` | questions.py:41-45 | the table has exactly the keys 0 .. n-1 for n matches; key i is bound to the i-th match; its size is the match count |
| `Questions.HGet` | questions.py:24 | `hget` yields a value exactly when the key holds that field, and then the field's value |
| `Questions.HSet` | questions.py:29 | `hset` makes that one (key, field) read the new value; every other (key, field) reads as before |
| `Questions.Successor` | questions.py:28 | `(n + 1) % questions_total` is always a valid question number, 0 .. questions_total-1 |
| `Questions.NextQuestionNumber` | questions.py:24-28 | a player with no stored number gets 0 (no increment first); with a non-empty corpus the new number is always in 0 .. questions_total-1; a stored number and an empty corpus raise `ZeroDivisionError` |
| `Questions.AdvanceTimes` | questions.py:28 | k successive advances (k > 0), or any number from a valid question, land on a valid question |
| `Questions.SuccessorInRange` | questions.py:28 | inside the corpus the modulo advance is "next number, or 0 after the last" |
| `Questions.AdvanceTimesAdd` | questions.py:28 | a advances followed by b advances are a + b advances |
| `Questions.AdvanceTimesNoWrap` | questions.py:28 | before the end of the corpus, k advances from i land on i + k |
| `Questions.CycleReturns` | questions.py:28 | from any question i, questions_total advances come back to i |
| `Questions.CycleVisitsAll` | questions.py:28 | from any question i, every question j is reached within fewer than questions_total advances |
| `Questions.Quiz.constructor` | questions.py:15-21 | `self.dict` is the numbered match table, indexed 0 .. N-1, and `questions_total` is the match count |
| `Questions.Quiz.GetNextQuestion` | questions.py:23-31 | stores the next question number (0 for a new player) in the player's `question_number` field only, then returns that question; with a non-empty corpus the stored number is in range and the call succeeds; the store is written before the lookup; errors as in the source |
| `Questions.Quiz.GetRightAnswer` | questions.py:33-38 | changes nothing; raises `IndexError` for a player with no number, `KeyError` for a number outside the corpus, and otherwise returns the answer paired with the stored number |
| `AnswerCheck.UpperChar` | tg_bot.py:89 | `str.upper()` on one character never yields a lower-case ASCII or Cyrillic letter, and yields a full stop exactly for a full stop |
| `AnswerCheck.Upper` | tg_bot.py:89 | the modelled upper-casing keeps the length and upper-cases each character |
| `AnswerCheck.BeforeFirstDot` | tg_bot.py:89 | `split('.')[0]` is the longest prefix without a full stop: the whole string when it has none, otherwise the part up to the first one |
| `AnswerCheck.UpperBeforeFirstDot` | tg_bot.py:89 | cutting at the first full stop and upper-casing commute |
| `AnswerCheck.UpperIdempotent` | tg_bot.py:89 | upper-casing twice is upper-casing once |
| `AnswerCheck.IsCorrect` | tg_bot.py:89 | a reply is accepted if and only if it equals, up to upper-casing, the answer text before its first full stop; an accepted reply is never longer than the answer |
| `AnswerCheck.CorrectWithoutDot` | tg_bot.py:89 | for an answer with no full stop, a reply is accepted if and only if it equals the whole answer up to upper-casing |
| `AnswerCheck.CorrectIgnoresCase` | tg_bot.py:89 | an upper-cased reply is judged exactly like the reply |
| `AnswerCheck.CorrectIgnoresElaboration` | tg_bot.py:89 | for an answer "short.rest", only "short" is graded, whatever "rest" is |
| `AnswerCheck.ExampleElaborationIgnored` | tg_bot.py:89 | "paris" is accepted for "Paris. Capital of France" |
| `AnswerCheck.ExampleCaseIgnored` | tg_bot.py:89 | "PARIS" is accepted for "paris" |
| `AnswerCheck.ExampleExtraLetterRejected` | tg_bot.py:89 | "pariss" is rejected for "Paris." |
| `TelegramBot.MessageText` | tg_bot.py:154-165 | the text the filters see: a plain message's text, or a slash followed by the command's name and then its arguments |
| `TelegramBot.LowerChar` | tg_bot.py:155 | the lower-casing `CommandHandler` applies to a command name leaves no capital ASCII letter, changes only capital letters, and is undone by upper-casing |
| `TelegramBot.Lower` | tg_bot.py:155 | lower-casing a command name keeps its length and lower-cases each character |
| `TelegramBot.StartIgnoresCaseAndArguments` | tg_bot.py:155 | outside a conversation "/START" and "/Start now" run `start`, and "/stop" runs nothing |
| `TelegramBot.CaptionPassesItsFilter` | tg_bot.py:158-164 | the caption a button sends passes that button's `Filters.text(caption)` filter |
| `TelegramBot.LabelFilterNarrowerThanAnyText` | tg_bot.py:158-165 | a button filter passes only non-empty texts no longer than its caption, and the catch-all `Filters.text` passes everything a button filter passes |
| `TelegramBot.Route` | tg_bot.py:154-165 | `start` runs if and only if the user has no conversation in the chat and the message is a command whose lower-cased name is "start", whatever its arguments; in ANSWERED a message is handled (by `send_question`) if and only if its text is a non-empty part of "Новый вопрос"; in CHECK_ANSWER every non-empty text is handled: by `repeat_question` when it is part of the repeat caption, else by `give_up` when it is part of "Сдаться", else by `reply_question` |
| `TelegramBot.RouteExact` | tg_bot.py:154-165 | the table with exact caption filters: in ANSWERED only "Новый вопрос" is handled; a message reaches `reply_question` if and only if the state is CHECK_ANSWER and its text is non-empty and neither button caption |
| `TelegramBot.RoutesAgreeOffLabelParts` | tg_bot.py:154-165 | the table as written and the exact one route every message alike unless its text is a non-empty proper part of a button caption |
| `TelegramBot.PartOfGiveUpLabelGivesUp` | tg_bot.py:164 | in CHECK_ANSWER the reply "да" runs `give_up` as written, where the exact table grades it |
| `TelegramBot.PartOfNextLabelSendsQuestion` | tg_bot.py:158 | in ANSWERED the text "вопрос" runs `send_question` as written, where the exact table ignores it |
| `TelegramBot.NextNumber` | tg_bot.py:72-74 | the reset rule yields either 0 or n + 1, and keeps a valid question number valid |
| `TelegramBot.NextNumberIsSuccessor` | tg_bot.py:72-74 | the "add 1, reset at len(quiz)" rule keeps a number inside the corpus and equals the modulo advance of `Quiz`, so the cycle lemmas hold for it |
| `TelegramBot.Bot.constructor` | tg_bot.py:141-153 | the bot holds the numbered match table as `quiz`, the given store, and no conversations; the invariant holds |
| `TelegramBot.Bot.Start` | tg_bot.py:111-119 | sets the user's number to 0 whatever it was, replies with the greeting and returns ANSWERED |
| `TelegramBot.Bot.SendQuestion` | tg_bot.py:41-52 | writes nothing; shows the question at the stored number and returns CHECK_ANSWER; raises on a missing number or a number outside the corpus |
| `TelegramBot.Bot.RepeatQuestion` | tg_bot.py:55-64 | the same as `send_question`: writes nothing, shows the current question, returns CHECK_ANSWER |
| `TelegramBot.Bot.GiveUp` | tg_bot.py:67-81 | reveals the answer at the stored number, advances the number with the reset-at-`len(quiz)` rule and returns ANSWERED; on a missing number or a number outside the corpus it raises and writes nothing |
| `TelegramBot.Bot.ReplyQuestion` | tg_bot.py:84-102 | a wrong reply writes nothing and returns CHECK_ANSWER; a right reply advances the number with the reset rule and returns ANSWERED; it raises, writing nothing, on a missing number or a number outside the corpus |
| `TelegramBot.Bot.Dispatch` | tg_bot.py:156-165 | runs the handler the table chose: a raising handler writes nothing; only the sender's number can change; a handler other than `start` succeeds if and only if the sender's number names a question, and otherwise raises `AttributeError` for a missing number or `KeyError` with the number; from a number inside the corpus the number stays inside it; the effect of each handler as above |
| `TelegramBot.Bot.StepKeepsValid` | tg_bot.py:154-169 | a step that changes only the sender's number, keeps a good number good and leaves a good number when the conversation moves on keeps every user in a conversation with a good number |
| `TelegramBot.Bot.Handle` | tg_bot.py:154-169 | routes a message from a user in a chat by the table as written; unmatched messages change nothing; that (chat, user) conversation moves to the state the handler returns; a raising handler changes nothing; the invariant is preserved; a message raises if and only if it is routed to a handler other than `start` while the sender's number names no question, and it then raises `KeyError` with the stored number, so with a non-empty corpus nothing raises; only the sender's question number and that one conversation can change; the effect of each handler as above |
| `TelegramBot.ScenarioReplyIsRight` | tg_bot.py:89 | the reply "a0" is accepted for the answer "A0. x" |
| `TelegramBot.ScenarioRoutes` | tg_bot.py:154-165 | the table routes "/start" outside a conversation to `start`, "Новый вопрос" in ANSWERED to `send_question`, "a0" in CHECK_ANSWER to `reply_question` and "Сдаться" in CHECK_ANSWER to `give_up` |
| `TelegramBot.Scenario` | tg_bot.py:41-119 | a two-question run in one private chat gives, in order: the greeting, question 0, "right" for "a0", question 1, and the revealed answer of question 1 on giving up |

## Findings

| source | as written | input that shows it | evidently intended | confidence | as-written member | corrected member |
|---|---|---|---|---|---|---|
| tg_bot.py:158-164 | `Filters.text(BUTTON_…)` is given one string, so it passes any non-empty text that is a substring of the caption | "да" in CHECK_ANSWER runs `give_up`, reveals the answer and advances; "вопрос" in ANSWERED runs `send_question` | each button filter matches its caption exactly, and every other text in CHECK_ANSWER is graded as a reply | high for python-telegram-bot 13; not executed | `TelegramBot.PartOfGiveUpLabelGivesUp` (on `TelegramBot.Route`) | `TelegramBot.RouteExact` |

`Bot.Handle` routes with `Route`, the table as written, so that the model's transitions are the
source's. `RoutesAgreeOffLabelParts` proves that the intended `RouteExact` routes every message the
same way unless its text is a non-empty proper part of a button caption. So every property of
`Handle` holds for the intended table on all other messages.

## Left out

- The corpus regex (`re.findall` at questions.py:17-18 and tg_bot.py:35-36) is a foreign library.
  The model takes its result, the sequence of (question, answer) pairs, as input. Parsing the
  corpus text itself is not modelled.
- `vk_bot.py` only echoes messages over the VK long-poll API and has no quiz logic. It is not part
  of this model.
- The `__main__` block of `tg_bot.py` is left out: environment and `.env` loading, reading the
  corpus file, the Redis connection, polling and logging setup. The store's initial contents and
  the matches are constructor parameters instead.
- Keyboards (`ReplyKeyboardMarkup`) and the literal reply texts are left out. Replies are
  abstract: greeting, question shown, answer revealed, right, wrong.
- `reply` (tg_bot.py:105-108) is an echo that is never registered as a handler.
- `AnswerCheck.UpperChar` and `AnswerCheck.Upper`: model `str.upper()` only for ASCII letters and the Cyrillic block
  U+0400..U+045F, and leaves every other character unchanged. Python's full Unicode mapping is
  not modelled, including mappings that change the length, such as "ß" to "SS".
- The store holds integers. The bytes Redis returns, `.decode()` and `int(...)` are not
  modelled. A missing key is the `AttributeError` raised by `None.decode()`.
- The lines of `send_question` that reset a local after its last use (tg_bot.py:46-47) have no
  effect and are not modelled.
- Non-text updates (stickers, photos) match no handler and are not modelled.
- `TelegramBot.Route`: a command is modelled by its name as written after the slash and the rest
  of its text. Telegram's message entities are not modelled, nor the `/start@botname` form that
  `CommandHandler` accepts only for this bot's own user name. Lower-casing is modelled for ASCII
  only, as command names are Latin letters, digits and underscores.
- Logging, `TelegramLogsHandler`, and the dispatcher's error handlers are left out. A handler
  that raises is reported as the outcome `Raised`.
- The text filters follow python-telegram-bot 13 (`Filters`, `Updater(token)`), where
  `Filters.text(x)` passes a message when its text is non-empty and `text in x`. Other versions of
  the library are not modelled.
- Concurrent delivery of two messages from one user is not modelled. Each `Handle` call runs to
  completion before the next one.
