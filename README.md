# Kolam assistant chat widget — Dafny model

This project models the only component of the kolam landing page that makes decisions: the floating "Kolam Assistant" chat widget (`src/components/Chatbot.tsx`). It has two parts.

- **The reply selector** (`generateBotResponse`). It lower-cases the user's text and tries five rules in order. Each rule is a pair of keywords: kolam/design, generate/create, analyze/upload, principle/pattern, hello/hi. The first rule with a keyword occurring as a substring gives its fixed reply. When no rule matches, a fixed fallback reply is given. The model computes the same thing from an explicit ordered list of rules (`ResponseSelector.Rules`) with a first-match function. `Classify` says which of the six replies is chosen, as a value of the enumeration `Reply`. `Wording` maps each reply to its exact text, and `Respond` (the model of `generateBotResponse`) is `Wording` of `Classify`. `Wording` is injective, so a statement about which reply is chosen is also a statement about the returned string. The lemmas prove totality (one of six distinct, non-empty texts), first-match precedence in both directions, the fallback condition, case-insensitivity, and sample inputs. The substring test for "hi" is kept as written, so "this one" is answered with the greeting.
- **The widget state** (`Chatbot`'s `useState` hooks and its handlers). This is a class `ChatWidget.Widget` with the fields `isOpen`, `isMinimized`, `messages`, `inputValue` and `isLoading`. Its methods are the open, minimise and close handlers, the input's change handler, and `SendMessage` for `handleSendMessage`. That handler ignores blank input. Otherwise it appends the user message exactly as typed, clears the input, sets loading, appends the reply to the submitted text (or the apology when computing the reply fails), and clears loading. The object invariant `Valid()` says that no reply is pending between events. It also says the log is the seeded greeting followed by (user message, answer) pairs. Lemmas derive strict alternation and "every user message is answered" from this invariant.

A user message holds the text as typed. A bot message holds the line it says (`ChatWidget.Line`): the opening greeting, an `Answer` carrying the selector's `Reply`, or the apology. `ChatWidget.Content` gives the text the widget shows for each message. Lemmas link it to the source's strings: an answer shows `generateBotResponse` of the question's text, and distinct bot lines show distinct, non-empty texts. Storing the line instead of its text keeps the long literal strings out of the proofs about the log.

Files:
- `text.dfy` (module `Text`): the string primitives the widget uses. These are `toLowerCase` (ASCII only), `trim` (with ECMAScript's whitespace and line-terminator set) and `includes`.
- `response_selector.dfy` (module `ResponseSelector`): the rules, the selector and its lemmas.
- `chat_widget.dfy` (module `ChatWidget`): messages and their texts, the conversation invariant, the `Widget` class and small client methods.

The failure path of `handleSendMessage` (the `catch` block) cannot happen with the present selector, which never throws. The model keeps it as the `replyFails` parameter of `SendMessage`.

## Model

| member | source | states |
|---|---|---|
| Text.LowerChar | src/components/Chatbot.tsx:76 | the case fold maps 'A'..'Z' to 'a'..'z', leaves every other character alone, and never yields an upper-case letter |
| Text.ToLower | src/components/Chatbot.tsx:76 | `toLowerCase` (ASCII letters only): the length is kept, each upper-case letter becomes its lower-case letter, and every other character is kept |
| Text.ToLowerIdempotent | src/components/Chatbot.tsx:76 | lower-casing an already lower-cased string leaves it unchanged |
| Text.TrimStart | src/components/Chatbot.tsx:38 | the result is the suffix of the input left after removing whitespace, all removed characters are whitespace, and the result does not start with whitespace |
| Text.TrimEnd | src/components/Chatbot.tsx:38 | the result is the prefix of the input left after removing whitespace, all removed characters are whitespace, and the result does not end with whitespace |
| Text.Trim | src/components/Chatbot.tsx:38 | `trim()`: the result occurs in the input at some position with only whitespace before and after it; `TrimEmptyIffBlank` and `TrimHasNoOuterWhitespace` say it is empty exactly on blank input and otherwise begins and ends with non-whitespace |
| Text.TrimEmptyIffBlank | src/components/Chatbot.tsx:38 | `trim()` gives the empty string exactly when every character of the input is whitespace |
| Text.TrimsToEmpty | src/components/Chatbot.tsx:38 | the blank-input guard holds exactly when the input is all whitespace |
| Text.TrimHasNoOuterWhitespace | src/components/Chatbot.tsx:38 | a non-empty trimmed string begins and ends with a non-whitespace character |
| Text.Contains | src/components/Chatbot.tsx:78-94 | `includes`; no contract of its own, `ContainsIff` characterises it as an occurrence at some position |
| Text.ContainsIff | src/components/Chatbot.tsx:78 | the recursive `includes` holds exactly when the pattern occurs at some position of the string |
| Text.NotContainsWithoutFirstChar | src/components/Chatbot.tsx:78 | a pattern whose first character appears nowhere in the string does not occur in it |
| ResponseSelector.WordingInjective | src/components/Chatbot.tsx:79-98 | the six reply texts are non-empty and pairwise distinct, so the returned string determines which branch answered |
| ResponseSelector.FirstMatch | src/components/Chatbot.tsx:78-96 | the index returned is that of a matching rule (or the rule count), and no earlier rule matches |
| ResponseSelector.Classify | src/components/Chatbot.tsx:76-98 | which branch of the if-chain answers, tried over the cascade `Rules` (the five keyword pairs of :78-96 in order): the fallback, or the answer of a rule with a keyword in the lower-cased input; `ClassifyRule` and `ClassifyFallback` pin down which |
| ResponseSelector.Respond | src/components/Chatbot.tsx:74-99 | `generateBotResponse` is total and returns one of the six fixed, non-empty texts; `RespondRule` and `RespondFallback` say which |
| ResponseSelector.SelectRule | src/components/Chatbot.tsx:78-96 | in any cascade with distinct replies, rule k answers if and only if it matches and no earlier rule matches |
| ResponseSelector.SelectFallback | src/components/Chatbot.tsx:98 | in any cascade, the fallback answers if and only if no rule matches |
| ResponseSelector.ClassifyRule | src/components/Chatbot.tsx:76-96 | the widget's rule k is chosen if and only if one of its keywords occurs in the lower-cased input and no earlier rule's keyword does |
| ResponseSelector.RespondRule | src/components/Chatbot.tsx:74-96 | `generateBotResponse` returns rule k's text if and only if one of its keywords occurs in the lower-cased input and no earlier rule's keyword does |
| ResponseSelector.ClassifyFallback | src/components/Chatbot.tsx:76-98 | the fallback is chosen if and only if none of the ten keywords occurs in the lower-cased input |
| ResponseSelector.RespondFallback | src/components/Chatbot.tsx:74-98 | `generateBotResponse` returns the fallback text if and only if no rule matches the lower-cased input |
| ResponseSelector.ClassifyIgnoresCase | src/components/Chatbot.tsx:76 | the reply to an input equals the reply to its lower-cased form |
| ResponseSelector.KolamWins | src/components/Chatbot.tsx:78-80 | any input containing "kolam" or "design" in any case gets the kolam explanation, whatever else it contains |
| ResponseSelector.GenerateMeAKolam | src/components/Chatbot.tsx:78-84 | "Generate me a kolam" gets the kolam explanation, not the generation pointer |
| ResponseSelector.NoKeywordLettersFallback | src/components/Chatbot.tsx:78-98 | an input with none of the letters k, d, g, c, a, u, p, h gets the fallback |
| ResponseSelector.UnmatchedInputFallback | src/components/Chatbot.tsx:98 | "xyz123" gets the fallback |
| ResponseSelector.GreetingOnlyKeyword | src/components/Chatbot.tsx:94-96 | an input containing "hello" or "hi" and none of the earlier rules' first letters gets the greeting |
| ResponseSelector.HelloGreets | src/components/Chatbot.tsx:94-96 | "Hello!" gets the greeting |
| ResponseSelector.ThisOneGreets | src/components/Chatbot.tsx:94-96 | "this one" gets the greeting, because "hi" is tested as a plain substring |
| ChatWidget.BotReply | src/components/Chatbot.tsx:53-68 | the appended message is a bot message; it is the apology exactly when computing the reply fails, and otherwise the `Answer` carrying the selector's choice for the submitted text |
| ChatWidget.BotReplyContent | src/components/Chatbot.tsx:53-68 | the appended bot message shows `generateBotResponse` of the submitted text, or the apology text when computing it fails |
| ChatWidget.BotContentDistinct | src/components/Chatbot.tsx:19-98 | every bot message (greeting, reply or apology) shows a non-empty text, and different bot lines show different texts |
| ChatWidget.AnswerContent | src/components/Chatbot.tsx:53-68 | an answer in the log shows `generateBotResponse` of its question's text, or the apology |
| ChatWidget.ExchangesAppend | src/components/Chatbot.tsx:47-60 | appending an answered user message to a sequence of exchanges gives a sequence of exchanges |
| ChatWidget.SubmissionKeepsConversation | src/components/Chatbot.tsx:40-68 | a conversation extended by a submission and its reply (or the apology) is still a conversation |
| ChatWidget.ExchangesAlternate | src/components/Chatbot.tsx:47-60 | a sequence of exchanges has even length, with user messages at even positions and bot messages at odd ones |
| ChatWidget.ConversationAlternates | src/components/Chatbot.tsx:19-68 | a conversation has odd length, ends with a bot message, and alternates user and bot after the greeting |
| ChatWidget.ExchangesAnswered | src/components/Chatbot.tsx:53-68 | every user message is immediately followed by the bot's answer to that very text |
| ChatWidget.Widget.constructor | src/components/Chatbot.tsx:17-28 | the widget starts closed, not minimised, not loading, with empty input, and with the greeting as its only message |
| ChatWidget.Widget.SetInput | src/components/Chatbot.tsx:196 | the input buffer takes the typed value |
| ChatWidget.Widget.Open | src/components/Chatbot.tsx:112 | the widget is open afterwards; the log and the minimised flag are unchanged |
| ChatWidget.Widget.ToggleMinimized | src/components/Chatbot.tsx:128-141 | the minimised flag is flipped; the log and the open flag are unchanged |
| ChatWidget.Widget.Close | src/components/Chatbot.tsx:148-151 | the widget is closed afterwards; the log and the minimised flag are unchanged |
| ChatWidget.Widget.SendMessage | src/components/Chatbot.tsx:37-72 | blank input changes nothing; otherwise the log grows by the user message with the untrimmed text and then the reply to that text (or the apology), the input becomes empty, loading ends false, and the conversation invariant is kept |
| ChatWidget.MinimizeTwice | src/components/Chatbot.tsx:129-141 | toggling minimise twice restores the flag; only the minimised flag may change, so the log and the invariant are kept |
| ChatWidget.CloseAndReopen | src/components/Chatbot.tsx:112-150 | closing and reopening leaves the widget open with the log and the minimised flag unchanged; only the open flag may change |
| ChatWidget.AskGenerateKolam | src/components/Chatbot.tsx:17-84 | from the initial state, submitting "Generate me a kolam" leaves the greeting, the question and the kolam explanation in the log, an empty input and loading off |
| ChatWidget.SubmitSpaces | src/components/Chatbot.tsx:38 | from the initial state, submitting three spaces leaves the log as just the greeting and the input as typed |

## Left out

- `src/pages/Index.tsx` and `src/components/KolamFeature.tsx` are not part of this model. They are static layout; the feature cards' click handlers only log to the console.
- Message `id`s and `timestamp`s come from the wall clock; a message is modelled by its sender and what it shows. A bot message records which of its fixed texts it shows, not the string itself; `ChatWidget.Content` recovers the string.
- Text.ToLower: folds only the ASCII letters A–Z, whereas `toLowerCase` folds all of Unicode. For non-ASCII input the model may differ from the source.
- The `async`/`await` shape and React's batched state updates are not modelled. `SendMessage` runs the handler's steps sequentially in one call, so the "loading" state is only an intermediate state inside `SendMessage`.
- The reply computation throwing is an input (`replyFails`), not something the model decides; the present selector never throws.
- Rendering, styling, the scroll-to-bottom effect and the "Typing..." placeholder are presentation only.
- The Enter-key handler and the controls disabled while loading are UI gating outside the handlers. In the model, `SendMessage` requires the invariant, which includes "not loading". The open, minimise and close methods carry no requirement that the widget be open or closed. In the rendered UI, each button exists only in one of those states.
- The three booleans are kept as in the code, not merged into one closed/expanded/minimised state. Closing does not reset `isMinimized`, so a widget minimised before closing reopens minimised. The code does this, and the model follows it.
