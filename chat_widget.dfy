/** The floating chat widget (`Chatbot`): its React state becomes the fields
    of a class, and each event handler a method that updates them in the
    order the handler does. Message ids and timestamps are not modelled. */
module ChatWidget {
  import opened Text
  import opened ResponseSelector

  datatype Sender = User | Bot

  /** What the bot can say: the opening greeting, an answer chosen by the
      selector, or the apology logged when computing the answer fails. */
  datatype Line = Welcome | Answer(reply: Reply) | Apology

  /** A log entry: the user's text as typed, or one of the bot's lines. */
  datatype Message = UserMessage(text: string) | BotMessage(line: Line)

  const WelcomeText: string :=
    "Hello! I'm here to help you with kolam designs and patterns. Ask me anything about traditional kolam art, design principles, or how to use this platform!"

  const ApologyText: string := "I'm sorry, I encountered an error. Please try again."

  function SenderOf(m: Message): Sender {
    if m.UserMessage? then User else Bot
  }

  /** The text the widget shows for a message. */
  function Content(m: Message): string {
    match m
    case UserMessage(text) => text
    case BotMessage(Welcome) => WelcomeText
    case BotMessage(Answer(r)) => Wording(r)
    case BotMessage(Apology) => ApologyText
  }

  /** The one message the log starts with. */
  const Seed: Message := BotMessage(Welcome)

  /** The bot message appended after `input` was submitted; `replyFails`
      stands for the reply computation throwing. */
  function BotReply(input: string, replyFails: bool): (m: Message)
    ensures SenderOf(m) == Bot
    ensures m.line == Apology <==> replyFails
    ensures !replyFails ==> m.line == Answer(Classify(input))
  {
    BotMessage(if replyFails then Apology else Answer(Classify(input)))
  }

  /** The text of the appended bot message is `generateBotResponse` of the
      submitted text, or the apology when computing it fails. */
  lemma BotReplyContent(input: string, replyFails: bool)
    ensures Content(BotReply(input, replyFails)) == if replyFails then ApologyText else Respond(input)
  {
  }

  /** Every bot message shows a non-empty text, and different bot lines
      show different texts. */
  lemma BotContentDistinct(m: Message, n: Message)
    requires SenderOf(m) == Bot && SenderOf(n) == Bot
    ensures Content(m) != ""
    ensures Content(m) == Content(n) ==> m == n
  {
    assert |WelcomeText| == 153 && |ApologyText| == 52;
    assert forall r: Reply :: |Wording(r)| >= 154;
    if m.line.Answer? && n.line.Answer? {
      WordingInjective(m.line.reply, n.line.reply);
    }
  }

  /** `a` is the bot's answer to the user message `q`. */
  predicate Answers(q: Message, a: Message) {
    q.UserMessage? && a.BotMessage? && (a.line == Apology || a.line == Answer(Classify(q.text)))
  }

  /** An answer shows `generateBotResponse` of the question's text, or the
      apology. */
  lemma AnswerContent(q: Message, a: Message)
    requires Answers(q, a)
    ensures Content(a) == Respond(Content(q)) || Content(a) == ApologyText
  {
  }

  /** A sequence of (user message, its answer) pairs. */
  predicate Exchanges(log: seq<Message>)
    decreases |log|
  {
    log == [] || (|log| >= 2 && Answers(log[0], log[1]) && Exchanges(log[2..]))
  }

  /** A log the widget can hold: the greeting, then answered exchanges. */
  predicate IsConversation(log: seq<Message>) {
    |log| >= 1 && log[0] == Seed && Exchanges(log[1..])
  }

  /** Appending one more answered exchange keeps a sequence of exchanges. */
  lemma {:induction false} ExchangesAppend(log: seq<Message>, q: Message, a: Message)
    requires Exchanges(log) && Answers(q, a)
    ensures Exchanges(log + [q, a])
  {
    if log != [] {
      ExchangesAppend(log[2..], q, a);
      assert (log + [q, a])[2..] == log[2..] + [q, a];
    } else {
      assert ([q, a])[2..] == [];
    }
  }

  /** A submission and its reply extend a conversation to a conversation. */
  lemma SubmissionKeepsConversation(log: seq<Message>, input: string, replyFails: bool)
    requires IsConversation(log)
    ensures IsConversation(log + [UserMessage(input)] + [BotReply(input, replyFails)])
  {
    var q, a := UserMessage(input), BotReply(input, replyFails);
    assert Answers(q, a);
    assert (log + [q] + [a])[1..] == log[1..] + [q, a];
    ExchangesAppend(log[1..], q, a);
  }

  /** Exchanges alternate strictly: user at even, bot at odd positions. */
  lemma {:induction false} ExchangesAlternate(log: seq<Message>)
    requires Exchanges(log)
    ensures |log| % 2 == 0
    ensures forall i :: 0 <= i < |log| ==> SenderOf(log[i]) == (if i % 2 == 0 then User else Bot)
  {
    if log != [] {
      var rest := log[2..];
      ExchangesAlternate(rest);
      forall i | 2 <= i < |log|
        ensures SenderOf(log[i]) == (if i % 2 == 0 then User else Bot)
      {
        assert log[i] == rest[i - 2];
      }
    }
  }

  /** The log is the greeting followed by strictly alternating user and bot
      messages, and it always ends with a bot message. */
  lemma ConversationAlternates(log: seq<Message>)
    requires IsConversation(log)
    ensures |log| % 2 == 1 && SenderOf(log[|log| - 1]) == Bot
    ensures forall i :: 1 <= i < |log| ==> SenderOf(log[i]) == (if i % 2 == 1 then User else Bot)
  {
    var rest := log[1..];
    ExchangesAlternate(rest);
    forall i | 1 <= i < |log|
      ensures SenderOf(log[i]) == (if i % 2 == 1 then User else Bot)
    {
      assert log[i] == rest[i - 1];
    }
  }

  /** Every user message in the log is immediately followed by its answer. */
  lemma {:induction false} ExchangesAnswered(log: seq<Message>, i: nat)
    requires Exchanges(log) && i < |log| && i % 2 == 0
    ensures i + 1 < |log| && Answers(log[i], log[i + 1])
  {
    if i >= 2 {
      ExchangesAnswered(log[2..], i - 2);
      assert log[i] == log[2..][i - 2] && log[i + 1] == log[2..][i - 1];
    }
  }

  /** The widget state: `isOpen`, `isMinimized`, the message log, the input
      buffer and `isLoading`. */
  class Widget {
    var isOpen: bool
    var isMinimized: bool
    var messages: seq<Message>
    var inputValue: string
    var isLoading: bool

    /** Between events: no reply is pending (the `finally` always ran) and
        the log is a conversation. */
    ghost predicate Valid()
      reads this
    {
      !isLoading && IsConversation(messages)
    }

    /** The initial state: closed, expanded, idle, empty input, and the
        greeting as the only message. */
    constructor ()
      ensures Valid()
      ensures !isOpen && !isMinimized && !isLoading
      ensures inputValue == "" && messages == [Seed]
    {
      isOpen := false;
      isMinimized := false;
      messages := [Seed];
      inputValue := "";
      isLoading := false;
    }

    /** The input's `onChange`: the buffer takes the typed value. */
    method SetInput(value: string)
      modifies this`inputValue
      ensures inputValue == value
    {
      inputValue := value;
    }

    /** The launcher button. */
    method Open()
      modifies this`isOpen
      ensures isOpen
      ensures messages == old(messages) && isMinimized == old(isMinimized)
    {
      isOpen := true;
    }

    /** The header click and the minimise button. */
    method ToggleMinimized()
      modifies this`isMinimized
      ensures isMinimized == !old(isMinimized)
      ensures messages == old(messages) && isOpen == old(isOpen)
    {
      isMinimized := !isMinimized;
    }

    /** The close button; `isMinimized` is left as it was. */
    method Close()
      modifies this`isOpen
      ensures !isOpen
      ensures messages == old(messages) && isMinimized == old(isMinimized)
    {
      isOpen := false;
    }

    /** `handleSendMessage`. Blank input is ignored. Otherwise the submitted
        text is logged as a user message, the buffer is cleared, loading is
        set, the reply to the submitted text (or the apology when computing
        it fails) is logged, and loading is cleared. */
    method SendMessage(replyFails: bool)
      requires Valid()
      modifies this`messages, this`inputValue, this`isLoading
      ensures Valid()
      ensures IsBlank(old(inputValue)) ==>
                messages == old(messages) && inputValue == old(inputValue) && isLoading == old(isLoading)
      ensures !IsBlank(old(inputValue)) ==>
                messages == old(messages) + [UserMessage(old(inputValue))] + [BotReply(old(inputValue), replyFails)]
                && inputValue == "" && !isLoading
    {
      if TrimsToEmpty(inputValue) {
        return;
      }
      // the handler's closure keeps the text as it was before the clear
      var submitted := inputValue;
      ghost var prior := messages;
      messages := messages + [UserMessage(submitted)];
      inputValue := "";
      isLoading := true;
      // try: the reply to the submitted text; catch: the apology
      var botMessage := BotReply(submitted, replyFails);
      messages := messages + [botMessage];
      // finally
      isLoading := false;
      SubmissionKeepsConversation(prior, submitted, replyFails);
    }
  }

  /** Minimising twice restores `isMinimized` and leaves the log alone. */
  method MinimizeTwice(w: Widget)
    modifies w`isMinimized
    ensures w.isMinimized == old(w.isMinimized) && w.messages == old(w.messages)
    ensures old(w.Valid()) ==> w.Valid()
  {
    w.ToggleMinimized();
    w.ToggleMinimized();
  }

  /** Closing and reopening keeps the conversation, and a widget minimised
      before closing reopens minimised. */
  method CloseAndReopen(w: Widget)
    modifies w`isOpen
    ensures w.isOpen && w.messages == old(w.messages) && w.isMinimized == old(w.isMinimized)
    ensures old(w.Valid()) ==> w.Valid()
  {
    w.Close();
    w.Open();
  }

  /** Asking first about generating a kolam: the log holds the greeting,
      the question as typed, and the kolam explanation. */
  method AskGenerateKolam() returns (log: seq<Message>, input: string, loading: bool)
    ensures log == [Seed, UserMessage("Generate me a kolam"), BotMessage(Answer(KolamInfo))]
    ensures input == "" && !loading
  {
    var w := new Widget();
    w.Open();
    w.SetInput("Generate me a kolam");
    assert !IsBlank("Generate me a kolam") by {
      assert !IsWhitespace("Generate me a kolam"[0]);
    }
    ghost var before := w.messages;
    w.SendMessage(false);
    assert BotReply("Generate me a kolam", false) == BotMessage(Answer(KolamInfo)) by {
      GenerateMeAKolam();
    }
    assert w.messages == before + [UserMessage("Generate me a kolam")] + [BotMessage(Answer(KolamInfo))];
    log, input, loading := w.messages, w.inputValue, w.isLoading;
  }

  /** Submitting only spaces changes neither the log nor the buffer. */
  method SubmitSpaces() returns (log: seq<Message>, input: string, loading: bool)
    ensures log == [Seed] && input == "   " && !loading
  {
    var w := new Widget();
    w.Open();
    w.SetInput("   ");
    w.SendMessage(false);
    log, input, loading := w.messages, w.inputValue, w.isLoading;
  }
}
