/**
 * The scripted chat assistant: a fixed table of keyword replies, the first
 * keyword found in the lower-cased message wins (src/components/AIAgent.tsx).
 */
module AIAgent {
  import opened Text

  // ---------------------------------------------------------------- the reply table

  /** The replies of `botResponses`, one constructor per entry. */
  datatype Reply =
    | DefaultReply | HelloReply | HiReply | HelpReply | WhatReply | HowReply
    | WhenReply | PriceReply | SafeReply | CategoryReply | WaitlistReply | ContactReply

  /** One key of `botResponses`, and the reply it selects. */
  datatype Rule = Rule(key: string, reply: Reply)

  /** The text of each reply, character for character as the component holds it. */
  function ReplyText(r: Reply): string {
    match r
    case DefaultReply => "Thanks for your message! I'm Groopin's AI assistant. I can help you with questions about our platform, activities, and waitlist. What would you like to know?"
    case HelloReply => "Hello! Welcome to Groopin. I'm here to help you discover amazing activities and connect with like-minded people. What can I help you with today?"
    case HiReply => "Hi there! How can I assist you with Groopin today?"
    case HelpReply => "I can help you with:\n\U{201A}\U{00C4}\U{00A2} Information about Groopin\n\U{201A}\U{00C4}\U{00A2} How the platform works\n\U{201A}\U{00C4}\U{00A2} Activity categories (Sports, Culture, Travel, Dining)\n\U{201A}\U{00C4}\U{00A2} Joining the waitlist\n\U{201A}\U{00C4}\U{00A2} Safety and security features\n\nWhat would you like to know?"
    case WhatReply => "Groopin is a social platform that connects people with shared interests. You can join or create activities across sports, culture, travel, and dining. It's all about turning your passions into unforgettable experiences with like-minded people!"
    case HowReply => "Getting started is easy:\n1. Join our waitlist\n2. Once we launch, create your profile\n3. Browse or create activities\n4. Connect with people who share your interests\n5. Have amazing experiences together!"
    case WhenReply => "We're working hard to launch soon! Join our waitlist to be among the first to know when we go live. Early members will get special perks and priority access!"
    case PriceReply => "We'll offer both free and premium plans. Free members can join activities and connect with others. Premium members get exclusive events, advanced matching, and more. Full pricing details coming at launch!"
    case SafeReply => "Safety is our top priority! We have:\n\U{201A}\U{00C4}\U{00A2} Verified user profiles\n\U{201A}\U{00C4}\U{00A2} 24/7 moderation team\n\U{201A}\U{00C4}\U{00A2} Rating and review system\n\U{201A}\U{00C4}\U{00A2} Report and block features\n\U{201A}\U{00C4}\U{00A2} Community guidelines\n\U{201A}\U{00C4}\U{00A2} Secure platform with end-to-end encryption"
    case CategoryReply => "We have four main categories:\n\U{F8FF}\U{00FC}\U{00E8}\U{00C9} Sports - Fitness, team games, outdoor activities\n\U{F8FF}\U{00FC}\U{00E9}\U{00AE} Culture - Museums, concerts, art events\n\U{201A}\U{00FA}\U{00E0}\U{00D4}\U{220F}\U{00E8} Travel - Trips, hiking, exploration\n\U{F8FF}\U{00FC}\U{00E7}\U{03A9}\U{00D4}\U{220F}\U{00E8} Dining - Food tours, cooking classes, restaurants"
    case WaitlistReply => "Great choice! Scroll down to our waitlist section and enter your email. You'll be among the first to access Groopin when we launch, plus get exclusive early-bird perks!"
    case ContactReply => "You can reach us through:\n\U{201A}\U{00C4}\U{00A2} Contact form on this page\n\U{201A}\U{00C4}\U{00A2} Chat with me here\n\U{201A}\U{00C4}\U{00A2} Email updates via the waitlist\n\nI'm here to help right now! What questions do you have?"
  }

  /** The table in the order `Object.entries` yields it: the order its keys were written, `default` first. */
  const BotResponses: seq<Rule> := [
      Rule("default", DefaultReply),
      Rule("hello", HelloReply),
      Rule("hi", HiReply),
      Rule("help", HelpReply),
      Rule("what", WhatReply),
      Rule("how", HowReply),
      Rule("when", WhenReply),
      Rule("price", PriceReply),
      Rule("safe", SafeReply),
      Rule("category", CategoryReply),
      Rule("waitlist", WaitlistReply),
      Rule("contact", ContactReply)
    ]

  /** The first message the chat shows. */
  const Greeting := "Hi! I'm Groopin's AI assistant. I can help you learn about our platform, activities, and answer any questions you have. How can I help you today?"

  /** Which rule answered, if any. */
  datatype Matched = NoMatch | Match(index: nat, reply: Reply)

  /** The `for ... of Object.entries(botResponses)` scan: the first rule whose key occurs in `m`. */
  function FirstMatch(rules: seq<Rule>, m: string): (r: Matched)
    ensures r.Match? ==> r.index < |rules| && Contains(m, rules[r.index].key)
                         && r.reply == rules[r.index].reply
                         && forall j :: 0 <= j < r.index ==> !Contains(m, rules[j].key)
    ensures r.NoMatch? ==> forall j :: 0 <= j < |rules| ==> !Contains(m, rules[j].key)
  {
    if rules == [] then NoMatch
    else if Contains(m, rules[0].key) then Match(0, rules[0].reply)
    else match FirstMatch(rules[1..], m)
      case NoMatch => NoMatch
      case Match(k, reply) => Match(k + 1, reply)
  }

  /** `getBotResponse`: the reply for the lower-cased message, the default reply when no key occurs. */
  function BotReply(userMessage: string): Reply {
    match FirstMatch(BotResponses, Lower(userMessage))
    case NoMatch => DefaultReply
    case Match(_, reply) => reply
  }

  /** `getBotResponse` as the component runs it: the text of the reply the scan chooses. */
  method GetBotResponse(userMessage: string) returns (reply: string)
    ensures reply == ReplyText(BotReply(userMessage))
  {
    var chosen := ChooseReply(userMessage);
    reply := ReplyText(chosen);
  }

  /** The `for ... of` loop of `getBotResponse`: it returns at the first key found in the lower-cased message. */
  method ChooseReply(userMessage: string) returns (chosen: Reply)
    ensures chosen == BotReply(userMessage)
  {
    var lowerMessage := Lower(userMessage);
    chosen := DefaultReply;
    var i := 0;
    while i < |BotResponses|
      invariant 0 <= i <= |BotResponses|
      invariant forall j :: 0 <= j < i ==> !Contains(lowerMessage, BotResponses[j].key)
    {
      if Contains(lowerMessage, BotResponses[i].key) {
        chosen := BotResponses[i].reply;
        break;
      }
      i := i + 1;
    }
    if i < |BotResponses| {
      FirstMatchAt(BotResponses, lowerMessage, i);
    } else {
      FirstMatchNone(BotResponses, lowerMessage);
    }
  }

  /** The scan stops at the first rule whose key occurs. */
  lemma FirstMatchAt(rules: seq<Rule>, m: string, i: nat)
    requires i < |rules| && Contains(m, rules[i].key)
    requires forall j :: 0 <= j < i ==> !Contains(m, rules[j].key)
    ensures FirstMatch(rules, m) == Match(i, rules[i].reply)
  {
    var r := FirstMatch(rules, m);
    assert r.Match?;
    assert !(r.index < i);
    assert !(i < r.index);
  }

  /** The scan finds nothing when no key occurs. */
  lemma FirstMatchNone(rules: seq<Rule>, m: string)
    requires forall j :: 0 <= j < |rules| ==> !Contains(m, rules[j].key)
    ensures FirstMatch(rules, m) == NoMatch
  {
  }

  /** Every reply is one of the table's replies. */
  lemma ReplyFromTable(userMessage: string)
    ensures exists k :: 0 <= k < |BotResponses| && BotReply(userMessage) == BotResponses[k].reply
  {
    assert BotResponses[0].reply == DefaultReply;
  }

  /** Matching ignores the case of ASCII letters. */
  lemma ReplyIgnoresCase(userMessage: string)
    ensures BotReply(Lower(userMessage)) == BotReply(userMessage)
  {
    LowerIdempotent(userMessage);
  }

  /** A message that mentions no key gets the default reply, and so does one that mentions `default`. */
  lemma DefaultReplyCases(userMessage: string)
    ensures (forall k :: 0 <= k < |BotResponses| ==> !Contains(Lower(userMessage), BotResponses[k].key))
            ==> BotReply(userMessage) == DefaultReply
    ensures Contains(Lower(userMessage), "default") ==> BotReply(userMessage) == DefaultReply
  {
    assert BotResponses[0].key == "default";
  }

  /** A key that is not a substring of a message is not found in it when one of its letters is missing. */
  lemma MissingLetter(s: string, p: string, c: char)
    requires c in p && c !in s
    ensures !Contains(s, p)
  {
    ContainsIff(s, p);
  }

  /** A message with `hi` in it, but neither `default` nor `hello`, gets the `hi` reply whatever else it mentions. */
  lemma HiWinsOverLaterKeys(userMessage: string)
    requires !Contains(Lower(userMessage), "default") && !Contains(Lower(userMessage), "hello")
    requires Contains(Lower(userMessage), "hi")
    ensures BotReply(userMessage) == HiReply
  {
    var r := FirstMatch(BotResponses, Lower(userMessage));
    assert BotResponses[0].key == "default" && BotResponses[1].key == "hello";
    assert BotResponses[2] == Rule("hi", HiReply);
    assert r.Match? && r.index == 2;
  }

  /** A message with `hello` in it, but not `default`, gets the `hello` reply whatever else it mentions. */
  lemma HelloWinsOverLaterKeys(userMessage: string)
    requires !Contains(Lower(userMessage), "default") && Contains(Lower(userMessage), "hello")
    ensures BotReply(userMessage) == HelloReply
  {
    var r := FirstMatch(BotResponses, Lower(userMessage));
    assert BotResponses[0].key == "default";
    assert BotResponses[1] == Rule("hello", HelloReply);
    assert r.Match? && r.index == 1;
  }

  /** "hello help" is greeted, not helped: `hello` comes before `help` in the table. */
  lemma HelloBeforeHelp()
    ensures BotReply("hello help") == HelloReply
  {
    HelloHelpLower("hello help");
    HelloWinsOverLaterKeys("hello help");
  }

  lemma HelloHelpLower(m: string)
    requires m == "hello help"
    ensures !Contains(Lower(m), "default") && Contains(Lower(m), "hello")
  {
    LowerOfLowercase(m);
    HelloHelpKeys(m);
  }

  lemma HelloHelpKeys(m: string)
    requires m == "hello help"
    ensures !Contains(m, "default") && Contains(m, "hello")
  {
    MissingLetter(m, "default", 'd');
    ContainsIff(m, "hello");
    assert OccursAt(m, "hello", 0);
  }

  /** Lower-casing leaves text without capitals as it is. */
  lemma LowerOfLowercase(s: string)
    requires forall i :: 0 <= i < |s| ==> !IsAsciiUpper(s[i])
    ensures Lower(s) == s
  {
  }

  /** "which" is answered by the `hi` rule. */
  lemma WhichMatchesHi()
    ensures BotReply("which") == HiReply
  {
    WhichLower("which");
    HiWinsOverLaterKeys("which");
  }

  lemma WhichLower(m: string)
    requires m == "which"
    ensures !Contains(Lower(m), "default") && !Contains(Lower(m), "hello") && Contains(Lower(m), "hi")
  {
    LowerOfLowercase(m);
    WhichKeys(m);
  }

  lemma WhichKeys(m: string)
    requires m == "which"
    ensures !Contains(m, "default") && !Contains(m, "hello") && Contains(m, "hi")
  {
    MissingLetter(m, "default", 'd');
    MissingLetter(m, "hello", 'e');
    ContainsIff(m, "hi");
    assert OccursAt(m, "hi", 1);
  }

  /**
   * Keys are found anywhere, also inside other words: "What is this?" is
   * answered by the `hi` rule (found in "this") before the `what` rule is tried.
   */
  lemma InnerWordMatch()
    ensures BotReply("What is this?") == HiReply
  {
    LowerExample();
    ExampleKeys("what is this?");
    HiWinsOverLaterKeys("What is this?");
  }

  lemma LowerExample()
    ensures Lower("What is this?") == "what is this?"
  {
    assert Lower("What is this?")[0] == 'w';
  }

  lemma ExampleKeys(m: string)
    requires m == "what is this?"
    ensures !Contains(m, "default") && !Contains(m, "hello") && Contains(m, "hi")
  {
    MissingLetter(m, "default", 'd');
    MissingLetter(m, "hello", 'e');
    ContainsIff(m, "hi");
    assert OccursAt(m, "hi", 9);
  }

  // ---------------------------------------------------------------- the chat window

  datatype Sender = User | Bot

  /** A chat message; its id and timestamp are not modelled. */
  datatype Message = Message(text: string, sender: Sender)

  /** How many messages in `ms` come from `s`. */
  function CountFrom(ms: seq<Message>, s: Sender): (n: nat)
    ensures n <= |ms|
  {
    if ms == [] then 0
    else CountFrom(ms[..|ms| - 1], s) + (if ms[|ms| - 1].sender == s then 1 else 0)
  }

  lemma CountFromAppend(ms: seq<Message>, m: Message, s: Sender)
    ensures CountFrom(ms + [m], s) == CountFrom(ms, s) + (if m.sender == s then 1 else 0)
  {
    assert (ms + [m])[..|ms|] == ms;
  }

  /** Posting a message keeps the first message and adds one to its sender's count only. */
  lemma PostKeepsCounts(ms: seq<Message>, m: Message)
    requires ms != []
    ensures (ms + [m])[0] == ms[0]
    ensures CountFrom(ms + [m], User) == CountFrom(ms, User) + (if m.sender == User then 1 else 0)
    ensures CountFrom(ms + [m], Bot) == CountFrom(ms, Bot) + (if m.sender == Bot then 1 else 0)
  {
    CountFromAppend(ms, m, User);
    CountFromAppend(ms, m, Bot);
  }

  /**
   * The chat window's state. `pending` holds, for every reply timer not yet
   * fired, the input it captured when the message was sent.
   */
  class Chat {
    var messages: seq<Message>
    var inputValue: string
    var isTyping: bool
    var pending: seq<string>

    /** The greeting comes first, and every user message is answered or has a reply on its way. */
    ghost predicate Valid()
      reads this
    {
      messages != [] && messages[0] == Message(Greeting, Bot)
      && CountFrom(messages, User) + 1 == CountFrom(messages, Bot) + |pending|
    }

    constructor ()
      ensures Valid()
      ensures messages == [Message(Greeting, Bot)] && inputValue == "" && !isTyping && pending == []
    {
      messages := [Message(Greeting, Bot)];
      inputValue := "";
      isTyping := false;
      pending := [];
      new;
      assert messages[..0] == [];
    }

    /** The input box's `onChange`. */
    method SetInput(value: string)
      modifies this
      ensures inputValue == value
      ensures messages == old(messages) && isTyping == old(isTyping) && pending == old(pending)
    {
      inputValue := value;
    }

    /**
     * `handleSend`: a blank input is ignored; otherwise the text is posted as
     * the user's message, the input is cleared, the typing indicator shown and
     * a reply timer started for the text.
     */
    method HandleSend()
      requires Valid()
      modifies this
      ensures Valid()
      ensures IsBlank(old(inputValue)) ==>
                messages == old(messages) && inputValue == old(inputValue)
                && isTyping == old(isTyping) && pending == old(pending)
      ensures !IsBlank(old(inputValue)) ==>
                messages == old(messages) + [Message(old(inputValue), User)]
                && inputValue == "" && isTyping && pending == old(pending) + [old(inputValue)]
    {
      TrimEmptyIffBlank(inputValue);
      if Trim(inputValue) == [] {
        return;
      }
      PostKeepsCounts(messages, Message(inputValue, User));
      messages := messages + [Message(inputValue, User)];
      pending := pending + [inputValue];
      inputValue := "";
      isTyping := true;
    }

    /**
     * The reply timer for the `k`-th pending text fires (the delays are random,
     * so any of them may come first): the bot's answer to that text is posted
     * and the typing indicator hidden.
     */
    method ReplyArrives(k: nat)
      requires Valid() && k < |pending|
      modifies this
      ensures Valid()
      ensures messages == old(messages) + [Message(ReplyText(BotReply(old(pending[k]))), Bot)]
      ensures pending == old(pending[..k] + pending[k + 1..])
      ensures !isTyping && inputValue == old(inputValue)
    {
      var reply := GetBotResponse(pending[k]);
      PostReply(k, reply);
    }

    /** The timer's state update: the reply for the `k`-th pending text is posted and that text leaves `pending`. */
    method PostReply(k: nat, reply: string)
      requires Valid() && k < |pending|
      modifies this
      ensures Valid()
      ensures messages == old(messages) + [Message(reply, Bot)]
      ensures pending == old(pending[..k] + pending[k + 1..])
      ensures !isTyping && inputValue == old(inputValue)
    {
      PostKeepsCounts(messages, Message(reply, Bot));
      messages := messages + [Message(reply, Bot)];
      pending := pending[..k] + pending[k + 1..];
      isTyping := false;
    }
  }
}
