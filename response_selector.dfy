/** The chat widget's reply selector (`generateBotResponse`): the input is
    lower-cased and tested against an ordered list of rules, each a pair of
    keywords; the first rule with a keyword occurring as a substring gives
    the reply, and a fixed fallback answers everything else.

    The selector always answers with one of six fixed texts. `Classify`
    says which one, as a `Reply`; `Wording` gives the exact string. */
module ResponseSelector {
  import opened Text

  /** The six fixed answers, in the order the source lists them. */
  datatype Reply = KolamInfo | GenerateHelp | AnalyzeHelp | PrincipleInfo | Greeting | Fallback

  /** One rule of the cascade: either keyword selects `reply`. */
  datatype Rule = Rule(first: string, second: string, reply: Reply)

  /** The cascade, in the order the rules are tried. */
  const Rules: seq<Rule> := [
    Rule("kolam", "design", KolamInfo),
    Rule("generate", "create", GenerateHelp),
    Rule("analyze", "upload", AnalyzeHelp),
    Rule("principle", "pattern", PrincipleInfo),
    Rule("hello", "hi", Greeting)
  ]

  const KolamText: string :=
    "Kolam is a traditional Indian art form where geometric patterns are drawn using rice flour or chalk powder. The designs often follow mathematical principles like symmetry, fractals, and geometric progressions. Would you like to know more about specific design patterns?"
  const GenerateText: string :=
    "To generate a kolam design, click on the 'Generate Kolam Design' card above. Our AI system uses traditional design principles to create authentic patterns. You can specify parameters like complexity, size, and style preferences."
  const AnalyzeText: string :=
    "To analyze a kolam design, use the 'Analyze Kolam Design' feature. Upload an image of your kolam, and our system will identify the underlying mathematical patterns, symmetries, and design principles used in the artwork."
  const PrincipleText: string :=
    "Kolam designs are based on several key principles: symmetry (rotational and reflective), geometric progression, fractal patterns, and grid-based construction. These mathematical foundations make each design both beautiful and structurally sound."
  const GreetingText: string :=
    "Hello! I'm excited to help you explore the fascinating world of kolam designs. What would you like to know about traditional patterns or our design tools?"
  const FallbackText: string :=
    "That's an interesting question about kolam designs! While I specialize in traditional kolam patterns and design principles, I'd be happy to help you with generating designs, analyzing patterns, or learning about the mathematical foundations of this beautiful art form. What specific aspect interests you most?"

  /** The string returned for each answer. */
  function Wording(r: Reply): string {
    match r
    case KolamInfo => KolamText
    case GenerateHelp => GenerateText
    case AnalyzeHelp => AnalyzeText
    case PrincipleInfo => PrincipleText
    case Greeting => GreetingText
    case Fallback => FallbackText
  }

  /** The six texts are non-empty and pairwise distinct, so the returned
      string identifies the answer. */
  lemma WordingInjective(a: Reply, b: Reply)
    ensures Wording(a) != ""
    ensures Wording(a) == Wording(b) ==> a == b
  {
    assert |KolamText| == 269 && |GenerateText| == 228 && |AnalyzeText| == 219;
    assert |PrincipleText| == 245 && |GreetingText| == 154 && |FallbackText| == 309;
  }

  predicate Matches(r: Rule, lower: string) {
    Contains(lower, r.first) || Contains(lower, r.second)
  }

  /** Index of the first rule that matches, or `|rules|` when none does. */
  function FirstMatch(rules: seq<Rule>, lower: string): (k: nat)
    ensures k <= |rules|
    ensures k < |rules| ==> Matches(rules[k], lower)
    ensures forall j :: 0 <= j < k ==> !Matches(rules[j], lower)
  {
    if rules == [] then 0
    else if Matches(rules[0], lower) then 0
    else 1 + FirstMatch(rules[1..], lower)
  }

  /** The answer of the first matching rule, else `fallback`. */
  function Select(rules: seq<Rule>, fallback: Reply, lower: string): Reply {
    var k := FirstMatch(rules, lower);
    if k < |rules| then rules[k].reply else fallback
  }

  /** Which answer `generateBotResponse(input)` gives: that of a rule one
      of whose keywords occurs in the lower-cased input, or the fallback. */
  function Classify(input: string): (r: Reply)
    ensures r == Fallback
            || exists k :: 0 <= k < |Rules| && r == Rules[k].reply && Matches(Rules[k], ToLower(input))
  {
    Select(Rules, Fallback, ToLower(input))
  }

  /** `generateBotResponse(input)`: always one of the six non-empty texts. */
  function Respond(input: string): (s: string)
    ensures s != ""
    ensures exists r: Reply :: s == Wording(r)
  {
    WordingInjective(Classify(input), Classify(input));
    Wording(Classify(input))
  }

  /** First match wins, for any cascade whose answers are distinct: rule `k`
      answers exactly when it matches and no earlier rule does. */
  lemma SelectRule(rules: seq<Rule>, fallback: Reply, lower: string, k: nat)
    requires k < |rules|
    requires forall i, j :: 0 <= i < j < |rules| ==> rules[i].reply != rules[j].reply
    requires forall i :: 0 <= i < |rules| ==> rules[i].reply != fallback
    ensures Select(rules, fallback, lower) == rules[k].reply
            <==> Matches(rules[k], lower) && forall j :: 0 <= j < k ==> !Matches(rules[j], lower)
  {
    var m := FirstMatch(rules, lower);
    if m < k {
      assert rules[m].reply != rules[k].reply;
    } else if k < m < |rules| {
      assert rules[k].reply != rules[m].reply;
    }
  }

  /** The fallback answers exactly when no rule matches. */
  lemma SelectFallback(rules: seq<Rule>, fallback: Reply, lower: string)
    requires forall i :: 0 <= i < |rules| ==> rules[i].reply != fallback
    ensures Select(rules, fallback, lower) == fallback
            <==> forall j :: 0 <= j < |rules| ==> !Matches(rules[j], lower)
  {
  }

  /** The widget's rule `k` answers exactly when one of its keywords occurs
      in the lower-cased input and no earlier rule's keyword does. */
  lemma ClassifyRule(input: string, k: nat)
    requires k < |Rules|
    ensures Classify(input) == Rules[k].reply
            <==> Matches(Rules[k], ToLower(input))
                 && forall j :: 0 <= j < k ==> !Matches(Rules[j], ToLower(input))
  {
    SelectRule(Rules, Fallback, ToLower(input), k);
  }

  /** The same precedence, stated on the returned string. */
  lemma RespondRule(input: string, k: nat)
    requires k < |Rules|
    ensures Respond(input) == Wording(Rules[k].reply)
            <==> Matches(Rules[k], ToLower(input))
                 && forall j :: 0 <= j < k ==> !Matches(Rules[j], ToLower(input))
  {
    WordingInjective(Classify(input), Rules[k].reply);
    ClassifyRule(input, k);
  }

  /** The fallback is given exactly when none of the ten keywords occurs in
      the lower-cased input. */
  lemma ClassifyFallback(input: string)
    ensures var lower := ToLower(input);
            Classify(input) == Fallback
            <==> !Contains(lower, "kolam") && !Contains(lower, "design")
                 && !Contains(lower, "generate") && !Contains(lower, "create")
                 && !Contains(lower, "analyze") && !Contains(lower, "upload")
                 && !Contains(lower, "principle") && !Contains(lower, "pattern")
                 && !Contains(lower, "hello") && !Contains(lower, "hi")
  {
    var lower := ToLower(input);
    SelectFallback(Rules, Fallback, lower);
    assert Rules[0].first == "kolam" && Rules[0].second == "design";
    assert Rules[1].first == "generate" && Rules[1].second == "create";
    assert Rules[2].first == "analyze" && Rules[2].second == "upload";
    assert Rules[3].first == "principle" && Rules[3].second == "pattern";
    assert Rules[4].first == "hello" && Rules[4].second == "hi";
  }

  /** The fallback string is returned exactly when no rule matches. */
  lemma RespondFallback(input: string)
    ensures Respond(input) == FallbackText
            <==> forall j :: 0 <= j < |Rules| ==> !Matches(Rules[j], ToLower(input))
  {
    WordingInjective(Classify(input), Fallback);
    SelectFallback(Rules, Fallback, ToLower(input));
  }

  /** The selector ignores ASCII case. */
  lemma ClassifyIgnoresCase(input: string)
    ensures Classify(input) == Classify(ToLower(input))
  {
    ToLowerIdempotent(input);
  }

  /** A question mentioning "kolam" or "design" is answered by the kolam
      rule whatever else it says. */
  lemma KolamWins(input: string)
    requires Contains(ToLower(input), "kolam") || Contains(ToLower(input), "design")
    ensures Classify(input) == KolamInfo
  {
    ClassifyRule(input, 0);
  }

  /** "Generate me a kolam" gets the kolam answer, not the generation pointer. */
  lemma GenerateMeAKolam()
    ensures Classify("Generate me a kolam") == KolamInfo
  {
    var lower := ToLower("Generate me a kolam");
    assert lower == "generate me a kolam";
    assert OccursAt(lower, "kolam", 14);
    ContainsIff(lower, "kolam");
    KolamWins("Generate me a kolam");
  }

  /** `c` is the first letter of one of the ten keywords. */
  predicate KeywordInitial(c: char) {
    c == 'k' || c == 'd' || c == 'g' || c == 'c' || c == 'a' || c == 'u' || c == 'p' || c == 'h'
  }

  /** An input that holds none of the first letters of the ten keywords
      (k, d, g, c, a, u, p, h) gets the fallback. */
  lemma NoKeywordLettersFallback(input: string)
    requires forall i :: 0 <= i < |ToLower(input)| ==> !KeywordInitial(ToLower(input)[i])
    ensures Classify(input) == Fallback
  {
    var lower := ToLower(input);
    var keywords := ["kolam", "design", "generate", "create", "analyze",
                     "upload", "principle", "pattern", "hello", "hi"];
    forall w | w in keywords
      ensures !Contains(lower, w)
    {
      assert KeywordInitial(w[0]);
      NotContainsWithoutFirstChar(lower, w);
    }
    ClassifyFallback(input);
  }

  /** "xyz123" matches no rule. */
  lemma UnmatchedInputFallback()
    ensures Classify("xyz123") == Fallback
  {
    assert ToLower("xyz123") == "xyz123";
    NoKeywordLettersFallback("xyz123");
  }

  /** Greeting: "hello" or "hi" occurs and none of the earlier keywords'
      first letters (k, d, g, c, a, u, p) does. */
  lemma GreetingOnlyKeyword(input: string)
    requires Contains(ToLower(input), "hello") || Contains(ToLower(input), "hi")
    requires forall i :: 0 <= i < |ToLower(input)| ==> ToLower(input)[i] == 'h' || !KeywordInitial(ToLower(input)[i])
    ensures Classify(input) == Greeting
  {
    var lower := ToLower(input);
    forall j | 0 <= j < 4
      ensures !Matches(Rules[j], lower)
    {
      assert KeywordInitial(Rules[j].first[0]) && Rules[j].first[0] != 'h';
      assert KeywordInitial(Rules[j].second[0]) && Rules[j].second[0] != 'h';
      NotContainsWithoutFirstChar(lower, Rules[j].first);
      NotContainsWithoutFirstChar(lower, Rules[j].second);
    }
    ClassifyRule(input, 4);
  }

  /** "Hello!" gets the greeting. */
  lemma HelloGreets()
    ensures Classify("Hello!") == Greeting
  {
    assert ToLower("Hello!") == "hello!";
    assert OccursAt("hello!", "hello", 0);
    ContainsIff("hello!", "hello");
    GreetingOnlyKeyword("Hello!");
  }

  /** "hi" is a plain substring test: "this one" gets the greeting. */
  lemma ThisOneGreets()
    ensures Classify("this one") == Greeting
  {
    assert ToLower("this one") == "this one";
    assert OccursAt("this one", "hi", 1);
    ContainsIff("this one", "hi");
    GreetingOnlyKeyword("this one");
  }
}
