/**
 * The conversational fallback plugin (plugins/character.js): a bounded
 * per-channel history of exchanged turns kept by `CharacterManager`, the
 * helpers that turn plugin doc comments into a capabilities prompt, and
 * the guards that let the handlers answer only what no other plugin claims.
 * The completion service is a parameter: the text it returns, or nothing
 * when the call fails.
 */
module Character {
  import opened Wrappers
  import opened Text
  import opened Slack

  // ----------------------------------------------------------- line helpers

  /** `s.split(c)`: the pieces between occurrences of `c`; always at least one. */
  function Split(s: string, c: char): (parts: seq<string>)
    ensures |parts| >= 1
    ensures forall k :: 0 <= k < |parts| ==> c !in parts[k]
    decreases |s|
  {
    var i := IndexOfFrom(s, c, 0);
    if i == |s| then
      assert forall j :: 0 <= j < |s| ==> s[j] != c;
      [s]
    else
      assert forall j :: 0 <= j < i ==> s[..i][j] == s[j];
      [s[..i]] + Split(s[i + 1..], c)
  }

  /** Joining the pieces with the separator gives the text back. */
  lemma {:induction false} JoinSplit(s: string, c: char)
    ensures Join(Split(s, c), [c]) == s
    decreases |s|
  {
    var i := IndexOfFrom(s, c, 0);
    if i < |s| {
      var rest := Split(s[i + 1..], c);
      JoinSplit(s[i + 1..], c);
      assert Split(s, c) == [s[..i]] + rest;
      assert ([s[..i]] + rest)[1..] == rest;
      assert s == s[..i] + [c] + s[i + 1..];
    }
  }

  /** Splitting pieces joined with a separator none of them contains gives the pieces back. */
  lemma {:induction false} SplitJoin(parts: seq<string>, c: char)
    requires |parts| >= 1
    requires forall k :: 0 <= k < |parts| ==> c !in parts[k]
    ensures Split(Join(parts, [c]), c) == parts
    decreases |parts|
  {
    var s := Join(parts, [c]);
    if |parts| == 1 {
      assert s == parts[0];
      assert forall j :: 0 <= j < |s| ==> s[j] != c;
    } else {
      var p := parts[0];
      var rest := Join(parts[1..], [c]);
      assert s == p + [c] + rest;
      SplitAtFirst(p, rest, c);
      SplitJoin(parts[1..], c);
    }
  }

  /** A piece without the separator, the separator, then the rest: the piece comes out first. */
  lemma {:induction false} SplitAtFirst(p: string, rest: string, c: char)
    requires c !in p
    ensures Split(p + [c] + rest, c) == [p] + Split(rest, c)
  {
    var s := p + [c] + rest;
    assert s[|p|] == c;
    assert forall j :: 0 <= j < |p| ==> s[j] != c by {
      forall j | 0 <= j < |p| ensures s[j] != c {
        assert s[j] == p[j];
      }
    }
    IndexOfFromIs(s, c, 0, |p|);
    assert s[..|p|] == p;
    assert s[|p| + 1..] == rest;
  }

  /** A character absent from a text is absent from its pieces. */
  lemma {:induction false} SplitAvoids(s: string, c: char, d: char)
    requires d !in s
    ensures forall k :: 0 <= k < |Split(s, c)| ==> d !in Split(s, c)[k]
    decreases |s|
  {
    var i := IndexOfFrom(s, c, 0);
    if i < |s| {
      assert s == s[..i] + [c] + s[i + 1..];
      SplitAvoids(s[i + 1..], c, d);
      assert Split(s, c) == [s[..i]] + Split(s[i + 1..], c);
    }
  }

  /** A character absent from the pieces and the separator is absent from the joined text. */
  lemma {:induction false} JoinAvoids(parts: seq<string>, sep: string, d: char)
    requires d !in sep
    requires forall k :: 0 <= k < |parts| ==> d !in parts[k]
    ensures d !in Join(parts, sep)
    decreases |parts|
  {
    if |parts| > 1 {
      JoinAvoids(parts[1..], sep, d);
      assert Join(parts, sep) == parts[0] + sep + Join(parts[1..], sep);
    }
  }

  /** A character absent from a text is absent from the text trimmed. */
  lemma {:induction false} TrimAvoids(s: string, d: char)
    requires d !in s
    ensures d !in Trim(s)
  {
    var r := Trim(s);
    var t := s[LeadingSpaces(s)..];
    assert r == t[..|t| - TrailingSpaces(t)];
    assert forall j :: 0 <= j < |r| ==> r[j] == t[j];
    assert d !in t;
  }

  function TrimAll(lines: seq<string>): (r: seq<string>)
    ensures |r| == |lines|
    ensures forall k :: 0 <= k < |lines| ==> r[k] == Trim(lines[k])
  {
    seq(|lines|, k requires 0 <= k < |lines| => Trim(lines[k]))
  }

  /** Neither a character absent from a text nor `\n` occurs in its trimmed lines. */
  lemma {:induction false} TrimmedLinesAvoid(s: string, d: char)
    requires d !in s
    ensures forall k :: 0 <= k < |Split(s, '\n')| ==> d !in TrimAll(Split(s, '\n'))[k]
    ensures forall k :: 0 <= k < |Split(s, '\n')| ==> '\n' !in TrimAll(Split(s, '\n'))[k]
  {
    SplitAvoids(s, '\n', d);
    forall k | 0 <= k < |Split(s, '\n')|
      ensures d !in TrimAll(Split(s, '\n'))[k] && '\n' !in TrimAll(Split(s, '\n'))[k]
    {
      TrimAvoids(Split(s, '\n')[k], d);
      TrimAvoids(Split(s, '\n')[k], '\n');
    }
  }

  // ------------------------------------------------------ plugin description

  // `.replace(/\/\*\*|\*\/|\*/g, '')`: scanning from the left, every "/**",
  // every "*/" and every remaining '*' is removed.
  function StripCommentMarks(s: string): (r: string)
    ensures '*' !in r
    ensures '*' !in s ==> r == s
    decreases |s|
  {
    if s == [] then []
    else if |s| >= 3 && s[..3] == "/**" then
      assert s[1] == s[..3][1];
      StripCommentMarks(s[3..])
    else if |s| >= 2 && s[..2] == "*/" then
      assert s[0] == s[..2][0];
      StripCommentMarks(s[2..])
    else if s[0] == '*' then StripCommentMarks(s[1..])
    else
      var r := [s[0]] + StripCommentMarks(s[1..]);
      assert '*' !in s ==> r == s by {
        if '*' !in s {
          assert '*' !in s[1..];
          assert s == [s[0]] + s[1..];
        }
      }
      r
  }

  /** `.filter(line => line && !line.startsWith('@'))`. */
  function DescriptionLines(lines: seq<string>): (r: seq<string>)
    ensures |r| <= |lines|
    ensures forall k :: 0 <= k < |r| ==> r[k] != "" && r[k][0] != '@'
  {
    if lines == [] then []
    else
      var rest := DescriptionLines(lines[1..]);
      if lines[0] != "" && lines[0][0] != '@' then [lines[0]] + rest else rest
  }

  /** Dropping lines adds no character. */
  lemma {:induction false} DescriptionLinesAvoid(lines: seq<string>, d: char)
    requires forall k :: 0 <= k < |lines| ==> d !in lines[k]
    ensures forall k :: 0 <= k < |DescriptionLines(lines)| ==> d !in DescriptionLines(lines)[k]
    decreases |lines|
  {
    if lines != [] {
      DescriptionLinesAvoid(lines[1..], d);
    }
  }

  /**
   * `extractPluginDescription`: the first doc comment without its comment
   * marks, line by line trimmed, with blank lines and `@` tag lines
   * dropped, joined with single spaces. No comment gives "".
   */
  function ExtractPluginDescription(docComments: seq<string>): (r: string)
    ensures docComments == [] ==> r == ""
    ensures IsTrimmed(r)
  {
    if docComments == [] then ""
    else Trim(Join(DescriptionLines(TrimAll(Split(StripCommentMarks(docComments[0]), '\n'))), " "))
  }

  /** The description is one line of text without a `*`. */
  lemma {:induction false} DescriptionIsOneLine(docComments: seq<string>)
    ensures '*' !in ExtractPluginDescription(docComments)
    ensures '\n' !in ExtractPluginDescription(docComments)
  {
    if docComments != [] {
      var text := StripCommentMarks(docComments[0]);
      var trimmed := TrimAll(Split(text, '\n'));
      var lines := DescriptionLines(trimmed);
      TrimmedLinesAvoid(text, '*');
      DescriptionLinesAvoid(trimmed, '*');
      DescriptionLinesAvoid(trimmed, '\n');
      JoinAvoids(lines, " ", '*');
      JoinAvoids(lines, " ", '\n');
      TrimAvoids(Join(lines, " "), '*');
      TrimAvoids(Join(lines, " "), '\n');
    }
  }

  /**
   * A comment made of plain lines (trimmed, not blank, no `*`, no tag) is
   * described by those lines joined with spaces.
   */
  lemma {:induction false} DescriptionOfPlainLines(lines: seq<string>)
    requires |lines| >= 1
    requires forall k :: 0 <= k < |lines| ==> lines[k] != "" && IsTrimmed(lines[k]) && lines[k][0] != '@'
    requires forall k :: 0 <= k < |lines| ==> '*' !in lines[k] && '\n' !in lines[k]
    ensures ExtractPluginDescription([Join(lines, "\n")]) == Join(lines, " ")
  {
    var text := Join(lines, "\n");
    JoinAvoids(lines, "\n", '*');
    assert StripCommentMarks(text) == text;
    SplitJoin(lines, '\n');
    assert Split(text, '\n') == lines;
    TrimAllOfTrimmed(lines);
    KeepPlainLines(lines);
    var joined := Join(lines, " ");
    JoinOfTrimmed(lines, " ");
    TrimOfTrimmed(joined);
    assert ExtractPluginDescription([text]) == Trim(Join(DescriptionLines(TrimAll(Split(StripCommentMarks(text), '\n'))), " "));
  }

  lemma {:induction false} TrimAllOfTrimmed(lines: seq<string>)
    requires forall k :: 0 <= k < |lines| ==> IsTrimmed(lines[k])
    ensures TrimAll(lines) == lines
  {
    forall k | 0 <= k < |lines| ensures Trim(lines[k]) == lines[k] {
      TrimOfTrimmed(lines[k]);
    }
  }

  lemma {:induction false} KeepPlainLines(lines: seq<string>)
    requires forall k :: 0 <= k < |lines| ==> lines[k] != "" && lines[k][0] != '@'
    ensures DescriptionLines(lines) == lines
    decreases |lines|
  {
    if lines != [] {
      KeepPlainLines(lines[1..]);
      assert lines == [lines[0]] + lines[1..];
    }
  }

  /** Pieces that are trimmed and non-empty join into a trimmed text. */
  lemma {:induction false} JoinOfTrimmed(parts: seq<string>, sep: string)
    requires |parts| >= 1
    requires forall k :: 0 <= k < |parts| ==> parts[k] != "" && IsTrimmed(parts[k])
    ensures Join(parts, sep) != [] && IsTrimmed(Join(parts, sep))
    decreases |parts|
  {
    if |parts| > 1 {
      JoinOfTrimmed(parts[1..], sep);
      var rest := Join(parts[1..], sep);
      var s := parts[0] + sep + rest;
      assert s[0] == parts[0][0];
      assert s[|s| - 1] == rest[|rest| - 1];
    }
  }

  // ---------------------------------------------------------------- examples

  // `.replace(/Examples?:|\*\//g, '')`: scanning from the left, every
  // "Examples:", "Example:" and "*/" is removed.
  function StripExampleMarks(s: string): (r: string)
    ensures |r| <= |s|
    decreases |s|
  {
    if s == [] then []
    else if |s| >= 9 && s[..9] == "Examples:" then StripExampleMarks(s[9..])
    else if |s| >= 8 && s[..8] == "Example:" then StripExampleMarks(s[8..])
    else if |s| >= 2 && s[..2] == "*/" then StripExampleMarks(s[2..])
    else [s[0]] + StripExampleMarks(s[1..])
  }

  // `line.replace(/^\s*-\s*/, '')`: a leading dash and the white space around it are removed.
  function StripDash(line: string): (r: string)
    ensures |r| <= |line|
  {
    var a := SpaceRunEnd(line, 0);
    if a < |line| && line[a] == '-' then line[SpaceRunEnd(line, a + 1)..] else line
  }

  /** `.filter(line => line && !line.startsWith('*')).map(...)`. */
  function ExampleLines(lines: seq<string>): (r: seq<string>)
    ensures |r| <= |lines|
  {
    if lines == [] then []
    else
      var rest := ExampleLines(lines[1..]);
      if lines[0] != "" && lines[0][0] != '*' then [StripDash(lines[0])] + rest else rest
  }

  /**
   * `extractExamples`: the first `Examples:` block without its marks,
   * line by line trimmed; blank lines and lines starting with `*` are
   * dropped and a leading dash is removed. No block gives [].
   */
  function ExtractExamples(examples: seq<string>): (r: seq<string>)
    ensures examples == [] ==> r == []
    ensures examples != [] ==> |r| <= |Split(StripExampleMarks(examples[0]), '\n')|
  {
    if examples == [] then []
    else ExampleLines(TrimAll(Split(StripExampleMarks(examples[0]), '\n')))
  }

  /**
   * Lines kept in a doc comment's usual layout start with `*` once trimmed,
   * so a block written that way yields no examples at all.
   */
  lemma {:induction false} StarredLinesGiveNoExamples(lines: seq<string>)
    requires forall k :: 0 <= k < |lines| ==> lines[k] == "" || lines[k][0] == '*'
    ensures ExampleLines(lines) == []
    decreases |lines|
  {
    if lines != [] {
      StarredLinesGiveNoExamples(lines[1..]);
    }
  }

  /** Dash-led items, one per line, are listed without their dashes, in order. */
  lemma {:induction false} DashedLinesGiveItems(items: seq<string>, lines: seq<string>)
    requires |lines| == |items|
    requires forall k :: 0 <= k < |items| ==> items[k] != "" && !IsSpace(items[k][0])
    requires forall k :: 0 <= k < |items| ==> lines[k] == "- " + items[k]
    ensures ExampleLines(lines) == items
    decreases |lines|
  {
    if lines != [] {
      DashedLinesGiveItems(items[1..], lines[1..]);
      var l := lines[0];
      assert SpaceRunEnd(l, 0) == 0;
      assert l[1] == ' ' && l[2] == items[0][0];
      SpaceRunEndIs(l, 1, 2);
      assert l[2..] == items[0];
      assert items == [items[0]] + items[1..];
    }
  }

  // -------------------------------------------------------------- the prompt

  /** What `loadPluginCapabilities` records for one plugin file. */
  datatype Capability = Capability(name: string, description: string, examples: seq<string>)

  function Bullets(examples: seq<string>): (r: seq<string>)
    ensures |r| == |examples|
    ensures forall k :: 0 <= k < |examples| ==> r[k] == "- " + examples[k]
  {
    seq(|examples|, k requires 0 <= k < |examples| => "- " + examples[k])
  }

  /** `${name}:\n${description}` and, when there are examples, `\nExamples:\n- …` one per line. */
  function CapabilityText(c: Capability): (r: string)
    ensures StartsWith(r, c.name + ":\n" + c.description)
  {
    c.name + ":\n" + c.description
    + (if c.examples != [] then "\nExamples:\n" + Join(Bullets(c.examples), "\n") else "")
  }

  function CapabilityTexts(cs: seq<Capability>): (r: seq<string>)
    ensures |r| == |cs|
    ensures forall k :: 0 <= k < |cs| ==> r[k] == CapabilityText(cs[k])
  {
    seq(|cs|, k requires 0 <= k < |cs| => CapabilityText(cs[k]))
  }

  const PromptHead := "\nAvailable bot capabilities:\n\n"
  const PromptTail := "\n\nWhen responding to users, you can reference and explain these capabilities when relevant to the conversation. Use the exact command syntax from the examples when suggesting commands."

  /**
   * `generateCapabilitiesPrompt`: "" before the capabilities are loaded,
   * else every plugin's text, blank-line separated, between the fixed
   * head and tail. An empty list still gives the head and tail.
   */
  function CapabilitiesPrompt(capabilities: Option<seq<Capability>>): (r: string)
    ensures capabilities.None? <==> r == ""
  {
    match capabilities
    case None => ""
    case Some(cs) => PromptHead + Join(CapabilityTexts(cs), "\n\n") + PromptTail
  }

  /** Each piece of a joined text appears in it. */
  lemma {:induction false} JoinContainsPart(parts: seq<string>, sep: string, k: nat)
    requires k < |parts|
    ensures Contains(Join(parts, sep), parts[k])
    decreases k
  {
    var s := Join(parts, sep);
    if |parts| == 1 {
      assert OccursAt(s, parts[k], 0);
    } else if k == 0 {
      assert s == parts[0] + sep + Join(parts[1..], sep);
      assert OccursAt(s, parts[0], 0);
    } else {
      var rest := Join(parts[1..], sep);
      assert s == parts[0] + sep + rest;
      JoinContainsPart(parts[1..], sep, k - 1);
      var i :| 0 <= i <= |rest| && OccursAt(rest, parts[k], i);
      var o := |parts[0] + sep|;
      assert s[o + i..o + i + |parts[k]|] == rest[i..i + |parts[k]|];
      assert OccursAt(s, parts[k], o + i);
    }
  }

  /** Once loaded, every plugin's name, description and examples reach the prompt. */
  lemma {:induction false} PromptMentionsEveryPlugin(cs: seq<Capability>, k: nat)
    requires k < |cs|
    ensures Contains(CapabilitiesPrompt(Some(cs)), CapabilityText(cs[k]))
  {
    var joined := Join(CapabilityTexts(cs), "\n\n");
    JoinContainsPart(CapabilityTexts(cs), "\n\n", k);
    var i :| 0 <= i <= |joined| && OccursAt(joined, CapabilityText(cs[k]), i);
    OccursAtShift(PromptHead, joined, CapabilityText(cs[k]), i, PromptTail);
  }

  // ---------------------------------------------------------------- history

  datatype Role = UserRole | AssistantRole
  datatype Turn = Turn(role: Role, content: string)

  const MaxHistory := 10
  const Apology := "I'm having trouble processing that request right now. Please try again later."

  /** The last `n` elements of `s`, or all of it when it is shorter. */
  function Latest(s: seq<Turn>, n: nat): (r: seq<Turn>)
    ensures |r| == if |s| <= n then |s| else n
    ensures forall i :: 0 <= i < |r| ==> r[i] == s[|s| - |r| + i]
  {
    if |s| <= n then s else s[|s| - n..]
  }

  /**
   * A channel's history after one call of `generateResponse`: the user
   * turn is appended and the oldest turns dropped down to ten, then the
   * assistant turn is appended when the completion succeeded.
   */
  function Exchange(history: seq<Turn>, message: string, completion: Option<string>): (r: seq<Turn>)
    ensures |r| <= MaxHistory + 1
    ensures |r| >= 1 && (completion.Some? ==> |r| >= 2)
    ensures completion.None? ==> |r| <= MaxHistory && r[|r| - 1] == Turn(UserRole, message)
    ensures completion.Some? ==> r[|r| - 1] == Turn(AssistantRole, completion.value)
                                 && r[|r| - 2] == Turn(UserRole, message)
  {
    var kept := Latest(history + [Turn(UserRole, message)], MaxHistory);
    if completion.Some? then kept + [Turn(AssistantRole, completion.value)] else kept
  }

  /** What the history holds between calls: ten turns, or eleven ending with the assistant's. */
  predicate Bounded(h: seq<Turn>) {
    |h| <= MaxHistory || (|h| == MaxHistory + 1 && h[MaxHistory].role == AssistantRole)
  }

  /** Older turns are kept in order: the exchange keeps a suffix of the old history. */
  lemma {:induction false} ExchangeKeepsSuffix(history: seq<Turn>, message: string, completion: Option<string>)
    ensures var kept := Latest(history + [Turn(UserRole, message)], MaxHistory);
            && kept[..|kept| - 1] == history[|history| - (|kept| - 1)..]
            && Exchange(history, message, completion)[..|kept|] == kept
  {
    var s := history + [Turn(UserRole, message)];
    var kept := Latest(s, MaxHistory);
    assert kept[..|kept| - 1] == s[|s| - |kept|..|s| - 1];
    assert s[|s| - |kept|..|s| - 1] == history[|history| - (|kept| - 1)..];
  }

  /** Every exchange leaves a bounded history, whatever the history before. */
  lemma {:induction false} ExchangeBounded(history: seq<Turn>, message: string, completion: Option<string>)
    ensures Bounded(Exchange(history, message, completion))
  {
  }

  predicate AllBounded(histories: map<string, seq<Turn>>) {
    forall c :: c in histories ==> Bounded(histories[c])
  }

  /** Storing a bounded history keeps every channel bounded. */
  lemma {:induction false} AllBoundedUpdate(histories: map<string, seq<Turn>>, channel: string, h: seq<Turn>)
    requires AllBounded(histories) && Bounded(h)
    ensures AllBounded(histories[channel := h])
  {
  }

  function HistoryOf(histories: map<string, seq<Turn>>, channel: string): seq<Turn> {
    if channel in histories then histories[channel] else []
  }

  /** The outcome the handlers act on. */
  datatype Decision =
    | Ignore           // not a DM or mention, from a bot, or without text
    | Defer            // another plugin's pattern matches the cleaned text
    | Answer(clean: string)

  /** The guards shared by both handlers once a message is in scope. */
  function Guard(text: string, isBot: bool, plugins: seq<string>,
                 isPluginPattern: (string, string) -> bool): (d: Decision)
    ensures d.Ignore? <==> isBot
    ensures d.Defer? <==> !isBot && exists j :: 0 <= j < |plugins| && plugins[j] != "character"
                                               && isPluginPattern(plugins[j], StripMention(text))
    ensures d.Answer? ==> d.clean == StripMention(text)
  {
    if isBot then Ignore
    else
      var clean := StripMention(text);
      if exists j :: 0 <= j < |plugins| && plugins[j] != "character" && isPluginPattern(plugins[j], clean)
      then Defer
      else Answer(clean)
  }

  /**
   * The message handler's decision: only a DM or a text mentioning the
   * bot is in scope; a DM without text makes the cleaning step throw,
   * which ends the handler without a reply.
   */
  function OnMessageDecision(channelType: string, text: Option<string>, botUserId: string, isBot: bool,
                             plugins: seq<string>, isPluginPattern: (string, string) -> bool): (d: Decision)
    ensures d.Answer? ==> text.Some? && (channelType == "im" || Contains(text.value, "<@" + botUserId + ">"))
    ensures text.Some? && (channelType == "im" || Contains(text.value, "<@" + botUserId + ">"))
            ==> d == Guard(text.value, isBot, plugins, isPluginPattern)
  {
    var isMention := text.Some? && Contains(text.value, "<@" + botUserId + ">");
    if channelType != "im" && !isMention then Ignore
    else if isBot then Ignore
    else if text.None? then Ignore
    else Guard(text.value, isBot, plugins, isPluginPattern)
  }

  /** The `app_mention` handler's decision. */
  function OnMentionDecision(text: string, isBot: bool, plugins: seq<string>,
                             isPluginPattern: (string, string) -> bool): (d: Decision)
    ensures d == Guard(text, isBot, plugins, isPluginPattern)
    ensures d.Defer? ==> !isBot
  {
    Guard(text, isBot, plugins, isPluginPattern)
  }

  /** A plugin that matches every text leaves nothing to the character, unless it is the character itself. */
  lemma {:induction false} OtherPluginAlwaysWins(text: string, plugins: seq<string>, isPluginPattern: (string, string) -> bool, j: nat)
    requires j < |plugins| && plugins[j] != "character"
    requires forall t :: isPluginPattern(plugins[j], t)
    ensures OnMentionDecision(text, false, plugins, isPluginPattern) == Defer
  {
    assert isPluginPattern(plugins[j], StripMention(text));
  }

  class CharacterManager {
    /** `conversationHistory`: the turns kept per channel. */
    var conversationHistory: map<string, seq<Turn>>
    /** Whether a character configuration is loaded (`this.character` is set). */
    var loaded: bool
    /** `this.capabilities`: absent until loaded. */
    var capabilities: Option<seq<Capability>>

    ghost predicate Valid()
      reads this
    {
      AllBounded(conversationHistory)
    }

    constructor()
      ensures conversationHistory == map[] && !loaded && capabilities == None
      ensures Valid()
    {
      conversationHistory := map[];
      loaded := false;
      capabilities := None;
    }

    /** Records the loaded character and the capabilities read with it. */
    method Load(caps: seq<Capability>)
      requires Valid()
      modifies this
      ensures Valid()
      ensures loaded && capabilities == Some(caps)
      ensures conversationHistory == old(conversationHistory)
    {
      loaded := true;
      capabilities := Some(caps);
    }

    function GenerateCapabilitiesPrompt(): (r: string)
      reads this
      ensures r == CapabilitiesPrompt(capabilities)
    {
      CapabilitiesPrompt(capabilities)
    }

    /**
     * `generateResponse`: `None` models the error thrown when no character
     * is loaded; otherwise the completion text, or the apology when the
     * completion service fails. The user turn stays in the history either way.
     */
    method GenerateResponse(message: string, channelId: string, completion: Option<string>)
      returns (r: Option<string>)
      requires Valid()
      modifies this
      ensures Valid()
      ensures loaded == old(loaded) && capabilities == old(capabilities)
      ensures !loaded ==> r.None? && conversationHistory == old(conversationHistory)
      ensures loaded ==> r == Some(if completion.Some? then completion.value else Apology)
      ensures loaded ==> conversationHistory == old(conversationHistory)[channelId :=
                Exchange(HistoryOf(old(conversationHistory), channelId), message, completion)]
    {
      if !loaded {
        return None;
      }
      // A channel without a history starts from an empty one.
      var histories := conversationHistory;
      var prior := HistoryOf(histories, channelId);
      var history;
      history, r := Converse(prior, message, completion);
      ExchangeBounded(prior, message, completion);
      AllBoundedUpdate(histories, channelId, history);
      conversationHistory := histories[channelId := history];
    }

    /**
     * The steps on one channel's history: push the user turn, drop the
     * oldest turns down to ten, then push the assistant turn when the
     * completion succeeded.
     */
    static method Converse(prior: seq<Turn>, message: string, completion: Option<string>)
      returns (history: seq<Turn>, r: Option<string>)
      ensures history == Exchange(prior, message, completion)
      ensures r == Some(if completion.Some? then completion.value else Apology)
    {
      history := prior + [Turn(UserRole, message)];
      history := DropOldest(history);
      if completion.Some? {
        history := history + [Turn(AssistantRole, completion.value)];
        r := Some(completion.value);
      } else {
        r := Some(Apology);
      }
    }

    /** The `while (history.length > 10) history.shift()` loop. */
    static method DropOldest(pushed: seq<Turn>) returns (history: seq<Turn>)
      ensures history == Latest(pushed, MaxHistory)
    {
      history := pushed;
      while |history| > MaxHistory
        invariant |history| <= |pushed|
        invariant history == pushed[|pushed| - |history|..]
        invariant |history| >= MaxHistory || history == pushed
        decreases |history|
      {
        history := history[1..];
      }
    }

    /** `clearConversationHistory`: that channel starts over; the others keep their turns. */
    method ClearConversationHistory(channelId: string)
      requires Valid()
      modifies this
      ensures Valid()
      ensures conversationHistory == old(conversationHistory)[channelId := []]
      ensures loaded == old(loaded) && capabilities == old(capabilities)
    {
      conversationHistory := conversationHistory[channelId := []];
    }

    /**
     * Both handlers once they decided to answer: the reply text (the
     * apology too when no character is loaded) goes to the message's own
     * thread, if any.
     */
    method Answer(clean: string, channel: string, threadTs: ThreadTs, completion: Option<string>)
      returns (reply: (string, ThreadTs))
      requires Valid()
      modifies this
      ensures Valid()
      ensures reply.1 == threadTs
      ensures reply.0 == if loaded && completion.Some? then completion.value else Apology
      ensures loaded == old(loaded) && capabilities == old(capabilities)
      ensures !loaded ==> conversationHistory == old(conversationHistory)
      ensures loaded ==> conversationHistory == old(conversationHistory)[channel :=
                Exchange(HistoryOf(old(conversationHistory), channel), clean, completion)]
    {
      var response := GenerateResponse(clean, channel, completion);
      reply := (if response.Some? then response.value else Apology, threadTs);
    }

    /** The message handler: nothing is sent and nothing changes unless it answers. */
    method OnMessage(channelType: string, text: Option<string>, botUserId: string, isBot: bool,
                     plugins: seq<string>, isPluginPattern: (string, string) -> bool,
                     channel: string, threadTs: ThreadTs, completion: Option<string>)
      returns (reply: Option<(string, ThreadTs)>)
      requires Valid()
      modifies this
      ensures Valid()
      ensures reply.Some? <==> OnMessageDecision(channelType, text, botUserId, isBot, plugins, isPluginPattern).Answer?
      ensures reply.None? ==> conversationHistory == old(conversationHistory)
      ensures loaded == old(loaded) && capabilities == old(capabilities)
    {
      var d := OnMessageDecision(channelType, text, botUserId, isBot, plugins, isPluginPattern);
      if !d.Answer? {
        return None;
      }
      var r := Answer(d.clean, channel, threadTs, completion);
      reply := Some(r);
    }

    /** The `app_mention` handler. */
    method OnMention(text: string, isBot: bool, plugins: seq<string>,
                     isPluginPattern: (string, string) -> bool,
                     channel: string, threadTs: ThreadTs, completion: Option<string>)
      returns (reply: Option<(string, ThreadTs)>)
      requires Valid()
      modifies this
      ensures Valid()
      ensures reply.Some? <==> OnMentionDecision(text, isBot, plugins, isPluginPattern).Answer?
      ensures reply.None? ==> conversationHistory == old(conversationHistory)
      ensures loaded == old(loaded) && capabilities == old(capabilities)
    {
      var d := OnMentionDecision(text, isBot, plugins, isPluginPattern);
      if !d.Answer? {
        return None;
      }
      var r := Answer(d.clean, channel, threadTs, completion);
      reply := Some(r);
    }
  }
}
