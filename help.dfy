/**
 * The help plugin (src/plugins/help.ts and its JavaScript twin
 * plugins/help.js): a table of plugin descriptions, the two text
 * renderings built from it by appending line after line, and the
 * `help`/`commands`/`plugins` command that picks one of them.
 */
module Help {
  import opened Wrappers
  import opened Text
  import opened Slack

  /** One documented command: the pattern a user types and what it does. */
  datatype Command = Command(pattern: string, description: string)

  /** The help entry of one plugin. */
  datatype PluginHelp = PluginHelp(title: string, description: string, commands: seq<Command>)

  /** The help table, in the key order `Object.keys` gives it. */
  type HelpTable = seq<(string, PluginHelp)>

  function Keys(table: HelpTable): (keys: seq<string>)
    ensures |keys| == |table|
    ensures forall i :: 0 <= i < |table| ==> keys[i] == table[i].0
  {
    seq(|table|, i requires 0 <= i < |table| => table[i].0)
  }

  /** `helpText[plugin]`: the entry filed under `plugin`, if any. */
  function Lookup(table: HelpTable, plugin: string): (r: Option<PluginHelp>)
    ensures r.None? <==> plugin !in Keys(table)
    ensures r.Some? ==> exists i :: 0 <= i < |table| && table[i] == (plugin, r.value)
  {
    if table == [] then None
    else if table[0].0 == plugin then Some(table[0].1)
    else
      var r := Lookup(table[1..], plugin);
      assert Keys(table) == [table[0].0] + Keys(table[1..]);
      assert r.Some? ==> exists i :: 0 <= i < |table| && table[i] == (plugin, r.value) by {
        if r.Some? {
          var i :| 0 <= i < |table[1..]| && table[1..][i] == (plugin, r.value);
          assert table[i + 1] == (plugin, r.value);
        }
      }
      r
  }

  // ------------------------------------------------------------------ tables

  const Botsnack := PluginHelp("Botsnack", "Give the bot a treat!", [
    Command("botsnack", "Give the bot a snack"),
    Command("@bot botsnack", "Give the bot a snack (with mention)")])

  const Factoids := PluginHelp("Factoids", "Store and retrieve custom responses", [
    Command("!factoid: X?", "Query a factoid"),
    Command("@Lullabot X is Y", "Set a factoid"),
    Command("@Lullabot X is <reply>Y", "Set with reply"),
    Command("@Lullabot forget X", "Delete a factoid"),
    Command("!factoid: list", "List all factoids")])

  const KarmaHelp := PluginHelp("Karma System", "Track and manage karma points", [
    Command("@user++", "Give karma to user"),
    Command("@user--", "Take karma from user"),
    Command("thing++", "Give karma to thing"),
    Command("thing--", "Take karma from thing"),
    Command("karma @user", "Query user's karma"),
    Command("karma thing", "Query thing's karma")])

  const Greetings := PluginHelp("Greetings", "Responds to various greeting patterns", [
    Command("hello!", "Say hello"),
    Command("hey!", "Say hey"),
    Command("hi!", "Say hi"),
    Command(":wave:", "Wave emoji")])

  const UptimeHelp := PluginHelp("Uptime", "Bot status information", [
    Command("uptime", "Show bot uptime"),
    Command("identify yourself", "Show bot info"),
    Command("who are you", "Show bot identity")])

  /** The table of the TypeScript plugin. */
  const TsTable: HelpTable := [
    ("botsnack", Botsnack), ("factoids", Factoids), ("karma", KarmaHelp),
    ("greetings", Greetings), ("uptime", UptimeHelp)]

  /** The table of the JavaScript plugin: the same entries without botsnack. */
  const JsTable: HelpTable := [
    ("factoids", Factoids), ("karma", KarmaHelp), ("greetings", Greetings), ("uptime", UptimeHelp)]

  /** The JavaScript table is the TypeScript one without its first entry, and has no botsnack entry. */
  lemma {:induction false} JsTableLacksBotsnack()
    ensures JsTable == TsTable[1..]
    ensures Lookup(JsTable, "botsnack").None?
    ensures Lookup(TsTable, "botsnack") == Some(Botsnack)
  {
    assert Keys(JsTable) == ["factoids", "karma", "greetings", "uptime"];
  }

  // --------------------------------------------------------------- rendering

  /** "• `<pattern>` - <description>\n". */
  function CommandLine(cmd: Command): string {
    "• `" + cmd.pattern + "` - " + cmd.description + "\n"
  }

  /** The command lines of `cmds`, one after the other. */
  function CommandLines(cmds: seq<Command>): string {
    if cmds == [] then "" else CommandLines(cmds[..|cmds| - 1]) + CommandLine(cmds[|cmds| - 1])
  }

  lemma {:induction false} CommandLinesAppend(a: seq<Command>, b: seq<Command>)
    ensures CommandLines(a + b) == CommandLines(a) + CommandLines(b)
    decreases |b|
  {
    if b != [] {
      assert (a + b)[..|a + b| - 1] == a + b[..|b| - 1];
      CommandLinesAppend(a, b[..|b| - 1]);
    } else {
      assert a + b == a;
    }
  }

  lemma {:induction false} CommandLinesSnoc(cmds: seq<Command>, i: nat)
    requires i < |cmds|
    ensures CommandLines(cmds[..i + 1]) == CommandLines(cmds[..i]) + CommandLine(cmds[i])
  {
    assert cmds[..i + 1][..i] == cmds[..i];
  }

  /** Each command's line appears in the rendering, after the lines of the commands before it. */
  lemma {:induction false} CommandLineAt(cmds: seq<Command>, k: nat)
    requires k < |cmds|
    ensures OccursAt(CommandLines(cmds), CommandLine(cmds[k]), |CommandLines(cmds[..k])|)
  {
    assert cmds == cmds[..k] + [cmds[k]] + cmds[k + 1..];
    CommandLinesAppend(cmds[..k] + [cmds[k]], cmds[k + 1..]);
    CommandLinesAppend(cmds[..k], [cmds[k]]);
    assert CommandLines([cmds[k]]) == CommandLine(cmds[k]) by {
      assert [cmds[k]][..0] == [];
    }
  }

  /** "*<title>*\n<description>\n\n*Commands:*\n". */
  function PluginHeader(help: PluginHelp): string {
    "*" + help.title + "*\n" + help.description + "\n\n*Commands:*\n"
  }

  /** What `formatPluginHelp` returns: nothing for an unknown name, else the header and every command. */
  function PluginHelpText(table: HelpTable, plugin: string): (r: Option<string>)
    ensures r.Some? <==> Lookup(table, plugin).Some?
    ensures r.Some? ==> StartsWith(r.value, PluginHeader(Lookup(table, plugin).value))
  {
    match Lookup(table, plugin)
    case None => None
    case Some(help) => Some(PluginHeader(help) + CommandLines(help.commands))
  }

  /** A known plugin's text is its header followed by each of its commands in order. */
  lemma {:induction false} PluginHelpTextLines(table: HelpTable, plugin: string, k: nat)
    requires Lookup(table, plugin).Some? && k < |Lookup(table, plugin).value.commands|
    ensures var help := Lookup(table, plugin).value;
            && PluginHelpText(table, plugin).Some?
            && StartsWith(PluginHelpText(table, plugin).value, PluginHeader(help))
            && OccursAt(PluginHelpText(table, plugin).value, CommandLine(help.commands[k]),
                        |PluginHeader(help)| + |CommandLines(help.commands[..k])|)
  {
    var help := Lookup(table, plugin).value;
    CommandLineAt(help.commands, k);
    HeaderThenLines(PluginHeader(help), CommandLines(help.commands), CommandLine(help.commands[k]),
                    |CommandLines(help.commands[..k])|);
  }

  /** A line found in the command lines is found, shifted, in the text they end. */
  lemma {:induction false} HeaderThenLines(h: string, c: string, line: string, i: nat)
    requires OccursAt(c, line, i)
    ensures StartsWith(h + c, h) && OccursAt(h + c, line, |h| + i)
  {
    OccursAtShift(h, c, line, i, "");
    FrameOf(h, c, "");
    assert h + c + "" == h + c;
  }

  /** `formatPluginHelp`: the header, then one line appended per command. */
  method FormatPluginHelp(table: HelpTable, plugin: string) returns (r: Option<string>)
    ensures r == PluginHelpText(table, plugin)
    ensures r.None? <==> plugin !in Keys(table)
  {
    var found := Lookup(table, plugin);
    if found.None? {
      return None;
    }
    var help := found.value;
    var response := AppendCommandLines(PluginHeader(help), help.commands);
    r := Some(response);
  }

  /** `cmds.forEach(cmd => { response += ... })`: one line appended per command, in order. */
  method AppendCommandLines(response: string, cmds: seq<Command>) returns (r: string)
    ensures r == response + CommandLines(cmds)
  {
    r := response;
    var i := 0;
    while i < |cmds|
      invariant 0 <= i <= |cmds|
      invariant r == response + CommandLines(cmds[..i])
    {
      CommandLinesSnoc(cmds, i);
      r := r + CommandLine(cmds[i]);
      i := i + 1;
    }
    assert cmds[..i] == cmds;
  }

  /** `help.commands.slice(0, 2)`: the first two commands, or all when there are fewer. */
  function KeyCommands(help: PluginHelp): (cmds: seq<Command>)
    ensures |cmds| <= 2 && |cmds| <= |help.commands|
    ensures |cmds| == |help.commands| || |cmds| == 2
    ensures cmds == help.commands[..|cmds|]
  {
    if |help.commands| <= 2 then help.commands else help.commands[..2]
  }

  /** "*<title>*\n<description>\n_Key commands:_\n". */
  function SectionHeader(help: PluginHelp): string {
    "*" + help.title + "*\n" + help.description + "\n" + "_Key commands:_\n"
  }

  /** One plugin's part of the full help. */
  function Section(help: PluginHelp): string {
    SectionHeader(help) + CommandLines(KeyCommands(help)) + "\n"
  }

  /** The strings of `parts`, one after the other. */
  function Concat(parts: seq<string>): string {
    if parts == [] then "" else Concat(parts[..|parts| - 1]) + parts[|parts| - 1]
  }

  lemma {:induction false} ConcatAppend(a: seq<string>, b: seq<string>)
    ensures Concat(a + b) == Concat(a) + Concat(b)
    decreases |b|
  {
    if b == [] {
      assert a + b == a;
    } else {
      var front, last := b[..|b| - 1], b[|b| - 1];
      assert (a + b)[..|a + b| - 1] == a + front;
      assert (a + b)[|a + b| - 1] == last;
      ConcatAppend(a, front);
      assert Concat(a + b) == Concat(a) + Concat(front) + last;
      assert Concat(b) == Concat(front) + last;
    }
  }

  /** The section of each plugin, in table order. */
  function SectionTexts(table: HelpTable): (r: seq<string>)
    ensures |r| == |table|
    ensures forall i :: 0 <= i < |table| ==> r[i] == Section(table[i].1)
  {
    seq(|table|, i requires 0 <= i < |table| => Section(table[i].1))
  }

  function Sections(table: HelpTable): string {
    Concat(SectionTexts(table))
  }

  const FullHelpHeader := "*Available Plugins:*\n\n"
  const FullHelpHint := "\nFor detailed help on a specific plugin, try `@bot help <plugin>` (e.g., `@bot help karma`)"

  /** The full help: the header, then the plugins' sections, then the hint. */
  function FullHelpText(table: HelpTable): (r: string)
    ensures StartsWith(r, FullHelpHeader) && EndsWith(r, FullHelpHint)
  {
    var r := FullHelpHeader + Sections(table) + FullHelpHint;
    assert r[..|FullHelpHeader|] == FullHelpHeader;
    assert r[|r| - |FullHelpHint|..] == FullHelpHint;
    r
  }

  /**
   * The full help lists every plugin in table order: the section of entry
   * `k` follows the header and the sections of the entries before it.
   */
  lemma {:induction false} FullHelpSectionAt(table: HelpTable, k: nat)
    requires k < |table|
    ensures OccursAt(FullHelpText(table), Section(table[k].1),
                     |FullHelpHeader| + |Sections(table[..k])|)
  {
    var texts := SectionTexts(table);
    ConcatAt(texts, k);
    assert texts[..k] == SectionTexts(table[..k]);
    OccursAtShift(FullHelpHeader, Sections(table), Section(table[k].1), |Sections(table[..k])|, FullHelpHint);
  }

  /** The full help opens with its header and closes with the hint. */
  lemma {:induction false} FullHelpFrame(table: HelpTable)
    ensures StartsWith(FullHelpText(table), FullHelpHeader)
    ensures EndsWith(FullHelpText(table), FullHelpHint)
  {
    FrameOf(FullHelpHeader, Sections(table), FullHelpHint);
  }

  lemma {:induction false} FrameOf(pre: string, s: string, post: string)
    ensures StartsWith(pre + s + post, pre) && EndsWith(pre + s + post, post)
  {
    assert (pre + s + post)[..|pre|] == pre;
    assert (pre + s + post)[|pre + s|..] == post;
  }

  /** Each part of a concatenation appears after the parts before it. */
  lemma {:induction false} ConcatAt(parts: seq<string>, k: nat)
    requires k < |parts|
    ensures OccursAt(Concat(parts), parts[k], |Concat(parts[..k])|)
  {
    assert parts == parts[..k] + [parts[k]] + parts[k + 1..];
    ConcatAppend(parts[..k] + [parts[k]], parts[k + 1..]);
    ConcatAppend(parts[..k], [parts[k]]);
    assert Concat([parts[k]]) == parts[k] by {
      assert [parts[k]][..0] == [];
    }
  }

  /** Adding one more entry to the table adds its section at the end. */
  lemma {:induction false} SectionsSnoc(table: HelpTable, i: nat, before: string)
    requires i < |table|
    requires before == FullHelpHeader + Sections(table[..i])
    ensures var help := table[i].1;
            before + SectionHeader(help) + CommandLines(KeyCommands(help)) + "\n"
            == FullHelpHeader + Sections(table[..i + 1])
  {
    var help := table[i].1;
    SectionTextsSnoc(table, i);
    ConcatSnoc(SectionTexts(table[..i]), Section(help));
    AppendAssoc(before, SectionHeader(help), CommandLines(KeyCommands(help)), "\n");
    AppendAssoc(FullHelpHeader, Sections(table[..i]), Section(help), "");
  }

  lemma {:induction false} AppendAssoc(p: string, a: string, b: string, c: string)
    ensures p + a + b + c == p + (a + b + c)
    ensures p + a + b == p + (a + b)
  {
  }

  lemma {:induction false} SectionTextsSnoc(table: HelpTable, i: nat)
    requires i < |table|
    ensures SectionTexts(table[..i + 1]) == SectionTexts(table[..i]) + [Section(table[i].1)]
  {
  }

  lemma {:induction false} ConcatSnoc(parts: seq<string>, last: string)
    ensures Concat(parts + [last]) == Concat(parts) + last
  {
    assert (parts + [last])[..|parts|] == parts;
  }

  /** `formatFullHelp`: the header, one section per plugin with its key commands, then the hint. */
  method FormatFullHelp(table: HelpTable) returns (r: string)
    ensures r == FullHelpText(table)
  {
    var response := FullHelpHeader;
    var i := 0;
    while i < |table|
      invariant 0 <= i <= |table|
      invariant response == FullHelpHeader + Sections(table[..i])
    {
      var help := table[i].1;
      ghost var before := response;
      response := AppendCommandLines(response + SectionHeader(help), KeyCommands(help));
      response := response + "\n";
      SectionsSnoc(table, i, before);
      i := i + 1;
    }
    assert table[..i] == table;
    response := response + FullHelpHint;
    r := response;
  }

  // ----------------------------------------------------------------- command

  const HelpKeywords: seq<string> := ["help", "commands", "plugins"]

  /** The regex `\w`. */
  predicate IsWordChar(c: char) {
    'a' <= c <= 'z' || 'A' <= c <= 'Z' || '0' <= c <= '9' || c == '_'
  }

  predicate AllWordChars(s: string) {
    forall i :: 0 <= i < |s| ==> IsWordChar(s[i])
  }

  /** The length of the keyword `s` starts with, ignoring case, if any. */
  function KeywordLength(s: string): (n: Option<nat>)
    ensures n.Some? ==> n.value <= |s| && ToLower(s[..n.value]) in HelpKeywords
  {
    if |s| >= 4 && ToLower(s[..4]) == "help" then Some(4)
    else if |s| >= 8 && ToLower(s[..8]) == "commands" then Some(8)
    else if |s| >= 7 && ToLower(s[..7]) == "plugins" then Some(7)
    else None
  }

  /**
   * `text.match(/^(?:help|commands|plugins)(?:\s+(\w+))?$/i)`: `None` when
   * it does not match; otherwise the capture, absent when the text is the
   * bare keyword. White space and word characters are disjoint, so the
   * greedy `\s+` ends exactly where the word begins.
   */
  function ParseHelp(text: string): (r: Option<Option<string>>)
    ensures r == Some(None) ==> ToLower(text) in HelpKeywords
    ensures r.Some? && r.value.Some? ==>
              var w := r.value.value;
              && w != [] && AllWordChars(w) && |w| < |text|
              && text[|text| - |w|..] == w
              && IsSpace(text[|text| - |w| - 1])
  {
    match KeywordLength(text)
    case None => None
    case Some(n) =>
      if n == |text| then
        assert text[..n] == text;
        Some(None)
      else
        var g := SpaceRunEnd(text, n);
        var w := text[g..];
        if g == n || w == [] || !AllWordChars(w) then None
        else Some(Some(w))
  }

  /** Every keyword, in any case, alone or followed by white space and one word, is a help command. */
  lemma {:induction false} ParseHelpOf(kw: string, gap: string, word: string)
    requires ToLower(kw) in HelpKeywords
    requires AllSpace(gap)
    requires gap != [] <==> word != []
    requires AllWordChars(word)
    ensures ParseHelp(kw + gap + word) == Some(if word == [] then None else Some(word))
  {
    var t := kw + gap + word;
    assert t[..|kw|] == kw;
    assert KeywordLength(t) == Some(|kw|) by {
      if ToLower(kw) == "commands" {
        assert ToLower(t[..4]) != "help" by { assert ToLower(t[..4])[0] == 'c'; }
      } else if ToLower(kw) == "plugins" {
        assert ToLower(t[..4]) != "help" by { assert ToLower(t[..4])[0] == 'p'; }
        assert |t| >= 8 ==> ToLower(t[..8]) != "commands" by {
          if |t| >= 8 { assert ToLower(t[..8])[0] == 'p'; }
        }
      }
    }
    if word != [] {
      assert !IsSpace(t[|kw| + |gap|]) by { assert t[|kw| + |gap|] == word[0]; }
      SpaceRunEndIs(t, |kw|, |kw| + |gap|);
      assert t[|kw| + |gap|..] == word;
    }
  }

  /** Any other text beginning with a keyword is not a help command. */
  lemma {:induction false} ParseHelpRejectsGlued(kw: string, rest: string)
    requires ToLower(kw) in HelpKeywords
    requires rest != [] && IsWordChar(rest[0])
    ensures ParseHelp(kw + rest).None?
  {
    var t := kw + rest;
    assert t[..|kw|] == kw;
    assert KeywordLength(t) == Some(|kw|) by {
      if ToLower(kw) == "commands" {
        assert ToLower(t[..4]) != "help" by { assert ToLower(t[..4])[0] == 'c'; }
      } else if ToLower(kw) == "plugins" {
        assert ToLower(t[..4]) != "help" by { assert ToLower(t[..4])[0] == 'p'; }
        assert |t| >= 8 ==> ToLower(t[..8]) != "commands" by {
          if |t| >= 8 { assert ToLower(t[..8])[0] == 'p'; }
        }
      }
    }
    assert !IsSpace(t[|kw|]);
  }

  /** `Plugin "<x>" not found. Try one of: <keys>`: the name asked for, quoted, and every key the table has. */
  function NotFound(table: HelpTable, plugin: string): (r: string)
    ensures OccursAt(r, plugin, |"Plugin \""|)
    ensures EndsWith(r, "Try one of: " + Join(Keys(table), ", "))
  {
    var r := "Plugin \"" + plugin + "\" not found. Try one of: " + Join(Keys(table), ", ");
    assert r[8..8 + |plugin|] == plugin;
    assert r[|r| - |"Try one of: " + Join(Keys(table), ", ")|..] == "Try one of: " + Join(Keys(table), ", ");
    r
  }

  /**
   * The reply to a text the handlers test: none when the regex does not
   * match, the full help for a bare keyword, else the plugin's help for
   * the lower-cased word, or the not-found text.
   */
  function Response(table: HelpTable, text: string): (r: Option<string>)
    ensures r.Some? <==> ParseHelp(text).Some?
  {
    match ParseHelp(text)
    case None => None
    case Some(None) => Some(FullHelpText(table))
    case Some(Some(word)) =>
      var plugin := ToLower(word);
      match PluginHelpText(table, plugin)
      case Some(help) => Some(help)
      case None => Some(NotFound(table, plugin))
  }

  /** An unknown plugin gets the not-found reply naming it, lower-cased. */
  lemma {:induction false} UnknownPlugin(table: HelpTable, kw: string, gap: string, word: string)
    requires ToLower(kw) in HelpKeywords && AllSpace(gap) && gap != []
    requires word != [] && AllWordChars(word)
    requires ToLower(word) !in Keys(table)
    ensures Response(table, kw + gap + word) == Some(NotFound(table, ToLower(word)))
  {
    ParseHelpOf(kw, gap, word);
  }

  /** A known plugin, named in any case, gets its own help. */
  lemma {:induction false} KnownPlugin(table: HelpTable, kw: string, gap: string, word: string)
    requires ToLower(kw) in HelpKeywords && AllSpace(gap) && gap != []
    requires word != [] && AllWordChars(word)
    requires ToLower(word) in Keys(table)
    ensures Response(table, kw + gap + word) == PluginHelpText(table, ToLower(word))
    ensures Response(table, kw + gap + word).Some?
  {
    ParseHelpOf(kw, gap, word);
  }

  /** The JavaScript plugin answers "help botsnack" with the not-found text. */
  lemma {:induction false} JsHelpBotsnack(gap: string)
    requires AllSpace(gap) && gap != []
    ensures Response(JsTable, "help" + gap + "botsnack") == Some(NotFound(JsTable, "botsnack"))
    ensures Response(TsTable, "help" + gap + "botsnack") == Some(PluginHeader(Botsnack) + CommandLines(Botsnack.commands))
  {
    JsTableLacksBotsnack();
    HelpBotsnackParses(gap);
  }

  lemma {:induction false} HelpBotsnackParses(gap: string)
    requires AllSpace(gap) && gap != []
    ensures ParseHelp("help" + gap + "botsnack") == Some(Some("botsnack"))
    ensures ToLower("botsnack") == "botsnack"
  {
    assert ToLower("help") == "help";
    assert ToLower("botsnack") == "botsnack";
    assert AllWordChars("botsnack");
    ParseHelpOf("help", gap, "botsnack");
  }

  /** What either handler computes for a text it tests, with the reply's thread. */
  method Respond(table: HelpTable, text: string) returns (r: Option<string>)
    ensures r == Response(table, text)
  {
    var parsed := ParseHelp(text);
    if parsed.None? {
      return None;
    }
    if parsed.value.Some? {
      var plugin := ToLower(parsed.value.value);
      var pluginHelp := FormatPluginHelp(table, plugin);
      r := if pluginHelp.Some? then pluginHelp else Some(NotFound(table, plugin));
    } else {
      var full := FormatFullHelp(table);
      r := Some(full);
    }
  }

  /** The `app_mention` handler: the text without its first mention is tested; the reply threads under thread_ts, else ts. */
  method OnMention(table: HelpTable, text: string, threadTs: ThreadTs, ts: string) returns (r: Option<(string, string)>)
    ensures r.Some? <==> Response(table, StripMention(text)).Some?
    ensures r.Some? ==> r.value == (Response(table, StripMention(text)).value, ReplyThread(threadTs, ts))
  {
    var response := Respond(table, StripMention(text));
    r := if response.Some? then Some((response.value, ReplyThread(threadTs, ts))) else None;
  }

  /** The message handler: the raw text is tested. */
  method OnMessage(table: HelpTable, text: string, threadTs: ThreadTs, ts: string) returns (r: Option<(string, string)>)
    ensures r.Some? <==> Response(table, text).Some?
    ensures r.Some? ==> r.value == (Response(table, text).value, ReplyThread(threadTs, ts))
  {
    var response := Respond(table, text);
    r := if response.Some? then Some((response.value, ReplyThread(threadTs, ts))) else None;
  }
}
