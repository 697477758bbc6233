/**
 * The greeting plugin (src/plugins/hello.ts): a greeting is answered by a
 * `:wave:` reaction, and only when adding the reaction fails by a text
 * reply naming the sender.
 */
module Hello {
  import opened Wrappers
  import opened Text
  import opened Slack
  import Patterns
  import PatternRegistry

  /** One alternative of the greeting regex: a word, optionally followed by one `!`. */
  datatype Alternative = Alternative(word: string, optionalBang: bool)

  /** `['^hello\\!?$', '^hey\\!?$', '^hi\\!?$', '^:wave:$']`. */
  const Alternatives: seq<Alternative> := [
    Alternative("hello", true), Alternative("hey", true), Alternative("hi", true),
    Alternative(":wave:", false)]

  /** One alternative matches the whole text, ignoring the case of letters. */
  predicate AlternativeMatches(alt: Alternative, t: string) {
    ToLower(t) == alt.word || (alt.optionalBang && ToLower(t) == alt.word + "!")
  }

  /**
   * Joining the alternatives with `|` under the `i` flag gives the
   * registered greeting pattern: a text matches it exactly when one
   * alternative matches it.
   */
  lemma {:induction false} GreetingIsAlternation(t: string)
    ensures Patterns.Test(Patterns.Greeting, t)
            <==> exists j :: 0 <= j < |Alternatives| && AlternativeMatches(Alternatives[j], t)
  {
    var l := ToLower(t);
    if Patterns.Test(Patterns.Greeting, t) {
      var k :| 0 <= k < |Patterns.GreetingTexts| && Patterns.GreetingTexts[k] == l;
      var j := if k == 6 then 3 else k / 2;
      assert AlternativeMatches(Alternatives[j], t);
    }
    if exists j :: 0 <= j < |Alternatives| && AlternativeMatches(Alternatives[j], t) {
      var j :| 0 <= j < |Alternatives| && AlternativeMatches(Alternatives[j], t);
      if j < 3 {
        assert l == Patterns.GreetingTexts[2 * j] || l == Patterns.GreetingTexts[2 * j + 1];
      } else {
        assert l == Patterns.GreetingTexts[6];
      }
    }
  }

  /** `getUser(client, id).id`: the id `users.info` returns, or the given id when the lookup fails. */
  function GreetedId(dir: Directory, userId: string): (r: string)
    ensures userId !in dir ==> r == userId
  {
    if userId in dir then dir[userId].id else userId
  }

  /** The fallback reply, `Hello <@id>!!`: the greeted id, between a fixed opening and closing. */
  function Fallback(dir: Directory, userId: string): (r: string)
    ensures StartsWith(r, "Hello <@") && EndsWith(r, ">!!")
    ensures OccursAt(r, GreetedId(dir, userId), 8) && |r| == |GreetedId(dir, userId)| + 11
  {
    var r := "Hello <@" + GreetedId(dir, userId) + ">!!";
    assert r[..8] == "Hello <@" && r[|r| - 3..] == ">!!" && r[8..8 + |GreetedId(dir, userId)|] == GreetedId(dir, userId);
    r
  }

  /**
   * The message handler, for a message the greeting regex routed to it.
   * `reactionFails` is whether `reactions.add` threw. The result is the
   * text reply and its thread, or nothing.
   */
  function OnMessage(dir: Directory, reactionFails: bool, text: string, user: string,
                     threadTs: ThreadTs, ts: string): (r: Option<(string, string)>)
    ensures r.Some? <==> Patterns.Test(Patterns.Greeting, text) && reactionFails
    ensures r.Some? ==> r.value.1 == ReplyThread(threadTs, ts)
    ensures r.Some? && WellFormed(dir) ==> r.value.0 == "Hello <@" + user + ">!!"
  {
    if !Patterns.Test(Patterns.Greeting, text) || !reactionFails then None
    else Some((Fallback(dir, user), ReplyThread(threadTs, ts)))
  }

  /**
   * The `app_mention` handler: the text without its first mention is
   * tested; the user looked up is the event's user, or its `ts` when the
   * event has none.
   */
  function OnMention(dir: Directory, reactionFails: bool, text: string, user: Option<string>,
                     threadTs: ThreadTs, ts: string): (r: Option<(string, string)>)
    ensures r.Some? <==> Patterns.Test(Patterns.Greeting, StripMention(text)) && reactionFails
    ensures r.Some? ==> r.value.1 == ReplyThread(threadTs, ts)
    ensures r.Some? && WellFormed(dir) ==>
              r.value.0 == "Hello <@" + (if user.Some? && user.value != "" then user.value else ts) + ">!!"
  {
    if !Patterns.Test(Patterns.Greeting, StripMention(text)) || !reactionFails then None
    else
      var who := if user.Some? && user.value != "" then user.value else ts;
      Some((Fallback(dir, who), ReplyThread(threadTs, ts)))
  }

  /** A mention followed by a greeting is answered like the greeting sent on its own. */
  lemma {:induction false} MentionLikeMessage(dir: Directory, reactionFails: bool, id: string, gap: string, greeting: string,
                           user: string, threadTs: ThreadTs, ts: string)
    requires id != [] && forall j :: 0 <= j < |id| ==> id[j] != '>'
    requires AllSpace(gap)
    requires Patterns.Test(Patterns.Greeting, greeting)
    ensures OnMention(dir, reactionFails, "<@" + id + ">" + gap + greeting, Some(user), threadTs, ts)
            == (if user != "" then OnMessage(dir, reactionFails, greeting, user, threadTs, ts)
                else OnMessage(dir, reactionFails, greeting, ts, threadTs, ts))
  {
    GreetingIsTrimmed(greeting);
    StripLeadingMention(id, gap, greeting);
    TrimOfTrimmed(greeting);
  }

  /** A greeting neither starts nor ends with white space. */
  lemma {:induction false} GreetingIsTrimmed(greeting: string)
    requires Patterns.Test(Patterns.Greeting, greeting)
    ensures greeting != [] && !IsSpace(greeting[0]) && IsTrimmed(greeting)
  {
    var l := ToLower(greeting);
    var k :| 0 <= k < |Patterns.GreetingTexts| && Patterns.GreetingTexts[k] == l;
    assert LowerChar(greeting[0]) == l[0];
    assert LowerChar(greeting[|greeting| - 1]) == l[|l| - 1];
  }

  const Registration := PatternRegistry.PatternEntry(Patterns.Greeting, "hello", 10.0)

  /** `patternRegistry.registerPattern(greetingRegex, 'hello', 10)`. */
  method Register(registry: PatternRegistry.PatternRegistryService)
    requires registry.Valid()
    modifies registry
    ensures registry.Valid()
    ensures registry.log == old(registry.log) + [Registration]
  {
    registry.RegisterPattern(Patterns.Greeting, "hello", 10.0);
  }
}
