/**
 * The botsnack plugin (src/plugins/botsnack.ts): "botsnack", alone and in
 * any case, is thanked with one of ten fixed messages picked at random.
 */
module Botsnack {
  import opened Wrappers
  import opened Text
  import opened Slack
  import Patterns
  import PatternRegistry

  const ThankYouMessages: seq<string> := [
    "Thank you! :cookie:",
    "Om nom nom nom :yum:",
    "Delicious! :hamburger:",
    "Yummy! :cake:",
    "How thoughtful of you! :candy:",
    "*happy bot noises* :robot_face:",
    "I appreciate the snack! :pizza:",
    "Tasty! :taco:",
    "Mmmmm :doughnut:",
    "You're the best! :ice_cream:"]

  /**
   * `Math.floor(Math.random() * thankYouMessages.length)`, given the value
   * `Math.random()` returned, which lies in [0, 1).
   */
  function RandomIndex(random: real): (i: int)
    requires 0.0 <= random < 1.0
    ensures 0 <= i < |ThankYouMessages|
  {
    var scaled := random * |ThankYouMessages| as real;
    assert 0.0 <= scaled < 10.0;
    scaled.Floor
  }

  /** Every message can be picked: index `i` is the pick for `random = i / 10`. */
  lemma {:induction false} EveryMessageReachable(i: nat)
    requires i < |ThankYouMessages|
    ensures 0.0 <= i as real / 10.0 < 1.0
    ensures RandomIndex(i as real / 10.0) == i
  {
    assert (i as real / 10.0) * 10.0 == i as real;
  }

  /** `getRandomMessage()`. */
  function RandomMessage(random: real): (m: string)
    requires 0.0 <= random < 1.0
    ensures m in ThankYouMessages
  {
    ThankYouMessages[RandomIndex(random)]
  }

  /** The message handler, for a message `snackRegex` routed to it: the reply and its thread. */
  function OnMessage(random: real, text: string, threadTs: ThreadTs, ts: string): (r: Option<(string, string)>)
    requires 0.0 <= random < 1.0
    ensures r.Some? <==> Patterns.Test(Patterns.Botsnack, text)
    ensures r.Some? ==> r.value.0 in ThankYouMessages && r.value.1 == ReplyThread(threadTs, ts)
  {
    if Patterns.Test(Patterns.Botsnack, text) then Some((RandomMessage(random), ReplyThread(threadTs, ts)))
    else None
  }

  /** The `app_mention` handler: the text without its first mention is tested. */
  function OnMention(random: real, text: string, threadTs: ThreadTs, ts: string): (r: Option<(string, string)>)
    requires 0.0 <= random < 1.0
    ensures r.Some? <==> Patterns.Test(Patterns.Botsnack, StripMention(text))
    ensures r.Some? ==> r.value.0 in ThankYouMessages && r.value.1 == ReplyThread(threadTs, ts)
  {
    OnMessage(random, StripMention(text), threadTs, ts)
  }

  /** "botsnack" in any case after a mention of the bot is answered. */
  lemma {:induction false} MentionedSnack(random: real, id: string, gap: string, snack: string, threadTs: ThreadTs, ts: string)
    requires 0.0 <= random < 1.0
    requires id != [] && forall j :: 0 <= j < |id| ==> id[j] != '>'
    requires AllSpace(gap)
    requires ToLower(snack) == "botsnack"
    ensures OnMention(random, "<@" + id + ">" + gap + snack, threadTs, ts)
            == Some((ThankYouMessages[RandomIndex(random)], ReplyThread(threadTs, ts)))
  {
    assert LowerChar(snack[0]) == 'b' && LowerChar(snack[7]) == 'k';
    StripLeadingMention(id, gap, snack);
    TrimOfTrimmed(snack);
  }

  const Registration := PatternRegistry.PatternEntry(Patterns.Botsnack, "botsnack", 10.0)

  /** `patternRegistry.registerPattern(snackRegex, 'botsnack', 10)`. */
  method Register(registry: PatternRegistry.PatternRegistryService)
    requires registry.Valid()
    modifies registry
    ensures registry.Valid()
    ensures registry.log == old(registry.log) + [Registration]
  {
    registry.RegisterPattern(Patterns.Botsnack, "botsnack", 10.0);
  }
}
