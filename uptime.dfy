/**
 * The uptime plugin (src/plugins/uptime.ts, with its JavaScript
 * predecessors plugins/uptime.js and lib/plugins/uptime.js, whose
 * `formatUptime` is the same code): the bot's running time broken into
 * days, hours, minutes and seconds, and the four phrases that ask for it.
 */
module Uptime {
  import opened Wrappers
  import opened Text
  import opened Slack
  import Patterns
  import PatternRegistry

  /** The four units, largest first. */
  const UnitNames: seq<string> := ["day", "hour", "minute", "second"]

  /** `${value} ${value === 1 ? unit : unit + 's'}`. */
  function UnitPhrase(value: nat, unit: string): (r: string)
    ensures StartsWith(r, NatToString(value) + " " + unit)
  {
    NatToString(value) + " " + (if value == 1 then unit else unit + "s")
  }

  /** The singular is used exactly for the value 1. */
  lemma {:induction false} UnitPhraseSingular(value: nat, unit: string)
    ensures UnitPhrase(value, unit) == NatToString(value) + " " + unit <==> value == 1
    ensures value != 1 ==> UnitPhrase(value, unit) == NatToString(value) + " " + unit + "s"
  {
    if value != 1 {
      assert |UnitPhrase(value, unit)| == |NatToString(value) + " " + unit| + 1;
    }
  }

  /**
   * The values of the four units for `n` whole seconds, obtained by the
   * same steps as the code: the remainder by 60, then by 60 again, then by
   * 24, dividing each time; the days are what is left.
   */
  function Values(n: nat): (v: seq<nat>)
    ensures |v| == 4
  {
    [n / 60 / 60 / 24, n / 60 / 60 % 24, n / 60 % 60, n % 60]
  }

  /** The values are a proper mixed-radix decomposition of `n`. */
  lemma {:induction false} ValuesRecombine(n: nat)
    ensures var v := Values(n);
            && v[1] < 24 && v[2] < 60 && v[3] < 60
            && v[0] * 86400 + v[1] * 3600 + v[2] * 60 + v[3] == n
  {
    var m := n / 60;
    var h := m / 60;
    assert n == 60 * m + n % 60;
    assert m == 60 * h + m % 60;
    assert h == 24 * (h / 24) + h % 24;
  }

  /** The position of the first non-zero value, or `|vals|` when all are zero. */
  function FirstShown(vals: seq<nat>): (f: nat)
    ensures f <= |vals|
    ensures forall j :: 0 <= j < f ==> vals[j] == 0
    ensures f < |vals| ==> vals[f] != 0
  {
    if vals == [] then 0
    else if vals[0] != 0 then 0
    else 1 + FirstShown(vals[1..])
  }

  /**
   * The parts `formatUptime` joins: every unit from the largest non-zero
   * one down to the seconds, zeros included once a larger unit is shown.
   */
  function UptimeParts(n: nat): (parts: seq<string>)
    ensures |parts| <= 4
  {
    var v := Values(n);
    var f := FirstShown(v);
    seq(4 - f, j requires 0 <= j < 4 - f => UnitPhrase(v[f + j], UnitNames[f + j]))
  }

  /** The parts, case by case on which unit is the first non-zero one. */
  lemma {:induction false} UptimePartsCases(n: nat)
    ensures var v := Values(n);
            && (v[0] != 0 ==> UptimeParts(n) == [UnitPhrase(v[0], "day"), UnitPhrase(v[1], "hour"),
                                                UnitPhrase(v[2], "minute"), UnitPhrase(v[3], "second")])
            && (v[0] == 0 && v[1] != 0 ==> UptimeParts(n) == [UnitPhrase(v[1], "hour"),
                                                UnitPhrase(v[2], "minute"), UnitPhrase(v[3], "second")])
            && (v[0] == 0 && v[1] == 0 && v[2] != 0 ==>
                  UptimeParts(n) == [UnitPhrase(v[2], "minute"), UnitPhrase(v[3], "second")])
            && (v[0] == 0 && v[1] == 0 && v[2] == 0 && v[3] != 0 ==>
                  UptimeParts(n) == [UnitPhrase(v[3], "second")])
            && (v[0] == 0 && v[1] == 0 && v[2] == 0 && v[3] == 0 ==> UptimeParts(n) == [])
  {
    var v := Values(n);
    var f := FirstShown(v);
    assert v[0] != 0 ==> f == 0;
    assert v[0] == 0 && v[1] != 0 ==> f == 1;
    assert v[0] == 0 && v[1] == 0 && v[2] != 0 ==> f == 2;
    assert v[0] == 0 && v[1] == 0 && v[2] == 0 && v[3] != 0 ==> f == 3;
    assert v[0] == 0 && v[1] == 0 && v[2] == 0 && v[3] == 0 ==> f == 4;
  }

  /** Nothing is shown for zero seconds, and the seconds always close a non-empty list. */
  lemma {:induction false} UptimePartsShape(n: nat)
    ensures UptimeParts(n) == [] <==> n == 0
    ensures n > 0 ==> UptimeParts(n)[|UptimeParts(n)| - 1] == UnitPhrase(n % 60, "second")
  {
    ValuesRecombine(n);
  }

  /**
   * `formatUptime`: floors the number of seconds, peels off the units and
   * pushes one phrase for each unit from the first non-zero one on.
   */
  method FormatUptime(uptime: real) returns (r: string)
    requires uptime >= 0.0
    ensures r == Join(UptimeParts(uptime.Floor), ", ")
  {
    var result: seq<string> := [];
    var remaining: nat := uptime.Floor;
    ghost var n := remaining;

    var seconds := remaining % 60;
    remaining := remaining / 60;

    var minutes := remaining % 60;
    remaining := remaining / 60;

    var hours := remaining % 24;
    remaining := remaining / 24;

    var days := remaining;
    assert Values(n) == [days, hours, minutes, seconds];
    UptimePartsCases(n);

    if days != 0 {
      result := result + [UnitPhrase(days, "day")];
    }
    if days != 0 || hours != 0 {
      result := result + [UnitPhrase(hours, "hour")];
    }
    if days != 0 || hours != 0 || minutes != 0 {
      result := result + [UnitPhrase(minutes, "minute")];
    }
    if days != 0 || hours != 0 || minutes != 0 || seconds != 0 {
      result := result + [UnitPhrase(seconds, "second")];
    }
    assert result == UptimeParts(n);
    r := Join(result, ", ");
  }

  /** An example of `UptimePartsShape`: one day shows every smaller unit, at zero. */
  lemma {:induction false} OneDay()
    ensures UptimeParts(86400) == ["1 day", "0 hours", "0 minutes", "0 seconds"]
  {
    assert Values(86400) == [1, 0, 0, 0];
    UptimePartsCases(86400);
    assert NatToString(1) == "1" && NatToString(0) == "0";
    assert UnitPhrase(1, "day") == "1 day";
    assert UnitPhrase(0, "hour") == "0 hours";
    assert UnitPhrase(0, "minute") == "0 minutes";
    assert UnitPhrase(0, "second") == "0 seconds";
  }

  /** An example of `UptimePartsShape`: sixty-one seconds start at the minutes. */
  lemma {:induction false} SixtyOneSeconds()
    ensures UptimeParts(61) == ["1 minute", "1 second"]
  {
    assert Values(61) == [0, 0, 1, 1];
    UptimePartsCases(61);
    assert NatToString(1) == "1";
    assert UnitPhrase(1, "minute") == "1 minute";
    assert UnitPhrase(1, "second") == "1 second";
  }

  // ------------------------------------------------------------ asking for it

  /** The reply, given the bot's id (`auth.test`), the formatted uptime and the host name. */
  function UptimeReply(botId: string, uptime: string, hostname: string): (r: string)
    ensures StartsWith(r, ":robot_face: I am a bot named <@" + botId + ">")
  {
    ":robot_face: I am a bot named <@" + botId + ">. I have been running for " + uptime + " on " + hostname + "."
  }

  /** The `app_mention` handler's test: the text without its mention equals one of the phrases, ignoring case. */
  predicate MentionAsksUptime(text: string) {
    exists j :: 0 <= j < |UptimePhrases()| && ToLower(StripMention(text)) == ToLower(UptimePhrases()[j])
  }

  function UptimePhrases(): seq<string> {
    Patterns.UptimePhrases
  }

  /** The mention path answers exactly the texts whose stripped form the registered regex accepts. */
  lemma {:induction false} MentionMatchesRegex(text: string)
    ensures MentionAsksUptime(text) <==> Patterns.Test(Patterns.UptimeQuestion, StripMention(text))
  {
    PhraseTest(StripMention(text));
  }

  /** Comparing with each phrase, case ignored, is the registered regex. */
  lemma {:induction false} PhraseTest(s: string)
    ensures (exists j :: 0 <= j < |UptimePhrases()| && ToLower(s) == ToLower(UptimePhrases()[j]))
            <==> Patterns.Test(Patterns.UptimeQuestion, s)
  {
    var l := ToLower(s);
    PhrasesLower();
    if l in Patterns.UptimePhrases {
      var j :| 0 <= j < 4 && Patterns.UptimePhrases[j] == l;
      assert ToLower(s) == ToLower(UptimePhrases()[j]);
    }
  }

  /** The phrases are already lower-case. */
  lemma {:induction false} PhrasesLower()
    ensures forall j :: 0 <= j < 4 ==> ToLower(Patterns.UptimePhrases[j]) == Patterns.UptimePhrases[j]
  {
    forall j | 0 <= j < 4
      ensures ToLower(Patterns.UptimePhrases[j]) == Patterns.UptimePhrases[j]
    {
      LowerPhrase(Patterns.UptimePhrases[j]);
    }
  }

  /** A text with no upper-case letter is its own lower-cased form. */
  lemma {:induction false} LowerPhrase(s: string)
    requires forall i :: 0 <= i < |s| ==> !('A' <= s[i] <= 'Z')
    ensures ToLower(s) == s
  {
  }

  /** The registry entry of the TypeScript plugin. */
  const Registration := PatternRegistry.PatternEntry(Patterns.UptimeQuestion, "uptime", 10.0)

  /** `patternRegistry.registerPattern(patternRegex, 'uptime', 10)`. */
  method Register(registry: PatternRegistry.PatternRegistryService)
    requires registry.Valid()
    modifies registry
    ensures registry.Valid()
    ensures registry.log == old(registry.log) + [Registration]
  {
    registry.RegisterPattern(Patterns.UptimeQuestion, "uptime", 10.0);
  }
}
