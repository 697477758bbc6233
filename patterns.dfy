/**
 * The regular expressions the plugins hand to the pattern registry,
 * written out as predicates on the message text.
 *
 * Every pattern with the `i` flag consists of ASCII letters and symbols.
 * In a regex without the `u` flag the `i` flag canonicalises both sides
 * with `toUpperCase`, but never maps a character at or above U+0080 onto
 * an ASCII one, so comparing after ASCII lower-casing is exact here.
 * A regex `.` matches any character except a line terminator.
 */
module Patterns {
  import opened Text

  datatype Pattern =
    | KarmaCommand     // /^karma\s+.+$/i
    | KarmaBare        // /^karma$/i
    | UptimeQuestion   // ^(uptime|identify yourself|who are you|what is your name)$ with i
    | Greeting         // (^hello\!?$|^hey\!?$|^hi\!?$|^:wave:$) with i
    | Botsnack         // /^botsnack$/i
    | FactoidList      // /^!factoid:\s*list$/i
    | FactoidForget    // /^forget\s+(.+)$/i
    | YesNo            // /^(YES|NO)$/i
    | EndsWithMark     // /^.+[!?]$/

  /** The phrases the uptime plugin answers to. */
  const UptimePhrases: seq<string> := ["uptime", "identify yourself", "who are you", "what is your name"]

  /** The whole texts the greeting regex accepts, lower-cased. */
  const GreetingTexts: seq<string> := ["hello", "hello!", "hey", "hey!", "hi", "hi!", ":wave:"]

  /** True when no character from `i` on is a line terminator. */
  function DotsFrom(s: string, i: nat): (b: bool)
    requires i <= |s|
    ensures b <==> forall k :: i <= k < |s| ==> !IsLineTerminator(s[k])
    decreases |s| - i
  {
    i == |s| || (!IsLineTerminator(s[i]) && DotsFrom(s, i + 1))
  }

  /** `s` starts with the lower-case word `w`, in any case. */
  predicate StartsWithWord(s: string, w: string) {
    |w| <= |s| && ToLower(s[..|w|]) == w
  }

  /**
   * `\s+.+$` matches `s[i..]`: the longest run of white space is taken
   * first, and gives one character back when nothing else follows it.
   */
  predicate SpacesThenText(s: string, i: nat)
    requires i <= |s|
  {
    var e := SpaceRunEnd(s, i);
    && e > i
    && if e < |s| then DotsFrom(s, e) else e - i >= 2 && !IsLineTerminator(s[|s| - 1])
  }

  /** One way of matching `\s+.+$` on `s[i..]`: spaces up to `j`, then `.+`. */
  predicate SpacesThenTextSplit(s: string, i: nat, j: nat) {
    && i < j < |s|
    && (forall k :: i <= k < j ==> IsSpace(s[k]))
    && DotsFrom(s, j)
  }

  /** `SpacesThenText` holds exactly when some split matches `\s+.+$`. */
  lemma {:induction false} SpacesThenTextMeaning(s: string, i: nat)
    requires i <= |s|
    ensures SpacesThenText(s, i) <==> exists j :: SpacesThenTextSplit(s, i, j)
  {
    var e := SpaceRunEnd(s, i);
    if SpacesThenText(s, i) {
      if e < |s| {
        assert SpacesThenTextSplit(s, i, e);
      } else {
        assert SpacesThenTextSplit(s, i, |s| - 1);
      }
    }
    if j :| SpacesThenTextSplit(s, i, j) {
      assert e >= j;
    }
  }

  /** Whether pattern `p` matches the whole text `t` (its `test` method). */
  function Test(p: Pattern, t: string): bool {
    match p
    case KarmaCommand => StartsWithWord(t, "karma") && SpacesThenText(t, 5)
    case KarmaBare => ToLower(t) == "karma"
    case UptimeQuestion => ToLower(t) in UptimePhrases
    case Greeting => ToLower(t) in GreetingTexts
    case Botsnack => ToLower(t) == "botsnack"
    case FactoidList =>
      StartsWithWord(t, "!factoid:") && ToLower(t[SpaceRunEnd(t, 9)..]) == "list"
    case FactoidForget => StartsWithWord(t, "forget") && SpacesThenText(t, 6)
    case YesNo => ToLower(t) == "yes" || ToLower(t) == "no"
    case EndsWithMark =>
      2 <= |t| && (t[|t| - 1] == '!' || t[|t| - 1] == '?') && DotsFrom(t, 0)
  }

  /** The patterns registered with the `i` flag. */
  predicate IgnoresCase(p: Pattern) {
    p != EndsWithMark
  }

  lemma {:induction false} ToLowerIdempotent(s: string)
    ensures ToLower(ToLower(s)) == ToLower(s)
  {
  }

  lemma {:induction false} ToLowerPrefix(s: string, n: nat)
    requires n <= |s|
    ensures ToLower(s)[..n] == ToLower(s[..n])
    ensures ToLower(s)[n..] == ToLower(s[n..])
  {
  }

  lemma {:induction false} SpaceRunEndOfLower(s: string, i: nat)
    requires i <= |s|
    ensures SpaceRunEnd(ToLower(s), i) == SpaceRunEnd(s, i)
    decreases |s| - i
  {
    if i < |s| {
      assert IsSpace(ToLower(s)[i]) == IsSpace(s[i]);
      SpaceRunEndOfLower(s, i + 1);
    }
  }

  /** Whether a text starts with a word does not depend on the case of its letters. */
  lemma {:induction false} StartsWithWordOfLower(t: string, w: string)
    ensures StartsWithWord(ToLower(t), w) == StartsWithWord(t, w)
  {
    if |w| <= |t| {
      ToLowerPrefix(t, |w|);
      ToLowerIdempotent(t[..|w|]);
    }
  }

  /** Lower-casing changes no line terminator. */
  lemma {:induction false} DotsFromOfLower(t: string, i: nat)
    requires i <= |t|
    ensures DotsFrom(ToLower(t), i) == DotsFrom(t, i)
  {
    var l := ToLower(t);
    assert forall k :: i <= k < |t| ==> (IsLineTerminator(l[k]) <==> IsLineTerminator(t[k]));
  }

  /** Whether `\s+.+$` matches from `i` does not depend on the case of letters. */
  lemma {:induction false} SpacesThenTextOfLower(t: string, i: nat)
    requires i <= |t|
    ensures SpacesThenText(ToLower(t), i) == SpacesThenText(t, i)
  {
    SpaceRunEndOfLower(t, i);
    DotsFromOfLower(t, SpaceRunEnd(t, i));
    if |t| > 0 {
      assert IsLineTerminator(ToLower(t)[|t| - 1]) == IsLineTerminator(t[|t| - 1]);
    }
  }

  /** `!factoid:` then spaces then `list`, in any case. */
  lemma {:induction false} FactoidListOfLower(t: string)
    ensures Test(FactoidList, ToLower(t)) == Test(FactoidList, t)
  {
    StartsWithWordOfLower(t, "!factoid:");
    if |t| >= 9 {
      SpaceRunEndOfLower(t, 9);
      var e := SpaceRunEnd(t, 9);
      ToLowerPrefix(t, e);
      ToLowerIdempotent(t[e..]);
    }
  }

  /**
   * The `i` flag: a pattern registered with it gives the same answer for a
   * text and for its lower-cased form.
   */
  lemma {:induction false} TestIgnoresCase(p: Pattern, t: string)
    requires IgnoresCase(p)
    ensures Test(p, ToLower(t)) == Test(p, t)
  {
    ToLowerIdempotent(t);
    match p
    case KarmaCommand =>
      StartsWithWordOfLower(t, "karma");
      if |t| >= 5 {
        SpacesThenTextOfLower(t, 5);
      }
    case FactoidForget =>
      StartsWithWordOfLower(t, "forget");
      if |t| >= 6 {
        SpacesThenTextOfLower(t, 6);
      }
    case FactoidList =>
      FactoidListOfLower(t);
    case _ =>
  }

  /** The bare and the argument forms of the karma command never both match. */
  lemma {:induction false} KarmaPatternsDisjoint(t: string)
    ensures !(Test(KarmaBare, t) && Test(KarmaCommand, t))
  {
    if Test(KarmaCommand, t) {
      assert |ToLower(t)| > 5;
    }
  }

  /** Examples of the greeting test: a listed text in any case matches, anything longer does not. */
  lemma {:induction false} GreetingExamples()
    ensures Test(Greeting, "Hello!") && Test(Greeting, "HI") && Test(Greeting, ":wave:")
    ensures !Test(Greeting, "hello there") && !Test(Greeting, "hey!!")
  {
    assert ToLower("Hello!") == GreetingTexts[1];
    assert ToLower("HI") == GreetingTexts[4];
    assert ToLower(":wave:") == GreetingTexts[6];
    assert ToLower("hey!!") == "hey!!";
    assert "hey!!"[2] != GreetingTexts[0][2];
  }
}
