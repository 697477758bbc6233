/**
 * The Botkit karma handler (lib/plugins/karma.js): a message that ends in
 * two signs changes the karma of the text before them, stored on the
 * team under the user name or the text itself.
 */
module KarmaLegacy {
  import opened Wrappers
  import opened Text
  import opened Slack
  import Karma

  predicate IsSign(c: char) {
    c == '+' || c == '-'
  }

  // ------------------------------------------------------------ the two patterns

  /** `[ >:]*([-+]{2,})$` matches `u` with the separators ending at `m`. */
  predicate SignTailAt(u: string, m: nat) {
    && m + 2 <= |u|
    && (forall j :: 0 <= j < m ==> u[j] == ' ' || u[j] == '>' || u[j] == ':')
    && (forall j :: m <= j < |u| ==> IsSign(u[j]))
  }

  /**
   * `^@?(.+?)(?=[ >:]*([-+]{2,})$)`: an optional `@` ending at `s`, a
   * subject `t[s..k]` of one or more characters on one line, then the
   * look-ahead at `k`.
   */
  predicate SubjectPatternAt(t: string, s: nat, k: nat) {
    && s < k <= |t|
    && (s == 0 || (s == 1 && t[0] == '@'))
    && (forall j :: s <= j < k ==> !IsLineTerminator(t[j]))
    && (exists m :: 0 <= m <= |t| - k && SignTailAt(t[k..], m))
  }

  /** `^:.+?:(?=[ :]*([-+]{2,})$)`: an emoji `t[..a + 1]`, then separators and signs. */
  predicate EmojiPatternAt(t: string, a: nat, m: nat) {
    && 2 <= a < |t| && t[0] == ':' && t[a] == ':'
    && (forall j :: 1 <= j < a ==> !IsLineTerminator(t[j]))
    && SignTailAt(t[a + 1..], m)
    && (forall j :: a + 1 <= j < a + 1 + m ==> t[j] != '>')
  }

  /**
   * What the handler hears: at least one character before two final
   * signs, none of them a line terminator.
   */
  predicate Hears(t: string) {
    && 3 <= |t|
    && IsSign(t[|t| - 1]) && IsSign(t[|t| - 2])
    && NoLineTerminator(t[..|t| - 2])
  }

  /** The subject pattern matches exactly the texts `Hears` accepts. */
  lemma {:induction false} HearsIsSubjectPattern(t: string)
    ensures Hears(t) <==> exists s, k :: SubjectPatternAt(t, s, k)
  {
    if Hears(t) {
      var k := |t| - 2;
      assert SignTailAt(t[k..], 0);
      assert forall j :: 0 <= j < k ==> !IsLineTerminator(t[..k][j]);
      assert SubjectPatternAt(t, 0, k);
    }
    if s: nat, k: nat :| SubjectPatternAt(t, s, k) {
      var m :| SignTailAt(t[k..], m);
      assert IsSign(t[k..][|t| - k - 1]) && IsSign(t[k..][|t| - k - 2]);
      forall j | 0 <= j < |t| - 2
        ensures !IsLineTerminator(t[j])
      {
        if j >= k {
          assert t[j] == t[k..][j - k];
        }
      }
      assert forall j :: 0 <= j < |t| - 2 ==> t[..|t| - 2][j] == t[j];
    }
  }

  /** The emoji pattern adds nothing: every text it matches, the subject pattern matches too. */
  lemma {:induction false} EmojiPatternSubsumed(t: string, a: nat, m: nat)
    requires EmojiPatternAt(t, a, m)
    ensures Hears(t)
  {
    var u := t[a + 1..];
    assert IsSign(u[|u| - 1]) && IsSign(u[|u| - 2]);
    forall j | 0 <= j < |t| - 2
      ensures !IsLineTerminator(t[j])
    {
      if j > a {
        assert t[j] == u[j - a - 1];
      }
    }
    assert forall j :: 0 <= j < |t| - 2 ==> t[..|t| - 2][j] == t[j];
  }

  // ------------------------------------------------------------ the handler

  /** `message.text.slice(0, -2).trim()`. */
  function LegacySubject(t: string): (r: string)
    requires |t| >= 2
    ensures IsTrimmed(r) && |r| <= |t| - 2
  {
    Trim(t[..|t| - 2])
  }

  /** The characters of `[-._a-z0-9]` under the `i` flag. */
  predicate IsIdChar(c: char) {
    c == '-' || c == '.' || c == '_' || 'a' <= c <= 'z' || 'A' <= c <= 'Z' || '0' <= c <= '9'
  }

  function IdCharRunEnd(s: string, i: nat): (k: nat)
    requires i <= |s|
    ensures i <= k <= |s|
    ensures forall j :: i <= j < k ==> IsIdChar(s[j])
    ensures k < |s| ==> !IsIdChar(s[k])
    decreases |s| - i
  {
    if i == |s| || !IsIdChar(s[i]) then i else IdCharRunEnd(s, i + 1)
  }

  /** The id `/^<@([-._a-z0-9]+)>/i` captures at the start of the text. */
  function LeadingUserId(text: string): (r: Option<string>)
    ensures r.Some? ==> r.value != [] && StartsWith(text, "<@" + r.value + ">")
    ensures r.Some? ==> forall j :: 0 <= j < |r.value| ==> IsIdChar(r.value[j])
  {
    if |text| < 2 || text[0] != '<' || text[1] != '@' then None
    else
      var k := IdCharRunEnd(text, 2);
      if k == 2 || k == |text| || text[k] != '>' then None
      else
        assert text[..k + 1] == "<@" + text[2..k] + ">";
        Some(text[2..k])
  }

  lemma {:induction false} IdCharRunEndIs(s: string, i: nat, k: nat)
    requires i <= k <= |s|
    requires forall j :: i <= j < k ==> IsIdChar(s[j])
    requires k < |s| ==> !IsIdChar(s[k])
    ensures IdCharRunEnd(s, i) == k
    decreases k - i
  {
    if i < k {
      IdCharRunEndIs(s, i + 1, k);
    }
  }

  /** A text that opens with `<@id>` names that id, whatever follows it. */
  lemma {:induction false} LeadingUserIdOf(id: string, rest: string)
    requires id != [] && forall j :: 0 <= j < |id| ==> IsIdChar(id[j])
    ensures LeadingUserId("<@" + id + ">" + rest) == Some(id)
  {
    var text := "<@" + id + ">" + rest;
    var k := 2 + |id|;
    assert text[k] == '>';
    assert text[2..k] == id;
    assert forall j :: 2 <= j < k ==> text[j] == id[j - 2];
    IdCharRunEndIs(text, 2, k);
  }

  /**
   * The key karma is stored under: the user's name when the text opens
   * with the id of a user `users.info` knows, otherwise the text itself.
   */
  function KarmaKey(dir: Directory, text: string): (key: string)
    ensures LeadingUserId(text).None? || LeadingUserId(text).value !in dir ==> key == text
    ensures LeadingUserId(text).Some? && LeadingUserId(text).value in dir ==> key == dir[LeadingUserId(text).value].name
  {
    match LeadingUserId(text)
    case Some(id) => if id in dir then dir[id].name else text
    case None => text
  }

  /** How far one message moves a score: `++` anywhere adds one, `--` anywhere takes one away, independently. */
  function Net(t: string): (n: int)
    ensures -1 <= n <= 1
    ensures Contains(t, "++") == Contains(t, "--") ==> n == 0
  {
    (if Contains(t, "++") then 1 else 0) - (if Contains(t, "--") then 1 else 0)
  }

  /** The team's karma after a message moved `key`: initialised to 0 if absent, then moved by `Net`. */
  function Voted(karma: map<string, int>, key: string, t: string): (r: map<string, int>)
    ensures key in r && r[key] == Karma.ScoreOf(karma, key) + Net(t)
    ensures forall k :: k != key ==> (k in r <==> k in karma) && (k in r ==> r[k] == karma[k])
  {
    karma[key := Karma.ScoreOf(karma, key) + Net(t)]
  }

  /**
   * The reply the handler gives and the team's karma after it. A subject
   * over 34 characters is ignored; a sender `users.info` does not know
   * makes the handler fail before anything is stored; a user voting on
   * their own name is told off.
   */
  function HearOutcome(dir: Directory, sender: string, t: string, karma: map<string, int>)
    : (r: (Option<string>, map<string, int>))
    ensures r.0.None? ==> r.1 == karma
    ensures r.0.None? <==> !Hears(t) || |LegacySubject(t)| > 34 || sender !in dir
    ensures r.0.Some? ==>
              var key := KarmaKey(dir, LegacySubject(t));
              if key == dir[sender].name then r == (Some("Nice try @" + key + ", but no..."), karma)
              else
                && r.1 == Voted(karma, key, t)
                && r.0 == Some(key + " has karma of " + IntToString(Karma.ScoreOf(karma, key) + Net(t)))
  {
    if !Hears(t) then (None, karma)
    else
      var text := LegacySubject(t);
      if |text| > 34 then (None, karma)
      else
        var key := KarmaKey(dir, text);
        if sender !in dir then (None, karma)
        else if key == dir[sender].name then (Some("Nice try @" + key + ", but no..."), karma)
        else
          var after := Voted(karma, key, t);
          (Some(key + " has karma of " + IntToString(after[key])), after)
  }

  /** A message changes at most one score, by at most one, and removes nothing. */
  lemma {:induction false} HearMovesOneKey(dir: Directory, sender: string, t: string, karma: map<string, int>)
    ensures var after := HearOutcome(dir, sender, t, karma).1;
            after == karma || exists key :: after == Voted(karma, key, t)
  {
  }

  /** The handler's guards: nothing changes for a long subject, an unknown sender or the sender's own name. */
  lemma {:induction false} HearGuards(dir: Directory, sender: string, t: string, karma: map<string, int>)
    requires Hears(t)
    ensures |LegacySubject(t)| > 34 ==> HearOutcome(dir, sender, t, karma) == (None, karma)
    ensures sender !in dir ==> HearOutcome(dir, sender, t, karma) == (None, karma)
    ensures sender in dir && KarmaKey(dir, LegacySubject(t)) == dir[sender].name
            ==> HearOutcome(dir, sender, t, karma).1 == karma
  {
  }

  lemma {:induction false} ContainsSuffix(s: string, part: string)
    ensures Contains(s + part, part)
  {
    assert OccursAt(s + part, part, |s|);
  }

  lemma {:induction false} NoSignNoPair(s: string, c: char)
    requires forall j :: 0 <= j < |s| ==> s[j] != c
    ensures !Contains(s, [c, c])
  {
    forall i | OccursAt(s, [c, c], i)
      ensures s[i] == c
    {
      assert s[i..i + 2][0] == s[i];
    }
  }

  /** The text `subject` followed by a pair of one sign, as the handler sees it. */
  lemma {:induction false} PlainVoteText(subject: string, up: bool)
    requires subject != [] && IsTrimmed(subject) && NoLineTerminator(subject)
    requires forall j :: 0 <= j < |subject| ==> subject[j] != '+' && subject[j] != '-'
    ensures var t := subject + (if up then "++" else "--");
            && Hears(t) && LegacySubject(t) == subject
            && Net(t) == (if up then 1 else -1)
  {
    PlainVoteHeard(subject, if up then "++" else "--");
    PlainVoteNet(subject, up);
  }

  lemma {:induction false} PlainVoteHeard(subject: string, pair: string)
    requires subject != [] && IsTrimmed(subject) && NoLineTerminator(subject)
    requires pair == "++" || pair == "--"
    ensures Hears(subject + pair) && LegacySubject(subject + pair) == subject
  {
    var t := subject + pair;
    assert t[..|t| - 2] == subject;
    TrimOfTrimmed(subject);
    assert t[|t| - 1] == pair[1] && t[|t| - 2] == pair[0];
  }

  lemma {:induction false} PlainVoteNet(subject: string, up: bool)
    requires forall j :: 0 <= j < |subject| ==> subject[j] != '+' && subject[j] != '-'
    ensures Net(subject + (if up then "++" else "--")) == (if up then 1 else -1)
  {
    var pair := if up then "++" else "--";
    var t := subject + pair;
    ContainsSuffix(subject, pair);
    var other := if up then '-' else '+';
    forall j | 0 <= j < |t|
      ensures t[j] != other
    {
      if j >= |subject| {
        assert t[j] == pair[j - |subject|];
      }
    }
    NoSignNoPair(t, other);
  }

  /**
   * `cats++` adds one to `cats` and `tacos--` takes one from `tacos`, for
   * a sender who is not the subject.
   */
  lemma {:induction false} PlainVote(dir: Directory, sender: string, subject: string, up: bool, karma: map<string, int>)
    requires subject != [] && IsTrimmed(subject) && NoLineTerminator(subject) && |subject| <= 34
    requires forall j :: 0 <= j < |subject| ==> subject[j] != '+' && subject[j] != '-'
    requires LeadingUserId(subject).None?
    requires sender in dir && dir[sender].name != subject
    ensures var t := subject + (if up then "++" else "--");
            var after := HearOutcome(dir, sender, t, karma).1;
            && subject in after
            && after[subject] == Karma.ScoreOf(karma, subject) + (if up then 1 else -1)
  {
    PlainVoteText(subject, up);
  }

  /** A message carrying both `++` and `--`, such as `x++--`, leaves the score where it was but creates the key. */
  lemma {:induction false} MixedVoteNetsZero(dir: Directory, sender: string, t: string, karma: map<string, int>)
    requires Contains(t, "++") && Contains(t, "--")
    requires HearOutcome(dir, sender, t, karma).0.Some?
    requires sender in dir && KarmaKey(dir, LegacySubject(t)) != dir[sender].name
    ensures var key := KarmaKey(dir, LegacySubject(t));
            var after := HearOutcome(dir, sender, t, karma).1;
            key in after && after[key] == Karma.ScoreOf(karma, key)
  {
  }

  // ------------------------------------------------------------ the team store

  /** One team's record in Botkit storage, `team.karma`. */
  class LegacyKarmaStore {
    var karma: map<string, int>

    constructor ()
      ensures karma == map[]
    {
      karma := map[];
    }

    /** The score update of the handler: from 0 when absent, up for "++", down for "--". */
    method Vote(text: string, t: string) returns (score: int)
      modifies this
      ensures karma == Voted(old(karma), text, t)
      ensures score == karma[text]
    {
      score := if text in karma then karma[text] else 0;
      if Contains(t, "++") {
        score := score + 1;
      }
      if Contains(t, "--") {
        score := score - 1;
      }
      karma := karma[text := score];
    }

    /** The `controller.hears` handler for the two karma patterns. */
    method OnHear(dir: Directory, sender: string, t: string) returns (reply: Option<string>)
      modifies this
      ensures (reply, karma) == HearOutcome(dir, sender, t, old(karma))
    {
      if !Hears(t) {
        return None;
      }
      var text := LegacySubject(t);
      if |text| > 34 {
        return None;
      }
      var id := LeadingUserId(text);
      if id.Some? && id.value in dir {
        text := dir[id.value].name;
      }
      assert text == KarmaKey(dir, LegacySubject(t));
      if sender !in dir {
        return None;
      }
      if text == dir[sender].name {
        return Some("Nice try @" + text + ", but no...");
      }
      var score := Vote(text, t);
      reply := Some(text + " has karma of " + IntToString(score));
    }
  }
}
