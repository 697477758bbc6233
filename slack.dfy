/**
 * What the plugins need from Slack, as values: the users `users.info`
 * can return, the two searches for a mention token in a message, and the
 * choice of thread a reply goes to.
 */
module Slack {
  import opened Wrappers
  import opened Text

  /**
   * A Slack user as `users.info` returns it. A field Slack leaves out is
   * modelled as "", which the plugins' `||` defaults treat the same way.
   */
  datatype User = User(
    id: string,
    name: string,
    realName: string,
    profileRealName: string,
    displayName: string)

  /** The users `users.info` knows, by id; looking up any other id fails. */
  type Directory = map<string, User>

  /** Every user is filed under their own id. */
  ghost predicate WellFormed(dir: Directory) {
    forall id :: id in dir ==> dir[id].id == id
  }

  predicate IsUpperAlnum(c: char) {
    'A' <= c <= 'Z' || '0' <= c <= '9'
  }

  /** The end of the run of `[A-Z0-9]` characters that starts at `i`. */
  function UpperAlnumRunEnd(s: string, i: nat): (k: nat)
    requires i <= |s|
    ensures i <= k <= |s|
    ensures forall j :: i <= j < k ==> IsUpperAlnum(s[j])
    ensures k < |s| ==> !IsUpperAlnum(s[k])
    decreases |s| - i
  {
    if i == |s| || !IsUpperAlnum(s[i]) then i else UpperAlnumRunEnd(s, i + 1)
  }

  /**
   * The regex `<@([UW][A-Z0-9]+)>` matches at position `i`. The `>` must
   * follow the whole run of `[A-Z0-9]`, since `>` is not in that class.
   */
  predicate UserIdMentionAt(s: string, i: nat) {
    && i + 4 < |s|
    && s[i] == '<' && s[i + 1] == '@' && (s[i + 2] == 'U' || s[i + 2] == 'W')
    && var k := UpperAlnumRunEnd(s, i + 3);
       k > i + 3 && k < |s| && s[k] == '>'
  }

  /** The leftmost position at or after `from` where `UserIdMentionAt` holds. */
  function FirstUserIdMention(s: string, from: nat): (r: Option<nat>)
    requires from <= |s|
    ensures r.Some? ==> from <= r.value < |s| && UserIdMentionAt(s, r.value)
    ensures r.Some? ==> forall j :: from <= j < r.value ==> !UserIdMentionAt(s, j)
    ensures r.None? ==> forall j :: from <= j < |s| ==> !UserIdMentionAt(s, j)
    decreases |s| - from
  {
    if from == |s| then None
    else if UserIdMentionAt(s, from) then Some(from)
    else FirstUserIdMention(s, from + 1)
  }

  /**
   * The user id captured by the first match of `<@([UW][A-Z0-9]+)>`
   * anywhere in `s`, as `text.match(...)[1]` gives it.
   */
  function MentionedUserId(s: string): (r: Option<string>)
    ensures r.Some? ==> 2 <= |r.value| && (r.value[0] == 'U' || r.value[0] == 'W')
    ensures r.Some? ==> forall j :: 0 <= j < |r.value| ==> IsUpperAlnum(r.value[j])
    ensures r.None? <==> forall j :: 0 <= j < |s| ==> !UserIdMentionAt(s, j)
  {
    match FirstUserIdMention(s, 0)
    case None => None
    case Some(i) => Some(s[i + 2..UpperAlnumRunEnd(s, i + 3)])
  }

  /** A text that is exactly one `<@id>` token names that id. */
  lemma {:induction false} MentionedUserIdOfToken(id: string)
    requires 2 <= |id| && (id[0] == 'U' || id[0] == 'W')
    requires forall j :: 0 <= j < |id| ==> IsUpperAlnum(id[j])
    ensures MentionedUserId("<@" + id + ">") == Some(id)
  {
    var s := "<@" + id + ">";
    var k := UpperAlnumRunEnd(s, 3);
    assert s[|s| - 1] == '>';
    assert forall j :: 3 <= j < |s| - 1 ==> s[j] == id[j - 2];
    assert k == |s| - 1;
    assert UserIdMentionAt(s, 0);
    assert s[2..k] == id;
  }

  /**
   * `getUser` of the current plugins: the user named by the first
   * `<@U…>`/`<@W…>` token in the text, or nothing when there is no token
   * or `users.info` fails for it.
   */
  function UserOfText(dir: Directory, text: string): (r: Option<User>)
    ensures r.Some? ==> MentionedUserId(text).Some? && MentionedUserId(text).value in dir
    ensures r.Some? ==> r.value == dir[MentionedUserId(text).value]
    ensures MentionedUserId(text).Some? && MentionedUserId(text).value in dir ==> r.Some?
  {
    match MentionedUserId(text)
    case None => None
    case Some(id) => if id in dir then Some(dir[id]) else None
  }

  /** The first index at or after `i` holding `c`, or `|s|` when there is none. */
  function IndexOfFrom(s: string, c: char, i: nat): (k: nat)
    requires i <= |s|
    ensures i <= k <= |s|
    ensures k < |s| ==> s[k] == c
    ensures forall j :: i <= j < k ==> s[j] != c
    decreases |s| - i
  {
    if i == |s| || s[i] == c then i else IndexOfFrom(s, c, i + 1)
  }

  /** The regex `<@[^>]+>` matches at position `i`. */
  predicate AnyMentionAt(s: string, i: nat) {
    && i + 3 < |s|
    && s[i] == '<' && s[i + 1] == '@' && s[i + 2] != '>'
    && IndexOfFrom(s, '>', i + 2) < |s|
  }

  function FirstAnyMention(s: string, from: nat): (r: Option<nat>)
    requires from <= |s|
    ensures r.Some? ==> from <= r.value < |s| && AnyMentionAt(s, r.value)
    ensures r.Some? ==> forall j :: from <= j < r.value ==> !AnyMentionAt(s, j)
    ensures r.None? ==> forall j :: from <= j < |s| ==> !AnyMentionAt(s, j)
    decreases |s| - from
  {
    if from == |s| then None
    else if AnyMentionAt(s, from) then Some(from)
    else FirstAnyMention(s, from + 1)
  }

  /**
   * `text.replace(/<@[^>]+>\s*\/, '').trim()`: the first mention token and
   * the white space after it are cut out, and the rest is trimmed.
   */
  function StripMention(text: string): (r: string)
    ensures IsTrimmed(r) && |r| <= |text|
    ensures FirstAnyMention(text, 0).None? ==> r == Trim(text)
  {
    match FirstAnyMention(text, 0)
    case None => Trim(text)
    case Some(i) =>
      var k := SpaceRunEnd(text, IndexOfFrom(text, '>', i + 2) + 1);
      Trim(text[..i] + text[k..])
  }

  lemma {:induction false} IndexOfFromIs(s: string, c: char, i: nat, k: nat)
    requires i <= k < |s| && s[k] == c
    requires forall j :: i <= j < k ==> s[j] != c
    ensures IndexOfFrom(s, c, i) == k
    decreases k - i
  {
    if i < k {
      IndexOfFromIs(s, c, i + 1, k);
    }
  }

  /**
   * A message that starts with a mention of the bot, as an `app_mention`
   * event does, is reduced to what follows the mention, trimmed.
   */
  lemma {:induction false} StripLeadingMention(id: string, gap: string, rest: string)
    requires id != [] && forall j :: 0 <= j < |id| ==> id[j] != '>'
    requires AllSpace(gap)
    requires rest == [] || !IsSpace(rest[0])
    ensures StripMention("<@" + id + ">" + gap + rest) == Trim(rest)
  {
    var s := "<@" + id + ">" + gap + rest;
    var e := 3 + |id|;
    assert s[2 + |id|] == '>';
    IndexOfFromIs(s, '>', 2, 2 + |id|);
    assert AnyMentionAt(s, 0);
    assert FirstAnyMention(s, 0) == Some(0);
    assert s[e..e + |gap|] == gap;
    assert s[e + |gap|..] == rest;
    SpaceRunEndIs(s, e, e + |gap|);
    assert s[..0] + s[e + |gap|..] == rest;
  }

  /**
   * The two generations of Bolt plugins: the TypeScript ones under
   * src/plugins and the JavaScript ones under plugins, which share most
   * of their logic.
   */
  datatype Generation = TypeScript | JavaScript

  /** A thread id as a message carries it: absent, or a timestamp string. */
  type ThreadTs = Option<string>

  /**
   * `msg.thread_ts || msg.ts`: replies stay in the message's thread, and
   * a message outside any thread starts one under itself.
   */
  function ReplyThread(threadTs: ThreadTs, ts: string): (r: string)
    ensures threadTs.Some? && threadTs.value != "" ==> r == threadTs.value
    ensures threadTs.None? || threadTs.value == "" ==> r == ts
  {
    if threadTs.Some? && threadTs.value != "" then threadTs.value else ts
  }

  /**
   * `...(msg.thread_ts && { thread_ts: msg.thread_ts })`: the reply goes to
   * the message's thread when it has one, and to the channel otherwise.
   */
  function ThreadIfAny(threadTs: ThreadTs): (r: ThreadTs)
    ensures r.Some? <==> threadTs.Some? && threadTs.value != ""
    ensures r.Some? ==> r == threadTs
  {
    if threadTs.Some? && threadTs.value != "" then threadTs else None
  }
}
