/**
 * The karma store of the TypeScript plugin (src/plugins/karma.ts) and of
 * the previous JavaScript plugin (plugins/karma.js): `thing++` and
 * `thing--` move a per-team score by one, `karma thing` reports it.
 * Scores live in a map from a normalised index to an integer; an index
 * that was never voted on counts as 0.
 */
module Karma {
  import opened Wrappers
  import opened Text
  import opened Slack
  import Patterns
  import PatternRegistry

  // ------------------------------------------------------------ the vote pattern

  datatype Vote = Up | Down

  /** What one vote does to a score, whatever the length of the run of signs. */
  function Delta(v: Vote): int {
    if v == Up then 1 else -1
  }

  function SignOf(v: Vote): char {
    if v == Up then '+' else '-'
  }

  /** `n` copies of the sign of `v`. */
  function Signs(v: Vote, n: nat): (r: string)
    ensures |r| == n && forall j :: 0 <= j < n ==> r[j] == SignOf(v)
  {
    seq(n, _ => SignOf(v))
  }

  /** A match of `(.+?)(-{2,}|\+{2,})\s*$`: the first group, the second, and the vote it means. */
  datatype VoteMatch = VoteMatch(subject: string, signs: string, vote: Vote)

  /** The start of the run of `c` that ends just before `e`. */
  function RunStart(t: string, e: nat, c: char): (k: nat)
    requires e <= |t|
    ensures k <= e
    decreases e
  {
    if e == 0 || t[e - 1] != c then e else RunStart(t, e - 1, c)
  }

  /** The run found is all `c`, and cannot be extended to the left. */
  lemma {:induction false} RunStartSound(t: string, e: nat, c: char)
    requires e <= |t|
    ensures var k := RunStart(t, e, c);
            && (forall j :: k <= j < e ==> t[j] == c)
            && (k > 0 ==> t[k - 1] != c)
    decreases e
  {
    if e > 0 && t[e - 1] == c {
      RunStartSound(t, e - 1, c);
    }
  }

  /** Just past the last line terminator before `k`, or 0. */
  function LineStart(t: string, k: nat): (p: nat)
    requires k <= |t|
    ensures p <= k
    decreases k
  {
    if k == 0 || IsLineTerminator(t[k - 1]) then k else LineStart(t, k - 1)
  }

  /** No line terminator lies between the line start and `k`, and one precedes the line start. */
  lemma {:induction false} LineStartSound(t: string, k: nat)
    requires k <= |t|
    ensures var p := LineStart(t, k);
            && (forall j :: p <= j < k ==> !IsLineTerminator(t[j]))
            && (p > 0 ==> IsLineTerminator(t[p - 1]))
    decreases k
  {
    if k > 0 && !IsLineTerminator(t[k - 1]) {
      LineStartSound(t, k - 1);
    }
  }

  /**
   * The text is the line part `t[..p]` (empty, or ending in a line
   * terminator), the subject, the signs, and trailing white space.
   */
  predicate VoteSplitAt(t: string, m: VoteMatch, p: nat) {
    && p + |m.subject| + |m.signs| <= |t|
    && (p == 0 || IsLineTerminator(t[p - 1]))
    && t[p..p + |m.subject|] == m.subject
    && t[p + |m.subject|..p + |m.subject| + |m.signs|] == m.signs
    && AllSpace(t[p + |m.subject| + |m.signs|..])
  }

  /**
   * The first match of `/(.+?)(-{2,}|\+{2,})\s*$/`. The signs must run up
   * to the trailing white space, so they are the run of one sign that
   * ends there; the lazy first group stops where that run starts, and the
   * leftmost start is the beginning of the run's line. When the run starts
   * a line, its first sign becomes the subject. Only a text whose last
   * character before trailing white space is `+` or `-` is a vote, and
   * that character is the vote's sign.
   */
  function ParseVote(t: string): (r: Option<VoteMatch>)
    ensures TrailingSpaces(t) == |t| || t[|t| - TrailingSpaces(t) - 1] !in "+-" ==> r.None?
    ensures r.Some? ==> TrailingSpaces(t) < |t| && t[|t| - TrailingSpaces(t) - 1] == SignOf(r.value.vote)
  {
    var e := |t| - TrailingSpaces(t);
    if e == 0 || (t[e - 1] != '+' && t[e - 1] != '-') then None
    else
      var v := if t[e - 1] == '+' then Up else Down;
      var rs := RunStart(t, e, SignOf(v));
      SplitRun(t, LineStart(t, rs), rs, e, v)
  }

  /**
   * A match has a non-empty one-line subject and two or more signs of its
   * vote, and the text splits into a line start, the subject, the signs
   * and trailing white space.
   */
  lemma {:induction false} ParseVoteSound(t: string)
    ensures var r := ParseVote(t);
            && (r.Some? ==> r.value.subject != [] && NoLineTerminator(r.value.subject))
            && (r.Some? ==> |r.value.signs| >= 2 && r.value.signs == Signs(r.value.vote, |r.value.signs|))
            && (r.Some? ==> exists p :: VoteSplitAt(t, r.value, p))
  {
    var e := |t| - TrailingSpaces(t);
    if e > 0 && (t[e - 1] == '+' || t[e - 1] == '-') {
      var v := if t[e - 1] == '+' then Up else Down;
      var rs := RunStart(t, e, SignOf(v));
      var p := LineStart(t, rs);
      RunStartSound(t, e, SignOf(v));
      LineStartSound(t, rs);
      assert ParseVote(t) == SplitRun(t, p, rs, e, v);
      SplitRunSound(t, p, rs, e, v);
    }
  }

  /**
   * Where the lazy first group ends, given the line start `p` and the run
   * of signs `t[rs..e]` before the trailing white space.
   */
  function SplitRun(t: string, p: nat, rs: nat, e: nat, v: Vote): (r: Option<VoteMatch>)
    requires p <= rs <= e <= |t|
  {
    if e - rs < 2 then None
    else if p < rs then Some(VoteMatch(t[p..rs], t[rs..e], v))
    else if e - rs >= 3 then Some(VoteMatch(t[rs..rs + 1], t[rs + 1..e], v))
    else None
  }

  /** A split found between a line start and a run of signs is a vote line of the text. */
  lemma {:induction false} SplitRunSound(t: string, p: nat, rs: nat, e: nat, v: Vote)
    requires p <= rs <= e <= |t|
    requires p == 0 || IsLineTerminator(t[p - 1])
    requires forall j :: p <= j < rs ==> !IsLineTerminator(t[j])
    requires forall j :: rs <= j < e ==> t[j] == SignOf(v)
    requires AllSpace(t[e..])
    ensures var r := SplitRun(t, p, rs, e, v);
            && (r.Some? ==> r.value.subject != [] && NoLineTerminator(r.value.subject))
            && (r.Some? ==> |r.value.signs| >= 2 && r.value.signs == Signs(r.value.vote, |r.value.signs|))
            && (r.Some? ==> VoteSplitAt(t, r.value, p))
  {
    if e - rs < 2 {
    } else if p < rs {
      VoteSplitAtOf(t, p, rs, e, v);
    } else if e - rs >= 3 {
      assert t[rs] == SignOf(v);
      VoteSplitAtOf(t, p, rs + 1, e, v);
    }
  }

  /** A line start, a subject, a run of one sign and trailing white space make a split. */
  lemma {:induction false} VoteSplitAtOf(t: string, p: nat, k: nat, e: nat, v: Vote)
    requires p < k <= e <= |t|
    requires p == 0 || IsLineTerminator(t[p - 1])
    requires forall j :: p <= j < k ==> !IsLineTerminator(t[j])
    requires forall j :: k <= j < e ==> t[j] == SignOf(v)
    requires AllSpace(t[e..])
    ensures VoteSplitAt(t, VoteMatch(t[p..k], t[k..e], v), p)
    ensures t[p..k] != [] && NoLineTerminator(t[p..k])
    ensures t[k..e] == Signs(v, e - k)
  {
  }

  lemma {:induction false} TrailingSpacesIs(x: string, gap: string)
    requires x != [] && !IsSpace(x[|x| - 1]) && AllSpace(gap)
    ensures TrailingSpaces(x + gap) == |gap|
    decreases |gap|
  {
    var s := x + gap;
    if gap == [] {
      assert s == x;
    } else {
      assert s[..|s| - 1] == x + gap[..|gap| - 1];
      TrailingSpacesIs(x, gap[..|gap| - 1]);
    }
  }

  lemma {:induction false} RunStartIs(t: string, k: nat, e: nat, c: char)
    requires k <= e <= |t|
    requires forall j :: k <= j < e ==> t[j] == c
    requires k > 0 ==> t[k - 1] != c
    ensures RunStart(t, e, c) == k
    decreases e
  {
    if k < e {
      RunStartIs(t, k, e - 1, c);
    }
  }

  lemma {:induction false} LineStartIs(t: string, p: nat, k: nat)
    requires p <= k <= |t|
    requires forall j :: p <= j < k ==> !IsLineTerminator(t[j])
    requires p > 0 ==> IsLineTerminator(t[p - 1])
    ensures LineStart(t, k) == p
    decreases k
  {
    if p < k {
      LineStartIs(t, p, k - 1);
    }
  }

  /** A text whose last line is a subject, a run of signs and trailing white space, seen by index. */
  lemma {:induction false} ParseVoteAt(t: string, p: nat, rs: nat, e: nat, v: Vote)
    requires p < rs && rs + 2 <= e <= |t|
    requires p == 0 || IsLineTerminator(t[p - 1])
    requires forall j :: p <= j < rs ==> !IsLineTerminator(t[j])
    requires t[rs - 1] != SignOf(v)
    requires forall j :: rs <= j < e ==> t[j] == SignOf(v)
    requires TrailingSpaces(t) == |t| - e
    ensures ParseVote(t) == Some(VoteMatch(t[p..rs], t[rs..e], v))
  {
    assert RunStart(t, e, SignOf(v)) == rs by {
      RunStartIs(t, rs, e, SignOf(v));
    }
    assert LineStart(t, rs) == p by {
      LineStartIs(t, p, rs);
    }
    ParseVoteOfRun(t, p, rs, e, v);
  }

  lemma {:induction false} ParseVoteOfRun(t: string, p: nat, rs: nat, e: nat, v: Vote)
    requires p < rs && rs + 2 <= e <= |t|
    requires p == 0 || IsLineTerminator(t[p - 1])
    requires forall j :: p <= j < rs ==> !IsLineTerminator(t[j])
    requires forall j :: rs <= j < e ==> t[j] == SignOf(v)
    requires TrailingSpaces(t) == |t| - e
    requires RunStart(t, e, SignOf(v)) == rs && LineStart(t, rs) == p
    ensures ParseVote(t) == Some(VoteMatch(t[p..rs], t[rs..e], v))
  {
  }

  /** Where the middle pieces of `a + b + c + d` sit. */
  lemma {:induction false} MiddlePieces(a: string, b: string, c: string, d: string)
    ensures var t := a + b + c + d;
            && t[|a|..|a| + |b|] == b
            && t[|a| + |b|..|a| + |b| + |c|] == c
            && (a != [] ==> t[|a| - 1] == a[|a| - 1])
  {
    var t := a + b + c + d;
    assert t == a + (b + (c + d));
    assert t[|a|..] == b + (c + d);
    assert t[|a| + |b|..] == c + d;
  }

  /** The white space after the signs is exactly the trailing white space. */
  lemma {:induction false} VoteLineTrailing(line: string, v: Vote, n: nat, gap: string)
    requires n >= 1 && AllSpace(gap)
    ensures TrailingSpaces(line + Signs(v, n) + gap) == |gap|
  {
    var x := line + Signs(v, n);
    assert x[|x| - 1] == SignOf(v);
    TrailingSpacesIs(x, gap);
  }

  /** The subject sits at `t[p..rs]` on a line of its own, followed by `n` signs. */
  predicate VoteLineAt(t: string, p: nat, rs: nat, subject: string, v: Vote, n: nat) {
    && p < rs && rs + n <= |t|
    && (p == 0 || IsLineTerminator(t[p - 1]))
    && (forall j :: p <= j < rs ==> !IsLineTerminator(t[j]))
    && t[rs - 1] != SignOf(v)
    && (forall j :: rs <= j < rs + n ==> t[j] == SignOf(v))
    && t[p..rs] == subject && t[rs..rs + n] == Signs(v, n)
  }

  /** Where the pieces of a vote line sit in the text they make. */
  lemma {:induction false} VoteLineIndices(before: string, subject: string, v: Vote, n: nat, gap: string)
    requires before == [] || IsLineTerminator(before[|before| - 1])
    requires subject != [] && NoLineTerminator(subject) && subject[|subject| - 1] != SignOf(v)
    ensures VoteLineAt(before + subject + Signs(v, n) + gap, |before|, |before| + |subject|, subject, v, n)
  {
    var signs := Signs(v, n);
    var t := before + subject + signs + gap;
    var p := |before|;
    var rs := p + |subject|;
    MiddlePieces(before, subject, signs, gap);
    assert forall j :: rs <= j < rs + n ==> t[j] == t[rs..rs + n][j - rs];
    assert forall j :: p <= j < rs ==> t[j] == t[p..rs][j - p];
    assert t[rs - 1] == t[p..rs][|subject| - 1];
  }

  /**
   * A line holding a subject that does not end in the sign, two or more
   * signs and trailing white space is a vote on that subject, whatever
   * came on the lines before it.
   */
  lemma {:induction false} ParseVoteOf(before: string, subject: string, v: Vote, n: nat, gap: string)
    requires before == [] || IsLineTerminator(before[|before| - 1])
    requires subject != [] && NoLineTerminator(subject) && subject[|subject| - 1] != SignOf(v)
    requires n >= 2 && AllSpace(gap)
    ensures ParseVote(before + subject + Signs(v, n) + gap) == Some(VoteMatch(subject, Signs(v, n), v))
  {
    var t := before + subject + Signs(v, n) + gap;
    var rs := |before| + |subject|;
    assert VoteLineAt(t, |before|, rs, subject, v, n) by {
      VoteLineIndices(before, subject, v, n, gap);
    }
    assert TrailingSpaces(t) == |t| - (rs + n) by {
      VoteLineTrailing(before + subject, v, n, gap);
    }
    ParseVoteLine(t, |before|, rs, subject, v, n);
  }

  /** The vote line of `ParseVoteOf`, seen by index. */
  lemma {:induction false} ParseVoteLine(t: string, p: nat, rs: nat, subject: string, v: Vote, n: nat)
    requires VoteLineAt(t, p, rs, subject, v, n) && n >= 2
    requires TrailingSpaces(t) == |t| - (rs + n)
    ensures ParseVote(t) == Some(VoteMatch(subject, Signs(v, n), v))
  {
    ParseVoteAt(t, p, rs, rs + n, v);
  }

  /** However many signs follow the subject, the vote is the same. */
  lemma {:induction false} RunLengthIrrelevant(before: string, subject: string, v: Vote, n1: nat, n2: nat, gap: string)
    requires before == [] || IsLineTerminator(before[|before| - 1])
    requires subject != [] && NoLineTerminator(subject) && subject[|subject| - 1] != SignOf(v)
    requires n1 >= 2 && n2 >= 2 && AllSpace(gap)
    ensures ParseVote(before + subject + Signs(v, n1) + gap).Some?
    ensures ParseVote(before + subject + Signs(v, n2) + gap).Some?
    ensures ParseVote(before + subject + Signs(v, n1) + gap).value.subject
         == ParseVote(before + subject + Signs(v, n2) + gap).value.subject
    ensures ParseVote(before + subject + Signs(v, n1) + gap).value.vote
         == ParseVote(before + subject + Signs(v, n2) + gap).value.vote
  {
    ParseVoteOf(before, subject, v, n1, gap);
    ParseVoteOf(before, subject, v, n2, gap);
  }

  // ------------------------------------------------------------ who gets the karma

  /** `/^([UW][A-Z0-9]+)$/`: the text looks like a raw user id. */
  predicate IsRawUserId(s: string) {
    2 <= |s| && (s[0] == 'U' || s[0] == 'W') && forall j :: 0 <= j < |s| ==> IsUpperAlnum(s[j])
  }

  /** `user.profile?.real_name || user.real_name || fallback`. */
  function RealNameOr(u: User, fallback: string): string {
    if u.profileRealName != "" then u.profileRealName
    else if u.realName != "" then u.realName
    else fallback
  }

  /** The store index a vote or query goes to, the name the reply uses, and whether a user was found. */
  datatype Target = Target(index: string, display: string, isUser: bool)

  /**
   * The index of a subject: the id of the user it mentions when
   * `users.info` knows them; otherwise, in the TypeScript plugin, a raw
   * user id as typed; otherwise the lower-cased subject.
   */
  function VoteTarget(gen: Generation, dir: Directory, text: string): (tg: Target)
    ensures tg.isUser <==> UserOfText(dir, text).Some?
    ensures tg.isUser ==> tg.index == UserOfText(dir, text).value.id
    ensures !tg.isUser ==> tg.display == text
    ensures !tg.isUser && gen == TypeScript && IsRawUserId(text) ==> tg.index == text
    ensures !tg.isUser && (gen == JavaScript || !IsRawUserId(text)) ==> tg.index == ToLower(text)
  {
    match UserOfText(dir, text)
    case Some(u) => Target(u.id, RealNameOr(u, text), true)
    case None =>
      if gen == TypeScript && IsRawUserId(text) then Target(text, text, false)
      else Target(ToLower(text), text, false)
  }

  lemma {:induction false} NoMentionInLower(s: string)
    ensures MentionedUserId(ToLower(s)).None?
  {
    var l := ToLower(s);
    forall j | 0 <= j < |l|
      ensures !UserIdMentionAt(l, j)
    {
      if j + 2 < |l| {
        assert l[j + 2] == LowerChar(s[j + 2]);
      }
    }
  }

  /**
   * A subject that names no known user, and is not kept as a raw user id,
   * is filed under the same index however it is capitalised.
   */
  lemma {:induction false} VoteIndexIgnoresCase(gen: Generation, dir: Directory, text: string)
    requires UserOfText(dir, text).None?
    requires gen == JavaScript || !IsRawUserId(text)
    ensures VoteTarget(gen, dir, ToLower(text)).index == VoteTarget(gen, dir, text).index
  {
    NoMentionInLower(text);
    var l := ToLower(text);
    if IsRawUserId(l) {
      assert l[0] == LowerChar(text[0]);
    }
    Patterns.ToLowerIdempotent(text);
  }

  // ------------------------------------------------------------ scores

  /** `karma.data[index] || 0`. */
  function ScoreOf(data: map<string, int>, index: string): int {
    if index in data then data[index] else 0
  }

  /** The store after one vote on `index`. */
  function Bumped(data: map<string, int>, index: string, v: Vote): (r: map<string, int>)
    ensures index in r && r[index] == ScoreOf(data, index) + Delta(v)
    ensures forall k :: k != index ==> (k in r <==> k in data) && ScoreOf(r, k) == ScoreOf(data, k)
  {
    data[index := ScoreOf(data, index) + Delta(v)]
  }

  /** A vote up and a vote down on the same index leave its score where it was. */
  lemma {:induction false} UpThenDown(data: map<string, int>, index: string)
    ensures ScoreOf(Bumped(Bumped(data, index, Up), index, Down), index) == ScoreOf(data, index)
    ensures ScoreOf(Bumped(Bumped(data, index, Down), index, Up), index) == ScoreOf(data, index)
  {
  }

  /** A reply and the thread it goes to (None: the channel). */
  datatype Reply = Reply(text: string, thread: ThreadTs)

  /** The TypeScript plugin answers in the message's thread when it has one; the JavaScript one never threads. */
  function Thread(gen: Generation, threadTs: ThreadTs): (r: ThreadTs)
    ensures r.Some? <==> gen == TypeScript && threadTs.Some? && threadTs.value != ""
    ensures r.Some? ==> r == threadTs
  {
    if gen == TypeScript then ThreadIfAny(threadTs) else None
  }

  /**
   * The reply to a message and the store after it. The JavaScript plugin
   * ignores a subject over 34 characters before resolving it, the
   * TypeScript plugin an index over 34 characters after; a user voting on
   * themselves is told off; anything else moves one score by one.
   */
  function VoteOutcome(gen: Generation, dir: Directory, sender: string, text: string,
                       threadTs: ThreadTs, data: map<string, int>): (r: (Option<Reply>, map<string, int>))
    ensures r.0.None? ==> r.1 == data
    ensures r.1 == data || exists k, v :: r.1 == Bumped(data, k, v)
    ensures ParseVote(text).None? ==> r == (None, data)
    ensures ParseVote(text).Some? ==>
              var m := ParseVote(text).value;
              var subject := Trim(m.subject);
              var tg := VoteTarget(gen, dir, subject);
              if |(if gen == JavaScript then subject else tg.index)| > 34 then r == (None, data)
              else if tg.isUser && sender == tg.index then
                r == (Some(Reply("Nice try <@" + sender + ">, but no...", Thread(gen, threadTs))), data)
              else
                && r.1 == Bumped(data, tg.index, m.vote)
                && r.0 == Some(Reply(tg.display + " has karma of " + IntToString(ScoreOf(data, tg.index) + Delta(m.vote)),
                                     Thread(gen, threadTs)))
  {
    match ParseVote(text)
    case None => (None, data)
    case Some(m) =>
      var subject := Trim(m.subject);
      var tg := VoteTarget(gen, dir, subject);
      if gen == JavaScript && |subject| > 34 then (None, data)
      else if gen == TypeScript && |tg.index| > 34 then (None, data)
      else if tg.isUser && sender == tg.index then
        (Some(Reply("Nice try <@" + sender + ">, but no...", Thread(gen, threadTs))), data)
      else
        var d := Bumped(data, tg.index, m.vote);
        (Some(Reply(tg.display + " has karma of " + IntToString(d[tg.index]), Thread(gen, threadTs))), d)
  }

  /** The two guards: long subjects are ignored, and nobody changes their own karma. */
  lemma {:induction false} VoteGuards(gen: Generation, dir: Directory, sender: string, text: string,
                   threadTs: ThreadTs, data: map<string, int>)
    requires ParseVote(text).Some?
    ensures var subject := Trim(ParseVote(text).value.subject);
            |subject| > 34 && UserOfText(dir, subject).None?
            ==> VoteOutcome(gen, dir, sender, text, threadTs, data) == (None, data)
    ensures var subject := Trim(ParseVote(text).value.subject);
            UserOfText(dir, subject).Some? && UserOfText(dir, subject).value.id == sender
            ==> VoteOutcome(gen, dir, sender, text, threadTs, data).1 == data
  {
    var subject := Trim(ParseVote(text).value.subject);
    if UserOfText(dir, subject).None? && !(gen == TypeScript && IsRawUserId(subject)) {
      assert |ToLower(subject)| == |subject|;
    }
  }

  /**
   * On a subject that names no user and is not a raw user id, the two
   * plugins file the vote identically and reply with the same text.
   */
  lemma {:induction false} GenerationsAgree(dir: Directory, sender: string, text: string, threadTs: ThreadTs,
                         data: map<string, int>)
    requires ParseVote(text).Some?
    requires UserOfText(dir, Trim(ParseVote(text).value.subject)).None?
    requires !IsRawUserId(Trim(ParseVote(text).value.subject))
    ensures VoteOutcome(TypeScript, dir, sender, text, threadTs, data).1
         == VoteOutcome(JavaScript, dir, sender, text, threadTs, data).1
    ensures VoteOutcome(TypeScript, dir, sender, text, threadTs, data).0.Some?
        <==> VoteOutcome(JavaScript, dir, sender, text, threadTs, data).0.Some?
  {
    var subject := Trim(ParseVote(text).value.subject);
    assert |ToLower(subject)| == |subject|;
  }

  // ------------------------------------------------------------ the query pattern

  /**
   * `/^karma\s*@?(.+)/` and the trimmed first group. `\s*` and `@?` take
   * what they can, and `.+` the rest of the line; when nothing is left on
   * the line they give back the `@`, or a white-space character, which
   * trims to nothing.
   */
  function QueryArg(t: string): (r: Option<string>)
    ensures r.Some? ==> StartsWith(t, "karma") && IsTrimmed(r.value)
  {
    if !StartsWith(t, "karma") then None
    else
      var i := SpaceRunEnd(t, 5);
      var j := if i < |t| && t[i] == '@' then i + 1 else i;
      var q := LineEnd(t, j);
      if q > j then Some(Trim(t[j..q]))
      else if j > i then Some("@")
      else if exists k :: 5 <= k < i && !IsLineTerminator(t[k]) then Some("")
      else None
  }

  /** The query pattern, seen by index: white space up to `g`, then the argument `t[j..]`, all on one line. */
  lemma {:induction false} QueryArgAt(t: string, g: nat, j: nat)
    requires StartsWith(t, "karma") && 5 <= g <= j < |t|
    requires forall k :: 5 <= k < g ==> IsSpace(t[k])
    requires !IsSpace(t[g])
    requires j == if t[g] == '@' then g + 1 else g
    requires forall k :: j <= k < |t| ==> !IsLineTerminator(t[k])
    ensures QueryArg(t) == Some(Trim(t[j..]))
  {
    SpaceRunEndIs(t, 5, g);
    LineEndIs(t, j, |t|);
    assert t[j..|t|] == t[j..];
  }

  /** `karma name` and `karma @name` both ask about `name`. */
  lemma {:induction false} QueryArgOf(gap: string, name: string)
    requires AllSpace(gap)
    requires name != [] && NoLineTerminator(name) && !IsSpace(name[0]) && name[0] != '@'
    ensures QueryArg("karma" + gap + name) == Some(Trim(name))
  {
    var t := "karma" + gap + name;
    var g := 5 + |gap|;
    assert t[..5] == "karma";
    assert t[5..g] == gap && t[g..] == name;
    assert forall j :: 5 <= j < g ==> t[j] == t[5..g][j - 5];
    assert forall j :: g <= j < |t| ==> t[j] == t[g..][j - g];
    QueryArgAt(t, g, g);
  }

  /** The same with an `@` before the name. */
  lemma {:induction false} QueryArgOfAt(gap: string, name: string)
    requires AllSpace(gap)
    requires name != [] && NoLineTerminator(name)
    ensures QueryArg("karma" + gap + "@" + name) == Some(Trim(name))
  {
    var t := "karma" + gap + "@" + name;
    var g := 5 + |gap|;
    assert t[..5] == "karma";
    assert t[5..g] == gap && t[g] == '@' && t[g + 1..] == name;
    assert forall j :: 5 <= j < g ==> t[j] == t[5..g][j - 5];
    assert forall j :: g + 1 <= j < |t| ==> t[j] == t[g + 1..][j - g - 1];
    QueryArgAt(t, g, g + 1);
  }

  /** `if (query.endsWith('?')) query = query.slice(0, -1)`. */
  function DropQuestionMark(q: string): (r: string)
    ensures EndsWith(q, "?") ==> r + "?" == q
    ensures !EndsWith(q, "?") ==> r == q
  {
    if EndsWith(q, "?") then q[..|q| - 1] else q
  }

  /**
   * Where a query looks and what it calls the subject: as for a vote in
   * the TypeScript plugin; in the JavaScript plugin a user falls back to
   * their id and anything else is shown lower-cased.
   */
  function QueryTarget(gen: Generation, dir: Directory, query: string): (tg: Target)
    ensures tg.index == VoteTarget(gen, dir, query).index
    ensures gen == JavaScript && !tg.isUser ==> tg.display == ToLower(query)
  {
    var tg := VoteTarget(gen, dir, query);
    if gen == JavaScript && tg.isUser then Target(tg.index, RealNameOr(UserOfText(dir, query).value, tg.index), true)
    else if gen == JavaScript then Target(tg.index, tg.index, false)
    else tg
  }

  /** The reply to a karma query: the score under the query's index, 0 when there is none. */
  function QueryOutcome(gen: Generation, dir: Directory, text: string, threadTs: ThreadTs,
                        data: map<string, int>): (r: Option<Reply>)
    ensures r.Some? <==> QueryArg(text).Some?
  {
    match QueryArg(text)
    case None => None
    case Some(arg) =>
      var tg := QueryTarget(gen, dir, DropQuestionMark(arg));
      Some(Reply(tg.display + " has karma " + IntToString(ScoreOf(data, tg.index)), Thread(gen, threadTs)))
  }

  /** A plain subject names no user, so it is filed under its lower-cased self. */
  predicate PlainSubject(name: string) {
    && name != [] && IsTrimmed(name) && NoLineTerminator(name)
    && MentionedUserId(name).None? && !IsRawUserId(name)
  }

  /** A plain subject followed by a run of signs parses back to that subject, which trimming keeps. */
  lemma {:induction false} PlainVoteParse(name: string, v: Vote, n: nat)
    requires PlainSubject(name) && name[|name| - 1] != SignOf(v) && n >= 2
    ensures ParseVote(name + Signs(v, n)) == Some(VoteMatch(name, Signs(v, n), v))
    ensures Trim(name) == name
  {
    assert [] + name + Signs(v, n) + [] == name + Signs(v, n);
    ParseVoteOf([], name, v, n, []);
    TrimOfTrimmed(name);
  }

  /** A plain subject is filed, and shown in a vote reply, as itself, under its lower-cased index. */
  lemma {:induction false} PlainTarget(gen: Generation, dir: Directory, name: string)
    requires PlainSubject(name)
    ensures VoteTarget(gen, dir, name) == Target(ToLower(name), name, false)
    ensures |ToLower(name)| == |name|
  {
  }

  /** A vote on a plain subject of at most 34 characters moves its lower-cased index by one. */
  lemma {:induction false} VoteOnPlainSubject(gen: Generation, dir: Directory, sender: string, name: string, v: Vote, n: nat,
                           threadTs: ThreadTs, data: map<string, int>)
    requires PlainSubject(name) && |name| <= 34 && name[|name| - 1] != SignOf(v) && n >= 2
    ensures VoteOutcome(gen, dir, sender, name + Signs(v, n), threadTs, data).1 == Bumped(data, ToLower(name), v)
  {
    PlainVoteParse(name, v, n);
    PlainTarget(gen, dir, name);
  }

  /** A plain subject with a question mark after it is still one trimmed line. */
  lemma {:induction false} QuestionText(name: string)
    requires PlainSubject(name) && name[0] != '@'
    ensures var q := name + "?";
            && q != [] && NoLineTerminator(q) && !IsSpace(q[0]) && q[0] != '@'
            && Trim(q) == q && q[..|q| - 1] == name
            && "karma" + " " + q == "karma " + name + "?"
  {
    var q := name + "?";
    assert forall j :: 0 <= j < |name| ==> q[j] == name[j];
    assert q[|q| - 1] == '?';
    TrimOfTrimmed(q);
  }

  /** `karma <subject>?` asks about the subject without its question mark. */
  lemma {:induction false} PlainQueryText(name: string)
    requires PlainSubject(name) && name[0] != '@' && name[|name| - 1] != '?'
    ensures QueryArg("karma " + name + "?") == Some(name + "?")
    ensures DropQuestionMark(name + "?") == name
  {
    QuestionText(name);
    QueryArgOf(" ", name + "?");
  }

  /** `karma <subject>?` on a plain subject reads its lower-cased index. */
  lemma {:induction false} QueryOnPlainSubject(gen: Generation, dir: Directory, name: string, threadTs: ThreadTs,
                            data: map<string, int>)
    requires PlainSubject(name) && name[0] != '@' && name[|name| - 1] != '?'
    ensures QueryOutcome(gen, dir, "karma " + name + "?", threadTs, data)
         == Some(Reply((if gen == TypeScript then name else ToLower(name)) + " has karma "
                       + IntToString(ScoreOf(data, ToLower(name))), Thread(gen, threadTs)))
  {
    PlainQueryText(name);
    PlainTarget(gen, dir, name);
  }

  /**
   * A vote on a plain subject, then `karma <subject>?`, reports the score
   * the vote left, under the subject as typed (TypeScript) or lower-cased
   * (JavaScript).
   */
  lemma {:induction false} VoteThenQuery(gen: Generation, dir: Directory, sender: string, name: string, v: Vote, n: nat,
                      threadTs: ThreadTs, data: map<string, int>)
    requires PlainSubject(name) && |name| <= 34 && n >= 2
    requires name[0] != '@' && name[|name| - 1] != SignOf(v) && name[|name| - 1] != '?'
    ensures var after := VoteOutcome(gen, dir, sender, name + Signs(v, n), threadTs, data).1;
            QueryOutcome(gen, dir, "karma " + name + "?", threadTs, after)
            == Some(Reply((if gen == TypeScript then name else ToLower(name)) + " has karma "
                          + IntToString(ScoreOf(data, ToLower(name)) + Delta(v)), Thread(gen, threadTs)))
  {
    VoteOnPlainSubject(gen, dir, sender, name, v, n, threadTs, data);
    var after := Bumped(data, ToLower(name), v);
    QueryOnPlainSubject(gen, dir, name, threadTs, after);
  }

  // ------------------------------------------------------------ the store

  /** One team's karma, `karma.data`. */
  class KarmaStore {
    var data: map<string, int>

    constructor ()
      ensures data == map[]
    {
      data := map[];
    }

    /** `karma.data[index] = karma.data[index] || 0`, then one step up or down. */
    method Bump(index: string, v: Vote)
      modifies this
      ensures data == Bumped(old(data), index, v)
    {
      data := data[index := ScoreOf(data, index)];
      if v == Up {
        data := data[index := data[index] + 1];
      } else {
        data := data[index := data[index] - 1];
      }
    }

    /** The handler for `(.+?)(-{2,}|\+{2,})\s*$`. */
    method OnVote(gen: Generation, dir: Directory, sender: string, text: string, threadTs: ThreadTs)
      returns (reply: Option<Reply>)
      modifies this
      ensures (reply, data) == VoteOutcome(gen, dir, sender, text, threadTs, old(data))
    {
      var m := ParseVote(text);
      if m.None? {
        return None;
      }
      var subject := Trim(m.value.subject);
      if gen == JavaScript && |subject| > 34 {
        return None;
      }
      var tg := VoteTarget(gen, dir, subject);
      if gen == TypeScript && |tg.index| > 34 {
        return None;
      }
      if tg.isUser && sender == tg.index {
        return Some(Reply("Nice try <@" + sender + ">, but no...", Thread(gen, threadTs)));
      }
      Bump(tg.index, m.value.vote);
      reply := Some(Reply(tg.display + " has karma of " + IntToString(data[tg.index]), Thread(gen, threadTs)));
    }

    /** The handler for `/^karma\s*@?(.+)/`: reads the store and never writes it. */
    method OnQuery(gen: Generation, dir: Directory, text: string, threadTs: ThreadTs)
      returns (reply: Option<Reply>)
      ensures reply == QueryOutcome(gen, dir, text, threadTs, data)
      ensures reply.Some? <==> QueryArg(text).Some?
    {
      var arg := QueryArg(text);
      if arg.None? {
        return None;
      }
      var tg := QueryTarget(gen, dir, DropQuestionMark(arg.value));
      var score := if tg.index in data then data[tg.index] else 0;
      reply := Some(Reply(tg.display + " has karma " + IntToString(score), Thread(gen, threadTs)));
    }

    /** The `app_mention` handler: the query pattern on the text without its mention. */
    method OnMention(gen: Generation, dir: Directory, text: string, threadTs: ThreadTs)
      returns (reply: Option<Reply>)
      ensures reply == QueryOutcome(gen, dir, StripMention(text), threadTs, data)
    {
      reply := OnQuery(gen, dir, StripMention(text), threadTs);
    }
  }

  /** The two registry entries of the TypeScript plugin. */
  const Registrations: seq<PatternRegistry.PatternEntry> :=
    [ PatternRegistry.PatternEntry(Patterns.KarmaCommand, "karma", 10.0),
      PatternRegistry.PatternEntry(Patterns.KarmaBare, "karma", 10.0) ]

  /** `registerPattern(/^karma\s+.+$/i, 'karma', 10)` and `registerPattern(/^karma$/i, 'karma', 10)`. */
  method Register(registry: PatternRegistry.PatternRegistryService)
    requires registry.Valid()
    modifies registry
    ensures registry.Valid()
    ensures registry.log == old(registry.log) + Registrations
  {
    registry.RegisterPattern(Patterns.KarmaCommand, "karma", 10.0);
    registry.RegisterPattern(Patterns.KarmaBare, "karma", 10.0);
  }
}
