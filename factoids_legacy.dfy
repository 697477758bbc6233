/**
 * The first-generation factoid skill (lib/plugins/factoids.js): facts
 * filed under the subject exactly as typed, retrieved by any message that
 * ends in `?`, `!` or `|`, replaced or extended after a yes/no/append
 * conversation, and rendered by a `factString` whose `<reply>` handling
 * is broken as written.
 */
module FactoidsLegacy {
  import opened Wrappers
  import opened Text
  import Patterns
  import Factoids

  /** A stored fact: `{ key, be, value }`. */
  datatype LegacyFact = LegacyFact(key: string, be: string, value: seq<string>)

  const ReplyTag: string := "<reply>"

  /** `v.substr(7)` when `v` starts with `<reply>`, else `v`. */
  function StripReply(v: string): string {
    if StartsWith(v, ReplyTag) then v[7..] else v
  }

  /** Stripping removes exactly the tag. */
  lemma {:induction false} StripReplyInverse(v: string)
    ensures StartsWith(v, ReplyTag) ==> v == ReplyTag + StripReply(v)
    ensures !StartsWith(v, ReplyTag) ==> StripReply(v) == v
  {
    if StartsWith(v, ReplyTag) {
      assert v == v[..7] + v[7..];
    }
  }

  // ------------------------------------------------------------ factString as written

  /** The " and also <value>" pieces for the values after the first. */
  function AlsoTail(vs: seq<string>): (r: string)
    ensures vs == [] ==> r == ""
  {
    if vs == [] then "" else AlsoTail(vs[..|vs| - 1]) + (" and also " + StripReply(vs[|vs| - 1]))
  }

  /**
   * The first piece `factString` writes as written: the text after a
   * leading `<reply>` of the first value, if any, and then, in every case,
   * "<key> <be> " followed by ALL the values joined by "," (the array
   * `fact.value` interpolated into a template).
   */
  function HeadAsWritten(f: LegacyFact): string
    requires f.value != []
  {
    (if StartsWith(f.value[0], ReplyTag) then StripReply(f.value[0]) else "")
      + (f.key + " " + f.be + " " + Join(f.value, ","))
  }

  /** What `factString` returns as written: nothing only for a fact without values. */
  function RenderedAsWritten(f: LegacyFact): (r: string)
    ensures r == "" <==> f.value == []
  {
    if f.value == [] then ""
    else
      assert |HeadAsWritten(f)| >= 2;
      HeadAsWritten(f) + AlsoTail(f.value[1..])
  }

  lemma {:induction false} AlsoTailStep(vs: seq<string>, i: nat)
    requires 1 <= i < |vs|
    ensures AlsoTail(vs[1..i + 1]) == AlsoTail(vs[1..i]) + (" and also " + StripReply(vs[i]))
  {
    assert vs[1..i + 1][..i - 1] == vs[1..i];
  }

  /** The text after the first value: the head alone, which is never empty. */
  lemma AsWrittenFirst(f: LegacyFact)
    requires f.value != []
    ensures HeadAsWritten(f) + AlsoTail(f.value[1..1]) == HeadAsWritten(f) != ""
  {
    assert f.value[1..1] == [];
  }

  /** One later value of the `factString` loop as written. */
  lemma AsWrittenStep(f: LegacyFact, i: nat, result: string)
    requires 1 <= i < |f.value|
    requires result == HeadAsWritten(f) + AlsoTail(f.value[1..i]) && result != ""
    ensures result + (" and also " + StripReply(f.value[i])) == HeadAsWritten(f) + AlsoTail(f.value[1..i + 1])
  {
    AlsoTailStep(f.value, i);
  }

  /**
   * `factString` line for line: the first value always goes through the
   * empty-result branch, which leaves the result non-empty, so every
   * later value goes through the " and also " branches.
   */
  method FactStringAsWritten(f: LegacyFact) returns (result: string)
    ensures result == RenderedAsWritten(f)
  {
    result := "";
    for i := 0 to |f.value|
      invariant i == 0 ==> result == ""
      invariant 0 < i ==> result == HeadAsWritten(f) + AlsoTail(f.value[1..i]) && result != ""
    {
      if i == 0 {
        AsWrittenFirst(f);
      } else {
        AsWrittenStep(f, i, result);
      }
      result := AsWrittenCallback(f, result, f.value[i]);
    }
    if f.value != [] {
      assert f.value[1..|f.value|] == f.value[1..];
    }
  }

  /** The `forEach` callback as written, on the text so far and one value. */
  method AsWrittenCallback(f: LegacyFact, result: string, value: string) returns (r: string)
    requires f.value != []
    ensures result == "" && value == f.value[0] ==> r == HeadAsWritten(f)
    ensures result != "" ==> r == result + (" and also " + StripReply(value))
  {
    r := result;
    if r == "" {
      if StartsWith(value, ReplyTag) {
        r := r + value[7..];
      }
      r := r + (f.key + " " + f.be + " " + Join(f.value, ","));
    } else if StartsWith(value, ReplyTag) {
      r := r + (" and also " + value[7..]);
    } else {
      r := r + (" and also " + value);
    }
  }

  /**
   * As written, a fact with two values repeats the second one: the first
   * piece already holds every value joined by ",".
   */
  lemma {:induction false} AsWrittenRepeatsValues()
    ensures RenderedAsWritten(LegacyFact("tea", "is", ["hot", "sweet"])) == "tea is hot,sweet and also sweet"
  {
    var f := LegacyFact("tea", "is", ["hot", "sweet"]);
    TeaHead();
    TeaTail();
    assert RenderedAsWritten(f) == HeadAsWritten(f) + AlsoTail(f.value[1..]);
  }

  lemma {:induction false} TeaHead()
    ensures HeadAsWritten(LegacyFact("tea", "is", ["hot", "sweet"])) == "tea is hot,sweet"
  {
    assert !StartsWith("hot", ReplyTag);
    assert Join(["hot", "sweet"], ",") == "hot" + "," + Join(["sweet"], ",");
  }

  lemma {:induction false} TeaTail()
    ensures AlsoTail(LegacyFact("tea", "is", ["hot", "sweet"]).value[1..]) == " and also sweet"
  {
    var f := LegacyFact("tea", "is", ["hot", "sweet"]);
    assert f.value[1..] == ["sweet"];
    assert ["sweet"][..0] == [];
    assert !StartsWith("sweet", ReplyTag);
    assert AlsoTail(["sweet"]) == AlsoTail([]) + (" and also " + StripReply("sweet"));
  }

  /**
   * As written, a `<reply>` fact is followed by the sentence it was meant
   * to replace, `<reply>` tag included.
   */
  lemma {:induction false} AsWrittenReplyKeepsSentence()
    ensures RenderedAsWritten(LegacyFact("hi", "is", ["<reply>hello"])) == "hellohi is <reply>hello"
  {
    var f := LegacyFact("hi", "is", ["<reply>hello"]);
    HiHead();
    assert f.value[1..] == [];
    assert RenderedAsWritten(f) == HeadAsWritten(f) + AlsoTail(f.value[1..]);
  }

  lemma {:induction false} HiHead()
    ensures HeadAsWritten(LegacyFact("hi", "is", ["<reply>hello"])) == "hellohi is <reply>hello"
  {
    assert StartsWith("<reply>hello", ReplyTag);
    assert StripReply("<reply>hello") == "hello";
    assert Join(["<reply>hello"], ",") == "<reply>hello";
  }

  // ------------------------------------------------------------ factString corrected

  /** The leading values that are exactly `<reply>`, which render as nothing. */
  function DropEmptyReplies(vs: seq<string>): (r: seq<string>)
    ensures r == [] || r[0] != ReplyTag
    ensures r == [] <==> forall i :: 0 <= i < |vs| ==> vs[i] == ReplyTag
  {
    if vs == [] || vs[0] != ReplyTag then vs else DropEmptyReplies(vs[1..])
  }

  /** How the first value is shown: its text after `<reply>`, or the sentence. */
  function FirstPiece(key: string, be: string, v: string): string {
    if StartsWith(v, ReplyTag) then StripReply(v) else key + " " + be + " " + v
  }

  /**
   * The evidently intended text: the first value that shows anything is
   * either its `<reply>` text or "<key> <be> <value>", and each later value
   * follows once, after " and also ", without its `<reply>` tag. It differs
   * from the text as written only in its first piece.
   */
  function Rendered(f: LegacyFact): (r: string)
    ensures r == "" <==> forall i :: 0 <= i < |f.value| ==> f.value[i] == ReplyTag
  {
    var d := DropEmptyReplies(f.value);
    if d == [] then ""
    else
      FirstPieceEmpty(f.key, f.be, d[0]);
      FirstPiece(f.key, f.be, d[0]) + AlsoTail(d[1..])
  }

  lemma {:induction false} FirstPieceEmpty(key: string, be: string, v: string)
    ensures FirstPiece(key, be, v) == "" <==> v == ReplyTag
  {
    if StartsWith(v, ReplyTag) {
      StripReplyInverse(v);
    } else {
      assert |FirstPiece(key, be, v)| >= 2;
    }
  }

  lemma {:induction false} DropEmptyRepliesSnoc(vs: seq<string>, v: string)
    ensures DropEmptyReplies(vs) == [] ==> DropEmptyReplies(vs + [v]) == (if v == ReplyTag then [] else [v])
    ensures DropEmptyReplies(vs) != [] ==> DropEmptyReplies(vs + [v]) == DropEmptyReplies(vs) + [v]
  {
    if vs != [] && vs[0] == ReplyTag {
      assert (vs + [v])[1..] == vs[1..] + [v];
      DropEmptyRepliesSnoc(vs[1..], v);
    }
  }

  lemma {:induction false} AlsoTailSnoc(vs: seq<string>, v: string)
    ensures AlsoTail(vs + [v]) == AlsoTail(vs) + (" and also " + StripReply(v))
  {
    assert (vs + [v])[..|vs|] == vs;
  }

  /** The corrected text is empty exactly when no value shows anything. */
  lemma {:induction false} RenderedEmpty(f: LegacyFact)
    ensures Rendered(f) == "" <==> DropEmptyReplies(f.value) == []
  {
    var d := DropEmptyReplies(f.value);
    if d != [] {
      FirstPieceEmpty(f.key, f.be, d[0]);
    }
  }

  lemma {:induction false} RenderedAfterEmptyReply(f: LegacyFact, v: string)
    requires DropEmptyReplies(f.value) == [] && v == ReplyTag
    ensures Rendered(f.(value := f.value + [v])) == ""
  {
    DropEmptyRepliesSnoc(f.value, v);
  }

  lemma {:induction false} RenderedOpenedBy(f: LegacyFact, v: string)
    requires DropEmptyReplies(f.value) == [] && v != ReplyTag
    ensures Rendered(f.(value := f.value + [v])) == FirstPiece(f.key, f.be, v)
  {
    DropEmptyRepliesSnoc(f.value, v);
    assert DropEmptyReplies(f.value + [v])[1..] == [];
  }

  lemma {:induction false} RenderedExtendedBy(f: LegacyFact, v: string)
    requires DropEmptyReplies(f.value) != []
    ensures Rendered(f.(value := f.value + [v])) == Rendered(f) + (" and also " + StripReply(v))
  {
    var d := DropEmptyReplies(f.value);
    DropEmptyRepliesSnoc(f.value, v);
    assert (d + [v])[1..] == d[1..] + [v];
    AlsoTailSnoc(d[1..], v);
  }

  /**
   * One step of the corrected loop: while the text is empty the value
   * opens it, and afterwards it is added once as " and also <value>".
   */
  lemma {:induction false} RenderedSnoc(f: LegacyFact, v: string)
    ensures var g := f.(value := f.value + [v]);
      Rendered(g) == if Rendered(f) == "" then FirstPiece(f.key, f.be, v)
                     else Rendered(f) + (" and also " + StripReply(v))
  {
    RenderedEmpty(f);
    if DropEmptyReplies(f.value) != [] {
      RenderedExtendedBy(f, v);
    } else if v == ReplyTag {
      FirstPieceEmpty(f.key, f.be, v);
      RenderedAfterEmptyReply(f, v);
    } else {
      RenderedOpenedBy(f, v);
    }
  }

  /** The corrected text of the first `i + 1` values, from that of the first `i`. */
  lemma {:induction false} RenderedPrefixStep(f: LegacyFact, i: nat)
    requires i < |f.value|
    ensures var prev := Rendered(f.(value := f.value[..i]));
            Rendered(f.(value := f.value[..i + 1]))
            == if prev == "" then FirstPiece(f.key, f.be, f.value[i]) else prev + (" and also " + StripReply(f.value[i]))
  {
    var v := f.value[i];
    assert f.value[..i + 1] == f.value[..i] + [v];
    var before := f.(value := f.value[..i]);
    RenderedSnoc(before, v);
    assert before.(value := before.value + [v]) == f.(value := f.value[..i + 1]);
  }

  /** `factString` with the missing `else` restored and `value` in place of `fact.value`. */
  method FactString(f: LegacyFact) returns (result: string)
    ensures result == Rendered(f)
  {
    result := "";
    for i := 0 to |f.value|
      invariant result == Rendered(f.(value := f.value[..i]))
    {
      RenderedPrefixStep(f, i);
      result := Callback(f, result, f.value[i]);
    }
    assert f.value[..|f.value|] == f.value;
  }

  /** The corrected `forEach` callback: a value opens an empty text, and is added after " and also " otherwise. */
  method Callback(f: LegacyFact, result: string, value: string) returns (r: string)
    ensures r == if result == "" then FirstPiece(f.key, f.be, value) else result + (" and also " + StripReply(value))
  {
    if result == "" {
      if StartsWith(value, ReplyTag) {
        r := result + value[7..];
      } else {
        r := result + (f.key + " " + f.be + " " + value);
      }
    } else if StartsWith(value, ReplyTag) {
      r := result + (" and also " + value[7..]);
    } else {
      r := result + (" and also " + value);
    }
  }

  /**
   * The corrected text of a one-value fact is the reply text or the plain
   * sentence; on plain facts as written and corrected agree exactly then.
   */
  lemma {:induction false} RenderedSingle(f: LegacyFact)
    requires |f.value| == 1 && f.value[0] != ReplyTag
    ensures Rendered(f) == FirstPiece(f.key, f.be, f.value[0])
    ensures !StartsWith(f.value[0], ReplyTag) ==> Rendered(f) == RenderedAsWritten(f)
  {
    assert DropEmptyReplies(f.value) == f.value;
  }

  /** Corrected, each later value shows up once, after " and also ". */
  lemma {:induction false} RenderedAppendOnce(f: LegacyFact, v: string)
    requires Rendered(f) != ""
    ensures Rendered(f.(value := f.value + [v])) == Rendered(f) + (" and also " + StripReply(v))
  {
    RenderedSnoc(f, v);
  }

  // ------------------------------------------------------------ matching

  /** `^(.*?)[?|!]$`: the trimmed text before the final `?`, `!` or `|`. */
  function RetrievalKey(t: string): (r: Option<string>)
    ensures r.Some? <==> t != [] && t[|t| - 1] in {'?', '|', '!'} && Patterns.DotsFrom(t, 0)
    ensures r.Some? ==> r.value == Trim(t[..|t| - 1])
  {
    if t != [] && t[|t| - 1] in {'?', '|', '!'} && Patterns.DotsFrom(t, 0) then Some(Trim(t[..|t| - 1]))
    else None
  }

  /**
   * The character class `[?|!]` holds a literal `|`, so a message ending in
   * a pipe looks its subject up too.
   */
  lemma {:induction false} PipeAlsoRetrieves()
    ensures RetrievalKey("tea|") == Some("tea")
    ensures RetrievalKey("tea?") == Some("tea")
    ensures RetrievalKey("tea.") == None
  {
    assert IsTrimmed("tea");
    WordRetrieves("tea", '|');
    assert "tea" + ['|'] == "tea|";
    WordRetrieves("tea", '?');
    assert "tea" + ['?'] == "tea?";
    assert "tea."[3] == '.';
  }

  /** A one-line trimmed subject followed by `?`, `!` or `|` retrieves that subject. */
  lemma {:induction false} WordRetrieves(w: string, c: char)
    requires IsTrimmed(w) && c in {'?', '|', '!'}
    requires forall i :: 0 <= i < |w| ==> !IsLineTerminator(w[i])
    ensures RetrievalKey(w + [c]) == Some(w)
  {
    var t := w + [c];
    assert t[..|t| - 1] == w;
    assert Patterns.DotsFrom(t, 0) by {
      forall i | 0 <= i < |t|
        ensures !IsLineTerminator(t[i])
      {
        if i < |w| {
          assert t[i] == w[i];
        }
      }
    }
    TrimOfTrimmed(w);
  }

  /** `^(.+?)\s(is|are)\s(.+)$` once its first group is `t[..k]`. */
  function LegacySetAfter(t: string, k: nat): (r: Option<(string, string, string)>)
    requires 1 <= k <= |t|
    ensures r.Some? ==> r.value.0 == t[..k] && (r.value.1 == "is" || r.value.1 == "are") && r.value.2 != []
  {
    match Factoids.VerbAt(t, k)
    case None => None
    case Some(be) =>
      var p := k + 2 + |be|;
      if p < |t| && Patterns.DotsFrom(t, p) then Some((t[..k], be, t[p..]))
      else None
  }

  /** The value the legacy pattern captures is the later pattern's, with any `<reply>` tag kept in front. */
  function WithTag(m: Factoids.SetMatch): (string, string, string) {
    (m.subject, m.be, (if m.replyTag then ReplyTag else "") + m.value)
  }

  /** After the same first group, the legacy pattern matches exactly when the later one does. */
  lemma {:induction false} LegacySetAfterAgrees(t: string, k: nat)
    requires 1 <= k <= |t|
    ensures LegacySetAfter(t, k).None? <==> Factoids.SetMatchAfter(t, k).None?
    ensures LegacySetAfter(t, k).Some? ==> LegacySetAfter(t, k).value == WithTag(Factoids.SetMatchAfter(t, k).value)
  {
    if Factoids.VerbAt(t, k).Some? {
      var be := Factoids.VerbAt(t, k).value;
      var p := k + 2 + |be|;
      ValueAgrees(t, p);
      if Factoids.ReplyAndValueAt(t, p).Some? {
        var rv := Factoids.ReplyAndValueAt(t, p).value;
        assert Factoids.SetMatchAfter(t, k) == Some(Factoids.SetMatch(t[..k], be, rv.0, rv.1));
        assert LegacySetAfter(t, k) == Some((t[..k], be, t[p..]));
      } else {
        assert Factoids.SetMatchAfter(t, k) == None;
        assert LegacySetAfter(t, k) == None;
      }
    }
  }

  /** `(.+)$` matches from `p` exactly when `(<reply>)?(.+)$` does, and captures the tag and the value together. */
  lemma {:induction false} ValueAgrees(t: string, p: nat)
    requires p <= |t|
    ensures Factoids.ReplyAndValueAt(t, p).Some? <==> p < |t| && Patterns.DotsFrom(t, p)
    ensures Factoids.ReplyAndValueAt(t, p).Some? ==>
              t[p..] == (if Factoids.ReplyAndValueAt(t, p).value.0 then ReplyTag else "") + Factoids.ReplyAndValueAt(t, p).value.1
  {
    if Factoids.HasAt(t, p, ReplyTag) && p + 7 < |t| && Patterns.DotsFrom(t, p + 7) {
      forall j | p <= j < p + 7
        ensures !IsLineTerminator(t[j])
      {
        assert t[j] == ReplyTag[j - p];
      }
      assert Patterns.DotsFrom(t, p);
    }
  }

  /** The lazy first group searched from `k` on: the match after the first subject, on one line, that lets the rest match. */
  function LegacySetFrom(t: string, k: nat): (r: Option<(string, string, string)>)
    requires 1 <= k <= |t|
    ensures r.Some? ==> k <= |r.value.0| < |t| && Patterns.DotsFrom(r.value.0, k - 1)
    ensures r.Some? ==> LegacySetAfter(t, |r.value.0|) == r
    decreases |t| - k
  {
    if k == |t| || IsLineTerminator(t[k - 1]) then None
    else match LegacySetAfter(t, k)
      case Some(m) => Some(m)
      case None => LegacySetFrom(t, k + 1)
  }

  /** From the same start, the legacy search finds the same first group as the later one. */
  lemma {:induction false} LegacySetFromAgrees(t: string, k: nat)
    requires 1 <= k <= |t|
    ensures LegacySetFrom(t, k).None? <==> Factoids.SetMatchFrom(t, k).None?
    ensures LegacySetFrom(t, k).Some? ==> LegacySetFrom(t, k).value == WithTag(Factoids.SetMatchFrom(t, k).value)
    decreases |t| - k
  {
    if k < |t| && !IsLineTerminator(t[k - 1]) {
      LegacySetAfterAgrees(t, k);
      if LegacySetAfter(t, k).None? {
        LegacySetFromAgrees(t, k + 1);
      }
    }
  }

  /**
   * The set listener's groups (subject, verb, value): a non-empty one-line
   * subject, "is" or "are", and a non-empty value.
   */
  function ParseLegacySet(t: string): (r: Option<(string, string, string)>)
    ensures r.Some? ==> r.value.0 != [] && Patterns.DotsFrom(r.value.0, 0)
    ensures r.Some? ==> (r.value.1 == "is" || r.value.1 == "are") && r.value.2 != []
  {
    if t == [] then None else LegacySetFrom(t, 1)
  }

  /**
   * The set listener matches exactly the texts the later `(<reply>)?`
   * pattern matches, with the same subject and verb, and keeps any
   * `<reply>` tag inside the value.
   */
  lemma {:induction false} ParseLegacySetAgrees(t: string)
    ensures ParseLegacySet(t).None? <==> Factoids.ParseSet(t).None?
    ensures ParseLegacySet(t).Some? ==> ParseLegacySet(t).value == WithTag(Factoids.ParseSet(t).value)
  {
    if t != [] {
      LegacySetFromAgrees(t, 1);
    }
  }

  // ------------------------------------------------------------ the store

  /** The answers the confirmation conversation understands. */
  datatype Answer = Yes | No | AppendIt

  /** What a set listener said: an acknowledgement, or the question it asked. */
  datatype SetOutcome =
    | Ignored
    | Saved(reply: string)
    | Asked(reply: string, question: string, existing: LegacyFact, candidate: LegacyFact)

  class LegacyFactoidStore {
    /** The team's record `<team>_factoids`: facts by key, plus its `id`. */
    var facts: map<string, LegacyFact>
    var id: Option<string>

    /** Every fact is filed under its own key. */
    ghost predicate Valid()
      reads this
    {
      forall k :: k in facts ==> facts[k].key == k
    }

    constructor ()
      ensures Valid() && facts == map[] && id == None
    {
      facts := map[];
      id := None;
    }

    /** `getFact`: the fact under the key exactly as typed; none when it is missing. */
    function GetFact(key: string): (r: Option<LegacyFact>)
      reads this
      ensures r.Some? <==> key in facts
      ensures r.Some? ==> r.value == facts[key]
    {
      if key in facts then Some(facts[key]) else None
    }

    /** `saveFact`: overwrites the key's fact and stamps the record's id. */
    method SaveFact(team: string, key: string, be: string, value: seq<string>)
      requires Valid()
      modifies this
      ensures Valid()
      ensures facts == old(facts)[key := LegacyFact(key, be, value)]
      ensures id == Some(team + "_factoids")
    {
      facts := facts[key := LegacyFact(key, be, value)];
      id := Some(team + "_factoids");
    }

    /** The retrieval listener: the text of the fact the message asks about, if any. */
    method Retrieve(text: string) returns (reply: Option<string>)
      ensures RetrievalKey(text).None? ==> reply == None
      ensures RetrievalKey(text).Some? ==>
                reply == (if RetrievalKey(text).value in facts then Some(RenderedAsWritten(facts[RetrievalKey(text).value])) else None)
    {
      var key := RetrievalKey(text);
      if key.Some? {
        var fact := GetFact(key.value);
        if fact.Some? {
          var s := FactStringAsWritten(fact.value);
          return Some(s);
        }
      }
      return None;
    }

    /**
     * `setFact`: a new key is saved and acknowledged; a known key is left
     * alone and the user is asked what to do.
     */
    method SetFact(team: string, text: string) returns (outcome: SetOutcome)
      requires Valid()
      modifies this
      ensures Valid()
      ensures ParseLegacySet(text).None? ==> outcome == Ignored && facts == old(facts) && id == old(id)
      ensures ParseLegacySet(text).Some? ==>
                var (k, be, v) := ParseLegacySet(text).value;
                var fact := LegacyFact(Trim(k), Trim(be), [Trim(v)]);
                if fact.key !in old(facts) then
                  facts == old(facts)[fact.key := fact] && id == Some(team + "_factoids")
                  && outcome == Saved("Got it!")
                else
                  facts == old(facts) && id == old(id) && outcome.Asked?
                  && outcome == Asked("I already have a factoid for \"" + fact.key + "\". It says \""
                                        + RenderedAsWritten(old(facts)[fact.key]),
                                      "Do you want me to update it? Say YES, NO, or APPEND",
                                      old(facts)[fact.key], fact)
    {
      var parsed := ParseLegacySet(text);
      if parsed.None? {
        return Ignored;
      }
      var (k, be, v) := parsed.value;
      var fact := LegacyFact(Trim(k), Trim(be), [Trim(v)]);
      var existing := GetFact(fact.key);
      if existing.None? {
        SaveFact(team, fact.key, fact.be, fact.value);
        return Saved("Got it!");
      }
      var shown := FactStringAsWritten(existing.value);
      outcome := Asked("I already have a factoid for \"" + fact.key + "\". It says \"" + shown,
                       "Do you want me to update it? Say YES, NO, or APPEND", existing.value, fact);
    }

    /**
     * The answer to the question: yes overwrites with the new fact, append
     * saves the fact read when the question was asked with the new values
     * after its own, no changes nothing.
     */
    method Answered(team: string, existing: LegacyFact, fact: LegacyFact, answer: Answer)
      returns (replies: seq<string>)
      requires Valid()
      modifies this
      ensures Valid()
      ensures answer == Yes ==> facts == old(facts)[fact.key := fact] && id == Some(team + "_factoids")
      ensures answer == Yes ==> replies == ["Okay, I've overwritten the existing factoid", RenderedAsWritten(fact)]
      ensures answer == AppendIt ==>
                var now := existing.(value := existing.value + fact.value);
                facts == old(facts)[existing.key := now] && id == Some(team + "_factoids")
                && replies == ["Okay, I've updated it", RenderedAsWritten(now)]
      ensures answer == No ==> facts == old(facts) && id == old(id) && replies == ["Okay, I'll leave it as is."]
    {
      match answer
      case Yes =>
        SaveFact(team, fact.key, fact.be, fact.value);
        var shown := FactStringAsWritten(fact);
        replies := ["Okay, I've overwritten the existing factoid", shown];
      case AppendIt =>
        var now := existing.(value := existing.value + fact.value);
        SaveFact(team, now.key, now.be, now.value);
        var shown := FactStringAsWritten(now);
        replies := ["Okay, I've updated it", shown];
      case No =>
        replies := ["Okay, I'll leave it as is."];
    }

    /** `forgetFact` has an empty body: nothing is deleted and nothing is said. */
    method ForgetFact(text: string) returns (reply: Option<string>)
      ensures reply == None
    {
      reply := None;
    }
  }

  /**
   * Appending through the conversation, as written: the new value joins
   * the ","-separated list inside the first piece, and is also added once
   * more at the end after " and also ".
   */
  lemma {:induction false} AppendThenRender(existing: LegacyFact, v: string)
    requires existing.value != []
    ensures RenderedAsWritten(existing.(value := existing.value + [v]))
         == HeadAsWritten(existing) + "," + v + AlsoTail(existing.value[1..]) + (" and also " + StripReply(v))
  {
    var now := existing.(value := existing.value + [v]);
    assert RenderedAsWritten(now) == HeadAsWritten(now) + AlsoTail(now.value[1..]);
    HeadAsWrittenSnoc(existing, v);
    AlsoTailSnoc(existing.value[1..], v);
    assert now.value[1..] == existing.value[1..] + [v];
  }

  /** The first piece after appending `v`: the list inside it gains ",v". */
  lemma HeadAsWrittenSnoc(f: LegacyFact, v: string)
    requires f.value != []
    ensures HeadAsWritten(f.(value := f.value + [v])) == HeadAsWritten(f) + "," + v
  {
    JoinAppend(f.value, v, ",");
    assert (f.value + [v])[0] == f.value[0];
  }
}
