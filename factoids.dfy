/**
 * The factoid store of the current plugin (src/plugins/factoids.ts) and of
 * the previous JavaScript plugin (plugins/factoids.js), which share their
 * logic line for line: facts keyed by a normalised index, rendered by
 * `factString`, listed, queried, set with a confirmation step when the
 * index is taken, and forgotten.
 */
module Factoids {
  import opened Wrappers
  import opened Text
  import opened Slack
  import opened Sorting
  import Patterns

  /** A stored fact: "<key> <be> <value>", or `value` verbatim when `reply`. */
  datatype Fact = Fact(index: string, key: string, be: string, reply: bool, value: seq<string>)

  // ---------------------------------------------------------------- factString

  /** The values of a reply fact from its first non-empty one on. */
  function DropLeadingEmpty(vs: seq<string>): (r: seq<string>)
    ensures r == [] || r[0] != ""
    ensures |r| <= |vs|
  {
    if vs == [] || vs[0] != "" then vs else DropLeadingEmpty(vs[1..])
  }

  /** What is dropped is all empty, and what is kept is the rest of the values, in order. */
  lemma {:induction false} DropLeadingEmptySuffix(vs: seq<string>)
    ensures var r := DropLeadingEmpty(vs);
            && (forall i :: 0 <= i < |vs| - |r| ==> vs[i] == "")
            && vs[|vs| - |r|..] == r
  {
    if vs != [] && vs[0] == "" {
      var tl := vs[1..];
      DropLeadingEmptySuffix(tl);
      var r := DropLeadingEmpty(tl);
      assert DropLeadingEmpty(vs) == r;
      assert vs[|vs| - |r|..] == tl[|tl| - |r|..];
      forall i | 0 <= i < |vs| - |r|
        ensures vs[i] == ""
      {
        if i > 0 {
          assert vs[i] == tl[i - 1];
        }
      }
    } else {
      assert DropLeadingEmpty(vs) == vs;
      assert vs[0..] == vs;
    }
  }

  /**
   * What `factString` produces, stated as a join: the first piece is the
   * sentence "<key> <be> <first value>" (or, for a reply fact, its first
   * non-empty value), and every later value follows after " and also ".
   * A reply fact's empty leading values leave the text empty, so the next
   * value is treated as the first. A fact without values renders as "";
   * a plain fact opens with its sentence and a reply fact with its first
   * value, when that is not empty.
   */
  function Rendered(f: Fact): (r: string)
    ensures f.value == [] ==> r == ""
    ensures f.value != [] && !f.reply ==> StartsWith(r, f.key + " " + f.be + " " + f.value[0])
    ensures f.value != [] && f.reply && f.value[0] != "" ==> StartsWith(r, f.value[0])
  {
    if f.reply then
      var d := DropLeadingEmpty(f.value);
      if d == [] then "" else JoinNonEmpty(d, " and also "); Join(d, " and also ")
    else if f.value == [] then ""
    else
      var parts := [f.key + " " + f.be + " " + f.value[0]] + f.value[1..];
      JoinNonEmpty(parts, " and also ");
      Join(parts, " and also ")
  }

  lemma {:induction false} JoinNonEmpty(parts: seq<string>, sep: string)
    requires parts != [] && parts[0] != ""
    ensures Join(parts, sep) != ""
    ensures StartsWith(Join(parts, sep), parts[0])
  {
    if |parts| > 1 {
      assert Join(parts, sep) == parts[0] + (sep + Join(parts[1..], sep));
    }
  }

  lemma {:induction false} DropLeadingEmptySnoc(vs: seq<string>, v: string)
    ensures DropLeadingEmpty(vs) == [] ==> DropLeadingEmpty(vs + [v]) == (if v == "" then [] else [v])
    ensures DropLeadingEmpty(vs) != [] ==> DropLeadingEmpty(vs + [v]) == DropLeadingEmpty(vs) + [v]
  {
    if vs != [] && vs[0] == "" {
      assert (vs + [v])[1..] == vs[1..] + [v];
      DropLeadingEmptySnoc(vs[1..], v);
    }
  }

  /**
   * One step of the `factString` loop: while the text is still empty the
   * value starts it, and afterwards it is added as " and also <value>".
   */
  lemma {:induction false} RenderedSnoc(f: Fact, v: string)
    ensures var g := f.(value := f.value + [v]);
      Rendered(g) == if Rendered(f) == "" then (if f.reply then v else f.key + " " + f.be + " " + v)
                     else Rendered(f) + " and also " + v
  {
    var g := f.(value := f.value + [v]);
    if f.reply {
      DropLeadingEmptySnoc(f.value, v);
      var d := DropLeadingEmpty(f.value);
      if d != [] {
        JoinNonEmpty(d, " and also ");
        JoinAppend(d, v, " and also ");
      }
    } else if f.value != [] {
      var parts := [f.key + " " + f.be + " " + f.value[0]] + f.value[1..];
      assert [f.key + " " + f.be + " " + g.value[0]] + g.value[1..] == parts + [v];
      JoinNonEmpty(parts, " and also ");
      JoinAppend(parts, v, " and also ");
    }
  }

  /** `RenderedSnoc` on the first `i` values and the next one. */
  lemma {:induction false} RenderedPrefixStep(f: Fact, i: nat)
    requires i < |f.value|
    ensures var was := Rendered(f.(value := f.value[..i]));
            var v := f.value[i];
            Rendered(f.(value := f.value[..i + 1]))
              == if was == "" then (if f.reply then v else f.key + " " + f.be + " " + v) else was + " and also " + v
  {
    var v := f.value[i];
    assert f.value[..i + 1] == f.value[..i] + [v];
    var before := f.(value := f.value[..i]);
    RenderedSnoc(before, v);
    assert before.(value := before.value + [v]) == f.(value := f.value[..i + 1]);
  }

  /** `factString`: builds the text value by value, as the `forEach` loop does. */
  method FactString(f: Fact) returns (result: string)
    ensures result == Rendered(f)
  {
    result := "";
    for i := 0 to |f.value|
      invariant result == Rendered(f.(value := f.value[..i]))
    {
      RenderedPrefixStep(f, i);
      result := AddValue(f, result, f.value[i]);
    }
    assert f.value[..|f.value|] == f.value;
  }

  /** The `forEach` callback of `factString`, on the text so far and one value. */
  method AddValue(f: Fact, result: string, value: string) returns (r: string)
    ensures r == if result == "" then (if f.reply then value else f.key + " " + f.be + " " + value)
                 else result + " and also " + value
  {
    r := result;
    if r == "" {
      if f.reply {
        r := r + value;
      } else {
        r := r + f.key + " " + f.be + " " + value;
      }
    } else {
      r := r + " and also " + value;
    }
  }

  // ---------------------------------------------------------------- parsing

  /** `s[p..]` starts with `w`. */
  predicate HasAt(s: string, p: nat, w: string) {
    p + |w| <= |s| && s[p..p + |w|] == w
  }

  /** The four groups of `^(.+?)\s(is|are)\s(<reply>)?(.+)$`. */
  datatype SetMatch = SetMatch(subject: string, be: string, replyTag: bool, value: string)

  /** The text a set match was taken from, put back together. */
  function Unparse(m: SetMatch, gap1: char, gap2: char): string {
    m.subject + [gap1] + m.be + [gap2] + (if m.replyTag then "<reply>" else "") + m.value
  }

  /**
   * `(<reply>)?(.+)$` on `t[p..]`, trying the `<reply>` group first: the
   * value is one non-empty line, and with the optional tag it is all of
   * `t[p..]`.
   */
  function ReplyAndValueAt(t: string, p: nat): (r: Option<(bool, string)>)
    requires p <= |t|
    ensures r.Some? ==> r.value.1 != [] && Patterns.DotsFrom(r.value.1, 0)
    ensures r.Some? ==> t[p..] == (if r.value.0 then "<reply>" else "") + r.value.1
  {
    if HasAt(t, p, "<reply>") && p + 7 < |t| && Patterns.DotsFrom(t, p + 7) then
      assert t[p..] == "<reply>" + t[p + 7..];
      Some((true, t[p + 7..]))
    else if p < |t| && Patterns.DotsFrom(t, p) then Some((false, t[p..]))
    else None
  }

  /** `\s(is|are)\s` at `k`: the verb between two white-space characters. */
  function VerbAt(t: string, k: nat): (r: Option<string>)
    ensures r.Some? ==> (r.value == "is" || r.value == "are") && k + |r.value| + 2 <= |t|
  {
    if k + 4 <= |t| && IsSpace(t[k]) && t[k + 1..k + 3] == "is" && IsSpace(t[k + 3]) then Some("is")
    else if k + 5 <= |t| && IsSpace(t[k]) && t[k + 1..k + 4] == "are" && IsSpace(t[k + 4]) then Some("are")
    else None
  }

  /** The verb found sits between two white-space characters. */
  lemma {:induction false} VerbAtSound(t: string, k: nat)
    ensures var r := VerbAt(t, k);
            r.Some? ==> IsSpace(t[k]) && t[k + 1..k + 1 + |r.value|] == r.value && IsSpace(t[k + 1 + |r.value|])
  {
  }

  /**
   * The regex after its first group, with that group being `t[..k]`: a
   * match keeps `t[..k]` as its subject and has "is" or "are" as its verb.
   */
  function SetMatchAfter(t: string, k: nat): (r: Option<SetMatch>)
    requires 1 <= k <= |t|
    ensures r.Some? ==> r.value.subject == t[..k] && (r.value.be == "is" || r.value.be == "are")
    ensures r.Some? ==> k + 2 + |r.value.be| <= |t|
  {
    match VerbAt(t, k)
    case None => None
    case Some(be) =>
      match ReplyAndValueAt(t, k + 2 + |be|)
      case None => None
      case Some(rv) => Some(SetMatch(t[..k], be, rv.0, rv.1))
  }

  /** A match after `t[..k]` puts the text back together around the two characters beside the verb. */
  lemma {:induction false} SetMatchAfterUnparse(t: string, k: nat)
    requires 1 <= k <= |t|
    ensures var r := SetMatchAfter(t, k);
            r.Some? ==> k + 2 + |r.value.be| <= |t| && t == Unparse(r.value, t[k], t[k + 1 + |r.value.be|])
  {
    if VerbAt(t, k).Some? {
      var be := VerbAt(t, k).value;
      if ReplyAndValueAt(t, k + 2 + |be|).Some? {
        var rv := ReplyAndValueAt(t, k + 2 + |be|).value;
        SetMatchAfterOf(t, k, be, rv);
        UnparseAround(t, k, be, rv);
      }
    }
  }

  /** The match after `t[..k]` built from the verb and the tagged value found there. */
  lemma {:induction false} SetMatchAfterOf(t: string, k: nat, be: string, rv: (bool, string))
    requires 1 <= k <= |t|
    requires VerbAt(t, k) == Some(be)
    requires ReplyAndValueAt(t, k + 2 + |be|) == Some(rv)
    ensures SetMatchAfter(t, k) == Some(SetMatch(t[..k], be, rv.0, rv.1))
  {
  }

  /** The verb and the tagged value found after `t[..k]` are all of the rest of `t`. */
  lemma {:induction false} UnparseAround(t: string, k: nat, be: string, rv: (bool, string))
    requires 1 <= k <= |t|
    requires VerbAt(t, k) == Some(be)
    requires ReplyAndValueAt(t, k + 2 + |be|) == Some(rv)
    ensures k + 2 + |be| <= |t| && t == Unparse(SetMatch(t[..k], be, rv.0, rv.1), t[k], t[k + 1 + |be|])
  {
    VerbAtSound(t, k);
    SplitAroundVerb(t, k, k + 1 + |be|, k + 2 + |be|, be, rv.0, rv.1);
  }

  /** The two characters around the verb of a match after `t[..k]` are white space. */
  lemma {:induction false} SetMatchAfterGaps(t: string, k: nat)
    requires 1 <= k <= |t|
    ensures var r := SetMatchAfter(t, k);
            r.Some? ==> k + 2 + |r.value.be| <= |t| && IsSpace(t[k]) && IsSpace(t[k + 1 + |r.value.be|])
  {
    if VerbAt(t, k).Some? {
      var be := VerbAt(t, k).value;
      if ReplyAndValueAt(t, k + 2 + |be|).Some? {
        var rv := ReplyAndValueAt(t, k + 2 + |be|).value;
        SetMatchAfterOf(t, k, be, rv);
        VerbAtSound(t, k);
      }
    }
  }

  /** The value of a match after `t[..k]` is one non-empty line. */
  lemma {:induction false} SetMatchAfterValue(t: string, k: nat)
    requires 1 <= k <= |t|
    ensures var r := SetMatchAfter(t, k);
            r.Some? ==> r.value.value != [] && Patterns.DotsFrom(r.value.value, 0)
  {
    if VerbAt(t, k).Some? {
      var be := VerbAt(t, k).value;
      if ReplyAndValueAt(t, k + 2 + |be|).Some? {
        var rv := ReplyAndValueAt(t, k + 2 + |be|).value;
        SetMatchAfterOf(t, k, be, rv);
            assert rv.1 != [] && Patterns.DotsFrom(rv.1, 0);
      }
    }
  }

  /** The text cut at the two white-space characters around the verb. */
  lemma {:induction false} SplitAroundVerb(t: string, k: nat, q: nat, p: nat, be: string, tag: bool, value: string)
    requires k + 1 + |be| == q && q + 1 == p && q < |t|
    requires t[k + 1..q] == be
    requires t[p..] == (if tag then "<reply>" else "") + value
    ensures t == Unparse(SetMatch(t[..k], be, tag, value), t[k], t[k + 1 + |be|])
  {
    assert t == t[..k] + [t[k]] + t[k + 1..q] + [t[q]] + t[p..];
  }

  /**
   * The lazy first group searched from `k` on: the match found is the one
   * after its own subject, which is one line.
   */
  function SetMatchFrom(t: string, k: nat): (r: Option<SetMatch>)
    requires 1 <= k <= |t|
    ensures r.Some? ==> k <= |r.value.subject| < |t| && Patterns.DotsFrom(r.value.subject, k - 1)
    ensures r.Some? ==> SetMatchAfter(t, |r.value.subject|) == r
    decreases |t| - k
  {
    if k == |t| || IsLineTerminator(t[k - 1]) then None
    else match SetMatchAfter(t, k)
      case Some(m) => Some(m)
      case None => SetMatchFrom(t, k + 1)
  }

  /** The group is the shortest: no subject from `k` on that is shorter than the one found lets the rest match. */
  lemma {:induction false} SetMatchFromShortest(t: string, k: nat)
    requires 1 <= k <= |t|
    ensures var r := SetMatchFrom(t, k);
            r.Some? ==> forall j :: k <= j < |r.value.subject| ==> SetMatchAfter(t, j).None?
    decreases |t| - k
  {
    if k < |t| && !IsLineTerminator(t[k - 1]) && SetMatchAfter(t, k).None? {
      var r := SetMatchFrom(t, k + 1);
      assert SetMatchFrom(t, k) == r;
      SetMatchFromShortest(t, k + 1);
      if r.Some? {
        forall j | k <= j < |r.value.subject|
          ensures SetMatchAfter(t, j).None?
        {
          if j > k {
            assert k + 1 <= j;
          }
        }
      }
    }
  }

  /** A subject ending at `j`, on one line from `k` on, after which the rest matches, is found from `k`. */
  lemma {:induction false} SetMatchFromComplete(t: string, k: nat, j: nat)
    requires 1 <= k <= j < |t|
    requires forall i :: k - 1 <= i < j ==> !IsLineTerminator(t[i])
    requires SetMatchAfter(t, j).Some?
    ensures SetMatchFrom(t, k).Some?
    decreases j - k
  {
    if k < j && SetMatchAfter(t, k).None? {
      SetMatchFromComplete(t, k + 1, j);
    }
  }

  /**
   * `text.match(/^(.+?)\s(is|are)\s(<reply>)?(.+)$/)`: the shortest first
   * group for which the rest matches, on the text's first line, followed
   * by "is" or "are".
   */
  function ParseSet(t: string): (r: Option<SetMatch>)
    ensures r.Some? ==> 1 <= |r.value.subject| < |t| && Patterns.DotsFrom(r.value.subject, 0)
    ensures r.Some? ==> r.value.be == "is" || r.value.be == "are"
    ensures r.Some? ==> SetMatchAfter(t, |r.value.subject|) == r
    ensures r.Some? ==> forall j :: 1 <= j < |r.value.subject| ==> SetMatchAfter(t, j).None?
  {
    if t == [] then None else SetMatchFromShortest(t, 1); SetMatchFrom(t, 1)
  }

  /**
   * The text is the four groups with a white-space character on each side
   * of "is"/"are", and the value is one non-empty line.
   */
  lemma {:induction false} ParseSetSound(t: string)
    ensures var r := ParseSet(t);
            && (r.Some? ==> r.value.value != [] && Patterns.DotsFrom(r.value.value, 0))
            && (r.Some? ==> exists g1, g2 :: IsSpace(g1) && IsSpace(g2) && t == Unparse(r.value, g1, g2))
  {
    if t != [] {
      var r := SetMatchFrom(t, 1);
      if r.Some? {
        var k := |r.value.subject|;
        SetMatchAfterUnparse(t, k);
        SetMatchAfterGaps(t, k);
        SetMatchAfterValue(t, k);
        assert t == Unparse(r.value, t[k], t[k + 1 + |r.value.be|]);
      }
    }
  }

  /**
   * Every text of the shape the pattern describes is parsed, and the
   * subject found is no longer than the one the text was built from.
   */
  lemma {:induction false} ParseSetComplete(subject: string, g1: char, be: string, g2: char, tag: bool, value: string)
    requires subject != [] && Patterns.DotsFrom(subject, 0)
    requires IsSpace(g1) && IsSpace(g2) && (be == "is" || be == "are")
    requires value != [] && Patterns.DotsFrom(value, 0)
    ensures var r := ParseSet(Unparse(SetMatch(subject, be, tag, value), g1, g2));
            r.Some? && |r.value.subject| <= |subject|
  {
    var t := Unparse(SetMatch(subject, be, tag, value), g1, g2);
    SplitPieces(subject, g1, be, g2, tag, value);
    ParseSetFinds(t, |subject|, be, tag, value);
  }

  /** `ParseSetComplete` on the text itself, cut after its first `k` characters. */
  lemma {:induction false} ParseSetFinds(t: string, k: nat, be: string, tag: bool, value: string)
    requires 1 <= k && k + 2 + |be| <= |t|
    requires Patterns.DotsFrom(t[..k], 0)
    requires IsSpace(t[k]) && t[k + 1..k + 1 + |be|] == be && IsSpace(t[k + 1 + |be|]) && (be == "is" || be == "are")
    requires t[k + 2 + |be|..] == (if tag then "<reply>" else "") + value
    requires value != [] && Patterns.DotsFrom(value, 0)
    ensures ParseSet(t).Some? && |ParseSet(t).value.subject| <= k
  {
    VerbAtOf(t, k, be);
    ReplyAndValueAtSome(t, k + 2 + |be|, tag, value);
    assert SetMatchAfter(t, k).Some?;
    assert forall i :: 0 <= i < k ==> t[..k][i] == t[i];
    SetMatchFromComplete(t, 1, k);
  }

  /** `\s(is|are)\s` at `k` finds the verb that is there. */
  lemma {:induction false} VerbAtOf(t: string, k: nat, be: string)
    requires k + 2 + |be| <= |t| && (be == "is" || be == "are")
    requires IsSpace(t[k]) && t[k + 1..k + 1 + |be|] == be && IsSpace(t[k + 1 + |be|])
    ensures VerbAt(t, k) == Some(be)
  {
    if be == "are" {
      assert t[k + 1] == 'a';
    }
  }

  /** Where the pieces of a put-together text sit, as `ParseSetFinds` asks for them. */
  lemma {:induction false} SplitPieces(subject: string, g1: char, be: string, g2: char, tag: bool, value: string)
    requires subject != [] && Patterns.DotsFrom(subject, 0)
    requires IsSpace(g1) && IsSpace(g2)
    ensures var t := Unparse(SetMatch(subject, be, tag, value), g1, g2);
            var k := |subject|;
            && k + 2 + |be| <= |t|
            && Patterns.DotsFrom(t[..k], 0)
            && IsSpace(t[k]) && t[k + 1..k + 1 + |be|] == be && IsSpace(t[k + 1 + |be|])
            && t[k + 2 + |be|..] == (if tag then "<reply>" else "") + value
  {
    var t := Unparse(SetMatch(subject, be, tag, value), g1, g2);
    assert t[..|subject|] == subject;
  }


  /** `(<reply>)?(.+)$` matches a tag-or-not followed by one non-empty line. */
  lemma {:induction false} ReplyAndValueAtSome(t: string, p: nat, tag: bool, value: string)
    requires p <= |t| && t[p..] == (if tag then "<reply>" else "") + value
    requires value != [] && Patterns.DotsFrom(value, 0)
    ensures ReplyAndValueAt(t, p).Some?
  {
    var q := if tag then p + 7 else p;
    assert t[q..] == value;
    assert forall i :: q <= i < |t| ==> t[i] == value[i - q];
    assert Patterns.DotsFrom(t, q);
    if tag {
      assert t[p..p + 7] == "<reply>";
    }
  }

  /** `^forget\s(.*?)$`: the text after "forget" and one white-space character. */
  function ParseForget(t: string): (r: Option<string>)
    ensures r.Some? ==> exists g :: IsSpace(g) && t == "forget" + [g] + r.value
    ensures r.Some? ==> Patterns.DotsFrom(r.value, 0)
  {
    if HasAt(t, 0, "forget") && 7 <= |t| && IsSpace(t[6]) && Patterns.DotsFrom(t, 7) then
      assert t == "forget" + [t[6]] + t[7..];
      Some(t[7..])
    else None
  }

  /** A character of the query token class `[^.,!?\s]`. */
  predicate IsTokenChar(c: char) {
    c != '.' && c != ',' && c != '!' && c != '?' && !IsSpace(c)
  }

  function AllTokenChars(s: string, i: nat): (b: bool)
    requires i <= |s|
    ensures b <==> forall k :: i <= k < |s| ==> IsTokenChar(s[k])
    decreases |s| - i
  {
    i == |s| || (IsTokenChar(s[i]) && AllTokenChars(s, i + 1))
  }

  /**
   * `^!factoid:\s*([^.,!?\s]+)\?$`: the token between the white space after
   * "!factoid:" and the closing "?".
   */
  function ParseQuery(t: string): (r: Option<string>)
    ensures r.Some? ==> r.value != [] && AllTokenChars(r.value, 0)
    ensures r.Some? ==> exists gap :: AllSpace(gap) && t == "!factoid:" + gap + r.value + "?"
  {
    if HasAt(t, 0, "!factoid:") then
      var e := SpaceRunEnd(t, 9);
      if e + 2 <= |t| && t[|t| - 1] == '?' && AllTokenChars(t[..|t| - 1], e) then
        var token := t[e..|t| - 1];
        assert AllSpace(t[9..e]);
        assert t == "!factoid:" + t[9..e] + token + "?";
        Some(token)
      else None
    else None
  }

  /** An example of `ParseQuery`: the token between the prefix and the final `?`. */
  lemma {:induction false} ParseQueryExample()
    ensures ParseQuery("!factoid: tea?") == Some("tea")
  {
    var t := "!factoid: tea?";
    assert HasAt(t, 0, "!factoid:");
    assert SpaceRunEnd(t, 9) == 10;
    assert t[..|t| - 1] == "!factoid: tea";
    assert AllTokenChars("!factoid: tea", 10);
  }

  /** A token with white space in it is not a query. */
  lemma {:induction false} ParseQueryRejectsSpace()
    ensures ParseQuery("!factoid: tea time?") == None
  {
    var t := "!factoid: tea time?";
    assert SpaceRunEnd(t, 9) == 10;
    assert !IsTokenChar(t[..|t| - 1][13]);
  }

  // ---------------------------------------------------------------- normalisation

  /** The index a subject is stored under: a mentioned user's id, else the lower-cased text. */
  function IndexFor(dir: Directory, subject: string): (r: string)
    ensures MentionedUserId(subject).Some? && MentionedUserId(subject).value in dir
            ==> r == dir[MentionedUserId(subject).value].id
    ensures UserOfText(dir, subject).None? ==> r == ToLower(subject) && ToLower(r) == r
  {
    match UserOfText(dir, subject)
    case Some(u) => u.id
    case None => Patterns.ToLowerIdempotent(subject); ToLower(subject)
  }

  /** The fact a set builds from the groups of its match. */
  function NewFact(dir: Directory, m: SetMatch): (f: Fact)
    ensures f.index == IndexFor(dir, Trim(m.subject))
    ensures f.key == (if UserOfText(dir, Trim(m.subject)).Some? then "<@" + f.index + ">" else f.index)
    ensures f.be == (if Trim(m.be) != "" then Trim(m.be) else "is")
    ensures f.value == [Trim(m.value)] && f.reply == m.replyTag
  {
    var subject := Trim(m.subject);
    var be := if Trim(m.be) != "" then Trim(m.be) else "is";
    match UserOfText(dir, subject)
    case Some(u) => Fact(u.id, "<@" + u.id + ">", be, m.replyTag, [Trim(m.value)])
    case None => Fact(ToLower(subject), ToLower(subject), be, m.replyTag, [Trim(m.value)])
  }

  /**
   * A subject that is a mention of a known user is filed under that user's
   * id and shown as the mention; any other subject is filed and shown
   * lower-cased.
   */
  lemma {:induction false} NewFactNormalises(dir: Directory, m: SetMatch, id: string)
    requires Trim(m.subject) == "<@" + id + ">"
    requires 2 <= |id| && (id[0] == 'U' || id[0] == 'W')
    requires forall j :: 0 <= j < |id| ==> IsUpperAlnum(id[j])
    ensures id in dir ==> NewFact(dir, m).index == dir[id].id
    ensures id in dir ==> NewFact(dir, m).key == "<@" + dir[id].id + ">"
    ensures id !in dir ==> NewFact(dir, m).index == NewFact(dir, m).key == ToLower(Trim(m.subject))
  {
    MentionedUserIdOfToken(id);
  }

  /** A subject without a user mention is filed and shown lower-cased. */
  lemma {:induction false} NewFactPlain(dir: Directory, m: SetMatch)
    requires MentionedUserId(Trim(m.subject)).None?
    ensures NewFact(dir, m).index == ToLower(Trim(m.subject))
    ensures NewFact(dir, m).key == ToLower(Trim(m.subject))
  {
  }

  lemma {:induction false} TrimBlank(s: string)
    ensures Trim(s) == "" ==> AllSpace(s)
  {
    var a := LeadingSpaces(s);
    var t := s[a..];
    assert Trim(s) == t[..|t| - TrailingSpaces(t)];
    if Trim(s) == "" {
      assert t[|t| - TrailingSpaces(t)..] == t;
      assert a == |s|;
      assert s[..a] == s;
    }
  }

  /**
   * The set handler gives up on a subject that trims to nothing, but the
   * mention text it matches is already trimmed, so the subject starts with
   * a character that is not white space and that guard never fires.
   */
  lemma {:induction false} SetSubjectNotBlank(t: string)
    requires IsTrimmed(t) && ParseSet(t).Some?
    ensures Trim(ParseSet(t).value.subject) != ""
  {
    ParseSetSound(t);
    var m := ParseSet(t).value;
    var g1, g2 :| IsSpace(g1) && IsSpace(g2) && t == Unparse(m, g1, g2);
    assert t[0] == m.subject[0];
    TrimBlank(m.subject);
  }

  // ---------------------------------------------------------------- the store

  /** What a mention of the bot led to; `thread` is where the reply goes (None: the channel). */
  datatype MentionOutcome =
    | NoReply
    | Said(text: string, thread: ThreadTs)
    /**
     * The index was taken: the user is asked, under the mention itself,
     * whether to update, append or cancel. `question` is the message's
     * fallback text and `section` the text of its first block, which
     * quotes the stored fact.
     */
    | AskedToReplace(question: string, section: string, thread: ThreadTs, existing: Fact, candidate: Fact)

  /**
   * Where the set and forget replies go: the TypeScript plugin always
   * replies in a thread (the mention's thread, or a new one under the
   * mention), the JavaScript plugin only inside an existing thread.
   */
  function ReplyTarget(gen: Generation, threadTs: ThreadTs, ts: string): (r: ThreadTs)
    ensures threadTs.Some? && threadTs.value != "" ==> r == threadTs
    ensures gen == TypeScript ==> r.Some?
  {
    match gen
    case TypeScript => Some(ReplyThread(threadTs, ts))
    case JavaScript => ThreadIfAny(threadTs)
  }

  /** The TypeScript plugin never answers a set or forget in the channel itself. */
  lemma {:induction false} TypeScriptRepliesInThread(threadTs: ThreadTs, ts: string)
    ensures ReplyTarget(TypeScript, threadTs, ts).Some?
    ensures threadTs == None ==> ReplyTarget(TypeScript, threadTs, ts) == Some(ts)
  {
  }

  /** The JavaScript plugin answers in the channel unless the mention is in a thread. */
  lemma {:induction false} JavaScriptRepliesWhereAsked(threadTs: ThreadTs, ts: string)
    ensures ReplyTarget(JavaScript, threadTs, ts).None? <==> threadTs == None || threadTs == Some("")
    ensures threadTs.Some? && threadTs.value != "" ==> ReplyTarget(JavaScript, threadTs, ts) == threadTs
  {
  }

  const PromptOpening: string := "I already have a factoid for \""
  const PromptClosing: string := "\". What would you like to do?"

  /**
   * The fallback text of the question asked when a set finds its index
   * taken: the stored fact's display key, quoted, between a fixed opening
   * and a fixed closing, so the key can be read back from it.
   */
  function ReplacePrompt(existing: Fact): (r: string)
    ensures |r| == |PromptOpening| + |existing.key| + |PromptClosing|
    ensures r[..|PromptOpening|] == PromptOpening
    ensures r[|PromptOpening|..|PromptOpening| + |existing.key|] == existing.key
    ensures r[|PromptOpening| + |existing.key|..] == PromptClosing
  {
    PromptOpening + existing.key + PromptClosing
  }

  predicate StrictlyAscending(ks: seq<string>) {
    forall i, j :: 0 <= i < j < |ks| ==> Less(ks[i], ks[j])
  }

  predicate Distinct(s: seq<string>) {
    forall i, j :: 0 <= i < j < |s| ==> s[i] != s[j]
  }

  lemma {:induction false} DistinctCount(s: seq<string>, x: string)
    requires Distinct(s)
    ensures multiset(s)[x] <= 1
  {
    if s != [] {
      assert s == [s[0]] + s[1..];
      DistinctCount(s[1..], x);
      if s[0] == x {
        assert x !in s[1..];
      }
    }
  }

  /** Rearranging a sequence without repeats gives a sequence without repeats. */
  lemma {:induction false} DistinctPermutation(a: seq<string>, b: seq<string>)
    requires Distinct(a) && multiset(a) == multiset(b)
    ensures Distinct(b)
  {
    forall i, j | 0 <= i < j < |b|
      ensures b[i] != b[j]
    {
      if b[i] == b[j] {
        var x := b[i];
        assert b == b[..i] + [x] + b[i + 1..j] + [x] + b[j + 1..];
        assert multiset(b)[x] >= 2;
        DistinctCount(a, x);
        assert false;
      }
    }
  }

  /** `Object.keys(data).sort()`: every index once, in ascending string order. */
  method SortedIndexes(data: map<string, Fact>) returns (ks: seq<string>)
    ensures forall k :: k in ks <==> k in data
    ensures StrictlyAscending(ks)
  {
    var keys: seq<string> := [];
    var rest := data.Keys;
    while rest != {}
      invariant rest <= data.Keys
      invariant forall k :: k in keys <==> k in data.Keys - rest
      invariant Distinct(keys)
      decreases |rest|
    {
      var k :| k in rest;
      forall i | 0 <= i < |keys|
        ensures keys[i] != k
      {
        assert keys[i] in keys;
      }
      keys := keys + [k];
      rest := rest - {k};
    }
    var buffer := new string[|keys|](i requires 0 <= i < |keys| => keys[i]);
    assert buffer[..] == keys;
    InsertionSort(buffer, (s: string) => s, Less);
    ks := buffer[..];
    LessIsStrictTotalOrder();
    SortSorted(keys, (s: string) => s, Less);
    SortPermutes(keys, (s: string) => s, Less);
    DistinctPermutation(keys, ks);
    forall k ensures k in ks <==> k in keys {
      assert k in ks <==> k in multiset(ks);
    }
    forall i, j | 0 <= i < j < |ks| ensures Less(ks[i], ks[j]) {
      LessConnected(ks[i], ks[j]);
    }
  }

  /** The display keys of the facts at the given indexes, in that order. */
  function KeysAt(data: map<string, Fact>, ks: seq<string>): (r: seq<string>)
    requires forall k :: k in ks ==> k in data
    ensures |r| == |ks|
    ensures forall i :: 0 <= i < |ks| ==> r[i] == data[ks[i]].key
  {
    if ks == [] then [] else [data[ks[0]].key] + KeysAt(data, ks[1..])
  }

  class FactoidStore {
    /** `factoids.data`: the team's facts by index. */
    var data: map<string, Fact>

    constructor ()
      ensures data == map[]
    {
      data := map[];
    }

    /**
     * `!factoid: list`: the stored display keys ordered by ascending index,
     * or a fixed message when nothing is stored.
     */
    method List(threadTs: ThreadTs) returns (reply: string, thread: ThreadTs, order: seq<string>)
      ensures thread == ThreadIfAny(threadTs)
      ensures data == map[] ==> reply == "No factoids stored yet."
      ensures data != map[] ==> StrictlyAscending(order) && (forall k :: k in order <==> k in data)
      ensures data != map[] ==> reply == "Available factoids: " + Join(KeysAt(data, order), ", ")
    {
      thread := ThreadIfAny(threadTs);
      if data == map[] {
        return "No factoids stored yet.", thread, [];
      }
      order := SortedIndexes(data);
      reply := "Available factoids: " + Join(KeysAt(data, order), ", ");
    }

    /**
     * `!factoid: <token>?`: the fact filed under the mentioned user's id,
     * or else under the lower-cased token; no reply when there is none.
     */
    method Query(dir: Directory, token: string, threadTs: ThreadTs) returns (reply: Option<string>, thread: ThreadTs)
      ensures thread == ThreadIfAny(threadTs)
      ensures IndexFor(dir, Trim(token)) in data ==> reply == Some(Rendered(data[IndexFor(dir, Trim(token))]))
      ensures IndexFor(dir, Trim(token)) !in data ==> reply == None
    {
      var index := Trim(token);
      var user := UserOfText(dir, index);
      var key := if user.Some? then user.value.id else ToLower(index);
      thread := ThreadIfAny(threadTs);
      if key in data {
        var text := FactString(data[key]);
        reply := Some(text);
      } else {
        reply := None;
      }
    }

    /**
     * The set step: a new index is stored and acknowledged; a taken index
     * leaves the store as it is and asks what to do.
     */
    method Set(fact: Fact, replyTo: ThreadTs, ts: string) returns (outcome: MentionOutcome)
      modifies this
      ensures fact.index !in old(data) ==>
                data == old(data)[fact.index := fact] && outcome == Said("Got it!", replyTo)
      ensures fact.index in old(data) ==>
                var was := old(data)[fact.index];
                && data == old(data)
                && outcome == AskedToReplace(ReplacePrompt(was), PromptOpening + was.key + "\". It says:\n\"" + Rendered(was) + "\"",
                                             Some(ts), was, fact)
    {
      if fact.index !in data {
        data := data[fact.index := fact];
        outcome := Said("Got it!", replyTo);
      } else {
        var existing := data[fact.index];
        var shown := FactString(existing);
        outcome := AskedToReplace(ReplacePrompt(existing), PromptOpening + existing.key + "\". It says:\n\"" + shown + "\"",
                                  Some(ts), existing, fact);
      }
    }

    /**
     * The button answer to the question `Set` asked: "update" replaces the
     * fact, "append" adds the new values after the stored ones and keeps
     * the stored key, verb and reply flag, anything else changes nothing.
     * `ok` is false when the append finds no fact to add to.
     */
    method Choose(fact: Fact, choice: string) returns (response: string, ok: bool)
      modifies this
      ensures choice == "update" ==> ok && data == old(data)[fact.index := fact]
      ensures choice == "update" ==> response == "\U{2705} Updated! New factoid is:\n\"" + Rendered(fact) + "\""
      ensures choice == "append" && fact.index in old(data) ==>
                var was := old(data)[fact.index];
                var now := was.(value := was.value + fact.value);
                ok && data == old(data)[fact.index := now]
                && response == "\U{2705} Appended! Updated factoid is now:\n\"" + Rendered(now) + "\""
      ensures choice == "append" && fact.index !in old(data) ==> !ok && data == old(data)
      ensures choice != "update" && choice != "append" ==> ok && data == old(data)
      ensures choice != "update" && choice != "append" ==> response == "\U{274C} Cancelled - keeping the existing factoid."
    {
      ok := true;
      if choice == "update" {
        data := data[fact.index := fact];
        var text := FactString(fact);
        response := "\U{2705} Updated! New factoid is:\n\"" + text + "\"";
      } else if choice == "append" {
        if fact.index in data {
          var was := data[fact.index];
          data := data[fact.index := was.(value := was.value + fact.value)];
          var text := FactString(data[fact.index]);
          response := "\U{2705} Appended! Updated factoid is now:\n\"" + text + "\"";
        } else {
          response := "Error updating factoid: ";
          ok := false;
        }
      } else {
        response := "\U{274C} Cancelled - keeping the existing factoid.";
      }
    }

    /**
     * `forget <subject>`: deletes exactly the subject's index when it is
     * stored; otherwise nothing changes.
     */
    method Forget(dir: Directory, subject: string) returns (reply: string)
      modifies this
      ensures data == old(data) - {IndexFor(dir, Trim(subject))}
      ensures IndexFor(dir, Trim(subject)) in old(data) ==> reply == "I've forgotten about \"" + Trim(subject) + "\""
      ensures IndexFor(dir, Trim(subject)) !in old(data) ==>
                data == old(data) && reply == "I don't have any factoid for \"" + Trim(subject) + "\""
    {
      var index := Trim(subject);
      var user := UserOfText(dir, index);
      var factIndex := if user.Some? then user.value.id else ToLower(index);
      if factIndex in data {
        data := data - {factIndex};
        reply := "I've forgotten about \"" + index + "\"";
      } else {
        assert data == data - {factIndex};
        reply := "I don't have any factoid for \"" + index + "\"";
      }
    }

    /**
     * The `app_mention` handler: the mention is stripped, a set is tried
     * first and a forget second; any other text gets no reply.
     */
    method OnMention(gen: Generation, dir: Directory, text: string, threadTs: ThreadTs, ts: string)
      returns (outcome: MentionOutcome)
      modifies this
      ensures ParseSet(StripMention(text)).Some? ==>
                var f := NewFact(dir, ParseSet(StripMention(text)).value);
                if f.index !in old(data) then
                  data == old(data)[f.index := f] && outcome == Said("Got it!", ReplyTarget(gen, threadTs, ts))
                else
                  data == old(data) && outcome.AskedToReplace? && outcome.question == ReplacePrompt(old(data)[f.index])
                  && outcome.existing == old(data)[f.index] && outcome.candidate == f && outcome.thread == Some(ts)
      ensures ParseSet(StripMention(text)).None? && ParseForget(StripMention(text)).None? ==>
                data == old(data) && outcome == NoReply
      ensures ParseSet(StripMention(text)).None? && ParseForget(StripMention(text)).Some? ==>
                var i := IndexFor(dir, Trim(ParseForget(StripMention(text)).value));
                data == old(data) - {i} && outcome.Said? && outcome.thread == ReplyTarget(gen, threadTs, ts)
    {
      var t := StripMention(text);
      var replyTo := ReplyTarget(gen, threadTs, ts);
      var setMatch := ParseSet(t);
      if setMatch.Some? {
        // The source's early return on a blank subject cannot be taken.
        SetSubjectNotBlank(t);
        outcome := Set(NewFact(dir, setMatch.value), replyTo, ts);
        return;
      }
      var forget := ParseForget(t);
      if forget.Some? {
        var reply := Forget(dir, forget.value);
        return Said(reply, replyTo);
      }
      return NoReply;
    }
  }

  /**
   * Appending to a fact whose text is not empty extends that text by
   * " and also <value>" and keeps everything before it.
   */
  lemma {:induction false} AppendExtendsText(was: Fact, v: string)
    requires Rendered(was) != ""
    ensures Rendered(was.(value := was.value + [v])) == Rendered(was) + " and also " + v
  {
    RenderedSnoc(was, v);
  }

  /**
   * Once a set stores a fact on a free index, a query whose token is the
   * subject finds it, and the reply is the sentence "<key> <be> <value>",
   * or the value alone for a `<reply>` fact.
   */
  lemma {:induction false} SetThenQuery(data: map<string, Fact>, dir: Directory, m: SetMatch, t: string)
    requires NewFact(dir, m).index !in data
    requires ParseQuery(t).Some? && Trim(ParseQuery(t).value) == Trim(m.subject)
    ensures var f := NewFact(dir, m);
            var stored := data[f.index := f];
            var i := IndexFor(dir, Trim(ParseQuery(t).value));
            && i in stored
            && Rendered(stored[i]) == (if m.replyTag then Trim(m.value) else f.key + " " + f.be + " " + Trim(m.value))
  {
    var f := NewFact(dir, m);
    RenderedOne(f);
  }

  /** A fact with one value renders as its sentence, or as the value alone when it is a reply. */
  lemma {:induction false} RenderedOne(f: Fact)
    requires |f.value| == 1
    ensures Rendered(f) == if f.reply then f.value[0] else f.key + " " + f.be + " " + f.value[0]
  {
    if f.reply && f.value[0] == "" {
      assert DropLeadingEmpty(f.value) == [];
    } else if f.reply {
      assert DropLeadingEmpty(f.value) == f.value;
    } else {
      assert [f.key + " " + f.be + " " + f.value[0]] + f.value[1..] == [f.key + " " + f.be + " " + f.value[0]];
    }
  }
}
