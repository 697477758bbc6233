/**
 * `shouldTriggerFactoid`, the predicate the factoid test suite uses to say
 * which messages a factoid lookup should answer, with its four checks in
 * their order: a user mention followed by more text, white space before
 * the final mark, more than five words, and the `^.+[!?]$` shape.
 */
module FactoidTrigger {
  import opened Wrappers
  import opened Text
  import Patterns
  import PatternRegistry
  import Sorting

  /** The final `[!?]`. */
  predicate IsMark(c: char) {
    c == '!' || c == '?'
  }

  /** `[A-Z0-9]` under the `i` flag. */
  predicate IsAlnumAnyCase(c: char) {
    'A' <= c <= 'Z' || 'a' <= c <= 'z' || '0' <= c <= '9'
  }

  /** `[\w\s]` under the `i` flag. */
  predicate IsWordOrSpace(c: char) {
    IsAlnumAnyCase(c) || c == '_' || IsSpace(c)
  }

  function AlnumRunEnd(s: string, i: nat): (k: nat)
    requires i <= |s|
    ensures i <= k <= |s|
    ensures forall j :: i <= j < k ==> IsAlnumAnyCase(s[j])
    ensures k < |s| ==> !IsAlnumAnyCase(s[k])
    decreases |s| - i
  {
    if i == |s| || !IsAlnumAnyCase(s[i]) then i else AlnumRunEnd(s, i + 1)
  }

  function WordSpaceRunEnd(s: string, i: nat): (k: nat)
    requires i <= |s|
    ensures i <= k <= |s|
    ensures forall j :: i <= j < k ==> IsWordOrSpace(s[j])
    ensures k < |s| ==> !IsWordOrSpace(s[k])
    decreases |s| - i
  {
    if i == |s| || !IsWordOrSpace(s[i]) then i else WordSpaceRunEnd(s, i + 1)
  }

  // ------------------------------------------------------------ check 1, decided

  /** `\s*` then the separator `c` then `.+`, on all of `s[m..]`. */
  predicate SeparatorThenText(s: string, m: nat, c: char)
    requires m <= |s|
  {
    var j := SpaceRunEnd(s, m);
    j + 1 < |s| && s[j] == c && Patterns.DotsFrom(s, j + 1)
  }

  /** `(?:\s+.+|\s*,.+|\s*:.+)` on all of `s[m..]`. */
  predicate TailAt(s: string, m: nat)
    requires m <= |s|
  {
    Patterns.SpacesThenText(s, m) || SeparatorThenText(s, m, ',') || SeparatorThenText(s, m, ':')
  }

  /** Some end `m` in `[lo, hi]` of the `@[\w\s]+` token leaves a tail that matches. */
  function AnyTailFrom(s: string, lo: nat, hi: nat): (b: bool)
    requires lo <= hi + 1 && hi <= |s|
    ensures b <==> exists m :: lo <= m <= hi && TailAt(s, m)
    decreases hi + 1 - lo
  {
    if lo > hi then false
    else TailAt(s, lo) || AnyTailFrom(s, lo + 1, hi)
  }

  /** The end of a `<@[UW][A-Z0-9]+>` token at `i`, if one starts there. */
  function IdTokenEnd(s: string, i: nat): (r: Option<nat>)
    requires i <= |s|
    ensures r.Some? ==> i + 5 <= r.value <= |s| && s[r.value - 1] == '>'
  {
    if i + 3 <= |s| && s[i] == '<' && s[i + 1] == '@' && s[i + 2] in {'U', 'W', 'u', 'w'} then
      var k := AlnumRunEnd(s, i + 3);
      if k > i + 3 && k < |s| && s[k] == '>' then Some(k + 1) else None
    else None
  }

  /** The mention alternatives followed by the tail, on all of `s[i..]`. */
  predicate MentionThenTail(s: string, i: nat)
    requires i <= |s|
  {
    || (IdTokenEnd(s, i).Some? && TailAt(s, IdTokenEnd(s, i).value))
    || (i + 1 < |s| && s[i] == '@' && WordSpaceRunEnd(s, i + 1) > i + 1
        && AnyTailFrom(s, i + 2, WordSpaceRunEnd(s, i + 1)))
  }

  /**
   * `/^(?:Hey\s+)?(?:<@[UW][A-Z0-9]+>|@[\w\s]+)(?:\s+.+|\s*,.+|\s*:.+)[!?]$/i`.
   * A mention starts with `<` or `@`, so `Hey\s+` takes all the white
   * space after "Hey", and a text starting with "Hey" cannot match with
   * the optional group left out.
   */
  predicate MentionWithText(t: string) {
    && t != [] && IsMark(t[|t| - 1])
    && var s := t[..|t| - 1];
       || MentionThenTail(s, 0)
       || (3 <= |s| && ToLower(s[..3]) == "hey" && SpaceRunEnd(s, 3) > 3 && MentionThenTail(s, SpaceRunEnd(s, 3)))
  }

  // ------------------------------------------------------------ checks 2 to 4

  /** `\s[!?]$`. */
  predicate SpaceBeforeMark(t: string) {
    2 <= |t| && IsSpace(t[|t| - 2]) && IsMark(t[|t| - 1])
  }

  /** The positions at or after `i` where a run of white space starts. */
  function SpaceRunStarts(s: string, i: nat): nat
    requires i <= |s|
    decreases |s| - i
  {
    if i == |s| then 0
    else (if IsSpace(s[i]) && (i == 0 || !IsSpace(s[i - 1])) then 1 else 0) + SpaceRunStarts(s, i + 1)
  }

  /**
   * `text.slice(0, -1).trim().split(/\s+/).length`: a trimmed string has
   * one more piece than it has runs of white space (the empty string
   * splits into one empty piece).
   */
  function WordCount(t: string): (n: nat)
    ensures n >= 1
  {
    var w := Trim(if t == [] then [] else t[..|t| - 1]);
    1 + SpaceRunStarts(w, 0)
  }

  /** `shouldTriggerFactoid`: the four checks in order, the first failing one decides. */
  function ShouldTrigger(t: string): (b: bool)
    ensures b ==> Patterns.Test(Patterns.EndsWithMark, t)
  {
    if MentionWithText(t) then false
    else if SpaceBeforeMark(t) then false
    else if WordCount(t) > 5 then false
    else if !Patterns.Test(Patterns.EndsWithMark, t) then false
    else true
  }

  // ------------------------------------------------------------ the pieces of check 1

  /** `(?:Hey\s+)?`. */
  predicate IsHeyPrefix(p: string) {
    p == [] || (4 <= |p| && ToLower(p[..3]) == "hey" && forall k :: 3 <= k < |p| ==> IsSpace(p[k]))
  }

  /** `<@[UW][A-Z0-9]+>` or `@[\w\s]+`, under the `i` flag. */
  predicate IsMentionToken(m: string) {
    || (5 <= |m| && m[0] == '<' && m[1] == '@' && m[2] in {'U', 'W', 'u', 'w'} && m[|m| - 1] == '>'
        && forall k :: 3 <= k < |m| - 1 ==> IsAlnumAnyCase(m[k]))
    || (2 <= |m| && m[0] == '@' && forall k :: 1 <= k < |m| ==> IsWordOrSpace(m[k]))
  }

  /** `\s+.+`, `\s*,.+` or `\s*:.+`, split at the end `j` of the leading white space. */
  predicate IsTailSplit(x: string, j: nat) {
    && j < |x|
    && (forall k :: 0 <= k < j ==> IsSpace(x[k]))
    && (|| (0 < j && NoLineTerminator(x[j..]))
        || ((x[j] == ',' || x[j] == ':') && j + 1 < |x| && NoLineTerminator(x[j + 1..])))
  }

  // ------------------------------------------------------------ proofs

  lemma {:induction false} DotsFromNoLineTerminator(s: string, i: nat)
    requires i <= |s|
    ensures Patterns.DotsFrom(s, i) <==> NoLineTerminator(s[i..])
  {
    assert forall k :: i <= k < |s| ==> s[i..][k - i] == s[k];
  }

  lemma {:induction false} TailAtOfSplit(s: string, m: nat, j: nat)
    requires m <= |s| && IsTailSplit(s[m..], j)
    ensures TailAt(s, m)
  {
    var x := s[m..];
    assert forall k :: m <= k < m + j ==> IsSpace(s[k]) by {
      forall k | m <= k < m + j ensures IsSpace(s[k]) {
        assert x[k - m] == s[k];
      }
    }
    if (x[j] == ',' || x[j] == ':') && j + 1 < |x| && NoLineTerminator(x[j + 1..]) {
      assert s[m + j] == x[j];
      SpaceRunEndIs(s, m, m + j);
      assert x[j + 1..] == s[m + j + 1..];
      DotsFromNoLineTerminator(s, m + j + 1);
    } else {
      assert x[j..] == s[m + j..];
      DotsFromNoLineTerminator(s, m + j);
      assert Patterns.SpacesThenTextSplit(s, m, m + j);
      Patterns.SpacesThenTextMeaning(s, m);
    }
  }

  lemma {:induction false} MentionThenTailOfSplit(s: string, i: nat, mention: string, j: nat)
    requires i + |mention| <= |s| && s[i..i + |mention|] == mention
    requires IsMentionToken(mention) && IsTailSplit(s[i + |mention|..], j)
    ensures MentionThenTail(s, i)
  {
    var m := i + |mention|;
    TailAtOfSplit(s, m, j);
    if 5 <= |mention| && mention[0] == '<' && mention[1] == '@' && mention[2] in {'U', 'W', 'u', 'w'}
       && mention[|mention| - 1] == '>' && forall k :: 3 <= k < |mention| - 1 ==> IsAlnumAnyCase(mention[k])
    {
      IdMentionThenTail(s, i, mention);
    } else {
      NameMentionThenTail(s, i, mention);
    }
  }

  /** A `<@[UW][A-Z0-9]+>` token at `i` followed by a tail. */
  lemma {:induction false} IdMentionThenTail(s: string, i: nat, mention: string)
    requires i + |mention| <= |s| && s[i..i + |mention|] == mention
    requires 5 <= |mention| && mention[0] == '<' && mention[1] == '@' && mention[2] in {'U', 'W', 'u', 'w'}
    requires mention[|mention| - 1] == '>' && forall k :: 3 <= k < |mention| - 1 ==> IsAlnumAnyCase(mention[k])
    requires TailAt(s, i + |mention|)
    ensures MentionThenTail(s, i)
  {
    var m := i + |mention|;
    assert forall k :: 0 <= k < |mention| ==> s[i + k] == mention[k];
    assert forall k :: i + 3 <= k < m - 1 ==> IsAlnumAnyCase(s[k]) by {
      forall k | i + 3 <= k < m - 1 ensures IsAlnumAnyCase(s[k]) {
        assert s[k] == mention[k - i];
      }
    }
    AlnumRunEndIs(s, i + 3, m - 1);
    assert IdTokenEnd(s, i) == Some(m);
  }

  /** An `@[\w\s]+` token at `i` followed by a tail. */
  lemma {:induction false} NameMentionThenTail(s: string, i: nat, mention: string)
    requires i + |mention| <= |s| && s[i..i + |mention|] == mention
    requires 2 <= |mention| && mention[0] == '@' && forall k :: 1 <= k < |mention| ==> IsWordOrSpace(mention[k])
    requires TailAt(s, i + |mention|)
    ensures MentionThenTail(s, i)
  {
    var m := i + |mention|;
    assert s[i] == mention[0];
    assert forall k :: i + 1 <= k < m ==> IsWordOrSpace(s[k]) by {
      forall k | i + 1 <= k < m ensures IsWordOrSpace(s[k]) {
        assert s[k] == mention[k - i];
      }
    }
    WordSpaceRunEndAtLeast(s, i + 1, m);
    assert i + 2 <= m <= WordSpaceRunEnd(s, i + 1);
  }

  lemma {:induction false} AlnumRunEndIs(s: string, i: nat, k: nat)
    requires i <= k < |s| && !IsAlnumAnyCase(s[k])
    requires forall j :: i <= j < k ==> IsAlnumAnyCase(s[j])
    ensures AlnumRunEnd(s, i) == k
    decreases k - i
  {
    if i < k {
      AlnumRunEndIs(s, i + 1, k);
    }
  }

  lemma {:induction false} WordSpaceRunEndAtLeast(s: string, i: nat, k: nat)
    requires i <= k <= |s|
    requires forall j :: i <= j < k ==> IsWordOrSpace(s[j])
    ensures WordSpaceRunEnd(s, i) >= k
    decreases k - i
  {
    if i < k {
      WordSpaceRunEndAtLeast(s, i + 1, k);
    }
  }

  /**
   * Check 1 rejects every message made of an optional "Hey" and white
   * space, a user mention, more text after white space, a comma or a
   * colon, and a final `!` or `?`.
   */
  lemma {:induction false} MentionWithTextRejected(prefix: string, mention: string, tail: string, j: nat, mark: char)
    requires IsHeyPrefix(prefix) && IsMentionToken(mention) && IsTailSplit(tail, j) && IsMark(mark)
    ensures MentionWithText(prefix + mention + tail + [mark])
    ensures !ShouldTrigger(prefix + mention + tail + [mark])
  {
    var t := prefix + mention + tail + [mark];
    var s := t[..|t| - 1];
    assert s == prefix + mention + tail;
    var i := |prefix|;
    assert s[i..i + |mention|] == mention;
    assert s[i + |mention|..] == tail;
    MentionThenTailOfSplit(s, i, mention, j);
    if prefix != [] {
      assert s[..i] == prefix;
      assert s[i] == mention[0];
      HeyPrefixRun(s, prefix);
    }
  }

  /** Every tail that matches has a split. */
  lemma {:induction false} TailSplitOf(s: string, m: nat) returns (j: nat)
    requires m <= |s| && TailAt(s, m)
    ensures IsTailSplit(s[m..], j)
  {
    var x := s[m..];
    if Patterns.SpacesThenText(s, m) {
      Patterns.SpacesThenTextMeaning(s, m);
      var p: nat :| Patterns.SpacesThenTextSplit(s, m, p);
      j := p - m;
      assert x[j..] == s[p..];
      DotsFromNoLineTerminator(s, p);
      assert forall k :: 0 <= k < j ==> x[k] == s[m + k];
    } else {
      var e := SpaceRunEnd(s, m);
      j := e - m;
      assert x[j] == s[e];
      assert x[j + 1..] == s[e + 1..];
      DotsFromNoLineTerminator(s, e + 1);
    }
  }

  /** Every mention followed by a tail splits into a mention token ending at `e` and a tail. */
  lemma {:induction false} MentionThenTailSplit(s: string, i: nat) returns (e: nat, j: nat)
    requires i <= |s| && MentionThenTail(s, i)
    ensures i <= e <= |s| && IsMentionToken(s[i..e]) && IsTailSplit(s[e..], j)
  {
    if IdTokenEnd(s, i).Some? && TailAt(s, IdTokenEnd(s, i).value) {
      e := IdTokenEnd(s, i).value;
      IdTokenIsMention(s, i);
    } else {
      e := NameTokenThenTail(s, i);
    }
    j := TailSplitOf(s, e);
  }

  /** A `<@[UW][A-Z0-9]+>` token is a mention token. */
  lemma {:induction false} IdTokenIsMention(s: string, i: nat)
    requires i <= |s| && IdTokenEnd(s, i).Some?
    ensures IsMentionToken(s[i..IdTokenEnd(s, i).value])
  {
    var e := IdTokenEnd(s, i).value;
    var m := s[i..e];
    assert forall k :: 3 <= k < |m| - 1 ==> m[k] == s[i + k];
    assert m[0] == s[i] && m[1] == s[i + 1] && m[2] == s[i + 2] && m[|m| - 1] == s[e - 1];
  }

  /** The `@[\w\s]+` alternative: a name token ending at `e`, followed by a tail. */
  lemma {:induction false} NameTokenThenTail(s: string, i: nat) returns (e: nat)
    requires i + 1 < |s| && s[i] == '@' && WordSpaceRunEnd(s, i + 1) > i + 1
    requires AnyTailFrom(s, i + 2, WordSpaceRunEnd(s, i + 1))
    ensures i <= e <= |s| && IsMentionToken(s[i..e]) && TailAt(s, e)
  {
    var w := WordSpaceRunEnd(s, i + 1);
    e :| i + 2 <= e <= w && TailAt(s, e);
    var m := s[i..e];
    assert forall k :: 1 <= k < |m| ==> m[k] == s[i + k];
  }

  /**
   * The converse of `MentionWithTextRejected`: every text the first check
   * matches is an optional "Hey" and white space, a user mention, more
   * text, and a final mark.
   */
  lemma {:induction false} MentionWithTextShape(t: string) returns (prefix: string, mention: string, tail: string, j: nat)
    requires MentionWithText(t)
    ensures t == prefix + mention + tail + [t[|t| - 1]] && IsMark(t[|t| - 1])
    ensures IsHeyPrefix(prefix) && IsMentionToken(mention) && IsTailSplit(tail, j)
  {
    var s := t[..|t| - 1];
    assert t == s + [t[|t| - 1]];
    var i: nat := 0;
    if !MentionThenTail(s, 0) {
      i := SpaceRunEnd(s, 3);
      HeyPrefixOf(s);
    }
    prefix := s[..i];
    var e;
    e, j := MentionThenTailSplit(s, i);
    mention := s[i..e];
    tail := s[e..];
    SplitThree(s, i, e);
  }

  /** The white space after a leading "Hey" makes a "Hey" prefix. */
  lemma {:induction false} HeyPrefixOf(s: string)
    requires 3 <= |s| && ToLower(s[..3]) == "hey" && SpaceRunEnd(s, 3) > 3
    ensures IsHeyPrefix(s[..SpaceRunEnd(s, 3)])
  {
    var p := s[..SpaceRunEnd(s, 3)];
    assert p[..3] == s[..3];
    assert forall k :: 3 <= k < |p| ==> p[k] == s[k];
  }

  lemma {:induction false} SplitThree(s: string, a: nat, b: nat)
    requires a <= b <= |s|
    ensures s == s[..a] + s[a..b] + s[b..]
  {
  }

  /** A "Hey" prefix followed by a non-space character: its white space runs up to that character. */
  lemma {:induction false} HeyPrefixRun(s: string, prefix: string)
    requires prefix != [] && IsHeyPrefix(prefix)
    requires |prefix| < |s| && s[..|prefix|] == prefix && !IsSpace(s[|prefix|])
    ensures 3 <= |s| && ToLower(s[..3]) == "hey" && SpaceRunEnd(s, 3) == |prefix|
  {
    var i := |prefix|;
    assert s[..3] == prefix[..3];
    assert forall k :: 3 <= k < i ==> IsSpace(s[k]) by {
      forall k | 3 <= k < i ensures IsSpace(s[k]) {
        assert s[k] == prefix[k];
      }
    }
    SpaceRunEndIs(s, 3, i);
  }

  /** Check 2: a final mark after white space is never accepted. */
  lemma {:induction false} SpaceBeforeMarkRejected(t: string)
    requires 2 <= |t| && IsSpace(t[|t| - 2]) && IsMark(t[|t| - 1])
    ensures !ShouldTrigger(t)
  {
  }

  /** Check 3: more than five words before the final character are never accepted. */
  lemma {:induction false} TooManyWordsRejected(t: string)
    requires WordCount(t) > 5
    ensures !ShouldTrigger(t)
  {
  }

  /**
   * Check 4 and the whole: an accepted text has at least two characters
   * and ends in `!` or `?`, with no line terminator anywhere.
   */
  lemma {:induction false} AcceptedShape(t: string)
    requires ShouldTrigger(t)
    ensures 2 <= |t| && IsMark(t[|t| - 1]) && NoLineTerminator(t)
  {
    DotsFromNoLineTerminator(t, 0);
    assert t[0..] == t;
  }

  // ------------------------------------------------------------ word count

  /** A piece of `split(/\s+/)`: non-empty, without white space. */
  predicate IsWord(w: string) {
    w != [] && forall k :: 0 <= k < |w| ==> !IsSpace(w[k])
  }

  lemma {:induction false} SpaceRunStartsSplit(a: string, b: string, i: nat)
    requires i <= |a|
    ensures SpaceRunStarts(a + b, i) == SpaceRunStarts(a, i) + SpaceRunStarts(a + b, |a|)
    decreases |a| - i
  {
    if i < |a| {
      SpaceRunStartsSplit(a, b, i + 1);
      assert (a + b)[i] == a[i];
      if i > 0 {
        assert (a + b)[i - 1] == a[i - 1];
      }
    }
  }

  lemma {:induction false} SpaceRunStartsNone(s: string, i: nat)
    requires i <= |s|
    requires forall k :: i <= k < |s| ==> !IsSpace(s[k])
    ensures SpaceRunStarts(s, i) == 0
    decreases |s| - i
  {
    if i < |s| {
      SpaceRunStartsNone(s, i + 1);
    }
  }

  /** Words joined by single spaces: trimmed, with one run of white space between each two. */
  lemma {:induction false} JoinedWords(words: seq<string>)
    requires words != [] && forall i :: 0 <= i < |words| ==> IsWord(words[i])
    ensures Join(words, " ") != [] && IsTrimmed(Join(words, " "))
    ensures SpaceRunStarts(Join(words, " "), 0) == |words| - 1
    decreases |words|
  {
    if |words| == 1 {
      SpaceRunStartsNone(words[0], 0);
    } else {
      var init := words[..|words| - 1];
      var last := words[|words| - 1];
      assert words == init + [last];
      JoinedWords(init);
      JoinAppend(init, last, " ");
      var a := Join(init, " ");
      var s := a + (" " + last);
      assert Join(words, " ") == s;
      assert s[0] == a[0] && s[|a| - 1] == a[|a| - 1] && s[|a|] == ' ';
      assert s[|s| - 1] == last[|last| - 1];
      SpaceRunStartsSplit(a, " " + last, 0);
      assert forall k :: |a| + 1 <= k < |s| ==> s[k] == last[k - |a| - 1];
      SpaceRunStartsNone(s, |a| + 1);
    }
  }

  /** Check 3 counts the words of a message written as words separated by single spaces. */
  lemma {:induction false} WordCountOfWords(words: seq<string>, mark: char)
    requires words != [] && forall i :: 0 <= i < |words| ==> IsWord(words[i])
    ensures WordCount(Join(words, " ") + [mark]) == |words|
  {
    var t := Join(words, " ") + [mark];
    assert t[..|t| - 1] == Join(words, " ");
    JoinedWords(words);
    TrimOfTrimmed(Join(words, " "));
  }

  /** A single word with a final mark gets past the first three checks. */
  lemma {:induction false} SingleWordAccepted(t: string)
    requires 2 <= |t| && IsMark(t[|t| - 1]) && NoLineTerminator(t)
    requires forall k :: 0 <= k < |t| - 1 ==> !IsSpace(t[k]) && t[k] != ',' && t[k] != ':'
    ensures ShouldTrigger(t)
  {
    var s := t[..|t| - 1];
    forall m | 0 <= m <= |s|
      ensures !TailAt(s, m)
    {
      assert SpaceRunEnd(s, m) == m;
    }
    assert !MentionWithText(t);
    TrimOfTrimmed(s);
    SpaceRunStartsNone(s, 0);
    DotsFromNoLineTerminator(t, 0);
    assert t[0..] == t;
  }

  // ------------------------------------------------------------ the test vectors

  lemma {:induction false} AcceptedMultiWord(mark: char)
    requires IsMark(mark)
    ensures ShouldTrigger("multi word factoid" + [mark])
  {
    var t := "multi word factoid" + [mark];
    var s := t[..|t| - 1];
    assert s == "multi word factoid";
    assert ToLower(s[..3])[0] == 'm';
    assert !MentionWithText(t);
    MultiWordCount(mark);
    assert !SpaceBeforeMark(t);
    MultiWordOneLine(mark);
  }

  lemma {:induction false} MultiWordOneLine(mark: char)
    requires IsMark(mark)
    ensures Patterns.DotsFrom("multi word factoid" + [mark], 0)
  {
    var t := "multi word factoid" + [mark];
    assert NoLineTerminator("multi word factoid");
    NoLineTerminatorConcat("multi word factoid", [mark]);
    DotsFromNoLineTerminator(t, 0);
    assert t[0..] == t;
  }

  lemma {:induction false} MultiWordCount(mark: char)
    requires IsMark(mark)
    ensures WordCount("multi word factoid" + [mark]) == 3
  {
    var words := ["multi", "word", "factoid"];
    assert IsWord("multi") && IsWord("word") && IsWord("factoid");
    assert forall i :: 0 <= i < |words| ==> IsWord(words[i]);
    MultiWordJoin();
    WordCountOfWords(words, mark);
  }

  lemma {:induction false} MultiWordJoin()
    ensures Join(["multi", "word", "factoid"], " ") == "multi word factoid"
  {
    assert Join(["factoid"], " ") == "factoid";
    assert ["multi", "word", "factoid"][1..] == ["word", "factoid"];
    assert ["word", "factoid"][1..] == ["factoid"];
  }

  /** The test suite's one-word messages are accepted with either mark. */
  lemma {:induction false} AcceptedWords(w: string, mark: char)
    requires w in ["factoid", "<@U12345>", "@username"] && IsMark(mark)
    ensures ShouldTrigger(w + [mark])
  {
    var t := w + [mark];
    assert forall k :: 0 <= k < |w| ==> t[k] == w[k];
    assert forall k :: 0 <= k < |w| ==> !IsLineTerminator(w[k]) && !IsSpace(w[k]) && w[k] != ',' && w[k] != ':';
    SingleWordAccepted(t);
  }

  /** The test suite's messages with white space before the mark are rejected. */
  lemma {:induction false} RejectedSpaceBeforeMark(w: string, mark: char)
    requires w in ["factoid", "multi word factoid", "<@U12345>", "@username"] && IsMark(mark)
    ensures !ShouldTrigger(w + " " + [mark])
  {
    var t := w + " " + [mark];
    assert t[|t| - 2] == ' ';
    SpaceBeforeMarkRejected(t);
  }

  lemma {:induction false} NoLineTerminatorConcat(a: string, b: string)
    requires NoLineTerminator(a) && NoLineTerminator(b)
    ensures NoLineTerminator(a + b)
  {
    assert forall k :: |a| <= k < |a + b| ==> (a + b)[k] == b[k - |a|];
  }

  /**
   * The test suite's mentions followed by more text, written as the
   * mention and the text after it, are rejected.
   */
  lemma {:induction false} MentionVectorTokens(mention: string)
    requires mention in ["<@U12345>", "@username", "@Jerad Bitner", "@David Burns"]
    ensures IsMentionToken(mention)
  {
  }

  lemma {:induction false} TailVectorSplits(tail: string)
    requires tail in [", are you there", " are you available"]
    ensures IsTailSplit(tail, if tail == ", are you there" then 0 else 1)
  {
    if tail == ", are you there" {
      CommaTailSplits();
    } else {
      SpaceTailSplits();
    }
  }

  lemma {:induction false} CommaTailSplits()
    ensures IsTailSplit(", are you there", 0)
  {
    var x := ", are you there";
    assert NoLineTerminator(x);
    NoLineTerminatorSuffix(x, 1);
  }

  lemma {:induction false} SpaceTailSplits()
    ensures IsTailSplit(" are you available", 1)
  {
    var x := " are you available";
    assert NoLineTerminator(x);
    NoLineTerminatorSuffix(x, 1);
  }

  lemma {:induction false} NoLineTerminatorSuffix(s: string, i: nat)
    requires i <= |s| && NoLineTerminator(s)
    ensures NoLineTerminator(s[i..])
  {
    assert forall k :: 0 <= k < |s| - i ==> s[i..][k] == s[i + k];
  }

  lemma {:induction false} RejectedMentions(mention: string, tail: string)
    requires mention in ["<@U12345>", "@username"]
    requires tail in [", are you there", " are you available"]
    ensures !ShouldTrigger(mention + tail + "?")
  {
    MentionVectorTokens(mention);
    var j := if tail == ", are you there" then 0 else 1;
    TailVectorSplits(tail);
    assert "" + mention == mention;
    MentionWithTextRejected("", mention, tail, j, '?');
  }

  lemma {:induction false} RejectedGreetedMentions(mention: string)
    requires mention in ["@username", "@Jerad Bitner"]
    ensures !ShouldTrigger("Hey " + mention + " are you here" + "?")
  {
    assert ToLower("Hey "[..3]) == "hey";
    assert IsTailSplit(" are you here", 1);
    MentionVectorTokens(mention);
    MentionWithTextRejected("Hey ", mention, " are you here", 1, '?');
  }

  lemma {:induction false} RejectedColonMention()
    ensures !ShouldTrigger("@David Burns"
                           + (": should I work on " + "https://github.com/" + "Lullabot/composer-checks/"
                              + "issues as part of Drainpipe")
                           + "?")
  {
    var tail := ": should I work on " + "https://github.com/" + "Lullabot/composer-checks/" + "issues as part of Drainpipe";
    ColonTailSplits();
    MentionVectorTokens("@David Burns");
    MentionWithTextRejected("", "@David Burns", tail, 0, '?');
    assert "" + "@David Burns" == "@David Burns";
  }

  lemma {:induction false} ColonTailSplits()
    ensures IsTailSplit(": should I work on " + "https://github.com/" + "Lullabot/composer-checks/"
                        + "issues as part of Drainpipe", 0)
  {
    var a, b, c, d := ": should I work on ", "https://github.com/", "Lullabot/composer-checks/", "issues as part of Drainpipe";
    ColonPiecesOneLine();
    NoLineTerminatorConcat(a, b);
    NoLineTerminatorConcat(a + b, c);
    NoLineTerminatorConcat(a + b + c, d);
    var tail := a + b + c + d;
    assert tail[0] == ':';
    NoLineTerminatorSuffix(tail, 1);
  }

  lemma {:induction false} ColonPiecesOneLine()
    ensures NoLineTerminator(": should I work on ") && NoLineTerminator("https://github.com/")
    ensures NoLineTerminator("Lullabot/composer-checks/") && NoLineTerminator("issues as part of Drainpipe")
  {
  }

  lemma {:induction false} RejectedLongFactoids(mark: char)
    requires IsMark(mark)
    ensures !ShouldTrigger(Join(["factoid", "with", "spaces", "and", "then", "some", "extra", "words"], " ") + [mark])
  {
    var words := ["factoid", "with", "spaces", "and", "then", "some", "extra", "words"];
    assert forall i :: 0 <= i < |words| ==> IsWord(words[i]);
    WordCountOfWords(words, mark);
  }

  // ------------------------------------------------------------ registrations

  /** The registrations the test suite expects of the factoid plugin, in its order. */
  const ExpectedRegistrations: seq<PatternRegistry.PatternEntry> :=
    [ PatternRegistry.PatternEntry(Patterns.FactoidList, "factoids", 1.0),
      PatternRegistry.PatternEntry(Patterns.FactoidForget, "factoids", 1.0),
      PatternRegistry.PatternEntry(Patterns.YesNo, "factoids", 0.5),
      PatternRegistry.PatternEntry(Patterns.EndsWithMark, "factoids", 0.25) ]

  /** Registered in that order, the entries keep it. */
  lemma {:induction false} ExpectedRegistrationsOrder()
    ensures PatternRegistry.Ordered(ExpectedRegistrations) == ExpectedRegistrations
  {
    PatternRegistry.HigherIsStrictTotalOrder();
    Sorting.SortIdempotent(ExpectedRegistrations, PatternRegistry.Priority, PatternRegistry.Higher);
  }

  lemma {:induction false} ForgetQuestionMatches()
    ensures !Patterns.Test(Patterns.FactoidList, "forget tea?")
    ensures Patterns.Test(Patterns.FactoidForget, "forget tea?")
  {
    assert ToLower("forget tea?"[..9])[0] == 'f';
    assert ToLower("forget tea?"[..6]) == "forget";
    SpaceRunEndIs("forget tea?", 6, 7);
  }

  lemma {:induction false} PlainQuestionMatches()
    ensures !Patterns.Test(Patterns.FactoidList, "tea?")
    ensures !Patterns.Test(Patterns.FactoidForget, "tea?")
    ensures !Patterns.Test(Patterns.YesNo, "tea?")
    ensures Patterns.Test(Patterns.EndsWithMark, "tea?")
  {
    assert ToLower("tea?")[0] == 't';
  }

  /**
   * A `forget` command ending in a mark is claimed by the `forget` pattern
   * before the catch-all question pattern is tried; a plain question
   * falls through to the catch-all.
   */
  lemma {:induction false} ExpectedRegistrationsFirstMatch()
    ensures PatternRegistry.FirstMatch(ExpectedRegistrations, "forget tea?") == Some(1)
    ensures PatternRegistry.FirstMatch(ExpectedRegistrations, "tea?") == Some(3)
  {
    ForgetQuestionMatches();
    PlainQuestionMatches();
  }
}
