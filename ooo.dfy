/**
 * The out-of-office report (plugins/ooo.js, and its predecessor
 * lib/plugins/ooo.js): the who's-out entries of one day, sorted by name,
 * one line per person on leave or per holiday under a bold header.
 *
 * Dates are opaque here: a `Day` carries the two renderings the plugin
 * prints or compares, and the rendering of an entry's end date is a
 * parameter that fails when the date does not parse.
 */
module Ooo {
  import opened Wrappers
  import opened Text
  import opened Slack
  import opened Sorting

  /** One entry of the who's-out list: who, `timeOff` or `holiday` (or anything else), and the last day. */
  datatype Entry = Entry(name: string, kind: string, end: string)

  /** A date as the plugin shows it (`dddd, MMM d yyyy`) and as it compares it (`yyyy-MM-dd`). */
  datatype Day = Day(long: string, iso: string)

  function Name(e: Entry): string {
    e.name
  }

  // ------------------------------------------------------------- comparator

  /** `sortOn("name")`: -1, 1 or 0 as the first name is smaller, larger or neither. */
  function SortOn(a: Entry, b: Entry): (r: int)
    ensures r < 0 <==> Less(a.name, b.name)
    ensures r in {-1, 0, 1}
  {
    if Less(a.name, b.name) then -1
    else if Less(b.name, a.name) then 1
    else 0
  }

  /** Swapping the arguments negates the comparison. */
  lemma {:induction false} SortOnAntisymmetric(a: Entry, b: Entry)
    ensures SortOn(a, b) == -SortOn(b, a)
  {
    if Less(a.name, b.name) && Less(b.name, a.name) {
      LessTransitive(a.name, b.name, a.name);
      LessIrreflexive(a.name);
    }
  }

  /** Two entries compare equal exactly when they carry the same name. */
  lemma {:induction false} SortOnZeroIffSameName(a: Entry, b: Entry)
    ensures SortOn(a, b) == 0 <==> a.name == b.name
  {
    if a.name == b.name {
      LessIrreflexive(a.name);
    } else {
      LessConnected(a.name, b.name);
    }
  }

  /** `employees.sort(sortOn("name"))`, a stable sort under the comparator. */
  function ByName(es: seq<Entry>): seq<Entry> {
    Sort(es, Name, Less)
  }

  /** The sorted entries are the same entries, in ascending order of name. */
  lemma {:induction false} ByNameSortsAndPermutes(es: seq<Entry>)
    ensures multiset(ByName(es)) == multiset(es)
    ensures forall i, j :: 0 <= i < j < |ByName(es)| ==> SortOn(ByName(es)[j], ByName(es)[i]) >= 0
  {
    LessIsStrictTotalOrder();
    SortSorted(es, Name, Less);
    SortPermutes(es, Name, Less);
  }

  // ------------------------------------------------------------------- lines

  const Everyone := "_Everyone will be in the office._"

  /** The bold first line, `*OOO for <day>*`. */
  function Header(day: Day): (r: string)
    ensures StartsWith(r, "*OOO for ") && EndsWith(r, "*")
  {
    "*OOO for " + day.long + "*"
  }

  /** What one entry contributes: a line, nothing, or the error of an end date that does not parse. */
  datatype Outcome = Line(text: string) | NoLine | Throws

  /**
   * The line of one entry. A leave ending on the reported day is the bare
   * name; a longer one adds ` _<word> <end>_` (`through` in the current
   * plugin, `until` in its predecessor). A holiday is its name in bold.
   */
  function EntryOutcome(e: Entry, day: Day, endLabel: string -> Option<string>, word: string): (o: Outcome)
    ensures o.Throws? <==> e.kind == "timeOff" && e.end != day.iso && endLabel(e.end).None?
    ensures o.NoLine? <==> e.kind != "timeOff" && e.kind != "holiday"
    ensures e.kind == "timeOff" && e.end == day.iso ==> o == Line(e.name)
    ensures e.kind == "timeOff" && e.end != day.iso && endLabel(e.end).Some? ==>
              o == Line(e.name + " _" + word + " " + endLabel(e.end).value + "_")
    ensures e.kind == "holiday" ==> o == Line("*" + e.name + "*")
    ensures o.Line? ==> (o.text == "" <==> e.kind == "timeOff" && e.end == day.iso && e.name == "")
  {
    if e.kind == "timeOff" then
      if e.end == day.iso then Line(e.name)
      else match endLabel(e.end)
        case None => Throws
        case Some(end) => Line(e.name + " _" + word + " " + end + "_")
    else if e.kind == "holiday" then Line("*" + e.name + "*")
    else NoLine
  }

  /** The lines of the entries in order, or `None` once an end date fails to parse. */
  function Lines(es: seq<Entry>, day: Day, endLabel: string -> Option<string>, word: string): (r: Option<seq<string>>)
    ensures r.Some? ==> |r.value| <= |es|
  {
    if es == [] then Some([])
    else
      var before := Lines(es[..|es| - 1], day, endLabel, word);
      if before.None? then None
      else match EntryOutcome(es[|es| - 1], day, endLabel, word)
        case Throws => None
        case NoLine => before
        case Line(t) => Some(before.value + [t])
  }

  /** The number of entries that give a line: leaves and holidays. */
  function ShownCount(es: seq<Entry>): (n: nat)
    ensures n <= |es|
  {
    if es == [] then 0
    else ShownCount(es[..|es| - 1]) + (if es[|es| - 1].kind in {"timeOff", "holiday"} then 1 else 0)
  }

  /** The lines fail exactly when some leave ends on another day whose date does not parse. */
  lemma {:induction false} LinesFailIff(es: seq<Entry>, day: Day, endLabel: string -> Option<string>, word: string)
    ensures Lines(es, day, endLabel, word).None?
            <==> exists i :: 0 <= i < |es| && EntryOutcome(es[i], day, endLabel, word).Throws?
    decreases |es|
  {
    if es != [] {
      var init := es[..|es| - 1];
      LinesFailIff(init, day, endLabel, word);
      if exists i :: 0 <= i < |init| && EntryOutcome(init[i], day, endLabel, word).Throws? {
        var i :| 0 <= i < |init| && EntryOutcome(init[i], day, endLabel, word).Throws?;
        assert es[i] == init[i];
      }
      if exists i :: 0 <= i < |es| && EntryOutcome(es[i], day, endLabel, word).Throws? {
        var i :| 0 <= i < |es| && EntryOutcome(es[i], day, endLabel, word).Throws?;
        if i < |init| {
          assert init[i] == es[i];
        }
      }
    }
  }

  /**
   * When they do not fail, the lines are one per leave or holiday, and the
   * line of the entry at `i` is at the position given by the number of
   * shown entries before it.
   */
  lemma {:induction false} LinesPlaceEveryEntry(es: seq<Entry>, day: Day, endLabel: string -> Option<string>, word: string)
    requires Lines(es, day, endLabel, word).Some?
    ensures |Lines(es, day, endLabel, word).value| == ShownCount(es)
    ensures forall i :: 0 <= i < |es| && EntryOutcome(es[i], day, endLabel, word).Line? ==>
              ShownCount(es[..i]) < ShownCount(es)
              && Lines(es, day, endLabel, word).value[ShownCount(es[..i])]
                 == EntryOutcome(es[i], day, endLabel, word).text
    decreases |es|
  {
    if es != [] {
      var init := es[..|es| - 1];
      var last := es[|es| - 1];
      var before := Lines(init, day, endLabel, word);
      LinesPlaceEveryEntry(init, day, endLabel, word);
      var o := EntryOutcome(last, day, endLabel, word);
      assert o.Line? <==> last.kind in {"timeOff", "holiday"};
      var ls := Lines(es, day, endLabel, word).value;
      forall i | 0 <= i < |es| && EntryOutcome(es[i], day, endLabel, word).Line?
        ensures ShownCount(es[..i]) < ShownCount(es)
                && ls[ShownCount(es[..i])] == EntryOutcome(es[i], day, endLabel, word).text
      {
        if i < |init| {
          assert es[..i] == init[..i];
          assert es[i] == init[i];
        } else {
          assert es[..i] == init;
        }
      }
    }
  }

  /**
   * The loop over `Object.keys(employees)`, which visits the indexes in
   * ascending order, pushing each entry's line; a failing end date ends
   * it with the error.
   */
  method CollectLines(employees: array<Entry>, day: Day, endLabel: string -> Option<string>, word: string)
    returns (r: Option<seq<string>>)
    ensures r == Lines(employees[..], day, endLabel, word)
  {
    var ooo: seq<string> := [];
    for i := 0 to employees.Length
      invariant Lines(employees[..i], day, endLabel, word) == Some(ooo)
    {
      var e := employees[i];
      assert employees[..i + 1][..i] == employees[..i] && employees[..i + 1][i] == e;
      if e.kind == "timeOff" {
        var date := "";
        if e.end != day.iso {
          var parsed := endLabel(e.end);
          if parsed.None? {
            assert EntryOutcome(employees[..][i], day, endLabel, word).Throws?;
            LinesFailIff(employees[..], day, endLabel, word);
            return None;
          }
          date := " _" + word + " " + parsed.value + "_";
          assert e.name + date == e.name + " _" + word + " " + parsed.value + "_";
        } else {
          assert e.name + date == e.name;
        }
        assert EntryOutcome(e, day, endLabel, word) == Line(e.name + date);
        ooo := ooo + [e.name + date];
      } else if e.kind == "holiday" {
        ooo := ooo + ["*" + e.name + "*"];
      }
    }
    assert employees[..] == employees[..employees.Length];
    r := Some(ooo);
  }

  // ------------------------------------------------------- plugins/ooo.js

  /**
   * The lines of the current plugin: the header, then the entry lines. The
   * everyone-in line is added exactly when no entry gave a line.
   */
  function MessageLines(lines: seq<string>, day: Day): (r: seq<string>)
    ensures |r| >= 2 && r[0] == Header(day)
    ensures lines != [] <==> |r| == 1 + |lines|
    ensures lines != [] ==> r[1..] == lines
    ensures lines == [] ==> r[1..] == [Everyone]
  {
    [Header(day)] + (if lines == [] then [Everyone] else lines)
  }

  /** `buildOOOMessage`'s text for entries in their received order: `None` models the thrown error. */
  function Message(employees: seq<Entry>, day: Day, endLabel: string -> Option<string>): (r: Option<string>)
  {
    match Lines(ByName(employees), day, endLabel, "through")
    case None => None
    case Some(lines) => Some(Join(MessageLines(lines, day), "\n"))
  }

  /** The message opens with the header line, and has no other line when nobody is out. */
  lemma {:induction false} MessageShape(employees: seq<Entry>, day: Day, endLabel: string -> Option<string>)
    ensures Message(employees, day, endLabel).Some? ==> StartsWith(Message(employees, day, endLabel).value, Header(day) + "\n")
    ensures ShownCount(ByName(employees)) == 0 ==> Message(employees, day, endLabel) == Some(Header(day) + "\n" + Everyone)
  {
    var sorted := ByName(employees);
    var ls := Lines(sorted, day, endLabel, "through");
    if ls.Some? {
      var parts := MessageLines(ls.value, day);
      assert |parts| >= 2;
      assert Join(parts, "\n") == parts[0] + "\n" + Join(parts[1..], "\n");
    }
    if ShownCount(sorted) == 0 {
      forall i | 0 <= i < |sorted| ensures !EntryOutcome(sorted[i], day, endLabel, "through").Throws? {
        NotShownNotThrows(sorted, i);
      }
      LinesFailIff(sorted, day, endLabel, "through");
      LinesPlaceEveryEntry(sorted, day, endLabel, "through");
      assert MessageLines([], day) == [Header(day), Everyone];
      assert Join([Header(day), Everyone], "\n") == Header(day) + "\n" + Join([Everyone], "\n");
    }
  }

  /** With no shown entry, no entry is a leave, so none can fail. */
  lemma {:induction false} NotShownNotThrows(es: seq<Entry>, i: nat)
    requires i < |es| && ShownCount(es) == 0
    ensures es[i].kind != "timeOff" && es[i].kind != "holiday"
    decreases |es|
  {
    if i < |es| - 1 {
      assert es[..|es| - 1][i] == es[i];
      NotShownNotThrows(es[..|es| - 1], i);
    }
  }

  /**
   * `buildOOOMessage`: sorts the array in place by name, then joins the
   * header and the lines with `\n`. `start` is absent when the caller
   * gives no date, and today's date is used instead.
   */
  method BuildOOOMessage(employees: array<Entry>, start: Option<Day>, today: Day,
                         endLabel: string -> Option<string>) returns (r: Option<string>)
    modifies employees
    ensures employees[..] == ByName(old(employees[..]))
    ensures r == Message(old(employees[..]), if start.Some? then start.value else today, endLabel)
  {
    var day := if start.Some? then start.value else today;
    InsertionSort(employees, Name, Less);
    var lines := CollectLines(employees, day, endLabel, "through");
    if lines.None? {
      return None;
    }
    var ooo := [Header(day)] + lines.value;
    if |ooo| == 1 {
      ooo := ooo + [Everyone];
    }
    assert ooo == MessageLines(lines.value, day);
    r := Some(Join(ooo, "\n"));
  }

  // ---------------------------------------------------------- the query

  const Sorry := "Sorry, I couldn't fetch the out-of-office information. Please try again later."

  /** Three `0`s or `O`s (either case) at `p`, and the text ends with `?` with no line break in between. */
  predicate OooAt(t: string, p: nat) {
    && p + 4 <= |t|
    && t[|t| - 1] == '?'
    && (forall k :: p <= k < p + 3 ==> t[k] in "0Oo")
    && NoLineTerminator(t[p + 3..|t| - 1])
  }

  /** The leftmost position from `from` on where `/(0|O){3}(.*)[?]$/i` matches. */
  function OooSearch(t: string, from: nat): (r: Option<nat>)
    ensures r.Some? ==> from <= r.value && OooAt(t, r.value)
                        && forall q :: from <= q < r.value ==> !OooAt(t, q)
    ensures r.None? ==> forall q :: from <= q ==> !OooAt(t, q)
    decreases |t| - from
  {
    if from + 4 > |t| then None
    else if OooAt(t, from) then Some(from)
    else OooSearch(t, from + 1)
  }

  /** `text.match(oooRegex)[2]`: everything between the three letters and the final `?`. */
  function OooCapture(t: string): (r: Option<string>)
    ensures r.Some? <==> exists p :: OooAt(t, p)
    ensures r.Some? ==> NoLineTerminator(r.value) && |r.value| <= |t| - 4
  {
    match OooSearch(t, 0)
    case None => None
    case Some(p) => Some(t[p + 3..|t| - 1])
  }

  /** `handleOOOQuery`'s reply for a capture, or nothing. */
  function QueryReply(capture: string, today: Day, parse: string -> Option<Day>,
                      fetched: Option<seq<Entry>>, endLabel: string -> Option<string>,
                      threadTs: ThreadTs, ts: string): (r: Option<(string, string)>)
    ensures r.None? <==> capture != "" && parse(Trim(capture)).None?
    ensures r.Some? ==> r.value.1 == ReplyThread(threadTs, ts)
    ensures r.Some? && fetched.None? ==> r.value.0 == Sorry
    ensures r.Some? && capture == "" && fetched.Some? && Message(fetched.value, today, endLabel).Some?
            ==> r.value.0 == Message(fetched.value, today, endLabel).value
    ensures r.Some? ==>
              var d := if capture == "" then today else parse(Trim(capture)).value;
              r.value.0 == if fetched.Some? && Message(fetched.value, d, endLabel).Some?
                           then Message(fetched.value, d, endLabel).value else Sorry
  {
    var day := if capture == "" then Some(today) else parse(Trim(capture));
    if day.None? then None
    else
      var text := match fetched
        case None => Sorry
        case Some(es) =>
          match Message(es, day.value, endLabel)
          case None => Sorry
          case Some(m) => m;
      Some((text, ReplyThread(threadTs, ts)))
  }

  /**
   * `handleOOOQuery`: the day asked about is today when the capture is
   * empty, else the parsed capture; a capture that does not parse gives no
   * reply. `fetched` is the who's-out list, absent when the request
   * failed; a failure while building the message also gives the apology.
   */
  method HandleQuery(capture: string, today: Day, parse: string -> Option<Day>,
                     fetched: Option<seq<Entry>>, endLabel: string -> Option<string>,
                     threadTs: ThreadTs, ts: string) returns (reply: Option<(string, string)>)
    ensures reply == QueryReply(capture, today, parse, fetched, endLabel, threadTs, ts)
  {
    var day: Day;
    if capture == "" {
      day := today;
    } else {
      var result := parse(Trim(capture));
      if result.None? {
        return None;
      }
      day := result.value;
    }
    if fetched.None? {
      return Some((Sorry, ReplyThread(threadTs, ts)));
    }
    var es := fetched.value;
    var employees := new Entry[|es|](i requires 0 <= i < |es| => es[i]);
    assert employees[..] == es;
    var text := BuildOOOMessage(employees, Some(day), today, endLabel);
    reply := Some((if text.Some? then text.value else Sorry, ReplyThread(threadTs, ts)));
  }

  /** The message listener: a text the regex matches is a query. */
  method OnMessage(text: string, today: Day, parse: string -> Option<Day>,
                   fetched: Option<seq<Entry>>, endLabel: string -> Option<string>,
                   threadTs: ThreadTs, ts: string) returns (reply: Option<(string, string)>)
    ensures OooCapture(text).None? ==> reply.None?
    ensures OooCapture(text).Some? ==>
              reply == QueryReply(OooCapture(text).value, today, parse, fetched, endLabel, threadTs, ts)
  {
    var capture := OooCapture(text);
    if capture.None? {
      return None;
    }
    reply := HandleQuery(capture.value, today, parse, fetched, endLabel, threadTs, ts);
  }

  /** The `app_mention` listener: the text without its first mention is matched. */
  method OnMention(text: string, today: Day, parse: string -> Option<Day>,
                   fetched: Option<seq<Entry>>, endLabel: string -> Option<string>,
                   threadTs: ThreadTs, ts: string) returns (reply: Option<(string, string)>)
    ensures OooCapture(StripMention(text)).None? ==> reply.None?
    ensures OooCapture(StripMention(text)).Some? ==>
              reply == QueryReply(OooCapture(StripMention(text)).value, today, parse, fetched, endLabel, threadTs, ts)
  {
    reply := OnMessage(StripMention(text), today, parse, fetched, endLabel, threadTs, ts);
  }

  /** A question mark alone after the three letters asks about today. */
  lemma {:induction false} BareQuestionAsksToday(prefix: string)
    requires forall k :: 0 <= k < |prefix| ==> prefix[k] !in "0Oo"
    ensures OooCapture(prefix + "ooo?") == Some("")
  {
    var t := prefix + "ooo?";
    var p := |prefix|;
    assert OooAt(t, p);
    forall q: nat | q < p ensures !OooAt(t, q) {
      assert t[q] == prefix[q] && t[q] !in "0Oo";
    }
    var r := OooSearch(t, 0);
    assert r.Some?;
    assert r.value == p;
  }

  // --------------------------------------------------- lib/plugins/ooo.js

  /**
   * The lines of the predecessor: the everyone-in line is pushed, after
   * the entry lines, whenever the second element is missing or empty.
   */
  function LegacyLines(lines: seq<string>, day: Day): (r: seq<string>)
    ensures 1 + |lines| <= |r| <= 2 + |lines| && r[0] == Header(day) && r[1..1 + |lines|] == lines
    ensures (|r| == 2 + |lines| && r[|r| - 1] == Everyone) <==> (lines == [] || lines[0] == "")
  {
    [Header(day)] + lines + (if lines == [] || lines[0] == "" then [Everyone] else [])
  }

  /** Some entry at `i` is the first that gives a line, and is a same-day leave of someone with no name. */
  predicate FirstShownIsBlank(es: seq<Entry>, day: Day) {
    exists i :: 0 <= i < |es| && ShownCount(es[..i]) == 0
                && es[i].kind == "timeOff" && es[i].end == day.iso && es[i].name == ""
  }

  /** When some entry gives a line, there is a first one. */
  lemma {:induction false} FirstShownExists(es: seq<Entry>)
    requires ShownCount(es) > 0
    ensures exists i :: 0 <= i < |es| && ShownCount(es[..i]) == 0 && es[i].kind in {"timeOff", "holiday"}
    decreases |es|
  {
    var init := es[..|es| - 1];
    if ShownCount(init) > 0 {
      FirstShownExists(init);
      var i :| 0 <= i < |init| && ShownCount(init[..i]) == 0 && init[i].kind in {"timeOff", "holiday"};
      assert es[..i] == init[..i] && es[i] == init[i];
    } else {
      assert es[..|es| - 1] == init;
    }
  }

  /**
   * The lines are empty exactly when no entry is shown, and the first line
   * is empty exactly when the first shown entry is a same-day leave of
   * someone with no name.
   */
  lemma {:induction false} FirstLineBlank(es: seq<Entry>, day: Day, endLabel: string -> Option<string>, word: string)
    requires Lines(es, day, endLabel, word).Some?
    ensures var lines := Lines(es, day, endLabel, word).value;
            && (lines == [] <==> ShownCount(es) == 0)
            && (lines != [] ==> (lines[0] == "" <==> FirstShownIsBlank(es, day)))
  {
    var lines := Lines(es, day, endLabel, word).value;
    LinesPlaceEveryEntry(es, day, endLabel, word);
    if lines != [] {
      FirstShownExists(es);
      var i :| 0 <= i < |es| && ShownCount(es[..i]) == 0 && es[i].kind in {"timeOff", "holiday"};
      var o := EntryOutcome(es[i], day, endLabel, word);
      LinesFailIff(es, day, endLabel, word);
      assert !o.Throws?;
      assert lines[0] == o.text;
      if FirstShownIsBlank(es, day) {
        var b :| 0 <= b < |es| && ShownCount(es[..b]) == 0
                 && es[b].kind == "timeOff" && es[b].end == day.iso && es[b].name == "";
        assert lines[0] == EntryOutcome(es[b], day, endLabel, word).text;
      }
    }
  }

  /**
   * The predecessor adds the everyone-in line exactly when no entry is
   * shown, or the first shown entry after sorting is a same-day leave of
   * someone with no name.
   */
  lemma {:induction false} LegacyEveryoneIff(es: seq<Entry>, day: Day, endLabel: string -> Option<string>)
    requires Lines(ByName(es), day, endLabel, "until").Some?
    ensures var lines := Lines(ByName(es), day, endLabel, "until").value;
            var r := LegacyLines(lines, day);
            (|r| == 2 + |lines| && r[|r| - 1] == Everyone)
            <==> (ShownCount(ByName(es)) == 0 || FirstShownIsBlank(ByName(es), day))
  {
    FirstLineBlank(ByName(es), day, endLabel, "until");
  }

  /**
   * `_build_ooo`: the same sort and lines with `until` in place of
   * `through`, returned as an array of lines.
   */
  method BuildOoo(employees: array<Entry>, start: Option<Day>, today: Day,
                  endLabel: string -> Option<string>) returns (r: Option<seq<string>>)
    modifies employees
    ensures employees[..] == ByName(old(employees[..]))
    ensures var day := if start.Some? then start.value else today;
            match Lines(ByName(old(employees[..])), day, endLabel, "until")
            case None => r.None?
            case Some(lines) => r == Some(LegacyLines(lines, day))
  {
    var day := if start.Some? then start.value else today;
    InsertionSort(employees, Name, Less);
    var lines := CollectLines(employees, day, endLabel, "until");
    if lines.None? {
      return None;
    }
    var ooo := [Header(day)] + lines.value;
    if |ooo| < 2 || ooo[1] == "" {
      ooo := ooo + [Everyone];
    }
    assert ooo == LegacyLines(lines.value, day);
    r := Some(ooo);
  }

  /**
   * A leave of a person with an empty name, ending on the reported day,
   * gives an empty first line, and the predecessor then also claims that
   * everyone will be in the office.
   */
  lemma {:induction false} LegacyEveryoneDespiteEntry(day: Day, endLabel: string -> Option<string>)
    ensures var es := [Entry("", "timeOff", day.iso)];
            && ShownCount(es) == 1
            && Lines(ByName(es), day, endLabel, "until") == Some([""])
            && LegacyLines([""], day) == [Header(day), "", Everyone]
  {
    var es := [Entry("", "timeOff", day.iso)];
    assert es[..0] == [] && es[..|es| - 1] == [];
    assert EntryOutcome(es[0], day, endLabel, "until") == Line("");
    assert Insert([], es[0], Name, Less) == [es[0]];
    assert ByName(es) == es;
    assert Lines(es, day, endLabel, "until") == Some([] + [""]);
    assert [] + [""] == [""];
  }
}
