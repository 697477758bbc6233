/**
 * `PatternRegistryService`: the list of command patterns the plugins
 * register, kept ordered by descending priority, and the question "does
 * any registered pattern match this text".
 */
module PatternRegistry {
  import opened Wrappers
  import opened Patterns
  import opened Sorting

  /** `PatternEntry`: a pattern, the plugin that registered it, and its priority. */
  datatype PatternEntry = PatternEntry(pattern: Pattern, pluginName: string, priority: real)

  function Priority(e: PatternEntry): real {
    e.priority
  }

  /**
   * The comparator `(a, b) => b.priority - a.priority` is negative exactly
   * when `a` has the higher priority, so that entry goes first.
   */
  predicate Higher(a: real, b: real) {
    a > b
  }

  lemma {:induction false} HigherIsStrictTotalOrder()
    ensures StrictTotalOrder(Higher)
  {
  }

  /** The entries of `log` in the order the registry keeps them. */
  function Ordered(log: seq<PatternEntry>): (r: seq<PatternEntry>)
    ensures |r| == |log|
  {
    Sort(log, Priority, Higher)
  }

  /**
   * The ordering after any sequence of registrations: by non-increasing
   * priority, a permutation of what was registered, and within one
   * priority in registration order.
   */
  lemma {:induction false} OrderedProperties(log: seq<PatternEntry>)
    ensures forall i, j :: 0 <= i < j < |log| ==> Ordered(log)[i].priority >= Ordered(log)[j].priority
    ensures multiset(Ordered(log)) == multiset(log)
    ensures forall p :: KeyFilter(Ordered(log), Priority, p) == KeyFilter(log, Priority, p)
  {
    HigherIsStrictTotalOrder();
    SortSorted(log, Priority, Higher);
    SortPermutes(log, Priority, Higher);
    forall p
      ensures KeyFilter(Ordered(log), Priority, p) == KeyFilter(log, Priority, p)
    {
      SortKeyFilter(log, Priority, Higher, p);
    }
  }

  /** Entries registered with one and the same priority stay in registration order. */
  lemma {:induction false} SamePriorityKeepsOrder(log: seq<PatternEntry>, p: real)
    requires forall i :: 0 <= i < |log| ==> log[i].priority == p
    ensures Ordered(log) == log
  {
    assert Sorted(log, Priority, Higher);
    SortIdempotent(log, Priority, Higher);
  }

  /**
   * Pushing an entry onto the ordered list and sorting again gives the
   * order of the whole registration history: the registry never depends
   * on how the earlier entries were arranged, only on what they were.
   */
  lemma {:induction false} ResortAfterPush(log: seq<PatternEntry>, e: PatternEntry)
    ensures Sort(Ordered(log) + [e], Priority, Higher) == Ordered(log + [e])
  {
    var sorted := Ordered(log);
    HigherIsStrictTotalOrder();
    SortSorted(log, Priority, Higher);
    SortIdempotent(sorted, Priority, Higher);
    assert (sorted + [e])[..|sorted|] == sorted;
    assert (log + [e])[..|log|] == log;
  }

  /** Registering adds exactly the new entry and removes nothing. */
  lemma {:induction false} RegisterAddsOne(log: seq<PatternEntry>, e: PatternEntry)
    ensures multiset(Ordered(log + [e])) == multiset(Ordered(log)) + multiset{e}
    ensures e in Ordered(log + [e])
  {
    SortPermutes(log, Priority, Higher);
    SortPermutes(log + [e], Priority, Higher);
    assert e in multiset(Ordered(log + [e]));
  }

  /** The leftmost entry whose pattern matches `text`. */
  function FirstMatch(entries: seq<PatternEntry>, text: string): (r: Option<nat>)
    ensures r.Some? ==> r.value < |entries| && Test(entries[r.value].pattern, text)
    ensures r.Some? ==> forall i :: 0 <= i < r.value ==> !Test(entries[i].pattern, text)
    ensures r.None? <==> forall i :: 0 <= i < |entries| ==> !Test(entries[i].pattern, text)
  {
    if entries == [] then None
    else if Test(entries[0].pattern, text) then Some(0)
    else match FirstMatch(entries[1..], text)
      case None => None
      case Some(i) => Some(i + 1)
  }

  /** Whether a text matches some registered pattern does not depend on their order. */
  lemma {:induction false} MatchesAnyIgnoresOrder(log: seq<PatternEntry>, text: string)
    ensures FirstMatch(Ordered(log), text).Some? <==> FirstMatch(log, text).Some?
  {
    SortPermutes(log, Priority, Higher);
    var sorted := Ordered(log);
    if i :| 0 <= i < |log| && Test(log[i].pattern, text) {
      assert log[i] in multiset(sorted);
    }
    if i :| 0 <= i < |sorted| && Test(sorted[i].pattern, text) {
      assert sorted[i] in multiset(log);
    }
  }

  class PatternRegistryService {
    /** The registered entries, highest priority first. */
    var patterns: seq<PatternEntry>
    /** Every entry ever registered, in registration order. */
    ghost var log: seq<PatternEntry>

    ghost predicate Valid()
      reads this
    {
      patterns == Ordered(log)
    }

    constructor ()
      ensures Valid()
      ensures log == [] && patterns == []
    {
      patterns := [];
      log := [];
    }

    /**
     * `registerPattern`: pushes the entry (priority 1 unless given) and
     * sorts the list again by descending priority.
     */
    method RegisterPattern(pattern: Pattern, pluginName: string, priority: real := 1.0)
      requires Valid()
      modifies this
      ensures Valid()
      ensures log == old(log) + [PatternEntry(pattern, pluginName, priority)]
      ensures patterns == Sort(old(patterns) + [PatternEntry(pattern, pluginName, priority)], Priority, Higher)
    {
      var entry := PatternEntry(pattern, pluginName, priority);
      var pushed := patterns + [entry];
      var buffer := new PatternEntry[|pushed|](i requires 0 <= i < |pushed| => pushed[i]);
      assert buffer[..] == pushed;
      InsertionSort(buffer, Priority, Higher);
      patterns := buffer[..];
      ResortAfterPush(log, entry);
      log := log + [entry];
    }

    /**
     * `matchesAnyPattern`: tests the entries in order and returns at the
     * first match. `tested` counts the entries whose pattern was tried.
     */
    method MatchesAnyPattern(text: string) returns (found: bool, ghost tested: nat)
      ensures found <==> exists i :: 0 <= i < |patterns| && Test(patterns[i].pattern, text)
      ensures found ==> FirstMatch(patterns, text) == Some(tested - 1)
      ensures !found ==> tested == |patterns|
    {
      tested := 0;
      for i := 0 to |patterns|
        invariant tested == i
        invariant forall k :: 0 <= k < i ==> !Test(patterns[k].pattern, text)
      {
        tested := tested + 1;
        if Test(patterns[i].pattern, text) {
          return true, tested;
        }
      }
      return false, tested;
    }

    /** `getPatterns`: the current entries, as a value the caller cannot change. */
    method GetPatterns() returns (r: seq<PatternEntry>)
      requires Valid()
      ensures r == patterns
      ensures r == Ordered(log)
    {
      r := patterns;
    }
  }
}
