/**
 * The one-off CSV import scripts (scripts/import.factoids.js and
 * scripts/import.karma.js): parsed rows are folded into the record a team
 * stores, with each subject normalised to the id of the workspace user it
 * names or to its lower-cased text.
 */
module Imports {
  import opened Wrappers
  import opened Text
  import opened Slack
  import Patterns

  // ------------------------------------------------------------ findUser

  /** `[id, name, real_name || '', profile.display_name || '']`, lower-cased, includes the lower-cased string. */
  predicate NamesUser(u: User, s: string) {
    ToLower(s) in [ToLower(u.id), ToLower(u.name), ToLower(u.realName), ToLower(u.displayName)]
  }

  /** `users.members.find(...)`: the position of the first member the string names. */
  function FindUser(users: seq<User>, s: string): (r: Option<nat>)
    ensures r.Some? ==> r.value < |users| && NamesUser(users[r.value], s)
    ensures r.Some? ==> forall j :: 0 <= j < r.value ==> !NamesUser(users[j], s)
    ensures r.None? <==> forall j :: 0 <= j < |users| ==> !NamesUser(users[j], s)
  {
    if users == [] then None
    else if NamesUser(users[0], s) then Some(0)
    else match FindUser(users[1..], s)
      case None => None
      case Some(i) => Some(i + 1)
  }

  /** `user ? user.id : key.toLowerCase()`: a named user's id, else the key in lower case. */
  function ImportIndex(users: seq<User>, key: string): (r: string)
    ensures FindUser(users, key).Some? ==> r == users[FindUser(users, key).value].id
    ensures FindUser(users, key).None? ==> r == ToLower(key) && ToLower(r) == r
  {
    match FindUser(users, key)
    case Some(i) => users[i].id
    case None => Patterns.ToLowerIdempotent(key); ToLower(key)
  }

  /** Spelling the key in other capitals, or naming the same user another way, leads to the same index. */
  lemma {:induction false} ImportIndexIgnoresCase(users: seq<User>, a: string, b: string)
    requires ToLower(a) == ToLower(b)
    ensures ImportIndex(users, a) == ImportIndex(users, b)
  {
    assert forall u :: NamesUser(u, a) <==> NamesUser(u, b);
    assert FindUser(users, a) == FindUser(users, b) by {
      FindUserRespects(users, a, b);
    }
  }

  lemma {:induction false} FindUserRespects(users: seq<User>, a: string, b: string)
    requires forall u :: NamesUser(u, a) <==> NamesUser(u, b)
    ensures FindUser(users, a) == FindUser(users, b)
    decreases |users|
  {
    if users != [] && !NamesUser(users[0], a) {
      FindUserRespects(users[1..], a, b);
    }
  }

  // ------------------------------------------------------------ factoid rows

  /** A row of the factoid CSV, under the headers `key, be, value`. */
  datatype FactRow = FactRow(key: string, be: string, value: string)

  /** The fact record the script stores under an index. */
  datatype ImportedFact = ImportedFact(key: string, be: string, reply: bool, value: seq<string>)

  /** `/^tell /.test(key)`: "tell X about Y" rows are dropped. */
  predicate IsTellRow(r: FactRow) {
    StartsWith(r.key, "tell ")
  }

  /** `/^<reply>(.*)/.test(value)`. */
  predicate IsReplyValue(v: string) {
    StartsWith(v, "<reply>")
  }

  /**
   * The value stored for a row: the capture of `/^<reply>(.*)/` (up to the
   * first line terminator) when it matches, else the value as it is.
   */
  function StoredValue(v: string): (r: string)
    ensures IsReplyValue(v) ==> "<reply>" + r <= v && NoLineTerminator(r)
    ensures !IsReplyValue(v) ==> r == v
  {
    if IsReplyValue(v) then
      var q := LineEnd(v, 7);
      assert v[..q] == "<reply>" + v[7..q];
      v[7..q]
    else v
  }

  /** The record a first row creates: the key as a mention when a user matched, else lower-cased. */
  function NewImportedFact(users: seq<User>, r: FactRow): (f: ImportedFact)
    ensures f.value == [StoredValue(r.value)] && f.be == r.be && f.reply == IsReplyValue(r.value)
  {
    var key := match FindUser(users, r.key)
      case Some(i) => "<@" + users[i].id + ">"
      case None => ToLower(r.key);
    ImportedFact(key, r.be, IsReplyValue(r.value), [StoredValue(r.value)])
  }

  /** The effect of one row on `result.data`: create the record, or push the value onto the existing one. */
  function AddFactRow(users: seq<User>, data: map<string, ImportedFact>, r: FactRow): map<string, ImportedFact> {
    if IsTellRow(r) then data
    else
      var index := ImportIndex(users, r.key);
      if index in data then data[index := data[index].(value := data[index].value + [StoredValue(r.value)])]
      else data[index := NewImportedFact(users, r)]
  }

  /** `result.data` after the rows, in file order. */
  function FoldFacts(users: seq<User>, rows: seq<FactRow>): map<string, ImportedFact> {
    if rows == [] then map[] else AddFactRow(users, FoldFacts(users, rows[..|rows| - 1]), rows[|rows| - 1])
  }

  /** The rows that end up under `index`. */
  predicate RowCounts(users: seq<User>, r: FactRow, index: string) {
    !IsTellRow(r) && ImportIndex(users, r.key) == index
  }

  /** The first row filed under `index`. */
  function FirstRowFor(users: seq<User>, rows: seq<FactRow>, index: string): (r: Option<FactRow>)
    ensures r.Some? ==> r.value in rows && RowCounts(users, r.value, index)
    ensures r.None? <==> forall j :: 0 <= j < |rows| ==> !RowCounts(users, rows[j], index)
  {
    if rows == [] then None
    else
      var last := rows[|rows| - 1];
      match FirstRowFor(users, rows[..|rows| - 1], index)
      case Some(r) => Some(r)
      case None => if RowCounts(users, last, index) then Some(last) else None
  }

  /** The stored values of the rows filed under `index`, in file order. */
  function ValuesFor(users: seq<User>, rows: seq<FactRow>, index: string): (vs: seq<string>)
    ensures |vs| <= |rows|
    ensures FirstRowFor(users, rows, index).None? ==> vs == []
  {
    if rows == [] then []
    else
      var last := rows[|rows| - 1];
      ValuesFor(users, rows[..|rows| - 1], index)
        + (if RowCounts(users, last, index) then [StoredValue(last.value)] else [])
  }

  /**
   * What the import stores: an index is present exactly when some row is
   * filed under it; its record takes key, `be` and the reply flag from the
   * first such row and holds the values of all of them, in file order.
   */
  lemma {:induction false} FoldFactsGroups(users: seq<User>, rows: seq<FactRow>, index: string)
    ensures index in FoldFacts(users, rows) <==> FirstRowFor(users, rows, index).Some?
    ensures index in FoldFacts(users, rows) ==>
              var first := NewImportedFact(users, FirstRowFor(users, rows, index).value);
              FoldFacts(users, rows)[index] == first.(value := ValuesFor(users, rows, index))
    decreases |rows|
  {
    if rows != [] {
      var init, last := rows[..|rows| - 1], rows[|rows| - 1];
      FoldFactsGroups(users, init, index);
      AddFactRowAt(users, FoldFacts(users, init), last, index);
      assert FoldFacts(users, rows) == AddFactRow(users, FoldFacts(users, init), last);
    }
  }

  /** One row touches only the index it is filed under. */
  lemma {:induction false} AddFactRowAt(users: seq<User>, data: map<string, ImportedFact>, r: FactRow, index: string)
    ensures index in AddFactRow(users, data, r) <==> index in data || RowCounts(users, r, index)
    ensures index in AddFactRow(users, data, r) ==>
              AddFactRow(users, data, r)[index]
              == if !RowCounts(users, r, index) then data[index]
                 else if index in data then data[index].(value := data[index].value + [StoredValue(r.value)])
                 else NewImportedFact(users, r)
  {
  }

  /** A "tell" row changes nothing. */
  lemma {:induction false} TellRowIgnored(users: seq<User>, rows: seq<FactRow>, r: FactRow)
    requires IsTellRow(r)
    ensures FoldFacts(users, rows + [r]) == FoldFacts(users, rows)
  {
    assert (rows + [r])[..|rows|] == rows;
  }

  /** `importFactoids`: the `forEach` over the parsed rows, building the record to save. */
  method ImportFactoids(team: string, users: seq<User>, rows: seq<FactRow>)
    returns (id: string, data: map<string, ImportedFact>)
    ensures id == team + "_factoids"
    ensures data == FoldFacts(users, rows)
  {
    id := team + "_factoids";
    data := map[];
    for i := 0 to |rows|
      invariant data == FoldFacts(users, rows[..i])
    {
      var r := rows[i];
      assert rows[..i + 1][..i] == rows[..i];
      if IsTellRow(r) {
        continue;
      }
      var index := ImportIndex(users, r.key);
      var value := StoredValue(r.value);
      if index in data {
        data := data[index := data[index].(value := data[index].value + [value])];
      } else {
        data := data[index := NewImportedFact(users, r)];
      }
    }
    assert rows[..|rows|] == rows;
  }

  // ------------------------------------------------------------ karma rows

  /** A JavaScript number as the karma import sees it: an integer, or `NaN` from an unparseable cell. */
  datatype Num = Finite(n: int) | NaN

  /** `+` on numbers: `NaN` absorbs everything. */
  function Add(a: Num, b: Num): Num {
    if a.NaN? || b.NaN? then NaN else Finite(a.n + b.n)
  }

  /** `x || 0`: `NaN` and `0` are falsy; absence is modelled by the caller. */
  function OrZero(x: Num): (r: Num)
    ensures r.Finite?
    ensures x.Finite? ==> r == x
  {
    if x.NaN? then Finite(0) else x
  }

  function DigitRunEnd(s: string, i: nat): (k: nat)
    requires i <= |s|
    ensures i <= k <= |s|
    ensures forall j :: i <= j < k ==> IsDigit(s[j])
    ensures k < |s| ==> !IsDigit(s[k])
    decreases |s| - i
  {
    if i == |s| || !IsDigit(s[i]) then i else DigitRunEnd(s, i + 1)
  }

  /**
   * `parseInt(s, 10)`: leading white space, an optional sign, then the
   * longest run of decimal digits; `NaN` when there are none.
   */
  function ParseInt(s: string): (r: Num)
    ensures r.Finite? ==> exists i :: 0 <= i < |s| && IsDigit(s[i])
  {
    var i := LeadingSpaces(s);
    var negative := i < |s| && s[i] == '-';
    var d := if i < |s| && (s[i] == '-' || s[i] == '+') then i + 1 else i;
    var k := DigitRunEnd(s, d);
    if k == d then NaN
    else
      assert IsDigit(s[d]);
      var v: int := DigitsValue(s[d..k]);
      Finite(if negative then -v else v)
  }

  lemma {:induction false} DigitRunEndIs(s: string, i: nat, k: nat)
    requires i <= k <= |s|
    requires forall j :: i <= j < k ==> IsDigit(s[j])
    requires k < |s| ==> !IsDigit(s[k])
    ensures DigitRunEnd(s, i) == k
    decreases k - i
  {
    if i < k {
      DigitRunEndIs(s, i + 1, k);
    }
  }

  /** A text that is an optional '-' and then only digits, seen by index. */
  lemma {:induction false} ParseIntAt(s: string, d: nat)
    requires d < |s| && (d == 0 || (d == 1 && s[0] == '-'))
    requires forall j :: d <= j < |s| ==> IsDigit(s[j])
    ensures forall j :: 0 <= j < |s[d..]| ==> IsDigit(s[d..][j])
    ensures ParseInt(s) == Finite(if d == 1 then -(DigitsValue(s[d..]) as int) else DigitsValue(s[d..]))
  {
    assert LeadingSpaces(s) == 0;
    DigitRunEndIs(s, d, |s|);
    assert s[d..|s|] == s[d..];
  }

  /** `parseInt` reads back the decimal rendering of any integer. */
  lemma {:induction false} ParseIntOfIntToString(n: int)
    ensures ParseInt(IntToString(n)) == Finite(n)
  {
    var s := IntToString(n);
    var m: nat := if n < 0 then -n else n;
    var digits := NatToString(m);
    var d := if n < 0 then 1 else 0;
    NatToStringRoundTrip(m);
    assert s[d..] == digits;
    assert forall j :: d <= j < |s| ==> s[j] == digits[j - d];
    ParseIntAt(s, d);
  }

  /** A row of the karma CSV, under its `key` and `value` headers. */
  datatype KarmaRow = KarmaRow(key: string, value: string)

  /** The keys of the `karma` object in the order they were first set. */
  function RawOrder(rows: seq<KarmaRow>): (ks: seq<string>)
  {
    if rows == [] then []
    else
      var ks := RawOrder(rows[..|rows| - 1]);
      var k := rows[|rows| - 1].key;
      if k in ks then ks else ks + [k]
  }

  /** The key order lists exactly the keys of the rows. */
  lemma {:induction false} RawOrderKeys(rows: seq<KarmaRow>)
    ensures forall k :: k in RawOrder(rows) <==> exists j :: 0 <= j < |rows| && rows[j].key == k
    decreases |rows|
  {
    if rows != [] {
      var front := rows[..|rows| - 1];
      RawOrderKeys(front);
      assert forall j :: 0 <= j < |front| ==> front[j] == rows[j];
    }
  }

  /** `karma[row.key] = parseInt(row.value, 10)` for every row. */
  function RawKarma(rows: seq<KarmaRow>): (m: map<string, Num>)
    ensures forall k :: k in m <==> k in RawOrder(rows)
    ensures forall j :: 0 <= j < |rows| ==> rows[j].key in m
  {
    if rows == [] then map[]
    else
      var front := rows[..|rows| - 1];
      var last := rows[|rows| - 1];
      assert forall j :: 0 <= j < |front| ==> front[j] == rows[j];
      var ks := RawOrder(front);
      assert RawOrder(rows) == if last.key in ks then ks else ks + [last.key];
      assert forall k :: k in ks + [last.key] <==> k in ks || k == last.key;
      RawKarma(front)[last.key := ParseInt(last.value)]
  }

  predicate Distinct(ks: seq<string>) {
    forall i, j :: 0 <= i < j < |ks| ==> ks[i] != ks[j]
  }

  /** Each raw key appears once in the key order. */
  lemma {:induction false} RawOrderDistinct(rows: seq<KarmaRow>)
    ensures Distinct(RawOrder(rows))
    decreases |rows|
  {
    if rows != [] {
      RawOrderDistinct(rows[..|rows| - 1]);
    }
  }

  /** The value kept for a raw key is that of the last row carrying it. */
  lemma {:induction false} LastRowWins(rows: seq<KarmaRow>, i: nat)
    requires i < |rows|
    requires forall j :: i < j < |rows| ==> rows[j].key != rows[i].key
    ensures RawKarma(rows)[rows[i].key] == ParseInt(rows[i].value)
    decreases |rows|
  {
    if i < |rows| - 1 {
      var front := rows[..|rows| - 1];
      assert front[i] == rows[i];
      assert forall j :: i < j < |front| ==> front[j] == rows[j];
      LastRowWins(front, i);
    }
  }

  /** The effect of one raw key on `result.data`: `(data[index] || 0) + karma[key]`. */
  function AddKarmaKey(users: seq<User>, data: map<string, Num>, key: string, value: Num): map<string, Num> {
    var index := ImportIndex(users, key);
    data[index := Add(if index in data then OrZero(data[index]) else Finite(0), value)]
  }

  /** `result.data` after the raw keys `ks`, in order. */
  function FoldKarma(users: seq<User>, raw: map<string, Num>, ks: seq<string>): map<string, Num>
    requires forall k :: k in ks ==> k in raw
  {
    if ks == [] then map[]
    else AddKarmaKey(users, FoldKarma(users, raw, ks[..|ks| - 1]), ks[|ks| - 1], raw[ks[|ks| - 1]])
  }

  /** The sum of the raw values of the keys in `ks` that normalise to `index`, all finite. */
  function SumFor(users: seq<User>, raw: map<string, Num>, ks: seq<string>, index: string): int
    requires forall k :: k in ks ==> k in raw && raw[k].Finite?
  {
    if ks == [] then 0
    else
      var k := ks[|ks| - 1];
      SumFor(users, raw, ks[..|ks| - 1], index) + (if ImportIndex(users, k) == index then raw[k].n else 0)
  }

  /**
   * With every cell a number, an index is present exactly when some raw
   * key normalises to it, and it holds the sum of those keys' values:
   * every raw key is counted once, under one index.
   */
  lemma {:induction false} FoldKarmaSums(users: seq<User>, raw: map<string, Num>, ks: seq<string>, index: string)
    requires forall k :: k in ks ==> k in raw && raw[k].Finite?
    ensures index in FoldKarma(users, raw, ks) ==> FoldKarma(users, raw, ks)[index] == Finite(SumFor(users, raw, ks, index))
    decreases |ks|
  {
    if ks != [] {
      var front, k := ks[..|ks| - 1], ks[|ks| - 1];
      assert forall x :: x in front ==> x in ks;
      var prev := FoldKarma(users, raw, front);
      var r := AddKarmaKey(users, prev, k, raw[k]);
      assert FoldKarma(users, raw, ks) == r;
      var before := SumFor(users, raw, front, index);
      FoldKarmaSums(users, raw, front, index);
      AddKarmaKeyAt(users, prev, k, raw[k], index);
      if ImportIndex(users, k) == index {
        assert SumFor(users, raw, ks, index) == before + raw[k].n;
        if index !in prev {
          assert before == 0 by {
            FoldKarmaDomain(users, raw, front, index);
            SumForNone(users, raw, front, index);
          }
        }
      } else {
        assert SumFor(users, raw, ks, index) == before;
      }
    }
  }

  /** What adding one raw key does at a given index. */
  lemma {:induction false} AddKarmaKeyAt(users: seq<User>, data: map<string, Num>, key: string, value: Num, index: string)
    ensures var r := AddKarmaKey(users, data, key, value);
            && (index in r <==> index in data || ImportIndex(users, key) == index)
            && (ImportIndex(users, key) != index && index in data ==> r[index] == data[index])
            && (ImportIndex(users, key) == index ==>
                  r[index] == Add(if index in data then OrZero(data[index]) else Finite(0), value))
  {
  }

  /** An index is present exactly when some raw key normalises to it. */
  lemma {:induction false} FoldKarmaDomain(users: seq<User>, raw: map<string, Num>, ks: seq<string>, index: string)
    requires forall k :: k in ks ==> k in raw
    ensures index in FoldKarma(users, raw, ks) <==> exists j :: 0 <= j < |ks| && ImportIndex(users, ks[j]) == index
    decreases |ks|
  {
    if ks != [] {
      var front := ks[..|ks| - 1];
      var last := ks[|ks| - 1];
      assert forall k :: k in front ==> k in ks;
      FoldKarmaDomain(users, raw, front, index);
      assert FoldKarma(users, raw, ks) == AddKarmaKey(users, FoldKarma(users, raw, front), last, raw[last]);
      assert index in FoldKarma(users, raw, ks) <==> index == ImportIndex(users, last) || index in FoldKarma(users, raw, front);
      assert forall j :: 0 <= j < |front| ==> front[j] == ks[j];
    }
  }

  lemma {:induction false} SumForNone(users: seq<User>, raw: map<string, Num>, ks: seq<string>, index: string)
    requires forall k :: k in ks ==> k in raw && raw[k].Finite?
    requires forall j :: 0 <= j < |ks| ==> ImportIndex(users, ks[j]) != index
    ensures SumFor(users, raw, ks, index) == 0
    decreases |ks|
  {
    if ks != [] {
      var front := ks[..|ks| - 1];
      assert forall k :: k in front ==> k in ks;
      assert forall j :: 0 <= j < |front| ==> front[j] == ks[j];
      SumForNone(users, raw, front, index);
    }
  }

  /** An unparseable cell poisons its index, until a later key at that index resets it through `|| 0`. */
  lemma {:induction false} NaNIsResetByLaterKey(users: seq<User>, data: map<string, Num>, key: string, v: int)
    requires ImportIndex(users, key) in data && data[ImportIndex(users, key)].NaN?
    ensures AddKarmaKey(users, data, key, Finite(v))[ImportIndex(users, key)] == Finite(v)
  {
  }

  lemma {:induction false} RawStep(rows: seq<KarmaRow>, i: nat)
    requires i < |rows|
    ensures RawKarma(rows[..i + 1]) == RawKarma(rows[..i])[rows[i].key := ParseInt(rows[i].value)]
    ensures RawOrder(rows[..i + 1])
         == if rows[i].key in RawOrder(rows[..i]) then RawOrder(rows[..i]) else RawOrder(rows[..i]) + [rows[i].key]
  {
    assert rows[..i + 1][..i] == rows[..i];
  }

  lemma {:induction false} FoldKarmaStep(users: seq<User>, raw: map<string, Num>, ks: seq<string>, i: nat)
    requires i < |ks| && forall k :: k in ks ==> k in raw
    ensures forall k :: k in ks[..i] ==> k in raw
    ensures FoldKarma(users, raw, ks[..i + 1]) == AddKarmaKey(users, FoldKarma(users, raw, ks[..i]), ks[i], raw[ks[i]])
  {
    assert ks[..i + 1][..i] == ks[..i];
  }

  /** `importKarma`: the row loop that fills `karma`, then the loop over its keys that fills `result.data`. */
  method ImportKarma(team: string, users: seq<User>, rows: seq<KarmaRow>)
    returns (id: string, data: map<string, Num>)
    ensures id == team + "_karma"
    ensures data == FoldKarma(users, RawKarma(rows), RawOrder(rows))
  {
    var karma: map<string, Num> := map[];
    var order: seq<string> := [];
    for i := 0 to |rows|
      invariant karma == RawKarma(rows[..i]) && order == RawOrder(rows[..i])
    {
      RawStep(rows, i);
      var r := rows[i];
      if r.key !in karma {
        order := order + [r.key];
      }
      karma := karma[r.key := ParseInt(r.value)];
    }
    assert rows[..|rows|] == rows;
    assert forall k :: k in order ==> k in karma;
    id := team + "_karma";
    data := map[];
    for i := 0 to |order|
      invariant forall k :: k in order[..i] ==> k in karma
      invariant data == FoldKarma(users, karma, order[..i])
    {
      FoldKarmaStep(users, karma, order, i);
      var key := order[i];
      var index := ImportIndex(users, key);
      var value := if index in data then OrZero(data[index]) else Finite(0);
      data := data[index := Add(value, karma[key])];
    }
    assert order[..|order|] == order;
  }
}
