/**
 * The weekly overview of logged time: the entries are grouped by the week their date
 * falls in, each week gets the sum of its hours, and the weeks are listed newest first.
 * The week key of a date (`yyyy-ww` of the start of its week) is a parameter `weekOf`.
 */
module WeeklyOverview {
  import opened Wrappers
  import opened Types
  import opened JsText

  /** The entries whose date falls in week `key`, in input order. */
  function EntriesOfWeek(entries: seq<TimeEntry>, weekOf: string -> string, key: string): (r: seq<TimeEntry>)
  {
    if entries == [] then []
    else
      var last := entries[|entries| - 1];
      assert entries == entries[..|entries| - 1] + [last];
      EntriesOfWeek(entries[..|entries| - 1], weekOf, key) + (if weekOf(last.date) == key then [last] else [])
  }

  /** One more entry joins the group of its own week and no other. */
  lemma EntriesOfWeekSnoc(s: seq<TimeEntry>, e: TimeEntry, weekOf: string -> string, key: string)
    ensures EntriesOfWeek(s + [e], weekOf, key)
         == EntriesOfWeek(s, weekOf, key) + (if weekOf(e.date) == key then [e] else [])
  {
    assert (s + [e])[..|s + [e]| - 1] == s;
  }

  /** An entry is in its week's group and in no other. */
  lemma {:induction false} EntriesOfWeekMembers(entries: seq<TimeEntry>, weekOf: string -> string, key: string)
    ensures forall e :: e in EntriesOfWeek(entries, weekOf, key) <==> e in entries && weekOf(e.date) == key
  {
    if entries != [] {
      var init, last := entries[..|entries| - 1], entries[|entries| - 1];
      assert entries == init + [last];
      EntriesOfWeekMembers(init, weekOf, key);
    }
  }

  /** Grouping a concatenation groups each part, one after the other: entries keep their
      input order within a week. */
  lemma {:induction false} EntriesOfWeekConcat(a: seq<TimeEntry>, b: seq<TimeEntry>, weekOf: string -> string, key: string)
    ensures EntriesOfWeek(a + b, weekOf, key) == EntriesOfWeek(a, weekOf, key) + EntriesOfWeek(b, weekOf, key)
    decreases |b|
  {
    if b == [] {
      assert a + b == a;
    } else {
      var init, last := b[..|b| - 1], b[|b| - 1];
      assert a + b == (a + init) + [last];
      EntriesOfWeekSnoc(a + init, last, weekOf, key);
      EntriesOfWeekSnoc(init, last, weekOf, key);
      assert b == init + [last];
      EntriesOfWeekConcat(a, init, weekOf, key);
    }
  }

  /** A week none of the entries falls in has no entries. */
  lemma EntriesOfOtherWeek(s: seq<TimeEntry>, weekOf: string -> string, key: string)
    requires key !in WeekKeys(s, weekOf)
    ensures EntriesOfWeek(s, weekOf, key) == []
  {
    EntriesOfWeekMembers(s, weekOf, key);
    var r := EntriesOfWeek(s, weekOf, key);
    if r != [] {
      assert r[0] in r;
      WeekKeysOfEntries(s, weekOf);
    }
  }

  lemma WeekKeysSnoc(s: seq<TimeEntry>, e: TimeEntry, weekOf: string -> string)
    ensures WeekKeys(s + [e], weekOf) == WeekKeys(s, weekOf) + {weekOf(e.date)}
  {
    assert (s + [e])[..|s + [e]| - 1] == s;
  }

  /** `entries.reduce((sum, entry) => sum + Number(entry.hours), 0)`. */
  function HoursSum(entries: seq<TimeEntry>): real {
    if entries == [] then 0.0 else HoursSum(entries[..|entries| - 1]) + entries[|entries| - 1].hours
  }

  /** The week keys the entries fall in. */
  function WeekKeys(entries: seq<TimeEntry>, weekOf: string -> string): (r: set<string>)
  {
    if entries == [] then {}
    else
      var last := entries[|entries| - 1];
      assert entries == entries[..|entries| - 1] + [last];
      WeekKeys(entries[..|entries| - 1], weekOf) + {weekOf(last.date)}
  }

  /** The week of every entry is among the keys. */
  lemma {:induction false} WeekKeysOfEntries(entries: seq<TimeEntry>, weekOf: string -> string)
    ensures forall e | e in entries :: weekOf(e.date) in WeekKeys(entries, weekOf)
  {
    if entries != [] {
      var init, last := entries[..|entries| - 1], entries[|entries| - 1];
      assert entries == init + [last];
      WeekKeysOfEntries(init, weekOf);
    }
  }

  /** Every key in `WeekKeys` is the week of some entry. */
  lemma {:induction false} WeekKeysHaveEntries(entries: seq<TimeEntry>, weekOf: string -> string, k: string)
    requires k in WeekKeys(entries, weekOf)
    ensures exists e | e in entries :: weekOf(e.date) == k
  {
    var last := entries[|entries| - 1];
    var init := entries[..|entries| - 1];
    assert entries == init + [last];
    if weekOf(last.date) != k {
      WeekKeysHaveEntries(init, weekOf, k);
      var e :| e in init && weekOf(e.date) == k;
      assert e in entries;
    }
  }

  predicate Distinct(keys: seq<string>) {
    forall a, b | 0 <= a < b < |keys| :: keys[a] != keys[b]
  }

  /** `keys` lists the week keys of `s` once each, and `groups` maps each of them to the
      entries of that week. */
  predicate Grouped(keys: seq<string>, groups: map<string, seq<TimeEntry>>, s: seq<TimeEntry>, weekOf: string -> string) {
    && Distinct(keys)
    && (forall k | k in keys :: k in groups)
    && (forall k | k in groups :: k in keys)
    && groups.Keys == WeekKeys(s, weekOf)
    && forall k | k in groups :: groups[k] == EntriesOfWeek(s, weekOf, k) && groups[k] != []
  }

  /** One step of the `reduce`: the entry is pushed onto its week's group, which is
      created (and its key listed) the first time the week is met. */
  lemma GroupStep(keys: seq<string>, groups: map<string, seq<TimeEntry>>, s: seq<TimeEntry>, e: TimeEntry,
                  weekOf: string -> string, keys': seq<string>, groups': map<string, seq<TimeEntry>>, s': seq<TimeEntry>)
    requires Grouped(keys, groups, s, weekOf)
    requires s' == s + [e]
    requires keys' == if weekOf(e.date) in groups then keys else keys + [weekOf(e.date)]
    requires groups' == groups[weekOf(e.date) := (if weekOf(e.date) in groups then groups[weekOf(e.date)] else []) + [e]]
    ensures Grouped(keys', groups', s', weekOf)
  {
    var key := weekOf(e.date);
    WeekKeysSnoc(s, e, weekOf);
    if key !in groups {
      EntriesOfOtherWeek(s, weekOf, key);
    }
    forall k | k in groups' ensures groups'[k] == EntriesOfWeek(s', weekOf, k) {
      EntriesOfWeekSnoc(s, e, weekOf, k);
    }
  }

  /** The `reduce` into an accumulator object: `keys` is the order in which week keys are
      first met, `groups` maps each key to its entries. */
  method GroupByWeek(entries: seq<TimeEntry>, weekOf: string -> string)
    returns (keys: seq<string>, groups: map<string, seq<TimeEntry>>)
    ensures Grouped(keys, groups, entries, weekOf)
  {
    keys, groups := [], map[];
    for i := 0 to |entries|
      invariant Grouped(keys, groups, entries[..i], weekOf)
    {
      var entry := entries[i];
      var key := weekOf(entry.date);
      ghost var keys0, groups0 := keys, groups;
      if key !in groups {
        groups := groups[key := []];
        keys := keys + [key];
      }
      groups := groups[key := groups[key] + [entry]];
      assert entries[..i + 1] == entries[..i] + [entry];
      GroupStep(keys0, groups0, entries[..i], entry, weekOf, keys, groups, entries[..i + 1]);
    }
    assert entries[..|entries|] == entries;
  }

  /** One card of the overview (the start and end dates of the week are left out). */
  datatype Week = Week(weekKey: string, weekNumber: Option<string>, entries: seq<TimeEntry>, totalHours: real)

  /** `const [year, week] = weekKey.split('-')`: the second piece, if there is one. */
  function WeekNumber(weekKey: string): (r: Option<string>)
    ensures r.Some? ==> forall i | 0 <= i < |r.value| :: r.value[i] != '-'
  {
    var pieces := Split(weekKey, '-');
    if |pieces| >= 2 then Some(pieces[1]) else None
  }

  /** For a key of the form year-week, the week number is the part after the dash. */
  lemma WeekNumberOfKey(year: string, week: string)
    requires forall i | 0 <= i < |year| :: year[i] != '-'
    requires forall i | 0 <= i < |week| :: week[i] != '-'
    ensures WeekNumber(year + "-" + week) == Some(week)
  {
    SplitPieces(year, week);
  }

  lemma {:induction false} SplitNoSep(s: string, sep: char)
    requires forall i | 0 <= i < |s| :: s[i] != sep
    ensures Split(s, sep) == [s]
  {
    if s != [] {
      SplitNoSep(s[1..], sep);
      assert [s[0]] + s[1..] == s;
    }
  }

  lemma {:induction false} SplitPieces(year: string, week: string)
    requires forall i | 0 <= i < |year| :: year[i] != '-'
    requires forall i | 0 <= i < |week| :: week[i] != '-'
    ensures Split(year + "-" + week, '-') == [year, week]
  {
    var s := year + "-" + week;
    if year == [] {
      assert s == ['-'] + week;
      assert s[1..] == week;
      SplitNoSep(week, '-');
    } else {
      assert s[1..] == year[1..] + "-" + week;
      SplitPieces(year[1..], week);
      assert [s[0]] + year[1..] == year;
    }
  }

  function MakeWeek(key: string, entries: seq<TimeEntry>): Week {
    Week(key, WeekNumber(key), entries, HoursSum(entries))
  }

  // ---------------------------------------------------------------------------
  // sorting the weeks by key, newest first

  /** `sort((a, b) => b.weekKey.localeCompare(a.weekKey))` on one element. */
  function InsertByKey(w: Week, ws: seq<Week>): (r: seq<Week>)
    ensures multiset(r) == multiset(ws) + multiset{w}
  {
    if ws == [] || !StrLess(w.weekKey, ws[0].weekKey) then [w] + ws
    else
      assert ws == [ws[0]] + ws[1..];
      [ws[0]] + InsertByKey(w, ws[1..])
  }

  function SortByKey(ws: seq<Week>): (r: seq<Week>)
    ensures multiset(r) == multiset(ws)
  {
    if ws == [] then []
    else
      assert ws == [ws[0]] + ws[1..];
      InsertByKey(ws[0], SortByKey(ws[1..]))
  }

  predicate NewestFirst(ws: seq<Week>) {
    forall i, j | 0 <= i < j < |ws| :: !StrLess(ws[i].weekKey, ws[j].weekKey)
  }

  lemma NotLessTransitive(a: string, b: string, c: string)
    requires !StrLess(a, b) && !StrLess(b, c)
    ensures !StrLess(a, c)
  {
    if StrLess(a, c) {
      if a == b {
      } else {
        StrLessTotal(a, b);
        StrLessTransitive(b, a, c);
      }
    }
  }

  lemma {:induction false} InsertByKeySorted(w: Week, ws: seq<Week>)
    requires NewestFirst(ws)
    ensures NewestFirst(InsertByKey(w, ws))
  {
    var r := InsertByKey(w, ws);
    if ws == [] {
    } else if !StrLess(w.weekKey, ws[0].weekKey) {
      forall j | 0 < j < |r| ensures !StrLess(r[0].weekKey, r[j].weekKey) {
        if j > 1 {
          NotLessTransitive(w.weekKey, ws[0].weekKey, ws[j - 1].weekKey);
        }
      }
    } else {
      InsertByKeySorted(w, ws[1..]);
      var rest := InsertByKey(w, ws[1..]);
      assert !StrLess(ws[0].weekKey, w.weekKey) by {
        if StrLess(ws[0].weekKey, w.weekKey) {
          StrLessTransitive(w.weekKey, ws[0].weekKey, w.weekKey);
          StrLessIrreflexive(w.weekKey);
        }
      }
      forall x: Week | x in multiset(rest) ensures !StrLess(ws[0].weekKey, x.weekKey) {
        assert x in multiset(ws[1..]) + multiset{w};
        if x != w {
          assert x in ws[1..];
        }
      }
      forall j | 0 < j < |r| ensures !StrLess(r[0].weekKey, r[j].weekKey) {
        assert r[j] == rest[j - 1];
        assert r[j] in multiset(rest);
      }
    }
  }

  lemma {:induction false} SortByKeySorted(ws: seq<Week>)
    ensures NewestFirst(SortByKey(ws))
  {
    if ws != [] {
      SortByKeySorted(ws[1..]);
      InsertByKeySorted(ws[0], SortByKey(ws[1..]));
    }
  }

  function TotalOf(ws: seq<Week>): real {
    if ws == [] then 0.0 else ws[0].totalHours + TotalOf(ws[1..])
  }

  lemma {:induction false} InsertByKeyTotal(w: Week, ws: seq<Week>)
    ensures TotalOf(InsertByKey(w, ws)) == w.totalHours + TotalOf(ws)
  {
    if ws != [] && StrLess(w.weekKey, ws[0].weekKey) {
      InsertByKeyTotal(w, ws[1..]);
    }
  }

  lemma {:induction false} SortByKeyTotal(ws: seq<Week>)
    ensures TotalOf(SortByKey(ws)) == TotalOf(ws)
  {
    if ws != [] {
      SortByKeyTotal(ws[1..]);
      InsertByKeyTotal(ws[0], SortByKey(ws[1..]));
    }
  }

  // ---------------------------------------------------------------------------
  // the hours of all weeks add up to the hours of all entries

  function KeysTotal(keys: seq<string>, entries: seq<TimeEntry>, weekOf: string -> string): real {
    if keys == [] then 0.0 else HoursSum(EntriesOfWeek(entries, weekOf, keys[0])) + KeysTotal(keys[1..], entries, weekOf)
  }

  lemma {:induction false} HoursSumAppend(a: seq<TimeEntry>, b: seq<TimeEntry>)
    ensures HoursSum(a + b) == HoursSum(a) + HoursSum(b)
    decreases |b|
  {
    if b != [] {
      var last := b[|b| - 1];
      assert a + b == (a + b[..|b| - 1]) + [last];
      assert (a + b)[..|a + b| - 1] == a + b[..|b| - 1];
      HoursSumAppend(a, b[..|b| - 1]);
    } else {
      assert a + b == a;
    }
  }

  lemma DistinctTail(keys: seq<string>)
    requires keys != [] && Distinct(keys)
    ensures Distinct(keys[1..]) && keys[0] !in keys[1..]
  {
    forall b | 0 <= b < |keys[1..]| ensures keys[1..][b] != keys[0] {
      assert keys[1..][b] == keys[b + 1];
    }
  }

  /** Adding one entry adds its hours to the total over distinct keys once if its week is
      among them, and not at all otherwise. */
  lemma {:induction false} KeysTotalStep(keys: seq<string>, s: seq<TimeEntry>, e: TimeEntry, weekOf: string -> string)
    requires Distinct(keys)
    ensures KeysTotal(keys, s + [e], weekOf) ==
      KeysTotal(keys, s, weekOf) + (if weekOf(e.date) in keys then e.hours else 0.0)
  {
    if keys != [] {
      var k := keys[0];
      DistinctTail(keys);
      KeysTotalStep(keys[1..], s, e, weekOf);
      EntriesOfWeekSnoc(s, e, weekOf, k);
      assert keys == [k] + keys[1..];
      if weekOf(e.date) == k {
        HoursSumAppend(EntriesOfWeek(s, weekOf, k), [e]);
      } else {
        assert EntriesOfWeek(s + [e], weekOf, k) == EntriesOfWeek(s, weekOf, k);
      }
    }
  }

  lemma {:induction false} KeysTotalIsHoursSum(keys: seq<string>, entries: seq<TimeEntry>, weekOf: string -> string)
    requires Distinct(keys)
    requires forall e | e in entries :: weekOf(e.date) in keys
    ensures KeysTotal(keys, entries, weekOf) == HoursSum(entries)
    decreases |entries|
  {
    if entries == [] {
      KeysTotalEmpty(keys, weekOf);
    } else {
      var s := entries[..|entries| - 1];
      var e := entries[|entries| - 1];
      assert entries == s + [e];
      KeysTotalIsHoursSum(keys, s, weekOf);
      KeysTotalStep(keys, s, e, weekOf);
    }
  }

  lemma {:induction false} KeysTotalEmpty(keys: seq<string>, weekOf: string -> string)
    ensures KeysTotal(keys, [], weekOf) == 0.0
  {
    if keys != [] {
      KeysTotalEmpty(keys[1..], weekOf);
    }
  }

  // ---------------------------------------------------------------------------
  // the overview

  /** What the overview promises of one week's card data. */
  predicate WeekOfEntries(w: Week, entries: seq<TimeEntry>, weekOf: string -> string) {
    && w.entries == EntriesOfWeek(entries, weekOf, w.weekKey)
    && w.entries != []
    && w.totalHours == HoursSum(w.entries)
    && w.weekNumber == WeekNumber(w.weekKey)
  }

  /** `Object.entries(entriesByWeek).map(...)`: one week per key, in key order. */
  function WeeksOfGroups(keys: seq<string>, groups: map<string, seq<TimeEntry>>): (r: seq<Week>)
    requires forall k | k in keys :: k in groups
    ensures |r| == |keys| && forall i | 0 <= i < |keys| :: r[i] == MakeWeek(keys[i], groups[keys[i]])
  {
    seq(|keys|, i requires 0 <= i < |keys| => MakeWeek(keys[i], groups[keys[i]]))
  }

  lemma {:induction false} WeeksTotal(keys: seq<string>, groups: map<string, seq<TimeEntry>>,
                                      entries: seq<TimeEntry>, weekOf: string -> string)
    requires forall k | k in keys :: k in groups && groups[k] == EntriesOfWeek(entries, weekOf, k)
    ensures TotalOf(WeeksOfGroups(keys, groups)) == KeysTotal(keys, entries, weekOf)
  {
    if keys != [] {
      WeeksTotal(keys[1..], groups, entries, weekOf);
      assert WeeksOfGroups(keys, groups)[1..] == WeeksOfGroups(keys[1..], groups);
    }
  }

  lemma SortByKeyMembers(ws: seq<Week>)
    ensures forall w :: w in SortByKey(ws) <==> w in ws
  {
    forall w ensures w in SortByKey(ws) <==> w in ws {
      assert w in SortByKey(ws) <==> w in multiset(SortByKey(ws));
      assert w in ws <==> w in multiset(ws);
    }
  }

  /** Each grouped week carries exactly its own entries and their total. */
  lemma WeeksOfGroupsWellFormed(keys: seq<string>, groups: map<string, seq<TimeEntry>>,
                                entries: seq<TimeEntry>, weekOf: string -> string)
    requires Grouped(keys, groups, entries, weekOf)
    ensures forall w | w in WeeksOfGroups(keys, groups) :: WeekOfEntries(w, entries, weekOf)
  {
  }

  /** The weeks' totals add up to the hours of all entries. */
  lemma WeeksOfGroupsTotal(keys: seq<string>, groups: map<string, seq<TimeEntry>>,
                           entries: seq<TimeEntry>, weekOf: string -> string)
    requires Grouped(keys, groups, entries, weekOf)
    ensures TotalOf(WeeksOfGroups(keys, groups)) == HoursSum(entries)
  {
    WeeksTotal(keys, groups, entries, weekOf);
    WeekKeysOfEntries(entries, weekOf);
    KeysTotalIsHoursSum(keys, entries, weekOf);
  }

  /** There is one week per week key of the entries. */
  lemma WeeksOfGroupsKeys(keys: seq<string>, groups: map<string, seq<TimeEntry>>,
                          entries: seq<TimeEntry>, weekOf: string -> string)
    requires Grouped(keys, groups, entries, weekOf)
    ensures (set w | w in WeeksOfGroups(keys, groups) :: w.weekKey) == WeekKeys(entries, weekOf)
  {
    var ws := WeeksOfGroups(keys, groups);
    forall k | k in WeekKeys(entries, weekOf) ensures k in (set w | w in ws :: w.weekKey) {
      assert k in keys;
      var i :| 0 <= i < |keys| && keys[i] == k;
      assert ws[i].weekKey == k;
    }
  }

  lemma WeekKeysEmpty(entries: seq<TimeEntry>, weekOf: string -> string)
    ensures WeekKeys(entries, weekOf) == {} <==> entries == []
  {
    if entries != [] {
      assert weekOf(entries[|entries| - 1].date) in WeekKeys(entries, weekOf);
    }
  }

  /** The number of weeks is the number of week keys, and there are none exactly when
      there are no entries. */
  lemma WeeksOfGroupsCount(keys: seq<string>, groups: map<string, seq<TimeEntry>>,
                           entries: seq<TimeEntry>, weekOf: string -> string)
    requires Grouped(keys, groups, entries, weekOf)
    ensures |WeeksOfGroups(keys, groups)| == |WeekKeys(entries, weekOf)|
    ensures keys == [] <==> entries == []
  {
    DistinctKeysCount(keys);
    assert (set k | k in keys) == WeekKeys(entries, weekOf);
    WeekKeysEmpty(entries, weekOf);
  }

  lemma SortByKeyLength(ws: seq<Week>)
    ensures |SortByKey(ws)| == |ws|
  {
    assert |multiset(SortByKey(ws))| == |multiset(ws)|;
  }

  lemma SortByKeyKeys(ws: seq<Week>)
    ensures (set w | w in SortByKey(ws) :: w.weekKey) == (set w | w in ws :: w.weekKey)
  {
    SortByKeyMembers(ws);
  }

  /** The `weeks` of the overview, newest first: one per week that has entries, each with
      that week's entries in input order and their total, and the totals of all weeks
      together are the hours of all entries. */
  method Weeks(entries: seq<TimeEntry>, weekOf: string -> string) returns (weeks: seq<Week>)
    ensures NewestFirst(weeks)
    ensures (set w | w in weeks :: w.weekKey) == WeekKeys(entries, weekOf)
    ensures forall w | w in weeks :: WeekOfEntries(w, entries, weekOf)
    ensures TotalOf(weeks) == HoursSum(entries)
    ensures |weeks| == |WeekKeys(entries, weekOf)|
    ensures weeks == [] <==> entries == []
  {
    var keys, groups := GroupByWeek(entries, weekOf);
    var unsorted := WeeksOfGroups(keys, groups);
    weeks := SortByKey(unsorted);
    SortByKeySorted(unsorted);
    SortByKeyTotal(unsorted);
    SortByKeyMembers(unsorted);
    SortByKeyLength(unsorted);
    SortByKeyKeys(unsorted);
    WeeksOfGroupsWellFormed(keys, groups, entries, weekOf);
    WeeksOfGroupsTotal(keys, groups, entries, weekOf);
    WeeksOfGroupsKeys(keys, groups, entries, weekOf);
    WeeksOfGroupsCount(keys, groups, entries, weekOf);
  }

  datatype Card = Card(title: string, totalHours: real, entries: seq<TimeEntry>)

  /** The card rendered for one week. */
  function WeekCard(w: Week): Card {
    Card("Week " + w.weekNumber.GetOr(""), w.totalHours, w.entries)
  }

  /** The card rendered, when there are no weeks, for the current week, with 0 hours and no
      entries. `currentWeek` is the week number of today's date. */
  function CurrentWeekCard(currentWeek: string): Card {
    Card("Week " + currentWeek, 0.0, [])
  }

  function CardsTotal(cards: seq<Card>): real {
    if cards == [] then 0.0 else cards[0].totalHours + CardsTotal(cards[1..])
  }

  lemma {:induction false} CardsTotalOfWeeks(weeks: seq<Week>)
    ensures CardsTotal(seq(|weeks|, i requires 0 <= i < |weeks| => WeekCard(weeks[i]))) == TotalOf(weeks)
  {
    if weeks != [] {
      CardsTotalOfWeeks(weeks[1..]);
      assert seq(|weeks|, i requires 0 <= i < |weeks| => WeekCard(weeks[i]))[1..]
          == seq(|weeks[1..]|, i requires 0 <= i < |weeks[1..]| => WeekCard(weeks[1..][i]));
    }
  }

  /** The whole overview: `weeks` as the component computes them, and the cards it
      renders. With no entries there is just the current week's empty card; otherwise
      there is one card per week, in the weeks' newest-first order, whose hours add up
      to the hours of all entries. */
  method Overview(entries: seq<TimeEntry>, weekOf: string -> string, currentWeek: string)
    returns (weeks: seq<Week>, cards: seq<Card>)
    ensures NewestFirst(weeks)
    ensures (set w | w in weeks :: w.weekKey) == WeekKeys(entries, weekOf)
    ensures forall w | w in weeks :: WeekOfEntries(w, entries, weekOf)
    ensures |weeks| == |WeekKeys(entries, weekOf)|
    ensures entries == [] <==> cards == [CurrentWeekCard(currentWeek)]
    ensures entries != [] ==> cards == seq(|weeks|, i requires 0 <= i < |weeks| => WeekCard(weeks[i]))
    ensures entries != [] ==> CardsTotal(cards) == HoursSum(entries)
  {
    weeks := Weeks(entries, weekOf);
    if weeks == [] {
      cards := [CurrentWeekCard(currentWeek)];
    } else {
      cards := seq(|weeks|, i requires 0 <= i < |weeks| => WeekCard(weeks[i]));
      CardsTotalOfWeeks(weeks);
      assert cards[0] in cards;
    }
  }

  /** Keys listed once each are as many as the set of them. */
  lemma {:induction false} DistinctKeysCount(keys: seq<string>)
    requires Distinct(keys)
    ensures |set k | k in keys| == |keys|
  {
    if keys != [] {
      DistinctTail(keys);
      DistinctKeysCount(keys[1..]);
      assert (set k | k in keys) == {keys[0]} + (set k | k in keys[1..]);
    }
  }
}
