/** How messages are named, dated and ordered inside a board directory
    (server.py new_message, load_messages and date_value).

    A message is a file `<YYYYMMDD-HHMMSS>-<title with spaces as _>.txt`.
    Its sort key is the integer formed by the date and time fields, and
    load_messages shows the 100 files with the largest keys, titled by the
    third `-`-separated field of their names. */
module Messages {
  import opened Wrappers
  import opened Strings

  /** The maximum number of messages load_messages returns. */
  const MaxMessages: nat := 100

  /** A reading of the clock, to one-second resolution. */
  datatype Timestamp = Timestamp(year: nat, month: nat, day: nat, hour: nat, minute: nat, second: nat)

  /** The readings datetime.now() can give in the four-digit years. */
  predicate ValidTimestamp(t: Timestamp)
  {
    && 1000 <= t.year <= 9999
    && 1 <= t.month <= 12
    && 1 <= t.day <= 31
    && t.hour < 24
    && t.minute < 60
    && t.second < 60
  }

  /** Chronological order of clock readings, field by field. */
  predicate Before(a: Timestamp, b: Timestamp)
  {
    || a.year < b.year
    || (a.year == b.year && a.month < b.month)
    || (a.year == b.year && a.month == b.month && a.day < b.day)
    || (a.year == b.year && a.month == b.month && a.day == b.day && a.hour < b.hour)
    || (a.year == b.year && a.month == b.month && a.day == b.day && a.hour == b.hour && a.minute < b.minute)
    || (a.year == b.year && a.month == b.month && a.day == b.day && a.hour == b.hour && a.minute == b.minute
        && a.second < b.second)
  }

  /** n in exactly `width` decimal digits, zero-padded (strftime's %m, %d, ...). */
  function Pad(n: nat, width: nat): (s: string)
    ensures |s| == width && AllDigits(s)
  {
    if width == 0 then [] else Pad(n / 10, width - 1) + [DigitChar(n % 10)]
  }

  function DatePart(t: Timestamp): string
  {
    Pad(t.year, 4) + Pad(t.month, 2) + Pad(t.day, 2)
  }

  function TimePart(t: Timestamp): string
  {
    Pad(t.hour, 2) + Pad(t.minute, 2) + Pad(t.second, 2)
  }

  /** datetime.now().strftime("%Y%m%d-%H%M%S"). */
  function Stamp(t: Timestamp): string
  {
    DatePart(t) + "-" + TimePart(t)
  }

  /** The name of the file new_message writes for a title posted at time t. */
  function FileName(t: Timestamp, title: string): string
  {
    Stamp(t) + "-" + Replace(title, ' ', '_') + ".txt"
  }

  /** date_value: the integer of the first two `-`-separated fields put
      together; None where the Python raises (fewer than two fields, or
      int() refusing the text). */
  function DateValue(name: string): Option<int>
  {
    var fields := Split(name, '-');
    if |fields| < 2 then None else ParseInt(fields[0] + fields[1])
  }

  /** The message title load_messages shows for a file name:
      name.split('-')[2].split('.')[0] with underscores turned into spaces;
      None where the Python raises IndexError (fewer than three fields). */
  function TitleOf(name: string): Option<string>
  {
    var fields := Split(name, '-');
    if |fields| < 3 then None else Some(Replace(Split(fields[2], '.')[0], '_', ' '))
  }

  /** The sort key of a clock reading, as a number: YYYYMMDDHHMMSS. */
  function SortKey(t: Timestamp): nat
  {
    ((((t.year * 100 + t.month) * 100 + t.day) * 100 + t.hour) * 100 + t.minute) * 100 + t.second
  }

  // ---------------------------------------------------------------------
  // Sorting: total.sort(key=date_value, reverse=True)

  /** A listed name paired with its date value. */
  type Keyed = (int, string)

  predicate SortedDesc(s: seq<Keyed>)
  {
    forall i, j :: 0 <= i < j < |s| ==> s[i].0 >= s[j].0
  }

  /** The date value of every name, in listing order, or None when
      date_value raises on one of them (the whole sort then raises). */
  function KeyAll(names: seq<string>): (r: Option<seq<Keyed>>)
    ensures r.Some? <==> forall i :: 0 <= i < |names| ==> DateValue(names[i]).Some?
    ensures r.Some? ==>
      (|r.value| == |names| && forall i :: 0 <= i < |names| ==> r.value[i] == (DateValue(names[i]).value, names[i]))
  {
    if forall i :: 0 <= i < |names| ==> DateValue(names[i]).Some? then
      Some(seq(|names|, i requires 0 <= i < |names| => (DateValue(names[i]).value, names[i])))
    else None
  }

  /** Inserts x in front of the first element whose key is not larger, so
      that among equal keys the original order is kept. */
  function InsertDesc(x: Keyed, s: seq<Keyed>): seq<Keyed>
  {
    if s == [] || x.0 >= s[0].0 then [x] + s else [s[0]] + InsertDesc(x, s[1..])
  }

  /** A stable sort on descending key, the order Python's sort with
      reverse=True produces. */
  function SortDesc(s: seq<Keyed>): seq<Keyed>
  {
    if s == [] then [] else InsertDesc(s[0], SortDesc(s[1..]))
  }

  /** total[:100] after the sort: the names of the newest files. */
  function Newest(keyed: seq<Keyed>): (recent: seq<string>)
  {
    var sorted := SortDesc(keyed);
    var top := sorted[..Min(MaxMessages, |sorted|)];
    seq(|top|, i requires 0 <= i < |top| => top[i].1)
  }

  /** The names load_messages keeps from a board listing: sorted newest
      first by date_value and cut to the first 100; None when date_value
      raises on one of the names. */
  function Kept(names: seq<string>): Option<seq<string>>
  {
    match KeyAll(names)
    case None => None
    case Some(keyed) => Some(Newest(keyed))
  }

  /** The dictionary the loop of load_messages fills: for each name in
      order, messages[title] = content, so a later file overwrites an earlier
      one with the same title. None where a title cannot be parsed. */
  function Collect(recent: seq<string>, dir: map<string, string>): Option<map<string, string>>
    requires forall i :: 0 <= i < |recent| ==> recent[i] in dir
  {
    if recent == [] then Some(map[])
    else
      var f := recent[|recent| - 1];
      var earlier := Collect(recent[..|recent| - 1], dir);
      if earlier.None? || TitleOf(f).None? then None
      else Some(earlier.value[TitleOf(f).value := dir[f]])
  }

  // ---------------------------------------------------------------------
  // Lemmas: digits of a clock reading

  lemma {:induction false} PadValue(n: nat, width: nat)
    requires n < Pow10(width)
    ensures DigitsValue(Pad(n, width)) == n
  {
    if width > 0 {
      var q, d := n / 10, n % 10;
      var s := Pad(n, width);
      assert s == Pad(q, width - 1) + [DigitChar(d)];
      assert s[..width - 1] == Pad(q, width - 1);
      assert DigitValue(s[width - 1]) == d;
      assert q < Pow10(width - 1) by {
        assert n == 10 * q + d;
        assert Pow10(width) == 10 * Pow10(width - 1);
      }
      PadValue(q, width - 1);
      assert DigitsValue(s) == 10 * q + d;
    }
  }

  lemma {:induction false} PadTwo(n: nat)
    requires n < 100
    ensures DigitsValue(Pad(n, 2)) == n
  {
    assert Pow10(2) == 100 by { assert Pow10(1) == 10; }
    PadValue(n, 2);
  }

  lemma {:induction false} AppendTwo(a: string, n: nat)
    requires AllDigits(a) && n < 100
    ensures AllDigits(a + Pad(n, 2))
    ensures DigitsValue(a + Pad(n, 2)) == DigitsValue(a) * 100 + n
  {
    assert Pow10(2) == 100 by { assert Pow10(1) == 10; }
    DigitsValueConcat(a, Pad(n, 2));
    PadTwo(n);
  }

  /** The fourteen digits of date and time read as one number are SortKey. */
  lemma {:induction false} StampDigits(t: Timestamp)
    requires ValidTimestamp(t)
    ensures AllDigits(DatePart(t) + TimePart(t))
    ensures DigitsValue(DatePart(t) + TimePart(t)) == SortKey(t)
  {
    var y := Pad(t.year, 4);
    assert Pow10(4) == 10000 by {
      assert Pow10(1) == 10;
      assert Pow10(2) == 100;
      assert Pow10(3) == 1000;
    }
    PadValue(t.year, 4);
    var s1 := y + Pad(t.month, 2);
    AppendTwo(y, t.month);
    var s2 := s1 + Pad(t.day, 2);
    AppendTwo(s1, t.month);
    AppendTwo(s1, t.day);
    var s3 := s2 + Pad(t.hour, 2);
    AppendTwo(s2, t.hour);
    var s4 := s3 + Pad(t.minute, 2);
    AppendTwo(s3, t.minute);
    var s5 := s4 + Pad(t.second, 2);
    AppendTwo(s4, t.second);
    assert DatePart(t) + TimePart(t) == s5;
  }

  lemma {:induction false} DigitsHaveNoDash(s: string)
    requires AllDigits(s)
    ensures '-' !in s && '.' !in s
  {
    forall i | 0 <= i < |s| ensures s[i] != '-' && s[i] != '.' {
      assert IsDigit(s[i]);
    }
  }

  /** The `-`-separated fields of a message file name: date, time, and the
      rest of the name. */
  lemma {:induction false} FileNameFields(t: Timestamp, title: string)
    ensures Split(FileName(t, title), '-')
         == [DatePart(t), TimePart(t)] + Split(Replace(title, ' ', '_') + ".txt", '-')
  {
    var d, tm, rest := DatePart(t), TimePart(t), Replace(title, ' ', '_') + ".txt";
    assert AllDigits(d) by {
      forall i | 0 <= i < |d| ensures IsDigit(d[i]) {
        var y, m, dd := Pad(t.year, 4), Pad(t.month, 2), Pad(t.day, 2);
        assert d == y + m + dd;
        if i < 4 { assert d[i] == y[i]; }
        else if i < 6 { assert d[i] == m[i - 4]; }
        else { assert d[i] == dd[i - 6]; }
      }
    }
    assert AllDigits(tm) by {
      forall i | 0 <= i < |tm| ensures IsDigit(tm[i]) {
        var h, mi, sc := Pad(t.hour, 2), Pad(t.minute, 2), Pad(t.second, 2);
        assert tm == h + mi + sc;
        if i < 2 { assert tm[i] == h[i]; }
        else if i < 4 { assert tm[i] == mi[i - 2]; }
        else { assert tm[i] == sc[i - 4]; }
      }
    }
    DigitsHaveNoDash(d);
    DigitsHaveNoDash(tm);
    assert FileName(t, title) == d + ['-'] + (tm + ['-'] + rest);
    SplitAtFirst(d, '-', tm + ['-'] + rest);
    SplitAtFirst(tm, '-', rest);
  }

  /** date_value of a name new_message wrote is the sort key of the moment it
      was written, whatever the title. */
  lemma {:induction false} DateValueOfFileName(t: Timestamp, title: string)
    requires ValidTimestamp(t)
    ensures DateValue(FileName(t, title)) == Some(SortKey(t))
  {
    FileNameFields(t, title);
    StampDigits(t);
    var digits := DatePart(t) + TimePart(t);
    assert |digits| == 14;
    ParseDigitsPadded(digits, 0);
    assert digits + Spaces(0) == digits;
  }

  lemma {:induction false} LexStep(a: nat, x: nat, b: nat, y: nat)
    requires x < 100 && y < 100
    ensures a * 100 + x < b * 100 + y <==> a < b || (a == b && x < y)
    ensures a * 100 + x == b * 100 + y <==> a == b && x == y
  {
    if a < b {
      assert a * 100 + x < (a + 1) * 100 <= b * 100;
    } else if b < a {
      assert b * 100 + y < (b + 1) * 100 <= a * 100;
    }
  }

  /** Ordering files by date_value is ordering them by the time they were
      written; equal values mean the same second. */
  lemma {:induction false} SortKeyChronological(a: Timestamp, b: Timestamp)
    requires ValidTimestamp(a) && ValidTimestamp(b)
    ensures SortKey(a) < SortKey(b) <==> Before(a, b)
    ensures SortKey(a) == SortKey(b) <==> a == b
  {
    var a4, b4 := SortKeyMinutes(a, b);
    LexStep(a4, a.second, b4, b.second);
  }

  /** Two readings agree on every field down to the minute. */
  predicate SameMinute(a: Timestamp, b: Timestamp)
  {
    a.year == b.year && a.month == b.month && a.day == b.day && a.hour == b.hour && a.minute == b.minute
  }

  /** The first five fields compared at once, as the key without seconds. */
  lemma {:induction false} SortKeyMinutes(a: Timestamp, b: Timestamp) returns (a4: nat, b4: nat)
    requires ValidTimestamp(a) && ValidTimestamp(b)
    ensures SortKey(a) == a4 * 100 + a.second && SortKey(b) == b4 * 100 + b.second
    ensures a4 == b4 <==> SameMinute(a, b)
    ensures a4 < b4 <==> Before(a, b) && !SameMinute(a, b)
  {
    var a3, b3 := SortKeyHours(a, b);
    a4, b4 := a3 * 100 + a.minute, b3 * 100 + b.minute;
    LexStep(a3, a.minute, b3, b.minute);
  }

  lemma {:induction false} SortKeyHours(a: Timestamp, b: Timestamp) returns (a3: nat, b3: nat)
    requires ValidTimestamp(a) && ValidTimestamp(b)
    ensures SortKey(a) == (a3 * 100 + a.minute) * 100 + a.second
    ensures SortKey(b) == (b3 * 100 + b.minute) * 100 + b.second
    ensures a3 < b3 <==>
      (|| a.year < b.year
       || (a.year == b.year && a.month < b.month)
       || (a.year == b.year && a.month == b.month && a.day < b.day)
       || (a.year == b.year && a.month == b.month && a.day == b.day && a.hour < b.hour))
    ensures a3 == b3 <==> a.hour == b.hour && a.day == b.day && a.month == b.month && a.year == b.year
  {
    var a1, b1 := a.year * 100 + a.month, b.year * 100 + b.month;
    LexStep(a.year, a.month, b.year, b.month);
    var a2, b2 := a1 * 100 + a.day, b1 * 100 + b.day;
    LexStep(a1, a.day, b1, b.day);
    a3, b3 := a2 * 100 + a.hour, b2 * 100 + b.hour;
    LexStep(a2, a.hour, b2, b.hour);
  }

  /** A title without `-`, `.` or `_` is shown back exactly as it was posted. */
  lemma {:induction false} TitleOfFileName(t: Timestamp, title: string)
    requires '-' !in title && '.' !in title && '_' !in title
    ensures TitleOf(FileName(t, title)) == Some(title)
  {
    var s := Replace(title, ' ', '_');
    assert '-' !in s && '.' !in s by {
      forall i | 0 <= i < |s| ensures s[i] != '-' && s[i] != '.' {
        assert title[i] in title;
      }
    }
    FileNameFields(t, title);
    assert '-' !in s + ".txt";
    SplitWithoutSeparator(s + ".txt", '-');
    assert s + ".txt" == s + ['.'] + "txt";
    SplitAtFirst(s, '.', "txt");
    ReplaceBack(title, ' ', '_');
  }

  // ---------------------------------------------------------------------
  // Lemmas: the descending sort and the newest 100

  lemma {:induction false} InsertDescPermutes(x: Keyed, s: seq<Keyed>)
    ensures multiset(InsertDesc(x, s)) == multiset(s) + multiset{x}
    ensures |InsertDesc(x, s)| == |s| + 1
    decreases |s|
  {
    if !(s == [] || x.0 >= s[0].0) {
      InsertDescPermutes(x, s[1..]);
      assert s == [s[0]] + s[1..];
    }
  }

  lemma {:induction false} InsertDescSorted(x: Keyed, s: seq<Keyed>)
    requires SortedDesc(s)
    ensures SortedDesc(InsertDesc(x, s))
    ensures InsertDesc(x, s)[0] == x || (s != [] && InsertDesc(x, s)[0] == s[0])
    decreases |s|
  {
    if !(s == [] || x.0 >= s[0].0) {
      var t := s[1..];
      assert SortedDesc(t);
      InsertDescSorted(x, t);
      InsertDescPermutes(x, t);
      var r := InsertDesc(x, t);
      assert InsertDesc(x, s) == [s[0]] + r;
      assert s[0].0 >= r[0].0 by {
        if t != [] { assert s[0].0 >= s[1].0; }
      }
      assert forall j :: 0 <= j < |r| ==> r[0].0 >= r[j].0;
    }
  }

  /** The sort orders by descending date value and only rearranges the list. */
  lemma {:induction false} SortDescFacts(s: seq<Keyed>)
    ensures SortedDesc(SortDesc(s))
    ensures multiset(SortDesc(s)) == multiset(s)
    ensures |SortDesc(s)| == |s|
    decreases |s|
  {
    if s != [] {
      SortDescFacts(s[1..]);
      InsertDescSorted(s[0], SortDesc(s[1..]));
      InsertDescPermutes(s[0], SortDesc(s[1..]));
      assert s == [s[0]] + s[1..];
    }
  }

  /** total[:100]: at most 100 names, all listed, and no name left out is
      newer than a name kept. */
  lemma {:induction false} NewestAreLatest(keyed: seq<Keyed>)
    ensures |Newest(keyed)| == Min(MaxMessages, |keyed|)
    ensures forall i :: 0 <= i < |Newest(keyed)| ==> exists k :: k in keyed && k.1 == Newest(keyed)[i]
    ensures forall k, i :: k in keyed && 0 <= i < |Newest(keyed)| && k.1 !in Newest(keyed) ==>
      (exists kept :: kept in keyed && kept.1 == Newest(keyed)[i] && kept.0 >= k.0)
    ensures |keyed| <= MaxMessages ==> forall k :: k in keyed ==> k.1 in Newest(keyed)
  {
    NewestFromKeyed(keyed);
    NewestBeatOmitted(keyed);
    NewestKeepsAll(keyed);
  }

  /** Newest is the names of the sorted list's first entries. */
  lemma {:induction false} NewestShape(keyed: seq<Keyed>)
    ensures |SortDesc(keyed)| == |keyed|
    ensures |Newest(keyed)| == Min(MaxMessages, |keyed|)
    ensures forall i :: 0 <= i < |Newest(keyed)| ==> Newest(keyed)[i] == SortDesc(keyed)[i].1
  {
    SortDescFacts(keyed);
  }

  lemma {:induction false} NewestFromKeyed(keyed: seq<Keyed>)
    ensures |Newest(keyed)| == Min(MaxMessages, |keyed|)
    ensures forall i :: 0 <= i < |Newest(keyed)| ==> exists k :: k in keyed && k.1 == Newest(keyed)[i]
  {
    var sorted := SortDesc(keyed);
    SortDescFacts(keyed);
    NewestShape(keyed);
    var recent := Newest(keyed);
    forall i | 0 <= i < |recent| ensures exists k :: k in keyed && k.1 == recent[i] {
      assert sorted[i] in multiset(sorted);
      assert sorted[i] in keyed;
    }
  }

  lemma {:induction false} NewestBeatOmitted(keyed: seq<Keyed>)
    ensures forall k, i :: k in keyed && 0 <= i < |Newest(keyed)| && k.1 !in Newest(keyed) ==>
      (exists kept :: kept in keyed && kept.1 == Newest(keyed)[i] && kept.0 >= k.0)
  {
    var sorted := SortDesc(keyed);
    SortDescFacts(keyed);
    NewestShape(keyed);
    var recent := Newest(keyed);
    forall k, i | k in keyed && 0 <= i < |recent| && k.1 !in recent
      ensures exists kept :: kept in keyed && kept.1 == recent[i] && kept.0 >= k.0
    {
      assert k in multiset(sorted);
      var j :| 0 <= j < |sorted| && sorted[j] == k;
      assert j >= |recent|;
      assert sorted[i].0 >= sorted[j].0;
      assert sorted[i] in multiset(keyed);
    }
  }

  lemma {:induction false} NewestKeepsAll(keyed: seq<Keyed>)
    ensures |keyed| <= MaxMessages ==> forall k :: k in keyed ==> k.1 in Newest(keyed)
  {
    var sorted := SortDesc(keyed);
    SortDescFacts(keyed);
    NewestShape(keyed);
    var recent := Newest(keyed);
    if |keyed| <= MaxMessages {
      forall k | k in keyed ensures k.1 in recent {
        assert k in multiset(sorted);
        var j :| 0 <= j < |sorted| && sorted[j] == k;
        assert recent[j] == k.1;
      }
    }
  }

  /** The kept names come newest first: total.sort(key=date_value,
      reverse=True) puts them in descending date value, and the cut to 100
      keeps that order. */
  lemma {:induction false} KeptDescending(names: seq<string>)
    requires Kept(names).Some?
    ensures forall i :: 0 <= i < |Kept(names).value| ==> DateValue(Kept(names).value[i]).Some?
    ensures forall i, j :: 0 <= i < j < |Kept(names).value| ==>
      DateValue(Kept(names).value[i]).value >= DateValue(Kept(names).value[j]).value
  {
    var keyed := KeyAll(names).value;
    var sorted := SortDesc(keyed);
    var kept := Kept(names).value;
    SortDescFacts(keyed);
    NewestShape(keyed);
    forall i | 0 <= i < |kept| ensures DateValue(kept[i]) == Some(sorted[i].0) {
      assert sorted[i] in multiset(sorted);
      KeyedEntry(names, sorted[i]);
    }
  }

  lemma KeyedEntry(names: seq<string>, k: Keyed)
    requires KeyAll(names).Some? && k in KeyAll(names).value
    ensures k.1 in names && DateValue(k.1) == Some(k.0)
  {
    var j :| 0 <= j < |KeyAll(names).value| && KeyAll(names).value[j] == k;
    assert names[j] == k.1;
  }

  /** load_messages keeps at most 100 of the listed names, all of the
      listed names when there are no more than 100, and never leaves out a
      name whose date value is larger than that of a name it keeps. */
  lemma {:induction false} KeptAreNewest(names: seq<string>)
    requires Kept(names).Some?
    ensures forall i :: 0 <= i < |names| ==> DateValue(names[i]).Some?
    ensures |Kept(names).value| == Min(MaxMessages, |names|)
    ensures forall f :: f in Kept(names).value ==> f in names
    ensures |names| <= MaxMessages ==> forall g :: g in names ==> g in Kept(names).value
    ensures forall f, g :: f in Kept(names).value && g in names && g !in Kept(names).value ==>
      DateValue(f).value >= DateValue(g).value
  {
    var keyed := KeyAll(names).value;
    var kept := Newest(keyed);
    NewestAreLatest(keyed);
    forall f | f in kept ensures f in names {
      var i :| 0 <= i < |kept| && kept[i] == f;
      var k :| k in keyed && k.1 == kept[i];
      KeyedEntry(names, k);
    }
    if |names| <= MaxMessages {
      forall g | g in names ensures g in kept {
        var j :| 0 <= j < |names| && names[j] == g;
        assert keyed[j] in keyed;
      }
    }
    forall f, g | f in kept && g in names && g !in kept
      ensures DateValue(f).value >= DateValue(g).value
    {
      var i :| 0 <= i < |kept| && kept[i] == f;
      var j :| 0 <= j < |names| && names[j] == g;
      assert keyed[j] in keyed;
      var k :| k in keyed && k.1 == kept[i] && k.0 >= keyed[j].0;
      KeyedEntry(names, k);
    }
  }

  // ---------------------------------------------------------------------
  // Lemmas: the dictionary of titles

  /** The dictionary is built unless some listed title cannot be parsed. */
  lemma {:induction false} CollectDefined(recent: seq<string>, dir: map<string, string>)
    requires forall i :: 0 <= i < |recent| ==> recent[i] in dir
    ensures Collect(recent, dir).Some? <==> forall i :: 0 <= i < |recent| ==> TitleOf(recent[i]).Some?
    decreases |recent|
  {
    if recent != [] {
      var init := recent[..|recent| - 1];
      CollectDefined(init, dir);
      assert forall i :: 0 <= i < |init| ==> init[i] == recent[i];
    }
  }

  /** Collecting one more file sets that file's title to its content. */
  lemma {:induction false} CollectStep(recent: seq<string>, dir: map<string, string>)
    requires recent != [] && forall i :: 0 <= i < |recent| ==> recent[i] in dir
    requires Collect(recent, dir).Some?
    ensures Collect(recent[..|recent| - 1], dir).Some? && TitleOf(recent[|recent| - 1]).Some?
    ensures Collect(recent, dir).value
         == Collect(recent[..|recent| - 1], dir).value[TitleOf(recent[|recent| - 1]).value := dir[recent[|recent| - 1]]]
  {
  }

  /** Every title shown comes from a kept file and shows that file's content. */
  lemma {:induction false} CollectSound(recent: seq<string>, dir: map<string, string>)
    requires forall i :: 0 <= i < |recent| ==> recent[i] in dir
    requires Collect(recent, dir).Some?
    ensures forall t :: t in Collect(recent, dir).value ==>
      exists i :: 0 <= i < |recent| && TitleOf(recent[i]) == Some(t) && Collect(recent, dir).value[t] == dir[recent[i]]
    decreases |recent|
  {
    if recent != [] {
      var init := recent[..|recent| - 1];
      var f := recent[|recent| - 1];
      CollectStep(recent, dir);
      CollectSound(init, dir);
      var m := Collect(init, dir).value;
      var m' := Collect(recent, dir).value;
      forall t | t in m'
        ensures exists i :: 0 <= i < |recent| && TitleOf(recent[i]) == Some(t) && m'[t] == dir[recent[i]]
      {
        if t == TitleOf(f).value {
          assert TitleOf(recent[|recent| - 1]) == Some(t);
        } else {
          assert t in m;
          var i :| 0 <= i < |init| && TitleOf(init[i]) == Some(t) && m[t] == dir[init[i]];
          assert recent[i] == init[i];
        }
      }
    }
  }

  /** Every kept file's title is shown, and there are no more titles than files. */
  lemma {:induction false} CollectComplete(recent: seq<string>, dir: map<string, string>)
    requires forall i :: 0 <= i < |recent| ==> recent[i] in dir
    requires Collect(recent, dir).Some?
    ensures |Collect(recent, dir).value| <= |recent|
    ensures forall i :: 0 <= i < |recent| ==>
      TitleOf(recent[i]).Some? && TitleOf(recent[i]).value in Collect(recent, dir).value
  {
    CollectSize(recent, dir);
    CollectCovers(recent, dir);
  }

  lemma {:induction false} CollectSize(recent: seq<string>, dir: map<string, string>)
    requires forall i :: 0 <= i < |recent| ==> recent[i] in dir
    requires Collect(recent, dir).Some?
    ensures |Collect(recent, dir).value| <= |recent|
    decreases |recent|
  {
    if recent != [] {
      var init := recent[..|recent| - 1];
      var f := recent[|recent| - 1];
      CollectStep(recent, dir);
      CollectSize(init, dir);
      var m := Collect(init, dir).value;
      var m' := Collect(recent, dir).value;
      assert m'.Keys == m.Keys + {TitleOf(f).value};
      assert |m'.Keys| <= |m.Keys| + |{TitleOf(f).value}|;
    }
  }

  lemma {:induction false} CollectCovers(recent: seq<string>, dir: map<string, string>)
    requires forall i :: 0 <= i < |recent| ==> recent[i] in dir
    requires Collect(recent, dir).Some?
    ensures forall i :: 0 <= i < |recent| ==>
      TitleOf(recent[i]).Some? && TitleOf(recent[i]).value in Collect(recent, dir).value
    decreases |recent|
  {
    if recent != [] {
      var init := recent[..|recent| - 1];
      CollectStep(recent, dir);
      CollectCovers(init, dir);
      var m' := Collect(recent, dir).value;
      forall i | 0 <= i < |recent| ensures TitleOf(recent[i]).Some? && TitleOf(recent[i]).value in m' {
        if i < |init| { assert recent[i] == init[i]; }
      }
    }
  }

  /** Each title shown maps to the content of a kept file with that title,
      and every kept file's title is shown. */
  lemma CollectShows(recent: seq<string>, dir: map<string, string>)
    requires forall i :: 0 <= i < |recent| ==> recent[i] in dir
    requires Collect(recent, dir).Some?
    ensures forall t :: t in Collect(recent, dir).value ==>
      exists f :: f in recent && f in dir && TitleOf(f) == Some(t) && Collect(recent, dir).value[t] == dir[f]
    ensures forall f :: f in recent ==> TitleOf(f).Some? && TitleOf(f).value in Collect(recent, dir).value
  {
    var m := Collect(recent, dir).value;
    CollectSound(recent, dir);
    CollectComplete(recent, dir);
    forall t | t in m ensures exists f :: f in recent && f in dir && TitleOf(f) == Some(t) && m[t] == dir[f] {
      var i :| 0 <= i < |recent| && TitleOf(recent[i]) == Some(t) && m[t] == dir[recent[i]];
      assert recent[i] in recent;
    }
    forall f | f in recent ensures TitleOf(f).Some? && TitleOf(f).value in m {
      var i :| 0 <= i < |recent| && recent[i] == f;
    }
  }

  /** A kept file whose title no other kept file shares is shown with its
      own content. */
  lemma {:induction false} CollectUnique(recent: seq<string>, dir: map<string, string>, k: nat)
    requires forall i :: 0 <= i < |recent| ==> recent[i] in dir
    requires Collect(recent, dir).Some?
    requires k < |recent|
    requires forall i :: 0 <= i < |recent| && TitleOf(recent[i]) == TitleOf(recent[k]) ==> recent[i] == recent[k]
    ensures TitleOf(recent[k]).Some? && TitleOf(recent[k]).value in Collect(recent, dir).value
      && Collect(recent, dir).value[TitleOf(recent[k]).value] == dir[recent[k]]
  {
    CollectSound(recent, dir);
    CollectComplete(recent, dir);
    var t := TitleOf(recent[k]).value;
    var i :| 0 <= i < |recent| && TitleOf(recent[i]) == Some(t) && Collect(recent, dir).value[t] == dir[recent[i]];
    assert recent[i] == recent[k];
  }

  /** A listing of one readable name keeps that name. */
  lemma KeptOne(f: string)
    requires DateValue(f).Some?
    ensures Kept([f]) == Some([f])
  {
    var x := (DateValue(f).value, f);
    var k := KeyAll([f]);
    assert k.Some? && |k.value| == 1 && k.value[0] == x;
    assert k.value == [x];
    assert SortDesc([x]) == [x];
    var top := SortDesc([x])[..Min(MaxMessages, 1)];
    assert top == [x];
    assert Newest([x]) == [f];
  }

  /** One kept file gives one entry. */
  lemma CollectOne(f: string, dir: map<string, string>)
    requires f in dir && TitleOf(f).Some?
    ensures Collect([f], dir) == Some(map[TitleOf(f).value := dir[f]])
  {
    assert [f][..0] == [];
  }
}
