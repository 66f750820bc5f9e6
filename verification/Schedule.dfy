/**
 How a crontab line is cut into a schedule and a command: the match of
 `^(\s*\S+\s){5}|(^\s*@\S+)` and the second part of splitting the line at it.
 */
module Schedule {
  import opened Text
  import opened CrontabSyntax

  /** `\s*\S+\s` matches `s[from..to]` with the word starting at `i`. */
  predicate FieldMatch(s: string, from: nat, i: nat, to: nat) {
    && from <= i < to - 1 && to <= |s|
    && Blank(s, from, i) && Solid(s, i, to - 1) && IsBlank(s[to - 1])
  }

  ghost predicate IsField(s: string, from: nat, to: nat) {
    exists i: nat :: FieldMatch(s, from, i, to)
  }

  /** `(\s*\S+\s){n}` matches `s[from..to]`. */
  ghost predicate AreFields(s: string, from: nat, n: nat, to: nat)
    decreases n
  {
    if n == 0 then from == to <= |s|
    else exists mid: nat :: IsField(s, from, mid) && AreFields(s, mid, n - 1, to)
  }

  /** However the repetitions are tried, a field can end in one place only. */
  function FieldEnd(s: string, from: nat): (r: Option<nat>)
    requires from <= |s|
    ensures forall to: nat :: IsField(s, from, to) <==> r == Some(to)
  {
    var i := BlankEnd(s, from);
    var j := SolidEnd(s, i);
    var r := if i < j < |s| then Some(j + 1) else None;
    assert r.Some? ==> FieldMatch(s, from, i, j + 1);
    FieldForced(s, from, i, j);
    r
  }

  lemma FieldForced(s: string, from: nat, i: nat, j: nat)
    requires from <= |s| && i == BlankEnd(s, from) && j == SolidEnd(s, i)
    ensures forall to: nat | IsField(s, from, to) :: i < j < |s| && to == j + 1
  {
    forall to: nat | IsField(s, from, to) ensures i < j < |s| && to == j + 1 {
      var i': nat :| FieldMatch(s, from, i', to);
      assert !IsBlank(s[i']) && i <= i';
      assert !IsBlank(s[i]) && i' == i;
      assert IsBlank(s[to - 1]) && j <= to - 1;
    }
  }

  predicate IsWord(s: string) {
    s != [] && forall c | c in s :: c != '\t' && c != '\n' && c != '\U{0C}' && c != '\r' && c != ' '
  }

  /** A field is any blanks, a word, and one blank and no more. */
  lemma FieldSpelledOut(before: string, word: string, blank: char, rest: string)
    requires AreBlanks(before) && IsWord(word) && AreBlanks([blank])
    ensures FieldEnd(before + word + [blank] + rest, 0) == Some(|before| + |word| + 1)
  {
    var line := before + word + [blank] + rest;
    var i, j := |before|, |before + word|;
    assert forall x | 0 <= x < i :: line[x] == before[x] && before[x] in before;
    assert forall x | i <= x < j :: line[x] == word[x - i] && word[x - i] in word;
    assert line[j] == blank && blank in [blank];
    assert FieldMatch(line, 0, i, j + 1);
    assert IsField(line, 0, j + 1);
  }

  function FieldsEnd(s: string, from: nat, n: nat): (r: Option<nat>)
    requires from <= |s|
    ensures forall to: nat :: AreFields(s, from, n, to) <==> r == Some(to)
    ensures r.Some? ==> from + 2 * n <= r.value <= |s|
    ensures r.Some? && n > 0 ==> IsBlank(s[r.value - 1])
    decreases n
  {
    if n == 0 then Some(from)
    else
      match FieldEnd(s, from)
      case None => None
      case Some(mid) =>
        assert IsField(s, from, mid);
        FieldsEnd(s, mid, n - 1)
  }

  /** `^\s*@\S+` matches `s[..to]` with the at sign at `i`. */
  predicate AtMatch(s: string, i: nat, to: nat) {
    i + 1 < to <= |s| && Blank(s, 0, i) && s[i] == '@' && Solid(s, i + 1, to)
  }

  /** The greedy match of `^\s*@\S+` is the longest one. */
  function AtEnd(s: string): (r: Option<nat>)
    ensures r.Some? ==> 2 <= r.value <= |s| && exists i: nat :: AtMatch(s, i, r.value)
    ensures forall i: nat, to: nat | AtMatch(s, i, to) :: r.Some? && to <= r.value
    ensures r.Some? ==> !IsBlank(s[r.value - 1])
  {
    var i := BlankEnd(s, 0);
    if i < |s| && s[i] == '@' then
      var to := SolidEnd(s, i + 1);
      assert i + 1 < to ==> AtMatch(s, i, to);
      if i + 1 < to then Some(to) else None
    else None
  }

  /** A named schedule is any blanks, an at sign, and all of the word after it. */
  lemma AtSpelledOut(before: string, word: string, rest: string)
    requires AreBlanks(before) && IsWord(word) && (rest == [] || AreBlanks([rest[0]]))
    ensures AtEnd(before + ['@'] + word + rest) == Some(|before| + 1 + |word|)
  {
    var line := before + ['@'] + word + rest;
    var i, j := |before|, |before| + 1 + |word|;
    assert forall x | 0 <= x < i :: line[x] == before[x] && before[x] in before;
    assert line[i] == '@';
    assert forall x | i < x < j :: line[x] == word[x - i - 1] && word[x - i - 1] in word;
    assert rest != [] ==> line[j] == rest[0] && rest[0] in [rest[0]];
    assert AtMatch(line, i, j);
  }

  /** `to` is the longest match of a named schedule. */
  ghost predicate LongestAtMatch(line: string, to: nat) {
    (exists i: nat :: AtMatch(line, i, to)) && forall i: nat, e: nat | AtMatch(line, i, e) :: e <= to
  }

  lemma AtEndIsLongest(line: string)
    ensures forall to: nat :: AtEnd(line) == Some(to) <==> LongestAtMatch(line, to)
  {
    forall to: nat | LongestAtMatch(line, to) ensures AtEnd(line) == Some(to) {
      var i: nat :| AtMatch(line, i, to);
      assert AtEnd(line).Some? && to <= AtEnd(line).value;
    }
  }

  /** Both alternatives are anchored, so there is at most one match: five
      fields where there are five, otherwise the longest named schedule. */
  function ScheduleEnd(line: string): (r: Option<nat>)
    ensures r.Some? ==> 2 <= r.value <= |line|
    ensures forall to: nat | AreFields(line, 0, 5, to) :: r == Some(to)
    ensures (forall to: nat :: !AreFields(line, 0, 5, to)) ==>
      forall to: nat :: r == Some(to) <==> LongestAtMatch(line, to)
    ensures r.None? <==> (forall to: nat :: !AreFields(line, 0, 5, to)) && forall i: nat, to: nat :: !AtMatch(line, i, to)
  {
    var five := FieldsEnd(line, 0, 5);
    if five.Some? then
      assert AreFields(line, 0, 5, five.value);
      five
    else
      AtEndIsLongest(line);
      AtEnd(line)
  }

  function ScheduleOf(line: string): (schedule: string)
    ensures schedule <= line
  {
    match ScheduleEnd(line)
    case None => ""
    case Some(e) => line[..e]
  }

  /** `strings.Split(line, schedule)[1]`; `None` is an index out of range. */
  function CommandOf(line: string): (command: Option<string>)
  {
    var parts := Split(line, ScheduleOf(line));
    if |parts| > 1 then Some(parts[1]) else None
  }

  /** The command is the rest of the line up to where the schedule occurs
      again; taking it fails on lines of at most one character only. */
  lemma CommandIsRemainder(line: string)
    ensures CommandOf(line).None? <==> |line| <= 1
    ensures ScheduleOf(line) != "" ==>
      CommandOf(line) == Some(UpToNext(line, ScheduleOf(line), |ScheduleOf(line)|))
  {
    if ScheduleOf(line) != "" {
      SplitAtPrefix(line, ScheduleOf(line));
    }
  }

  /** Schedule and command make up the line if and only if the schedule does
      not occur a second time. */
  lemma ScheduleAndCommandRebuildLine(line: string)
    requires ScheduleOf(line) != ""
    ensures CommandOf(line).Some?
    ensures ScheduleOf(line) + CommandOf(line).value == line
      <==> forall i | i >= |ScheduleOf(line)| :: !OccursAt(line, ScheduleOf(line), i)
  {
    CommandIsRemainder(line);
    RebuiltUnlessRepeated(line, ScheduleOf(line));
  }

  lemma RebuiltUnlessRepeated(line: string, sep: string)
    requires sep != "" && sep <= line
    ensures sep + UpToNext(line, sep, |sep|) == line <==> forall i | i >= |sep| :: !OccursAt(line, sep, i)
  {
    var next := IndexFrom(line, sep, |sep|);
    if next.Some? {
      assert |UpToNext(line, sep, |sep|)| < |line| - |sep|;
    } else {
      assert sep + line[|sep|..] == line;
    }
  }

  /** A line that names its schedule, as in `@daily`, is given that schedule if
      and only if it has fewer than five words that end in a blank; with more,
      its first five words are taken for the five fields. */
  lemma NamedScheduleHonoured(line: string, e: nat)
    requires AtEnd(line) == Some(e)
    ensures ScheduleOf(line) == line[..e] <==> forall to: nat :: !AreFields(line, 0, 5, to)
  {
    var five := FieldsEnd(line, 0, 5);
    if five.Some? {
      assert AreFields(line, 0, 5, five.value);
      assert e != five.value;
    }
  }

  /** Five words of the form `word blank`, one after the other. */
  lemma FiveFields(s: string, a: nat, b: nat, c: nat, d: nat, e: nat)
    requires FieldMatch(s, 0, 0, a) && FieldMatch(s, a, a, b) && FieldMatch(s, b, b, c)
    requires FieldMatch(s, c, c, d) && FieldMatch(s, d, d, e)
    ensures AreFields(s, 0, 5, e) && ScheduleOf(s) == s[..e]
  {
    assert IsField(s, 0, a) && IsField(s, a, b) && IsField(s, b, c) && IsField(s, c, d) && IsField(s, d, e);
    assert AreFields(s, e, 0, e);
    assert AreFields(s, d, 1, e);
    assert AreFields(s, c, 2, e);
    assert AreFields(s, b, 3, e);
    assert AreFields(s, a, 4, e);
  }

  /** `@x a b c d e` is not run on schedule `@x`. */
  lemma NamedScheduleSwallowed(line: string)
    requires line == "@x a b c d e"
    ensures AtEnd(line) == Some(2) && ScheduleOf(line) == line[..11]
  {
    FiveFields(line, 3, 5, 7, 9, 11);
    assert AtMatch(line, 0, 2);
  }

  /** A command that repeats its schedule loses its tail. */
  lemma RepeatedScheduleTruncates(line: string)
    requires line == "* * * * * a* * * * * b"
    ensures ScheduleOf(line) == line[..10] && ScheduleOf(line) + CommandOf(line).GetOr("") != line
  {
    FiveStars(line);
    ScheduleAndCommandRebuildLine(line);
  }

  lemma FiveStars(line: string)
    requires line == "* * * * * a* * * * * b"
    ensures ScheduleOf(line) == line[..10] && OccursAt(line, line[..10], 11)
  {
    FiveFields(line, 2, 4, 6, 8, 10);
    StarsRepeat(line);
  }

  lemma StarsRepeat(line: string)
    requires line == "* * * * * a* * * * * b"
    ensures OccursAt(line, line[..10], 11)
  {
    assert line[..10] == "* * * * * " == line[11..21];
  }

  /** The five fields the line begins with, or else the longest named schedule
      it begins with, or else nothing. */
  ghost predicate IsScheduleOf(line: string, schedule: string) {
    || (schedule <= line && AreFields(line, 0, 5, |schedule|))
    || ((forall to: nat :: !AreFields(line, 0, 5, to))
        && ((schedule <= line && LongestAtMatch(line, |schedule|))
            || (schedule == "" && forall i: nat, to: nat :: !AtMatch(line, i, to))))
  }

  lemma ScheduleIsTheMatch(line: string)
    ensures IsScheduleOf(line, ScheduleOf(line))
  {
    var five := FieldsEnd(line, 0, 5);
    if five.Some? {
      assert AreFields(line, 0, 5, five.value);
    } else {
      AtEndIsLongest(line);
    }
  }

  /** There is only one. */
  lemma ScheduleIsUnique(line: string, a: string, b: string)
    requires IsScheduleOf(line, a) && IsScheduleOf(line, b)
    ensures a == b
  {
    var five := FieldsEnd(line, 0, 5);
    if five.Some? {
      assert AreFields(line, 0, 5, five.value) && |a| == |b|;
    } else if a != "" {
      assert LongestAtMatch(line, |a|) && LongestAtMatch(line, |b|);
    }
  }

  /** `command` is what follows the schedule in the line, up to the next place
      where the schedule occurs. */
  ghost predicate FollowsSchedule(line: string, schedule: string, command: string) {
    var end := |schedule| + |command|;
    && schedule + command <= line && (end == |line| || OccursAt(line, schedule, end))
    && forall i | |schedule| <= i < end :: !OccursAt(line, schedule, i)
  }

  lemma CommandFollows(line: string)
    requires CommandOf(line).Some?
    ensures if ScheduleOf(line) != "" then FollowsSchedule(line, ScheduleOf(line), CommandOf(line).value)
      else |line| > 1 && CommandOf(line).value == [line[1]]
  {
    if ScheduleOf(line) != "" {
      CommandIsRemainder(line);
      UpToNextFollows(line, ScheduleOf(line));
    }
  }

  lemma UpToNextFollows(line: string, schedule: string)
    requires schedule != "" && schedule <= line
    ensures FollowsSchedule(line, schedule, UpToNext(line, schedule, |schedule|))
  {
    var n := |schedule|;
    var next := IndexFrom(line, schedule, n);
    var end := if next.Some? then next.value else |line|;
    assert schedule + line[n..end] == line[..end];
  }

  lemma FiveFourEveryDay(line: string)
    requires line == "5 4 * * * a"
    ensures ScheduleOf(line) == "5 4 * * * " && CommandOf(line) == Some("a")
  {
    hide ScheduleOf, CommandOf, AreFields;
    FiveFields(line, 2, 4, 6, 8, 10);
    CommandAtEnd(line, 10);
    assert line[..10] == "5 4 * * * " && line[10..] == "a";
  }

  lemma CommandAtEnd(line: string, to: nat)
    requires 0 < to <= |line| < 2 * to && ScheduleOf(line) == line[..to]
    ensures CommandOf(line) == Some(line[to..])
  {
    CommandIsRemainder(line);
    assert IndexFrom(line, line[..to], to).None?;
  }

  /** Of two blanks before the command the schedule takes one. */
  lemma SecondBlankIsTheCommands(line: string)
    requires line == "* * * * *  a"
    ensures ScheduleOf(line) == "* * * * * " && CommandOf(line) == Some(" a")
  {
    hide ScheduleOf, CommandOf, AreFields;
    FiveFields(line, 2, 4, 6, 8, 10);
    CommandAtEnd(line, 10);
    assert line[..10] == "* * * * * " && line[10..] == " a";
  }
}
