/**
 How one crontab line is read: the two regular expressions of the scanner as
 matching relations, the functions that decide them, and the split of an
 assignment at its first equals sign.
 */
module CrontabSyntax {
  import opened Text

  datatype Line = Skipped | Assignment(key: string, value: string) | Command(text: string)

  /** `(^\s*#)|(^\s*$)`: comments and blank lines. */
  ghost predicate MatchesSkip(line: string) {
    exists i | 0 <= i <= |line| :: Blank(line, 0, i) && (i == |line| || line[i] == '#')
  }

  predicate IsSkipped(line: string): (r: bool)
    ensures r <==> MatchesSkip(line)
  {
    var i := BlankEnd(line, 0);
    i == |line| || line[i] == '#'
  }

  /** The split points `i`, `j`, `k` are one way to match `^\s*\S+\s*=`. */
  predicate EnvVarMatch(line: string, i: nat, j: nat, k: nat) {
    && i < j <= k < |line|
    && Blank(line, 0, i) && Solid(line, i, j) && Blank(line, j, k) && line[k] == '='
  }

  ghost predicate MatchesEnvVar(line: string) {
    exists i, j, k :: EnvVarMatch(line, i, j, k)
  }

  /** Either an equals sign inside the first word but not at its start, or the
      first word is followed by blanks and then an equals sign. */
  predicate IsAEnvVar(line: string): (r: bool)
    ensures r <==> MatchesEnvVar(line)
  {
    var i := BlankEnd(line, 0);
    var j := SolidEnd(line, i);
    var k := BlankEnd(line, j);
    EnvVarDecided(line, i, j, k);
    i < j && ('=' in line[i + 1..j] || (k < |line| && line[k] == '='))
  }

  lemma EnvVarDecided(line: string, i: nat, j: nat, k: nat)
    requires i == BlankEnd(line, 0) && j == SolidEnd(line, i) && k == BlankEnd(line, j)
    ensures MatchesEnvVar(line) <==> i < j && ('=' in line[i + 1..j] || (k < |line| && line[k] == '='))
  {
    if i < j && '=' in line[i + 1..j] {
      var x :| i + 1 <= x < j && line[x] == '=';
      assert EnvVarMatch(line, i, x, x);
    } else if i < j && k < |line| && line[k] == '=' {
      assert EnvVarMatch(line, i, j, k);
    }
    if MatchesEnvVar(line) {
      var i': nat, j': nat, k': nat :| EnvVarMatch(line, i', j', k');
      assert !IsBlank(line[i']) && i <= i';
      assert !IsBlank(line[i]) && i' == i;
      assert !IsBlank(line[j' - 1]) && j' <= j;
      if j' < j {
        assert !IsBlank(line[j']) && k' == j';
        assert line[i + 1..j][k' - i - 1] == '=';
      } else {
        assert k' == k;
      }
    }
  }

  /** The characters `strings.TrimLeft` strips from a value. */
  predicate IsValuePadding(c: char) {
    c == '\t' || c == ' ' || c == '\n'
  }

  /** `strings.SplitN(line, "=", 2)`: a line with an equals sign has two parts. */
  function FirstEquals(line: string): (n: nat)
    requires '=' in line
    ensures n < |line| && line[n] == '='
    ensures forall i | 0 <= i < n :: line[i] != '='
  {
    if line[0] == '=' then 0 else 1 + FirstEquals(line[1..])
  }

  function Classify(line: string): (l: Line)
    ensures l.Skipped? <==> MatchesSkip(line)
    ensures l.Assignment? <==> MatchesEnvVar(line) && !MatchesSkip(line)
    ensures l.Assignment? ==> '=' !in l.key
    ensures l.Command? ==> l.text == line
  {
    if IsSkipped(line) then Skipped
    else if IsAEnvVar(line) then
      var n := FirstEquals(line);
      Assignment(TrimSpace(line[..n]), TrimLeft(line[n + 1..], IsValuePadding))
    else Command(line)
  }

  function Parse(lines: seq<string>): (ls: seq<Line>)
    ensures |ls| == |lines| && forall i | 0 <= i < |ls| :: ls[i] == Classify(lines[i])
  {
    seq(|lines|, i requires 0 <= i < |lines| => Classify(lines[i]))
  }

  /** A line without an equals sign that begins with neither a blank nor a `#`
      is a command. */
  lemma CommandWithoutEquals(line: string)
    requires line != "" && line[0] > ' ' && line[0] != '#' && '=' !in line
    ensures Classify(line) == Command(line)
  {
    assert BlankEnd(line, 0) == 0;
  }

  /** A line whose first word has no equals sign and is followed by something
      else than one is a command, whatever equals signs come later. */
  lemma LaterEqualsDoNotMatter(before: string, word: string, gap: string, rest: string)
    requires AreBlanks(before) && AreBlanks(gap) && gap != []
    requires word != [] && word[0] != '#' && '=' !in word && AreVisible(word)
    requires rest != [] && rest[0] > ' ' && rest[0] != '='
    ensures Classify(before + word + gap + rest) == Command(before + word + gap + rest)
  {
    var line := before + word + gap + rest;
    var i, j, k := |before|, |before + word|, |before + word + gap|;
    assert forall x | 0 <= x < i :: line[x] == before[x] && before[x] in before;
    assert forall x | i <= x < j :: line[x] == word[x - i] && word[x - i] in word;
    assert forall x | j <= x < k :: line[x] == gap[x - j] && gap[x - j] in gap;
    assert line[k] == rest[0];
    WordsApart(line, i, j, k);
  }

  lemma WordsApart(line: string, i: nat, j: nat, k: nat)
    requires i < j < k < |line| && Blank(line, 0, i) && Solid(line, i, j) && Blank(line, j, k)
    requires line[i] != '#' && !IsBlank(line[k]) && line[k] != '=' && forall x | i <= x < j :: line[x] != '='
    ensures Classify(line) == Command(line)
  {
    BlanksEndAt(line, 0, i);
    WordEndsAt(line, i, j);
    BlanksEndAt(line, j, k);
    assert '=' !in line[i + 1..j];
  }

  /** The characters a regular expression takes for blanks: tab, newline, form
      feed, carriage return and space. */
  predicate AreBlanks(s: string) {
    forall c | c in s :: c == '\t' || c == '\n' || c == '\U{0C}' || c == '\r' || c == ' '
  }

  /** No control character and no space, Unicode's included. */
  predicate AreVisible(s: string) {
    forall c | c in s :: c > ' ' && (c < '\U{80}' || !IsSpace(c))
  }

  /** Blanks alone, or followed by a `#` and anything. */
  lemma CommentsAreSkipped(before: string, rest: string)
    requires AreBlanks(before)
    ensures Classify(before) == Skipped && Classify(before + "#" + rest) == Skipped
  {
    var line := before + "#" + rest;
    assert forall i | 0 <= i < |before| :: line[i] == before[i] && before[i] in before;
    assert Blank(before, 0, |before|);
    assert Blank(line, 0, |before|) && line[|before|] == '#';
  }

  /** `NAME=value` without any blanks around. */
  lemma PlainAssignment(line: string, key: string, value: string)
    requires line == key + "=" + value
    requires key != [] && '=' !in key && key[0] != '#' && AreVisible(key)
    requires value != [] ==> value[0] > ' '
    ensures Classify(line) == Assignment(key, value)
  {
    var none: string := [];
    AssignmentRoundTrip(none, key, none, none, value);
    NothingAround(none, key, value);
  }

  lemma NothingAround(none: string, key: string, value: string)
    requires none == []
    ensures none + key + none + "=" + none + value == key + "=" + value
  {
    assert none + key + none == key;
  }

  /** `A = 1` assigns `1`. */
  lemma SpacedAssignment(line: string)
    requires line == "A = 1"
    ensures Classify(line) == Assignment("A", "1")
  {
    hide Classify;
    var none: string := [];
    var key, blank, value := [line[0]], [line[1]], [line[4]];
    AssignmentRoundTrip(none, key, blank, blank, value);
    assert none + key == key;
    FivePieces(line, key, blank, value);
  }

  lemma FivePieces(line: string, key: string, blank: string, value: string)
    requires |line| == 5 && key == [line[0]] && blank == [line[1]] == [line[3]] && line[2] == '=' && value == [line[4]]
    ensures key + blank + "=" + blank + value == line
  {
  }

  /** An assignment is read back whatever blanks surround the name and whatever
      blanks, tabs and newlines precede the value. */
  lemma AssignmentRoundTrip(before: string, key: string, after: string, padding: string, value: string)
    requires key != [] && '=' !in key && key[0] != '#' && AreVisible(key)
    requires AreBlanks(before) && AreBlanks(after)
    requires forall c | c in padding :: c == ' ' || c == '\t' || c == '\n'
    requires value != [] ==> value[0] != ' ' && value[0] != '\t' && value[0] != '\n'
    ensures Classify(before + key + after + "=" + padding + value) == Assignment(key, value)
  {
    var left, right := before + key + after, padding + value;
    var line := left + "=" + right;
    assert line == before + key + after + "=" + padding + value;
    LeftSideMatches(before, key, after, line);
    assert FirstEquals(line) == |left|;
    SlicesOfJoin(left, right);
    TrimsToKey(before, key, after);
    TrimLeftStops(padding, value, IsValuePadding);
  }

  lemma LeftSideMatches(before: string, key: string, after: string, line: string)
    requires key != [] && '=' !in key && key[0] != '#' && AreVisible(key)
    requires AreBlanks(before) && AreBlanks(after)
    requires before + key + after + "=" <= line
    ensures MatchesEnvVar(line) && !MatchesSkip(line)
    ensures line[|before + key + after|] == '=' && forall i | 0 <= i < |before + key + after| :: line[i] != '='
  {
    var i, j := |before|, |before + key|;
    var k := |before + key + after|;
    assert forall x | 0 <= x < i :: line[x] == before[x] && before[x] in before;
    assert forall x | i <= x < j :: line[x] == key[x - i] && key[x - i] in key;
    assert forall x | j <= x < k :: line[x] == after[x - j] && after[x - j] in after;
    assert line[k] == '=';
    assert EnvVarMatch(line, i, j, k);
    assert !IsBlank(line[i]) && line[i] != '#';
  }

  lemma SlicesOfJoin(left: string, right: string)
    ensures (left + "=" + right)[..|left|] == left && (left + "=" + right)[|left| + 1..] == right
  {
  }

  lemma TrimsToKey(before: string, key: string, after: string)
    requires key != [] && AreVisible(key) && AreBlanks(before) && AreBlanks(after)
    ensures TrimSpace(before + key + after) == key
  {
    assert before + key + after == before + (key + after);
    assert (forall c | c in key :: !IsSpace(c)) && (forall c | c in before :: IsSpace(c)) && forall c | c in after :: IsSpace(c);
    assert key[0] in key && key[|key| - 1] in key;
    TrimLeftStops(before, key + after, IsSpace);
    TrimRightStops(key, after, IsSpace);
  }
}
