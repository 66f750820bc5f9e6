/**
 The crontab scanner: command lines grouped under snapshots of an environment
 that keeps changing, each command filed under an identifier.

 The scan itself (`ScanTo`) is one pass over mutable state.  What it means is
 stated without that state: the environment above a line (`EnvAt`) and the
 number of times an assignment followed a command (`BlockAt`).
 */
module Fsclient {
  import opened CrontabSyntax
  import opened Environment

  /** What every identifier depends on besides the crontab; the digest is any
      function on strings. */
  datatype Operator = Operator(image: string, timezone: string, md5: string -> string)

  datatype CronEntry = CronEntry(envVars: Env, usercrons: map<string, string>)

  /** What the user's crontab path leads to; `Readable` holds the lines the
      line scanner delivers before it ends or fails, none at all when the file
      could not be opened for a reason other than permission. */
  datatype CrontabFile = Missing | Directory | NoPermission | Readable(lines: seq<string>)

  ghost function Identifier(op: Operator, user: string, line: string, env: Env): string {
    op.md5(user + line + op.image + MapToString(env))
  }

  // ---------------------------------------------------------------- the scan

  datatype Scan = Scan(
    entries: seq<CronEntry>, usercrons: map<string, string>, all: map<string, string>,
    env: Env, afterCommand: bool)

  ghost function ScanLine(op: Operator, user: string, st: Scan, line: Line): Scan {
    match line
    case Skipped => st
    case Assignment(key, value) =>
      if st.afterCommand then
        Scan(st.entries + [CronEntry(st.env, st.usercrons)], map[], st.all, st.env[key := value], false)
      else
        st.(env := st.env[key := value])
    case Command(text) =>
      var id := Identifier(op, user, text, st.env);
      st.(usercrons := st.usercrons[id := text], all := st.all[id := text], afterCommand := true)
  }

  ghost function ScanTo(op: Operator, user: string, lines: seq<Line>, n: nat): Scan
    requires n <= |lines|
  {
    if n == 0 then Scan([], map[], map[], map[], false)
    else ScanLine(op, user, ScanTo(op, user, lines, n - 1), lines[n - 1])
  }

  ghost function Closed(st: Scan): seq<CronEntry> {
    st.entries + [CronEntry(st.env, st.usercrons)]
  }

  ghost function EntriesOf(op: Operator, user: string, file: CrontabFile): seq<CronEntry> {
    if file.Readable? then Closed(ScanTo(op, user, Parse(file.lines), |file.lines|)) else []
  }

  ghost function AllUsercrons(op: Operator, user: string, file: CrontabFile): map<string, string> {
    if file.Readable? then ScanTo(op, user, Parse(file.lines), |file.lines|).all else map[]
  }

  method GetFSEntryForUser(op: Operator, user: string, file: CrontabFile)
    returns (entries: seq<CronEntry>, all: map<string, string>)
    ensures entries == EntriesOf(op, user, file)
    ensures all == AllUsercrons(op, user, file)
    ensures !file.Readable? ==> entries == [] && all == map[]
  {
    entries, all := [], map[];
    if !file.Readable? {
      return;
    }
    var usercrons: map<string, string> := map[];
    var mapOfEnvVars: Env := map[];
    var isPreviousLineACommand := false;
    ghost var lines := Parse(file.lines);
    for n := 0 to |file.lines|
      invariant Scan(entries, usercrons, all, mapOfEnvVars, isPreviousLineACommand) == ScanTo(op, user, lines, n)
    {
      match Classify(file.lines[n]) {
        case Skipped =>
        case Assignment(key, value) =>
          if isPreviousLineACommand {
            entries := entries + [CronEntry(mapOfEnvVars, usercrons)];
            usercrons := map[];
          }
          mapOfEnvVars := mapOfEnvVars[key := value];
          isPreviousLineACommand := false;
        case Command(line) =>
          var mapAsString := ConvertMapToString(mapOfEnvVars);
          var unique := op.md5(user + line + op.image + mapAsString);
          usercrons := usercrons[unique := line];
          all := all[unique := line];
          isPreviousLineACommand := true;
      }
    }
    entries := entries + [CronEntry(mapOfEnvVars, usercrons)];
  }

  // ------------------------------------------------------ line-by-line meaning

  predicate CommandAt(lines: seq<Line>, i: int) {
    0 <= i < |lines| && lines[i].Command?
  }

  /** The fold of all assignments among the first `i` lines. */
  function EnvAt(lines: seq<Line>, i: nat): Env
    requires i <= |lines|
  {
    if i == 0 then map[]
    else
      match lines[i - 1]
      case Assignment(key, value) => EnvAt(lines, i - 1)[key := value]
      case _ => EnvAt(lines, i - 1)
  }

  /** The last line among the first `i` that is not skipped is a command. */
  predicate EndsInCommand(lines: seq<Line>, i: nat)
    requires i <= |lines|
  {
    i > 0 &&
    match lines[i - 1]
    case Skipped => EndsInCommand(lines, i - 1)
    case Assignment(_, _) => false
    case Command(_) => true
  }

  /** How many assignments among the first `i` lines follow a command. */
  function BlockAt(lines: seq<Line>, i: nat): nat
    requires i <= |lines|
  {
    if i == 0 then 0
    else if lines[i - 1].Assignment? && EndsInCommand(lines, i - 1) then BlockAt(lines, i - 1) + 1
    else BlockAt(lines, i - 1)
  }

  ghost function IdAt(op: Operator, user: string, lines: seq<Line>, i: nat): string
    requires CommandAt(lines, i)
  {
    Identifier(op, user, lines[i].text, EnvAt(lines, i))
  }

  /** Line `i` is a command of block `j` with this identifier and text. */
  ghost predicate IsCommand(op: Operator, user: string, lines: seq<Line>, i: int, j: int, id: string, text: string) {
    CommandAt(lines, i) && BlockAt(lines, i) == j && IdAt(op, user, lines, i) == id && lines[i].text == text
  }

  /** The entry of command `i`'s block holds its identifier, and the environment
      of that entry is the fold of all assignments above the command. */
  ghost predicate FiledIn(op: Operator, user: string, lines: seq<Line>, i: nat, entries: seq<CronEntry>)
    requires CommandAt(lines, i)
  {
    var j := BlockAt(lines, i);
    j < |entries| && entries[j].envVars == EnvAt(lines, i) && IdAt(op, user, lines, i) in entries[j].usercrons
  }

  ghost predicate CommandsFiled(op: Operator, user: string, lines: seq<Line>, n: nat, entries: seq<CronEntry>)
    requires n <= |lines|
  {
    forall i | 0 <= i < n && CommandAt(lines, i) :: FiledIn(op, user, lines, i, entries)
  }

  /** Line `i` is the last such command of block `j` among the first `n` lines. */
  ghost predicate IsLastCommand(op: Operator, user: string, lines: seq<Line>, n: nat, i: int, j: int, id: string, text: string)
    requires n <= |lines|
  {
    && 0 <= i < n && IsCommand(op, user, lines, i, j, id, text)
    && forall k | i < k < n && CommandAt(lines, k) :: !(BlockAt(lines, k) == j && IdAt(op, user, lines, k) == id)
  }

  /** Nothing else is held, and under each identifier an entry has the text of
      the last command of its block with that identifier. */
  ghost predicate OnlyCommandsFiled(op: Operator, user: string, lines: seq<Line>, n: nat, entries: seq<CronEntry>)
    requires n <= |lines|
  {
    forall j, id | 0 <= j < |entries| && id in entries[j].usercrons ::
      exists i :: IsLastCommand(op, user, lines, n, i, j, id, entries[j].usercrons[id])
  }

  /** The second result holds the identifiers of all entries, with texts of
      command lines of the file. */
  ghost predicate AllIsUnion(entries: seq<CronEntry>, all: map<string, string>) {
    && (forall j, id | 0 <= j < |entries| && id in entries[j].usercrons :: id in all)
    && (forall id | id in all ::
      exists j | 0 <= j < |entries| :: id in entries[j].usercrons && entries[j].usercrons[id] == all[id])
  }

  /** There is one entry for each block; every one but the last holds a command,
      and the last has the environment the scan has reached. */
  ghost predicate OneEntryPerBlock(lines: seq<Line>, n: nat, entries: seq<CronEntry>)
    requires n <= |lines|
  {
    && |entries| == BlockAt(lines, n) + 1
    && (forall j | 0 <= j < |entries| - 1 :: entries[j].usercrons != map[])
    && entries[|entries| - 1].envVars == EnvAt(lines, n)
  }

  /** The whole meaning of a scan of the first `n` lines. */
  ghost predicate Faithful(op: Operator, user: string, lines: seq<Line>, n: nat,
                           entries: seq<CronEntry>, all: map<string, string>)
    requires n <= |lines|
  {
    && OneEntryPerBlock(lines, n, entries)
    && CommandsFiled(op, user, lines, n, entries)
    && OnlyCommandsFiled(op, user, lines, n, entries)
    && AllIsUnion(entries, all)
  }

  /** What the scan keeps true after every line. */
  ghost predicate ScanInvariant(op: Operator, user: string, lines: seq<Line>, n: nat, st: Scan)
    requires n <= |lines|
  {
    && st.env == EnvAt(lines, n)
    && st.afterCommand == EndsInCommand(lines, n)
    && (st.afterCommand <==> st.usercrons != map[])
    && Faithful(op, user, lines, n, Closed(st), st.all)
  }

  /** The scan refines the line-by-line meaning, after every prefix. */
  lemma {:induction false} ScanIsFaithful(op: Operator, user: string, lines: seq<Line>, n: nat)
    requires n <= |lines|
    ensures ScanInvariant(op, user, lines, n, ScanTo(op, user, lines, n))
  {
    if n > 0 {
      ScanIsFaithful(op, user, lines, n - 1);
      LineKeepsInvariant(op, user, lines, n, ScanTo(op, user, lines, n - 1));
    }
  }

  lemma LineKeepsInvariant(op: Operator, user: string, lines: seq<Line>, n: nat, was: Scan)
    requires 0 < n <= |lines| && ScanInvariant(op, user, lines, n - 1, was)
    ensures ScanInvariant(op, user, lines, n, ScanLine(op, user, was, lines[n - 1]))
  {
    if CommandAt(lines, n - 1) {
      CommandKeepsInvariant(op, user, lines, n, was);
    } else if lines[n - 1].Assignment? {
      AssignmentKeepsInvariant(op, user, lines, n, was);
    } else {
      OtherGrows(op, user, lines, n, was, was);
      FiledGrows(op, user, lines, n, Closed(was), Closed(was));
    }
  }

  lemma CommandKeepsInvariant(op: Operator, user: string, lines: seq<Line>, n: nat, was: Scan)
    requires 0 < n <= |lines| && ScanInvariant(op, user, lines, n - 1, was) && CommandAt(lines, n - 1)
    ensures ScanInvariant(op, user, lines, n, ScanLine(op, user, was, lines[n - 1]))
  {
    var st, id := ScanLine(op, user, was, lines[n - 1]), IdAt(op, user, lines, n - 1);
    assert OneEntryPerBlock(lines, n, Closed(st)) by { EntriesStay(was, st); }
    assert CommandsFiled(op, user, lines, n, Closed(st)) && OnlyCommandsFiled(op, user, lines, n, Closed(st)) by {
      CommandGrows(op, user, lines, n, was, st);
      FiledGrows(op, user, lines, n, Closed(was), Closed(st));
    }
    CommandKeepsUnion(id, lines[n - 1].text, was, st);
    assert id in st.usercrons;
  }

  lemma AssignmentKeepsInvariant(op: Operator, user: string, lines: seq<Line>, n: nat, was: Scan)
    requires 0 < n <= |lines| && ScanInvariant(op, user, lines, n - 1, was) && lines[n - 1].Assignment?
    ensures ScanInvariant(op, user, lines, n, ScanLine(op, user, was, lines[n - 1]))
  {
    var st := ScanLine(op, user, was, lines[n - 1]);
    assert OneEntryPerBlock(lines, n, Closed(st)) by { AssignmentKeepsBlocks(op, user, lines, n, was); }
    assert CommandsFiled(op, user, lines, n, Closed(st)) && OnlyCommandsFiled(op, user, lines, n, Closed(st)) by {
      OtherGrows(op, user, lines, n, was, st);
      FiledGrows(op, user, lines, n, Closed(was), Closed(st));
    }
    AssignmentKeepsUnion(was, st);
  }

  lemma AssignmentKeepsBlocks(op: Operator, user: string, lines: seq<Line>, n: nat, was: Scan)
    requires 0 < n <= |lines| && lines[n - 1].Assignment? && OneEntryPerBlock(lines, n - 1, Closed(was))
    requires was.env == EnvAt(lines, n - 1) && was.afterCommand == EndsInCommand(lines, n - 1)
    requires was.afterCommand <==> was.usercrons != map[]
    ensures OneEntryPerBlock(lines, n, Closed(ScanLine(op, user, was, lines[n - 1])))
  {
    EntriesStay(was, ScanLine(op, user, was, lines[n - 1]));
  }

  lemma EntriesStay(was: Scan, st: Scan)
    requires st.entries == was.entries || st.entries == Closed(was)
    ensures forall j | 0 <= j < |was.entries| :: Closed(st)[j] == Closed(was)[j]
    ensures st.entries == Closed(was) ==> Closed(st)[|was.entries|] == CronEntry(was.env, was.usercrons)
  {
  }

  /** Entries `b` hold what `a` holds, and perhaps the command on line `n - 1`. */
  ghost predicate Grows(op: Operator, user: string, lines: seq<Line>, n: nat, a: seq<CronEntry>, b: seq<CronEntry>)
    requires 0 < n <= |lines|
  {
    && |a| <= |b|
    && (forall j | 0 <= j < |a| ::
      && a[j].usercrons.Keys <= b[j].usercrons.Keys
      && (a[j].usercrons != map[] ==> a[j].envVars == b[j].envVars))
    && (forall j, id | 0 <= j < |b| && id in b[j].usercrons ::
      if CommandAt(lines, n - 1) && BlockAt(lines, n - 1) == j && IdAt(op, user, lines, n - 1) == id
      then b[j].usercrons[id] == lines[n - 1].text
      else j < |a| && id in a[j].usercrons && a[j].usercrons[id] == b[j].usercrons[id])
    && (CommandAt(lines, n - 1) ==> FiledIn(op, user, lines, n - 1, b))
  }

  lemma FiledGrows(op: Operator, user: string, lines: seq<Line>, n: nat, a: seq<CronEntry>, b: seq<CronEntry>)
    requires 0 < n <= |lines| && Grows(op, user, lines, n, a, b)
    requires CommandsFiled(op, user, lines, n - 1, a) && OnlyCommandsFiled(op, user, lines, n - 1, a)
    ensures CommandsFiled(op, user, lines, n, b) && OnlyCommandsFiled(op, user, lines, n, b)
  {
    forall i | 0 <= i < n && CommandAt(lines, i) ensures FiledIn(op, user, lines, i, b) {
      if i < n - 1 { assert FiledIn(op, user, lines, i, a); }
    }
    forall j, id | 0 <= j < |b| && id in b[j].usercrons
      ensures exists i :: IsLastCommand(op, user, lines, n, i, j, id, b[j].usercrons[id])
    {
      LastGrows(op, user, lines, n, a, b, j, id);
    }
  }

  lemma LastGrows(op: Operator, user: string, lines: seq<Line>, n: nat, a: seq<CronEntry>, b: seq<CronEntry>, j: nat, id: string)
    requires 0 < n <= |lines| && Grows(op, user, lines, n, a, b) && OnlyCommandsFiled(op, user, lines, n - 1, a)
    requires j < |b| && id in b[j].usercrons
    ensures exists i :: IsLastCommand(op, user, lines, n, i, j, id, b[j].usercrons[id])
  {
    if CommandAt(lines, n - 1) && BlockAt(lines, n - 1) == j && IdAt(op, user, lines, n - 1) == id {
      assert IsLastCommand(op, user, lines, n, n - 1, j, id, b[j].usercrons[id]);
    } else {
      var i :| IsLastCommand(op, user, lines, n - 1, i, j, id, a[j].usercrons[id]);
      StaysLast(op, user, lines, n, i, j, id, a[j].usercrons[id]);
    }
  }

  lemma StaysLast(op: Operator, user: string, lines: seq<Line>, n: nat, i: int, j: int, id: string, text: string)
    requires 0 < n <= |lines| && IsLastCommand(op, user, lines, n - 1, i, j, id, text)
    requires CommandAt(lines, n - 1) ==> !(BlockAt(lines, n - 1) == j && IdAt(op, user, lines, n - 1) == id)
    ensures IsLastCommand(op, user, lines, n, i, j, id, text)
  {
  }

  lemma CommandGrows(op: Operator, user: string, lines: seq<Line>, n: nat, was: Scan, st: Scan)
    requires 0 < n <= |lines| && was.env == EnvAt(lines, n - 1) && |was.entries| == BlockAt(lines, n - 1)
    requires CommandAt(lines, n - 1) && st == ScanLine(op, user, was, lines[n - 1])
    ensures Grows(op, user, lines, n, Closed(was), Closed(st))
  {
    var a, b := Closed(was), Closed(st);
    assert forall j | 0 <= j < |a| - 1 :: a[j] == was.entries[j] == b[j];
    assert b[|b| - 1].usercrons == was.usercrons[IdAt(op, user, lines, n - 1) := lines[n - 1].text];
  }

  lemma OtherGrows(op: Operator, user: string, lines: seq<Line>, n: nat, was: Scan, st: Scan)
    requires 0 < n <= |lines| && (was.afterCommand <==> was.usercrons != map[])
    requires !CommandAt(lines, n - 1) && st == ScanLine(op, user, was, lines[n - 1])
    ensures Grows(op, user, lines, n, Closed(was), Closed(st))
  {
    var a, b := Closed(was), Closed(st);
    assert forall j | 0 <= j < |was.entries| :: a[j] == was.entries[j] == b[j];
  }

  lemma CommandKeepsUnion(id: string, line: string, was: Scan, st: Scan)
    requires AllIsUnion(Closed(was), was.all) && st.entries == was.entries
    requires st.usercrons == was.usercrons[id := line] && st.all == was.all[id := line]
    ensures AllIsUnion(Closed(st), st.all)
  {
    var a, b := Closed(was), Closed(st);
    assert forall j | 0 <= j < |was.entries| :: a[j] == was.entries[j] == b[j];
    forall j, x | 0 <= j < |b| && x in b[j].usercrons ensures x in st.all {
      assert x in a[j].usercrons || x == id;
    }
    forall x | x in st.all
      ensures exists j | 0 <= j < |b| :: x in b[j].usercrons && b[j].usercrons[x] == st.all[x]
    {
      if x == id {
        assert x in b[|b| - 1].usercrons;
      } else {
        var j :| 0 <= j < |a| && x in a[j].usercrons && a[j].usercrons[x] == was.all[x];
        assert x in b[j].usercrons;
      }
    }
  }

  lemma AssignmentKeepsUnion(was: Scan, st: Scan)
    requires AllIsUnion(Closed(was), was.all) && st.all == was.all
    requires
      || (st.entries == was.entries && st.usercrons == was.usercrons)
      || (st.entries == Closed(was) && st.usercrons == map[])
    ensures AllIsUnion(Closed(st), st.all)
  {
    var a, b := Closed(was), Closed(st);
    assert forall j | 0 <= j < |a| :: a[j].usercrons == b[j].usercrons;
    forall x | x in st.all
      ensures exists j | 0 <= j < |b| :: x in b[j].usercrons && b[j].usercrons[x] == st.all[x]
    {
      var j :| 0 <= j < |a| && x in a[j].usercrons && a[j].usercrons[x] == was.all[x];
      assert x in b[j].usercrons;
    }
  }

  // ------------------------------------------------------------ consequences

  /** The identifier of every command line is held by the entry of its block,
      whose environment is exactly the fold of all assignments above the line;
      nothing else is held by any entry, and the text under an identifier is
      that of the last command of the block that has it. */
  lemma EntriesAreFaithful(op: Operator, user: string, lines: seq<string>)
    ensures Faithful(op, user, Parse(lines), |lines|,
                     EntriesOf(op, user, Readable(lines)), AllUsercrons(op, user, Readable(lines)))
  {
    ScanIsFaithful(op, user, Parse(lines), |lines|);
  }

  /** With a digest that does not collide, the entry of a command's block has
      the very text of the command under its identifier. */
  lemma TextIsFiled(op: Operator, user: string, file: seq<string>, i: nat)
    requires forall a, b :: op.md5(a) == op.md5(b) ==> a == b
    requires CommandAt(Parse(file), i)
    ensures var lines, entries := Parse(file), EntriesOf(op, user, Readable(file));
      var j, id := BlockAt(lines, i), IdAt(op, user, lines, i);
      j < |entries| && id in entries[j].usercrons && entries[j].usercrons[id] == lines[i].text
  {
    var lines, entries := Parse(file), EntriesOf(op, user, Readable(file));
    EntriesAreFaithful(op, user, file);
    assert FiledIn(op, user, lines, i, entries);
    var j, id := BlockAt(lines, i), IdAt(op, user, lines, i);
    var k :| IsLastCommand(op, user, lines, |lines|, k, j, id, entries[j].usercrons[id]);
    assert FiledIn(op, user, lines, k, entries);
    LinesAreToldApart(op, user, lines[i].text, lines[k].text, EnvAt(lines, i));
  }

  /** Two commands are in one block if and only if no assignment is between
      them, and otherwise the later one is in a later block. */
  lemma {:induction false} BlocksEndAtAssignments(lines: seq<Line>, i: nat, k: nat)
    requires CommandAt(lines, i) && i < k <= |lines|
    ensures BlockAt(lines, i) <= BlockAt(lines, k)
    ensures BlockAt(lines, i) == BlockAt(lines, k) <==> forall m | i < m < k :: !lines[m].Assignment?
    ensures (forall m | i < m < k :: !lines[m].Assignment?) ==> EndsInCommand(lines, k)
    decreases k
  {
    if k > i + 1 {
      BlocksEndAtAssignments(lines, i, k - 1);
    }
  }

  predicate Assigns(lines: seq<Line>, i: int, key: string) {
    0 <= i < |lines| && lines[i].Assignment? && lines[i].key == key
  }

  /** A variable has a value if and only if it is assigned above, and then that
      of the last assignment. */
  lemma {:induction false} LastAssignmentWins(lines: seq<Line>, i: nat, key: string)
    requires i <= |lines|
    ensures key in EnvAt(lines, i) <==> exists a | 0 <= a < i :: Assigns(lines, a, key)
    ensures forall a | 0 <= a < i && Assigns(lines, a, key) && (forall b | a < b < i :: !Assigns(lines, b, key)) ::
      key in EnvAt(lines, i) && EnvAt(lines, i)[key] == lines[a].value
  {
    if i > 0 {
      LastAssignmentWins(lines, i - 1, key);
      assert Assigns(lines, i - 1, key) <==> lines[i - 1].Assignment? && lines[i - 1].key == key;
    }
  }

  /** The identifier recomputed from a filed line and its entry's environment is
      the key it is filed under. */
  ghost predicate KeysAgree(op: Operator, user: string, entries: seq<CronEntry>) {
    forall j, id | 0 <= j < |entries| && id in entries[j].usercrons ::
      Identifier(op, user, entries[j].usercrons[id], entries[j].envVars) == id
  }

  /** How many entries hold an identifier. */
  ghost function Holders(entries: seq<CronEntry>, id: string): nat {
    if entries == [] then 0
    else Holders(entries[1..], id) + if id in entries[0].usercrons then 1 else 0
  }

  lemma {:induction false} HolderExists(entries: seq<CronEntry>, id: string)
    ensures Holders(entries, id) > 0 <==> exists j | 0 <= j < |entries| :: id in entries[j].usercrons
  {
    if entries != [] {
      HolderExists(entries[1..], id);
      if j :| 0 <= j < |entries[1..]| && id in entries[1..][j].usercrons {
        assert id in entries[j + 1].usercrons;
      }
      if j :| 0 <= j < |entries| && id in entries[j].usercrons {
        assert j > 0 ==> id in entries[1..][j - 1].usercrons;
      }
    }
  }

  lemma {:induction false} TwoHolders(entries: seq<CronEntry>, i: nat, j: nat, id: string)
    requires i < j < |entries| && id in entries[i].usercrons && id in entries[j].usercrons
    ensures Holders(entries, id) >= 2
  {
    if i == 0 {
      assert id in entries[1..][j - 1].usercrons;
      HolderExists(entries[1..], id);
    } else {
      TwoHolders(entries[1..], i - 1, j - 1, id);
    }
  }

  /** Parser and creator agree on identifiers, and the second result has
      exactly the identifiers that some entry holds. */
  lemma IdentifiersAgree(op: Operator, user: string, file: CrontabFile)
    ensures KeysAgree(op, user, EntriesOf(op, user, file))
    ensures forall id ::
      id in AllUsercrons(op, user, file) <==> Holders(EntriesOf(op, user, file), id) > 0
  {
    var entries, all := EntriesOf(op, user, file), AllUsercrons(op, user, file);
    if file.Readable? {
      EntriesAreFaithful(op, user, file.lines);
      FiledKeysAgree(op, user, Parse(file.lines), entries);
    }
    forall id ensures id in all <==> Holders(entries, id) > 0 {
      HolderExists(entries, id);
    }
  }

  lemma FiledKeysAgree(op: Operator, user: string, lines: seq<Line>, entries: seq<CronEntry>)
    requires CommandsFiled(op, user, lines, |lines|, entries)
    requires OnlyCommandsFiled(op, user, lines, |lines|, entries)
    ensures KeysAgree(op, user, entries)
  {
    forall j, id | 0 <= j < |entries| && id in entries[j].usercrons
      ensures Identifier(op, user, entries[j].usercrons[id], entries[j].envVars) == id
    {
      var i :| IsLastCommand(op, user, lines, |lines|, i, j, id, entries[j].usercrons[id]);
      assert FiledIn(op, user, lines, i, entries);
    }
  }

  /** The lines that are neither comments nor blank. */
  function Significant(lines: seq<Line>, n: nat): (r: seq<Line>)
    requires n <= |lines|
  {
    if n == 0 then []
    else if lines[n - 1].Skipped? then Significant(lines, n - 1)
    else Significant(lines, n - 1) + [lines[n - 1]]
  }

  lemma {:induction false} ScanOfPrefix(op: Operator, user: string, a: seq<Line>, b: seq<Line>, n: nat)
    requires n <= |a| && n <= |b| && a[..n] == b[..n]
    ensures ScanTo(op, user, a, n) == ScanTo(op, user, b, n)
  {
    if n > 0 {
      assert a[..n - 1] == a[..n][..n - 1] == b[..n - 1];
      ScanOfPrefix(op, user, a, b, n - 1);
      assert a[n - 1] == a[..n][n - 1] == b[n - 1];
    }
  }

  lemma {:induction false} ScanOfSignificant(op: Operator, user: string, lines: seq<Line>, n: nat)
    requires n <= |lines|
    ensures ScanTo(op, user, lines, n) == ScanTo(op, user, Significant(lines, n), |Significant(lines, n)|)
  {
    if n > 0 {
      ScanOfSignificant(op, user, lines, n - 1);
      var was, now := Significant(lines, n - 1), Significant(lines, n);
      if !lines[n - 1].Skipped? {
        assert now[..|was|] == was[..|was|];
        ScanOfPrefix(op, user, now, was, |was|);
      }
    }
  }

  /** Comments and blank lines do not matter, wherever they are inserted. */
  lemma SkippedLinesDoNotMatter(op: Operator, user: string, a: seq<string>, b: seq<string>)
    requires Significant(Parse(a), |a|) == Significant(Parse(b), |b|)
    ensures EntriesOf(op, user, Readable(a)) == EntriesOf(op, user, Readable(b))
    ensures AllUsercrons(op, user, Readable(a)) == AllUsercrons(op, user, Readable(b))
  {
    ScanOfSignificant(op, user, Parse(a), |a|);
    ScanOfSignificant(op, user, Parse(b), |b|);
  }

  /** A command repeated after its environment is restored, as in `A=1`, `c`,
      `A=2`, `d`, `A=1`, `c`, is held by two entries under one identifier. */
  lemma RestoredEnvironmentHasTwoHolders(op: Operator, user: string, lines: seq<string>, key: string, v: string, w: string)
    requires |lines| == 6 && lines[4] == lines[0] && lines[5] == lines[1]
    requires Classify(lines[0]) == Assignment(key, v) && Classify(lines[2]) == Assignment(key, w)
    requires Classify(lines[1]).Command? && Classify(lines[3]).Command?
    ensures Holders(EntriesOf(op, user, Readable(lines)), Identifier(op, user, lines[1], map[key := v])) >= 2
  {
    var ls, entries := Parse(lines), EntriesOf(op, user, Readable(lines));
    RestoredBlocks(ls, key, v, w, lines[1], lines[3]);
    assert CommandsFiled(op, user, ls, 6, entries) by { EntriesAreFaithful(op, user, lines); }
    FiledTwice(op, user, ls, entries);
  }

  lemma DailyCommand(line: string)
    requires line == "@daily c" || line == "@daily d"
    ensures Classify(line) == Command(line)
  {
    CommandWithoutEquals(line);
  }

  /** The crontab `A=1`, `@daily c`, `A=2`, `@daily d`, `A=1`, `@daily c`. */
  lemma RestoredEnvironmentExample(op: Operator, user: string, lines: seq<string>)
    requires |lines| == 6 && lines[0] == lines[4] == "A=1" && lines[2] == "A=2"
    requires lines[1] == lines[5] == "@daily c" && lines[3] == "@daily d"
    ensures Holders(EntriesOf(op, user, Readable(lines)), Identifier(op, user, lines[1], map["A" := "1"])) >= 2
  {
    hide Classify, Holders, EntriesOf;
    AssignsOne(lines[0]);
    AssignsTwo(lines[2]);
    DailyCommand(lines[1]);
    DailyCommand(lines[3]);
    RestoredEnvironmentHasTwoHolders(op, user, lines, "A", "1", "2");
  }

  lemma AssignsOne(line: string)
    requires line == "A=1"
    ensures Classify(line) == Assignment("A", "1")
  {
    PlainAssignment(line, "A", "1");
  }

  lemma AssignsTwo(line: string)
    requires line == "A=2"
    ensures Classify(line) == Assignment("A", "2")
  {
    PlainAssignment(line, "A", "2");
  }

  lemma FiledTwice(op: Operator, user: string, ls: seq<Line>, entries: seq<CronEntry>)
    requires |ls| == 6 && CommandAt(ls, 1) && CommandAt(ls, 5) && ls[1] == ls[5]
    requires EnvAt(ls, 1) == EnvAt(ls, 5) && BlockAt(ls, 1) < BlockAt(ls, 5)
    requires CommandsFiled(op, user, ls, 6, entries)
    ensures Holders(entries, IdAt(op, user, ls, 1)) >= 2
  {
    assert FiledIn(op, user, ls, 1, entries) && FiledIn(op, user, ls, 5, entries);
    TwoHolders(entries, BlockAt(ls, 1), BlockAt(ls, 5), IdAt(op, user, ls, 1));
  }

  lemma RestoredBlocks(ls: seq<Line>, key: string, v: string, w: string, c: string, d: string)
    requires |ls| == 6 && ls[0] == ls[4] == Assignment(key, v) && ls[2] == Assignment(key, w)
    requires ls[1] == ls[5] == Command(c) && ls[3] == Command(d)
    ensures EnvAt(ls, 1) == EnvAt(ls, 5) == map[key := v]
    ensures BlockAt(ls, 1) < BlockAt(ls, 5)
  {
    assert EnvAt(ls, 1) == map[key := v] == EnvAt(ls, 2);
    assert EnvAt(ls, 3) == map[key := w] == EnvAt(ls, 4);
    assert BlockAt(ls, 1) <= BlockAt(ls, 2) < BlockAt(ls, 3) <= BlockAt(ls, 4) < BlockAt(ls, 5);
  }

  /** With a digest that does not collide, changing the value of one variable
      always changes the identifier. */
  lemma ValueChangeChangesIdentifier(op: Operator, user: string, line: string, env: Env, key: string, v: string, w: string)
    requires forall a, b :: op.md5(a) == op.md5(b) ==> a == b
    ensures Identifier(op, user, line, env[key := v]) == Identifier(op, user, line, env[key := w]) <==> v == w
  {
    OneValueChangeShows(env, key, v, w);
    IdentifierShowsString(op, user, line, env[key := v], env[key := w]);
  }

  lemma IdentifierShowsString(op: Operator, user: string, line: string, env1: Env, env2: Env)
    requires forall a, b :: op.md5(a) == op.md5(b) ==> a == b
    ensures Identifier(op, user, line, env1) == Identifier(op, user, line, env2) <==> MapToString(env1) == MapToString(env2)
  {
    CancelPrefix(user + line + op.image, MapToString(env1), MapToString(env2));
  }

  lemma CancelPrefix(p: string, x: string, y: string)
    ensures p + x == p + y <==> x == y
  {
    assert x == (p + x)[|p|..] && y == (p + y)[|p|..];
  }

  /** Replacing one assignment by another, beside any others, changes the
      identifier exactly when it can be seen in the environment's string. */
  lemma ReplacementChangesIdentifier(op: Operator, user: string, line: string, env: Env,
                                     key: string, v: string, key2: string, v2: string)
    requires forall a, b :: op.md5(a) == op.md5(b) ==> a == b
    requires key !in env && key2 !in env
    ensures Identifier(op, user, line, env[key := v]) == Identifier(op, user, line, env[key2 := v2])
      <==> LooksTheSame(env, key, v, key2, v2)
  {
    ReplacementShows(env, key, v, key2, v2);
    IdentifierShowsString(op, user, line, env[key := v], env[key2 := v2]);
  }

  /** When two lines under two environments share an identifier: the line
      boundary is not marked, so the longer line may go on with what the shorter
      one's image and environment begin with. */
  lemma IdentifiersCoincide(op: Operator, user: string, short: string, env1: Env, long: string, env2: Env)
    requires forall a, b :: op.md5(a) == op.md5(b) ==> a == b
    requires |short| <= |long|
    ensures Identifier(op, user, short, env1) == Identifier(op, user, long, env2)
      <==> short <= long && op.image + MapToString(env1) == long[|short|..] + op.image + MapToString(env2)
  {
    var x, y := op.image + MapToString(env1), op.image + MapToString(env2);
    FourPieces(user, short, op.image, MapToString(env1));
    FourPieces(user, long, op.image, MapToString(env2));
    assert long[|short|..] + op.image + MapToString(env2) == long[|short|..] + y;
    CancelPrefix(user, short + x, long + y);
    CancelLine(short, x, long, y);
  }

  lemma FourPieces(a: string, b: string, c: string, d: string)
    ensures a + b + c + d == a + (b + (c + d))
  {
  }

  lemma CancelLine(short: string, x: string, long: string, y: string)
    requires |short| <= |long|
    ensures short + x == long + y <==> short <= long && x == long[|short|..] + y
  {
    if short + x == long + y {
      assert short == (long + y)[..|short|] == long[..|short|];
      assert x == (long + y)[|short|..] == long[|short|..] + y;
    }
    if short <= long && x == long[|short|..] + y {
      assert short + long[|short|..] == long;
    }
  }

  /** When the lines of two users share an identifier: neither the end of the
      user name nor that of the line is marked. */
  lemma OwnersCoincide(op: Operator, user1: string, line1: string, env1: Env, user2: string, line2: string, env2: Env)
    requires forall a, b :: op.md5(a) == op.md5(b) ==> a == b
    requires |user1 + line1| <= |user2 + line2|
    ensures var owned1, owned2 := user1 + line1, user2 + line2;
      Identifier(op, user1, line1, env1) == Identifier(op, user2, line2, env2) <==>
      (owned1 <= owned2 && op.image + MapToString(env1) == owned2[|owned1|..] + op.image + MapToString(env2))
  {
    var owned1, owned2 := user1 + line1, user2 + line2;
    ThreePieces(owned1, op.image, MapToString(env1));
    ThreePieces(owned2, op.image, MapToString(env2));
    ThreePieces(owned2[|owned1|..], op.image, MapToString(env2));
    CancelLine(owned1, op.image + MapToString(env1), owned2, op.image + MapToString(env2));
  }

  lemma ThreePieces(a: string, b: string, c: string)
    ensures a + b + c == a + (b + c)
  {
  }

  /** One line under one environment has a different identifier for every user. */
  lemma UsersAreToldApart(op: Operator, user1: string, user2: string, line: string, env: Env)
    requires forall a, b :: op.md5(a) == op.md5(b) ==> a == b
    ensures Identifier(op, user1, line, env) == Identifier(op, user2, line, env) <==> user1 == user2
  {
    var rest := line + (op.image + MapToString(env));
    FourPieces(user1, line, op.image, MapToString(env));
    FourPieces(user2, line, op.image, MapToString(env));
    if user1 + rest == user2 + rest {
      assert |user1| == |user2|;
      assert user1 == (user1 + rest)[..|user1|] && user2 == (user2 + rest)[..|user2|];
    }
  }

  /** Under one environment different lines have different identifiers. */
  lemma LinesAreToldApart(op: Operator, user: string, line1: string, line2: string, env: Env)
    requires forall a, b :: op.md5(a) == op.md5(b) ==> a == b
    ensures Identifier(op, user, line1, env) == Identifier(op, user, line2, env) <==> line1 == line2
  {
    if |line1| <= |line2| {
      IdentifiersCoincide(op, user, line1, env, line2, env);
    } else {
      IdentifiersCoincide(op, user, line2, env, line1, env);
    }
  }

  /** A line under a variable whose value is the image shares its identifier with
      the line that has the image and the variable's name at its end. */
  lemma LineBoundaryIsNotMarked(op: Operator, user: string, line: string, key: string)
    ensures Identifier(op, user, line, map[key := op.image]) == Identifier(op, user, line + op.image + key, map[])
  {
    MapToStringOfOne(key, op.image);
    var none: Env := map[];
    assert MapToString(none) == "" by { MapToStringIsCanonical([], none); }
    Reassociate(user, line, op.image, key);
  }

  lemma Reassociate(user: string, line: string, image: string, key: string)
    ensures user + line + image + (key + image) == user + (line + image + key) + image + ""
  {
  }

  /** Moving a character from a value to the name, as from `A=BC` to `AB=C`,
      changes the environment of a command and leaves its identifier alone. */
  lemma RegroupedAssignmentIsNotSeen(op: Operator, user: string, a: seq<string>, b: seq<string>)
    requires |a| == |b| == 2 && a[1] == b[1] && Classify(a[1]).Command?
    requires Classify(a[0]) == Assignment("A", "BC") && Classify(b[0]) == Assignment("AB", "C")
    ensures AllUsercrons(op, user, Readable(a)) == AllUsercrons(op, user, Readable(b))
    ensures EntriesOf(op, user, Readable(a))[0].envVars != EntriesOf(op, user, Readable(b))[0].envVars
  {
    OneCommand(op, user, a, "A", "BC");
    OneCommand(op, user, b, "AB", "C");
    MapToStringNotInjective();
  }

  lemma RegroupedExample(op: Operator, user: string, a: seq<string>, b: seq<string>)
    requires |a| == |b| == 2 && a[0] == "A=BC" && b[0] == "AB=C" && a[1] == b[1] == "@daily c"
    ensures AllUsercrons(op, user, Readable(a)) == AllUsercrons(op, user, Readable(b))
    ensures EntriesOf(op, user, Readable(a))[0].envVars != EntriesOf(op, user, Readable(b))[0].envVars
  {
    hide Classify, AllUsercrons, EntriesOf;
    NameOfOne(a[0]);
    NameOfTwo(b[0]);
    DailyCommand(a[1]);
    RegroupedAssignmentIsNotSeen(op, user, a, b);
  }

  lemma NameOfOne(line: string)
    requires line == "A=BC"
    ensures Classify(line) == Assignment("A", "BC")
  {
    PlainAssignment(line, "A", "BC");
  }

  lemma NameOfTwo(line: string)
    requires line == "AB=C"
    ensures Classify(line) == Assignment("AB", "C")
  {
    PlainAssignment(line, "AB", "C");
  }

  lemma OneCommand(op: Operator, user: string, lines: seq<string>, key: string, value: string)
    requires |lines| == 2 && Classify(lines[0]) == Assignment(key, value) && Classify(lines[1]).Command?
    ensures AllUsercrons(op, user, Readable(lines)) == map[Identifier(op, user, lines[1], map[key := value]) := lines[1]]
    ensures EntriesOf(op, user, Readable(lines)) == [CronEntry(map[key := value], AllUsercrons(op, user, Readable(lines)))]
  {
    hide Classify, Identifier;
    var ls := Parse(lines);
    assert ScanTo(op, user, ls, 0) == Scan([], map[], map[], map[], false);
    assert ScanTo(op, user, ls, 1) == Scan([], map[], map[], map[key := value], false);
    assert ScanTo(op, user, ls, 2) == ScanLine(op, user, ScanTo(op, user, ls, 1), ls[1]);
  }

  /** A crontab of one command. */
  lemma OneLine(op: Operator, user: string, line: string)
    requires Classify(line) == Command(line)
    ensures EntriesOf(op, user, Readable([line])) == [CronEntry(map[], AllUsercrons(op, user, Readable([line])))]
    ensures AllUsercrons(op, user, Readable([line])) == map[Identifier(op, user, line, map[]) := line]
  {
    var ls := Parse([line]);
    assert ScanTo(op, user, ls, 0) == Scan([], map[], map[], map[], false);
    assert ScanTo(op, user, ls, 1) == ScanLine(op, user, ScanTo(op, user, ls, 0), ls[0]);
  }

  /** With the text itself for a digest, the crontab `A=1`, `@daily c` of `alice`
      is filed under user, line, image and environment, in that order. */
  lemma KeySpelledOut(op: Operator, user: string, lines: seq<string>, key: string)
    requires user == "alice" && op.image == "i" && forall s :: op.md5(s) == s
    requires |lines| == 2 && lines[0] == "A=1" && lines[1] == "@daily c" && key == "alice@daily ciA1"
    ensures AllUsercrons(op, user, Readable(lines)) == map[key := lines[1]]
    ensures EntriesOf(op, user, Readable(lines)) == [CronEntry(map["A" := "1"], map[key := lines[1]])]
  {
    hide Classify, AllUsercrons, EntriesOf;
    AssignsOne(lines[0]);
    DailyCommand(lines[1]);
    OneCommand(op, user, lines, "A", "1");
    SpelledIdentifier(op, user, lines[1], "A", "1");
    SpelledKey(user, lines[1], op.image, "A" + "1", key);
  }

  lemma SpelledIdentifier(op: Operator, user: string, line: string, name: string, value: string)
    requires forall s :: op.md5(s) == s
    ensures Identifier(op, user, line, map[name := value]) == user + line + op.image + (name + value)
  {
    MapToStringOfOne(name, value);
  }

  lemma SpelledKey(user: string, line: string, image: string, env: string, key: string)
    requires user == "alice" && line == "@daily c" && image == "i" && env == "A1" && key == "alice@daily ciA1"
    ensures user + line + image + env == key
  {
  }
}
