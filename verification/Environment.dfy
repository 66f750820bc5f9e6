/**
 The environment of a command and the string that stands for it in a job
 identifier.
 */
module Environment {
  import opened Text

  type Env = map<string, string>

  ghost predicate StrictlySorted(keys: seq<string>) {
    forall i, j | 0 <= i < j < |keys| :: Less(keys[i], keys[j])
  }

  ghost predicate Sorted(keys: seq<string>) {
    forall i, j | 0 <= i < j < |keys| :: keys[i] == keys[j] || Less(keys[i], keys[j])
  }

  /** `keys` lists every name of `env` once, in `sort.Strings` order. */
  ghost predicate Enumerates(keys: seq<string>, env: Env) {
    StrictlySorted(keys) && forall k :: k in keys <==> k in env
  }

  ghost function SortedKeys(names: set<string>): (keys: seq<string>)
    ensures StrictlySorted(keys)
    ensures forall k :: k in keys <==> k in names
    decreases |names|
  {
    if names == {} then []
    else
      var k :| k in names;
      var rest := SortedKeys(names - {k});
      InsertStaysStrict(k, rest);
      Insert(k, rest)
  }

  function Insert(k: string, keys: seq<string>): (r: seq<string>)
    ensures multiset(r) == multiset(keys) + multiset{k}
    ensures forall x :: x in r <==> x == k || x in keys
  {
    if keys == [] || k == keys[0] || Less(k, keys[0]) then [k] + keys
    else
      assert keys == [keys[0]] + keys[1..];
      [keys[0]] + Insert(k, keys[1..])
  }

  lemma {:induction false} InsertStaysSorted(k: string, keys: seq<string>)
    requires Sorted(keys)
    ensures Sorted(Insert(k, keys))
  {
    if keys == [] {
    } else if k == keys[0] || Less(k, keys[0]) {
      forall j | 0 <= j < |keys| ensures k == keys[j] || Less(k, keys[j]) {
        if j > 0 && keys[0] != keys[j] && k != keys[0] { LessTransitive(k, keys[0], keys[j]); }
      }
    } else {
      LessTotal(k, keys[0]);
      InsertStaysSorted(k, keys[1..]);
      var rest := Insert(k, keys[1..]);
      forall j | 0 <= j < |rest| ensures keys[0] == rest[j] || Less(keys[0], rest[j]) {
        assert rest[j] in rest;
        assert rest[j] == k || rest[j] in keys[1..];
      }
    }
  }

  lemma {:induction false} InsertStaysStrict(k: string, keys: seq<string>)
    requires StrictlySorted(keys) && k !in keys
    ensures StrictlySorted(Insert(k, keys))
  {
    if keys == [] {
    } else if Less(k, keys[0]) {
      forall j | 0 <= j < |keys| ensures Less(k, keys[j]) {
        if j > 0 { LessTransitive(k, keys[0], keys[j]); }
      }
    } else {
      LessTotal(k, keys[0]);
      InsertStaysStrict(k, keys[1..]);
      var rest := Insert(k, keys[1..]);
      forall j | 0 <= j < |rest| ensures Less(keys[0], rest[j]) {
        assert rest[j] in rest;
        assert rest[j] == k || rest[j] in keys[1..];
      }
    }
  }

  lemma MemberExists(s: seq<string>)
    ensures s != [] ==> exists k :: k in s
  {
    if s != [] {
      assert s[0] in s;
    }
  }

  /** Two sorted listings of the same names are the same listing. */
  lemma {:induction false} SortedListingUnique(a: seq<string>, b: seq<string>)
    requires StrictlySorted(a) && StrictlySorted(b)
    requires forall k :: k in a <==> k in b
    ensures a == b
  {
    if a == [] {
      MemberExists(b);
    } else {
      assert a[0] in a && a[0] in b;
      assert b[0] in b && b[0] in a;
      var i :| 0 <= i < |a| && a[i] == b[0];
      var j :| 0 <= j < |b| && b[j] == a[0];
      assert a[0] == b[0] by { LessTotal(a[0], b[0]); }
      forall k ensures k in a[1..] <==> k in b[1..] {
        TailMembership(a, k);
        TailMembership(b, k);
      }
      SortedListingUnique(a[1..], b[1..]);
      assert a == [a[0]] + a[1..] && b == [b[0]] + b[1..];
    }
  }

  lemma TailMembership(s: seq<string>, k: string)
    requires s != [] && StrictlySorted(s)
    ensures k in s[1..] <==> k in s && k != s[0]
  {
    LessIrreflexive(s[0]);
    if k in s[1..] {
      var i :| 0 <= i < |s| - 1 && s[1..][i] == k;
      assert s[i + 1] == k;
    }
    if k in s && k != s[0] {
      var i :| 0 <= i < |s| && s[i] == k;
      assert s[1..][i - 1] == k;
    }
  }

  /** Each listed name followed by its value. */
  function Render(keys: seq<string>, env: Env): string
    requires forall k | k in keys :: k in env
  {
    if keys == [] then "" else keys[0] + env[keys[0]] + Render(keys[1..], env)
  }

  ghost function MapToString(env: Env): string {
    Render(SortedKeys(env.Keys), env)
  }

  /** The string is a function of the map alone: whatever order the names were
      collected in, sorting them leaves one listing. */
  lemma MapToStringIsCanonical(keys: seq<string>, env: Env)
    requires Enumerates(keys, env)
    ensures Render(keys, env) == MapToString(env)
  {
    SortedListingUnique(keys, SortedKeys(env.Keys));
  }

  /** `sort.Strings`. */
  method SortStrings(keys: seq<string>) returns (r: seq<string>)
    ensures Sorted(r) && multiset(r) == multiset(keys)
  {
    r := [];
    for n := 0 to |keys|
      invariant Sorted(r) && multiset(r) == multiset(keys[..n])
    {
      InsertStaysSorted(keys[n], r);
      r := Insert(keys[n], r);
      assert keys[..n + 1] == keys[..n] + [keys[n]];
    }
    assert keys[..|keys|] == keys;
  }

  /** The names of a map, each once, in whatever order the map yields them. */
  method CollectKeys(env: Env) returns (keys: seq<string>)
    ensures multiset(keys) == multiset(env.Keys)
  {
    keys := [];
    var todo := env.Keys;
    while todo != {}
      invariant todo <= env.Keys
      invariant multiset(keys) == multiset(env.Keys - todo)
      decreases |todo|
    {
      var k :| k in todo;
      assert env.Keys - (todo - {k}) == (env.Keys - todo) + {k};
      todo := todo - {k};
      keys := keys + [k];
    }
    assert env.Keys - todo == env.Keys;
  }

  /** `sort.Strings` on the collected names, then each name with its value. */
  method ConvertMapToString(env: Env) returns (s: string)
    ensures s == MapToString(env)
  {
    var keys := CollectKeys(env);
    keys := SortStrings(keys);
    SortedPermutationEnumerates(keys, env);
    MapToStringIsCanonical(keys, env);
    s := "";
    for n := 0 to |keys|
      invariant s + Render(keys[n..], env) == MapToString(env)
    {
      assert keys[n..][1..] == keys[n + 1..];
      s := s + (keys[n] + env[keys[n]]);
    }
  }

  lemma SortedPermutationEnumerates(keys: seq<string>, env: Env)
    requires Sorted(keys) && multiset(keys) == multiset(env.Keys)
    ensures Enumerates(keys, env)
  {
    forall k ensures k in keys <==> k in env {
      assert k in keys <==> k in multiset(keys);
    }
    forall i, j | 0 <= i < j < |keys| ensures Less(keys[i], keys[j]) {
      assert keys == keys[..j] + keys[j..];
      assert keys[i] in keys[..j] && keys[j] in keys[j..];
      assert multiset(keys)[keys[j]] <= 1;
      assert multiset(keys)[keys[j]] == multiset(keys[..j])[keys[j]] + multiset(keys[j..])[keys[j]];
    }
  }

  /** Changing the value of one variable always changes the string. */
  lemma OneValueChangeShows(env: Env, k: string, v: string, w: string)
    ensures MapToString(env[k := v]) == MapToString(env[k := w]) <==> v == w
  {
    var a, b := env[k := v], env[k := w];
    assert a.Keys == b.Keys;
    assert k in SortedKeys(a.Keys);
    RenderDiffers(SortedKeys(a.Keys), a, b, k);
  }

  lemma {:induction false} RenderDiffers(keys: seq<string>, a: Env, b: Env, k: string)
    requires StrictlySorted(keys) && k in keys
    requires forall x | x in keys :: x in a && x in b && (x != k ==> a[x] == b[x])
    ensures Render(keys, a) == Render(keys, b) <==> a[k] == b[k]
  {
    TailMembership(keys, k);
    if keys[0] == k {
      RenderAgrees(keys[1..], a, b);
      var r := Render(keys[1..], a);
      if k + a[k] + r == k + b[k] + r {
        assert |a[k]| == |b[k]|;
        assert a[k] == (k + a[k] + r)[|k|..|k| + |a[k]|];
        assert b[k] == (k + b[k] + r)[|k|..|k| + |b[k]|];
      }
    } else {
      RenderDiffers(keys[1..], a, b, k);
      var p := keys[0] + a[keys[0]];
      var x, y := Render(keys[1..], a), Render(keys[1..], b);
      assert x == (p + x)[|p|..] && y == (p + y)[|p|..];
    }
  }

  lemma {:induction false} RenderAgrees(keys: seq<string>, a: Env, b: Env)
    requires forall x | x in keys :: x in a && x in b && a[x] == b[x]
    ensures Render(keys, a) == Render(keys, b)
  {
    if keys != [] {
      assert keys[0] in keys;
      RenderAgrees(keys[1..], a, b);
    }
  }

  lemma MapToStringOfOne(k: string, v: string)
    ensures MapToString(map[k := v]) == k + v
  {
    MapToStringIsCanonical([k], map[k := v]);
    assert Render([k], map[k := v]) == k + v + Render([], map[k := v]);
  }

  /** Names come in ascending order, each followed by its value. */
  lemma TwoVariablesInOrder(a: string, b: string)
    requires a == "A" && b == "B"
    ensures MapToString(map[a := "1", b := "2"]) == "A1B2"
  {
    var env := map[a := "1", b := "2"];
    assert Less(a, b) && env.Keys == {a, b};
    MapToStringIsCanonical([a, b], env);
    assert Render([a, b], env) == a + "1" + Render([b], env) && Render([b], env) == b + "2" + Render([], env) by {
      assert [a, b][1..] == [b] && [b][1..] == [];
    }
  }

  /** Different environments can share a string: no separator is written
      between a name and its value. */
  lemma MapToStringNotInjective()
    ensures MapToString(map["A" := "BC"]) == MapToString(map["AB" := "C"])
    ensures map["A" := "BC"] != map["AB" := "C"]
  {
    MapToStringOfOne("A", "BC");
    MapToStringOfOne("AB", "C");
    assert "A" + "BC" == "AB" + "C";
    assert |"A"| != |"AB"| && "A" !in map["AB" := "C"];
  }

  // ------------------------------------- which replaced assignments are seen

  lemma {:induction false} RenderSum(a: seq<string>, b: seq<string>, env: Env)
    requires (forall k | k in a :: k in env) && (forall k | k in b :: k in env)
    ensures forall k | k in a + b :: k in env
    ensures Render(a + b, env) == Render(a, env) + Render(b, env)
  {
    if a == [] {
      assert a + b == b;
    } else {
      assert (a + b)[1..] == a[1..] + b;
      RenderSum(a[1..], b, env);
    }
  }

  lemma SortedSum(a: seq<string>, b: seq<string>)
    requires StrictlySorted(a) && StrictlySorted(b) && forall x, y | x in a && y in b :: Less(x, y)
    ensures StrictlySorted(a + b)
  {
    var s := a + b;
    forall i, j | 0 <= i < j < |s| ensures Less(s[i], s[j]) {
      if i < |a| <= j { assert s[i] in a && s[j] in b; }
    }
  }

  function Below(env: Env, k: string): set<string> {
    set x | x in env && Less(x, k)
  }

  function Above(env: Env, k: string): set<string> {
    set x | x in env && Less(k, x)
  }

  /** What is written for some of the names. */
  ghost function Written(env: Env, names: set<string>): string
    requires names <= env.Keys
  {
    Render(SortedKeys(names), env)
  }

  /** What is written for the names that sort between `k` and `k2`. */
  ghost function Between(env: Env, k: string, k2: string): string {
    Written(env, Above(env, k) * Below(env, k2))
  }

  /** The string of an environment, cut at one of its names. */
  lemma CutAt(env: Env, k: string, v: string)
    requires k !in env
    ensures MapToString(env[k := v]) == Written(env, Below(env, k)) + (k + v) + Written(env, Above(env, k))
  {
    var low, high, all := SortedKeys(Below(env, k)), SortedKeys(Above(env, k)), env[k := v];
    CutEnumerates(env, k, v, low, high);
    MapToStringIsCanonical(low + [k] + high, all);
    assert Render(low, all) == Written(env, Below(env, k)) by { RenderAgrees(low, all, env); }
    assert Render(high, all) == Written(env, Above(env, k)) by { RenderAgrees(high, all, env); }
    RenderAround(low, k, high, all);
  }

  lemma RenderAround(low: seq<string>, k: string, high: seq<string>, env: Env)
    requires (forall x | x in low :: x in env) && k in env && (forall x | x in high :: x in env)
    ensures forall x | x in low + [k] + high :: x in env
    ensures Render(low + [k] + high, env) == Render(low, env) + (k + env[k]) + Render(high, env)
  {
    RenderSum(low + [k], high, env);
    RenderSum(low, [k], env);
    assert Render([k], env) == k + env[k] + Render([], env);
  }

  lemma CutEnumerates(env: Env, k: string, v: string, low: seq<string>, high: seq<string>)
    requires k !in env && low == SortedKeys(Below(env, k)) && high == SortedKeys(Above(env, k))
    ensures Enumerates(low + [k] + high, env[k := v])
  {
    LessIrreflexive(k);
    SortedSum(low, [k]);
    forall x, y | x in low + [k] && y in high ensures Less(x, y) {
      if x != k { LessTransitive(x, k, y); }
    }
    SortedSum(low + [k], high);
    forall x ensures x in low + [k] + high <==> x in env[k := v] {
      if x in env { LessTotal(x, k); }
    }
  }

  /** The names on both sides of a cut of a set of names. */
  lemma WrittenSum(env: Env, a: set<string>, b: set<string>)
    requires a + b <= env.Keys && forall x, y | x in a && y in b :: Less(x, y)
    ensures Written(env, a + b) == Written(env, a) + Written(env, b)
  {
    var s, t := SortedKeys(a), SortedKeys(b);
    SortedSum(s, t);
    SortedListingUnique(s + t, SortedKeys(a + b));
    RenderSum(s, t, env);
  }

  lemma NamesBetween(env: Env, k: string, k2: string)
    requires k !in env && k2 !in env && Less(k, k2)
    ensures Written(env, Below(env, k2)) == Written(env, Below(env, k)) + Between(env, k, k2)
    ensures Written(env, Above(env, k)) == Between(env, k, k2) + Written(env, Above(env, k2))
  {
    var low, mid, high := Below(env, k), Above(env, k) * Below(env, k2), Above(env, k2);
    forall x | x in env ensures x in low <==> x !in Above(env, k) { LessTotal(x, k); NotBoth(x, k); }
    forall x | x in env ensures x in high <==> x !in Below(env, k2) { LessTotal(x, k2); NotBoth(x, k2); }
    forall x | x in low ensures x in Below(env, k2) { LessTransitive(x, k, k2); }
    forall x | x in high ensures x in Above(env, k) { LessTransitive(k, k2, x); }
    assert low + mid == Below(env, k2) && mid + high == Above(env, k);
    forall x, y | x in low && y in mid ensures Less(x, y) { LessTransitive(x, k, y); }
    forall x, y | x in mid && y in high ensures Less(x, y) { LessTransitive(x, k2, y); }
    WrittenSum(env, low, mid);
    WrittenSum(env, mid, high);
  }

  lemma NotBoth(x: string, k: string)
    ensures !(Less(x, k) && Less(k, x))
  {
    LessIrreflexive(x);
    if Less(x, k) && Less(k, x) { LessTransitive(x, k, x); }
  }

  /** Replacing `k` with value `v` by `k2` with value `v2` cannot be seen in the
      string. */
  ghost predicate LooksTheSame(env: Env, k: string, v: string, k2: string, v2: string) {
    if k == k2 then v == v2
    else if Less(k, k2) then k + v + Between(env, k, k2) == Between(env, k, k2) + (k2 + v2)
    else k2 + v2 + Between(env, k2, k) == Between(env, k2, k) + (k + v)
  }

  /** Whether replacing one assignment by another, beside any others, shows in
      the string depends only on the two and on what is written between them. */
  lemma ReplacementShows(env: Env, k: string, v: string, k2: string, v2: string)
    requires k !in env && k2 !in env
    ensures MapToString(env[k := v]) == MapToString(env[k2 := v2]) <==> LooksTheSame(env, k, v, k2, v2)
  {
    if k == k2 {
      OneValueChangeShows(env, k, v, v2);
    } else {
      LessTotal(k, k2);
      if Less(k, k2) { OrderedReplacementShows(env, k, v, k2, v2); } else { OrderedReplacementShows(env, k2, v2, k, v); }
    }
  }

  lemma OrderedReplacementShows(env: Env, k: string, v: string, k2: string, v2: string)
    requires k !in env && k2 !in env && Less(k, k2)
    ensures MapToString(env[k := v]) == MapToString(env[k2 := v2])
      <==> k + v + Between(env, k, k2) == Between(env, k, k2) + (k2 + v2)
  {
    var low, mid, high := Written(env, Below(env, k)), Between(env, k, k2), Written(env, Above(env, k2));
    NamesBetween(env, k, k2);
    CutAt(env, k, v);
    CutAt(env, k2, v2);
    Regroup(low, k + v, mid, high);
    Regroup(low, mid, k2 + v2, high);
    CancelBoth(low, k + v + mid, mid + (k2 + v2), high);
  }

  lemma Regroup(a: string, b: string, c: string, d: string)
    ensures a + b + (c + d) == a + (b + c) + d == (a + b) + c + d
  {
  }

  lemma CancelBoth(a: string, x: string, y: string, b: string)
    ensures a + x + b == a + y + b <==> x == y
  {
    if a + x + b == a + y + b {
      assert |x| == |y|;
      assert x == (a + x + b)[|a|..|a| + |x|] && y == (a + y + b)[|a|..|a| + |y|];
    }
  }
}
