/** Absolute, clean paths as `path/filepath` treats them. */
module Paths {

  /** Index of the last slash, or -1. */
  function LastSlash(p: string): (i: int)
    ensures -1 <= i < |p| && (i >= 0 ==> p[i] == '/')
    ensures forall j | i < j < |p| :: p[j] != '/'
  {
    if p == "" then -1
    else if p[|p| - 1] == '/' then |p| - 1
    else LastSlash(p[..|p| - 1])
  }

  function Dir(p: string): string {
    var i := LastSlash(p);
    if i < 0 then "." else if i == 0 then "/" else p[..i]
  }

  function Base(p: string): string {
    if p == "" then "." else if p == "/" then "/" else p[LastSlash(p) + 1..]
  }

  function Join(dir: string, name: string): string {
    if dir == "/" then "/" + name else dir + "/" + name
  }

  predicate IsHiddenFile(p: string) {
    "." <= Base(p)
  }

  /** `p` is `dir` or lies below it, by path components. */
  predicate Under(dir: string, p: string) {
    p == dir || Join(dir, "") <= p
  }

  /** The name of a directory's entry. */
  predicate IsEntryName(name: string) {
    name != "" && '/' !in name
  }

  predicate IsClean(p: string) {
    p == "/" || (p != "" && p[|p| - 1] != '/')
  }

  lemma LastSlashOfJoin(dir: string, name: string)
    requires '/' !in name && dir != ""
    ensures LastSlash(Join(dir, name)) == |Join(dir, "")| - 1
  {
    var p, i := Join(dir, name), |Join(dir, "")| - 1;
    assert p[i] == '/' && forall j | i < j < |p| :: p[j] == name[j - i - 1] && name[j - i - 1] in name;
  }

  /** A joined name is taken apart again. */
  lemma JoinRoundTrip(dir: string, name: string)
    requires IsEntryName(name) && IsClean(dir)
    ensures Base(Join(dir, name)) == name && Dir(Join(dir, name)) == dir && IsClean(Join(dir, name))
  {
    LastSlashOfJoin(dir, name);
  }

  /** A directory's entry is hidden if and only if its name begins with a dot. */
  lemma HiddenByName(dir: string, name: string)
    requires IsEntryName(name) && IsClean(dir)
    ensures IsHiddenFile(Join(dir, name)) <==> name[0] == '.'
  {
    JoinRoundTrip(dir, name);
  }
}
