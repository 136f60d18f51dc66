/**
 * The parts of `pathlib` the engine relies on: joining a directory with a
 * name (`dir / name`), the last component (`.name`) and its stem (`.stem`).
 * Paths are POSIX strings with `/` as separator.
 */
module Paths {

  /** The index of the last occurrence of `c` in `s`, or -1 (Python's `str.rfind`). */
  function LastIndex(s: string, c: char): (r: int)
    ensures -1 <= r < |s|
    ensures r >= 0 ==> s[r] == c && c !in s[r + 1..]
    ensures r == -1 ==> c !in s
  {
    if s == [] then -1
    else if s[|s| - 1] == c then |s| - 1
    else
      assert s == s[..|s| - 1] + [s[|s| - 1]];
      LastIndex(s[..|s| - 1], c)
  }

  /** `s` ends with `suffix` (Python's `str.endswith`). */
  predicate EndsWith(s: string, suffix: string)
  {
    |suffix| <= |s| && s[|s| - |suffix|..] == suffix
  }

  /**
   * `Path(dir) / name` for a single-component or absolute `name`: an absolute
   * right operand replaces the left one, and `""` or `"."` adds nothing.
   */
  function Join(dir: string, name: string): (r: string)
    // an absolute name replaces the directory
    ensures |name| > 0 && name[0] == '/' ==> r == name
    // otherwise the result lies inside the directory
    ensures !(|name| > 0 && name[0] == '/') ==> |dir| <= |r| && r[..|dir|] == dir
    // the empty name and "." add nothing; any other name ends the result
    ensures name == "" || name == "." ==> r == dir
    ensures r != dir ==> EndsWith(r, name)
  {
    if |name| > 0 && name[0] == '/' then name
    else if name == "" || name == "." then dir
    else dir + "/" + name
  }

  /** `PurePath.name`: the text after the last `/`. */
  function Name(p: string): (r: string)
    ensures '/' !in r
    ensures EndsWith(p, r)
  {
    p[LastIndex(p, '/') + 1..]
  }

  /** The name is the whole last component: all of `p`, or everything after its last `/`. */
  lemma NameIsLastComponent(p: string)
    ensures |Name(p)| == |p| || p[|p| - |Name(p)| - 1] == '/'
  {
  }

  /**
   * `PurePath.stem`: the name without its last suffix, where a suffix starts at
   * the last `.` provided that dot is neither the first nor the last character.
   */
  function Stem(name: string): string
  {
    var i := LastIndex(name, '.');
    if 0 < i < |name| - 1 then name[..i] else name
  }

  /**
   * `.stem` cuts a suffix exactly when the last dot is neither the first nor
   * the last character, and then cuts at that dot, leaving something after it.
   */
  lemma StemCharacterised(name: string)
    ensures Stem(name) == name <==> name == [] || '.' !in name[1..] || name[|name| - 1] == '.'
    ensures Stem(name) != name ==>
      var k := |Stem(name)|;
      0 < k < |name| - 1 && name[k] == '.' && '.' !in name[k + 1..]
  {
    var i := LastIndex(name, '.');
    if 0 < i < |name| - 1 {
      assert name[1..][i - 1] == name[i];
    }
  }

  /** The name of a child of `dir` is the child's own name. */
  lemma NameOfChild(dir: string, n: string)
    requires '/' !in n
    ensures Name(dir + "/" + n) == n
  {
    var p := dir + "/" + n;
    var r := LastIndex(p, '/');
    assert p[|dir|] == '/';
    assert p[|dir| + 1..] == n;
  }

  /** The stem of `<s>.wav`, with `s` non-empty, is `s`. */
  lemma StemOfWav(s: string)
    requires s != []
    ensures Stem(s + ".wav") == s
  {
    var n := s + ".wav";
    var i := LastIndex(n, '.');
    assert n[|s|] == '.';
    assert n[..|s|] == s;
  }
}
