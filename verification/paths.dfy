/**
 The directory part of a POSIX path, as Python's `os.path.dirname` computes it:
 everything up to and including the last `/`, with trailing slashes removed
 unless the part is made of slashes only.
 */
module Paths {

  predicate AllSlashes(s: string)
  {
    forall i :: 0 <= i < |s| ==> s[i] == '/'
  }

  /** The index just past the last `/` of `p`, or 0 when there is none. */
  function AfterLastSlash(p: string): (i: nat)
    ensures i <= |p|
    ensures i > 0 ==> p[i - 1] == '/'
    ensures '/' !in p[i..]
  {
    if |p| == 0 then 0
    else if p[|p| - 1] == '/' then |p|
    else
      var i := AfterLastSlash(p[..|p| - 1]);
      assert p[i..] == p[..|p| - 1][i..] + [p[|p| - 1]];
      i
  }

  function StripTrailingSlashes(s: string): (r: string)
    ensures r <= s
    ensures r == "" || r[|r| - 1] != '/'
    ensures AllSlashes(s[|r|..])
  {
    if |s| > 0 && s[|s| - 1] == '/' then
      var r := StripTrailingSlashes(s[..|s| - 1]);
      assert s[|r|..] == s[..|s| - 1][|r|..] + ['/'];
      r
    else s
  }

  function Dirname(p: string): (r: string)
    ensures r <= p
    ensures '/' !in p ==> r == ""
    ensures '/' in p ==> r != ""
    ensures r == "" || AllSlashes(r) || r[|r| - 1] != '/'
  {
    var head := p[..AfterLastSlash(p)];
    if head != "" && !AllSlashes(head) then StripTrailingSlashes(head) else head
  }

  /** A name without slashes under a directory that does not end in a slash has
      that directory as its dirname: `dirname("/home/users/foo") == "/home/users"`. */
  lemma DirnameOfChild(dir: string, base: string)
    requires dir != "" && dir[|dir| - 1] != '/'
    requires '/' !in base
    ensures Dirname(dir + "/" + base) == dir
  {
    var p := dir + "/" + base;
    AfterLastSlashOfChild(dir + "/", base);
    assert p[..|dir| + 1] == dir + "/";
    assert !AllSlashes(dir + "/") by {
      assert (dir + "/")[|dir| - 1] != '/';
    }
    assert (dir + "/")[..|dir|] == dir;
  }

  /** A name without slashes directly under the root has the root as its dirname. */
  lemma DirnameOfRootChild(base: string)
    requires '/' !in base
    ensures Dirname("/" + base) == "/"
  {
    AfterLastSlashOfChild("/", base);
    assert ("/" + base)[..1] == "/";
  }

  lemma {:induction false} AfterLastSlashOfChild(dir: string, base: string)
    requires dir != "" && dir[|dir| - 1] == '/'
    requires '/' !in base
    ensures AfterLastSlash(dir + base) == |dir|
    decreases |base|
  {
    if |base| == 0 {
      assert dir + base == dir;
    } else {
      var p := dir + base;
      assert p[..|p| - 1] == dir + base[..|base| - 1];
      assert p[|p| - 1] == base[|base| - 1];
      assert base[|base| - 1] in base;
      AfterLastSlashOfChild(dir, base[..|base| - 1]);
    }
  }
}
