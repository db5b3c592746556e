/** File names and paths on the card (components/stark_storage/storage_path.c). */
module StoragePath {
  import opened Stark

  const NAME_MAX := 32
  const PATH_MAX := 80
  const TMP := ".tmp"

  datatype Dir = Captures | Logs | Apps | Config

  function DirName(d: Dir): (n: string)
    ensures n != ""
  {
    match d
    case Captures => "captures"
    case Logs => "logs"
    case Apps => "apps"
    case Config => "config"
  }

  predicate NameChar(c: char) {
    'a' <= c <= 'z' || 'A' <= c <= 'Z' || '0' <= c <= '9' || c == '.' || c == '_' || c == '-'
  }

  predicate IsTmp(s: string) {
    |s| >= |TMP| && s[|s| - |TMP|..] == TMP
  }

  predicate NameValid(name: string) {
    && 0 < |name| <= NAME_MAX && name[0] != '.' && !IsTmp(name)
    && forall k :: 0 <= k < |name| ==> NameChar(name[k])
  }

  function DirPath(root: string, d: Dir): string {
    root + "/stark/" + DirName(d)
  }

  /** None when the name is bad or the path does not fit its buffer with the final NUL. */
  function BuildPath(root: string, d: Dir, name: string, tmp: bool): Option<string> {
    var path := DirPath(root, d) + "/" + name + (if tmp then TMP else "");
    if NameValid(name) && |path| < PATH_MAX then Some(path) else None
  }

  /** A final name is never a temporary one, so no atomic write in progress is ever reached
      through a final name, and the temporary name determines the final one. */
  lemma {:induction false} FinalIsNotTmp(root: string, d: Dir, name: string)
    requires BuildPath(root, d, name, false).Some?
    ensures !IsTmp(BuildPath(root, d, name, false).value)
    ensures BuildPath(root, d, name, true).Some? ==>
              BuildPath(root, d, name, true).value == BuildPath(root, d, name, false).value + TMP
  {
    var dir := DirPath(root, d) + "/";
    var path := dir + name;
    assert path + "" == path == BuildPath(root, d, name, false).value;
    if |name| >= |TMP| {
      assert path[|path| - |TMP|..] == name[|name| - |TMP|..];
    } else {
      // The directory's '/' is one of the last four characters.
      NotTmp(path, |dir| - 1);
    }
  }

  lemma {:induction false} NotTmp(s: string, k: nat)
    requires |TMP| <= |s| && |s| - |TMP| <= k < |s| && s[k] == '/'
    ensures !IsTmp(s)
  {
    assert s[|s| - |TMP|..][k - (|s| - |TMP|)] == s[k];
  }

  /** Two files have the same path only if they are the same file of the same directory. */
  lemma {:induction false} PathsAreDistinct(root: string, d: Dir, a: string, e: Dir, b: string, tmp: bool)
    requires BuildPath(root, d, a, tmp).Some? && BuildPath(root, d, a, tmp) == BuildPath(root, e, b, tmp)
    ensures d == e && a == b
  {
    hide DirName, NameValid;
    var tail := if tmp then TMP else "";
    var x, y := DirPath(root, d), DirPath(root, e);
    SameNameLength(x, a, y, b, tail);
    SameSplit(x + "/" + a, tail, y + "/" + b, tail);
    SameSplit(x + "/", a, y + "/", b);
    SameSplit(x, "/", y, "/");
    assert x == root + "/stark/" + DirName(d) && y == root + "/stark/" + DirName(e);
    SamePrefix(root + "/stark/", DirName(d), DirName(e));
    SameDir(d, e);
  }

  lemma {:induction false} SameSplit(x: string, u: string, y: string, v: string)
    requires |u| == |v| && x + u == y + v
    ensures x == y && u == v
  {
    assert x == (x + u)[..|x|] && u == (x + u)[|x|..];
    assert y == (y + v)[..|y|] && v == (y + v)[|y|..];
  }

  lemma {:induction false} SamePrefix(x: string, u: string, v: string)
    requires x + u == x + v
    ensures u == v
  {
    assert u == (x + u)[|x|..] && v == (x + v)[|x|..];
  }

  lemma {:induction false} SameDir(d: Dir, e: Dir)
    requires DirName(d) == DirName(e)
    ensures d == e
  {
    assert |DirName(d)| == |DirName(e)| && DirName(d)[0] == DirName(e)[0];
  }

  lemma {:induction false} SameNameLength(x: string, a: string, y: string, b: string, tail: string)
    requires NameValid(a) && NameValid(b) && x + "/" + a + tail == y + "/" + b + tail
    ensures |a| == |b|
  {
    SlashOutside(x, a, y, b, tail);
    SlashOutside(y, b, x, a, tail);
  }

  lemma {:induction false} SlashOutside(x: string, a: string, y: string, b: string, tail: string)
    requires NameValid(b) && x + "/" + a + tail == y + "/" + b + tail
    ensures |a| >= |b|
  {
    assert (x + "/" + a + tail)[|x|] == '/';
    NameHasNoSlash(y, b, tail, |x|);
  }

  lemma {:induction false} NameHasNoSlash(y: string, b: string, tail: string, k: nat)
    requires NameValid(b)
    ensures |y| < k <= |y| + |b| ==> (y + "/" + b + tail)[k] != '/'
  {
    if |y| < k <= |y| + |b| {
      assert (y + "/" + b + tail)[k] == b[k - |y| - 1];
    }
  }
}
