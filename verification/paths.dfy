/** The parts of `pathlib.PurePath` the watcher uses, on paths that are
    already absolute and canonical: the final component (`name`), its
    extension (`suffix`), the name without the extension (`stem`) and
    joining a directory with a file name (`/`). */
module Paths {
  import opened Text

  /** No character of `s` is a slash. */
  predicate NoSlash(s: string) {
    forall i :: 0 <= i < |s| ==> s[i] != '/'
  }

  /** `Path.name`: everything after the last slash. */
  function Name(p: string): (r: string)
    ensures NoSlash(r)
    ensures |r| <= |p| && r == p[|p| - |r|..]
    ensures |r| < |p| ==> p[|p| - |r| - 1] == '/'
  {
    p[RFind(p, '/') + 1..]
  }

  /** `Path(dir) / name` for a directory string without a trailing slash
      (or the root directory, which has one). */
  function Join(dir: string, name: string): string {
    if EndsWith(dir, "/") then dir + name else dir + "/" + name
  }

  /** Joining a slash-free name onto any directory gives that name back. */
  lemma NameOfJoin(dir: string, name: string)
    requires NoSlash(name)
    ensures Name(Join(dir, name)) == name
  {
    var p := Join(dir, name);
    var slash := |p| - |name| - 1;
    assert p[slash] == '/';
    assert p[slash + 1..] == name;
    var r := RFind(p, '/');
    assert forall j :: slash < j < |p| ==> p[j] == name[j - slash - 1];
    assert r == slash;
  }

  /** The extension is present when the last dot is neither the first
      character (a hidden file) nor the last one. */
  predicate HasSuffix(name: string) {
    0 < RFind(name, '.') < |name| - 1
  }

  /** `Path.suffix`: from the last dot to the end, or empty. */
  function Suffix(name: string): (r: string)
    ensures r == "" <==> !HasSuffix(name)
    ensures r != "" ==> |r| >= 2 && r[0] == '.' && |r| < |name|
    ensures forall i :: 1 <= i < |r| ==> r[i] != '.'
    ensures |r| <= |name| && r == name[|name| - |r|..]
  {
    if HasSuffix(name) then name[RFind(name, '.')..] else ""
  }

  /** `Path.stem`: the name without its suffix. */
  function Stem(name: string): (r: string)
    ensures r + Suffix(name) == name
  {
    if HasSuffix(name) then name[..RFind(name, '.')] else name
  }

  /** Appending a dot-free tail after a dot moves the suffix to that dot,
      whatever the leading part was. */
  lemma {:induction false} SuffixOfDottedTail(head: string, ext: string)
    requires |head| > 0 && |ext| > 0
    requires forall i :: 0 <= i < |ext| ==> ext[i] != '.'
    ensures Suffix(head + "." + ext) == "." + ext
    ensures Stem(head + "." + ext) == head
  {
    var n := head + "." + ext;
    var dot := |head|;
    assert n[dot] == '.';
    var r := RFind(n, '.');
    assert forall j :: dot < j < |n| ==> n[j] == ext[j - dot - 1];
    assert r == dot;
    assert n[dot..] == "." + ext;
    assert n[..dot] == head;
  }

  /** The stem of a slash-free name is slash-free. */
  lemma StemNoSlash(name: string)
    requires NoSlash(name)
    ensures NoSlash(Stem(name))
  {
    var stem := Stem(name);
    assert forall i :: 0 <= i < |stem| ==> stem[i] == name[i];
  }

  lemma ConcatNoSlash(a: string, b: string)
    requires NoSlash(a) && NoSlash(b)
    ensures NoSlash(a + b)
  {
  }
}
