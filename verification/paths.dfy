/**
 The file-name arithmetic the conversion and ingestion scripts do: `os.path.basename`,
 and `pathlib`'s `name`, `stem`, `suffix` and `with_suffix`. Paths are taken in the
 normal form `pathlib` gives them (no trailing separator, no `.` or empty components).
 */
module Paths {
  import opened Outcomes

  const Sep: char := '/'

  /** `s.rfind(c)`: the last index holding `c`, or -1. */
  function LastIndexOf(s: string, c: char): (i: int)
    ensures -1 <= i < |s|
    ensures i >= 0 ==> s[i] == c
    ensures forall j :: i < j < |s| ==> s[j] != c
  {
    if |s| == 0 then -1
    else if s[|s| - 1] == c then |s| - 1
    else LastIndexOf(s[..|s| - 1], c)
  }

  /** Everything after the last separator (`os.path.basename`, and `PurePath.name` in normal form). */
  function Basename(p: string): (b: string)
    ensures Sep !in b
  {
    p[LastIndexOf(p, Sep) + 1..]
  }

  /** Everything up to and including the last separator. */
  function DirPrefix(p: string): string {
    p[..LastIndexOf(p, Sep) + 1]
  }

  /** A path is its directory part followed by its base name; a non-empty directory part ends in a separator. */
  lemma DirPrefixThenBasename(p: string)
    ensures DirPrefix(p) + Basename(p) == p
    ensures DirPrefix(p) == [] || DirPrefix(p)[|DirPrefix(p)| - 1] == Sep
  {
  }

  /** Whether `name` has a suffix: a dot that is neither its first nor its last character. */
  predicate HasSuffix(name: string) {
    var i := LastIndexOf(name, '.');
    0 < i < |name| - 1
  }

  /** `PurePath.suffix` of a file name. */
  function Suffix(name: string): (s: string)
    ensures s == [] || (s[0] == '.' && '.' !in s[1..] && |s| >= 2)
  {
    if HasSuffix(name) then name[LastIndexOf(name, '.')..] else ""
  }

  /** `PurePath.stem` of a file name. */
  function Stem(name: string): string {
    if HasSuffix(name) then name[..LastIndexOf(name, '.')] else name
  }

  /** A name splits into its stem and its suffix, and a non-empty name keeps a non-empty stem. */
  lemma StemThenSuffix(name: string)
    ensures Stem(name) + Suffix(name) == name
    ensures name != [] ==> Stem(name) != []
  {
  }

  /** Appending a suffix to a non-empty name gives that suffix back, and the name as the stem. */
  lemma {:induction false} AppendedSuffix(name: string, suffix: string)
    requires name != [] && |suffix| >= 2 && suffix[0] == '.' && '.' !in suffix[1..]
    ensures Suffix(name + suffix) == suffix
    ensures Stem(name + suffix) == name
  {
    var s := name + suffix;
    var i := LastIndexOf(s, '.');
    assert s[|name|] == '.';
    assert i == |name|;
  }

  /**
   `PurePath(p).with_suffix(suffix)`: the same directory, the stem of the name, then the
   new suffix; a path with an empty name (`""`, `"/"`) is a `ValueError`.
   */
  function WithSuffix(p: string, suffix: string): (r: Result<string, string>)
    requires |suffix| >= 2 && suffix[0] == '.' && '.' !in suffix[1..] && Sep !in suffix
    ensures r.Failure? <==> Basename(p) == []
    ensures r.Success? ==> DirPrefix(r.value) == DirPrefix(p)
    ensures r.Success? ==> Basename(r.value) == Stem(Basename(p)) + suffix
  {
    var name := Basename(p);
    if name == [] then Failure("ValueError: " + p + " has an empty name")
    else
      var r := DirPrefix(p) + (Stem(name) + suffix);
      assert Sep !in Stem(name) + suffix by {
        StemThenSuffix(name);
        assert Stem(name) == name[..|Stem(name)|];
      }
      DirPrefixThenBasename(p);
      BasenameAfterDir(DirPrefix(p), Stem(name) + suffix);
      Success(r)
  }

  /** A separator-free tail after a directory part is the base name, and the directory part stays. */
  lemma {:induction false} BasenameAfterDir(dir: string, tail: string)
    requires dir == [] || dir[|dir| - 1] == Sep
    requires Sep !in tail
    ensures Basename(dir + tail) == tail
    ensures DirPrefix(dir + tail) == dir
  {
    var s := dir + tail;
    var i := LastIndexOf(s, Sep);
    if |dir| > 0 {
      assert s[|dir| - 1] == Sep;
    }
    assert i == |dir| - 1;
  }

  /**
   Replacing the suffix twice is replacing it once, and the result always carries the
   new suffix and keeps the stem.
   */
  lemma WithSuffixIdempotent(p: string, suffix: string)
    requires |suffix| >= 2 && suffix[0] == '.' && '.' !in suffix[1..] && Sep !in suffix
    requires WithSuffix(p, suffix).Success?
    ensures var q := WithSuffix(p, suffix).value;
      && Suffix(Basename(q)) == suffix
      && Stem(Basename(q)) == Stem(Basename(p))
      && WithSuffix(q, suffix) == Success(q)
  {
    var name := Basename(p);
    var q := WithSuffix(p, suffix).value;
    StemThenSuffix(name);
    AppendedSuffix(Stem(name), suffix);
    assert Basename(q) == Stem(name) + suffix;
    var q2 := WithSuffix(q, suffix).value;
    assert DirPrefix(q2) == DirPrefix(q);
    assert Basename(q2) == Basename(q);
    DirPrefixThenBasename(q);
    DirPrefixThenBasename(q2);
  }
}
