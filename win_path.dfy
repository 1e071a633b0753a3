/** `System.IO.Path.Combine` for two Windows path parts, as .NET Core defines it. */
module WinPath {
  import opened Strings

  predicate IsSeparator(c: char) {
    c == '\\' || c == '/'
  }

  /** A drive letter: an ASCII letter. */
  predicate IsDriveLetter(c: char) {
    ('A' <= c <= 'Z') || ('a' <= c <= 'z')
  }

  /** `Path.IsPathRooted`: a leading separator, or a drive letter and a colon. */
  predicate IsRooted(p: string) {
    (|p| >= 1 && IsSeparator(p[0])) || (|p| >= 2 && IsDriveLetter(p[0]) && p[1] == ':')
  }

  /**
   * `Path.Combine(a, b)`: `b` when `a` is empty, `a` when `b` is empty, `b`
   * alone when it is rooted, otherwise `a` and `b` joined by one separator
   * (none added when `a` already ends with one; a `b` that starts with one
   * is rooted).
   */
  function Combine(a: string, b: string): string {
    if a == [] then b
    else if b == [] then a
    else if IsRooted(b) then b
    else if IsSeparator(a[|a| - 1]) then a + b
    else a + "\\" + b
  }

  /**
   * The combined path always ends with `b`, is `b` when `a` is empty or `b`
   * rooted, is `a` when `b` is empty, and otherwise keeps `a` as its prefix,
   * inserting a separator exactly where `a` does not end with one.
   */
  lemma CombineParts(a: string, b: string)
    ensures var r := Combine(a, b);
      |b| <= |r| && r[|r| - |b|..] == b
    ensures IsRooted(b) || a == [] ==> Combine(a, b) == b
    ensures b == [] ==> Combine(a, b) == a
    ensures !IsRooted(b) && a != [] && b != [] ==>
      var r := Combine(a, b);
      StartsWith(r, a) && (|r| == |a| + |b| <==> IsSeparator(a[|a| - 1])) &&
      (|r| != |a| + |b| ==> r == a + "\\" + b)
  {
    var r := Combine(a, b);
    assert r[|r| - |b|..] == b;
    if !IsRooted(b) && a != [] && b != [] {
      assert r[..|a|] == a;
    }
  }

  /** A drive colon gets its separator, and a digit before a colon is no drive. */
  lemma CombineAfterDrive()
    ensures Combine("C:", "a.bin") == "C:\\a.bin"
    ensures !IsRooted("1:x.bin") && Combine("out", "1:x.bin") == "out\\1:x.bin"
  {
  }
}
