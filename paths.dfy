/**
 * Slash-separated relative paths: JavaScript's `split("/")` and `join("/")`,
 * and the last-component and suffix rules of Python's `pathlib`.
 */
module Paths {

  /** The index of the last occurrence of `c` in `s`, or -1 (`lastIndexOf`, `rfind`). */
  function LastIndex(s: string, c: char): (i: int)
    ensures -1 <= i < |s|
    ensures i >= 0 ==> s[i] == c && c !in s[i + 1..]
    ensures i == -1 ==> c !in s
  {
    if |s| == 0 then -1
    else if s[|s| - 1] == c then |s| - 1
    else
      var j := LastIndex(s[..|s| - 1], c);
      assert s == s[..|s| - 1] + [s[|s| - 1]];
      j
  }

  /** `s.split("/")`: the pieces between slashes, always at least one, none holding a slash. */
  function Split(s: string): (parts: seq<string>)
    ensures |parts| >= 1
    ensures forall i :: 0 <= i < |parts| ==> '/' !in parts[i]
  {
    if s == [] then [""]
    else
      var rest := Split(s[1..]);
      if s[0] == '/' then [""] + rest
      else [[s[0]] + rest[0]] + rest[1..]
  }

  /** `parts.join("/")`: starts with the first part, ends with the last, and has one '/' between each pair. */
  function Join(parts: seq<string>): (s: string)
    ensures |parts| >= 1 ==> |s| >= |parts[0]| && s[..|parts[0]|] == parts[0]
    ensures |parts| >= 1 ==> |s| >= |parts[|parts| - 1]| && s[|s| - |parts[|parts| - 1]|..] == parts[|parts| - 1]
    ensures |parts| >= 2 ==> |s| > |parts[0]| && s[|parts[0]|] == '/'
  {
    if |parts| == 0 then ""
    else if |parts| == 1 then parts[0]
    else Join(parts[..|parts| - 1]) + "/" + parts[|parts| - 1]
  }

  lemma {:induction false} SplitNoSlash(s: string)
    requires '/' !in s
    ensures Split(s) == [s]
  {
    if s != [] {
      assert '/' !in s[1..];
      SplitNoSlash(s[1..]);
      assert [s[0]] + s[1..] == s;
    }
  }

  /** Splitting at the last slash: the last piece is whatever follows it. */
  lemma {:induction false} SplitLast(a: string, b: string)
    requires '/' !in b
    ensures Split(a + "/" + b) == Split(a) + [b]
  {
    if a == [] {
      assert a + "/" + b == "/" + b;
      assert ("/" + b)[1..] == b;
      SplitNoSlash(b);
    } else {
      var s := a + "/" + b;
      assert s[0] == a[0];
      assert s[1..] == a[1..] + "/" + b;
      SplitLast(a[1..], b);
      var rest := Split(a[1..]);
      assert Split(s[1..]) == rest + [b];
      if a[0] != '/' {
        assert Split(a) == [[a[0]] + rest[0]] + rest[1..];
        assert (rest + [b])[1..] == rest[1..] + [b];
      }
    }
  }

  lemma JoinSnoc(parts: seq<string>, b: string)
    requires |parts| >= 1
    ensures Join(parts + [b]) == Join(parts) + "/" + b
  {
    assert (parts + [b])[..|parts|] == parts;
  }

  /** Joining the pieces of a split gives back the original string. */
  lemma {:induction false} JoinSplit(s: string)
    ensures Join(Split(s)) == s
    decreases |s|
  {
    var i := LastIndex(s, '/');
    if i == -1 {
      SplitNoSlash(s);
    } else {
      var a, b := s[..i], s[i + 1..];
      assert s == a + "/" + b;
      SplitLast(a, b);
      JoinSnoc(Split(a), b);
      JoinSplit(a);
    }
  }

  /** Python's `Path(p).name`: the text after the last slash. */
  function Basename(p: string): (name: string)
    ensures '/' !in name
    ensures name == p || (exists dir :: p == dir + "/" + name)
  {
    var i := LastIndex(p, '/');
    if i == -1 then p
    else
      assert p == p[..i] + "/" + p[i + 1..];
      p[i + 1..]
  }

  /** Python's `Path(p).suffix` for a single name: from its last dot on, unless that dot leads or ends it. */
  function Suffix(name: string): (suffix: string)
    ensures suffix == "" || (2 <= |suffix| < |name| && suffix == name[|name| - |suffix|..])
    ensures suffix != "" ==> suffix[0] == '.' && '.' !in suffix[1..]
  {
    var i := LastIndex(name, '.');
    if 0 < i < |name| - 1 then name[i..] else ""
  }

  /** ASCII lower-casing, as `str.lower()` does for ASCII letters. */
  function LowerChar(c: char): char
  {
    if 'A' <= c <= 'Z' then (c as int + 32) as char else c
  }

  /** Same length; every ASCII capital becomes its small letter and every other character stays. */
  function Lower(s: string): (r: string)
    ensures |r| == |s|
    ensures forall i :: 0 <= i < |s| ==> !('A' <= r[i] <= 'Z')
    ensures forall i :: 0 <= i < |s| ==> r[i] == s[i] || ('A' <= s[i] <= 'Z' && r[i] as int == s[i] as int + 32)
  {
    seq(|s|, i requires 0 <= i < |s| => LowerChar(s[i]))
  }

  /** Lower-casing twice is lower-casing once. */
  lemma LowerIdempotent(s: string)
    ensures Lower(Lower(s)) == Lower(s)
  {
  }
}
