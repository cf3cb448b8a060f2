/** Helpers shared by the whole model: an Option type and the handful of
    GLib/libc string and path functions the service relies on. */
module Common {

  datatype Option<T> = None | Some(value: T)

  /** Last position of `c` in `s`, if any. */
  function LastIndexOf(s: string, c: char): (r: Option<nat>)
    ensures r.Some? ==> r.value < |s| && s[r.value] == c
    ensures r.Some? ==> forall j :: r.value < j < |s| ==> s[j] != c
    ensures r.None? <==> c !in s
  {
    if s == [] then None
    else if s[|s| - 1] == c then Some(|s| - 1)
    else LastIndexOf(s[..|s| - 1], c)
  }

  /** First position of `c` in `s`, if any. */
  function FirstIndexOf(s: string, c: char): (r: Option<nat>)
    ensures r.Some? ==> r.value < |s| && s[r.value] == c && c !in s[..r.value]
    ensures r.None? <==> c !in s
  {
    if s == [] then None
    else if s[0] == c then Some(0)
    else
      var rest := FirstIndexOf(s[1..], c);
      assert s == [s[0]] + s[1..];
      if rest.None? then None
      else
        assert s[..rest.value + 1] == [s[0]] + s[1..][..rest.value];
        Some(rest.value + 1)
  }

  /** The first `c` of `a + [c] + b` is the one after `a` when `a` holds none. */
  lemma FirstIndexOfAfter(a: string, c: char, b: string)
    requires c !in a
    ensures FirstIndexOf(a + [c] + b, c) == Some(|a|)
  {
    var s := a + [c] + b;
    var r := FirstIndexOf(s, c);
    assert s[|a|] == c;
    assert r.Some?;
    assert s[..|a|] == a;
    forall i | 0 <= i < |a| ensures s[i] != c {
      assert s[i] == a[i];
    }
  }

  /** The text between `open` and `close` when `s` starts with the one
      and ends with the other without the two overlapping. */
  function Unframe(s: string, open: string, close: string): (r: Option<string>)
    ensures r.Some? ==> s == open + r.value + close
  {
    if |s| < |open| + |close| || s[..|open|] != open || s[|s| - |close|..] != close then None
    else
      var inner := s[|open|..|s| - |close|];
      assert s[..|s| - |close|] == open + inner;
      Some(inner)
  }

  lemma UnframeOf(open: string, inner: string, close: string)
    ensures Unframe(open + inner + close, open, close) == Some(inner)
  {
    var s := open + inner + close;
    assert s[..|open|] == open;
    assert s[|s| - |close|..] == close;
    assert s[|open|..|s| - |close|] == inner;
  }

  /** What follows `prefix` when `s` starts with it. */
  function Unprefix(s: string, prefix: string): (r: Option<string>)
    ensures r.Some? ==> s == prefix + r.value
  {
    if |s| < |prefix| || s[..|prefix|] != prefix then None
    else
      assert s == s[..|prefix|] + s[|prefix|..];
      Some(s[|prefix|..])
  }

  lemma UnprefixOf(prefix: string, rest: string)
    ensures Unprefix(prefix + rest, prefix) == Some(rest)
  {
    assert (prefix + rest)[..|prefix|] == prefix;
    assert (prefix + rest)[|prefix|..] == rest;
  }

  /** g_build_filename for two components: a single '/' separates them.
      An empty first component contributes nothing. Unlike GLib, repeated
      trailing separators of `dir` are kept as written. */
  function JoinPath(dir: string, name: string): string
  {
    if dir == [] then name
    else if dir[|dir| - 1] == '/' then dir + name
    else dir + "/" + name
  }

  /** A joined path ends with the name joined in. */
  lemma JoinPathEnds(dir: string, name: string)
    ensures var p := JoinPath(dir, name);
      |p| >= |name| && p[|p| - |name|..] == name
  {
    if dir != [] {
      var front := if dir[|dir| - 1] == '/' then dir else dir + "/";
      assert JoinPath(dir, name) == front + name;
      EndsWith(front, name);
    }
  }

  lemma EndsWith(front: string, name: string)
    ensures (front + name)[|front|..] == name
  {
  }

  /** Steps back from position `i` of `s` over a run of '/' characters,
      never past the first character. */
  function BackOverSlashes(s: string, i: nat): (j: nat)
    requires i < |s|
    ensures j <= i
    ensures j == 0 || s[j] != '/'
    decreases i
  {
    if i > 0 && s[i] == '/' then BackOverSlashes(s, i - 1) else i
  }

  /** g_path_get_dirname: everything before the last separator, with the
      trailing separators removed ("/" for a path directly under the root,
      "." for a bare name). */
  function Dirname(p: string): (d: string)
    ensures '/' !in p ==> d == "."
    ensures '/' in p ==> 0 < |d| <= |p| && d == p[..|d|]
  {
    match LastIndexOf(p, '/')
    case None => "."
    case Some(i) => p[..BackOverSlashes(p, i) + 1]
  }

  lemma {:induction false} LastIndexOfAfter(a: string, c: char, b: string)
    requires c !in b
    ensures LastIndexOf(a + [c] + b, c) == Some(|a|)
    decreases |b|
  {
    var s := a + [c] + b;
    if b == [] {
      assert s[|s| - 1] == c;
    } else {
      assert s[|s| - 1] == b[|b| - 1] != c;
      assert s[..|s| - 1] == a + [c] + b[..|b| - 1];
      LastIndexOfAfter(a, c, b[..|b| - 1]);
    }
  }

  /** The directory of a file joined into `dir` is `dir` again, for a
      directory written without a trailing separator and a plain name. */
  lemma DirnameOfJoin(dir: string, name: string)
    requires dir != [] && dir[|dir| - 1] != '/'
    requires '/' !in name
    ensures Dirname(JoinPath(dir, name)) == dir
  {
    var p := JoinPath(dir, name);
    assert p == dir + ['/'] + name;
    LastIndexOfAfter(dir, '/', name);
    assert p[|dir|] == '/' && p[|dir| - 1] != '/';
    assert BackOverSlashes(p, |dir|) == |dir| - 1;
  }

  predicate OccursAt(s: string, sub: string, i: nat)
  {
    i + |sub| <= |s| && s[i..i + |sub|] == sub
  }

  /** strstr(s, sub) != NULL */
  predicate Contains(s: string, sub: string)
  {
    exists i | 0 <= i <= |s| :: OccursAt(s, sub, i)
  }

  /** g_ascii_isspace: space, tab, line feed, form feed and carriage
      return; GLib's ASCII table does not count the vertical tab. */
  predicate IsAsciiSpace(c: char)
  {
    c == ' ' || c == '\t' || c == '\n' || c == '\r' || c == '\U{000C}'
  }

  /** The first position at or after `i` that does not hold white space. */
  function SpacesFrom(s: string, i: nat): (k: nat)
    requires i <= |s|
    ensures i <= k <= |s|
    ensures forall j | i <= j < k :: IsAsciiSpace(s[j])
    ensures k < |s| ==> !IsAsciiSpace(s[k])
    decreases |s| - i
  {
    if i < |s| && IsAsciiSpace(s[i]) then SpacesFrom(s, i + 1) else i
  }

  /** The end of `s[..i]` once its trailing white space is dropped. */
  function SpacesBefore(s: string, i: nat): (k: nat)
    requires i <= |s|
    ensures k <= i
    ensures forall j | k <= j < i :: IsAsciiSpace(s[j])
    ensures k > 0 ==> !IsAsciiSpace(s[k - 1])
  {
    if i > 0 && IsAsciiSpace(s[i - 1]) then SpacesBefore(s, i - 1) else i
  }

  /** g_strstrip: removes leading and trailing ASCII white space. The result
      is empty exactly when every character of `s` is white space. */
  function Strip(s: string): (r: string)
    ensures r == [] <==> forall i :: 0 <= i < |s| ==> IsAsciiSpace(s[i])
    ensures r == [] || (!IsAsciiSpace(r[0]) && !IsAsciiSpace(r[|r| - 1]))
  {
    var begin := SpacesFrom(s, 0);
    var end := SpacesBefore(s, |s|);
    if begin == |s| then []
    else
      assert begin < end;
      s[begin..end]
  }
}
