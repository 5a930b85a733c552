/** The Python `str` operations the relay relies on: `isspace`, `strip`,
    `find`/`rfind`, `split`, `join` and `replace`, stated over `seq<char>`. */
module PyStr {
  import opened Wrappers

  /** `c.isspace()`: the characters that `str.strip()` removes by default. */
  predicate IsSpace(c: char) {
    var n := c as int;
    (0x09 <= n <= 0x0D) || (0x1C <= n <= 0x20) || n == 0x85 || n == 0xA0 || n == 0x1680
    || (0x2000 <= n <= 0x200A) || n == 0x2028 || n == 0x2029 || n == 0x202F
    || n == 0x205F || n == 0x3000
  }

  /** Whether `str.strip(chars)` removes `c`: whitespace when `chars` is
      `None`, otherwise the characters in `chars`. */
  predicate Drops(chars: Option<set<char>>, c: char) {
    if chars.None? then IsSpace(c) else c in chars.value
  }

  /** `s` without its leading dropped characters. */
  function TrimLeft(s: string, chars: Option<set<char>>): (r: string)
    ensures |r| <= |s|
    decreases |s|
  {
    if |s| > 0 && Drops(chars, s[0]) then TrimLeft(s[1..], chars) else s
  }

  /** `s` without its trailing dropped characters. */
  function TrimRight(s: string, chars: Option<set<char>>): (r: string)
    ensures |r| <= |s|
    decreases |s|
  {
    if |s| > 0 && Drops(chars, s[|s| - 1]) then TrimRight(s[..|s| - 1], chars) else s
  }

  lemma {:induction false} TrimLeftSpec(s: string, chars: Option<set<char>>)
    ensures var r := TrimLeft(s, chars);
      && r == s[|s| - |r|..]
      && (forall k :: 0 <= k < |s| - |r| ==> Drops(chars, s[k]))
      && (r != [] ==> !Drops(chars, r[0]))
    decreases |s|
  {
    if |s| > 0 && Drops(chars, s[0]) {
      TrimLeftSpec(s[1..], chars);
    }
  }

  lemma {:induction false} TrimRightSpec(s: string, chars: Option<set<char>>)
    ensures var r := TrimRight(s, chars);
      && r == s[..|r|]
      && (forall k :: |r| <= k < |s| ==> Drops(chars, s[k]))
      && (r != [] ==> !Drops(chars, r[|r| - 1]))
    decreases |s|
  {
    if |s| > 0 && Drops(chars, s[|s| - 1]) {
      TrimRightSpec(s[..|s| - 1], chars);
    }
  }

  /** `r` sits at index `i` of `s`, with only dropped characters before and after it, and
      neither of its ends dropped. */
  ghost predicate StripAt(r: string, s: string, chars: Option<set<char>>, i: int) {
    0 <= i <= |s| - |r| && s[i..i + |r|] == r
    && (forall k :: 0 <= k < i ==> Drops(chars, s[k]))
    && (forall k :: i + |r| <= k < |s| ==> Drops(chars, s[k]))
    && (r != [] ==> !Drops(chars, r[0]) && !Drops(chars, r[|r| - 1]))
  }

  /** `r` is the middle of `s` once every dropped character is removed from both ends. */
  ghost predicate IsStripOf(r: string, s: string, chars: Option<set<char>>) {
    exists i :: StripAt(r, s, chars, i)
  }

  /** `s.strip(chars)`. */
  function StripChars(s: string, chars: Option<set<char>>): (r: string)
    ensures |r| <= |s|
  {
    TrimRight(TrimLeft(s, chars), chars)
  }

  /** `strip` removes exactly the dropped characters at both ends. */
  lemma StripCharsSpec(s: string, chars: Option<set<char>>)
    ensures IsStripOf(StripChars(s, chars), s, chars)
  {
    var t := TrimLeft(s, chars);
    var r := TrimRight(t, chars);
    TrimLeftSpec(s, chars);
    TrimRightSpec(t, chars);
    var i := |s| - |t|;
    assert s[i..i + |r|] == r;
    assert forall k :: i + |r| <= k < |s| ==> s[k] == t[k - i];
    assert r != [] ==> r[0] == t[0];
    assert StripAt(r, s, chars, i);
  }

  /** `s.strip()`: surrounding whitespace removed. */
  function Strip(s: string): (r: string)
    ensures |r| <= |s|
  {
    StripChars(s, None)
  }

  /** Stripping a string that does not begin or end with a dropped character leaves it alone. */
  lemma StripCharsKeeps(s: string, chars: Option<set<char>>)
    requires s != [] ==> !Drops(chars, s[0]) && !Drops(chars, s[|s| - 1])
    ensures StripChars(s, chars) == s
  {
  }

  /** `strip()` is idempotent: stripping a stripped string changes nothing. */
  lemma StripIdempotent(s: string)
    ensures Strip(Strip(s)) == Strip(s)
  {
    StripCharsSpec(s, None);
    StripCharsKeeps(Strip(s), None);
  }

  /** `s` with every whitespace character removed. */
  function RemoveSpaces(s: string): (r: string)
    ensures |r| <= |s|
    ensures forall k :: 0 <= k < |r| ==> !IsSpace(r[k])
    decreases |s|
  {
    if s == [] then []
    else if IsSpace(s[0]) then RemoveSpaces(s[1..])
    else [s[0]] + RemoveSpaces(s[1..])
  }

  lemma {:induction false} RemoveSpacesAppend(a: string, b: string)
    ensures RemoveSpaces(a + b) == RemoveSpaces(a) + RemoveSpaces(b)
    decreases |a|
  {
    if a != [] {
      assert (a + b)[0] == a[0] && (a + b)[1..] == a[1..] + b;
      RemoveSpacesAppend(a[1..], b);
    } else {
      assert a + b == b;
    }
  }

  lemma {:induction false} RemoveSpacesAllSpace(s: string)
    requires forall k :: 0 <= k < |s| ==> IsSpace(s[k])
    ensures RemoveSpaces(s) == []
    decreases |s|
  {
    if s != [] {
      RemoveSpacesAllSpace(s[1..]);
    }
  }

  /** Stripping only ever removes whitespace. */
  lemma StripKeepsNonSpace(s: string)
    ensures RemoveSpaces(Strip(s)) == RemoveSpaces(s)
  {
    var r := Strip(s);
    StripCharsSpec(s, None);
    var i :| StripAt(r, s, None, i);
    var head, tail := s[..i], s[i + |r|..];
    assert s == head + (r + tail);
    RemoveSpacesAppend(head, r + tail);
    RemoveSpacesAppend(r, tail);
    forall k | 0 <= k < |head| ensures IsSpace(head[k]) {
      assert Drops(None, s[k]);
    }
    forall k | 0 <= k < |tail| ensures IsSpace(tail[k]) {
      assert tail[k] == s[i + |r| + k] && Drops(None, s[i + |r| + k]);
    }
    RemoveSpacesAllSpace(head);
    RemoveSpacesAllSpace(tail);
  }

  /** `sub` occurs in `s` starting at index `j`. */
  predicate OccursAt(s: string, sub: string, j: nat) {
    j + |sub| <= |s| && s[j..j + |sub|] == sub
  }

  ghost predicate NoOccurrence(s: string, sub: string) {
    forall j: nat :: !OccursAt(s, sub, j)
  }

  lemma OccursShift(s: string, sub: string, j: nat)
    requires |s| > 0
    ensures OccursAt(s, sub, j + 1) <==> OccursAt(s[1..], sub, j)
  {
    if j + 1 + |sub| <= |s| {
      assert s[1..][j..j + |sub|] == s[j + 1..j + 1 + |sub|];
    }
  }

  /** `s.find(sub)`: the leftmost occurrence, or `None` for Python's -1. */
  function Find(s: string, sub: string): (r: Option<nat>)
    ensures r.Some? ==> OccursAt(s, sub, r.value)
    ensures r.Some? ==> forall j: nat :: j < r.value ==> !OccursAt(s, sub, j)
    ensures r.None? ==> NoOccurrence(s, sub)
    decreases |s|
  {
    if |s| < |sub| then None
    else if s[..|sub|] == sub then Some(0)
    else match Find(s[1..], sub)
      case None =>
        assert forall j: nat :: !OccursAt(s, sub, j) by {
          forall j: nat ensures !OccursAt(s, sub, j) {
            if j > 0 { OccursShift(s, sub, j - 1); }
          }
        }
        None
      case Some(i) =>
        OccursShift(s, sub, i);
        assert forall j: nat :: j < i + 1 ==> !OccursAt(s, sub, j) by {
          forall j: nat | j < i + 1 ensures !OccursAt(s, sub, j) {
            if j > 0 { OccursShift(s, sub, j - 1); }
          }
        }
        Some(i + 1)
  }

  /** `sep.join(xs)`. */
  function Join(xs: seq<string>, sep: string): string
    decreases |xs|
  {
    if |xs| == 0 then "" else if |xs| == 1 then xs[0] else xs[0] + sep + Join(xs[1..], sep)
  }

  /** `s.split(sep)` for a non-empty separator: the pieces between the
      leftmost non-overlapping occurrences of `sep`. */
  function Split(s: string, sep: string): (r: seq<string>)
    requires |sep| > 0
    ensures |r| >= 1
    decreases |s|
  {
    match Find(s, sep)
    case None => [s]
    case Some(i) => [s[..i]] + Split(s[i + |sep|..], sep)
  }

  /** Joining the pieces of a split with the separator gives the string
      back, and no piece holds the separator. */
  lemma {:induction false} SplitSpec(s: string, sep: string)
    requires |sep| > 0
    ensures Join(Split(s, sep), sep) == s
    ensures forall k :: 0 <= k < |Split(s, sep)| ==> NoOccurrence(Split(s, sep)[k], sep)
    decreases |s|
  {
    match Find(s, sep)
    case None =>
    case Some(i) =>
      var head, tail := s[..i], s[i + |sep|..];
      var rest := Split(tail, sep);
      SplitSpec(tail, sep);
      assert s == head + sep + tail;
      assert NoOccurrence(head, sep) by {
        forall j: nat ensures !OccursAt(head, sep, j) {
          if OccursAt(head, sep, j) {
            assert s[j..j + |sep|] == head[j..j + |sep|];
            assert OccursAt(s, sep, j);
          }
        }
      }
      assert Split(s, sep) == [head] + rest;
      assert ([head] + rest)[1..] == rest;
  }

  /** Each cut of a split is at the leftmost occurrence of `sep` in what is
      left: the rest of the string from piece `k` on has its first `sep`
      right after piece `k`. This fixes the pieces even for a separator that
      overlaps itself. */
  lemma {:induction false} SplitLeftmost(s: string, sep: string)
    requires |sep| > 0
    ensures var r := Split(s, sep);
      forall k :: 0 <= k < |r| - 1 ==> Find(Join(r[k..], sep), sep) == Some(|r[k]|)
    ensures Find(Join(Split(s, sep), sep), sep).None? <==> |Split(s, sep)| == 1
    decreases |s|
  {
    var r := Split(s, sep);
    SplitSpec(s, sep);
    assert r[0..] == r;
    match Find(s, sep)
    case None =>
    case Some(i) =>
      var tail := s[i + |sep|..];
      var rest := Split(tail, sep);
      SplitLeftmost(tail, sep);
      assert r == [s[..i]] + rest;
      forall k | 0 <= k < |r| - 1
        ensures Find(Join(r[k..], sep), sep) == Some(|r[k]|)
      {
        if k > 0 {
          assert r[k..] == rest[k - 1..];
          assert r[k] == rest[k - 1];
        }
      }
  }

  /** `s.replace(target, replacement)` for a non-empty `target`: every leftmost
      non-overlapping occurrence of `target` is replaced by `replacement`. */
  function Replace(s: string, target: string, replacement: string): string
    requires |target| > 0
  {
    Join(Split(s, target), replacement)
  }

  /** A string without `target` comes back from `replace` unchanged. */
  lemma ReplaceAbsent(s: string, target: string, replacement: string)
    requires |target| > 0 && NoOccurrence(s, target)
    ensures Replace(s, target, replacement) == s
  {
  }

  /** `s.rfind(c, lo, hi)` for a single character, `None` for Python's -1. */
  function RFind(s: string, c: char, lo: nat, hi: nat): (r: Option<nat>)
    ensures r.Some? ==> lo <= r.value < hi && r.value < |s|
    decreases hi
  {
    var end := if hi < |s| then hi else |s|;
    if end <= lo then None
    else if s[end - 1] == c then Some(end - 1)
    else RFind(s, c, lo, end - 1)
  }

  /** `rfind` finds the last index in `[lo, min(hi, |s|))` holding `c`, and
      says `None` only when no index there holds it. */
  lemma {:induction false} RFindSpec(s: string, c: char, lo: nat, hi: nat)
    ensures var r := RFind(s, c, lo, hi);
      && (r.Some? ==> s[r.value] == c && forall k :: r.value < k < hi && k < |s| ==> s[k] != c)
      && (r.None? ==> forall k :: lo <= k < hi && k < |s| ==> s[k] != c)
    decreases hi
  {
    var end := if hi < |s| then hi else |s|;
    if end > lo && s[end - 1] != c {
      RFindSpec(s, c, lo, end - 1);
    }
  }
}
