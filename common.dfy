/** Small value types and string helpers shared by every component of the model:
    optional values, results with an error, ASCII character classes and the few
    Python string methods the source relies on (lower, strip, find, join). */
module Common {

  datatype Option<+T> = None | Some(value: T)

  datatype Result<+T, +E> = Ok(value: T) | Err(error: E)

  predicate IsAsciiUpper(c: char) { 'A' <= c <= 'Z' }

  predicate IsAsciiLower(c: char) { 'a' <= c <= 'z' }

  predicate IsAsciiDigit(c: char) { '0' <= c <= '9' }

  /** The class `[a-zA-Z0-9]` of a regular expression. */
  predicate IsAsciiAlnum(c: char) { IsAsciiUpper(c) || IsAsciiLower(c) || IsAsciiDigit(c) }

  /** Characters Python's `str.isspace` accepts, so the ones `strip()` and `split()` remove. */
  predicate IsPyWhitespace(c: char) {
    || c == ' '
    || '\t' <= c <= '\r'
    || '\U{1C}' <= c <= '\U{1F}'
    || c == '\U{85}' || c == '\U{A0}' || c == '\U{1680}'
    || '\U{2000}' <= c <= '\U{200A}'
    || c == '\U{2028}' || c == '\U{2029}' || c == '\U{202F}' || c == '\U{205F}' || c == '\U{3000}'
  }

  function LowerChar(c: char): (d: char)
    ensures !IsAsciiUpper(d)
    ensures IsAsciiUpper(c) || d == c
    ensures IsAsciiAlnum(c) <==> IsAsciiAlnum(d)
  {
    if IsAsciiUpper(c) then (c as int + 32) as char else c
  }

  /** `str.lower()` restricted to ASCII letters. */
  function Lower(s: string): (r: string)
    ensures |r| == |s|
    ensures forall i :: 0 <= i < |s| ==> r[i] == LowerChar(s[i])
  {
    seq(|s|, i requires 0 <= i < |s| => LowerChar(s[i]))
  }

  function TrimStart(s: string): string
  {
    if s != [] && IsPyWhitespace(s[0]) then TrimStart(s[1..]) else s
  }

  function TrimEnd(s: string): string
  {
    if s != [] && IsPyWhitespace(s[|s| - 1]) then TrimEnd(s[..|s| - 1]) else s
  }

  /** `str.strip()` with no argument. */
  function Strip(s: string): string
  {
    TrimEnd(TrimStart(s))
  }

  lemma {:induction false} TrimStartIsSuffix(s: string)
    ensures exists k :: 0 <= k <= |s| && TrimStart(s) == s[k..]
    ensures TrimStart(s) == [] || !IsPyWhitespace(TrimStart(s)[0])
    decreases |s|
  {
    if s != [] && IsPyWhitespace(s[0]) {
      TrimStartIsSuffix(s[1..]);
      var k :| 0 <= k <= |s[1..]| && TrimStart(s[1..]) == s[1..][k..];
      assert s[1..][k..] == s[k + 1..];
    } else {
      assert s == s[0..];
    }
  }

  lemma {:induction false} TrimEndIsPrefix(s: string)
    ensures exists k :: 0 <= k <= |s| && TrimEnd(s) == s[..k]
    ensures TrimEnd(s) == [] || !IsPyWhitespace(TrimEnd(s)[|TrimEnd(s)| - 1])
    decreases |s|
  {
    if s != [] && IsPyWhitespace(s[|s| - 1]) {
      var init := s[..|s| - 1];
      TrimEndIsPrefix(init);
      var k :| 0 <= k <= |init| && TrimEnd(init) == init[..k];
      assert init[..k] == s[..k];
    } else {
      assert s == s[..|s|];
    }
  }

  /** `strip()` leaves a contiguous part of the input that neither starts nor ends with
      whitespace. */
  lemma StripIsTrimmedSlice(s: string)
    ensures exists i, j :: 0 <= i <= j <= |s| && Strip(s) == s[i..j]
    ensures Strip(s) == [] || (!IsPyWhitespace(Strip(s)[0]) && !IsPyWhitespace(Strip(s)[|Strip(s)| - 1]))
  {
    TrimStartIsSuffix(s);
    var i :| 0 <= i <= |s| && TrimStart(s) == s[i..];
    var u := s[i..];
    TrimEndIsPrefix(u);
    var j :| 0 <= j <= |u| && TrimEnd(u) == u[..j];
    assert u[..j] == s[i..i + j];
    if j > 0 {
      assert Strip(s)[0] == u[0];
    }
  }

  /** A string that neither starts nor ends with whitespace is its own strip. */
  lemma StripUnchanged(s: string)
    requires s != [] ==> !IsPyWhitespace(s[0]) && !IsPyWhitespace(s[|s| - 1])
    ensures Strip(s) == s
  {
    assert TrimStart(s) == s;
  }

  predicate OccursAt(s: string, needle: string, k: int)
  {
    0 <= k && k + |needle| <= |s| && s[k..k + |needle|] == needle
  }

  function FindFrom(s: string, needle: string, from: nat): (r: int)
    ensures r == -1 || (from <= r && r + |needle| <= |s|)
    decreases |s| - from
  {
    if from + |needle| > |s| then -1
    else if s[from..from + |needle|] == needle then from
    else FindFrom(s, needle, from + 1)
  }

  /** `FindFrom` reports the first occurrence at or after `from`, or -1 when there is none. */
  lemma {:induction false} FindFromFirst(s: string, needle: string, from: nat)
    ensures var r := FindFrom(s, needle, from);
      && (r == -1 || OccursAt(s, needle, r))
      && (r == -1 ==> forall k :: from <= k ==> !OccursAt(s, needle, k))
      && (r != -1 ==> forall k :: from <= k < r ==> !OccursAt(s, needle, k))
    decreases |s| - from
  {
    if from + |needle| <= |s| && s[from..from + |needle|] != needle {
      FindFromFirst(s, needle, from + 1);
    }
  }

  /** `s.find(needle)`: the index of the first occurrence, or -1. */
  function Find(s: string, needle: string): (r: int)
    ensures r == -1 || (0 <= r && r + |needle| <= |s|)
  {
    FindFrom(s, needle, 0)
  }

  /** `find` returns -1 exactly when the needle does not occur, and otherwise the index
      of its first occurrence. */
  lemma FindFirst(s: string, needle: string)
    ensures Find(s, needle) == -1 <==> forall k :: !OccursAt(s, needle, k)
    ensures Find(s, needle) >= 0 ==>
      OccursAt(s, needle, Find(s, needle)) && forall k :: 0 <= k < Find(s, needle) ==> !OccursAt(s, needle, k)
  {
    FindFromFirst(s, needle, 0);
  }

  /** `needle in s`, which is also what `re.search(needle, s) != None` decides for a
      needle made of letters only. */
  predicate Contains(s: string, needle: string)
  {
    Find(s, needle) >= 0
  }

  lemma ContainsAt(s: string, needle: string, k: int)
    requires OccursAt(s, needle, k)
    ensures Contains(s, needle)
  {
    FindFirst(s, needle);
  }

  /** If `needle` occurs in `mid` and `mid` occurs in `s`, then `needle` occurs in `s`. */
  lemma {:induction false} ContainsTransitive(s: string, mid: string, needle: string)
    requires Contains(s, mid) && Contains(mid, needle)
    ensures Contains(s, needle)
  {
    FindFirst(s, mid);
    FindFirst(mid, needle);
    var i := Find(s, mid);
    var j := Find(mid, needle);
    assert OccursAt(s, mid, i) && OccursAt(mid, needle, j);
    forall k | 0 <= k < |needle| ensures s[i + j + k] == needle[k] {
      assert mid[j + k] == needle[k];
      assert s[i + (j + k)] == s[i..i + |mid|][j + k];
    }
    assert s[i + j..i + j + |needle|] == needle;
    ContainsAt(s, needle, i + j);
  }

  /** `sep.join(xs)`. */
  function Join(sep: string, xs: seq<string>): (r: string)
    ensures xs == [] ==> r == ""
    ensures |xs| == 1 ==> r == xs[0]
  {
    if xs == [] then ""
    else if |xs| == 1 then xs[0]
    else xs[0] + sep + Join(sep, xs[1..])
  }

  /** Joining one more string appends the separator and that string. */
  lemma {:induction false} JoinSnoc(sep: string, xs: seq<string>, y: string)
    requires xs != []
    ensures Join(sep, xs + [y]) == Join(sep, xs) + sep + y
    decreases |xs|
  {
    if |xs| == 1 {
      assert xs + [y] == [xs[0], y];
      assert [xs[0], y][1..] == [y];
    } else {
      JoinSnoc(sep, xs[1..], y);
      assert (xs + [y])[1..] == xs[1..] + [y];
      assert (xs + [y])[0] == xs[0];
    }
  }

  /** Every member of `xs` occurs in `Join(sep, xs)`. */
  lemma {:induction false} JoinContainsMember(sep: string, xs: seq<string>, i: nat)
    requires i < |xs|
    ensures Contains(Join(sep, xs), xs[i])
  {
    if |xs| == 1 {
      ContainsAt(xs[0], xs[0], 0);
    } else if i == 0 {
      var j := Join(sep, xs);
      assert j[0..|xs[0]|] == xs[0];
      ContainsAt(j, xs[0], 0);
    } else {
      JoinContainsMember(sep, xs[1..], i - 1);
      var rest := Join(sep, xs[1..]);
      FindFirst(rest, xs[i]);
      var k := Find(rest, xs[i]);
      var off := |xs[0] + sep|;
      var j := Join(sep, xs);
      assert j == xs[0] + sep + rest;
      assert j[off + k..off + k + |xs[i]|] == rest[k..k + |xs[i]|];
      ContainsAt(j, xs[i], off + k);
    }
  }

  /** `[x for x in xs if keep(x)]`. */
  function Filter<T>(xs: seq<T>, keep: T -> bool): (r: seq<T>)
    ensures |r| <= |xs|
    decreases |xs|
  {
    if xs == [] then []
    else (if keep(xs[0]) then [xs[0]] else []) + Filter(xs[1..], keep)
  }

  /** The filter keeps exactly the elements `keep` accepts. */
  lemma {:induction false} FilterMembers<T>(xs: seq<T>, keep: T -> bool, x: T)
    ensures x in Filter(xs, keep) <==> x in xs && keep(x)
    decreases |xs|
  {
    if xs != [] {
      FilterMembers(xs[1..], keep, x);
      assert xs == [xs[0]] + xs[1..];
    }
  }

  /** Every element of the filter is accepted by `keep`. */
  lemma {:induction false} FilterAccepts<T>(xs: seq<T>, keep: T -> bool)
    ensures forall i :: 0 <= i < |Filter(xs, keep)| ==> keep(Filter(xs, keep)[i])
    decreases |xs|
  {
    if xs != [] {
      FilterAccepts(xs[1..], keep);
      var rest := Filter(xs[1..], keep);
      var head := if keep(xs[0]) then [xs[0]] else [];
      forall i | 0 <= i < |head + rest| ensures keep((head + rest)[i]) {
        if i >= |head| {
          assert (head + rest)[i] == rest[i - |head|];
        }
      }
    }
  }

  /** Filtering a list extended by one element: the filter of the list, then that
      element if it is kept. This is how a loop that appends the kept elements proceeds. */
  lemma {:induction false} FilterSnoc<T>(xs: seq<T>, y: T, keep: T -> bool)
    ensures Filter(xs + [y], keep) == Filter(xs, keep) + (if keep(y) then [y] else [])
    decreases |xs|
  {
    if xs == [] {
      assert [] + [y] == [y];
      assert [y][1..] == [];
    } else {
      var zs := xs + [y];
      var head := if keep(xs[0]) then [xs[0]] else [];
      var tail := if keep(y) then [y] else [];
      assert zs[0] == xs[0] && zs[1..] == xs[1..] + [y];
      FilterSnoc(xs[1..], y, keep);
      calc {
        Filter(zs, keep);
        head + Filter(xs[1..] + [y], keep);
        head + (Filter(xs[1..], keep) + tail);
        (head + Filter(xs[1..], keep)) + tail;
        Filter(xs, keep) + tail;
      }
    }
  }

  /** `xs` can be obtained from `ys` by deleting elements. */
  predicate IsSubsequence<T(==)>(xs: seq<T>, ys: seq<T>)
    decreases |ys|
  {
    if xs == [] then true
    else if ys == [] then false
    else if xs[0] == ys[0] then IsSubsequence(xs[1..], ys[1..])
    else IsSubsequence(xs, ys[1..])
  }
}
