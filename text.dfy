/**
 * The JavaScript string operations the extractor relies on: `\s` and `trim`,
 * `String.prototype.replace` with a string pattern (first occurrence only),
 * `replace(/\s+/g, ' ')`, decimal rendering of counters, `toLowerCase` and
 * `Array.prototype.join`.
 */
module Text {
  import opened Wrappers

  /** JavaScript's `\s` class: WhiteSpace and LineTerminator, the same set `trim` strips. */
  predicate IsSpace(c: char) {
    || c == ' ' || c == '\t' || c == '\n' || c == '\U{B}' || c == '\U{C}' || c == '\r'
    || c == '\U{A0}' || c == '\U{1680}' || ('\U{2000}' <= c <= '\U{200A}')
    || c == '\U{2028}' || c == '\U{2029}' || c == '\U{202F}' || c == '\U{205F}'
    || c == '\U{3000}' || c == '\U{FEFF}'
  }

  /** Concatenation is associative; stated once, for any element type. */
  lemma ConcatAssociative<T>(a: seq<T>, b: seq<T>, c: seq<T>)
    ensures (a + b) + c == a + (b + c)
  {
  }

  predicate IsDigit(c: char) {
    '0' <= c <= '9'
  }

  predicate StartsWith(s: string, prefix: string) {
    |prefix| <= |s| && s[..|prefix|] == prefix
  }

  predicate EndsWith(s: string, suffix: string) {
    |suffix| <= |s| && s[|s| - |suffix|..] == suffix
  }

  /** `pat` occurs in `s` starting at index `i`. */
  predicate OccursAt(s: string, pat: string, i: nat) {
    i + |pat| <= |s| && s[i..i + |pat|] == pat
  }

  predicate Contains(s: string, pat: string) {
    exists i: nat | i <= |s| :: OccursAt(s, pat, i)
  }

  /** The first index at or after `from` where `pat` occurs (`indexOf`). */
  function IndexFrom(s: string, pat: string, from: nat): (r: Option<nat>)
    requires from <= |s|
    ensures r.Some? ==> from <= r.value && OccursAt(s, pat, r.value)
    ensures r.Some? ==> forall j :: from <= j < r.value ==> !OccursAt(s, pat, j)
    ensures r.None? ==> forall j :: from <= j ==> !OccursAt(s, pat, j)
    decreases |s| - from
  {
    if OccursAt(s, pat, from) then Some(from)
    else if from == |s| then None
    else IndexFrom(s, pat, from + 1)
  }

  function IndexOf(s: string, pat: string): (r: Option<nat>)
    ensures r.Some? ==> OccursAt(s, pat, r.value) && forall j :: 0 <= j < r.value ==> !OccursAt(s, pat, j)
    ensures r.None? <==> !Contains(s, pat)
  {
    IndexFrom(s, pat, 0)
  }

  /** `s.replace(pat, rep)` with a string pattern: only the first occurrence is replaced. */
  function ReplaceFirst(s: string, pat: string, rep: string): (r: string)
    ensures !Contains(s, pat) ==> r == s
    ensures Contains(s, pat) ==> exists i: nat :: OccursAt(s, pat, i) && r == s[..i] + rep + s[i + |pat|..]
  {
    match IndexOf(s, pat)
    case None => s
    case Some(i) => s[..i] + rep + s[i + |pat|..]
  }

  /** A pattern the string starts with is the one replaced. */
  lemma ReplaceAtStart(s: string, pat: string, rep: string)
    requires OccursAt(s, pat, 0)
    ensures ReplaceFirst(s, pat, rep) == rep + s[|pat|..]
  {
    var i := IndexOf(s, pat);
    assert i.Some? && i.value == 0;
    assert s[..0] + rep == rep;
  }

  /** Drops the leading `\s` characters. */
  function TrimStart(s: string): (r: string)
    ensures |r| <= |s| && r == s[|s| - |r|..]
    ensures forall k :: 0 <= k < |s| - |r| ==> IsSpace(s[k])
    ensures r == [] || !IsSpace(r[0])
  {
    if s != [] && IsSpace(s[0]) then
      var r := TrimStart(s[1..]);
      assert forall k :: 1 <= k < |s| - |r| ==> s[k] == s[1..][k - 1];
      r
    else s
  }

  /** Drops the trailing `\s` characters. */
  function TrimEnd(s: string): (r: string)
    ensures |r| <= |s| && r == s[..|r|]
    ensures forall k :: |r| <= k < |s| ==> IsSpace(s[k])
    ensures r == [] || !IsSpace(r[|r| - 1])
  {
    if s != [] && IsSpace(s[|s| - 1]) then TrimEnd(s[..|s| - 1]) else s
  }

  /** `String.prototype.trim`. */
  function Trim(s: string): (r: string)
    ensures r == [] || (!IsSpace(r[0]) && !IsSpace(r[|r| - 1]))
    ensures (s == [] || (!IsSpace(s[0]) && !IsSpace(s[|s| - 1]))) ==> r == s
    ensures r == [] <==> forall k :: 0 <= k < |s| ==> IsSpace(s[k])
    ensures |r| <= |s|
  {
    var t := TrimStart(s);
    var r := TrimEnd(t);
    assert r != [] ==> r[0] == t[0] && t[0] == s[|s| - |t|];
    assert t != [] ==> !IsSpace(t[0]) && t[|t| - 1] == s[|s| - 1];
    r
  }

  /** What `trim` keeps is one contiguous piece of the string. */
  lemma TrimIsSlice(s: string)
    ensures Contains(s, Trim(s))
  {
    var t := TrimStart(s);
    var r := TrimEnd(t);
    assert s[|s| - |t|..|s| - |t| + |r|] == t[..|r|];
    assert OccursAt(s, r, |s| - |t|);
  }

  lemma NonSpacesTrimEnd(t: string)
    ensures NonSpaces(TrimEnd(t)) == NonSpaces(t)
  {
    var r := TrimEnd(t);
    var tail := t[|r|..];
    assert t == r + tail;
    forall k | 0 <= k < |tail|
      ensures IsSpace(tail[k])
    {
      assert tail[k] == t[|r| + k];
    }
    NonSpacesAppend(r, tail);
    NonSpacesOfSpaces(tail);
  }

  /** Trimming drops white space only. */
  lemma NonSpacesTrim(s: string)
    ensures NonSpaces(Trim(s)) == NonSpaces(s)
  {
    NonSpacesTrimStart(s);
    NonSpacesTrimEnd(TrimStart(s));
    assert Trim(s) == TrimEnd(TrimStart(s));
  }

  /** Every `\s` character left is a plain space, and no two of them are adjacent. */
  predicate Collapsed(r: string) {
    && (forall i :: 0 <= i < |r| && IsSpace(r[i]) ==> r[i] == ' ')
    && (forall i :: 0 <= i < |r| - 1 ==> !(IsSpace(r[i]) && IsSpace(r[i + 1])))
  }

  /** `s.replace(/\s+/g, ' ')`: every maximal run of `\s` characters becomes one space. */
  function CollapseSpaces(s: string): (r: string)
    ensures |r| <= |s|
    ensures (r != [] && IsSpace(r[0])) <==> (s != [] && IsSpace(s[0]))
    decreases |s|
  {
    if s == [] then []
    else if IsSpace(s[0]) then [' '] + CollapseSpaces(TrimStart(s[1..]))
    else [s[0]] + CollapseSpaces(s[1..])
  }

  /** A character in front of a collapsed string keeps it collapsed unless two spaces meet. */
  lemma ConsCollapsed(c: char, t: string)
    requires Collapsed(t)
    requires IsSpace(c) ==> c == ' ' && (t == [] || !IsSpace(t[0]))
    ensures Collapsed([c] + t)
  {
    var r := [c] + t;
    assert forall i :: 1 <= i < |r| ==> r[i] == t[i - 1];
  }

  /** The result of collapsing is collapsed. */
  lemma {:induction false} CollapseIsCollapsed(s: string)
    ensures Collapsed(CollapseSpaces(s))
    decreases |s|
  {
    if s != [] {
      if IsSpace(s[0]) {
        var rest := TrimStart(s[1..]);
        CollapseIsCollapsed(rest);
        ConsCollapsed(' ', CollapseSpaces(rest));
      } else {
        CollapseIsCollapsed(s[1..]);
        ConsCollapsed(s[0], CollapseSpaces(s[1..]));
      }
    }
  }

  /** Dropping the first character of a collapsed string leaves it collapsed. */
  lemma CollapsedTail(s: string)
    requires s != [] && Collapsed(s)
    ensures Collapsed(s[1..])
  {
    var t := s[1..];
    assert forall i :: 0 <= i < |t| ==> t[i] == s[i + 1];
  }

  /** White space followed by a non-space (or nothing) is dropped whole by `TrimStart`. */
  lemma {:induction false} TrimStartSpaces(w: string, b: string)
    requires forall k :: 0 <= k < |w| ==> IsSpace(w[k])
    requires b == [] || !IsSpace(b[0])
    ensures TrimStart(w + b) == b
    decreases |w|
  {
    if w == [] {
      assert w + b == b;
    } else {
      assert (w + b)[0] == w[0] && (w + b)[1..] == w[1..] + b;
      TrimStartSpaces(w[1..], b);
    }
  }

  /** Leading white space of `a + s` lies within `a` when `a` ends with a non-space. */
  lemma {:induction false} TrimStartAppend(a: string, s: string)
    requires a != [] && !IsSpace(a[|a| - 1])
    ensures TrimStart(a + s) == TrimStart(a) + s
    decreases |a|
  {
    assert (a + s)[0] == a[0] && (a + s)[1..] == a[1..] + s;
    if IsSpace(a[0]) {
      TrimStartAppend(a[1..], s);
    }
  }

  /** Collapsing distributes over a split that follows a non-space character. */
  lemma {:induction false} CollapseAppend(a: string, s: string)
    requires a == [] || !IsSpace(a[|a| - 1])
    ensures CollapseSpaces(a + s) == CollapseSpaces(a) + CollapseSpaces(s)
    decreases |a|
  {
    if a == [] {
      assert a + s == s;
    } else {
      assert (a + s)[0] == a[0] && (a + s)[1..] == a[1..] + s;
      if IsSpace(a[0]) {
        var rest := a[1..];
        TrimStartAppend(rest, s);
        var t := TrimStart(rest);
        assert !IsSpace(rest[|rest| - 1]);
        assert |t| > 0;
        assert t[|t| - 1] == rest[|rest| - 1];
        CollapseAppend(t, s);
        ConcatAssociative([' '], CollapseSpaces(t), CollapseSpaces(s));
      } else {
        CollapseAppend(a[1..], s);
        ConcatAssociative([a[0]], CollapseSpaces(a[1..]), CollapseSpaces(s));
      }
    }
  }

  /** A leading run of white space collapses to one space. */
  lemma CollapseLeadingRun(w: string, b: string)
    requires w != [] && forall k :: 0 <= k < |w| ==> IsSpace(w[k])
    requires b == [] || !IsSpace(b[0])
    ensures CollapseSpaces(w + b) == " " + CollapseSpaces(b)
  {
    var wb := w + b;
    assert IsSpace(wb[0]) && wb[1..] == w[1..] + b;
    TrimStartSpaces(w[1..], b);
  }

  /** A run of white space between two words becomes exactly one space. */
  lemma CollapseRun(a: string, w: string, b: string)
    requires a == [] || !IsSpace(a[|a| - 1])
    requires w != [] && forall k :: 0 <= k < |w| ==> IsSpace(w[k])
    requires b == [] || !IsSpace(b[0])
    ensures CollapseSpaces(a + w + b) == CollapseSpaces(a) + " " + CollapseSpaces(b)
  {
    ConcatAssociative(a, w, b);
    CollapseAppend(a, w + b);
    CollapseLeadingRun(w, b);
    ConcatAssociative(CollapseSpaces(a), " ", CollapseSpaces(b));
  }

  /** `replace` with a string pattern rewrites its first occurrence. */
  lemma ReplaceFirstAt(s: string, pat: string, rep: string, i: nat)
    requires OccursAt(s, pat, i)
    requires forall j :: 0 <= j < i ==> !OccursAt(s, pat, j)
    ensures ReplaceFirst(s, pat, rep) == s[..i] + rep + s[i + |pat|..]
  {
    var found := IndexOf(s, pat);
    assert found.Some?;
    assert found.value == i;
  }

  /** Replacing the first `c` by nothing, where `a` holds no `c`, cuts out the `c` that follows `a`. */
  lemma DropFirstChar(a: string, c: char, b: string)
    requires forall k :: 0 <= k < |a| ==> a[k] != c
    ensures ReplaceFirst(a + [c] + b, [c], "") == a + b
  {
    var s := a + [c] + b;
    assert OccursAt(s, [c], |a|) by {
      assert s[|a|..|a| + 1] == [c];
    }
    forall j | 0 <= j < |a|
      ensures !OccursAt(s, [c], j)
    {
      assert s[j..j + 1][0] == a[j];
    }
    ReplaceFirstAt(s, [c], "", |a|);
    assert s[..|a|] == a && s[|a| + 1..] == b;
    assert a + "" + b == a + b;
  }

  /** A character that never occurs is not found as a one-character pattern. */
  lemma AbsentChar(s: string, c: char)
    requires forall k :: 0 <= k < |s| ==> s[k] != c
    ensures !Contains(s, [c])
  {
    forall i: nat | i <= |s|
      ensures !OccursAt(s, [c], i)
    {
      if i < |s| {
        assert s[i..i + 1][0] == s[i];
      }
    }
  }

  /** The characters of `s` that are not `\s`, in order. */
  function NonSpaces(s: string): string {
    if s == [] then []
    else (if IsSpace(s[0]) then [] else [s[0]]) + NonSpaces(s[1..])
  }

  lemma {:induction false} NonSpacesOfSpaces(s: string)
    requires forall k :: 0 <= k < |s| ==> IsSpace(s[k])
    ensures NonSpaces(s) == []
  {
    if s != [] {
      NonSpacesOfSpaces(s[1..]);
    }
  }

  lemma {:induction false} NonSpacesTrimStart(s: string)
    ensures NonSpaces(TrimStart(s)) == NonSpaces(s)
  {
    if s != [] && IsSpace(s[0]) {
      NonSpacesTrimStart(s[1..]);
    }
  }

  /** Collapsing keeps every non-space character, in order. */
  lemma {:induction false} CollapseKeepsText(s: string)
    ensures NonSpaces(CollapseSpaces(s)) == NonSpaces(s)
    decreases |s|
  {
    if s == [] {
    } else if IsSpace(s[0]) {
      var t := TrimStart(s[1..]);
      CollapseKeepsText(t);
      NonSpacesTrimStart(s[1..]);
      var r := CollapseSpaces(s);
      assert r == [' '] + CollapseSpaces(t);
      assert r[1..] == CollapseSpaces(t);
    } else {
      CollapseKeepsText(s[1..]);
      var r := CollapseSpaces(s);
      assert r[1..] == CollapseSpaces(s[1..]);
    }
  }

  /** A string that is already collapsed is left unchanged. */
  lemma {:induction false} CollapseFixpoint(s: string)
    requires Collapsed(s)
    ensures CollapseSpaces(s) == s
    decreases |s|
  {
    if s != [] {
      var t := s[1..];
      CollapsedTail(s);
      CollapseFixpoint(t);
      if IsSpace(s[0]) {
        CollapsedHead(s);
        assert TrimStart(t) == t;
        assert CollapseSpaces(s) == [' '] + t;
      } else {
        assert CollapseSpaces(s) == [s[0]] + t;
      }
      assert s == [s[0]] + t;
    }
  }

  /** A collapsed string that starts with white space starts with one plain space. */
  lemma CollapsedHead(s: string)
    requires s != [] && Collapsed(s) && IsSpace(s[0])
    ensures s[0] == ' ' && (s[1..] == [] || !IsSpace(s[1..][0]))
  {
    if |s| > 1 {
      assert s[1..][0] == s[1];
    }
  }

  /** Collapsing twice is collapsing once. */
  lemma CollapseIdempotent(s: string)
    ensures CollapseSpaces(CollapseSpaces(s)) == CollapseSpaces(s)
  {
    CollapseIsCollapsed(s);
    CollapseFixpoint(CollapseSpaces(s));
  }

  function DigitChar(d: nat): (c: char)
    requires d < 10
    ensures IsDigit(c) && c as int - '0' as int == d
  {
    (d + '0' as int) as char
  }

  /** The decimal text JavaScript gives a non-negative integer in a template or `toString`. */
  function NatToDecimal(n: nat): (r: string)
    ensures |r| >= 1 && forall i :: 0 <= i < |r| ==> IsDigit(r[i])
    decreases n
  {
    if n < 10 then [DigitChar(n)] else NatToDecimal(n / 10) + [DigitChar(n % 10)]
  }

  function DigitValue(c: char): nat
    requires IsDigit(c)
  {
    c as int - '0' as int
  }

  /** The value of a string of decimal digits. */
  function DecimalValue(s: string): nat
    requires forall i :: 0 <= i < |s| ==> IsDigit(s[i])
  {
    if s == [] then 0
    else DecimalValue(s[..|s| - 1]) * 10 + DigitValue(s[|s| - 1])
  }

  /** Reading back the decimal rendering gives the number: rendering is injective. */
  lemma {:induction false} DecimalRoundTrip(n: nat)
    ensures DecimalValue(NatToDecimal(n)) == n
    decreases n
  {
    if n >= 10 {
      DecimalRoundTrip(n / 10);
      var s := NatToDecimal(n);
      assert s[..|s| - 1] == NatToDecimal(n / 10);
    }
  }

  lemma DecimalInjective(m: nat, n: nat)
    requires NatToDecimal(m) == NatToDecimal(n)
    ensures m == n
  {
    DecimalRoundTrip(m);
    DecimalRoundTrip(n);
  }

  function LowerChar(c: char): char {
    if 'A' <= c <= 'Z' then (c as int + 32) as char else c
  }

  /** `toLowerCase`, restricted to the ASCII letters. */
  function ToLowerAscii(s: string): (r: string)
    ensures |r| == |s|
    ensures forall i :: 0 <= i < |s| ==> r[i] == LowerChar(s[i])
  {
    seq(|s|, i requires 0 <= i < |s| => LowerChar(s[i]))
  }

  /** `parts.join(sep)`. */
  function Join(parts: seq<string>, sep: string): string {
    if |parts| == 0 then ""
    else if |parts| == 1 then parts[0]
    else parts[0] + sep + Join(parts[1..], sep)
  }

  /** Every part of a join occurs in the joined text. */
  lemma {:induction false} JoinContains(parts: seq<string>, sep: string, k: nat)
    requires k < |parts|
    ensures Contains(Join(parts, sep), parts[k])
  {
    var j := Join(parts, sep);
    if |parts| == 1 {
      assert OccursAt(j, parts[k], 0);
    } else if k == 0 {
      assert j[..|parts[0]|] == parts[0];
      assert OccursAt(j, parts[k], 0);
    } else {
      JoinContains(parts[1..], sep, k - 1);
      var rest := Join(parts[1..], sep);
      var p := parts[k];
      assert p == parts[1..][k - 1];
      var i: nat :| i <= |rest| && OccursAt(rest, p, i);
      var off := |parts[0]| + |sep|;
      assert j == (parts[0] + sep) + rest;
      assert |j| == off + |rest|;
      assert i + |p| <= |rest|;
      assert j[off + i..off + i + |p|] == rest[i..i + |p|];
      assert OccursAt(j, p, off + i);
    }
  }

  /** A pattern occurring in the middle part occurs in the whole. */
  lemma ContainsWithin(a: string, b: string, c: string, pat: string)
    requires Contains(b, pat)
    ensures Contains(a + b + c, pat)
  {
    var i: nat :| i <= |b| && OccursAt(b, pat, i);
    var s := a + b + c;
    assert s[|a| + i..|a| + i + |pat|] == b[i..i + |pat|];
    assert OccursAt(s, pat, |a| + i);
  }

  lemma {:induction false} NonSpacesAppend(a: string, b: string)
    ensures NonSpaces(a + b) == NonSpaces(a) + NonSpaces(b)
  {
    if a == [] {
      assert a + b == b;
    } else {
      assert (a + b)[0] == a[0] && (a + b)[1..] == a[1..] + b;
      NonSpacesAppend(a[1..], b);
    }
  }

  /** A string is the part before index `i`, the `n` characters from `i`, and the rest. */
  lemma SplitAround<T>(s: seq<T>, i: nat, n: nat)
    requires i + n <= |s|
    ensures s == s[..i] + s[i..i + n] + s[i + n..]
  {
  }

  /** White space between two parts contributes no non-space character. */
  lemma NonSpacesAround(pre: string, mid: string, post: string)
    requires forall k :: 0 <= k < |mid| ==> IsSpace(mid[k])
    ensures NonSpaces(pre + mid + post) == NonSpaces(pre) + NonSpaces(post)
  {
    NonSpacesAppend(pre + mid, post);
    NonSpacesAppend(pre, mid);
    NonSpacesOfSpaces(mid);
    assert NonSpaces(pre) + [] == NonSpaces(pre);
  }

  /** Replacing the first occurrence of a white-space pattern by white space keeps every non-space character. */
  lemma ReplaceSpacesKeepsText(s: string, pat: string, rep: string)
    requires forall k :: 0 <= k < |pat| ==> IsSpace(pat[k])
    requires forall k :: 0 <= k < |rep| ==> IsSpace(rep[k])
    ensures NonSpaces(ReplaceFirst(s, pat, rep)) == NonSpaces(s)
  {
    if Contains(s, pat) {
      var i: nat :| OccursAt(s, pat, i) && ReplaceFirst(s, pat, rep) == s[..i] + rep + s[i + |pat|..];
      assert OccursAt(s, pat, i);
      assert i + |pat| <= |s|;
      SplitAround(s, i, |pat|);
      NonSpacesAround(s[..i], pat, s[i + |pat|..]);
      NonSpacesAround(s[..i], rep, s[i + |pat|..]);
    }
  }
}
