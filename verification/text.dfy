/** The .NET string operations the modelled code relies on.

    Case mapping is ASCII only: `ToLowerInvariant` and
    `StringComparison.OrdinalIgnoreCase` are modelled on the letters A-Z. */
module Text {
  import opened Basics

  /** `string.IsNullOrEmpty`. */
  predicate IsNullOrEmpty(s: Option<string>) {
    s.None? || s.value == ""
  }

  /** `EmptyToNull` extension: both null and "" become null. */
  function EmptyToNull(s: Option<string>): (r: Option<string>)
    ensures r.None? <==> IsNullOrEmpty(s)
    ensures r.Some? ==> r == s
  {
    if IsNullOrEmpty(s) then None else s
  }

  /** `char.IsWhiteSpace`: the Unicode space, line and paragraph separators
      plus the control characters U+0009-U+000D and U+0085. */
  predicate IsWhiteSpace(c: char) {
    || '\U{9}' <= c <= '\U{D}'
    || c == ' ' || c == '\U{85}' || c == '\U{A0}' || c == '\U{1680}'
    || '\U{2000}' <= c <= '\U{200A}'
    || c == '\U{2028}' || c == '\U{2029}' || c == '\U{202F}' || c == '\U{205F}'
    || c == '\U{3000}'
  }

  /** `string.IsNullOrWhiteSpace`. */
  predicate IsNullOrWhiteSpace(s: Option<string>) {
    s.None? || forall i :: 0 <= i < |s.value| ==> IsWhiteSpace(s.value[i])
  }

  function LowerChar(c: char): char {
    if 'A' <= c <= 'Z' then (c as int + 32) as char else c
  }

  /** `ToLowerInvariant`, restricted to ASCII letters. */
  function ToLower(s: string): (r: string)
    ensures |r| == |s|
    ensures forall i :: 0 <= i < |s| ==> r[i] == LowerChar(s[i])
    ensures forall i :: 0 <= i < |r| ==> !('A' <= r[i] <= 'Z')
  {
    seq(|s|, i requires 0 <= i < |s| => LowerChar(s[i]))
  }

  /** Lower-casing twice is lower-casing once. */
  lemma ToLowerIdempotent(s: string)
    ensures ToLower(ToLower(s)) == ToLower(s)
  {
  }

  predicate IsPrefix(t: string, s: string) {
    |t| <= |s| && s[..|t|] == t
  }

  /** Ordinal `s.Contains(t)`, scanning `s` from the left. */
  function Contains(s: string, t: string): bool
    decreases |s|
  {
    IsPrefix(t, s) || (|s| > 0 && Contains(s[1..], t))
  }

  /** Reference meaning of `Contains`: `t` occurs in `s` at some offset. */
  predicate OccursAt(s: string, t: string, k: int) {
    0 <= k && k + |t| <= |s| && s[k..k + |t|] == t
  }

  lemma {:induction false} ContainsIffOccurs(s: string, t: string)
    ensures Contains(s, t) <==> exists k :: OccursAt(s, t, k)
    decreases |s|
  {
    if |s| > 0 {
      ContainsIffOccurs(s[1..], t);
      if exists k :: OccursAt(s, t, k) {
        var k :| OccursAt(s, t, k);
        if k > 0 {
          assert s[1..][k - 1..k - 1 + |t|] == s[k..k + |t|];
          assert OccursAt(s[1..], t, k - 1);
        } else {
          assert IsPrefix(t, s);
        }
      }
      if Contains(s[1..], t) && !IsPrefix(t, s) {
        var k :| OccursAt(s[1..], t, k);
        assert s[k + 1..k + 1 + |t|] == s[1..][k..k + |t|];
        assert OccursAt(s, t, k + 1);
      }
      if IsPrefix(t, s) {
        assert OccursAt(s, t, 0);
      }
    } else {
      if exists k :: OccursAt(s, t, k) {
        var k :| OccursAt(s, t, k);
        assert |t| == 0;
        assert IsPrefix(t, s);
      }
      if IsPrefix(t, s) {
        assert OccursAt(s, t, 0);
      }
    }
  }

  /** `s.ToLowerInvariant().Contains(t.ToLowerInvariant())`. */
  predicate ContainsIgnoreCase(s: string, t: string) {
    Contains(ToLower(s), ToLower(t))
  }

  /** `a.Equals(b, StringComparison.OrdinalIgnoreCase)`. */
  predicate EqualsIgnoreCase(a: string, b: string) {
    ToLower(a) == ToLower(b)
  }

  /** Strips leading characters of `cs`. */
  function TrimStart(s: string, cs: set<char>): (r: string)
    ensures |r| <= |s| && r == s[|s| - |r|..]
    ensures forall i :: 0 <= i < |s| - |r| ==> s[i] in cs
    ensures |r| > 0 ==> r[0] !in cs
    decreases |s|
  {
    if |s| > 0 && s[0] in cs then TrimStart(s[1..], cs) else s
  }

  /** Strips trailing characters of `cs`. */
  function TrimEnd(s: string, cs: set<char>): (r: string)
    ensures |r| <= |s| && r == s[..|r|]
    ensures forall i :: |r| <= i < |s| ==> s[i] in cs
    ensures |r| > 0 ==> r[|r| - 1] !in cs
    decreases |s|
  {
    if |s| > 0 && s[|s| - 1] in cs then TrimEnd(s[..|s| - 1], cs) else s
  }

  /** `s.Trim(cs)`: strips leading and trailing characters of `cs`. The result
      is a slice `s[lo..hi]` such that everything outside it belongs to `cs`
      and it neither starts nor ends with a character of `cs`. */
  function Trim(s: string, cs: set<char>): (r: string)
    ensures exists lo, hi :: 0 <= lo <= hi <= |s| && r == s[lo..hi] &&
                             (forall i :: 0 <= i < lo ==> s[i] in cs) &&
                             (forall i :: hi <= i < |s| ==> s[i] in cs)
    ensures |r| > 0 ==> r[0] !in cs && r[|r| - 1] !in cs
  {
    var a := TrimStart(s, cs);
    var b := TrimEnd(a, cs);
    TrimWitness(s, cs, a, b);
    b
  }

  /** The slice bounds behind `Trim`'s contract: `b` is a prefix of the
      suffix `a` of `s`, and what `b` leaves of `a` lies in `cs`. */
  lemma TrimWitness(s: string, cs: set<char>, a: string, b: string)
    requires |a| <= |s| && a == s[|s| - |a|..]
    requires |b| <= |a| && b == a[..|b|]
    requires forall i :: |b| <= i < |a| ==> a[i] in cs
    ensures b == s[|s| - |a|..|s| - |a| + |b|]
    ensures forall i :: |s| - |a| + |b| <= i < |s| ==> s[i] in cs
  {
    var lo := |s| - |a|;
    forall i | lo + |b| <= i < |s|
      ensures s[i] in cs
    {
      assert s[i] == a[i - lo];
    }
  }

  /** Trimming a string whose ends are already clean changes nothing. */
  lemma TrimClean(s: string, cs: set<char>)
    requires |s| > 0 ==> s[0] !in cs && s[|s| - 1] !in cs
    ensures Trim(s, cs) == s
  {
  }

  /** Characters of `cs` added at either end are trimmed away again. */
  lemma {:induction false} TrimSurrounded(s: string, c: char, cs: set<char>)
    requires c in cs
    ensures Trim([c] + s + [c], cs) == Trim(s, cs)
  {
    var t := [c] + s + [c];
    assert t[1..] == s + [c];
    assert TrimStart(t, cs) == TrimStart(s + [c], cs);
    TrimStartAppend(s, c, cs);
    var a := TrimStart(s, cs);
    assert TrimEnd(a + [c], cs) == TrimEnd(a, cs) by {
      assert (a + [c])[..|a + [c]| - 1] == a;
    }
  }

  /** Trimming the start of `s + [c]` when `c` is itself trimmable. */
  lemma {:induction false} TrimStartAppend(s: string, c: char, cs: set<char>)
    requires c in cs
    ensures TrimStart(s + [c], cs) == TrimStart(s, cs) + [c] ||
            (TrimStart(s + [c], cs) == [] && TrimStart(s, cs) == [])
    ensures TrimEnd(TrimStart(s + [c], cs), cs) == TrimEnd(TrimStart(s, cs), cs)
    decreases |s|
  {
    if |s| == 0 {
      assert ([] + [c])[1..] == [];
    } else {
      assert (s + [c])[0] == s[0];
      if s[0] in cs {
        assert (s + [c])[1..] == s[1..] + [c];
        TrimStartAppend(s[1..], c, cs);
      } else {
        var a := s;
        assert (a + [c])[..|a + [c]| - 1] == a;
      }
    }
  }

  /** `s.Replace(from, to)` for single characters. */
  function ReplaceChar(s: string, from: char, to: char): (r: string)
    ensures |r| == |s|
    ensures forall i :: 0 <= i < |s| ==> r[i] == (if s[i] == from then to else s[i])
  {
    seq(|s|, i requires 0 <= i < |s| => if s[i] == from then to else s[i])
  }

  /** `string.Join(sep, parts)`. */
  function Join(sep: string, parts: seq<string>): string
    decreases |parts|
  {
    if |parts| == 0 then ""
    else if |parts| == 1 then parts[0]
    else parts[0] + sep + Join(sep, parts[1..])
  }

  function TotalLength(parts: seq<string>): nat
    decreases |parts|
  {
    if |parts| == 0 then 0 else |parts[0]| + TotalLength(parts[1..])
  }

  /** `n` parts are glued by exactly `n - 1` separators. */
  lemma {:induction false} JoinLength(sep: string, parts: seq<string>)
    requires |parts| > 0
    ensures |Join(sep, parts)| == TotalLength(parts) + (|parts| - 1) * |sep|
    decreases |parts|
  {
    if |parts| > 1 {
      JoinLength(sep, parts[1..]);
    }
  }

  /** Appending a part appends one separator and the part. */
  lemma {:induction false} JoinSnoc(sep: string, parts: seq<string>, last: string)
    requires |parts| > 0
    ensures Join(sep, parts + [last]) == Join(sep, parts) + sep + last
    decreases |parts|
  {
    if |parts| == 1 {
      assert (parts + [last])[1..] == [last];
    } else {
      assert (parts + [last])[1..] == parts[1..] + [last];
      JoinSnoc(sep, parts[1..], last);
    }
  }
}
