/** ASCII models of the Python `str` operations the node source relies on:
    `strip`, `startswith`, `in`, `find`, `split` and `join` on a one-character
    separator, `lower`, `upper`, `capitalize`, `str(int)` and the ordering
    `sorted` uses on strings. */
module Text {
  import opened Results

  /** Python's `str.isspace` restricted to ASCII: tab through carriage
      return, the four information separators 0x1C-0x1F, and space. */
  predicate IsSpace(c: char) {
    c == ' ' || ('\t' <= c <= '\r') || ('\U{1C}' <= c <= '\U{1F}')
  }

  /** Every character is whitespace: a string whose `strip()` is empty. */
  predicate IsBlank(s: string) {
    forall i | 0 <= i < |s| :: IsSpace(s[i])
  }

  /** Neither end is whitespace: the shape `strip()` leaves behind. */
  predicate IsStripped(s: string) {
    |s| == 0 || (!IsSpace(s[0]) && !IsSpace(s[|s| - 1]))
  }

  /** The index of the first non-whitespace character at or after `from`,
      or `|s|` when there is none: where `lstrip()` cuts. */
  function SkipSpaces(s: string, from: nat): (r: nat)
    requires from <= |s|
    decreases |s| - from
    ensures from <= r <= |s|
    ensures forall i | from <= i < r :: IsSpace(s[i])
    ensures r < |s| ==> !IsSpace(s[r])
  {
    if from < |s| && IsSpace(s[from]) then SkipSpaces(s, from + 1) else from
  }

  /** The end of `s[lo..hi]` once its trailing whitespace is dropped: where
      `rstrip()` cuts. */
  function DropSpaces(s: string, lo: nat, hi: nat): (r: nat)
    requires lo <= hi <= |s|
    decreases hi - lo
    ensures lo <= r <= hi
    ensures forall i | r <= i < hi :: IsSpace(s[i])
    ensures r > lo ==> !IsSpace(s[r - 1])
  {
    if hi > lo && IsSpace(s[hi - 1]) then DropSpaces(s, lo, hi - 1) else hi
  }

  /** `s.strip()`: both ends stripped; empty exactly when `s` is blank; what
      is left once a blank prefix and a blank suffix are cut from `s`. */
  function Strip(s: string): (r: string)
    ensures IsStripped(r)
    ensures r == [] <==> IsBlank(s)
    ensures forall c | c in r :: c in s
    ensures exists lo, hi | 0 <= lo <= hi <= |s| :: IsBlank(s[..lo]) && s[lo..hi] == r && IsBlank(s[hi..])
  {
    var lo := SkipSpaces(s, 0);
    var hi := DropSpaces(s, lo, |s|);
    assert IsBlank(s[..lo]) && IsBlank(s[hi..]);
    s[lo..hi]
  }

  /** `s[lo..hi]` is a non-empty stripped core with only whitespace on both
      sides. */
  predicate Trims(s: string, lo: int, hi: int) {
    && 0 <= lo < hi <= |s|
    && (forall i | 0 <= i < lo :: IsSpace(s[i]))
    && !IsSpace(s[lo]) && !IsSpace(s[hi - 1])
    && (forall i | hi <= i < |s| :: IsSpace(s[i]))
  }

  /** There is at most one way to cut blank padding off a string. */
  lemma TrimsUnique(s: string, lo: int, hi: int, lo': int, hi': int)
    requires Trims(s, lo, hi) && Trims(s, lo', hi')
    ensures lo == lo' && hi == hi'
  {
  }

  /** Blank text followed by blank text is blank. */
  lemma BlankConcat(a: string, b: string)
    requires IsBlank(a) && IsBlank(b)
    ensures IsBlank(a + b)
  {
    forall i | 0 <= i < |a + b|
      ensures IsSpace((a + b)[i])
    {
      if i >= |a| {
        assert (a + b)[i] == b[i - |a|];
      }
    }
  }

  /** `strip()` removes exactly the blank padding around a stripped text. */
  lemma StripPadded(a: string, t: string, b: string)
    requires IsBlank(a) && IsStripped(t) && IsBlank(b)
    ensures Strip(a + t + b) == t
  {
    var s := a + t + b;
    if t == [] {
      assert s == a + b;
      BlankConcat(a, b);
    } else {
      assert forall i | 0 <= i < |a| :: s[i] == a[i];
      assert forall i | |a| + |t| <= i < |s| :: s[i] == b[i - |a| - |t|];
      assert s[|a|] == t[0] && s[|a| + |t| - 1] == t[|t| - 1];
      StripTrims(s, |a|, |a| + |t|);
      assert s[|a|..|a| + |t|] == t;
    }
  }

  /** Where the blank padding is known, `strip()` keeps what lies between. */
  lemma StripTrims(s: string, lo: int, hi: int)
    requires Trims(s, lo, hi)
    ensures Strip(s) == s[lo..hi]
  {
    var lo' := SkipSpaces(s, 0);
    var hi' := DropSpaces(s, lo', |s|);
    assert lo' <= lo;
    assert hi' >= hi;
    TrimsUnique(s, lo, hi, lo', hi');
  }

  /** A string that is already stripped is left alone by `strip()`. */
  lemma StripStripped(s: string)
    requires IsStripped(s)
    ensures Strip(s) == s
  {
  }

  /** `p` occurs in `s` starting at index `i`. */
  predicate OccursAt(s: string, p: string, i: nat) {
    i + |p| <= |s| && s[i..i + |p|] == p
  }

  /** Python's `p in s`. */
  predicate Contains(s: string, p: string) {
    exists i: nat | i <= |s| :: OccursAt(s, p, i)
  }

  /** Python's `s.startswith(p)`. */
  predicate StartsWith(s: string, p: string) {
    OccursAt(s, p, 0)
  }

  /** A string starts with any of its prefixes. */
  lemma PrefixStartsWith(p: string, rest: string)
    ensures StartsWith(p + rest, p)
  {
    assert (p + rest)[..|p|] == p;
  }

  /** The leftmost occurrence of `p` in `s` at or after `from`, as
      `s.find(p, from)` reports it. */
  function FindFrom(s: string, p: string, from: nat): (r: Option<nat>)
    decreases |s| + 1 - from
    ensures r.Some? ==> from <= r.value && OccursAt(s, p, r.value)
    ensures r.Some? ==> forall k: nat | from <= k < r.value :: !OccursAt(s, p, k)
    ensures r.None? ==> forall k: nat | from <= k :: !OccursAt(s, p, k)
  {
    if from > |s| then None
    else if OccursAt(s, p, from) then Some(from)
    else FindFrom(s, p, from + 1)
  }

  /** Python's `s.split(sep)` for a one-character separator: never empty,
      and no piece holds the separator. */
  function Split(s: string, sep: char): (r: seq<string>)
    decreases |s|
    ensures |r| >= 1
    ensures forall i | 0 <= i < |r| :: sep !in r[i]
  {
    if |s| == 0 then [""]
    else
      var rest := Split(s[1..], sep);
      if s[0] == sep then [""] + rest
      else [[s[0]] + rest[0]] + rest[1..]
  }

  /** Python's `sep.join(parts)` for a one-character separator. */
  function Join(parts: seq<string>, sep: char): string
    decreases |parts|
  {
    if |parts| == 0 then ""
    else if |parts| == 1 then parts[0]
    else parts[0] + [sep] + Join(parts[1..], sep)
  }

  /** Four parts joined: each followed by the separator, except the last. */
  lemma JoinFour(a: string, b: string, c: string, d: string, sep: char)
    ensures Join([a, b, c, d], sep) == a + [sep] + b + [sep] + c + [sep] + d
  {
    assert [c, d][1..] == [d];
    assert Join([c, d], sep) == c + [sep] + d;
    assert [b, c, d][1..] == [c, d];
    assert Join([b, c, d], sep) == b + [sep] + (c + [sep] + d);
    assert [a, b, c, d][1..] == [b, c, d];
  }

  /** Joining the pieces of a split restores the original string. */
  lemma {:induction false} JoinSplit(s: string, sep: char)
    decreases |s|
    ensures Join(Split(s, sep), sep) == s
  {
    if |s| > 0 {
      var rest := Split(s[1..], sep);
      JoinSplit(s[1..], sep);
      if s[0] == sep {
        assert Split(s, sep) == [""] + rest;
        assert ([""] + rest)[1..] == rest;
        assert s == [sep] + s[1..];
      } else if |rest| == 1 {
        assert s == [s[0]] + s[1..];
      } else {
        var parts := Split(s, sep);
        assert parts[1..] == rest[1..];
        assert Join(rest, sep) == rest[0] + [sep] + Join(rest[1..], sep);
        assert s == [s[0]] + s[1..];
      }
    }
  }

  /** A leading run free of the separator sticks to the first piece. */
  lemma {:induction false} SplitPrefix(a: string, t: string, sep: char)
    requires sep !in a
    decreases |a|
    ensures Split(a + t, sep) == [a + Split(t, sep)[0]] + Split(t, sep)[1..]
  {
    if |a| > 0 {
      SplitPrefix(a[1..], t, sep);
      assert (a + t)[1..] == a[1..] + t;
      assert (a + t)[0] == a[0];
      assert [a[0]] + (a[1..] + Split(t, sep)[0]) == a + Split(t, sep)[0];
    } else {
      var parts := Split(t, sep);
      assert a + t == t;
      assert a + parts[0] == parts[0];
      assert parts == [parts[0]] + parts[1..];
    }
  }

  /** Splitting a join of separator-free pieces gives the pieces back. */
  lemma {:induction false} SplitJoin(parts: seq<string>, sep: char)
    requires |parts| >= 1
    requires forall i | 0 <= i < |parts| :: sep !in parts[i]
    decreases |parts|
    ensures Split(Join(parts, sep), sep) == parts
  {
    if |parts| == 1 {
      SplitPrefix(parts[0], "", sep);
      assert Split("", sep) == [""];
      assert parts[0] + "" == parts[0];
    } else {
      var tail := Join(parts[1..], sep);
      SplitJoin(parts[1..], sep);
      assert Join(parts, sep) == parts[0] + ([sep] + tail);
      SplitPrefix(parts[0], [sep] + tail, sep);
      assert ([sep] + tail)[1..] == tail;
      var rest := Split([sep] + tail, sep);
      assert rest == [""] + Split(tail, sep);
      assert rest[0] == "" && rest[1..] == parts[1..];
      assert parts[0] + rest[0] == parts[0];
      assert parts == [parts[0]] + parts[1..];
    }
  }

  /** Joining two non-empty lists puts one separator between the halves. */
  lemma {:induction false} JoinAppend(a: seq<string>, b: seq<string>, sep: char)
    requires |a| >= 1 && |b| >= 1
    decreases |a|
    ensures Join(a + b, sep) == Join(a, sep) + [sep] + Join(b, sep)
  {
    if |a| > 1 {
      JoinAppend(a[1..], b, sep);
      assert (a + b)[1..] == a[1..] + b;
    } else {
      assert (a + b)[1..] == b;
    }
  }

  function LowerChar(c: char): char {
    if 'A' <= c <= 'Z' then (c as int + 32) as char else c
  }

  function UpperChar(c: char): char {
    if 'a' <= c <= 'z' then (c as int - 32) as char else c
  }

  /** Python's `s.lower()` on ASCII letters. */
  function Lower(s: string): string {
    seq(|s|, i requires 0 <= i < |s| => LowerChar(s[i]))
  }

  /** Python's `s.upper()` on ASCII letters. */
  function Upper(s: string): string {
    seq(|s|, i requires 0 <= i < |s| => UpperChar(s[i]))
  }

  /** Python's `s.capitalize()` on ASCII letters: first character upper
      case, the rest lower case. */
  function Capitalize(s: string): string {
    if |s| == 0 then "" else [UpperChar(s[0])] + Lower(s[1..])
  }

  /** Upper-casing and capitalising depend only on the lower-case form. */
  lemma CaseFolding(a: string, b: string)
    requires Lower(a) == Lower(b)
    ensures Upper(a) == Upper(b)
    ensures Capitalize(a) == Capitalize(b)
  {
    assert |a| == |Lower(a)| == |Lower(b)| == |b|;
    forall i | 0 <= i < |a|
      ensures UpperChar(a[i]) == UpperChar(b[i])
    {
      assert LowerChar(a[i]) == Lower(a)[i] == Lower(b)[i] == LowerChar(b[i]);
    }
    if |a| > 0 {
      assert Lower(a[1..]) == Lower(a)[1..] == Lower(b)[1..] == Lower(b[1..]);
    }
  }

  function DigitChar(d: nat): char
    requires d < 10
  {
    ('0' as int + d) as char
  }

  /** Python's `str(n)` for a natural number. */
  function NatToString(n: nat): (r: string)
    decreases n
    ensures |r| >= 1 && forall i | 0 <= i < |r| :: '0' <= r[i] <= '9'
  {
    if n < 10 then [DigitChar(n)] else NatToString(n / 10) + [DigitChar(n % 10)]
  }

  /** Python's `str(i)` for an integer. */
  function IntToString(i: int): string {
    if i < 0 then "-" + NatToString(-i) else NatToString(i)
  }

  /** Python's `a <= b` on strings: code-point lexicographic order, with a
      proper prefix ordered first. */
  predicate LexLe(a: string, b: string)
    decreases |a|
  {
    |a| == 0 || (|b| > 0 && (a[0] < b[0] || (a[0] == b[0] && LexLe(a[1..], b[1..]))))
  }

  lemma {:induction false} LexLeTotal(a: string, b: string)
    decreases |a|
    ensures LexLe(a, b) || LexLe(b, a)
  {
    if |a| > 0 && |b| > 0 && a[0] == b[0] {
      LexLeTotal(a[1..], b[1..]);
    }
  }

  lemma {:induction false} LexLeAntisymmetric(a: string, b: string)
    requires LexLe(a, b) && LexLe(b, a)
    decreases |a|
    ensures a == b
  {
    if |a| > 0 {
      LexLeAntisymmetric(a[1..], b[1..]);
      assert a == [a[0]] + a[1..] && b == [b[0]] + b[1..];
    }
  }

  lemma {:induction false} LexLeTransitive(a: string, b: string, c: string)
    requires LexLe(a, b) && LexLe(b, c)
    decreases |a|
    ensures LexLe(a, c)
  {
    if |a| > 0 && a[0] == b[0] && b[0] == c[0] {
      LexLeTransitive(a[1..], b[1..], c[1..]);
    }
  }
}
